# in-formant analysis core in Dafny

in-formant is a real-time speech analyser: it records or loads audio, shows
a waveform and a spectrogram, and tracks pitch and formants. This project
models its analysis side and proves properties of the model:

- the flat two-dimensional table (`vector2d`) the formant tracker stores its candidates in;
- the audio track, with its bounds-checked `data` copy and append-only growth;
- the three display controllers:
  - the spectrogram controller: FFT memo, eviction, decimated block selection and transpose;
  - the waveform controller: sample view or min/max/RMS summary chosen by zoom;
  - the pitch controller: sample cursor, correlation lag set, peak picking, candidate cost, run-length gating, range queries and voicing interpolation;
- the dynamic-programming formant tracker: recursive candidate enumeration, lattice costs and backtrace;
- the ESPS-derived numeric routines:
  - `integerize`/`eround`, `rwindow`, `autoc`, `durbin`, `lpc`;
  - `dcwmtrx`, `dchlsky`, `dreflpc`, `qquad`, `formant`, `lpc_poles`;
- the helpers: `util.h` vector utilities and `findPeaks`, the settings map accessors, the file-format string helpers, `next_pow2` and `truncated_fbins`, and the playback callback.

There is one Dafny module per source file (`vector2d.dfy` for
`vector2d.h`, `formants.dfy` for `controller/formants.cpp`, and so on).
There are also two shared modules:

- `wrappers.dfy`: Option and Result;
- `cnum.dfy`: C++ truncating casts, integer division, `std::floor`/`std::ceil`, and `resize`.

Code that updates state in place is modelled imperatively:

- Classes with `modifies` frames: `AudioTrack`, `Vector2d.Matrix`, the three controllers, `FormantTracking` and its `CandySt`, `Settings`, and the statics of the harmonic change detector.
- Arrays where the source writes through pointers: `autoc`, `durbin`, `dcwmtrx`, `dchlsky`, `dreflpc`, `rwindow` and `lpc`, the playback buffer, and the pitch buffer.

Each such method is proved against a specification function, and the lemmas state the properties of that function.

Doubles are `real`. Integer division, casts and rounding follow C++ explicitly: truncation toward zero, and `std::round` rounding halves away from zero.

Some code is foreign. These are function-typed parameters and their results are not interpreted:

- the FFT, `sqrt`, `cos`, `log10`, `exp` and `atan2`;
- the speex resampler and the polynomial root finder `lbpoly`;
- the window tables;
- the text conversions of the settings.

## Model

| member | source | states |
|---|---|---|
| Routines.ERound | src/app/processing/routines/routines.h:12-14 | `eround` is within one half of its argument, rounds exact halves away from zero, and is non-negative for a non-negative argument |
| Routines.ERoundOdd | src/app/processing/routines/routines.h:12-14 | rounding is symmetric: `eround(-x) == -eround(x)` |
| Routines.SampleCount | src/app/processing/routines/routines.h:7-8 | `(int)(.5 + freq*time)` is the nearest whole sample count (ties upward) whenever freq·time is non-negative |
| Routines.Integerize | src/app/processing/routines/routines.h:7-10 | the time returned by `integerize`, times freq, is exactly that whole sample count; it is non-negative for non-negative inputs |
| AudioTrack.Slice | src/app/processing/audiotrack.cpp:69-83 | `data(offset, length)`: empty for an offset outside the track, the rest of the track for a negative length, otherwise exactly `length` samples, each equal to the track sample at offset + i |
| AudioTrack.SliceOfExtended | src/app/processing/audiotrack.cpp:48-49 | appending samples never changes a slice that already lay inside the track |
| AudioTrack.SliceSplit | src/app/processing/audiotrack.cpp:69-83 | two adjacent slices concatenate to the slice covering both |
| AudioTrack.AudioTrack.constructor | src/app/processing/audiotrack.cpp:8-16 | a new track is empty with sample rate 0 |
| AudioTrack.AudioTrack.Append | src/app/processing/audiotrack.cpp:20-50 | on a resampler error the track is unchanged; otherwise the resampled chunk is appended at the end |
| AudioTrack.AudioTrack.Reset | src/app/processing/audiotrack.cpp:52 | the track becomes empty |
| AudioTrack.AudioTrack.SetSampleRate | src/app/processing/audiotrack.cpp:54-61 | the rate becomes the new one; the samples are resampled only when the old rate was positive and differs, and are otherwise kept |
| AudioTrack.AudioTrack.ResampleTrack | src/app/processing/audiotrack.cpp:87-128 | the samples are replaced by their resampled version, or left as they were when the resampler fails |
| AudioTrack.AudioTrack.Duration | src/app/processing/audiotrack.cpp:65 | duration times rate is the sample count |
| AudioTrack.AudioTrack.SampleCount | src/app/processing/audiotrack.cpp:67 | the number of samples held |
| AudioTrack.AudioTrack.Data | src/app/processing/audiotrack.cpp:69-83 | the member form of `Slice` on the current samples |
| SetupAudio.PlaybackCallback | src/app/audio/setup_audio.cpp:72-93 | playback continues exactly while the play cursor is before the end of the track; then the buffer holds the next min(buffer, remaining) track samples followed by zeros and the cursor (samples and seconds) advances by the whole buffer length; past the end nothing changes |
| Vector2d.FlatIndexInRange | src/app/processing/vector2d.h:72 | a cell inside a rows×cols matrix has a flat position inside the storage |
| Vector2d.FlatIndexInjective | src/app/processing/vector2d.h:72 | two cells with in-range columns never share a flat position |
| Vector2d.FlatIndexRoundTrip | src/app/processing/vector2d.h:72 | every flat position k is the cell (k / cols, k % cols) |
| Vector2d.CellInStorage | src/app/processing/routines/dchlsky.cpp:11-13 | each cell `a[i·n + j]` that `dchlsky` reads lies inside the n·n storage |
| Vector2d.SetCell | src/app/processing/routines/dchlsky.cpp:19-25 | `dchlsky`'s write `a[k]` to a cell keeps the storage length |
| Vector2d.CellUpdate | src/app/processing/routines/dchlsky.cpp:19-25 | writing cell (i, j) of a square matrix changes that cell to v and no other cell |
| Vector2d.SetCellBeyond | src/app/processing/routines/dchlsky.cpp:19-25 | storage beyond the n·n cells is untouched by a cell write |
| Vector2d.Matrix.constructor | src/app/processing/vector2d.h:14-15 | `vector2d(rows, cols, value)` has the given shape and every cell holds value |
| Vector2d.Matrix.Empty | src/app/processing/vector2d.h:17 | the default matrix has no rows, no columns and no storage |
| Vector2d.Matrix.Resize | src/app/processing/vector2d.h:23-27 | the shape becomes rows×cols and the storage is the old storage resized to rows·cols, new slots filled |
| Vector2d.Matrix.Clear | src/app/processing/vector2d.h:31-34 | shape 0×0 and empty storage |
| Vector2d.Matrix.Get | src/app/processing/vector2d.h:36-70 | a read succeeds exactly for an in-bounds cell and returns it; otherwise a domain error |
| Vector2d.Matrix.Set | src/app/processing/vector2d.h:41-70 | a write succeeds exactly in bounds, sets that cell and keeps every other cell; out of bounds it raises a domain error and changes nothing |
| Vector2d.Matrix.Row | src/app/processing/vector2d.h:46-64 | a row view exists exactly for 0 <= i < rows and shows that row's cells |
| Autoc.EnergyNonNegative | src/app/processing/routines/autoc.cpp:30-32 | the window energy is never negative, so the negative-energy diagnostic cannot fire |
| Autoc.LagZeroIsEnergy | src/app/processing/routines/autoc.cpp:11 | the lag-0 sum equals the energy, so the fixed r[0] = 1 is the normalised lag-0 value |
| Autoc.Autoc | src/app/processing/routines/autoc.cpp:5-34 | r[0] = 1; with zero energy e = 1 and r[1..p] = 0; otherwise each r[i] is the lag-i sum over the window divided by the energy and e = sqrt(energy / windowSize); nothing past r[p] is written |
| RWindow.Windowed | src/app/processing/routines/rwindow.cpp:3-14 | n samples; without pre-emphasis they are the input samples from ioff on |
| RWindow.DeEmphasized | src/app/processing/routines/rwindow.cpp:5-8 | the inverse recurrence of pre-emphasis, starting from the first raw sample |
| RWindow.DeEmphasisStep | src/app/processing/routines/rwindow.cpp:5-8 | one more pre-emphasised sample de-emphasises to one more raw sample |
| RWindow.DeEmphasisRecoversSamples | src/app/processing/routines/rwindow.cpp:5-8 | pre-emphasis is invertible: de-emphasising the window from in[ioff] recovers the n + 1 raw samples |
| RWindow.RWindow | src/app/processing/routines/rwindow.cpp:3-14 | out[0..n) becomes the windowed samples; every slot from n on is unchanged |
| Dreflpc.StepUp | src/app/processing/routines/dreflpc.cpp:7-15 | one order of the step-up recursion: a[0] kept, the new last coefficient is c, every inner coefficient is a[j] + c·a[i-j] |
| Dreflpc.StepUpMiddle | src/app/processing/routines/dreflpc.cpp:9-13 | the middle coefficient, its own mirror image, is scaled by 1 + c (the in-place pass j == k) |
| Dreflpc.StepDown | src/app/processing/routines/dreflpc.cpp:7-15 | the partner of StepUp: the inverse recursion for a last coefficient other than ±1 |
| Dreflpc.UnmixPair | src/app/processing/routines/dreflpc.cpp:10-13 | un-mixing a mixed mirror pair returns the original coefficient |
| Dreflpc.StepDownUndoesStepUp | src/app/processing/routines/dreflpc.cpp:7-15 | StepDown(StepUp(a, c)) == a for every c other than ±1 |
| Dreflpc.Reflpc | src/app/processing/routines/dreflpc.cpp:3-16 | the predictor of order n: n + 1 coefficients, a[0] = 1, a[n] = c[n-1] |
| Dreflpc.PairsMixed | src/app/processing/routines/dreflpc.cpp:9-14 | the inner loop's passes keep the length |
| Dreflpc.PairsMixedStep | src/app/processing/routines/dreflpc.cpp:9-14 | pass j mixes the pair (j, i-j) and nothing else |
| Dreflpc.AllPairsMixedAt | src/app/processing/routines/dreflpc.cpp:9-14 | after the last pass, coefficient t <= i is the step-up's |
| Dreflpc.AllPairsMixed | src/app/processing/routines/dreflpc.cpp:9-14 | after the last pass a[0..i] is the step-up of a[0..i) with c[i-1], and the tail is untouched |
| Dreflpc.MixPair | src/app/processing/routines/dreflpc.cpp:10-13 | one pass sets a[j] and a[k] from their old values, also when j == k |
| Dreflpc.StepUpInPlace | src/app/processing/routines/dreflpc.cpp:9-14 | the in-place inner loop computes StepUp of the prefix and leaves the tail |
| Dreflpc.NextOrder | src/app/processing/routines/dreflpc.cpp:7-15 | one outer pass turns the order-(i-1) predictor into the order-i predictor |
| Dreflpc.Dreflpc | src/app/processing/routines/dreflpc.cpp:3-16 | a[0..n] becomes the reflection-to-predictor conversion of c (order 1 when n <= 1); later slots are unchanged |
| Durbin.Poly | src/app/processing/routines/durbin.cpp:9-19 | the predictor with its implicit leading 1 made explicit |
| Durbin.DurbinState | src/app/processing/routines/durbin.cpp:7-27 | the recursion to order n, when defined, has n reflection coefficients and an (n + 1)-term predictor starting with 1 |
| Durbin.DurbinStep | src/app/processing/routines/durbin.cpp:13-27 | order n is order n-1 (with a non-zero error) followed by one step: the reflection coefficient, the step-up, the shrunk error |
| Durbin.DurbinPrefix | src/app/processing/routines/durbin.cpp:13-27 | a recursion that reaches order n passed every lower order with the same leading reflection coefficients |
| Durbin.StepBack | src/app/processing/routines/durbin.cpp:13-27 | an order that succeeds was preceded by one that succeeded, with the same coefficients so far |
| Durbin.LastCoefficientIsReflection | src/app/processing/routines/durbin.cpp:18-19 | after order n the last predictor coefficient is that order's reflection coefficient |
| Durbin.ErrorIsScaled | src/app/processing/routines/durbin.cpp:7-26 | the error of every order is r[0] scaled once by 1 - k² per reflection coefficient |
| Durbin.ErrorAfterIsProduct | src/app/processing/routines/durbin.cpp:11-26 | scaling in turn equals scaling once by the product of the factors |
| Durbin.InsideUnitFactor | src/app/processing/routines/durbin.cpp:26 | 1 - k² is positive for k strictly inside (-1, 1) |
| Durbin.ErrorAfterPositive | src/app/processing/routines/durbin.cpp:11-26 | a positive error scaled by factors of coefficients inside (-1, 1) stays positive |
| Durbin.StableErrorPositive | src/app/processing/routines/durbin.cpp:7-28 | with r[0] > 0 and every reflection coefficient inside (-1, 1), the returned error is positive |
| Durbin.PredictionSum | src/app/processing/routines/durbin.cpp:14-17 | the loop's s is minus the correlation of the predictor with the mirrored lags |
| Durbin.StepUpCoefficients | src/app/processing/routines/durbin.cpp:19-25 | the copy-and-add loops turn the order-i predictor into its step-up with k[i] and leave later slots |
| Durbin.CopyPrefix | src/app/processing/routines/durbin.cpp:20-22 | b[0..i] receives a copy of a[0..i] |
| Durbin.AddMirrored | src/app/processing/routines/durbin.cpp:23-25 | a[j] becomes its old value plus k·(old mirror coefficient) for j < i; later slots unchanged |
| Durbin.SteppedUp | src/app/processing/routines/durbin.cpp:19-25 | mixed coefficients followed by k make up the stepped-up predictor |
| Durbin.Order | src/app/processing/routines/durbin.cpp:14-26 | one loop pass: k[i] is the order's reflection coefficient, the predictor is stepped up with it, the error shrinks by 1 - k[i]², earlier coefficients are kept |
| Durbin.NextOrder | src/app/processing/routines/durbin.cpp:13-27 | the loop body advances the arrays and the error from the order-i state to the order-(i+1) state |
| Durbin.AllStates | src/app/processing/routines/durbin.cpp:13-27 | the states of every order up to one that succeeds exist and are listed |
| Durbin.DurbinForward | src/app/processing/routines/durbin.cpp:13-27 | from a state with a non-zero error the next order is one recursion step |
| Durbin.NextState | src/app/processing/routines/durbin.cpp:13-27 | a successful next order came from a state with a non-zero error, by one step |
| Durbin.FirstOrder | src/app/processing/routines/durbin.cpp:7-11 | order 1 before the loop: k[0] = a[0] = -r[1]/r[0] and error r[0]·(1 - k[0]²), the order-1 state |
| Durbin.Durbin | src/app/processing/routines/durbin.cpp:3-29 | k and a receive the reflection coefficients and predictor of order max(p, 1) and the result is that order's prediction error; nothing past index max(p,1)-1 is written |
| Lpc.Autocorrelation | src/app/processing/routines/lpc.cpp:41-46 | lags 0..m of the window's autocorrelation, each the sum of w[i]·w[i-lag] over the window |
| Lpc.LagZeroIsWindowEnergy | src/app/processing/routines/lpc.cpp:44-45 | lag 0 of the autocorrelation is the window energy |
| Lpc.LagProductIsLagSum | src/app/processing/routines/lpc.cpp:44 | the lag sum as `lpc` writes it equals the lag sum as `autoc` writes it |
| Lpc.FirstOrder | src/app/processing/routines/lpc.cpp:51-53 | order 1: a two-term predictor starting with 1 |
| Lpc.LpcState | src/app/processing/routines/lpc.cpp:51-69 | the recursion to order i, when it does not stop, has i + 1 coefficients starting with 1 and, past order 1, a positive gain |
| Lpc.LpcUnfold | src/app/processing/routines/lpc.cpp:55-69 | one order of the recursion: prediction, reflection, step-up and gain update, failing exactly when the gain is not positive |
| Lpc.LpcPrefix | src/app/processing/routines/lpc.cpp:66-68 | once the gain fails every higher order fails too |
| Lpc.LagDotSplits | src/app/processing/routines/lpc.cpp:57 | with a[0] = 1 the prediction is lag n plus the correlation Durbin's recursion uses |
| Lpc.GainIsShrunk | src/app/processing/routines/lpc.cpp:58-65 | the gain update gain + rc·s equals Durbin's error update gain·(1 - rc²) |
| Lpc.FirstGainIsShrunk | src/app/processing/routines/lpc.cpp:52-53 | the first gain is Durbin's first error |
| Lpc.LpcAgreesWithDurbin | src/app/processing/routines/lpc.cpp:51-69 | the inline recursion of `lpc` and `durbin` (durbin.cpp:7-27) compute the same predictor and the same gain at every order `lpc` reaches |
| Lpc.OrderAgrees | src/app/processing/routines/lpc.cpp:55-69 | one order of both recursions from agreeing states agrees again |
| Lpc.StepsAgree | src/app/processing/routines/lpc.cpp:56-65 | the reflection coefficient and the gain of one `lpc` order are Durbin's |
| Lpc.PairUpdate | src/app/processing/routines/lpc.cpp:60-62 | both entries of the pair take their new values from the old ones, also when j == k; nothing else changes |
| Lpc.StepUpShifted | src/app/processing/routines/lpc.cpp:59-64 | the pair loop plus a[i+1] = rc computes the step-up of the one-based predictor |
| Lpc.MixPairs | src/app/processing/routines/lpc.cpp:59-63 | after the pair loop each entry 2..i is mixed with its mirror image |
| Lpc.ShiftedStepUp | src/app/processing/routines/lpc.cpp:59-64 | mixed entries followed by rc are the stepped-up predictor |
| Lpc.Predict | src/app/processing/routines/lpc.cpp:56-57 | s is the prediction of lag i by the current predictor |
| Lpc.Order | src/app/processing/routines/lpc.cpp:56-65 | one order: rc[i] = -s/gain, the predictor is stepped up with it, the new gain is gain + rc[i]·s, nothing else is written |
| Lpc.Autocorrelate | src/app/processing/routines/lpc.cpp:41-46 | r[1..m+1] becomes the autocorrelation lags 0..m |
| Lpc.Recursion | src/app/processing/routines/lpc.cpp:51-69 | succeeds exactly when the recursion reaches order m, and then holds its predictor and gain |
| Lpc.NextOrder | src/app/processing/routines/lpc.cpp:55-69 | one pass stops (gain <= 0) exactly when the order fails, else holds the next state |
| Lpc.CopyOut | src/app/processing/routines/lpc.cpp:75-77 | lpca becomes the m + 1 predictor coefficients a[1..m+1] |
| Lpc.Lpc | src/app/processing/routines/lpc.cpp:3-79 | false (lpca and rms untouched) exactly when wsize <= 0, the order exceeds MAXORDER, the window has no energy or a gain is not positive; otherwise lpca is the order-lpcOrd predictor and rms the final gain |
| Dchlsky.DotFrame | src/app/processing/routines/dchlsky.cpp:12-14 | the row product depends only on the cells it reads |
| Dchlsky.DiagFrame | src/app/processing/routines/dchlsky.cpp:18 | the determinant product depends only on the diagonal cells |
| Dchlsky.FactoredFrame | src/app/processing/routines/dchlsky.cpp:11-28 | a factored entry stays factored in any storage that agrees on the cells it reads |
| Dchlsky.WriteKeepsFactored | src/app/processing/routines/dchlsky.cpp:19-25 | a write at (R, C) keeps every entry factored before it |
| Dchlsky.WriteKeepsEarlier | src/app/processing/routines/dchlsky.cpp:19-25 | all the factored entries before (R, C) survive the write, whatever t holds from row R on |
| Dchlsky.WriteKeepsUntouched | src/app/processing/routines/dchlsky.cpp:19-25 | every cell after (R, C) in row-by-row order, and above the diagonal, still holds its input value |
| Dchlsky.WriteKeepsDiagonal | src/app/processing/routines/dchlsky.cpp:18-19 | a write at (R, C) keeps the determinant of the rows before R |
| Dchlsky.WriteKeepsPivot | src/app/processing/routines/dchlsky.cpp:11-14 | the pivot of (R, C) reads only columns before C, so the write does not change it |
| Dchlsky.WriteBelow | src/app/processing/routines/dchlsky.cpp:24-28 | the entry written below the diagonal, pivot·t[C], is factored and the rest of the state is kept |
| Dchlsky.WriteDiagonal | src/app/processing/routines/dchlsky.cpp:15-23 | the diagonal entry sqrt(pivot) finishes row R, t[R] becomes its reciprocal and the determinant gains it as a factor |
| Dchlsky.FactorReproduces | src/app/processing/routines/dchlsky.cpp:11-28 | with an exact square root, a factored entry satisfies A(r, q) = Σ L(r, p)·L(q, p) |
| Dchlsky.BelowReproduces | src/app/processing/routines/dchlsky.cpp:20-25 | an entry pivot·t scaled back by the diagonal d with t·d = 1 is the pivot |
| Dchlsky.DiagonalReproduces | src/app/processing/routines/dchlsky.cpp:17-19 | an exact square root squared is the pivot |
| Dchlsky.FactorizationHolds | src/app/processing/routines/dchlsky.cpp:3-32 | every finished row satisfies L·Lᵀ = A on the lower triangle (the partner property of the routine) |
| Dchlsky.DiagProductPositive | src/app/processing/routines/dchlsky.cpp:16-18 | the determinant of the rows factored so far is positive |
| Dchlsky.RowStart | src/app/processing/routines/dchlsky.cpp:7-10 | the flat loop bounds i < n·n and j <= i are exactly R < n and C <= R; i == j exactly on the diagonal |
| Dchlsky.DotStep | src/app/processing/routines/dchlsky.cpp:12-14 | one more term of the l loop is one more column of the row product, read at l and j + l - i |
| Dchlsky.PivotSum | src/app/processing/routines/dchlsky.cpp:11-14 | sm is the input entry minus the row product over the columns before c |
| Dchlsky.Diagonal | src/app/processing/routines/dchlsky.cpp:17-20 | the diagonal write stores sqrt(sm), t[R] = 1/sqrt(sm), det is multiplied by sqrt(sm) |
| Dchlsky.Below | src/app/processing/routines/dchlsky.cpp:25 | the below-diagonal branch writes exactly cell (R, C) |
| Dchlsky.RowEntry | src/app/processing/routines/dchlsky.cpp:11-28 | one j pass: stops on a non-positive diagonal pivot leaving everything, otherwise factors (R, C) and advances the state |
| Dchlsky.DiagonalEntry | src/app/processing/routines/dchlsky.cpp:15-23 | the diagonal branch finishes row R and the determinant gains the new diagonal entry |
| Dchlsky.BelowEntry | src/app/processing/routines/dchlsky.cpp:24-28 | the below-diagonal branch factors (R, C) and leaves the determinant |
| Dchlsky.Row | src/app/processing/routines/dchlsky.cpp:8-29 | one row: either it is finished and factored, or it stops at a non-positive diagonal pivot with the earlier entries factored |
| Dchlsky.Dchlsky | src/app/processing/routines/dchlsky.cpp:3-32 | returns the number m of rows factored: rows 0..m-1 are factored in place, m < n only when row m's diagonal pivot is not positive, and det is the product of the m diagonal entries |
| Dcwmtrx.CrossSymmetric | src/app/processing/routines/dcwmtrx.cpp:21-23 | the windowed product of s from two offsets does not depend on their order |
| Dcwmtrx.CovSymmetric | src/app/processing/routines/dcwmtrx.cpp:18-27 | the covariance of two delays is symmetric, as the mirrored writes of phi assume |
| Dcwmtrx.WeightedSquare | src/app/processing/routines/dcwmtrx.cpp:8 | a square weighted by a non-negative window value is non-negative |
| Dcwmtrx.CrossSelfNonNegative | src/app/processing/routines/dcwmtrx.cpp:8-22 | with a non-negative window a signal's windowed product with itself is non-negative |
| Dcwmtrx.CovDiagonalNonNegative | src/app/processing/routines/dcwmtrx.cpp:6-22 | with a non-negative window the energy ps and the diagonal of phi are non-negative |
| Dcwmtrx.CrossSum | src/app/processing/routines/dcwmtrx.cpp:20-23 | the k loop sums the windowed product of s from two offsets |
| Dcwmtrx.Energy | src/app/processing/routines/dcwmtrx.cpp:6-9 | ps is the windowed energy of the frame s[ni..nl) |
| Dcwmtrx.ShiEntry | src/app/processing/routines/dcwmtrx.cpp:12-15 | shi[i] becomes the covariance of the frame with its (i + 1)-sample delay; no other entry changes |
| Dcwmtrx.StorePair | src/app/processing/routines/dcwmtrx.cpp:24-25 | cells (i, j) and (j, i) of phi receive sm and no other cell changes |
| Dcwmtrx.PhiRow | src/app/processing/routines/dcwmtrx.cpp:19-26 | row i of phi and its mirror column receive the covariances of delays i + 1 and j + 1; other cells are kept |
| Dcwmtrx.Dcwmtrx | src/app/processing/routines/dcwmtrx.cpp:3-28 | ps is the frame energy, shi[i] the covariance with delay i + 1, phi the symmetric np×np covariance matrix of delays 1..np; nothing else is written |
| QQuad.RealPair | src/app/processing/routines/qquad.cpp:29-38 | the corrected real branch: both imaginary parts are 0 |
| QQuad.ComplexPair | src/app/processing/routines/qquad.cpp:40-45 | the complex branch: equal real parts -b/2a and opposite imaginary parts |
| QQuad.QQuad | src/app/processing/routines/qquad.cpp:5-47 | fails exactly when a = b = 0; a = 0 gives the linear root -c/b; a non-negative discriminant gives two real roots, a negative one a conjugate pair |
| QQuad.RealPairAsWritten | src/app/processing/routines/qquad.cpp:29-38 | the real branch as written divides by zero exactly when b >= 0 and b + sqrt(b² - 4ac) = 0 |
| QQuad.QQuadAsWritten | src/app/processing/routines/qquad.cpp:5-47 | the routine as written divides by zero exactly when a ≠ 0, b >= 0, the discriminant is non-negative and b + its root is 0 |
| QQuad.AsWrittenDividesZeroByZero | src/app/processing/routines/qquad.cpp:35-36 | for x² (a = 1, b = c = 0) the source computes its first root as 0/0 |
| QQuad.CorrectedDoubleRootAtZero | src/app/processing/routines/qquad.cpp:35-37 | the corrected routine gives the double root 0 of x² |
| QQuad.CorrectionOnlyAtZeroDivisor | src/app/processing/routines/qquad.cpp:5-47 | wherever the source does not divide by zero the corrected routine returns exactly what it returns |
| QQuad.ConjugateProduct | src/app/processing/routines/qquad.cpp:19-27 | (-b + q)(-b - q) = 4ac when q² is the discriminant: the identity behind the two forms of the formula |
| QQuad.PairVieta | src/app/processing/routines/qquad.cpp:31-37 | the pair y/2a and 2c/y satisfies Vieta's formulas |
| QQuad.VietaRoots | src/app/processing/routines/qquad.cpp:17-38 | two numbers satisfying Vieta's formulas are both roots |
| QQuad.VietaNegativeB | src/app/processing/routines/qquad.cpp:30-33 | the b < 0 branch's pair satisfies Vieta's formulas |
| QQuad.VietaNonNegativeB | src/app/processing/routines/qquad.cpp:34-38 | the b >= 0 branch's pair satisfies Vieta's formulas whenever its divisor is not zero |
| QQuad.VietaDoubleZero | src/app/processing/routines/qquad.cpp:34-38 | the corrected zero-divisor case (b = q = 0, so c = 0) gives the double root 0 |
| QQuad.RealPairVieta | src/app/processing/routines/qquad.cpp:29-38 | the real pair satisfies Vieta's formulas when q² = b² - 4ac |
| QQuad.RealPairSolves | src/app/processing/routines/qquad.cpp:29-38 | each number of the real pair solves a·x² + b·x + c = 0 |
| QQuad.RealRootsSolve | src/app/processing/routines/qquad.cpp:17-39 | with an exact square root, both real roots returned solve the equation |
| QQuad.LinearRootSolves | src/app/processing/routines/qquad.cpp:7-14 | the linear root solves b·x + c = 0 |
| QQuad.ScaledModulus | src/app/processing/routines/qquad.cpp:41-44 | the squared modulus of the conjugate pair times a is c |
| QQuad.ComplexPairSolves | src/app/processing/routines/qquad.cpp:40-45 | the pair -b/2a ± i·q/2a solves the equation when q² = 4ac - b² |
| QQuad.ComplexRootsSolve | src/app/processing/routines/qquad.cpp:40-46 | with an exact square root the conjugate pair returned solves the equation |
| Formant.Zip | src/app/processing/routines/formant.cpp:35-62 | pairs freq[i] with band[i]: the two vectors always move together |
| Formant.Freqs | src/app/processing/routines/formant.cpp:35 | the frequencies of the pairs, in order |
| Formant.Bands | src/app/processing/routines/formant.cpp:36 | the bandwidths of the pairs, in order |
| Formant.UnzipZip | src/app/processing/routines/formant.cpp:61-62 | splitting the pairs into the two vectors and zipping them again gives the pairs back |
| Formant.Filter | src/app/processing/routines/formant.cpp:57-70 | the kept entries are no more than the input and each one is of the kind kept |
| Formant.FilterConcat | src/app/processing/routines/formant.cpp:69-71 | filtering distributes over concatenation |
| Formant.FilterOfPrefixClosed | src/app/processing/routines/formant.cpp:69-74 | when the kept entries form a prefix, the filter is that prefix |
| Formant.Swap | src/app/processing/routines/formant.cpp:61-62 | `std::swap` on both vectors exchanges neighbours i and i+1 and nothing else |
| Formant.SwapPermutes | src/app/processing/routines/formant.cpp:61-62 | a swap permutes the pairs |
| Formant.SwapKeeps | src/app/processing/routines/formant.cpp:59-63 | a swap the sort makes (the right neighbour complex) keeps the real poles in order and the candidates as a multiset |
| Formant.SwapKeepsRealPoles | src/app/processing/routines/formant.cpp:59-63 | the real poles keep their relative order through such a swap |
| Formant.SwapKeepsCandidates | src/app/processing/routines/formant.cpp:61-62 | any swap keeps the multiset of candidates |
| Formant.KeptTrans | src/app/processing/routines/formant.cpp:54-65 | what the sort keeps is kept through a sequence of passes |
| Formant.BubbleStep | src/app/processing/routines/formant.cpp:56-63 | one comparison step carries the key-largest entry seen so far one place right, permuting the prefix and keeping the rest |
| Formant.Pass | src/app/processing/routines/formant.cpp:55-64 | one inner pass leaves the key-largest entry of s[0..e) at e-1, permutes the prefix and keeps the tail |
| Formant.PassExtends | src/app/processing/routines/formant.cpp:54-65 | each pass extends the sorted suffix by one |
| Formant.SortedFromStart | src/app/processing/routines/formant.cpp:54-65 | after the last pass the whole sequence is in key order |
| Formant.ComplexFirst | src/app/processing/routines/formant.cpp:45-60 | in key order the complex poles come first, in ascending frequency, before every real pole |
| Formant.BubbleSort | src/app/processing/routines/formant.cpp:53-65 | the sort permutes the pairs into key order: complex poles first in ascending frequency, real poles after in their original order, candidates kept as a multiset |
| Formant.CountCandidates | src/app/processing/routines/formant.cpp:67-72 | the counter ends as the number of candidates (1 < f < theta - 1) |
| Formant.SortedCandidatesFirst | src/app/processing/routines/formant.cpp:69-74 | after the sort the candidates are exactly the first nForm pairs, so the resize keeps them all |
| Formant.StartPoints | src/app/processing/routines/formant.cpp:5-15 | the real (cos) or imaginary (sin) starting points: lpcOrder + 1 values, all zero unless `init` |
| Formant.ToResonance | src/app/processing/routines/formant.cpp:28-34 | a root's frequency and bandwidth are non-negative (|theta/pi2t| and the sign flip) |
| Formant.Converted | src/app/processing/routines/formant.cpp:26-43 | the conversion loop yields at most one pole per remaining root, skipping a conjugate's twin, with non-negative frequency and bandwidth |
| Formant.Convert | src/app/processing/routines/formant.cpp:26-43 | the poles of the roots are appended after the pairs already in the vectors |
| Formant.Select | src/app/processing/routines/formant.cpp:53-74 | the kept pairs are exactly the candidates (as a multiset), in ascending frequency |
| Formant.Formant | src/app/processing/routines/formant.cpp:3-77 | false, nForm = 0 and vectors untouched exactly when the root finder fails; otherwise freq/band hold exactly the candidates among the old and new poles, each with its own bandwidth, in ascending frequency, and nForm is their count |
| Formant.FormantsOfRoots | src/app/processing/routines/formant.cpp:23-76 | with the roots found, freq/band hold exactly the candidates among the old and new poles (as a multiset of pairs), in ascending frequency, nForm of them |
| CNum.Zeros | src/app/processing/routines/lpc_poles.cpp:30-42 | a freshly sized vector: n zeros |
| LpcPoles.Run | src/app/processing/routines/lpc_poles.cpp:39-87 | the first n frames yield exactly n poles |
| LpcPoles.RunPrefix | src/app/processing/routines/lpc_poles.cpp:39-87 | a later frame never rewrites an earlier one: the first m frames of n are those of a run of m |
| LpcPoles.FrameAt | src/app/processing/routines/lpc_poles.cpp:39-87 | frame j of any run is computed from the state the first j frames left |
| LpcPoles.StateAfter | src/app/processing/routines/lpc_poles.cpp:74-86 | after j frames the energy is the last frame's rms and the root search restarts exactly when no frame ran yet or the last one was quiet (rms <= 1) |
| LpcPoles.RunFrames | src/app/processing/routines/lpc_poles.cpp:39-86 | frame j starts at sample j*step, has change 0, and a quiet frame has no poles and order-many zero frequencies and bandwidths |
| LpcPoles.LoudFrame | src/app/processing/routines/lpc_poles.cpp:44-81 | a frame's rms is the analyser's energy, and a loud frame carries what `formant` returned for its coefficients |
| LpcPoles.FrameLoop | src/app/processing/routines/lpc_poles.cpp:30-87 | the loop fills pole[0..numFrames) with exactly the frames of the run |
| LpcPoles.PolesOf | src/app/processing/routines/lpc_poles.cpp:6-93 | an order outside 2..MAXORDER or a frame count below 1 gives the empty array; otherwise numFrames poles over the given samples with the BSA overrides, integerized window and step, and rate 1/frameInterval |
| LpcPoles.LpcPoles | src/app/processing/routines/lpc_poles.cpp:6-93 | the same, with every frame analysed from the input samples cut to integers |
| LpcPoles.LpcPolesAsWritten | src/app/processing/routines/lpc_poles.cpp:23-36 | the same, with every frame analysed from `length` zeros, as the shadowing local vector makes it |
| LpcPoles.IntegerizeIdempotent | src/app/processing/routines/lpc_poles.cpp:17-21 | size and step computed from the integerized durations are the sample counts of the durations as given |
| LpcPoles.ShadowedInputIsZeros | src/app/processing/routines/lpc_poles.cpp:33-36 | a one-sample input of value 2 gives rms 0 as written and rms 2 as intended |
| LpcPoles.AsWrittenIgnoresSamples | src/app/processing/routines/lpc_poles.cpp:33-36 | as written, two inputs of the same length give the same frames |
| LpcPoles.Truncated | src/app/processing/routines/lpc_poles.cpp:33-36 | the samples cut toward zero to integers, one per input sample |
| Formants.PcSet | src/app/processing/controller/formants.cpp:82-97 | writing pc(r, c) changes that entry of the row-major table and no other |
| Formants.GrowsTrans | src/app/processing/controller/formants.cpp:81-117 | the growth of the candidate table over successive `candy` calls composes |
| Formants.GoodPersists | src/app/processing/controller/formants.cpp:81-117 | a row of good entries stays good while the table grows |
| Formants.RowsPersist | src/app/processing/controller/formants.cpp:81-117 | complete rows stay complete while the table grows |
| Formants.CloneLower | src/app/processing/controller/formants.cpp:96-97 | row `to` takes row `from`'s first f entries; every other entry is unchanged |
| Formants.LastAssigned | src/app/processing/controller/formants.cpp:110-111 | the backward scan stops at the last assigned column below j, or at column 0; every column it passed is unassigned |
| Formants.RestartPole | src/app/processing/controller/formants.cpp:108-114 | the restart pole index is never negative |
| Formants.RestartFrom | src/app/processing/controller/formants.cpp:107-114 | the backward scan of `candy` yields RestartPole |
| Formants.CandySpec | src/app/processing/controller/formants.cpp:81-117 | on success, row `cand` and every row opened by the call are complete mappings whose entries are -1 or a pole inside that formant's band, and no other row changed; None when a 601st row is opened |
| Formants.CandyTakeSpec | src/app/processing/controller/formants.cpp:84-103 | the branch where pole p fits formant f keeps the same guarantee |
| Formants.MergeSpec | src/app/processing/controller/formants.cpp:86-91 | the F1/F2 merger opens one new row with row cand's F1, and it ends complete and good |
| Formants.AlternativeSpec | src/app/processing/controller/formants.cpp:93-99 | the "other frequencies for this formant" row ends complete and good |
| Formants.CandyAsWritten | src/app/processing/controller/formants.cpp:81-117 | `candy` with its brace and else placement as written: the table keeps its size and the row index never goes back |
| Formants.CloneLoopAsWritten | src/app/processing/controller/formants.cpp:96-99 | the clone loop with the recursive call inside it: the table keeps its size and the row index never goes back |
| Formants.SlotCostBounds | src/app/processing/controller/formants.cpp:213-218 | a squared relative jump lies in [0, 4), is 0 exactly when the frequency stays put, and is symmetric |
| Formants.TransitionCostBounds | src/app/processing/controller/formants.cpp:208-222 | a connection costs 0 to 4 per formant, and 0 exactly when every formant is present in both mappings at the same frequency |
| Formants.TransitionCostSymmetric | src/app/processing/controller/formants.cpp:208-222 | connecting a to b costs what connecting b to a costs |
| Formants.Sums | src/app/processing/controller/formants.cpp:234-255 | the bias, bandwidth and nominal-distance sums are non-negative, and the bias is positive once a formant is counted |
| Formants.TrackWeights | src/app/processing/controller/formants.cpp:154-158 | for a positive sample rate the working weights are non-negative, and positive apart from the bias |
| Formants.LocalCostNonNegative | src/app/processing/controller/formants.cpp:234-259 | the local cost of a mapping is never negative |
| Formants.ArgMinFromSpec | src/app/processing/controller/formants.cpp:225-228 | the strict-less scan ends on the minimum of its start value and the costs, at the first position holding it |
| Formants.ConErrs | src/app/processing/controller/formants.cpp:208-224 | one connection cost per previous candidate, each the scaled transition cost plus that candidate's cumulative cost |
| Formants.BestPrevOptimal | src/app/processing/controller/formants.cpp:204-231 | the back-pointer is -1 or the first previous candidate of least connection cost, and the best cost is no more than any connection; 0 and -1 with no previous candidate |
| Formants.PairCost | src/app/processing/controller/formants.cpp:209-222 | the `l` loop computes the transition cost |
| Formants.BestPrevious | src/app/processing/controller/formants.cpp:204-229 | the `k` loop computes BestPrev |
| Formants.Connection | src/app/processing/controller/formants.cpp:209-224 | one pass of the `k` loop computes that candidate's connection cost |
| Formants.LocalCostOf | src/app/processing/controller/formants.cpp:234-259 | the local-cost loop computes the local cost |
| Formants.LocalSumsOf | src/app/processing/controller/formants.cpp:234-255 | the loop computes the three local sums |
| Formants.FrameCosts | src/app/processing/controller/formants.cpp:200-261 | each candidate's back-pointer is its best previous candidate and its cumulative cost is its local cost plus the best connection |
| Formants.StartCand | src/app/processing/controller/formants.cpp:274-285 | the start candidate is -1 exactly when the frame has none, and otherwise one of least cumulative cost |
| Formants.Incoming | src/app/processing/controller/formants.cpp:272-312 | the candidate handed down to frame i is -1 or one of frame i's candidates |
| Formants.LinkOf | src/app/processing/controller/formants.cpp:312 | in a well-formed lattice the back-pointer of any candidate of frame i is -1 or a candidate of frame i - 1, so following it from frame i stays inside frame i - 1 |
| Formants.Chosen | src/app/processing/controller/formants.cpp:273-286 | the candidate the back-trace reads is -1 or one of the frame's candidates |
| Formants.OutputsInRange | src/app/processing/controller/formants.cpp:297-318 | every reported frequency is positive and every bandwidth non-negative |
| Formants.Backtrace | src/app/processing/controller/formants.cpp:266-319 | formant j of frame i gets the chosen candidate's pole, else frame i+1's value, else the nominal frequency and NOBAND |
| Formants.BestStart | src/app/processing/controller/formants.cpp:275-284 | the start scan finds StartCand |
| Formants.FillChosen | src/app/processing/controller/formants.cpp:286-312 | a frame with a chosen candidate is filled with OutFreq/OutBand and the later frames are kept |
| Formants.FillNominal | src/app/processing/controller/formants.cpp:313-318 | a frame without one is filled with the nominal frequencies and NOBAND |
| Formants.NominalKept | src/app/processing/controller/formants.cpp:129-133 | writing entry i of the nominal tables keeps entries 0..i-1 as they were |
| Formants.NominalPositive | src/app/processing/controller/formants.cpp:128-134 | for positive f1 every nominal frequency is positive and below the top of its band |
| Formants.ScaledNonNegative | src/app/processing/controller/formants.cpp:130 | (2i+1)·f1 is positive for positive f1 |
| Formants.StatMax | src/app/processing/controller/formants.cpp:136-145 | the result bounds every frame's rms and is one of them, or `lowest()` when there are none |
| Formants.CandidatesGood | src/app/processing/controller/formants.cpp:119-126 | the rows `getFcand` leaves are complete mappings whose entries are -1 or a pole inside the formant's band |
| Formants.CopyCandidates | src/app/processing/controller/formants.cpp:189-195 | the lattice node receives the first ncan rows of the table, nForm entries each |
| Formants.PackTrack | src/app/processing/controller/formants.cpp:321-332 | form(j, i) is the frame's offset with fr(j, i) and ba(j, i), and the track has the poles' length and rate |
| Formants.NewCandidatesOk | src/app/processing/controller/formants.cpp:184-195 | the installed candidates map each formant to nothing or to a pole inside its band |
| Formants.LatticeOkAdded | src/app/processing/controller/formants.cpp:172-262 | installing frame i keeps the lattice well formed up to frame i |
| Formants.AdmissibleAdded | src/app/processing/controller/formants.cpp:172-262 | installing frame i keeps every candidate inside the formant bands |
| Formants.CostsAdded | src/app/processing/controller/formants.cpp:172-262 | installing frame i keeps the DP values of frames 1..i |
| Formants.CandySt.constructor | src/app/processing/controller/formants.cpp:121 | the enumeration state holds the frequencies, sizes and table it was given |
| Formants.FormantTracking.constructor | src/app/processing/controller/formants.cpp:69-75 | the default nominal frequencies and bands, with the merger allowed |
| Formants.FormantTracking.SetNominalFreqs | src/app/processing/controller/formants.cpp:128-134 | fnom[i] = (2i+1)·f1 with its band; for positive f1 every centre is positive and below its band's top |
| Formants.FormantTracking.GetStatMax | src/app/processing/controller/formants.cpp:136-145 | the loop computes StatMax |
| Formants.FormantTracking.Candy | src/app/processing/controller/formants.cpp:81-117 | the method changes the table and the row index as CandySpec says, and fails exactly when it does |
| Formants.FormantTracking.CandyTake | src/app/processing/controller/formants.cpp:84-103 | the method follows CandyTakeSpec |
| Formants.FormantTracking.CloneRow | src/app/processing/controller/formants.cpp:96-97 | the clone loop sets the table to CloneLower of the old table |
| Formants.FormantTracking.Merge | src/app/processing/controller/formants.cpp:86-91 | the method follows MergeSpec |
| Formants.FormantTracking.Alternative | src/app/processing/controller/formants.cpp:93-99 | the method follows AlternativeSpec |
| Formants.FormantTracking.GetFcand | src/app/processing/controller/formants.cpp:119-126 | pcan becomes the enumerated table and ncan the candidate count (last index + 1); false stands for the domain error |
| Formants.FormantTracking.TrackFrame | src/app/processing/controller/formants.cpp:172-262 | a frame's node holds well-formed candidates inside the bands and, past the first frame, its DP values |
| Formants.FormantTracking.FrameCandidates | src/app/processing/controller/formants.cpp:183-197 | with poles the node holds at least one candidate, all inside the bands; without, it has none and keeps its vectors |
| Formants.FormantTracking.FillLattice | src/app/processing/controller/formants.cpp:163-262 | the whole lattice is well formed, inside the bands, and holds the DP values |
| Formants.FormantTracking.Track | src/app/processing/controller/formants.cpp:147-335 | nominal frequencies set from nomF1 when positive; the merger switched off; on success a well-formed lattice with every candidate inside its band and the DP values, and a track reporting OutFreq/OutBand with each frame's offset; the only failure is the domain error |
| Formants.FormantTracking.TrackWithNominals | src/app/processing/controller/formants.cpp:152-335 | the same once the nominal frequencies are set |
| FormantsFindings.CandyAsWrittenDropsOnlyPole | src/app/processing/controller/formants.cpp:100-102 | as written, one 500 Hz pole and one formant leave F1 unassigned |
| FormantsFindings.CandyKeepsOnlyPole | src/app/processing/controller/formants.cpp:81-117 | as intended, the same input maps F1 to that pole |
| FormantsFindings.CandyAsWrittenLeavesStaleRow | src/app/processing/controller/formants.cpp:95-99 | as written, poles at 300 and 600 Hz open a second row that is never filled and keeps a stale entry |
| FormantsFindings.CandyFillsSecondRow | src/app/processing/controller/formants.cpp:93-99 | as intended, the second row maps F1 to the 600 Hz pole |
| Formants.LinkedFrame | src/app/processing/controller/formants.cpp:200-261 | a frame past the first with its candidates in place and the back-pointers and costs installed holds all the facts of a frame |
| HarmonicChangeDetector.OrBelow | src/app/processing/routines/eckf/harmonic_change_detector.cpp:42-47 | or-ing two values below 2^k stays below 2^k, so the cascade never leaves 64 bits |
| HarmonicChangeDetector.Step | src/app/processing/routines/eckf/harmonic_change_detector.cpp:42-47 | one step `y \|= y >> m` doubles the run of ones below the highest set bit, up to the whole width |
| HarmonicChangeDetector.CascadeFills | src/app/processing/routines/eckf/harmonic_change_detector.cpp:42-47 | after s steps the top min(2^s, L) of the L significant bits are ones |
| HarmonicChangeDetector.CascadeFull | src/app/processing/routines/eckf/harmonic_change_detector.cpp:42-47 | enough steps for the width set every bit below the highest one |
| HarmonicChangeDetector.SmearFills | src/app/processing/routines/eckf/harmonic_change_detector.cpp:42-47 | the six steps with shifts 1 to 32 smear any 64-bit value into 2^L - 1 |
| HarmonicChangeDetector.NextPow2Value | src/app/processing/routines/eckf/harmonic_change_detector.cpp:40-50 | for 1 <= x <= 2^63, `next_pow2(x)` is 2 to the bit length of x - 1 |
| HarmonicChangeDetector.NextPow2Least | src/app/processing/routines/eckf/harmonic_change_detector.cpp:40-50 | for 1 <= x <= 2^63, `next_pow2(x)` is at least x and no more than any power of two that is at least x |
| HarmonicChangeDetector.NextPow2OfPow2 | src/app/processing/routines/eckf/harmonic_change_detector.cpp:40-50 | a power of two up to 2^63 is its own `next_pow2` |
| HarmonicChangeDetector.NextPow2Wraps | src/app/processing/routines/eckf/harmonic_change_detector.cpp:41-48 | 0, and any value above 2^63, wraps around in the uint64_t decrement or increment to a result of 0 |
| HarmonicChangeDetector.NextPow2Within | src/app/processing/routines/eckf/harmonic_change_detector.cpp:26-50 | up to 2^30 the result stays within 2^30 and so fits the `int nfft` |
| HarmonicChangeDetector.Nfft | src/app/processing/routines/eckf/harmonic_change_detector.cpp:26 | the FFT length is at least 4·(minf + 1) and fits in an int |
| HarmonicChangeDetector.GridTop | src/app/processing/routines/eckf/harmonic_change_detector.cpp:72-78 | the last of the n grid points is fs/2 |
| HarmonicChangeDetector.GridRises | src/app/processing/routines/eckf/harmonic_change_detector.cpp:72-76 | for a positive rate each grid point lies above the one before |
| HarmonicChangeDetector.FbinsGrid | src/app/processing/routines/eckf/harmonic_change_detector.cpp:63-79 | the bins kept are grid points offset..n-1, rising for a positive rate and ending at fs/2; the extra final slot keeps what the resize left there |
| HarmonicChangeDetector.TruncatedFbins | src/app/processing/routines/eckf/harmonic_change_detector.cpp:63-79 | the loop leaves the vector Fbins describes |
| HarmonicChangeDetector.DetectorTables.constructor | src/app/processing/routines/eckf/harmonic_change_detector.cpp:22-23 | the statics start zeroed and empty |
| HarmonicChangeDetector.DetectorTables.HarmonicChangeDetector | src/app/processing/routines/eckf/harmonic_change_detector.cpp:16-37 | the result is always `HarmReturn{}`; the first call, with `fbins` empty, builds minf, nfft, nbins_below50, fbins, the Blackman and Poisson windows from the frame length and rate; later calls change nothing |
| Util.Diff | src/app/processing/util/util.h:9-18 | one fewer element than the input, each the difference of neighbours; empty for empty input |
| Util.Product | src/app/processing/util/util.h:20-27 | the element-wise product over the length of the first vector |
| Util.FindIndicesLessThan | src/app/processing/util/util.h:29-37 | exactly the 1-based positions of the elements below the threshold, in increasing order |
| Util.SelectElements | src/app/processing/util/util.h:39-47 | the elements at the given positions, in the given order |
| Util.Sign | src/app/processing/util/util.h:53-59 | 1, -1 or 0 exactly as the value is positive, negative or zero |
| Util.SignVector | src/app/processing/util/util.h:49-62 | each output is the sign of `sign` times the input element |
| Util.ParabolaThroughSamples | src/app/processing/util/util.h:75-80 | the interpolating parabola passes through the three samples |
| Util.ParabolicInterpolation | src/app/processing/util/util.h:64-83 | at an interior sample, the vertex of the parabola through the three samples (the sample itself when they are collinear); at 0, the lower of the first two samples, the first on a tie |
| Util.VertexOfParabola | src/app/processing/util/util.h:75-80 | the returned offset is the stationary point and the returned value the parabola there |
| Util.SeqMin | src/app/processing/util/util.h:89-116 | an element no larger than any other |
| Util.SeqMax | src/app/processing/util/util.h:91-92 | an element no smaller than any other |
| Util.PushIncreasing | src/app/processing/util/util.h:190-208 | recording a peak past the last one keeps the recorded peaks increasing |
| Util.SlotsWiden | src/app/processing/util/util.h:158-209 | recorded peaks within one bound are within any larger one |
| Util.SlotsRead | src/app/processing/util/util.h:212-215 | the first cInd - 1 slots are increasing positions within the bound |
| Util.ScanStep | src/app/processing/util/util.h:163-195 | one peak-and-valley step moves forward and keeps the scan invariant: the recorded peaks follow the peak rule (each more than sel above the minimum, each later one more than sel above a valley after the earlier, each earlier one more than sel above that valley), a checked slot more than sel above the minimum is never lost, and the first largest extremum, when checked and passed, is recorded or pending |
| Util.ScanPeaks | src/app/processing/util/util.h:157-209 | the scan result: peak positions increasing, inside the extrema and at most ceil(len/2); each peak more than sel above the minimum, neighbouring peaks separated by a valley more than sel below both; a last point, or a checked slot, more than sel above the minimum gives at least one peak; the first largest extremum, when it is checked or last and stands more than sel above the minimum, is one of the peaks |
| Util.FinishScan | src/app/processing/util/util.h:197-209 | the end-point check turns the scan invariant into the scan result: positions increasing, in range and within ceil(len/2), the peak rule kept, a peak recorded when the last point or a pending candidate stands more than sel above the minimum, and the first largest extremum among the peaks when it is eligible |
| Util.Extrema | src/app/processing/util/util.h:98-114 | index 0, then exactly the samples where the slope changes sign (flat steps counted as slightly falling), then len0; the values are the samples there, the last sample for len0; just the two ends exactly when the slope never changes sign |
| Util.Framed | src/app/processing/util/util.h:104-114 | framing the sign changes by 0 and len0 gives increasing candidates with their samples |
| Util.Drop | src/app/processing/util/util.h:138-147 | erasing position p shifts the later elements down by one |
| Util.DropKeeps | src/app/processing/util/util.h:134-150 | erasing keeps the indices increasing and candidates |
| Util.DropBounded | src/app/processing/util/util.h:134-150 | erasing keeps the lower bound minMag |
| Util.TrimStart | src/app/processing/util/util.h:126-150 | dropping the first or second point for alternating signs keeps at least two increasing candidates, all at least minMag, each value the sample at its index, and the last point; with a non-zero sign and a first three points that already alternate nothing is dropped |
| Util.SelectedKeeps | src/app/processing/util/util.h:213-215 | selecting candidates at increasing positions gives increasing candidates |
| Util.FindPeaks | src/app/processing/util/util.h:86-222 | the peaks are increasing indices, each 0, a sign change of the slope or len0; each is more than a quarter of the range above the minimum and neighbouring peaks are separated by a sample more than that below both; a signal whose slope never changes sign has none; one that does and ends more than a quarter of the range above its start has at least one; and with a non-zero sign a signal whose slope changes sign always has the first position of its largest sample among the peaks (len0 when that is the last sample) |
| Util.AppendRule | src/app/processing/util/util.h:186-192 | recording a peak more than sel above the minimum, after a fall of more than sel from the last peak and a rise of more than sel from a later valley, keeps the peak rule |
| Util.ProminentLifted | src/app/processing/util/util.h:212-215 | the peak rule over the extrema carries over to the sample indices they were taken from |
| Util.TurnsSound | src/app/processing/util/util.h:98-105 | every index where the product of neighbouring slopes is negative is a sign change of the slope |
| Util.TurnsComplete | src/app/processing/util/util.h:98-105 | every sign change of the slope is listed |
| Util.FramedValues | src/app/processing/util/util.h:107-114 | framing the sign changes by 0 and len0 pairs each index with its sample (the last sample for len0) and keeps every sign change |
| Util.ExtremaAboveMin | src/app/processing/util/util.h:116-117 | the smallest extremum is no smaller than the smallest sample |
| Util.ScanLifted | src/app/processing/util/util.h:211-215 | selecting the scan result from the extrema indices gives increasing candidate indices that keep the peak rule over the samples, a peak whenever the last sample stands out, and the index of the first largest extremum whenever the scan must keep it |
| Util.RiseStep | src/app/processing/util/util.h:163-178 | the rising half-step: a pending peak is dropped, and the slot becomes the candidate when it beats the candidate and stands more than sel above the left minimum; the scan invariant, including the tracking of the first largest extremum, holds one slot on |
| Util.FallStep | src/app/processing/util/util.h:184-195 | the falling half-step records the candidate exactly when it stands more than sel above the valley, and otherwise lowers the left minimum; the scan invariant, including the tracking of the first largest extremum, holds one slot on |
| Util.Record | src/app/processing/util/util.h:186-192 | writing the candidate into the next slot keeps the recorded peaks increasing and following the peak rule |
| Util.ResultAppended | src/app/processing/util/util.h:198-208 | recording one more peak at the end, past a fall from the last peak and a rise to it, gives the scan result |
| Util.SlopeTurns | src/app/processing/util/util.h:98-105 | exactly the sample positions where the slope changes sign, flat steps read as slightly falling, in increasing order |
| Util.SlopeProducts | src/app/processing/util/util.h:98-102 | with flat differences replaced, the products of neighbouring differences are the products of neighbouring slopes |
| Util.FramedTurns | src/app/processing/util/util.h:107-114 | framing the sign changes by 0 and len0 keeps every sign change and adds points between the ends exactly when the slope changes sign |
| Util.ScanExtrema | src/app/processing/util/util.h:123-220 | with more than two extrema, the peaks are increasing candidate indices following the peak rule over the samples, with one at least when the last sample stands more than sel above the minimum; with a non-zero sign the index of the first largest extremum is a peak whenever that extremum stands more than sel above the minimum |
| Util.FirstTop | src/app/processing/util/util.h:91-94 | the first position holding the largest element: no element is larger and every earlier one is smaller |
| Util.LastBottom | src/app/processing/util/util.h:89-90 | the last position holding the smallest element: no element is smaller and every later one is larger |
| Util.RiseTop | src/app/processing/util/util.h:163-178 | after the rising half-step the first largest extremum, once the scan has passed it at a checked slot, is recorded or is the pending candidate; before that, no candidate reaches it |
| Util.FallTop | src/app/processing/util/util.h:184-195 | the falling half-step moves a pending first largest extremum into the recorded peaks when it records, and otherwise leaves it pending |
| Util.FinishTop | src/app/processing/util/util.h:197-209 | at the end-point check the first largest extremum, when eligible, is recorded, is the last point that the check appends, or is the pending candidate it appends |
| Util.RunSign | src/app/processing/util/util.h:98-114 | between two framed indices the slope keeps the sign it has at the first |
| Util.RunValues | src/app/processing/util/util.h:98-114 | between two framed indices the samples rise strictly along a rising run and never rise along a falling one |
| Util.RunsAlternate | src/app/processing/util/util.h:98-114 | the runs on either side of an interior framed index slope in opposite directions |
| Util.ExtremaAlternate | src/app/processing/util/util.h:98-114 | the framed extrema alternate: each rises strictly to the next or does not rise, by the parity of its position and the direction of the first run |
| Util.FramedZigzag | src/app/processing/util/util.h:126-155 | the first three framed extrema never move the same way, so nothing is trimmed for a non-zero sign, and every extremum the scan does not check rises strictly to the next |
| Util.TopChecked | src/app/processing/util/util.h:152-209 | when every unchecked extremum rises to the next, the first largest one is checked or last |
| Util.TopOfExtrema | src/app/processing/util/util.h:98-114 | the first largest sample is a framed extremum and the first largest of them, at index TopIndex |
| Util.BottomOfExtrema | src/app/processing/util/util.h:116-117 | the last smallest sample is a framed extremum, so the smallest extremum is no larger than the smallest sample |
| Util.TurnRange | src/app/processing/util/util.h:89-94 | a signal whose slope changes sign has its largest sample above its smallest |
| Util.TopClears | src/app/processing/util/util.h:89-121 | with a sign change, the largest sample stands more than a quarter of the range above the smallest extremum |
| Util.TopPeak | src/app/processing/util/util.h:211-215 | the scan keeping the first largest extremum puts the first position of the largest sample (len0 for the last) among the peaks |
| FileFormats.Find | src/app/audiofiles/fileformats.cpp:206 | `str.find(from, start_pos)`: the first occurrence at or after the start, or none at all from there on |
| FileFormats.ReplacedSkip | src/app/audiofiles/fileformats.cpp:206-208 | text up to the first occurrence is copied, the occurrence becomes `to`, and the scan resumes after it |
| FileFormats.ReplacedNoMatch | src/app/audiofiles/fileformats.cpp:206 | with no occurrence from the cursor on, the rest of the string is unchanged |
| FileFormats.AdvanceScan | src/app/audiofiles/fileformats.cpp:206-209 | one replacement keeps the loop's state: a finished prefix followed by the untouched rest of the input, with strict progress through the input |
| FileFormats.ReplacedStep | src/app/audiofiles/fileformats.cpp:207-208 | replacing the first occurrence moves the finished prefix past it without changing the final result |
| FileFormats.FirstOccurrence | src/app/audiofiles/fileformats.cpp:206 | the first occurrence in the rest of the working string is the first one in the input at the matching position |
| FileFormats.ReplaceAll | src/app/audiofiles/fileformats.cpp:202-210 | an empty `from` leaves the string unchanged; otherwise every occurrence of `from` in the input is replaced left to right, and text brought in by `to` is never rescanned, so the loop ends even when `to` contains `from` |
| FileFormats.NormalizeName | src/app/audiofiles/fileformats.cpp:212-220 | the five replacements in order, as Normalized |
| FileFormats.NormalizedWithoutBit | src/app/audiofiles/fileformats.cpp:212-220 | a name without " bit" is unchanged |
| FileFormats.NoDigitPair | src/app/audiofiles/fileformats.cpp:215-218 | a name without " bit" has no "NN bit" to replace |
| FileFormats.NoOccurrence | src/app/audiofiles/fileformats.cpp:206 | a pattern whose first character appears at no possible start does not occur |
| FileFormats.NormalizedSixteenBit | src/app/audiofiles/fileformats.cpp:214-218 | "16 bit" becomes "16-bit" |
| FileFormats.Contains | src/app/audiofiles/fileformats.cpp:102-111 | true exactly when the element is in the list, with the index of its first occurrence; on false the index is left as it was |
| FileFormats.LastCommaBefore | src/app/audiofiles/fileformats.cpp:94-96 | the last comma before n, or none when there is no comma |
| FileFormats.Split | src/app/audiofiles/fileformats.cpp:94-96 | splitting at the commas gives at least one item |
| FileFormats.SplitJoin | src/app/audiofiles/fileformats.cpp:94-96 | joining comma-free items with "," and splitting at the commas gives the items back |
| FileFormats.LastCommaOfJoin | src/app/audiofiles/fileformats.cpp:96 | in j + "," + last, with last comma-free, the last comma sits right after j |
| FileFormats.LastCommaAt | src/app/audiofiles/fileformats.cpp:96 | a comma with none after it before n is the last comma before n |
| FileFormats.Dotted | src/app/audiofiles/fileformats.cpp:83-85 | each header extension with a "." in front, in order |
| FileFormats.ReadFilter | src/app/audiofiles/fileformats.cpp:76-100 | "Audio files {", then the dotted header extensions and the nine extra ones joined by commas, then "}" |
| FileFormats.ReadFilterItems | src/app/audiofiles/fileformats.cpp:81-97 | for comma-free header extensions, splitting the inside of the braces gives back exactly the dotted extensions followed by the extra ones |
| Settings.SetAndCheck | src/app/settings/settings.cpp:280-286 | true exactly when the stored text differs from the new value; afterwards the key holds the value, even when nothing changed |
| Settings.MapBoolGet | src/app/settings/settings.cpp:288-299 | "true" reads as true, "false" as false, anything else (an absent key included) as the default, which is then stored |
| Settings.MapBoolSet | src/app/settings/settings.cpp:300-302 | true exactly when the stored text was not the bool's text; afterwards the key holds "true" or "false" |
| Settings.BoolRoundTrip | src/app/settings/settings.cpp:288-302 | a bool written by the setter reads back unchanged, and the read writes nothing new |
| Settings.MapValueGet | src/app/settings/settings.cpp:304-314 | text that parses gives its value and stays; otherwise the default is returned and its text stored, and then the stored entry parses to the returned value |
| Settings.MapValueSet | src/app/settings/settings.cpp:316-318 | true exactly when the stored text was not the value's text; afterwards the key holds that text |
| Settings.ValueRoundTrip | src/app/settings/settings.cpp:304-366 | a value whose text parses back to it reads back unchanged after the setter |
| Settings.MapStrGet | src/app/settings/settings.cpp:368-377 | a non-empty entry is returned unchanged; an empty or absent one is replaced by the default, which is returned |
| Settings.MapStrSet | src/app/settings/settings.cpp:379-381 | true exactly when the stored text differs; afterwards the key holds the value |
| Settings.StrRoundTrip | src/app/settings/settings.cpp:368-381 | a string reads back as written, except that "" reads back as the default |
| Settings.SuffixesDiffer | src/app/settings/settings.cpp:34-36 | the three colour keys are distinct |
| Settings.ShortCircuitSkipsLaterKeys | src/app/settings/settings.cpp:171-177 | when the red component changes, the `\|\|` skips the green and blue setters and their entries stay as they were |
| Settings.Settings.constructor | src/app/settings/settings.cpp:74-79 | the map is what the backend read, and nothing has been saved |
| Settings.Settings.ShowAudioSettings | src/app/settings/settings.cpp:83-85 | the map after a bool read with default false, and one save |
| Settings.Settings.SetShowAudioSettings | src/app/settings/settings.cpp:87-90 | the entry holds the bool's text, and one save whether or not it changed |
| Settings.Settings.SpectrumPlotRatios | src/app/settings/settings.cpp:110-114 | two float reads with defaults 0.8 and 0.2 in order, then one save |
| Settings.Settings.SetSpectrumPlotRatios | src/app/settings/settings.cpp:116-121 | the waveform ratio is written only when the spectrogram ratio did not change, and one save exactly when a write changed something |
| Settings.Settings.FftLength | src/app/settings/settings.cpp:243 | an int read with default 1024, and one save |
| Settings.Settings.SetFftLength | src/app/settings/settings.cpp:245-247 | the entry holds the new text, and one save exactly when it changed |
| Settings.Settings.AudioHostApi | src/app/settings/settings.cpp:210-213 | an int read with default -1 and no save |
| Settings.Settings.InputDeviceName | src/app/settings/settings.cpp:219-221 | a string read with the empty default, and one save |
| Settings.Settings.PitchColor | src/app/settings/settings.cpp:164-169 | three float reads with defaults 0.87, 0.45 and 1.0 in order, then one save |
| Settings.Settings.SetPitchColor | src/app/settings/settings.cpp:171-177 | the short-circuit colour write on the pitch keys, and one save exactly when a component changed |
| Settings.Settings.SetFormantColor | src/app/settings/settings.cpp:186-192 | the same on the formant colour keys |
| Settings.Settings.SetColor | src/app/settings/settings.cpp:171-192 | each component is written only when the ones before it were unchanged, and one save exactly when a component changed |
| SpectrogramController.Windowed | src/app/processing/controller/spectrogramcontroller.cpp:162-174 | the windowed frame has the frame's length, and sample i is the frame's sample i times the Blackman-Nuttall weight of i over the last index |
| SpectrogramController.Unflatten | src/app/processing/controller/spectrogramcontroller.cpp:284-289 | every position of a rows-by-cols flat matrix is the flat index of a unique in-range cell (k / cols, k % cols) |
| SpectrogramController.Transposed | src/app/processing/controller/spectrogramcontroller.cpp:284-289 | the transpose of a flat matrix has the same number of values |
| SpectrogramController.TransposedCell | src/app/processing/controller/spectrogramcontroller.cpp:284-289 | cell (c, r) of the transpose is cell (r, c) of the original, both positions being in range |
| SpectrogramController.TransposedTwice | src/app/processing/controller/spectrogramcontroller.cpp:284-289 | transposing twice gives back the original matrix |
| SpectrogramController.BlockFits | src/app/processing/controller/spectrogramcontroller.cpp:132-159 | each of the numBlocks blocks, stride apart, has its whole window of fftLength samples inside the track |
| SpectrogramController.SamplesRoundTrip | src/app/processing/controller/spectrogramcontroller.cpp:34-44 | setting the cursor in samples and reading it back through the time loses nothing |
| SpectrogramController.TimeRoundTrip | src/app/processing/controller/spectrogramcontroller.cpp:34-44 | setting the cursor in seconds and converting back rounds down to the sample grid, by less than one sample period |
| SpectrogramController.DsMult | src/app/processing/controller/spectrogramcontroller.cpp:229-233 | one pixel spans at least one memo block |
| SpectrogramController.Selection | src/app/processing/controller/spectrogramcontroller.cpp:236-253 | the first selected block is never negative, and a positive last block is never past the last stored row |
| SpectrogramController.ColMajor | src/app/processing/controller/spectrogramcontroller.cpp:269-282 | the column-major copy holds exactly numSlices rows of numFreqs values |
| SpectrogramController.ColMajorCell | src/app/processing/controller/spectrogramcontroller.cpp:274-282 | slice s, bin i of the copy is memo row start + s·dsMult, bin i, both positions being in range |
| SpectrogramController.Results | src/app/processing/controller/spectrogramcontroller.cpp:212-290 | the frequency limits are 1/rate and rate/2 with fftLength/2 bins whatever the request; the slice count is never negative and a non-empty result holds numSlices·numFreqs values in each layout |
| SpectrogramController.WithSlices | src/app/processing/controller/spectrogramcontroller.cpp:262-290 | the non-empty branch keeps the frequency limits and sizes both arrays to numSlices·numFreqs |
| SpectrogramController.SelectionStored | src/app/processing/controller/spectrogramcontroller.cpp:248-282 | every row read by the copy loop, start + s·dsMult for s below numSlices, is a stored memo row |
| SpectrogramController.ResultsCells | src/app/processing/controller/spectrogramcontroller.cpp:248-289 | in a non-empty result, bin i of slice s of the view data is bin i of memo row start + s·dsMult, and the start is a non-negative multiple of dsMult |
| SpectrogramController.ResultsEmpty | src/app/processing/controller/spectrogramcontroller.cpp:255-260 | an empty selection zeroes the time limits and the slice count and leaves both data arrays as they were |
| SpectrogramController.StartBlock | src/app/processing/controller/spectrogramcontroller.cpp:135-136 | a non-negative memo start time gives a non-negative starting block |
| SpectrogramController.EvictedStartTime | src/app/processing/controller/spectrogramcontroller.cpp:108-109 | after an eviction the memo starts no earlier than 0 and no earlier than ten seconds before the last request |
| SpectrogramController.RowColumn | src/app/processing/controller/spectrogramcontroller.cpp:181-188 | position slice·numFreqs + i of the memo is row slice, bin i |
| SpectrogramController.ExtendedCell | src/app/processing/controller/spectrogramcontroller.cpp:149-190 | in an extended memo an old row keeps its value, and a new row r holds bin i of the windowed spectrum of block startBlock + r, whose window lies inside the track |
| SpectrogramController.FillStep | src/app/processing/controller/spectrogramcontroller.cpp:181-188 | storing bin i of row slice at i + slice·numFreqs extends the computed prefix of the memo by one value |
| SpectrogramController.FillKeep | src/app/processing/controller/spectrogramcontroller.cpp:188 | a write at position k keeps every value already computed before k, the old rows included |
| SpectrogramController.FillNext | src/app/processing/controller/spectrogramcontroller.cpp:188 | the bin of its own block and column at position k extends the computed prefix to k + 1 |
| SpectrogramController.NextBlockStart | src/app/processing/controller/spectrogramcontroller.cpp:155-157 | advancing the index by one stride reaches the start of the next block |
| SpectrogramController.ApplyWindow | src/app/processing/controller/spectrogramcontroller.cpp:161-174 | the windowing loop yields exactly the windowed frame |
| SpectrogramController.TransposeStep | src/app/processing/controller/spectrogramcontroller.cpp:286-287 | one assignment of the transpose loop extends the prefix that agrees with the transpose by one position |
| SpectrogramController.Transpose | src/app/processing/controller/spectrogramcontroller.cpp:284-289 | the transpose loops yield exactly the transposed matrix |
| SpectrogramController.RowInMemo | src/app/processing/controller/spectrogramcontroller.cpp:277-280 | the numFreqs values read from memoIndex and written at slice·numFreqs lie inside the memo and inside the copy |
| SpectrogramController.CopyStep | src/app/processing/controller/spectrogramcontroller.cpp:276-282 | one copy_n extends the prefix that agrees with the column-major selection by one row |
| SpectrogramController.CopyBlocks | src/app/processing/controller/spectrogramcontroller.cpp:273-282 | the copy loop yields exactly the column-major selection |
| SpectrogramController.SliceData | src/app/processing/controller/spectrogramcontroller.cpp:266-289 | numSlices is (end - start) / dsMult, and the two arrays are the column-major selection and its transpose |
| SpectrogramController.SpectrogramController.constructor | src/app/processing/controller/spectrogramcontroller.cpp:12-24 | the cursor is at 0, the FFT length 1024, the memo budget 256 MiB, the memo empty and starting at time 0, and no update is pending |
| SpectrogramController.SpectrogramController.SetTime | src/app/processing/controller/spectrogramcontroller.cpp:34-37 | the cursor holds the time and the time·rate truncated to a sample |
| SpectrogramController.SpectrogramController.SetTimeSamples | src/app/processing/controller/spectrogramcontroller.cpp:41-44 | the cursor holds the sample and the sample over the rate |
| SpectrogramController.SpectrogramController.SetFftLength | src/app/processing/controller/spectrogramcontroller.cpp:48-63 | the new FFT length is stored and the memo is emptied, so it stays consistent with its row size |
| SpectrogramController.SpectrogramController.SetMaxMemoryMemo | src/app/processing/controller/spectrogramcontroller.cpp:67-70 | the budget holds the new value |
| SpectrogramController.SpectrogramController.ForceClear | src/app/processing/controller/spectrogramcontroller.cpp:72-76 | the memo is empty with zero rows |
| SpectrogramController.SpectrogramController.UpdateSpectrogramResults | src/app/processing/controller/spectrogramcontroller.cpp:212-290 | the results become Results of the previous results, the memo and the recorded request |
| SpectrogramController.SpectrogramController.StoreSpectrum | src/app/processing/controller/spectrogramcontroller.cpp:180-189 | the bin loop fills memo row slice with the dB bins of its block, keeping everything computed before |
| SpectrogramController.SpectrogramController.ExtendMemo | src/app/processing/controller/spectrogramcontroller.cpp:149-190 | the memo grows to actualNumBlocks rows, keeps its old rows, and every new row is the spectrum of its own block of the track |
| SpectrogramController.SpectrogramController.EvictIfOverBudget | src/app/processing/controller/spectrogramcontroller.cpp:100-110 | over budget the memo is emptied and restarts ten seconds before the last request (not before 0); within budget nothing changes |
| SpectrogramController.SpectrogramController.RefreshMemo | src/app/processing/controller/spectrogramcontroller.cpp:127-190 | the stride becomes fftLength/4, the start block follows the memo start time, and the memo is kept when it already covers the track and otherwise extended to exactly the blocks of the track |
| SpectrogramController.SpectrogramController.UpdateIfNeeded | src/app/processing/controller/spectrogramcontroller.cpp:90-191 | eviction first, then a pending results update computed on the memo as it stood after eviction, then the memo refresh; a results update happens exactly when one was pending |
| SpectrogramController.SpectrogramController.GetSpectrogramForRange | src/app/processing/controller/spectrogramcontroller.cpp:193-210 | the request is recorded, widened by four windows on each side, an update is flagged, and the current results are returned unchanged |
| WaveformController.Clamp | src/app/processing/controller/waveformcontroller.cpp:83-86 | the clamped value lies in [lo, hi] and a value already inside is kept |
| WaveformController.SampleIndex | src/app/processing/controller/waveformcontroller.cpp:83-86 | the index of a time is a valid index of the track, and equals the truncated time·rate whenever that is one |
| WaveformController.ZoomRatio | src/app/processing/controller/waveformcontroller.cpp:100-102 | the ratio is undefined (the NaN of 0/0) exactly when the requested span is empty |
| WaveformController.ZoomValue | src/app/processing/controller/waveformcontroller.cpp:100-102 | for a non-empty span the ratio is the approximate pixel count over the approximate sample count |
| WaveformController.SpanCancels | src/app/processing/controller/waveformcontroller.cpp:100-102 | the span cancels out of (span / timePerPixel) / (span·rate) |
| WaveformController.ZoomIndependentOfSpan | src/app/processing/controller/waveformcontroller.cpp:100-102 | for a non-empty span the zoom ratio is 1 / (timePerPixel·rate), whatever the span |
| WaveformController.RequestWindowSizeOk | src/app/processing/controller/waveformcontroller.cpp:97-115 | for a request with a positive time per pixel, whenever the samples are not shown the summary window holds at least five samples, so it never divides by zero |
| WaveformController.ChunkStartsInRange | src/app/processing/controller/waveformcontroller.cpp:125-149 | every window start of the summary loop lies between the rounded start index and the stop index, and its window ends before the last sample |
| WaveformController.ChunkStartsInTrack | src/app/processing/controller/waveformcontroller.cpp:123-131 | from a non-negative rounded start every summary window lies inside the track |
| WaveformController.ChunkStartsShape | src/app/processing/controller/waveformcontroller.cpp:123-149 | the k-th window starts at the rounded start plus k·windowSize, and the start after the last fails the loop test |
| WaveformController.RMin | src/app/processing/controller/waveformcontroller.cpp:133 | the minimum of two values is one of them and no larger than either |
| WaveformController.RMax | src/app/processing/controller/waveformcontroller.cpp:134 | the maximum of two values is one of them and no smaller than either |
| WaveformController.SeqMinLeast | src/app/processing/controller/waveformcontroller.cpp:132-136 | the window minimum is a sample of the window and no sample is smaller |
| WaveformController.SeqMaxGreatest | src/app/processing/controller/waveformcontroller.cpp:132-136 | the window maximum is a sample of the window and no sample is larger |
| WaveformController.MinAtMostMax | src/app/processing/controller/waveformcontroller.cpp:132-144 | each summary point's minimum is at most its maximum |
| WaveformController.SumSquaresNonNegative | src/app/processing/controller/waveformcontroller.cpp:135-138 | the sum of squares under the square root is never negative |
| WaveformController.Window | src/app/processing/controller/waveformcontroller.cpp:131 | the window holds windowSize samples, sample i being track sample chunk + i |
| WaveformController.ChunkSeries | src/app/processing/controller/waveformcontroller.cpp:117-149 | the five summary series all have one point per window start |
| WaveformController.ChunkSeriesCells | src/app/processing/controller/waveformcontroller.cpp:128-146 | point k is the middle time of window k, its minimum, maximum and RMS, and the negated RMS; with a square root that is non-negative on non-negative input the RMS is never negative and its negation never positive |
| WaveformController.WaveResultsReset | src/app/processing/controller/waveformcontroller.cpp:161-173 | an empty track, a zero time per pixel or a stop index before the start index gives the reset results: sample type, unit time scale, no shading, every series empty |
| WaveformController.WaveResultsSamples | src/app/processing/controller/waveformcontroller.cpp:83-112 | zoomed in to at least 0.2 pixel per sample the results show exactly the samples from the start index to the stop index inclusive, one sample period apart, and keep the summary series |
| WaveformController.WaveResultsSummary | src/app/processing/controller/waveformcontroller.cpp:114-158 | zoomed out, there is one point per window start, each point describing its own window; the type is min/max from 0.02 pixel per sample and min/max/RMS below, shading is on from 0.025, and the time limits and samples are kept; the RMS band lies on its own side of zero given a non-negative square root |
| WaveformController.ChunkStats | src/app/processing/controller/waveformcontroller.cpp:128-136 | the window loop yields exactly the window's minimum, maximum and sum of squares |
| WaveformController.StartsAdvance | src/app/processing/controller/waveformcontroller.cpp:126-148 | a pass of the summary loop moves one start from the remaining starts to the done ones |
| WaveformController.StartsFinished | src/app/processing/controller/waveformcontroller.cpp:126-127 | once the loop test fails, the done starts are all the window starts |
| WaveformController.StartsInTrackAppend | src/app/processing/controller/waveformcontroller.cpp:126-131 | a start whose window fits in the track can join starts whose windows fit |
| WaveformController.ChunkSeriesAppend | src/app/processing/controller/waveformcontroller.cpp:140-146 | one more start extends each series by the statistics of its window |
| WaveformController.AppendWindow | src/app/processing/controller/waveformcontroller.cpp:128-148 | one pass of the loop yields the series of the done starts plus the new one |
| WaveformController.Summarise | src/app/processing/controller/waveformcontroller.cpp:117-149 | the summary loop yields exactly the series of the window starts from the rounded start index |
| WaveformController.WaveformController.constructor | src/app/processing/controller/waveformcontroller.cpp:12-16 | no sample rate seen yet (-1), value-initialised results, no pending request and a zero request |
| WaveformController.WaveformController.ForceClear | src/app/processing/controller/waveformcontroller.cpp:20-27 | the results are reset and no update is pending |
| WaveformController.WaveformController.UpdateIfNeeded | src/app/processing/controller/waveformcontroller.cpp:29-51 | the last sample rate becomes the track's; the results are recomputed from the recorded request exactly when an update was pending or the rate changed, and are otherwise unchanged |
| WaveformController.WaveformController.GetWaveformForRange | src/app/processing/controller/waveformcontroller.cpp:53-66 | the request is recorded, widened by ten pixels on each side, an update is flagged, and the current results are returned |
| WaveformController.WaveformController.UpdateWaveformResults | src/app/processing/controller/waveformcontroller.cpp:68-159 | the results become WaveResults of the previous results, the track and the recorded request |
| WaveformController.WaveformController.ResetWaveformResults | src/app/processing/controller/waveformcontroller.cpp:161-173 | the results become the reset results |
| WaveformController.RmsNonNegative | src/app/processing/controller/waveformcontroller.cpp:138 | the RMS of a non-negative sum of squares over a positive window is non-negative when the square root is |
| PitchController.RescaledCursorKeepsTime | src/app/processing/controller/pitchcontroller.cpp:86-89 | after a change of rate the rounded cursor marks the same instant to within half a sample of the new rate, and is never negative |
| PitchController.DivisorPositive | src/app/processing/controller/pitchcontroller.cpp:105 | from 1200 Hz up the rate divisor round(Fs / (4·F0max)) is at least 1 and at most Fs/1200 |
| PitchController.DeriveOk | src/app/processing/controller/pitchcontroller.cpp:99-111 | from 1200 Hz up the derived sizes are usable: n >= 1, K >= 2, wl = n + K, a positive downsampled rate, 0 <= dsK1 <= dsK2 with dsK2 >= 2, and dswl = dsn + dsK2 |
| PitchController.SumShifted | src/app/processing/controller/pitchcontroller.cpp:205-210 | subtracting c from every sample takes the count times c off the sum |
| PitchController.SubtractReferenceMean | src/app/processing/controller/pitchcontroller.cpp:205-210 | every sample has the mean of all of them subtracted (the window is centred), and the length is kept |
| PitchController.MeanRemoved | src/app/processing/controller/pitchcontroller.cpp:205-210 | after the mean is subtracted the samples sum to zero |
| PitchController.MeanTimesCount | src/app/processing/controller/pitchcontroller.cpp:206-208 | the count times the mean is the sum |
| PitchController.DotSymmetric | src/app/processing/controller/pitchcontroller.cpp:232-238 | the lagged product sum does not depend on which window is the lagged one, so the energy sums are product sums of a window with itself |
| PitchController.DotLoop | src/app/processing/controller/pitchcontroller.cpp:232-238 | each accumulation loop yields exactly its product sum |
| PitchController.CalculateDownsampledNccf | src/app/processing/controller/pitchcontroller.cpp:221-244 | entries dsK1..dsK2 become the normalised correlation of the downsampled window at that lag; every other entry keeps its previous value |
| PitchController.AroundMembers | src/app/processing/controller/pitchcontroller.cpp:255-260 | the pushes for a coarse lag k are exactly the lags in 0..K within 3 of k |
| PitchController.RawLagsMembers | src/app/processing/controller/pitchcontroller.cpp:250-261 | a lag is pushed exactly when it lies in 0..K within 3 of the rounded full-rate lag of some downsampled peak |
| PitchController.RawLagsSound | src/app/processing/controller/pitchcontroller.cpp:250-261 | every pushed lag lies in 0..K and within 3 of the scaled lag of some peak |
| PitchController.RawLagsComplete | src/app/processing/controller/pitchcontroller.cpp:250-261 | every lag in 0..K within 3 of the scaled lag of a peak is pushed |
| PitchController.PushIfLag | src/app/processing/controller/pitchcontroller.cpp:255-259 | one guarded push appends the lag exactly when it lies in 0..K |
| PitchController.PushAround | src/app/processing/controller/pitchcontroller.cpp:253-260 | the pushes for one peak append k, then k-l and k+l for l = 1..3, each when in 0..K |
| PitchController.BuildLags | src/app/processing/controller/pitchcontroller.cpp:250-261 | the push loops yield exactly the pushed lags in push order |
| PitchController.InsertUnique | src/app/processing/controller/pitchcontroller.cpp:263-265 | inserting into a strictly increasing sequence keeps it strictly increasing, and adds exactly the inserted value |
| PitchController.ConsIncreasing | src/app/processing/controller/pitchcontroller.cpp:263-265 | a head below every element of a strictly increasing tail keeps it strictly increasing |
| PitchController.SortUnique | src/app/processing/controller/pitchcontroller.cpp:263-265 | sort, unique and erase give a strictly increasing sequence holding exactly the values of the input |
| PitchController.FillLags | src/app/processing/controller/pitchcontroller.cpp:267-292 | the correlation vector has K + 1 entries: the normalised correlation at each listed lag and zero elsewhere |
| PitchController.CalculateOriginalNccf | src/app/processing/controller/pitchcontroller.cpp:246-293 | the lag set is strictly increasing and holds exactly the pushed lags; the correlation is computed at exactly those lags and is zero at every other lag up to K |
| PitchController.InsertDescending | src/app/processing/controller/pitchcontroller.cpp:317-318 | inserting into a descending sequence keeps it descending and adds exactly that element to the multiset |
| PitchController.ConsDescending | src/app/processing/controller/pitchcontroller.cpp:317-318 | a head at least as large as every element of a descending tail keeps it descending |
| PitchController.SortDescending | src/app/processing/controller/pitchcontroller.cpp:317-318 | the sorted peaks are in descending order of value and are a permutation of the input |
| PitchController.MaxOf | src/app/processing/controller/pitchcontroller.cpp:298-303 | the maximum loop yields the largest correlation value |
| PitchController.FilteredMembers | src/app/processing/controller/pitchcontroller.cpp:309-315 | a candidate is kept exactly when it is the interpolation at a peak index that is a sample index whose value is above the threshold |
| PitchController.PeakLagUsable | src/app/processing/controller/pitchcontroller.cpp:313 | the interpolated lag of a peak (or of the first sample) truncates to an index from which the next sample exists |
| PitchController.HalfSampleOffset | src/app/processing/controller/pitchcontroller.cpp:313 | when the slopes on either side of a sample have opposite signs (a zero slope counting as slightly falling), the vertex of the parabola lies within half a sample of it |
| PitchController.FilteredLagsUsable | src/app/processing/controller/pitchcontroller.cpp:309-315 | every candidate's lag truncates to a usable lag index |
| PitchController.FindPeaksWithThreshold | src/app/processing/controller/pitchcontroller.cpp:295-325 | the peaks are the interpolations at the peak indices above cand_tr times the largest value, sorted in descending order of value and cut to the best n_cands - 1, each lag usable; the indices they come from are peaks `findPeaks` finds, which follow its peak rule; there is at least one such index when the correlation turns and ends more than a quarter of its range above its start; the first position of the largest value is among them whenever the correlation turns; the result is empty only when no found peak clears the threshold, and is never empty when the correlation turns, has a positive maximum and takes it first before its last lag |
| PitchController.PeakWitnesses | src/app/processing/controller/pitchcontroller.cpp:309-322 | each kept peak has a sample index among the found peaks, whose value exceeds the threshold and whose interpolation it is |
| PitchController.SelectCandidate | src/app/processing/controller/pitchcontroller.cpp:142-155 | the candidate loop yields exactly the running choice over the peaks |
| PitchController.ChooseMinimal | src/app/processing/controller/pitchcontroller.cpp:142-155 | the minimum cost is None exactly when there are no peaks; otherwise it is the lowest cost, reached first at the chosen (truncated) lag; the largest value bounds every value and is one of them unless all lie below the starting value |
| PitchController.PitchFrom | src/app/processing/controller/pitchcontroller.cpp:135-160 | no candidate, or a cost above the best value plus the voicing bias, gives -1; otherwise the pitch times the interpolated lag is the sample rate |
| PitchController.Padded | src/app/processing/controller/pitchcontroller.cpp:128-130 | a shorter downsampled window is padded with zeros to the length, a longer one kept as it is |
| PitchController.DownsampledStage | src/app/processing/controller/pitchcontroller.cpp:127-132 | the downsampled window padded to dswl, its correlation over dsK1..dsK2 (other entries kept) and its peaks above the threshold, in descending order, each taken at a peak `findPeaks` finds, which include the first position of the largest value when the correlation turns; none only when no found peak clears the threshold |
| PitchController.FullRateStage | src/app/processing/controller/pitchcontroller.cpp:138-160 | the full-rate correlation at the lags around the downsampled peaks, its peaks (each at a peak `findPeaks` finds, which include the first position of the largest value when the correlation turns; none only when no found peak clears the threshold), the cheapest candidate, and the pitch it gives |
| PitchController.FramePitch | src/app/processing/controller/pitchcontroller.cpp:127-161 | a frame is unvoiced when the downsampled correlation has no peak above the threshold among those `findPeaks` finds, and it has one whenever that correlation turns, has a positive maximum and takes it first before its last lag; otherwise its pitch comes from the cheapest full-rate candidate, with both halves traced |
| PitchController.FirstVoiced | src/app/processing/controller/pitchcontroller.cpp:172-178 | None exactly when no slot in the run is voiced; otherwise the pitch of the first voiced slot |
| PitchController.GateAll | src/app/processing/controller/pitchcontroller.cpp:126-199 | a run of frames keeps the buffer length |
| PitchController.GateStepKeeps | src/app/processing/controller/pitchcontroller.cpp:165-198 | a frame keeps the buffer length and every stored point, and adds at most one point, paired in times and pitches |
| PitchController.GateStepSlides | src/app/processing/controller/pitchcontroller.cpp:165-198 | the new point lands one slot before the back and every other slot moves one towards the front |
| PitchController.GateStepDirect | src/app/processing/controller/pitchcontroller.cpp:165-198 | with the one-slot buffer and zero run lengths a frame is stored at once exactly when it is voiced |
| PitchController.GateAllAppend | src/app/processing/controller/pitchcontroller.cpp:126-199 | one more frame is one more gating step |
| PitchController.GateAllDirect | src/app/processing/controller/pitchcontroller.cpp:126-199 | with the one-slot buffer and zero run lengths a run stores exactly its voiced points, in order |
| PitchController.GateAllKeeps | src/app/processing/controller/pitchcontroller.cpp:126-199 | a run of frames keeps the stored points as a prefix and adds at most one point per frame, each voiced |
| PitchController.GateStepStores | src/app/processing/controller/pitchcontroller.cpp:168-195 | a point is stored exactly when the front, once filled in, is voiced and none of the next minVoicingRunLength - 1 slots is unvoiced |
| PitchController.RangeIndicesExact | src/app/processing/controller/pitchcontroller.cpp:340-348 | the listed positions are strictly increasing, inside the series, and exactly those whose time lies in [timeMin, timeMax] |
| PitchController.RangeIndicesOrdered | src/app/processing/controller/pitchcontroller.cpp:340-348 | the listed positions are strictly increasing and inside the series |
| PitchController.RangeIndicesMembers | src/app/processing/controller/pitchcontroller.cpp:340-348 | a position is listed exactly when its time lies in the range |
| PitchController.InRangeAt | src/app/processing/controller/pitchcontroller.cpp:340-348 | the result holds, pair by pair and in order, the stored points at the listed positions |
| PitchController.HermiteEnds | src/app/processing/controller/pitchcontroller.cpp:387-414 | the cubic Hermite curve passes through p0 at t = 0 and p1 at t = 1, and is constant between equal ends with flat slopes |
| PitchController.BracketExists | src/app/processing/controller/pitchcontroller.cpp:364-371 | between the first and the last time some i has times[i] <= x < times[i+1], whatever the order of the times |
| PitchController.FindBracket | src/app/processing/controller/pitchcontroller.cpp:365-370 | the scan settles on the last bracket of x |
| PitchController.HermiteVoicingAtKnot | src/app/processing/controller/pitchcontroller.cpp:377-416 | at the left knot the interpolation is that knot's voicing |
| PitchController.HermiteVoicingFlat | src/app/processing/controller/pitchcontroller.cpp:377-416 | around a span whose neighbouring voicings all agree the interpolation is that voicing |
| PitchController.KnotBracket | src/app/processing/controller/pitchcontroller.cpp:365-370 | with increasing times a knot other than the last is its own last bracket |
| PitchController.FrameStartIsProduct | src/app/processing/controller/pitchcontroller.cpp:121-163 | frame i starts i·wl samples into the window |
| PitchController.FramesAtAppend | src/app/processing/controller/pitchcontroller.cpp:126-163 | one more frame at the next start keeps every frame placed and timed |
| PitchController.StartCursorOk | src/app/processing/controller/pitchcontroller.cpp:86-89 | from a valid cursor the cursor at the new rate is a sample index too |
| PitchController.PitchController.constructor | src/app/processing/controller/pitchcontroller.cpp:31-52 | no points, no rate yet (-1), cursor 0, zero run lengths and a one-slot unvoiced buffer |
| PitchController.PitchController.ForceClear | src/app/processing/controller/pitchcontroller.cpp:54-71 | back to the freshly built state, with every buffer slot unvoiced and the buffer's length kept |
| PitchController.PitchController.FillUnvoiced | src/app/processing/controller/pitchcontroller.cpp:68 | every buffer slot holds the unvoiced point |
| PitchController.PitchController.FindReplacement | src/app/processing/controller/pitchcontroller.cpp:170-178 | the search yields the first voiced pitch among slots 1 .. minSilenceRunLength - 1 |
| PitchController.PitchController.LongEnough | src/app/processing/controller/pitchcontroller.cpp:184-190 | true exactly when no slot among 1 .. minVoicingRunLength - 1 is unvoiced |
| PitchController.PitchController.Rotate | src/app/processing/controller/pitchcontroller.cpp:197-198 | every slot moves one towards the front and the front goes to the back |
| PitchController.PitchController.Gate | src/app/processing/controller/pitchcontroller.cpp:165-198 | the buffer and the stored points after a frame are GateStep of those before |
| PitchController.PitchController.PlaceFront | src/app/processing/controller/pitchcontroller.cpp:165-182 | the new point takes the last slot and a silent front is filled in when a voiced slot follows soon enough |
| PitchController.PitchController.StoreIfLongEnough | src/app/processing/controller/pitchcontroller.cpp:183-195 | the front is appended to the stored points exactly when it is voiced and followed by a long enough voiced run |
| PitchController.PitchController.AnalyseFrames | src/app/processing/controller/pitchcontroller.cpp:121-199 | one frame every wl samples while a window and one more sample remain; each frame is timed and carries the pitch of its window as FramePitch computes it, and the stored state is GateAll of the frames |
| PitchController.PitchController.FramePoint | src/app/processing/controller/pitchcontroller.cpp:127-161 | the frame's point carries the time of its first sample less the latency, in seconds, and the pitch of its window; the correlation kept for the next frame stays zero outside its lag range |
| PitchController.PitchController.FrameStep | src/app/processing/controller/pitchcontroller.cpp:126-199 | one loop pass extends the frames by one placed frame carrying its window's pitch, and the stored state by one gating step |
| PitchController.PitchController.UpdateIfNeeded | src/app/processing/controller/pitchcontroller.cpp:73-202 | the cursor is rescaled to the track's rate; a track shorter than the cursor with points already stored changes nothing more; otherwise the frames of the mean-removed track from the cursor on are pitched, gated and stored, and the cursor advances by whole windows |
| PitchController.PitchController.Rescale | src/app/processing/controller/pitchcontroller.cpp:86-89 | a change of rate moves the cursor to the same instant at the new rate and records the rate |
| PitchController.PitchController.AnalyseTrack | src/app/processing/controller/pitchcontroller.cpp:91-201 | the analysis at the current rate from the cursor on, over the mean-removed slice, each frame pitched from its window, with the early return when the track is shorter than the cursor |
| PitchController.PitchController.GetPitchesForRange | src/app/processing/controller/pitchcontroller.cpp:328-351 | the stored points whose time lies in [timeMin, timeMax], in stored order |
| PitchController.PitchController.GetInterpolatedVoicing | src/app/processing/controller/pitchcontroller.cpp:355-416 | the first voicing before the first time, the last voicing from the last time on, the Hermite interpolation over the last bracket in between; with increasing times it is exact at each knot, and a constant voicing gives that voicing |
| PitchController.FoundPeaksStandOut | src/app/processing/controller/pitchcontroller.cpp:313 | every candidate index stands more than a quarter of the correlation's range above its minimum |
| PitchController.FromZeros | src/app/processing/controller/pitchcontroller.cpp:122-130 | the correlation kept between frames is zero outside the lag range, so each frame sees what the zero-filled first frame sees |
| PitchController.FramesPitchedAppend | src/app/processing/controller/pitchcontroller.cpp:126-163 | one more frame carrying the pitch of the next window keeps every frame pitched |
| PitchController.KeptFiltered | src/app/processing/controller/pitchcontroller.cpp:309-315 | a found peak index above the threshold is a usable lag and its interpolation is among the candidates |
| PitchController.KeepAbove | src/app/processing/controller/pitchcontroller.cpp:306-312 | the interpolated peaks at exactly those found indices whose value is above the threshold, in the order found |
| PitchController.BestOfKept | src/app/processing/controller/pitchcontroller.cpp:314-321 | the best n_cands - 1 of the kept peaks are kept peaks with usable lags, and none remain only when no found index clears the threshold |
| PitchController.FullRateCorrelation | src/app/processing/controller/pitchcontroller.cpp:137-138 | the full-rate correlation holds its value at the lags around the downsampled peaks and 0 elsewhere; its peaks are best first, at most n_cands - 1, each with a usable lag and at an index `findPeaks` finds, which include the first position of the largest value when the correlation turns |
| PitchController.ChosenLagUsable | src/app/processing/controller/pitchcontroller.cpp:145-150 | the cheapest candidate's lag is one of the candidates' lags, so interpolation at it stays inside the correlation |
| PitchController.PitchController.NextFrame | src/app/processing/controller/pitchcontroller.cpp:125-161 | the next frame's point keeps the frames placed at successive starts with their times, and each fitting frame with its window's pitch |
| PitchController.FramesPitchedAt | src/app/processing/controller/pitchcontroller.cpp:125-161 | every pitched frame whose window fits carries the pitch its window gives, traced through both correlations |
| PitchController.TopCandidate | src/app/processing/controller/pitchcontroller.cpp:306-321 | a correlation that turns, has a positive maximum and takes it first before its last lag yields at least one peak: that position is found and its value clears cand_tr times the maximum |
| PitchController.FrameCandidates | src/app/processing/controller/pitchcontroller.cpp:127-160 | in a frame whose downsampled correlation turns, has a positive maximum and takes it first before its last lag there are downsampled peaks, so the full-rate stage runs; the full-rate correlation has a candidate under the same condition |
| PitchController.BestAbove | src/app/processing/controller/pitchcontroller.cpp:306-321 | the interpolated peaks at the found indices above the threshold, sorted in descending order and cut to n_cands - 1, each at a found index above the threshold with a usable lag; none only when no found index clears the threshold |
| CNum.Trunc | src/app/processing/controller/spectrogramcontroller.cpp:36 | a double converted to int is truncated toward zero: within one below a non-negative value and within one above a negative one |
| CNum.Floor | src/app/processing/controller/spectrogramcontroller.cpp:135-136 | std::floor cast to int is the greatest integer not above the value |
| CNum.Ceil | src/app/processing/controller/spectrogramcontroller.cpp:233 | std::ceil cast to int is the least integer not below the value |
| CNum.Div | src/app/processing/controller/spectrogramcontroller.cpp:132 | C++ integer division truncates toward zero: it agrees with floor division for non-negative operands and rounds up a negative dividend |
| CNum.Min | src/app/processing/controller/spectrogramcontroller.cpp:249 | std::min is one of its arguments and no larger than either |
| CNum.Max | src/app/processing/controller/spectrogramcontroller.cpp:233 | std::max is one of its arguments and no smaller than either |
| CNum.Resized | src/app/processing/controller/spectrogramcontroller.cpp:149 | resize keeps the old prefix and fills new slots with the given value |
| CNum.RoundDown | src/app/processing/controller/spectrogramcontroller.cpp:252-253 | x / ds * ds rounds a non-negative block down to a multiple of ds less than ds below it, and a negative one to at most 0 |
| CNum.RoundDownBounds | src/app/processing/controller/spectrogramcontroller.cpp:252-253 | the truncated quotient times ds lies within ds at or below a non-negative x, and at or below 0 for a negative one |
| CNum.RoundDownAligned | src/app/processing/controller/spectrogramcontroller.cpp:252-253 | the rounded block is a multiple of ds |

## Left out

- User interface, process start-up, memory queries, audio devices, threads and file persistence: these are drawing, operating-system and concurrency code with no analysis logic.
- The mutexes and try-locks of every controller: the model is sequential, so a controller reads one snapshot of the track.
- Vector capacity, `reserve` and `shrink_to_fit`: only the contents of vectors are modelled.
- FFTW plans, window tables and the `float` narrowings in the spectrogram and waveform results: all arithmetic is on `real`.
- The speex resampler and the rnnoise denoiser: the resampler is a function parameter that may fail, and the denoiser is not used by `audiotrack.cpp`.
- `lbpoly`, `lpcbsa`, `w_covar`, `dlpcwtd`, `dcovlpc` and the window builders (`cwindow`, `hwindow`, `hnwindow`, `w_window`): they use random restarts, static buffers or trigonometric tables, so `lpc_poles` and `formant` take them as function parameters.
- `dlwrtrn.cpp`: its inner loop increments the wrong counter and does not terminate as written.
- `formantcontroller.cpp`: it is unfinished and discards what it computes; `ECKF` and `is_silent` are stubs.
- The libsndfile adapters and the format lists built from libsndfile (`getFormatHeaders`, `getFormatEncodings`, `getCompatibleFormats`, `getWriteFilter`) and the memo of `getReadFilter`: only the string logic of `fileformats.cpp` is modelled.
- The device selection in `setup_audio.cpp`: only the playback callback is modelled.
- The body of `harmonic_change_detector` beyond `next_pow2` and `truncated_fbins`: it returns a default value and is not modelled.
- Durbin.Durbin: requires `p <= MAXORDER` because of the static buffer `b`, and a non-zero prediction error at every order, where the source would divide by zero.
- Lpc.Lpc: requires `lpcOrd >= 1` and a non-zero first-order gain when `r[0] != 0`, where the source would divide by zero.
- Util.FindPeaks: requires at least two input values; with fewer the source takes `dx.end() - 1` of an empty difference vector, which is undefined.
- Util.FindPeaks: the peak rule says each peak stands out by more than the selectivity and is separated from its neighbours by a deep enough valley, but not which sample of a plateau or a run of rises is kept; that a peak is found is stated for a last sample that stands out and, for a non-zero `sign`, for the first largest sample of a signal whose slope changes sign, not for every other prominent sample; with `sign == 0` every start is trimmed and no such guarantee is stated.
- PitchController.FindPeaksWithThreshold: a candidate is promised only when the largest correlation value is positive and first taken before the last lag; when it is at the last lag `findPeaks` reports index len0, which the threshold filter drops as in the source, and whether another found peak clears the threshold is not stated.
- Util.ParabolicInterpolation: requires `0 <= x <= |a| - 2`; at `x == |a| - 1` the source reads `array[x + 1]` past the end, and its right-edge branch only runs for an `x` that is already out of bounds.
- AudioTrack.AudioTrack.Duration: requires a non-zero sample rate; a track that has not been given a rate has rate 0, where the source divides by zero and returns an infinity or a NaN.
- Vector2d.Matrix.Resize: takes the fill value as a parameter in place of the value-initialised `T{}`.
- HarmonicChangeDetector.Nfft: requires the rounded size to fit below 2^30, well inside the 64-bit range the source assumes.
- HarmonicChangeDetector.TruncatedFbins: requires the first kept bin to lie inside the spectrum (`FbinsFit`), where the source would write out of bounds.
- LpcPoles.LpcPoles: requires a non-zero sample rate and a non-zero integerized frame interval; the analysers, `exp` and the initial energy of the uninitialised variable are parameters.
- Formants.FormantTracking.Track: requires the poles to fit the candidate table, and a non-zero largest frame energy when there are frames: an all-silent input makes the source divide 0 by 0 when it normalises the energies; the merge cost is omitted because merging is always off (`F_MERGE` exceeds 1000).
- Settings.MapValueGet: the text conversions (`std::stoi`, `std::stof`, `std::to_string`) are parameters, so parse failure is whatever the parameter says.
- FileFormats.ReadFilter: takes the list of extensions as a parameter.
- SpectrogramController.SpectrogramController.UpdateIfNeeded: takes the memo's byte usage as a parameter, and requires `fftLength >= 4` so that the stride is positive; the source leaves the stride uninitialised until the first update.
- WaveformController.WaveformController.UpdateIfNeeded: requires a positive window size, as the chunk loop would not advance otherwise; the minimum and maximum folds start from the first sample rather than from `DBL_MAX` and `lowest()`.
- WaveformController.WaveformController.UpdateWaveformResults: requires a positive window size, for the same reason.
- PitchController.Derive: requires a sample rate of at least 1200 Hz so that every derived size is positive.
- PitchController.Ratio: gives 0 for a zero denominator, where the source produces a NaN or an infinity.
- PitchController.PitchFrom: keeps the sentinel -1 when the interpolated lag is 0, where the source would divide by zero.
- PitchController.SortDescending: a stable insertion sort stands in for `std::sort`, so ties keep their input order.
- PitchController.PitchController.UpdateIfNeeded: the `paraInterp` switch is ignored, the unused `J` and `timePerPixel` are not modelled, and a minimum cost of `DBL_MAX` is `None`; the downsampler and its latency are parameters.
- PitchController.PitchController.GetInterpolatedVoicing: requires at least one stored time, as the source reads the first element unguarded.
- PitchController.Slope: gives 0 for a zero time difference, where the source divides by zero.

## Findings

| source | as written | input that shows it | evidently intended | confidence | as-written member | corrected member |
|---|---|---|---|---|---|---|
| src/app/processing/controller/formants.cpp:81-117 | the recursive `candy` call sits inside the loop that clones the previous row, so at the first formant the new row is never filled; and the `else` branch is attached to the inner `if`, so a valid assignment is erased | one formant with one pole at 500 Hz inside its range leaves entry (0,0) at -1; poles at 300 and 600 Hz leave a stale entry in row 1 | enumerate every assignment of poles to formants in increasing pole order, as in the ESPS tracker this code comes from | high, not executed | Formants.CandyAsWritten, FormantsFindings.CandyAsWrittenDropsOnlyPole, FormantsFindings.CandyAsWrittenLeavesStaleRow | Formants.FormantTracking.Candy, FormantsFindings.CandyKeepsOnlyPole, FormantsFindings.CandyFillsSecondRow |
| src/app/processing/routines/qquad.cpp:35-36 | with real roots and `b == 0`, `c == 0` the second formula divides `c` by `y == 0` | a = 1, b = 0, c = 0 gives r1r = 0/0 | the double root 0 | high, not executed | QQuad.QQuadAsWritten, QQuad.AsWrittenDividesZeroByZero | QQuad.QQuad, QQuad.CorrectedDoubleRootAtZero |
| src/app/processing/routines/lpc_poles.cpp:23-36 | a local `std::vector<int> data(length)` shadows the input, so every frame analyses zeros | the one-sample input [2.0] gives a frame of zeros with rms 0 | analyse the input samples, truncated to integers | high, not executed | LpcPoles.LpcPolesAsWritten, LpcPoles.AsWrittenIgnoresSamples | LpcPoles.LpcPoles |
