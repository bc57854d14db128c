/**
 * The spectrogram controller (processing/controller/spectrogramcontroller.cpp):
 * the playback cursor, the FFT memo of per-block spectra, and the decimated,
 * transposed snapshot handed to the spectrogram view.
 *
 * The memo is a flat vector of rows, one row of fftLength/2 values in dB per
 * block of fftLength samples; block b starts at sample b·stride of the track,
 * counted from the memo's starting block.  The FFTW plan, cos and log10 are
 * foreign and enter through a `Dsp` value; the track snapshot and its sample
 * rate are parameters (the track lock is not modelled).
 */
module SpectrogramController {
  import opened CNum
  import Vector2d
  import AudioTrack

  /** M_PI as a double. */
  const Pi: real := 3.141592653589793

  /** DBL_EPSILON, 2^-52: the floor put under a zero power before taking its logarithm. */
  const DblEpsilon: real := 0.0000000000000002220446049250313080847263336181640625

  /** The Blackman-Nuttall coefficients. */
  const A0: real := 0.3635819
  const A1: real := 0.4891775
  const A2: real := 0.1365995
  const A3: real := 0.0106411

  /** The initial `m_fftMemoMaxMemory`: 256 MiB. */
  const DefaultMaxMemory: nat := 1024 * 1024 * 256

  /**
   * The foreign numerics: `cos`, `log10`, and the FFTW real-to-halfcomplex
   * transform, given as the k-th output of transforming a frame.
   */
  datatype Dsp = Dsp(cos: real -> real, log10: real -> real, r2hc: (seq<real>, int) -> real)

  /** `SpectrogramResults`. */
  datatype SpectrogramResults = SpectrogramResults(
    timeMin: real, timeMax: real, freqMin: real, freqMax: real,
    numSlices: int, numFreqs: int, data: seq<real>, dataColMajor: seq<real>)

  const EmptyResults := SpectrogramResults(0.0, 0.0, 0.0, 0.0, 0, 0, [], [])

  /** The Blackman-Nuttall weight of sample i of a window whose last index is n. */
  function NuttallWeight(i: int, n: int, cos: real -> real): real
    requires n != 0
  {
    A0 - A1 * cos((2.0 * Pi * i as real) / n as real)
       + A2 * cos((4.0 * Pi * i as real) / n as real)
       - A3 * cos((6.0 * Pi * i as real) / n as real)
  }

  /** A frame of samples multiplied by the Blackman-Nuttall window of its own length. */
  function Windowed(frame: seq<real>, cos: real -> real): (w: seq<real>)
    requires |frame| >= 2
    ensures |w| == |frame|
  {
    seq(|frame|, i requires 0 <= i < |frame| => frame[i] * NuttallWeight(i, |frame| - 1, cos))
  }

  /**
   * The dB power of display bin i from the halfcomplex output of a frame of
   * `nfft` samples: the real part is output i + 1, the imaginary part output
   * nfft - 1 - i (taken as 0 for i = 0), and a power of zero or less is
   * floored at DBL_EPSILON.
   */
  function BinDb(frame: seq<real>, nfft: int, i: int, dsp: Dsp): real
  {
    var re := dsp.r2hc(frame, i + 1);
    var im := if i > 0 then dsp.r2hc(frame, nfft - 1 - i) else 0.0;
    var mag := re * re + im * im;
    20.0 * dsp.log10(if mag <= 0.0 then DblEpsilon else mag)
  }

  /** Block b lies inside the track: its `nfft` samples start at b·stride >= 0 and end by the last sample. */
  predicate BlockInTrack(n: nat, b: int, nfft: int, stride: int)
  {
    0 <= b * stride && b * stride + nfft <= n
  }

  /** Bin i of block b of the track in dB: the windowed frame of `nfft` samples from b·stride, transformed. */
  function BlockBin(track: seq<real>, b: int, i: int, nfft: int, stride: int, dsp: Dsp): real
    requires nfft >= 2 && BlockInTrack(|track|, b, nfft, stride)
  {
    var frame := AudioTrack.Slice(track, b * stride, nfft);
    BinDb(Windowed(frame, dsp.cos), nfft, i, dsp)
  }

  /** Position k of an `rows` by `cols` flat matrix is cell (k / cols, k % cols). */
  lemma Unflatten(k: int, rows: nat, cols: nat)
    requires 0 <= k < rows * cols
    ensures cols > 0 && 0 <= k / cols < rows && 0 <= k % cols < cols
    ensures Vector2d.FlatIndex(k / cols, k % cols, cols) == k
  {
    if k / cols >= rows {
      MulMono(rows, k / cols, cols);
    }
  }

  /** The flat matrix with `rows` rows of `cols` values, transposed into `cols` rows of `rows` values. */
  function Transposed(m: seq<real>, rows: nat, cols: nat): (t: seq<real>)
    requires |m| == rows * cols
    ensures |t| == rows * cols
  {
    seq(rows * cols, k requires 0 <= k < rows * cols =>
      var r, c := k % rows, k / rows;
      var at := Vector2d.FlatIndex(r, c, cols);
      if 0 <= at < |m| then m[at] else 0.0)
  }

  /** Cell (c, r) of the transpose is cell (r, c) of the original. */
  lemma TransposedCell(m: seq<real>, rows: nat, cols: nat, r: int, c: int)
    requires |m| == rows * cols && 0 <= r < rows && 0 <= c < cols
    ensures 0 <= Vector2d.FlatIndex(c, r, rows) < rows * cols
    ensures 0 <= Vector2d.FlatIndex(r, c, cols) < rows * cols
    ensures Transposed(m, rows, cols)[Vector2d.FlatIndex(c, r, rows)] == m[Vector2d.FlatIndex(r, c, cols)]
  {
    var k := Vector2d.FlatIndex(c, r, rows);
    Vector2d.FlatIndexInRange(c, r, cols, rows);
    Vector2d.FlatIndexInRange(r, c, rows, cols);
    Unflatten(k, cols, rows);
    Vector2d.FlatIndexInjective(k / rows, k % rows, c, r, rows);
  }

  /** Transposing twice gives back the original matrix. */
  lemma TransposedTwice(m: seq<real>, rows: nat, cols: nat)
    requires |m| == rows * cols
    ensures |Transposed(m, rows, cols)| == cols * rows
    ensures Transposed(Transposed(m, rows, cols), cols, rows) == m
  {
    var t := Transposed(m, rows, cols);
    assert |t| == cols * rows;
    var tt := Transposed(t, cols, rows);
    forall k | 0 <= k < |m|
      ensures tt[k] == m[k]
    {
      Unflatten(k, rows, cols);
      var r, c := k / cols, k % cols;
      TransposedCell(t, cols, rows, c, r);
      TransposedCell(m, rows, cols, r, c);
    }
  }

  /** Block b of the memo's frame of reference, the first block of the memo being `startBlock`. */
  lemma BlockFits(n: nat, nfft: int, stride: int, b: int)
    requires stride > 0 && 0 <= b < Div(n - nfft, stride)
    ensures BlockInTrack(n, b, nfft, stride)
  {
    var q := Div(n - nfft, stride);
    assert n - nfft >= 0;
    MulMono(b + 1, q, stride);
  }

  /** `m_timeSamples = time * rate`: the double product truncated to an int. */
  function SamplesAtTime(time: real, rate: real): int
  {
    Trunc(time * rate)
  }

  /** `m_time = timeSamples / rate`. */
  function TimeAtSamples(samples: int, rate: real): real
    requires rate != 0.0
  {
    samples as real / rate
  }

  /** Setting the cursor by samples and reading it back in samples loses nothing. */
  lemma SamplesRoundTrip(samples: int, rate: real)
    requires rate != 0.0
    ensures SamplesAtTime(TimeAtSamples(samples, rate), rate) == samples
  {
    assert TimeAtSamples(samples, rate) * rate == samples as real;
  }

  /** Setting the cursor by time and reading it back in time rounds down to the sample grid, by less than one sample. */
  lemma TimeRoundTrip(time: real, rate: real)
    requires rate > 0.0 && time >= 0.0
    ensures var t := TimeAtSamples(SamplesAtTime(time, rate), rate);
      t <= time < t + 1.0 / rate
  {
    var s := SamplesAtTime(time, rate);
    assert s as real <= time * rate < s as real + 1.0;
    assert s as real / rate <= time * rate / rate;
    assert time * rate / rate < (s as real + 1.0) / rate;
  }

  /** `dsMult`: how many memo blocks one pixel spans, at least 1. */
  function DsMult(timePerPixel: real, stride: int, rate: real): (ds: int)
    requires stride != 0 && rate != 0.0
    ensures ds >= 1
  {
    Max(1, Ceil(timePerPixel / (stride as real / rate)))
  }

  /**
   * The first and last memo blocks of a request, each rounded down to a
   * multiple of `ds`: from the block of timeMin (at least 0) to the block of
   * timeMax (at most the last stored block), in the memo's own numbering.
   */
  function Selection(rows: int, startBlock: int, stride: int, rate: real,
                     timeMin: real, timeMax: real, ds: int): (se: (int, int))
    requires stride != 0 && ds >= 1
    ensures 0 <= se.0 && (se.1 > 0 ==> se.1 <= rows - 1)
  {
    var blockRate := rate / stride as real;
    var minBlock := Floor(timeMin * blockRate) - startBlock;
    var maxBlock := Ceil(timeMax * blockRate) - startBlock;
    var startUndec := Max(minBlock, 0);
    var endUndec := Min(maxBlock, rows - 1);
    (RoundDown(startUndec, ds), RoundDown(endUndec, ds))
  }

  /**
   * The selected memo rows side by side: row `slice` of the result is memo
   * row s + slice·ds, for `ns` slices of `nf` values each.
   */
  function ColMajor(memo: seq<real>, nf: nat, s: int, ds: int, ns: nat): (cm: seq<real>)
    ensures |cm| == ns * nf
  {
    seq(ns * nf, k requires 0 <= k < ns * nf =>
      var at := Vector2d.FlatIndex(s + (k / nf) * ds, k % nf, nf);
      if 0 <= at < |memo| then memo[at] else 0.0)
  }

  /** The `ns` selected rows, ds apart from row s, are all stored in a memo of `rows` rows. */
  predicate RowsStored(rows: int, s: int, ds: int, ns: nat)
  {
    0 <= s && 1 <= ds && (ns > 0 ==> s + (ns - 1) * ds < rows)
  }

  /** Slice `slice` of the selection, bin i, is memo row s + slice·ds, bin i. */
  lemma ColMajorCell(memo: seq<real>, rows: nat, nf: nat, s: int, ds: int, ns: nat, slice: int, i: int)
    requires |memo| == rows * nf && RowsStored(rows, s, ds, ns) && 0 <= slice < ns && 0 <= i < nf
    ensures 0 <= Vector2d.FlatIndex(slice, i, nf) < ns * nf
    ensures 0 <= Vector2d.FlatIndex(s + slice * ds, i, nf) < |memo|
    ensures ColMajor(memo, nf, s, ds, ns)[Vector2d.FlatIndex(slice, i, nf)] == memo[Vector2d.FlatIndex(s + slice * ds, i, nf)]
  {
    var k := Vector2d.FlatIndex(slice, i, nf);
    Vector2d.FlatIndexInRange(slice, i, ns, nf);
    Unflatten(k, ns, nf);
    Vector2d.FlatIndexInjective(k / nf, k % nf, slice, i, nf);
    MulMono(slice, ns - 1, ds);
    Vector2d.FlatIndexInRange(s + slice * ds, i, rows, nf);
  }

  /** The centre time of memo block b: its start over the block rate, plus half a window. */
  function SliceTime(b: int, startBlock: int, stride: int, rate: real, fftLength: int): real
    requires stride != 0 && rate != 0.0
  {
    (b + startBlock) as real / (rate / stride as real) + (0.5 * fftLength as real) / rate
  }

  /**
   * `updateSpectrogramResults`: the frequency limits always follow the rate
   * and the FFT length; an empty selection zeroes the time limits and the
   * slice count and leaves the data as they were; otherwise the selected
   * rows, one every dsMult blocks, are copied and then transposed so that
   * the slices of one frequency lie side by side.
   */
  function Results(prev: SpectrogramResults, memo: seq<real>, rows: int, startBlock: int, fftLength: int,
                   stride: int, rate: real, timeMin: real, timeMax: real, timePerPixel: real): (r: SpectrogramResults)
    requires rate != 0.0 && stride > 0 && fftLength >= 2 && rows >= 0 && |memo| == rows * Div(fftLength, 2)
    ensures r.freqMin == 1.0 / rate && r.freqMax == rate / 2.0 && r.numFreqs == Div(fftLength, 2)
    ensures r.numSlices >= 0
    ensures r.numSlices > 0 ==> |r.data| == |r.dataColMajor| == r.numSlices * r.numFreqs
  {
    var nf := Div(fftLength, 2);
    var ds := DsMult(timePerPixel, stride, rate);
    var se := Selection(rows, startBlock, stride, rate, timeMin, timeMax, ds);
    var s, e := se.0, se.1;
    var base := prev.(freqMin := 1.0 / rate, freqMax := rate / 2.0, numFreqs := nf);
    if e < s then
      base.(timeMin := 0.0, timeMax := 0.0, numSlices := 0)
    else
      WithSlices(base, memo, nf, s, e, ds, startBlock, stride, rate, fftLength)
  }

  /** The non-empty branch of `Results`: rows s, s + ds, … before e, with the time limits of rows s and e. */
  function WithSlices(base: SpectrogramResults, memo: seq<real>, nf: nat, s: int, e: int, ds: int,
                      startBlock: int, stride: int, rate: real, fftLength: int): (r: SpectrogramResults)
    requires 0 <= s <= e && ds >= 1 && stride != 0 && rate != 0.0
    ensures r.freqMin == base.freqMin && r.freqMax == base.freqMax && r.numFreqs == base.numFreqs
    ensures r.numSlices >= 0 && |r.data| == |r.dataColMajor| == r.numSlices * nf
  {
    var ns := (e - s) / ds;  // both operands are non-negative, so C's division agrees
    var cm := ColMajor(memo, nf, s, ds, ns);
    base.(timeMin := SliceTime(s, startBlock, stride, rate, fftLength),
          timeMax := SliceTime(e, startBlock, stride, rate, fftLength),
          numSlices := ns, data := Transposed(cm, ns, nf), dataColMajor := cm)
  }

  /** Every selected row lies in the memo: the last of the slices comes before the rounded end block. */
  lemma SelectionStored(rows: int, s: int, e: int, ds: int)
    requires 0 <= s <= e && ds >= 1 && (e > 0 ==> e <= rows - 1)
    ensures RowsStored(rows, s, ds, (e - s) / ds)
  {
    var ns := (e - s) / ds;
    if ns > 0 {
      MulMono(1, ns, ds);
      MulMono(ns - 1, ns, ds);
    }
  }

  /**
   * In a non-empty result, cell (i, slice) of the view data, stored at
   * slice + i·numSlices, is bin i of memo row start + slice·dsMult; the
   * start is a non-negative multiple of dsMult.
   */
  lemma ResultsCells(prev: SpectrogramResults, memo: seq<real>, rows: int, startBlock: int, fftLength: int,
                     stride: int, rate: real, timeMin: real, timeMax: real, timePerPixel: real, slice: int, i: int)
    requires rate != 0.0 && stride > 0 && fftLength >= 2 && rows >= 0 && |memo| == rows * Div(fftLength, 2)
    requires var r := Results(prev, memo, rows, startBlock, fftLength, stride, rate, timeMin, timeMax, timePerPixel);
      0 <= slice < r.numSlices && 0 <= i < r.numFreqs
    ensures var r := Results(prev, memo, rows, startBlock, fftLength, stride, rate, timeMin, timeMax, timePerPixel);
      var ds := DsMult(timePerPixel, stride, rate);
      var s := Selection(rows, startBlock, stride, rate, timeMin, timeMax, ds).0;
      0 <= s && s % ds == 0 &&
      0 <= Vector2d.FlatIndex(i, slice, r.numSlices) < |r.data| &&
      0 <= Vector2d.FlatIndex(s + slice * ds, i, r.numFreqs) < |memo| &&
      r.data[Vector2d.FlatIndex(i, slice, r.numSlices)] == memo[Vector2d.FlatIndex(s + slice * ds, i, r.numFreqs)]
  {
    var nf := Div(fftLength, 2);
    var ds := DsMult(timePerPixel, stride, rate);
    var se := Selection(rows, startBlock, stride, rate, timeMin, timeMax, ds);
    var s, e := se.0, se.1;
    var ns := (e - s) / ds;
    SelectionStored(rows, s, e, ds);
    var cm := ColMajor(memo, nf, s, ds, ns);
    RoundDownAligned(Max(Floor(timeMin * (rate / stride as real)) - startBlock, 0), ds);
    TransposedCell(cm, ns, nf, slice, i);
    ColMajorCell(memo, rows, nf, s, ds, ns, slice, i);
  }

  /** When the rounded end block comes before the rounded start block the slice data are left as they were. */
  lemma ResultsEmpty(prev: SpectrogramResults, memo: seq<real>, rows: int, startBlock: int, fftLength: int,
                     stride: int, rate: real, timeMin: real, timeMax: real, timePerPixel: real)
    requires rate != 0.0 && stride > 0 && fftLength >= 2 && rows >= 0 && |memo| == rows * Div(fftLength, 2)
    requires var ds := DsMult(timePerPixel, stride, rate);
      var se := Selection(rows, startBlock, stride, rate, timeMin, timeMax, ds);
      se.1 < se.0
    ensures var r := Results(prev, memo, rows, startBlock, fftLength, stride, rate, timeMin, timeMax, timePerPixel);
      r.numSlices == 0 && r.timeMin == 0.0 && r.timeMax == 0.0 && r.data == prev.data && r.dataColMajor == prev.dataColMajor
  {
  }

  /** `m_fftMemoStartBlock`: the block at the memo's starting time. */
  function StartBlock(startTime: real, rate: real, stride: int): (b: int)
    requires stride != 0
    ensures startTime >= 0.0 && rate >= 0.0 && stride > 0 ==> b >= 0
  {
    Floor(startTime * rate / stride as real)
  }

  /** The number of whole blocks of `nfft` samples, `stride` apart, that fit in `n` samples. */
  function NumBlocks(n: nat, nfft: int, stride: int): int
    requires stride != 0
  {
    Div(n - nfft, stride)
  }

  /** The memo time after an eviction: ten seconds before the last requested time, but not before 0. */
  function EvictedStartTime(specTimeMin: real): (t: real)
    ensures t >= 0.0 && t >= specTimeMin - 10.0
  {
    if 0.0 < specTimeMin - 10.0 then specTimeMin - 10.0 else 0.0
  }

  /**
   * The memo m agrees with m0 on its first rows0 rows, and every value from
   * there up to flat position `upto` is bin k % nf of block
   * startBlock + k / nf of the track, nf being nfft / 2.
   */
  predicate Filled(m0: seq<real>, rows0: int, m: seq<real>, upto: int,
                   track: seq<real>, startBlock: int, nfft: int, stride: int, dsp: Dsp)
    requires nfft >= 2
  {
    var nf := nfft / 2;
    0 <= rows0 * nf <= upto <= |m| && |m0| == rows0 * nf && m[..rows0 * nf] == m0 &&
    forall k | rows0 * nf <= k < upto ::
      BlockInTrack(|track|, startBlock + k / nf, nfft, stride) &&
      m[k] == BlockBin(track, startBlock + k / nf, k % nf, nfft, stride, dsp)
  }

  /** The memo m of `rows` rows extends the memo m0 of rows0 rows with freshly computed rows. */
  predicate Extended(m0: seq<real>, rows0: int, m: seq<real>, rows: int,
                     track: seq<real>, startBlock: int, nfft: int, stride: int, dsp: Dsp)
    requires nfft >= 2
  {
    0 <= rows0 <= rows && |m| == rows * (nfft / 2) && Filled(m0, rows0, m, |m|, track, startBlock, nfft, stride, dsp)
  }

  /**
   * After `updateIfNeeded` the memo holds one row per whole block of the
   * track from startBlock on: rows it already had are kept when they cover
   * that many blocks, and otherwise it is extended to exactly that many.
   */
  predicate Refreshed(m0: seq<real>, rows0: int, m: seq<real>, rows: int,
                      track: seq<real>, startBlock: int, nfft: int, stride: int, dsp: Dsp)
    requires nfft >= 2 && stride != 0
  {
    var actual := NumBlocks(|track|, nfft, stride) - startBlock;
    if actual <= rows0 then m == m0 && rows == rows0
    else rows == actual && Extended(m0, rows0, m, actual, track, startBlock, nfft, stride, dsp)
  }

  /** Position slice·nf + i of a flat matrix with rows of nf values is row `slice`, column i. */
  lemma RowColumn(slice: int, i: int, rows: nat, nf: nat)
    requires 0 <= slice < rows && 0 <= i < nf
    ensures 0 <= slice * nf + i < rows * nf
    ensures (slice * nf + i) / nf == slice && (slice * nf + i) % nf == i
  {
    var k := slice * nf + i;
    Vector2d.FlatIndexInRange(slice, i, rows, nf);
    Unflatten(k, rows, nf);
    Vector2d.FlatIndexInjective(k / nf, k % nf, slice, i, nf);
  }

  /**
   * Cell (r, i) of an extended memo: an old row keeps its value, and a new
   * row holds bin i of the spectrum of block startBlock + r, whose window
   * lies inside the track.
   */
  lemma ExtendedCell(m0: seq<real>, rows0: int, m: seq<real>, rows: int,
                     track: seq<real>, startBlock: int, nfft: int, stride: int, dsp: Dsp, r: int, i: int)
    requires nfft >= 2 && Extended(m0, rows0, m, rows, track, startBlock, nfft, stride, dsp)
    requires 0 <= r < rows && 0 <= i < nfft / 2
    ensures 0 <= Vector2d.FlatIndex(r, i, nfft / 2) < |m|
    ensures r < rows0 ==> Vector2d.FlatIndex(r, i, nfft / 2) < |m0| &&
                          m[Vector2d.FlatIndex(r, i, nfft / 2)] == m0[Vector2d.FlatIndex(r, i, nfft / 2)]
    ensures rows0 <= r ==> BlockInTrack(|track|, startBlock + r, nfft, stride) &&
                           m[Vector2d.FlatIndex(r, i, nfft / 2)] == BlockBin(track, startBlock + r, i, nfft, stride, dsp)
  {
    var nf := nfft / 2;
    var k := Vector2d.FlatIndex(r, i, nf);
    RowColumn(r, i, rows, nf);
    if r < rows0 {
      Vector2d.FlatIndexInRange(r, i, rows0, nf);
      assert m[..rows0 * nf][k] == m[k];
    } else {
      MulMono(rows0, r, nf);
    }
  }

  /** Storing bin i of row `slice` at flat position k extends a filled prefix by one value. */
  lemma FillStep(m0: seq<real>, rows0: int, m: seq<real>, slice: int, i: int, k: int, rows: int,
                 track: seq<real>, startBlock: int, nfft: int, stride: int, dsp: Dsp)
    requires nfft >= 2 && rows0 <= slice < rows && 0 <= i < nfft / 2 && |m| == rows * (nfft / 2)
    requires k == i + slice * (nfft / 2)
    requires Filled(m0, rows0, m, k, track, startBlock, nfft, stride, dsp)
    requires BlockInTrack(|track|, startBlock + slice, nfft, stride)
    ensures 0 <= k < |m|
    ensures Filled(m0, rows0, m[k := BlockBin(track, startBlock + slice, i, nfft, stride, dsp)], k + 1,
                   track, startBlock, nfft, stride, dsp)
  {
    var nf := nfft / 2;
    RowColumn(slice, i, rows, nf);
    var v := BlockBin(track, startBlock + slice, i, nfft, stride, dsp);
    FillKeep(m0, rows0, m, k, v, track, startBlock, nfft, stride, dsp);
    FillNext(m0, rows0, m[k := v], k, track, startBlock, nfft, stride, dsp);
  }

  /** Writing at position k keeps what is filled before k. */
  lemma FillKeep(m0: seq<real>, rows0: int, m: seq<real>, k: int, v: real,
                 track: seq<real>, startBlock: int, nfft: int, stride: int, dsp: Dsp)
    requires nfft >= 2 && 0 <= k < |m| && Filled(m0, rows0, m, k, track, startBlock, nfft, stride, dsp)
    ensures Filled(m0, rows0, m[k := v], k, track, startBlock, nfft, stride, dsp)
  {
    var nf := nfft / 2;
    assert m[k := v][..rows0 * nf] == m[..rows0 * nf];
  }

  /** The bin of its own block and column at position k extends the filled prefix to k + 1. */
  lemma FillNext(m0: seq<real>, rows0: int, m: seq<real>, k: int,
                 track: seq<real>, startBlock: int, nfft: int, stride: int, dsp: Dsp)
    requires nfft >= 2 && 0 <= k < |m| && Filled(m0, rows0, m, k, track, startBlock, nfft, stride, dsp)
    requires BlockInTrack(|track|, startBlock + k / (nfft / 2), nfft, stride)
    requires m[k] == BlockBin(track, startBlock + k / (nfft / 2), k % (nfft / 2), nfft, stride, dsp)
    ensures Filled(m0, rows0, m, k + 1, track, startBlock, nfft, stride, dsp)
  {
  }

  /** The next block starts one stride later. */
  lemma NextBlockStart(b: int, stride: int)
    ensures (b + 1) * stride == b * stride + stride
  {
  }

  /** The windowing loop: each sample multiplied by its Blackman-Nuttall weight. */
  method ApplyWindow(frame: seq<real>, cos: real -> real) returns (w: seq<real>)
    requires |frame| >= 2
    ensures w == Windowed(frame, cos)
  {
    w := frame;
    var n := |frame| - 1;
    var i := 0;
    while i < |frame|
      invariant 0 <= i <= |frame| && |w| == |frame|
      invariant forall j :: 0 <= j < i ==> w[j] == Windowed(frame, cos)[j]
      invariant forall j :: i <= j < |w| ==> w[j] == frame[j]
    {
      var wk := NuttallWeight(i, n, cos);
      w := w[i := w[i] * wk];
      i := i + 1;
    }
  }

  /** One step of the transpose: slice `slice` of frequency i goes to position k = slice + i·ns. */
  lemma TransposeStep(cm: seq<real>, ns: nat, nf: nat, i: int, slice: int, d: seq<real>, k: int)
    requires |cm| == ns * nf && |d| == ns * nf && 0 <= i < nf && 0 <= slice < ns && k == slice + i * ns
    requires k < |d|
    requires forall p :: 0 <= p < k ==> d[p] == Transposed(cm, ns, nf)[p]
    ensures 0 <= i + slice * nf < |cm|
    ensures forall p :: 0 <= p < k + 1 ==> d[k := cm[i + slice * nf]][p] == Transposed(cm, ns, nf)[p]
  {
    TransposedCell(cm, ns, nf, slice, i);
  }

  /** The transpose loops of `updateSpectrogramResults`, writing `data` in order. */
  method Transpose(cm: seq<real>, ns: nat, nf: nat, d0: seq<real>) returns (d: seq<real>)
    requires |cm| == ns * nf && |d0| == ns * nf
    ensures d == Transposed(cm, ns, nf)
  {
    d := d0;
    ghost var k := 0;
    var i := 0;
    while i < nf
      invariant 0 <= i <= nf && |d| == ns * nf && k == i * ns && k <= |d|
      invariant forall p :: 0 <= p < k ==> d[p] == Transposed(cm, ns, nf)[p]
    {
      var slice := 0;
      while slice < ns
        invariant 0 <= slice <= ns && |d| == ns * nf && k == slice + i * ns && k <= |d|
        invariant forall p :: 0 <= p < k ==> d[p] == Transposed(cm, ns, nf)[p]
      {
        Vector2d.FlatIndexInRange(i, slice, nf, ns);
        TransposeStep(cm, ns, nf, i, slice, d, k);
        d := d[slice + i * ns := cm[i + slice * nf]];
        slice := slice + 1;
        k := k + 1;
      }
      assert k == (i + 1) * ns;
      i := i + 1;
    }
    assert k == |d|;
  }

  /** Row `slice` of the selection, memo row s + slice·ds, lies whole inside the memo. */
  lemma RowInMemo(memo: seq<real>, rows: nat, nf: nat, s: int, ds: int, ns: nat, slice: int)
    requires |memo| == rows * nf && RowsStored(rows, s, ds, ns) && 0 <= slice < ns
    ensures 0 <= (s + slice * ds) * nf && (s + slice * ds) * nf + nf <= |memo|
    ensures slice * nf + nf <= ns * nf
  {
    MulMono(slice, ns - 1, ds);
    MulMono(0, s + slice * ds, nf);
    MulMono(s + slice * ds + 1, rows, nf);
    MulMono(slice + 1, ns, nf);
  }

  /** Copying memo row s + slice·ds, from flat position m, to slice `slice`, at flat position k, extends the copied prefix by that row. */
  lemma CopyStep(memo: seq<real>, rows: nat, nf: nat, s: int, ds: int, ns: nat, slice: int,
                 cm: seq<real>, k: int, m: int)
    requires |memo| == rows * nf && RowsStored(rows, s, ds, ns) && 0 <= slice < ns && |cm| == ns * nf
    requires k == slice * nf && m == (s + slice * ds) * nf && k <= |cm|
    requires forall p :: 0 <= p < k ==> cm[p] == ColMajor(memo, nf, s, ds, ns)[p]
    ensures 0 <= m && m + nf <= |memo| && 0 <= k && k + nf <= |cm|
    ensures |cm[..k] + memo[m..m + nf] + cm[k + nf..]| == ns * nf
    ensures forall p :: 0 <= p < k + nf ==>
      (cm[..k] + memo[m..m + nf] + cm[k + nf..])[p] == ColMajor(memo, nf, s, ds, ns)[p]
  {
    RowInMemo(memo, rows, nf, s, ds, ns, slice);
    var c := ColMajor(memo, nf, s, ds, ns);
    var cm' := cm[..k] + memo[m..m + nf] + cm[k + nf..];
    forall p | k <= p < k + nf
      ensures cm'[p] == c[p]
    {
      ColMajorCell(memo, rows, nf, s, ds, ns, slice, p - k);
    }
  }

  /** The copy loop of `updateSpectrogramResults`: memo row s + slice·ds becomes slice `slice`. */
  method CopyBlocks(memo: seq<real>, rows: nat, nf: nat, s: int, ds: int, ns: nat, cm0: seq<real>) returns (cm: seq<real>)
    requires |memo| == rows * nf && RowsStored(rows, s, ds, ns) && |cm0| == ns * nf
    ensures cm == ColMajor(memo, nf, s, ds, ns)
  {
    cm := cm0;
    var block := s;
    var slice := 0;
    while slice < ns
      invariant 0 <= slice <= ns && block == s + slice * ds && |cm| == ns * nf && slice * nf <= |cm|
      invariant forall p :: 0 <= p < slice * nf ==> cm[p] == ColMajor(memo, nf, s, ds, ns)[p]
    {
      var memoIndex := block * nf;
      CopyStep(memo, rows, nf, s, ds, ns, slice, cm, slice * nf, memoIndex);
      cm := cm[..slice * nf] + memo[memoIndex..memoIndex + nf] + cm[slice * nf + nf..];
      assert slice * nf + nf == (slice + 1) * nf;
      block := block + ds;
      slice := slice + 1;
    }
    assert ns * nf == |cm|;
  }

  /**
   * The non-empty branch of `updateSpectrogramResults`: both result arrays
   * are resized to ns·nf, the selected rows copied into the column-major one
   * and transposed into the other.
   */
  method SliceData(memo: seq<real>, rows: nat, nf: nat, s: int, e: int, ds: int, cm0: seq<real>, data0: seq<real>)
    returns (ns: nat, cm: seq<real>, data: seq<real>)
    requires |memo| == rows * nf && 0 <= s <= e && ds >= 1 && (e > 0 ==> e <= rows - 1)
    ensures ns == (e - s) / ds
    ensures cm == ColMajor(memo, nf, s, ds, ns) && data == Transposed(cm, ns, nf)
  {
    ns := (e - s) / ds;
    SelectionStored(rows, s, e, ds);
    MulMono(0, ns, nf);
    var size: nat := ns * nf;
    cm := CopyBlocks(memo, rows, nf, s, ds, ns, Resized(cm0, size, 0.0));
    data := Transpose(cm, ns, nf, Resized(data0, size, 0.0));
  }

  class SpectrogramController {
    var time: real
    var timeSamples: int
    var fftLength: int
    var fftStride: int
    var memoMaxMemory: nat
    var memoStartTime: real
    var memoStartBlock: int
    var memoRowCount: int
    var memo: seq<real>
    var specResults: SpectrogramResults
    var needSpecUpdate: bool
    var specTimeMin: real
    var specTimeMax: real
    var specTimePerPixel: real

    /** The memo holds exactly memoRowCount rows of fftLength/2 values and starts at a non-negative time. */
    ghost predicate Valid()
      reads this
    {
      memoRowCount >= 0 && |memo| == memoRowCount * Div(fftLength, 2) && memoStartTime >= 0.0
    }

    /** The FFT length starts at 1024 and the memo budget at 256 MiB; the memo is empty. */
    constructor ()
      ensures Valid()
      ensures time == 0.0 && timeSamples == 0 && fftLength == 1024 && memoMaxMemory == DefaultMaxMemory
      ensures memoStartTime == 0.0 && memoRowCount == 0 && memo == [] && !needSpecUpdate
    {
      time, timeSamples := 0.0, 0;
      fftLength, fftStride := 1024, 0;
      memoMaxMemory := DefaultMaxMemory;
      memoStartTime, memoStartBlock, memoRowCount := 0.0, 0, 0;
      memo := [];
      specResults := EmptyResults;
      needSpecUpdate := false;
      specTimeMin, specTimeMax, specTimePerPixel := 0.0, 0.0, 0.0;
    }

    /** `setTime`: the cursor in seconds, and in samples of the track at `rate`. */
    method SetTime(t: real, rate: real)
      modifies this`time, this`timeSamples
      ensures time == t && timeSamples == SamplesAtTime(t, rate)
    {
      time := t;
      timeSamples := Trunc(t * rate);
    }

    /** `setTimeSamples`: the cursor in samples, and in seconds at `rate`. */
    method SetTimeSamples(samples: int, rate: real)
      requires rate != 0.0
      modifies this`time, this`timeSamples
      ensures timeSamples == samples && time == TimeAtSamples(samples, rate)
    {
      timeSamples := samples;
      time := samples as real / rate;
    }

    /** `setFftLength`: a new FFT length invalidates every memo row. */
    method SetFftLength(nfft: int)
      requires Valid()
      modifies this`fftLength, this`memo, this`memoRowCount
      ensures Valid() && fftLength == nfft && memo == [] && memoRowCount == 0
    {
      fftLength := nfft;
      memo := [];
      memoRowCount := 0;
    }

    /** `setMaxMemoryMemo`: the memo budget in bytes. */
    method SetMaxMemoryMemo(mem: nat)
      modifies this`memoMaxMemory
      ensures memoMaxMemory == mem
    {
      memoMaxMemory := mem;
    }

    /** `forceClear`: drop every memo row. */
    method ForceClear()
      requires Valid()
      modifies this`memo, this`memoRowCount
      ensures Valid() && memo == [] && memoRowCount == 0
    {
      memo := [];
      memoRowCount := 0;
    }

    /** `updateSpectrogramResults` on the request recorded by `getSpectrogramForRange`. */
    method UpdateSpectrogramResults(rate: real)
      requires Valid() && rate != 0.0 && fftStride > 0 && fftLength >= 2
      modifies this`specResults
      ensures specResults == Results(old(specResults), memo, memoRowCount, memoStartBlock, fftLength, fftStride,
                                     rate, specTimeMin, specTimeMax, specTimePerPixel)
    {
      var nf := Div(fftLength, 2);
      var ds := DsMult(specTimePerPixel, fftStride, rate);
      var se := Selection(memoRowCount, memoStartBlock, fftStride, rate, specTimeMin, specTimeMax, ds);
      var s, e := se.0, se.1;
      var spec := specResults.(freqMin := 1.0 / rate, freqMax := rate / 2.0, numFreqs := nf);
      if e < s {
        specResults := spec.(timeMin := 0.0, timeMax := 0.0, numSlices := 0);
        return;
      }
      var ns, cm, data := SliceData(memo, memoRowCount, nf, s, e, ds, spec.dataColMajor, spec.data);
      specResults := spec.(timeMin := SliceTime(s, memoStartBlock, fftStride, rate, fftLength),
                           timeMax := SliceTime(e, memoStartBlock, fftStride, rate, fftLength),
                           numSlices := ns, data := data, dataColMajor := cm);
    }

    /** The spectrum loop of `updateIfNeeded`: the bins of one windowed block go to memo row `slice`. */
    method StoreSpectrum(track: seq<real>, slice: int, windowed: seq<real>, dsp: Dsp,
                         ghost m0: seq<real>, ghost rows0: int)
      requires fftLength >= 2 && rows0 <= slice < memoRowCount && |memo| == memoRowCount * Div(fftLength, 2)
      requires BlockInTrack(|track|, memoStartBlock + slice, fftLength, fftStride)
      requires windowed == Windowed(AudioTrack.Slice(track, (memoStartBlock + slice) * fftStride, fftLength), dsp.cos)
      requires Filled(m0, rows0, memo, slice * Div(fftLength, 2), track, memoStartBlock, fftLength, fftStride, dsp)
      modifies this`memo
      ensures |memo| == memoRowCount * Div(fftLength, 2)
      ensures Filled(m0, rows0, memo, (slice + 1) * Div(fftLength, 2), track, memoStartBlock, fftLength, fftStride, dsp)
    {
      var numFreqs := Div(fftLength, 2);
      ghost var k := slice * numFreqs;
      var i := 0;
      while i < numFreqs
        invariant 0 <= i <= numFreqs && k == i + slice * numFreqs && |memo| == memoRowCount * numFreqs
        invariant Filled(m0, rows0, memo, k, track, memoStartBlock, fftLength, fftStride, dsp)
      {
        FillStep(m0, rows0, memo, slice, i, k, memoRowCount, track, memoStartBlock, fftLength, fftStride, dsp);
        memo := memo[i + slice * numFreqs := BinDb(windowed, fftLength, i, dsp)];
        i := i + 1;
        k := k + 1;
      }
      assert k == (slice + 1) * numFreqs;
    }

    /**
     * The end of `updateIfNeeded`, once the memo is known to lack rows: grow it to
     * `actual` rows and compute each missing row from its block of the track.
     */
    method ExtendMemo(track: seq<real>, actual: int, dsp: Dsp)
      requires Valid() && fftLength >= 2 && fftStride > 0 && memoStartBlock >= 0
      requires memoRowCount < actual && memoStartBlock + actual == NumBlocks(|track|, fftLength, fftStride)
      modifies this`memo, this`memoRowCount
      ensures Valid() && memoRowCount == actual
      ensures Extended(old(memo), old(memoRowCount), memo, actual, track, memoStartBlock, fftLength, fftStride, dsp)
    {
      var numFreqs := Div(fftLength, 2);
      var numMissing := actual - memoRowCount;
      ghost var m0, rows0 := memo, memoRowCount;
      MulMono(0, actual, numFreqs);
      MulMono(rows0, actual, numFreqs);
      memo := Resized(memo, actual * numFreqs, 0.0);
      memoRowCount := actual;
      assert memo[..rows0 * numFreqs] == m0;
      var slice := actual - numMissing;
      var index := (memoStartBlock + slice) * fftStride;
      ghost var startBlock, stride := memoStartBlock, fftStride;
      while slice < actual
        invariant rows0 <= slice <= actual && index == (startBlock + slice) * stride
        invariant memoRowCount == actual && |memo| == actual * numFreqs
        invariant Filled(m0, rows0, memo, slice * numFreqs, track, memoStartBlock, fftLength, fftStride, dsp)
      {
        BlockFits(|track|, fftLength, fftStride, memoStartBlock + slice);
        var trackSamples := AudioTrack.Slice(track, index, fftLength);
        var windowed := ApplyWindow(trackSamples, dsp.cos);
        StoreSpectrum(track, slice, windowed, dsp, m0, rows0);
        NextBlockStart(startBlock + slice, stride);
        slice := slice + 1;
        index := index + fftStride;
      }
    }

    /** The memory cap of `updateIfNeeded`: over budget, the memo restarts empty ten seconds before the last request. */
    method EvictIfOverBudget(bytesUsed: nat)
      requires Valid()
      modifies this`memo, this`memoRowCount, this`memoStartTime
      ensures Valid()
      ensures bytesUsed > memoMaxMemory ==>
                memo == [] && memoRowCount == 0 && memoStartTime == EvictedStartTime(specTimeMin)
      ensures bytesUsed <= memoMaxMemory ==>
                memo == old(memo) && memoRowCount == old(memoRowCount) && memoStartTime == old(memoStartTime)
    {
      if bytesUsed > memoMaxMemory {
        memo := [];
        memoRowCount := 0;
        memoStartTime := EvictedStartTime(specTimeMin);
      }
    }

    /**
     * The memo part of `updateIfNeeded`: fix the stride at a quarter of the
     * FFT length, place the first memo block at the memo start time, and
     * compute the blocks of the track the memo still lacks.
     */
    method RefreshMemo(track: seq<real>, rate: real, dsp: Dsp)
      requires Valid() && rate > 0.0 && fftLength >= 4
      modifies this`memo, this`memoRowCount, this`memoStartBlock, this`fftStride
      ensures Valid() && fftStride == Div(fftLength, 4)
      ensures memoStartBlock == StartBlock(memoStartTime, rate, fftStride)
      ensures Refreshed(old(memo), old(memoRowCount), memo, memoRowCount, track, memoStartBlock, fftLength, fftStride, dsp)
    {
      fftStride := Div(fftLength, 4);
      var numBlocks := Div(|track| - fftLength, fftStride);
      memoStartBlock := StartBlock(memoStartTime, rate, fftStride);
      var actualNumBlocks := numBlocks - memoStartBlock;
      var numMissingBlocks := actualNumBlocks - memoRowCount;
      if numMissingBlocks <= 0 {
        return;
      }
      ExtendMemo(track, actualNumBlocks, dsp);
    }

    /**
     * `updateIfNeeded`: evict the memo when it uses more than its budget,
     * bring the pending results up to date, then refresh the memo.
     * `bytesUsed` is the memo's allocation in bytes; m0 and rows0 are the
     * memo and its row count once the memory cap has been applied.
     */
    method UpdateIfNeeded(track: seq<real>, rate: real, bytesUsed: nat, dsp: Dsp)
      returns (ghost m0: seq<real>, ghost rows0: int)
      requires Valid() && rate > 0.0 && fftLength >= 4 && (needSpecUpdate ==> fftStride > 0)
      modifies this`memo, this`memoRowCount, this`memoStartTime, this`memoStartBlock, this`fftStride
      modifies this`specResults, this`needSpecUpdate
      ensures Valid() && !needSpecUpdate && fftStride == Div(fftLength, 4)
      ensures memoStartTime == if bytesUsed > memoMaxMemory then EvictedStartTime(specTimeMin) else old(memoStartTime)
      ensures memoStartBlock == StartBlock(memoStartTime, rate, fftStride)
      ensures m0 == (if bytesUsed > memoMaxMemory then [] else old(memo))
      ensures rows0 == (if bytesUsed > memoMaxMemory then 0 else old(memoRowCount))
      ensures Refreshed(m0, rows0, memo, memoRowCount, track, memoStartBlock, fftLength, fftStride, dsp)
      ensures old(needSpecUpdate) ==>
                specResults == Results(old(specResults), m0, rows0, old(memoStartBlock), fftLength, old(fftStride),
                                       rate, specTimeMin, specTimeMax, specTimePerPixel)
      ensures !old(needSpecUpdate) ==> specResults == old(specResults)
    {
      EvictIfOverBudget(bytesUsed);
      m0, rows0 := memo, memoRowCount;
      if needSpecUpdate {
        UpdateSpectrogramResults(rate);
        needSpecUpdate := false;
      }
      RefreshMemo(track, rate, dsp);
    }

    /**
     * `getSpectrogramForRange`: record the request, widened by four
     * windows on each side, for the next update, and hand back the results
     * as they stand.
     */
    method GetSpectrogramForRange(timeMin: real, timeMax: real, timePerPixel: real, rate: real)
      returns (r: SpectrogramResults)
      requires rate != 0.0
      modifies this`needSpecUpdate, this`specTimeMin, this`specTimeMax, this`specTimePerPixel
      ensures r == specResults
      ensures needSpecUpdate
      ensures specTimeMin == timeMin - 4.0 * (fftLength as real / rate)
      ensures specTimeMax == timeMax + 4.0 * (fftLength as real / rate)
      ensures specTimePerPixel == timePerPixel
    {
      var oneWindow := fftLength as real / rate;
      needSpecUpdate := true;
      specTimeMin := timeMin - 4.0 * oneWindow;
      specTimeMax := timeMax + 4.0 * oneWindow;
      specTimePerPixel := timePerPixel;
      r := specResults;
    }
  }
}
