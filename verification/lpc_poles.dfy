/**
 * `lpc_poles` (lpc_poles.cpp): cut a signal into overlapping frames, run one
 * of three LPC analysers on each, and keep the formant candidates of every
 * frame loud enough to be worth the root search.
 *
 * The analysers (`lpc`, `lpcbsa`, `w_covar` with its energy formula) and the
 * per-frame `formant` call enter as function parameters: their own models
 * live in the Lpc and Formant modules, and here only the way the frame loop
 * threads their results from one frame to the next matters.
 */
module LpcPoles {
  import opened CNum
  import opened Routines

  datatype LpcType = Autoc | Bsa | Covar

  /**
   * One analyser call: (samples, frame offset, frame size, pre-emphasis,
   * previous coefficients, previous energy) to (coefficients, energy).
   * The previous values are inputs because the source's `lpca` and
   * `energy` outlive the frame: an analyser that fails leaves them as the
   * last frame wrote them.
   */
  type Analyser = (seq<real>, int, int, real, seq<real>, real) -> (seq<real>, real)

  /**
   * One `formant` call: (coefficients, initial frequencies, initial
   * bandwidths, restart flag) to (number of formants, frequencies, bandwidths).
   */
  type FormantStep = (seq<real>, seq<real>, seq<real>, bool) -> (int, seq<real>, seq<real>)

  /** What stays fixed across the frames of one call. */
  datatype Frames = Frames(size: int, step: int, order: int, preEmphasis: real,
                           analyse: Analyser, formant: FormantStep)

  /** What one frame hands to the next: coefficients, energy and the restart flag. */
  datatype Scan = Scan(lpca: seq<real>, energy: real, init: bool)

  /** The analyser the `switch` on the LPC type picks. */
  function Pick(lpcType: LpcType, autoc: Analyser, bsa: Analyser, covar: Analyser): Analyser
  {
    match lpcType
    case Autoc => autoc
    case Bsa => bsa
    case Covar => covar
  }

  /** The window duration after the BSA override. */
  function WindowFor(lpcType: LpcType, windowDuration: real): real
  {
    if lpcType == Bsa then 0.025 else windowDuration
  }

  /** The pre-emphasis after the BSA override, exp(-2π·90/fs) for BSA. */
  function PreEmphasisFor(lpcType: LpcType, preEmphasis: real, sampleRate: real, exp: real -> real): real
    requires sampleRate != 0.0
  {
    if lpcType == Bsa then exp(-62.831853 * 90.0 / sampleRate) else preEmphasis
  }

  /** `1 + (int)((length / sampleRate - windowDuration) / frameInterval)`. */
  function NumFrames(length: int, sampleRate: real, windowDuration: real, frameInterval: real): int
    requires sampleRate != 0.0 && frameInterval != 0.0
  {
    1 + Trunc((length as real / sampleRate - windowDuration) / frameInterval)
  }

  /** Frame `j`: analyse it, then run the root search if its energy exceeds 1. */
  function Frame(f: Frames, signal: seq<real>, st: Scan, j: int): (Pole, Scan)
  {
    var off := j * f.step;
    var (lpca, energy) := f.analyse(signal, off, f.size, f.preEmphasis, st.lpca, st.energy);
    if energy > 1.0 then
      var (nForm, freq, band) := f.formant(lpca, Zeros(f.order), Zeros(f.order), st.init);
      (Pole(off, energy, 0.0, nForm, freq, band), Scan(lpca, energy, false))
    else
      (Pole(off, energy, 0.0, 0, Zeros(f.order), Zeros(f.order)), Scan(lpca, energy, true))
  }

  /** The first `n` frames, in order, and the state they leave behind. */
  function Run(f: Frames, signal: seq<real>, s0: Scan, n: nat): (r: (seq<Pole>, Scan))
    ensures |r.0| == n
  {
    if n == 0 then ([], s0)
    else
      var (poles, st) := Run(f, signal, s0, n - 1);
      var (p, st') := Frame(f, signal, st, n - 1);
      (poles + [p], st')
  }

  /** A later frame never rewrites an earlier one: the first m frames of n are the frames of a run of m. */
  lemma {:induction false} RunPrefix(f: Frames, signal: seq<real>, s0: Scan, m: nat, n: nat)
    requires m <= n
    ensures Run(f, signal, s0, n).0[..m] == Run(f, signal, s0, m).0
    decreases n
  {
    if m < n {
      RunPrefix(f, signal, s0, m, n - 1);
      var ps := Run(f, signal, s0, n - 1).0;
      assert Run(f, signal, s0, n).0[..m] == ps[..m];
    }
  }

  /** Frame j of any longer run is the frame computed from the state the first j frames left. */
  lemma FrameAt(f: Frames, signal: seq<real>, s0: Scan, j: nat, n: nat)
    requires j < n
    ensures Run(f, signal, s0, n).0[j] == Frame(f, signal, Run(f, signal, s0, j).1, j).0
  {
    RunPrefix(f, signal, s0, j + 1, n);
    assert Run(f, signal, s0, n).0[j] == Run(f, signal, s0, n).0[..j + 1][j];
  }

  /**
   * The state after j frames: the energy is the last frame's rms (the
   * initial energy before any frame), and the search restarts exactly when
   * no frame ran yet or the last frame was too quiet.
   */
  lemma StateAfter(f: Frames, signal: seq<real>, s0: Scan, j: nat)
    requires s0.init
    ensures var (poles, st) := Run(f, signal, s0, j);
      st.energy == (if j == 0 then s0.energy else poles[j - 1].rms) &&
      st.init == (j == 0 || poles[j - 1].rms <= 1.0)
  {
  }

  /** Every frame j starts at sample j*step, keeps change 0 and resizes freq/band to the order when quiet. */
  lemma {:induction false} RunFrames(f: Frames, signal: seq<real>, s0: Scan, n: nat)
    ensures forall j :: 0 <= j < n ==>
      var p := Run(f, signal, s0, n).0[j];
      p.offset == j * f.step && p.change == 0.0 &&
      (p.rms <= 1.0 ==> p.npoles == 0 && p.freq == Zeros(f.order) && p.band == Zeros(f.order))
  {
    if n > 0 {
      RunFrames(f, signal, s0, n - 1);
      var ps := Run(f, signal, s0, n - 1).0;
      assert forall j :: 0 <= j < n - 1 ==> Run(f, signal, s0, n).0[j] == ps[j];
    }
  }

  /**
   * A loud frame carries exactly what `formant` returned for the frame's
   * coefficients, started from zeros and told whether to restart.
   */
  lemma LoudFrame(f: Frames, signal: seq<real>, s0: Scan, j: nat, n: nat)
    requires j < n && s0.init
    ensures var p := Run(f, signal, s0, n).0[j];
      var st := Run(f, signal, s0, j).1;
      var (lpca, energy) := f.analyse(signal, j * f.step, f.size, f.preEmphasis, st.lpca, st.energy);
      p.rms == energy &&
      (energy > 1.0 ==>
        (p.npoles, p.freq, p.band) == f.formant(lpca, Zeros(f.order), Zeros(f.order), st.init))
  {
    FrameAt(f, signal, s0, j, n);
  }

  /**
   * The frame loop: fills `pole[j]` for j = 0 .. numFrames-1 from `signal`.
   * `lpca` starts as `lpcOrder` zeros and `energy` as `energy0`, the value
   * the uninitialised variable happens to hold.
   */
  method FrameLoop(f: Frames, signal: seq<real>, numFrames: nat, energy0: real) returns (poles: seq<Pole>)
    ensures poles == Run(f, signal, Scan(Zeros(f.order), energy0, true), numFrames).0
  {
    ghost var s0 := Scan(Zeros(f.order), energy0, true);
    var pole := new Pole[numFrames](_ => Pole(0, 0.0, 0.0, 0, [], []));
    var lpca := Zeros(f.order);
    var energy := energy0;
    var init := true;
    var dataOff := 0;
    var j := 0;
    while j < numFrames
      invariant 0 <= j <= numFrames
      invariant dataOff == j * f.step
      invariant pole[..j] == Run(f, signal, s0, j).0
      invariant Scan(lpca, energy, init) == Run(f, signal, s0, j).1
    {
      var freq := Zeros(f.order);
      var band := Zeros(f.order);
      var res := f.analyse(signal, dataOff, f.size, f.preEmphasis, lpca, energy);
      lpca, energy := res.0, res.1;
      var npoles := 0;
      if energy > 1.0 {
        var found := f.formant(lpca, freq, band, init);
        npoles, freq, band := found.0, found.1, found.2;
        init := false;
      } else {
        init := true;
      }
      pole[j] := Pole(dataOff, energy, 0.0, npoles, freq, band);
      assert pole[..j + 1] == pole[..j] + [pole[j]];
      j, dataOff := j + 1, dataOff + f.step;
    }
    poles := pole[..];
    assert poles == pole[..j];
  }

  /**
   * `lpc_poles` over the samples `signal`, with the frame count taken from
   * `data`'s length; `exp` and the analysers are parameters.
   */
  method PolesOf(data: seq<real>, signal: seq<real>, sampleRate: real, windowDuration: real,
                 frameInterval: real, lpcOrder: int, preEmphasis: real, lpcType: LpcType,
                 autoc: Analyser, bsa: Analyser, covar: Analyser, formant: FormantStep,
                 exp: real -> real, energy0: real)
    returns (r: PoleArray)
    requires sampleRate != 0.0
    requires 2 <= lpcOrder <= MAXORDER ==> Integerize(frameInterval, sampleRate) != 0.0
    ensures !(2 <= lpcOrder <= MAXORDER) ==> r == EmptyPoleArray
    ensures 2 <= lpcOrder <= MAXORDER ==>
      var wd := Integerize(WindowFor(lpcType, windowDuration), sampleRate);
      var fi := Integerize(frameInterval, sampleRate);
      var n := NumFrames(|data|, sampleRate, wd, fi);
      var f := Frames(SampleCount(wd, sampleRate), SampleCount(fi, sampleRate), lpcOrder,
                      PreEmphasisFor(lpcType, preEmphasis, sampleRate, exp),
                      Pick(lpcType, autoc, bsa, covar), formant);
      (n < 1 ==> r == EmptyPoleArray) &&
      (n >= 1 ==> r == PoleArray(Run(f, signal, Scan(Zeros(lpcOrder), energy0, true), n).0, n, 1.0 / fi))
  {
    var windowDuration, preEmphasis := windowDuration, preEmphasis;
    if lpcType == Bsa {
      windowDuration := 0.025;
      preEmphasis := exp(-62.831853 * 90.0 / sampleRate);
    }
    if lpcOrder > MAXORDER || lpcOrder < 2 {
      return EmptyPoleArray;
    }
    windowDuration := Integerize(windowDuration, sampleRate);
    var frameInterval := Integerize(frameInterval, sampleRate);
    var size := SampleCount(windowDuration, sampleRate);
    var step := SampleCount(frameInterval, sampleRate);
    var numFrames := NumFrames(|data|, sampleRate, windowDuration, frameInterval);
    if numFrames >= 1 {
      var analyse := Pick(lpcType, autoc, bsa, covar);
      var poles := FrameLoop(Frames(size, step, lpcOrder, preEmphasis, analyse, formant), signal, numFrames, energy0);
      return PoleArray(poles, |poles|, 1.0 / frameInterval);
    } else {
      return EmptyPoleArray;
    }
  }

  /** The samples cut to integers, as copying them into a `std::vector<int>` does. */
  function Truncated(data: seq<real>): (t: seq<real>)
    ensures |t| == |data|
    ensures forall i :: 0 <= i < |data| ==> t[i] == Trunc(data[i]) as real
  {
    seq(|data|, i requires 0 <= i < |data| => Trunc(data[i]) as real)
  }

  /**
   * `lpc_poles` as evidently intended: every frame is analysed from the
   * input samples, cut to integers.
   */
  method LpcPoles(data: seq<real>, sampleRate: real, windowDuration: real, frameInterval: real,
                  lpcOrder: int, preEmphasis: real, lpcType: LpcType,
                  autoc: Analyser, bsa: Analyser, covar: Analyser, formant: FormantStep,
                  exp: real -> real, energy0: real)
    returns (r: PoleArray)
    requires sampleRate != 0.0
    requires 2 <= lpcOrder <= MAXORDER ==> Integerize(frameInterval, sampleRate) != 0.0
    ensures !(2 <= lpcOrder <= MAXORDER) ==> r == EmptyPoleArray
    ensures 2 <= lpcOrder <= MAXORDER ==>
      var wd := Integerize(WindowFor(lpcType, windowDuration), sampleRate);
      var fi := Integerize(frameInterval, sampleRate);
      var n := NumFrames(|data|, sampleRate, wd, fi);
      var f := Frames(SampleCount(wd, sampleRate), SampleCount(fi, sampleRate), lpcOrder,
                      PreEmphasisFor(lpcType, preEmphasis, sampleRate, exp),
                      Pick(lpcType, autoc, bsa, covar), formant);
      (n < 1 ==> r == EmptyPoleArray) &&
      (n >= 1 ==> r == PoleArray(Run(f, Truncated(data), Scan(Zeros(lpcOrder), energy0, true), n).0, n, 1.0 / fi))
  {
    r := PolesOf(data, Truncated(data), sampleRate, windowDuration, frameInterval, lpcOrder, preEmphasis,
                 lpcType, autoc, bsa, covar, formant, exp, energy0);
  }

  /**
   * `lpc_poles` as written: the local `std::vector<int> data(length)`
   * shadows the input, so every frame is analysed from `length` zeros.
   */
  method LpcPolesAsWritten(data: seq<real>, sampleRate: real, windowDuration: real, frameInterval: real,
                           lpcOrder: int, preEmphasis: real, lpcType: LpcType,
                           autoc: Analyser, bsa: Analyser, covar: Analyser, formant: FormantStep,
                           exp: real -> real, energy0: real)
    returns (r: PoleArray)
    requires sampleRate != 0.0
    requires 2 <= lpcOrder <= MAXORDER ==> Integerize(frameInterval, sampleRate) != 0.0
    ensures !(2 <= lpcOrder <= MAXORDER) ==> r == EmptyPoleArray
    ensures 2 <= lpcOrder <= MAXORDER ==>
      var wd := Integerize(WindowFor(lpcType, windowDuration), sampleRate);
      var fi := Integerize(frameInterval, sampleRate);
      var n := NumFrames(|data|, sampleRate, wd, fi);
      var f := Frames(SampleCount(wd, sampleRate), SampleCount(fi, sampleRate), lpcOrder,
                      PreEmphasisFor(lpcType, preEmphasis, sampleRate, exp),
                      Pick(lpcType, autoc, bsa, covar), formant);
      (n < 1 ==> r == EmptyPoleArray) &&
      (n >= 1 ==> r == PoleArray(Run(f, Zeros(|data|), Scan(Zeros(lpcOrder), energy0, true), n).0, n, 1.0 / fi))
  {
    r := PolesOf(data, Zeros(|data|), sampleRate, windowDuration, frameInterval, lpcOrder, preEmphasis,
                 lpcType, autoc, bsa, covar, formant, exp, energy0);
  }

  /**
   * Moving a time to the sample grid twice changes nothing: the frame size
   * and step computed from the integerized durations are the sample counts
   * of the durations as given.
   */
  lemma IntegerizeIdempotent(time: real, freq: real)
    requires freq != 0.0 && freq * time >= 0.0
    ensures SampleCount(Integerize(time, freq), freq) == SampleCount(time, freq)
  {
    var n := SampleCount(time, freq);
    assert freq * Integerize(time, freq) == n as real;
  }

  /** An analyser whose energy is the first sample of the frame (for the finding below). */
  function FirstSampleEnergy(s: seq<real>, off: int, size: int, pre: real, lpca: seq<real>, energy: real): (seq<real>, real)
  {
    (lpca, if 0 <= off < |s| then s[off] else 0.0)
  }

  /**
   * The shadowing in `lpc_poles` discards the signal: with an analyser that
   * reports the frame's first sample as its energy, a one-sample input of
   * value 2 yields a frame of rms 0 as written, and of rms 2 as intended.
   */
  lemma ShadowedInputIsZeros(formant: FormantStep)
    ensures var f := Frames(1, 1, 2, 0.0, FirstSampleEnergy, formant);
      var s0 := Scan(Zeros(2), 0.0, true);
      Run(f, Zeros(|[2.0]|), s0, 1).0[0].rms == 0.0 &&
      Run(f, Truncated([2.0]), s0, 1).0[0].rms == 2.0
  {
    assert Truncated([2.0]) == [2.0];
  }

  /** As written, the result depends on the input only through its length. */
  lemma AsWrittenIgnoresSamples(f: Frames, d1: seq<real>, d2: seq<real>, s0: Scan, n: nat)
    requires |d1| == |d2|
    ensures Run(f, Zeros(|d1|), s0, n) == Run(f, Zeros(|d2|), s0, n)
  {
  }
}
