/**
 * The waveform view's data (waveformcontroller.cpp): for the requested time
 * range either the raw samples, when zoomed in far enough, or one
 * min/max/RMS summary per window of samples.  The square root is a
 * parameter of the model.
 */
module WaveformController {
  import opened Wrappers
  import opened CNum
  import Routines
  import AudioTrack

  datatype WaveformDataType = Samples | MinMax | MinMaxRMS

  datatype WaveformResults = WaveformResults(
    timeMin: real, timeMax: real, timeScale: real, dataType: WaveformDataType,
    times: seq<real>, samples: seq<real>, minmaxShaded: bool,
    mins: seq<real>, maxs: seq<real>, rms1: seq<real>, rms2: seq<real>)

  /** The value-initialised results the controller starts with. */
  const ZeroResults := WaveformResults(0.0, 0.0, 0.0, Samples, [], [], false, [], [], [], [])

  /** `resetWaveformResults`: no data, unit time scale, sample display, no shading. */
  const ResetResults := ZeroResults.(timeScale := 1.0)

  /** Zoom ratios (pixels per sample) from which samples, shaded min/max and plain min/max are shown. */
  const RatioThresholdSamples: real := 0.2
  const RatioThresholdMinMax: real := 0.025
  const RatioThresholdRMS: real := 0.02

  /** `std::clamp(v, lo, hi)`. */
  function Clamp(v: int, lo: int, hi: int): (r: int)
    requires lo <= hi
    ensures lo <= r <= hi
    ensures lo <= v <= hi ==> r == v
  {
    if v < lo then lo else if hi < v then hi else v
  }

  /** The sample index of time t: the truncated t·fs, clamped to the track's indices. */
  function SampleIndex(t: real, fs: real, count: int): (i: int)
    requires count >= 1
    ensures 0 <= i < count
    ensures 0 <= Trunc(t * fs) < count ==> i == Trunc(t * fs)
  {
    Clamp(Trunc(t * fs), 0, count - 1)
  }

  /**
   * The zoom ratio, pixels over samples of the requested span.  When the
   * span is empty the source divides zero by zero; that NaN, for which
   * every comparison is false, is None.
   */
  function ZoomRatio(timeMin: real, timeMax: real, timePerPixel: real, fs: real): (z: Option<real>)
    requires timePerPixel != 0.0 && fs > 0.0
    ensures z.None? <==> timeMin == timeMax
  {
    var span := timeMax - timeMin;
    if span == 0.0 then None
    else Some((span / timePerPixel) / (span * fs))
  }

  /** `zoomRatio >= threshold`, false for a NaN ratio. */
  predicate AtLeast(z: Option<real>, threshold: real)
  {
    z.Some? && z.value >= threshold
  }

  /** Equals times a common factor stay equal. */
  lemma MulBoth(x: real, y: real, c: real)
    requires x == y
    ensures x * c == y * c
  {
  }

  /** For a non-empty span the ratio is defined. */
  lemma ZoomValue(timeMin: real, timeMax: real, timePerPixel: real, fs: real)
    requires timePerPixel != 0.0 && fs > 0.0 && timeMin != timeMax
    ensures ZoomRatio(timeMin, timeMax, timePerPixel, fs) ==
            Some(((timeMax - timeMin) / timePerPixel) / ((timeMax - timeMin) * fs))
  {
  }

  /** The span cancels out of (span / timePerPixel) / (span·fs). */
  lemma SpanCancels(span: real, timePerPixel: real, fs: real)
    requires span != 0.0 && timePerPixel != 0.0 && fs > 0.0
    ensures (span / timePerPixel) / (span * fs) == 1.0 / (timePerPixel * fs)
  {
    var pixels := span / timePerPixel;
    var d := timePerPixel * fs;
    assert span * fs != 0.0 && d != 0.0;
    var z := pixels / (span * fs);
    assert z * (span * fs) == pixels;
    MulBoth(z * (span * fs), pixels, timePerPixel);
    assert pixels * timePerPixel == span;
    assert (z * d - 1.0) * span == 0.0;
    var b := 1.0 / d;
    assert b * d == 1.0;
    assert (z - b) * d == 0.0;
  }

  /** A non-empty span cancels out: the zoom ratio is 1 / (timePerPixel·fs) whatever the span. */
  lemma ZoomIndependentOfSpan(timeMin: real, timeMax: real, timePerPixel: real, fs: real)
    requires timePerPixel != 0.0 && fs > 0.0 && timeMin != timeMax
    ensures ZoomRatio(timeMin, timeMax, timePerPixel, fs) == Some(1.0 / (timePerPixel * fs))
  {
    ZoomValue(timeMin, timeMax, timePerPixel, fs);
    SpanCancels(timeMax - timeMin, timePerPixel, fs);
    var a := ((timeMax - timeMin) / timePerPixel) / ((timeMax - timeMin) * fs);
    assert a == 1.0 / (timePerPixel * fs);
    assert ZoomRatio(timeMin, timeMax, timePerPixel, fs) == Some(a);
    assert Some(a) == Some(1.0 / (timePerPixel * fs));
  }

  /** The window size of the summary, timePerPixel·fs rounded half away from zero like `std::round`. */
  function WindowSize(timePerPixel: real, fs: real): int
  {
    Routines.ERound(timePerPixel * fs)
  }

  /**
   * What the summary needs from its caller: whenever the raw samples are
   * not shown, the window holds at least one sample (the source divides by
   * the window size and steps by it).
   */
  predicate WindowSizeOk(fs: real, timeMin: real, timeMax: real, timePerPixel: real)
    requires fs > 0.0
  {
    timePerPixel != 0.0 && !AtLeast(ZoomRatio(timeMin, timeMax, timePerPixel, fs), RatioThresholdSamples) ==>
      WindowSize(timePerPixel, fs) >= 1
  }

  /**
   * A request as `getWaveformForRange` records it, a non-empty span at a
   * positive time per pixel, always meets that need: below the samples
   * threshold a pixel covers more than five samples.
   */
  lemma RequestWindowSizeOk(timeMin: real, timeMax: real, timePerPixel: real, fs: real)
    requires fs > 0.0 && timePerPixel > 0.0 && timeMin != timeMax
    ensures WindowSizeOk(fs, timeMin, timeMax, timePerPixel)
    ensures !AtLeast(ZoomRatio(timeMin, timeMax, timePerPixel, fs), RatioThresholdSamples) ==>
              WindowSize(timePerPixel, fs) >= 5
  {
    ZoomIndependentOfSpan(timeMin, timeMax, timePerPixel, fs);
    var x := timePerPixel * fs;
    if 1.0 / x < RatioThresholdSamples {
      assert x > 5.0 by {
        assert x > 0.0;
        assert 1.0 < RatioThresholdSamples * x;
      }
    }
  }

  /**
   * The summary window starts from `chunk` on: one every windowSize
   * samples for as long as the window starts before `stop` and ends before
   * the last sample of the track.
   */
  function ChunkStarts(chunk: int, stop: int, count: int, windowSize: int): seq<int>
    requires windowSize >= 1
    decreases stop - chunk
  {
    if chunk < stop && chunk + windowSize < count then [chunk] + ChunkStarts(chunk + windowSize, stop, count, windowSize)
    else []
  }

  /** Every window start lies in [chunk, stop) and its window ends before the last sample. */
  lemma {:induction false} ChunkStartsInRange(chunk: int, stop: int, count: int, windowSize: int)
    requires windowSize >= 1
    ensures forall k :: 0 <= k < |ChunkStarts(chunk, stop, count, windowSize)| ==>
              chunk <= ChunkStarts(chunk, stop, count, windowSize)[k] < stop &&
              ChunkStarts(chunk, stop, count, windowSize)[k] + windowSize < count
    decreases stop - chunk
  {
    if chunk < stop && chunk + windowSize < count {
      ChunkStartsInRange(chunk + windowSize, stop, count, windowSize);
      var rest := ChunkStarts(chunk + windowSize, stop, count, windowSize);
      var starts := ChunkStarts(chunk, stop, count, windowSize);
      assert starts == [chunk] + rest;
      forall k | 0 < k < |starts|
        ensures chunk <= starts[k] < stop && starts[k] + windowSize < count
      {
        assert starts[k] == rest[k - 1];
      }
    }
  }

  /** From a non-negative first start every window lies inside the track. */
  lemma ChunkStartsInTrack(chunk: int, stop: int, count: int, windowSize: int)
    requires windowSize >= 1 && chunk >= 0
    ensures StartsInTrack(ChunkStarts(chunk, stop, count, windowSize), windowSize, count)
  {
    ChunkStartsInRange(chunk, stop, count, windowSize);
  }

  /**
   * The window starts, independently of the recursion: the k-th is
   * chunk + k·windowSize, and the one after the last fails the loop test.
   */
  lemma {:induction false} ChunkStartsShape(chunk: int, stop: int, count: int, windowSize: int)
    requires windowSize >= 1
    ensures var starts := ChunkStarts(chunk, stop, count, windowSize);
            (forall k :: 0 <= k < |starts| ==> starts[k] == chunk + k * windowSize) &&
            !(chunk + |starts| * windowSize < stop && chunk + |starts| * windowSize + windowSize < count)
    decreases stop - chunk
  {
    var starts := ChunkStarts(chunk, stop, count, windowSize);
    if chunk < stop && chunk + windowSize < count {
      ChunkStartsShape(chunk + windowSize, stop, count, windowSize);
      var rest := ChunkStarts(chunk + windowSize, stop, count, windowSize);
      assert starts == [chunk] + rest;
      forall k | 0 <= k < |starts|
        ensures starts[k] == chunk + k * windowSize
      {
        if k > 0 {
          assert starts[k] == rest[k - 1];
          assert (k - 1) * windowSize + windowSize == k * windowSize;
        }
      }
      assert chunk + |starts| * windowSize == chunk + windowSize + |rest| * windowSize;
    }
  }

  /** `std::min(a, b)`: b when it is smaller, else a. */
  function RMin(a: real, b: real): (r: real)
    ensures r <= a && r <= b && (r == a || r == b)
  {
    if b < a then b else a
  }

  /** `std::max(a, b)`: b when a is smaller, else a. */
  function RMax(a: real, b: real): (r: real)
    ensures r >= a && r >= b && (r == a || r == b)
  {
    if a < b then b else a
  }

  /** The running minimum of a non-empty window, folded from the front as the loop does. */
  function SeqMin(s: seq<real>): real
    requires |s| >= 1
  {
    if |s| == 1 then s[0] else RMin(s[|s| - 1], SeqMin(s[..|s| - 1]))
  }

  /** The running maximum of a non-empty window. */
  function SeqMax(s: seq<real>): real
    requires |s| >= 1
  {
    if |s| == 1 then s[0] else RMax(s[|s| - 1], SeqMax(s[..|s| - 1]))
  }

  /** The sum of squares of a window. */
  function SumSquares(s: seq<real>): real
  {
    if |s| == 0 then 0.0 else SumSquares(s[..|s| - 1]) + s[|s| - 1] * s[|s| - 1]
  }

  /** The minimum is a sample of the window and no sample is smaller. */
  lemma {:induction false} SeqMinLeast(s: seq<real>)
    requires |s| >= 1
    ensures forall i :: 0 <= i < |s| ==> SeqMin(s) <= s[i]
    ensures exists i :: 0 <= i < |s| && SeqMin(s) == s[i]
  {
    if |s| == 1 {
      assert SeqMin(s) == s[0];
    } else {
      var p := s[..|s| - 1];
      SeqMinLeast(p);
      var j :| 0 <= j < |p| && SeqMin(p) == p[j];
      assert forall i :: 0 <= i < |p| ==> p[i] == s[i];
      if SeqMin(s) == s[|s| - 1] {
        assert SeqMin(s) == s[|s| - 1];
      } else {
        assert SeqMin(s) == s[j];
      }
    }
  }

  /** The maximum is a sample of the window and no sample is larger. */
  lemma {:induction false} SeqMaxGreatest(s: seq<real>)
    requires |s| >= 1
    ensures forall i :: 0 <= i < |s| ==> s[i] <= SeqMax(s)
    ensures exists i :: 0 <= i < |s| && SeqMax(s) == s[i]
  {
    if |s| == 1 {
      assert SeqMax(s) == s[0];
    } else {
      var p := s[..|s| - 1];
      SeqMaxGreatest(p);
      var j :| 0 <= j < |p| && SeqMax(p) == p[j];
      assert forall i :: 0 <= i < |p| ==> p[i] == s[i];
      if SeqMax(s) == s[|s| - 1] {
        assert SeqMax(s) == s[|s| - 1];
      } else {
        assert SeqMax(s) == s[j];
      }
    }
  }

  /** The minimum of a window never exceeds its maximum. */
  lemma MinAtMostMax(s: seq<real>)
    requires |s| >= 1
    ensures SeqMin(s) <= SeqMax(s)
  {
    SeqMinLeast(s);
    SeqMaxGreatest(s);
    assert SeqMin(s) <= s[0] <= SeqMax(s);
  }

  /** A sum of squares is never negative. */
  lemma {:induction false} SumSquaresNonNegative(s: seq<real>)
    ensures SumSquares(s) >= 0.0
  {
    if |s| > 0 {
      SumSquaresNonNegative(s[..|s| - 1]);
    }
  }

  /** The window of samples from `chunk` on. */
  function Window(track: seq<real>, chunk: int, windowSize: int): (w: seq<real>)
    requires 0 <= chunk && 1 <= windowSize && chunk + windowSize <= |track|
    ensures |w| == windowSize && forall i :: 0 <= i < windowSize ==> w[i] == track[chunk + i]
  {
    AudioTrack.Slice(track, chunk, windowSize)
  }

  /** The time of a summary point: the middle of its window. */
  function ChunkTime(chunk: int, windowSize: int, fs: real): real
    requires fs != 0.0
  {
    (chunk as real + (windowSize + 1) as real / 2.0) / fs
  }

  /** The RMS of a window from its sum of squares. */
  function Rms(sumOfSquares: real, windowSize: int, sqrt: real -> real): real
    requires windowSize != 0
  {
    sqrt(sumOfSquares / windowSize as real)
  }

  /** Every window start leaves a whole window inside the track. */
  predicate StartsInTrack(starts: seq<int>, windowSize: int, count: int)
  {
    forall k :: 0 <= k < |starts| ==> 0 <= starts[k] && starts[k] + windowSize <= count
  }

  /** The five summary series. */
  datatype Chunks = Chunks(times: seq<real>, mins: seq<real>, maxs: seq<real>, rms1: seq<real>, rms2: seq<real>)

  /** The summary series of the windows at `starts`, built window by window as the loop appends them. */
  function ChunkSeries(track: seq<real>, starts: seq<int>, windowSize: int, fs: real, sqrt: real -> real): (c: Chunks)
    requires windowSize >= 1 && fs != 0.0 && StartsInTrack(starts, windowSize, |track|)
    ensures |c.times| == |c.mins| == |c.maxs| == |c.rms1| == |c.rms2| == |starts|
    decreases |starts|
  {
    if |starts| == 0 then Chunks([], [], [], [], [])
    else
      var prev := ChunkSeries(track, starts[..|starts| - 1], windowSize, fs, sqrt);
      var chunk := starts[|starts| - 1];
      var w := Window(track, chunk, windowSize);
      var rms := Rms(SumSquares(w), windowSize, sqrt);
      Chunks(prev.times + [ChunkTime(chunk, windowSize, fs)], prev.mins + [SeqMin(w)], prev.maxs + [SeqMax(w)],
             prev.rms1 + [rms], prev.rms2 + [-rms])
  }

  /** With a square root that is non-negative on non-negative values, an RMS is non-negative. */
  lemma RmsNonNegative(sumOfSquares: real, windowSize: int, sqrt: real -> real)
    requires sumOfSquares >= 0.0 && windowSize >= 1 && forall y :: y >= 0.0 ==> sqrt(y) >= 0.0
    ensures Rms(sumOfSquares, windowSize, sqrt) >= 0.0
  {
    assert sumOfSquares / windowSize as real >= 0.0;
  }

  /**
   * Summary point k describes window k alone: its middle time, its minimum
   * and maximum (min <= max), its RMS and the negated RMS; the RMS is
   * non-negative (and its negation non-positive) with a square root that
   * is non-negative on non-negative values.
   */
  lemma {:induction false} ChunkSeriesCells(track: seq<real>, starts: seq<int>, windowSize: int, fs: real,
                                            sqrt: real -> real, k: int)
    requires windowSize >= 1 && fs != 0.0 && StartsInTrack(starts, windowSize, |track|) && 0 <= k < |starts|
    ensures var c := ChunkSeries(track, starts, windowSize, fs, sqrt);
            var w := Window(track, starts[k], windowSize);
            c.times[k] == ChunkTime(starts[k], windowSize, fs) &&
            c.mins[k] == SeqMin(w) && c.maxs[k] == SeqMax(w) && c.mins[k] <= c.maxs[k] &&
            c.rms1[k] == Rms(SumSquares(w), windowSize, sqrt) && c.rms2[k] == -c.rms1[k] &&
            ((forall y :: y >= 0.0 ==> sqrt(y) >= 0.0) ==> c.rms1[k] >= 0.0 && c.rms2[k] <= 0.0)
    decreases |starts|
  {
    MinAtMostMax(Window(track, starts[k], windowSize));
    SumSquaresNonNegative(Window(track, starts[k], windowSize));
    if forall y :: y >= 0.0 ==> sqrt(y) >= 0.0 {
      RmsNonNegative(SumSquares(Window(track, starts[k], windowSize)), windowSize, sqrt);
    }
    if k < |starts| - 1 {
      var p := starts[..|starts| - 1];
      assert StartsInTrack(p, windowSize, |track|);
      ChunkSeriesCells(track, p, windowSize, fs, sqrt, k);
      assert p[k] == starts[k];
    }
  }

  /**
   * `updateWaveformResults` on the recorded request: an empty track or a
   * zero time per pixel, or a range whose clamped stop index comes before
   * its start index, resets the results; zoomed in to at least 0.2 pixel
   * per sample the samples between the indices are shown, and otherwise one
   * summary point per window, with the shading and the display type chosen
   * by the zoom ratio.  The sample path keeps the summary series and the
   * summary path keeps the time limits and samples of the previous results.
   */
  function WaveResults(prev: WaveformResults, track: seq<real>, fs: real, timeMin: real, timeMax: real,
                       timePerPixel: real, sqrt: real -> real): (r: WaveformResults)
    requires fs > 0.0 && WindowSizeOk(fs, timeMin, timeMax, timePerPixel)
  {
    var count := |track|;
    if count == 0 || timePerPixel == 0.0 then ResetResults
    else
      var start := SampleIndex(timeMin, fs, count);
      var stop := SampleIndex(timeMax, fs, count);
      if stop < start then ResetResults
      else
        var zoom := ZoomRatio(timeMin, timeMax, timePerPixel, fs);
        if AtLeast(zoom, RatioThresholdSamples) then
          prev.(timeMin := start as real / fs, timeMax := stop as real / fs, timeScale := 1.0 / fs,
                dataType := Samples, samples := AudioTrack.Slice(track, start, stop - start + 1))
        else
          var windowSize := WindowSize(timePerPixel, fs);
          ChunkStartsInTrack(RoundDown(start, windowSize), stop, count, windowSize);
          var c := ChunkSeries(track, ChunkStarts(RoundDown(start, windowSize), stop, count, windowSize),
                               windowSize, fs, sqrt);
          prev.(times := c.times, mins := c.mins, maxs := c.maxs, rms1 := c.rms1, rms2 := c.rms2,
                minmaxShaded := AtLeast(zoom, RatioThresholdMinMax),
                dataType := if AtLeast(zoom, RatioThresholdRMS) then MinMax else MinMaxRMS)
  }

  /** An empty track, a zero time per pixel or an inverted range all give the reset results. */
  lemma WaveResultsReset(prev: WaveformResults, track: seq<real>, fs: real, timeMin: real, timeMax: real,
                         timePerPixel: real, sqrt: real -> real)
    requires fs > 0.0 && WindowSizeOk(fs, timeMin, timeMax, timePerPixel)
    requires |track| == 0 || timePerPixel == 0.0 ||
             SampleIndex(timeMax, fs, |track|) < SampleIndex(timeMin, fs, |track|)
    ensures var r := WaveResults(prev, track, fs, timeMin, timeMax, timePerPixel, sqrt);
            r.dataType == Samples && r.timeScale == 1.0 && !r.minmaxShaded &&
            r.times == r.samples == r.mins == r.maxs == r.rms1 == r.rms2 == []
  {
  }

  /**
   * Zoomed in, the results show exactly the samples from the start index to
   * the stop index inclusive, at a time scale of one sample.
   */
  lemma WaveResultsSamples(prev: WaveformResults, track: seq<real>, fs: real, timeMin: real, timeMax: real,
                           timePerPixel: real, sqrt: real -> real)
    requires fs > 0.0 && WindowSizeOk(fs, timeMin, timeMax, timePerPixel)
    requires |track| > 0 && timePerPixel != 0.0
    requires SampleIndex(timeMin, fs, |track|) <= SampleIndex(timeMax, fs, |track|)
    requires AtLeast(ZoomRatio(timeMin, timeMax, timePerPixel, fs), RatioThresholdSamples)
    ensures var r := WaveResults(prev, track, fs, timeMin, timeMax, timePerPixel, sqrt);
            var start, stop := SampleIndex(timeMin, fs, |track|), SampleIndex(timeMax, fs, |track|);
            r.dataType == Samples && r.timeScale * fs == 1.0 &&
            |r.samples| == stop - start + 1 &&
            (forall j :: 0 <= j < |r.samples| ==> r.samples[j] == track[start + j]) &&
            r.times == prev.times && r.mins == prev.mins
  {
  }

  /**
   * Zoomed out, the five series have one point per window start, every
   * point describes its own window, and the display type and shading
   * follow the zoom ratio.
   */
  lemma WaveResultsSummary(prev: WaveformResults, track: seq<real>, fs: real, timeMin: real, timeMax: real,
                           timePerPixel: real, sqrt: real -> real, k: int)
    requires fs > 0.0 && WindowSizeOk(fs, timeMin, timeMax, timePerPixel)
    requires |track| > 0 && timePerPixel != 0.0
    requires SampleIndex(timeMin, fs, |track|) <= SampleIndex(timeMax, fs, |track|)
    requires !AtLeast(ZoomRatio(timeMin, timeMax, timePerPixel, fs), RatioThresholdSamples)
    ensures WindowSize(timePerPixel, fs) >= 1
    ensures var r := WaveResults(prev, track, fs, timeMin, timeMax, timePerPixel, sqrt);
            var zoom := ZoomRatio(timeMin, timeMax, timePerPixel, fs);
            var ws := WindowSize(timePerPixel, fs);
            var starts := ChunkStarts(RoundDown(SampleIndex(timeMin, fs, |track|), ws),
                                      SampleIndex(timeMax, fs, |track|), |track|, ws);
            |r.times| == |r.mins| == |r.maxs| == |r.rms1| == |r.rms2| == |starts| &&
            (r.dataType == MinMax <==> AtLeast(zoom, RatioThresholdRMS)) &&
            (r.dataType == MinMaxRMS <==> !AtLeast(zoom, RatioThresholdRMS)) &&
            (r.minmaxShaded <==> AtLeast(zoom, RatioThresholdMinMax)) &&
            r.timeMin == prev.timeMin && r.samples == prev.samples &&
            StartsInTrack(starts, ws, |track|) &&
            (0 <= k < |starts| ==>
               r.mins[k] == SeqMin(Window(track, starts[k], ws)) && r.mins[k] <= r.maxs[k] &&
               r.rms2[k] == -r.rms1[k] && r.times[k] == ChunkTime(starts[k], ws, fs) &&
               ((forall y :: y >= 0.0 ==> sqrt(y) >= 0.0) ==> r.rms1[k] >= 0.0 && r.rms2[k] <= 0.0))
  {
    var ws := WindowSize(timePerPixel, fs);
    var starts := ChunkStarts(RoundDown(SampleIndex(timeMin, fs, |track|), ws),
                              SampleIndex(timeMax, fs, |track|), |track|, ws);
    ChunkStartsInTrack(RoundDown(SampleIndex(timeMin, fs, |track|), ws),
                       SampleIndex(timeMax, fs, |track|), |track|, ws);
    if 0 <= k < |starts| {
      ChunkSeriesCells(track, starts, ws, fs, sqrt, k);
    }
  }

  /** The window statistics loop: running minimum and maximum and the sum of squares. */
  method ChunkStats(window: seq<real>) returns (mn: real, mx: real, sumOfSquares: real)
    requires |window| >= 1
    ensures mn == SeqMin(window) && mx == SeqMax(window) && sumOfSquares == SumSquares(window)
  {
    // The source starts from the largest and the lowest double, which the
    // first sample replaces; starting from that sample gives the same values.
    mn, mx, sumOfSquares := window[0], window[0], 0.0;
    for i := 0 to |window|
      invariant i == 0 ==> mn == window[0] && mx == window[0]
      invariant i >= 1 ==> mn == SeqMin(window[..i]) && mx == SeqMax(window[..i])
      invariant sumOfSquares == SumSquares(window[..i])
    {
      assert window[..i + 1][..i] == window[..i];
      mn := RMin(window[i], mn);
      mx := RMax(window[i], mx);
      sumOfSquares := sumOfSquares + window[i] * window[i];
    }
    assert window[..|window|] == window;
  }

  /** The loop's bookkeeping of window starts: one more start moves from the rest to the done part. */
  lemma StartsAdvance(all: seq<int>, done: seq<int>, chunk: int, stop: int, count: int, windowSize: int)
    requires windowSize >= 1 && chunk < stop && chunk + windowSize < count
    requires all == done + ChunkStarts(chunk, stop, count, windowSize)
    ensures all ==
            (done + [chunk]) + ChunkStarts(chunk + windowSize, stop, count, windowSize)
  {
    var rest := ChunkStarts(chunk + windowSize, stop, count, windowSize);
    assert ChunkStarts(chunk, stop, count, windowSize) == [chunk] + rest;
    assert done + ([chunk] + rest) == (done + [chunk]) + rest;
  }

  /** Once the loop test fails, the done part is every window start. */
  lemma StartsFinished(all: seq<int>, done: seq<int>, chunk: int, stop: int, count: int, windowSize: int)
    requires windowSize >= 1 && !(chunk < stop && chunk + windowSize < count)
    requires all == done + ChunkStarts(chunk, stop, count, windowSize)
    ensures all == done
  {
    assert done + [] == done;
  }

  /** A start whose window fits can join starts whose windows fit. */
  lemma StartsInTrackAppend(done: seq<int>, chunk: int, windowSize: int, count: int)
    requires StartsInTrack(done, windowSize, count) && 0 <= chunk && chunk + windowSize <= count
    ensures StartsInTrack(done + [chunk], windowSize, count)
  {
    forall k | 0 <= k < |done| + 1
      ensures 0 <= (done + [chunk])[k] && (done + [chunk])[k] + windowSize <= count
    {
      if k < |done| {
        assert (done + [chunk])[k] == done[k];
      }
    }
  }

  /** One more window start extends the series by the statistics of that window. */
  lemma ChunkSeriesAppend(track: seq<real>, done: seq<int>, chunk: int, windowSize: int, fs: real,
                          sqrt: real -> real)
    requires windowSize >= 1 && fs != 0.0 && StartsInTrack(done, windowSize, |track|)
    requires 0 <= chunk && chunk + windowSize <= |track|
    ensures StartsInTrack(done + [chunk], windowSize, |track|)
    ensures var p := ChunkSeries(track, done, windowSize, fs, sqrt);
            var w := Window(track, chunk, windowSize);
            var rms := Rms(SumSquares(w), windowSize, sqrt);
            ChunkSeries(track, done + [chunk], windowSize, fs, sqrt) ==
            Chunks(p.times + [ChunkTime(chunk, windowSize, fs)], p.mins + [SeqMin(w)], p.maxs + [SeqMax(w)],
                   p.rms1 + [rms], p.rms2 + [-rms])
  {
    StartsInTrackAppend(done, chunk, windowSize, |track|);
    var next := done + [chunk];
    assert next[..|next| - 1] == done;
    assert next[|next| - 1] == chunk;
    assert ChunkSeries(track, next[..|next| - 1], windowSize, fs, sqrt) == ChunkSeries(track, done, windowSize, fs, sqrt);
  }

  /** One pass of the summary loop: the statistics of the window at `chunk` appended to each series. */
  method AppendWindow(track: seq<real>, ghost done: seq<int>, c: Chunks, chunk: int, windowSize: int,
                      fs: real, sqrt: real -> real) returns (next: Chunks)
    requires windowSize >= 1 && fs != 0.0 && StartsInTrack(done, windowSize, |track|)
    requires 0 <= chunk && chunk + windowSize <= |track|
    requires c == ChunkSeries(track, done, windowSize, fs, sqrt)
    ensures StartsInTrack(done + [chunk], windowSize, |track|)
    ensures next == ChunkSeries(track, done + [chunk], windowSize, fs, sqrt)
  {
    ChunkSeriesAppend(track, done, chunk, windowSize, fs, sqrt);
    var window := AudioTrack.Slice(track, chunk, windowSize);
    assert window == Window(track, chunk, windowSize);
    var mn, mx, sumOfSquares := ChunkStats(window);
    var rms := Rms(sumOfSquares, windowSize, sqrt);
    next := Chunks(c.times + [ChunkTime(chunk, windowSize, fs)], c.mins + [mn], c.maxs + [mx],
                   c.rms1 + [rms], c.rms2 + [-rms]);
  }

  /** The summary loop of `updateWaveformResults`, one point appended per window. */
  method Summarise(track: seq<real>, start: int, stop: int, windowSize: int, fs: real, sqrt: real -> real)
    returns (c: Chunks)
    requires 0 <= start && windowSize >= 1 && fs != 0.0
    ensures StartsInTrack(ChunkStarts(RoundDown(start, windowSize), stop, |track|, windowSize), windowSize, |track|)
    ensures c == ChunkSeries(track, ChunkStarts(RoundDown(start, windowSize), stop, |track|, windowSize),
                             windowSize, fs, sqrt)
  {
    c := Chunks([], [], [], [], []);
    var roundedStartIndex := Div(start, windowSize) * windowSize;
    assert roundedStartIndex == RoundDown(start, windowSize);
    var chunkStartIndex := roundedStartIndex;
    ghost var done: seq<int> := [];
    ghost var all := ChunkStarts(roundedStartIndex, stop, |track|, windowSize);
    while chunkStartIndex < stop && chunkStartIndex + windowSize < |track|
      invariant 0 <= chunkStartIndex
      invariant all == done + ChunkStarts(chunkStartIndex, stop, |track|, windowSize)
      invariant StartsInTrack(done, windowSize, |track|)
      invariant c == ChunkSeries(track, done, windowSize, fs, sqrt)
      decreases stop - chunkStartIndex
    {
      c := AppendWindow(track, done, c, chunkStartIndex, windowSize, fs, sqrt);
      StartsAdvance(all, done, chunkStartIndex, stop, |track|, windowSize);
      done := done + [chunkStartIndex];
      chunkStartIndex := chunkStartIndex + windowSize;
    }
    StartsFinished(all, done, chunkStartIndex, stop, |track|, windowSize);
  }

  class WaveformController {
    var lastSampleRate: real
    var waveResults: WaveformResults
    var needWaveUpdate: bool
    var waveTimeMin: real
    var waveTimeMax: real
    var waveTimePerPixel: real

    /** No sample rate seen yet (-1), empty results and no pending request. */
    constructor ()
      ensures lastSampleRate == -1.0 && waveResults == ZeroResults && !needWaveUpdate
      ensures waveTimeMin == 0.0 && waveTimeMax == 0.0 && waveTimePerPixel == 0.0
    {
      lastSampleRate := -1.0;
      waveResults := ZeroResults;
      needWaveUpdate := false;
      waveTimeMin, waveTimeMax, waveTimePerPixel := 0.0, 0.0, 0.0;
    }

    /** `forceClear`: reset the results and drop the pending request. */
    method ForceClear()
      modifies this`waveResults, this`needWaveUpdate
      ensures waveResults == ResetResults && !needWaveUpdate
    {
      ResetWaveformResults();
      needWaveUpdate := false;
    }

    /**
     * `updateIfNeeded`: a new track sample rate forces an update; a pending
     * update recomputes the results from the recorded request.
     */
    method UpdateIfNeeded(track: seq<real>, fs: real, sqrt: real -> real)
      requires fs > 0.0
      requires needWaveUpdate || fs != lastSampleRate ==> WindowSizeOk(fs, waveTimeMin, waveTimeMax, waveTimePerPixel)
      modifies this`lastSampleRate, this`needWaveUpdate, this`waveResults
      ensures lastSampleRate == fs && !needWaveUpdate
      ensures old(needWaveUpdate) || fs != old(lastSampleRate) ==>
                waveResults == WaveResults(old(waveResults), track, fs, waveTimeMin, waveTimeMax, waveTimePerPixel, sqrt)
      ensures !old(needWaveUpdate) && fs == old(lastSampleRate) ==> waveResults == old(waveResults)
    {
      if fs != lastSampleRate {
        lastSampleRate := fs;
        needWaveUpdate := true;
      }
      if needWaveUpdate {
        UpdateWaveformResults(track, fs, sqrt);
        needWaveUpdate := false;
      }
    }

    /**
     * `getWaveformForRange`: record the request, widened by ten pixels on
     * each side, for the next update, and hand back the results as they stand.
     */
    method GetWaveformForRange(timeMin: real, timeMax: real, timePerPixel: real) returns (r: WaveformResults)
      modifies this`needWaveUpdate, this`waveTimeMin, this`waveTimeMax, this`waveTimePerPixel
      ensures r == waveResults && needWaveUpdate
      ensures waveTimeMin == timeMin - 10.0 * timePerPixel && waveTimeMax == timeMax + 10.0 * timePerPixel
      ensures waveTimePerPixel == timePerPixel
    {
      needWaveUpdate := true;
      waveTimeMin := timeMin - 10.0 * timePerPixel;
      waveTimeMax := timeMax + 10.0 * timePerPixel;
      waveTimePerPixel := timePerPixel;
      r := waveResults;
    }

    /** `updateWaveformResults` on the recorded request. */
    method UpdateWaveformResults(track: seq<real>, fs: real, sqrt: real -> real)
      requires fs > 0.0 && WindowSizeOk(fs, waveTimeMin, waveTimeMax, waveTimePerPixel)
      modifies this`waveResults
      ensures waveResults == WaveResults(old(waveResults), track, fs, waveTimeMin, waveTimeMax, waveTimePerPixel, sqrt)
    {
      var trackSampleCount := |track|;
      var timeMin, timeMax, timePerPixel := waveTimeMin, waveTimeMax, waveTimePerPixel;
      if trackSampleCount == 0 || timePerPixel == 0.0 {
        ResetWaveformResults();
        return;
      }
      var startIndex := SampleIndex(timeMin, fs, trackSampleCount);
      var stopIndex := SampleIndex(timeMax, fs, trackSampleCount);
      var rangeSampleCount := stopIndex - startIndex + 1;
      if stopIndex < startIndex {
        ResetWaveformResults();
        return;
      }
      var zoomRatio := ZoomRatio(timeMin, timeMax, timePerPixel, fs);
      if AtLeast(zoomRatio, RatioThresholdSamples) {
        var window := AudioTrack.Slice(track, startIndex, rangeSampleCount);
        waveResults := waveResults.(timeMin := startIndex as real / fs, timeMax := stopIndex as real / fs,
                                    timeScale := 1.0 / fs, dataType := Samples, samples := window);
        return;
      }
      var windowSize := WindowSize(timePerPixel, fs);
      var c := Summarise(track, startIndex, stopIndex, windowSize, fs, sqrt);
      waveResults := waveResults.(times := c.times, mins := c.mins, maxs := c.maxs, rms1 := c.rms1, rms2 := c.rms2);
      waveResults := waveResults.(minmaxShaded := AtLeast(zoomRatio, RatioThresholdMinMax));
      if AtLeast(zoomRatio, RatioThresholdRMS) {
        waveResults := waveResults.(dataType := MinMax);
      } else {
        waveResults := waveResults.(dataType := MinMaxRMS);
      }
    }

    /** `resetWaveformResults`. */
    method ResetWaveformResults()
      modifies this`waveResults
      ensures waveResults == ResetResults
    {
      waveResults := ResetResults;
    }
  }
}
