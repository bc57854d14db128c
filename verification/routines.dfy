/** Shared numeric helpers and pole records of the LPC analysis routines (routines.h). */
module Routines {
  import opened CNum

  /** Largest LPC order any routine accepts. */
  const MAXORDER: int := 60

  /**
   * `eround`: round half away from zero.  The result is the integer nearest
   * to `x`, and a tie goes to the integer of larger magnitude.
   */
  function ERound(x: real): (r: int)
    ensures x - 0.5 <= r as real <= x + 0.5
    ensures r as real == x + 0.5 ==> x < 0.0 ==> false
    ensures r as real == x - 0.5 ==> x >= 0.0 ==> false
    ensures x >= 0.0 ==> r >= 0
  {
    if x >= 0.0 then Trunc(x + 0.5) else Trunc(x - 0.5)
  }

  lemma ERoundOdd(x: real)
    ensures ERound(-x) == -ERound(x)
  {
  }

  /**
   * The sample count `(int)(.5 + freq * time)` of `integerize`: for a
   * non-negative freq·time it is the nearest whole number, ties upward.
   */
  function SampleCount(time: real, freq: real): (n: int)
    ensures freq * time >= 0.0 ==> freq * time - 0.5 < n as real <= freq * time + 0.5 && n >= 0
  {
    Trunc(0.5 + freq * time)
  }

  /**
   * `integerize`: `time` moved to the sample grid of rate `freq`, so that
   * the result times `freq` is the whole number SampleCount(time, freq).
   */
  function Integerize(time: real, freq: real): (r: real)
    requires freq != 0.0
    ensures r * freq == SampleCount(time, freq) as real
    ensures freq > 0.0 && time >= 0.0 ==> r >= 0.0
  {
    var n := SampleCount(time, freq);
    var r := n as real / freq;
    assert freq > 0.0 && n >= 0 ==> r >= 0.0;
    r
  }

  /** One LPC analysis frame's pole set (struct Pole; the F0 fields rms2, f0 and pv are never written by the core). */
  datatype Pole = Pole(
    offset: int,       // first sample of the frame
    rms: real,         // frame energy
    change: real,      // spectral distance to the previous frame (always 0 here)
    npoles: int,       // number of complex poles in freq/band
    freq: seq<real>,   // pole frequencies (Hz)
    band: seq<real>)   // pole bandwidths (Hz)

  /** The result of `lpc_poles` (struct PoleArray). */
  datatype PoleArray = PoleArray(pole: seq<Pole>, length: int, sampleRate: real)

  /** The value-initialised `PoleArray{}` returned on every error path. */
  const EmptyPoleArray: PoleArray := PoleArray([], 0, 0.0)
}
