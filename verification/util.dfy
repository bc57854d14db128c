/** Vector helpers and the peak picker used by the pitch tracker (util/util.h). */
module Util {

  /** The slope substituted for an exactly flat step before sign changes are looked for. */
  const FlatSlope: real := -0.00000000000000022204

  /** `diff`: successive differences; the empty vector gives the empty vector. */
  method Diff(a: seq<real>) returns (out: seq<real>)
    ensures a == [] ==> out == []
    ensures a != [] ==> |out| == |a| - 1
    ensures forall i :: 1 <= i < |a| ==> out[i - 1] == a[i] - a[i - 1]
  {
    if a == [] {
      return [];
    }
    out := seq(|a| - 1, _ => 0.0);
    var i := 1;
    while i < |a|
      invariant 1 <= i <= |a| && |out| == |a| - 1
      invariant forall k :: 1 <= k < i ==> out[k - 1] == a[k] - a[k - 1]
    {
      out := out[i - 1 := a[i] - a[i - 1]];
      i := i + 1;
    }
  }

  /** `product`: element-wise product over the length of `a`. */
  method Product(a: seq<real>, b: seq<real>) returns (out: seq<real>)
    requires |b| >= |a|
    ensures |out| == |a|
    ensures forall i :: 0 <= i < |a| ==> out[i] == a[i] * b[i]
  {
    out := seq(|a|, _ => 0.0);
    var i := 0;
    while i < |a|
      invariant 0 <= i <= |a| && |out| == |a|
      invariant forall k :: 0 <= k < i ==> out[k] == a[k] * b[k]
    {
      out := out[i := a[i] * b[i]];
      i := i + 1;
    }
  }

  /** Every element of `s` is strictly smaller than every later one. */
  predicate StrictlyIncreasing(s: seq<int>)
  {
    forall i, j :: 0 <= i < j < |s| ==> s[i] < s[j]
  }

  /**
   * `findIndicesLessThan`: the positions i+1 (one-based) of the elements below
   * `threshold`, in increasing order, and no others.
   */
  method FindIndicesLessThan(a: seq<real>, threshold: real) returns (indices: seq<int>)
    ensures StrictlyIncreasing(indices)
    ensures forall k :: 0 <= k < |indices| ==> 1 <= indices[k] <= |a| && a[indices[k] - 1] < threshold
    ensures forall i :: 0 <= i < |a| && a[i] < threshold ==> i + 1 in indices
  {
    indices := [];
    var i := 0;
    while i < |a|
      invariant 0 <= i <= |a|
      invariant StrictlyIncreasing(indices)
      invariant forall k :: 0 <= k < |indices| ==> 1 <= indices[k] <= i && a[indices[k] - 1] < threshold
      invariant forall m :: 0 <= m < i && a[m] < threshold ==> m + 1 in indices
    {
      if a[i] < threshold {
        indices := indices + [i + 1];
      }
      i := i + 1;
    }
  }

  /** `selectElements`: the elements of `a` at the given positions, in the given order. */
  method SelectElements<T>(a: seq<T>, indices: seq<int>) returns (out: seq<T>)
    requires forall k :: 0 <= k < |indices| ==> 0 <= indices[k] < |a|
    ensures |out| == |indices|
    ensures forall k :: 0 <= k < |indices| ==> out[k] == a[indices[k]]
  {
    out := [];
    var i := 0;
    while i < |indices|
      invariant 0 <= i <= |indices| && |out| == i
      invariant forall k :: 0 <= k < i ==> out[k] == a[indices[k]]
    {
      out := out + [a[indices[i]]];
      i := i + 1;
    }
  }

  /** The sign of `x` as -1, 0 or 1. */
  function Sign(x: real): (r: int)
    ensures r == 1 <==> x > 0.0
    ensures r == -1 <==> x < 0.0
    ensures r == 0 <==> x == 0.0
  {
    if x > 0.0 then 1 else if x < 0.0 then -1 else 0
  }

  /** `signVector`: the sign of each element multiplied by `sign`. */
  method SignVector(a: seq<real>, sign: int) returns (out: seq<int>)
    ensures |out| == |a|
    ensures forall i :: 0 <= i < |a| ==> out[i] == Sign(sign as real * a[i])
  {
    out := seq(|a|, _ => 0);
    var i := 0;
    while i < |a|
      invariant 0 <= i <= |a| && |out| == |a|
      invariant forall k :: 0 <= k < i ==> out[k] == Sign(sign as real * a[k])
    {
      if sign as real * a[i] > 0.0 {
        out := out[i := 1];
      } else if sign as real * a[i] < 0.0 {
        out := out[i := -1];
      } else {
        out := out[i := 0];
      }
      i := i + 1;
    }
  }

  /** The parabola through (-1, am), (0, a0), (1, ap), evaluated at offset t. */
  function Parabola(am: real, a0: real, ap: real, t: real): real
  {
    a0 + t * (ap - am) / 2.0 + t * t * (ap + am - 2.0 * a0) / 2.0
  }

  lemma ParabolaThroughSamples(am: real, a0: real, ap: real)
    ensures Parabola(am, a0, ap, -1.0) == am
    ensures Parabola(am, a0, ap, 0.0) == a0
    ensures Parabola(am, a0, ap, 1.0) == ap
  {
  }

  /**
   * `parabolicInterpolation` at an interior sample x: the stationary point of
   * the parabola through samples x-1, x, x+1 (the sample itself when the three
   * are collinear).  At x == 0 it is the lower of the first two samples, the
   * first on a tie.
   */
  function ParabolicInterpolation(a: seq<real>, x: int): (r: (real, real))
    requires 0 <= x <= |a| - 2
    ensures x == 0 ==> r.1 == (if a[0] <= a[1] then a[0] else a[1]) && r.0 == (if a[0] <= a[1] then 0.0 else 1.0)
    ensures x >= 1 ==>
      var den := a[x + 1] + a[x - 1] - 2.0 * a[x];
      var t := r.0 - x as real;
      (den != 0.0 ==> den * t == (a[x - 1] - a[x + 1]) / 2.0 && r.1 == Parabola(a[x - 1], a[x], a[x + 1], t)) &&
      (den == 0.0 ==> t == 0.0 && r.1 == a[x])
  {
    if x < 1 then
      var xa := if a[x] <= a[x + 1] then x else x + 1;
      (xa as real, a[xa])
    else
      var den := a[x + 1] + a[x - 1] - 2.0 * a[x];
      var delta := a[x - 1] - a[x + 1];
      if den == 0.0 then
        (x as real, a[x])
      else
        var t := delta / (2.0 * den);
        VertexOfParabola(a[x - 1], a[x], a[x + 1], den, delta, t);
        (x as real + t, a[x] - delta * delta / (8.0 * den))
  }

  lemma VertexOfParabola(am: real, a0: real, ap: real, den: real, delta: real, t: real)
    requires den == ap + am - 2.0 * a0 && delta == am - ap && den != 0.0
    requires t == delta / (2.0 * den)
    ensures den * t == delta / 2.0
    ensures a0 - delta * delta / (8.0 * den) == Parabola(am, a0, ap, t)
  {
    assert den * t == delta / 2.0;
    calc {
      Parabola(am, a0, ap, t);
      a0 + t * (-delta) / 2.0 + t * (t * den) / 2.0;
      a0 - t * delta / 2.0 + t * (delta / 2.0) / 2.0;
      a0 - t * delta / 4.0;
      { assert t * delta == delta * delta / (2.0 * den); }
      a0 - delta * delta / (8.0 * den);
    }
  }

  /** The smallest element of a non-empty sequence. */
  function SeqMin(s: seq<real>): (m: real)
    requires |s| > 0
    ensures m in s && forall i :: 0 <= i < |s| ==> m <= s[i]
  {
    if |s| == 1 then s[0] else
    var rest := SeqMin(s[1..]);
    if s[0] <= rest then s[0] else rest
  }

  /** The largest element of a non-empty sequence. */
  function SeqMax(s: seq<real>): (m: real)
    requires |s| > 0
    ensures m in s && forall i :: 0 <= i < |s| ==> s[i] <= m
  {
    if |s| == 1 then s[0] else
    var rest := SeqMax(s[1..]);
    if s[0] >= rest then s[0] else rest
  }

  /** The slope from sample i to sample i+1, an exactly flat step counted as slightly falling. */
  function Slope(x0: seq<real>, i: int): real
    requires 0 <= i < |x0| - 1
  {
    if x0[i + 1] - x0[i] == 0.0 then FlatSlope else x0[i + 1] - x0[i]
  }

  /** Sample k is an interior point where the slope changes sign. */
  predicate SlopeChangesSign(x0: seq<real>, k: int)
  {
    1 <= k <= |x0| - 2 && Slope(x0, k - 1) * Slope(x0, k) < 0.0
  }

  /** The slope of x0 changes sign somewhere. */
  ghost predicate HasTurn(x0: seq<real>)
  {
    exists k :: SlopeChangesSign(x0, k)
  }

  /**
   * The slots before the next free one, cInd - 1 (cInd counts from 1 as in
   * the source), hold strictly increasing indices in [0, hi].
   */
  predicate PeakSlots(locs: seq<int>, cInd: int, hi: int)
  {
    1 <= cInd <= |locs| + 1 && (forall i, j :: 0 <= i < j < cInd - 1 ==> locs[i] < locs[j]) &&
    forall k :: 0 <= k < cInd - 1 ==> 0 <= locs[k] <= hi
  }

  /** Writing v at the free slot keeps the slots increasing when v is past the last entry. */
  lemma PushIncreasing(locs: seq<int>, cInd: int, v: int, hi: int)
    requires PeakSlots(locs, cInd, hi) && cInd - 1 < |locs| && (cInd > 1 ==> locs[cInd - 2] < v) && 0 <= v <= hi
    ensures PeakSlots(locs[cInd - 1 := v], cInd + 1, hi)
  {
    var s := locs[cInd - 1 := v];
    forall i, j | 0 <= i < j < cInd ensures s[i] < s[j] {
      if j == cInd - 1 && i < cInd - 2 {
        assert s[i] < s[cInd - 2];
      }
    }
  }

  /** Slots bounded by hi are bounded by any larger bound. */
  lemma SlotsWiden(locs: seq<int>, cInd: int, hi: int, hi': int)
    requires PeakSlots(locs, cInd, hi) && hi <= hi'
    ensures PeakSlots(locs, cInd, hi')
  {
  }

  /** The filled slots, read out as the result. */
  lemma SlotsRead(locs: seq<int>, cInd: int, hi: int)
    requires PeakSlots(locs, cInd, hi)
    ensures StrictlyIncreasing(locs[..cInd - 1]) && |locs[..cInd - 1]| == cInd - 1
    ensures forall k :: 0 <= k < cInd - 1 ==> 0 <= locs[k] <= hi
  {
  }

  /**
   * What the scan of `findPeaks` keeps between passes at index ii: at most
   * one peak per two extrema so far, the recorded peaks increasing and
   * before ii - 1, the pending candidate tempLoc past the last recorded one
   * (or that very peak, just recorded), and leftMin the extremum at ii - 1
   * right after a peak.
   */
  predicate ScanOk(x: seq<real>, minMag: real, ii0: int, ii: int, locs: seq<int>, cInd: int,
                   tempMag: real, leftMin: real, foundPeak: bool, tempLoc: int)
  {
    |locs| == (|x| + 1) / 2 && 0 <= ii0 <= ii <= |x| && 1 <= cInd && 2 * (cInd - 1) <= ii - ii0 &&
    (!foundPeak && ii > ii0 ==> 2 * (cInd - 1) < ii - ii0) &&
    (foundPeak ==> ii > ii0 && leftMin == x[ii - 1]) &&
    minMag <= tempMag && 0 <= tempLoc < |x| && tempLoc <= ii &&
    PeakSlots(locs, cInd, ii - 2) &&
    (cInd > 1 && foundPeak ==> tempLoc == locs[cInd - 2]) &&
    (cInd > 1 && !foundPeak && tempMag > minMag ==> tempLoc > locs[cInd - 2])
  }

  /** Somewhere strictly between a and b, v lies more than sel below v[b]: v rises that much to b. */
  ghost predicate RisesTo(v: seq<real>, sel: real, a: int, b: int)
  {
    0 <= b < |v| && exists q :: a < q < b && 0 <= q < |v| && v[b] > v[q] + sel
  }

  /** Somewhere strictly between a and b, v lies more than sel below v[a]: v falls that much after a. */
  ghost predicate FallsFrom(v: seq<real>, sel: real, a: int, b: int)
  {
    0 <= a < |v| && exists q :: a < q < b && 0 <= q < |v| && v[a] > v[q] + sel
  }

  /**
   * The peak rule of `findPeaks` over the values v: every peak stands more
   * than sel above floor, every peak after the first rises more than sel
   * from some value between it and the peak before, and every peak before
   * the last falls more than sel below it before the next one.
   */
  ghost predicate Prominent(v: seq<real>, sel: real, floor: real, peaks: seq<int>)
  {
    (forall k :: 0 <= k < |peaks| ==> 0 <= peaks[k] < |v| && v[peaks[k]] > floor + sel) &&
    (forall k :: 0 < k < |peaks| ==> RisesTo(v, sel, peaks[k - 1], peaks[k])) &&
    (forall k :: 0 <= k < |peaks| - 1 ==> FallsFrom(v, sel, peaks[k], peaks[k + 1]))
  }

  /** A peak appended past a fall and a rise of more than sel keeps the peak rule. */
  lemma AppendRule(x: seq<real>, sel: real, minMag: real, peaks: seq<int>, p: int, f: int, r: int)
    requires Prominent(x, sel, minMag, peaks) && 0 <= p < |x| && x[p] > minMag + sel
    requires |peaks| > 0 ==>
      peaks[|peaks| - 1] < f <= r < p && x[peaks[|peaks| - 1]] > x[f] + sel && x[p] > x[r] + sel
    ensures Prominent(x, sel, minMag, peaks + [p])
  {
    var s := peaks + [p];
    if |peaks| > 0 {
      var last := |peaks| - 1;
      assert s[last] == peaks[last] && s[last + 1] == p;
      assert RisesTo(x, sel, s[last], s[last + 1]) by {
        assert s[last] < r < s[last + 1] && 0 <= r < |x| && x[s[last + 1]] > x[r] + sel;
      }
      assert FallsFrom(x, sel, s[last], s[last + 1]) by {
        assert s[last] < f < s[last + 1] && 0 <= f < |x| && x[s[last]] > x[f] + sel;
      }
      forall k | 0 < k < last + 1 ensures RisesTo(x, sel, s[k - 1], s[k]) {
        if k < last {
          assert s[k - 1] == peaks[k - 1] && s[k] == peaks[k];
        } else {
          assert s[k - 1] == peaks[k - 1] && s[k] == peaks[k];
        }
      }
      forall k | 0 <= k < last ensures FallsFrom(x, sel, s[k], s[k + 1]) {
        assert s[k] == peaks[k] && s[k + 1] == peaks[k + 1];
      }
    }
  }

  /**
   * Recording peak v in the free slot, past a fall of more than sel from the
   * last recorded peak (at f) and a rise of more than sel to v (from r),
   * keeps the slots increasing and the recorded peaks following the rule.
   */
  lemma Record(x: seq<real>, sel: real, minMag: real, locs: seq<int>, cInd: int, v: int, hi: int, f: int, r: int)
    requires PeakSlots(locs, cInd, hi) && cInd - 1 < |locs| && 0 <= v <= hi
    requires Prominent(x, sel, minMag, locs[..cInd - 1]) && 0 <= v < |x| && x[v] > minMag + sel
    requires cInd > 1 ==> locs[cInd - 2] < f <= r < v && x[locs[cInd - 2]] > x[f] + sel && x[v] > x[r] + sel
    ensures PeakSlots(locs[cInd - 1 := v], cInd + 1, hi)
    ensures Prominent(x, sel, minMag, locs[cInd - 1 := v][..cInd])
  {
    AppendRule(x, sel, minMag, locs[..cInd - 1], v, f, r);
    PushIncreasing(locs, cInd, v, hi);
    assert locs[cInd - 1 := v][..cInd] == locs[..cInd - 1] + [v];
  }

  /**
   * What the scan keeps for the peak rule: the recorded peaks follow it; the
   * last one fell more than sel to lastFall, at or before leftAt, where
   * leftMin was taken; the pending candidate rose more than sel from
   * tempRise, at or after lastFall.  Before the first peak leftMin is
   * minMag, and a peak is only just found once one has been recorded.
   */
  ghost predicate ScanWitness(x: seq<real>, sel: real, minMag: real, ii: int, locs: seq<int>, cInd: int,
                              tempMag: real, leftMin: real, foundPeak: bool, tempLoc: int,
                              lastFall: int, leftAt: int, tempRise: int)
  {
    1 <= cInd <= |locs| + 1 && ii <= |x| &&
    Prominent(x, sel, minMag, locs[..cInd - 1]) &&
    (foundPeak ==> cInd > 1) &&
    (cInd == 1 ==> leftMin == minMag) &&
    (cInd > 1 ==>
       0 <= locs[cInd - 2] < lastFall <= leftAt < ii && x[locs[cInd - 2]] > x[lastFall] + sel &&
       leftMin == x[leftAt]) &&
    (!foundPeak && tempMag > minMag ==>
       0 <= tempLoc < |x| && tempMag == x[tempLoc] && tempMag > minMag + sel &&
       (cInd > 1 ==> lastFall <= tempRise < tempLoc && x[tempLoc] > x[tempRise] + sel))
  }

  /**
   * What the scan has looked at: unless a peak is recorded or pending, no
   * extremum before ii that it checked as a rising one (an even distance
   * from ii0) stood more than sel above minMag.
   */
  ghost predicate ScanCovered(x: seq<real>, sel: real, minMag: real, ii0: int, ii: int, cInd: int, tempMag: real)
  {
    cInd > 1 || tempMag > minMag ||
    forall p :: 0 <= ii0 <= p < ii && p < |x| && (p - ii0) % 2 == 0 ==> x[p] <= minMag + sel
  }

  /** The first position of the largest element of s. */
  function FirstTop(s: seq<real>): (t: int)
    requires |s| > 0
    ensures 0 <= t < |s|
    ensures forall i :: 0 <= i < |s| ==> s[i] <= s[t]
    ensures forall i :: 0 <= i < t ==> s[i] < s[t]
  {
    if |s| == 1 then 0 else
    var t := FirstTop(s[..|s| - 1]);
    assert forall i :: 0 <= i < |s| - 1 ==> s[..|s| - 1][i] == s[i];
    if s[|s| - 1] > s[t] then |s| - 1 else t
  }

  /** Position p is one the scan starting at ii0 checks as a rising extremum. */
  predicate Checked(ii0: int, p: int)
  {
    ii0 <= p && (p - ii0) % 2 == 0
  }

  /**
   * The first largest extremum of x stands more than sel above minMag and
   * the scan starting at ii0 checks it, or it is the last one.
   */
  ghost predicate TopEligible(x: seq<real>, sel: real, minMag: real, ii0: int)
  {
    |x| > 0 && x[FirstTop(x)] > minMag + sel && (FirstTop(x) == |x| - 1 || Checked(ii0, FirstTop(x)))
  }

  /**
   * What the scan keeps about the first largest extremum of x, when that is
   * eligible: until the scan has checked it, the pending candidate and
   * leftMin + sel lie below it; once it has, it is recorded or it is the
   * pending candidate.
   */
  ghost predicate ScanTop(x: seq<real>, sel: real, minMag: real, ii0: int, ii: int, locs: seq<int>, cInd: int,
                          tempMag: real, leftMin: real, foundPeak: bool, tempLoc: int)
  {
    |x| > 0 && 1 <= cInd <= |locs| + 1 &&
    (TopEligible(x, sel, minMag, ii0) ==>
       if Checked(ii0, FirstTop(x)) && FirstTop(x) < ii then
         FirstTop(x) in locs[..cInd - 1] || (!foundPeak && tempLoc == FirstTop(x) && tempMag == x[FirstTop(x)])
       else
         tempMag < x[FirstTop(x)] && leftMin + sel < x[FirstTop(x)])
  }

  /**
   * The invariant of the scan at slot ii: the slot bookkeeping (ScanOk),
   * the peak rule with its witnesses (ScanWitness), the checked slots seen
   * so far (ScanCovered) and the first largest extremum (ScanTop).
   */
  ghost predicate ScanInv(x: seq<real>, sel: real, minMag: real, ii0: int, ii: int, locs: seq<int>, cInd: int,
                          tempMag: real, leftMin: real, foundPeak: bool, tempLoc: int,
                          lastFall: int, leftAt: int, tempRise: int)
  {
    ScanOk(x, minMag, ii0, ii, locs, cInd, tempMag, leftMin, foundPeak, tempLoc) &&
    ScanWitness(x, sel, minMag, ii, locs, cInd, tempMag, leftMin, foundPeak, tempLoc, lastFall, leftAt, tempRise) &&
    ScanCovered(x, sel, minMag, ii0, ii, cInd, tempMag) &&
    ScanTop(x, sel, minMag, ii0, ii, locs, cInd, tempMag, leftMin, foundPeak, tempLoc)
  }

  /**
   * One pass of the scan's loop: the rising extremum at ii (a new candidate
   * when it beats the pending one and rises sel above leftMin), then, unless
   * that was the last extremum (done), the falling one at ii + 1 (recording
   * the candidate as a peak when it falls sel below it).  The ghost
   * parameters are the positions ScanWitness speaks of.
   */
  method ScanStep(x: seq<real>, sel: real, minMag: real, ii0: int, ii: int, locs: seq<int>, cInd: int,
                  tempMag: real, leftMin: real, foundPeak: bool, tempLoc: int,
                  ghost lastFall: int, ghost leftAt: int, ghost tempRise: int)
    returns (done: bool, ii': int, locs': seq<int>, cInd': int,
             tempMag': real, leftMin': real, foundPeak': bool, tempLoc': int,
             ghost lastFall': int, ghost leftAt': int, ghost tempRise': int)
    requires sel >= 0.0 && ii < |x| && (ii - ii0) % 2 == 0 && (forall i :: 0 <= i < |x| ==> minMag <= x[i])
    requires ScanInv(x, sel, minMag, ii0, ii, locs, cInd, tempMag, leftMin, foundPeak, tempLoc,
                     lastFall, leftAt, tempRise)
    ensures ii < ii' && (done ==> ii' == |x|) && ((ii' - ii0) % 2 == 0 || ii' == |x|)
    ensures ScanInv(x, sel, minMag, ii0, ii', locs', cInd', tempMag', leftMin', foundPeak', tempLoc',
                    lastFall', leftAt', tempRise')
  {
    tempMag', foundPeak', tempLoc', tempRise' :=
      RiseStep(x, sel, minMag, ii0, ii, locs, cInd, tempMag, leftMin, foundPeak, tempLoc, lastFall, leftAt, tempRise);
    ii', locs', cInd', leftMin', lastFall', leftAt' := ii + 1, locs, cInd, leftMin, lastFall, leftAt;
    done := ii' == |x|;
    if !done {
      NextParity(ii - ii0);
      locs', cInd', leftMin', foundPeak', lastFall', leftAt' :=
        FallStep(x, sel, minMag, ii0, ii', locs, cInd, tempMag', leftMin, tempLoc', lastFall, leftAt, tempRise');
      ii' := ii' + 1;
    }
  }

  /** The two positions after an even offset have odd and even offsets. */
  lemma NextParity(d: int)
    requires d % 2 == 0
    ensures (d + 1) % 2 == 1 && (d + 2) % 2 == 0
  {
  }

  /**
   * The rising half of a pass, at the extremum ii: forget a peak just
   * recorded, then take x[ii] as the candidate when it beats the pending
   * one and rises more than sel above leftMin.
   */
  method RiseStep(x: seq<real>, sel: real, minMag: real, ii0: int, ii: int, locs: seq<int>, cInd: int,
                  tempMag: real, leftMin: real, foundPeak: bool, tempLoc: int,
                  ghost lastFall: int, ghost leftAt: int, ghost tempRise: int)
    returns (tempMag': real, foundPeak': bool, tempLoc': int, ghost tempRise': int)
    requires sel >= 0.0 && ii < |x| && (ii - ii0) % 2 == 0 && (forall i :: 0 <= i < |x| ==> minMag <= x[i])
    requires ScanInv(x, sel, minMag, ii0, ii, locs, cInd, tempMag, leftMin, foundPeak, tempLoc,
                     lastFall, leftAt, tempRise)
    ensures !foundPeak'
    ensures tempMag' == (if x[ii] > (if foundPeak then minMag else tempMag) && x[ii] > leftMin + sel then x[ii]
                         else if foundPeak then minMag else tempMag)
    ensures ScanInv(x, sel, minMag, ii0, ii + 1, locs, cInd, tempMag', leftMin, foundPeak', tempLoc',
                    lastFall, leftAt, tempRise')
  {
    tempMag', foundPeak', tempLoc', tempRise' := tempMag, foundPeak, tempLoc, tempRise;
    if foundPeak' {
      tempMag' := minMag;
      foundPeak' := false;
    }
    if x[ii] > tempMag' && x[ii] > leftMin + sel {
      tempLoc' := ii;
      tempMag' := x[ii];
      tempRise' := leftAt;
    }
    SlotsWiden(locs, cInd, ii - 2, ii - 1);
    RiseTop(x, sel, minMag, ii0, ii, locs, cInd, tempMag, leftMin, foundPeak, tempLoc, tempMag', tempLoc');
  }

  /**
   * The falling half of a pass, at the extremum ii: record the pending
   * candidate as a peak when it stands more than sel above x[ii], and
   * otherwise lower leftMin to x[ii] when that is smaller.
   */
  method FallStep(x: seq<real>, sel: real, minMag: real, ii0: int, ii: int, locs: seq<int>, cInd: int,
                  tempMag: real, leftMin: real, tempLoc: int,
                  ghost lastFall: int, ghost leftAt: int, ghost tempRise: int)
    returns (locs': seq<int>, cInd': int, leftMin': real, foundPeak': bool, ghost lastFall': int, ghost leftAt': int)
    requires sel >= 0.0 && ii < |x| && (ii - ii0) % 2 == 1 && (forall i :: 0 <= i < |x| ==> minMag <= x[i])
    requires ScanInv(x, sel, minMag, ii0, ii, locs, cInd, tempMag, leftMin, false, tempLoc,
                     lastFall, leftAt, tempRise)
    ensures foundPeak' <==> tempMag > sel + x[ii]
    ensures foundPeak' ==> cInd' == cInd + 1 && locs' == locs[cInd - 1 := tempLoc] && leftMin' == x[ii]
    ensures !foundPeak' ==> cInd' == cInd && locs' == locs && leftMin' == (if x[ii] < leftMin then x[ii] else leftMin)
    ensures ScanInv(x, sel, minMag, ii0, ii + 1, locs', cInd', tempMag, leftMin', foundPeak', tempLoc,
                    lastFall', leftAt', tempRise)
  {
    locs', cInd', leftMin', foundPeak', lastFall', leftAt' := locs, cInd, leftMin, false, lastFall, leftAt;
    SlotsWiden(locs, cInd, ii - 2, ii - 1);
    if tempMag > sel + x[ii] {
      Record(x, sel, minMag, locs, cInd, tempLoc, ii - 1, lastFall, tempRise);
      foundPeak' := true;
      leftMin' := x[ii];
      lastFall', leftAt' := ii, ii;
      locs' := locs[cInd - 1 := tempLoc];
      cInd' := cInd + 1;
    } else if x[ii] < leftMin {
      leftMin' := x[ii];
      leftAt' := ii;
    }
    FallTop(x, sel, minMag, ii0, ii, locs, cInd, tempMag, leftMin, tempLoc, locs', cInd', leftMin', foundPeak');
  }

  /**
   * The alternating scan of `findPeaks` over the extrema `x`: the positions in
   * `x` of the peaks, in increasing order, at most one per two extrema.  They
   * follow the peak rule above minMag, and there is at least one when the
   * last extremum, or one the scan checks as rising, stands more than sel
   * above minMag.
   */
  method ScanPeaks(x: seq<real>, sel: real, minMag: real, ii0: int) returns (peakLoc: seq<int>)
    requires |x| >= 2 && sel >= 0.0 && (ii0 == 0 || ii0 == 1)
    requires forall i :: 0 <= i < |x| ==> minMag <= x[i]
    ensures ScanResult(x, sel, minMag, ii0, peakLoc)
  {
    var len := |x|;
    var maxPeaks := (len + 1) / 2;
    var locs := seq(maxPeaks, _ => 0);
    var tempMag := minMag;
    var leftMin := minMag;
    var foundPeak := false;
    var cInd := 1;
    var tempLoc := 0;
    var ii := ii0;
    ghost var lastFall, leftAt, tempRise := 0, 0, 0;
    while ii < len
      invariant ScanInv(x, sel, minMag, ii0, ii, locs, cInd, tempMag, leftMin, foundPeak, tempLoc,
                        lastFall, leftAt, tempRise)
      invariant (ii - ii0) % 2 == 0 || ii == len
      decreases len - ii
    {
      var done;
      done, ii, locs, cInd, tempMag, leftMin, foundPeak, tempLoc, lastFall, leftAt, tempRise :=
        ScanStep(x, sel, minMag, ii0, ii, locs, cInd, tempMag, leftMin, foundPeak, tempLoc,
                 lastFall, leftAt, tempRise);
      if done {
        break;
      }
    }
    peakLoc := FinishScan(x, sel, minMag, ii0, locs, cInd, tempMag, leftMin, foundPeak, tempLoc,
                          lastFall, leftAt, tempRise);
  }

  /**
   * The end of the scan: the last extremum may still be a peak, or else the
   * pending candidate is one; the recorded peaks are the result.
   */
  method FinishScan(x: seq<real>, sel: real, minMag: real, ii0: int, locs: seq<int>, cInd: int,
                    tempMag: real, leftMin: real, foundPeak: bool, tempLoc: int,
                    ghost lastFall: int, ghost leftAt: int, ghost tempRise: int)
    returns (peakLoc: seq<int>)
    requires sel >= 0.0 && (forall i :: 0 <= i < |x| ==> minMag <= x[i])
    requires ScanInv(x, sel, minMag, ii0, |x|, locs, cInd, tempMag, leftMin, foundPeak, tempLoc,
                     lastFall, leftAt, tempRise)
    ensures ScanResult(x, sel, minMag, ii0, peakLoc)
  {
    var len := |x|;
    SlotsRead(locs, cInd, len - 2);
    FinishTop(x, sel, minMag, ii0, locs, cInd, tempMag, leftMin, foundPeak, tempLoc);
    ghost var recorded := locs[..cInd - 1];
    var locs, cInd := locs, cInd;
    if x[len - 1] > tempMag && x[len - 1] > leftMin + sel {
      ResultAppended(x, sel, minMag, ii0, recorded, len - 1, lastFall, leftAt);
      locs := locs[cInd - 1 := len - 1];
      cInd := cInd + 1;
      peakLoc := locs[..cInd - 1];
      assert peakLoc == recorded + [len - 1];
    } else if !foundPeak && tempMag > minMag {
      ResultAppended(x, sel, minMag, ii0, recorded, tempLoc, lastFall, tempRise);
      locs := locs[cInd - 1 := tempLoc];
      cInd := cInd + 1;
      peakLoc := locs[..cInd - 1];
      assert peakLoc == recorded + [tempLoc];
    } else {
      ResultKept(x, sel, minMag, ii0, recorded);
      peakLoc := locs[..cInd - 1];
    }
  }

  /**
   * What the scan promises of its result: strictly increasing positions in x,
   * at most one per two extrema, following the peak rule above minMag, and at
   * least one when the last extremum, or one the scan checks as rising
   * (every second from ii0), stands more than sel above minMag.
   */
  ghost predicate ScanResult(x: seq<real>, sel: real, minMag: real, ii0: int, peakLoc: seq<int>)
  {
    |x| > 0 && StrictlyIncreasing(peakLoc) &&
    (forall k :: 0 <= k < |peakLoc| ==> 0 <= peakLoc[k] < |x|) &&
    |peakLoc| <= (|x| + 1) / 2 &&
    Prominent(x, sel, minMag, peakLoc) &&
    (x[|x| - 1] > minMag + sel ==> |peakLoc| > 0) &&
    (forall p :: 0 <= p && ii0 <= p < |x| && (p - ii0) % 2 == 0 && x[p] > minMag + sel ==> |peakLoc| > 0) &&
    (TopEligible(x, sel, minMag, ii0) ==> FirstTop(x) in peakLoc)
  }

  /** The end of the scan records one more peak v, past a fall from the last one and a rise to v. */
  lemma ResultAppended(x: seq<real>, sel: real, minMag: real, ii0: int, recorded: seq<int>, v: int, f: int, r: int)
    requires StrictlyIncreasing(recorded) && (forall k :: 0 <= k < |recorded| ==> 0 <= recorded[k] < |x|)
    requires 0 <= v < |x| && |recorded| + 1 <= (|x| + 1) / 2 && (|recorded| > 0 ==> recorded[|recorded| - 1] < v)
    requires Prominent(x, sel, minMag, recorded) && x[v] > minMag + sel
    requires |recorded| > 0 ==>
      recorded[|recorded| - 1] < f <= r < v && x[recorded[|recorded| - 1]] > x[f] + sel && x[v] > x[r] + sel
    requires TopEligible(x, sel, minMag, ii0) ==> FirstTop(x) in recorded || FirstTop(x) == v
    ensures ScanResult(x, sel, minMag, ii0, recorded + [v])
  {
    AppendRule(x, sel, minMag, recorded, v, f, r);
    var s := recorded + [v];
    forall i, j | 0 <= i < j < |s| ensures s[i] < s[j] {
      if j == |recorded| && i < |recorded| - 1 {
        assert s[i] < s[|recorded| - 1];
      }
    }
  }

  /** The end of the scan records nothing more: the peaks recorded already are the result. */
  lemma ResultKept(x: seq<real>, sel: real, minMag: real, ii0: int, recorded: seq<int>)
    requires |x| > 0 && StrictlyIncreasing(recorded) && (forall k :: 0 <= k < |recorded| ==> 0 <= recorded[k] < |x|)
    requires |recorded| <= (|x| + 1) / 2 && Prominent(x, sel, minMag, recorded)
    requires x[|x| - 1] > minMag + sel ==> |recorded| > 0
    requires forall p :: 0 <= p && ii0 <= p < |x| && (p - ii0) % 2 == 0 && x[p] > minMag + sel ==> |recorded| > 0
    requires TopEligible(x, sel, minMag, ii0) ==> FirstTop(x) in recorded
    ensures ScanResult(x, sel, minMag, ii0, recorded)
  {
  }

  /**
   * The rising half of a pass keeps ScanTop: the first largest extremum,
   * once reached, becomes the candidate (nothing pending lies as high and
   * leftMin + sel lies below it), and no later extremum displaces it.
   */
  lemma RiseTop(x: seq<real>, sel: real, minMag: real, ii0: int, ii: int, locs: seq<int>, cInd: int,
                tempMag: real, leftMin: real, foundPeak: bool, tempLoc: int, tempMag': real, tempLoc': int)
    requires sel >= 0.0 && 0 <= ii0 <= ii < |x| && Checked(ii0, ii)
    requires ScanTop(x, sel, minMag, ii0, ii, locs, cInd, tempMag, leftMin, foundPeak, tempLoc)
    requires var t := if foundPeak then minMag else tempMag;
      tempMag' == (if x[ii] > t && x[ii] > leftMin + sel then x[ii] else t) &&
      tempLoc' == (if x[ii] > t && x[ii] > leftMin + sel then ii else tempLoc)
    ensures ScanTop(x, sel, minMag, ii0, ii + 1, locs, cInd, tempMag', leftMin, false, tempLoc')
  {
    if TopEligible(x, sel, minMag, ii0) {
      var top := FirstTop(x);
      if ii < top {
        assert x[ii] < x[top];
      }
    }
  }

  /**
   * The falling half of a pass keeps ScanTop: a record made before the
   * first largest extremum is reached lowers leftMin below it by more than
   * sel, and one made after records the candidate it has become.
   */
  lemma FallTop(x: seq<real>, sel: real, minMag: real, ii0: int, ii: int, locs: seq<int>, cInd: int,
                tempMag: real, leftMin: real, tempLoc: int,
                locs': seq<int>, cInd': int, leftMin': real, foundPeak': bool)
    requires sel >= 0.0 && 0 <= ii0 <= ii < |x| && (ii - ii0) % 2 == 1
    requires ScanTop(x, sel, minMag, ii0, ii, locs, cInd, tempMag, leftMin, false, tempLoc)
    requires foundPeak' <==> tempMag > sel + x[ii]
    requires foundPeak' ==> cInd' == cInd + 1 && cInd <= |locs| && locs' == locs[cInd - 1 := tempLoc] && leftMin' == x[ii]
    requires !foundPeak' ==> cInd' == cInd && locs' == locs && leftMin' == (if x[ii] < leftMin then x[ii] else leftMin)
    ensures ScanTop(x, sel, minMag, ii0, ii + 1, locs', cInd', tempMag, leftMin', foundPeak', tempLoc)
  {
    if foundPeak' {
      assert locs'[..cInd' - 1] == locs[..cInd - 1] + [tempLoc];
    }
  }

  /**
   * At the end of the scan the first largest extremum, when eligible, is
   * recorded already, or it is what the end-point check records: the last
   * extremum, else the pending candidate.
   */
  lemma FinishTop(x: seq<real>, sel: real, minMag: real, ii0: int, locs: seq<int>, cInd: int,
                  tempMag: real, leftMin: real, foundPeak: bool, tempLoc: int)
    requires sel >= 0.0 && 0 <= ii0
    requires ScanTop(x, sel, minMag, ii0, |x|, locs, cInd, tempMag, leftMin, foundPeak, tempLoc)
    ensures TopEligible(x, sel, minMag, ii0) ==>
      var top := FirstTop(x);
      var last := x[|x| - 1] > tempMag && x[|x| - 1] > leftMin + sel;
      var pending := !foundPeak && tempMag > minMag;
      (last ==> top in locs[..cInd - 1] || top == |x| - 1) &&
      (!last && pending ==> top in locs[..cInd - 1] || top == tempLoc) &&
      (!last && !pending ==> top in locs[..cInd - 1])
  {
  }

  /** x0 with its last sample repeated, so that the index |x0| that `findPeaks` uses reads that sample. */
  function Extended(x0: seq<real>): (v: seq<real>)
    requires |x0| > 0
    ensures |v| == |x0| + 1 && v[|x0|] == x0[|x0| - 1]
    ensures forall i :: 0 <= i < |x0| ==> v[i] == x0[i]
  {
    x0 + [x0[|x0| - 1]]
  }

  /** The selectivity of `findPeaks`: a quarter of the range of x0. */
  function Selectivity(x0: seq<real>): real
    requires |x0| > 0
  {
    (SeqMax(x0) - SeqMin(x0)) / 4.0
  }

  /** x holds the values of v at the indices ind. */
  predicate ValuesAt(v: seq<real>, x: seq<real>, ind: seq<int>)
  {
    |x| == |ind| && forall k :: 0 <= k < |ind| ==> 0 <= ind[k] < |v| && x[k] == v[ind[k]]
  }

  /**
   * The peak rule read through the extrema: positions in x become the
   * indices into v that x was taken from, and a lower floor still holds.
   */
  lemma ProminentLifted(v: seq<real>, x: seq<real>, ind: seq<int>, sel: real, minMag: real, floor: real,
                        peakLoc: seq<int>, out: seq<int>)
    requires ValuesAt(v, x, ind) && StrictlyIncreasing(ind)
    requires floor <= minMag && Prominent(x, sel, minMag, peakLoc)
    requires |out| == |peakLoc| && forall k :: 0 <= k < |peakLoc| ==> out[k] == ind[peakLoc[k]]
    ensures Prominent(v, sel, floor, out)
  {
    forall k | 0 < k < |out|
      ensures RisesTo(v, sel, out[k - 1], out[k])
    {
      assert RisesTo(x, sel, peakLoc[k - 1], peakLoc[k]);
      var q :| peakLoc[k - 1] < q < peakLoc[k] && 0 <= q < |x| && x[peakLoc[k]] > x[q] + sel;
      assert out[k - 1] < ind[q] < out[k] && v[out[k]] > v[ind[q]] + sel;
    }
    forall k | 0 <= k < |out| - 1
      ensures FallsFrom(v, sel, out[k], out[k + 1])
    {
      assert FallsFrom(x, sel, peakLoc[k], peakLoc[k + 1]);
      var q :| peakLoc[k] < q < peakLoc[k + 1] && 0 <= q < |x| && x[peakLoc[k]] > x[q] + sel;
      assert out[k] < ind[q] < out[k + 1] && v[out[k]] > v[ind[q]] + sel;
    }
  }

  /**
   * The first half of `findPeaks`: the sign-change points of `x0` framed by its
   * first sample and by `|x0|`, with the sample values there (`x0`'s last
   * sample standing in at `|x0|`).
   */
  method Extrema(x0: seq<real>) returns (x: seq<real>, ind: seq<int>)
    requires |x0| >= 2
    ensures |x| == |ind| >= 2 && ind[0] == 0 && ind[|ind| - 1] == |x0|
    ensures StrictlyIncreasing(ind)
    ensures forall k :: 0 <= k < |ind| ==> ind[k] == 0 || ind[k] == |x0| || SlopeChangesSign(x0, ind[k])
    ensures forall k :: SlopeChangesSign(x0, k) ==> k in ind
    ensures forall k :: 0 <= k < |ind| ==> x[k] == x0[if ind[k] == |x0| then |x0| - 1 else ind[k]]
    ensures ValuesAt(Extended(x0), x, ind) && FramedExtrema(x0, x, ind)
    ensures !HasTurn(x0) ==> |ind| == 2
    ensures HasTurn(x0) ==> |ind| > 2
  {
    var len0 := |x0|;
    var turns := SlopeTurns(x0);
    var sel := SelectElements(x0, turns);
    x := [x0[0]] + sel + [x0[len0 - 1]];
    ind := [0] + turns + [len0];
    Framed(x0, turns, sel);
    FramedValues(x0, turns, sel);
    FramedTurns(x0, turns, ind);
  }

  /**
   * Lines 98-105 of `findPeaks`: the one-based positions of the negative
   * products of neighbouring slopes, which are exactly the sign changes of
   * the slope, in increasing order.
   */
  method SlopeTurns(x0: seq<real>) returns (turns: seq<int>)
    requires |x0| >= 2
    ensures StrictlyIncreasing(turns)
    ensures forall k :: 0 <= k < |turns| ==> SlopeChangesSign(x0, turns[k])
    ensures forall k :: SlopeChangesSign(x0, k) ==> k in turns
  {
    var dx := Diff(x0);
    dx := seq(|dx|, i requires 0 <= i < |dx| => if dx[i] == 0.0 then FlatSlope else dx[i]);
    var dx0, dx1 := dx[..|dx| - 1], dx[1..];
    var dx2 := Product(dx0, dx1);
    SlopeProducts(x0, dx, dx2);
    turns := FindIndicesLessThan(dx2, 0.0);
    TurnsSound(x0, dx2, turns);
    TurnsComplete(x0, dx2, turns);
  }

  /** With flat differences replaced, the products of neighbouring differences are those of the slopes. */
  lemma SlopeProducts(x0: seq<real>, dx: seq<real>, dx2: seq<real>)
    requires |x0| >= 2 && |dx| == |x0| - 1 && |dx2| == |dx| - 1
    requires forall i :: 1 <= i < |x0| ==> dx[i - 1] == if x0[i] - x0[i - 1] == 0.0 then FlatSlope else x0[i] - x0[i - 1]
    requires forall i :: 0 <= i < |dx2| ==> dx2[i] == dx[..|dx| - 1][i] * dx[1..][i]
    ensures forall i :: 0 <= i < |dx2| ==> dx2[i] == Slope(x0, i) * Slope(x0, i + 1)
  {
    forall i | 0 <= i < |dx2| ensures dx2[i] == Slope(x0, i) * Slope(x0, i + 1) {
      assert dx[..|dx| - 1][i] == dx[i] == Slope(x0, i);
      assert dx[1..][i] == dx[i + 1] == Slope(x0, i + 1);
    }
  }

  /** The one-based positions of the negative products of neighbouring slopes are sign changes. */
  lemma TurnsSound(x0: seq<real>, dx2: seq<real>, turns: seq<int>)
    requires |x0| >= 2 && |dx2| == |x0| - 2
    requires forall i :: 0 <= i < |dx2| ==> dx2[i] == Slope(x0, i) * Slope(x0, i + 1)
    requires forall k :: 0 <= k < |turns| ==> 1 <= turns[k] <= |dx2| && dx2[turns[k] - 1] < 0.0
    ensures forall k :: 0 <= k < |turns| ==> SlopeChangesSign(x0, turns[k])
  {
  }

  /** Every sign change of x0's slope is among the one-based positions of the negative products. */
  lemma TurnsComplete(x0: seq<real>, dx2: seq<real>, turns: seq<int>)
    requires |x0| >= 2 && |dx2| == |x0| - 2
    requires forall i :: 0 <= i < |dx2| ==> dx2[i] == Slope(x0, i) * Slope(x0, i + 1)
    requires forall i :: 0 <= i < |dx2| && dx2[i] < 0.0 ==> i + 1 in turns
    ensures forall k :: SlopeChangesSign(x0, k) ==> k in turns
  {
    forall k | SlopeChangesSign(x0, k) ensures k in turns {
      assert dx2[k - 1] < 0.0;
    }
  }

  lemma Framed(x0: seq<real>, turns: seq<int>, sel: seq<real>)
    requires |x0| >= 2 && StrictlyIncreasing(turns) && |sel| == |turns|
    requires forall k :: 0 <= k < |turns| ==> SlopeChangesSign(x0, turns[k]) && sel[k] == x0[turns[k]]
    ensures var ind := [0] + turns + [|x0|];
      var x := [x0[0]] + sel + [x0[|x0| - 1]];
      StrictlyIncreasing(ind) &&
      (forall k :: 0 <= k < |ind| ==> ind[k] == 0 || ind[k] == |x0| || SlopeChangesSign(x0, ind[k])) &&
      (forall k :: 0 <= k < |ind| ==> x[k] == x0[if ind[k] == |x0| then |x0| - 1 else ind[k]])
  {
    var ind := [0] + turns + [|x0|];
    var x := [x0[0]] + sel + [x0[|x0| - 1]];
    assert forall k :: 0 < k < |ind| - 1 ==> ind[k] == turns[k - 1] && x[k] == sel[k - 1];
    forall i, j | 0 <= i < j < |ind| ensures ind[i] < ind[j] {
      if 0 < i && j < |ind| - 1 {
        assert ind[i] == turns[i - 1] && ind[j] == turns[j - 1];
      }
    }
  }

  /**
   * Framing the sign changes of x0's slope by 0 and |x0| keeps every sign
   * change, and adds nothing between the frame exactly when there is none.
   */
  lemma FramedTurns(x0: seq<real>, turns: seq<int>, ind: seq<int>)
    requires ind == [0] + turns + [|x0|]
    requires forall k :: 0 <= k < |turns| ==> SlopeChangesSign(x0, turns[k])
    requires forall k :: SlopeChangesSign(x0, k) ==> k in turns
    ensures forall k :: SlopeChangesSign(x0, k) ==> k in ind
    ensures !HasTurn(x0) ==> |ind| == 2
    ensures HasTurn(x0) ==> |ind| > 2
  {
    if |turns| > 0 {
      assert SlopeChangesSign(x0, turns[0]);
    }
    if HasTurn(x0) {
      var k :| SlopeChangesSign(x0, k);
      assert k in turns;
    }
    forall k | SlopeChangesSign(x0, k) ensures k in ind {
      assert k in turns;
      var j :| 0 <= j < |turns| && turns[j] == k;
      assert ind[j + 1] == k;
    }
  }

  /** The framed extrema read Extended(x0), and every turn is among the framed indices. */
  lemma FramedValues(x0: seq<real>, turns: seq<int>, sel: seq<real>)
    requires |x0| >= 2 && |sel| == |turns|
    requires forall k :: 0 <= k < |turns| ==> 0 <= turns[k] < |x0| && sel[k] == x0[turns[k]]
    ensures ValuesAt(Extended(x0), [x0[0]] + sel + [x0[|x0| - 1]], [0] + turns + [|x0|])
    ensures forall k :: k in turns ==> k in [0] + turns + [|x0|]
  {
    var ind := [0] + turns + [|x0|];
    var x := [x0[0]] + sel + [x0[|x0| - 1]];
    assert forall k :: 0 < k < |ind| - 1 ==> ind[k] == turns[k - 1] && x[k] == sel[k - 1];
  }

  /** Every index is 0, one past the end, or a point where the slope of x0 changes sign. */
  predicate Candidates(x0: seq<real>, ind: seq<int>)
  {
    forall k :: 0 <= k < |ind| ==> ind[k] == 0 || ind[k] == |x0| || SlopeChangesSign(x0, ind[k])
  }

  /** s without its element at position p (a vector's `erase`). */
  function Drop<T>(s: seq<T>, p: int): (d: seq<T>)
    requires 0 <= p < |s|
    ensures |d| == |s| - 1
    ensures forall k :: 0 <= k < |d| ==> d[k] == s[if k < p then k else k + 1]
  {
    s[..p] + s[p + 1..]
  }

  /** Dropping an element keeps indices increasing and candidates. */
  lemma DropKeeps(x0: seq<real>, ind: seq<int>, p: int)
    requires 0 <= p < |ind| && StrictlyIncreasing(ind) && Candidates(x0, ind)
    ensures StrictlyIncreasing(Drop(ind, p)) && Candidates(x0, Drop(ind, p))
  {
  }

  /** Dropping an element keeps a lower bound. */
  lemma DropBounded(x: seq<real>, p: int, lo: real)
    requires 0 <= p < |x| && forall i :: 0 <= i < |x| ==> lo <= x[i]
    ensures forall i :: 0 <= i < |x| - 1 ==> lo <= Drop(x, p)[i]
  {
  }

  /**
   * The start of `findPeaks`' scan: when the first three extrema move in the
   * same direction (per `sign`), the second (falling start) or the first
   * (rising start) is not an extremum and is dropped.
   */
  method TrimStart(x0: seq<real>, x: seq<real>, ind: seq<int>, sign: int, minMag: real)
    returns (x': seq<real>, ind': seq<int>)
    requires |x| == |ind| > 2 && StrictlyIncreasing(ind) && Candidates(x0, ind)
    requires forall i :: 0 <= i < |x| ==> minMag <= x[i]
    requires |x0| > 0 && ValuesAt(Extended(x0), x, ind)
    ensures |x'| == |ind'| >= 2 && StrictlyIncreasing(ind') && Candidates(x0, ind')
    ensures forall i :: 0 <= i < |x'| ==> minMag <= x'[i]
    ensures ValuesAt(Extended(x0), x', ind') && x'[|x'| - 1] == x[|x| - 1]
    ensures sign != 0 && ((x[0] < x[1]) == (x[2] <= x[1])) ==> x' == x && ind' == ind
  {
    var xDiff := Diff(x[..3]);
    var signDx := SignVector(xDiff, sign);
    var p := if signDx[0] <= 0 then 1 else 0;
    if sign != 0 && ((x[0] < x[1]) == (x[2] <= x[1])) {
      if x[0] < x[1] {
        ScaledSigns(sign, xDiff[0], xDiff[1]);
      } else {
        ScaledSigns(sign, xDiff[1], xDiff[0]);
      }
    }
    if signDx[0] == signDx[1] {
      DropKeeps(x0, ind, p);
      DropBounded(x, p, minMag);
      x', ind' := Drop(x, p), Drop(ind, p);
    } else {
      x', ind' := x, ind;
    }
  }

  /** Scaling a rising and a non-rising difference by the same non-zero sign never gives them the same sign. */
  lemma ScaledSigns(sign: int, up: real, down: real)
    requires sign != 0 && up > 0.0 && down <= 0.0
    ensures Sign(sign as real * up) != Sign(sign as real * down)
  {
    var s := sign as real;
    if s > 0.0 {
      assert s * up > 0.0;
      assert s * down <= 0.0;
    } else {
      assert s * up < 0.0;
      assert s * down == -((-s) * down) >= 0.0;
    }
  }

  /** The indices picked at increasing positions of increasing candidates are increasing candidates. */
  lemma SelectedKeeps(x0: seq<real>, ind: seq<int>, peakLoc: seq<int>, out: seq<int>)
    requires StrictlyIncreasing(ind) && Candidates(x0, ind) && StrictlyIncreasing(peakLoc)
    requires forall k :: 0 <= k < |peakLoc| ==> 0 <= peakLoc[k] < |ind|
    requires |out| == |peakLoc| && forall k :: 0 <= k < |peakLoc| ==> out[k] == ind[peakLoc[k]]
    ensures StrictlyIncreasing(out) && Candidates(x0, out)
  {
  }

  /** A value read from x0 at the extrema is no smaller than x0's minimum. */
  lemma ExtremaAboveMin(x0: seq<real>, x: seq<real>, ind: seq<int>, m: real)
    requires |x0| > 0 && ValuesAt(Extended(x0), x, ind) && m in x
    ensures SeqMin(x0) <= m
  {
    var j :| 0 <= j < |x| && x[j] == m;
    var v := Extended(x0);
    if ind[j] == |x0| {
      assert v[ind[j]] == x0[|x0| - 1];
    } else {
      assert v[ind[j]] == x0[ind[j]];
    }
  }

  /** Two non-zero reals have a positive product exactly when they have the same sign. */
  lemma SignsAgree(a: real, b: real)
    requires a != 0.0 && b != 0.0
    ensures (a * b > 0.0) == ((a > 0.0) == (b > 0.0))
  {
    if a > 0.0 && b < 0.0 {
      assert a * b == -(a * -b);
    } else if a < 0.0 && b > 0.0 {
      assert a * b == -(-a * b);
    } else if a < 0.0 && b < 0.0 {
      assert a * b == -a * -b;
    }
  }

  /**
   * The last position of the smallest element of s.
   */
  function LastBottom(s: seq<real>): (t: int)
    requires |s| > 0
    ensures 0 <= t < |s|
    ensures forall i :: 0 <= i < |s| ==> s[t] <= s[i]
    ensures forall i :: t < i < |s| ==> s[t] < s[i]
  {
    if |s| == 1 then 0 else
    var t := LastBottom(s[..|s| - 1]);
    assert forall i :: 0 <= i < |s| - 1 ==> s[..|s| - 1][i] == s[i];
    if s[|s| - 1] <= s[t] then |s| - 1 else t
  }

  /** The index `findPeaks` reports for the first largest sample of x0: |x0| when that is the last one. */
  function TopIndex(x0: seq<real>): int
    requires |x0| > 0
  {
    if FirstTop(x0) == |x0| - 1 then |x0| else FirstTop(x0)
  }

  /** The framing of `findPeaks`: 0, then every sign change of the slope in order, then |x0|. */
  ghost predicate FramedExtrema(x0: seq<real>, x: seq<real>, ind: seq<int>)
  {
    |x0| >= 2 && |x| == |ind| >= 2 && ind[0] == 0 && ind[|ind| - 1] == |x0| &&
    StrictlyIncreasing(ind) && Candidates(x0, ind) && (forall k :: SlopeChangesSign(x0, k) ==> k in ind) &&
    ValuesAt(Extended(x0), x, ind)
  }

  /**
   * From a framed index up to the next one, the slope of x0 keeps the sign
   * it has at the first: no sign change lies in between.
   */
  lemma {:induction false} RunSign(x0: seq<real>, x: seq<real>, ind: seq<int>, i: int, j: int)
    requires FramedExtrema(x0, x, ind)
    requires 0 <= i < |ind| - 1 && ind[i] <= j < ind[i + 1] && j <= |x0| - 2
    ensures (Slope(x0, j) > 0.0) == (Slope(x0, ind[i]) > 0.0)
    decreases j - ind[i]
  {
    if j > ind[i] {
      RunSign(x0, x, ind, i, j - 1);
      forall m | 0 <= m < |ind| ensures ind[m] != j {
        if m <= i {
          assert ind[m] <= ind[i];
        } else {
          assert ind[i + 1] <= ind[m];
        }
      }
      assert !SlopeChangesSign(x0, j);
      SignsAgree(Slope(x0, j - 1), Slope(x0, j));
    }
  }

  /**
   * Along the run from framed index i to the next, x0 rises strictly when
   * the run's slope is positive and does not rise when it is negative.
   */
  lemma {:induction false} RunValues(x0: seq<real>, x: seq<real>, ind: seq<int>, i: int, j: int)
    requires FramedExtrema(x0, x, ind)
    requires 0 <= i < |ind| - 1 && 0 <= ind[i] < j <= ind[i + 1] && j <= |x0| - 1
    ensures Slope(x0, ind[i]) > 0.0 ==> x0[ind[i]] < x0[j]
    ensures Slope(x0, ind[i]) < 0.0 ==> x0[j] <= x0[ind[i]]
    decreases j
  {
    RunSign(x0, x, ind, i, j - 1);
    if j - 1 > ind[i] {
      RunValues(x0, x, ind, i, j - 1);
    }
  }

  /** An interior framed index is a sign change, so the runs on either side of it slope opposite ways. */
  lemma RunsAlternate(x0: seq<real>, x: seq<real>, ind: seq<int>, i: int)
    requires FramedExtrema(x0, x, ind) && 0 < i < |ind| - 1
    ensures 0 <= ind[i - 1] <= |x0| - 2 && 0 <= ind[i] <= |x0| - 2
    ensures (Slope(x0, ind[i]) > 0.0) != (Slope(x0, ind[i - 1]) > 0.0)
  {
    assert ind[0] <= ind[i - 1] < ind[i] < ind[|ind| - 1];
    assert SlopeChangesSign(x0, ind[i]);
    RunSign(x0, x, ind, i - 1, ind[i] - 1);
    SignsAgree(Slope(x0, ind[i] - 1), Slope(x0, ind[i]));
  }

  /**
   * The framed extrema alternate: x rises strictly from position i to i + 1
   * exactly when i has the parity of a rising start, and otherwise does not
   * rise.
   */
  lemma {:induction false} ExtremaAlternate(x0: seq<real>, x: seq<real>, ind: seq<int>, i: int)
    requires FramedExtrema(x0, x, ind) && 0 <= i < |x| - 1
    ensures 0 <= ind[i] <= |x0| - 2
    ensures (Slope(x0, ind[i]) > 0.0) == ((i % 2 == 0) == (Slope(x0, 0) > 0.0))
    ensures Slope(x0, ind[i]) > 0.0 ==> x[i] < x[i + 1]
    ensures Slope(x0, ind[i]) <= 0.0 ==> x[i + 1] <= x[i]
    decreases i
  {
    assert ind[0] <= ind[i] < ind[i + 1] <= ind[|ind| - 1];
    if i > 0 {
      ExtremaAlternate(x0, x, ind, i - 1);
      RunsAlternate(x0, x, ind, i);
    }
    var e := if ind[i + 1] == |x0| then |x0| - 1 else ind[i + 1];
    assert x[i + 1] == x0[e] && x[i] == x0[ind[i]];
    RunValues(x0, x, ind, i, e);
  }

  /**
   * Every position the scan does not check as rising, except the last,
   * lies strictly below the next one.
   */
  ghost predicate ValleysRise(x: seq<real>, ii0: int)
  {
    forall q :: 0 <= q < |x| - 1 && !Checked(ii0, q) ==> x[q] < x[q + 1]
  }

  /**
   * More than two framed extrema alternate from the start: the first three
   * never move the same way, and starting the scan at the first or second
   * position, whichever is higher, checks every extremum that rises no
   * further.
   */
  lemma FramedZigzag(x0: seq<real>, x: seq<real>, ind: seq<int>)
    requires FramedExtrema(x0, x, ind) && |x| > 2
    ensures (x[0] < x[1]) == (x[2] <= x[1])
    ensures ValleysRise(x, if x[0] >= x[1] then 0 else 1)
  {
    ExtremaAlternate(x0, x, ind, 0);
    ExtremaAlternate(x0, x, ind, 1);
    var ii0 := if x[0] >= x[1] then 0 else 1;
    forall q | 0 <= q < |x| - 1 && !Checked(ii0, q) ensures x[q] < x[q + 1] {
      ExtremaAlternate(x0, x, ind, q);
    }
  }

  /** When every unchecked position rises to the next, the first largest one is checked or last. */
  lemma TopChecked(x: seq<real>, sel: real, minMag: real, ii0: int)
    requires |x| > 0 && ValleysRise(x, ii0) && x[FirstTop(x)] > minMag + sel
    ensures TopEligible(x, sel, minMag, ii0)
  {
  }

  /**
   * The first largest sample of x0 is a framed extremum, and it is the
   * first largest extremum: ind points at TopIndex(x0) there.
   */
  lemma TopOfExtrema(x0: seq<real>, x: seq<real>, ind: seq<int>)
    requires FramedExtrema(x0, x, ind)
    ensures ind[FirstTop(x)] == TopIndex(x0) && x[FirstTop(x)] == x0[FirstTop(x0)]
  {
    var j := FirstTop(x0);
    var v := Extended(x0);
    if 0 < j < |x0| - 1 {
      assert Slope(x0, j - 1) > 0.0 && Slope(x0, j) < 0.0;
      SignsAgree(Slope(x0, j - 1), Slope(x0, j));
      assert SlopeChangesSign(x0, j);
    }
    var m :| 0 <= m < |ind| && ind[m] == TopIndex(x0);
    assert x[m] == v[ind[m]];
    if j == |x0| - 1 {
      assert TopIndex(x0) == |x0|;
      assert ind[m] == |x0|;
    } else {
      assert TopIndex(x0) == j;
      assert ind[m] == j;
    }
    assert x[m] == x0[j];
    forall m' | 0 <= m' < |x| ensures x[m'] <= x[m] && (m' < m ==> x[m'] < x[m]) {
      assert x[m'] == v[ind[m']];
      assert ind[m'] != |x0| - 1;
      if ind[m'] < |x0| {
        assert x[m'] == x0[ind[m']];
      }
      if m' < m {
        assert ind[m'] < ind[m];
      }
    }
  }

  /** The last smallest sample of x0 is a framed extremum, so the extrema reach x0's minimum. */
  lemma BottomOfExtrema(x0: seq<real>, x: seq<real>, ind: seq<int>)
    requires FramedExtrema(x0, x, ind)
    ensures SeqMin(x) <= SeqMin(x0)
  {
    var b := LastBottom(x0);
    if 0 < b < |x0| - 1 {
      assert Slope(x0, b - 1) < 0.0 && Slope(x0, b) > 0.0;
      SignsAgree(Slope(x0, b - 1), Slope(x0, b));
      assert SlopeChangesSign(x0, b);
    }
    var k := if b == |x0| - 1 then |x0| else b;
    var m :| 0 <= m < |ind| && ind[m] == k;
    assert x[m] == x0[b];
  }

  /** A signal whose slope changes sign is not constant: its largest sample exceeds its smallest. */
  lemma TurnRange(x0: seq<real>)
    requires |x0| >= 2 && HasTurn(x0)
    ensures x0[FirstTop(x0)] > SeqMin(x0)
  {
    var k :| SlopeChangesSign(x0, k);
    SignsAgree(Slope(x0, k - 1), Slope(x0, k));
    var j := if Slope(x0, k - 1) > 0.0 then k - 1 else k;
    assert x0[j + 1] > x0[j] >= SeqMin(x0);
  }

  /**
   * The scan's peaks, read through the trimmed extrema, are increasing
   * candidates of x0 that follow the peak rule over x0, and there is one
   * when x0's last sample lies more than sel above minMag.
   */
  lemma ScanLifted(x0: seq<real>, x: seq<real>, ind: seq<int>, sel: real, minMag: real, ii0: int,
                   peakLoc: seq<int>, peakInds: seq<int>)
    requires |x0| >= 2 && SeqMin(x0) <= minMag
    requires |x| >= 2 && ValuesAt(Extended(x0), x, ind) && x[|x| - 1] == x0[|x0| - 1]
    requires StrictlyIncreasing(ind) && Candidates(x0, ind)
    requires ScanResult(x, sel, minMag, ii0, peakLoc)
    requires |peakInds| == |peakLoc| && forall k :: 0 <= k < |peakLoc| ==> peakInds[k] == ind[peakLoc[k]]
    ensures StrictlyIncreasing(peakInds) && Candidates(x0, peakInds)
    ensures Prominent(Extended(x0), sel, SeqMin(x0), peakInds)
    ensures x0[|x0| - 1] > minMag + sel ==> |peakInds| > 0
    ensures TopEligible(x, sel, minMag, ii0) ==> ind[FirstTop(x)] in peakInds
  {
    if TopEligible(x, sel, minMag, ii0) {
      var k :| 0 <= k < |peakLoc| && peakLoc[k] == FirstTop(x);
      assert peakInds[k] == ind[FirstTop(x)];
    }
    SelectedKeeps(x0, ind, peakLoc, peakInds);
    ProminentLifted(Extended(x0), x, ind, sel, minMag, SeqMin(x0), peakLoc, peakInds);
  }

  /**
   * `findPeaks`: indices of the peaks of `x0`.  Each is 0, a point where the
   * slope changes sign, or `|x0|` (one past the last sample, which callers must
   * filter out, reading the last sample); they are strictly increasing and
   * follow the peak rule with a quarter of x0's range as selectivity: each
   * stands more than that above x0's minimum, and x0 falls more than that
   * between any two consecutive peaks and rises more than that again.  A
   * signal without any sign change has no peaks; one with a sign change
   * whose last sample lies more than the selectivity above its first has at
   * least one.
   */
  method FindPeaks(x0: seq<real>, sign: int) returns (peakInds: seq<int>)
    requires |x0| >= 2
    ensures StrictlyIncreasing(peakInds) && Candidates(x0, peakInds)
    ensures Prominent(Extended(x0), Selectivity(x0), SeqMin(x0), peakInds)
    ensures !HasTurn(x0) ==> peakInds == []
    ensures HasTurn(x0) && x0[|x0| - 1] > x0[0] + Selectivity(x0) ==> |peakInds| > 0
    ensures sign != 0 && HasTurn(x0) ==> TopIndex(x0) in peakInds
  {
    var sel := Selectivity(x0);
    var x, ind := Extrema(x0);
    var minMag := SeqMin(x);
    var len := |x|;
    peakInds := [];
    ghost var v := Extended(x0);
    ExtremaAboveMin(x0, x, ind, minMag);
    if len > 2 {
      assert minMag <= x[0] == x0[0] && x[len - 1] == x0[|x0| - 1];
      peakInds := ScanExtrema(x0, x, ind, sign, sel, minMag);
      TopPeak(x0, x, ind, sign, peakInds);
    }
  }

  /** The scan's top peak, read through ind, is x0's first largest sample (or |x0| for the last). */
  lemma TopPeak(x0: seq<real>, x: seq<real>, ind: seq<int>, sign: int, peakInds: seq<int>)
    requires FramedExtrema(x0, x, ind) && HasTurn(x0)
    requires sign != 0 && x[FirstTop(x)] > SeqMin(x) + Selectivity(x0) ==> ind[FirstTop(x)] in peakInds
    ensures sign != 0 ==> TopIndex(x0) in peakInds
  {
    TopOfExtrema(x0, x, ind);
    TopClears(x0, x, ind);
  }

  /**
   * With a sign change, x0's largest sample stands more than a quarter of
   * its range above the smallest extremum, which is x0's minimum.
   */
  lemma TopClears(x0: seq<real>, x: seq<real>, ind: seq<int>)
    requires FramedExtrema(x0, x, ind) && HasTurn(x0)
    ensures x[FirstTop(x)] > SeqMin(x) + Selectivity(x0)
  {
    TopOfExtrema(x0, x, ind);
    BottomOfExtrema(x0, x, ind);
    ExtremaAboveMin(x0, x, ind, SeqMin(x));
    TurnRange(x0);
    assert SeqMax(x0) == x0[FirstTop(x0)];
  }

  /**
   * The body of `findPeaks` once there are more than two extrema: drop a
   * first point that does not alternate, scan, and read the peaks' indices
   * into x0 back through ind.
   */
  method ScanExtrema(x0: seq<real>, x: seq<real>, ind: seq<int>, sign: int, sel: real, minMag: real)
    returns (peakInds: seq<int>)
    requires FramedExtrema(x0, x, ind) && |x| > 2 && x[|x| - 1] == x0[|x0| - 1]
    requires sel >= 0.0 && SeqMin(x0) <= minMag
    requires forall i :: 0 <= i < |x| ==> minMag <= x[i]
    ensures StrictlyIncreasing(peakInds) && Candidates(x0, peakInds)
    ensures Prominent(Extended(x0), sel, SeqMin(x0), peakInds)
    ensures x0[|x0| - 1] > minMag + sel ==> |peakInds| > 0
    ensures sign != 0 && x[FirstTop(x)] > minMag + sel ==> ind[FirstTop(x)] in peakInds
  {
    var xt, indt := TrimStart(x0, x, ind, sign, minMag);
    var ii0 := if xt[0] >= xt[1] then 0 else 1;
    var peakLoc := ScanPeaks(xt, sel, minMag, ii0);
    peakInds := SelectElements(indt, peakLoc);
    ScanLifted(x0, xt, indt, sel, minMag, ii0, peakLoc, peakInds);
    if sign != 0 && x[FirstTop(x)] > minMag + sel {
      FramedZigzag(x0, x, ind);
      TopChecked(x, sel, minMag, ii0);
    }
  }
}
