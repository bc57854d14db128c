/**
 * The pitch tracker of controller/pitchcontroller.cpp: a normalised
 * cross-correlation pitch estimator run window by window from a sample
 * cursor, with run-length gating of voiced points through a small
 * buffer, and the range and voicing queries over the stored series.
 */
module PitchController {
  import opened Wrappers
  import opened CNum
  import Routines
  import Util
  import AudioTrack

  /** The tracker's parameters, fixed by its constructor. */
  const F0Min: real := 50.0
  const F0Max: real := 600.0
  const CandTr: real := 0.3
  const LagWt: real := 0.3
  const VoBias: real := -0.2
  const NCands: int := 20
  /** The correlation window, in seconds. */
  const CorrWindow: real := 0.0075

  /** `std::numeric_limits<double>::min()`, the smallest positive normal double, 2^-1022. */
  const DblMin: real := 1.0 / 0x4000000000000000000000000000000000000000000000000000000000000000000000000000000000000000000000000000000000000000000000000000000000000000000000000000000000000000000000000000000000000000000000000000000000000000000000000000000000000000000000000000000000000 as real

  /** `std::round`: to the nearest integer, halves away from zero. */
  function Round(x: real): int
  {
    Routines.ERound(x)
  }

  /**
   * The sample cursor carried over a change of sample rate: the same
   * instant, in samples of the new rate, to the nearest sample.
   */
  function RescaledCursor(lastTime: int, lastRate: real, fs: real): (c: int)
    requires lastRate != 0.0
  {
    Round((lastTime as real / lastRate) * fs)
  }

  /**
   * The rescaled cursor marks the same instant to within half a sample of
   * the new rate, and a cursor at or after the start stays there.
   */
  lemma RescaledCursorKeepsTime(lastTime: int, lastRate: real, fs: real)
    requires lastRate > 0.0 && fs > 0.0 && lastTime >= 0
    ensures var c := RescaledCursor(lastTime, lastRate, fs);
            c >= 0 && lastTime as real / lastRate - 0.5 / fs <= c as real / fs <= lastTime as real / lastRate + 0.5 / fs
  {
    var a := lastTime as real / lastRate;
    var c := RescaledCursor(lastTime, lastRate, fs);
    assert a >= 0.0;
    WithinHalfScaled(a, c as real, fs);
  }

  /** A value within half of a·f is, divided by f, within half of 1/f of a. */
  lemma WithinHalfScaled(a: real, c: real, f: real)
    requires f > 0.0 && a * f - 0.5 <= c <= a * f + 0.5
    ensures a - 0.5 / f <= c / f <= a + 0.5 / f
  {
    var d := c - a * f;
    assert c / f == a + d / f;
    assert -0.5 / f <= d / f <= 0.5 / f;
  }

  /** The window sizes `updateIfNeeded` derives from the sample rate. */
  datatype Params = Params(n: int, K: int, wl: int, fds: real, dsn: int, dsK1: int, dsK2: int, dswl: int, beta: real)

  /**
   * n and K, the correlation window and the longest lag at the sample rate;
   * the downsampled rate Fds near 4·F0max and the same sizes at that rate;
   * and the lag weight beta.
   */
  function Derive(fs: real): Params
    requires fs >= 1200.0
  {
    var n := Round(CorrWindow * fs);
    var K := Round(fs / F0Min);
    var r := Round(fs / (4.0 * F0Max));
    DivisorPositive(fs);
    var fds := Round(fs / r as real) as real;
    var dsn := Round(CorrWindow * fds);
    var dsK2 := Round(fds / F0Min);
    Params(n, K, n + K, fds, dsn, Round(fds / F0Max), dsK2, dsn + dsK2, LagWt / (fs / F0Min))
  }

  /** Above 1200 Hz the rate divisor of the downsampled rate is at least one and at most fs/1200. */
  lemma DivisorPositive(fs: real)
    requires fs >= 1200.0
    ensures var r := Round(fs / (4.0 * F0Max)); r >= 1 && r as real * 1200.0 <= fs
  {
  }

  /** What the analysis loop needs of the window sizes. */
  predicate ParamsOk(p: Params)
  {
    p.n >= 1 && p.K >= 2 && p.wl == p.n + p.K && p.fds > 0.0 &&
    p.dsn >= 0 && 0 <= p.dsK1 <= p.dsK2 && p.dsK2 >= 2 && p.dswl == p.dsn + p.dsK2
  }

  /**
   * From 1200 Hz up the derived sizes are usable: both correlation vectors
   * have at least three lags, the downsampled lag range is not empty and
   * the analysis window is not empty, so the cursor moves on.
   */
  lemma DeriveOk(fs: real)
    requires fs >= 1200.0
    ensures ParamsOk(Derive(fs))
  {
    var r := Round(fs / (4.0 * F0Max));
    DivisorPositive(fs);
    QuotientAtLeast(fs, r as real, 1200.0);
    var q := fs / r as real;
    RoundAtLeast(q, 1200);
    var fds := Round(q) as real;
    RoundAtLeast(CorrWindow * fs, 9);
    RoundAtLeast(fs / F0Min, 24);
    RoundAtLeast(CorrWindow * fds, 9);
    RoundAtLeast(fds / F0Min, 24);
    RoundAtLeast(fds / F0Max, 2);
    assert Round(fds / F0Max) as real <= fds / F0Max + 0.5;
    assert fds / F0Min - 0.5 <= Round(fds / F0Min) as real;
  }

  /** A value at least m rounds to at least m. */
  lemma RoundAtLeast(x: real, m: int)
    requires x >= m as real
    ensures Round(x) >= m
  {
  }

  /** d·b <= a with d > 0 gives a / d >= b. */
  lemma QuotientAtLeast(a: real, d: real, b: real)
    requires d > 0.0 && d * b <= a
    ensures a / d >= b
  {
    assert (a / d) * d == a;
  }

  // ---------------------------------------------------------------------
  // Reference mean

  /** The sum of a sequence, element by element from the front. */
  function Sum(s: seq<real>): real
    decreases |s|
  {
    if |s| == 0 then 0.0 else Sum(s[..|s| - 1]) + s[|s| - 1]
  }

  /** Subtracting c from every element takes |s|·c off the sum. */
  lemma {:induction false} SumShifted(s: seq<real>, t: seq<real>, c: real)
    requires |t| == |s| && forall j :: 0 <= j < |s| ==> t[j] == s[j] - c
    ensures Sum(t) == Sum(s) - |s| as real * c
    decreases |s|
  {
    if |s| > 0 {
      SumShifted(s[..|s| - 1], t[..|t| - 1], c);
    }
  }

  /** out is s less its mean (the same length, and empty for an empty s). */
  predicate Centred(out: seq<real>, s: seq<real>)
  {
    |out| == |s| && (|s| > 0 ==> forall j :: 0 <= j < |s| ==> out[j] == s[j] - Mean(s))
  }

  /** `subtractReferenceMean`: every sample minus the mean of all of them. */
  method SubtractReferenceMean(s: seq<real>) returns (out: seq<real>)
    ensures Centred(out, s)
  {
    var mu := 0.0;
    for j := 0 to |s|
      invariant mu == Sum(s[..j])
    {
      assert s[..j + 1][..j] == s[..j];
      mu := mu + s[j];
    }
    assert s[..|s|] == s;
    out := s;
    if |s| == 0 {
      return;
    }
    mu := mu / |s| as real;
    for j := 0 to |s|
      invariant |out| == |s|
      invariant forall i :: 0 <= i < j ==> out[i] == s[i] - mu
      invariant forall i :: j <= i < |s| ==> out[i] == s[i]
    {
      out := out[j := out[j] - mu];
    }
  }

  /** After the mean is subtracted the samples sum to zero. */
  lemma MeanRemoved(s: seq<real>, out: seq<real>)
    requires |s| > 0 && |out| == |s|
    requires forall j :: 0 <= j < |s| ==> out[j] == s[j] - Mean(s)
    ensures Sum(out) == 0.0
  {
    SumShifted(s, out, Mean(s));
    MeanTimesCount(s);
  }

  /** The arithmetic mean of a non-empty sequence. */
  function Mean(s: seq<real>): real
    requires |s| > 0
  {
    Sum(s) / |s| as real
  }

  /** |s| copies of the mean make up the sum. */
  lemma MeanTimesCount(s: seq<real>)
    requires |s| > 0
    ensures |s| as real * Mean(s) == Sum(s)
  {
  }

  // ---------------------------------------------------------------------
  // Normalised cross-correlation

  /** The lagged product sum Σ_{j<n} s[a+j]·s[b+j]. */
  function Dot(s: seq<real>, a: int, b: int, n: int): real
    requires 0 <= a && 0 <= b && 0 <= n && a + n <= |s| && b + n <= |s|
    decreases n
  {
    if n == 0 then 0.0 else Dot(s, a, b, n - 1) + s[a + n - 1] * s[b + n - 1]
  }

  /** The product sum does not depend on which window is called the lagged one. */
  lemma {:induction false} DotSymmetric(s: seq<real>, a: int, b: int, n: int)
    requires 0 <= a && 0 <= b && 0 <= n && a + n <= |s| && b + n <= |s|
    ensures Dot(s, a, b, n) == Dot(s, b, a, n)
    decreases n
  {
    if n > 0 {
      DotSymmetric(s, a, b, n - 1);
    }
  }

  /** The accumulation loops of the correlation: one product sum. */
  method DotLoop(s: seq<real>, a: int, b: int, n: int) returns (v: real)
    requires 0 <= a && 0 <= b && 0 <= n && a + n <= |s| && b + n <= |s|
    ensures v == Dot(s, a, b, n)
  {
    v := 0.0;
    for j := 0 to n
      invariant v == Dot(s, a, b, j)
    {
      v := v + s[a + j] * s[b + j];
    }
  }

  /** A quotient, zero for a zero denominator (the source's NaN or infinity). */
  function Ratio(p: real, d: real): real
  {
    if d == 0.0 then 0.0 else p / d
  }

  /** The correlation p normalised by the energies e0 and q: p / sqrt(e0·q). */
  function Normalised(p: real, e0: real, q: real, sqrt: real -> real): real
  {
    Ratio(p, sqrt(e0 * q))
  }

  /** The normalised correlation at lag k of the n samples from a. */
  function NccfValue(s: seq<real>, a: int, k: int, n: int, sqrt: real -> real): real
    requires 0 <= a && 0 <= k && 0 <= n && a + k + n <= |s|
  {
    Normalised(Dot(s, a, a + k, n), Dot(s, a, a, n), Dot(s, a + k, a + k, n), sqrt)
  }

  /**
   * `calculateDownsampledNCCF`: the correlation at every lag from dsK1 to
   * dsK2 of the downsampled window; the other entries are left as they were.
   */
  method CalculateDownsampledNccf(dss: seq<real>, dsn: int, dsK1: int, dsK2: int, nccf0: seq<real>,
                                  sqrt: real -> real) returns (nccf: seq<real>)
    requires 0 <= dsK1 && dsK2 < |nccf0| && 0 <= dsn && dsn <= |dss| && dsn + dsK2 <= |dss|
    ensures |nccf| == |nccf0|
    ensures forall k :: 0 <= k < |nccf| ==>
              nccf[k] == if dsK1 <= k <= dsK2 then NccfValue(dss, 0, k, dsn, sqrt) else nccf0[k]
  {
    var dse0 := DotLoop(dss, 0, 0, dsn);
    nccf := nccf0;
    var k := dsK1;
    while k <= dsK2
      invariant dsK1 <= k && (k <= dsK2 + 1 || k == dsK1) && |nccf| == |nccf0|
      invariant k > dsK2 ==> k == dsK2 + 1 || k == dsK1
      invariant forall i :: 0 <= i < |nccf| ==>
                  nccf[i] == if dsK1 <= i < k then NccfValue(dss, 0, i, dsn, sqrt) else nccf0[i]
      decreases dsK2 - k
    {
      var p := DotLoop(dss, 0, k, dsn);
      var q := DotLoop(dss, k, k, dsn);
      nccf := nccf[k := Normalised(p, dse0, q, sqrt)];
      k := k + 1;
    }
  }

  // ---------------------------------------------------------------------
  // The lag set of the full-rate correlation

  /** A downsampled peak's lag scaled to the full rate. */
  function CoarseLag(dsk: real, fs: real, fds: real): int
    requires fds != 0.0
  {
    Round((fs * dsk) / fds)
  }

  /** x as a lag, when it is one of 0..K. */
  function InLag(x: int, K: int): seq<int>
  {
    if 0 <= x <= K then [x] else []
  }

  /** The lags pushed for a coarse lag k after l rounds: k, then k-1, k+1, …, k-l, k+l, each kept when in 0..K. */
  function Around(k: int, l: nat, K: int): seq<int>
  {
    if l == 0 then InLag(k, K) else Around(k, l - 1, K) + InLag(k - l, K) + InLag(k + l, K)
  }

  /** Around(k, l, K) holds exactly the lags in 0..K within l of k. */
  lemma {:induction false} AroundMembers(k: int, l: nat, K: int)
    ensures forall x :: x in Around(k, l, K) <==> 0 <= x <= K && k - l <= x <= k + l
  {
    if l > 0 {
      AroundMembers(k, l - 1, K);
    }
  }

  /** The lags pushed for the downsampled peaks, in push order. */
  function RawLags(dsPeaks: seq<(real, real)>, fs: real, fds: real, K: int): seq<int>
    requires fds != 0.0
    decreases |dsPeaks|
  {
    if |dsPeaks| == 0 then []
    else RawLags(dsPeaks[..|dsPeaks| - 1], fs, fds, K) + Around(CoarseLag(dsPeaks[|dsPeaks| - 1].0, fs, fds), 3, K)
  }

  /**
   * The lags computed at the full rate are exactly those in 0..K within 3
   * of some downsampled peak's scaled lag.
   */
  lemma {:induction false} RawLagsMembers(dsPeaks: seq<(real, real)>, fs: real, fds: real, K: int, x: int)
    requires fds != 0.0
    ensures x in RawLags(dsPeaks, fs, fds, K) <==>
            0 <= x <= K && exists i :: 0 <= i < |dsPeaks| && -3 <= x - CoarseLag(dsPeaks[i].0, fs, fds) <= 3
  {
    if x in RawLags(dsPeaks, fs, fds, K) {
      var i := RawLagsSound(dsPeaks, fs, fds, K, x);
    }
    if 0 <= x <= K && exists i :: 0 <= i < |dsPeaks| && -3 <= x - CoarseLag(dsPeaks[i].0, fs, fds) <= 3 {
      var i :| 0 <= i < |dsPeaks| && -3 <= x - CoarseLag(dsPeaks[i].0, fs, fds) <= 3;
      RawLagsComplete(dsPeaks, fs, fds, K, x, i);
    }
  }

  /** Every pushed lag lies in 0..K and within 3 of the scaled lag of peak i. */
  lemma {:induction false} RawLagsSound(dsPeaks: seq<(real, real)>, fs: real, fds: real, K: int, x: int)
    returns (i: int)
    requires fds != 0.0 && x in RawLags(dsPeaks, fs, fds, K)
    ensures 0 <= x <= K && 0 <= i < |dsPeaks| && -3 <= x - CoarseLag(dsPeaks[i].0, fs, fds) <= 3
    decreases |dsPeaks|
  {
    var last := |dsPeaks| - 1;
    var prefix := dsPeaks[..last];
    AroundMembers(CoarseLag(dsPeaks[last].0, fs, fds), 3, K);
    if x in RawLags(prefix, fs, fds, K) {
      i := RawLagsSound(prefix, fs, fds, K, x);
      assert dsPeaks[i] == prefix[i];
    } else {
      i := last;
    }
  }

  /** Every lag in 0..K within 3 of the scaled lag of peak i is pushed. */
  lemma {:induction false} RawLagsComplete(dsPeaks: seq<(real, real)>, fs: real, fds: real, K: int, x: int, i: int)
    requires fds != 0.0 && 0 <= x <= K && 0 <= i < |dsPeaks| && -3 <= x - CoarseLag(dsPeaks[i].0, fs, fds) <= 3
    ensures x in RawLags(dsPeaks, fs, fds, K)
    decreases |dsPeaks|
  {
    var last := |dsPeaks| - 1;
    var prefix := dsPeaks[..last];
    if i < last {
      assert prefix[i] == dsPeaks[i];
      RawLagsComplete(prefix, fs, fds, K, x, i);
    } else {
      AroundMembers(CoarseLag(dsPeaks[last].0, fs, fds), 3, K);
    }
  }

  /** Appending b, c and d one by one appends their concatenation. */
  lemma Regroup(a: seq<int>, b: seq<int>, c: seq<int>, d: seq<int>)
    ensures a + b + c + d == a + (b + c + d)
  {
  }

  /** One guarded push: x is appended when it is a lag in 0..K. */
  method PushIfLag(lags0: seq<int>, x: int, K: int) returns (lags: seq<int>)
    ensures lags == lags0 + InLag(x, K)
  {
    lags := lags0;
    if x >= 0 && x <= K {
      lags := lags + [x];
    }
  }

  /** The pushes for one coarse lag k: k, then k-l and k+l for l from 1 to 3, each when in 0..K. */
  method PushAround(lags0: seq<int>, k: int, K: int) returns (lags: seq<int>)
    ensures lags == lags0 + Around(k, 3, K)
  {
    lags := PushIfLag(lags0, k, K);
    for l := 1 to 4
      invariant lags == lags0 + Around(k, l - 1, K)
    {
      ghost var done := Around(k, l - 1, K);
      lags := PushIfLag(lags, k - l, K);
      lags := PushIfLag(lags, k + l, K);
      Regroup(lags0, done, InLag(k - l, K), InLag(k + l, K));
    }
  }

  /** The push loops of `calculateOriginalNCCF`. */
  method BuildLags(dsPeaks: seq<(real, real)>, fs: real, fds: real, K: int) returns (lags: seq<int>)
    requires fds != 0.0
    ensures lags == RawLags(dsPeaks, fs, fds, K)
  {
    lags := [];
    for i := 0 to |dsPeaks|
      invariant lags == RawLags(dsPeaks[..i], fs, fds, K)
    {
      assert dsPeaks[..i + 1][..i] == dsPeaks[..i];
      var k := CoarseLag(dsPeaks[i].0, fs, fds);
      assert dsPeaks[..i + 1][i] == dsPeaks[i];
      lags := PushAround(lags, k, K);
    }
    assert dsPeaks[..|dsPeaks|] == dsPeaks;
  }

  /** x put into a strictly increasing sequence, unless it is already there. */
  function InsertUnique(x: int, s: seq<int>): (r: seq<int>)
    requires Util.StrictlyIncreasing(s)
    ensures Util.StrictlyIncreasing(r)
    ensures forall y :: y in r <==> y == x || y in s
    decreases |s|
  {
    if |s| == 0 then [x]
    else if x < s[0] then [x] + s
    else if x == s[0] then s
    else
      var rest := InsertUnique(x, s[1..]);
      ConsIncreasing(s[0], rest);
      [s[0]] + rest
  }

  /** A head below every element of a strictly increasing tail keeps it strictly increasing. */
  lemma ConsIncreasing(h: int, rest: seq<int>)
    requires Util.StrictlyIncreasing(rest) && forall y :: y in rest ==> h < y
    ensures Util.StrictlyIncreasing([h] + rest)
  {
    var r := [h] + rest;
    forall i, j | 0 <= i < j < |r| ensures r[i] < r[j] {
      assert r[j] == rest[j - 1] && rest[j - 1] in rest;
      if i > 0 {
        assert r[i] == rest[i - 1];
      } else {
        assert r[i] == h;
      }
    }
  }

  /** `std::sort` then `std::unique` and `erase`: the distinct values in increasing order. */
  method SortUnique(xs: seq<int>) returns (ys: seq<int>)
    ensures Util.StrictlyIncreasing(ys)
    ensures forall y :: y in ys <==> y in xs
  {
    ys := [];
    for i := 0 to |xs|
      invariant Util.StrictlyIncreasing(ys)
      invariant forall y :: y in ys <==> y in xs[..i]
    {
      assert xs[..i + 1] == xs[..i] + [xs[i]];
      ys := InsertUnique(xs[i], ys);
    }
    assert xs[..|xs|] == xs;
  }

  /** The fill loop of `calculateOriginalNCCF`: zeros, then the correlation at each listed lag. */
  method FillLags(s: seq<real>, off: int, n: int, K: int, lags: seq<int>, sqrt: real -> real)
    returns (nccf: seq<real>)
    requires 0 <= off && 0 <= n && 0 <= K && off + n + K <= |s|
    requires forall x :: x in lags ==> 0 <= x <= K
    ensures |nccf| == K + 1
    ensures forall k :: 0 <= k <= K ==> nccf[k] == if k in lags then NccfValue(s, off, k, n, sqrt) else 0.0
  {
    nccf := seq(K + 1, _ => 0.0);
    var e0 := DotLoop(s, off, off, n);
    for i := 0 to |lags|
      invariant |nccf| == K + 1
      invariant forall j :: 0 <= j <= K ==>
                  nccf[j] == if j in lags[..i] then NccfValue(s, off, j, n, sqrt) else 0.0
    {
      var k := lags[i];
      assert k in lags;
      assert lags[..i + 1] == lags[..i] + [k];
      var p := DotLoop(s, off, off + k, n);
      var q := DotLoop(s, off + k, off + k, n);
      nccf := nccf[k := Normalised(p, e0, q, sqrt)];
    }
    assert lags[..|lags|] == lags;
  }

  /**
   * `calculateOriginalNCCF`: the correlation of the n samples from `off` at
   * exactly the lags of the lag set, zero at every other lag up to K.  The
   * lag set is increasing, free of duplicates and holds the pushed lags.
   */
  method CalculateOriginalNccf(s: seq<real>, off: int, fs: real, fds: real, n: int, K: int,
                               dsPeaks: seq<(real, real)>, sqrt: real -> real)
    returns (nccf: seq<real>, ghost lags: seq<int>)
    requires fds != 0.0 && 0 <= off && 0 <= n && 0 <= K && off + n + K <= |s|
    ensures Util.StrictlyIncreasing(lags) && forall x :: x in lags <==> x in RawLags(dsPeaks, fs, fds, K)
    ensures |nccf| == K + 1
    ensures forall k :: 0 <= k <= K ==>
              nccf[k] == if k in RawLags(dsPeaks, fs, fds, K) then NccfValue(s, off, k, n, sqrt) else 0.0
  {
    var raw := BuildLags(dsPeaks, fs, fds, K);
    var lagsToCalculate := SortUnique(raw);
    lags := lagsToCalculate;
    forall x | x in lags ensures 0 <= x <= K {
      RawLagsMembers(dsPeaks, fs, fds, K, x);
    }
    nccf := FillLags(s, off, n, K, lagsToCalculate, sqrt);
    forall k | 0 <= k <= K
      ensures nccf[k] == if k in RawLags(dsPeaks, fs, fds, K) then NccfValue(s, off, k, n, sqrt) else 0.0
    {
      assert k in lags <==> k in RawLags(dsPeaks, fs, fds, K);
    }
  }

  // ---------------------------------------------------------------------
  // Peak picking

  /** Peaks ordered by descending correlation value. */
  predicate Descending(ps: seq<(real, real)>)
  {
    forall i, j :: 0 <= i < j < |ps| ==> ps[i].1 >= ps[j].1
  }

  /** x inserted into a descending sequence before the first element not above it. */
  function InsertDescending(x: (real, real), s: seq<(real, real)>): (r: seq<(real, real)>)
    requires Descending(s)
    ensures Descending(r) && multiset(r) == multiset(s) + multiset{x}
    ensures forall y :: y in r <==> y == x || y in s
    decreases |s|
  {
    if |s| == 0 then [x]
    else if x.1 >= s[0].1 then [x] + s
    else
      var rest := InsertDescending(x, s[1..]);
      assert s == [s[0]] + s[1..];
      ConsDescending(s[0], rest);
      [s[0]] + rest
  }

  /** A head at least as large as every element of a descending tail keeps it descending. */
  lemma ConsDescending(h: (real, real), rest: seq<(real, real)>)
    requires Descending(rest) && forall y :: y in rest ==> y.1 <= h.1
    ensures Descending([h] + rest)
  {
    var r := [h] + rest;
    forall i, j | 0 <= i < j < |r| ensures r[i].1 >= r[j].1 {
      assert r[j] == rest[j - 1] && rest[j - 1] in rest;
      if i > 0 {
        assert r[i] == rest[i - 1];
      } else {
        assert r[i] == h;
      }
    }
  }

  /** The `std::sort` of the peaks by descending value (ties in some order). */
  method SortDescending(xs: seq<(real, real)>) returns (ys: seq<(real, real)>)
    ensures Descending(ys) && multiset(ys) == multiset(xs)
  {
    ys := [];
    for i := 0 to |xs|
      invariant Descending(ys) && multiset(ys) == multiset(xs[..i])
    {
      assert xs[..i + 1] == xs[..i] + [xs[i]];
      ys := InsertDescending(xs[i], ys);
    }
    assert xs[..|xs|] == xs;
  }

  /** The maximum loop of `findPeaksWithThreshold`: the largest correlation value. */
  method MaxOf(x: seq<real>) returns (m: real)
    requires |x| > 0
    ensures m == Util.SeqMax(x)
  {
    // The source starts from the lowest double, which the first value
    // replaces; starting from that value gives the same maximum.
    m := x[0];
    for i := 1 to |x|
      invariant m in x[..i] && forall j :: 0 <= j < i ==> x[j] <= m
    {
      if x[i] > m {
        m := x[i];
      }
    }
    assert x[..|x|] == x;
    assert Util.SeqMax(x) <= m;
  }

  /** Peak index k is kept when it is a sample index whose value is above the threshold. */
  predicate Kept(nccf: seq<real>, k: int, threshold: real)
  {
    0 <= k < |nccf| && nccf[k] > threshold
  }

  /** The interpolated (lag, value) of every kept peak index, in index order. */
  function Filtered(nccf: seq<real>, idx: seq<int>, threshold: real): seq<(real, real)>
    requires |nccf| >= 2 && Util.Candidates(nccf, idx)
    decreases |idx|
  {
    if |idx| == 0 then []
    else
      var k := idx[|idx| - 1];
      var prefix := Filtered(nccf, idx[..|idx| - 1], threshold);
      if Kept(nccf, k, threshold) then prefix + [Util.ParabolicInterpolation(nccf, k)] else prefix
  }

  /** The candidates are exactly the interpolations at the kept peak indices. */
  lemma {:induction false} FilteredMembers(nccf: seq<real>, idx: seq<int>, threshold: real, c: (real, real))
    requires |nccf| >= 2 && Util.Candidates(nccf, idx)
    ensures c in Filtered(nccf, idx, threshold) <==>
            exists i :: 0 <= i < |idx| && Kept(nccf, idx[i], threshold) && c == Util.ParabolicInterpolation(nccf, idx[i])
    decreases |idx|
  {
    if |idx| > 0 {
      var last := |idx| - 1;
      var prefix := idx[..last];
      FilteredMembers(nccf, prefix, threshold, c);
      if c in Filtered(nccf, idx, threshold) && c in Filtered(nccf, prefix, threshold) {
        var i :| 0 <= i < |prefix| && Kept(nccf, prefix[i], threshold) && c == Util.ParabolicInterpolation(nccf, prefix[i]);
        assert idx[i] == prefix[i];
      }
      if exists i :: 0 <= i < |idx| && Kept(nccf, idx[i], threshold) && c == Util.ParabolicInterpolation(nccf, idx[i]) {
        var i :| 0 <= i < |idx| && Kept(nccf, idx[i], threshold) && c == Util.ParabolicInterpolation(nccf, idx[i]);
        if i < last {
          assert prefix[i] == idx[i];
        }
      }
    }
  }

  /** A kept peak index contributes its interpolation to the candidates. */
  lemma KeptFiltered(nccf: seq<real>, idx: seq<int>, threshold: real, j: int)
    requires |nccf| >= 2 && Util.Candidates(nccf, idx) && 0 <= j < |idx| && Kept(nccf, idx[j], threshold)
    ensures 0 <= idx[j] <= |nccf| - 2 && Util.ParabolicInterpolation(nccf, idx[j]) in Filtered(nccf, idx, threshold)
  {
    FilteredMembers(nccf, idx, threshold, Util.ParabolicInterpolation(nccf, idx[j]));
  }

  /** x·d == v with d != 0 fixes the sign of x. */
  lemma FactorSign(x: real, d: real, v: real)
    requires x * d == v && d != 0.0
    ensures d > 0.0 && v > 0.0 ==> x > 0.0
    ensures d > 0.0 && v < 0.0 ==> x < 0.0
    ensures d < 0.0 && v > 0.0 ==> x < 0.0
    ensures d < 0.0 && v < 0.0 ==> x > 0.0
    ensures v == 0.0 ==> x == 0.0
  {
  }

  /** A negative product has one negative and one positive factor. */
  lemma ProductNegative(x: real, y: real)
    requires x * y < 0.0
    ensures (x < 0.0 && y > 0.0) || (x > 0.0 && y < 0.0)
  {
  }

  /**
   * At a peak index (the first sample or a change of slope sign) the
   * interpolated lag lies within half a sample of the index, so its
   * truncation is a lag the interpolation can be evaluated at again.
   */
  lemma PeakLagUsable(a: seq<real>, k: int)
    requires |a| >= 3 && 0 <= k <= |a| - 2 && (k == 0 || Util.SlopeChangesSign(a, k))
    ensures 0 <= Trunc(Util.ParabolicInterpolation(a, k).0) <= |a| - 2
  {
    var r := Util.ParabolicInterpolation(a, k);
    if k >= 1 {
      HalfSampleOffset(a[k] - a[k - 1], a[k + 1] - a[k], Util.Slope(a, k - 1), Util.Slope(a, k), r.0 - k as real);
    }
  }

  /**
   * Slopes u then w of opposite signs (a zero slope counted as slightly
   * falling) put the stationary point t of the parabola within half a
   * sample of the middle one.
   */
  lemma HalfSampleOffset(u: real, w: real, su: real, sw: real, t: real)
    requires su == (if u == 0.0 then Util.FlatSlope else u) && sw == (if w == 0.0 then Util.FlatSlope else w)
    requires su * sw < 0.0
    requires w - u != 0.0 ==> (w - u) * t == -(u + w) / 2.0
    requires w - u == 0.0 ==> t == 0.0
    ensures -0.5 <= t <= 0.5
  {
    var den := w - u;
    ProductNegative(su, sw);
    if den != 0.0 {
      assert (2.0 * t - 1.0) * den == -2.0 * w;
      assert (2.0 * t + 1.0) * den == -2.0 * u;
      FactorSign(2.0 * t - 1.0, den, -2.0 * w);
      FactorSign(2.0 * t + 1.0, den, -2.0 * u);
    }
  }

  /** Every candidate's lag truncates to a usable lag. */
  lemma FilteredLagsUsable(nccf: seq<real>, idx: seq<int>, threshold: real, c: (real, real))
    requires |nccf| >= 3 && Util.Candidates(nccf, idx) && c in Filtered(nccf, idx, threshold)
    ensures 0 <= Trunc(c.0) <= |nccf| - 2
  {
    FilteredMembers(nccf, idx, threshold, c);
    var i :| 0 <= i < |idx| && Kept(nccf, idx[i], threshold) && c == Util.ParabolicInterpolation(nccf, idx[i]);
    PeakLagUsable(nccf, idx[i]);
  }

  /**
   * `findPeaksWithThreshold`: the interpolated peaks whose sample value is
   * above cand_tr times the largest value, in descending order of their
   * interpolated value, at most n_cands - 1 of them (the best ones).
   */
  method FindPeaksWithThreshold(nccf: seq<real>)
    returns (peaks: seq<(real, real)>, ghost allPeaks: seq<int>, ghost cands: seq<(real, real)>,
             ghost sorted: seq<(real, real)>, ghost at: seq<int>)
    requires |nccf| >= 2
    ensures Util.Candidates(nccf, allPeaks) && FromFoundPeaks(nccf, peaks, at, allPeaks)
    ensures BestOf(nccf, allPeaks, CandTr * Util.SeqMax(nccf), peaks, cands, sorted)
    ensures Descending(peaks) && |peaks| <= NCands - 1
    ensures |nccf| >= 3 ==> forall q :: q in peaks ==> 0 <= Trunc(q.0) <= |nccf| - 2
    ensures PeaksAt(nccf, at, peaks, CandTr * Util.SeqMax(nccf))
    ensures Util.HasTurn(nccf) && Util.FirstTop(nccf) < |nccf| - 1 && Util.SeqMax(nccf) > 0.0 ==> |peaks| > 0
  {
    var max := MaxOf(nccf);
    var threshold := CandTr * max;
    var found := Util.FindPeaks(nccf, 1);
    allPeaks := found;
    peaks, cands, sorted, at := BestAbove(nccf, found, threshold);
    assert FromFoundPeaks(nccf, peaks, at, allPeaks);
    TopCandidate(nccf, peaks, at, allPeaks);
  }

  /**
   * The candidates are the interpolations at the found indices above the
   * threshold; sorted is them best first, and peaks its first n_cands - 1,
   * each a candidate.
   */
  ghost predicate BestOf(nccf: seq<real>, found: seq<int>, threshold: real, peaks: seq<(real, real)>,
                         cands: seq<(real, real)>, sorted: seq<(real, real)>)
    requires |nccf| >= 2 && Util.Candidates(nccf, found)
  {
    cands == Filtered(nccf, found, threshold) &&
    Descending(sorted) && multiset(sorted) == multiset(cands) &&
    peaks == sorted[..Min(|sorted|, NCands - 1)] &&
    forall q :: q in peaks ==> q in cands
  }

  /**
   * The second half of `findPeaksWithThreshold`: the interpolated peaks at
   * the found indices above the threshold, sorted best first and cut to
   * n_cands - 1.
   */
  method BestAbove(nccf: seq<real>, found: seq<int>, threshold: real)
    returns (peaks: seq<(real, real)>, ghost cands: seq<(real, real)>, ghost sorted: seq<(real, real)>,
             ghost at: seq<int>)
    requires |nccf| >= 2 && Util.Candidates(nccf, found)
    ensures BestOf(nccf, found, threshold, peaks, cands, sorted)
    ensures Descending(peaks) && |peaks| <= NCands - 1
    ensures |nccf| >= 3 ==> forall q :: q in peaks ==> 0 <= Trunc(q.0) <= |nccf| - 2
    ensures PeaksAt(nccf, at, peaks, threshold)
    ensures forall i :: 0 <= i < |at| ==> at[i] in found
    ensures |peaks| == 0 ==> forall j :: 0 <= j < |found| ==> !Kept(nccf, found[j], threshold)
  {
    peaks := KeepAbove(nccf, found, threshold);
    cands := peaks;
    peaks := SortDescending(peaks);
    sorted := peaks;
    if |peaks| > NCands - 1 {
      peaks := peaks[..NCands - 1];
    }
    BestOfKept(nccf, found, threshold, cands, sorted, peaks);
    at := PeakWitnesses(nccf, found, threshold, peaks);
  }

  /** The first loop of `findPeaksWithThreshold`: the interpolated peaks at the indices above threshold. */
  method KeepAbove(nccf: seq<real>, found: seq<int>, threshold: real) returns (peaks: seq<(real, real)>)
    requires |nccf| >= 2 && Util.Candidates(nccf, found)
    ensures peaks == Filtered(nccf, found, threshold)
  {
    peaks := [];
    for i := 0 to |found|
      invariant peaks == Filtered(nccf, found[..i], threshold)
    {
      assert found[..i + 1][..i] == found[..i];
      var k := found[i];
      if k >= 0 && k < |nccf| && nccf[k] > threshold {
        peaks := peaks + [Util.ParabolicInterpolation(nccf, k)];
      }
    }
    assert found[..|found|] == found;
  }

  /**
   * The best of the kept peaks are kept peaks with usable lags, and there
   * are none only when no index clears the threshold.
   */
  lemma BestOfKept(nccf: seq<real>, found: seq<int>, threshold: real, cands: seq<(real, real)>,
                   sorted: seq<(real, real)>, peaks: seq<(real, real)>)
    requires |nccf| >= 2 && Util.Candidates(nccf, found) && cands == Filtered(nccf, found, threshold)
    requires multiset(sorted) == multiset(cands) && peaks == sorted[..Min(|sorted|, NCands - 1)]
    ensures forall q :: q in peaks ==> q in cands
    ensures |nccf| >= 3 ==> forall q :: q in peaks ==> 0 <= Trunc(q.0) <= |nccf| - 2
    ensures |peaks| == 0 ==> forall j :: 0 <= j < |found| ==> !Kept(nccf, found[j], threshold)
  {
    forall q | q in peaks ensures q in cands {
      assert q in multiset(sorted);
    }
    if |nccf| >= 3 {
      forall q | q in peaks ensures 0 <= Trunc(q.0) <= |nccf| - 2 {
        FilteredLagsUsable(nccf, found, threshold, q);
      }
    }
    forall j | 0 <= j < |found| && Kept(nccf, found[j], threshold) ensures |cands| > 0 {
      KeptFiltered(nccf, found, threshold, j);
    }
    if |peaks| == 0 {
      assert |multiset(cands)| == |multiset(sorted)| == 0;
    }
  }

  /**
   * The sample indices behind the peaks are among `all`, the peaks
   * `findPeaks` finds in nccf, so each follows its peak rule; there is such
   * a peak when the correlation turns and ends high enough, and the peaks
   * are empty only when none of `all` clears the threshold.
   */
  ghost predicate FromFoundPeaks(nccf: seq<real>, peaks: seq<(real, real)>, at: seq<int>, all: seq<int>)
  {
    |nccf| >= 2 && Util.StrictlyIncreasing(all) &&
    Util.Prominent(Util.Extended(nccf), Util.Selectivity(nccf), Util.SeqMin(nccf), all) &&
    (forall i :: 0 <= i < |at| ==> at[i] in all) &&
    (Util.HasTurn(nccf) && nccf[|nccf| - 1] > nccf[0] + Util.Selectivity(nccf) ==> |all| > 0) &&
    (Util.HasTurn(nccf) ==> Util.TopIndex(nccf) in all) &&
    (|peaks| == 0 ==> forall j :: 0 <= j < |all| ==> !Kept(nccf, all[j], CandTr * Util.SeqMax(nccf)))
  }

  /**
   * A correlation that turns, peaks before its last sample and has a
   * positive maximum yields a peak: its first largest sample is found and
   * clears the threshold, a fraction of that maximum.
   */
  lemma TopCandidate(nccf: seq<real>, peaks: seq<(real, real)>, at: seq<int>, all: seq<int>)
    requires FromFoundPeaks(nccf, peaks, at, all)
    ensures Util.HasTurn(nccf) && Util.FirstTop(nccf) < |nccf| - 1 && Util.SeqMax(nccf) > 0.0 ==> |peaks| > 0
  {
    var t := Util.FirstTop(nccf);
    if Util.HasTurn(nccf) && t < |nccf| - 1 && Util.SeqMax(nccf) > 0.0 {
      assert nccf[t] == Util.SeqMax(nccf);
      var j :| 0 <= j < |all| && all[j] == Util.TopIndex(nccf);
      assert Kept(nccf, all[j], CandTr * Util.SeqMax(nccf));
    }
  }

  /**
   * Every peak drawn from the found peaks stands more than a quarter of the
   * correlation's range above its minimum.
   */
  lemma FoundPeaksStandOut(nccf: seq<real>, peaks: seq<(real, real)>, at: seq<int>, all: seq<int>)
    requires FromFoundPeaks(nccf, peaks, at, all)
    ensures forall i :: 0 <= i < |at| ==>
      0 <= at[i] <= |nccf| && Util.Extended(nccf)[at[i]] > Util.SeqMin(nccf) + Util.Selectivity(nccf)
  {
    forall i | 0 <= i < |at|
      ensures 0 <= at[i] <= |nccf| && Util.Extended(nccf)[at[i]] > Util.SeqMin(nccf) + Util.Selectivity(nccf)
    {
      var j :| 0 <= j < |all| && all[j] == at[i];
    }
  }

  /** The sample index behind each peak drawn from the candidates. */
  lemma {:induction false} PeakWitnesses(nccf: seq<real>, idx: seq<int>, threshold: real, peaks: seq<(real, real)>)
    returns (at: seq<int>)
    requires |nccf| >= 2 && Util.Candidates(nccf, idx)
    requires forall q :: q in peaks ==> q in Filtered(nccf, idx, threshold)
    ensures PeaksAt(nccf, at, peaks, threshold)
    ensures forall j :: 0 <= j < |at| ==> at[j] in idx
    decreases |peaks|
  {
    if |peaks| == 0 {
      return [];
    }
    var last := |peaks| - 1;
    var prefix := peaks[..last];
    assert forall q :: q in prefix ==> q in peaks;
    var front := PeakWitnesses(nccf, idx, threshold, prefix);
    assert peaks[last] in peaks;
    FilteredMembers(nccf, idx, threshold, peaks[last]);
    var j :| 0 <= j < |idx| && Kept(nccf, idx[j], threshold) &&
             peaks[last] == Util.ParabolicInterpolation(nccf, idx[j]);
    at := front + [idx[j]];
    assert forall i :: 0 <= i < last ==> peaks[i] == prefix[i] && at[i] == front[i];
  }

  /** q is the interpolation at a sample index k whose value exceeds the threshold. */
  predicate PeakAt(nccf: seq<real>, k: int, q: (real, real), threshold: real)
  {
    0 <= k <= |nccf| - 2 && nccf[k] > threshold && q == Util.ParabolicInterpolation(nccf, k)
  }

  /** Each peak is the interpolation at the sample index beside it in `at`, whose value exceeds the threshold. */
  predicate PeaksAt(nccf: seq<real>, at: seq<int>, peaks: seq<(real, real)>, threshold: real)
  {
    |at| == |peaks| && forall i :: 0 <= i < |peaks| ==> PeakAt(nccf, at[i], peaks[i], threshold)
  }

  // ---------------------------------------------------------------------
  // Candidate choice

  /**
   * The state of the candidate loop: the truncated lag and cost of the
   * cheapest candidate so far (None before the first, where the source
   * starts from the largest double) and the largest value, starting from
   * the smallest positive double.
   */
  datatype Choice = Choice(minLag: int, minCost: Option<real>, maxVal: real)

  /** The cost of a candidate at lag k with correlation y: low for high correlation at short lags. */
  function LocalCost(k: real, y: real, beta: real): real
  {
    1.0 - y * (1.0 - beta * k)
  }

  function Cost(q: (real, real), beta: real): real
  {
    LocalCost(q.0, q.1, beta)
  }

  /** A cost strictly below the running minimum. */
  predicate Below(cost: real, m: Option<real>)
  {
    m.None? || cost < m.value
  }

  /** The candidate loop over `peaks`, one candidate at a time. */
  function Choose(peaks: seq<(real, real)>, beta: real): Choice
    decreases |peaks|
  {
    if |peaks| == 0 then Choice(0, None, DblMin)
    else
      var c := Choose(peaks[..|peaks| - 1], beta);
      var q := peaks[|peaks| - 1];
      var c1 := if Below(Cost(q, beta), c.minCost) then c.(minLag := Trunc(q.0), minCost := Some(Cost(q, beta))) else c;
      if q.1 > c1.maxVal then c1.(maxVal := q.1) else c1
  }

  /** The loop of `updateIfNeeded` that finds the candidate with the lowest cost. */
  method SelectCandidate(peaks: seq<(real, real)>, beta: real) returns (c: Choice)
    ensures c == Choose(peaks, beta)
  {
    c := Choice(0, None, DblMin);
    for i := 0 to |peaks|
      invariant c == Choose(peaks[..i], beta)
    {
      assert peaks[..i + 1][..i] == peaks[..i];
      var k := peaks[i].0;
      var y := peaks[i].1;
      var localCost := LocalCost(k, y, beta);
      if c.minCost.None? || localCost < c.minCost.value {
        c := c.(minLag := Trunc(k), minCost := Some(localCost));
      }
      if y > c.maxVal {
        c := c.(maxVal := y);
      }
    }
    assert peaks[..|peaks|] == peaks;
  }

  /**
   * The loop finds a cost exactly when there are candidates; the cost is
   * the lowest of all, and the lag is the truncated lag of the first
   * candidate with that cost; the largest value bounds every candidate's
   * value from above and is one of them unless all are below the start.
   */
  lemma {:induction false} ChooseMinimal(peaks: seq<(real, real)>, beta: real)
    ensures var c := Choose(peaks, beta);
            (c.minCost.None? <==> |peaks| == 0) &&
            (c.minCost.Some? ==> forall i :: 0 <= i < |peaks| ==> c.minCost.value <= Cost(peaks[i], beta)) &&
            (c.minCost.Some? ==> exists i :: 0 <= i < |peaks| && c.minCost.value == Cost(peaks[i], beta) &&
                                   c.minLag == Trunc(peaks[i].0) &&
                                   forall j :: 0 <= j < i ==> c.minCost.value < Cost(peaks[j], beta)) &&
            c.maxVal >= DblMin && (forall i :: 0 <= i < |peaks| ==> peaks[i].1 <= c.maxVal) &&
            (c.maxVal == DblMin || exists i :: 0 <= i < |peaks| && peaks[i].1 == c.maxVal)
    decreases |peaks|
  {
    if |peaks| > 0 {
      var last := |peaks| - 1;
      var prefix := peaks[..last];
      ChooseMinimal(prefix, beta);
      var c := Choose(prefix, beta);
      assert forall i :: 0 <= i < last ==> peaks[i] == prefix[i];
      if c.minCost.Some? && !Below(Cost(peaks[last], beta), c.minCost) {
        var i :| 0 <= i < last && c.minCost.value == Cost(prefix[i], beta) && c.minLag == Trunc(prefix[i].0) &&
                 forall j :: 0 <= j < i ==> c.minCost.value < Cost(prefix[j], beta);
        assert peaks[i] == prefix[i];
      }
      if c.maxVal != DblMin && peaks[last].1 <= c.maxVal {
        var i :| 0 <= i < last && prefix[i].1 == c.maxVal;
        assert peaks[i] == prefix[i];
      }
    }
  }

  /**
   * The frame's pitch: -1 (unvoiced) when there is no candidate or when
   * the cheapest cost exceeds the best correlation plus the voicing bias;
   * otherwise the sample rate over the interpolated lag at the chosen lag.
   */
  function PitchFrom(c: Choice, nccf: seq<real>, fs: real): (pitch: real)
    requires c.minCost.Some? ==> 0 <= c.minLag <= |nccf| - 2
    ensures c.minCost.None? || VoBias + c.maxVal < c.minCost.value ==> pitch == -1.0
    ensures pitch != -1.0 ==> pitch * Util.ParabolicInterpolation(nccf, c.minLag).0 == fs
  {
    if c.minCost.None? || VoBias + c.maxVal < c.minCost.value then -1.0
    else
      var lag := Util.ParabolicInterpolation(nccf, c.minLag).0;
      if lag == 0.0 then -1.0 else fs / lag
  }

  /** `resize(len, 0)` applied only to a shorter vector. */
  function Padded(d: seq<real>, len: int): (r: seq<real>)
    ensures |r| >= len && |r| >= |d|
    ensures forall i :: 0 <= i < |r| ==> r[i] == if i < |d| then d[i] else 0.0
  {
    if |d| < len then Resized(d, len, 0.0) else d
  }

  /** The downsampler: resampled samples of the `len` samples from `off`, at the fixed rates. */
  type Downsampler = (seq<real>, int, int) -> seq<real>

  /**
   * The first half of a frame: the downsampled window padded to dswl, the
   * correlation over its lag range (the other entries kept from the
   * previous frame) and the peaks of that correlation.
   */
  ghost predicate DownsampledFrame(s: seq<real>, start: int, p: Params, dsNccf0: seq<real>,
                                   downsample: Downsampler, sqrt: real -> real,
                                   dss: seq<real>, dsNccf: seq<real>, dsPeaks: seq<(real, real)>, dsAt: seq<int>,
                                   dsAll: seq<int>)
    requires ParamsOk(p)
  {
    dss == Padded(downsample(s, start, p.wl), p.dswl) &&
    |dsNccf| == |dsNccf0| &&
    (forall k :: 0 <= k < |dsNccf| ==>
       dsNccf[k] == if p.dsK1 <= k <= p.dsK2 then NccfValue(dss, 0, k, p.dsn, sqrt) else dsNccf0[k]) &&
    Descending(dsPeaks) && |dsPeaks| <= NCands - 1 &&
    (|dsNccf| > 0 ==> PeaksAt(dsNccf, dsAt, dsPeaks, CandTr * Util.SeqMax(dsNccf))) &&
    (|dsNccf| >= 2 ==> FromFoundPeaks(dsNccf, dsPeaks, dsAt, dsAll))
  }

  /**
   * The second half of a frame with downsampled peaks: the correlation at
   * full rate at the lags around them (zero elsewhere), its peaks, the
   * cheapest candidate and the pitch it gives.
   */
  ghost predicate FullRateFrame(s: seq<real>, start: int, fs: real, p: Params, dsPeaks: seq<(real, real)>,
                                sqrt: real -> real, nccf: seq<real>, peaks: seq<(real, real)>, at: seq<int>,
                                all: seq<int>, choice: Choice, pitch: real)
    requires ParamsOk(p) && 0 <= start && start + p.wl < |s|
  {
    FullRatePeaks(s, start, fs, p, dsPeaks, sqrt, nccf, peaks, at, all) &&
    choice == Choose(peaks, p.beta) &&
    (choice.minCost.Some? ==> 0 <= choice.minLag <= p.K - 1) &&
    pitch == PitchFrom(choice, nccf, fs)
  }

  /**
   * The full-rate correlation of a frame: the lags around the downsampled
   * peaks hold their correlation and every other lag 0; and its peaks,
   * best first, each at an index `findPeaks` finds.
   */
  ghost predicate FullRatePeaks(s: seq<real>, start: int, fs: real, p: Params, dsPeaks: seq<(real, real)>,
                                sqrt: real -> real, nccf: seq<real>, peaks: seq<(real, real)>, at: seq<int>,
                                all: seq<int>)
    requires ParamsOk(p) && 0 <= start && start + p.wl < |s|
  {
    |nccf| == p.K + 1 &&
    (forall k :: 0 <= k <= p.K ==>
       nccf[k] == if k in RawLags(dsPeaks, fs, p.fds, p.K) then NccfValue(s, start, k, p.n, sqrt) else 0.0) &&
    Descending(peaks) && |peaks| <= NCands - 1 &&
    PeaksAt(nccf, at, peaks, CandTr * Util.SeqMax(nccf)) && FromFoundPeaks(nccf, peaks, at, all) &&
    (forall q :: q in peaks ==> 0 <= Trunc(q.0) <= |nccf| - 2)
  }

  method DownsampledStage(s: seq<real>, start: int, p: Params, dsNccf0: seq<real>,
                          downsample: Downsampler, sqrt: real -> real)
    returns (dsNccf: seq<real>, dsPeaks: seq<(real, real)>, ghost dss: seq<real>, ghost dsAt: seq<int>,
             ghost dsAll: seq<int>)
    requires ParamsOk(p) && 0 <= start && start + p.wl < |s| && |dsNccf0| == p.dsK2 + 1
    ensures DownsampledFrame(s, start, p, dsNccf0, downsample, sqrt, dss, dsNccf, dsPeaks, dsAt, dsAll)
  {
    var d := downsample(s, start, p.wl);
    if |d| < p.dswl {
      d := Resized(d, p.dswl, 0.0);
    }
    dss := d;
    dsNccf := CalculateDownsampledNccf(d, p.dsn, p.dsK1, p.dsK2, dsNccf0, sqrt);
    var found, all, _, _, at := FindPeaksWithThreshold(dsNccf);
    dsPeaks, dsAt, dsAll := found, at, all;
  }

  method FullRateStage(s: seq<real>, start: int, fs: real, p: Params, dsPeaks: seq<(real, real)>,
                       sqrt: real -> real)
    returns (pitch: real, ghost nccf: seq<real>, ghost peaks: seq<(real, real)>, ghost at: seq<int>,
             ghost all: seq<int>, ghost choice: Choice)
    requires ParamsOk(p) && 0 <= start && start + p.wl < |s|
    ensures FullRateFrame(s, start, fs, p, dsPeaks, sqrt, nccf, peaks, at, all, choice, pitch)
  {
    var full, best;
    full, best, at, all := FullRateCorrelation(s, start, fs, p, dsPeaks, sqrt);
    nccf, peaks := full, best;
    var c := SelectCandidate(best, p.beta);
    choice := c;
    ChosenLagUsable(full, best, p.beta);
    pitch := PitchFrom(c, full, fs);
  }

  /** The full-rate correlation of a frame at the lags around the downsampled peaks, and its peaks. */
  method FullRateCorrelation(s: seq<real>, start: int, fs: real, p: Params, dsPeaks: seq<(real, real)>,
                             sqrt: real -> real)
    returns (nccf: seq<real>, peaks: seq<(real, real)>, ghost at: seq<int>, ghost all: seq<int>)
    requires ParamsOk(p) && 0 <= start && start + p.wl < |s|
    ensures FullRatePeaks(s, start, fs, p, dsPeaks, sqrt, nccf, peaks, at, all)
  {
    var full, _ := CalculateOriginalNccf(s, start, fs, p.fds, p.n, p.K, dsPeaks, sqrt);
    var best, found, _, _, bestAt := FindPeaksWithThreshold(full);
    nccf, peaks, at, all := full, best, bestAt, found;
  }

  /** The lag of the cheapest candidate is one of the candidates' lags, so it is usable when they all are. */
  lemma ChosenLagUsable(nccf: seq<real>, peaks: seq<(real, real)>, beta: real)
    requires forall q :: q in peaks ==> 0 <= Trunc(q.0) <= |nccf| - 2
    ensures Choose(peaks, beta).minCost.Some? ==> 0 <= Choose(peaks, beta).minLag <= |nccf| - 2
  {
    ChooseMinimal(peaks, beta);
    var c := Choose(peaks, beta);
    if c.minCost.Some? {
      var i :| 0 <= i < |peaks| && c.minLag == Trunc(peaks[i].0);
      assert peaks[i] in peaks;
    }
  }

  /**
   * One analysis frame of `updateIfNeeded`, at sample `start` of the
   * mean-removed window `s`: unvoiced when the downsampled correlation has
   * no peak, otherwise the pitch of the cheapest full-rate candidate.
   */
  method FramePitch(s: seq<real>, start: int, fs: real, p: Params, dsNccf0: seq<real>,
                    downsample: Downsampler, sqrt: real -> real)
    returns (pitch: real, dsNccf: seq<real>, ghost t: FrameTrace)
    requires ParamsOk(p) && 0 <= start && start + p.wl < |s| && |dsNccf0| == p.dsK2 + 1
    ensures t.dsNccf == dsNccf && |dsNccf| == |dsNccf0|
    ensures DownsampledFrame(s, start, p, dsNccf0, downsample, sqrt, t.dss, dsNccf, t.dsPeaks, t.dsAt, t.dsAll)
    ensures |t.dsPeaks| == 0 ==> pitch == -1.0
    ensures (Util.HasTurn(dsNccf) && Util.FirstTop(dsNccf) < |dsNccf| - 1 && Util.SeqMax(dsNccf) > 0.0) ==>
            |t.dsPeaks| > 0
    ensures |t.dsPeaks| > 0 ==> FullRateFrame(s, start, fs, p, t.dsPeaks, sqrt, t.nccf, t.peaks, t.at, t.all,
                                              t.choice, pitch)
  {
    var found;
    ghost var dss, dsAt, dsAll;
    dsNccf, found, dss, dsAt, dsAll := DownsampledStage(s, start, p, dsNccf0, downsample, sqrt);
    TopCandidate(dsNccf, found, dsAt, dsAll);
    pitch := -1.0;
    ghost var nccf, peaks, at, all, choice := [], [], [], [], Choice(0, None, DblMin);
    if |found| > 0 {
      pitch, nccf, peaks, at, all, choice := FullRateStage(s, start, fs, p, found, sqrt);
    }
    t := FrameTrace(dss, dsNccf, found, dsAt, dsAll, nccf, peaks, at, all, choice);
  }

  /**
   * The downsampled correlation kept between frames: lags outside
   * [dsK1, dsK2] are never written, so they keep the zero they were
   * allocated with.
   */
  predicate ZeroOutside(dsNccf: seq<real>, p: Params)
  {
    |dsNccf| == p.dsK2 + 1 && forall k :: 0 <= k < |dsNccf| && !(p.dsK1 <= k <= p.dsK2) ==> dsNccf[k] == 0.0
  }

  /** What one frame computes on the way to its pitch: both halves' correlations, peaks and choice. */
  datatype FrameTrace = FrameTrace(dss: seq<real>, dsNccf: seq<real>, dsPeaks: seq<(real, real)>, dsAt: seq<int>,
                                   dsAll: seq<int>, nccf: seq<real>, peaks: seq<(real, real)>, at: seq<int>,
                                   all: seq<int>, choice: Choice)

  /**
   * The pitch of the frame at `start` of `s`, with what led to it: the
   * downsampled correlation (from the zero-initialised one) and its peaks
   * as DownsampledFrame says, then unvoiced (-1) without peaks and
   * otherwise the pitch of the cheapest full-rate candidate as
   * FullRateFrame says.
   */
  ghost predicate FrameOk(s: seq<real>, start: int, fs: real, p: Params, downsample: Downsampler,
                          sqrt: real -> real, t: FrameTrace, pitch: real)
    requires ParamsOk(p) && 0 <= start && start + p.wl < |s|
  {
    DownsampledFrame(s, start, p, Zeros(p.dsK2 + 1), downsample, sqrt, t.dss, t.dsNccf, t.dsPeaks, t.dsAt, t.dsAll) &&
    if |t.dsPeaks| == 0 then pitch == -1.0
    else FullRateFrame(s, start, fs, p, t.dsPeaks, sqrt, t.nccf, t.peaks, t.at, t.all, t.choice, pitch)
  }

  /**
   * A frame whose downsampled correlation turns, peaks before its last lag
   * and has a positive maximum goes on to the full-rate stage; that stage
   * has a candidate under the same condition on its own correlation.
   */
  lemma FrameCandidates(s: seq<real>, start: int, fs: real, p: Params, downsample: Downsampler,
                        sqrt: real -> real, t: FrameTrace, pitch: real)
    requires ParamsOk(p) && 0 <= start && start + p.wl < |s|
    requires FrameOk(s, start, fs, p, downsample, sqrt, t, pitch)
    ensures (|t.dsNccf| >= 2 && Util.HasTurn(t.dsNccf) && Util.FirstTop(t.dsNccf) < |t.dsNccf| - 1 &&
             Util.SeqMax(t.dsNccf) > 0.0) ==> |t.dsPeaks| > 0
    ensures (|t.dsPeaks| > 0 && Util.HasTurn(t.nccf) && Util.FirstTop(t.nccf) < |t.nccf| - 1 &&
             Util.SeqMax(t.nccf) > 0.0) ==> |t.peaks| > 0
  {
    if |t.dsNccf| >= 2 {
      assert DownsampledFrame(s, start, p, Zeros(p.dsK2 + 1), downsample, sqrt, t.dss, t.dsNccf, t.dsPeaks, t.dsAt, t.dsAll);
      assert FromFoundPeaks(t.dsNccf, t.dsPeaks, t.dsAt, t.dsAll);
      TopCandidate(t.dsNccf, t.dsPeaks, t.dsAt, t.dsAll);
    }
    if |t.dsPeaks| > 0 {
      assert FullRateFrame(s, start, fs, p, t.dsPeaks, sqrt, t.nccf, t.peaks, t.at, t.all, t.choice, pitch);
      assert FullRatePeaks(s, start, fs, p, t.dsPeaks, sqrt, t.nccf, t.peaks, t.at, t.all);
      assert FromFoundPeaks(t.nccf, t.peaks, t.at, t.all);
      TopCandidate(t.nccf, t.peaks, t.at, t.all);
    }
  }

  /** A correlation zero outside the lag range gives the frame what the zero-initialised one gives it. */
  lemma FromZeros(s: seq<real>, start: int, p: Params, dsNccf0: seq<real>, downsample: Downsampler,
                  sqrt: real -> real, dss: seq<real>, dsNccf: seq<real>, dsPeaks: seq<(real, real)>, dsAt: seq<int>,
                  dsAll: seq<int>)
    requires ParamsOk(p) && ZeroOutside(dsNccf0, p)
    requires DownsampledFrame(s, start, p, dsNccf0, downsample, sqrt, dss, dsNccf, dsPeaks, dsAt, dsAll)
    ensures DownsampledFrame(s, start, p, Zeros(p.dsK2 + 1), downsample, sqrt, dss, dsNccf, dsPeaks, dsAt, dsAll)
    ensures ZeroOutside(dsNccf, p)
  {
    var zeros := Zeros(p.dsK2 + 1);
    forall k | 0 <= k < |dsNccf|
      ensures dsNccf[k] == if p.dsK1 <= k <= p.dsK2 then NccfValue(dss, 0, k, p.dsn, sqrt) else zeros[k]
    {
    }
  }

  // ---------------------------------------------------------------------
  // Run-length gating through the pitch buffer

  /** A point of the pitch track: its time and its pitch, -1 when unvoiced. */
  datatype PitchPoint = PitchPoint(time: real, pitch: real)

  const Unvoiced: PitchPoint := PitchPoint(0.0, -1.0)

  /** The pitch of the first voiced slot among slots from .. upTo-1 of the buffer, if any. */
  function FirstVoiced(buf: seq<PitchPoint>, from: nat, upTo: int): (r: Option<real>)
    requires upTo <= |buf|
    ensures r.None? <==> forall k :: from <= k < upTo ==> buf[k].pitch <= 0.0
    ensures r.Some? ==> (r.value > 0.0 &&
              exists k :: from <= k < upTo && buf[k].pitch == r.value && forall j :: from <= j < k ==> buf[j].pitch <= 0.0)
    decreases upTo - from
  {
    if from >= upTo then None
    else if buf[from].pitch > 0.0 then Some(buf[from].pitch)
    else FirstVoiced(buf, from + 1, upTo)
  }

  /** No slot among 1 .. upTo-1 of the buffer is unvoiced. */
  predicate NoUnvoiced(buf: seq<PitchPoint>, upTo: int)
    requires upTo <= |buf|
  {
    forall k :: 1 <= k < upTo ==> !(buf[k].pitch < 0.0)
  }

  /** The stored pitch track together with the sliding buffer of recent frames. */
  datatype Gated = Gated(buffer: seq<PitchPoint>, times: seq<real>, pitches: seq<real>)

  /** The run lengths fit the buffer, which is never empty. */
  predicate GateOk(g: Gated, minSilence: int, minVoicing: int)
  {
    |g.buffer| >= 1 && 0 <= minSilence <= |g.buffer| && 0 <= minVoicing <= |g.buffer|
  }

  /** The slot at the front once a silent front is replaced by a voiced pitch from the next minSilence-1 slots. */
  function Front(b: seq<PitchPoint>, minSilence: int): PitchPoint
    requires 1 <= |b| && minSilence <= |b|
  {
    var r := FirstVoiced(b, 1, minSilence);
    if b[0].pitch < 0.0 && r.Some? then b[0].(pitch := r.value) else b[0]
  }

  /**
   * One frame through the buffer: the new point takes the last slot, the
   * front is filled in if it ends a too short silence, kept if voiced and
   * followed by a long enough voiced run, and the buffer rotates by one.
   */
  function GateStep(g: Gated, pt: PitchPoint, minSilence: int, minVoicing: int): Gated
    requires GateOk(g, minSilence, minVoicing)
  {
    var b := g.buffer[|g.buffer| - 1 := pt];
    var front := Front(b, minSilence);
    var b' := b[0 := front];
    var keep := front.pitch > 0.0 && NoUnvoiced(b', minVoicing);
    Gated(b'[1..] + [b'[0]],
          if keep then g.times + [front.time] else g.times,
          if keep then g.pitches + [front.pitch] else g.pitches)
  }

  /** Times and pitches pair up and every stored pitch is voiced. */
  predicate SeriesOk(g: Gated)
  {
    |g.times| == |g.pitches| && forall i :: 0 <= i < |g.pitches| ==> g.pitches[i] > 0.0
  }

  /**
   * A frame keeps the buffer length and the stored points, and adds at
   * most one point, which is voiced and followed in the buffer by no
   * unvoiced slot within the voicing run length.
   */
  lemma GateStepKeeps(g: Gated, pt: PitchPoint, minSilence: int, minVoicing: int)
    requires GateOk(g, minSilence, minVoicing) && SeriesOk(g)
    ensures var r := GateStep(g, pt, minSilence, minVoicing);
            GateOk(r, minSilence, minVoicing) && SeriesOk(r) && |r.buffer| == |g.buffer| &&
            r.times[..|g.times|] == g.times && r.pitches[..|g.pitches|] == g.pitches &&
            |r.times| - |g.times| == |r.pitches| - |g.pitches| <= 1
  {
  }

  /**
   * The buffer slides: the new point lands one slot before the back and
   * every other slot moves one towards the front.
   */
  lemma GateStepSlides(g: Gated, pt: PitchPoint, minSilence: int, minVoicing: int)
    requires GateOk(g, minSilence, minVoicing) && |g.buffer| >= 2
    ensures var r := GateStep(g, pt, minSilence, minVoicing);
            r.buffer[|g.buffer| - 2] == pt &&
            forall i :: 0 <= i < |g.buffer| - 2 ==> r.buffer[i] == g.buffer[i + 1]
  {
  }

  /**
   * With the buffer of one slot and both run lengths zero, as the
   * controller is built and cleared, a frame is stored at once exactly
   * when it is voiced.
   */
  lemma GateStepDirect(g: Gated, pt: PitchPoint)
    requires |g.buffer| == 1
    ensures var r := GateStep(g, pt, 0, 0);
            r.buffer == [pt] &&
            r.times == (if pt.pitch > 0.0 then g.times + [pt.time] else g.times) &&
            r.pitches == (if pt.pitch > 0.0 then g.pitches + [pt.pitch] else g.pitches)
  {
  }

  /** A run of frames through the buffer, in order. */
  function GateAll(g: Gated, pts: seq<PitchPoint>, minSilence: int, minVoicing: int): (r: Gated)
    requires GateOk(g, minSilence, minVoicing)
    ensures |r.buffer| == |g.buffer|
    decreases |pts|
  {
    if |pts| == 0 then g
    else
      var h := GateAll(g, pts[..|pts| - 1], minSilence, minVoicing);
      GateStep(h, pts[|pts| - 1], minSilence, minVoicing)
  }

  /** Extending the run by one point is one more step. */
  lemma GateAllAppend(g: Gated, pts: seq<PitchPoint>, pt: PitchPoint, minSilence: int, minVoicing: int)
    requires GateOk(g, minSilence, minVoicing)
    ensures GateOk(GateAll(g, pts, minSilence, minVoicing), minSilence, minVoicing)
    ensures GateAll(g, pts + [pt], minSilence, minVoicing) ==
            GateStep(GateAll(g, pts, minSilence, minVoicing), pt, minSilence, minVoicing)
  {
    assert (pts + [pt])[..|pts|] == pts;
  }

  /** The voiced points of a run, in order. */
  function Voiced(pts: seq<PitchPoint>): seq<PitchPoint>
    decreases |pts|
  {
    if |pts| == 0 then []
    else Voiced(pts[..|pts| - 1]) + if pts[|pts| - 1].pitch > 0.0 then [pts[|pts| - 1]] else []
  }

  /**
   * With the one-slot buffer and zero run lengths, a run of frames stores
   * exactly its voiced points, in order, and nothing else.
   */
  lemma {:induction false} GateAllDirect(g: Gated, pts: seq<PitchPoint>)
    requires |g.buffer| == 1
    ensures var r := GateAll(g, pts, 0, 0);
            |r.buffer| == 1 &&
            r.times == g.times + seq(|Voiced(pts)|, i requires 0 <= i < |Voiced(pts)| => Voiced(pts)[i].time) &&
            r.pitches == g.pitches + seq(|Voiced(pts)|, i requires 0 <= i < |Voiced(pts)| => Voiced(pts)[i].pitch)
    decreases |pts|
  {
    if |pts| > 0 {
      var prefix := pts[..|pts| - 1];
      GateAllDirect(g, prefix);
      GateStepDirect(GateAll(g, prefix, 0, 0), pts[|pts| - 1]);
    }
  }

  /** A run of frames keeps the stored points and adds only voiced ones, times and pitches in step. */
  lemma {:induction false} GateAllKeeps(g: Gated, pts: seq<PitchPoint>, minSilence: int, minVoicing: int)
    requires GateOk(g, minSilence, minVoicing) && SeriesOk(g)
    ensures var r := GateAll(g, pts, minSilence, minVoicing);
            GateOk(r, minSilence, minVoicing) && SeriesOk(r) &&
            |g.times| <= |r.times| <= |g.times| + |pts| &&
            r.times[..|g.times|] == g.times && r.pitches[..|g.pitches|] == g.pitches
    decreases |pts|
  {
    if |pts| > 0 {
      var prefix := pts[..|pts| - 1];
      GateAllKeeps(g, prefix, minSilence, minVoicing);
      var h := GateAll(g, prefix, minSilence, minVoicing);
      GateStepKeeps(h, pts[|pts| - 1], minSilence, minVoicing);
      var r := GateStep(h, pts[|pts| - 1], minSilence, minVoicing);
      assert r.times[..|g.times|] == r.times[..|h.times|][..|g.times|];
      assert r.pitches[..|g.pitches|] == r.pitches[..|h.pitches|][..|g.pitches|];
    }
  }

  /**
   * A point is stored exactly when the front, after any filling in, is
   * voiced and none of the next minVoicing-1 slots is unvoiced.
   */
  lemma GateStepStores(g: Gated, pt: PitchPoint, minSilence: int, minVoicing: int)
    requires GateOk(g, minSilence, minVoicing)
    ensures var r := GateStep(g, pt, minSilence, minVoicing);
            var b := g.buffer[|g.buffer| - 1 := pt];
            (|r.times| > |g.times| <==> Front(b, minSilence).pitch > 0.0 && forall k :: 1 <= k < minVoicing ==> !(b[k].pitch < 0.0))
  {
    var b := g.buffer[|g.buffer| - 1 := pt];
    var b' := b[0 := Front(b, minSilence)];
    assert forall k :: 1 <= k < minVoicing ==> b'[k] == b[k];
  }

  // ---------------------------------------------------------------------
  // Range query

  /** The stored points returned for a time range. */
  datatype PitchResults = PitchResults(times: seq<real>, pitches: seq<real>)

  /** The stored points with timeMin <= t <= timeMax, in stored order. */
  function InRange(times: seq<real>, pitches: seq<real>, timeMin: real, timeMax: real): PitchResults
    requires |times| == |pitches|
    decreases |times|
  {
    if |times| == 0 then PitchResults([], [])
    else
      var last := |times| - 1;
      var r := InRange(times[..last], pitches[..last], timeMin, timeMax);
      if timeMin <= times[last] <= timeMax then PitchResults(r.times + [times[last]], r.pitches + [pitches[last]])
      else r
  }

  /** The positions of the stored times inside the range, in increasing order. */
  function RangeIndices(times: seq<real>, timeMin: real, timeMax: real): seq<int>
    decreases |times|
  {
    if |times| == 0 then []
    else
      var last := |times| - 1;
      RangeIndices(times[..last], timeMin, timeMax) + if timeMin <= times[last] <= timeMax then [last] else []
  }

  /** The positions are increasing, and they are exactly those whose time lies in the range. */
  lemma RangeIndicesExact(times: seq<real>, timeMin: real, timeMax: real)
    ensures var idx := RangeIndices(times, timeMin, timeMax);
            Util.StrictlyIncreasing(idx) &&
            (forall j :: 0 <= j < |idx| ==> 0 <= idx[j] < |times|) &&
            forall i :: i in idx <==> 0 <= i < |times| && timeMin <= times[i] <= timeMax
  {
    RangeIndicesOrdered(times, timeMin, timeMax);
    RangeIndicesMembers(times, timeMin, timeMax);
  }

  /** The positions are increasing and lie inside the series. */
  lemma {:induction false} RangeIndicesOrdered(times: seq<real>, timeMin: real, timeMax: real)
    ensures var idx := RangeIndices(times, timeMin, timeMax);
            Util.StrictlyIncreasing(idx) && forall j :: 0 <= j < |idx| ==> 0 <= idx[j] < |times|
    decreases |times|
  {
    if |times| > 0 {
      var last := |times| - 1;
      RangeIndicesOrdered(times[..last], timeMin, timeMax);
      var front := RangeIndices(times[..last], timeMin, timeMax);
      var idx := RangeIndices(times, timeMin, timeMax);
      assert forall j :: 0 <= j < |front| ==> idx[j] == front[j] && front[j] < last;
    }
  }

  /** A position is listed exactly when its time lies in the range. */
  lemma {:induction false} RangeIndicesMembers(times: seq<real>, timeMin: real, timeMax: real)
    ensures forall i :: i in RangeIndices(times, timeMin, timeMax) <==> 0 <= i < |times| && timeMin <= times[i] <= timeMax
    decreases |times|
  {
    if |times| > 0 {
      var last := |times| - 1;
      RangeIndicesMembers(times[..last], timeMin, timeMax);
      assert forall i :: 0 <= i < last ==> times[..last][i] == times[i];
    }
  }

  /** The result holds, pair by pair, the stored points at those positions. */
  lemma {:induction false} InRangeAt(times: seq<real>, pitches: seq<real>, timeMin: real, timeMax: real)
    requires |times| == |pitches|
    ensures var r := InRange(times, pitches, timeMin, timeMax);
            var idx := RangeIndices(times, timeMin, timeMax);
            |r.times| == |r.pitches| == |idx| &&
            forall j :: 0 <= j < |idx| ==> 0 <= idx[j] < |times| && r.times[j] == times[idx[j]] && r.pitches[j] == pitches[idx[j]]
    decreases |times|
  {
    if |times| > 0 {
      var last := |times| - 1;
      InRangeAt(times[..last], pitches[..last], timeMin, timeMax);
      var front := RangeIndices(times[..last], timeMin, timeMax);
      var idx := RangeIndices(times, timeMin, timeMax);
      assert forall j :: 0 <= j < |front| ==> idx[j] == front[j];
    }
  }

  // ---------------------------------------------------------------------
  // Interpolated voicing

  /** 0 for an unvoiced pitch, 1 otherwise. */
  function Voicing(pitch: real): real
  {
    if pitch < 0.0 then 0.0 else 1.0
  }

  /** The cubic Hermite curve from p0 (slope m0) at t = 0 to p1 (slope m1) at t = 1. */
  function Hermite(p0: real, m0: real, p1: real, m1: real, t: real): real
  {
    var t2 := t * t;
    var t3 := t * t2;
    (2.0 * t3 - 3.0 * t2 + 1.0) * p0 + (t3 - 2.0 * t2 + t) * m0 + (-2.0 * t3 + 3.0 * t2) * p1 + (t3 - t2) * m1
  }

  /** The curve starts at p0 and ends at p1, and with flat slopes between equal ends it is constant. */
  lemma HermiteEnds(p0: real, m0: real, p1: real, m1: real, t: real)
    ensures Hermite(p0, m0, p1, m1, 0.0) == p0 && Hermite(p0, m0, p1, m1, 1.0) == p1
    ensures Hermite(p0, 0.0, p0, 0.0, t) == p0
  {
  }

  /** x lies in [times[i], times[i+1]). */
  predicate Bracket(times: seq<real>, x: real, i: int)
  {
    0 <= i < |times| - 1 && times[i] <= x < times[i + 1]
  }

  /** i is the last bracket of x, the one the source's scan settles on. */
  predicate LastBracket(times: seq<real>, x: real, i: int)
  {
    Bracket(times, x, i) && forall j :: i < j < |times| - 1 ==> !Bracket(times, x, j)
  }

  /** Between the first and the last time, x always has a bracket, whatever the order of the times. */
  lemma {:induction false} BracketExists(times: seq<real>, x: real)
    requires |times| >= 2 && times[0] <= x < times[|times| - 1]
    ensures exists i :: Bracket(times, x, i)
    decreases |times|
  {
    var n := |times|;
    if x >= times[n - 2] {
      assert Bracket(times, x, n - 2);
    } else {
      var prefix := times[..n - 1];
      BracketExists(prefix, x);
      var i :| Bracket(prefix, x, i);
      assert Bracket(times, x, i);
    }
  }

  /** The bracket scan of `getInterpolatedVoicing`: the last i with times[i] <= x < times[i+1]. */
  method FindBracket(times: seq<real>, x: real) returns (left: int)
    requires |times| >= 2 && times[0] <= x < times[|times| - 1]
    ensures LastBracket(times, x, left)
  {
    left := -1;
    for i := 0 to |times| - 1
      invariant left == -1 ==> forall j :: 0 <= j < i ==> !Bracket(times, x, j)
      invariant left != -1 ==> Bracket(times, x, left) && forall j :: left < j < i ==> !Bracket(times, x, j)
    {
      if times[i] <= x && x < times[i + 1] {
        left := i;
      }
    }
    if left == -1 {
      BracketExists(times, x);
      assert false;
    }
  }

  /** The divided difference dp / dx; a zero spacing (a division by zero in the source) gives 0. */
  function Slope(dp: real, dx: real): real
  {
    Ratio(dp, dx)
  }

  /**
   * The Hermite interpolation of the voicing between times[left] and
   * times[left+1], with tangents averaged from the neighbouring spans
   * (the span itself standing in for a missing neighbour).
   */
  function HermiteVoicing(times: seq<real>, pitches: seq<real>, x: real, left: int): real
    requires |times| == |pitches| && 0 <= left < |times| - 1
  {
    var right := left + 1;
    var n := |times|;
    var x0 := times[left];
    var x1 := times[right];
    var p0 := Voicing(pitches[left]);
    var p1 := Voicing(pitches[right]);
    var t := Ratio(x - x0, x1 - x0);
    var dp1 := p1 - p0;
    var dx1 := x1 - x0;
    var dp0 := if left > 0 then p0 - Voicing(pitches[left - 1]) else dp1;
    var dx0 := if left > 0 then x0 - times[left - 1] else dx1;
    var dp2 := if right < n - 1 then Voicing(pitches[right + 1]) - p1 else dp1;
    var dx2 := if right < n - 1 then times[right + 1] - x1 else dx1;
    var m0 := 0.5 * (Slope(dp1, dx1) + Slope(dp0, dx0));
    var m1 := 0.5 * (Slope(dp2, dx2) + Slope(dp1, dx1));
    Hermite(p0, m0, p1, m1, t)
  }

  /** At the left knot the interpolation is that knot's voicing. */
  lemma HermiteVoicingAtKnot(times: seq<real>, pitches: seq<real>, left: int)
    requires |times| == |pitches| && 0 <= left < |times| - 1
    ensures HermiteVoicing(times, pitches, times[left], left) == Voicing(pitches[left])
  {
    var x0 := times[left];
    assert Ratio(x0 - x0, times[left + 1] - x0) == 0.0;
  }

  /** Around a span whose four voicings agree, the interpolation is that voicing. */
  lemma HermiteVoicingFlat(times: seq<real>, pitches: seq<real>, x: real, left: int)
    requires |times| == |pitches| && 0 <= left < |times| - 1
    requires forall i :: left - 1 <= i <= left + 2 && 0 <= i < |pitches| ==> Voicing(pitches[i]) == Voicing(pitches[left])
    ensures HermiteVoicing(times, pitches, x, left) == Voicing(pitches[left])
  {
    var v := Voicing(pitches[left]);
    var t := Ratio(x - times[left], times[left + 1] - times[left]);
    assert Voicing(pitches[left + 1]) == v;
    assert left > 0 ==> Voicing(pitches[left - 1]) == v;
    assert left + 1 < |times| - 1 ==> Voicing(pitches[left + 2]) == v;
    assert HermiteVoicing(times, pitches, x, left) == Hermite(v, 0.0, v, 0.0, t);
    HermiteEnds(v, 0.0, v, 0.0, t);
  }

  /** Strictly increasing times. */
  predicate Increasing(times: seq<real>)
  {
    forall i, j :: 0 <= i < j < |times| ==> times[i] < times[j]
  }

  /** With increasing times, a knot other than the last is its own last bracket. */
  lemma KnotBracket(times: seq<real>, i: int)
    requires Increasing(times) && 0 <= i < |times| - 1
    ensures LastBracket(times, times[i], i)
  {
  }

  // ---------------------------------------------------------------------
  // The controller

  /**
   * The pitch tracker's state: the sample cursor and the rate it counts
   * in, the stored voiced points, the run lengths and the buffer of the
   * most recent frames.
   */
  class PitchController {
    var lastTime: int
    var lastSampleRate: real
    var times: seq<real>
    var pitches: seq<real>
    var minSilenceRunLength: int
    var minVoicingRunLength: int
    var pitchBuffer: array<PitchPoint>

    /** The stored points pair up and are voiced; the cursor is a sample index of the recorded rate. */
    predicate Valid()
      reads this, pitchBuffer
    {
      GateOk(State(), minSilenceRunLength, minVoicingRunLength) && SeriesOk(State()) &&
      lastTime >= 0 && (lastSampleRate == -1.0 || lastSampleRate > 0.0) &&
      (lastSampleRate == -1.0 ==> lastTime == 0)
    }

    /** The buffer and the stored points as values. */
    function State(): Gated
      reads this, pitchBuffer
    {
      Gated(pitchBuffer[..], times, pitches)
    }

    /** A controller with no points, no rate yet, zero run lengths and a one-slot unvoiced buffer. */
    constructor ()
      ensures Valid() && fresh(pitchBuffer)
      ensures lastTime == 0 && lastSampleRate == -1.0 && times == [] && pitches == []
      ensures minSilenceRunLength == 0 && minVoicingRunLength == 0 && pitchBuffer[..] == [Unvoiced]
    {
      lastTime := 0;
      lastSampleRate := -1.0;
      times := [];
      pitches := [];
      minSilenceRunLength := 0;
      minVoicingRunLength := 0;
      pitchBuffer := new PitchPoint[Max(0, 0) + 1](_ => Unvoiced);
    }

    /** `forceClear`: back to the freshly built state, keeping the buffer's length. */
    method ForceClear()
      requires Valid()
      modifies this, pitchBuffer
      ensures Valid() && pitchBuffer == old(pitchBuffer)
      ensures lastTime == 0 && lastSampleRate == -1.0 && times == [] && pitches == []
      ensures minSilenceRunLength == 0 && minVoicingRunLength == 0
      ensures pitchBuffer[..] == seq(pitchBuffer.Length, _ => Unvoiced)
    {
      lastTime := 0;
      lastSampleRate := -1.0;
      times := [];
      pitches := [];
      minSilenceRunLength := 0;
      minVoicingRunLength := 0;
      FillUnvoiced();
    }

    /** `std::fill` of the buffer with the unvoiced point. */
    method FillUnvoiced()
      modifies pitchBuffer
      ensures pitchBuffer[..] == seq(pitchBuffer.Length, _ => Unvoiced)
    {
      for i := 0 to pitchBuffer.Length
        invariant forall j :: 0 <= j < i ==> pitchBuffer[j] == Unvoiced
      {
        pitchBuffer[i] := Unvoiced;
      }
    }

    /** The search for a voiced slot that ends a too short silence at the front. */
    method FindReplacement() returns (r: Option<real>)
      requires 0 <= minSilenceRunLength <= pitchBuffer.Length
      ensures r == FirstVoiced(pitchBuffer[..], 1, minSilenceRunLength)
    {
      r := None;
      var k := 1;
      while k < minSilenceRunLength
        invariant 1 <= k && (k <= minSilenceRunLength || k == 1)
        invariant FirstVoiced(pitchBuffer[..], 1, minSilenceRunLength) == FirstVoiced(pitchBuffer[..], k, minSilenceRunLength)
      {
        if pitchBuffer[k].pitch > 0.0 {
          r := Some(pitchBuffer[k].pitch);
          return;
        }
        k := k + 1;
      }
    }

    /** The check that no slot after the front within the voicing run length is unvoiced. */
    method LongEnough() returns (ok: bool)
      requires 0 <= minVoicingRunLength <= pitchBuffer.Length
      ensures ok == NoUnvoiced(pitchBuffer[..], minVoicingRunLength)
    {
      ok := true;
      var k := 1;
      while k < minVoicingRunLength
        invariant 1 <= k && (k <= minVoicingRunLength || k == 1)
        invariant forall j :: 1 <= j < k ==> !(pitchBuffer[j].pitch < 0.0)
      {
        if pitchBuffer[k].pitch < 0.0 {
          ok := false;
          return;
        }
        k := k + 1;
      }
    }

    /** `std::rotate` by one: every slot moves one towards the front and the front goes to the back. */
    method Rotate()
      requires pitchBuffer.Length >= 1
      modifies pitchBuffer
      ensures pitchBuffer[..] == old(pitchBuffer[1..]) + [old(pitchBuffer[0])]
    {
      var first := pitchBuffer[0];
      var n := pitchBuffer.Length;
      for i := 0 to n - 1
        invariant forall j :: 0 <= j < i ==> pitchBuffer[j] == old(pitchBuffer[j + 1])
        invariant forall j :: i <= j < n ==> pitchBuffer[j] == old(pitchBuffer[j])
      {
        pitchBuffer[i] := pitchBuffer[i + 1];
      }
      pitchBuffer[n - 1] := first;
    }

    /** One frame through the buffer: the body of the frame loop after the pitch is known. */
    method Gate(pt: PitchPoint)
      requires Valid()
      modifies this`times, this`pitches, pitchBuffer
      ensures Valid()
      ensures State() == GateStep(old(State()), pt, minSilenceRunLength, minVoicingRunLength)
    {
      GateStepKeeps(State(), pt, minSilenceRunLength, minVoicingRunLength);
      var front := PlaceFront(pt);
      StoreIfLongEnough(front);
      Rotate();
    }

    /** The new point into the last slot, then a silent front filled in if a voiced slot follows soon enough. */
    method PlaceFront(pt: PitchPoint) returns (front: PitchPoint)
      requires 1 <= pitchBuffer.Length && 0 <= minSilenceRunLength <= pitchBuffer.Length
      modifies pitchBuffer
      ensures front == Front(old(pitchBuffer[..])[pitchBuffer.Length - 1 := pt], minSilenceRunLength)
      ensures pitchBuffer[..] == old(pitchBuffer[..])[pitchBuffer.Length - 1 := pt][0 := front]
    {
      var n := pitchBuffer.Length;
      pitchBuffer[n - 1] := pt;
      front := pitchBuffer[0];
      if front.pitch < 0.0 {
        var r := FindReplacement();
        if r.Some? {
          front := front.(pitch := r.value);
          pitchBuffer[0] := front;
        }
      }
    }

    /** The front stored when voiced and followed by a long enough voiced run. */
    method StoreIfLongEnough(front: PitchPoint)
      requires 0 <= minVoicingRunLength <= pitchBuffer.Length
      modifies this`times, this`pitches
      ensures var keep := front.pitch > 0.0 && NoUnvoiced(pitchBuffer[..], minVoicingRunLength);
              times == (if keep then old(times) + [front.time] else old(times)) &&
              pitches == (if keep then old(pitches) + [front.pitch] else old(pitches))
    {
      if front.pitch > 0.0 {
        var ok := LongEnough();
        if ok {
          times := times + [front.time];
          pitches := pitches + [front.pitch];
        }
      }
    }
  
    /**
     * The frame loop of `updateIfNeeded` over the mean-removed window `s`
     * starting at track sample `index0`: one frame every wl samples while a
     * whole window and one more sample remain, each put through the buffer.
     */
    method AnalyseFrames(s: seq<real>, index0: int, fs: real, p: Params, downsample: Downsampler,
                         sqrt: real -> real, latency: real)
      returns (start: int, ghost frames: seq<PitchPoint>, ghost traces: seq<FrameTrace>)
      requires Valid() && ParamsOk(p) && fs > 0.0
      modifies this`times, this`pitches, pitchBuffer
      ensures Valid()
      ensures start >= 0 && start == FrameStart(|frames|, p.wl) && |s| <= start + p.wl
      ensures FramesAt(frames, index0, p.wl, latency, fs, |s|)
      ensures FramesPitched(frames, traces, s, fs, p, downsample, sqrt)
      ensures State() == GateAll(old(State()), frames, minSilenceRunLength, minVoicingRunLength)
    {
      ghost var g0 := State();
      start := 0;
      frames, traces := [], [];
      var dsNccf := Zeros(p.dsK2 + 1);
      while start + p.wl < |s|
        invariant Valid() && start >= 0 && start == FrameStart(|frames|, p.wl) && ZeroOutside(dsNccf, p)
        invariant FramesAt(frames, index0, p.wl, latency, fs, |s|)
        invariant FramesPitched(frames, traces, s, fs, p, downsample, sqrt)
        invariant State() == GateAll(g0, frames, minSilenceRunLength, minVoicingRunLength)
        decreases |s| - start
      {
        var pt;
        ghost var trace;
        dsNccf, pt, trace := FrameStep(s, start, index0, fs, p, dsNccf, downsample, sqrt, latency, g0, frames, traces);
        frames, traces := frames + [pt], traces + [trace];
        start := start + p.wl;
      }
    }

    /** The frame's pitch at `start`, stamped with the frame's time. */
    static method FramePoint(s: seq<real>, start: int, index0: int, fs: real, p: Params, dsNccf: seq<real>,
                             downsample: Downsampler, sqrt: real -> real, latency: real)
      returns (nextNccf: seq<real>, pt: PitchPoint, ghost trace: FrameTrace)
      requires ParamsOk(p) && fs > 0.0 && 0 <= start && start + p.wl < |s| && ZeroOutside(dsNccf, p)
      ensures ZeroOutside(nextNccf, p)
      ensures pt.time == Seconds(index0 + start, latency, fs)
      ensures FrameOk(s, start, fs, p, downsample, sqrt, trace, pt.pitch)
    {
      var pitch, next, t := FramePitch(s, start, fs, p, dsNccf, downsample, sqrt);
      FromZeros(s, start, p, dsNccf, downsample, sqrt, t.dss, next, t.dsPeaks, t.dsAt, t.dsAll);
      trace := t;
      nextNccf := next;
      var time := Seconds(index0 + start, latency, fs);
      pt := PitchPoint(time, pitch);
    }

    /** The body of the frame loop: the frame's pitch at `start`, put through the buffer. */
    method FrameStep(s: seq<real>, start: int, index0: int, fs: real, p: Params, dsNccf: seq<real>,
                     downsample: Downsampler, sqrt: real -> real, latency: real,
                     ghost g0: Gated, ghost frames: seq<PitchPoint>, ghost traces: seq<FrameTrace>)
      returns (nextNccf: seq<real>, pt: PitchPoint, ghost trace: FrameTrace)
      requires Valid() && ParamsOk(p) && fs > 0.0 && 0 <= start && start + p.wl < |s| && |dsNccf| == p.dsK2 + 1
      requires start == FrameStart(|frames|, p.wl) && FramesAt(frames, index0, p.wl, latency, fs, |s|)
      requires GateOk(g0, minSilenceRunLength, minVoicingRunLength)
      requires State() == GateAll(g0, frames, minSilenceRunLength, minVoicingRunLength)
      requires ZeroOutside(dsNccf, p) && FramesPitched(frames, traces, s, fs, p, downsample, sqrt)
      modifies this`times, this`pitches, pitchBuffer
      ensures Valid() && ZeroOutside(nextNccf, p)
      ensures start + p.wl == FrameStart(|frames + [pt]|, p.wl) && FramesAt(frames + [pt], index0, p.wl, latency, fs, |s|)
      ensures FramesPitched(frames + [pt], traces + [trace], s, fs, p, downsample, sqrt)
      ensures State() == GateAll(g0, frames + [pt], minSilenceRunLength, minVoicingRunLength)
    {
      nextNccf, pt, trace := NextFrame(s, start, index0, fs, p, dsNccf, downsample, sqrt, latency, frames, traces);
      GateAllAppend(g0, frames, pt, minSilenceRunLength, minVoicingRunLength);
      Gate(pt);
    }

    /** The next frame's point: the frames stay placed and pitched with it appended. */
    static method NextFrame(s: seq<real>, start: int, index0: int, fs: real, p: Params, dsNccf: seq<real>,
                            downsample: Downsampler, sqrt: real -> real, latency: real,
                            ghost frames: seq<PitchPoint>, ghost traces: seq<FrameTrace>)
      returns (nextNccf: seq<real>, pt: PitchPoint, ghost trace: FrameTrace)
      requires ParamsOk(p) && fs > 0.0 && 0 <= start && start + p.wl < |s| && ZeroOutside(dsNccf, p)
      requires start == FrameStart(|frames|, p.wl) && FramesAt(frames, index0, p.wl, latency, fs, |s|)
      requires FramesPitched(frames, traces, s, fs, p, downsample, sqrt)
      ensures ZeroOutside(nextNccf, p)
      ensures start + p.wl == FrameStart(|frames + [pt]|, p.wl) && FramesAt(frames + [pt], index0, p.wl, latency, fs, |s|)
      ensures FramesPitched(frames + [pt], traces + [trace], s, fs, p, downsample, sqrt)
    {
      nextNccf, pt, trace := FramePoint(s, start, index0, fs, p, dsNccf, downsample, sqrt, latency);
      FramesAtAppend(frames, pt, start, index0, p.wl, latency, fs, |s|);
      FramesPitchedAppend(frames, traces, pt, trace, s, start, fs, p, downsample, sqrt);
    }

    /**
     * `updateIfNeeded`: rescale the cursor to the track's rate, return at
     * once when points exist and the track is shorter than the cursor, and
     * otherwise analyse the track from the cursor on and move the cursor
     * past the frames analysed.
     */
    method UpdateIfNeeded(track: seq<real>, fs: real, downsample: Downsampler, sqrt: real -> real, latency: real)
      returns (ghost frames: seq<PitchPoint>, ghost window: seq<real>, ghost traces: seq<FrameTrace>)
      requires Valid() && fs >= 1200.0
      modifies this, pitchBuffer
      ensures Valid() && pitchBuffer == old(pitchBuffer) && lastSampleRate == fs
      ensures minSilenceRunLength == old(minSilenceRunLength) && minVoicingRunLength == old(minVoicingRunLength)
      ensures var c0 := StartCursor(old(lastTime), old(lastSampleRate), fs);
              if |old(times)| > 0 && |track| < c0 then
                lastTime == c0 && frames == [] && State() == old(State())
              else
                var wl := Derive(fs).wl;
                var slice := AudioTrack.Slice(track, c0, |track| - c0 - 1);
                lastTime == c0 + FrameStart(|frames|, wl) && |slice| <= FrameStart(|frames|, wl) + wl &&
                FramesAt(frames, c0, wl, latency, fs, |slice|) &&
                State() == GateAll(old(State()), frames, minSilenceRunLength, minVoicingRunLength) &&
                Centred(window, slice) && ParamsOk(Derive(fs)) &&
                FramesPitched(frames, traces, window, fs, Derive(fs), downsample, sqrt)
    {
      Rescale(fs);
      frames, window, traces := AnalyseTrack(track, fs, downsample, sqrt, latency);
    }

    /** A change of sample rate moves the cursor to the same time at the new rate. */
    method Rescale(fs: real)
      requires Valid() && fs > 0.0
      modifies this`lastTime, this`lastSampleRate
      ensures Valid() && lastSampleRate == fs
      ensures lastTime == StartCursor(old(lastTime), old(lastSampleRate), fs)
    {
      StartCursorOk(lastTime, lastSampleRate, fs);
      if fs != lastSampleRate {
        lastTime := RescaledCursor(lastTime, lastSampleRate, fs);
        lastSampleRate := fs;
      }
    }

    /**
     * The analysis at the current rate: the frames from the cursor on,
     * gated and stored, each with the pitch of its window of the
     * mean-removed samples.
     */
    method AnalyseTrack(track: seq<real>, fs: real, downsample: Downsampler, sqrt: real -> real, latency: real)
      returns (ghost frames: seq<PitchPoint>, ghost window: seq<real>, ghost traces: seq<FrameTrace>)
      requires Valid() && fs >= 1200.0 && lastSampleRate == fs
      modifies this`lastTime, this`times, this`pitches, pitchBuffer
      ensures Valid()
      ensures var c0 := old(lastTime);
              if |old(times)| > 0 && |track| < c0 then
                lastTime == c0 && frames == [] && State() == old(State())
              else
                var wl := Derive(fs).wl;
                var slice := AudioTrack.Slice(track, c0, |track| - c0 - 1);
                lastTime == c0 + FrameStart(|frames|, wl) && |slice| <= FrameStart(|frames|, wl) + wl &&
                FramesAt(frames, c0, wl, latency, fs, |slice|) &&
                State() == GateAll(old(State()), frames, minSilenceRunLength, minVoicingRunLength) &&
                Centred(window, slice) && ParamsOk(Derive(fs)) &&
                FramesPitched(frames, traces, window, fs, Derive(fs), downsample, sqrt)
    {
      var trackSamples := |track|;
      window, traces := [], [];
      if |times| > 0 && trackSamples < lastTime {
        frames := [];
        return;
      }
      var p := Derive(fs);
      DeriveOk(fs);
      var index0 := lastTime;
      var s := AudioTrack.Slice(track, index0, trackSamples - index0 - 1);
      ghost var slice := s;
      s := SubtractReferenceMean(s);
      window := s;
      var start;
      start, frames, traces := AnalyseFrames(s, index0, fs, p, downsample, sqrt, latency);
      lastTime := lastTime + start;
      assert GateOk(State(), minSilenceRunLength, minVoicingRunLength) && SeriesOk(State());
    }

    /** `getPitchesForRange`: the stored points whose time lies in [timeMin, timeMax], in order. */
    method GetPitchesForRange(timeMin: real, timeMax: real, timePerPixel: real) returns (r: PitchResults)
      requires Valid()
      ensures r == InRange(times, pitches, timeMin, timeMax)
    {
      r := PitchResults([], []);
      for i := 0 to |times|
        invariant r == InRange(times[..i], pitches[..i], timeMin, timeMax)
      {
        assert times[..i + 1][..i] == times[..i] && pitches[..i + 1][..i] == pitches[..i];
        var time := times[i];
        if time >= timeMin && time <= timeMax {
          var pitch := pitches[i];
          r := PitchResults(r.times + [time], r.pitches + [pitch]);
        }
      }
      assert times[..|times|] == times && pitches[..|pitches|] == pitches;
    }

    /**
     * `getInterpolatedVoicing`: the voicing (0 or 1) of the stored points,
     * held at the end values outside them and interpolated by a cubic
     * Hermite curve between them.
     */
    method GetInterpolatedVoicing(x: real) returns (v: real)
      requires Valid() && |times| > 0
      ensures x < times[0] ==> v == Voicing(pitches[0])
      ensures times[0] <= x && times[|times| - 1] <= x ==> v == Voicing(pitches[|pitches| - 1])
      ensures times[0] <= x < times[|times| - 1] ==>
                exists left :: LastBracket(times, x, left) && v == HermiteVoicing(times, pitches, x, left)
      ensures Increasing(times) ==> forall i :: 0 <= i < |times| && x == times[i] ==> v == Voicing(pitches[i])
      ensures (forall i :: 0 <= i < |pitches| ==> Voicing(pitches[i]) == Voicing(pitches[0])) ==> v == Voicing(pitches[0])
    {
      var n := |times|;
      if x < times[0] {
        v := if pitches[0] < 0.0 then 0.0 else 1.0;
      } else if x >= times[n - 1] {
        v := if pitches[n - 1] < 0.0 then 0.0 else 1.0;
      } else {
        var left := FindBracket(times, x);
        v := HermiteVoicing(times, pitches, x, left);
        if Increasing(times) {
          forall i | 0 <= i < n && x == times[i] ensures v == Voicing(pitches[i]) {
            if i < n - 1 {
              KnotBracket(times, i);
              HermiteVoicingAtKnot(times, pitches, i);
            }
          }
        }
        if forall i :: 0 <= i < |pitches| ==> Voicing(pitches[i]) == Voicing(pitches[0]) {
          HermiteVoicingFlat(times, pitches, x, left);
        }
      }
    }
  }

  /** The offset of frame i in the analysed window: i whole windows of wl samples. */
  function FrameStart(i: nat, wl: int): int
  {
    if i == 0 then 0 else FrameStart(i - 1, wl) + wl
  }

  /** Frame i starts i·wl samples in. */
  lemma {:induction false} FrameStartIsProduct(i: nat, wl: int)
    ensures FrameStart(i, wl) == i * wl
  {
    if i > 0 {
      FrameStartIsProduct(i - 1, wl);
      assert (i - 1) * wl + wl == i * wl;
    }
  }

  /** Frame i was analysed (a window and one more sample fit after its start) and carries its time. */
  predicate FramesAt(frames: seq<PitchPoint>, index0: int, wl: int, latency: real, fs: real, len: int)
    requires fs > 0.0
  {
    forall i :: 0 <= i < |frames| ==> FrameStart(i, wl) + wl < len && frames[i].time == FrameTime(index0, i, wl, latency, fs)
  }

  /**
   * Each frame that fits in `s` carries the pitch of its window, traced as
   * FrameOk says; stated frame by frame from the last, FramesPitchedAt
   * reads it at any frame.
   */
  ghost predicate FramesPitched(frames: seq<PitchPoint>, traces: seq<FrameTrace>, s: seq<real>, fs: real,
                                p: Params, downsample: Downsampler, sqrt: real -> real)
    requires ParamsOk(p)
    decreases |frames|
  {
    |traces| == |frames| &&
    (|frames| > 0 ==>
       var n := |frames| - 1;
       FramesPitched(frames[..n], traces[..n], s, fs, p, downsample, sqrt) &&
       (0 <= FrameStart(n, p.wl) && FrameStart(n, p.wl) + p.wl < |s| ==>
          FrameOk(s, FrameStart(n, p.wl), fs, p, downsample, sqrt, traces[n], frames[n].pitch)))
  }

  /** Every frame i of pitched frames whose window fits in `s` carries the pitch of that window. */
  lemma {:induction false} FramesPitchedAt(frames: seq<PitchPoint>, traces: seq<FrameTrace>, s: seq<real>, fs: real,
                                           p: Params, downsample: Downsampler, sqrt: real -> real, i: int)
    requires ParamsOk(p) && FramesPitched(frames, traces, s, fs, p, downsample, sqrt)
    requires 0 <= i < |frames| && 0 <= FrameStart(i, p.wl) && FrameStart(i, p.wl) + p.wl < |s|
    ensures |traces| == |frames|
    ensures FrameOk(s, FrameStart(i, p.wl), fs, p, downsample, sqrt, traces[i], frames[i].pitch)
    decreases |frames|
  {
    var n := |frames| - 1;
    if i < n {
      FramesPitchedAt(frames[..n], traces[..n], s, fs, p, downsample, sqrt, i);
      assert frames[..n][i] == frames[i] && traces[..n][i] == traces[i];
    }
  }

  /** One more frame with the pitch of the next window keeps the frames pitched. */
  lemma FramesPitchedAppend(frames: seq<PitchPoint>, traces: seq<FrameTrace>, pt: PitchPoint, t: FrameTrace,
                            s: seq<real>, start: int, fs: real, p: Params, downsample: Downsampler, sqrt: real -> real)
    requires ParamsOk(p) && FramesPitched(frames, traces, s, fs, p, downsample, sqrt)
    requires start == FrameStart(|frames|, p.wl) && 0 <= start && start + p.wl < |s|
    requires FrameOk(s, start, fs, p, downsample, sqrt, t, pt.pitch)
    ensures FramesPitched(frames + [pt], traces + [t], s, fs, p, downsample, sqrt)
  {
    var fr, tr := frames + [pt], traces + [t];
    assert fr[..|frames|] == frames && tr[..|frames|] == traces;
  }

  /** One more frame, at the next start, keeps the frames placed. */
  lemma FramesAtAppend(frames: seq<PitchPoint>, pt: PitchPoint, start: int, index0: int, wl: int, latency: real,
                       fs: real, len: int)
    requires fs > 0.0 && FramesAt(frames, index0, wl, latency, fs, len)
    requires start == FrameStart(|frames|, wl) && start + wl < len
    requires pt.time == Seconds(index0 + start, latency, fs)
    ensures FramesAt(frames + [pt], index0, wl, latency, fs, len)
  {
    var sample := index0 + FrameStart(|frames|, wl);
    assert sample == index0 + start;
    assert FrameTime(index0, |frames|, wl, latency, fs) == Seconds(sample, latency, fs) == pt.time;
  }

  /** The time of frame i: its first sample, less the downsampler's latency, in seconds. */
  function FrameTime(index0: int, i: nat, wl: int, latency: real, fs: real): real
    requires fs > 0.0
  {
    Seconds(index0 + FrameStart(i, wl), latency, fs)
  }

  /** Sample `sample`, less the downsampler's latency, in seconds at rate fs. */
  function Seconds(sample: int, latency: real, fs: real): real
    requires fs > 0.0
  {
    (sample as real - latency) / fs
  }

  /** The cursor in samples of fs: rescaled when the rate changed, as it was otherwise. */
  function StartCursor(lastTime: int, lastRate: real, fs: real): int
    requires lastRate != 0.0
  {
    if fs != lastRate then RescaledCursor(lastTime, lastRate, fs) else lastTime
  }

  /** From a valid cursor the start cursor is a sample index too. */
  lemma StartCursorOk(lastTime: int, lastRate: real, fs: real)
    requires lastTime >= 0 && fs > 0.0 && (lastRate == -1.0 || lastRate > 0.0) && (lastRate == -1.0 ==> lastTime == 0)
    ensures StartCursor(lastTime, lastRate, fs) >= 0
  {
    if lastRate > 0.0 {
      RescaledCursorKeepsTime(lastTime, lastRate, fs);
    } else if fs != lastRate {
      assert (lastTime as real / lastRate) * fs == 0.0;
      Routines.ERoundOdd(0.0);
    }
  }
}
