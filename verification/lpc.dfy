/**
 * Linear prediction by the autocorrelation method (lpc.cpp): the window's
 * autocorrelation up to the order, then a Levinson recursion that tracks
 * the residual gain and gives up as soon as the gain stops being positive.
 */
module Lpc {
  import opened Wrappers
  import opened Routines
  import opened Dreflpc
  import opened Durbin
  import opened Autoc
  import opened CNum

  /** Σ_{i=lag}^{hi-1} w[i]·w[i-lag]: the autocorrelation of the window at `lag`, over samples below hi. */
  function LagProduct(w: seq<real>, lag: nat, hi: int): real
    requires hi <= |w| || hi <= lag
    decreases hi
  {
    if hi <= lag then 0.0 else LagProduct(w, lag, hi - 1) + w[hi - 1] * w[hi - 1 - lag]
  }

  /** The lags 0..m of the window's autocorrelation (the source keeps them one-based, in r[1..m+1]). */
  function Autocorrelation(w: seq<real>, m: nat): (rr: seq<real>)
    ensures |rr| == m + 1 && forall t :: 0 <= t <= m ==> rr[t] == LagProduct(w, t, |w|)
  {
    seq(m + 1, t => if 0 <= t then LagProduct(w, t, |w|) else 0.0)
  }

  /** Lag 0 of the autocorrelation is the window's energy (the quantity `autoc` normalises by). */
  lemma {:induction false} LagZeroIsWindowEnergy(w: seq<real>, hi: nat)
    requires hi <= |w|
    ensures LagProduct(w, 0, hi) == Energy(w, hi)
  {
    if hi > 0 {
      LagZeroIsWindowEnergy(w, hi - 1);
    }
  }

  /**
   * The autocorrelation of `lpc` and the lag sums of `autoc` agree: summing
   * w[i]·w[i-lag] over i ≥ lag is summing w[j]·w[lag+j] over j.
   */
  lemma {:induction false} LagProductIsLagSum(w: seq<real>, lag: nat, m: nat)
    requires lag + m <= |w|
    ensures LagProduct(w, lag, lag + m) == LagSum(w, lag, m)
  {
    if m > 0 {
      LagProductIsLagSum(w, lag, m - 1);
      Commute(w[lag + m - 1], w[m - 1]);
    }
  }

  /** Σ_{t<hi} rr[n-t]·a[t]: the prediction of lag n by the predictor a. */
  function LagDot(rr: seq<real>, a: seq<real>, n: int, hi: int): real
    requires 0 <= hi <= |a| && hi - 1 <= n < |rr|
    decreases hi
  {
    if hi == 0 then 0.0 else LagDot(rr, a, n, hi - 1) + rr[n - hi + 1] * a[hi - 1]
  }

  /** A predictor together with its residual gain. */
  datatype LpcStep = LpcStep(a: seq<real>, gain: real)

  /** The reflection coefficient -s/gain. */
  function Reflect(s: real, gain: real): real
    requires gain != 0.0
  {
    -s / gain
  }

  /** The gain after an order with reflection coefficient rc and prediction s. */
  function Gained(gain: real, rc: real, s: real): real
  {
    gain + rc * s
  }

  /** Order 1: predictor [1, -rr[1]/rr[0]] and gain rr[0] + rr[1]·rc. */
  function FirstOrder(rr: seq<real>): (st: LpcStep)
    requires 2 <= |rr| && rr[0] != 0.0
    ensures |st.a| == 2 && st.a[0] == 1.0
  {
    var rc := -rr[1] / rr[0];
    LpcStep([1.0, rc], rr[0] + rr[1] * rc)
  }

  /**
   * The recursion of `lpc` to order i ≥ 1 over the autocorrelation rr: each
   * order past the first predicts lag i with the current predictor, takes
   * rc = -s/gain, updates the gain to gain + rc·s and steps the predictor up;
   * None as soon as that gain is not positive.  Only the first gain is not
   * checked by the source, so it must not vanish before it is divided by.
   */
  function LpcState(rr: seq<real>, i: nat): (st: Option<LpcStep>)
    requires 1 <= i < |rr| && rr[0] != 0.0
    requires i >= 2 ==> FirstOrder(rr).gain != 0.0
    ensures st.Some? ==> |st.value.a| == i + 1 && st.value.a[0] == 1.0
    ensures st.Some? && i >= 2 ==> st.value.gain > 0.0
  {
    if i == 1 then Some(FirstOrder(rr))
    else
      var prev :- LpcState(rr, i - 1);
      var s := LagDot(rr, prev.a, i, i);
      var rc := Reflect(s, prev.gain);
      var g := Gained(prev.gain, rc, s);
      if g <= 0.0 then None else Some(LpcStep(StepUp(prev.a, rc), g))
  }

  /** One order of LpcState, unfolded. */
  lemma LpcUnfold(rr: seq<real>, m: nat)
    requires 1 <= m && m + 1 < |rr| && rr[0] != 0.0 && FirstOrder(rr).gain != 0.0
    ensures LpcState(rr, m + 1).Some? ==> LpcState(rr, m).Some?
    ensures LpcState(rr, m).Some? ==>
      var prev := LpcState(rr, m).value;
      prev.gain != 0.0 &&
      var s := LagDot(rr, prev.a, m + 1, m + 1);
      var rc := Reflect(s, prev.gain);
      var g := Gained(prev.gain, rc, s);
      LpcState(rr, m + 1) == if g <= 0.0 then None else Some(LpcStep(StepUp(prev.a, rc), g))
  {
  }

  /** Once the gain fails, every higher order fails too. */
  lemma {:induction false} LpcPrefix(rr: seq<real>, i: nat, n: nat)
    requires 1 <= i <= n < |rr| && rr[0] != 0.0 && (n >= 2 ==> FirstOrder(rr).gain != 0.0)
    requires LpcState(rr, n).Some?
    ensures LpcState(rr, i).Some?
    decreases n - i
  {
    if i < n {
      var m := n - 1;
      LpcUnfold(rr, m);
      LpcPrefix(rr, i, m);
    }
  }

  /** With a[0] = 1 the prediction is lag n plus the correlation Durbin's recursion uses. */
  lemma {:induction false} LagDotSplits(rr: seq<real>, a: seq<real>, n: int, hi: int)
    requires 1 <= hi <= |a| && hi - 1 <= n < |rr| && a[0] == 1.0
    ensures LagDot(rr, a, n, hi) == rr[n] + Correlate(a, rr, n, 1, hi)
  {
    if hi > 1 {
      LagDotSplits(rr, a, n, hi - 1);
      Commute(rr[n - hi + 1], a[hi - 1]);
    }
  }

  /** With rc = -s/e the gain update e + rc·s is Durbin's error update e·(1 - rc²). */
  lemma GainIsShrunk(e: real, s: real, rc: real)
    requires e != 0.0 && rc == -s / e
    ensures Gained(e, rc, s) == Shrunk(e, rc)
  {
    assert s == -(rc * e);
    assert rc * s == -(rc * (rc * e));
    assert rc * (rc * e) == e * (rc * rc);
  }

  lemma FirstGainIsShrunk(r0: real, r1: real)
    requires r0 != 0.0
    ensures r0 + r1 * (-r1 / r0) == Shrunk(r0, (-0.0 - r1) / r0)
  {
    var rc := -r1 / r0;
    assert (-0.0 - r1) / r0 == rc;
    GainIsShrunk(r0, r1, rc);
  }

  /**
   * The recursion of `lpc` and the Levinson-Durbin recursion of `durbin`
   * compute the same predictor and the same residual error wherever the
   * gain check of `lpc` lets it proceed.
   */
  lemma {:induction false} LpcAgreesWithDurbin(rr: seq<real>, i: nat)
    requires 1 <= i < |rr| && rr[0] != 0.0 && (i >= 2 ==> FirstOrder(rr).gain != 0.0)
    requires LpcState(rr, i).Some?
    ensures DurbinState(rr, i).Some?
    ensures DurbinState(rr, i).value.p == LpcState(rr, i).value.a
    ensures DurbinState(rr, i).value.e == LpcState(rr, i).value.gain
  {
    if i == 1 {
      NextState(rr, 0, Lev([], [1.0], rr[0]));
      FirstGainIsShrunk(rr[0], rr[1]);
      assert Correlate([1.0], rr, 1, 1, 1) == 0.0;
      assert StepUp([1.0], (-0.0 - rr[1]) / rr[0]) == [1.0, (-0.0 - rr[1]) / rr[0]];
    } else {
      var m := i - 1;
      LpcUnfold(rr, m);
      LpcAgreesWithDurbin(rr, m);
      OrderAgrees(rr, m, LpcState(rr, m).value, DurbinState(rr, m).value);
    }
  }

  /** One order of both recursions from states that agree. */
  lemma OrderAgrees(rr: seq<real>, m: nat, prev: LpcStep, dprev: Lev)
    requires 1 <= m && m + 1 < |rr| && rr[0] != 0.0 && FirstOrder(rr).gain != 0.0
    requires LpcState(rr, m) == Some(prev) && DurbinState(rr, m) == Some(dprev)
    requires prev.a == dprev.p && prev.gain == dprev.e && LpcState(rr, m + 1).Some?
    ensures DurbinState(rr, m + 1).Some?
    ensures DurbinState(rr, m + 1).value.p == LpcState(rr, m + 1).value.a
    ensures DurbinState(rr, m + 1).value.e == LpcState(rr, m + 1).value.gain
  {
    LpcUnfold(rr, m);
    DurbinForward(rr, m, dprev);
    StepsAgree(rr, m, prev, dprev);
  }

  /** The reflection coefficient and gain of one `lpc` order are Durbin's reflection coefficient and error. */
  lemma StepsAgree(rr: seq<real>, m: nat, prev: LpcStep, dprev: Lev)
    requires m + 1 < |rr| && |prev.a| == m + 1 && prev.a[0] == 1.0
    requires prev.a == dprev.p && prev.gain == dprev.e && dprev.e != 0.0
    ensures var s := LagDot(rr, prev.a, m + 1, m + 1);
      var rc := Reflect(s, prev.gain);
      rc == Reflection(dprev.p, rr, m + 1, dprev.e) && Gained(prev.gain, rc, s) == Shrunk(dprev.e, rc)
  {
    var s := LagDot(rr, prev.a, m + 1, m + 1);
    var rc := Reflect(s, prev.gain);
    LagDotSplits(rr, prev.a, m + 1, m + 1);
    ReflectIsReflection(s, Correlate(dprev.p, rr, m + 1, 1, m + 1), rr[m + 1], prev.gain);
    GainIsShrunk(prev.gain, s, rc);
  }

  lemma ReflectIsReflection(s: real, c: real, r: real, e: real)
    requires e != 0.0 && s == r + c
    ensures Reflect(s, e) == (-c - r) / e
  {
    assert -s == -c - r;
  }

  /** The source's pair update: both entries from their old values, correct also when j == k. */
  method PairUpdate(a: array<real>, j: int, k: int, c: real)
    requires 0 <= j <= k < a.Length
    modifies a
    ensures a[j] == Mixed(old(a[j]), old(a[k]), c) && a[k] == Mixed(old(a[k]), old(a[j]), c)
    ensures forall t :: 0 <= t < a.Length && t != j && t != k ==> a[t] == old(a[t])
  {
    var at := a[j] + c * a[k];
    a[k] := a[k] + c * a[j];
    a[j] := at;
  }

  /**
   * The pair loop of order i over the one-based predictor a[1..i]: for
   * j = 2..i/2+1 the pair (j, i-j+2) is mixed with rc; then rc becomes
   * a[i+1].  Together: a[1..i+2) is the stepped-up predictor.
   */
  method StepUpShifted(a: array<real>, i: int, c: real)
    requires 2 <= i && i + 1 < a.Length
    modifies a
    ensures a[1..i + 2] == StepUp(old(a[1..i + 1]), c)
    ensures a[0] == old(a[0]) && forall t :: i + 1 < t < a.Length ==> a[t] == old(a[t])
  {
    ghost var p := a[1..i + 1];
    MixPairs(a, i, c, p);
    a[i + 1] := c;
    ShiftedStepUp(a[1..i + 2], p, c);
  }

  /** The pair loop alone: afterwards a[t] = p[t-1] + c·p[i+1-t] for t = 2..i. */
  method MixPairs(a: array<real>, i: int, c: real, ghost p: seq<real>)
    requires 2 <= i && i + 1 < a.Length && p == a[1..i + 1]
    modifies a
    ensures a[0] == old(a[0]) && a[1] == p[0]
    ensures forall t :: 2 <= t <= i ==> a[t] == Mixed(p[t - 1], p[i + 1 - t], c)
    ensures forall t :: i < t < a.Length ==> a[t] == old(a[t])
  {
    var j := 2;
    while j <= i / 2 + 1
      invariant 2 <= j <= i / 2 + 2
      invariant a[0] == old(a[0]) && a[1] == p[0]
      invariant forall t :: 2 <= t < j ==> a[t] == Mixed(p[t - 1], p[i + 1 - t], c)
      invariant forall t :: i + 2 - j < t <= i ==> a[t] == Mixed(p[t - 1], p[i + 1 - t], c)
      invariant forall t :: j <= t <= i + 2 - j ==> a[t] == p[t - 1]
      invariant forall t :: i < t < a.Length ==> a[t] == old(a[t])
    {
      PairUpdate(a, j, i - j + 2, c);
      j := j + 1;
    }
  }

  /** The mixed entries followed by c are the stepped-up predictor. */
  lemma ShiftedStepUp(x: seq<real>, p: seq<real>, c: real)
    requires |x| == |p| + 1 && |p| >= 2 && x[0] == p[0] && x[|p|] == c
    requires forall t :: 1 <= t < |p| ==> x[t] == Mixed(p[t], p[|p| - t], c)
    ensures x == StepUp(p, c)
  {
  }

  /** The prediction s = Σ_{j=1}^{i} r[i-j+2]·a[j] over the one-based arrays. */
  method Predict(r: array<real>, a: array<real>, i: int) returns (s: real)
    requires 1 <= i && i + 1 < r.Length && i < a.Length
    ensures s == LagDot(r[1..], a[1..i + 1], i, i)
  {
    ghost var rr := r[1..];
    ghost var p := a[1..i + 1];
    s := 0.0;
    var j := 1;
    while j <= i
      invariant 1 <= j <= i + 1 && s == LagDot(rr, p, i, j - 1)
    {
      assert r[i - j + 2] == rr[i - j + 1] && a[j] == p[j - 1];
      s := s + r[i - j + 2] * a[j];
      j := j + 1;
    }
  }

  /** One pass of the order loop: predict, reflect, step the predictor up and update the gain. */
  method Order(r: array<real>, a: array<real>, rc: array<real>, i: int, gain: real, ghost rr: seq<real>, ghost p: seq<real>)
    returns (gain': real)
    requires 2 <= i < rc.Length && i + 1 < a.Length && i + 1 < r.Length && gain != 0.0
    requires r != a && a != rc && r != rc && r[1..] == rr && a[1..i + 1] == p
    modifies a, rc
    ensures var s := LagDot(rr, p, i, i);
      rc[i] == Reflect(s, gain) && gain' == Gained(gain, rc[i], s)
    ensures a[1..i + 2] == StepUp(p, rc[i])
    ensures a[0] == old(a[0]) && forall t :: i + 1 < t < a.Length ==> a[t] == old(a[t])
    ensures forall t :: 0 <= t < rc.Length && t != i ==> rc[t] == old(rc[t])
  {
    var s := Predict(r, a, i);
    rc[i] := -s / gain;
    StepUpShifted(a, i, rc[i]);
    gain' := gain + rc[i] * s;
  }

  /** The autocorrelation loop: r[j+1] = Σ_{i=j}^{n-1} w[i]·w[i-j] for j = m down to 0. */
  method Autocorrelate(dwind: seq<real>, r: array<real>, m: int)
    requires 0 <= m && r.Length == m + 2
    modifies r
    ensures r[1..] == Autocorrelation(dwind, m)
  {
    var n := |dwind|;
    var j := m + 1;
    while j > 0
      invariant 0 <= j <= m + 1
      invariant forall t :: j <= t <= m ==> r[t + 1] == LagProduct(dwind, t, n)
    {
      j := j - 1;
      var d := 0.0;
      var i := j;
      while i < n
        invariant j <= i && (j <= n ==> i <= n) && (j > n ==> i == j)
        invariant d == LagProduct(dwind, j, i)
      {
        d := d + dwind[i] * dwind[i - j];
        i := i + 1;
      }
      assert d == LagProduct(dwind, j, n);
      r[j + 1] := d;
    }
    assert r[1..] == Autocorrelation(dwind, m);
  }

  /**
   * The recursion loop over one-based r[1..m+2) = rr: order 1 from the
   * first two lags, then orders 2..m, stopping at the first non-positive gain.
   */
  method Recursion(r: array<real>, a: array<real>, rc: array<real>, m: int, ghost rr: seq<real>)
    returns (ok: bool, gain: real)
    requires 1 <= m && r.Length == m + 2 && a.Length == m + 2 && rc.Length == m + 1
    requires r != a && a != rc && r != rc
    requires r[1..] == rr && rr[0] != 0.0 && (m >= 2 ==> FirstOrder(rr).gain != 0.0)
    modifies a, rc
    ensures ok <==> LpcState(rr, m).Some?
    ensures ok ==> a[1..m + 2] == LpcState(rr, m).value.a && gain == LpcState(rr, m).value.gain
  {
    a[1] := 1.0;
    rc[1] := -r[2] / r[1];
    a[2] := rc[1];
    gain := r[1] + r[2] * rc[1];
    ghost var st := FirstOrder(rr);
    assert a[1..3] == st.a;
    var i := 2;
    while i <= m
      invariant 2 <= i <= m + 1
      invariant LpcState(rr, i - 1) == Some(st)
      invariant a[1..i + 1] == st.a && gain == st.gain
    {
      gain, st := NextOrder(r, a, rc, i, gain, rr, st);
      if gain <= 0.0 {
        if LpcState(rr, m).Some? {
          LpcPrefix(rr, i, m);
        }
        return false, gain;
      }
      i := i + 1;
    }
    ok := true;
  }

  /** The loop body of the recursion at order i: None from LpcState exactly when the gain is not positive. */
  method NextOrder(r: array<real>, a: array<real>, rc: array<real>, i: int, gain: real, ghost rr: seq<real>, ghost st: LpcStep)
    returns (gain': real, ghost st': LpcStep)
    requires 2 <= i < rc.Length && i + 1 < a.Length && i + 1 < r.Length
    requires r != a && a != rc && r != rc && r[1..] == rr && rr[0] != 0.0 && FirstOrder(rr).gain != 0.0
    requires LpcState(rr, i - 1) == Some(st) && a[1..i + 1] == st.a && gain == st.gain
    modifies a, rc
    ensures gain' <= 0.0 <==> LpcState(rr, i).None?
    ensures gain' > 0.0 ==> LpcState(rr, i) == Some(st') && a[1..i + 2] == st'.a && gain' == st'.gain
  {
    LpcUnfold(rr, i - 1);
    gain' := Order(r, a, rc, i, gain, rr, st.a);
    st' := LpcStep(StepUp(st.a, rc[i]), gain');
  }

  /** The result copy: lpca is resized to m+1, lpca[0] = 1 and lpca[j] = a[j+1] for j = 1..m. */
  method CopyOut(a: array<real>, m: int, lpca: seq<real>) returns (lpca': seq<real>)
    requires 1 <= m && m + 2 <= a.Length && a[1] == 1.0
    ensures lpca' == a[1..m + 2]
  {
    lpca' := Resized(lpca, m + 1, 0.0);
    lpca' := lpca'[0 := 1.0];
    var j := 1;
    while j <= m
      invariant 1 <= j <= m + 1 && |lpca'| == m + 1 && lpca'[0] == 1.0
      invariant forall t :: 1 <= t < j ==> lpca'[t] == a[t + 1]
    {
      lpca' := lpca'[j := a[j + 1]];
      j := j + 1;
    }
  }

  /**
   * `lpc`.  The window (`w_window`, chosen by the window type) is the
   * parameter `window`, which yields wsize samples; `lpca` and `rms` are the
   * caller's vector and gain, returned updated.  Returns false when wsize ≤ 0,
   * when the order exceeds MAXORDER, when the window has no energy or when a
   * gain past order 1 is not positive, leaving lpca and rms as they were;
   * otherwise lpca holds the order-lpcOrd predictor (lpca[0] = 1) and rms the
   * final gain.  `lpcStabl` only feeds code the source has commented out.
   */
  method Lpc(lpcOrd: int, lpcStabl: real, wsize: int, data: seq<real>, dataOff: int,
             lpca: seq<real>, rms: real, preEmphasis: real,
             window: (seq<real>, int, int, real) -> seq<real>)
    returns (ok: bool, lpca': seq<real>, rms': real)
    requires wsize > 0 && lpcOrd <= MAXORDER ==> lpcOrd >= 1 && |window(data, dataOff, wsize, preEmphasis)| == wsize
    requires wsize > 0 && lpcOrd <= MAXORDER && lpcOrd >= 2 ==>
      var rr := Autocorrelation(window(data, dataOff, wsize, preEmphasis), lpcOrd);
      rr[0] != 0.0 ==> FirstOrder(rr).gain != 0.0
    ensures !ok ==> lpca' == lpca && rms' == rms
    ensures ok <==>
      (wsize > 0 && lpcOrd <= MAXORDER &&
       var rr := Autocorrelation(window(data, dataOff, wsize, preEmphasis), lpcOrd);
       rr[0] != 0.0 && LpcState(rr, lpcOrd).Some?)
    ensures ok ==>
      var rr := Autocorrelation(window(data, dataOff, wsize, preEmphasis), lpcOrd);
      rr[0] != 0.0 && LpcState(rr, lpcOrd).Some? &&
      lpca' == LpcState(rr, lpcOrd).value.a && rms' == LpcState(rr, lpcOrd).value.gain
  {
    if wsize <= 0 || lpcOrd > MAXORDER {
      return false, lpca, rms;
    }
    var dwind := window(data, dataOff, wsize, preEmphasis);
    var m := lpcOrd;
    var r := new real[m + 2];
    var a := new real[m + 2];
    var rc := new real[m + 1];
    Autocorrelate(dwind, r, m);
    if r[1] == 0.0 {
      return false, lpca, rms;
    }
    var gain;
    ok, gain := Recursion(r, a, rc, m, r[1..]);
    if !ok {
      return false, lpca, rms;
    }
    rms' := gain;
    lpca' := CopyOut(a, m, lpca);
  }
}
