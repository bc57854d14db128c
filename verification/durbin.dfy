/** The Levinson-Durbin recursion from autocorrelation to predictor (durbin.cpp). */
module Durbin {
  import opened Wrappers
  import opened Routines
  import opened Dreflpc

  /** Σ_{t=lo}^{hi-1} p[t]·r[n-t]: predictor coefficients against mirrored autocorrelation lags. */
  function Correlate(p: seq<real>, r: seq<real>, n: int, lo: int, hi: int): real
    requires 0 <= lo && hi <= |p| && hi - 1 <= n && n - lo < |r|
    decreases hi - lo
  {
    if hi <= lo then 0.0 else Correlate(p, r, n, lo, hi - 1) + p[hi - 1] * r[n - hi + 1]
  }

  /** The predictor polynomial whose leading coefficient 1 the source leaves implicit. */
  function Poly(a: seq<real>): (p: seq<real>)
    ensures |p| == |a| + 1 && p[0] == 1.0 && p[1..] == a
  {
    [1.0] + a
  }

  /** The reflection coefficients, the predictor and the prediction error after some orders. */
  datatype Lev = Lev(k: seq<real>, p: seq<real>, e: real)

  /**
   * The recursion as `durbin` computes it, to order n: order 0 is the
   * predictor [1] with error r[0]; each order takes the reflection
   * coefficient k = (-Σ_{t=1}^{n-1} p[t]·r[n-t] - r[n]) / e, steps the
   * predictor up with it and scales the error by 1 - k².  None when an
   * error used as a divisor vanishes (IEEE infinities are not modelled).
   */
  function DurbinState(r: seq<real>, n: nat): (st: Option<Lev>)
    requires n < |r|
    ensures st.Some? ==> |st.value.k| == n && |st.value.p| == n + 1 && st.value.p[0] == 1.0
  {
    if n == 0 then Some(Lev([], [1.0], r[0]))
    else
      var prev :- DurbinState(r, n - 1);
      if prev.e == 0.0 then None
      else
        var kn := Reflection(prev.p, r, n, prev.e);
        Some(Lev(prev.k + [kn], StepUp(prev.p, kn), Shrunk(prev.e, kn)))
  }

  /** The reflection coefficient of order n: (-Σ_{t=1}^{n-1} p[t]·r[n-t] - r[n]) / e. */
  function Reflection(p: seq<real>, r: seq<real>, n: int, e: real): real
    requires 1 <= n <= |p| && n < |r| && e != 0.0
  {
    (-Correlate(p, r, n, 1, n) - r[n]) / e
  }

  /** The prediction error after an order with reflection coefficient k: e·(1 - k²). */
  function Shrunk(e: real, k: real): real
  {
    e * (1.0 - k * k)
  }

  /** One order of the recursion, unfolded. */
  lemma DurbinStep(r: seq<real>, n: nat)
    requires 1 <= n < |r| && DurbinState(r, n).Some?
    ensures DurbinState(r, n - 1).Some? && DurbinState(r, n - 1).value.e != 0.0
    ensures var prev := DurbinState(r, n - 1).value;
      var kn := Reflection(prev.p, r, n, prev.e);
      DurbinState(r, n).value == Lev(prev.k + [kn], StepUp(prev.p, kn), Shrunk(prev.e, kn))
  {
  }

  /** A recursion that reaches order n passed every lower order. */
  lemma {:induction false} DurbinPrefix(r: seq<real>, m: nat, n: nat)
    requires m <= n < |r| && DurbinState(r, n).Some?
    ensures DurbinState(r, m).Some?
    ensures DurbinState(r, m).value.k == DurbinState(r, n).value.k[..m]
    decreases n - m
  {
    if m < n {
      DurbinPrefix(r, m + 1, n);
      StepBack(r, m);
      ghost var k := DurbinState(r, n).value.k;
      assert k[..m + 1][..m] == k[..m];
    }
  }

  /** An order that succeeds was preceded by one that succeeded, with the same coefficients so far. */
  lemma StepBack(r: seq<real>, m: nat)
    requires m + 1 < |r| && DurbinState(r, m + 1).Some?
    ensures DurbinState(r, m).Some? && DurbinState(r, m).value.k == DurbinState(r, m + 1).value.k[..m]
  {
  }

  /** After order n the last predictor coefficient is that order's reflection coefficient. */
  lemma LastCoefficientIsReflection(r: seq<real>, n: nat)
    requires 1 <= n < |r| && DurbinState(r, n).Some?
    ensures DurbinState(r, n).value.p[n] == DurbinState(r, n).value.k[n - 1]
  {
  }

  /** The error r0 scaled by 1 - k² for each reflection coefficient in turn. */
  function ErrorAfter(e0: real, k: seq<real>): real
  {
    if k == [] then e0 else Shrunk(ErrorAfter(e0, k[..|k| - 1]), k[|k| - 1])
  }

  /** Π_j (1 - k_j²). */
  function ErrorFactor(k: seq<real>): real
  {
    if k == [] then 1.0 else Shrunk(ErrorFactor(k[..|k| - 1]), k[|k| - 1])
  }

  /** The error of every order is the order-0 error r[0] scaled once per reflection coefficient. */
  lemma {:induction false} ErrorIsScaled(r: seq<real>, n: nat)
    requires n < |r| && DurbinState(r, n).Some?
    ensures DurbinState(r, n).value.e == ErrorAfter(r[0], DurbinState(r, n).value.k)
  {
    if n > 0 {
      DurbinStep(r, n);
      ErrorIsScaled(r, n - 1);
      var prev := DurbinState(r, n - 1).value;
      var st := DurbinState(r, n).value;
      assert st.k[..|st.k| - 1] == prev.k;
    }
  }

  lemma ShrunkScales(e: real, x: real, y: real, k: real)
    requires e == x * y
    ensures Shrunk(e, k) == x * Shrunk(y, k)
  {
    var z := 1.0 - k * k;
    assert (x * y) * z == x * (y * z);
  }

  /** Scaling in turn is scaling once by the product Π_j (1 - k_j²). */
  lemma {:induction false} ErrorAfterIsProduct(e0: real, k: seq<real>)
    ensures ErrorAfter(e0, k) == e0 * ErrorFactor(k)
  {
    if k != [] {
      var front := k[..|k| - 1];
      ErrorAfterIsProduct(e0, front);
      ShrunkScales(ErrorAfter(e0, front), e0, ErrorFactor(front), k[|k| - 1]);
    }
  }

  lemma PositiveProduct(x: real, y: real)
    requires x > 0.0 && y > 0.0
    ensures x * y > 0.0
  {
  }

  /** 1 - k² = (1 - k)(1 + k) is positive for a reflection coefficient strictly inside (-1, 1). */
  lemma InsideUnitFactor(k: real)
    requires -1.0 < k < 1.0
    ensures 1.0 - k * k > 0.0
  {
    PositiveProduct(1.0 - k, 1.0 + k);
    assert (1.0 - k) * (1.0 + k) == 1.0 - k * k;
  }

  /** Scaling a positive error by factors for coefficients inside (-1, 1) keeps it positive. */
  lemma {:induction false} ErrorAfterPositive(e0: real, k: seq<real>)
    requires e0 > 0.0 && forall j :: 0 <= j < |k| ==> -1.0 < k[j] < 1.0
    ensures ErrorAfter(e0, k) > 0.0
  {
    if k != [] {
      var front := k[..|k| - 1];
      ErrorAfterPositive(e0, front);
      InsideUnitFactor(k[|k| - 1]);
      PositiveProduct(ErrorAfter(e0, front), 1.0 - k[|k| - 1] * k[|k| - 1]);
    }
  }

  /** With r[0] > 0 and every reflection coefficient inside (-1, 1), the error stays positive. */
  lemma StableErrorPositive(r: seq<real>, n: nat)
    requires n < |r| && r[0] > 0.0 && DurbinState(r, n).Some?
    requires forall j :: 0 <= j < n ==> -1.0 < DurbinState(r, n).value.k[j] < 1.0
    ensures DurbinState(r, n).value.e > 0.0
  {
    ErrorIsScaled(r, n);
    ErrorAfterPositive(r[0], DurbinState(r, n).value.k);
  }

  /** The sum the source accumulates (negated) before dividing: -Σ_{j<i} a[j]·r[i-j]. */
  method PredictionSum(a: array<real>, r: seq<real>, i: int) returns (s: real)
    requires 1 <= i <= a.Length && i + 1 < |r|
    ensures s == -Correlate(Poly(a[..i]), r, i + 1, 1, i + 1)
  {
    ghost var p := Poly(a[..i]);
    s := 0.0;
    var j := 0;
    while j < i
      invariant 0 <= j <= i && s == -Correlate(p, r, i + 1, 1, j + 1)
    {
      assert p[j + 1] == a[j];
      s := s - a[j] * r[i - j];
      j := j + 1;
    }
  }

  /**
   * The coefficient update of order i+1: snapshot a[0..i] into b, then
   * a[j] += k·b[i-j-1] for j < i; with a[i] = k already written this steps
   * the predictor up.
   */
  method StepUpCoefficients(a: array<real>, b: array<real>, i: int, ki: real)
    requires 1 <= i < a.Length && i < b.Length && a != b && a[i] == ki
    modifies a, b
    ensures Poly(a[..i + 1]) == StepUp(Poly(old(a[..i])), ki)
    ensures forall t :: i < t < a.Length ==> a[t] == old(a[t])
  {
    ghost var p := Poly(a[..i]);
    CopyPrefix(a, b, i);
    AddMirrored(a, b, i, ki, p);
    SteppedUp(a[..i + 1], p, ki);
  }

  /** The first loop: b[0..i] receives a copy of a[0..i]. */
  method CopyPrefix(a: array<real>, b: array<real>, i: int)
    requires 0 <= i < a.Length && i < b.Length && a != b
    modifies b
    ensures forall t :: 0 <= t <= i ==> b[t] == a[t]
  {
    var j := 0;
    while j <= i
      invariant 0 <= j <= i + 1
      invariant forall t :: 0 <= t < j ==> b[t] == a[t]
    {
      b[j] := a[j];
      j := j + 1;
    }
  }

  /** The second loop: a[j] += k·b[i-j-1] for j < i, with b holding the old a. */
  method AddMirrored(a: array<real>, b: array<real>, i: int, ki: real, ghost p: seq<real>)
    requires 1 <= i < a.Length && i < b.Length && a != b && p == Poly(a[..i])
    requires forall t :: 0 <= t <= i ==> b[t] == a[t]
    modifies a
    ensures forall t :: 0 <= t < i ==> a[t] == Mixed(p[t + 1], p[i - t], ki)
    ensures forall t :: i <= t < a.Length ==> a[t] == old(a[t])
  {
    var j := 0;
    while j < i
      invariant 0 <= j <= i
      invariant forall t :: 0 <= t < j ==> a[t] == Mixed(p[t + 1], p[i - t], ki)
      invariant forall t :: j <= t < a.Length ==> a[t] == old(a[t])
    {
      assert b[i - j - 1] == p[i - j];
      a[j] := a[j] + ki * b[i - j - 1];
      j := j + 1;
    }
  }

  /** Coefficients mixed with their mirror images, followed by k, are the stepped-up predictor. */
  lemma SteppedUp(x: seq<real>, p: seq<real>, ki: real)
    requires |x| >= 2 && |p| == |x| && x[|x| - 1] == ki
    requires forall t :: 0 <= t < |x| - 1 ==> x[t] == Mixed(p[t + 1], p[|x| - 1 - t], ki)
    requires p[0] == 1.0
    ensures Poly(x) == StepUp(p, ki)
  {
    ghost var q := StepUp(p, ki);
    forall t | 0 <= t < |x| + 1
      ensures Poly(x)[t] == q[t]
    {
      if 0 < t < |x| {
        assert Poly(x)[t] == x[t - 1];
      }
    }
  }

  /**
   * One pass of the order loop at order i+1: the reflection coefficient goes
   * to k[i] and a[i], the predictor is stepped up in place and the error
   * scaled by 1 - k[i]².
   */
  method Order(r: seq<real>, k: array<real>, a: array<real>, b: array<real>, i: int, e: real, ghost p: seq<real>)
    returns (e': real)
    requires 1 <= i < k.Length && i < a.Length && i < b.Length && i + 1 < |r| && e != 0.0
    requires k != a && a != b && k != b && Poly(a[..i]) == p
    modifies k, a, b
    ensures k[i] == Reflection(p, r, i + 1, e)
    ensures Poly(a[..i + 1]) == StepUp(p, k[i]) && e' == Shrunk(e, k[i])
    ensures k[..i] == old(k[..i])
    ensures forall t :: i < t < k.Length ==> k[t] == old(k[t])
    ensures forall t :: i < t < a.Length ==> a[t] == old(a[t])
  {
    var s := PredictionSum(a, r, i);
    k[i] := (s - r[i + 1]) / e;
    a[i] := k[i];
    StepUpCoefficients(a, b, i, k[i]);
    e' := e * (1.0 - k[i] * k[i]);
  }

  /** The loop body of `durbin`, advancing the recursion from order i (state st) to order i+1 (state st1). */
  method NextOrder(r: seq<real>, k: array<real>, a: array<real>, b: array<real>, i: int, e: real,
                   ghost st: Lev, ghost st1: Lev)
    returns (e': real)
    requires 1 <= i < k.Length && i < a.Length && i < b.Length && i + 1 < |r|
    requires k != a && a != b && k != b
    requires DurbinState(r, i) == Some(st) && DurbinState(r, i + 1) == Some(st1)
    requires k[..i] == st.k && Poly(a[..i]) == st.p && e == st.e
    modifies k, a, b
    ensures k[..i + 1] == st1.k && Poly(a[..i + 1]) == st1.p && e' == st1.e
    ensures forall t :: i < t < k.Length ==> k[t] == old(k[t])
    ensures forall t :: i < t < a.Length ==> a[t] == old(a[t])
  {
    NextState(r, i, st);
    e' := Order(r, k, a, b, i, e, st.p);
    assert k[..i + 1] == k[..i] + [k[i]];
  }

  /** The states of every order up to one that succeeds. */
  lemma {:induction false} AllStates(r: seq<real>, n: nat) returns (sts: seq<Lev>)
    requires n < |r| && DurbinState(r, n).Some?
    ensures |sts| == n + 1
    ensures forall j :: 0 <= j <= n ==> DurbinState(r, j) == Some(sts[j])
  {
    if n == 0 {
      sts := [DurbinState(r, 0).value];
    } else {
      var m := n - 1;
      StepBack(r, m);
      var pre := AllStates(r, m);
      sts := pre + [DurbinState(r, n).value];
      assert forall j :: 0 <= j <= m ==> sts[j] == pre[j];
    }
  }

  /** The next order from a known state whose error is not zero. */
  lemma DurbinForward(r: seq<real>, m: nat, st: Lev)
    requires m + 1 < |r| && DurbinState(r, m) == Some(st) && st.e != 0.0
    ensures var kn := Reflection(st.p, r, m + 1, st.e);
      DurbinState(r, m + 1) == Some(Lev(st.k + [kn], StepUp(st.p, kn), Shrunk(st.e, kn)))
  {
  }

  /** DurbinStep for a known previous state. */
  lemma NextState(r: seq<real>, m: nat, st: Lev)
    requires m + 1 < |r| && DurbinState(r, m + 1).Some? && DurbinState(r, m) == Some(st)
    ensures st.e != 0.0 && |st.p| == m + 1 && |st.k| == m
    ensures var kn := Reflection(st.p, r, m + 1, st.e);
      DurbinState(r, m + 1) == Some(Lev(st.k + [kn], StepUp(st.p, kn), Shrunk(st.e, kn)))
  {
    DurbinStep(r, m + 1);
  }

  /** Order 1, before the loop: k[0] = a[0] = -r[1]/r[0] and the error r[0]·(1 - k[0]²). */
  method FirstOrder(r: seq<real>, k: array<real>, a: array<real>) returns (e: real, ghost st: Lev)
    requires 2 <= |r| && r[0] != 0.0 && 1 <= k.Length && 1 <= a.Length && k != a
    modifies k, a
    ensures k[0] == Reflection([1.0], r, 1, r[0])
    ensures Poly(a[..1]) == StepUp([1.0], k[0]) && e == Shrunk(r[0], k[0])
    ensures DurbinState(r, 1) == Some(st) && k[..1] == st.k && Poly(a[..1]) == st.p && e == st.e
    ensures forall t :: 1 <= t < k.Length ==> k[t] == old(k[t])
    ensures forall t :: 1 <= t < a.Length ==> a[t] == old(a[t])
  {
    e := r[0];
    assert -0.0 - r[1] == -r[1];
    k[0] := -r[1] / e;
    a[0] := k[0];
    e := e * (1.0 - k[0] * k[0]);
    assert Poly(a[..1]) == [1.0, k[0]];
    ghost var st0 := Lev([], [1.0], r[0]);
    assert DurbinState(r, 0) == Some(st0);
    st := Lev(st0.k + [k[0]], StepUp(st0.p, k[0]), Shrunk(st0.e, k[0]));
    assert k[..1] == st0.k + [k[0]];
  }

  /**
   * `durbin`: k[0..m) and a[0..m) receive the reflection coefficients and
   * the predictor (without its leading 1) of order m = max(p, 1), and the
   * result is the final prediction error; nothing past index m-1 is written.
   * The scratch vector b of MAXORDER slots is why p may not exceed MAXORDER.
   */
  method Durbin(r: seq<real>, k: array<real>, a: array<real>, p: int) returns (ex: real)
    requires p <= MAXORDER && 2 <= |r| && p < |r|
    requires 1 <= k.Length && 1 <= a.Length && p <= k.Length && p <= a.Length && k != a
    requires DurbinState(r, if p > 1 then p else 1).Some?
    modifies k, a
    ensures var st := DurbinState(r, if p > 1 then p else 1).value;
      k[..if p > 1 then p else 1] == st.k && Poly(a[..if p > 1 then p else 1]) == st.p && ex == st.e
    ensures forall t :: 0 <= t < k.Length && t >= p && t >= 1 ==> k[t] == old(k[t])
    ensures forall t :: 0 <= t < a.Length && t >= p && t >= 1 ==> a[t] == old(a[t])
  {
    var m := if p > 1 then p else 1;
    var b := new real[MAXORDER];
    ghost var sts := AllStates(r, m);
    NextState(r, 0, sts[0]);
    var e;
    ghost var st;
    e, st := FirstOrder(r, k, a);
    assert st == sts[1];
    var i := 1;
    while i < p
      invariant 1 <= i <= m
      invariant k[..i] == sts[i].k && Poly(a[..i]) == sts[i].p && e == sts[i].e
      invariant forall t :: i <= t < k.Length ==> k[t] == old(k[t])
      invariant forall t :: i <= t < a.Length ==> a[t] == old(a[t])
    {
      e := NextOrder(r, k, a, b, i, e, sts[i], sts[i + 1]);
      i := i + 1;
    }
    ex := e;
  }
}
