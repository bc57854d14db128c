/**
 * Reflection coefficients to predictor coefficients by the step-up recursion
 * (dreflpc.cpp).  The step-up is also the coefficient update of the
 * Levinson recursions in durbin.cpp and lpc.cpp.
 */
module Dreflpc {

  /**
   * One order of the step-up recursion: from the predictor a[0..i) of order
   * i-1 and the reflection coefficient c, the predictor of order i.  The
   * leading coefficient is kept, the new last one is c, and every inner one
   * gains c times its mirror image, computed from the old values.
   */
  function StepUp(a: seq<real>, c: real): (r: seq<real>)
    requires |a| >= 1
    ensures |r| == |a| + 1 && r[0] == a[0] && r[|a|] == c
    ensures forall j :: 1 <= j < |a| ==> r[j] == Mixed(a[j], a[|a| - j], c)
  {
    seq(|a| + 1, j => if 0 < j < |a| then Mixed(a[j], a[|a| - j], c) else if j == 0 then a[0] else c)
  }

  /** A coefficient x plus c times its mirror image y. */
  function Mixed(x: real, y: real, c: real): real
  {
    x + c * y
  }

  /** The inverse of Mixed on a mirror pair: (x - c·y) / (1 - c²), for c other than ±1. */
  function Unmixed(x: real, y: real, c: real): real
    requires c != 1.0 && c != -1.0
  {
    NonZeroProduct(1.0 - c, 1.0 + c);
    (x - c * y) / ((1.0 - c) * (1.0 + c))
  }

  /** An inner coefficient that is its own mirror image is scaled by 1 + c. */
  lemma StepUpMiddle(a: seq<real>, c: real)
    requires |a| >= 2 && |a| % 2 == 0
    ensures StepUp(a, c)[|a| / 2] == a[|a| / 2] * (1.0 + c)
  {
    var h := |a| / 2;
    var r := StepUp(a, c);
    assert r[h] == Mixed(a[h], a[|a| - h], c);
    assert |a| - h == h;
    Distribute(a[h], c);
  }

  /**
   * The step-down recursion: the predictor of one order lower, recovered
   * from a predictor whose last coefficient c is not ±1, by dividing out
   * 1 - c² = (1 - c)(1 + c).
   */
  function StepDown(r: seq<real>): (a: seq<real>)
    requires |r| >= 2 && r[|r| - 1] != 1.0 && r[|r| - 1] != -1.0
    ensures |a| == |r| - 1 && a[0] == r[0]
    ensures forall j :: 0 < j < |r| - 1 ==> a[j] == Unmixed(r[j], r[|r| - 1 - j], r[|r| - 1])
  {
    seq(|r| - 1, j => if 0 < j < |r| - 1 then Unmixed(r[j], r[|r| - 1 - j], r[|r| - 1]) else r[0])
  }

  lemma Distribute(x: real, c: real)
    ensures x + c * x == x * (1.0 + c)
  {
  }

  lemma DivCancel(x: real, d: real)
    requires d != 0.0
    ensures (x * d) / d == x
  {
  }

  lemma NonZeroProduct(x: real, y: real)
    requires x != 0.0 && y != 0.0
    ensures x * y != 0.0
  {
  }

  /** One inner coefficient of StepDown ∘ StepUp: the numerator is the old coefficient times 1 - c². */
  lemma UnmixPair(x: real, y: real, c: real)
    requires c != 1.0 && c != -1.0
    ensures Unmixed(Mixed(x, y, c), Mixed(y, x, c), c) == x
  {
    var d := (1.0 - c) * (1.0 + c);
    var e := c * c;
    assert d == 1.0 - e;
    assert c * (y + c * x) == c * y + e * x;
    var n := (x + c * y) - c * (y + c * x);
    assert n == x - e * x;
    assert n == x * d;
    NonZeroProduct(1.0 - c, 1.0 + c);
    DivCancel(x, d);
  }

  /** The step-down undoes the step-up for every reflection coefficient other than ±1. */
  lemma StepDownUndoesStepUp(a: seq<real>, c: real)
    requires |a| >= 1 && c != 1.0 && c != -1.0
    ensures StepDown(StepUp(a, c)) == a
  {
    var r := StepUp(a, c);
    var i := |a|;
    forall j | 0 < j < i
      ensures StepDown(r)[j] == a[j]
    {
      assert r[j] == Mixed(a[j], a[i - j], c) && r[i - j] == Mixed(a[i - j], a[j], c);
      assert r[i] == c;
      UnmixPair(a[j], a[i - j], c);
    }
  }

  /**
   * The predictor of order n built from the reflection coefficients
   * c[0..n): [1, c[0]] at order 1, then one step-up per coefficient.
   */
  function Reflpc(c: seq<real>, n: int): (a: seq<real>)
    requires 1 <= n <= |c|
    ensures |a| == n + 1 && a[0] == 1.0 && a[n] == c[n - 1]
  {
    if n == 1 then [1.0, c[0]] else StepUp(Reflpc(c, n - 1), c[n - 1])
  }

  /**
   * The inner loop of `dreflpc` at order i: with a[0..i) holding the
   * predictor of order i-1 and a[i] = c, update the mirror pairs (j, i-j)
   * for j = 1..i/2 in place, each from the pair's old values.
   */
  lemma Commute(x: real, y: real)
    ensures x * y == y * x
  {
  }

  /**
   * The state of the inner loop before pass j: s with the mirror pairs
   * (t, i-t) for t < j mixed from their values in s.
   */
  function PairsMixed(s: seq<real>, i: int, j: int, cc: real): (r: seq<real>)
    requires 0 < i < |s|
    ensures |r| == |s|
  {
    seq(|s|, t requires 0 <= t < |s| => if 0 < t < i && (t < j || i - j < t) then Mixed(s[t], s[i - t], cc) else s[t])
  }

  /** Pass j of the inner loop mixes the pair (j, i-j) and nothing else. */
  lemma PairsMixedStep(s: seq<real>, i: int, j: int, cc: real)
    requires 0 < i < |s| && 1 <= j <= i / 2
    ensures PairsMixed(s, i, j + 1, cc) ==
      PairsMixed(s, i, j, cc)[j := Mixed(s[j], s[i - j], cc)][i - j := Mixed(s[i - j], s[j], cc)]
  {
  }

  /** After the last pass, coefficient t ≤ i is that of the step-up with c = s[i]. */
  lemma AllPairsMixedAt(s: seq<real>, i: int, cc: real, t: int)
    requires 2 <= i < |s| && s[i] == cc && 0 <= t <= i
    ensures PairsMixed(s, i, i / 2 + 1, cc)[t] == StepUp(s[..i], cc)[t]
  {
    var h := i / 2;
    assert 2 * h <= i <= 2 * h + 1;
    if 0 < t < i {
      assert t < h + 1 || i - (h + 1) < t;
    }
  }

  /** After the last pass every inner coefficient is mixed: a step-up with c = s[i]. */
  lemma AllPairsMixed(s: seq<real>, i: int, cc: real)
    requires 2 <= i < |s| && s[i] == cc
    ensures PairsMixed(s, i, i / 2 + 1, cc)[..i + 1] == StepUp(s[..i], cc)
    ensures forall t :: i < t < |s| ==> PairsMixed(s, i, i / 2 + 1, cc)[t] == s[t]
  {
    var r := PairsMixed(s, i, i / 2 + 1, cc);
    forall t | 0 <= t <= i
      ensures r[t] == StepUp(s[..i], cc)[t]
    {
      AllPairsMixedAt(s, i, cc, t);
    }
  }

  /** One pass of the inner loop: the pair (j, k) is mixed from its old values, even when j == k. */
  method MixPair(a: array<real>, j: int, k: int, cc: real)
    requires 0 <= j <= k < a.Length
    modifies a
    ensures a[..] == old(a[..])[j := Mixed(old(a[j]), old(a[k]), cc)][k := Mixed(old(a[k]), old(a[j]), cc)]
  {
    var ta1 := a[j] + cc * a[k];
    a[k] := a[k] + a[j] * cc;
    Commute(old(a[j]), cc);
    a[j] := ta1;
  }

  method StepUpInPlace(a: array<real>, i: int, cc: real)
    requires 2 <= i < a.Length && a[i] == cc
    modifies a
    ensures a[..i + 1] == StepUp(old(a[..i]), cc)
    ensures forall t :: i < t < a.Length ==> a[t] == old(a[t])
  {
    ghost var s := a[..];
    var j := 1;
    while j <= i / 2
      invariant 1 <= j <= i / 2 + 1
      invariant a[..] == PairsMixed(s, i, j, cc)
    {
      PairsMixedStep(s, i, j, cc);
      MixPair(a, j, i - j, cc);
      j := j + 1;
    }
    AllPairsMixed(s, i, cc);
    assert s[..i] == old(a[..i]);
  }

  /** One pass of the outer loop: a[i] = c[i-1], then the step-up of a[0..i) to order i. */
  method NextOrder(c: seq<real>, a: array<real>, i: int)
    requires 2 <= i < a.Length && i <= |c| && a[..i] == Reflpc(c, i - 1)
    modifies a
    ensures a[..i + 1] == Reflpc(c, i)
    ensures forall t :: i < t < a.Length ==> a[t] == old(a[t])
  {
    ghost var prev := a[..i];
    a[i] := c[i - 1];
    assert a[..i] == prev;
    StepUpInPlace(a, i, c[i - 1]);
  }

  /**
   * `dreflpc`: a[0..n] becomes the order-n predictor of c[0..n) (order 1
   * when n < 2: a[0] = 1 and a[1] = c[0] are always written); nothing past
   * a[n] is written and nothing past c[n-1] is read.
   */
  method Dreflpc(c: seq<real>, a: array<real>, n: int)
    requires 1 <= |c| && 2 <= a.Length && n < a.Length && n <= |c|
    modifies a
    ensures var m := if n > 1 then n else 1; a[..m + 1] == Reflpc(c, m)
    ensures forall t :: 0 <= t < a.Length && t > n && t > 1 ==> a[t] == old(a[t])
  {
    a[0] := 1.0;
    a[1] := c[0];
    assert a[..2] == Reflpc(c, 1);
    var i := 2;
    while i <= n
      invariant 2 <= i && (n >= 2 ==> i <= n + 1) && (n < 2 ==> i == 2)
      invariant a[..i] == Reflpc(c, i - 1)
      invariant forall t :: i <= t < a.Length ==> a[t] == old(a[t])
    {
      NextOrder(c, a, i);
      i := i + 1;
    }
  }
}
