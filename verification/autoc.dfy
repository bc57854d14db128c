/** Normalised autocorrelation of an analysis window (autoc.cpp). */
module Autoc {

  /** Σ_{i<n} s[i]², the window's energy. */
  function Energy(s: seq<real>, n: nat): real
    requires n <= |s|
  {
    if n == 0 then 0.0 else Energy(s, n - 1) + s[n - 1] * s[n - 1]
  }

  /** Σ_{j<m} s[j]·s[lag+j], the unnormalised autocorrelation at `lag` over m products. */
  function LagSum(s: seq<real>, lag: nat, m: nat): real
    requires m == 0 || lag + m <= |s|
  {
    if m == 0 then 0.0 else LagSum(s, lag, m - 1) + s[m - 1] * s[lag + m - 1]
  }

  /** The energy is never negative, so the source's diagnostic for a negative energy cannot fire. */
  lemma {:induction false} EnergyNonNegative(s: seq<real>, n: nat)
    requires n <= |s|
    ensures Energy(s, n) >= 0.0
  {
    if n > 0 {
      EnergyNonNegative(s, n - 1);
      assert s[n - 1] * s[n - 1] >= 0.0;
    }
  }

  /** Lag 0 is the energy itself, so the fixed r[0] = 1 is the normalised lag-0 value. */
  lemma {:induction false} LagZeroIsEnergy(s: seq<real>, n: nat)
    requires n <= |s|
    ensures LagSum(s, 0, n) == Energy(s, n)
  {
    if n > 0 {
      LagZeroIsEnergy(s, n - 1);
    }
  }

  /**
   * `autoc`: r[0] = 1; a window without energy gets e = 1 and r[1..p] = 0
   * (white noise); otherwise r[i] is the lag-i sum over the window divided by
   * its energy and e = sqrt(energy / windowSize).  Nothing past r[p] is written.
   */
  method Autoc(windowSize: int, s: seq<real>, p: int, r: array<real>, sqrt: real -> real) returns (e: real)
    requires windowSize <= |s| && 0 < r.Length && p < r.Length
    modifies r
    ensures r[0] == 1.0
    ensures var n := if windowSize > 0 then windowSize else 0;
      Energy(s, n) == 0.0 ==> e == 1.0 && forall i :: 1 <= i <= p ==> r[i] == 0.0
    ensures var n := if windowSize > 0 then windowSize else 0;
      Energy(s, n) != 0.0 ==>
        windowSize > 0 && e == sqrt(Energy(s, n) / windowSize as real) &&
        forall i :: 1 <= i <= p ==> r[i] == LagSum(s, i, if windowSize > i then windowSize - i else 0) / Energy(s, n)
    ensures forall i :: 0 < i < r.Length && i > p ==> r[i] == old(r[i])
  {
    var n := if windowSize > 0 then windowSize else 0;
    var sum0 := 0.0;
    var i := 0;
    while i < windowSize
      invariant 0 <= i <= n && sum0 == Energy(s, i)
    {
      sum0 := sum0 + s[i] * s[i];
      i := i + 1;
    }
    r[0] := 1.0;
    if sum0 == 0.0 {
      e := 1.0;
      i := 1;
      while i <= p
        invariant 1 <= i && (p >= 1 ==> i <= p + 1) && (p < 1 ==> i == 1)
        invariant r[0] == 1.0
        invariant forall t :: 1 <= t < i ==> r[t] == 0.0
        invariant forall t :: 0 < t < r.Length && t >= i ==> r[t] == old(r[t])
      {
        r[i] := 0.0;
        i := i + 1;
      }
      return;
    }
    i := 1;
    while i <= p
      invariant 1 <= i && (p >= 1 ==> i <= p + 1) && (p < 1 ==> i == 1)
      invariant r[0] == 1.0
      invariant forall t :: 1 <= t < i ==> r[t] == LagSum(s, t, if windowSize > t then windowSize - t else 0) / sum0
      invariant forall t :: 0 < t < r.Length && t >= i ==> r[t] == old(r[t])
    {
      var m := if windowSize > i then windowSize - i else 0;
      var sum := 0.0;
      var j := 0;
      while j < windowSize - i
        invariant 0 <= j <= m && sum == LagSum(s, i, j)
      {
        sum := sum + s[j] * s[i + j];
        j := j + 1;
      }
      r[i] := sum / sum0;
      i := i + 1;
    }
    e := sqrt(sum0 / windowSize as real);
  }
}
