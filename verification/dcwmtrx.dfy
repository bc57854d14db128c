/**
 * The weighted covariance matrix of the covariance method of linear
 * prediction (dcwmtrx.cpp).  Over the frame s[ni..nl), weighted by w, it
 * computes the energy ps, the vector shi of correlations between the frame
 * and its np delayed copies, and the np×np matrix phi of correlations
 * between the delayed copies.  All three are entries of one covariance
 * function Cov of two delays.
 */
module Dcwmtrx {
  import opened Vector2d

  /** Σ_{k<m} s[x+k]·s[y+k]·w[k]: the windowed product of s read from offsets x and y. */
  function Cross(s: seq<real>, w: seq<real>, x: int, y: int, m: int): real
    requires 0 <= x && 0 <= y && (m <= 0 || (x + m <= |s| && y + m <= |s| && m <= |w|))
    decreases m
  {
    if m <= 0 then 0.0 else Cross(s, w, x, y, m - 1) + s[x + m - 1] * s[y + m - 1] * w[m - 1]
  }

  /** What the source needs of its inputs for the frame s[ni..nl) and np delays. */
  predicate FrameFits(s: seq<real>, w: seq<real>, ni: int, nl: int, np: int)
  {
    0 <= np <= ni && (ni < nl ==> nl <= |s| && nl - ni <= |w|)
  }

  /**
   * The covariance of the frame delayed by a samples with the frame delayed
   * by b samples, weighted sample by sample.
   */
  function Cov(s: seq<real>, w: seq<real>, ni: int, nl: int, a: int, b: int): real
    requires 0 <= a <= ni && 0 <= b <= ni && FrameFits(s, w, ni, nl, 0)
  {
    Cross(s, w, ni - a, ni - b, nl - ni)
  }

  /** The product is symmetric in the two offsets. */
  lemma {:induction false} CrossSymmetric(s: seq<real>, w: seq<real>, x: int, y: int, m: int)
    requires 0 <= x && 0 <= y && (m <= 0 || (x + m <= |s| && y + m <= |s| && m <= |w|))
    ensures Cross(s, w, x, y, m) == Cross(s, w, y, x, m)
    decreases m
  {
    if m > 0 {
      CrossSymmetric(s, w, x, y, m - 1);
    }
  }

  /** So the covariance does not depend on the order of the delays: phi is symmetric. */
  lemma CovSymmetric(s: seq<real>, w: seq<real>, ni: int, nl: int, a: int, b: int)
    requires 0 <= a <= ni && 0 <= b <= ni && FrameFits(s, w, ni, nl, 0)
    ensures Cov(s, w, ni, nl, a, b) == Cov(s, w, ni, nl, b, a)
  {
    CrossSymmetric(s, w, ni - a, ni - b, nl - ni);
  }

  lemma WeightedSquare(x: real, c: real)
    requires c >= 0.0
    ensures x * x * c >= 0.0
  {
    if x >= 0.0 {
      assert x * x >= 0.0;
    } else {
      assert (-x) * (-x) >= 0.0;
    }
  }

  /** With a non-negative window, a signal's product with itself is non-negative. */
  lemma {:induction false} CrossSelfNonNegative(s: seq<real>, w: seq<real>, x: int, m: int)
    requires 0 <= x && (m <= 0 || (x + m <= |s| && m <= |w|))
    requires forall k :: 0 <= k < m ==> w[k] >= 0.0
    ensures Cross(s, w, x, x, m) >= 0.0
    decreases m
  {
    if m > 0 {
      CrossSelfNonNegative(s, w, x, m - 1);
      WeightedSquare(s[x + m - 1], w[m - 1]);
    }
  }

  /** With a non-negative window the energy ps and the diagonal of phi are non-negative. */
  lemma CovDiagonalNonNegative(s: seq<real>, w: seq<real>, ni: int, nl: int, a: int)
    requires 0 <= a <= ni && FrameFits(s, w, ni, nl, 0)
    requires forall k :: 0 <= k < nl - ni ==> w[k] >= 0.0
    ensures Cov(s, w, ni, nl, a, a) >= 0.0
  {
    CrossSelfNonNegative(s, w, ni - a, nl - ni);
  }

  /** The inner k loop: the windowed product of s from offsets x and y over m samples. */
  method CrossSum(s: seq<real>, w: seq<real>, x: int, y: int, m: int) returns (sm: real)
    requires 0 <= x && 0 <= y && (m <= 0 || (x + m <= |s| && y + m <= |s| && m <= |w|))
    ensures sm == Cross(s, w, x, y, m)
  {
    sm := 0.0;
    var k := 0;
    while k < m
      invariant 0 <= k && (k <= m || k == 0)
      invariant sm == Cross(s, w, x, y, k)
    {
      sm := sm + s[x + k] * s[y + k] * w[k];
      k := k + 1;
    }
  }

  /** The first loop: the weighted energy of the frame. */
  method Energy(s: seq<real>, w: seq<real>, ni: int, nl: int) returns (ps: real)
    requires FrameFits(s, w, ni, nl, 0)
    ensures ps == Cov(s, w, ni, nl, 0, 0)
  {
    ps := 0.0;
    var i := ni;
    while i < nl
      invariant ni <= i && (i <= nl || i == ni)
      invariant ps == Cross(s, w, ni, ni, i - ni)
    {
      ps := ps + s[i] * s[i] * w[i - ni];
      i := i + 1;
    }
  }

  /** One entry of shi, accumulated in place. */
  method ShiEntry(s: seq<real>, w: seq<real>, ni: int, nl: int, np: int, shi: array<real>, i: int)
    requires FrameFits(s, w, ni, nl, np) && 0 <= i < np <= shi.Length
    modifies shi
    ensures shi[i] == Cov(s, w, ni, nl, 0, i + 1)
    ensures forall t :: 0 <= t < shi.Length && t != i ==> shi[t] == old(shi[t])
  {
    shi[i] := 0.0;
    var j := 0;
    while j < nl - ni
      invariant 0 <= j && (j <= nl - ni || j == 0)
      invariant shi[i] == Cross(s, w, ni, ni - i - 1, j)
      invariant forall t :: 0 <= t < shi.Length && t != i ==> shi[t] == old(shi[t])
    {
      shi[i] := shi[i] + s[ni + j] * s[ni - i + j - 1] * w[j];
      j := j + 1;
    }
  }

  /** The two writes of one phi entry and its mirror image; no other cell changes. */
  method StorePair(phi: array<real>, np: int, i: int, j: int, sm: real)
    requires 0 <= j <= i < np && np * np <= phi.Length
    modifies phi
    ensures Cell(phi[..], np, i, j) == sm && Cell(phi[..], np, j, i) == sm
    ensures forall a, b :: 0 <= a < np && 0 <= b < np && (a, b) != (i, j) && (a, b) != (j, i) ==>
      Cell(phi[..], np, a, b) == Cell(old(phi[..]), np, a, b)
    ensures forall t :: np * np <= t < phi.Length ==> phi[t] == old(phi[t])
  {
    FlatIndexInRange(i, j, np, np);
    FlatIndexInRange(j, i, np, np);
    phi[FlatIndex(i, j, np)] := sm;
    phi[FlatIndex(j, i, np)] := sm;
    forall a, b | 0 <= a < np && 0 <= b < np && (a, b) != (i, j) && (a, b) != (j, i)
      ensures Cell(phi[..], np, a, b) == Cell(old(phi[..]), np, a, b)
    {
      FlatIndexInRange(a, b, np, np);
      if FlatIndex(a, b, np) == FlatIndex(i, j, np) {
        FlatIndexInjective(a, b, i, j, np);
      }
      if FlatIndex(a, b, np) == FlatIndex(j, i, np) {
        FlatIndexInjective(a, b, j, i, np);
      }
    }
  }

  /** Row i of phi: the entries (i, j) and (j, i) for j = 0..i. */
  method PhiRow(s: seq<real>, w: seq<real>, ni: int, nl: int, np: int, phi: array<real>, i: int)
    requires FrameFits(s, w, ni, nl, np) && 0 <= i < np && np * np <= phi.Length
    modifies phi
    ensures forall b :: 0 <= b <= i ==>
      Cell(phi[..], np, i, b) == Cov(s, w, ni, nl, i + 1, b + 1) &&
      Cell(phi[..], np, b, i) == Cov(s, w, ni, nl, b + 1, i + 1)
    ensures forall a, b :: 0 <= a < np && 0 <= b < np && a != i && b != i ==>
      Cell(phi[..], np, a, b) == Cell(old(phi[..]), np, a, b)
    ensures forall t :: np * np <= t < phi.Length ==> phi[t] == old(phi[t])
  {
    var j := 0;
    while j <= i
      invariant 0 <= j <= i + 1
      invariant forall b :: 0 <= b < j ==>
        Cell(phi[..], np, i, b) == Cov(s, w, ni, nl, i + 1, b + 1) &&
        Cell(phi[..], np, b, i) == Cov(s, w, ni, nl, b + 1, i + 1)
      invariant forall a, b :: 0 <= a < np && 0 <= b < np && a != i && b != i ==>
        Cell(phi[..], np, a, b) == Cell(old(phi[..]), np, a, b)
      invariant forall t :: np * np <= t < phi.Length ==> phi[t] == old(phi[t])
    {
      var sm := CrossSum(s, w, ni - i - 1, ni - j - 1, nl - ni);
      CovSymmetric(s, w, ni, nl, i + 1, j + 1);
      StorePair(phi, np, i, j, sm);
      j := j + 1;
    }
  }

  /**
   * `dcwmtrx`: ps is the weighted energy of the frame, shi[i] the covariance
   * of the frame with its copy delayed by i+1, and phi (row-major, np
   * columns) holds at (i, j) the covariance of the copies delayed by i+1 and
   * j+1, so phi is symmetric.  Nothing past the first np entries of shi and
   * the first np·np of phi is written.
   */
  method Dcwmtrx(s: seq<real>, ni: int, nl: int, np: int, phi: array<real>, shi: array<real>, w: seq<real>)
    returns (ps: real)
    requires FrameFits(s, w, ni, nl, np)
    requires np <= shi.Length && np * np <= phi.Length && phi != shi
    modifies phi, shi
    ensures ps == Cov(s, w, ni, nl, 0, 0)
    ensures forall i :: 0 <= i < np ==> shi[i] == Cov(s, w, ni, nl, 0, i + 1)
    ensures forall i :: np <= i < shi.Length ==> shi[i] == old(shi[i])
    ensures forall i, j :: 0 <= i < np && 0 <= j < np ==>
      Cell(phi[..], np, i, j) == Cov(s, w, ni, nl, i + 1, j + 1)
    ensures forall t :: np * np <= t < phi.Length ==> phi[t] == old(phi[t])
  {
    ps := Energy(s, w, ni, nl);
    var i := 0;
    while i < np
      invariant 0 <= i <= np
      invariant forall t :: 0 <= t < i ==> shi[t] == Cov(s, w, ni, nl, 0, t + 1)
      invariant forall t :: np <= t < shi.Length ==> shi[t] == old(shi[t])
      invariant phi[..] == old(phi[..])
    {
      ShiEntry(s, w, ni, nl, np, shi, i);
      i := i + 1;
    }
    i := 0;
    while i < np
      invariant 0 <= i <= np
      invariant forall a, b :: 0 <= a < i && 0 <= b < i ==>
        Cell(phi[..], np, a, b) == Cov(s, w, ni, nl, a + 1, b + 1)
      invariant forall t :: np * np <= t < phi.Length ==> phi[t] == old(phi[t])
      invariant forall t :: 0 <= t < np ==> shi[t] == Cov(s, w, ni, nl, 0, t + 1)
      invariant forall t :: np <= t < shi.Length ==> shi[t] == old(shi[t])
    {
      PhiRow(s, w, ni, nl, np, phi, i);
      i := i + 1;
    }
  }
}
