/**
 * In-place Cholesky decomposition of a symmetric matrix (dchlsky.cpp).  The
 * lower triangle of the n×n row-major matrix a is overwritten, row by row,
 * with the factor L; t receives the reciprocals of the diagonal of L and
 * det the product of that diagonal.  The routine stops at the first row
 * whose pivot is not positive and returns the number of rows factored.
 * The square root is a parameter.
 */
module Dchlsky {
  import opened Vector2d
  import CNum

  /** Σ_{q<m} L(r, q)·L(c, q): rows r and c of L multiplied over their first m columns. */
  function Dot(l: seq<real>, n: int, r: int, c: int, m: int): real
    decreases m
  {
    if m <= 0 then 0.0 else Dot(l, n, r, c, m - 1) + Cell(l, n, r, m - 1) * Cell(l, n, c, m - 1)
  }

  /** The value left after the inner l loop: the input entry A(r, c) minus the part L already explains. */
  function Pivot(a: seq<real>, l: seq<real>, n: int, r: int, c: int): real
  {
    Cell(a, n, r, c) - Dot(l, n, r, c, c)
  }

  /**
   * Entry (r, q) of the factor, q <= r, as the routine leaves it: below the
   * diagonal the pivot scaled by the stored reciprocal t[q]; on the
   * diagonal the square root of a positive pivot, whose reciprocal is t[r].
   */
  predicate Factored(a: seq<real>, l: seq<real>, t: seq<real>, n: int, r: int, q: int, sqrt: real -> real)
    requires 0 <= q <= r && q < |t|
  {
    if q < r then
      Cell(l, n, r, q) == Pivot(a, l, n, r, q) * t[q]
    else
      Pivot(a, l, n, r, r) > 0.0 && Cell(l, n, r, r) == sqrt(Pivot(a, l, n, r, r)) && t[r] * Cell(l, n, r, r) == 1.0
  }

  /**
   * The storage l and t after the rows before R and the first C entries of
   * row R were factored, starting from the matrix a and the vector t0:
   * those entries are factored, every other cell of the matrix still holds
   * its input value, nothing past the n·n cells changed, and t is written
   * only for the rows already finished.
   */
  predicate State(a: seq<real>, l: seq<real>, t: seq<real>, t0: seq<real>, n: int, R: int, C: int, sqrt: real -> real)
  {
    0 <= C <= R <= n && (R == n ==> C == 0) && n * n <= |a| && |l| == |a| && n <= |t| && |t| == |t0| &&
    (forall r, q :: 0 <= q <= r < R ==> Factored(a, l, t, n, r, q, sqrt)) &&
    (forall q :: 0 <= q < C ==> Factored(a, l, t, n, R, q, sqrt)) &&
    (forall r, q :: 0 <= r < n && 0 <= q < n && (r < q || R < r || (r == R && C <= q)) ==>
      Cell(l, n, r, q) == Cell(a, n, r, q)) &&
    (forall p :: n * n <= p < |l| ==> l[p] == a[p]) &&
    (forall q :: R <= q < |t| ==> t[q] == t0[q])
  }

  /** Π_{q<m} L(q, q): the determinant accumulated over the first m rows. */
  function DiagProduct(l: seq<real>, n: int, m: int): real
    decreases m
  {
    if m <= 0 then 1.0 else DiagProduct(l, n, m - 1) * Cell(l, n, m - 1, m - 1)
  }

  /** The square root the routine is given returns a positive value for a positive argument. */
  ghost predicate PositiveSqrt(sqrt: real -> real)
  {
    forall x :: x > 0.0 ==> sqrt(x) > 0.0
  }

  /** An exact square root on the positive reals. */
  ghost predicate ExactSqrt(sqrt: real -> real)
  {
    forall x :: x > 0.0 ==> sqrt(x) * sqrt(x) == x
  }

  /** Two storages that agree on the cells read give the same row product. */
  lemma {:induction false} DotFrame(l: seq<real>, l2: seq<real>, n: int, r: int, c: int, m: int)
    requires forall q :: 0 <= q < m ==> Cell(l2, n, r, q) == Cell(l, n, r, q) && Cell(l2, n, c, q) == Cell(l, n, c, q)
    ensures Dot(l2, n, r, c, m) == Dot(l, n, r, c, m)
    decreases m
  {
    if m > 0 {
      DotFrame(l, l2, n, r, c, m - 1);
    }
  }

  lemma {:induction false} DiagFrame(l: seq<real>, l2: seq<real>, n: int, m: int)
    requires forall q :: 0 <= q < m ==> Cell(l2, n, q, q) == Cell(l, n, q, q)
    ensures DiagProduct(l2, n, m) == DiagProduct(l, n, m)
    decreases m
  {
    if m > 0 {
      DiagFrame(l, l2, n, m - 1);
    }
  }

  /** An entry stays factored in any storage that agrees on the cells it reads. */
  lemma FactoredFrame(a: seq<real>, l: seq<real>, l2: seq<real>, t: seq<real>, t2: seq<real>, n: int, r: int, q: int,
                      sqrt: real -> real)
    requires 0 <= q <= r && q < |t| && |t2| == |t| && t2[q] == t[q]
    requires forall p :: 0 <= p <= q ==> Cell(l2, n, r, p) == Cell(l, n, r, p) && Cell(l2, n, q, p) == Cell(l, n, q, p)
    requires Factored(a, l, t, n, r, q, sqrt)
    ensures Factored(a, l2, t2, n, r, q, sqrt)
  {
    DotFrame(l, l2, n, r, q, q);
  }

  /**
   * One write (R, C) leaves every factored entry that does not read cell
   * (R, C) factored: entries of earlier rows, and those of row R before
   * column C.
   */
  lemma WriteKeepsFactored(a: seq<real>, l: seq<real>, t: seq<real>, t2: seq<real>, n: int, R: int, C: int,
                           v: real, r: int, q: int, sqrt: real -> real)
    requires 0 <= C <= R < n && n * n <= |l| && n <= |t| && |t2| == |t|
    requires 0 <= q <= r && (r < R || (r == R && q < C))
    requires forall p :: 0 <= p < R ==> t2[p] == t[p]
    requires Factored(a, l, t, n, r, q, sqrt)
    ensures Factored(a, SetCell(l, n, R, C, v), t2, n, r, q, sqrt)
  {
    var l2 := SetCell(l, n, R, C, v);
    forall p | 0 <= p <= q
      ensures Cell(l2, n, r, p) == Cell(l, n, r, p) && Cell(l2, n, q, p) == Cell(l, n, q, p)
    {
      CellUpdate(l, n, R, C, v, r, p);
      CellUpdate(l, n, R, C, v, q, p);
    }
    FactoredFrame(a, l, l2, t, t2, n, r, q, sqrt);
  }

  /** The factored entries before (R, C) survive a write at (R, C), whatever t holds from row R on. */
  lemma WriteKeepsEarlier(a: seq<real>, l: seq<real>, t: seq<real>, t2: seq<real>, n: int, R: int, C: int, v: real,
                          sqrt: real -> real)
    requires 0 <= C <= R < n && n * n <= |l| && n <= |t| && |t2| == |t|
    requires forall p :: 0 <= p < R ==> t2[p] == t[p]
    requires forall r, q :: 0 <= q <= r < R ==> Factored(a, l, t, n, r, q, sqrt)
    requires forall q :: 0 <= q < C ==> Factored(a, l, t, n, R, q, sqrt)
    ensures forall r, q :: 0 <= q <= r < R ==> Factored(a, SetCell(l, n, R, C, v), t2, n, r, q, sqrt)
    ensures forall q :: 0 <= q < C ==> Factored(a, SetCell(l, n, R, C, v), t2, n, R, q, sqrt)
  {
    forall r, q | 0 <= q <= r < R
      ensures Factored(a, SetCell(l, n, R, C, v), t2, n, r, q, sqrt)
    {
      WriteKeepsFactored(a, l, t, t2, n, R, C, v, r, q, sqrt);
    }
    forall q | 0 <= q < C
      ensures Factored(a, SetCell(l, n, R, C, v), t2, n, R, q, sqrt)
    {
      WriteKeepsFactored(a, l, t, t2, n, R, C, v, R, q, sqrt);
    }
  }

  /** After a write at (R, C) every cell past it in the row-by-row order still holds its input value. */
  lemma WriteKeepsUntouched(a: seq<real>, l: seq<real>, n: int, R: int, C: int, v: real)
    requires 0 <= C <= R < n && n * n <= |l| && |l| == |a|
    requires forall r, q :: 0 <= r < n && 0 <= q < n && (r < q || R < r || (r == R && C <= q)) ==>
      Cell(l, n, r, q) == Cell(a, n, r, q)
    requires forall p :: n * n <= p < |l| ==> l[p] == a[p]
    ensures forall r, q :: 0 <= r < n && 0 <= q < n && (r < q || R < r || (r == R && C + 1 <= q)) ==>
      Cell(SetCell(l, n, R, C, v), n, r, q) == Cell(a, n, r, q)
    ensures forall p :: n * n <= p < |l| ==> SetCell(l, n, R, C, v)[p] == a[p]
  {
    forall r, q | 0 <= r < n && 0 <= q < n && (r < q || R < r || (r == R && C + 1 <= q))
      ensures Cell(SetCell(l, n, R, C, v), n, r, q) == Cell(a, n, r, q)
    {
      CellUpdate(l, n, R, C, v, r, q);
    }
    forall p | n * n <= p < |l|
      ensures SetCell(l, n, R, C, v)[p] == a[p]
    {
      SetCellBeyond(l, n, R, C, v, p);
    }
  }

  /** A write at (R, C) leaves the diagonal of the rows before R, so their determinant. */
  lemma WriteKeepsDiagonal(l: seq<real>, n: int, R: int, C: int, v: real)
    requires 0 <= C <= R < n && n * n <= |l|
    ensures DiagProduct(SetCell(l, n, R, C, v), n, R) == DiagProduct(l, n, R)
  {
    forall q | 0 <= q < R
      ensures Cell(SetCell(l, n, R, C, v), n, q, q) == Cell(l, n, q, q)
    {
      CellUpdate(l, n, R, C, v, q, q);
    }
    DiagFrame(l, SetCell(l, n, R, C, v), n, R);
  }

  /** A write at (R, C) does not change the pivot of (R, C), which reads only the columns before C. */
  lemma WriteKeepsPivot(a: seq<real>, l: seq<real>, n: int, R: int, C: int, v: real)
    requires 0 <= C <= R < n && n * n <= |l|
    ensures Pivot(a, SetCell(l, n, R, C, v), n, R, C) == Pivot(a, l, n, R, C)
    ensures Cell(SetCell(l, n, R, C, v), n, R, C) == v
  {
    var l2 := SetCell(l, n, R, C, v);
    forall p | 0 <= p < C
      ensures Cell(l2, n, R, p) == Cell(l, n, R, p) && Cell(l2, n, C, p) == Cell(l, n, C, p)
    {
      CellUpdate(l, n, R, C, v, R, p);
      CellUpdate(l, n, R, C, v, C, p);
    }
    DotFrame(l, l2, n, R, C, C);
    CellUpdate(l, n, R, C, v, R, C);
  }

  /** The entry just written below the diagonal is factored, the rest of the state is kept. */
  lemma WriteBelow(a: seq<real>, l: seq<real>, t: seq<real>, t0: seq<real>, n: int, R: int, C: int, sqrt: real -> real)
    requires State(a, l, t, t0, n, R, C, sqrt) && C < R < n
    ensures State(a, SetCell(l, n, R, C, Pivot(a, l, n, R, C) * t[C]), t, t0, n, R, C + 1, sqrt)
    ensures DiagProduct(SetCell(l, n, R, C, Pivot(a, l, n, R, C) * t[C]), n, R) == DiagProduct(l, n, R)
  {
    var v := Pivot(a, l, n, R, C) * t[C];
    var l2 := SetCell(l, n, R, C, v);
    WriteKeepsEarlier(a, l, t, t, n, R, C, v, sqrt);
    WriteKeepsUntouched(a, l, n, R, C, v);
    WriteKeepsDiagonal(l, n, R, C, v);
    assert Factored(a, l2, t, n, R, C, sqrt) by {
      WriteKeepsPivot(a, l, n, R, C, v);
    }
    assert forall q :: 0 <= q < C + 1 ==> Factored(a, l2, t, n, R, q, sqrt);
  }

  /** The diagonal entry just written finishes row R; the determinant gains it as a factor. */
  lemma WriteDiagonal(a: seq<real>, l: seq<real>, t: seq<real>, t0: seq<real>, n: int, R: int, d: real,
                      sqrt: real -> real)
    requires State(a, l, t, t0, n, R, R, sqrt) && R < n
    requires Pivot(a, l, n, R, R) > 0.0 && d == sqrt(Pivot(a, l, n, R, R)) && d != 0.0
    ensures State(a, SetCell(l, n, R, R, d), t[R := 1.0 / d], t0, n, R + 1, 0, sqrt)
    ensures DiagProduct(SetCell(l, n, R, R, d), n, R + 1) == DiagProduct(l, n, R) * d
  {
    var t2 := t[R := 1.0 / d];
    var l2 := SetCell(l, n, R, R, d);
    WriteKeepsEarlier(a, l, t, t2, n, R, R, d, sqrt);
    WriteKeepsUntouched(a, l, n, R, R, d);
    WriteKeepsDiagonal(l, n, R, R, d);
    assert Factored(a, l2, t2, n, R, R, sqrt) by {
      WriteKeepsPivot(a, l, n, R, R, d);
    }
    assert Cell(l2, n, R, R) == d by {
      WriteKeepsPivot(a, l, n, R, R, d);
    }
  }

  /**
   * With an exact square root, a factored entry (r, q) and the diagonal
   * entry of row q reproduce the input: A(r, q) is row r of L times row q
   * of L, that is L·Lᵀ = A on the factored part of the lower triangle.
   */
  lemma FactorReproduces(a: seq<real>, l: seq<real>, t: seq<real>, n: int, r: int, q: int, sqrt: real -> real)
    requires 0 <= q <= r < |t| && ExactSqrt(sqrt)
    requires Factored(a, l, t, n, r, q, sqrt) && Factored(a, l, t, n, q, q, sqrt)
    ensures Cell(a, n, r, q) == Dot(l, n, r, q, q + 1)
  {
    if q < r {
      BelowReproduces(Cell(l, n, r, q), Cell(l, n, q, q), Pivot(a, l, n, r, q), t[q]);
    } else {
      DiagonalReproduces(Cell(l, n, r, r), Pivot(a, l, n, r, r), sqrt);
    }
  }

  /** Below the diagonal: an entry p·t scaled back by the diagonal d with t·d = 1 is p. */
  lemma BelowReproduces(x: real, d: real, p: real, t: real)
    requires x == p * t && t * d == 1.0
    ensures x * d == p
  {
    assert x * d == p * (t * d);
  }

  /** On the diagonal: an exact square root squared is the pivot. */
  lemma DiagonalReproduces(x: real, p: real, sqrt: real -> real)
    requires p > 0.0 && x == sqrt(p) && ExactSqrt(sqrt)
    ensures x * x == p
  {
  }

  /** Every row a run of the routine finished satisfies L·Lᵀ = A on the lower triangle. */
  lemma FactorizationHolds(a: seq<real>, l: seq<real>, t: seq<real>, t0: seq<real>, n: int, R: int, C: int,
                           sqrt: real -> real)
    requires State(a, l, t, t0, n, R, C, sqrt) && ExactSqrt(sqrt)
    ensures forall r, q :: 0 <= q <= r < R ==> Cell(a, n, r, q) == Dot(l, n, r, q, q + 1)
  {
    forall r, q | 0 <= q <= r < R
      ensures Cell(a, n, r, q) == Dot(l, n, r, q, q + 1)
    {
      FactorReproduces(a, l, t, n, r, q, sqrt);
    }
  }

  lemma PositiveProduct(x: real, y: real)
    requires x > 0.0 && y > 0.0
    ensures x * y > 0.0
  {
  }

  /** The determinant of the rows factored so far is positive. */
  lemma {:induction false} DiagProductPositive(a: seq<real>, l: seq<real>, t: seq<real>, n: int, m: int, sqrt: real -> real)
    requires 0 <= m <= n <= |t| && PositiveSqrt(sqrt)
    requires forall r :: 0 <= r < m ==> Factored(a, l, t, n, r, r, sqrt)
    ensures DiagProduct(l, n, m) > 0.0
    decreases m
  {
    if m > 0 {
      DiagProductPositive(a, l, t, n, m - 1, sqrt);
      assert Factored(a, l, t, n, m - 1, m - 1, sqrt);
      PositiveProduct(DiagProduct(l, n, m - 1), Cell(l, n, m - 1, m - 1));
    }
  }

  /** The row start i = R·n stays below n·n exactly while R < n; likewise j = C·n <= i exactly while C <= R. */
  lemma RowStart(R: int, C: int, n: int)
    requires 0 <= R <= n && 0 <= C
    ensures (FlatIndex(R, 0, n) < n * n) <==> (R < n)
    ensures 0 < n ==> ((FlatIndex(C, 0, n) <= FlatIndex(R, 0, n)) <==> (C <= R))
    ensures 0 < n ==> ((FlatIndex(C, 0, n) == FlatIndex(R, 0, n)) <==> (C == R))
    ensures FlatIndex(C, 0, n) + n == FlatIndex(C + 1, 0, n)
  {
    NextRowStart(C, n);
    NextRowStart(R, n);
    if R < n {
      CNum.MulMono(R + 1, n, n);
    }
    if 0 < n {
      RowStartsOrdered(C, R, n);
      RowStartsOrdered(R, C, n);
    }
  }

  /** One row further on is n cells further on. */
  lemma NextRowStart(C: int, n: int)
    ensures C * n + n == (C + 1) * n
  {
  }

  /** A strictly earlier row starts strictly earlier. */
  lemma RowStartsOrdered(C: int, R: int, n: int)
    requires 0 < n
    ensures C < R ==> C * n < R * n
  {
    if C < R {
      CNum.MulMono(C + 1, R, n);
      NextRowStart(C, n);
    }
  }

  /** One more column of the row product, read straight from the storage at l and at j + l - i. */
  lemma DotStep(m: seq<real>, n: int, r: int, c: int, i: int, j: int, l: int)
    requires 0 <= c <= r < n && n * n <= |m| && i == FlatIndex(r, 0, n) && j == FlatIndex(c, 0, n)
    requires i <= l < i + c
    ensures 0 <= l < |m| && 0 <= j + l - i < |m|
    ensures Dot(m, n, r, c, l - i + 1) == Dot(m, n, r, c, l - i) + m[l] * m[j + l - i]
  {
    CellInStorage(m, n, r, l - i);
    CellInStorage(m, n, c, l - i);
  }

  /** The l loop: the entry at k minus the products of row r and row c over the columns before c. */
  method PivotSum(a: seq<real>, n: int, ghost r: int, ghost c: int, i: int, j: int, k: int) returns (sm: real)
    requires 0 <= c <= r < n && n * n <= |a|
    requires i == FlatIndex(r, 0, n) && j == FlatIndex(c, 0, n) && k == i + c
    ensures sm == Cell(a, n, r, c) - Dot(a, n, r, c, c)
  {
    CellInStorage(a, n, r, c);
    sm := a[k];
    var l := i;
    while l < k
      invariant i <= l <= k
      invariant sm == Cell(a, n, r, c) - Dot(a, n, r, c, l - i)
    {
      DotStep(a, n, r, c, i, j, l);
      sm := sm - a[l] * a[j + l - i];
      l := l + 1;
    }
  }

  /**
   * The diagonal branch: t[s] = sqrt(sm), det *= t[s], a[k] = t[s],
   * t[s] = 1 / t[s].
   */
  method Diagonal(a: array<real>, t: array<real>, n: int, k: int, s: int, sm: real, det: real, sqrt: real -> real,
                  ghost R: int)
    returns (det': real)
    requires a != t && PositiveSqrt(sqrt) && 0 <= R < n && n * n <= a.Length && k == FlatIndex(R, R, n)
    requires s == R < t.Length && sm > 0.0
    modifies a, t
    ensures a[..] == SetCell(old(a[..]), n, R, R, sqrt(sm)) && t[..] == old(t[..])[R := 1.0 / sqrt(sm)]
    ensures det' == det * sqrt(sm)
  {
    CellUpdate(a[..], n, R, R, sqrt(sm), R, R);
    t[s] := sqrt(sm);
    det' := det * t[s];
    a[k] := t[s];
    t[s] := 1.0 / t[s];
  }

  /** The write of the branch below the diagonal, a[k] = v. */
  method Below(a: array<real>, n: int, k: int, v: real, ghost R: int, ghost C: int)
    requires 0 <= C < R < n && n * n <= a.Length && k == FlatIndex(R, C, n)
    modifies a
    ensures a[..] == SetCell(old(a[..]), n, R, C, v)
  {
    CellUpdate(a[..], n, R, C, v, R, C);
    a[k] := v;
  }

  /**
   * One pass of the j loop, entry (R, C) of row R: the diagonal stops the
   * routine when its pivot is not positive and otherwise finishes the row;
   * an entry below the diagonal is scaled by the stored reciprocal.  The
   * ghost l, tt (and l2, tt2) name the contents of a and t before (and after).
   */
  method RowEntry(a: array<real>, n: int, t: array<real>, i: int, j: int, k: int, s: int, det: real,
                  sqrt: real -> real, ghost a0: seq<real>, ghost t0: seq<real>, ghost R: int, ghost C: int,
                  ghost l: seq<real>, ghost tt: seq<real>)
    returns (stop: bool, det': real, ghost l2: seq<real>, ghost tt2: seq<real>)
    requires a != t && PositiveSqrt(sqrt) && 0 <= C <= R < n
    requires i == FlatIndex(R, 0, n) && j == FlatIndex(C, 0, n) && k == i + C && s == C
    requires a[..] == l && t[..] == tt
    requires State(a0, l, tt, t0, n, R, C, sqrt) && det == DiagProduct(l, n, R)
    modifies a, t
    ensures a[..] == l2 && t[..] == tt2
    ensures stop ==> C == R && l2 == l && tt2 == tt && det' == det && Pivot(a0, l, n, R, R) <= 0.0
    ensures !stop && C < R ==> State(a0, l2, tt2, t0, n, R, C + 1, sqrt) && det' == DiagProduct(l2, n, R)
    ensures !stop && C == R ==> State(a0, l2, tt2, t0, n, R + 1, 0, sqrt) && det' == DiagProduct(l2, n, R + 1)
  {
    var sm := PivotSum(a[..], n, R, C, i, j, k);
    assert Cell(l, n, R, C) == Cell(a0, n, R, C);
    assert sm == Pivot(a0, l, n, R, C);
    RowStart(R, C, n);
    stop := false;
    det' := det;
    if i == j {
      if sm <= 0.0 {
        stop := true;
        l2, tt2 := l, tt;
        return;
      }
      det', l2, tt2 := DiagonalEntry(a, t, n, k, s, sm, det, sqrt, a0, t0, R, l, tt);
    } else {
      l2 := BelowEntry(a, t, n, k, s, sm, sqrt, a0, t0, R, C, l, tt);
      tt2 := tt;
    }
  }

  /** The diagonal branch finishes row R, with the determinant gaining the new diagonal entry. */
  method DiagonalEntry(a: array<real>, t: array<real>, n: int, k: int, s: int, sm: real, det: real, sqrt: real -> real,
                       ghost a0: seq<real>, ghost t0: seq<real>, ghost R: int, ghost l: seq<real>, ghost tt: seq<real>)
    returns (det': real, ghost l2: seq<real>, ghost tt2: seq<real>)
    requires a != t && PositiveSqrt(sqrt) && 0 <= R < n && k == FlatIndex(R, R, n) && s == R
    requires a[..] == l && t[..] == tt && State(a0, l, tt, t0, n, R, R, sqrt) && det == DiagProduct(l, n, R)
    requires sm == Pivot(a0, l, n, R, R) && sm > 0.0
    modifies a, t
    ensures a[..] == l2 && t[..] == tt2
    ensures State(a0, l2, tt2, t0, n, R + 1, 0, sqrt) && det' == DiagProduct(l2, n, R + 1)
  {
    WriteDiagonal(a0, l, tt, t0, n, R, sqrt(sm), sqrt);
    det' := Diagonal(a, t, n, k, s, sm, det, sqrt, R);
    l2, tt2 := SetCell(l, n, R, R, sqrt(sm)), tt[R := 1.0 / sqrt(sm)];
  }

  /** The branch below the diagonal factors entry (R, C) and leaves the determinant. */
  method BelowEntry(a: array<real>, t: array<real>, n: int, k: int, s: int, sm: real, sqrt: real -> real,
                    ghost a0: seq<real>, ghost t0: seq<real>, ghost R: int, ghost C: int, ghost l: seq<real>,
                    ghost tt: seq<real>)
    returns (ghost l2: seq<real>)
    requires a != t && 0 <= C < R < n && k == FlatIndex(R, C, n) && s == C
    requires a[..] == l && t[..] == tt && State(a0, l, tt, t0, n, R, C, sqrt)
    requires sm == Pivot(a0, l, n, R, C)
    modifies a
    ensures a[..] == l2
    ensures State(a0, l2, tt, t0, n, R, C + 1, sqrt) && DiagProduct(l2, n, R) == DiagProduct(l, n, R)
  {
    WriteBelow(a0, l, tt, t0, n, R, C, sqrt);
    var v := sm * t[s];
    assert v == Pivot(a0, l, n, R, C) * tt[C];
    Below(a, n, k, v, R, C);
    l2 := SetCell(l, n, R, C, v);
  }

  /**
   * One pass of the outer loop, row R starting at i = R·n: on success the
   * row is factored and det gains its diagonal; on failure the entries
   * before the diagonal are factored and the diagonal pivot is not positive.
   */
  method Row(a: array<real>, n: int, t: array<real>, i: int, det: real, sqrt: real -> real,
             ghost a0: seq<real>, ghost t0: seq<real>, ghost R: int, ghost l: seq<real>, ghost tt: seq<real>)
    returns (ok: bool, det': real, ghost l2: seq<real>, ghost tt2: seq<real>)
    requires a != t && PositiveSqrt(sqrt) && 0 <= R < n && i == FlatIndex(R, 0, n)
    requires a[..] == l && t[..] == tt
    requires State(a0, l, tt, t0, n, R, 0, sqrt) && det == DiagProduct(l, n, R)
    modifies a, t
    ensures a[..] == l2 && t[..] == tt2
    ensures ok ==> State(a0, l2, tt2, t0, n, R + 1, 0, sqrt) && det' == DiagProduct(l2, n, R + 1)
    ensures !ok ==> (State(a0, l2, tt2, t0, n, R, R, sqrt) && Pivot(a0, l2, n, R, R) <= 0.0 &&
                     det' == DiagProduct(l2, n, R))
  {
    det' := det;
    l2, tt2 := l, tt;
    var k := i;
    var s := 0;
    var j := 0;
    ghost var C := 0;
    RowStart(R, C, n);
    while j <= i
      invariant 0 <= C <= R + 1 && j == FlatIndex(C, 0, n) && k == i + C && s == C
      invariant (j <= i) <==> (C <= R)
      invariant a[..] == l2 && t[..] == tt2
      invariant C <= R ==> State(a0, l2, tt2, t0, n, R, C, sqrt) && det' == DiagProduct(l2, n, R)
      invariant C == R + 1 ==> State(a0, l2, tt2, t0, n, R + 1, 0, sqrt) && det' == DiagProduct(l2, n, R + 1)
      decreases R + 1 - C
    {
      var stop;
      stop, det', l2, tt2 := RowEntry(a, n, t, i, j, k, s, det', sqrt, a0, t0, R, C, l2, tt2);
      if stop {
        return false, det', l2, tt2;
      }
      RowStart(R, C, n);
      k := k + 1;
      s := s + 1;
      j := j + n;
      C := C + 1;
      RowStart(R, C, n);
    }
    ok := true;
  }

  /**
   * `dchlsky`: m rows of the lower triangle of a are overwritten with the
   * Cholesky factor, t[0..m) holds the reciprocals of its diagonal and det
   * the product of that diagonal.  m == n unless row m's pivot is not
   * positive, in which case the entries of row m before the diagonal are
   * already overwritten and the rest of the matrix keeps its input values.
   */
  method Dchlsky(a: array<real>, n: int, t: array<real>, sqrt: real -> real) returns (m: int, det: real)
    requires 0 <= n && n * n <= a.Length && n <= t.Length && a != t && PositiveSqrt(sqrt)
    modifies a, t
    ensures 0 <= m <= n
    ensures State(old(a[..]), a[..], t[..], old(t[..]), n, m, if m < n then m else 0, sqrt)
    ensures m < n ==> Pivot(old(a[..]), a[..], n, m, m) <= 0.0
    ensures det == DiagProduct(a[..], n, m)
  {
    ghost var a0 := a[..];
    ghost var t0 := t[..];
    ghost var l, tt := a0, t0;
    det := 1.0;
    m := 0;
    var i := 0;
    RowStart(m, 0, n);
    while i < n * n
      invariant 0 <= m <= n && i == FlatIndex(m, 0, n) && ((i < n * n) <==> (m < n))
      invariant a[..] == l && t[..] == tt
      invariant State(a0, l, tt, t0, n, m, 0, sqrt) && det == DiagProduct(l, n, m)
      decreases n - m
    {
      var ok;
      ok, det, l, tt := Row(a, n, t, i, det, sqrt, a0, t0, m, l, tt);
      if !ok {
        return;
      }
      RowStart(m, m, n);
      m := m + 1;
      i := i + n;
      RowStart(m, 0, n);
    }
  }
}
