/** A row-major matrix over one flat vector, with bound-checked element access (vector2d.h). */
module Vector2d {
  import opened Wrappers
  import opened CNum

  /** Position of element (i, j) in the flat storage of a matrix with `cols` columns. */
  function FlatIndex(i: int, j: int, cols: int): int
  {
    i * cols + j
  }

  /** Inside the matrix, flat positions are in range and distinct cells never share one. */
  lemma FlatIndexInRange(i: int, j: int, rows: nat, cols: nat)
    requires 0 <= i < rows && 0 <= j < cols
    ensures 0 <= FlatIndex(i, j, cols) < rows * cols
  {
    assert i * cols <= (rows - 1) * cols by {
      MulMono(i, rows - 1, cols);
    }
  }

  lemma {:induction false} FlatIndexInjective(i: int, j: int, i2: int, j2: int, cols: nat)
    requires 0 <= j < cols && 0 <= j2 < cols
    requires FlatIndex(i, j, cols) == FlatIndex(i2, j2, cols)
    ensures i == i2 && j == j2
  {
    if i < i2 {
      MulMono(i + 1, i2, cols);
      assert false;
    } else if i2 < i {
      MulMono(i2 + 1, i, cols);
      assert false;
    }
  }

  /** Every flat position is reached from exactly the cell (k / cols, k % cols). */
  lemma FlatIndexRoundTrip(k: nat, cols: nat)
    requires cols > 0
    ensures FlatIndex(k / cols, k % cols, cols) == k
  {
  }

  /**
   * Cell (i, j) of a row-major matrix with `cols` columns stored flat in p,
   * that is p[i·cols + j] (the raw `double *` matrices of the routines); a
   * cell outside the storage reads as 0.
   */
  function Cell(p: seq<real>, cols: int, i: int, j: int): real
  {
    var t := FlatIndex(i, j, cols);
    if 0 <= t < |p| then p[t] else 0.0
  }

  // The square n·n matrices that the ESPS routines (`dchlsky`) keep in a flat
  // vector use the same row-major layout; the next members serve them.

  /** Inside a square matrix every cell is read from the storage, none defaults to 0. */
  lemma CellInStorage(p: seq<real>, cols: int, i: int, j: int)
    requires 0 <= i < cols && 0 <= j < cols && cols * cols <= |p|
    ensures 0 <= FlatIndex(i, j, cols) < |p| && Cell(p, cols, i, j) == p[FlatIndex(i, j, cols)]
  {
    FlatIndexInRange(i, j, cols, cols);
  }

  /** The storage p with cell (i, j) set to v; a cell outside the storage leaves p as it is. */
  function SetCell(p: seq<real>, cols: int, i: int, j: int, v: real): (p2: seq<real>)
    ensures |p2| == |p|
  {
    var t := FlatIndex(i, j, cols);
    if 0 <= t < |p| then p[t := v] else p
  }

  /** Writing one cell of a square matrix changes that cell and no other. */
  lemma CellUpdate(p: seq<real>, cols: int, i: int, j: int, v: real, i2: int, j2: int)
    requires 0 <= i < cols && 0 <= j < cols && 0 <= i2 < cols && 0 <= j2 < cols && cols * cols <= |p|
    ensures 0 <= FlatIndex(i, j, cols) < |p| && SetCell(p, cols, i, j, v) == p[FlatIndex(i, j, cols) := v]
    ensures Cell(SetCell(p, cols, i, j, v), cols, i2, j2) == if (i2, j2) == (i, j) then v else Cell(p, cols, i2, j2)
  {
    FlatIndexInRange(i, j, cols, cols);
    FlatIndexInRange(i2, j2, cols, cols);
    if FlatIndex(i, j, cols) == FlatIndex(i2, j2, cols) {
      FlatIndexInjective(i, j, i2, j2, cols);
    }
  }

  /** Outside the n·n cells of a square matrix, SetCell changes nothing. */
  lemma SetCellBeyond(p: seq<real>, cols: int, i: int, j: int, v: real, k: int)
    requires 0 <= i < cols && 0 <= j < cols && cols * cols <= k < |p|
    ensures SetCell(p, cols, i, j, v)[k] == p[k]
  {
    FlatIndexInRange(i, j, cols, cols);
  }

  /** The cell (i, j) passes `boundCheck`. */
  predicate InBounds(i: int, j: int, rows: int, cols: int)
  {
    0 <= i < rows && 0 <= j < cols
  }

  class Matrix<T> {
    var rows: int
    var cols: int
    var data: seq<T>

    ghost predicate Valid()
      reads this
    {
      rows >= 0 && cols >= 0 && |data| == rows * cols
    }

    /** The element at (i, j) of a valid matrix. */
    function At(i: int, j: int): T
      reads this
      requires Valid() && InBounds(i, j, rows, cols)
    {
      FlatIndexInRange(i, j, rows, cols);
      data[FlatIndex(i, j, cols)]
    }

    /** `vector2d(rows, cols, value)`: every cell holds `value`. */
    constructor (r: nat, c: nat, value: T)
      ensures Valid() && rows == r && cols == c
      ensures forall i, j :: InBounds(i, j, rows, cols) ==> At(i, j) == value
    {
      rows, cols := r, c;
      data := seq(r * c, _ => value);
      new;
      forall i, j | InBounds(i, j, rows, cols) ensures At(i, j) == value {
        FlatIndexInRange(i, j, rows, cols);
      }
    }

    /** `vector2d()`: the empty matrix. */
    constructor Empty()
      ensures Valid() && rows == 0 && cols == 0 && data == []
    {
      rows, cols, data := 0, 0, [];
    }

    /**
     * `resize(rows, cols)`: the flat storage keeps its prefix and grows with
     * default values `fill`, so cells do not keep their (i, j) position when
     * the column count changes.
     */
    method Resize(r: nat, c: nat, fill: T)
      modifies this
      ensures Valid() && rows == r && cols == c
      ensures data == Resized(old(data), r * c, fill)
    {
      rows, cols := r, c;
      data := Resized(data, r * c, fill);
    }

    /** `clear()`. */
    method Clear()
      modifies this
      ensures Valid() && rows == 0 && cols == 0 && data == []
    {
      rows, cols, data := 0, 0, [];
    }

    /** `operator()(i, j)` read: a cell outside the matrix raises a domain error. */
    method Get(i: int, j: int) returns (r: Result<T>)
      requires Valid()
      ensures r.Success? <==> InBounds(i, j, rows, cols)
      ensures r.Success? ==> r.value == At(i, j)
      ensures r.Failure? ==> r.error == DomainError
    {
      if i < 0 || i >= rows || j < 0 || j >= cols {
        return Failure(DomainError);
      }
      FlatIndexInRange(i, j, rows, cols);
      return Success(data[FlatIndex(i, j, cols)]);
    }

    /** `operator()(i, j) = v`: writes exactly one cell, or raises a domain error and writes nothing. */
    method Set(i: int, j: int, v: T) returns (r: Result<()>)
      requires Valid()
      modifies this
      ensures Valid() && rows == old(rows) && cols == old(cols)
      ensures r.Success? <==> InBounds(i, j, rows, cols)
      ensures r.Failure? ==> data == old(data)
      ensures r.Success? ==> At(i, j) == v
      ensures r.Success? ==> forall i2, j2 :: InBounds(i2, j2, rows, cols) && (i2, j2) != (i, j) ==>
        At(i2, j2) == old(At(i2, j2))
    {
      if i < 0 || i >= rows || j < 0 || j >= cols {
        return Failure(DomainError);
      }
      FlatIndexInRange(i, j, rows, cols);
      data := data[FlatIndex(i, j, cols) := v];
      r := Success(());
      forall i2, j2 | InBounds(i2, j2, rows, cols) && (i2, j2) != (i, j)
        ensures At(i2, j2) == old(At(i2, j2))
      {
        FlatIndexInRange(i2, j2, rows, cols);
        if FlatIndex(i2, j2, cols) == FlatIndex(i, j, cols) {
          FlatIndexInjective(i2, j2, i, j, cols);
        }
      }
    }

    /** `operator()(i)` / `operator[](i)`: the row view of row i, or a domain error. */
    method Row(i: int) returns (r: Result<seq<T>>)
      requires Valid()
      ensures r.Success? <==> 0 <= i < rows
      ensures r.Success? ==> |r.value| == cols && forall j :: 0 <= j < cols ==> r.value[j] == At(i, j)
    {
      if i < 0 || i >= rows {
        return Failure(DomainError);
      }
      assert (i + 1) * cols <= rows * cols by { MulMono(i + 1, rows, cols); }
      r := Success(data[i * cols .. i * cols + cols]);
    }
  }
}
