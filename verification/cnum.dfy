/** C++ integer arithmetic on the unbounded integers and reals of the model. */
module CNum {
  /** A `static_cast<int>` (or implicit conversion) of a double: truncation toward zero. */
  function Trunc(x: real): (r: int)
    ensures x >= 0.0 ==> r as real <= x < r as real + 1.0
    ensures x < 0.0 ==> r as real - 1.0 < x <= r as real
  {
    if x >= 0.0 then x.Floor else -((-x).Floor)
  }

  /** `std::floor` followed by a cast to int. */
  function Floor(x: real): (r: int)
    ensures r as real <= x < r as real + 1.0
  {
    x.Floor
  }

  /** `std::ceil` followed by a cast to int. */
  function Ceil(x: real): (r: int)
    ensures r as real - 1.0 < x <= r as real
  {
    -((-x).Floor)
  }

  /** C++ integer division `a / b`: the quotient truncated toward zero. */
  function Div(a: int, b: int): (q: int)
    requires b != 0
    ensures a >= 0 && b > 0 ==> q == a / b
    ensures b > 0 ==> q * b <= a < q * b + b || q * b - b < a <= q * b
    ensures b > 0 && a < 0 ==> q * b - b < a <= q * b
  {
    if (a >= 0) == (b > 0) then Abs(a) / Abs(b) else -(Abs(a) / Abs(b))
  }

  function Abs(a: int): (r: nat)
    ensures r == a || r == -a
  {
    if a < 0 then -a else a
  }

  function Min(a: int, b: int): (r: int)
    ensures r <= a && r <= b && (r == a || r == b)
  {
    if a <= b then a else b
  }

  function Max(a: int, b: int): (r: int)
    ensures r >= a && r >= b && (r == a || r == b)
  {
    if a >= b then a else b
  }

  function RAbs(x: real): (r: real)
    ensures r >= 0.0 && (r == x || r == -x)
  {
    if x < 0.0 then -x else x
  }

  /** A freshly sized vector of doubles: n zeros (none for a negative n). */
  function Zeros(n: int): (z: seq<real>)
    ensures |z| == if n < 0 then 0 else n
    ensures forall i :: 0 <= i < |z| ==> z[i] == 0.0
  {
    seq(if n < 0 then 0 else n, _ => 0.0)
  }

  /** `std::vector::resize(n, d)`: the old prefix is kept and new slots hold `d`. */
  function Resized<T>(s: seq<T>, n: nat, d: T): (r: seq<T>)
    ensures |r| == n
    ensures forall i :: 0 <= i < n ==> r[i] == if i < |s| then s[i] else d
  {
    if n <= |s| then s[..n] else s + seq(n - |s|, _ => d)
  }

  /** Multiplying by a non-negative factor keeps the order. */
  lemma MulMono(a: int, b: int, c: nat)
    requires a <= b
    ensures a * c <= b * c
  {
  }

  /** `x / ds * ds` in C: x rounded toward zero to a multiple of ds. */
  function RoundDown(x: int, ds: int): (r: int)
    requires ds >= 1
    ensures x >= 0 ==> 0 <= r <= x < r + ds
    ensures x < 0 ==> r <= 0
  {
    RoundDownBounds(x, ds);
    Div(x, ds) * ds
  }

  /** The truncated quotient times ds lies at or below a non-negative x, and at or above a negative one. */
  lemma RoundDownBounds(x: int, ds: int)
    requires ds >= 1
    ensures x >= 0 ==> 0 <= Div(x, ds) * ds <= x < Div(x, ds) * ds + ds
    ensures x < 0 ==> Div(x, ds) * ds <= 0
  {
    var q := Div(x, ds);
    var a := Abs(x) / ds;
    var r := Abs(x) % ds;
    assert Abs(x) == ds * a + r && 0 <= r < ds;
    if a < 0 {
      MulMono(a, -1, ds);
      assert false;
    }
    MulMono(0, a, ds);
    if x >= 0 {
      assert q == a;
    } else {
      assert q == -a;
    }
  }

  /** A whole multiple of d leaves no remainder. */
  lemma MulMod(q: int, d: int)
    requires d >= 1
    ensures (q * d) % d == 0
  {
    var x := q * d;
    var p, r := x / d, x % d;
    assert (q - p) * d == r;
    if q - p >= 1 {
      MulMono(1, q - p, d);
    } else if q - p <= -1 {
      MulMono(q - p, -1, d);
    }
  }

  /** The rounded value is a multiple of ds. */
  lemma RoundDownAligned(x: int, ds: int)
    requires ds >= 1
    ensures RoundDown(x, ds) % ds == 0
  {
    MulMod(Div(x, ds), ds);
  }
}
