/**
 * The set-up half of the harmonic change detector
 * (eckf/harmonic_change_detector.cpp): `next_pow2` on 64-bit unsigned
 * integers, the truncated frequency grid `truncated_fbins`, and the one-off
 * initialisation of the detector's static tables.  The detector itself
 * returns a value-initialised result.  The Blackman and Poisson window
 * tables (built with cos and exp) enter as parameters.
 *
 * A `uint64_t` is a natural number below 2^64.  Shifts and bitwise or are
 * defined on naturals by recursion on the bits, so that `next_pow2` can be
 * proved correct by induction over its six or-shift steps.
 */
module HarmonicChangeDetector {
  import opened CNum
  import opened Routines

  function Pow2(k: nat): (p: nat)
    ensures p >= 1
  {
    if k == 0 then 1 else 2 * Pow2(k - 1)
  }

  lemma {:induction false} Pow2Mono(a: nat, b: nat)
    requires a <= b
    ensures Pow2(a) <= Pow2(b)
    decreases b
  {
    if a < b {
      Pow2Mono(a, b - 1);
    }
  }

  /** Bitwise or of two non-negative integers. */
  function Or(a: nat, b: nat): nat
    decreases a + b
  {
    if a == 0 then b
    else if b == 0 then a
    else 2 * Or(a / 2, b / 2) + (if a % 2 == 1 || b % 2 == 1 then 1 else 0)
  }

  /** Logical shift right by `k` bits: `k` halvings. */
  function Shr(y: nat, k: nat): nat
  {
    if k == 0 then y else Shr(y / 2, k - 1)
  }

  lemma {:induction false} OrAtLeast(a: nat, b: nat)
    ensures Or(a, b) >= a && Or(a, b) >= b
    decreases a + b
  {
    if a != 0 && b != 0 {
      OrAtLeast(a / 2, b / 2);
    }
  }

  lemma {:induction false} OrBelow(a: nat, b: nat, k: nat)
    requires a < Pow2(k) && b < Pow2(k)
    ensures Or(a, b) < Pow2(k)
    decreases k
  {
    if a != 0 && b != 0 {
      OrBelow(a / 2, b / 2, k - 1);
    }
  }

  /** `hi` shifted left by `k` bits. */
  function Shl(hi: nat, k: nat): nat
  {
    if k == 0 then hi else 2 * Shl(hi, k - 1)
  }



  /** Or-ing a number below 2^k into the low k bits leaves the high part alone. */
  lemma {:induction false} OrSplit(hi: nat, lo: nat, b: nat, k: nat)
    requires lo < Pow2(k) && b < Pow2(k)
    ensures Or(Shl(hi, k) + lo, b) == Shl(hi, k) + Or(lo, b)
    decreases k
  {
    if k > 0 && b != 0 && Shl(hi, k) + lo != 0 {
      OrSplit(hi, lo / 2, b / 2, k - 1);
      OrSplitStep(Shl(hi, k - 1), lo, b);
    }
  }

  /** One step of OrSplit: the lowest bit and the halves of `2h + lo`. */
  lemma OrSplitStep(h: nat, lo: nat, b: nat)
    requires b != 0 && 2 * h + lo != 0
    requires Or(h + lo / 2, b / 2) == h + Or(lo / 2, b / 2)
    ensures Or(2 * h + lo, b) == 2 * h + Or(lo, b)
  {
    var a := 2 * h + lo;
    assert a / 2 == h + lo / 2 && a % 2 == lo % 2;
    if lo == 0 {
      assert Or(lo / 2, b / 2) == b / 2;
    }
  }

  /** The low `k` bits of `y`. */
  function Low(y: nat, k: nat): (r: nat)
    ensures r < Pow2(k)
  {
    if k == 0 then 0 else 2 * Low(y / 2, k - 1) + y % 2
  }

  lemma {:induction false} ShrLow(y: nat, k: nat)
    ensures y == Shl(Shr(y, k), k) + Low(y, k)
    decreases k
  {
    if k > 0 {
      ShrLow(y / 2, k - 1);
    }
  }

  lemma {:induction false} ShrOfRange(y: nat, c: nat, k: nat)
    requires Shl(c, k) <= y < Shl(c + 1, k)
    ensures Shr(y, k) == c
    decreases k
  {
    if k > 0 {
      ShrOfRange(y / 2, c, k - 1);
    }
  }

  lemma {:induction false} ShrBelow(y: nat, c: nat, k: nat)
    requires y < Shl(c, k)
    ensures Shr(y, k) < c
    decreases k
  {
    if k > 0 {
      ShrBelow(y / 2, c, k - 1);
    }
  }

  lemma {:induction false} ShrMono(y: nat, z: nat, k: nat)
    requires y <= z
    ensures Shr(y, k) <= Shr(z, k)
    decreases k
  {
    if k > 0 {
      ShrMono(y / 2, z / 2, k - 1);
    }
  }

  lemma {:induction false} ShrAtMost(y: nat, k: nat)
    ensures Shr(y, k) <= y
    decreases k
  {
    if k > 0 {
      ShrAtMost(y / 2, k - 1);
    }
  }

  lemma {:induction false} ShrShl(c: nat, k: nat, m: nat)
    ensures m <= k ==> Shr(Shl(c, k), m) == Shl(c, k - m)
    ensures k < m ==> Shr(Shl(c, k), m) == Shr(c, m - k)
    decreases m
  {
    if m > 0 && k > 0 {
      ShrShl(c, k - 1, m - 1);
    }
  }

  lemma {:induction false} ShlAdd(a: nat, b: nat, k: nat)
    ensures Shl(a, k) + Shl(b, k) == Shl(a + b, k)
    decreases k
  {
    if k > 0 {
      ShlAdd(a, b, k - 1);
    }
  }

  lemma {:induction false} ShlShl(a: nat, i: nat, j: nat)
    ensures Shl(Shl(a, i), j) == Shl(a, i + j)
    decreases j
  {
    if j > 0 {
      ShlShl(a, i, j - 1);
    }
  }

  lemma {:induction false} ShlPow2(m: nat, k: nat)
    ensures Shl(Pow2(m), k) == Pow2(m + k)
    decreases k
  {
    if k > 0 {
      ShlPow2(m, k - 1);
    }
  }

  /** Halving a block of n low ones d times leaves n - d low ones. */
  lemma {:induction false} ShrOnes(n: nat, d: nat)
    requires d <= n
    ensures Shr(Pow2(n) - 1, d) == Pow2(n - d) - 1
    decreases d
  {
    if d > 0 {
      assert (Pow2(n) - 1) / 2 == Pow2(n - 1) - 1;
      ShrOnes(n - 1, d - 1);
    }
  }

  /** `y` has `L` significant bits and the top `j` of them are ones. */
  predicate TopFilled(y: nat, L: nat, j: nat)
  {
    j <= L && Shl(Pow2(j) - 1, L - j) <= y < Pow2(L)
  }

  /** A full block of `L` low ones. */
  lemma FullBlock(y: nat, L: nat)
    requires TopFilled(y, L, L)
    ensures y == Pow2(L) - 1
  {
  }

  /** One or-shift step doubles the run of top ones, up to the whole width. */
  lemma StepFull(y: nat, L: nat, m: nat)
    requires TopFilled(y, L, L)
    ensures TopFilled(Or(y, Shr(y, m)), L, L)
  {
    ShrAtMost(y, m);
    OrAtLeast(y, Shr(y, m));
    OrBelow(y, Shr(y, m), L);
  }

  /** Below a run of `m` top ones, the or-shift only touches the low `L - m` bits. */
  lemma Decompose(y: nat, L: nat, m: nat)
    requires 0 < m < L && TopFilled(y, L, m)
    ensures Or(y, Shr(y, m)) == Shl(Pow2(m) - 1, L - m) + Or(Low(y, L - m), Shr(y, m))
    ensures Shr(Shl(Pow2(m) - 1, L - m), m) <= Shr(y, m) < Pow2(L - m)
  {
    var k := L - m;
    var c := Pow2(m) - 1;
    ShiftedBelow(y, L, m);
    TopPart(y, L, m);
    ShrLow(y, k);
    OrSplit(c, Low(y, k), Shr(y, m), k);
  }

  /** The top `m` bits of `y` are all ones. */
  lemma TopPart(y: nat, L: nat, m: nat)
    requires 0 < m < L && TopFilled(y, L, m)
    ensures Shr(y, L - m) == Pow2(m) - 1
  {
    var k := L - m;
    var c := Pow2(m) - 1;
    RunBelowWidth(c, k, m, L);
    ShlAdd(c, 1, k);
    ShlOne(k);
    ShrOfRange(y, c, k);
  }

  /** The copy shifted by `m` lies within the low `L - m` bits, above the shifted run. */
  lemma ShiftedBelow(y: nat, L: nat, m: nat)
    requires 0 < m < L && TopFilled(y, L, m)
    ensures Shr(Shl(Pow2(m) - 1, L - m), m) <= Shr(y, m) < Pow2(L - m)
  {
    var k := L - m;
    ShlPow2(k, m);
    ShrBelow(y, Pow2(k), m);
    ShrMono(Shl(Pow2(m) - 1, k), y, m);
  }

  lemma StepGrowBelow(y: nat, L: nat, m: nat)
    requires 0 < m < L && TopFilled(y, L, m)
    ensures Or(y, Shr(y, m)) < Pow2(L)
  {
    var k := L - m;
    var c := Pow2(m) - 1;
    var o := Or(Low(y, k), Shr(y, m));
    Decompose(y, L, m);
    OrBelow(Low(y, k), Shr(y, m), k);
    assert o < Pow2(k);
    RunBelowWidth(c, k, m, L);
  }

  /** A run of `m` top ones followed by `k` free bits fills at most `m + k` bits. */
  lemma RunBelowWidth(c: nat, k: nat, m: nat, L: nat)
    requires c + 1 == Pow2(m) && L == m + k
    ensures Shl(c, k) + Pow2(k) == Pow2(L)
  {
    ShlAdd(c, 1, k);
    ShlOne(k);
    ShlPow2(m, k);
  }

  lemma ShlOne(k: nat)
    ensures Shl(1, k) == Pow2(k)
  {
    ShlPow2(0, k);
    assert Pow2(0) == 1;
  }

  /** The or-shift keeps the run of top ones and adds at least the shifted copy below it. */
  lemma OrAboveRun(y: nat, L: nat, m: nat)
    requires 0 < m < L && TopFilled(y, L, m)
    ensures Or(y, Shr(y, m)) >= Shl(Pow2(m) - 1, L - m) + Shr(y, m)
    ensures Shr(y, m) >= Shr(Shl(Pow2(m) - 1, L - m), m)
  {
    Decompose(y, L, m);
    OrAtLeast(Low(y, L - m), Shr(y, m));
  }

  lemma GrowAboveShort(y: nat, L: nat, m: nat)
    requires 0 < m && 2 * m <= L && TopFilled(y, L, m)
    ensures Shl(Pow2(2 * m) - 1, L - 2 * m) <= Or(y, Shr(y, m))
  {
    var k := L - m;
    var c := Pow2(m) - 1;
    OrAboveRun(y, L, m);
    ShrShl(c, k, m);
    GrowLower(m, k);
  }

  lemma GrowAboveLong(y: nat, L: nat, m: nat)
    requires m < L < 2 * m && TopFilled(y, L, m)
    ensures Pow2(L) - 1 <= Or(y, Shr(y, m))
  {
    var k := L - m;
    var c := Pow2(m) - 1;
    OrAboveRun(y, L, m);
    ShrShl(c, k, m);
    ShrOnes(m, m - k);
    assert m - (m - k) == k;
    assert Shr(y, m) >= Pow2(k) - 1;
    RunBelowWidth(c, k, m, L);
  }

  lemma StepGrowAbove(y: nat, L: nat, m: nat)
    requires 0 < m < L && TopFilled(y, L, m)
    ensures Shl(Pow2(Min(2 * m, L)) - 1, L - Min(2 * m, L)) <= Or(y, Shr(y, m))
  {
    if 2 * m <= L {
      GrowAboveShort(y, L, m);
    } else {
      GrowAboveLong(y, L, m);
    }
  }

  lemma StepGrow(y: nat, L: nat, m: nat)
    requires 0 < m < L && TopFilled(y, L, m)
    ensures TopFilled(Or(y, Shr(y, m)), L, Min(2 * m, L))
  {
    StepGrowBelow(y, L, m);
    StepGrowAbove(y, L, m);
  }

  /** The two runs of ones, m and then m more, make a run of 2m ones. */
  lemma GrowLower(m: nat, k: nat)
    requires m <= k
    ensures Shl(Pow2(m) - 1, k) + Shl(Pow2(m) - 1, k - m) == Shl(Pow2(2 * m) - 1, k - m)
  {
    var c := Pow2(m) - 1;
    ShlShl(c, m, k - m);
    ShlAdd(c, 1, m);
    assert Shl(1, m) == Pow2(m) by { ShlPow2(0, m); }
    ShlPow2(m, m);
    ShlAdd(Shl(c, m), c, k - m);
  }


  lemma Step(y: nat, L: nat, m: nat)
    requires m > 0 && TopFilled(y, L, Min(m, L))
    ensures TopFilled(Or(y, Shr(y, m)), L, Min(2 * m, L))
  {
    if m < L {
      StepGrow(y, L, m);
    } else {
      StepFull(y, L, m);
    }
  }

  /** Number of significant bits of `v`. */
  function BitLen(v: nat): nat
  {
    if v == 0 then 0 else 1 + BitLen(v / 2)
  }

  lemma {:induction false} BitLenBounds(v: nat)
    ensures v < Pow2(BitLen(v))
    ensures v > 0 ==> Pow2(BitLen(v) - 1) <= v
  {
    if v > 0 {
      BitLenBounds(v / 2);
    }
  }

  lemma {:induction false} BitLenAtMost(v: nat, k: nat)
    requires v < Pow2(k)
    ensures BitLen(v) <= k
  {
    if v > 0 {
      BitLenAtMost(v / 2, k - 1);
    }
  }

  /** 2^64: `uint64_t` arithmetic wraps around modulo this. */
  const U64: nat := 0x1_0000_0000_0000_0000

  /** 2^63, the top bit of a `uint64_t`. */
  const Top64: nat := 0x8000_0000_0000_0000

  lemma {:induction false} Pow2Add(a: nat, b: nat)
    ensures Pow2(a + b) == Pow2(a) * Pow2(b)
    decreases a
  {
    if a > 0 {
      Pow2Add(a - 1, b);
      assert Pow2(a + b) == 2 * Pow2(a - 1 + b);
    }
  }

  lemma Pow2Of16()
    ensures Pow2(16) == 0x1_0000
  {
    assert Pow2(8) == 0x100;
    Pow2Add(8, 8);
  }

  lemma Pow2Of32()
    ensures Pow2(32) == 0x1_0000_0000
  {
    Pow2Of16();
    Pow2Add(16, 16);
  }

  lemma Pow2Of64()
    ensures Pow2(64) == U64
  {
    Pow2Of32();
    Pow2Add(32, 32);
  }

  lemma Pow2Of63()
    ensures Pow2(63) == Top64
  {
    Pow2Of64();
    assert Pow2(64) == 2 * Pow2(63);
  }

  lemma Pow2Top()
    ensures Pow2(63) == Top64 && Pow2(64) == U64 && U64 == 2 * Top64
  {
    Pow2Of63();
    Pow2Of64();
  }

  /** `x--` on a `uint64_t`. */
  function Dec64(x: nat): nat
    requires x < U64
  {
    if x == 0 then U64 - 1 else x - 1
  }

  /** `x++` on a `uint64_t` (for x < 2^64). */
  function Inc64(x: nat): nat
  {
    if x + 1 == U64 then 0 else x + 1
  }

  /** The first `s` steps of the or-shift cascade `y |= y >> 1; y |= y >> 2; ...; y |= y >> 2^(s-1)`. */
  function Cascade(y: nat, s: nat): nat
  {
    if s == 0 then y
    else
      var z := Cascade(y, s - 1);
      Or(z, Shr(z, Pow2(s - 1)))
  }

  /** Before any step the top bit alone is set, if there is one. */
  lemma CascadeStart(v: nat)
    ensures TopFilled(v, BitLen(v), Min(1, BitLen(v)))
  {
    BitLenBounds(v);
    if v > 0 {
      ShlOne(BitLen(v) - 1);
    }
  }

  /** After `s` steps the top min(2^s, L) significant bits are ones. */
  lemma {:induction false} CascadeFills(v: nat, s: nat)
    ensures TopFilled(Cascade(v, s), BitLen(v), Min(Pow2(s), BitLen(v)))
  {
    if s == 0 {
      CascadeStart(v);
    } else {
      var z, m := Cascade(v, s - 1), Pow2(s - 1);
      CascadeFills(v, s - 1);
      Step(z, BitLen(v), m);
      assert Cascade(v, s) == Or(z, Shr(z, m));
      assert Pow2(s) == 2 * m;
    }
  }

  /** Enough steps to cover a width of `w` bits set every bit below the highest one. */
  lemma CascadeFull(v: nat, s: nat, w: nat)
    requires v < Pow2(w) && w <= Pow2(s)
    ensures Cascade(v, s) == Pow2(BitLen(v)) - 1
  {
    BitLenAtMost(v, w);
    CascadeFills(v, s);
    FullBlock(Cascade(v, s), BitLen(v));
  }

  /** The six steps of `next_pow2` set every bit below the highest set bit of a 64-bit value. */
  lemma SmearFills(v: nat)
    requires v < U64
    ensures Cascade(v, 6) == Pow2(BitLen(v)) - 1
  {
    Pow2Top();
    assert Pow2(6) == 64;
    CascadeFull(v, 6, 64);
  }

  /** Every power of two up to 2^63 fits in a `uint64_t`. */
  lemma Pow2BelowU64(k: nat)
    requires k <= 63
    ensures Pow2(k) <= Top64 < U64
  {
    Pow2Mono(k, 63);
    Pow2Top();
  }

  /** Below 2^63 the smeared value plus one is a power of two that still fits in 64 bits. */
  lemma SmearBelowTop(v: nat)
    requires v < Top64
    ensures Cascade(v, 6) == Pow2(BitLen(v)) - 1 && Pow2(BitLen(v)) < U64
  {
    Pow2Top();
    BitLenAtMost(v, 63);
    Pow2BelowU64(BitLen(v));
    SmearFills(v);
  }

  /** `next_pow2`: decrement, or each value with itself shifted right by 1, 2, 4, 8, 16 and 32, increment. */
  function NextPow2(x: nat): nat
    requires x < U64
  {
    Inc64(Cascade(Dec64(x), 6))
  }

  /** For 1 <= x <= 2^63, `next_pow2(x)` is 2 to the bit length of `x - 1`. */
  lemma NextPow2Value(x: nat)
    requires 1 <= x <= Top64
    ensures NextPow2(x) == Pow2(BitLen(x - 1))
  {
    SmearBelowTop(x - 1);
  }

  /** A power of two at least `x` is at least 2 to the bit length of `x - 1`. */
  lemma BitLenPow2Least(x: nat, k: nat)
    requires 1 <= x <= Pow2(k)
    ensures x <= Pow2(BitLen(x - 1)) <= Pow2(k)
  {
    BitLenBounds(x - 1);
    BitLenAtMost(x - 1, k);
    Pow2Mono(BitLen(x - 1), k);
  }

  /** `next_pow2(x)` is the least power of two that is at least `x`. */
  lemma NextPow2Least(x: nat)
    requires 1 <= x <= Top64
    ensures x <= NextPow2(x)
    ensures forall k: nat :: x <= Pow2(k) ==> NextPow2(x) <= Pow2(k)
  {
    NextPow2Value(x);
    BitLenBounds(x - 1);
    forall k: nat | x <= Pow2(k)
      ensures Pow2(BitLen(x - 1)) <= Pow2(k)
    {
      BitLenPow2Least(x, k);
    }
  }

  /** 2^k - 1 has exactly k significant bits. */
  lemma BitLenBelowPow2(k: nat)
    ensures BitLen(Pow2(k) - 1) == k
  {
    BitLenPow2Least(Pow2(k), k);
    if BitLen(Pow2(k) - 1) != k {
      if BitLen(Pow2(k) - 1) < k {
        Pow2Mono(BitLen(Pow2(k) - 1) + 1, k);
      } else {
        Pow2Mono(k + 1, BitLen(Pow2(k) - 1));
      }
    }
  }

  /** A power of two up to 2^63 is its own `next_pow2`. */
  lemma NextPow2OfPow2(x: nat, k: nat)
    requires k <= 63 && x == Pow2(k)
    ensures x < U64 && NextPow2(x) == x
  {
    Pow2BelowU64(k);
    BitLenBelowPow2(k);
    NextPow2Value(x);
  }

  /** A value with its top bit set has 64 significant bits. */
  lemma BitLenTop(v: nat)
    requires Top64 <= v < U64
    ensures BitLen(v) == 64
  {
    Pow2Top();
    BitLenAtMost(v, 64);
    BitLenBounds(v);
    if BitLen(v) < 64 {
      Pow2Mono(BitLen(v), 63);
    }
  }

  /** Zero, and every value above 2^63, wraps around to a `next_pow2` of zero. */
  lemma NextPow2Wraps(x: nat)
    requires x == 0 || Top64 < x < U64
    ensures NextPow2(x) == 0
  {
    Pow2Top();
    BitLenTop(Dec64(x));
    SmearFills(Dec64(x));
  }

  /** Up to 2^30, `next_pow2` stays within 2^30, so the result fits in an `int`. */
  lemma NextPow2Within(x: nat)
    requires 1 <= x <= 0x4000_0000
    ensures x < U64 && x <= NextPow2(x) <= 0x4000_0000
  {
    Pow2Of32();
    assert Pow2(32) == 4 * Pow2(30);
    Pow2BelowU64(30);
    NextPow2Least(x);
  }

  /** The FFT length `next_pow2(4 * (minf + 1))` stored in the static `int nfft`. */
  function Nfft(minf: nat): (n: int)
    requires 4 * (minf + 1) <= 0x4000_0000
    ensures 4 * (minf + 1) <= n <= 0x4000_0000
  {
    NextPow2Within(4 * (minf + 1));
    NextPow2(4 * (minf + 1))
  }

  /** `nbins_below50`: the number of FFT bins under 50 Hz; `std::round` rounds half away from zero, as `eround` does. */
  function NbinsBelow50(fs: real, nfft: int): int
    requires fs != 0.0 && nfft > 0
  {
    ERound(50.0 / (fs / 2.0 * nfft as real))
  }

  /** The first kept bin, `nfft / 2 + nbins_below50`. */
  function FirstBin(nfft: int, nbinsBelow50: int): int
  {
    Div(nfft, 2) + nbinsBelow50
  }

  /**
   * `truncated_fbins` can run: the last bin `n - 1` lies at or after the
   * first kept bin, and the grid step `n - 1` is not zero when the loop runs.
   */
  predicate FbinsFit(nfft: int, nbinsBelow50: int)
  {
    var offset := FirstBin(nfft, nbinsBelow50);
    offset <= nfft - 1 && (offset < nfft - 1 ==> nfft != 1)
  }

  /** Frequency of bin `i` on the grid from -fs/2 to fs/2 in `n` points. */
  function BinFrequency(i: int, n: int, fs: real): real
    requires n != 1
  {
    -fs / 2.0 + i as real * (fs / 2.0 - -fs / 2.0) / (n - 1) as real
  }

  /**
   * The vector `truncated_fbins` leaves behind when it is handed `fbins`:
   * resized to n - offset + 1, bins offset..n-2 on the grid, slot n-1-offset
   * exactly fs/2, and the last slot whatever the resize left there.
   */
  function Fbins(nfft: int, nbinsBelow50: int, fs: real, fbins: seq<real>): seq<real>
    requires FbinsFit(nfft, nbinsBelow50)
  {
    var offset := FirstBin(nfft, nbinsBelow50);
    var size := nfft - offset + 1;
    var resized := Resized(fbins, size, 0.0);
    seq(size, k requires 0 <= k < size =>
      if k < nfft - 1 - offset then BinFrequency(k + offset, nfft, fs)
      else if k == nfft - 1 - offset then fs / 2.0
      else resized[k])
  }

  /** The last of `n` grid points is fs/2. */
  lemma GridTop(n: int, fs: real)
    requires n >= 2
    ensures BinFrequency(n - 1, n, fs) == fs / 2.0
  {
    var d := (n - 1) as real;
    assert BinFrequency(n - 1, n, fs) == -fs / 2.0 + d * fs / d;
  }

  /** For a positive rate each grid point lies above the one before. */
  lemma GridRises(i: int, n: int, fs: real)
    requires n >= 2 && fs > 0.0
    ensures BinFrequency(i, n, fs) < BinFrequency(i + 1, n, fs)
  {
    var d, x := (n - 1) as real, i as real;
    assert x * fs < (x + 1.0) * fs;
    assert x * fs / d < (x + 1.0) * fs / d;
  }

  /**
   * `truncated_fbins`: every written slot lies on the grid (the last grid
   * point being fs/2 itself), the grid rises for a positive rate, and the
   * final slot keeps the value the resize gave it.
   */
  lemma FbinsGrid(nfft: int, nbinsBelow50: int, fs: real, fbins: seq<real>)
    requires FbinsFit(nfft, nbinsBelow50) && nfft >= 2
    ensures var r := Fbins(nfft, nbinsBelow50, fs, fbins);
      var offset := FirstBin(nfft, nbinsBelow50);
      |r| == nfft - offset + 1 >= 2 &&
      (forall k :: 0 <= k <= nfft - 1 - offset ==> r[k] == BinFrequency(k + offset, nfft, fs)) &&
      r[nfft - 1 - offset] == fs / 2.0 &&
      r[nfft - offset] == (if nfft - offset < |fbins| then fbins[nfft - offset] else 0.0) &&
      (fs > 0.0 ==> forall k :: 0 <= k < nfft - 1 - offset ==> r[k] < r[k + 1])
  {
    var offset := FirstBin(nfft, nbinsBelow50);
    var r := Fbins(nfft, nbinsBelow50, fs, fbins);
    GridTop(nfft, fs);
    forall k | 0 <= k < nfft - 1 - offset && fs > 0.0
      ensures r[k] < r[k + 1]
    {
      GridRises(k + offset, nfft, fs);
    }
  }

  /** `truncated_fbins` on the caller's vector `fbins`, which it resizes and fills. */
  method TruncatedFbins(nfft: int, nbinsBelow50: int, fs: real, fbins: seq<real>) returns (fbins': seq<real>)
    requires FbinsFit(nfft, nbinsBelow50)
    ensures fbins' == Fbins(nfft, nbinsBelow50, fs, fbins)
  {
    var offset := Div(nfft, 2) + nbinsBelow50;
    var n := nfft;
    var size := n - offset + 1;
    ghost var resized := Resized(fbins, size, 0.0);
    fbins' := Resized(fbins, size, 0.0);
    var min := -fs / 2.0;
    var max := fs / 2.0;
    var i := offset;
    while i <= n - 2
      invariant offset <= i <= n - 1 && |fbins'| == size
      invariant forall k :: 0 <= k < i - offset ==> fbins'[k] == BinFrequency(k + offset, n, fs)
      invariant forall k :: i - offset <= k < size ==> fbins'[k] == resized[k]
    {
      var f := min + i as real * (max - min) / (n - 1) as real;
      assert f == BinFrequency(i, n, fs);
      fbins' := fbins'[i - offset := f];
      i := i + 1;
    }
    fbins' := fbins'[n - 1 - offset := max];
  }

  /** `ECKF::HarmReturn`. */
  datatype HarmReturn = HarmReturn(flagCur: bool, f0Est: real, amp: real, phase: real)

  /** The value-initialised `HarmReturn{}`. */
  const NoChange := HarmReturn(false, 0.0, 0.0, 0.0)

  /** The function-local statics of `harmonic_change_detector`, computed on the first call. */
  class DetectorTables {
    var minf: int
    var nfft: int
    var nbinsBelow50: int
    var fbins: seq<real>
    var win: seq<real>
    var expWin: seq<real>

    constructor ()
      ensures minf == 0 && nfft == 0 && nbinsBelow50 == 0
      ensures fbins == [] && win == [] && expWin == []
    {
      minf, nfft, nbinsBelow50 := 0, 0, 0;
      fbins, win, expWin := [], [], [];
    }

    /**
     * `harmonic_change_detector`: while `fbins` is empty the tables are
     * built from the current frame's length and the rate; later calls leave
     * them alone.  The result is always `HarmReturn{}`.
     */
    method HarmonicChangeDetector(xprev: seq<real>, xcur: seq<real>, fs: real, nPeaks: int, nSemitones: int,
                                  blackman: int -> seq<real>, poisson: (int, real) -> seq<real>)
      returns (r: HarmReturn)
      modifies this
      requires |fbins| == 0 ==> 4 * (|xcur| + 1) <= 0x4000_0000 && fs != 0.0
      requires |fbins| == 0 && 4 * (|xcur| + 1) <= 0x4000_0000 && fs != 0.0 ==>
        FbinsFit(Nfft(|xcur|), NbinsBelow50(fs, Nfft(|xcur|)))
      ensures r == NoChange
      ensures old(|fbins|) != 0 ==>
        minf == old(minf) && nfft == old(nfft) && nbinsBelow50 == old(nbinsBelow50) &&
        fbins == old(fbins) && win == old(win) && expWin == old(expWin)
      ensures old(|fbins|) == 0 ==>
        minf == |xcur| && nfft == Nfft(|xcur|) && nbinsBelow50 == NbinsBelow50(fs, nfft) &&
        fbins == Fbins(nfft, nbinsBelow50, fs, old(fbins)) && |fbins| >= 2 &&
        win == blackman(minf) && expWin == poisson(|fbins|, 5.0)
    {
      if |fbins| == 0 {
        minf := |xcur|;
        nfft := Nfft(minf);
        win := blackman(minf);
        nbinsBelow50 := NbinsBelow50(fs, nfft);
        fbins := TruncatedFbins(nfft, nbinsBelow50, fs, fbins);
        expWin := poisson(|fbins|, 5.0);
      }
      r := NoChange;
    }
  }
}
