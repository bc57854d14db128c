/**
 * Dynamic-programming formant tracker (controller/formants.cpp): pole-to-formant
 * candidate enumeration, transition and local costs, and the back-trace.
 */
module Formants {
  import opened Wrappers
  import opened CNum
  import opened Routines
  import Vector2d

  const MAXFORMANTS: int := 7
  /** Rows of the candidate table; the bound check rejects a 601st candidate. */
  const MAXCAN: int := 600
  /** Cost of a formant missing from a mapping (frequency and transition terms). */
  const MISSING: real := 1.0
  /** Bandwidth cost, and reported bandwidth, of a missing formant. */
  const NOBAND: real := 1000.0
  const DF_FACT: real := 20.0
  const DFN_FACT: real := 0.3
  const BAND_FACT: real := 0.002
  const F_BIAS: real := 0.0
  const F_MERGE: real := 2000.0
  /** Initial best transition cost when the previous frame has candidates. */
  const HUGE_COST: real := 2000000000000000000000000000000.0

  // ---------------------------------------------------------------------------
  // Candidate enumeration (canBe, candy, getFcand)
  // ---------------------------------------------------------------------------

  /** The fixed inputs of one enumeration: CandySt's poles and sizes, the bands, the merge flag. */
  datatype CandyCtx = CandyCtx(
    fre: seq<real>, maxPoles: int, maxForms: int,
    fmins: seq<real>, fmaxs: seq<real>, doMerge: bool)

  predicate CtxOk(ctx: CandyCtx)
  {
    0 <= ctx.maxPoles <= |ctx.fre| && 0 <= ctx.maxForms <= MAXFORMANTS &&
    |ctx.fmins| == MAXFORMANTS && |ctx.fmaxs| == MAXFORMANTS
  }

  /** The candidate table `pc` (MAXCAN rows of maxForms pole indices) and the shared index `ncan`. */
  datatype CandyState = CandyState(pc: seq<int>, ncan: int)

  predicate StOk(ctx: CandyCtx, st: CandyState)
  {
    |st.pc| == MAXCAN * ctx.maxForms && 0 <= st.ncan < MAXCAN
  }

  /** `canBe`: pole p lies in the frequency band allowed for formant f. */
  predicate CanBe(ctx: CandyCtx, p: int, f: int)
    requires CtxOk(ctx) && 0 <= p < ctx.maxPoles && 0 <= f < MAXFORMANTS
  {
    ctx.fmins[f] <= ctx.fre[p] <= ctx.fmaxs[f]
  }

  function PcAt(ctx: CandyCtx, pc: seq<int>, r: int, c: int): int
    requires |pc| == MAXCAN * ctx.maxForms && 0 <= r < MAXCAN && 0 <= c < ctx.maxForms
  {
    Vector2d.FlatIndexInRange(r, c, MAXCAN, ctx.maxForms);
    pc[Vector2d.FlatIndex(r, c, ctx.maxForms)]
  }

  function PcSet(ctx: CandyCtx, pc: seq<int>, r: int, c: int, v: int): (pc': seq<int>)
    requires |pc| == MAXCAN * ctx.maxForms && 0 <= r < MAXCAN && 0 <= c < ctx.maxForms
    ensures |pc'| == |pc|
    ensures forall r2, c2 :: 0 <= r2 < MAXCAN && 0 <= c2 < ctx.maxForms ==>
      PcAt(ctx, pc', r2, c2) == if r2 == r && c2 == c then v else PcAt(ctx, pc, r2, c2)
  {
    Vector2d.FlatIndexInRange(r, c, MAXCAN, ctx.maxForms);
    var pc' := pc[Vector2d.FlatIndex(r, c, ctx.maxForms) := v];
    assert forall r2, c2 :: 0 <= r2 < MAXCAN && 0 <= c2 < ctx.maxForms ==>
      PcAt(ctx, pc', r2, c2) == if r2 == r && c2 == c then v else PcAt(ctx, pc, r2, c2)
    by {
      forall r2, c2 | 0 <= r2 < MAXCAN && 0 <= c2 < ctx.maxForms
        ensures PcAt(ctx, pc', r2, c2) == if r2 == r && c2 == c then v else PcAt(ctx, pc, r2, c2)
      {
        Vector2d.FlatIndexInRange(r2, c2, MAXCAN, ctx.maxForms);
        if Vector2d.FlatIndex(r2, c2, ctx.maxForms) == Vector2d.FlatIndex(r, c, ctx.maxForms) {
          Vector2d.FlatIndexInjective(r2, c2, r, c, ctx.maxForms);
        }
      }
    }
    pc'
  }

  /** A table entry for formant c that is "missing" (-1) or a pole allowed for c. */
  predicate Good(ctx: CandyCtx, v: int, c: int)
    requires CtxOk(ctx) && 0 <= c < ctx.maxForms
  {
    v == -1 || (0 <= v < ctx.maxPoles && CanBe(ctx, v, c))
  }

  /** Columns lo..hi-1 of row r hold good entries. */
  ghost predicate RowGood(ctx: CandyCtx, pc: seq<int>, r: int, lo: int, hi: int)
    requires CtxOk(ctx) && |pc| == MAXCAN * ctx.maxForms && 0 <= r < MAXCAN && 0 <= lo && hi <= ctx.maxForms
  {
    forall c :: lo <= c < hi ==> Good(ctx, PcAt(ctx, pc, r, c), c)
  }

  /** Rows lo+1..hi are complete, good mappings. */
  ghost predicate RowsGood(ctx: CandyCtx, pc: seq<int>, lo: int, hi: int)
    requires CtxOk(ctx) && |pc| == MAXCAN * ctx.maxForms && -1 <= lo && hi < MAXCAN
  {
    forall r :: lo < r <= hi ==> RowGood(ctx, pc, r, 0, ctx.maxForms)
  }

  /**
   * `st2` extends `st`: the candidate index never goes back, and every entry
   * that changed is good and lies in row `cand` or in a row added since `st`.
   */
  ghost predicate Grows(ctx: CandyCtx, st: CandyState, st2: CandyState, cand: int)
    requires CtxOk(ctx) && StOk(ctx, st)
  {
    StOk(ctx, st2) && st.ncan <= st2.ncan &&
    forall r, c :: 0 <= r < MAXCAN && 0 <= c < ctx.maxForms && PcAt(ctx, st2.pc, r, c) != PcAt(ctx, st.pc, r, c) ==>
      Good(ctx, PcAt(ctx, st2.pc, r, c), c) && (r == cand || st.ncan < r <= st2.ncan)
  }

  /** What one call `candy(st, cand, p, f)` achieves on success. */
  ghost predicate CandyPost(ctx: CandyCtx, st: CandyState, st2: CandyState, cand: int)
    requires CtxOk(ctx) && StOk(ctx, st) && 0 <= cand < MAXCAN
  {
    Grows(ctx, st, st2, cand) &&
    RowGood(ctx, st2.pc, cand, 0, ctx.maxForms) &&
    RowsGood(ctx, st2.pc, st.ncan, st2.ncan)
  }

  lemma GrowsTrans(ctx: CandyCtx, st: CandyState, st1: CandyState, st2: CandyState, cand: int, cand2: int)
    requires CtxOk(ctx) && StOk(ctx, st) && StOk(ctx, st1)
    requires Grows(ctx, st, st1, cand) && Grows(ctx, st1, st2, cand2)
    requires cand2 == cand || st.ncan < cand2 <= st2.ncan
    ensures Grows(ctx, st, st2, cand)
  {
  }

  lemma GoodPersists(ctx: CandyCtx, st1: CandyState, st2: CandyState, cand: int, r: int, lo: int, hi: int)
    requires CtxOk(ctx) && StOk(ctx, st1) && Grows(ctx, st1, st2, cand)
    requires 0 <= r < MAXCAN && 0 <= lo && hi <= ctx.maxForms
    requires RowGood(ctx, st1.pc, r, lo, hi)
    ensures RowGood(ctx, st2.pc, r, lo, hi)
  {
  }

  lemma RowsPersist(ctx: CandyCtx, st1: CandyState, st2: CandyState, cand: int, lo: int, hi: int)
    requires CtxOk(ctx) && StOk(ctx, st1) && Grows(ctx, st1, st2, cand)
    requires -1 <= lo && hi < MAXCAN
    requires RowsGood(ctx, st1.pc, lo, hi)
    ensures RowsGood(ctx, st2.pc, lo, hi)
  {
    forall r | lo < r <= hi ensures RowGood(ctx, st2.pc, r, 0, ctx.maxForms) {
      GoodPersists(ctx, st1, st2, cand, r, 0, ctx.maxForms);
    }
  }

  /** Row `to` receives the first f entries of row `from` ("clone the lower formants"). */
  function CloneLower(ctx: CandyCtx, pc: seq<int>, from: int, to: int, f: int): (pc': seq<int>)
    requires |pc| == MAXCAN * ctx.maxForms && 0 <= from < MAXCAN && 0 <= to < MAXCAN && from != to
    requires 0 <= f <= ctx.maxForms
    ensures |pc'| == |pc|
    ensures forall r, c :: 0 <= r < MAXCAN && 0 <= c < ctx.maxForms ==>
      PcAt(ctx, pc', r, c) == if r == to && c < f then PcAt(ctx, pc, from, c) else PcAt(ctx, pc, r, c)
  {
    if f == 0 then pc
    else
      var prev := CloneLower(ctx, pc, from, to, f - 1);
      PcSet(ctx, prev, to, f - 1, PcAt(ctx, pc, from, f - 1))
  }

  /** The column scanned back to in `candy`'s missing-formant step: the last assigned one below j, or 0. */
  function LastAssigned(ctx: CandyCtx, pc: seq<int>, cand: int, j: int): (k: int)
    requires |pc| == MAXCAN * ctx.maxForms && 0 <= cand < MAXCAN && 0 <= j < ctx.maxForms
    ensures 0 <= k <= j
    ensures k > 0 ==> PcAt(ctx, pc, cand, k) >= 0
    ensures forall c :: k < c <= j ==> PcAt(ctx, pc, cand, c) < 0
  {
    if j > 0 && PcAt(ctx, pc, cand, j) < 0 then LastAssigned(ctx, pc, cand, j - 1) else j
  }

  /** The pole index at which the next formant's search restarts after formant f stayed empty. */
  function RestartPole(ctx: CandyCtx, pc: seq<int>, cand: int, f: int): (i: int)
    requires |pc| == MAXCAN * ctx.maxForms && 0 <= cand < MAXCAN && 0 <= f <= ctx.maxForms
    ensures i >= 0
  {
    if f > 0 then
      var v := PcAt(ctx, pc, cand, LastAssigned(ctx, pc, cand, f - 1));
      if v >= 0 then v else 0
    else 0
  }

  /** The backward scan of `candy` for the last assigned formant before f, giving the restart pole. */
  method RestartFrom(ctx: CandyCtx, pc: seq<int>, cand: int, f: int) returns (i: int)
    requires |pc| == MAXCAN * ctx.maxForms && 0 <= cand < MAXCAN && 0 <= f <= ctx.maxForms
    ensures i == RestartPole(ctx, pc, cand, f)
  {
    i := 0;
    if f > 0 {
      var j := f - 1;
      while j > 0 && PcAt(ctx, pc, cand, j) < 0
        invariant 0 <= j <= f - 1
        invariant LastAssigned(ctx, pc, cand, j) == LastAssigned(ctx, pc, cand, f - 1)
      {
        j := j - 1;
      }
      j := PcAt(ctx, pc, cand, j);
      i := if j >= 0 then j else 0;
    }
  }

  /**
   * `candy` as the ESPS formant tracker defines it (see the Findings for the
   * two places where formants.cpp departs from it): fill row `cand` from
   * formant f on with every admissible mapping of poles p.. onto formants,
   * opening a new row (`++ncan`) for each alternative.  None is the
   * domain error raised when a 601st row is touched.  Every entry written
   * is -1 or a pole allowed for its formant, and the row and all rows opened
   * end up complete.
   */
  function CandySpec(ctx: CandyCtx, st: CandyState, cand: int, p: int, f: int): (r: Option<CandyState>)
    requires CtxOk(ctx) && StOk(ctx, st) && 0 <= cand <= st.ncan && 0 <= p && 0 <= f <= ctx.maxForms
    requires RowGood(ctx, st.pc, cand, 0, f)
    ensures r.Some? ==> CandyPost(ctx, st, r.value, cand)
    decreases ctx.maxForms - f, ctx.maxPoles - p, 2
  {
    var cols := ctx.maxForms;
    var st1 := if f < cols then st.(pc := PcSet(ctx, st.pc, cand, f, -1)) else st;
    assert Grows(ctx, st, st1, cand);
    assert RowGood(ctx, st1.pc, cand, 0, if f < cols then f + 1 else f);
    var st2 :-
      if p < ctx.maxPoles && f < cols then
        if CanBe(ctx, p, f) then CandyTakeSpec(ctx, st1, cand, p, f)
        else CandySpec(ctx, st1, cand, p + 1, f)
      else Some(st1);
    assert CandyPost(ctx, st, st2, cand) || (p >= ctx.maxPoles || f >= cols) by {
      if p < ctx.maxPoles && f < cols {
        GrowsTrans(ctx, st, st1, st2, cand, cand);
      }
    }
    if p >= ctx.maxPoles && f < cols - 1 && PcAt(ctx, st2.pc, cand, f) < 0 then
      var st3 :- CandySpec(ctx, st2, cand, RestartPole(ctx, st2.pc, cand, f), f + 1);
      GrowsTrans(ctx, st, st2, st3, cand, cand);
      Some(st3)
    else
      Some(st2)
  }

  /** The branch of `candy` where pole p can be formant f. */
  function CandyTakeSpec(ctx: CandyCtx, st1: CandyState, cand: int, p: int, f: int): (r: Option<CandyState>)
    requires CtxOk(ctx) && StOk(ctx, st1) && 0 <= cand <= st1.ncan && 0 <= p < ctx.maxPoles && 0 <= f < ctx.maxForms
    requires CanBe(ctx, p, f) && RowGood(ctx, st1.pc, cand, 0, f)
    ensures r.Some? ==> CandyPost(ctx, st1, r.value, cand)
    decreases ctx.maxForms - f, ctx.maxPoles - p, 1
  {
    var s0 := st1.(pc := PcSet(ctx, st1.pc, cand, f, p));
    assert Grows(ctx, st1, s0, cand) && RowGood(ctx, s0.pc, cand, 0, f + 1);
    var s1 :- if ctx.doMerge && f == 0 && CanBe(ctx, p, 1) then MergeSpec(ctx, s0, cand, p) else Some(s0);
    assert Grows(ctx, st1, s1, cand) by { GrowsTrans(ctx, st1, s0, s1, cand, cand); }
    assert RowsGood(ctx, s1.pc, st1.ncan, s1.ncan);
    assert RowGood(ctx, s1.pc, cand, 0, f + 1) by { GoodPersists(ctx, s0, s1, cand, cand, 0, f + 1); }
    var s2 :- CandySpec(ctx, s1, cand, p + 1, f + 1);
    GrowsTrans(ctx, st1, s1, s2, cand, cand);
    RowsPersist(ctx, s1, s2, cand, st1.ncan, s1.ncan);
    var s3 :- AlternativeSpec(ctx, s2, cand, p, f);
    GrowsTrans(ctx, st1, s2, s3, cand, cand);
    RowsPersist(ctx, s2, s3, cand, st1.ncan, s2.ncan);
    GoodPersists(ctx, s2, s3, cand, cand, 0, ctx.maxForms);
    Some(s3)
  }

  /**
   * The F1/F2 merger of `candy`: a new row whose F1 is row cand's F1,
   * continued from F2 with the same pole.
   */
  function MergeSpec(ctx: CandyCtx, s0: CandyState, cand: int, p: int): (r: Option<CandyState>)
    requires CtxOk(ctx) && StOk(ctx, s0) && 0 <= cand <= s0.ncan && 0 <= p < ctx.maxPoles && 1 <= ctx.maxForms
    requires RowGood(ctx, s0.pc, cand, 0, 1)
    ensures r.Some? ==> Grows(ctx, s0, r.value, cand) && RowsGood(ctx, r.value.pc, s0.ncan, r.value.ncan)
    decreases ctx.maxForms, ctx.maxPoles - p, 0
  {
    if s0.ncan + 1 >= MAXCAN then None
    else
      var n := s0.ncan + 1;
      var s := CandyState(PcSet(ctx, s0.pc, n, 0, PcAt(ctx, s0.pc, cand, 0)), n);
      assert Grows(ctx, s0, s, cand) && RowGood(ctx, s.pc, n, 0, 1);
      var s' :- CandySpec(ctx, s, n, p, 1);
      GrowsTrans(ctx, s0, s, s', cand, n);
      Some(s')
  }

  /**
   * "Try other frequencies for this formant": when pole p+1 also fits
   * formant f, a new row repeats formants 0..f-1 of row cand and is
   * continued from pole p+1.
   */
  function AlternativeSpec(ctx: CandyCtx, s2: CandyState, cand: int, p: int, f: int): (r: Option<CandyState>)
    requires CtxOk(ctx) && StOk(ctx, s2) && 0 <= cand <= s2.ncan && 0 <= p < ctx.maxPoles && 0 <= f < ctx.maxForms
    requires RowGood(ctx, s2.pc, cand, 0, ctx.maxForms)
    ensures r.Some? ==> Grows(ctx, s2, r.value, cand) && RowsGood(ctx, r.value.pc, s2.ncan, r.value.ncan)
    decreases ctx.maxForms - f, ctx.maxPoles - p, 0
  {
    if p + 1 < ctx.maxPoles && CanBe(ctx, p + 1, f) then
      if s2.ncan + 1 >= MAXCAN then None
      else
        var n := s2.ncan + 1;
        var s := CandyState(CloneLower(ctx, s2.pc, cand, n, f), n);
        assert Grows(ctx, s2, s, cand) && RowGood(ctx, s.pc, n, 0, f);
        var s3 :- CandySpec(ctx, s, n, p + 1, f);
        GrowsTrans(ctx, s2, s, s3, cand, n);
        Some(s3)
    else
      Some(s2)
  }

  /**
   * `candy` exactly as formants.cpp writes it: the recursive call that should
   * follow the clone loop sits inside it (so it runs once per cloned column,
   * on whatever row `ncan` names by then, and never when f == 0), and the
   * final `else` belongs to the "next pole fits this formant" test instead of
   * to `canBe(poleInd, formInd)`.
   */
  function CandyAsWritten(ctx: CandyCtx, st: CandyState, cand: int, p: int, f: int): (r: Option<CandyState>)
    requires CtxOk(ctx) && |st.pc| == MAXCAN * ctx.maxForms && 0 <= st.ncan
    requires 0 <= cand < MAXCAN && 0 <= p && 0 <= f <= ctx.maxForms
    ensures r.Some? ==> |r.value.pc| == |st.pc| && st.ncan <= r.value.ncan
    decreases ctx.maxForms - f, ctx.maxPoles - p, 1, 0
  {
    var cols := ctx.maxForms;
    var st1 := if f < cols then st.(pc := PcSet(ctx, st.pc, cand, f, -1)) else st;
    var st2 :-
      if p < ctx.maxPoles && f < cols && CanBe(ctx, p, f) then
        var s0 := st1.(pc := PcSet(ctx, st1.pc, cand, f, p));
        var s1 :-
          if ctx.doMerge && f == 0 && CanBe(ctx, p, 1) then
            if s0.ncan + 1 >= MAXCAN then None
            else
              var n := s0.ncan + 1;
              CandyAsWritten(ctx, CandyState(PcSet(ctx, s0.pc, n, 0, PcAt(ctx, s0.pc, cand, 0)), n), n, p, 1)
          else Some(s0);
        var s2 :- CandyAsWritten(ctx, s1, cand, p + 1, f + 1);
        if p + 1 < ctx.maxPoles && CanBe(ctx, p + 1, f) then
          CloneLoopAsWritten(ctx, s2.(ncan := s2.ncan + 1), cand, p, f, 0)
        else
          CandyAsWritten(ctx, s2, cand, p + 1, f)
      else Some(st1);
    if p >= ctx.maxPoles && f < cols - 1 && PcAt(ctx, st2.pc, cand, f) < 0 then
      CandyAsWritten(ctx, st2, cand, RestartPole(ctx, st2.pc, cand, f), f + 1)
    else
      Some(st2)
  }

  /** The clone loop of formants.cpp lines 96-99, from column i on. */
  function CloneLoopAsWritten(ctx: CandyCtx, st: CandyState, cand: int, p: int, f: int, i: int): (r: Option<CandyState>)
    requires CtxOk(ctx) && |st.pc| == MAXCAN * ctx.maxForms && 0 <= st.ncan
    requires 0 <= cand < MAXCAN && 0 <= p && p + 1 < ctx.maxPoles && 0 <= i <= f < ctx.maxForms
    ensures r.Some? ==> |r.value.pc| == |st.pc| && st.ncan <= r.value.ncan
    decreases ctx.maxForms - f, ctx.maxPoles - p, 0, f - i
  {
    if i == f then Some(st)
    else if st.ncan >= MAXCAN then None
    else
      var s := st.(pc := PcSet(ctx, st.pc, st.ncan, i, PcAt(ctx, st.pc, cand, i)));
      var s' :- CandyAsWritten(ctx, s, s.ncan, p + 1, f);
      CloneLoopAsWritten(ctx, s', cand, p, f, i + 1)
  }

  // ---------------------------------------------------------------------------
  // The DP lattice: pole frames, candidate mappings and their costs
  // ---------------------------------------------------------------------------

  /** A frame the tracker can read: its first npoles pole frequencies are positive, their bandwidths non-negative. */
  predicate PoleOk(pole: Pole)
  {
    0 <= pole.npoles <= |pole.freq| && pole.npoles <= |pole.band| &&
    forall k :: 0 <= k < pole.npoles ==> pole.freq[k] > 0.0 && pole.band[k] >= 0.0
  }

  /**
   * The pole arrays `track` is given: `length` frames, each readable, and,
   * whenever there is a frame, a positive sample rate and a non-zero
   * largest frame energy (every energy is divided by it).  Silent frames
   * are allowed as long as some frame is not.
   */
  predicate PolesOk(ps: PoleArray)
  {
    ps.length == |ps.pole| && (ps.length > 0 ==> ps.sampleRate > 0.0 && StatMax(ps.pole) != 0.0) &&
    forall i :: 0 <= i < |ps.pole| ==> PoleOk(ps.pole[i])
  }

  /** A mapping of nForm formants to poles of `pole`: each entry is -1 (missing) or a pole index. */
  predicate MapOk(m: seq<int>, nForm: int, pole: Pole)
  {
    |m| == nForm && forall l :: 0 <= l < nForm ==> -1 <= m[l] < pole.npoles
  }

  /** Squared relative jump between a pole frequency and the one it connects to. */
  function SlotCost(fc: real, fp: real): (c: real)
    requires fc > 0.0 && fp > 0.0
  {
    var t := 2.0 * RAbs(fc - fp) / (fc + fp);
    t * t
  }

  lemma DivBelow(a: real, b: real, c: real)
    requires 0.0 <= a < b * c && b > 0.0
    ensures a / b < c
  {
    assert (a / b) * b == a;
  }

  /** A jump costs less than 4, and nothing exactly when the frequency stays put. */
  lemma SlotCostBounds(fc: real, fp: real)
    requires fc > 0.0 && fp > 0.0
    ensures 0.0 <= SlotCost(fc, fp) < 4.0
    ensures SlotCost(fc, fp) == 0.0 <==> fc == fp
    ensures SlotCost(fc, fp) == SlotCost(fp, fc)
  {
    var t := 2.0 * RAbs(fc - fp) / (fc + fp);
    assert RAbs(fc - fp) < fc + fp;
    assert 0.0 <= t < 2.0 by {
      DivBelow(2.0 * RAbs(fc - fp), fc + fp, 2.0);
    }
    assert t * t < 4.0 by {
      assert t * t <= 2.0 * t;
    }
    if fc != fp {
      assert t * (fc + fp) == 2.0 * RAbs(fc - fp) > 0.0;
      assert t * t > 0.0;
    }
    assert RAbs(fc - fp) == RAbs(fp - fc);
  }

  /**
   * `pfErr`: the cost of connecting mapping `cur` of a frame to mapping
   * `prev` of the frame before, over the first n formants.  A formant
   * present in both costs its squared relative jump, any other formant
   * costs MISSING.
   */
  function TransitionCost(cur: seq<int>, prev: seq<int>, pc: Pole, pp: Pole, n: nat): real
    requires PoleOk(pc) && PoleOk(pp) && |cur| >= n && |prev| >= n
    requires forall l :: 0 <= l < n ==> -1 <= cur[l] < pc.npoles && -1 <= prev[l] < pp.npoles
  {
    if n == 0 then 0.0
    else
      var ic, ip := cur[n - 1], prev[n - 1];
      TransitionCost(cur, prev, pc, pp, n - 1) +
        (if ic >= 0 && ip >= 0 then SlotCost(pc.freq[ic], pp.freq[ip]) else MISSING)
  }

  /**
   * A connection costs between 0 and 4 per formant, and costs nothing
   * exactly when every formant is present in both mappings at the same
   * frequency.
   */
  lemma {:induction false} TransitionCostBounds(cur: seq<int>, prev: seq<int>, pc: Pole, pp: Pole, n: nat)
    requires PoleOk(pc) && PoleOk(pp) && |cur| >= n && |prev| >= n
    requires forall l :: 0 <= l < n ==> -1 <= cur[l] < pc.npoles && -1 <= prev[l] < pp.npoles
    ensures 0.0 <= TransitionCost(cur, prev, pc, pp, n) <= 4.0 * n as real
    ensures TransitionCost(cur, prev, pc, pp, n) == 0.0 <==>
      forall l :: 0 <= l < n ==> cur[l] >= 0 && prev[l] >= 0 && pc.freq[cur[l]] == pp.freq[prev[l]]
  {
    if n > 0 {
      TransitionCostBounds(cur, prev, pc, pp, n - 1);
      var ic, ip := cur[n - 1], prev[n - 1];
      if ic >= 0 && ip >= 0 {
        SlotCostBounds(pc.freq[ic], pp.freq[ip]);
      }
    }
  }

  /** Connecting a to b costs what connecting b to a costs. */
  lemma {:induction false} TransitionCostSymmetric(cur: seq<int>, prev: seq<int>, pc: Pole, pp: Pole, n: nat)
    requires PoleOk(pc) && PoleOk(pp) && |cur| >= n && |prev| >= n
    requires forall l :: 0 <= l < n ==> -1 <= cur[l] < pc.npoles && -1 <= prev[l] < pp.npoles
    ensures TransitionCost(cur, prev, pc, pp, n) == TransitionCost(prev, cur, pp, pc, n)
  {
    if n > 0 {
      TransitionCostSymmetric(cur, prev, pc, pp, n - 1);
      var ic, ip := cur[n - 1], prev[n - 1];
      if ic >= 0 && ip >= 0 {
        SlotCostBounds(pc.freq[ic], pp.freq[ip]);
      }
    }
  }

  /** The three sums of `track`'s local cost: frequency bias, bandwidth error, nominal-frequency error. */
  datatype LocalSums = LocalSums(fbias: real, berr: real, ferr: real)

  /**
   * The local sums of mapping m over its first n formants: a present
   * formant adds its pole's frequency, bandwidth and relative distance
   * from the nominal frequency; a missing one adds the nominal frequency,
   * NOBAND and MISSING.
   */
  function Sums(m: seq<int>, pole: Pole, fnom: seq<real>, n: nat): (s: LocalSums)
    requires PoleOk(pole) && |m| >= n && n <= |fnom|
    requires forall l :: 0 <= l < n ==> -1 <= m[l] < pole.npoles && fnom[l] > 0.0
    ensures s.berr >= 0.0 && s.ferr >= 0.0 && s.fbias >= 0.0 && (n > 0 ==> s.fbias > 0.0)
  {
    if n == 0 then LocalSums(0.0, 0.0, 0.0)
    else
      var s := Sums(m, pole, fnom, n - 1);
      var ic := m[n - 1];
      if ic >= 0 then
        var f := pole.freq[ic];
        LocalSums(s.fbias + f, s.berr + pole.band[ic], s.ferr + RAbs(f - fnom[n - 1]) / fnom[n - 1])
      else
        LocalSums(s.fbias + fnom[n - 1], s.berr + NOBAND, s.ferr + MISSING)
  }

  /** The working cost weights of `track`, scaled by the sample rate. */
  datatype Weights = Weights(fbias: real, dffact: real, bfact: real, ffact: real)

  function TrackWeights(sampleRate: real): (w: Weights)
    requires sampleRate > 0.0
    ensures w.fbias >= 0.0 && w.dffact > 0.0 && w.bfact > 0.0 && w.ffact > 0.0
  {
    Weights(F_BIAS / (0.01 * sampleRate), (DF_FACT * 0.01) * sampleRate,
            BAND_FACT / (0.01 * sampleRate), DFN_FACT / (0.01 * sampleRate))
  }

  /**
   * The local cost of a mapping.  The F1/F2 merger term of formants.cpp is
   * left out: `track` always clears `doMerge` first, since F_MERGE > 1000.
   */
  function LocalCost(m: seq<int>, pole: Pole, fnom: seq<real>, w: Weights, n: nat): real
    requires PoleOk(pole) && |m| >= n && n <= |fnom|
    requires forall l :: 0 <= l < n ==> -1 <= m[l] < pole.npoles && fnom[l] > 0.0
  {
    Weighted(w, Sums(m, pole, fnom, n))
  }

  /** The weighted total of the local sums. */
  function Weighted(w: Weights, s: LocalSums): real
  {
    w.fbias * s.fbias + w.bfact * s.berr + w.ffact * s.ferr
  }

  /** With the weights of a positive sample rate, a local cost is never negative. */
  lemma LocalCostNonNegative(m: seq<int>, pole: Pole, fnom: seq<real>, sampleRate: real, n: nat)
    requires PoleOk(pole) && |m| >= n && n <= |fnom| && sampleRate > 0.0
    requires forall l :: 0 <= l < n ==> -1 <= m[l] < pole.npoles && fnom[l] > 0.0
    ensures LocalCost(m, pole, fnom, TrackWeights(sampleRate), n) >= 0.0
  {
    var s := Sums(m, pole, fnom, n);
    var w := TrackWeights(sampleRate);
    if n == 0 {
      assert s == LocalSums(0.0, 0.0, 0.0);
    }
  }

  /**
   * The scan `if (c < best) { best := c; idx := k }` over costs[k..], from
   * the running best and its index.
   */
  function ArgMinFrom(costs: seq<real>, k: nat, best: real, idx: int): (real, int)
    decreases |costs| - k
  {
    if k >= |costs| then (best, idx)
    else if costs[k] < best then ArgMinFrom(costs, k + 1, costs[k], k)
    else ArgMinFrom(costs, k + 1, best, idx)
  }

  /**
   * The scan ends on the minimum of `best` and costs[k..]: either nothing
   * beat `best` and the index is unchanged, or the index is the FIRST
   * position holding the minimum, which is strictly below `best`.
   */
  lemma {:induction false} ArgMinFromSpec(costs: seq<real>, k: nat, best: real, idx: int)
    requires k <= |costs|
    ensures var (m, i) := ArgMinFrom(costs, k, best, idx);
      m <= best && (forall j :: k <= j < |costs| ==> m <= costs[j]) &&
      ((i == idx && m == best) ||
       (k <= i < |costs| && m == costs[i] && m < best && forall j :: k <= j < i ==> costs[j] > m))
    decreases |costs| - k
  {
    if k < |costs| {
      if costs[k] < best {
        ArgMinFromSpec(costs, k + 1, costs[k], k);
      } else {
        ArgMinFromSpec(costs, k + 1, best, idx);
      }
    }
  }

  /** One node of the DP lattice (struct FormLattice). */
  datatype Lattice = Lattice(
    ncand: int,               // number of candidate mappings of the frame
    cand: seq<seq<int>>,      // cand[j][k]: pole mapped to formant k by candidate j
    prept: seq<int>,          // best previous candidate of each candidate, or -1
    cumerr: seq<real>)        // cumulative cost of each candidate

  /** The value-initialised node `fl.resize` adds. */
  const EmptyLattice: Lattice := Lattice(0, [], [], [])

  /** A frame's candidates are mappings of its poles, with a back-pointer and a cost each. */
  predicate CandOk(lat: Lattice, pole: Pole, nForm: int)
  {
    0 <= lat.ncand <= MAXCAN && |lat.cand| >= lat.ncand &&
    |lat.prept| >= lat.ncand && |lat.cumerr| >= lat.ncand &&
    forall j :: 0 <= j < lat.ncand ==> MapOk(lat.cand[j], nForm, pole)
  }

  /** A frame's back-pointers name candidates of the previous frame, or are -1. */
  predicate LinksOk(lat: Lattice, prevNcand: int)
    requires |lat.prept| >= lat.ncand
  {
    forall j :: 0 <= j < lat.ncand ==> -1 <= lat.prept[j] < prevNcand
  }

  /** Frames 0..n-1 of the lattice are well formed and linked to their predecessors. */
  predicate LatticeOk(fl: seq<Lattice>, ps: PoleArray, nForm: int, n: int)
    requires 0 <= n <= |fl| && n <= |ps.pole|
  {
    (forall i :: 0 <= i < n ==> CandOk(fl[i], ps.pole[i], nForm)) &&
    (forall i :: 1 <= i < n ==> LinksOk(fl[i], fl[i - 1].ncand))
  }

  /** The frame context of `track`'s cost loops (the frame before exists and is well formed). */
  predicate FrameCtx(cur: seq<int>, prevLat: Lattice, pc: Pole, pp: Pole, fnom: seq<real>, nForm: int)
  {
    PoleOk(pc) && PoleOk(pp) && 0 <= nForm <= MAXFORMANTS && |fnom| == MAXFORMANTS &&
    (forall l :: 0 <= l < MAXFORMANTS ==> fnom[l] > 0.0) &&
    MapOk(cur, nForm, pc) && CandOk(prevLat, pp, nForm)
  }

  /** `conErr`: the cost of reaching `cur` through candidate k of the previous frame. */
  function ConErr(cur: seq<int>, prevLat: Lattice, k: int, pc: Pole, pp: Pole, rmsdffact: real, fnom: seq<real>, nForm: int): real
    requires FrameCtx(cur, prevLat, pc, pp, fnom, nForm) && 0 <= k < prevLat.ncand
  {
    rmsdffact * TransitionCost(cur, prevLat.cand[k], pc, pp, nForm) + prevLat.cumerr[k]
  }

  function ConErrs(cur: seq<int>, prevLat: Lattice, pc: Pole, pp: Pole, rmsdffact: real, fnom: seq<real>, nForm: int): (s: seq<real>)
    requires FrameCtx(cur, prevLat, pc, pp, fnom, nForm)
    ensures |s| == prevLat.ncand
    ensures forall k :: 0 <= k < prevLat.ncand ==> s[k] == ConErr(cur, prevLat, k, pc, pp, rmsdffact, fnom, nForm)
  {
    seq(prevLat.ncand, k requires 0 <= k < prevLat.ncand => ConErr(cur, prevLat, k, pc, pp, rmsdffact, fnom, nForm))
  }

  /**
   * (`minErr`, `minCan`) of the previous-frame scan: starting from 2e30 (or
   * from 0 and -1 when the previous frame has no candidates).
   */
  function BestPrev(cur: seq<int>, prevLat: Lattice, pc: Pole, pp: Pole, rmsdffact: real, fnom: seq<real>, nForm: int): (real, int)
    requires FrameCtx(cur, prevLat, pc, pp, fnom, nForm)
  {
    ArgMinFrom(ConErrs(cur, prevLat, pc, pp, rmsdffact, fnom, nForm), 0,
               if prevLat.ncand > 0 then HUGE_COST else 0.0, -1)
  }

  /**
   * The back-pointer is -1 or a previous candidate, the first one of least
   * connection cost; the best cost is no more than the cost through any
   * previous candidate, and equals the cost through the back-pointer when
   * there is one.  With no previous candidate the pointer is -1 and the
   * best cost 0.
   */
  lemma BestPrevOptimal(cur: seq<int>, prevLat: Lattice, pc: Pole, pp: Pole, rmsdffact: real, fnom: seq<real>, nForm: int)
    requires FrameCtx(cur, prevLat, pc, pp, fnom, nForm)
    ensures var (m, i) := BestPrev(cur, prevLat, pc, pp, rmsdffact, fnom, nForm);
      -1 <= i < prevLat.ncand &&
      (prevLat.ncand == 0 ==> m == 0.0 && i == -1) &&
      (forall k :: 0 <= k < prevLat.ncand ==> m <= ConErr(cur, prevLat, k, pc, pp, rmsdffact, fnom, nForm)) &&
      (i >= 0 ==> m == ConErr(cur, prevLat, i, pc, pp, rmsdffact, fnom, nForm) &&
                  forall k :: 0 <= k < i ==> ConErr(cur, prevLat, k, pc, pp, rmsdffact, fnom, nForm) > m) &&
      (i == -1 ==> m == if prevLat.ncand > 0 then HUGE_COST else 0.0)
  {
    var costs := ConErrs(cur, prevLat, pc, pp, rmsdffact, fnom, nForm);
    ArgMinFromSpec(costs, 0, if prevLat.ncand > 0 then HUGE_COST else 0.0, -1);
  }

  /** The `l` loop: the connection cost of two mappings. */
  method PairCost(cur: seq<int>, prev: seq<int>, pc: Pole, pp: Pole, nForm: int) returns (pfErr: real)
    requires PoleOk(pc) && PoleOk(pp) && 0 <= nForm && MapOk(cur, nForm, pc) && MapOk(prev, nForm, pp)
    ensures pfErr == TransitionCost(cur, prev, pc, pp, nForm)
  {
    pfErr := 0.0;
    var l := 0;
    while l < nForm
      invariant 0 <= l <= nForm
      invariant pfErr == TransitionCost(cur, prev, pc, pp, l)
    {
      var ic, ip := cur[l], prev[l];
      if ic >= 0 && ip >= 0 {
        var ftemp := 2.0 * RAbs(pc.freq[ic] - pp.freq[ip]) / (pc.freq[ic] + pp.freq[ip]);
        pfErr := pfErr + ftemp * ftemp;
      } else {
        pfErr := pfErr + MISSING;
      }
      l := l + 1;
    }
  }

  /** The `k` loop: the best previous candidate of mapping `cur`. */
  method BestPrevious(cur: seq<int>, prevLat: Lattice, pc: Pole, pp: Pole, rmsdffact: real, fnom: seq<real>, nForm: int)
    returns (minErr: real, minCan: int)
    requires FrameCtx(cur, prevLat, pc, pp, fnom, nForm)
    ensures (minErr, minCan) == BestPrev(cur, prevLat, pc, pp, rmsdffact, fnom, nForm)
  {
    ghost var costs := ConErrs(cur, prevLat, pc, pp, rmsdffact, fnom, nForm);
    ghost var init := if prevLat.ncand > 0 then HUGE_COST else 0.0;
    minErr, minCan := 0.0, -1;
    if prevLat.ncand > 0 { minErr := HUGE_COST; }
    var k := 0;
    while k < prevLat.ncand
      invariant 0 <= k <= prevLat.ncand
      invariant ArgMinFrom(costs, k, minErr, minCan) == ArgMinFrom(costs, 0, init, -1)
    {
      var conErr := Connection(cur, prevLat, k, pc, pp, rmsdffact, fnom, nForm);
      assert conErr == costs[k];
      if conErr < minErr {
        minErr := conErr;
        minCan := k;
      }
      k := k + 1;
    }
  }

  /** One pass of the `k` loop: the cost of reaching `cur` through previous candidate k. */
  method Connection(cur: seq<int>, prevLat: Lattice, k: int, pc: Pole, pp: Pole, rmsdffact: real, fnom: seq<real>,
                    nForm: int)
    returns (conErr: real)
    requires FrameCtx(cur, prevLat, pc, pp, fnom, nForm) && 0 <= k < prevLat.ncand
    ensures conErr == ConErr(cur, prevLat, k, pc, pp, rmsdffact, fnom, nForm)
  {
    var pfErr := PairCost(cur, prevLat.cand[k], pc, pp, nForm);
    conErr := (rmsdffact * pfErr) + prevLat.cumerr[k];
  }

  /** The local-cost loop over the formants of mapping `cur`. */
  method LocalCostOf(cur: seq<int>, pc: Pole, fnom: seq<real>, w: Weights, nForm: int) returns (cost: real)
    requires PoleOk(pc) && 0 <= nForm <= |fnom| && MapOk(cur, nForm, pc)
    requires forall l :: 0 <= l < nForm ==> fnom[l] > 0.0
    ensures cost == LocalCost(cur, pc, fnom, w, nForm)
  {
    var fbias, berr, ferr := LocalSumsOf(cur, pc, fnom, nForm);
    cost := (w.fbias * fbias) + (w.bfact * berr) + (w.ffact * ferr);
    assert cost == Weighted(w, LocalSums(fbias, berr, ferr));
  }

  /** The sums of the local-cost loop. */
  method LocalSumsOf(cur: seq<int>, pc: Pole, fnom: seq<real>, nForm: int) returns (fbias: real, berr: real, ferr: real)
    requires PoleOk(pc) && 0 <= nForm <= |fnom| && MapOk(cur, nForm, pc)
    requires forall l :: 0 <= l < nForm ==> fnom[l] > 0.0
    ensures Sums(cur, pc, fnom, nForm) == LocalSums(fbias, berr, ferr)
  {
    berr, ferr, fbias := 0.0, 0.0, 0.0;
    var k := 0;
    while k < nForm
      invariant 0 <= k <= nForm
      invariant Sums(cur, pc, fnom, k) == LocalSums(fbias, berr, ferr)
    {
      var ic := cur[k];
      if ic >= 0 {
        berr := berr + pc.band[ic];
        ferr := ferr + RAbs(pc.freq[ic] - fnom[k]) / fnom[k];
        fbias := fbias + pc.freq[ic];
      } else {
        fbias := fbias + fnom[k];
        berr := berr + NOBAND;
        ferr := ferr + MISSING;
      }
      k := k + 1;
    }
  }

  /**
   * The `j` loop of one frame past the first: every candidate's back-pointer
   * and cumulative cost, which is its local cost plus its best connection.
   */
  method FrameCosts(cand: seq<seq<int>>, prevLat: Lattice, pc: Pole, pp: Pole, rmsdffact: real,
                    fnom: seq<real>, w: Weights, nForm: int)
    returns (prept: seq<int>, cumerr: seq<real>)
    requires forall j :: 0 <= j < |cand| ==> FrameCtx(cand[j], prevLat, pc, pp, fnom, nForm)
    ensures |prept| == |cand| && |cumerr| == |cand|
    ensures forall j :: 0 <= j < |cand| ==>
      var best := BestPrev(cand[j], prevLat, pc, pp, rmsdffact, fnom, nForm);
      prept[j] == best.1 && cumerr[j] == LocalCost(cand[j], pc, fnom, w, nForm) + best.0
  {
    prept, cumerr := [], [];
    var j := 0;
    while j < |cand|
      invariant 0 <= j <= |cand| && |prept| == j && |cumerr| == j
      invariant forall j' :: 0 <= j' < j ==>
        var best := BestPrev(cand[j'], prevLat, pc, pp, rmsdffact, fnom, nForm);
        prept[j'] == best.1 && cumerr[j'] == LocalCost(cand[j'], pc, fnom, w, nForm) + best.0
    {
      var minErr, minCan := BestPrevious(cand[j], prevLat, pc, pp, rmsdffact, fnom, nForm);
      var local := LocalCostOf(cand[j], pc, fnom, w, nForm);
      prept := prept + [minCan];
      cumerr := cumerr + [local + minErr];
      j := j + 1;
    }
  }

  // ---------------------------------------------------------------------------
  // Back-trace through the lattice
  // ---------------------------------------------------------------------------

  /** The whole lattice of a `track` run is well formed. */
  predicate TrackLattice(fl: seq<Lattice>, ps: PoleArray, nForm: int)
  {
    PolesOk(ps) && |fl| == ps.length && 0 <= nForm <= MAXFORMANTS && LatticeOk(fl, ps, nForm, |fl|)
  }

  /** The best starting candidate of a frame: the first of least cumulative cost, or -1 without candidates. */
  function StartCand(lat: Lattice): (c: int)
    requires 0 <= lat.ncand <= |lat.cumerr|
    ensures -1 <= c < lat.ncand && (c == -1 <==> lat.ncand == 0)
    ensures c >= 0 ==> forall j :: 0 <= j < lat.ncand ==> lat.cumerr[c] <= lat.cumerr[j]
  {
    if lat.ncand > 0 then
      var costs := lat.cumerr[..lat.ncand];
      ArgMinFromSpec(costs, 1, costs[0], 0);
      ArgMinFrom(costs, 1, costs[0], 0).1
    else -1
  }

  /** `minCan` on entry to frame i of the back-trace: the back-pointer of the candidate chosen at frame i+1. */
  function Incoming(fl: seq<Lattice>, ps: PoleArray, nForm: int, i: int): (m: int)
    requires TrackLattice(fl, ps, nForm) && 0 <= i < |fl|
    ensures -1 <= m < fl[i].ncand
    decreases |fl| - i, 0
  {
    if i == |fl| - 1 then -1
    else
      var c := Chosen(fl, ps, nForm, i + 1);
      if c >= 0 then LinkOf(fl, ps, nForm, i + 1, c); fl[i + 1].prept[c] else -1
  }

  /** The back-pointer of candidate c of frame i names a candidate of frame i-1, or is -1. */
  lemma LinkOf(fl: seq<Lattice>, ps: PoleArray, nForm: int, i: int, c: int)
    requires TrackLattice(fl, ps, nForm) && 1 <= i < |fl| && 0 <= c < fl[i].ncand
    ensures c < |fl[i].prept| && -1 <= fl[i].prept[c] < fl[i - 1].ncand
  {
    assert CandOk(fl[i], ps.pole[i], nForm);
    assert LinksOk(fl[i], fl[i - 1].ncand);
  }

  /** The candidate the back-trace reads at frame i: the incoming one, or a fresh best start, or -1. */
  function Chosen(fl: seq<Lattice>, ps: PoleArray, nForm: int, i: int): (c: int)
    requires TrackLattice(fl, ps, nForm) && 0 <= i < |fl|
    ensures -1 <= c < fl[i].ncand
    decreases |fl| - i, 1
  {
    var m := Incoming(fl, ps, nForm, i);
    if m >= 0 then m else StartCand(fl[i])
  }

  /**
   * The reported frequency of formant j at frame i: the pole the chosen
   * candidate maps it to; if the formant is missing there, the value of
   * frame i+1 (or the nominal frequency at the last frame); the nominal
   * frequency at a frame with no candidate.
   */
  function OutFreq(fl: seq<Lattice>, ps: PoleArray, nForm: int, fnom: seq<real>, i: int, j: int): real
    requires TrackLattice(fl, ps, nForm) && |fnom| == MAXFORMANTS && 0 <= i < |fl| && 0 <= j < nForm
    decreases |fl| - i
  {
    var c := Chosen(fl, ps, nForm, i);
    if c < 0 then fnom[j]
    else
      var k := fl[i].cand[c][j];
      if k >= 0 then ps.pole[i].freq[k]
      else if i < |fl| - 1 then OutFreq(fl, ps, nForm, fnom, i + 1, j)
      else fnom[j]
  }

  /** The reported bandwidth, chosen the same way, with NOBAND for the nominal case. */
  function OutBand(fl: seq<Lattice>, ps: PoleArray, nForm: int, i: int, j: int): real
    requires TrackLattice(fl, ps, nForm) && 0 <= i < |fl| && 0 <= j < nForm
    decreases |fl| - i
  {
    var c := Chosen(fl, ps, nForm, i);
    if c < 0 then NOBAND
    else
      var k := fl[i].cand[c][j];
      if k >= 0 then ps.pole[i].band[k]
      else if i < |fl| - 1 then OutBand(fl, ps, nForm, i + 1, j)
      else NOBAND
  }

  /**
   * Every reported frequency is positive and every reported bandwidth
   * non-negative: each comes from a pole of some frame, from a positive
   * nominal frequency, or is NOBAND.
   */
  lemma {:induction false} OutputsInRange(fl: seq<Lattice>, ps: PoleArray, nForm: int, fnom: seq<real>, i: int, j: int)
    requires TrackLattice(fl, ps, nForm) && |fnom| == MAXFORMANTS && 0 <= i < |fl| && 0 <= j < nForm
    requires forall l :: 0 <= l < MAXFORMANTS ==> fnom[l] > 0.0
    ensures OutFreq(fl, ps, nForm, fnom, i, j) > 0.0 && OutBand(fl, ps, nForm, i, j) >= 0.0
    decreases |fl| - i
  {
    var c := Chosen(fl, ps, nForm, i);
    if c >= 0 {
      assert MapOk(fl[i].cand[c], nForm, ps.pole[i]);
      assert PoleOk(ps.pole[i]);
      var k := fl[i].cand[c][j];
      if k < 0 && i < |fl| - 1 {
        OutputsInRange(fl, ps, nForm, fnom, i + 1, j);
      }
    }
  }

  /** Frames lo.. of the output rows hold the reported values; every row has one entry per frame. */
  predicate Filled(fl: seq<Lattice>, ps: PoleArray, nForm: int, fnom: seq<real>, fr: seq<seq<real>>, ba: seq<seq<real>>,
                   lo: int)
    requires TrackLattice(fl, ps, nForm) && |fnom| == MAXFORMANTS
  {
    |fr| == nForm && |ba| == nForm && (forall j :: 0 <= j < nForm ==> |fr[j]| == |fl| && |ba[j]| == |fl|) &&
    forall j, i :: 0 <= j < nForm && 0 <= lo <= i < |fl| ==>
      fr[j][i] == OutFreq(fl, ps, nForm, fnom, i, j) && ba[j][i] == OutBand(fl, ps, nForm, i, j)
  }

  /**
   * The back-trace of `track`: from the last frame down, fill formant j of
   * frame i with OutFreq/OutBand.  The result is nForm rows of |fl| values
   * (fr(j, i) is fr[j][i]).
   */
  method Backtrace(fl: seq<Lattice>, ps: PoleArray, nForm: int, fnom: seq<real>)
    returns (fr: seq<seq<real>>, ba: seq<seq<real>>)
    requires TrackLattice(fl, ps, nForm) && |fnom| == MAXFORMANTS
    ensures |fr| == nForm && |ba| == nForm
    ensures forall j :: 0 <= j < nForm ==> |fr[j]| == |fl| && |ba[j]| == |fl|
    ensures forall j, i :: 0 <= j < nForm && 0 <= i < |fl| ==>
      fr[j][i] == OutFreq(fl, ps, nForm, fnom, i, j) && ba[j][i] == OutBand(fl, ps, nForm, i, j)
  {
    var len := |fl|;
    fr := seq(nForm, _ => seq(len, _ => 0.0));
    ba := seq(nForm, _ => seq(len, _ => 0.0));
    var minCan := -1;
    var i := len - 1;
    while i >= 0
      invariant -1 <= i < len
      invariant i >= 0 ==> minCan == Incoming(fl, ps, nForm, i)
      invariant Filled(fl, ps, nForm, fnom, fr, ba, i + 1)
    {
      if minCan < 0 {
        if fl[i].ncand > 0 {
          minCan := BestStart(fl[i]);
        }
      }
      assert minCan == Chosen(fl, ps, nForm, i);
      if minCan >= 0 {
        fr, ba := FillChosen(fl, ps, nForm, fnom, fr, ba, i, minCan);
        minCan := fl[i].prept[minCan];
      } else {
        fr, ba := FillNominal(fl, ps, nForm, fnom, fr, ba, i);
      }
      i := i - 1;
    }
  }

  /** The search for the first candidate of least cumulative cost. */
  method BestStart(lat: Lattice) returns (minCan: int)
    requires 0 < lat.ncand <= |lat.cumerr|
    ensures minCan == StartCand(lat)
  {
    var minErr := lat.cumerr[0];
    minCan := 0;
    var j := 1;
    while j < lat.ncand
      invariant 1 <= j <= lat.ncand
      invariant ArgMinFrom(lat.cumerr[..lat.ncand], j, minErr, minCan) ==
                ArgMinFrom(lat.cumerr[..lat.ncand], 1, lat.cumerr[0], 0)
    {
      if lat.cumerr[j] < minErr {
        minErr := lat.cumerr[j];
        minCan := j;
      }
      j := j + 1;
    }
  }

  /** Frame i with a chosen candidate: each formant from its pole, or else from frame i+1, or else nominal. */
  method FillChosen(fl: seq<Lattice>, ps: PoleArray, nForm: int, fnom: seq<real>, fr0: seq<seq<real>>,
                    ba0: seq<seq<real>>, i: int, minCan: int)
    returns (fr: seq<seq<real>>, ba: seq<seq<real>>)
    requires TrackLattice(fl, ps, nForm) && |fnom| == MAXFORMANTS && 0 <= i < |fl|
    requires 0 <= minCan == Chosen(fl, ps, nForm, i) && Filled(fl, ps, nForm, fnom, fr0, ba0, i + 1)
    ensures Filled(fl, ps, nForm, fnom, fr, ba, i)
  {
    fr, ba := fr0, ba0;
    var len := |fl|;
    var row := fl[i].cand[minCan];
    assert MapOk(row, nForm, ps.pole[i]);
    var j := 0;
    while j < nForm
      invariant 0 <= j <= nForm
      invariant Filled(fl, ps, nForm, fnom, fr, ba, i + 1)
      invariant forall j' :: 0 <= j' < j ==>
        fr[j'][i] == OutFreq(fl, ps, nForm, fnom, i, j') && ba[j'][i] == OutBand(fl, ps, nForm, i, j')
    {
      var k := row[j];
      var f, b;
      if k >= 0 {
        f, b := ps.pole[i].freq[k], ps.pole[i].band[k];
      } else if i < len - 1 {
        f, b := fr[j][i + 1], ba[j][i + 1];
      } else {
        f, b := fnom[j], NOBAND;
      }
      fr := fr[j := fr[j][i := f]];
      ba := ba[j := ba[j][i := b]];
      j := j + 1;
    }
  }

  /** Frame i without a candidate: every formant nominal, with NOBAND. */
  method FillNominal(fl: seq<Lattice>, ps: PoleArray, nForm: int, fnom: seq<real>, fr0: seq<seq<real>>,
                     ba0: seq<seq<real>>, i: int)
    returns (fr: seq<seq<real>>, ba: seq<seq<real>>)
    requires TrackLattice(fl, ps, nForm) && |fnom| == MAXFORMANTS && 0 <= i < |fl|
    requires Chosen(fl, ps, nForm, i) < 0 && Filled(fl, ps, nForm, fnom, fr0, ba0, i + 1)
    ensures Filled(fl, ps, nForm, fnom, fr, ba, i)
  {
    fr, ba := fr0, ba0;
    var j := 0;
    while j < nForm
      invariant 0 <= j <= nForm
      invariant Filled(fl, ps, nForm, fnom, fr, ba, i + 1)
      invariant forall j' :: 0 <= j' < j ==>
        fr[j'][i] == OutFreq(fl, ps, nForm, fnom, i, j') && ba[j'][i] == OutBand(fl, ps, nForm, i, j')
    {
      fr := fr[j := fr[j][i := fnom[j]]];
      ba := ba[j := ba[j][i := NOBAND]];
      j := j + 1;
    }
  }

  // ---------------------------------------------------------------------------
  // The tracker object
  // ---------------------------------------------------------------------------

  /** `std::numeric_limits<double>::lowest()`. */
  const LOWEST: real := -1.7976931348623157e308

  /**
   * The nominal frequencies and bands of `setNominalFreqs(f1)`: formant i is
   * centred on (2i+1)·f1, with band [fnom[i] - (i+1)·f1 + 50, fnom[i] + i·f1 + 1000].
   */
  predicate NominalFor(fnom: seq<real>, fmins: seq<real>, fmaxs: seq<real>, f1: real)
  {
    |fnom| == MAXFORMANTS && |fmins| == MAXFORMANTS && |fmaxs| == MAXFORMANTS &&
    forall i :: 0 <= i < MAXFORMANTS ==> NominalAt(fnom, fmins, fmaxs, f1, i)
  }

  /** Formant i's centre and band for the first formant's nominal frequency f1. */
  predicate NominalAt(fnom: seq<real>, fmins: seq<real>, fmaxs: seq<real>, f1: real, i: int)
    requires 0 <= i < |fnom| && i < |fmins| && i < |fmaxs|
  {
    fnom[i] == (i * 2 + 1) as real * f1 &&
    fmins[i] == fnom[i] - (i + 1) as real * f1 + 50.0 &&
    fmaxs[i] == fnom[i] + i as real * f1 + 1000.0
  }

  /** Writing entry i leaves the entries before it as they were. */
  lemma NominalKept(fnom0: seq<real>, fmins0: seq<real>, fmaxs0: seq<real>, fnom: seq<real>, fmins: seq<real>,
                    fmaxs: seq<real>, f1: real, i: int)
    requires |fnom0| == |fmins0| == |fmaxs0| == |fnom| == |fmins| == |fmaxs| && 0 <= i < |fnom|
    requires forall i' :: 0 <= i' < i ==> NominalAt(fnom0, fmins0, fmaxs0, f1, i')
    requires forall i' :: 0 <= i' < i ==> fnom[i'] == fnom0[i'] && fmins[i'] == fmins0[i'] && fmaxs[i'] == fmaxs0[i']
    requires NominalAt(fnom, fmins, fmaxs, f1, i)
    ensures forall i' :: 0 <= i' <= i ==> NominalAt(fnom, fmins, fmaxs, f1, i')
  {
    forall i' | 0 <= i' < i
      ensures NominalAt(fnom, fmins, fmaxs, f1, i')
    {
      assert NominalAt(fnom0, fmins0, fmaxs0, f1, i');
    }
  }

  /** For a positive f1 every centre is positive and lies below the top of its band. */
  lemma NominalPositive(fnom: seq<real>, fmins: seq<real>, fmaxs: seq<real>, f1: real)
    requires NominalFor(fnom, fmins, fmaxs, f1) && f1 > 0.0
    ensures NominalOk(fnom) && forall i :: 0 <= i < MAXFORMANTS ==> fnom[i] < fmaxs[i]
  {
    forall i | 0 <= i < MAXFORMANTS
      ensures fnom[i] > 0.0 && fnom[i] < fmaxs[i]
    {
      assert NominalAt(fnom, fmins, fmaxs, f1, i);
      ScaledNonNegative(i as real, f1);
      ScaledNonNegative((i * 2) as real, f1);
    }
  }

  lemma ScaledNonNegative(x: real, f1: real)
    requires x >= 0.0 && f1 > 0.0
    ensures x * f1 >= 0.0 && (x + 1.0) * f1 > 0.0
  {
  }

  /** The constructor's nominal frequencies and formant bands. */
  const DefaultFnom: seq<real> := [500.0, 1500.0, 2500.0, 3500.0, 4500.0, 5500.0, 6500.0]
  const DefaultFmins: seq<real> := [50.0, 400.0, 1000.0, 2000.0, 2000.0, 3000.0, 3000.0]
  const DefaultFmaxs: seq<real> := [1500.0, 3500.0, 4500.0, 5000.0, 6000.0, 6000.0, 8000.0]

  /** One reported formant sample (struct Formant). */
  datatype Formant = Formant(offset: int, freq: real, band: real)

  /** The tracker's result (struct FormantTrack); form[j][i] is form(j, i), formant j of frame i. */
  datatype FormantTrack = FormantTrack(form: seq<seq<Formant>>, length: int, sampleRate: real)

  /**
   * The running maximum of `getStatMax` over the frame energies, from
   * `lowest()`: at least every energy, and one of them unless there are none.
   */
  function StatMax(poles: seq<Pole>): (m: real)
    ensures forall i :: 0 <= i < |poles| ==> poles[i].rms <= m
    ensures |poles| == 0 ==> m == LOWEST
    ensures m == LOWEST || exists i :: 0 <= i < |poles| && poles[i].rms == m
  {
    if |poles| == 0 then LOWEST
    else
      var m := StatMax(poles[..|poles| - 1]);
      var t := poles[|poles| - 1].rms;
      assert forall i :: 0 <= i < |poles| - 1 ==> poles[..|poles| - 1][i] == poles[i];
      if t > m then t else m
  }

  /** Every candidate of a frame maps each formant to nothing or to a pole inside that formant's band. */
  predicate FrameBands(lat: Lattice, pole: Pole, fmins: seq<real>, fmaxs: seq<real>, nForm: int)
    requires PoleOk(pole) && CandOk(lat, pole, nForm) && nForm <= |fmins| && nForm <= |fmaxs|
  {
    forall j, k :: 0 <= j < lat.ncand && 0 <= k < nForm ==>
      var v := lat.cand[j][k];
      v == -1 || (0 <= v < pole.npoles && fmins[k] <= pole.freq[v] <= fmaxs[k])
  }

  /** Frames 0..n-1 respect the formant bands. */
  predicate Admissible(fl: seq<Lattice>, ps: PoleArray, fmins: seq<real>, fmaxs: seq<real>, nForm: int, n: int)
    requires 0 <= n <= |fl| && n <= |ps.pole| && LatticeOk(fl, ps, nForm, n)
    requires PolesOk(ps) && nForm <= |fmins| && nForm <= |fmaxs|
  {
    forall i :: 0 <= i < n ==> FrameBands(fl[i], ps.pole[i], fmins, fmaxs, nForm)
  }

  /** The nominal frequencies are positive, as the local cost divides by them. */
  predicate NominalOk(fnom: seq<real>)
  {
    |fnom| == MAXFORMANTS && forall l :: 0 <= l < MAXFORMANTS ==> fnom[l] > 0.0
  }

  /** The scaled frequency-jump weight of frame i: its energy relative to the largest, times `dffact`. */
  function RmsDfFact(ps: PoleArray, i: int): real
    requires PolesOk(ps) && 0 <= i < ps.length
  {
    ps.pole[i].rms / StatMax(ps.pole) * TrackWeights(ps.sampleRate).dffact
  }

  /**
   * The DP values of a node against the node before: every candidate's
   * back-pointer and cumulative cost are BestPrev's, and its local cost
   * plus BestPrev's cost.
   */
  predicate DpValues(lat: Lattice, prevLat: Lattice, pc: Pole, pp: Pole, rmsdffact: real,
                     fnom: seq<real>, w: Weights, nForm: int)
    requires |lat.cand| >= lat.ncand && |lat.prept| >= lat.ncand && |lat.cumerr| >= lat.ncand
    requires forall j :: 0 <= j < lat.ncand ==> FrameCtx(lat.cand[j], prevLat, pc, pp, fnom, nForm)
  {
    forall j :: 0 <= j < lat.ncand ==>
      var best := BestPrev(lat.cand[j], prevLat, pc, pp, rmsdffact, fnom, nForm);
      lat.prept[j] == best.1 && lat.cumerr[j] == LocalCost(lat.cand[j], pc, fnom, w, nForm) + best.0
  }

  /** Frame i past the first holds its DP values against frame i-1, with `track`'s weights. */
  predicate FrameCostsOk(lat: Lattice, ps: PoleArray, i: int, prevLat: Lattice, fnom: seq<real>, nForm: int)
    requires PolesOk(ps) && 0 < i < ps.length && 0 <= nForm <= MAXFORMANTS && NominalOk(fnom)
    requires CandOk(lat, ps.pole[i], nForm) && CandOk(prevLat, ps.pole[i - 1], nForm)
  {
    DpValues(lat, prevLat, ps.pole[i], ps.pole[i - 1], RmsDfFact(ps, i), fnom, TrackWeights(ps.sampleRate), nForm)
  }

  /** Frames 1..n-1 hold the DP values. */
  predicate LatticeCosts(fl: seq<Lattice>, ps: PoleArray, fnom: seq<real>, nForm: int, n: int)
    requires PolesOk(ps) && |fl| == ps.length && 0 <= n <= |fl| && 0 <= nForm <= MAXFORMANTS
    requires LatticeOk(fl, ps, nForm, n) && NominalOk(fnom)
  {
    forall i :: 1 <= i < n ==> FrameCostsOk(fl[i], ps, i, fl[i - 1], fnom, nForm)
  }

  /** The track reports, for formant j of frame i, the frame's offset and OutFreq/OutBand. */
  predicate TrackMatches(t: FormantTrack, fl: seq<Lattice>, ps: PoleArray, nForm: int, fnom: seq<real>)
    requires TrackLattice(fl, ps, nForm) && |fnom| == MAXFORMANTS
  {
    t.length == ps.length && t.sampleRate == ps.sampleRate && |t.form| == nForm &&
    (forall j :: 0 <= j < nForm ==> |t.form[j]| == ps.length) &&
    forall j, i :: 0 <= j < nForm && 0 <= i < ps.length ==>
      t.form[j][i] == Formant(ps.pole[i].offset, OutFreq(fl, ps, nForm, fnom, i, j), OutBand(fl, ps, nForm, i, j))
  }

  /**
   * The rows `getFcand` leaves behind, 0 to the final candidate index, are
   * complete mappings of good entries: -1 or a pole allowed for the formant.
   */
  lemma CandidatesGood(ctx: CandyCtx, pc: seq<int>)
    requires CtxOk(ctx) && |pc| == MAXCAN * ctx.maxForms
    ensures var r := CandySpec(ctx, CandyState(pc, 0), 0, 0, 0);
      r.Some? ==> (0 <= r.value.ncan < MAXCAN && |r.value.pc| == |pc| &&
        forall row, c :: 0 <= row <= r.value.ncan && 0 <= c < ctx.maxForms ==>
          Good(ctx, PcAt(ctx, r.value.pc, row, c), c))
  {
    var st := CandyState(pc, 0);
    var r := CandySpec(ctx, st, 0, 0, 0);
    if r.Some? {
      assert CandyPost(ctx, st, r.value, 0);
      forall row, c | 0 <= row <= r.value.ncan && 0 <= c < ctx.maxForms
        ensures Good(ctx, PcAt(ctx, r.value.pc, row, c), c)
      {
        if row == 0 {
          assert RowGood(ctx, r.value.pc, 0, 0, ctx.maxForms);
        } else {
          assert RowGood(ctx, r.value.pc, row, 0, ctx.maxForms);
        }
      }
    }
  }

  /** The copy of the first ncan rows of the candidate table into a lattice node. */
  method CopyCandidates(pcan: seq<int>, ncan: int, nForm: int) returns (cand: seq<seq<int>>)
    requires 0 <= nForm && 0 <= ncan <= MAXCAN && |pcan| == MAXCAN * nForm
    ensures |cand| == ncan
    ensures forall j :: 0 <= j < ncan ==> |cand[j]| == nForm
    ensures forall j, k :: 0 <= j < ncan && 0 <= k < nForm ==>
      0 <= Vector2d.FlatIndex(j, k, nForm) < |pcan| && cand[j][k] == pcan[Vector2d.FlatIndex(j, k, nForm)]
  {
    cand := [];
    var j := 0;
    while j < ncan
      invariant 0 <= j <= ncan && |cand| == j
      invariant forall j' :: 0 <= j' < j ==> |cand[j']| == nForm
      invariant forall j', k :: 0 <= j' < j && 0 <= k < nForm ==>
        0 <= Vector2d.FlatIndex(j', k, nForm) < |pcan| && cand[j'][k] == pcan[Vector2d.FlatIndex(j', k, nForm)]
    {
      var row := [];
      var k := 0;
      while k < nForm
        invariant 0 <= k <= nForm && |row| == k
        invariant forall k' :: 0 <= k' < k ==>
          0 <= Vector2d.FlatIndex(j, k', nForm) < |pcan| && row[k'] == pcan[Vector2d.FlatIndex(j, k', nForm)]
      {
        Vector2d.FlatIndexInRange(j, k, MAXCAN, nForm);
        row := row + [pcan[Vector2d.FlatIndex(j, k, nForm)]];
        k := k + 1;
      }
      cand := cand + [row];
      j := j + 1;
    }
  }

  /** The final copy of fr/ba and the frame offsets into the returned track. */
  method PackTrack(ps: PoleArray, fr: seq<seq<real>>, ba: seq<seq<real>>, nForm: int) returns (t: FormantTrack)
    requires ps.length == |ps.pole| && 0 <= nForm && |fr| == nForm && |ba| == nForm
    requires forall j :: 0 <= j < nForm ==> |fr[j]| == ps.length && |ba[j]| == ps.length
    ensures t.length == ps.length && t.sampleRate == ps.sampleRate && |t.form| == nForm
    ensures forall j :: 0 <= j < nForm ==> |t.form[j]| == ps.length
    ensures forall j, i :: 0 <= j < nForm && 0 <= i < ps.length ==>
      t.form[j][i] == Formant(ps.pole[i].offset, fr[j][i], ba[j][i])
  {
    var len := ps.length;
    var form := seq(nForm, _ => seq(len, _ => Formant(0, 0.0, 0.0)));
    var i := 0;
    while i < len
      invariant 0 <= i <= len && |form| == nForm
      invariant forall j :: 0 <= j < nForm ==> |form[j]| == len
      invariant forall j, i' :: 0 <= j < nForm && 0 <= i' < i ==>
        form[j][i'] == Formant(ps.pole[i'].offset, fr[j][i'], ba[j][i'])
    {
      var j := 0;
      while j < nForm
        invariant 0 <= j <= nForm && |form| == nForm
        invariant forall j' :: 0 <= j' < nForm ==> |form[j']| == len
        invariant forall j', i' :: 0 <= j' < nForm && 0 <= i' < i ==>
          form[j'][i'] == Formant(ps.pole[i'].offset, fr[j'][i'], ba[j'][i'])
        invariant forall j' :: 0 <= j' < j ==> form[j'][i] == Formant(ps.pole[i].offset, fr[j'][i], ba[j'][i])
      {
        form := form[j := form[j][i := Formant(ps.pole[i].offset, fr[j][i], ba[j][i])]];
        j := j + 1;
      }
      i := i + 1;
    }
    t := FormantTrack(form, len, ps.sampleRate);
  }

  /**
   * The rows `getFcand` installs in a lattice node are mappings of the
   * frame's poles that respect the formant bands.
   */
  lemma NewCandidatesOk(ctx: CandyCtx, pc0: seq<int>, pole: Pole, cand: seq<seq<int>>)
    requires CtxOk(ctx) && |pc0| == MAXCAN * ctx.maxForms && PoleOk(pole)
    requires ctx.fre == pole.freq && ctx.maxPoles == pole.npoles
    requires var r := CandySpec(ctx, CandyState(pc0, 0), 0, 0, 0);
      r.Some? && |cand| == r.value.ncan + 1 &&
      (forall j :: 0 <= j < |cand| ==> |cand[j]| == ctx.maxForms) &&
      forall j, k :: 0 <= j < |cand| && 0 <= k < ctx.maxForms ==>
        0 <= Vector2d.FlatIndex(j, k, ctx.maxForms) < |r.value.pc| &&
        cand[j][k] == r.value.pc[Vector2d.FlatIndex(j, k, ctx.maxForms)]
    ensures forall j :: 0 <= j < |cand| ==> MapOk(cand[j], ctx.maxForms, pole)
    ensures forall j, k :: 0 <= j < |cand| && 0 <= k < ctx.maxForms ==>
      cand[j][k] == -1 ||
      (0 <= cand[j][k] < pole.npoles && ctx.fmins[k] <= pole.freq[cand[j][k]] <= ctx.fmaxs[k])
  {
    CandidatesGood(ctx, pc0);
    var r := CandySpec(ctx, CandyState(pc0, 0), 0, 0, 0);
    forall j | 0 <= j < |cand|
      ensures MapOk(cand[j], ctx.maxForms, pole)
      ensures forall k :: 0 <= k < ctx.maxForms ==> (cand[j][k] == -1 ||
        (0 <= cand[j][k] < pole.npoles && ctx.fmins[k] <= pole.freq[cand[j][k]] <= ctx.fmaxs[k]))
    {
      forall k | 0 <= k < ctx.maxForms
        ensures cand[j][k] == -1 ||
          (0 <= cand[j][k] < pole.npoles && ctx.fmins[k] <= pole.freq[cand[j][k]] <= ctx.fmaxs[k])
      {
        assert cand[j][k] == PcAt(ctx, r.value.pc, j, k);
        assert Good(ctx, PcAt(ctx, r.value.pc, j, k), k);
      }
    }
  }

  /**
   * What `track` establishes for frame i, given the node of frame i-1: its
   * candidates are mappings respecting the formant bands, and past the first
   * frame they hold their DP values.
   */
  predicate FrameFacts(lat: Lattice, ps: PoleArray, i: int, prevLat: Lattice, fnom: seq<real>,
                       fmins: seq<real>, fmaxs: seq<real>, nForm: int)
    requires PolesOk(ps) && 0 <= i < ps.length && 0 <= nForm <= MAXFORMANTS && NominalOk(fnom)
    requires |fmins| == MAXFORMANTS && |fmaxs| == MAXFORMANTS
    requires i > 0 ==> CandOk(prevLat, ps.pole[i - 1], nForm)
  {
    CandOk(lat, ps.pole[i], nForm) && FrameBands(lat, ps.pole[i], fmins, fmaxs, nForm) &&
    (i > 0 ==> FrameCostsOk(lat, ps, i, prevLat, fnom, nForm))
  }

  /**
   * A frame past the first with its candidates in place and the DP values
   * of `track`'s weights installed has all the facts of a frame.
   */
  lemma LinkedFrame(lat: Lattice, prept: seq<int>, cumerr: seq<real>, ps: PoleArray, i: int, prevLat: Lattice,
                    fnom: seq<real>, fmins: seq<real>, fmaxs: seq<real>, nForm: int)
    requires PolesOk(ps) && 0 < i < ps.length && 0 <= nForm <= MAXFORMANTS && NominalOk(fnom)
    requires |fmins| == MAXFORMANTS && |fmaxs| == MAXFORMANTS && CandOk(prevLat, ps.pole[i - 1], nForm)
    requires CandOk(lat, ps.pole[i], nForm) && FrameBands(lat, ps.pole[i], fmins, fmaxs, nForm)
    requires |lat.cand| == lat.ncand && |prept| == lat.ncand && |cumerr| == lat.ncand
    requires forall j :: 0 <= j < |lat.cand| ==>
      var best := BestPrev(lat.cand[j], prevLat, ps.pole[i], ps.pole[i - 1], RmsDfFact(ps, i), fnom, nForm);
      prept[j] == best.1 &&
      cumerr[j] == LocalCost(lat.cand[j], ps.pole[i], fnom, TrackWeights(ps.sampleRate), nForm) + best.0
    ensures FrameFacts(lat.(prept := prept, cumerr := cumerr), ps, i, prevLat, fnom, fmins, fmaxs, nForm)
  {
    var linked := lat.(prept := prept, cumerr := cumerr);
    assert CandOk(linked, ps.pole[i], nForm);
    assert DpValues(linked, prevLat, ps.pole[i], ps.pole[i - 1], RmsDfFact(ps, i), fnom,
                    TrackWeights(ps.sampleRate), nForm);
  }

  /** Installing frame i with its facts keeps the lattice well formed, now up to frame i. */
  lemma LatticeOkAdded(fl0: seq<Lattice>, fl: seq<Lattice>, ps: PoleArray, lat: Lattice,
                       fnom: seq<real>, fmins: seq<real>, fmaxs: seq<real>, nForm: int, i: int)
    requires PolesOk(ps) && |fl0| == ps.length && 0 <= i < |fl0| && fl == fl0[i := lat]
    requires 0 <= nForm <= MAXFORMANTS && NominalOk(fnom) && |fmins| == MAXFORMANTS && |fmaxs| == MAXFORMANTS
    requires LatticeOk(fl0, ps, nForm, i)
    requires FrameFacts(lat, ps, i, if i > 0 then fl0[i - 1] else lat, fnom, fmins, fmaxs, nForm)
    ensures LatticeOk(fl, ps, nForm, i + 1)
  {
    assert forall i' :: 0 <= i' < i ==> fl[i'] == fl0[i'];
    if i > 0 {
      var rmsdffact := RmsDfFact(ps, i);
      var w := TrackWeights(ps.sampleRate);
      assert DpValues(lat, fl0[i - 1], ps.pole[i], ps.pole[i - 1], rmsdffact, fnom, w, nForm);
      forall j | 0 <= j < lat.ncand ensures -1 <= lat.prept[j] < fl0[i - 1].ncand {
        BestPrevOptimal(lat.cand[j], fl0[i - 1], ps.pole[i], ps.pole[i - 1], rmsdffact, fnom, nForm);
      }
      assert LinksOk(fl[i], fl[i - 1].ncand);
    }
  }

  /** Installing frame i keeps the band property, now up to frame i. */
  lemma AdmissibleAdded(fl0: seq<Lattice>, fl: seq<Lattice>, ps: PoleArray, lat: Lattice,
                       fnom: seq<real>, fmins: seq<real>, fmaxs: seq<real>, nForm: int, i: int)
    requires PolesOk(ps) && |fl0| == ps.length && 0 <= i < |fl0| && fl == fl0[i := lat]
    requires 0 <= nForm <= MAXFORMANTS && NominalOk(fnom) && |fmins| == MAXFORMANTS && |fmaxs| == MAXFORMANTS
    requires LatticeOk(fl0, ps, nForm, i)
    requires FrameFacts(lat, ps, i, if i > 0 then fl0[i - 1] else lat, fnom, fmins, fmaxs, nForm)
    requires LatticeOk(fl, ps, nForm, i + 1) && Admissible(fl0, ps, fmins, fmaxs, nForm, i)
    ensures Admissible(fl, ps, fmins, fmaxs, nForm, i + 1)
  {
    assert forall i' :: 0 <= i' < i ==> fl[i'] == fl0[i'];
  }

  /** Installing frame i keeps the DP values, now up to frame i. */
  lemma CostsAdded(fl0: seq<Lattice>, fl: seq<Lattice>, ps: PoleArray, lat: Lattice,
                       fnom: seq<real>, fmins: seq<real>, fmaxs: seq<real>, nForm: int, i: int)
    requires PolesOk(ps) && |fl0| == ps.length && 0 <= i < |fl0| && fl == fl0[i := lat]
    requires 0 <= nForm <= MAXFORMANTS && NominalOk(fnom) && |fmins| == MAXFORMANTS && |fmaxs| == MAXFORMANTS
    requires LatticeOk(fl0, ps, nForm, i)
    requires FrameFacts(lat, ps, i, if i > 0 then fl0[i - 1] else lat, fnom, fmins, fmaxs, nForm)
    requires LatticeOk(fl, ps, nForm, i + 1) && LatticeCosts(fl0, ps, fnom, nForm, i)
    ensures LatticeCosts(fl, ps, fnom, nForm, i + 1)
  {
    assert forall i' :: 0 <= i' < i ==> fl[i'] == fl0[i'];
  }

  /** The working state of one enumeration (struct CandySt), passed to `candy` by reference. */
  class CandySt {
    const fre: seq<real>
    const maxPoles: int
    const maxForms: int
    var pc: seq<int>

    constructor(fre: seq<real>, maxPoles: int, maxForms: int, pc: seq<int>)
      ensures this.fre == fre && this.maxPoles == maxPoles && this.maxForms == maxForms && this.pc == pc
    {
      this.fre := fre;
      this.maxPoles := maxPoles;
      this.maxForms := maxForms;
      this.pc := pc;
    }
  }

  /** The formant tracker (class FormantTracking). */
  class FormantTracking {
    var nForm: int
    var nomF1: real
    var fnom: seq<real>
    var fmins: seq<real>
    var fmaxs: seq<real>
    var ncan: int
    var doMerge: bool
    var fr: seq<seq<real>>
    var ba: seq<seq<real>>
    var pcan: seq<int>
    var fl: seq<Lattice>

    ghost predicate Valid()
      reads this
    {
      0 <= nForm <= MAXFORMANTS && NominalOk(fnom) && |fmins| == MAXFORMANTS && |fmaxs| == MAXFORMANTS
    }

    constructor(nForm: int, nomF1: real)
      requires 0 <= nForm <= MAXFORMANTS
      ensures Valid() && this.nForm == nForm && this.nomF1 == nomF1 && doMerge
      ensures fnom == DefaultFnom && fmins == DefaultFmins && fmaxs == DefaultFmaxs
    {
      this.nForm := nForm;
      this.nomF1 := nomF1;
      fnom := DefaultFnom;
      fmins := DefaultFmins;
      fmaxs := DefaultFmaxs;
      doMerge := true;
      ncan := 0;
      fr, ba, pcan, fl := [], [], [], [];
    }

    /** The enumeration context of `st` under this tracker's bands and merge flag. */
    function Ctx(st: CandySt): CandyCtx
      reads this, st
    {
      CandyCtx(st.fre, st.maxPoles, st.maxForms, fmins, fmaxs, doMerge)
    }

    /**
     * `setNominalFreqs`: the centres and bands of NominalFor(f1); for a
     * positive f1 every centre is positive and lies below its band's top.
     */
    method SetNominalFreqs(f1: real)
      requires |fnom| == MAXFORMANTS && |fmins| == MAXFORMANTS && |fmaxs| == MAXFORMANTS
      modifies this`fnom, this`fmins, this`fmaxs
      ensures NominalFor(fnom, fmins, fmaxs, f1)
      ensures f1 > 0.0 ==> NominalOk(fnom) && forall i :: 0 <= i < MAXFORMANTS ==> fnom[i] < fmaxs[i]
    {
      var i := 0;
      while i < MAXFORMANTS
        invariant 0 <= i <= MAXFORMANTS
        invariant |fnom| == MAXFORMANTS && |fmins| == MAXFORMANTS && |fmaxs| == MAXFORMANTS
        invariant forall i' :: 0 <= i' < i ==> NominalAt(fnom, fmins, fmaxs, f1, i')
      {
        ghost var (fnom0, fmins0, fmaxs0) := (fnom, fmins, fmaxs);
        fnom := fnom[i := (i * 2 + 1) as real * f1];
        fmins := fmins[i := fnom[i] - ((i + 1) as real * f1) + 50.0];
        fmaxs := fmaxs[i := fnom[i] + (i as real * f1) + 1000.0];
        NominalKept(fnom0, fmins0, fmaxs0, fnom, fmins, fmaxs, f1, i);
        i := i + 1;
      }
      if f1 > 0.0 {
        NominalPositive(fnom, fmins, fmaxs, f1);
      }
    }

    /** `getStatMax`: the largest frame energy, or `lowest()` for no frames. */
    method GetStatMax(ps: PoleArray) returns (amax: real)
      ensures amax == StatMax(ps.pole)
    {
      amax := LOWEST;
      var i := 0;
      while i < |ps.pole|
        invariant 0 <= i <= |ps.pole|
        invariant amax == StatMax(ps.pole[..i])
      {
        assert ps.pole[..i + 1][..i] == ps.pole[..i];
        var t := ps.pole[i].rms;
        if t > amax { amax := t; }
        i := i + 1;
      }
      assert ps.pole[..i] == ps.pole;
    }

    /**
     * `candy` on the shared state: the table in `st` and the candidate index
     * `ncan`.  It succeeds exactly when CandySpec does and then leaves the
     * state CandySpec computes; false stands for the domain error.
     */
    method Candy(st: CandySt, cand: int, p: int, f: int) returns (ok: bool)
      requires CtxOk(Ctx(st)) && StOk(Ctx(st), CandyState(st.pc, ncan))
      requires 0 <= cand <= ncan && 0 <= p && 0 <= f <= st.maxForms
      requires RowGood(Ctx(st), st.pc, cand, 0, f)
      modifies this`ncan, st`pc
      ensures var r := CandySpec(Ctx(st), old(CandyState(st.pc, ncan)), cand, p, f);
        ok == r.Some? && (ok ==> st.pc == r.value.pc && ncan == r.value.ncan)
      decreases st.maxForms - f, st.maxPoles - p, 2
    {
      var ctx := Ctx(st);
      ghost var s := CandyState(st.pc, ncan);
      if f < st.maxForms { st.pc := PcSet(ctx, st.pc, cand, f, -1); }
      ghost var s1 := CandyState(st.pc, ncan);
      assert Grows(ctx, s, s1, cand) && RowGood(ctx, s1.pc, cand, 0, if f < ctx.maxForms then f + 1 else f);
      if p < st.maxPoles && f < st.maxForms {
        if CanBe(ctx, p, f) {
          ok := CandyTake(st, cand, p, f);
        } else {
          ok := Candy(st, cand, p + 1, f);
        }
        if !ok { return; }
      }
      ghost var s2 := CandyState(st.pc, ncan);
      assert CandySpec(ctx, s, cand, p, f) ==
        if p >= ctx.maxPoles && f < ctx.maxForms - 1 && PcAt(ctx, s2.pc, cand, f) < 0 then
          CandySpec(ctx, s2, cand, RestartPole(ctx, s2.pc, cand, f), f + 1)
        else Some(s2);
      if p >= st.maxPoles && f < st.maxForms - 1 && PcAt(ctx, st.pc, cand, f) < 0 {
        var i := RestartFrom(ctx, st.pc, cand, f);
        ok := Candy(st, cand, i, f + 1);
        return;
      }
      ok := true;
    }

    /** The branch of `candy` where pole p can be formant f: record it, then try the alternatives. */
    method CandyTake(st: CandySt, cand: int, p: int, f: int) returns (ok: bool)
      requires CtxOk(Ctx(st)) && StOk(Ctx(st), CandyState(st.pc, ncan))
      requires 0 <= cand <= ncan && 0 <= p < st.maxPoles && 0 <= f < st.maxForms
      requires CanBe(Ctx(st), p, f) && RowGood(Ctx(st), st.pc, cand, 0, f)
      modifies this`ncan, st`pc
      ensures var r := CandyTakeSpec(Ctx(st), old(CandyState(st.pc, ncan)), cand, p, f);
        ok == r.Some? && (ok ==> st.pc == r.value.pc && ncan == r.value.ncan)
      decreases st.maxForms - f, st.maxPoles - p, 1
    {
      var ctx := Ctx(st);
      ghost var s1 := CandyState(st.pc, ncan);
      st.pc := PcSet(ctx, st.pc, cand, f, p);
      ghost var s0 := CandyState(st.pc, ncan);
      assert Grows(ctx, s1, s0, cand) && RowGood(ctx, s0.pc, cand, 0, f + 1);
      if doMerge && f == 0 && CanBe(ctx, p, 1) {
        ok := Merge(st, cand, p);
        if !ok { return; }
      }
      ghost var t1 := CandyState(st.pc, ncan);
      assert Grows(ctx, s1, t1, cand) by { GrowsTrans(ctx, s1, s0, t1, cand, cand); }
      assert RowGood(ctx, t1.pc, cand, 0, f + 1) by { GoodPersists(ctx, s0, t1, cand, cand, 0, f + 1); }
      ok := Candy(st, cand, p + 1, f + 1);
      if !ok { return; }
      ok := Alternative(st, cand, p, f);
    }

    /** The clone loop of `candy`: row `to` takes row `from`'s first f formants. */
    method CloneRow(st: CandySt, from: int, to: int, f: int)
      requires |st.pc| == MAXCAN * st.maxForms && 0 <= from < MAXCAN && 0 <= to < MAXCAN && from != to
      requires 0 <= f <= st.maxForms
      modifies st`pc
      ensures st.pc == CloneLower(Ctx(st), old(st.pc), from, to, f)
    {
      ghost var pc0 := st.pc;
      var i := 0;
      while i < f
        invariant 0 <= i <= f && |st.pc| == |pc0|
        invariant st.pc == CloneLower(Ctx(st), pc0, from, to, i)
      {
        st.pc := PcSet(Ctx(st), st.pc, to, i, PcAt(Ctx(st), st.pc, from, i));
        i := i + 1;
      }
    }

    /** The merger branch of `candy`. */
    method Merge(st: CandySt, cand: int, p: int) returns (ok: bool)
      requires CtxOk(Ctx(st)) && StOk(Ctx(st), CandyState(st.pc, ncan)) && 1 <= st.maxForms
      requires 0 <= cand <= ncan && 0 <= p < st.maxPoles
      requires RowGood(Ctx(st), st.pc, cand, 0, 1)
      modifies this`ncan, st`pc
      ensures var r := MergeSpec(Ctx(st), old(CandyState(st.pc, ncan)), cand, p);
        ok == r.Some? && (ok ==> st.pc == r.value.pc && ncan == r.value.ncan)
      decreases st.maxForms, st.maxPoles - p, 0
    {
      var ctx := Ctx(st);
      if ncan + 1 >= MAXCAN { return false; }
      ncan := ncan + 1;
      st.pc := PcSet(ctx, st.pc, ncan, 0, PcAt(ctx, st.pc, cand, 0));
      ok := Candy(st, ncan, p, 1);
    }

    /** The "other frequencies for this formant" branch of `candy`, cloning the lower formants once. */
    method Alternative(st: CandySt, cand: int, p: int, f: int) returns (ok: bool)
      requires CtxOk(Ctx(st)) && StOk(Ctx(st), CandyState(st.pc, ncan))
      requires 0 <= cand <= ncan && 0 <= p < st.maxPoles && 0 <= f < st.maxForms
      requires RowGood(Ctx(st), st.pc, cand, 0, st.maxForms)
      modifies this`ncan, st`pc
      ensures var r := AlternativeSpec(Ctx(st), old(CandyState(st.pc, ncan)), cand, p, f);
        ok == r.Some? && (ok ==> st.pc == r.value.pc && ncan == r.value.ncan)
      decreases st.maxForms - f, st.maxPoles - p, 0
    {
      var ctx := Ctx(st);
      ok := true;
      if p + 1 < st.maxPoles && CanBe(ctx, p + 1, f) {
        if ncan + 1 >= MAXCAN { return false; }
        ncan := ncan + 1;
        CloneRow(st, cand, ncan, f);
        ok := Candy(st, ncan, p + 1, f);
      }
    }

    /**
     * `getFcand`: enumerate the mappings of the frame's poles into the
     * candidate table `pcan`; `ncan` becomes the number of candidates.
     */
    method GetFcand(npoles: int, freq: seq<real>) returns (ok: bool)
      requires 0 <= nForm <= MAXFORMANTS && |fmins| == MAXFORMANTS && |fmaxs| == MAXFORMANTS
      requires 0 <= npoles <= |freq| && |pcan| == MAXCAN * nForm
      modifies this`ncan, this`pcan
      ensures |pcan| == MAXCAN * nForm
      ensures var r := CandySpec(CandyCtx(freq, npoles, nForm, fmins, fmaxs, doMerge), CandyState(old(pcan), 0), 0, 0, 0);
        ok == r.Some? && (ok ==> pcan == r.value.pc && ncan == r.value.ncan + 1)
    {
      var st := new CandySt(freq, npoles, nForm, pcan);
      ncan := 0;
      ok := Candy(st, ncan, 0, 0);
      if !ok { return; }
      pcan := st.pc;
      ncan := ncan + 1;
    }

    /**
     * One pass of `track`'s frame loop: enumerate frame i's candidates into
     * its node `lat0` (the node the lattice already holds) and, past the
     * first frame, compute their back-pointers and costs against `prevLat`.
     * False stands for the domain error of the enumeration.
     */
    method TrackFrame(ps: PoleArray, i: int, rmsmax: real, w: Weights, prevLat: Lattice, lat0: Lattice)
      returns (ok: bool, lat: Lattice)
      requires Valid() && PolesOk(ps) && 0 <= i < ps.length && |pcan| == MAXCAN * nForm
      requires rmsmax == StatMax(ps.pole) && w == TrackWeights(ps.sampleRate)
      requires i > 0 ==> CandOk(prevLat, ps.pole[i - 1], nForm)
      modifies this`ncan, this`pcan
      ensures |pcan| == MAXCAN * nForm
      ensures ok ==> FrameFacts(lat, ps, i, prevLat, fnom, fmins, fmaxs, nForm)
    {
      var rmsdffact := ps.pole[i].rms;
      rmsdffact := rmsdffact / rmsmax;
      rmsdffact := rmsdffact * w.dffact;
      assert rmsdffact == RmsDfFact(ps, i) by {
        assert w.dffact == TrackWeights(ps.sampleRate).dffact;
      }
      var polei := ps.pole[i];
      ok, lat := FrameCandidates(polei, lat0);
      if !ok {
        return;
      }
      if i > 0 && lat.ncand > 0 {
        var prept, cumerr := FrameCosts(lat.cand, prevLat, polei, ps.pole[i - 1], rmsdffact, fnom, w, nForm);
        LinkedFrame(lat, prept, cumerr, ps, i, prevLat, fnom, fmins, fmaxs, nForm);
        lat := lat.(prept := prept, cumerr := cumerr);
      }
    }

    /**
     * The candidate half of a frame: with poles, enumerate them and install
     * the candidates in the node (the back-pointer and cost vectors resized
     * to match); without, the node keeps its vectors and has no candidate.
     */
    method FrameCandidates(polei: Pole, lat0: Lattice) returns (ok: bool, lat: Lattice)
      requires Valid() && PoleOk(polei) && |pcan| == MAXCAN * nForm
      modifies this`ncan, this`pcan
      ensures |pcan| == MAXCAN * nForm
      ensures ok ==> CandOk(lat, polei, nForm) && FrameBands(lat, polei, fmins, fmaxs, nForm)
      ensures ok && polei.npoles <= 0 ==> lat == lat0.(ncand := 0)
      ensures ok && polei.npoles > 0 ==> lat.ncand > 0 && |lat.cand| == lat.ncand
    {
      ncan := 0;
      lat := lat0;
      if polei.npoles > 0 {
        ghost var pc0 := pcan;
        ok := GetFcand(polei.npoles, polei.freq);
        if !ok {
          return;
        }
        var cand := CopyCandidates(pcan, ncan, nForm);
        NewCandidatesOk(CandyCtx(polei.freq, polei.npoles, nForm, fmins, fmaxs, doMerge), pc0, polei, cand);
        lat := Lattice(ncan, cand, Resized(lat.prept, ncan, 0), Resized(lat.cumerr, ncan, 0.0));
      } else {
        lat := lat.(ncand := ncan);
      }
      ok := true;
    }

    /**
     * The frame loop of `track`: size the candidate table and the lattice,
     * then fill frame after frame.  On success every frame of the lattice is
     * well formed, respects the formant bands and, past the first, holds its
     * DP back-pointers and costs; false stands for the domain error.
     */
    method FillLattice(ps: PoleArray, rmsmax: real, w: Weights) returns (ok: bool)
      requires Valid() && PolesOk(ps) && rmsmax == StatMax(ps.pole)
      requires ps.length > 0 ==> w == TrackWeights(ps.sampleRate)
      modifies this`ncan, this`pcan, this`fl
      ensures ok ==>
        TrackLattice(fl, ps, nForm) && Admissible(fl, ps, fmins, fmaxs, nForm, |fl|) &&
        LatticeCosts(fl, ps, fnom, nForm, |fl|)
    {
      pcan := Resized(pcan, MAXCAN * nForm, 0);
      fl := Resized(fl, ps.length, EmptyLattice);
      var i := 0;
      while i < ps.length
        invariant 0 <= i <= ps.length && |fl| == ps.length && |pcan| == MAXCAN * nForm
        invariant LatticeOk(fl, ps, nForm, i)
        invariant Admissible(fl, ps, fmins, fmaxs, nForm, i)
        invariant LatticeCosts(fl, ps, fnom, nForm, i)
      {
        var ok, lat := TrackFrame(ps, i, rmsmax, w, if i > 0 then fl[i - 1] else EmptyLattice, fl[i]);
        if !ok {
          return false;
        }
        ghost var fl0 := fl;
        fl := fl[i := lat];
        LatticeOkAdded(fl0, fl, ps, lat, fnom, fmins, fmaxs, nForm, i);
        AdmissibleAdded(fl0, fl, ps, lat, fnom, fmins, fmaxs, nForm, i);
        CostsAdded(fl0, fl, ps, lat, fnom, fmins, fmaxs, nForm, i);
        i := i + 1;
      }
      ok := true;
    }

    /**
     * `track`: build the DP lattice frame by frame and read the formant
     * tracks back from it.  On success the lattice is well formed, every
     * candidate respects the formant bands, every frame past the first holds
     * the DP back-pointers and costs, and the track reports OutFreq/OutBand
     * with each frame's offset.  The only failure is the domain error of a
     * frame with more than MAXCAN candidates.
     */
    method Track(ps: PoleArray) returns (r: Result<FormantTrack>)
      requires Valid() && PolesOk(ps)
      modifies this
      ensures Valid() && nForm == old(nForm) && nomF1 == old(nomF1) && !doMerge
      ensures old(nomF1) > 0.0 ==> NominalFor(fnom, fmins, fmaxs, nomF1)
      ensures old(nomF1) <= 0.0 ==> fnom == old(fnom) && fmins == old(fmins) && fmaxs == old(fmaxs)
      ensures r.Failure? ==> r.error == DomainError
      ensures r.Success? ==>
        TrackLattice(fl, ps, nForm) && Admissible(fl, ps, fmins, fmaxs, nForm, |fl|) &&
        LatticeCosts(fl, ps, fnom, nForm, |fl|) && TrackMatches(r.value, fl, ps, nForm, fnom)
    {
      if nomF1 > 0.0 {
        SetNominalFreqs(nomF1);
      }
      r := TrackWithNominals(ps);
    }

    /** `track` once the nominal frequencies are set: fill the lattice and read it back. */
    method TrackWithNominals(ps: PoleArray) returns (r: Result<FormantTrack>)
      requires Valid() && PolesOk(ps)
      modifies this`ncan, this`pcan, this`fl, this`fr, this`ba, this`doMerge
      ensures !doMerge
      ensures r.Failure? ==> r.error == DomainError
      ensures r.Success? ==>
        TrackLattice(fl, ps, nForm) && Admissible(fl, ps, fmins, fmaxs, nForm, |fl|) &&
        LatticeCosts(fl, ps, fnom, nForm, |fl|) && TrackMatches(r.value, fl, ps, nForm, fnom)
    {
      var rmsmax := GetStatMax(ps);
      // Only an empty pole array may have a zero rate, and then the weights are never read.
      var w := if ps.sampleRate > 0.0 then TrackWeights(ps.sampleRate) else Weights(0.0, 0.0, 0.0, 0.0);
      var mergeCost := F_MERGE;
      if mergeCost > 1000.0 {
        doMerge := false;
      }
      var ok := FillLattice(ps, rmsmax, w);
      if !ok {
        return Failure(DomainError);
      }
      var fr', ba' := Backtrace(fl, ps, nForm, fnom);
      fr, ba := fr', ba';
      var t := PackTrack(ps, fr, ba, nForm);
      r := Success(t);
    }
  }
}

module FormantsFindings {
  import opened Wrappers
  import opened Formants

  /**
   * One formant, one pole at 500 Hz inside the F1 band: as written, the
   * `else` re-runs the search for F1 from the next (absent) pole and erases
   * the assignment, so the only candidate maps F1 to nothing.
   */
  lemma CandyAsWrittenDropsOnlyPole()
    ensures var ctx := CandyCtx([500.0], 1, 1, DefaultFmins, DefaultFmaxs, false);
      var st := CandyState(seq(MAXCAN, _ => 0), 0);
      var r := CandyAsWritten(ctx, st, 0, 0, 0);
      r.Some? && r.value.ncan == 0 && PcAt(ctx, r.value.pc, 0, 0) == -1
  {
    var ctx := CandyCtx([500.0], 1, 1, DefaultFmins, DefaultFmaxs, false);
    var st := CandyState(seq(MAXCAN, _ => 0), 0);
    assert CanBe(ctx, 0, 0);
    var st1 := st.(pc := PcSet(ctx, st.pc, 0, 0, -1));
    var s0 := st1.(pc := PcSet(ctx, st1.pc, 0, 0, 0));
    assert CandyAsWritten(ctx, s0, 0, 1, 1) == Some(s0);
    var s3 := s0.(pc := PcSet(ctx, s0.pc, 0, 0, -1));
    assert CandyAsWritten(ctx, s0, 0, 1, 0) == Some(s3);
    assert CandyAsWritten(ctx, st, 0, 0, 0) == Some(s3);
  }

  /** The same input, as the ESPS tracker defines `candy`: F1 is mapped to pole 0. */
  lemma CandyKeepsOnlyPole()
    ensures var ctx := CandyCtx([500.0], 1, 1, DefaultFmins, DefaultFmaxs, false);
      var st := CandyState(seq(MAXCAN, _ => 0), 0);
      var r := CandySpec(ctx, st, 0, 0, 0);
      r.Some? && r.value.ncan == 0 && PcAt(ctx, r.value.pc, 0, 0) == 0
  {
    var ctx := CandyCtx([500.0], 1, 1, DefaultFmins, DefaultFmaxs, false);
    var st := CandyState(seq(MAXCAN, _ => 0), 0);
    assert CanBe(ctx, 0, 0);
    var st1 := st.(pc := PcSet(ctx, st.pc, 0, 0, -1));
    var s0 := st1.(pc := PcSet(ctx, st1.pc, 0, 0, 0));
    assert CandySpec(ctx, s0, 0, 1, 1) == Some(s0);
    assert CandyTakeSpec(ctx, st1, 0, 0, 0) == Some(s0);
    assert CandySpec(ctx, st, 0, 0, 0) == Some(s0);
  }

  /**
   * One formant, poles at 300 and 600 Hz, both inside the F1 band: as
   * written, the second candidate row is opened but never filled, so it keeps
   * the stale entry 7 left in the table, which is not even a pole index.
   */
  lemma CandyAsWrittenLeavesStaleRow()
    ensures var ctx := CandyCtx([300.0, 600.0], 2, 1, DefaultFmins, DefaultFmaxs, false);
      var st := CandyState(seq(MAXCAN, _ => 7), 0);
      var r := CandyAsWritten(ctx, st, 0, 0, 0);
      r.Some? && r.value.ncan == 1 && PcAt(ctx, r.value.pc, 1, 0) == 7
  {
    var ctx := CandyCtx([300.0, 600.0], 2, 1, DefaultFmins, DefaultFmaxs, false);
    var st := CandyState(seq(MAXCAN, _ => 7), 0);
    assert CanBe(ctx, 0, 0) && CanBe(ctx, 1, 0);
    var st1 := st.(pc := PcSet(ctx, st.pc, 0, 0, -1));
    var s0 := st1.(pc := PcSet(ctx, st1.pc, 0, 0, 0));
    assert CandyAsWritten(ctx, s0, 0, 1, 1) == Some(s0);
    var s2 := s0.(ncan := 1);
    assert CloneLoopAsWritten(ctx, s2, 0, 0, 0, 0) == Some(s2);
    assert CandyAsWritten(ctx, st, 0, 0, 0) == Some(s2);
  }

  /** The same input, as the ESPS tracker defines `candy`: the second row maps F1 to pole 1. */
  lemma CandyFillsSecondRow()
    ensures var ctx := CandyCtx([300.0, 600.0], 2, 1, DefaultFmins, DefaultFmaxs, false);
      var st := CandyState(seq(MAXCAN, _ => 7), 0);
      var r := CandySpec(ctx, st, 0, 0, 0);
      r.Some? && r.value.ncan == 1 && PcAt(ctx, r.value.pc, 1, 0) == 1
  {
    var ctx := CandyCtx([300.0, 600.0], 2, 1, DefaultFmins, DefaultFmaxs, false);
    var st := CandyState(seq(MAXCAN, _ => 7), 0);
    assert CanBe(ctx, 0, 0) && CanBe(ctx, 1, 0);
    var st1 := st.(pc := PcSet(ctx, st.pc, 0, 0, -1));
    var s0 := st1.(pc := PcSet(ctx, st1.pc, 0, 0, 0));
    assert CandySpec(ctx, s0, 0, 1, 1) == Some(s0);
    var s := CandyState(CloneLower(ctx, s0.pc, 0, 1, 0), 1);
    assert s.pc == s0.pc;
    var t1 := s.(pc := PcSet(ctx, s.pc, 1, 0, -1));
    var t0 := t1.(pc := PcSet(ctx, t1.pc, 1, 0, 1));
    assert CandySpec(ctx, t0, 1, 2, 1) == Some(t0);
    assert CandyTakeSpec(ctx, t1, 1, 1, 0) == Some(t0);
    assert CandySpec(ctx, s, 1, 1, 0) == Some(t0);
    assert CandyTakeSpec(ctx, st1, 0, 0, 0) == Some(t0);
    assert CandySpec(ctx, st, 0, 0, 0) == Some(t0);
  }
}
