/**
 * Formant candidates from the roots of the LPC polynomial (formant.cpp):
 * the roots are converted to frequency/bandwidth pairs, bubble-sorted so
 * that the complex poles come first in ascending frequency, and cut down to
 * the poles strictly between 1 Hz and 1 Hz below the folding frequency.
 * The root finder (lbpoly) and the trigonometric and logarithm functions
 * are parameters.
 */
module Formant {
  import opened Wrappers
  import opened CNum

  /** M_PI as a double. */
  const PI: real := 3.141592653589793

  /** One pole: the entries freq[i] and band[i] of the two vectors, which the routine always moves together. */
  datatype Resonance = Resonance(freq: real, band: real)

  function Zip(freq: seq<real>, band: seq<real>): (s: seq<Resonance>)
    requires |freq| == |band|
    ensures |s| == |freq| && forall i :: 0 <= i < |s| ==> s[i] == Resonance(freq[i], band[i])
  {
    seq(|freq|, i requires 0 <= i < |freq| => Resonance(freq[i], band[i]))
  }

  function Freqs(s: seq<Resonance>): (f: seq<real>)
    ensures |f| == |s| && forall i :: 0 <= i < |s| ==> f[i] == s[i].freq
  {
    seq(|s|, i requires 0 <= i < |s| => s[i].freq)
  }

  function Bands(s: seq<Resonance>): (b: seq<real>)
    ensures |b| == |s| && forall i :: 0 <= i < |s| ==> b[i] == s[i].band
  {
    seq(|s|, i requires 0 <= i < |s| => s[i].band)
  }

  lemma UnzipZip(s: seq<Resonance>)
    ensures Zip(Freqs(s), Bands(s)) == s
  {
  }

  /** `iscomp`: a frequency strictly between 1 Hz and the folding frequency theta. */
  predicate Complex(x: real, theta: real)
  {
    1.0 < x < theta
  }

  /** A formant candidate: strictly between 1 Hz and theta - 1 Hz. */
  predicate Candidate(x: real, theta: real)
  {
    1.0 < x < theta - 1.0
  }

  /**
   * The swap test of the bubble sort with a = freq[ii+1] and b = freq[ii]:
   * a complex pole precedes every real one and every higher complex one.
   */
  predicate Precedes(a: Resonance, b: Resonance, theta: real)
  {
    Complex(a.freq, theta) && (b.freq > a.freq || !Complex(b.freq, theta))
  }

  /** No later entry should precede an earlier one. */
  predicate KeySorted(s: seq<Resonance>, theta: real)
  {
    forall i, j :: 0 <= i < j < |s| ==> !Precedes(s[j], s[i], theta)
  }

  /** Which entries a filter keeps: the real poles, or the formant candidates. */
  datatype Kind = RealPole | FormantCandidate

  predicate Keep(r: Resonance, k: Kind, theta: real)
  {
    match k
    case RealPole => !Complex(r.freq, theta)
    case FormantCandidate => Candidate(r.freq, theta)
  }

  /** The entries of s that kind k keeps, in order. */
  function Filter(s: seq<Resonance>, k: Kind, theta: real): (f: seq<Resonance>)
    ensures |f| <= |s|
    ensures forall i :: 0 <= i < |f| ==> Keep(f[i], k, theta)
  {
    if s == [] then [] else (if Keep(s[0], k, theta) then [s[0]] else []) + Filter(s[1..], k, theta)
  }

  lemma {:induction false} FilterConcat(a: seq<Resonance>, b: seq<Resonance>, k: Kind, theta: real)
    ensures Filter(a + b, k, theta) == Filter(a, k, theta) + Filter(b, k, theta)
    decreases |a|
  {
    if a == [] {
      assert a + b == b;
    } else {
      assert (a + b)[1..] == a[1..] + b;
      FilterConcat(a[1..], b, k, theta);
    }
  }

  lemma FilterPair(x: Resonance, y: Resonance, k: Kind, theta: real)
    ensures Filter([x, y], k, theta) == (if Keep(x, k, theta) then [x] else []) + (if Keep(y, k, theta) then [y] else [])
  {
    assert [x, y][1..] == [y];
    assert [y][1..] == [];
  }

  lemma {:induction false} FilterNone(s: seq<Resonance>, k: Kind, theta: real)
    requires forall i :: 0 <= i < |s| ==> !Keep(s[i], k, theta)
    ensures Filter(s, k, theta) == []
    decreases |s|
  {
    if s != [] {
      FilterNone(s[1..], k, theta);
    }
  }

  /** If the kept entries form a prefix, the filter is that prefix. */
  lemma {:induction false} FilterOfPrefixClosed(s: seq<Resonance>, k: Kind, theta: real)
    requires forall i, j :: 0 <= i < j < |s| && Keep(s[j], k, theta) ==> Keep(s[i], k, theta)
    ensures Filter(s, k, theta) == s[..|Filter(s, k, theta)|]
    decreases |s|
  {
    if s != [] {
      if Keep(s[0], k, theta) {
        FilterOfPrefixClosed(s[1..], k, theta);
      } else {
        FilterNone(s, k, theta);
      }
    }
  }

  /** Adjacent entries i and i+1 exchanged: `std::swap` on both vectors. */
  function Swap(s: seq<Resonance>, i: int): (t: seq<Resonance>)
    requires 0 <= i < |s| - 1
    ensures |t| == |s| && t[i] == s[i + 1] && t[i + 1] == s[i]
    ensures forall p :: 0 <= p < |s| && p != i && p != i + 1 ==> t[p] == s[p]
  {
    s[i := s[i + 1]][i + 1 := s[i]]
  }

  /** Exchanging two neighbours permutes the sequence. */
  lemma SwapPermutes(s: seq<Resonance>, i: int)
    requires 0 <= i < |s| - 1
    ensures multiset(Swap(s, i)) == multiset(s)
  {
    var pre, post := s[..i], s[i + 2..];
    assert s == pre + [s[i], s[i + 1]] + post;
    assert Swap(s, i) == pre + [s[i + 1], s[i]] + post;
    assert multiset([s[i], s[i + 1]]) == multiset([s[i + 1], s[i]]);
  }

  /** A filter of s splits around the neighbours i and i+1, before and after a swap. */
  lemma FilterAroundPair(s: seq<Resonance>, i: int, k: Kind, theta: real)
    requires 0 <= i < |s| - 1
    ensures Filter(s, k, theta) == Filter(s[..i], k, theta) + Filter([s[i], s[i + 1]], k, theta) + Filter(s[i + 2..], k, theta)
    ensures Filter(Swap(s, i), k, theta) == Filter(s[..i], k, theta) + Filter([s[i + 1], s[i]], k, theta) + Filter(s[i + 2..], k, theta)
  {
    var pre, post := s[..i], s[i + 2..];
    assert s == pre + [s[i], s[i + 1]] + post;
    assert Swap(s, i) == pre + [s[i + 1], s[i]] + post;
    FilterConcat(pre + [s[i], s[i + 1]], post, k, theta);
    FilterConcat(pre, [s[i], s[i + 1]], k, theta);
    FilterConcat(pre + [s[i + 1], s[i]], post, k, theta);
    FilterConcat(pre, [s[i + 1], s[i]], k, theta);
  }

  /**
   * A swap the sort makes keeps the order of the real poles (the entry
   * moved forward is complex) and the multiset of candidates.
   */
  lemma SwapKeeps(s: seq<Resonance>, i: int, theta: real)
    requires 0 <= i < |s| - 1 && Complex(s[i + 1].freq, theta)
    ensures Filter(Swap(s, i), RealPole, theta) == Filter(s, RealPole, theta)
    ensures multiset(Filter(Swap(s, i), FormantCandidate, theta)) == multiset(Filter(s, FormantCandidate, theta))
  {
    SwapKeepsRealPoles(s, i, theta);
    SwapKeepsCandidates(s, i, theta);
  }

  lemma SwapKeepsRealPoles(s: seq<Resonance>, i: int, theta: real)
    requires 0 <= i < |s| - 1 && Complex(s[i + 1].freq, theta)
    ensures Filter(Swap(s, i), RealPole, theta) == Filter(s, RealPole, theta)
  {
    FilterAroundPair(s, i, RealPole, theta);
    FilterPair(s[i], s[i + 1], RealPole, theta);
    FilterPair(s[i + 1], s[i], RealPole, theta);
    assert !Keep(s[i + 1], RealPole, theta);
  }

  lemma SwapKeepsCandidates(s: seq<Resonance>, i: int, theta: real)
    requires 0 <= i < |s| - 1
    ensures multiset(Filter(Swap(s, i), FormantCandidate, theta)) == multiset(Filter(s, FormantCandidate, theta))
  {
    var pre, post := Filter(s[..i], FormantCandidate, theta), Filter(s[i + 2..], FormantCandidate, theta);
    var x := Filter([s[i], s[i + 1]], FormantCandidate, theta);
    var y := Filter([s[i + 1], s[i]], FormantCandidate, theta);
    FilterAroundPair(s, i, FormantCandidate, theta);
    FilterPair(s[i], s[i + 1], FormantCandidate, theta);
    FilterPair(s[i + 1], s[i], FormantCandidate, theta);
    assert multiset(x) == multiset(y);
    assert multiset(pre + x + post) == multiset(pre) + multiset(x) + multiset(post);
    assert multiset(pre + y + post) == multiset(pre) + multiset(y) + multiset(post);
  }

  /**
   * s keeps the poles of s0: the same multiset, the real poles in the same
   * order and the same formant candidates.
   */
  predicate Kept(s: seq<Resonance>, s0: seq<Resonance>, theta: real)
  {
    multiset(s) == multiset(s0) && Filter(s, RealPole, theta) == Filter(s0, RealPole, theta) &&
    multiset(Filter(s, FormantCandidate, theta)) == multiset(Filter(s0, FormantCandidate, theta))
  }

  lemma KeptTrans(s2: seq<Resonance>, s1: seq<Resonance>, s0: seq<Resonance>, theta: real)
    requires Kept(s2, s1, theta) && Kept(s1, s0, theta)
    ensures Kept(s2, s0, theta)
  {
  }

  /**
   * One step of the inner loop: entries ii and ii+1 are swapped when the
   * second precedes the first, so the key-largest of s[0..ii+1] moves to ii+1.
   */
  method BubbleStep(s: seq<Resonance>, ii: int, e: int, theta: real) returns (s': seq<Resonance>)
    requires 0 <= ii < e - 1 && e <= |s|
    requires forall p :: 0 <= p <= ii ==> !Precedes(s[ii], s[p], theta)
    ensures |s'| == |s| && s'[e..] == s[e..] && multiset(s'[..e]) == multiset(s[..e]) && Kept(s', s, theta)
    ensures forall p :: 0 <= p <= ii + 1 ==> !Precedes(s'[ii + 1], s'[p], theta)
  {
    s' := s;
    if Precedes(s[ii + 1], s[ii], theta) {
      SwapKeeps(s, ii, theta);
      SwapPermutes(s, ii);
      SwapPermutes(s[..e], ii);
      assert Swap(s, ii)[..e] == Swap(s[..e], ii);
      s' := Swap(s, ii);
    }
  }

  /**
   * One pass of the inner loop over ii = 0 .. e-2: the key-largest entry of
   * s[0..e) ends at e-1; entries from e on are not touched.
   */
  method Pass(s0: seq<Resonance>, e: int, theta: real) returns (s: seq<Resonance>)
    requires 1 <= e <= |s0|
    ensures |s| == |s0| && s[e..] == s0[e..]
    ensures forall p :: 0 <= p < e ==> !Precedes(s[e - 1], s[p], theta)
    ensures multiset(s[..e]) == multiset(s0[..e])
    ensures Kept(s, s0, theta)
  {
    s := s0;
    var ii := 0;
    while ii < e - 1
      invariant 0 <= ii <= e - 1 && |s| == |s0| && s[e..] == s0[e..]
      invariant forall p :: 0 <= p <= ii ==> !Precedes(s[ii], s[p], theta)
      invariant multiset(s[..e]) == multiset(s0[..e])
      invariant Kept(s, s0, theta)
    {
      var s1 := BubbleStep(s, ii, e, theta);
      KeptTrans(s1, s, s0, theta);
      s := s1;
      ii := ii + 1;
    }
  }

  /**
   * After a pass over s[0..m): the suffix from m is in order, and none of
   * its entries precedes an entry before m.
   */
  predicate SortedFrom(s: seq<Resonance>, m: nat, theta: real)
  {
    (forall p, q :: m <= p < q < |s| ==> !Precedes(s[q], s[p], theta)) &&
    (forall p, q :: 0 <= p < m <= q < |s| ==> !Precedes(s[q], s[p], theta))
  }

  /** A pass over s[0..e) that leaves its key-largest entry at e-1 extends the sorted suffix by one. */
  lemma PassExtends(prev: seq<Resonance>, s: seq<Resonance>, e: int, theta: real)
    requires 1 <= e <= |prev| == |s| && s[e..] == prev[e..]
    requires multiset(s[..e]) == multiset(prev[..e])
    requires forall p :: 0 <= p < e ==> !Precedes(s[e - 1], s[p], theta)
    requires SortedFrom(prev, e, theta)
    ensures SortedFrom(s, e - 1, theta)
  {
    forall p, q | 0 <= p < e <= q < |s|
      ensures !Precedes(s[q], s[p], theta)
    {
      assert s[p] in multiset(s[..e]);
      var p0 :| 0 <= p0 < e && s[p] == prev[p0];
      assert s[q] == prev[q];
    }
    forall p, q | e <= p < q < |s|
      ensures !Precedes(s[q], s[p], theta)
    {
      assert s[q] == prev[q] && s[p] == prev[p];
    }
  }

  /** Entries before the sorted suffix that do not precede one another leave the whole sequence sorted. */
  lemma SortedFromStart(s: seq<Resonance>, theta: real)
    requires |s| <= 1 || SortedFrom(s, 1, theta)
    ensures KeySorted(s, theta)
  {
  }

  /** In key order, the complex poles come first, in ascending frequency. */
  lemma ComplexFirst(s: seq<Resonance>, theta: real)
    requires KeySorted(s, theta)
    ensures forall i, j :: 0 <= i < j < |s| && Complex(s[j].freq, theta) ==>
      Complex(s[i].freq, theta) && s[i].freq <= s[j].freq
  {
    forall i, j | 0 <= i < j < |s| && Complex(s[j].freq, theta)
      ensures Complex(s[i].freq, theta) && s[i].freq <= s[j].freq
    {
      assert !Precedes(s[j], s[i], theta);
    }
  }

  /**
   * The bubble sort: complex poles first in ascending frequency, the real
   * poles after them in their original order, every pole kept with its
   * bandwidth.
   */
  method BubbleSort(s0: seq<Resonance>, theta: real) returns (s: seq<Resonance>)
    ensures |s| == |s0| && multiset(s) == multiset(s0)
    ensures KeySorted(s, theta)
    ensures forall i, j :: 0 <= i < j < |s| && Complex(s[j].freq, theta) ==>
      Complex(s[i].freq, theta) && s[i].freq <= s[j].freq
    ensures Filter(s, RealPole, theta) == Filter(s0, RealPole, theta)
    ensures multiset(Filter(s, FormantCandidate, theta)) == multiset(Filter(s0, FormantCandidate, theta))
  {
    s := s0;
    var fc := |s0|;
    var i := 0;
    while i < fc - 1
      invariant 0 <= i <= fc && (fc >= 1 ==> i <= fc - 1) && |s| == fc
      invariant SortedFrom(s, fc - i, theta)
      invariant Kept(s, s0, theta)
    {
      ghost var prev := s;
      s := Pass(s, fc - i, theta);
      PassExtends(prev, s, fc - i, theta);
      KeptTrans(s, prev, s0, theta);
      i := i + 1;
    }
    SortedFromStart(s, theta);
    ComplexFirst(s, theta);
  }

  /** The counting loop: the number of candidates in s. */
  method CountCandidates(s: seq<Resonance>, theta: real) returns (n: int)
    ensures n == |Filter(s, FormantCandidate, theta)|
  {
    n := 0;
    var i := 0;
    while i < |s|
      invariant 0 <= i <= |s|
      invariant n == |Filter(s[..i], FormantCandidate, theta)|
    {
      assert s[..i + 1] == s[..i] + [s[i]];
      FilterConcat(s[..i], [s[i]], FormantCandidate, theta);
      if Candidate(s[i].freq, theta) {
        n := n + 1;
      }
      i := i + 1;
    }
    assert s[..i] == s;
  }

  /** After the sort the candidates are a prefix of the poles. */
  lemma SortedCandidatesFirst(s: seq<Resonance>, theta: real)
    requires KeySorted(s, theta)
    ensures Filter(s, FormantCandidate, theta) == s[..|Filter(s, FormantCandidate, theta)|]
  {
    forall i, j | 0 <= i < j < |s| && Keep(s[j], FormantCandidate, theta)
      ensures Keep(s[i], FormantCandidate, theta)
    {
      assert !Precedes(s[j], s[i], theta);
    }
    FilterOfPrefixClosed(s, FormantCandidate, theta);
  }

  /**
   * One coordinate of the search start points (`trig` is cos for the real
   * parts, sin for the imaginary ones): points spread near the unit circle
   * when `init`, otherwise the zero vector.
   */
  function StartPoints(order: int, init: bool, trig: real -> real): (r: seq<real>)
    requires 0 <= order
    ensures |r| == order + 1
    ensures !init ==> forall i :: 0 <= i <= order ==> r[i] == 0.0
  {
    seq(order + 1, i => if init then 2.0 * trig(((order - i) as real + 0.5) * (PI / (order + 1) as real)) else 0.0)
  }

  /** The root finder writes its roots into the two start vectors, so their lengths are kept. */
  ghost predicate KeepsLength(lbpoly: (seq<real>, int, seq<real>, seq<real>) -> Option<(seq<real>, seq<real>)>)
  {
    forall a, o, x, y :: lbpoly(a, o, x, y).Some? ==>
      |lbpoly(a, o, x, y).value.0| == |x| && |lbpoly(a, o, x, y).value.1| == |y|
  }

  /** The frequency and bandwidth of the root rr + i·ri at sampling rate fs. */
  function ToResonance(re: real, im: real, fs: real, atan2: (real, real) -> real, log: real -> real): (r: Resonance)
    requires fs != 0.0
    ensures r.freq >= 0.0 && r.band >= 0.0
  {
    var pi2t := PI * 2.0 / fs;
    Resonance(RAbs(atan2(im, re) / pi2t), RAbs(0.5 * fs * log(re * re + im * im) / PI))
  }

  /** The root ii and its conjugate ii+1, which the conversion loop skips. */
  predicate ConjugatePair(rr: seq<real>, ri: seq<real>, ii: int)
    requires 0 <= ii && ii + 1 < |rr| && ii + 1 < |ri|
  {
    rr[ii] == rr[ii + 1] && ri[ii] == -ri[ii + 1] && ri[ii] != 0.0
  }

  /**
   * The conversion of roots ii .. order-1: a root at the origin is skipped,
   * every other root gives one pole, and a complex root is taken once for
   * itself and its conjugate.
   */
  function Converted(rr: seq<real>, ri: seq<real>, ii: int, order: int, fs: real,
                     atan2: (real, real) -> real, log: real -> real): (r: seq<Resonance>)
    requires 0 <= ii && 0 <= order && |rr| == order + 1 && |ri| == order + 1 && fs != 0.0
    ensures |r| <= order - ii || (ii >= order && r == [])
    ensures forall p :: 0 <= p < |r| ==> r[p].freq >= 0.0 && r[p].band >= 0.0
    decreases order - ii
  {
    if ii >= order then []
    else if rr[ii] != 0.0 || ri[ii] != 0.0 then
      [ToResonance(rr[ii], ri[ii], fs, atan2, log)] +
      Converted(rr, ri, if ConjugatePair(rr, ri, ii) then ii + 2 else ii + 1, order, fs, atan2, log)
    else Converted(rr, ri, ii + 1, order, fs, atan2, log)
  }

  /** The conversion loop, appending to the poles already in the vectors. */
  method Convert(s0: seq<Resonance>, rr: seq<real>, ri: seq<real>, order: int, fs: real,
                 atan2: (real, real) -> real, log: real -> real) returns (s: seq<Resonance>)
    requires 0 <= order && |rr| == order + 1 && |ri| == order + 1 && fs != 0.0
    ensures s == s0 + Converted(rr, ri, 0, order, fs, atan2, log)
  {
    s := s0;
    var ii := 0;
    while ii < order
      invariant 0 <= ii <= order + 1
      invariant s + Converted(rr, ri, ii, order, fs, atan2, log) == s0 + Converted(rr, ri, 0, order, fs, atan2, log)
      decreases order - ii
    {
      if rr[ii] != 0.0 || ri[ii] != 0.0 {
        s := s + [ToResonance(rr[ii], ri[ii], fs, atan2, log)];
        if ConjugatePair(rr, ri, ii) {
          ii := ii + 1;
        }
      }
      ii := ii + 1;
    }
  }

  /** Ascending frequencies. */
  predicate Ascending(f: seq<real>)
  {
    forall i, j :: 0 <= i < j < |f| ==> f[i] <= f[j]
  }

  /** Every frequency is a formant candidate. */
  predicate AllCandidates(f: seq<real>, theta: real)
  {
    forall i :: 0 <= i < |f| ==> Candidate(f[i], theta)
  }

  /**
   * The sort, the count and the resize: the result is exactly the
   * candidates among the poles, in ascending frequency.
   */
  method Select(poles: seq<Resonance>, theta: real) returns (kept: seq<Resonance>)
    ensures multiset(kept) == multiset(Filter(poles, FormantCandidate, theta))
    ensures Ascending(Freqs(kept)) && AllCandidates(Freqs(kept), theta)
  {
    var sorted := BubbleSort(poles, theta);
    var nForm := CountCandidates(sorted, theta);
    SortedCandidatesFirst(sorted, theta);
    kept := sorted[..nForm];
    assert kept == Filter(sorted, FormantCandidate, theta);
    forall i, j | 0 <= i < j < |kept|
      ensures kept[i].freq <= kept[j].freq
    {
      assert Keep(kept[j], FormantCandidate, theta);
    }
  }

  /**
   * `formant`: when the root finder fails, nForm is 0 and the vectors are
   * untouched.  Otherwise the poles of the roots are appended to the pairs
   * already in freq/band, and the result holds exactly the candidates among
   * all of them, each with its own bandwidth, in ascending frequency.
   */
  method Formant(lpcOrder: int, sFreq: real, lpca: seq<real>, freq: seq<real>, band: seq<real>, init: bool,
                 lbpoly: (seq<real>, int, seq<real>, seq<real>) -> Option<(seq<real>, seq<real>)>,
                 cos: real -> real, sin: real -> real, atan2: (real, real) -> real, log: real -> real)
    returns (ok: bool, nForm: int, freq': seq<real>, band': seq<real>)
    requires 0 <= lpcOrder && sFreq != 0.0 && |freq| == |band| && KeepsLength(lbpoly)
    ensures var roots := lbpoly(lpca, lpcOrder, StartPoints(lpcOrder, init, cos), StartPoints(lpcOrder, init, sin));
      ok <==> roots.Some?
    ensures !ok ==> nForm == 0 && freq' == freq && band' == band
    ensures ok ==> |freq'| == |band'| == nForm
    ensures ok ==> Ascending(freq') && AllCandidates(freq', sFreq / 2.0)
    ensures var roots := lbpoly(lpca, lpcOrder, StartPoints(lpcOrder, init, cos), StartPoints(lpcOrder, init, sin));
      ok ==> multiset(Zip(freq', band')) == multiset(Filter(Zip(freq, band) +
        Converted(roots.value.0, roots.value.1, 0, lpcOrder, sFreq, atan2, log), FormantCandidate, sFreq / 2.0))
  {
    var rr := StartPoints(lpcOrder, init, cos);
    var ri := StartPoints(lpcOrder, init, sin);
    var roots := lbpoly(lpca, lpcOrder, rr, ri);
    if roots.None? {
      return false, 0, freq, band;
    }
    ok := true;
    nForm, freq', band' := FormantsOfRoots(lpcOrder, sFreq, roots.value.0, roots.value.1, freq, band, atan2, log);
  }

  /**
   * The part of `formant` after the root finder succeeds: the poles of the
   * roots appended to the pairs in freq/band, reduced to the candidates in
   * ascending frequency.
   */
  method FormantsOfRoots(lpcOrder: int, sFreq: real, rr: seq<real>, ri: seq<real>, freq: seq<real>, band: seq<real>,
                         atan2: (real, real) -> real, log: real -> real)
    returns (nForm: int, freq': seq<real>, band': seq<real>)
    requires 0 <= lpcOrder && |rr| == lpcOrder + 1 && |ri| == lpcOrder + 1 && sFreq != 0.0 && |freq| == |band|
    ensures |freq'| == |band'| == nForm
    ensures Ascending(freq') && AllCandidates(freq', sFreq / 2.0)
    ensures multiset(Zip(freq', band')) ==
            multiset(Filter(Zip(freq, band) + Converted(rr, ri, 0, lpcOrder, sFreq, atan2, log), FormantCandidate, sFreq / 2.0))
  {
    var poles := Convert(Zip(freq, band), rr, ri, lpcOrder, sFreq, atan2, log);
    var kept := Select(poles, sFreq / 2.0);
    nForm := |kept|;
    freq', band' := Freqs(kept), Bands(kept);
    UnzipZip(kept);
  }
}
