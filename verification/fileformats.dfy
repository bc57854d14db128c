/**
 * String helpers of the audio file format tables (fileformats.cpp):
 * `replaceAll`, the encoding-name normalisation built on it, the linear
 * `contains` search, and the comma-joined read filter.  The format lists
 * themselves come from libsndfile and enter as parameters.
 */
module FileFormats {
  import opened Wrappers

  /** `pat` occurs in `s` starting at index `p`. */
  predicate OccursAt(s: string, pat: string, p: int)
  {
    0 <= p && p + |pat| <= |s| && s[p..p + |pat|] == pat
  }

  /** `s.find(pat, start)`: the first occurrence at or after `start`, None for `npos`. */
  function Find(s: string, pat: string, start: nat): (r: Option<nat>)
    ensures r.Some? ==>
              start <= r.value && OccursAt(s, pat, r.value) &&
              forall q :: start <= q < r.value ==> !OccursAt(s, pat, q)
    ensures r.None? ==> forall q :: start <= q ==> !OccursAt(s, pat, q)
    decreases |s| - start
  {
    if start + |pat| > |s| then None
    else if s[start..start + |pat|] == pat then Some(start)
    else Find(s, pat, start + 1)
  }

  /**
   * Every occurrence of `from` in `s[i..]` replaced by `to`, scanning left
   * to right and resuming after each replacement, so text that the
   * replacement brings in is never rescanned.
   */
  function ReplacedFrom(s: string, from: string, to: string, i: nat): string
    requires |from| > 0 && i <= |s|
    decreases |s| - i
  {
    if i + |from| > |s| then s[i..]
    else if OccursAt(s, from, i) then to + ReplacedFrom(s, from, to, i + |from|)
    else [s[i]] + ReplacedFrom(s, from, to, i + 1)
  }

  /** Every occurrence of `from` in `s` replaced by `to`. */
  function Replaced(s: string, from: string, to: string): string
    requires |from| > 0
  {
    ReplacedFrom(s, from, to, 0)
  }

  lemma OccursShift(a: string, b: string, pat: string, i: nat, j: nat)
    requires i <= |a| && j <= |b| && a[i..] == b[j..]
    ensures OccursAt(a, pat, i) <==> OccursAt(b, pat, j)
  {
    if i + |pat| <= |a| {
      assert a[i..i + |pat|] == a[i..][..|pat|];
      assert b[j..j + |pat|] == b[j..][..|pat|];
    }
  }

  lemma OccursShiftFrom(a: string, b: string, pat: string, i: nat, j: nat, q: nat)
    requires i <= q <= |a| && j <= |b| && a[i..] == b[j..]
    ensures q - i + j <= |b| && a[q..] == b[q - i + j..]
  {
    assert a[q..] == a[i..][q - i..];
    assert b[q - i + j..] == b[j..][q - i..];
  }

  /** From the cursor up to the first occurrence at `p` the text is copied; the occurrence becomes `to`. */
  lemma {:induction false} ReplacedSkip(s: string, from: string, to: string, i: nat, p: nat)
    requires |from| > 0 && i <= p
    requires OccursAt(s, from, p)
    requires forall q :: i <= q < p ==> !OccursAt(s, from, q)
    ensures ReplacedFrom(s, from, to, i) == s[i..p] + to + ReplacedFrom(s, from, to, p + |from|)
    decreases p - i
  {
    if i < p {
      assert !OccursAt(s, from, i);
      ReplacedSkip(s, from, to, i + 1, p);
      var rest := ReplacedFrom(s, from, to, p + |from|);
      calc {
        ReplacedFrom(s, from, to, i);
        [s[i]] + ReplacedFrom(s, from, to, i + 1);
        [s[i]] + (s[i + 1..p] + to + rest);
        { SeqAssoc(s[i..i + 1], s[i + 1..p], to, rest); }
        s[i..i + 1] + s[i + 1..p] + to + rest;
        { assert s[i..i + 1] + s[i + 1..p] == s[i..p]; }
        s[i..p] + to + rest;
      }
    }
  }

  lemma SeqAssoc(a: string, b: string, c: string, d: string)
    ensures a + (b + c + d) == a + b + c + d
  {
  }

  /** Without an occurrence from the cursor on, the rest of the text is copied. */
  lemma {:induction false} ReplacedNoMatch(s: string, from: string, to: string, i: nat)
    requires |from| > 0 && i <= |s|
    requires forall q :: i <= q ==> !OccursAt(s, from, q)
    ensures ReplacedFrom(s, from, to, i) == s[i..]
    decreases |s| - i
  {
    if i + |from| <= |s| {
      assert !OccursAt(s, from, i);
      ReplacedNoMatch(s, from, to, i + 1);
      assert [s[i]] + s[i + 1..] == s[i..];
    }
  }

  /**
   * `replaceAll`: an empty `from` leaves the string alone; otherwise every
   * occurrence is replaced, and the loop ends even when `to` contains `from`.
   */
  method ReplaceAll(str: string, from: string, to: string) returns (str': string)
    ensures |from| == 0 ==> str' == str
    ensures |from| > 0 ==> str' == Replaced(str, from, to)
  {
    str' := str;
    if |from| == 0 {
      return;
    }
    var startPos: nat := 0;
    // `done` is the finished prefix, and the rest of `str'` is `str` from `k` on
    ghost var done, k := [], 0;
    var found := Find(str', from, startPos);
    while found.Some?
      invariant Scanned(str, str', from, to, done, k, Replaced(str, from, to))
      invariant startPos == |done|
      invariant found == Find(str', from, startPos)
      decreases |str| - k
    {
      var p := found.value;
      ghost var cur, done0, k0, p' := str', done, k, p - startPos + k;
      str' := str'[..p] + to + str'[p + |from|..];
      done, k := done + str[k..p'] + to, p' + |from|;
      AdvanceScan(str, cur, from, to, done0, k0, p, p', str', done, k, Replaced(str, from, to));
      startPos := p + |to|;
      found := Find(str', from, startPos);
    }
    forall q | k <= q
      ensures !OccursAt(str, from, q)
    {
      if q <= |str| {
        OccursShiftFrom(str, str', from, k, startPos, q);
        OccursShift(str', str, from, q - k + startPos, q);
      }
    }
    ReplacedNoMatch(str, from, to, k);
  }

  /** The scan's state: `cur` is the finished prefix `done` followed by `str` from `k` on. */
  predicate Scanned(str: string, cur: string, from: string, to: string, done: string, k: nat, result: string)
  {
    |from| > 0 && k <= |str| && cur == done + str[k..] && done + ReplacedFrom(str, from, to, k) == result
  }

  /** One replacement at the first occurrence `p` after the finished prefix keeps the scan's state. */
  lemma AdvanceScan(str: string, cur: string, from: string, to: string, done: string, k: nat, p: nat, p': nat,
                    next: string, done': string, k': nat, result: string)
    requires |from| > 0 && Scanned(str, cur, from, to, done, k, result)
    requires |done| <= p && OccursAt(cur, from, p) && p' == p - |done| + k
    requires forall q :: |done| <= q < p ==> !OccursAt(cur, from, q)
    requires p' + |from| <= |str| ==> next == cur[..p] + to + cur[p + |from|..] && done' == done + str[k..p'] + to
    requires k' == p' + |from|
    ensures k < k' <= |str| && |done'| == p + |to|
    ensures Scanned(str, next, from, to, done', k', result)
  {
    assert cur[|done|..] == str[k..];
    FirstOccurrence(cur, str, from, |done|, k, p);
    assert OccursAt(str, from, p');
    ReplacedStep(str, from, to, done, k, p', done', k', result);
    SplitAround(str, cur, to, done, k, p, p', |from|, next, done');
  }

  /** Replacing the first occurrence at `p` moves the finished prefix past it without changing the result. */
  lemma ReplacedStep(str: string, from: string, to: string, done: string, k: nat, p: nat, done': string, k': nat, result: string)
    requires |from| > 0 && k <= p && OccursAt(str, from, p)
    requires forall q :: k <= q < p ==> !OccursAt(str, from, q)
    requires done + ReplacedFrom(str, from, to, k) == result
    requires done' == done + str[k..p] + to && k' == p + |from|
    ensures k' <= |str| && done' + ReplacedFrom(str, from, to, k') == result
  {
    ReplacedSkip(str, from, to, k, p);
    SeqAssoc(done, str[k..p], to, ReplacedFrom(str, from, to, k'));
  }

  /** Cutting `done + str[k..]` at `p` and at `p + n`, in terms of `str`. */
  lemma SplitAround(str: string, cur: string, to: string, done: string, k: nat, p: nat, p': nat, n: nat, next: string, done': string)
    requires k <= |str| && cur == done + str[k..] && |done| <= p && p + n <= |cur| && p' == p - |done| + k
    requires next == cur[..p] + to + cur[p + n..] && done' == done + str[k..p'] + to
    ensures next == done' + str[p' + n..]
  {
    assert cur[..p] == done + str[k..][..p - |done|];
    assert cur[p + n..] == str[k..][p - |done| + n..];
  }

  /** The first occurrence in `a` from `i` on sits at the same distance as the first in `b` from `j`, when the rests agree. */
  lemma FirstOccurrence(a: string, b: string, pat: string, i: nat, j: nat, p: nat)
    requires i <= p && i <= |a| && j <= |b| && a[i..] == b[j..]
    requires OccursAt(a, pat, p) && forall q :: i <= q < p ==> !OccursAt(a, pat, q)
    ensures OccursAt(b, pat, p - i + j) && forall q :: j <= q < p - i + j ==> !OccursAt(b, pat, q)
  {
    OccursShiftFrom(a, b, pat, i, j, p);
    OccursShift(a, b, pat, p, p - i + j);
    forall q | j <= q < p - i + j
      ensures !OccursAt(b, pat, q)
    {
      OccursShiftFrom(a, b, pat, i, j, q - j + i);
      OccursShift(a, b, pat, q - j + i, q);
    }
  }

  /** The result of `normalizeName`: "8 bit", "16 bit", "24 bit", "32 bit", "64 bit" become "N-bit", in that order. */
  function Normalized(name: string): string
  {
    var n := Replaced(name, "8 bit", "8-bit");
    var n := Replaced(n, "16 bit", "16-bit");
    var n := Replaced(n, "24 bit", "24-bit");
    var n := Replaced(n, "32 bit", "32-bit");
    Replaced(n, "64 bit", "64-bit")
  }

  /** `normalizeName`. */
  method NormalizeName(name: string) returns (n: string)
    ensures n == Normalized(name)
  {
    n := name;
    n := ReplaceAll(n, "8 bit", "8-bit");
    n := ReplaceAll(n, "16 bit", "16-bit");
    n := ReplaceAll(n, "24 bit", "24-bit");
    n := ReplaceAll(n, "32 bit", "32-bit");
    n := ReplaceAll(n, "64 bit", "64-bit");
  }

  /** A name in which " bit" never occurs is not changed by the normalisation. */
  lemma NormalizedWithoutBit(name: string)
    requires forall q :: !OccursAt(name, " bit", q)
    ensures Normalized(name) == name
  {
    forall q | 0 <= q ensures !OccursAt(name, "8 bit", q) {
      if q + 5 <= |name| {
        assert name[q + 1..q + 5] == name[q..q + 5][1..];
        assert !OccursAt(name, " bit", q + 1);
      }
    }
    ReplacedNoMatch(name, "8 bit", "8-bit", 0);
    NoDigitPair(name, "16 bit", "16-bit");
    NoDigitPair(name, "24 bit", "24-bit");
    NoDigitPair(name, "32 bit", "32-bit");
    NoDigitPair(name, "64 bit", "64-bit");
  }

  /** A pattern whose first character appears nowhere it could start does not occur. */
  lemma NoOccurrence(s: string, pat: string)
    requires |pat| > 0 && forall q :: 0 <= q && q + |pat| <= |s| ==> s[q] != pat[0]
    ensures forall q :: !OccursAt(s, pat, q)
  {
    forall q
      ensures !OccursAt(s, pat, q)
    {
      if 0 <= q && q + |pat| <= |s| {
        assert s[q..q + |pat|][0] == s[q];
      }
    }
  }

  /** libsndfile's "16 bit" spelling becomes "16-bit", and no other pattern touches it. */
  lemma NormalizedSixteenBit()
    ensures Normalized("16 bit") == "16-bit"
  {
    NoOccurrence("16 bit", "8 bit");
    ReplacedNoMatch("16 bit", "8 bit", "8-bit", 0);
    assert OccursAt("16 bit", "16 bit", 0);
    assert ReplacedFrom("16 bit", "16 bit", "16-bit", 6) == [];
    NoOccurrence("16-bit", "24 bit");
    ReplacedNoMatch("16-bit", "24 bit", "24-bit", 0);
    NoOccurrence("16-bit", "32 bit");
    ReplacedNoMatch("16-bit", "32 bit", "32-bit", 0);
    NoOccurrence("16-bit", "64 bit");
    ReplacedNoMatch("16-bit", "64 bit", "64-bit", 0);
  }

  lemma NoDigitPair(name: string, pat: string, to: string)
    requires |pat| == 6 && pat[2..] == " bit"
    requires forall q :: !OccursAt(name, " bit", q)
    ensures Replaced(name, pat, to) == name
  {
    forall q | 0 <= q ensures !OccursAt(name, pat, q) {
      if q + 6 <= |name| {
        assert name[q + 2..q + 6] == name[q..q + 6][2..];
        assert !OccursAt(name, " bit", q + 2);
      }
    }
    ReplacedNoMatch(name, pat, to, 0);
  }

  /**
   * `contains`: the first index holding `elem`, written to `*index` only
   * when there is one.
   */
  method Contains<T(==)>(list: seq<T>, elem: T, index: int) returns (found: bool, index': int)
    ensures found <==> elem in list
    ensures found ==> 0 <= index' < |list| && list[index'] == elem && elem !in list[..index']
    ensures !found ==> index' == index
  {
    index' := index;
    var i := 0;
    while i < |list|
      invariant 0 <= i <= |list|
      invariant elem !in list[..i]
    {
      if list[i] == elem {
        return true, i;
      }
      assert list[..i + 1] == list[..i] + [list[i]];
      i := i + 1;
    }
    assert list[..i] == list;
    return false, index;
  }

  /** `std::accumulate(next(xs.begin()), xs.end(), xs[0], a + "," + b)`. */
  function Join(xs: seq<string>): string
    requires |xs| >= 1
    decreases |xs|
  {
    if |xs| == 1 then xs[0] else Join(xs[..|xs| - 1]) + "," + xs[|xs| - 1]
  }

  /** The index of the last comma in `s[..n]`. */
  function LastCommaBefore(s: string, n: nat): (r: Option<nat>)
    requires n <= |s|
    ensures r.Some? ==> r.value < n && s[r.value] == ',' && forall k :: r.value < k < n ==> s[k] != ','
    ensures r.None? ==> forall k :: 0 <= k < n ==> s[k] != ','
  {
    if n == 0 then None
    else if s[n - 1] == ',' then Some(n - 1)
    else LastCommaBefore(s, n - 1)
  }

  function LastComma(s: string): Option<nat>
  {
    LastCommaBefore(s, |s|)
  }

  /** Splitting at every comma, the inverse of Join for comma-free items. */
  function Split(s: string): (r: seq<string>)
    ensures |r| >= 1
    decreases |s|
  {
    match LastComma(s)
    case None => [s]
    case Some(k) => Split(s[..k]) + [s[k + 1..]]
  }

  /** Joining comma-free items and splitting the result at the commas gives the items back. */
  lemma {:induction false} SplitJoin(xs: seq<string>)
    requires |xs| >= 1
    requires forall i :: 0 <= i < |xs| ==> ',' !in xs[i]
    ensures Split(Join(xs)) == xs
    decreases |xs|
  {
    if |xs| > 1 {
      var init, last := xs[..|xs| - 1], xs[|xs| - 1];
      var j := Join(init);
      var s := j + "," + last;
      assert s[|j| + 1..] == last;
      assert LastComma(s) == Some(|j|) by {
        LastCommaOfJoin(j, last);
      }
      assert s[..|j|] == j;
      SplitJoin(init);
      assert init + [last] == xs;
    }
  }

  lemma LastCommaOfJoin(j: string, last: string)
    requires ',' !in last
    ensures LastComma(j + "," + last) == Some(|j|)
  {
    var s := j + "," + last;
    forall k | |j| < k < |s|
      ensures s[k] != ','
    {
      assert s[k] == last[k - |j| - 1];
    }
    LastCommaAt(s, |j|, |s|);
  }

  lemma {:induction false} LastCommaAt(s: string, k: nat, n: nat)
    requires k < n <= |s| && s[k] == ','
    requires forall i :: k < i < n ==> s[i] != ','
    ensures LastCommaBefore(s, n) == Some(k)
    decreases n
  {
    if n - 1 > k {
      LastCommaAt(s, k, n - 1);
    }
  }

  /** The extensions libsndfile does not list but that are often sound files. */
  const ExtraExtensions: seq<string> := [".aif", ".ircam", ".snd", ".svx", ".svx8", ".svx16", ".mp1", ".mp2", ".mp3"]

  function Dotted(extensions: seq<string>): (r: seq<string>)
    ensures |r| == |extensions|
    ensures forall i :: 0 <= i < |r| ==> r[i] == "." + extensions[i]
  {
    seq(|extensions|, i requires 0 <= i < |extensions| => "." + extensions[i])
  }

  /** `getReadFilter` on the libsndfile header extensions `headerExtensions`. */
  function ReadFilter(headerExtensions: seq<string>): (r: string)
    ensures |r| >= 14 && r[..13] == "Audio files {" && r[|r| - 1] == '}'
    ensures r[13..|r| - 1] == Join(Dotted(headerExtensions) + ExtraExtensions)
  {
    "Audio files {" + Join(Dotted(headerExtensions) + ExtraExtensions) + "}"
  }

  /**
   * Between the braces the filter lists the dotted header extensions and
   * then the extra ones, one per comma-separated item, as long as no
   * extension contains a comma itself.
   */
  lemma ReadFilterItems(headerExtensions: seq<string>)
    requires forall i :: 0 <= i < |headerExtensions| ==> ',' !in headerExtensions[i]
    ensures var r := ReadFilter(headerExtensions);
      Split(r[13..|r| - 1]) == Dotted(headerExtensions) + ExtraExtensions
  {
    var exts := Dotted(headerExtensions) + ExtraExtensions;
    forall i | 0 <= i < |exts|
      ensures ',' !in exts[i]
    {
      if i < |headerExtensions| {
        assert exts[i] == "." + headerExtensions[i];
        assert exts[i][1..] == headerExtensions[i];
      }
    }
    SplitJoin(exts);
  }
}
