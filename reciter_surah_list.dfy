/**
 * src/components/person-detail/ReciterSurahList.tsx: merging the surah
 * lists of a reciter's reads, choosing the read that plays a surah,
 * building its audio URL, and the handlers that move the playing markers.
 */
module ReciterSurahList {
  import opened Wrappers
  import opened Text
  import opened Collections
  import opened Reciters
  import opened AudioContext
  import opened Media

  /** Each read's parsed surah list, in read order. */
  function ReadIds(reciterReads: seq<Read>): seq<seq<int>> {
    seq(|reciterReads|, i requires 0 <= i < |reciterReads| => ParseSurasSpec(reciterReads[i].suras))
  }

  /** Every id the reads' surah lists name, read by read, in order and with repeats. */
  function AllParsed(reciterReads: seq<Read>): seq<int> {
    Flatten(ReadIds(reciterReads))
  }

  lemma AllParsedSnoc(reciterReads: seq<Read>, r: nat)
    requires r < |reciterReads|
    ensures AllParsed(reciterReads[..r + 1]) == AllParsed(reciterReads[..r]) + ParseSurasSpec(reciterReads[r].suras)
  {
    assert ReadIds(reciterReads[..r + 1]) == ReadIds(reciterReads[..r]) + [ParseSurasSpec(reciterReads[r].suras)];
    FlattenSnoc(ReadIds(reciterReads[..r]), ParseSurasSpec(reciterReads[r].suras));
  }

  /** An id is in the stream exactly when some read's surah list names it. */
  lemma AllParsedMembers(reciterReads: seq<Read>, x: int)
    ensures x in AllParsed(reciterReads) <==> exists i :: 0 <= i < |reciterReads| && x in ParseSurasSpec(reciterReads[i].suras)
  {
    var ls := ReadIds(reciterReads);
    FlattenMembers(ls, x);
    if x in Flatten(ls) {
      var i :| 0 <= i < |ls| && x in ls[i];
      assert x in ParseSurasSpec(reciterReads[i].suras);
    }
    if exists i :: 0 <= i < |reciterReads| && x in ParseSurasSpec(reciterReads[i].suras) {
      var i :| 0 <= i < |reciterReads| && x in ParseSurasSpec(reciterReads[i].suras);
      assert x in ls[i];
    }
  }

  predicate Ascending(s: seq<int>) {
    forall i, j :: 0 <= i < j < |s| ==> s[i] <= s[j]
  }

  predicate StrictlyAscending(s: seq<int>) {
    forall i, j :: 0 <= i < j < |s| ==> s[i] < s[j]
  }

  /** Inserting into an ascending sequence before the first larger-or-equal element. */
  function Insert(x: int, s: seq<int>): (r: seq<int>)
    requires Ascending(s)
    ensures Ascending(r)
    ensures multiset(r) == multiset(s) + multiset{x}
  {
    if s == [] then [x]
    else if x <= s[0] then [x] + s
    else
      var rest := Insert(x, s[1..]);
      assert s == [s[0]] + s[1..];
      LowerBound(s[0], rest, s[1..], x);
      [s[0]] + rest
  }

  /** A bound on every element of `t` and on `x` bounds every element of a list holding exactly those. */
  lemma LowerBound(lo: int, r: seq<int>, t: seq<int>, x: int)
    requires lo <= x && forall k :: 0 <= k < |t| ==> lo <= t[k]
    requires multiset(r) == multiset(t) + multiset{x}
    ensures forall k :: 0 <= k < |r| ==> lo <= r[k]
  {
    forall k | 0 <= k < |r|
      ensures lo <= r[k]
    {
      assert r[k] in multiset(r);
      if r[k] != x {
        assert r[k] in multiset(t);
      }
    }
  }

  /**
   * `xs.sort((a, b) => a - b)`: the numeric ascending order of the same
   * elements, repeats included.
   */
  function SortAscending(s: seq<int>): (r: seq<int>)
    ensures Ascending(r)
    ensures multiset(r) == multiset(s)
  {
    if s == [] then []
    else
      assert s == [s[0]] + s[1..];
      Insert(s[0], SortAscending(s[1..]))
  }

  lemma {:induction false} DistinctCounts(d: seq<int>, v: int)
    requires Distinct(d)
    ensures multiset(d)[v] <= 1
  {
    if d != [] {
      var p := d[..|d| - 1];
      assert d == p + [d[|d| - 1]];
      DistinctCounts(p, v);
      if d[|d| - 1] == v {
        assert v !in p;
      }
    }
  }

  lemma RepeatCounts(r: seq<int>, i: nat, j: nat)
    requires i < j < |r| && r[i] == r[j]
    ensures multiset(r)[r[i]] >= 2
  {
    assert r == r[..j] + r[j..];
    assert r[i] in r[..j];
    assert r[j] in r[j..];
  }

  /** Sorting a list without repeats gives a strictly ascending list. */
  lemma SortedDistinct(d: seq<int>)
    requires Distinct(d)
    ensures StrictlyAscending(SortAscending(d))
  {
    var r := SortAscending(d);
    forall i, j | 0 <= i < j < |r|
      ensures r[i] < r[j]
    {
      if r[i] == r[j] {
        RepeatCounts(r, i, j);
        DistinctCounts(d, r[i]);
      }
    }
  }

  /** A strictly ascending list is fixed by its elements: the merged list is the only one with its properties. */
  lemma {:induction false} StrictlyAscendingUnique(a: seq<int>, b: seq<int>)
    requires StrictlyAscending(a) && StrictlyAscending(b)
    requires forall x :: x in a <==> x in b
    ensures a == b
  {
    if a != [] || b != [] {
      var w := (a + b)[0];
      assert w in a + b;
      assert w in a && w in b;
      assert a[0] in b && b[0] in a;
      assert a[0] == b[0];
      forall x
        ensures x in a[1..] <==> x in b[1..]
      {
        if x in a[1..] {
          assert x in b && x != b[0];
        }
        if x in b[1..] {
          assert x in a && x != a[0];
        }
      }
      StrictlyAscendingUnique(a[1..], b[1..]);
      assert a == [a[0]] + a[1..] && b == [b[0]] + b[1..];
    }
  }

  /** The inner `ids.forEach`: each id not collected yet is appended. */
  method AppendNew(collected: seq<int>, ghost seen: seq<int>, ids: seq<int>) returns (c: seq<int>)
    requires collected == DedupFirst(seen)
    ensures c == DedupFirst(seen + ids)
  {
    c := collected;
    assert seen + ids[..0] == seen;
    for j := 0 to |ids|
      invariant c == DedupFirst(seen + ids[..j])
    {
      DedupFirstSnoc(seen + ids[..j], ids[j]);
      assert seen + ids[..j + 1] == seen + ids[..j] + [ids[j]];
      if ids[j] !in c {
        c := c + [ids[j]];
      }
    }
    assert ids[..|ids|] == ids;
  }

  /**
   * The id list of `handleSelectReciter`: every read's surah list is
   * parsed and each id not yet collected is appended, then the list is
   * sorted numerically.
   */
  method MergeSurahIds(reciterReads: seq<Read>) returns (allIds: seq<int>)
    ensures forall x :: x in allIds <==> exists i :: 0 <= i < |reciterReads| && x in ParseSurasSpec(reciterReads[i].suras)
    ensures StrictlyAscending(allIds)
    ensures allIds == SortAscending(DedupFirst(AllParsed(reciterReads)))
  {
    var collected: seq<int> := [];
    for r := 0 to |reciterReads|
      invariant collected == DedupFirst(AllParsed(reciterReads[..r]))
    {
      AllParsedSnoc(reciterReads, r);
      var ids := ParseSuras(reciterReads[r].suras);
      collected := AppendNew(collected, AllParsed(reciterReads[..r]), ids);
    }
    assert reciterReads[..|reciterReads|] == reciterReads;
    allIds := SortAscending(collected);
    MergedMembers(reciterReads);
  }

  /** What the merged list holds and in which order. */
  lemma MergedMembers(reciterReads: seq<Read>)
    ensures var m := SortAscending(DedupFirst(AllParsed(reciterReads)));
      && StrictlyAscending(m)
      && forall x :: x in m <==> exists i :: 0 <= i < |reciterReads| && x in ParseSurasSpec(reciterReads[i].suras)
  {
    var d := DedupFirst(AllParsed(reciterReads));
    var m := SortAscending(d);
    DedupFirstProperties(AllParsed(reciterReads));
    SortedDistinct(d);
    forall x
      ensures x in m <==> exists i :: 0 <= i < |reciterReads| && x in ParseSurasSpec(reciterReads[i].suras)
    {
      assert x in m <==> x in multiset(m);
      assert x in d <==> x in multiset(d);
      AllParsedMembers(reciterReads, x);
    }
  }

  /**
   * `reads.find(...)` in `handlePlaySurah`: the position of the first read,
   * in list order, whose parsed surah list contains `surahId`.
   */
  function FirstCovering(reciterReads: seq<Read>, surahId: int): (r: Option<nat>)
    ensures r.Some? ==> r.value < |reciterReads|
  {
    if reciterReads == [] then None
    else if surahId in ParseSurasSpec(reciterReads[0].suras) then Some(0)
    else
      match FirstCovering(reciterReads[1..], surahId)
      case None => None
      case Some(k) => Some(k + 1)
  }

  /** The chosen read covers the surah and no earlier read does; none is chosen exactly when no read covers it. */
  lemma {:induction false} FirstCoveringSpec(reciterReads: seq<Read>, surahId: int)
    ensures var r := FirstCovering(reciterReads, surahId);
      && (r.Some? ==> surahId in ParseSurasSpec(reciterReads[r.value].suras))
      && (r.Some? ==> forall i :: 0 <= i < r.value ==> surahId !in ParseSurasSpec(reciterReads[i].suras))
      && (r.None? <==> forall i :: 0 <= i < |reciterReads| ==> surahId !in ParseSurasSpec(reciterReads[i].suras))
  {
    if reciterReads != [] && surahId !in ParseSurasSpec(reciterReads[0].suras) {
      var rest := reciterReads[1..];
      FirstCoveringSpec(rest, surahId);
      forall i | 1 <= i < |reciterReads|
        ensures reciterReads[i] == rest[i - 1]
      {
      }
    }
  }

  /** Every surah the merged list offers is found by the lookup, so its not-found error cannot come from the list. */
  lemma ListedSurahIsFound(reciterReads: seq<Read>, surahId: int)
    requires surahId in SortAscending(DedupFirst(AllParsed(reciterReads)))
    ensures FirstCovering(reciterReads, surahId).Some?
  {
    MergedMembers(reciterReads);
    FirstCoveringSpec(reciterReads, surahId);
  }

  /** The surah-number field of an audio URL: `surahId.toString().padStart(3, '0')`. */
  function SurahField(surahId: int): string {
    PadStart(IntToString(surahId), 3, '0')
  }

  /** The audio URL of a surah in a read: the read's base URL, the padded number, ".mp3". */
  function AudioUrl(baseUrl: string, surahId: int): string {
    baseUrl + SurahField(surahId) + ".mp3"
  }

  /** For a surah number the field has at least three digits and reads back as the number. */
  lemma SurahFieldDigits(surahId: nat)
    ensures var f := SurahField(surahId);
      && |f| >= 3 && |f| >= |NatToString(surahId)|
      && IsDigits(f) && DigitsValue(f) == surahId
  {
    var d := NatToString(surahId);
    var f := SurahField(surahId);
    var z := f[..|f| - |d|];
    assert f == z + d;
    assert AllZeros(z) by {
      forall i | 0 <= i < |z|
        ensures z[i] == '0'
      {
        assert z[i] == f[i];
      }
    }
    LeadingZeros(z, d);
  }

  /** `AudioUrl` is the base URL, then the digit field, then ".mp3". */
  lemma AudioUrlParts(baseUrl: string, surahId: nat)
    ensures var u := AudioUrl(baseUrl, surahId);
      && u[..|baseUrl|] == baseUrl
      && u[|u| - 4..] == ".mp3"
      && u[|baseUrl|..|u| - 4] == SurahField(surahId)
  {
  }

  /** Two surahs of the same read never share an audio URL. */
  lemma AudioUrlInjective(baseUrl: string, i: nat, j: nat)
    requires AudioUrl(baseUrl, i) == AudioUrl(baseUrl, j)
    ensures i == j
  {
    AudioUrlParts(baseUrl, i);
    AudioUrlParts(baseUrl, j);
    SurahFieldDigits(i);
    SurahFieldDigits(j);
  }

  /** Base "https://x/" and surah 2 give "https://x/002.mp3". */
  lemma AudioUrlExample()
    ensures AudioUrl("https://x/", 2) == "https://x/002.mp3"
  {
    assert NatToString(2) == "2";
    assert SurahField(2) == "002";
  }

  lemma {:induction false} IntervalMembers(a: int, b: int, x: int)
    ensures x in Interval(a, b) <==> a <= x <= b
  {
    if a <= x <= b {
      assert Interval(a, b)[x - a] == x;
    }
  }

  /** A surah list holding one range "a-b" with a <= b names exactly a..b. */
  lemma RangeString(a: nat, b: nat)
    requires a <= b
    ensures ParseSurasSpec(NatToString(a) + "-" + NatToString(b)) == Interval(a, b)
  {
    DigitsOnly(a);
    DigitsOnly(b);
    RangeToken([], a, b, []);
    RangeStringOf(NatToString(a), NatToString(b), a, b);
  }

  lemma RangeStringOf(x: string, y: string, a: nat, b: nat)
    requires ',' !in x && ',' !in y && x != []
    requires var r := TokenIds([] + x + "-" + y + []); |r| == b - a + 1 && forall k :: 0 <= k < |r| ==> r[k] == a + k
    ensures ParseSurasSpec(x + "-" + y) == Interval(a, b)
  {
    var s := x + "-" + y;
    assert [] + x + "-" + y + [] == s;
    assert ',' !in s;
    SingleToken(s);
    IntervalUnique(TokenIds(s), a, b);
  }

  /** A list counting up from `a` with `b - a + 1` elements is the range a..b. */
  lemma IntervalUnique(r: seq<int>, a: int, b: int)
    requires a <= b + 1 && |r| == b - a + 1 && forall k :: 0 <= k < |r| ==> r[k] == a + k
    ensures r == Interval(a, b)
  {
  }

  /** A read with the given surah list; only `url`, `id` and `suras` matter to the resolver. */
  function SampleRead(id: int, url: string, suras: string): Read {
    Read(id, "", url, "", suras, None)
  }

  /** The merge of two reads whose lists are ranges holds the union of the ranges. */
  lemma TwoRangesMerge(r0: Read, r1: Read, a: int, b: int, c: int, d: int)
    requires ParseSurasSpec(r0.suras) == Interval(a, b) && ParseSurasSpec(r1.suras) == Interval(c, d)
    ensures var m := SortAscending(DedupFirst(AllParsed([r0, r1])));
      StrictlyAscending(m) && forall x :: x in m <==> a <= x <= b || c <= x <= d
  {
    ReadIdsPair(r0, r1);
    FlattenPair(Interval(a, b), Interval(c, d));
    UnionOfRanges(Interval(a, b) + Interval(c, d), a, b, c, d);
  }

  lemma ReadIdsPair(r0: Read, r1: Read)
    ensures ReadIds([r0, r1]) == [ParseSurasSpec(r0.suras), ParseSurasSpec(r1.suras)]
  {
  }

  lemma FlattenPair(l0: seq<int>, l1: seq<int>)
    ensures Flatten([l0, l1]) == l0 + l1
  {
    FlattenSnoc([], l0);
    assert [] + [l0] == [l0];
    FlattenSnoc([l0], l1);
  }

  /** Sorting the de-duplicated concatenation of two ranges gives their union in strictly ascending order. */
  lemma UnionOfRanges(all: seq<int>, a: int, b: int, c: int, d: int)
    requires all == Interval(a, b) + Interval(c, d)
    ensures var m := SortAscending(DedupFirst(all));
      StrictlyAscending(m) && forall x :: x in m <==> a <= x <= b || c <= x <= d
  {
    var dd := DedupFirst(all);
    var m := SortAscending(dd);
    DedupFirstProperties(all);
    SortedDistinct(dd);
    forall x
      ensures x in m <==> a <= x <= b || c <= x <= d
    {
      assert x in m <==> x in multiset(m);
      assert x in dd <==> x in multiset(dd);
      IntervalMembers(a, b, x);
      IntervalMembers(c, d, x);
    }
  }

  lemma OneToFive(m: seq<int>)
    requires StrictlyAscending(m) && forall x :: x in m <==> 1 <= x <= 3 || 3 <= x <= 5
    ensures m == [1, 2, 3, 4, 5]
  {
    var expected := [1, 2, 3, 4, 5];
    assert forall x :: x in expected <==> 1 <= x <= 5;
    StrictlyAscendingUnique(m, expected);
  }

  /** Overlapping reads "1-3" and "3-5" merge into [1, 2, 3, 4, 5]. */
  lemma OverlappingReadsMerge()
    ensures SortAscending(DedupFirst(AllParsed([SampleRead(1, "", "1-3"), SampleRead(2, "", "3-5")]))) == [1, 2, 3, 4, 5]
  {
    var r0, r1 := SampleRead(1, "", "1-3"), SampleRead(2, "", "3-5");
    assert NatToString(1) + "-" + NatToString(3) == "1-3";
    assert NatToString(3) + "-" + NatToString(5) == "3-5";
    RangeString(1, 3);
    RangeString(3, 5);
    TwoRangesMerge(r0, r1, 1, 3, 3, 5);
    OneToFive(SortAscending(DedupFirst(AllParsed([r0, r1]))));
  }

  /** With reads "1-5" and "3-10", surah 4 plays from the first read although both cover it. */
  lemma FirstReadWins()
    ensures FirstCovering([SampleRead(1, "", "1-5"), SampleRead(2, "", "3-10")], 4) == Some(0)
  {
    assert NatToString(1) + "-" + NatToString(5) == "1-5";
    RangeString(1, 5);
    IntervalMembers(1, 5, 4);
  }

  /** Surah 114 is not found among reads covering only 1..10. */
  lemma SurahNotCovered()
    ensures FirstCovering([SampleRead(1, "", "1-10")], 114) == None
  {
    assert NatToString(10) == "10";
    assert NatToString(1) + "-" + NatToString(10) == "1-10";
    RangeString(1, 10);
    IntervalMembers(1, 10, 114);
  }

  /** A reciter with the single read 1 at "https://x/" covering "1-2": surah 2 plays "https://x/002.mp3" from read 1. */
  lemma PlayFromSingleRead()
    ensures var rs := [SampleRead(1, "https://x/", "1-2")]; var found := FirstCovering(rs, 2);
      found == Some(0) && rs[found.value].id == 1 && AudioUrl(rs[found.value].url, 2) == "https://x/002.mp3"
  {
    assert NatToString(1) + "-" + NatToString(2) == "1-2";
    RangeString(1, 2);
    IntervalMembers(1, 2, 2);
    AudioUrlExample();
  }

  /** The component's own marker for a playing surah: `${read.id}-${surahId}`. */
  function LocalLabel(readId: int, surahId: int): string {
    IntToString(readId) + "-" + IntToString(surahId)
  }

  /** The shared marker for a playing surah: `surah-${read.id}-${surahId}`. */
  function SharedLabel(readId: int, surahId: int): string {
    "surah-" + LocalLabel(readId, surahId)
  }

  /** The local label of a read and surah number splits back into the two numbers. */
  lemma LocalLabelRoundTrip(readId: nat, surahId: nat)
    ensures var parts := Split(LocalLabel(readId, surahId), '-');
      && |parts| == 2
      && ToNumber(parts[0]) == Some(readId)
      && ToNumber(parts[1]) == Some(surahId)
  {
    var a, b := NatToString(readId), NatToString(surahId);
    DigitsOnly(readId);
    DigitsOnly(surahId);
    assert LocalLabel(readId, surahId) == a + ['-'] + b;
    SplitPair(a, b, '-');
    NumberRoundTrip(readId);
    NumberRoundTrip(surahId);
  }

  /**
   * Different (read, surah) pairs never share a marker, negative ids
   * included: after the optional sign, the read id's digits run up to the
   * first '-', which is the separator.
   */
  lemma LabelsInjective(r1: int, s1: int, r2: int, s2: int)
    requires SharedLabel(r1, s1) == SharedLabel(r2, s2)
    ensures r1 == r2 && s1 == s2
  {
    assert LocalLabel(r1, s1) == SharedLabel(r1, s1)[6..];
    assert LocalLabel(r2, s2) == SharedLabel(r2, s2)[6..];
    IntDashSplit(r1, IntToString(s1), r2, IntToString(s2));
    IntToStringInjective(s1, s2);
  }

  /** A signed number followed by '-' and a rest splits back into the number and the rest. */
  lemma IntDashSplit(r1: int, b1: string, r2: int, b2: string)
    requires IntToString(r1) + "-" + b1 == IntToString(r2) + "-" + b2
    ensures r1 == r2 && b1 == b2
  {
    SameSign(r1, b1, r2, b2);
    var u := if r1 < 0 then "-" else "";
    var n1, n2 := NatToString(if r1 < 0 then -r1 else r1), NatToString(if r2 < 0 then -r2 else r2);
    DigitsOnly(if r1 < 0 then -r1 else r1);
    DigitsOnly(if r2 < 0 then -r2 else r2);
    assert IntToString(r1) == u + n1;
    assert IntToString(r2) == u + n2;
    CommonPrefix(u, n1, b1, n2, b2);
    FirstDashSplit(n1, b1, n2, b2);
    assert DigitsValue(n1) == DigitsValue(n2);
  }

  /** The first character of a signed number shows its sign. */
  lemma SameSign(r1: int, b1: string, r2: int, b2: string)
    requires IntToString(r1) + "-" + b1 == IntToString(r2) + "-" + b2
    ensures r1 < 0 <==> r2 < 0
  {
    var t := IntToString(r1) + "-" + b1;
    assert t[0] == '-' <==> r1 < 0;
    assert t[0] == '-' <==> r2 < 0;
  }

  lemma CommonPrefix(u: string, n1: string, b1: string, n2: string, b2: string)
    requires (u + n1) + "-" + b1 == (u + n2) + "-" + b2
    ensures n1 + "-" + b1 == n2 + "-" + b2
  {
    assert (u + n1) + "-" + b1 == u + (n1 + "-" + b1);
    assert (u + n2) + "-" + b2 == u + (n2 + "-" + b2);
    assert n1 + "-" + b1 == (u + (n1 + "-" + b1))[|u|..];
  }

  /** The position of the first '-' in a text, or its length when there is none. */
  function DashPos(t: string): nat {
    if t == [] || t[0] == '-' then 0 else 1 + DashPos(t[1..])
  }

  lemma {:induction false} DashPosAfter(p: string, q: string)
    requires '-' !in p
    ensures DashPos(p + "-" + q) == |p|
  {
    if p != [] {
      assert (p + "-" + q)[1..] == p[1..] + "-" + q;
      DashPosAfter(p[1..], q);
    }
  }

  /** Two texts of the form p + "-" + q with no '-' in p split the same way. */
  lemma FirstDashSplit(p1: string, q1: string, p2: string, q2: string)
    requires '-' !in p1 && '-' !in p2
    requires p1 + "-" + q1 == p2 + "-" + q2
    ensures p1 == p2 && q1 == q2
  {
    var t := p1 + "-" + q1;
    DashPosAfter(p1, q1);
    DashPosAfter(p2, q2);
    assert p1 == t[..|p1|] == p2;
    assert q1 == t[|p1| + 1..] == q2;
  }

  /** `toString` on integers is injective: the sign shows in the first character. */
  lemma IntToStringInjective(x: int, y: int)
    requires IntToString(x) == IntToString(y)
    ensures x == y
  {
    var nx, ny := NatToString(if x < 0 then -x else x), NatToString(if y < 0 then -y else y);
    assert IntToString(x)[0] == '-' <==> x < 0;
    assert IntToString(y)[0] == '-' <==> y < 0;
    if x < 0 && y < 0 {
      assert nx == IntToString(x)[1..] == ny;
    }
    assert DigitsValue(nx) == DigitsValue(ny);
  }

  const NotFoundMessage: string := "لم يتم العثور على التلاوة لهذه السورة"
  const PlayFailedMessage: string := "فشل في تشغيل السورة"

  /**
   * An audio element created by `handlePlaySurah` together with its three
   * listeners, which capture the read and surah it plays; `listening` is
   * false once `cleanup` has removed them.
   */
  class SurahTrack {
    const audio: AudioElement
    const readId: int
    const surahId: int
    var listening: bool

    constructor (audio: AudioElement, readId: int, surahId: int)
      ensures this.audio == audio && this.readId == readId && this.surahId == surahId && listening
    {
      this.audio := audio;
      this.readId := readId;
      this.surahId := surahId;
      listening := true;
    }
  }

  /**
   * `new Audio(url)` with the three listeners attached, then `play()`;
   * when the promise is rejected, `cleanup` detaches the listeners.
   */
  method StartTrack(url: string, readId: int, surahId: int, playRejected: bool) returns (track: SurahTrack)
    ensures fresh(track) && fresh(track.audio)
    ensures track.audio.src == url && track.readId == readId && track.surahId == surahId
    ensures track.audio.paused == playRejected && track.listening == !playRejected
  {
    var audio := new AudioElement(url);
    track := new SurahTrack(audio, readId, surahId);
    audio.Play(playRejected);
    if playRejected {
      track.listening := false;
    }
  }

  /** The state of the `ReciterSurahList` component while a reciter's surahs are shown. */
  class SurahListView {
    var selectedReciter: Option<Reciter>
    var reciterReads: seq<Read>
    var allSurahIds: seq<int>
    var loading: bool
    var error: Option<string>
    var currentlyPlaying: Option<string>
    var audioElement: Option<SurahTrack>
    /** The provider's shared marker, obtained through `useAudio`. */
    const marker: PlaybackMarker

    /** The surah list is always the merge of the reads on display. */
    ghost predicate Consistent()
      reads this
    {
      allSurahIds == SortAscending(DedupFirst(AllParsed(reciterReads)))
    }

    constructor (marker: PlaybackMarker)
      ensures this.marker == marker
      ensures selectedReciter == None && reciterReads == [] && allSurahIds == []
      ensures loading && error == None && currentlyPlaying == None && audioElement == None
      ensures Consistent()
    {
      this.marker := marker;
      selectedReciter := None;
      reciterReads := [];
      allSurahIds := [];
      loading := true;
      error := None;
      currentlyPlaying := None;
      audioElement := None;
    }

    /**
     * `handleSelectReciter`. `fetched` is the catalogue's answer: the first
     * reciter's reads, or None when the request failed, the status was not
     * OK, the body was not JSON or it named no reads. `getReciterReads`
     * turns every such failure into [], so a failed load shows an empty
     * surah list and no error message.
     */
    method SelectReciter(reciter: Reciter, fetched: Option<seq<Read>>)
      modifies this
      ensures selectedReciter == Some(reciter) && !loading && error == None
      ensures fetched.Some? ==> reciterReads == fetched.value
      ensures fetched.None? ==> reciterReads == [] && allSurahIds == []
      ensures currentlyPlaying == old(currentlyPlaying) && audioElement == old(audioElement)
      ensures Consistent()
    {
      selectedReciter := Some(reciter);
      loading := true;
      error := None;
      var rs := if fetched.Some? then fetched.value else [];
      ShowReads(rs);
      loading := false;
    }

    /** The success path of `handleSelectReciter`: the reads and their merged, sorted surah list are stored. */
    method ShowReads(rs: seq<Read>)
      modifies this
      ensures reciterReads == rs && allSurahIds == SortAscending(DedupFirst(AllParsed(rs)))
      ensures selectedReciter == old(selectedReciter) && loading == old(loading) && error == old(error)
      ensures currentlyPlaying == old(currentlyPlaying) && audioElement == old(audioElement)
    {
      reciterReads := rs;
      allSurahIds := MergeSurahIds(rs);
    }

    /** `handleBackToReciters`: everything about the selected reciter is dropped and nothing plays. */
    method BackToReciters()
      modifies this, marker, if audioElement.Some? then {audioElement.value.audio} else {}
      ensures selectedReciter == None && reciterReads == [] && allSurahIds == []
      ensures audioElement == None
      ensures old(audioElement).Some? ==> old(audioElement).value.audio.paused
      ensures currentlyPlaying == None && marker.currentlyPlayingId == None
      ensures loading == old(loading) && error == old(error)
      ensures Consistent()
    {
      selectedReciter := None;
      reciterReads := [];
      allSurahIds := [];
      if audioElement.Some? {
        audioElement.value.audio.Pause();
        audioElement := None;
      }
      currentlyPlaying := None;
      marker.SetCurrentlyPlayingId(None);
    }

    /**
     * `handlePlaySurah`: `playRejected` says whether the browser rejected
     * the `play()` promise of the new element.
     */
    method PlaySurah(surahId: int, playRejected: bool)
      modifies this, if audioElement.Some? then {audioElement.value.audio} else {}
      ensures var found := FirstCovering(old(reciterReads), surahId);
        && (found.None? ==> error == Some(NotFoundMessage) && audioElement == old(audioElement))
        && (found.None? && old(audioElement).Some? ==> old(audioElement).value.audio.paused == old(audioElement.value.audio.paused))
        && (found.Some? ==> audioElement.Some? && fresh(audioElement.value) && fresh(audioElement.value.audio))
        && (found.Some? ==> var track := audioElement.value; var read := old(reciterReads)[found.value];
              && track.audio.src == AudioUrl(read.url, surahId)
              && track.readId == read.id && track.surahId == surahId
              && track.audio.paused == playRejected
              && track.listening == !playRejected)
        && (found.Some? && old(audioElement).Some? ==> old(audioElement).value.audio.paused)
        && (found.Some? ==> error == if playRejected then Some(PlayFailedMessage) else old(error))
      ensures selectedReciter == old(selectedReciter) && reciterReads == old(reciterReads)
      ensures allSurahIds == old(allSurahIds) && loading == old(loading)
      ensures currentlyPlaying == old(currentlyPlaying)
    {
      var found := FirstCovering(reciterReads, surahId);
      if found.None? {
        error := Some(NotFoundMessage);
        return;
      }
      var read := reciterReads[found.value];
      SwitchTrack(AudioUrl(read.url, surahId), read.id, surahId, playRejected);
    }

    /** The part of `handlePlaySurah` after the read is found: the old element is paused and a new one started. */
    method SwitchTrack(url: string, readId: int, surahId: int, playRejected: bool)
      modifies this, if audioElement.Some? then {audioElement.value.audio} else {}
      ensures audioElement.Some? && fresh(audioElement.value) && fresh(audioElement.value.audio)
      ensures var track := audioElement.value;
        && track.audio.src == url && track.readId == readId && track.surahId == surahId
        && track.audio.paused == playRejected && track.listening == !playRejected
      ensures old(audioElement).Some? ==> old(audioElement).value.audio.paused
      ensures error == if playRejected then Some(PlayFailedMessage) else old(error)
      ensures selectedReciter == old(selectedReciter) && reciterReads == old(reciterReads)
      ensures allSurahIds == old(allSurahIds) && loading == old(loading)
      ensures currentlyPlaying == old(currentlyPlaying)
    {
      if audioElement.Some? {
        audioElement.value.audio.Pause();
      }
      var track := StartTrack(url, readId, surahId, playRejected);
      audioElement := Some(track);
      if playRejected {
        error := Some(PlayFailedMessage);
      }
    }

    /** `handlePauseSurah`: only acts when an element exists. */
    method PauseSurah()
      modifies this, marker, if audioElement.Some? then {audioElement.value.audio} else {}
      ensures old(audioElement).Some? ==>
        (old(audioElement).value.audio.paused && currentlyPlaying == None && marker.currentlyPlayingId == None)
      ensures old(audioElement).None? ==>
        (currentlyPlaying == old(currentlyPlaying) && marker.currentlyPlayingId == old(marker.currentlyPlayingId))
      ensures audioElement == old(audioElement) && selectedReciter == old(selectedReciter)
      ensures reciterReads == old(reciterReads) && allSurahIds == old(allSurahIds)
      ensures error == old(error) && loading == old(loading)
    {
      if audioElement.Some? {
        audioElement.value.audio.Pause();
        currentlyPlaying := None;
        marker.SetCurrentlyPlayingId(None);
      }
    }

    /** The 'play' listener of `track`: both markers name its read and surah. */
    method OnTrackPlay(track: SurahTrack)
      modifies this, marker
      ensures track.listening ==>
        (currentlyPlaying == Some(LocalLabel(track.readId, track.surahId))
         && marker.currentlyPlayingId == Some(SharedLabel(track.readId, track.surahId)))
      ensures !track.listening ==>
        (currentlyPlaying == old(currentlyPlaying) && marker.currentlyPlayingId == old(marker.currentlyPlayingId))
      ensures audioElement == old(audioElement) && selectedReciter == old(selectedReciter)
      ensures reciterReads == old(reciterReads) && allSurahIds == old(allSurahIds)
      ensures error == old(error) && loading == old(loading)
    {
      if track.listening {
        currentlyPlaying := Some(LocalLabel(track.readId, track.surahId));
        marker.SetCurrentlyPlayingId(Some(SharedLabel(track.readId, track.surahId)));
      }
    }

    /** The 'pause' listener of `track`: both markers are cleared, whoever holds the shared one. */
    method OnTrackPause(track: SurahTrack)
      modifies this, marker
      ensures track.listening ==> currentlyPlaying == None && marker.currentlyPlayingId == None
      ensures !track.listening ==>
        (currentlyPlaying == old(currentlyPlaying) && marker.currentlyPlayingId == old(marker.currentlyPlayingId))
      ensures audioElement == old(audioElement) && selectedReciter == old(selectedReciter)
      ensures reciterReads == old(reciterReads) && allSurahIds == old(allSurahIds)
      ensures error == old(error) && loading == old(loading)
    {
      if track.listening {
        currentlyPlaying := None;
        marker.SetCurrentlyPlayingId(None);
      }
    }

    /** The 'ended' listener of `track`: the same transition as 'pause'. */
    method OnTrackEnded(track: SurahTrack)
      modifies this, marker
      ensures track.listening ==> currentlyPlaying == None && marker.currentlyPlayingId == None
      ensures !track.listening ==>
        (currentlyPlaying == old(currentlyPlaying) && marker.currentlyPlayingId == old(marker.currentlyPlayingId))
      ensures audioElement == old(audioElement) && selectedReciter == old(selectedReciter)
      ensures reciterReads == old(reciterReads) && allSurahIds == old(allSurahIds)
      ensures error == old(error) && loading == old(loading)
    {
      OnTrackPause(track);
    }
  }
}
