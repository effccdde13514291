/**
 * src/lib/reciters.ts: the catalogue record shapes and `parseSuras`, which
 * expands a read's surah list such as "1,3-5,9" into the numbers it names.
 */
module Reciters {
  import opened Wrappers
  import opened Text

  /** One recitation series of a reciter; `suras` is its raw surah list. */
  datatype Read = Read(id: int, name: string, url: string, rewaya: string, suras: string, letter: Option<string>)

  /** A reciter; `readList` is the record's `reads` field (a keyword in Dafny). */
  datatype Reciter = Reciter(id: int, name: string, photo: Option<string>, profile: Option<string>, readList: Option<seq<Read>>)

  /** The integers a, a+1, ..., b (empty when a > b). */
  function Interval(a: int, b: int): (r: seq<int>)
    decreases b - a
    ensures |r| == if a <= b then b - a + 1 else 0
    ensures forall k :: 0 <= k < |r| ==> r[k] == a + k
  {
    if a > b then [] else [a] + Interval(a + 1, b)
  }

  /** What a range token contributes once its two bounds have been read. */
  function BoundsIds(start: Option<nat>, end: Option<nat>): (r: seq<int>)
    ensures forall k :: 0 <= k < |r| ==> r[k] >= 0
  {
    if start.Some? && end.Some? && start.value <= end.value then Interval(start.value, end.value) else []
  }

  /** What a trimmed token contributes. */
  function TrimmedTokenIds(t: string): (r: seq<int>)
    ensures forall k :: 0 <= k < |r| ==> r[k] >= 0
  {
    if '-' in t then
      SplitCount(t, '-');
      var parts := Split(t, '-');
      BoundsIds(ToNumber(parts[0]), ToNumber(parts[1]))
    else
      match ToNumber(t)
      case Some(n) => [n]
      case None => []
  }

  lemma IntervalSnoc(a: int, b: int)
    requires a <= b + 1
    ensures Interval(a, b + 1) == Interval(a, b) + [b + 1]
  {
    assert Interval(a, b + 1) == Interval(a, b) + [b + 1];
  }

  /**
   * What one comma-separated token contributes: a token holding '-' is a
   * range built from its first two '-'-separated parts, any other token a
   * single number; a part that is not a number, or a reversed range,
   * contributes nothing.
   */
  function TokenIds(token: string): (r: seq<int>)
    ensures forall k :: 0 <= k < |r| ==> r[k] >= 0
  {
    TrimmedTokenIds(Trim(token))
  }

  /** The tokens' contributions, concatenated in token order. */
  function TokensIds(tokens: seq<string>): seq<int> {
    if tokens == [] then [] else TokensIds(tokens[..|tokens| - 1]) + TokenIds(tokens[|tokens| - 1])
  }

  /** The value `parseSuras` returns. */
  function ParseSurasSpec(surasString: string): seq<int> {
    if surasString == [] then [] else TokensIds(Split(surasString, ','))
  }

  /** The counting loop of `parseSuras` that pushes start, start+1, ..., end. */
  method PushRange(surahIds: seq<int>, start: int, end: int) returns (ids: seq<int>)
    ensures ids == surahIds + Interval(start, end)
  {
    ids := surahIds;
    var i := start;
    while i <= end
      invariant start <= i <= if start <= end then end + 1 else start
      invariant ids == surahIds + Interval(start, i - 1)
    {
      IntervalSnoc(start, i - 1);
      ids := ids + [i];
      i := i + 1;
    }
  }

  /** `parseSuras`: a loop over the comma-separated tokens, pushing each token's numbers. */
  method ParseSuras(surasString: string) returns (surahIds: seq<int>)
    ensures surahIds == ParseSurasSpec(surasString)
    ensures surasString == [] ==> surahIds == []
    ensures forall k :: 0 <= k < |surahIds| ==> surahIds[k] >= 0
  {
    if surasString == [] {
      return [];
    }
    var ranges := Split(surasString, ',');
    surahIds := [];
    var k := 0;
    while k < |ranges|
      invariant 0 <= k <= |ranges|
      invariant surahIds == TokensIds(ranges[..k])
    {
      TokensIdsSnoc(ranges, k);
      surahIds := PushToken(surahIds, ranges[k]);
      k := k + 1;
    }
    assert ranges[..k] == ranges;
    NonNegative(ranges);
  }

  /** The `forEach` callback of `parseSuras`: one token's numbers are pushed. */
  method PushToken(surahIds: seq<int>, range: string) returns (ids: seq<int>)
    ensures ids == surahIds + TokenIds(range)
  {
    ids := surahIds;
    var trimmedRange := Trim(range);
    if '-' in trimmedRange {
      SplitCount(trimmedRange, '-');
      var parts := Split(trimmedRange, '-');
      var start, end := ToNumber(parts[0]), ToNumber(parts[1]);
      if start.Some? && end.Some? && start.value <= end.value {
        ids := PushRange(ids, start.value, end.value);
      }
    } else {
      var num := ToNumber(trimmedRange);
      if num.Some? {
        ids := ids + [num.value];
      }
    }
  }

  lemma TokensIdsSnoc(tokens: seq<string>, k: nat)
    requires k < |tokens|
    ensures TokensIds(tokens[..k + 1]) == TokensIds(tokens[..k]) + TokenIds(tokens[k])
  {
    assert tokens[..k + 1][..k] == tokens[..k];
  }

  lemma {:induction false} NonNegative(tokens: seq<string>)
    ensures forall k :: 0 <= k < |TokensIds(tokens)| ==> TokensIds(tokens)[k] >= 0
  {
    if tokens != [] {
      NonNegative(tokens[..|tokens| - 1]);
    }
  }

  /** Concatenating token lists concatenates their contributions. */
  lemma {:induction false} TokensIdsAppend(xs: seq<string>, ys: seq<string>)
    ensures TokensIds(xs + ys) == TokensIds(xs) + TokensIds(ys)
  {
    if ys != [] {
      assert (xs + ys)[..|xs + ys| - 1] == xs + ys[..|ys| - 1];
      TokensIdsAppend(xs, ys[..|ys| - 1]);
    } else {
      assert xs + ys == xs;
    }
  }

  /**
   * The output is the concatenation of the tokens' outputs in order,
   * neither sorted nor de-duplicated: the result for "x,y" is that for x
   * followed by that for y.
   */
  lemma ParseConcat(x: string, y: string)
    requires x != [] && y != []
    ensures ParseSurasSpec(x + "," + y) == ParseSurasSpec(x) + ParseSurasSpec(y)
  {
    SplitAppend(x, y, ',');
    TokensIdsAppend(Split(x, ','), Split(y, ','));
  }

  /** A string without commas is a single token. */
  lemma SingleToken(t: string)
    requires t != [] && ',' !in t
    ensures ParseSurasSpec(t) == TokenIds(t)
  {
    SplitNoSep(t, ',');
    OneToken(t);
  }

  lemma OneToken(t: string)
    ensures TokensIds([t]) == TokenIds(t)
  {
    assert [t][..0] == [];
  }

  /** White space around a token never matters: the token is trimmed first. */
  lemma PaddedToken(w1: string, core: string, w2: string)
    requires AllSpaces(w1) && AllSpaces(w2) && Trimmed(core)
    ensures TokenIds(w1 + core + w2) == TrimmedTokenIds(core)
  {
    TrimPadded(w1, core, w2);
  }

  lemma SplitPair(x: string, y: string, sep: char)
    requires sep !in x && sep !in y
    ensures Split(x + [sep] + y, sep) == [x, y]
  {
    SplitAppend(x, y, sep);
    SplitNoSep(x, sep);
    SplitNoSep(y, sep);
  }

  lemma DigitsOnly(n: nat)
    ensures '-' !in NatToString(n) && ',' !in NatToString(n)
    ensures !IsJsSpace(NatToString(n)[0]) && !IsJsSpace(NatToString(n)[|NatToString(n)| - 1])
  {
    var s := NatToString(n);
    assert forall i :: 0 <= i < |s| ==> IsDigit(s[i]);
  }

  /** The trimmed core "a-b" of a range token reads both bounds. */
  lemma RangeCore(a: nat, b: nat)
    ensures Trimmed(NatToString(a) + "-" + NatToString(b))
    ensures TrimmedTokenIds(NatToString(a) + "-" + NatToString(b)) == BoundsIds(Some(a), Some(b))
  {
    DigitsOnly(a);
    DigitsOnly(b);
    NumberRoundTrip(a);
    NumberRoundTrip(b);
    RangeCoreOf(NatToString(a), NatToString(b), a, b);
  }

  lemma RangeCoreOf(x: string, y: string, a: nat, b: nat)
    requires x != [] && y != [] && '-' !in x && '-' !in y
    requires !IsJsSpace(x[0]) && !IsJsSpace(y[|y| - 1])
    requires ToNumber(x) == Some(a) && ToNumber(y) == Some(b)
    ensures Trimmed(x + "-" + y)
    ensures TrimmedTokenIds(x + "-" + y) == BoundsIds(Some(a), Some(b))
    ensures TokenIds(x + "-" + y) == BoundsIds(Some(a), Some(b))
  {
    var core := x + "-" + y;
    assert core == x + ['-'] + y;
    assert core[|x|] == '-';
    SplitPair(x, y, '-');
    TrimPadded([], core, []);
    assert [] + core + [] == core;
  }

  /**
   * A range token "a-b" (with white space around it) contributes exactly
   * a, a+1, ..., b in ascending order when a <= b, and nothing otherwise.
   */
  lemma RangeToken(w1: string, a: nat, b: nat, w2: string)
    requires AllSpaces(w1) && AllSpaces(w2)
    ensures var r := TokenIds(w1 + NatToString(a) + "-" + NatToString(b) + w2);
      && (a <= b ==> |r| == b - a + 1 && forall k :: 0 <= k < |r| ==> r[k] == a + k)
      && (a > b ==> r == [])
  {
    var core := NatToString(a) + "-" + NatToString(b);
    RangeCore(a, b);
    Regroup(w1, NatToString(a), "-", NatToString(b), w2);
    PaddedToken(w1, core, w2);
  }

  lemma Regroup(w1: string, x: string, m: string, y: string, w2: string)
    ensures w1 + x + m + y + w2 == w1 + (x + m + y) + w2
  {
  }

  /** Only the first two '-'-separated parts of a range token are read: "3-5-7" is "3-5". */
  lemma RangeFirstTwoParts(a: nat, b: nat, rest: string)
    requires Trimmed(rest)
    ensures TokenIds(NatToString(a) + "-" + NatToString(b) + "-" + rest)
         == TokenIds(NatToString(a) + "-" + NatToString(b))
  {
    var sa, sb := NatToString(a), NatToString(b);
    DigitsOnly(a);
    DigitsOnly(b);
    RangeCore(a, b);
    FirstTwoParts(sa, sb, rest);
  }

  /** The '-'-split of "x-y-rest" starts with x and y when neither holds '-'. */
  lemma FirstTwoParts(x: string, y: string, rest: string)
    requires x != [] && y != [] && '-' !in x && '-' !in y
    requires !IsJsSpace(x[0]) && !IsJsSpace(y[|y| - 1]) && Trimmed(rest)
    ensures TokenIds(x + "-" + y + "-" + rest) == TokenIds(x + "-" + y)
  {
    var short := x + "-" + y;
    var long := short + "-" + rest;
    assert Trimmed(short) && Trimmed(long) by {
      assert short == x + ['-'] + y;
      assert short[0] == x[0] && long[0] == x[0];
    }
    assert Split(short, '-') == [x, y] by {
      assert short == x + ['-'] + y;
      SplitPair(x, y, '-');
    }
    assert Split(long, '-') == [x] + ([y] + Split(rest, '-')) by {
      assert long == x + ['-'] + (y + ['-'] + rest);
      SplitAppend(x, y + ['-'] + rest, '-');
      SplitAppend(y, rest, '-');
      SplitNoSep(x, '-');
      SplitNoSep(y, '-');
    }
    TokenOfParts(short, x, y);
    TokenOfParts(long, x, y);
  }

  /** A token "-b" has an empty first part, which `Number` reads as 0, so it is the range 0..b. */
  lemma LeadingHyphen(b: nat)
    ensures TokenIds("-" + NatToString(b)) == Interval(0, b)
  {
    var sb := NatToString(b);
    DigitsOnly(b);
    NumberRoundTrip(b);
    HyphenFirst(sb, b);
  }

  lemma HyphenFirst(y: string, b: nat)
    requires y != [] && '-' !in y && !IsJsSpace(y[|y| - 1]) && ToNumber(y) == Some(b)
    ensures TokenIds("-" + y) == Interval(0, b)
  {
    var t := "-" + y;
    assert Trimmed(t) by {
      assert t[0] == '-' && t[|t| - 1] == y[|y| - 1];
    }
    assert Split(t, '-') == [[], y] by {
      assert t == [] + ['-'] + y;
      SplitPair([], y, '-');
    }
    TokenOfParts(t, [], y);
    assert ToNumber([]) == Some(0) by {
      assert Trim([]) == [];
    }
  }

  /** A trimmed token that holds '-' is the range between its first two parts. */
  lemma TokenOfParts(t: string, x: string, y: string)
    requires Trimmed(t) && |Split(t, '-')| >= 2 && Split(t, '-')[0] == x && Split(t, '-')[1] == y
    ensures TokenIds(t) == BoundsIds(ToNumber(x), ToNumber(y))
  {
    TrimPadded([], t, []);
    assert [] + t + [] == t;
    SplitCount(t, '-');
  }

  /** A range whose side is not a number, or whose bounds are reversed, contributes nothing. */
  lemma MalformedRange(t: string, x: string, y: string)
    requires Trimmed(t) && |Split(t, '-')| >= 2 && Split(t, '-')[0] == x && Split(t, '-')[1] == y
    requires ToNumber(x).None? || ToNumber(y).None? || ToNumber(x).value > ToNumber(y).value
    ensures TokenIds(t) == []
  {
    TokenOfParts(t, x, y);
  }

  /** A token without '-' that is a number contributes exactly that number. */
  lemma NumberToken(w1: string, n: nat, w2: string)
    requires AllSpaces(w1) && AllSpaces(w2)
    ensures TokenIds(w1 + NatToString(n) + w2) == [n]
  {
    DigitsOnly(n);
    PaddedToken(w1, NatToString(n), w2);
    NumberRoundTrip(n);
  }

  /** A token without '-' that is not a number contributes nothing. */
  lemma NonNumericToken(w1: string, core: string, w2: string)
    requires AllSpaces(w1) && AllSpaces(w2) && Trimmed(core)
    requires '-' !in core && !IsDigits(core)
    ensures TokenIds(w1 + core + w2) == []
  {
    PaddedToken(w1, core, w2);
    TrimPadded([], core, []);
    assert [] + core + [] == core;
  }

  lemma OneDigitToken(c: char)
    requires IsDigit(c)
    ensures TokenIds([c]) == [DigitValue(c)]
  {
    assert Trim([c]) == [c];
    assert IsDigits([c]);
    assert DigitsValue([c]) == DigitValue(c) by {
      assert [c][..0] == [];
    }
  }

  lemma EmptyToken()
    ensures TokenIds("") == [0]
  {
    assert Trim("") == "";
  }

  /** The comma splits of the two example lists, each an instance of `SplitThree`. */
  lemma SplitExamples()
    ensures Split("1,2,", ',') == ["1", "2", ""]
    ensures Split("1,3-5,9", ',') == ["1", "3-5", "9"]
  {
    assert "1,2," == "1" + [','] + "2" + [','] + "";
    SplitThree("1", "2", "", ',');
    assert "1,3-5,9" == "1" + [','] + "3-5" + [','] + "9";
    SplitThree("1", "3-5", "9", ',');
  }

  lemma TokensIdsThree(t1: string, t2: string, t3: string)
    ensures TokensIds([t1, t2, t3]) == TokenIds(t1) + TokenIds(t2) + TokenIds(t3)
  {
    assert [t1, t2, t3][..2] == [t1, t2];
    assert [t1, t2][..1] == [t1];
    OneToken(t1);
  }

  /** An empty token counts as 0, as `Number("")` is 0: "1,2," gives [1, 2, 0]. */
  lemma TrailingComma()
    ensures ParseSurasSpec("1,2,") == [1, 2, 0]
  {
    assert [1] + [2] + [0] == [1, 2, 0];
    SplitExamples();
    TokensIdsThree("1", "2", "");
    OneDigitToken('1');
    OneDigitToken('2');
    EmptyToken();
  }

  /** A reversed range such as "5-2" names nothing. */
  lemma ReversedRangeExample()
    ensures ParseSurasSpec("5-2") == []
  {
    RangeToken([], 5, 2, []);
    ReversedOf(NatToString(5), NatToString(2));
  }

  lemma ReversedOf(x: string, y: string)
    requires x == "5" && y == "2" && TokenIds([] + x + "-" + y + []) == []
    ensures ParseSurasSpec("5-2") == []
  {
    assert [] + x + "-" + y + [] == "5-2";
    SingleToken("5-2");
  }

  lemma ThreeToFive()
    ensures TokenIds("3-5") == [3, 4, 5]
  {
    assert "3-5" == ['3'] + "-" + ['5'];
    assert ToNumber(['3']) == Some(3) by { OneDigitNumber('3'); }
    assert ToNumber(['5']) == Some(5) by { OneDigitNumber('5'); }
    RangeCoreOf(['3'], ['5'], 3, 5);
  }

  lemma OneDigitNumber(c: char)
    requires IsDigit(c)
    ensures ToNumber([c]) == Some(DigitValue(c))
  {
    assert TrimStart([c]) == [c];
    assert TrimEnd([c]) == [c];
    assert IsDigits([c]);
    assert [c][..0] == [];
    assert DigitsValue([c]) == DigitsValue([]) * 10 + DigitValue(c);
  }

  lemma SplitThree(a: string, b: string, c: string, sep: char)
    requires sep !in a && sep !in b && sep !in c
    ensures Split(a + [sep] + b + [sep] + c, sep) == [a, b, c]
  {
    assert a + [sep] + b + [sep] + c == a + [sep] + (b + [sep] + c);
    SplitAppend(a, b + [sep] + c, sep);
    SplitPair(b, c, sep);
    SplitNoSep(a, sep);
  }

  /** The example of the surah-list format: "1,3-5,9" gives [1, 3, 4, 5, 9]. */
  lemma MixedExample()
    ensures ParseSurasSpec("1,3-5,9") == [1, 3, 4, 5, 9]
  {
    assert [1] + [3, 4, 5] + [9] == [1, 3, 4, 5, 9];
    SplitExamples();
    TokensIdsThree("1", "3-5", "9");
    OneDigitToken('1');
    OneDigitToken('9');
    ThreeToFive();
    assert ParseSurasSpec("1,3-5,9") == TokensIds(["1", "3-5", "9"]);
    assert TokensIds(["1", "3-5", "9"]) == [1] + [3, 4, 5] + [9];
  }
}
