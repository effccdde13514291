/**
 * The JavaScript string primitives that the modelled code relies on:
 * `trim`, `split`, `Number(...)` on decimal strings, `toString` of an
 * integer and `padStart`. Strings are sequences of Unicode scalar values.
 */
module Text {
  import opened Wrappers

  /** ECMAScript WhiteSpace and LineTerminator code points: what `trim()` strips and `\s` matches. */
  predicate IsJsSpace(c: char) {
    || c == '\t' || c == '\n' || c == '\U{000B}' || c == '\U{000C}' || c == '\r' || c == ' '
    || c == '\U{00A0}' || c == '\U{1680}' || ('\U{2000}' <= c <= '\U{200A}')
    || c == '\U{2028}' || c == '\U{2029}' || c == '\U{202F}' || c == '\U{205F}'
    || c == '\U{3000}' || c == '\U{FEFF}'
  }

  predicate AllSpaces(s: string) {
    forall i :: 0 <= i < |s| ==> IsJsSpace(s[i])
  }

  /** True when `s` neither starts nor ends with white space (what `trim()` leaves). */
  predicate Trimmed(s: string) {
    s == [] || (!IsJsSpace(s[0]) && !IsJsSpace(s[|s| - 1]))
  }

  function TrimStart(s: string): (r: string)
    ensures |r| <= |s|
    ensures r != [] ==> !IsJsSpace(r[0])
  {
    if s != [] && IsJsSpace(s[0]) then TrimStart(s[1..]) else s
  }

  function TrimEnd(s: string): (r: string)
    ensures |r| <= |s|
    ensures r != [] ==> r[0] == s[0] && !IsJsSpace(r[|r| - 1])
  {
    if s != [] && IsJsSpace(s[|s| - 1]) then TrimEnd(s[..|s| - 1]) else s
  }

  /** `String.prototype.trim`. */
  function Trim(s: string): (r: string)
    ensures Trimmed(r)
    ensures |r| <= |s|
  {
    TrimEnd(TrimStart(s))
  }

  /** `TrimStart` removes a prefix made only of white space. */
  lemma {:induction false} TrimStartSplits(s: string)
    ensures var r := TrimStart(s); s == s[..|s| - |r|] + r && AllSpaces(s[..|s| - |r|])
  {
    if s != [] && IsJsSpace(s[0]) {
      TrimStartSplits(s[1..]);
      var r := TrimStart(s[1..]);
      var w := s[1..][..|s| - 1 - |r|];
      assert s[..|s| - |r|] == [s[0]] + w;
    } else {
      assert s[..0] == [];
    }
  }

  /** `TrimEnd` removes a suffix made only of white space. */
  lemma {:induction false} TrimEndSplits(s: string)
    ensures var r := TrimEnd(s); s == r + s[|r|..] && AllSpaces(s[|r|..])
  {
    if s != [] && IsJsSpace(s[|s| - 1]) {
      var p := s[..|s| - 1];
      TrimEndSplits(p);
      var r := TrimEnd(p);
      assert s[|r|..] == p[|r|..] + [s[|s| - 1]];
    } else {
      assert s[|s|..] == [];
    }
  }

  /** `trim()` splits its input into leading white space, the result and trailing white space. */
  lemma TrimSplits(s: string)
    ensures exists w1, w2 :: AllSpaces(w1) && AllSpaces(w2) && s == w1 + Trim(s) + w2
  {
    TrimStartSplits(s);
    var t := TrimStart(s);
    TrimEndSplits(t);
    var w1, w2 := s[..|s| - |t|], t[|Trim(s)|..];
    Concat3(s, w1, t, Trim(s), w2);
  }

  lemma Concat3(s: string, w1: string, t: string, m: string, w2: string)
    requires s == w1 + t && t == m + w2
    ensures s == w1 + m + w2
  {
  }

  lemma {:induction false} TrimStartPadded(w: string, t: string)
    requires AllSpaces(w)
    requires t == [] || !IsJsSpace(t[0])
    ensures TrimStart(w + t) == t
  {
    if w != [] {
      assert (w + t)[1..] == w[1..] + t;
      TrimStartPadded(w[1..], t);
    }
  }

  lemma {:induction false} TrimEndPadded(t: string, w: string)
    requires AllSpaces(w)
    requires t == [] || !IsJsSpace(t[|t| - 1])
    ensures TrimEnd(t + w) == t
  {
    if w != [] {
      assert (t + w)[..|t + w| - 1] == t + w[..|w| - 1];
      TrimEndPadded(t, w[..|w| - 1]);
    }
  }

  /** Trimming strips exactly the white space around a trimmed core. */
  lemma TrimPadded(w1: string, t: string, w2: string)
    requires AllSpaces(w1) && AllSpaces(w2) && Trimmed(t)
    ensures Trim(w1 + t + w2) == t
  {
    assert w1 + t + w2 == w1 + (t + w2);
    if t == [] {
      assert w1 + t + w2 == (w1 + w2) + [];
      TrimStartPadded(w1 + w2, []);
    } else {
      TrimStartPadded(w1, t + w2);
      TrimEndPadded(t, w2);
    }
  }

  /** `s.split(sep)` for a one-character separator. */
  function Split(s: string, sep: char): (parts: seq<string>)
    ensures |parts| >= 1
  {
    if s == [] then [[]]
    else
      var rest := Split(s[1..], sep);
      assert s == [s[0]] + s[1..];
      if s[0] == sep then [[]] + rest
      else [[s[0]] + rest[0]] + rest[1..]
  }

  /** A split has at least two parts exactly when the separator occurs. */
  lemma {:induction false} SplitCount(s: string, sep: char)
    ensures sep in s <==> |Split(s, sep)| >= 2
  {
    if s != [] {
      SplitCount(s[1..], sep);
      assert s == [s[0]] + s[1..];
    }
  }

  /** No part of a split holds the separator. */
  lemma {:induction false} SplitPartsFree(s: string, sep: char)
    ensures forall i :: 0 <= i < |Split(s, sep)| ==> sep !in Split(s, sep)[i]
  {
    if s != [] {
      SplitPartsFree(s[1..], sep);
      assert s == [s[0]] + s[1..];
    }
  }

  /** `parts.join(sep)`. */
  function Join(parts: seq<string>, sep: char): string {
    if parts == [] then []
    else if |parts| == 1 then parts[0]
    else parts[0] + [sep] + Join(parts[1..], sep)
  }

  /** Splitting then joining on the same separator gives back the string. */
  lemma {:induction false} SplitJoin(s: string, sep: char)
    ensures Join(Split(s, sep), sep) == s
  {
    if s != [] {
      SplitJoin(s[1..], sep);
      var rest := Split(s[1..], sep);
      if s[0] != sep && |rest| > 1 {
        assert ([[s[0]] + rest[0]] + rest[1..])[1..] == rest[1..];
        assert Join(rest, sep) == rest[0] + [sep] + Join(rest[1..], sep);
      }
    }
  }

  /** A string without the separator splits into itself alone. */
  lemma {:induction false} SplitNoSep(s: string, sep: char)
    requires sep !in s
    ensures Split(s, sep) == [s]
  {
    if s != [] {
      assert sep !in s[1..];
      SplitNoSep(s[1..], sep);
      assert [s[0]] + s[1..] == s;
    }
  }

  /** One unfolding of `Split` on a string that starts with the separator. */
  lemma SplitConsSep(t: string, sep: char)
    ensures Split([sep] + t, sep) == [[]] + Split(t, sep)
  {
    assert ([sep] + t)[0] == sep && ([sep] + t)[1..] == t;
  }

  /** One unfolding of `Split` on a string that starts with another character. */
  lemma SplitConsOther(c: char, t: string, sep: char)
    requires c != sep
    ensures Split([c] + t, sep) == [[c] + Split(t, sep)[0]] + Split(t, sep)[1..]
  {
    assert ([c] + t)[0] == c && ([c] + t)[1..] == t;
  }

  /** The list algebra behind one step of `SplitAppend`, for a first character other than the separator. */
  lemma GlueStep(c: char, a: seq<string>, b: seq<string>, d: seq<string>, l: seq<string>, r: seq<string>)
    requires |b| >= 1 && a == b + d
    requires l == [[c] + a[0]] + a[1..] && r == [[c] + b[0]] + b[1..]
    ensures l == r + d
  {
    assert a[0] == b[0] && a[1..] == b[1..] + d;
  }

  lemma SplitAppendStep(c: char, t: string, y: string, sep: char)
    requires Split(t + [sep] + y, sep) == Split(t, sep) + Split(y, sep)
    ensures Split([c] + (t + [sep] + y), sep) == Split([c] + t, sep) + Split(y, sep)
  {
    if c == sep {
      SplitConsSep(t + [sep] + y, sep);
      SplitConsSep(t, sep);
    } else {
      SplitConsOther(c, t + [sep] + y, sep);
      SplitConsOther(c, t, sep);
      GlueStep(c, Split(t + [sep] + y, sep), Split(t, sep), Split(y, sep),
        Split([c] + (t + [sep] + y), sep), Split([c] + t, sep));
    }
  }

  /** Splitting distributes over a separator occurrence. */
  lemma {:induction false} SplitAppend(x: string, y: string, sep: char)
    ensures Split(x + [sep] + y, sep) == Split(x, sep) + Split(y, sep)
  {
    if x == [] {
      assert x + [sep] + y == [sep] + y;
      SplitConsSep(y, sep);
    } else {
      SplitAppend(x[1..], y, sep);
      SplitAppendStep(x[0], x[1..], y, sep);
      assert x + [sep] + y == [x[0]] + (x[1..] + [sep] + y);
      assert x == [x[0]] + x[1..];
    }
  }

  predicate IsDigit(c: char) {
    '0' <= c <= '9'
  }

  predicate IsDigits(s: string) {
    forall i :: 0 <= i < |s| ==> IsDigit(s[i])
  }

  function DigitValue(c: char): nat
    requires IsDigit(c)
  {
    c as int - '0' as int
  }

  /** The decimal value of a digit string (0 for the empty string). */
  function DigitsValue(s: string): nat
    requires IsDigits(s)
  {
    if s == [] then 0 else DigitsValue(s[..|s| - 1]) * 10 + DigitValue(s[|s| - 1])
  }

  /**
   * `Number(s)` as far as this model admits it: white space around the
   * text is ignored, an empty or blank string is 0, a string of decimal
   * digits is its value, and anything else is NaN (None).
   */
  function ToNumber(s: string): (r: Option<nat>)
    ensures r.Some? <==> IsDigits(Trim(s))
    ensures Trim(s) == [] ==> r == Some(0)
  {
    var t := Trim(s);
    if t == [] then Some(0)
    else if IsDigits(t) then Some(DigitsValue(t))
    else None
  }

  function DigitChar(d: nat): (c: char)
    requires d < 10
    ensures IsDigit(c) && DigitValue(c) == d
  {
    ('0' as int + d) as char
  }

  /** `n.toString()` for a non-negative integer. */
  function NatToString(n: nat): (r: string)
    ensures r != [] && IsDigits(r)
    ensures DigitsValue(r) == n
    ensures |r| > 1 ==> r[0] != '0'
  {
    if n < 10 then [DigitChar(n)]
    else
      var r := NatToString(n / 10) + [DigitChar(n % 10)];
      assert r[..|r| - 1] == NatToString(n / 10);
      r
  }

  /** `i.toString()` for any integer. */
  function IntToString(i: int): string {
    if i < 0 then "-" + NatToString(-i) else NatToString(i)
  }

  /** Printing a number and reading it back with `Number` is the identity. */
  lemma NumberRoundTrip(n: nat)
    ensures ToNumber(NatToString(n)) == Some(n)
  {
    var s := NatToString(n);
    assert Trimmed(s);
    TrimPadded([], s, []);
    assert [] + s + [] == s;
  }

  predicate AllZeros(z: string) {
    forall i :: 0 <= i < |z| ==> z[i] == '0'
  }

  /** Leading zeros do not change the value of a digit string. */
  lemma {:induction false} LeadingZeros(z: string, s: string)
    requires AllZeros(z) && IsDigits(s)
    ensures IsDigits(z + s) && DigitsValue(z + s) == DigitsValue(s)
  {
    if s == [] {
      assert z + s == z;
      if z != [] {
        LeadingZeros(z[..|z| - 1], []);
        assert z[..|z| - 1] + [] == z[..|z| - 1];
      }
    } else {
      LeadingZeros(z, s[..|s| - 1]);
      assert (z + s)[..|z + s| - 1] == z + s[..|s| - 1];
    }
  }

  function Repeat(c: char, n: nat): (r: string)
    ensures |r| == n && forall i :: 0 <= i < n ==> r[i] == c
  {
    if n == 0 then [] else [c] + Repeat(c, n - 1)
  }

  /** `s.padStart(width, c)` for a one-character pad string. */
  function PadStart(s: string, width: nat, c: char): (r: string)
    ensures |r| == if |s| >= width then |s| else width
    ensures r[|r| - |s|..] == s
    ensures forall i :: 0 <= i < |r| - |s| ==> r[i] == c
  {
    if |s| >= width then s else Repeat(c, width - |s|) + s
  }

  /**
   * `toLowerCase` on one character, as far as an id can tell: A–Z become
   * a–z, the Kelvin sign U+212A becomes "k", and U+0130 (capital I with dot
   * above) becomes "i" followed by the combining dot U+0307. These are the
   * only characters whose lower case contains an ASCII letter. Every other
   * character is kept as it is.
   */
  function LowerChar(c: char): string {
    if 'A' <= c <= 'Z' then [(c as int + 32) as char]
    else if c == '\U{212A}' then "k"
    else if c == '\U{0130}' then "i\U{0307}"
    else [c]
  }

  /** A character that `LowerChar` leaves as it is. */
  predicate LowerFixed(c: char) {
    !('A' <= c <= 'Z') && c != '\U{212A}' && c != '\U{0130}'
  }

  function ToLowerCase(s: string): string {
    if s == [] then [] else LowerChar(s[0]) + ToLowerCase(s[1..])
  }

  /** Lower-casing leaves no A–Z behind. */
  lemma {:induction false} LowerCaseNoUpper(s: string)
    ensures forall i :: 0 <= i < |ToLowerCase(s)| ==> !('A' <= ToLowerCase(s)[i] <= 'Z')
  {
    if s != [] {
      LowerCaseNoUpper(s[1..]);
      var a, b := LowerChar(s[0]), ToLowerCase(s[1..]);
      assert ToLowerCase(s) == a + b;
      forall i | 0 <= i < |a + b|
        ensures !('A' <= (a + b)[i] <= 'Z')
      {
        if i >= |a| {
          assert (a + b)[i] == b[i - |a|];
        }
      }
    }
  }

  /** Lower-casing a string of characters it does not touch gives it back. */
  lemma {:induction false} LowerCaseFixed(s: string)
    requires forall i :: 0 <= i < |s| ==> LowerFixed(s[i])
    ensures ToLowerCase(s) == s
  {
    if s != [] {
      LowerCaseFixed(s[1..]);
      assert s == [s[0]] + s[1..];
    }
  }
}
