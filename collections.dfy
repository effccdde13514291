/**
 * Sequence vocabulary shared by the modules: duplicate-freedom and the
 * "keep the first occurrence" de-duplication that both a guarded
 * `if (!xs.includes(x)) xs.push(x)` loop and `[...new Set(xs)]` perform.
 */
module Collections {

  predicate Distinct<T(==)>(s: seq<T>) {
    forall i, j :: 0 <= i < j < |s| ==> s[i] != s[j]
  }

  /** `s` with every element after its first occurrence dropped. */
  function DedupFirst<T(==)>(s: seq<T>): seq<T> {
    if s == [] then []
    else
      var d := DedupFirst(s[..|s| - 1]);
      if s[|s| - 1] in d then d else d + [s[|s| - 1]]
  }

  /** One more element: kept only when it has not been seen before. */
  lemma DedupFirstSnoc<T>(s: seq<T>, x: T)
    ensures DedupFirst(s + [x]) == if x in DedupFirst(s) then DedupFirst(s) else DedupFirst(s) + [x]
  {
    assert (s + [x])[..|s|] == s;
  }

  /** The de-duplicated sequence has no repeats and the same elements as the input. */
  lemma {:induction false} DedupFirstProperties<T>(s: seq<T>)
    ensures Distinct(DedupFirst(s))
    ensures forall x :: x in DedupFirst(s) <==> x in s
  {
    if s != [] {
      var p := s[..|s| - 1];
      DedupFirstProperties(p);
      assert s == p + [s[|s| - 1]];
    }
  }

  /** The lists concatenated in order. */
  function Flatten<T>(ls: seq<seq<T>>): seq<T> {
    if ls == [] then [] else Flatten(ls[..|ls| - 1]) + ls[|ls| - 1]
  }

  lemma FlattenSnoc<T>(ls: seq<seq<T>>, l: seq<T>)
    ensures Flatten(ls + [l]) == Flatten(ls) + l
  {
    assert (ls + [l])[..|ls|] == ls;
  }

  /** An element is in the concatenation exactly when one of the lists holds it. */
  lemma {:induction false} FlattenMembers<T>(ls: seq<seq<T>>, x: T)
    ensures x in Flatten(ls) <==> exists i :: 0 <= i < |ls| && x in ls[i]
  {
    if ls != [] {
      var p, l := ls[..|ls| - 1], ls[|ls| - 1];
      FlattenMembers(p, x);
      assert Flatten(ls) == Flatten(p) + l;
      if x in Flatten(p) {
        var i :| 0 <= i < |p| && x in p[i];
        assert ls[i] == p[i];
      } else if x in l {
        assert x in ls[|ls| - 1];
      } else {
        forall i | 0 <= i < |ls|
          ensures x !in ls[i]
        {
          if i < |p| {
            assert ls[i] == p[i];
          }
        }
      }
    }
  }

  /** `sub` is obtained from `s` by deleting some elements, keeping the order of the rest. */
  predicate IsSubsequence<T(==)>(sub: seq<T>, s: seq<T>)
    decreases |s|
  {
    if sub == [] then true
    else if s == [] then false
    else if sub[|sub| - 1] == s[|s| - 1] then IsSubsequence(sub[..|sub| - 1], s[..|s| - 1])
    else IsSubsequence(sub, s[..|s| - 1])
  }

  lemma SubsequenceSnoc<T>(sub: seq<T>, s: seq<T>, x: T)
    requires IsSubsequence(sub, s)
    ensures IsSubsequence(sub, s + [x]) && IsSubsequence(sub + [x], s + [x])
  {
    assert (s + [x])[..|s|] == s;
    assert (sub + [x])[..|sub|] == sub;
    SubsequenceExtend(sub, s + [x]);
  }

  /** Dropping the last element of `sub` keeps it a subsequence. */
  lemma {:induction false} SubsequenceDrop<T>(sub: seq<T>, s: seq<T>)
    requires sub != [] && IsSubsequence(sub, s)
    ensures IsSubsequence(sub[..|sub| - 1], s)
    decreases |s|, 1
  {
    if sub[|sub| - 1] == s[|s| - 1] {
      SubsequenceExtend(sub[..|sub| - 1], s);
    } else {
      SubsequenceDrop(sub, s[..|s| - 1]);
      SubsequenceExtend(sub[..|sub| - 1], s);
    }
  }

  /** A subsequence of all but the last element of `s` is a subsequence of `s`. */
  lemma {:induction false} SubsequenceExtend<T>(sub: seq<T>, s: seq<T>)
    requires s != [] && IsSubsequence(sub, s[..|s| - 1])
    ensures IsSubsequence(sub, s)
    decreases |s|, 0
  {
    if sub != [] && sub[|sub| - 1] == s[|s| - 1] {
      SubsequenceDrop(sub, s[..|s| - 1]);
    }
  }

  /** The kept first occurrences appear in the input's order. */
  lemma {:induction false} DedupFirstSubsequence<T>(s: seq<T>)
    ensures IsSubsequence(DedupFirst(s), s)
  {
    if s != [] {
      var p := s[..|s| - 1];
      DedupFirstSubsequence(p);
      assert s == p + [s[|s| - 1]];
      SubsequenceSnoc(DedupFirst(p), p, s[|s| - 1]);
    }
  }

  /** Subsequences compose. */
  lemma {:induction false} SubsequenceTransitive<T>(a: seq<T>, b: seq<T>, c: seq<T>)
    requires IsSubsequence(a, b) && IsSubsequence(b, c)
    ensures IsSubsequence(a, c)
    decreases |c|
  {
    if a != [] {
      var c' := c[..|c| - 1];
      if b[|b| - 1] == c[|c| - 1] {
        if a[|a| - 1] == b[|b| - 1] {
          SubsequenceTransitive(a[..|a| - 1], b[..|b| - 1], c');
        } else {
          SubsequenceTransitive(a, b[..|b| - 1], c');
          SubsequenceExtend(a, c);
        }
      } else {
        SubsequenceTransitive(a, b, c');
        SubsequenceExtend(a, c);
      }
    }
  }

  /** The index of the first occurrence of `x` in `s`. */
  function FirstIndex<T(==)>(s: seq<T>, x: T): (i: nat)
    requires x in s
    ensures i < |s| && s[i] == x && x !in s[..i]
  {
    var p := s[..|s| - 1];
    if x in p then
      var i := FirstIndex(p, x);
      assert s[..i] == p[..i];
      i
    else |s| - 1
  }

  lemma FirstIndexSnoc<T>(s: seq<T>, x: T, y: T)
    requires y in s
    ensures FirstIndex(s + [x], y) == FirstIndex(s, y)
  {
    assert (s + [x])[..|s|] == s;
  }

  /** The kept elements come in the order of their first occurrences in the input. */
  lemma {:induction false} DedupFirstOrder<T>(s: seq<T>)
    ensures forall x :: x in DedupFirst(s) ==> x in s
    ensures forall i, j :: 0 <= i < j < |DedupFirst(s)| ==>
              FirstIndex(s, DedupFirst(s)[i]) < FirstIndex(s, DedupFirst(s)[j])
  {
    DedupFirstProperties(s);
    if s != [] {
      var p, x := s[..|s| - 1], s[|s| - 1];
      assert s == p + [x];
      DedupFirstOrder(p);
      DedupFirstProperties(p);
      var d := DedupFirst(p);
      forall y | y in d
        ensures FirstIndex(s, y) == FirstIndex(p, y) < |p|
      {
        FirstIndexSnoc(p, x, y);
      }
      if x !in d {
        assert FirstIndex(s, x) == |p|;
      }
    }
  }
}
