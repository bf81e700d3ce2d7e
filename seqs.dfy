/** Order-preserving selection and first-occurrence de-duplication over sequences. */
module Seqs {

  /** `a` can be obtained from `b` by deleting elements, keeping the order of the rest. */
  predicate IsSubsequence<T(==)>(a: seq<T>, b: seq<T>)
    decreases |b|
  {
    a == [] || (b != [] && ((a[0] == b[0] && IsSubsequence(a[1..], b[1..])) || IsSubsequence(a, b[1..])))
  }

  predicate NoDuplicates<T(==)>(s: seq<T>) {
    forall i, j | 0 <= i < j < |s| :: s[i] != s[j]
  }

  /** Index of the first occurrence of `x` in `s`. */
  function FirstIndex<T(==)>(s: seq<T>, x: T): (k: nat)
    requires x in s
    ensures k < |s| && s[k] == x && x !in s[..k]
  {
    if s[0] == x then 0 else 1 + FirstIndex(s[1..], x)
  }

  /** Kotlin's `distinct()`: the elements of `s`, each once, in the order of their
      first occurrence. Built from the left as a linked hash set is. */
  function Distinct<T(==)>(s: seq<T>): (r: seq<T>)
    ensures NoDuplicates(r)
    ensures forall x | x in r :: x in s
    ensures forall x | x in s :: x in r
    ensures |r| <= |s|
  {
    if s == [] then []
    else
      var init := s[..|s| - 1];
      var last := s[|s| - 1];
      assert s == init + [last];
      var d := Distinct(init);
      if last in d then d else d + [last]
  }

  /** A first occurrence inside a prefix is the first occurrence in the whole sequence. */
  lemma FirstIndexPrefix<T>(s: seq<T>, k: nat, x: T)
    requires k <= |s| && x in s[..k]
    ensures FirstIndex(s, x) == FirstIndex(s[..k], x)
  {
    var i := FirstIndex(s[..k], x);
    assert s[..k][..i] == s[..i];
    FirstIndexUnique(s, x, i);
  }

  /** The first index is the only index holding `x` with no `x` before it. */
  lemma FirstIndexUnique<T>(s: seq<T>, x: T, j: nat)
    requires j < |s| && s[j] == x && x !in s[..j]
    ensures FirstIndex(s, x) == j
  {
  }

  /** The elements of `Distinct(s)` appear in the order in which they first occur in `s`. */
  lemma {:induction false} DistinctFirstOccurrenceOrder<T>(s: seq<T>)
    ensures forall i, j | 0 <= i < j < |Distinct(s)| ::
      FirstIndex(s, Distinct(s)[i]) < FirstIndex(s, Distinct(s)[j])
  {
    if s != [] {
      var init := s[..|s| - 1];
      var last := s[|s| - 1];
      var d, r := Distinct(init), Distinct(s);
      DistinctFirstOccurrenceOrder(init);
      FirstIndicesOfInit(s);
      if last in d {
        assert r == d;
      } else {
        assert r == d + [last];
        LastFirstIndex(s);
        forall i, j | 0 <= i < j < |r| ensures FirstIndex(s, r[i]) < FirstIndex(s, r[j]) {
          assert r[i] == d[i];
          if j < |d| { assert r[j] == d[j]; }
        }
      }
    }
  }

  /** Elements of the prefix keep their first index when one element is appended. */
  lemma FirstIndicesOfInit<T>(s: seq<T>)
    requires s != []
    ensures forall x | x in Distinct(s[..|s| - 1]) ::
      FirstIndex(s, x) == FirstIndex(s[..|s| - 1], x) < |s| - 1
  {
    forall x | x in Distinct(s[..|s| - 1])
      ensures FirstIndex(s, x) == FirstIndex(s[..|s| - 1], x) < |s| - 1
    {
      FirstIndexPrefix(s, |s| - 1, x);
    }
  }

  /** An appended element new to the sequence first occurs at the last index. */
  lemma LastFirstIndex<T>(s: seq<T>)
    requires s != [] && s[|s| - 1] !in Distinct(s[..|s| - 1])
    ensures FirstIndex(s, s[|s| - 1]) == |s| - 1
  {
    assert s[|s| - 1] !in s[..|s| - 1];
  }

  /** De-duplication keeps the elements in their original order. */
  lemma {:induction false} DistinctIsSubsequence<T>(s: seq<T>)
    ensures IsSubsequence(Distinct(s), s)
  {
    if s != [] {
      var init := s[..|s| - 1];
      DistinctIsSubsequence(init);
      SubsequenceExtend(Distinct(init), init, s[|s| - 1]);
      assert init + [s[|s| - 1]] == s;
    }
  }

  /** Appending the same element to both sides, or only to the larger one, keeps a subsequence. */
  lemma {:induction false} SubsequenceExtend<T>(a: seq<T>, b: seq<T>, x: T)
    requires IsSubsequence(a, b)
    ensures IsSubsequence(a, b + [x]) && IsSubsequence(a + [x], b + [x])
  {
    if a == [] {
      assert IsSubsequence([x], [x]) by { assert [x][1..] == []; }
      if b != [] {
        SubsequenceOfEmptyPrefix(b, x);
      }
      assert a + [x] == [x];
    } else {
      assert b != [];
      assert (b + [x])[1..] == b[1..] + [x];
      assert (a + [x])[1..] == a[1..] + [x];
      if a[0] == b[0] && IsSubsequence(a[1..], b[1..]) {
        SubsequenceExtend(a[1..], b[1..], x);
      } else {
        SubsequenceExtend(a, b[1..], x);
      }
    }
  }

  lemma {:induction false} SubsequenceOfEmptyPrefix<T>(b: seq<T>, x: T)
    ensures IsSubsequence([x], b + [x])
  {
    if b == [] {
      assert [x][1..] == [];
    } else {
      assert (b + [x])[1..] == b[1..] + [x];
      SubsequenceOfEmptyPrefix(b[1..], x);
    }
  }
}
