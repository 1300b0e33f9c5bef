/** List utilities: `remove_duplicate` and the order relations used to state its laws. */
module Lists {

  predicate NoDuplicates<T(==)>(s: seq<T>) {
    forall i, j :: 0 <= i < j < |s| ==> s[i] != s[j]
  }

  /** `a` is `b` with some elements left out, in the same order. */
  predicate IsSubsequence<T(==)>(a: seq<T>, b: seq<T>)
    decreases |b|
  {
    || a == []
    || (b != [] && ((a[0] == b[0] && IsSubsequence(a[1..], b[1..])) || IsSubsequence(a, b[1..])))
  }

  /** Appending the same element to both sides keeps a subsequence, as does appending to the longer side. */
  lemma {:induction false} SubsequenceAppend<T>(a: seq<T>, b: seq<T>, x: T)
    requires IsSubsequence(a, b)
    ensures IsSubsequence(a, b + [x])
    ensures IsSubsequence(a + [x], b + [x])
    decreases |b|
  {
    if b == [] {
      assert a == [];
      assert ([x] + [])[1..] == [];
    } else {
      assert (b + [x])[1..] == b[1..] + [x];
      if a == [] {
        SubsequenceAppend(a, b[1..], x);
        assert a + [x] == [x];
      } else {
        assert (a + [x])[1..] == a[1..] + [x];
        if a[0] == b[0] && IsSubsequence(a[1..], b[1..]) {
          SubsequenceAppend(a[1..], b[1..], x);
        } else {
          SubsequenceAppend(a, b[1..], x);
        }
      }
    }
  }

  /** The position of the last occurrence of `x` in `s`. */
  function LastIndex<T(==)>(s: seq<T>, x: T): (k: nat)
    requires x in s
    ensures k < |s| && s[k] == x && x !in s[k + 1..]
  {
    if x in s[1..] then
      var k' := LastIndex(s[1..], x);
      assert s[1..][k' + 1..] == s[k' + 2..];
      1 + k'
    else 0
  }

  /**
   * `[i for n, i in enumerate(s) if i not in s[n + 1:]]`: an element is kept
   * exactly when it does not occur again later, so the LAST copy survives.
   */
  function RemoveDuplicates<T(==,!new)>(s: seq<T>): (r: seq<T>)
    ensures forall x :: x in r <==> x in s
    ensures NoDuplicates(r)
  {
    if s == [] then []
    else if s[0] in s[1..] then RemoveDuplicates(s[1..])
    else [s[0]] + RemoveDuplicates(s[1..])
  }

  /** The kept copies stand in the order of their last occurrences in the input. */
  lemma {:induction false} RemoveDuplicatesKeepsLastOccurrences<T(!new)>(s: seq<T>)
    ensures forall i, j :: 0 <= i < j < |RemoveDuplicates(s)| ==>
      LastIndex(s, RemoveDuplicates(s)[i]) < LastIndex(s, RemoveDuplicates(s)[j])
  {
    if s != [] {
      RemoveDuplicatesKeepsLastOccurrences(s[1..]);
    }
  }

  /** The result keeps input order. */
  lemma {:induction false} RemoveDuplicatesIsSubsequence<T(!new)>(s: seq<T>)
    ensures IsSubsequence(RemoveDuplicates(s), s)
  {
    if s != [] {
      RemoveDuplicatesIsSubsequence(s[1..]);
      if s[0] !in s[1..] {
        assert ([s[0]] + RemoveDuplicates(s[1..]))[1..] == RemoveDuplicates(s[1..]);
      }
    }
  }

  /** `[a, b, a]` becomes `[b, a]`: the last copy survives. */
  lemma RemoveDuplicatesExample<T(!new)>(a: T, b: T)
    requires a != b
    ensures RemoveDuplicates([a, b, a]) == [b, a]
  {
    assert [a, b, a][1..] == [b, a];
    assert [b, a][1..] == [a];
    assert [a][1..] == [];
    assert RemoveDuplicates([a]) == [a];
    assert RemoveDuplicates([b, a]) == [b] + [a];
  }

  /** A list without repeats comes back unchanged. */
  lemma {:induction false} RemoveDuplicatesOfDistinct<T(!new)>(s: seq<T>)
    requires NoDuplicates(s)
    ensures RemoveDuplicates(s) == s
  {
    if s != [] {
      assert s[0] !in s[1..] by {
        forall k | 0 <= k < |s[1..]| ensures s[1..][k] != s[0] {
          assert s[1..][k] == s[k + 1];
        }
      }
      RemoveDuplicatesOfDistinct(s[1..]);
      assert [s[0]] + s[1..] == s;
    }
  }
}
