/** The array primitives the handlers use (indexOf/findIndex, splice, push), stated on sequences. */
module Seqs {
  import opened Values

  predicate NoDuplicates<T(==)>(s: seq<T>)
  {
    forall i, j :: 0 <= i < j < |s| ==> s[i] != s[j]
  }

  /** `indexOf`: the first position holding x, or None where JavaScript returns -1. */
  function IndexOf<T(==)>(s: seq<T>, x: T): (r: Option<nat>)
    ensures r.None? <==> x !in s
    ensures r.Some? ==> r.value < |s| && s[r.value] == x && x !in s[..r.value]
  {
    if |s| == 0 then None
    else if s[0] == x then Some(0)
    else match IndexOf(s[1..], x)
      case None => None
      case Some(k) =>
        assert s[..k + 1] == [s[0]] + s[1..][..k];
        Some(k + 1)
  }

  /** `splice(i, 1)`: the sequence without its i-th element, the rest in their order. */
  function RemoveAt<T>(s: seq<T>, i: nat): (r: seq<T>)
    requires i < |s|
    ensures |r| == |s| - 1
    ensures forall j :: 0 <= j < i ==> r[j] == s[j]
    ensures forall j :: i <= j < |r| ==> r[j] == s[j + 1]
    ensures multiset(r) + multiset{s[i]} == multiset(s)
  {
    assert s == s[..i] + [s[i]] + s[i + 1..];
    s[..i] + s[i + 1..]
  }

  /** The elements of s in the opposite order. */
  function Reverse<T>(s: seq<T>): (r: seq<T>)
    ensures |r| == |s|
    ensures forall k :: 0 <= k < |s| ==> r[k] == s[|s| - 1 - k]
  {
    if s == [] then [] else Reverse(s[1..]) + [s[0]]
  }

  /** A sequence is the part before position i, the element at i and the part after it, and
      removing position i leaves the two parts joined. */
  lemma SplitAt<T>(s: seq<T>, i: nat)
    requires i < |s|
    ensures s == (s[..i] + [s[i]]) + s[i + 1..]
    ensures RemoveAt(s, i) == s[..i] + s[i + 1..]
  {
    assert s == (s[..i] + [s[i]]) + s[i + 1..];
  }

  /** Pushing an element that is not yet present keeps a duplicate-free sequence duplicate-free. */
  lemma PushFresh<T>(s: seq<T>, x: T)
    requires NoDuplicates(s) && x !in s
    ensures NoDuplicates(s + [x])
  {
    forall i, j | 0 <= i < j < |s + [x]|
      ensures (s + [x])[i] != (s + [x])[j]
    {
      if j == |s| {
        assert (s + [x])[i] == s[i];
      }
    }
  }

  /** Splicing out the only occurrence of an element removes it entirely and creates no duplicate. */
  lemma RemoveUnique<T>(s: seq<T>, i: nat)
    requires NoDuplicates(s) && i < |s|
    ensures NoDuplicates(RemoveAt(s, i))
    ensures s[i] !in RemoveAt(s, i)
  {
    var r := RemoveAt(s, i);
    forall k | 0 <= k < |r|
      ensures r[k] != s[i]
    {
      if k < i { assert r[k] == s[k]; } else { assert r[k] == s[k + 1]; }
    }
  }

  /** Pushing a fresh element and then splicing out the first occurrence of it restores the sequence:
      the element is found at the position it was pushed to. */
  lemma PushThenRemove<T>(s: seq<T>, x: T)
    requires x !in s
    ensures IndexOf(s + [x], x) == Some(|s|)
    ensures RemoveAt(s + [x], |s|) == s
  {
    assert (s + [x])[..|s|] == s;
  }

  /** Splicing out position i of a duplicate-free sequence leaves exactly the other elements. */
  lemma RemoveAtMembers<T>(s: seq<T>, i: nat)
    requires NoDuplicates(s) && i < |s|
    ensures forall x :: x in RemoveAt(s, i) <==> x in s && x != s[i]
  {
    var r := RemoveAt(s, i);
    RemoveUnique(s, i);
    forall x | x in s && x != s[i]
      ensures x in r
    {
      var k :| 0 <= k < |s| && s[k] == x;
      if k < i {
        assert r[k] == x;
      } else {
        assert r[k - 1] == x;
      }
    }
  }
}
