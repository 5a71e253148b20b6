/**
 * Sorting by a string key, the model of Go's slices.SortFunc with a strings.Compare
 * comparator (and of slices.Sort on strings, with the identity as key). Go's sort is not
 * stable, so only sortedness and permutation are promised, not the order of ties.
 */
module Sorting {
  import opened Strings

  /** The elements of s are non-decreasing by key. */
  ghost predicate SortedBy<T>(s: seq<T>, key: T -> string) {
    forall i, j :: 0 <= i < j < |s| ==> Compare(key(s[i]), key(s[j])) <= 0
  }

  /** The elements of s are strictly increasing, hence free of duplicates. */
  ghost predicate StrictlySorted(s: seq<string>) {
    forall i, j :: 0 <= i < j < |s| ==> Compare(s[i], s[j]) < 0
  }

  /** The identity key: strings sorted by themselves. */
  function Itself(s: string): string { s }

  ghost predicate Distinct<T>(s: seq<T>) {
    forall i, j :: 0 <= i < j < |s| ==> s[i] != s[j]
  }

  /** The position of a least element of a[lo..], by key. */
  method MinIndexFrom<T>(a: array<T>, lo: int, key: T -> string) returns (m: int)
    requires 0 <= lo < a.Length
    ensures lo <= m < a.Length
    ensures forall y :: lo <= y < a.Length ==> Compare(key(a[m]), key(a[y])) <= 0
  {
    m := lo;
    var j := lo + 1;
    while j < a.Length
      invariant lo <= m < j <= a.Length
      invariant forall y :: lo <= y < j ==> Compare(key(a[m]), key(a[y])) <= 0
    {
      if Compare(key(a[j]), key(a[m])) < 0 {
        forall y | lo <= y < j
          ensures Compare(key(a[j]), key(a[y])) <= 0
        {
          CompareTransitive(key(a[j]), key(a[m]), key(a[y]));
        }
        m := j;
      } else {
        CompareAntisymmetric(key(a[j]), key(a[m]));
      }
      j := j + 1;
    }
  }

  /** Exchanges a[i] and a[j]. */
  method Swap<T>(a: array<T>, i: int, j: int)
    requires 0 <= i < a.Length && 0 <= j < a.Length
    modifies a
    ensures a[i] == old(a[j]) && a[j] == old(a[i])
    ensures forall k :: 0 <= k < a.Length && k != i && k != j ==> a[k] == old(a[k])
    ensures multiset(a[..]) == old(multiset(a[..]))
  {
    a[i], a[j] := a[j], a[i];
  }

  /** Sorts a in place by key (selection sort). */
  method SortBy<T>(a: array<T>, key: T -> string)
    modifies a
    ensures SortedBy(a[..], key)
    ensures multiset(a[..]) == old(multiset(a[..]))
  {
    var i := 0;
    while i < a.Length
      invariant 0 <= i <= a.Length
      invariant forall x, y :: 0 <= x < y < i ==> Compare(key(a[x]), key(a[y])) <= 0
      invariant forall x, y :: 0 <= x < i <= y < a.Length ==> Compare(key(a[x]), key(a[y])) <= 0
      invariant multiset(a[..]) == old(multiset(a[..]))
    {
      var m := MinIndexFrom(a, i, key);
      Swap(a, i, m);
      i := i + 1;
    }
  }

  lemma {:induction false} DistinctCountsOnce<T>(s: seq<T>, x: T)
    requires Distinct(s)
    ensures multiset(s)[x] <= 1
  {
    if s != [] {
      assert s == [s[0]] + s[1..];
      assert Distinct(s[1..]);
      DistinctCountsOnce(s[1..], x);
      if x == s[0] {
        assert x !in s[1..];
      }
    }
  }

  /** A permutation of a duplicate-free sequence is duplicate-free. */
  lemma DistinctPermutation<T>(s: seq<T>, t: seq<T>)
    requires Distinct(s) && multiset(s) == multiset(t)
    ensures Distinct(t)
  {
    forall i, j | 0 <= i < j < |t|
      ensures t[i] != t[j]
    {
      if t[i] == t[j] {
        assert t == t[..j] + t[j..];
        assert t[i] in t[..j];
        assert multiset(t)[t[i]] >= 2;
        DistinctCountsOnce(s, t[i]);
        assert false;
      }
    }
  }

  /** A sorted duplicate-free sequence of strings is strictly increasing. */
  lemma SortedDistinctIsStrict(s: seq<string>)
    requires SortedBy(s, Itself) && Distinct(s)
    ensures StrictlySorted(s)
  {
  }

  /** The tail of a strictly increasing sequence holds every element but the head. */
  lemma StrictTail(s: seq<string>)
    requires StrictlySorted(s) && s != []
    ensures forall x :: x in s[1..] <==> x in s && x != s[0]
  {
    assert s == [s[0]] + s[1..];
    forall x | x in s[1..]
      ensures x != s[0]
    {
      var i :| 0 <= i < |s[1..]| && s[1..][i] == x;
      assert Compare(s[0], s[i + 1]) < 0;
    }
  }

  /** Two strictly increasing sequences with the same elements are equal. */
  lemma {:induction false} StrictlySortedUnique(s: seq<string>, t: seq<string>)
    requires StrictlySorted(s) && StrictlySorted(t)
    requires forall x :: x in s <==> x in t
    ensures s == t
  {
    if s != [] { assert s[0] in t; }
    if t != [] { assert t[0] in s; }
    if s != [] && t != [] {
      if s[0] != t[0] {
        var i :| 0 <= i < |t| && t[i] == s[0];
        var j :| 0 <= j < |s| && s[j] == t[0];
        assert Compare(t[0], s[0]) < 0;
        assert Compare(s[0], t[0]) < 0;
        CompareAntisymmetric(s[0], t[0]);
        assert false;
      }
      StrictTail(s);
      StrictTail(t);
      assert StrictlySorted(s[1..]) && StrictlySorted(t[1..]);
      StrictlySortedUnique(s[1..], t[1..]);
      assert s == [s[0]] + s[1..];
      assert t == [t[0]] + t[1..];
    }
  }
}
