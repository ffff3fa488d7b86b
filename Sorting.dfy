/**
 * `DataFrame.sort_values(keys, ascending=False)`: an in-place sort of the
 * rows into non-increasing lexicographic order of a key. Rows with equal keys
 * may end in any order (pandas does not promise one either).
 */
module Sorting {

  /** A sort key of up to three integer columns, compared lexicographically. */
  datatype Key = Key(first: int, second: int, third: int)

  /** `a` sorts no later than `b` in descending order. */
  predicate AtLeast(a: Key, b: Key) {
    || a.first > b.first
    || (a.first == b.first && a.second > b.second)
    || (a.first == b.first && a.second == b.second && a.third >= b.third)
  }

  predicate SortedDesc<T>(s: seq<T>, key: T -> Key) {
    forall i, j :: 0 <= i < j < |s| ==> AtLeast(key(s[i]), key(s[j]))
  }

  /** Insertion sort: the rows end sorted by key, descending, and are a permutation of the rows before. */
  method SortDescending<T>(a: array<T>, key: T -> Key)
    modifies a
    ensures SortedDesc(a[..], key)
    ensures multiset(a[..]) == multiset(old(a[..]))
  {
    var i := 0;
    while i < a.Length
      invariant 0 <= i <= a.Length
      invariant SortedDesc(a[..i], key)
      invariant multiset(a[..]) == multiset(old(a[..]))
    {
      InsertInto(a, i, key);
      i := i + 1;
    }
    assert a[..i] == a[..];
  }

  /** Moves `a[i]` down into the sorted prefix `a[..i]`, by adjacent swaps. */
  method InsertInto<T>(a: array<T>, i: nat, key: T -> Key)
    requires i < a.Length
    requires SortedDesc(a[..i], key)
    modifies a
    ensures SortedDesc(a[..i + 1], key)
    ensures multiset(a[..]) == multiset(old(a[..]))
  {
    var j := i;
    while j > 0 && !AtLeast(key(a[j - 1]), key(a[j]))
      invariant 0 <= j <= i
      invariant multiset(a[..]) == multiset(old(a[..]))
      invariant forall p, q :: 0 <= p < q <= i && q != j ==> AtLeast(key(a[p]), key(a[q]))
      invariant 0 < j < i ==> AtLeast(key(a[j - 1]), key(a[j + 1]))
    {
      a[j - 1], a[j] := a[j], a[j - 1];
      j := j - 1;
    }
  }

  /** `[f(x) for x in s]`: one column of a table. */
  function Project<A, B>(s: seq<A>, f: A -> B): (r: seq<B>)
    ensures |r| == |s| && forall k :: 0 <= k < |s| ==> r[k] == f(s[k])
  {
    if s == [] then [] else [f(s[0])] + Project(s[1..], f)
  }

  lemma ProjectAppend<A, B>(s: seq<A>, t: seq<A>, f: A -> B)
    ensures Project(s + t, f) == Project(s, f) + Project(t, f)
  {
  }

  /** Rearranging the rows rearranges every column the same way. */
  lemma {:induction false} ProjectPermutation<A, B>(s: seq<A>, t: seq<A>, f: A -> B)
    requires multiset(s) == multiset(t)
    ensures multiset(Project(s, f)) == multiset(Project(t, f))
    decreases |s|
  {
    assert |s| == |multiset(s)| == |t|;
    if s != [] {
      var x := s[0];
      assert x in multiset(t);
      var k :| 0 <= k < |t| && t[k] == x;
      var rest := t[..k] + t[k + 1..];
      assert t == t[..k] + [x] + t[k + 1..];
      assert s == [x] + s[1..];
      assert multiset(t) == multiset(t[..k]) + multiset{x} + multiset(t[k + 1..]);
      assert multiset(rest) == multiset(t[..k]) + multiset(t[k + 1..]);
      assert multiset(s) == multiset{x} + multiset(s[1..]);
      assert multiset(s[1..]) == multiset(s) - multiset{x};
      assert multiset(rest) == multiset(t) - multiset{x};
      ProjectPermutation(s[1..], rest, f);
      ProjectAppend(t[..k] + [x], t[k + 1..], f);
      ProjectAppend(t[..k], [x], f);
      ProjectAppend(t[..k], t[k + 1..], f);
    }
  }
}
