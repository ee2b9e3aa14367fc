/** List surgery shared by both stores: the JavaScript array operations
    `splice`, `findIndex`/`find`, `filter` and `push`, on immutable sequences. */
module Seqs {
  import opened Wrappers

  function Min(a: nat, b: nat): nat {
    if a <= b then a else b
  }

  /** The position `splice(i, 0, x)` inserts at: indices past the end append. */
  function Clamp(i: nat, n: nat): (k: nat)
    ensures k <= n
    ensures i <= n ==> k == i
  {
    Min(i, n)
  }

  /** `s.splice(i, 0, x)`: inserts `x` at `i`, or appends when `i` is past the end. */
  function InsertAt<T>(s: seq<T>, i: nat, x: T): (r: seq<T>)
    ensures |r| == |s| + 1
    ensures r[Clamp(i, |s|)] == x
    ensures r[..Clamp(i, |s|)] == s[..Clamp(i, |s|)]
    ensures r[Clamp(i, |s|) + 1..] == s[Clamp(i, |s|)..]
    ensures multiset(r) == multiset(s) + multiset{x}
  {
    var k := Clamp(i, |s|);
    assert s == s[..k] + s[k..];
    s[..k] + [x] + s[k..]
  }

  /** `s.splice(i, 1)`: drops the element at `i`. */
  function RemoveAt<T>(s: seq<T>, i: nat): (r: seq<T>)
    requires i < |s|
    ensures |r| == |s| - 1
    ensures r[..i] == s[..i]
    ensures r[i..] == s[i + 1..]
    ensures multiset(r) + multiset{s[i]} == multiset(s)
  {
    assert s == s[..i] + [s[i]] + s[i + 1..];
    s[..i] + s[i + 1..]
  }

  /** The reorder of `reorderItem`: take the element at `oldIndex` out and
      splice it back in at `newIndex`. */
  function Reorder<T>(s: seq<T>, oldIndex: nat, newIndex: nat): (r: seq<T>)
    requires oldIndex < |s|
    ensures |r| == |s|
    ensures multiset(r) == multiset(s)
    ensures r[Clamp(newIndex, |s| - 1)] == s[oldIndex]
    ensures RemoveAt(r, Clamp(newIndex, |s| - 1)) == RemoveAt(s, oldIndex)
  {
    RemoveInserted(RemoveAt(s, oldIndex), newIndex, s[oldIndex]);
    InsertAt(RemoveAt(s, oldIndex), newIndex, s[oldIndex])
  }

  /** Taking an inserted element back out gives the list it was inserted into:
      `splice` keeps the order of every other element. */
  lemma RemoveInserted<T>(s: seq<T>, i: nat, x: T)
    ensures RemoveAt(InsertAt(s, i, x), Clamp(i, |s|)) == s
  {
    var k := Clamp(i, |s|);
    var r := RemoveAt(InsertAt(s, i, x), k);
    assert r == r[..k] + r[k..];
    assert s == s[..k] + s[k..];
  }

  /** Putting an element back where it was taken from gives the list back. */
  lemma ReorderSameIndex<T>(s: seq<T>, i: nat)
    requires i < |s|
    ensures Reorder(s, i, i) == s
  {
    var t := RemoveAt(s, i);
    var r := InsertAt(t, i, s[i]);
    assert Clamp(i, |t|) == i;
    assert r[..i] == s[..i] && r[i + 1..] == s[i + 1..];
    assert r == r[..i] + [r[i]] + r[i + 1..];
    assert s == s[..i] + [s[i]] + s[i + 1..];
  }

  /** The first index whose element satisfies `p` (`findIndex`, with `-1` as None). */
  function FirstIndex<T>(s: seq<T>, p: T -> bool): (r: Option<nat>)
    ensures r.Some? ==> r.value < |s| && p(s[r.value])
    ensures r.Some? ==> forall j :: 0 <= j < r.value ==> !p(s[j])
    ensures r.None? <==> forall j :: 0 <= j < |s| ==> !p(s[j])
  {
    if |s| == 0 then None
    else if p(s[0]) then Some(0)
    else match FirstIndex(s[1..], p)
      case None => None
      case Some(k) => Some(k + 1)
  }

  /** `s.filter(p)`: keeps, in order, exactly the elements satisfying `p`. */
  function Filter<T>(s: seq<T>, p: T -> bool): (r: seq<T>)
    ensures |r| <= |s|
    ensures forall x :: x in r ==> x in s && p(x)
    ensures forall x :: x in s && p(x) ==> x in r
  {
    if |s| == 0 then []
    else
      var rest := Filter(s[1..], p);
      if p(s[0]) then [s[0]] + rest else rest
  }

  /** A filter keeps every copy of an accepted element and no copy of a rejected one. */
  lemma {:induction false} FilterCount<T>(s: seq<T>, p: T -> bool)
    ensures forall x :: x in s ==> multiset(Filter(s, p))[x] == if p(x) then multiset(s)[x] else 0
  {
    if |s| > 0 {
      FilterCount(s[1..], p);
      assert s == [s[0]] + s[1..];
    }
  }

  /** `t` is an order-preserving sub-list of `s`. */
  predicate IsSubsequence<T(==)>(t: seq<T>, s: seq<T>)
    decreases |s|
  {
    if |t| == 0 then true
    else if |s| == 0 then false
    else if t[0] == s[0] then IsSubsequence(t[1..], s[1..])
    else IsSubsequence(t, s[1..])
  }

  lemma {:induction false} FilterIsSubsequence<T>(s: seq<T>, p: T -> bool)
    ensures IsSubsequence(Filter(s, p), s)
    decreases |s|
  {
    if |s| > 0 {
      FilterIsSubsequence(s[1..], p);
    }
  }

  /** A filter whose predicate holds everywhere keeps the whole list. */
  lemma {:induction false} FilterKeepsAll<T>(s: seq<T>, p: T -> bool)
    requires forall x :: x in s ==> p(x)
    ensures Filter(s, p) == s
  {
    if |s| > 0 {
      FilterKeepsAll(s[1..], p);
      assert s == [s[0]] + s[1..];
    }
  }

  /** A list the predicate accepts throughout, with a rejected element appended, filters back to itself. */
  lemma FilterDropsLast<T>(s: seq<T>, x: T, p: T -> bool)
    requires forall y :: y in s ==> p(y)
    requires !p(x)
    ensures Filter(s + [x], p) == s
  {
    FilterKeepsAll(s, p);
    FilterAppendDrop(s, x, p);
  }

  /** An appended element the predicate rejects does not reach the result. */
  lemma {:induction false} FilterAppendDrop<T>(s: seq<T>, x: T, p: T -> bool)
    requires !p(x)
    ensures Filter(s + [x], p) == Filter(s, p)
  {
    if |s| == 0 {
      assert s + [x] == [x];
      assert [x][1..] == [];
    } else {
      assert (s + [x])[1..] == s[1..] + [x];
      FilterAppendDrop(s[1..], x, p);
    }
  }
}
