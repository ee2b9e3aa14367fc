/** Exclusive ownership, stated as multisets: the image items and dialogue
    lines of the whole collection, summed over every list that can own one. */
module Ownership {
  import opened Types

  /** Every image item held by the given layers. */
  function LayersItems(ls: seq<Layer>): multiset<ImageAsset> {
    if |ls| == 0 then multiset{} else multiset(ls[0].items) + LayersItems(ls[1..])
  }

  /** Every image item of a scene. */
  function SceneImages(sc: Scene): multiset<ImageAsset> {
    LayersItems(sc.layers)
  }

  /** Every dialogue line of a scene. */
  function SceneLines(sc: Scene): multiset<Dialogue> {
    multiset(sc.dialogue)
  }

  /** Replacing one layer's items changes the layer sum by exactly that list. */
  lemma {:induction false} LayersItemsUpdate(ls: seq<Layer>, i: nat, items: seq<ImageAsset>)
    requires i < |ls|
    ensures LayersItems(ls[i := ls[i].(items := items)]) + multiset(ls[i].items)
         == LayersItems(ls) + multiset(items)
  {
    var ls' := ls[i := ls[i].(items := items)];
    assert LayersItems(ls') == multiset(ls'[0].items) + LayersItems(ls'[1..]);
    assert LayersItems(ls) == multiset(ls[0].items) + LayersItems(ls[1..]);
    if i == 0 {
      assert ls'[1..] == ls[1..];
    } else {
      assert ls'[0] == ls[0];
      assert ls[1..][i - 1] == ls[i];
      assert ls'[1..] == ls[1..][i - 1 := ls[1..][i - 1].(items := items)];
      LayersItemsUpdate(ls[1..], i - 1, items);
      var a, b, b' := multiset(ls[0].items), LayersItems(ls[1..]), LayersItems(ls'[1..]);
      var x, y := multiset(ls[i].items), multiset(items);
      assert b' + x == b + y;
      assert (a + b') + x == a + (b' + x) == a + (b + y) == (a + b) + y;
    }
  }

  /** Some key of a non-empty map, fixed once and for all. */
  ghost function PickKey<V>(m: map<string, V>): string
    requires m != map[]
    ensures PickKey(m) in m
  {
    var k :| k in m; k
  }

  /** The sum of `f` over every scene of a collection keyed by scene id. */
  ghost function Total<V, T>(m: map<string, V>, f: V -> multiset<T>): multiset<T>
    decreases |m|
  {
    if m == map[] then multiset{}
    else
      var k := PickKey(m);
      f(m[k]) + Total(m - {k}, f)
  }

  /** The sum can be split at any key, not only at the one `Total` picks. */
  lemma {:induction false} TotalSplit<V, T>(m: map<string, V>, f: V -> multiset<T>, k: string)
    requires k in m
    ensures Total(m, f) == f(m[k]) + Total(m - {k}, f)
    decreases |m|
  {
    var j := PickKey(m);
    if j != k {
      assert |m - {j}| < |m| by { assert j in m; }
      TotalSplit(m - {j}, f, k);
      TotalSplit(m - {k}, f, j);
      assert m - {j} - {k} == m - {k} - {j};
    }
  }

  /** Replacing one scene changes the sum by exactly that scene's share. */
  lemma TotalUpdate<V, T>(m: map<string, V>, f: V -> multiset<T>, k: string, v: V)
    requires k in m
    ensures Total(m[k := v], f) + f(m[k]) == Total(m, f) + f(v)
  {
    TotalSplit(m, f, k);
    TotalSplit(m[k := v], f, k);
    assert m[k := v] - {k} == m - {k};
  }

  /** Two balanced differences combine: from `u + x == t + y` and `y + a == x + b`, `u + a == t + b`. */
  lemma Rebalance<T>(u: multiset<T>, t: multiset<T>, x: multiset<T>, y: multiset<T>, a: multiset<T>, b: multiset<T>)
    requires u + x == t + y && y + a == x + b
    ensures u + a == t + b
  {
    forall e ensures (u + a)[e] == (t + b)[e] {
      assert (u + x)[e] == (t + y)[e];
      assert (y + a)[e] == (x + b)[e];
    }
  }

  lemma Cancel<T>(a: multiset<T>, b: multiset<T>, c: multiset<T>)
    requires a + c == b + c
    ensures a == b
  {
    forall x ensures a[x] == b[x] {
      assert (a + c)[x] == (b + c)[x];
    }
  }

  /** Replacing a scene by one with the same share leaves the sum unchanged. */
  lemma TotalUpdateSame<V, T>(m: map<string, V>, f: V -> multiset<T>, k: string, v: V)
    requires k in m && f(v) == f(m[k])
    ensures Total(m[k := v], f) == Total(m, f)
  {
    TotalUpdate(m, f, k, v);
    Cancel(Total(m[k := v], f), Total(m, f), f(m[k]));
  }

  /** Replacing a scene by one holding `d` more adds exactly `d` to the sum. */
  lemma TotalUpdateAdd<V, T>(m: map<string, V>, f: V -> multiset<T>, k: string, v: V, d: multiset<T>)
    requires k in m && f(v) == f(m[k]) + d
    ensures Total(m[k := v], f) == Total(m, f) + d
  {
    TotalUpdate(m, f, k, v);
    assert Total(m[k := v], f) + f(m[k]) == (Total(m, f) + d) + f(m[k]);
    Cancel(Total(m[k := v], f), Total(m, f) + d, f(m[k]));
  }

  /** Replacing a scene by one holding `d` less removes exactly `d` from the sum. */
  lemma TotalUpdateRemove<V, T>(m: map<string, V>, f: V -> multiset<T>, k: string, v: V, d: multiset<T>)
    requires k in m && f(v) + d == f(m[k])
    ensures Total(m[k := v], f) + d == Total(m, f)
  {
    TotalUpdate(m, f, k, v);
    assert (Total(m[k := v], f) + d) + f(v) == Total(m, f) + f(v);
    Cancel(Total(m[k := v], f) + d, Total(m, f), f(v));
  }

  /** Replacing a scene whose share changes from `b` to `a`-balanced: if the
      new share plus `a` equals the old share plus `b`, the sums balance the
      same way. */
  lemma TotalUpdateDelta<V, T>(m: map<string, V>, f: V -> multiset<T>, k: string, v: V, a: multiset<T>, b: multiset<T>)
    requires k in m && f(v) + a == f(m[k]) + b
    ensures Total(m[k := v], f) + a == Total(m, f) + b
  {
    TotalUpdate(m, f, k, v);
    var t', t, o := Total(m[k := v], f), Total(m, f), f(m[k]);
    assert (t' + a) + o == (t' + o) + a == (t + f(v)) + a == t + (f(v) + a) == t + (o + b) == (t + b) + o;
    Cancel(t' + a, t + b, o);
  }
}
