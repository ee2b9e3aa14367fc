/** Layer defaulting for scenes loaded or created by the editor: every scene
    ends up with the layers `bg`, `mid`, `fg`, in that order, plus defaults for
    the other missing fields. */
module GameData {
  import opened Wrappers
  import opened Seqs
  import opened Types

  /** `Partial<Scene>`: any field may be missing. */
  datatype RawScene = RawScene(
    id: Option<string>,
    width: Option<real>,
    name: Option<string>,
    layers: Option<seq<Layer>>,
    dialogue: Option<seq<Dialogue>>,
    choices: Option<seq<Choice>>,
    graphX: Option<real>,
    graphY: Option<real>)

  function UpperAscii(c: char): char {
    if 'a' <= c <= 'z' then (c as int - 'a' as int + 'A' as int) as char else c
  }

  /** First letter upper-cased (ASCII), the rest kept. */
  function Capitalise(s: string): string {
    if |s| == 0 then "" else [UpperAscii(s[0])] + s[1..]
  }

  /** The layer created for a missing id: named after the id, with the id's
      parallax factor and no items. */
  function DefaultLayer(id: LayerId): (l: Layer)
    ensures l.id == id && l.items == []
  {
    Layer(id, Some(Capitalise(id)), [], Some(if id == Bg then 0.5 else if id == Mid then 0.8 else 1.2))
  }

  predicate HasLayer(ls: seq<Layer>, id: LayerId) {
    exists j :: 0 <= j < |ls| && ls[j].id == id
  }

  /** Default layers for the ids of `ids` that `given` lacks, in the order of `ids`. */
  function Missing(given: seq<Layer>, ids: seq<LayerId>): (r: seq<Layer>)
    ensures forall l :: l in r ==> l == DefaultLayer(l.id) && l.id in ids && !HasLayer(given, l.id)
    ensures forall id :: id in ids && !HasLayer(given, id) ==> DefaultLayer(id) in r
  {
    if |ids| == 0 then []
    else (if HasLayer(given, ids[0]) then [] else [DefaultLayer(ids[0])]) + Missing(given, ids[1..])
  }

  function LayersWithId(ls: seq<Layer>, id: LayerId): seq<Layer> {
    Filter(ls, (l: Layer) => l.id == id)
  }

  /** Layers ordered `bg`, `mid`, `fg`. */
  predicate SortedByRank(ls: seq<Layer>) {
    forall i, j :: 0 <= i < j < |ls| ==> Rank(ls[i].id) <= Rank(ls[j].id)
  }

  /** The stable sort by position in `bg, mid, fg`: since there are only three
      keys, it is the `bg` layers, then the `mid` layers, then the `fg` layers,
      each group in input order. */
  function SortLayers(ls: seq<Layer>): (r: seq<Layer>)
    ensures multiset(r) == multiset(ls)
    ensures SortedByRank(r)
  {
    var r := LayersWithId(ls, Bg) + LayersWithId(ls, Mid) + LayersWithId(ls, Fg);
    SortLayersPermutes(ls);
    SortLayersSorted(ls);
    r
  }

  lemma SortLayersPermutes(ls: seq<Layer>)
    ensures multiset(LayersWithId(ls, Bg) + LayersWithId(ls, Mid) + LayersWithId(ls, Fg)) == multiset(ls)
  {
    var b, m, f := LayersWithId(ls, Bg), LayersWithId(ls, Mid), LayersWithId(ls, Fg);
    FilterCount(ls, (l: Layer) => l.id == Bg);
    FilterCount(ls, (l: Layer) => l.id == Mid);
    FilterCount(ls, (l: Layer) => l.id == Fg);
    forall x ensures multiset(b + m + f)[x] == multiset(ls)[x] {
      if x in ls {
        assert x.id == Bg || x.id == Mid || x.id == Fg;
        assert multiset(b + m + f)[x] == multiset(b)[x] + multiset(m)[x] + multiset(f)[x];
      } else {
        assert x !in b && x !in m && x !in f;
        assert x !in b + m + f;
      }
    }
  }

  lemma SortLayersSorted(ls: seq<Layer>)
    ensures SortedByRank(LayersWithId(ls, Bg) + LayersWithId(ls, Mid) + LayersWithId(ls, Fg))
  {
    ConcatSorted(LayersWithId(ls, Bg), LayersWithId(ls, Mid), LayersWithId(ls, Fg));
  }

  /** A run of `bg` layers, then `mid` layers, then `fg` layers is sorted. */
  lemma ConcatSorted(b: seq<Layer>, m: seq<Layer>, f: seq<Layer>)
    requires forall x :: x in b ==> x.id == Bg
    requires forall x :: x in m ==> x.id == Mid
    requires forall x :: x in f ==> x.id == Fg
    ensures SortedByRank(b + m + f)
  {
    var r := b + m + f;
    forall k | 0 <= k < |r| ensures Rank(r[k].id) == if k < |b| then 0 else if k < |b| + |m| then 1 else 2 {
      if k < |b| { assert r[k] == b[k] && b[k] in b; }
      else if k < |b| + |m| { assert r[k] == m[k - |b|] && m[k - |b|] in m; }
      else { assert r[k] == f[k - |b| - |m|] && f[k - |b| - |m|] in f; }
    }
  }

  /** The layer list `applyDefaults` produces from the given one: the given
      layers plus a default for each missing canonical id, sorted. */
  function DefaultedLayers(given: seq<Layer>): (r: seq<Layer>)
    ensures forall id: LayerId :: HasLayer(r, id)
    ensures SortedByRank(r)
    ensures multiset(given) <= multiset(r)
    ensures forall l :: l in r && l !in given ==> l == DefaultLayer(l.id) && !HasLayer(given, l.id)
    ensures multiset(r) == multiset(given + Missing(given, LayerIds))
  {
    var all := given + Missing(given, LayerIds);
    var r := SortLayers(all);
    forall id: LayerId ensures HasLayer(r, id) {
      HasEveryId(given, r, id);
    }
    forall l | l in r && l !in given ensures l == DefaultLayer(l.id) && !HasLayer(given, l.id) {
      assert l in multiset(all);
    }
    r
  }

  lemma HasEveryId(given: seq<Layer>, r: seq<Layer>, id: LayerId)
    requires multiset(r) == multiset(given + Missing(given, LayerIds))
    ensures HasLayer(r, id)
  {
    var all := given + Missing(given, LayerIds);
    var l :| l in all && l.id == id by {
      if HasLayer(given, id) {
        var j :| 0 <= j < |given| && given[j].id == id;
        assert given[j] in all;
      } else {
        assert DefaultLayer(id) in all;
      }
    }
    assert l in multiset(r);
    var k :| 0 <= k < |r| && r[k] == l;
  }

  /** `name || \`Scene ${id}\``, where an absent id prints as `undefined`. */
  function SceneName(id: Option<string>, name: Option<string>): (n: string)
    ensures Truthy(name) ==> n == name.value
    ensures !Truthy(name) && id.Some? ==> n == "Scene " + id.value
    ensures !Truthy(name) && id.None? ==> n == "Scene undefined"
  {
    if Truthy(name) then name.value
    else "Scene " + (if id.Some? then id.value else "undefined")
  }

  /** `applyDefaults`: add the missing canonical layers, sort the layers, and
      default the id (to `freshId`), name, dialogue, choices and width. The
      default name uses the input's id, so a scene without an id is named
      `Scene undefined`. */
  function ApplyDefaults(raw: RawScene, freshId: string): (sc: Scene)
    ensures forall id: LayerId :: HasLayer(sc.layers, id)
    ensures SortedByRank(sc.layers)
    ensures multiset(raw.layers.GetOr([])) <= multiset(sc.layers)
    ensures forall l :: l in sc.layers && l !in raw.layers.GetOr([]) ==>
              l == DefaultLayer(l.id) && !HasLayer(raw.layers.GetOr([]), l.id)
    ensures multiset(sc.layers) == multiset(raw.layers.GetOr([]) + Missing(raw.layers.GetOr([]), LayerIds))
    ensures sc.dialogue == raw.dialogue.GetOr([])
    ensures sc.choices == Some(raw.choices.GetOr([]))
    ensures sc.width == if raw.width.Some? && raw.width.value != 0.0 then raw.width.value else 2000.0
    ensures Truthy(raw.id) ==> sc.id == raw.id.value
    ensures !Truthy(raw.id) ==> sc.id == freshId
    ensures Truthy(raw.name) ==> sc.name == raw.name.value
    ensures !Truthy(raw.name) && raw.id.Some? ==> sc.name == "Scene " + raw.id.value
    ensures !Truthy(raw.name) && raw.id.None? ==> sc.name == "Scene undefined"
    ensures sc.graphX == raw.graphX && sc.graphY == raw.graphY
  {
    Scene(
      if Truthy(raw.id) then raw.id.value else freshId,
      if raw.width.Some? && raw.width.value != 0.0 then raw.width.value else 2000.0,
      SceneName(raw.id, raw.name),
      DefaultedLayers(raw.layers.GetOr([])),
      raw.dialogue.GetOr([]),
      Some(raw.choices.GetOr([])),
      raw.graphX,
      raw.graphY)
  }

  /** A finished scene read back as a partial one (every field present). */
  function AsRaw(sc: Scene): RawScene {
    RawScene(Some(sc.id), Some(sc.width), Some(sc.name), Some(sc.layers), Some(sc.dialogue),
             sc.choices, sc.graphX, sc.graphY)
  }

  /** `loadGameData`: every raw scene through `applyDefaults`, under its own key.
      `freshId` supplies the id a raw scene without one would be given. */
  function LoadGameData(raw: map<string, RawScene>, freshId: string -> string): (r: Scenes)
    ensures r.Keys == raw.Keys
    ensures forall k :: k in r ==> r[k] == ApplyDefaults(raw[k], freshId(k))
  {
    map k | k in raw :: ApplyDefaults(raw[k], freshId(k))
  }

  /** Sorting a list that is already in `bg, mid, fg` order changes nothing. */
  lemma {:induction false} SortLayersOfSorted(ls: seq<Layer>)
    requires SortedByRank(ls)
    ensures SortLayers(ls) == ls
  {
    if |ls| > 0 {
      var rest := ls[1..];
      SortedTail(ls);
      SortLayersOfSorted(rest);
      SortLayersCons(ls);
      assert ls == [ls[0]] + rest;
    }
  }

  lemma SortedTail(ls: seq<Layer>)
    requires |ls| > 0 && SortedByRank(ls)
    ensures SortedByRank(ls[1..])
  {
    var rest := ls[1..];
    forall i, j | 0 <= i < j < |rest| ensures Rank(rest[i].id) <= Rank(rest[j].id) {
      assert rest[i] == ls[i + 1] && rest[j] == ls[j + 1];
    }
  }

  /** On a sorted list, sorting commutes with taking off the head. */
  lemma SortLayersCons(ls: seq<Layer>)
    requires |ls| > 0 && SortedByRank(ls)
    ensures SortLayers(ls) == [ls[0]] + SortLayers(ls[1..])
  {
    var x, rest := ls[0], ls[1..];
    var b, m, f := LayersWithId(rest, Bg), LayersWithId(rest, Mid), LayersWithId(rest, Fg);
    var b', m', f' := LayersWithId(ls, Bg), LayersWithId(ls, Mid), LayersWithId(ls, Fg);
    WithIdCons(ls, Bg);
    WithIdCons(ls, Mid);
    WithIdCons(ls, Fg);
    if x.id != Bg {
      forall j | 0 <= j < |rest| ensures Rank(rest[j].id) > Rank(Bg) {
        assert rest[j] == ls[j + 1];
      }
      NoneWithId(rest, Bg);
    }
    if x.id == Fg {
      forall j | 0 <= j < |rest| ensures Rank(rest[j].id) > Rank(Mid) {
        assert rest[j] == ls[j + 1];
      }
      NoneWithId(rest, Mid);
    }
    ShiftHead(x, b, m, f, b', m', f');
  }

  /** Moving a head element out of a three-way concatenation. */
  lemma ShiftHead<T>(x: T, b: seq<T>, m: seq<T>, f: seq<T>, b': seq<T>, m': seq<T>, f': seq<T>)
    requires (b' == [x] + b && m' == m && f' == f)
          || (b == [] && b' == [] && m' == [x] + m && f' == f)
          || (b == [] && m == [] && b' == [] && m' == [] && f' == [x] + f)
    ensures b' + m' + f' == [x] + (b + m + f)
  {
  }

  lemma WithIdCons(ls: seq<Layer>, id: LayerId)
    requires |ls| > 0
    ensures LayersWithId(ls, id) == (if ls[0].id == id then [ls[0]] else []) + LayersWithId(ls[1..], id)
  {
  }

  lemma {:induction false} NoneWithId(ls: seq<Layer>, id: LayerId)
    requires forall j :: 0 <= j < |ls| ==> Rank(ls[j].id) > Rank(id)
    ensures LayersWithId(ls, id) == []
  {
    if |ls| > 0 {
      WithIdCons(ls, id);
      forall j | 0 <= j < |ls| - 1 ensures Rank(ls[1..][j].id) > Rank(id) {
        assert ls[1..][j] == ls[j + 1];
      }
      NoneWithId(ls[1..], id);
    }
  }

  /** When nothing is missing, no defaults are added. */
  lemma {:induction false} MissingNone(given: seq<Layer>, ids: seq<LayerId>)
    requires forall id: LayerId :: HasLayer(given, id)
    ensures Missing(given, ids) == []
  {
    if |ids| > 0 {
      MissingNone(given, ids[1..]);
    }
  }

  /** `applyDefaults` is idempotent on a scene it produced: reloading a saved
      scene changes nothing (the scene's id is non-empty, so no fresh id is
      drawn the second time). */
  lemma ApplyDefaultsIdempotent(raw: RawScene, freshId: string, freshId2: string)
    requires Truthy(raw.id) || freshId != ""
    ensures ApplyDefaults(AsRaw(ApplyDefaults(raw, freshId)), freshId2) == ApplyDefaults(raw, freshId)
  {
    var sc := ApplyDefaults(raw, freshId);
    var sc2 := ApplyDefaults(AsRaw(sc), freshId2);
    assert sc2.layers == sc.layers by {
      MissingNone(sc.layers, LayerIds);
      assert sc.layers + [] == sc.layers;
      SortLayersOfSorted(sc.layers);
    }
    assert sc2.name == sc.name by {
      if !Truthy(raw.name) {
        assert |sc.name| >= |"Scene "|;
      }
    }
  }

  /** `sceneB` of the built-in data: a `bg` and an `fg` layer, no `mid`. */
  const SceneBLayers: seq<Layer> := [
    Layer(Bg, None, [ImageAsset("bg-1", "Desert Background", "/assets/desert_bg.png", 250.0, 0.0, None)], Some(0.5)),
    Layer(Fg, None, [ImageAsset("fg-1", "Desert Foreground", "/assets/desert_fg.png", 450.0, 0.0, None)], Some(1.2))
  ]

  /** Loading `sceneB` slots an empty, default `mid` layer between its own two. */
  lemma SceneBGainsMidLayer(raw: RawScene, freshId: string)
    requires raw.layers == Some(SceneBLayers)
    ensures ApplyDefaults(raw, freshId).layers == [SceneBLayers[0], DefaultLayer(Mid), SceneBLayers[1]]
  {
    assert DefaultedLayers(SceneBLayers) == [SceneBLayers[0], DefaultLayer(Mid), SceneBLayers[1]] by {
      SceneBMissing();
      SceneBSorted();
      assert DefaultedLayers(SceneBLayers) == SortLayers(SceneBLayers + Missing(SceneBLayers, LayerIds));
    }
  }

  lemma SceneBMissing()
    ensures Missing(SceneBLayers, LayerIds) == [DefaultLayer(Mid)]
  {
    var given := SceneBLayers;
    assert HasLayer(given, Bg) by { assert given[0].id == Bg; }
    assert HasLayer(given, Fg) by { assert given[1].id == Fg; }
    assert !HasLayer(given, Mid);
    assert LayerIds[1..] == [Mid, Fg] && LayerIds[1..][1..] == [Fg] && LayerIds[1..][1..][1..] == [];
    assert Missing(given, [Fg]) == [];
    assert Missing(given, [Mid, Fg]) == [DefaultLayer(Mid)];
  }

  lemma SceneBSorted()
    ensures SortLayers(SceneBLayers + [DefaultLayer(Mid)]) == [SceneBLayers[0], DefaultLayer(Mid), SceneBLayers[1]]
  {
    var ls := SceneBLayers + [DefaultLayer(Mid)];
    assert |ls| == 3 && ls[0] == SceneBLayers[0] && ls[1] == SceneBLayers[1] && ls[2] == DefaultLayer(Mid);
    SortBgFgMid(ls);
  }

  /** Sorting a `bg, fg, mid` list swaps its last two layers. */
  lemma SortBgFgMid(ls: seq<Layer>)
    requires |ls| == 3 && ls[0].id == Bg && ls[1].id == Fg && ls[2].id == Mid
    ensures SortLayers(ls) == [ls[0], ls[2], ls[1]]
  {
    DistinctIds();
    assert LayersWithId(ls, Bg) == [ls[0]] by { WithIdOfThree(ls, Bg); }
    assert LayersWithId(ls, Mid) == [ls[2]] by { WithIdOfThree(ls, Mid); }
    assert LayersWithId(ls, Fg) == [ls[1]] by { WithIdOfThree(ls, Fg); }
  }

  lemma DistinctIds()
    ensures Bg != Mid && Bg != Fg && Mid != Fg
  {
    assert Bg[0] != Mid[0] && Bg[0] != Fg[0] && Mid[0] != Fg[0];
  }

  /** The layers of a three-element list that carry one id, in order. */
  lemma WithIdOfThree(ls: seq<Layer>, id: LayerId)
    requires |ls| == 3
    ensures LayersWithId(ls, id)
         == (if ls[0].id == id then [ls[0]] else []) + (if ls[1].id == id then [ls[1]] else [])
          + (if ls[2].id == id then [ls[2]] else [])
  {
    var t1, t2 := ls[1..], ls[2..];
    assert t1[1..] == t2 && t2[0] == ls[2] && t1[0] == ls[1];
    WithIdCons(ls, id);
    WithIdCons(t1, id);
    WithIdCons(t2, id);
    assert t2[1..] == [];
  }
}
