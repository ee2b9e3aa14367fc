/** The editor store (`useGameStore`): creating a scene and projecting the scenes into
    the graph view's nodes and edges. `values` stands for `Object.values(scenes)`,
    whose order is the map's insertion order. */
module GameGraph {
  import opened Wrappers
  import opened Types
  import opened GameData

  /** A graph node: the scene id, its display position and its name as caption. */
  datatype Node = Node(id: string, x: real, y: real, caption: string)

  /** A graph edge for one choice. */
  datatype Edge = Edge(id: string, source: string, target: string, caption: string)

  /** `toRFNodes` for one scene: a missing display coordinate is 0. */
  function NodeOf(sc: Scene): (n: Node)
    ensures n.id == sc.id && n.caption == sc.name
    ensures sc.graphX.Some? ==> n.x == sc.graphX.value
    ensures sc.graphX.None? ==> n.x == 0.0
    ensures sc.graphY.Some? ==> n.y == sc.graphY.value
    ensures sc.graphY.None? ==> n.y == 0.0
  {
    Node(sc.id, sc.graphX.GetOr(0.0), sc.graphY.GetOr(0.0), sc.name)
  }

  /** `toRFNodes`: one node per scene, in the same order. */
  function ToRFNodes(values: seq<Scene>): (r: seq<Node>)
    ensures |r| == |values|
    ensures forall i :: 0 <= i < |values| ==> r[i] == NodeOf(values[i])
  {
    if |values| == 0 then [] else [NodeOf(values[0])] + ToRFNodes(values[1..])
  }

  /** The graph has a node for an id exactly when some scene carries that id. */
  lemma ToRFNodesIds(values: seq<Scene>, id: string)
    ensures (exists n :: n in ToRFNodes(values) && n.id == id) <==> (exists sc :: sc in values && sc.id == id)
  {
    var r := ToRFNodes(values);
    if exists n :: n in r && n.id == id {
      var n :| n in r && n.id == id;
      var i :| 0 <= i < |r| && r[i] == n;
      assert values[i] in values && values[i].id == id;
    }
    if exists sc :: sc in values && sc.id == id {
      var sc :| sc in values && sc.id == id;
      var i :| 0 <= i < |values| && values[i] == sc;
      assert r[i] in r && r[i].id == id;
    }
  }

  /** The edge of choice `c` of scene `sc`: id `<scene id>-<choice id>`. */
  function EdgeOf(sc: Scene, c: Choice): (e: Edge)
    ensures e.source == sc.id && e.target == c.nextSceneId && e.caption == c.caption
  {
    Edge(sc.id + "-" + c.id, sc.id, c.nextSceneId, c.caption)
  }

  function EdgesOfChoices(sc: Scene, cs: seq<Choice>): (r: seq<Edge>)
    ensures |r| == |cs|
    ensures forall j :: 0 <= j < |cs| ==> r[j] == EdgeOf(sc, cs[j])
  {
    if |cs| == 0 then [] else [EdgeOf(sc, cs[0])] + EdgesOfChoices(sc, cs[1..])
  }

  /** The choices of a scene; a scene without a list has none. */
  function ChoicesOf(sc: Scene): seq<Choice> {
    sc.choices.GetOr([])
  }

  function ChoiceCount(values: seq<Scene>): nat {
    if |values| == 0 then 0 else |ChoicesOf(values[0])| + ChoiceCount(values[1..])
  }

  /** `toRFEdges`: one edge per choice, scene by scene, each scene's choices in order. */
  function ToRFEdges(values: seq<Scene>): (r: seq<Edge>)
    ensures |r| == ChoiceCount(values)
  {
    if |values| == 0 then []
    else EdgesOfChoices(values[0], ChoicesOf(values[0])) + ToRFEdges(values[1..])
  }

  /** An edge is produced iff it is the edge of some choice of some scene. */
  lemma {:induction false} ToRFEdgesMembers(values: seq<Scene>, e: Edge)
    ensures e in ToRFEdges(values) <==>
              exists i, j :: 0 <= i < |values| && 0 <= j < |ChoicesOf(values[i])| && e == EdgeOf(values[i], ChoicesOf(values[i])[j])
  {
    if |values| > 0 {
      ToRFEdgesMembers(values[1..], e);
    }
  }

  /** `addScene`: a new scene under `freshId` named `name`, with every other
      field defaulted as on load. */
  function AddScene(scenes: Scenes, name: string, freshId: string): (r: Scenes)
    ensures r.Keys == scenes.Keys + {freshId}
    ensures forall k :: k in scenes && k != freshId ==> r[k] == scenes[k]
    ensures r[freshId] == NewScene(name, freshId)
  {
    scenes[freshId := NewScene(name, freshId)]
  }

  /** The scene `addScene` builds: only the id and the name are given. */
  function NewScene(name: string, freshId: string): (sc: Scene)
    ensures sc.id == freshId
    ensures sc.name == if name != "" then name else "Scene " + freshId
    ensures sc.dialogue == [] && sc.choices == Some([])
    ensures sc.width == 2000.0
  {
    var raw := RawScene(Some(freshId), None, Some(name), None, None, None, None, None);
    assert !Truthy(raw.name) <==> name == "";
    ApplyDefaults(raw, freshId)
  }

  /** A new scene has exactly the three default layers, all empty. */
  lemma AddSceneLayers(scenes: Scenes, name: string, freshId: string)
    ensures AddScene(scenes, name, freshId)[freshId].layers == [DefaultLayer(Bg), DefaultLayer(Mid), DefaultLayer(Fg)]
  {
    var defaults := [DefaultLayer(Bg), DefaultLayer(Mid), DefaultLayer(Fg)];
    MissingFromEmpty();
    DefaultsSorted();
    assert [] + defaults == defaults;
    assert DefaultedLayers([]) == SortLayers([] + Missing([], LayerIds));
  }

  lemma MissingFromEmpty()
    ensures Missing([], LayerIds) == [DefaultLayer(Bg), DefaultLayer(Mid), DefaultLayer(Fg)]
  {
    assert !HasLayer([], Bg) && !HasLayer([], Mid) && !HasLayer([], Fg);
    assert LayerIds[1..] == [Mid, Fg] && LayerIds[1..][1..] == [Fg] && LayerIds[1..][1..][1..] == [];
    assert Missing([], [Fg]) == [DefaultLayer(Fg)];
    assert Missing([], [Mid, Fg]) == [DefaultLayer(Mid), DefaultLayer(Fg)];
  }

  lemma DefaultsSorted()
    ensures SortLayers([DefaultLayer(Bg), DefaultLayer(Mid), DefaultLayer(Fg)]) == [DefaultLayer(Bg), DefaultLayer(Mid), DefaultLayer(Fg)]
  {
    var defaults := [DefaultLayer(Bg), DefaultLayer(Mid), DefaultLayer(Fg)];
    assert SortedByRank(defaults);
    SortLayersOfSorted(defaults);
  }
}
