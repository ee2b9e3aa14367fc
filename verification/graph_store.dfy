/** The graph view's store slice, as far as it edits scenes: connecting two
    nodes adds a choice, and dragging nodes writes their positions back. */
module GraphStore {
  import opened Wrappers
  import opened Types

  /** `onConnect`: an unknown source changes nothing; otherwise a choice
      `${source}-${target}` labelled `Some Label` is pushed onto the source's
      choice list, when it has one (`choices?.push`). */
  function OnConnect(scenes: Scenes, source: string, target: string): (r: Scenes)
    ensures r.Keys == scenes.Keys
    ensures forall k :: k in scenes && k != source ==> r[k] == scenes[k]
    ensures source !in scenes || scenes[source].choices.None? ==> r == scenes
    ensures source in scenes && scenes[source].choices.Some? ==>
              r[source] == scenes[source].(choices := Some(scenes[source].choices.value
                                                           + [Choice(source + "-" + target, "Some Label", target)]))
  {
    if source !in scenes then scenes
    else match scenes[source].choices
      case None => scenes
      case Some(cs) => scenes[source := scenes[source].(choices := Some(cs + [Choice(source + "-" + target, "Some Label", target)]))]
  }

  /** A connection adds exactly one choice, leading to the target. */
  lemma OnConnectAddsOneChoice(scenes: Scenes, source: string, target: string)
    requires source in scenes && scenes[source].choices.Some?
    ensures var cs := OnConnect(scenes, source, target)[source].choices.value;
            && |cs| == |scenes[source].choices.value| + 1
            && cs[..|cs| - 1] == scenes[source].choices.value
            && cs[|cs| - 1].nextSceneId == target
  {
  }

  datatype Point = Point(x: Option<real>, y: Option<real>)

  /** A node change as the graph reports it: a position change (whose
      position may be absent) or any other kind. */
  datatype NodeChange = PositionChange(id: string, position: Option<Point>) | OtherChange(id: string)

  function CoordX(p: Option<Point>): real { if p.Some? then p.value.x.GetOr(0.0) else 0.0 }
  function CoordY(p: Option<Point>): real { if p.Some? then p.value.y.GetOr(0.0) else 0.0 }

  /** One position write-back: the scene with the node's id, if any, takes
      the coordinates, a missing one read as 0. */
  function WriteBack(scenes: Scenes, c: NodeChange): (r: Scenes)
    ensures r.Keys == scenes.Keys
    ensures forall k :: k in scenes && !(c.PositionChange? && k == c.id) ==> r[k] == scenes[k]
    ensures c.PositionChange? && c.id in scenes ==>
              r[c.id].graphX == Some(CoordX(c.position)) && r[c.id].graphY == Some(CoordY(c.position))
    ensures forall k :: k in scenes ==> r[k].(graphX := scenes[k].graphX, graphY := scenes[k].graphY) == scenes[k]
  {
    if c.PositionChange? && c.id in scenes then
      scenes[c.id := scenes[c.id].(graphX := Some(CoordX(c.position)), graphY := Some(CoordY(c.position)))]
    else scenes
  }

  /** The scene edits of `onNodesChange`: the position changes, in order.
      Only graph coordinates change, and only for scenes a position change names. */
  function OnNodesChange(scenes: Scenes, changes: seq<NodeChange>): (r: Scenes)
    ensures r.Keys == scenes.Keys
    ensures forall k :: k in scenes ==> r[k].(graphX := scenes[k].graphX, graphY := scenes[k].graphY) == scenes[k]
    ensures forall k :: k in scenes && NotMoved(changes, k) ==> r[k] == scenes[k]
    decreases |changes|
  {
    if |changes| == 0 then scenes else OnNodesChange(WriteBack(scenes, changes[0]), changes[1..])
  }

  /** No position change of the batch names `id`. */
  predicate NotMoved(changes: seq<NodeChange>, id: string) {
    forall i :: 0 <= i < |changes| ==> !(changes[i].PositionChange? && changes[i].id == id)
  }

  /** The position of the last position change for node `id`, if any. */
  function LastPosition(changes: seq<NodeChange>, id: string): Option<Option<Point>>
    decreases |changes|
  {
    if |changes| == 0 then None
    else match LastPosition(changes[1..], id)
      case Some(p) => Some(p)
      case None => if changes[0].PositionChange? && changes[0].id == id then Some(changes[0].position) else None
  }

  /** After `onNodesChange` each scene carries the coordinates of the last
      position change for its id and is otherwise unchanged; a scene no
      position change names is untouched. */
  lemma {:induction false} OnNodesChangeLastWins(scenes: Scenes, changes: seq<NodeChange>, k: string)
    requires k in scenes
    ensures var r := OnNodesChange(scenes, changes);
            match LastPosition(changes, k)
            case None => r[k] == scenes[k]
            case Some(p) => r[k] == scenes[k].(graphX := Some(CoordX(p)), graphY := Some(CoordY(p)))
    decreases |changes|
  {
    if |changes| > 0 {
      OnNodesChangeLastWins(WriteBack(scenes, changes[0]), changes[1..], k);
    }
  }

  /** Changes of other kinds never touch the scenes. */
  lemma {:induction false} OtherChangesKeepScenes(scenes: Scenes, changes: seq<NodeChange>)
    requires forall i :: 0 <= i < |changes| ==> changes[i].OtherChange?
    ensures OnNodesChange(scenes, changes) == scenes
    decreases |changes|
  {
    if |changes| > 0 {
      OtherChangesKeepScenes(scenes, changes[1..]);
    }
  }
}
