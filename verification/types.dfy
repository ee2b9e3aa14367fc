/** The scene data model of the editor: scenes keyed by id, each with three
    parallax layers of image items, an ordered dialogue list and an optional
    list of choices that link scenes into a story graph. */
module Types {
  import opened Wrappers

  /** The three canonical layer ids, in back-to-front order. */
  predicate IsLayerId(s: string) {
    s == "bg" || s == "mid" || s == "fg"
  }

  /** A layer id is one of exactly `bg`, `mid`, `fg`: no other string is a value of this type. */
  type LayerId = s: string | IsLayerId(s) witness "bg"

  const Bg: LayerId := "bg"
  const Mid: LayerId := "mid"
  const Fg: LayerId := "fg"

  /** The canonical layer ids in display order. */
  const LayerIds: seq<LayerId> := [Bg, Mid, Fg]

  /** Position of a layer id in `LayerIds`. */
  function Rank(id: LayerId): nat {
    if id == Bg then 0 else if id == Mid then 1 else 2
  }

  /** An image placed on a layer. `zoomFactor` is the only optional field. */
  datatype ImageAsset = ImageAsset(
    id: string,
    name: string,
    url: string,
    x: real,
    y: real,
    zoomFactor: Option<real>)

  datatype Layer = Layer(
    id: LayerId,
    name: Option<string>,
    items: seq<ImageAsset>,
    parallaxFactor: Option<real>)

  /** An edge of the story graph; the target is a bare string and need not name a scene.
      `caption` is the choice's `label` (a reserved word in Dafny). */
  datatype Choice = Choice(id: string, caption: string, nextSceneId: string)

  datatype Dialogue = Dialogue(id: string, speaker: string, text: string)

  /** `layers` and `dialogue` are always present, `choices` may be absent.
      `graphX`/`graphY` are the node position the graph view writes back. */
  datatype Scene = Scene(
    id: string,
    width: real,
    name: string,
    layers: seq<Layer>,
    dialogue: seq<Dialogue>,
    choices: Option<seq<Choice>>,
    graphX: Option<real>,
    graphY: Option<real>)

  /** A scene as visited during playback: the scene plus where it starts on the
      world strip and a per-visit stamp, nothing else. */
  datatype Segment = Segment(scene: Scene, startX: real, uniqueVisitId: int)

  /** The two kinds of draggable item. */
  datatype ItemKind = DialogueKind | ImageKind

  /** The top-level collection: scene id to scene. */
  type Scenes = map<string, Scene>

  /** A layer address that a JavaScript `find(l => l.id === layerId)` would match. */
  function LayerIndex(layers: seq<Layer>, layerId: Option<string>): (r: Option<nat>)
    ensures r.Some? ==> layerId.Some? && r.value < |layers| && layers[r.value].id == layerId.value
    ensures r.Some? ==> forall j :: 0 <= j < r.value ==> layers[j].id != layerId.value
    ensures r.None? ==> layerId.None? || forall j :: 0 <= j < |layers| ==> layers[j].id != layerId.value
  {
    match layerId
    case None => None
    case Some(lid) =>
      if |layers| == 0 then None
      else if layers[0].id == lid then Some(0)
      else match LayerIndex(layers[1..], layerId)
        case None => None
        case Some(k) => Some(k + 1)
  }

  /** Two layer lists with the same ids in the same order find a layer at the same index. */
  lemma {:induction false} LayerIndexSameIds(a: seq<Layer>, b: seq<Layer>, layerId: Option<string>)
    requires |a| == |b| && forall j :: 0 <= j < |a| ==> a[j].id == b[j].id
    ensures LayerIndex(a, layerId) == LayerIndex(b, layerId)
  {
    if |a| > 0 && layerId.Some? && a[0].id != layerId.value {
      LayerIndexSameIds(a[1..], b[1..], layerId);
    }
  }

  /** JavaScript truthiness of an optional string: present and non-empty. */
  predicate Truthy(s: Option<string>) {
    s.Some? && s.value != ""
  }
}
