/** The dnd-kit drag protocol of the asset palette, over the
    position-edits store. Drag start snapshots; hovering only moves dialogue
    lines; drag end always clears the snapshot and then, for an asset, moves
    it or (with Alt held) copies it to the layer named by the drop id; drag
    cancel restores the snapshot. */
module DndKit {
  import opened Wrappers
  import opened Seqs
  import opened Types
  import opened Ownership
  import opened PositionStore

  datatype DragType = DialogueDrag | AssetDrag | MenuDrag

  /** What a draggable carries: a dialogue line or a layer item. */
  datatype Payload = LinePayload(line: Dialogue) | ItemPayload(item: Item)

  function PayloadId(p: Payload): string {
    match p
    case LinePayload(d) => d.id
    case ItemPayload(i) => i.id
  }

  /** The payload read as `Partial<Item>` by `addItem`: a dialogue line has
      none of an item's fields but its id. */
  function AsPatch(p: Payload): ItemPatch {
    match p
    case LinePayload(d) => ItemPatch(Some(d.id), None, None, None, None)
    case ItemPayload(i) => ItemPatch(Some(i.id), Some(i.imageUrl), Some(i.x), Some(i.y), i.zoomFactor)
  }

  /** `DraggedItemType`: the drag data of a draggable or sortable entry. */
  datatype Dragged = Dragged(dragType: DragType, data: Payload, sceneId: Option<string>,
                             layerId: Option<string>, index: nat)

  /** The data of the hovered or dropped-on element: none, a layer container,
      or an entry with drag data. */
  datatype OverData = NoData | LayerData | EntryData(entry: Dragged)

  datatype Over = Over(id: string, data: OverData)

  /** The store and the palette's `draggedItem`. */
  datatype Palette = Palette(store: PosState, dragged: Option<Dragged>)

  /** `onDragStart`: nothing without drag data; otherwise snapshot the store
      and remember the dragged entry. */
  function DragStart(st: Palette, active: Option<Dragged>): (r: Palette)
    ensures active.None? ==> r == st
    ensures active.Some? ==> r.store == TakeSnapshot(st.store) && r.dragged == active
  {
    match active
    case None => st
    case Some(a) => Palette(TakeSnapshot(st.store), active)
  }

  /** `onDragOver`: hovering a layer, or anything without drag data, is
      ignored; a dialogue drag over an entry of a known scene moves the line
      to the entry's index there. Asset drags never change the store. */
  function DragOver(st: Palette, active: Option<Dragged>, over: Option<Over>): (r: Palette)
    ensures r.dragged == st.dragged && r.store.snapshot == st.store.snapshot
    ensures over.Some? && over.value.data == LayerData ==> r == st
    ensures active.None? || active.value.dragType != DialogueDrag ==> r == st
    ensures active.Some? && active.value.dragType == DialogueDrag && over.Some? && over.value.data.EntryData?
            && Truthy(active.value.sceneId) && Truthy(over.value.data.entry.sceneId) ==>
              r.store.scenes == MoveDialogue(st.store.scenes, active.value.sceneId.value, PayloadId(active.value.data),
                                             over.value.data.entry.sceneId.value, over.value.data.entry.index)
  {
    if over.Some? && over.value.data == LayerData then st
    else if active.None? || over.None? || !over.value.data.EntryData? then st
    else
      var a := active.value;
      var o := over.value.data.entry;
      if a.dragType != DialogueDrag then st
      else if !Truthy(a.sceneId) || !Truthy(o.sceneId) then st
      else st.(store := st.store.(scenes := MoveDialogue(st.store.scenes, a.sceneId.value, PayloadId(a.data),
                                                         o.sceneId.value, o.index)))
  }

  // ---- the drop id ----

  /** Position of the first `-` in `s`, if any. */
  function Dash(s: string): (r: Option<nat>)
    ensures r.Some? ==> r.value < |s| && s[r.value] == '-' && '-' !in s[..r.value]
    ensures r.None? ==> '-' !in s
  {
    if |s| == 0 then None
    else if s[0] == '-' then Some(0)
    else match Dash(s[1..])
      case None => None
      case Some(k) =>
        assert s[..k + 1] == [s[0]] + s[1..][..k];
        Some(k + 1)
  }

  /** `const [scene, layer] = id.split('-')`: the text before the first
      `-`, and the text between the first and the second `-` (absent when
      there is no `-`). */
  function SplitDropId(id: string): (r: (string, Option<string>))
    ensures '-' !in r.0
    ensures r.1.Some? ==> '-' !in r.1.value
    ensures r.1.None? <==> '-' !in id
  {
    match Dash(id)
    case None => (id, None)
    case Some(k) =>
      var rest := id[k + 1..];
      match Dash(rest)
      case None => (id[..k], Some(rest))
      case Some(m) => (id[..k], Some(rest[..m]))
  }

  /** The layer droppable's id `${sceneId}-${layerId}` splits back into its
      scene and layer when the scene id has no `-` (the layer ids never do). */
  lemma DropIdRoundTrip(sceneId: string, layerId: LayerId)
    requires '-' !in sceneId
    ensures SplitDropId(sceneId + "-" + layerId) == (sceneId, Some(layerId))
  {
    var id := sceneId + "-" + layerId;
    assert id[..|sceneId|] == sceneId;
    assert id[|sceneId|] == '-';
    assert Dash(id) == Some(|sceneId|) by {
      assert '-' !in id[..|sceneId|];
    }
    assert id[|sceneId| + 1..] == layerId;
    assert '-' !in layerId;
  }

  /** A scene id that contains `-` is cut at its first `-`: the drop then
      names another scene and a wrong layer. */
  lemma DashedSceneIdMisroutes()
    ensures SplitDropId("a-b" + "-" + "fg") == ("a", Some("b"))
  {
    var id := "a-b" + "-" + "fg";
    assert id == "a-b-fg";
    assert id[0] != '-' && id[1] == '-';
    assert Dash(id[1..]) == Some(0);
    assert Dash(id) == Some(1);
    var rest := id[2..];
    assert rest == "b-fg";
    assert rest[0] != '-' && rest[1] == '-';
    assert Dash(rest[1..]) == Some(0);
    assert Dash(rest) == Some(1);
    assert id[..1] == "a" && rest[..1] == "b";
  }

  // ---- drop and cancel ----

  /** `onDragEnd`. The snapshot is always cleared first. Without drag data
      or a drop target the drag is forgotten. A dialogue drag (or none
      remembered) stops there: its hover moves stand. An asset dropped on a
      different scene or layer than its origin is copied with a fresh id when
      Alt is held and moved otherwise; a move needs the origin's scene and
      layer. */
  function DragEnd(st: Palette, active: Option<Dragged>, over: Option<Over>, alt: bool, freshId: string): (r: Palette)
    ensures r.store.snapshot.None?
    ensures active.None? || over.None? ==> r == Palette(ClearSnapshot(st.store), None)
    ensures st.dragged.None? || st.dragged.value.dragType == DialogueDrag ==> r.store.scenes == st.store.scenes
  {
    var s1 := ClearSnapshot(st.store);
    if active.None? || over.None? then Palette(s1, None)
    else if st.dragged.None? || st.dragged.value.dragType == DialogueDrag then st.(store := s1)
    else
      var d := st.dragged.value;
      var (targetScene, targetLayer) := SplitDropId(over.value.id);
      if Some(targetScene) == d.sceneId && targetLayer == d.layerId then Palette(s1, None)
      else if alt then
        var scenes := if targetLayer.None? then s1.scenes
                      else AddItem(s1.scenes, targetScene, targetLayer.value, AsPatch(d.data), freshId);
        Palette(s1.(scenes := scenes), None)
      else if !Truthy(d.sceneId) || !Truthy(d.layerId) then st.(store := s1)
      else
        var scenes := if targetLayer.None? then s1.scenes
                      else PositionStore.MoveItem(s1.scenes, d.sceneId.value, d.layerId.value, PayloadId(d.data),
                                                  targetScene, targetLayer.value);
        Palette(s1.(scenes := scenes), None)
  }

  /** An asset dropped on its own layer changes no scene. */
  lemma DropOnOriginIsNoop(st: Palette, a: Dragged, over: Over, alt: bool, freshId: string)
    requires st.dragged.Some? && st.dragged.value.dragType != DialogueDrag
    requires SplitDropId(over.id) == (st.dragged.value.sceneId.GetOr(""), st.dragged.value.layerId)
    requires Truthy(st.dragged.value.sceneId)
    ensures DragEnd(st, Some(a), Some(over), alt, freshId) == Palette(ClearSnapshot(st.store), None)
  {
  }

  /** An Alt drop on another layer leaves the origin untouched and adds one
      image with the fresh id to the collection. */
  lemma AltDropCopies(st: Palette, a: Dragged, over: Over, freshId: string)
    requires st.dragged.Some? && st.dragged.value.dragType == AssetDrag
    requires st.dragged.value.data.ItemPayload?
    requires var (ts, tl) := SplitDropId(over.id);
             && (Some(ts) != st.dragged.value.sceneId || tl != st.dragged.value.layerId)
             && tl.Some? && ts in st.store.scenes && LayerAt(st.store.scenes[ts].layers, tl.value).Some?
    requires Truthy(AsPatch(st.dragged.value.data).imageUrl)
    ensures var r := DragEnd(st, Some(a), Some(over), true, freshId).store.scenes;
            var (ts, tl) := SplitDropId(over.id);
            && Total(r, PosImages) == Total(st.store.scenes, PosImages) + multiset{NewItem(AsPatch(st.dragged.value.data), freshId)}
            && NewItem(AsPatch(st.dragged.value.data), freshId) == st.dragged.value.data.item.(id := freshId)
            && (forall k :: k in r && k != ts ==> r[k] == st.store.scenes[k])
  {
    var (ts, tl) := SplitDropId(over.id);
    AddItemAddsOne(st.store.scenes, ts, tl.value, AsPatch(st.dragged.value.data), freshId);
  }

  /** A plain drop on another layer moves the asset: nothing is lost or
      duplicated. */
  lemma PlainDropMoves(st: Palette, a: Dragged, over: Over, freshId: string)
    requires st.dragged.Some? && st.dragged.value.dragType == AssetDrag
    ensures var r := DragEnd(st, Some(a), Some(over), false, freshId).store.scenes;
            Total(r, PosImages) == Total(st.store.scenes, PosImages)
            && Total(r, PosLines) == Total(st.store.scenes, PosLines)
  {
    var d := st.dragged.value;
    var (ts, tl) := SplitDropId(over.id);
    var r := DragEnd(st, Some(a), Some(over), false, freshId).store.scenes;
    if !(Some(ts) == d.sceneId && tl == d.layerId) && Truthy(d.sceneId) && Truthy(d.layerId) && tl.Some? {
      var scenes := st.store.scenes;
      assert r == PositionStore.MoveItem(scenes, d.sceneId.value, d.layerId.value, PayloadId(d.data), ts, tl.value);
      PositionStore.MoveItemPreservesOwnership(scenes, d.sceneId.value, d.layerId.value, PayloadId(d.data), ts, tl.value);
    } else {
      assert r == st.store.scenes;
    }
  }

  /** `onDragCancel`: restore the snapshot and forget the drag. The store's
      restore is unguarded, so a snapshot must be outstanding. */
  function DragCancel(st: Palette): (r: Palette)
    requires st.store.snapshot.Some?
    ensures r == Palette(PosState(st.store.snapshot.value, None), None)
  {
    Palette(RestoreSnapshot(st.store), None)
  }

  /** A cancelled dialogue drag undoes all of its hover moves. */
  lemma CancelUndoesHovers(st: Palette, a: Dragged, hovers: seq<Option<Over>>)
    ensures DragCancel(DragOvers(DragStart(st, Some(a)), Some(a), hovers)).store == PosState(st.store.scenes, None)
  {
  }

  function DragOvers(st: Palette, active: Option<Dragged>, hovers: seq<Option<Over>>): (r: Palette)
    ensures r.store.snapshot == st.store.snapshot && r.dragged == st.dragged
    decreases |hovers|
  {
    if |hovers| == 0 then st else DragOvers(DragOver(st, active, hovers[0]), active, hovers[1..])
  }

  /** A completed dialogue drag keeps its hover moves and drops the snapshot. */
  lemma DialogueDropKeepsHovers(st: Palette, a: Dragged, hovers: seq<Option<Over>>, over: Over, alt: bool, freshId: string)
    requires a.dragType == DialogueDrag
    ensures var hovered := DragOvers(DragStart(st, Some(a)), Some(a), hovers);
            DragEnd(hovered, Some(a), Some(over), alt, freshId).store == PosState(hovered.store.scenes, None)
  {
  }

  /** Dragging an image from layer `fg` of a scene onto layer `bg` of the same
      scene with Alt held: `fg` is untouched and `bg` gains a copy of the
      image that differs only in its id. */
  lemma AltDropFgToBg(st: Palette, a: Dragged, sceneId: string, item: Item, freshId: string)
    requires '-' !in sceneId && sceneId in st.store.scenes
    requires st.dragged == Some(Dragged(AssetDrag, ItemPayload(item), Some(sceneId), Some(Fg), 0))
    requires item.imageUrl != ""
    requires LayerAt(st.store.scenes[sceneId].layers, Bg).Some? && LayerAt(st.store.scenes[sceneId].layers, Fg).Some?
    ensures var before := st.store.scenes[sceneId].layers;
            var after := DragEnd(st, Some(a), Some(Over(sceneId + "-" + Bg, LayerData)), true, freshId).store.scenes[sceneId].layers;
            var bg := LayerAt(before, Bg).value;
            var fg := LayerAt(before, Fg).value;
            && |after| == |before|
            && after[fg] == before[fg]
            && after[bg].items == before[bg].items + [item.(id := freshId)]
  {
    DropIdRoundTrip(sceneId, Bg);
  }
}
