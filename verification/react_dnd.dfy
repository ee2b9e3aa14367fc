/** The react-dnd drag protocol of the v2 sidebar. Drag start
    snapshots the store and records where the item is; every hover over another
    item of the same kind speculatively reorders or moves the item there and
    updates the record; a drop on a container of another collection moves the
    item to the top of it; a drag that ends without a drop restores the
    snapshot. A successful drop leaves the snapshot in its slot. */
module ReactDnd {
  import opened Wrappers
  import opened Seqs
  import opened Types
  import opened GameStore
  import opened GameSnapshot

  /** The dragged item as react-dnd carries it: its id and kind, and the
      scene, layer and index it currently sits at (updated by hovers). */
  datatype DragRecord = DragRecord(id: string, index: nat, kind: ItemKind, sceneId: string, layerId: Option<string>)

  /** Where a rendered item sits: the drop side of an item wrapper. */
  datatype Slot = Slot(kind: ItemKind, sceneId: string, layerId: Option<string>, index: nat)

  /** The store together with the drag in flight, if any. */
  datatype Dnd = Dnd(store: Store, drag: Option<DragRecord>)

  /** Drag start: only when the wrapper allows dragging; snapshot the store and
      record the item's address. */
  function BeginDrag(st: Dnd, canDrag: bool, itemId: string, at: Slot): (r: Dnd)
    ensures !canDrag ==> r == st
    ensures canDrag ==> r.store == CreateSnapshot(st.store)
    ensures canDrag ==> r.drag == Some(DragRecord(itemId, at.index, at.kind, at.sceneId, at.layerId))
  {
    if !canDrag then st
    else Dnd(CreateSnapshot(st.store), Some(DragRecord(itemId, at.index, at.kind, at.sceneId, at.layerId)))
  }

  /** Drag end: without a drop the snapshot is restored; with one nothing is
      undone and the slot is not cleared. */
  function EndDrag(st: Dnd, didDrop: bool): (r: Dnd)
    ensures r.drag.None?
    ensures didDrop ==> r.store == st.store
    ensures !didDrop ==> r.store == RestoreSnapshot(st.store)
  {
    Dnd(if didDrop then st.store else RestoreSnapshot(st.store), None)
  }

  /** The hover sits on the record's own address. */
  predicate SamePosition(rec: DragRecord, at: Slot) {
    rec.index == at.index && rec.sceneId == at.sceneId && rec.layerId == at.layerId
  }

  /** The hover is inside the record's list: a dialogue line of the same scene,
      or an image of the same scene and layer. */
  predicate SameList(rec: DragRecord, at: Slot) {
    rec.sceneId == at.sceneId && (rec.kind == ImageKind ==> rec.layerId == at.layerId)
  }

  /** The layer id the reorder call passes: none for dialogue. */
  function ReorderLayer(rec: DragRecord, at: Slot): Option<string> {
    if rec.kind == DialogueKind then None else at.layerId
  }

  /** The store's precondition for the reorder a hover would issue: the
      recorded index lies inside the list. */
  predicate HoverDefined(scenes: Scenes, rec: DragRecord, at: Slot) {
    (!SamePosition(rec, at) && SameList(rec, at) && Addressed(scenes, rec.kind, at.sceneId, ReorderLayer(rec, at)))
    ==> rec.index < ListLength(scenes, rec.kind, at.sceneId, ReorderLayer(rec, at))
  }

  /** The item-wrapper hover: nothing on the record's own position; a reorder
      inside the record's list; a move otherwise. The record then holds the
      hovered position (a dialogue move updates only its scene and index). */
  function Hover(scenes: Scenes, rec: DragRecord, at: Slot): (r: (Scenes, DragRecord))
    requires HoverDefined(scenes, rec, at)
    ensures SamePosition(rec, at) ==> r == (scenes, rec)
    ensures !SamePosition(rec, at) ==> r.1.index == at.index && r.1.sceneId == at.sceneId && r.1.id == rec.id && r.1.kind == rec.kind
    ensures !SamePosition(rec, at) && rec.kind == ImageKind ==> r.1.layerId == at.layerId
    ensures rec.kind == DialogueKind ==> r.1.layerId == rec.layerId
    ensures r.0.Keys == scenes.Keys
  {
    if SamePosition(rec, at) then (scenes, rec)
    else if SameList(rec, at) then
      (ReorderItem(scenes, rec.kind, at.sceneId, rec.index, at.index, ReorderLayer(rec, at)), rec.(index := at.index))
    else match rec.kind
      case DialogueKind =>
        (MoveItem(scenes, DialogueKind, rec.sceneId, at.sceneId, rec.id, at.index, None, None),
         rec.(sceneId := at.sceneId, index := at.index))
      case ImageKind =>
        (MoveItem(scenes, ImageKind, rec.sceneId, at.sceneId, rec.id, at.index, rec.layerId, at.layerId),
         rec.(sceneId := at.sceneId, layerId := at.layerId, index := at.index))
  }

  /** A hover event on the state: ignored without a drag or when the hovered
      wrapper accepts another kind (`${type}-item`). */
  function HoverEvent(st: Dnd, at: Slot): (r: Dnd)
    requires st.drag.Some? ==> HoverDefined(st.store.scenes, st.drag.value, at)
    ensures r.store.snapshot == st.store.snapshot
    ensures r.drag.Some? == st.drag.Some?
    ensures st.drag.None? || st.drag.value.kind != at.kind ==> r == st
  {
    if st.drag.None? || st.drag.value.kind != at.kind then st
    else
      var (scenes, rec) := Hover(st.store.scenes, st.drag.value, at);
      Dnd(st.store.(scenes := scenes), Some(rec))
  }

  /** Every hover of the sequence meets the store's precondition when it fires. */
  predicate HoversDefined(st: Dnd, ats: seq<Slot>)
    decreases |ats|
  {
    |ats| > 0 ==>
      (st.drag.Some? ==> HoverDefined(st.store.scenes, st.drag.value, ats[0]))
      && HoversDefined(HoverEvent(st, ats[0]), ats[1..])
  }

  function Hovers(st: Dnd, ats: seq<Slot>): (r: Dnd)
    requires HoversDefined(st, ats)
    ensures r.store.snapshot == st.store.snapshot
    decreases |ats|
  {
    if |ats| == 0 then st else Hovers(HoverEvent(st, ats[0]), ats[1..])
  }

  /** A drag that is released outside any target undoes every speculative
      hover: the scenes are those from before the drag started. */
  lemma CancelledDragRestores(st: Dnd, itemId: string, at: Slot, ats: seq<Slot>)
    requires HoversDefined(BeginDrag(st, true, itemId, at), ats)
    ensures EndDrag(Hovers(BeginDrag(st, true, itemId, at), ats), false).store == Store(st.store.scenes, None)
  {
  }

  // ---- tracking: the record always says where the item sits ----

  function LineId(d: Dialogue): string { d.id }
  function ImageId(i: ImageAsset): string { i.id }

  /** `id` sits at index `i` of `s` and nowhere else. */
  predicate Tracked<T>(s: seq<T>, key: T -> string, id: string, i: nat) {
    i < |s| && key(s[i]) == id && forall j :: 0 <= j < |s| && j != i ==> key(s[j]) != id
  }

  lemma TrackedReorder<T>(s: seq<T>, key: T -> string, id: string, oldIndex: nat, newIndex: nat)
    requires Tracked(s, key, id, oldIndex) && newIndex < |s|
    ensures Tracked(Reorder(s, oldIndex, newIndex), key, id, newIndex)
  {
    var t := RemoveAt(s, oldIndex);
    forall j | 0 <= j < |t| ensures key(t[j]) != id {
      if j < oldIndex {
        assert t[j] == t[..oldIndex][j] == s[..oldIndex][j] == s[j];
      } else {
        assert t[j] == t[oldIndex..][j - oldIndex] == s[oldIndex + 1..][j - oldIndex] == s[j + 1];
      }
    }
    TrackedInsert(t, key, id, s[oldIndex], newIndex);
  }

  lemma TrackedInsert<T>(s: seq<T>, key: T -> string, id: string, x: T, i: nat)
    requires key(x) == id && i <= |s|
    requires forall j :: 0 <= j < |s| ==> key(s[j]) != id
    ensures Tracked(InsertAt(s, i, x), key, id, i)
  {
    var r := InsertAt(s, i, x);
    forall j | 0 <= j < |r| && j != i ensures key(r[j]) != id {
      if j < i {
        assert r[j] == r[..i][j] == s[..i][j] == s[j];
      } else {
        assert r[j] == r[i + 1..][j - i - 1] == s[i..][j - i - 1] == s[j - 1];
      }
    }
  }

  /** The record says where its item is: the item sits at the recorded index
      of the recorded list, and no other entry of that list has its id. A
      dialogue record has no layer. */
  predicate Tracks(scenes: Scenes, rec: DragRecord) {
    && rec.sceneId in scenes
    && match rec.kind
       case DialogueKind =>
         rec.layerId.None? && Tracked(scenes[rec.sceneId].dialogue, LineId, rec.id, rec.index)
       case ImageKind =>
         && Truthy(rec.layerId)
         && LayerIndex(scenes[rec.sceneId].layers, rec.layerId).Some?
         && Tracked(scenes[rec.sceneId].layers[LayerIndex(scenes[rec.sceneId].layers, rec.layerId).value].items,
                    ImageId, rec.id, rec.index)
  }

  /** A hover target is the wrapper of an existing item of the record's kind:
      its list exists and holds an entry at the hovered index; a list other
      than the record's does not hold the dragged id. The draft line's
      wrapper, one past the end, is not one (see `DraftSlotLosesTrack`). */
  predicate ValidSlot(scenes: Scenes, rec: DragRecord, at: Slot) {
    && at.kind == rec.kind
    && at.sceneId in scenes
    && match rec.kind
       case DialogueKind =>
         && at.layerId.None?
         && at.index < |scenes[at.sceneId].dialogue|
         && (at.sceneId != rec.sceneId ==> forall d :: d in scenes[at.sceneId].dialogue ==> d.id != rec.id)
       case ImageKind =>
         && Truthy(at.layerId)
         && LayerIndex(scenes[at.sceneId].layers, at.layerId).Some?
         && var items := scenes[at.sceneId].layers[LayerIndex(scenes[at.sceneId].layers, at.layerId).value].items;
            && at.index < |items|
            && (!SameList(rec, at) ==> forall i :: i in items ==> i.id != rec.id)
  }

  lemma TrackedIsFirstLine(lines: seq<Dialogue>, id: string, i: nat)
    requires Tracked(lines, LineId, id, i)
    ensures LineIndex(lines, id) == Some(i)
  {
    assert LineId(lines[i]) == id;
    forall j | 0 <= j < |lines| && j != i ensures lines[j].id != id {
      assert LineId(lines[j]) != id;
    }
  }

  lemma TrackedIsFirstImage(items: seq<ImageAsset>, id: string, i: nat)
    requires Tracked(items, ImageId, id, i)
    ensures ItemIndex(items, id) == Some(i)
  {
    assert ImageId(items[i]) == id;
    forall j | 0 <= j < |items| && j != i ensures items[j].id != id {
      assert ImageId(items[j]) != id;
    }
  }

  /** A tracked record makes every hover well defined. */
  lemma TrackedHoverDefined(scenes: Scenes, rec: DragRecord, at: Slot)
    requires Tracks(scenes, rec) && ValidSlot(scenes, rec, at)
    ensures HoverDefined(scenes, rec, at)
  {
  }

  /** Hover keeps the record honest: after it, the item sits exactly at the
      hovered position, which the record now holds. */
  lemma HoverKeepsTracking(scenes: Scenes, rec: DragRecord, at: Slot)
    requires Tracks(scenes, rec) && ValidSlot(scenes, rec, at)
    ensures HoverDefined(scenes, rec, at)
    ensures var (scenes', rec') := Hover(scenes, rec, at); Tracks(scenes', rec')
  {
    if SamePosition(rec, at) {
    } else if SameList(rec, at) {
      match rec.kind
      case DialogueKind =>
        TrackedReorder(scenes[rec.sceneId].dialogue, LineId, rec.id, rec.index, at.index);
      case ImageKind =>
        var li := LayerIndex(scenes[rec.sceneId].layers, rec.layerId).value;
        TrackedReorder(scenes[rec.sceneId].layers[li].items, ImageId, rec.id, rec.index, at.index);
    } else {
      match rec.kind
      case DialogueKind =>
        HoverMovesLine(scenes, rec, at);
      case ImageKind =>
        HoverMovesImage(scenes, rec, at);
    }
  }

  /** The draft line's wrapper sits one past the last line of its scene, so
      `ValidSlot` leaves it out, and rightly: a hover over it from the same
      scene lands the line last but records the index one past the end. The
      record no longer tracks the line, and the next hover over any other
      line of that scene falls outside the store's precondition. */
  lemma DraftSlotLosesTrack(scenes: Scenes, rec: DragRecord)
    requires Tracks(scenes, rec) && rec.kind == DialogueKind
    ensures var at := Slot(DialogueKind, rec.sceneId, None, |scenes[rec.sceneId].dialogue|);
            && HoverDefined(scenes, rec, at)
            && var (scenes', rec') := Hover(scenes, rec, at);
               var lines := scenes'[rec.sceneId].dialogue;
               && |lines| == |scenes[rec.sceneId].dialogue|
               && lines[|lines| - 1] == scenes[rec.sceneId].dialogue[rec.index]
               && rec'.index == |lines|
               && !Tracks(scenes', rec')
               && forall j: nat :: j != |lines| ==>
                    !HoverDefined(scenes', rec', Slot(DialogueKind, rec.sceneId, None, j))
  {
  }

  lemma HoverMovesLine(scenes: Scenes, rec: DragRecord, at: Slot)
    requires Tracks(scenes, rec) && ValidSlot(scenes, rec, at)
    requires rec.kind == DialogueKind && !SameList(rec, at)
    ensures Tracks(MoveItem(scenes, DialogueKind, rec.sceneId, at.sceneId, rec.id, at.index, None, None),
                   rec.(sceneId := at.sceneId, index := at.index))
  {
    var lines := scenes[rec.sceneId].dialogue;
    TrackedIsFirstLine(lines, rec.id, rec.index);
    var target := scenes[at.sceneId].dialogue;
    assert forall j :: 0 <= j < |target| ==> LineId(target[j]) != rec.id by {
      forall j | 0 <= j < |target| ensures LineId(target[j]) != rec.id {
        assert target[j] in target;
      }
    }
    TrackedInsert(target, LineId, rec.id, lines[rec.index], at.index);
  }

  lemma HoverMovesImage(scenes: Scenes, rec: DragRecord, at: Slot)
    requires Tracks(scenes, rec) && ValidSlot(scenes, rec, at)
    requires rec.kind == ImageKind && !SameList(rec, at)
    ensures Tracks(MoveItem(scenes, ImageKind, rec.sceneId, at.sceneId, rec.id, at.index, rec.layerId, at.layerId),
                   rec.(sceneId := at.sceneId, layerId := at.layerId, index := at.index))
  {
    var sl := LayerIndex(scenes[rec.sceneId].layers, rec.layerId).value;
    var tl := LayerIndex(scenes[at.sceneId].layers, at.layerId).value;
    var items := scenes[rec.sceneId].layers[sl].items;
    TrackedIsFirstImage(items, rec.id, rec.index);
    assert Found(scenes, ImageKind, rec.sceneId, at.sceneId, rec.id, rec.layerId, at.layerId);
    var target := scenes[at.sceneId].layers[tl].items;
    assert forall j :: 0 <= j < |target| ==> ImageId(target[j]) != rec.id by {
      forall j | 0 <= j < |target| ensures ImageId(target[j]) != rec.id {
        assert target[j] in target;
      }
    }
    MoveImageTarget(scenes, rec.sceneId, at.sceneId, rec.id, at.index, rec.layerId, at.layerId);
    var r := MoveItem(scenes, ImageKind, rec.sceneId, at.sceneId, rec.id, at.index, rec.layerId, at.layerId);
    assert r[at.sceneId].layers[tl].items == InsertAt(target, at.index, items[rec.index]);
    TrackedInsert(target, ImageId, rec.id, items[rec.index], at.index);
    LayerIndexSameIds(r[at.sceneId].layers, scenes[at.sceneId].layers, at.layerId);
  }

  // ---- drops on containers ----

  /** A drop target: a scene's dialogue section, its image section, or one of
      its layers (only layers carry a layer id). */
  datatype Container = Container(kind: ItemKind, sceneId: string, layerId: Option<string>)

  /** `isSameCollection` as the sidebar defines it: the same scene, and for a
      layer container also the same layer. */
  predicate SameCollection(rec: DragRecord, c: Container) {
    rec.sceneId == c.sceneId && (c.layerId.Some? ==> rec.layerId == c.layerId)
  }

  /** The target layer of a container drop: the container's, or else the item's own. */
  function DropLayer(rec: DragRecord, c: Container): Option<string> {
    if Truthy(c.layerId) then c.layerId else rec.layerId
  }

  /** Container drop: ignored for another kind or the item's own collection;
      otherwise the item moves to index 0 of the container's list and the
      container's `onDrop` fires (second component). */
  function DropOn(st: Dnd, c: Container): (r: (Dnd, bool))
    ensures r.0.drag == st.drag && r.0.store.snapshot == st.store.snapshot
    ensures st.drag.None? || st.drag.value.kind != c.kind || SameCollection(st.drag.value, c) ==> r == (st, false)
    ensures st.drag.Some? && st.drag.value.kind == c.kind && !SameCollection(st.drag.value, c) ==> r.1
  {
    if st.drag.None? || st.drag.value.kind != c.kind || SameCollection(st.drag.value, c) then (st, false)
    else
      var rec := st.drag.value;
      var scenes := MoveItem(st.store.scenes, rec.kind, rec.sceneId, c.sceneId, rec.id, 0, rec.layerId, DropLayer(rec, c));
      (st.(store := st.store.(scenes := scenes)), true)
  }

  /** A drop on another collection puts the item at the top of the target list. */
  lemma DropPutsItemFirst(st: Dnd, c: Container)
    requires st.drag.Some? && st.drag.value.kind == c.kind && !SameCollection(st.drag.value, c)
    // a container's layer id is a rendered layer id ("bg", "mid", "fg") or absent, never empty
    requires c.layerId != Some("")
    requires var rec := st.drag.value;
             Found(st.store.scenes, rec.kind, rec.sceneId, c.sceneId, rec.id, rec.layerId, DropLayer(rec, c))
    ensures var rec := st.drag.value;
            var scenes := st.store.scenes;
            var r := DropOn(st, c).0.store.scenes;
            match rec.kind
            case DialogueKind =>
              r[c.sceneId].dialogue[0] == scenes[rec.sceneId].dialogue[LineIndex(scenes[rec.sceneId].dialogue, rec.id).value]
            case ImageKind =>
              var sl := LayerIndex(scenes[rec.sceneId].layers, rec.layerId).value;
              var tl := LayerIndex(scenes[c.sceneId].layers, DropLayer(rec, c)).value;
              && tl < |r[c.sceneId].layers| && |r[c.sceneId].layers[tl].items| > 0
              && r[c.sceneId].layers[tl].items[0] == scenes[rec.sceneId].layers[sl].items[ItemIndex(scenes[rec.sceneId].layers[sl].items, rec.id).value]
  {
    var rec := st.drag.value;
    match rec.kind
    case DialogueKind =>
      MoveLinePlacement(st.store.scenes, rec.sceneId, c.sceneId, rec.id, 0);
    case ImageKind =>
      MoveImagePlacement(st.store.scenes, rec.sceneId, c.sceneId, rec.id, 0, rec.layerId, DropLayer(rec, c));
  }

  // ---- DroppableSection ----

  /** The `drop` of a collapsible section: accepts its own kind only; an item
      from another scene is moved to index 0 of this scene, passing no target
      layer. */
  function SectionDrop(scenes: Scenes, section: ItemKind, sceneId: string, rec: DragRecord): (r: Scenes)
    ensures rec.kind != section || rec.sceneId == sceneId ==> r == scenes
  {
    if rec.kind != section || rec.sceneId == sceneId then scenes
    else MoveItem(scenes, section, rec.sceneId, sceneId, rec.id, 0, rec.layerId, None)
  }

  /** An image dropped on a section never moves: the store cannot find a
      target layer without an id. */
  lemma SectionImageDropIsNoop(scenes: Scenes, sceneId: string, rec: DragRecord)
    ensures SectionDrop(scenes, ImageKind, sceneId, rec) == scenes
  {
  }

  /** A line dropped on another scene's dialogue section becomes its first line. */
  lemma SectionLineDropFirst(scenes: Scenes, sceneId: string, rec: DragRecord)
    requires rec.kind == DialogueKind && rec.sceneId != sceneId
    requires Found(scenes, DialogueKind, rec.sceneId, sceneId, rec.id, rec.layerId, None)
    ensures SectionDrop(scenes, DialogueKind, sceneId, rec)[sceneId].dialogue[0]
         == scenes[rec.sceneId].dialogue[LineIndex(scenes[rec.sceneId].dialogue, rec.id).value]
  {
    MoveLinePlacement(scenes, rec.sceneId, sceneId, rec.id, 0);
  }
}
