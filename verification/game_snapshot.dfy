/** The editor store (`useGameStore`): the single snapshot slot that makes a drag
    gesture undoable. The snapshot is a deep copy, which for immutable values
    is the value itself. */
module GameSnapshot {
  import opened Wrappers
  import opened Seqs
  import opened Types
  import opened GameStore

  /** The part of the store the slot concerns: the live scenes and the slot. */
  datatype Store = Store(scenes: Scenes, snapshot: Option<Scenes>)

  /** `createSnapshot`: copy the live scenes into the slot, overwriting
      whatever was there. */
  function CreateSnapshot(st: Store): (r: Store)
    ensures r.scenes == st.scenes
    ensures r.snapshot.Some? && r.snapshot.value == st.scenes
  {
    st.(snapshot := Some(st.scenes))
  }

  /** `restoreSnapshot`: when the slot is full, make its content live and
      empty it; an empty slot changes nothing. */
  function RestoreSnapshot(st: Store): (r: Store)
    ensures r.snapshot.None?
    ensures st.snapshot.None? ==> r == st
    ensures st.snapshot.Some? ==> r.scenes == st.snapshot.value
  {
    if st.snapshot.Some? then Store(st.snapshot.value, None) else st
  }

  /** Any sequence of store actions on the scenes; none of them touches the slot. */
  function Apply(st: Store, edits: seq<Scenes -> Scenes>): (r: Store)
    ensures r.snapshot == st.snapshot
    ensures |edits| == 0 ==> r == st
    decreases |edits|
  {
    if |edits| == 0 then st else Apply(st.(scenes := edits[0](st.scenes)), edits[1..])
  }

  /** Snapshot atomicity: snapshot, any edits, restore gives back exactly the
      scenes at snapshot time, with an empty slot. */
  lemma SnapshotAtomic(st: Store, edits: seq<Scenes -> Scenes>)
    ensures RestoreSnapshot(Apply(CreateSnapshot(st), edits)) == Store(st.scenes, None)
  {
  }

  /** A second restore finds the slot empty and does nothing. */
  lemma RestoreTwice(st: Store)
    ensures RestoreSnapshot(RestoreSnapshot(st)) == RestoreSnapshot(st)
  {
  }

  /** A cancelled reorder drag: an image layer `[i1, i2]` is reordered to
      `[i2, i1]` while dragging, and the restore brings back `[i1, i2]`. */
  lemma CancelledReorderRestores(st: Store, sid: string, li: nat, i1: ImageAsset, i2: ImageAsset)
    requires sid in st.scenes
    requires LayerIndex(st.scenes[sid].layers, Some(Fg)) == Some(li)
    requires st.scenes[sid].layers[li].items == [i1, i2]
    ensures var dragging := CreateSnapshot(st);
            var hovered := dragging.(scenes := ReorderItem(dragging.scenes, ImageKind, sid, 0, 1, Some(Fg)));
            && LayerIndex(hovered.scenes[sid].layers, Some(Fg)).Some?
            && hovered.scenes[sid].layers[LayerIndex(hovered.scenes[sid].layers, Some(Fg)).value].items == [i2, i1]
            && RestoreSnapshot(hovered) == Store(st.scenes, None)
  {
    var s := st.scenes;
    assert Addressed(s, ImageKind, sid, Some(Fg));
    var r := ReorderItem(s, ImageKind, sid, 0, 1, Some(Fg));
    SwapPair(i1, i2);
    assert r == s[sid := WithItems(s[sid], li, [i2, i1])];
    LayerIndexSameIds(r[sid].layers, s[sid].layers, Some(Fg));
  }

  /** Moving the first of two elements behind the second swaps them. */
  lemma SwapPair<T>(a: T, b: T)
    ensures Reorder([a, b], 0, 1) == [b, a]
  {
    assert RemoveAt([a, b], 0) == [b];
  }
}
