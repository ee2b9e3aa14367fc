/** The position-edits store (`usePositionStore`): the older draft of the scene store. Its items
    carry `imageUrl` instead of `name`/`url`, image moves always append, and
    its `restoreSnapshot` does not check the slot. Layers are found by plain
    string id. */
module PositionStore {
  import opened Wrappers
  import opened Seqs
  import opened Types
  import opened Ownership

  datatype Item = Item(id: string, imageUrl: string, x: real, y: real, zoomFactor: Option<real>)

  datatype PosLayer = PosLayer(id: string, items: seq<Item>)

  /** A scene as this store uses it: only the layers and the dialogue are touched. */
  datatype PosScene = PosScene(id: string, layers: seq<PosLayer>, dialogue: seq<Dialogue>)

  type PosScenes = map<string, PosScene>

  datatype PosState = PosState(scenes: PosScenes, snapshot: Option<PosScenes>)

  /** `Partial<Item>` and `Partial<DialogueItem>`. */
  datatype ItemPatch = ItemPatch(id: Option<string>, imageUrl: Option<string>, x: Option<real>,
                                 y: Option<real>, zoomFactor: Option<real>)
  datatype LinePatch = LinePatch(id: Option<string>, speaker: Option<string>, text: Option<string>)

  // ---- snapshot slot ----

  /** `takeSnapshot`: copy the scenes into the slot. */
  function TakeSnapshot(st: PosState): (r: PosState)
    ensures r.scenes == st.scenes && r.snapshot == Some(st.scenes)
  {
    st.(snapshot := Some(st.scenes))
  }

  /** `restoreSnapshot`: make the slot's content live and empty the slot. There
      is no check: with an empty slot the store would set its scenes to `null`,
      so a caller must only restore with a snapshot outstanding. */
  function RestoreSnapshot(st: PosState): (r: PosState)
    requires st.snapshot.Some?
    ensures r.scenes == st.snapshot.value && r.snapshot.None?
  {
    PosState(st.snapshot.value, None)
  }

  /** `clearSnapshot`: empty the slot and keep the live scenes. */
  function ClearSnapshot(st: PosState): (r: PosState)
    ensures r.scenes == st.scenes && r.snapshot.None?
  {
    st.(snapshot := None)
  }

  /** Any edits to the scenes between take and restore are undone. */
  lemma TakeThenRestore(st: PosState, edits: seq<PosScenes -> PosScenes>)
    ensures RestoreSnapshot(ApplyEdits(TakeSnapshot(st), edits)) == PosState(st.scenes, None)
  {
  }

  function ApplyEdits(st: PosState, edits: seq<PosScenes -> PosScenes>): (r: PosState)
    ensures r.snapshot == st.snapshot
    decreases |edits|
  {
    if |edits| == 0 then st else ApplyEdits(st.(scenes := edits[0](st.scenes)), edits[1..])
  }

  // ---- lookups ----

  function LayerAt(ls: seq<PosLayer>, layerId: string): Option<nat> {
    FirstIndex(ls, (l: PosLayer) => l.id == layerId)
  }

  function ItemAt(items: seq<Item>, itemId: string): Option<nat> {
    FirstIndex(items, (i: Item) => i.id == itemId)
  }

  function LineAt(lines: seq<Dialogue>, lineId: string): Option<nat> {
    FirstIndex(lines, (d: Dialogue) => d.id == lineId)
  }

  /** The scene with the items of layer `li` replaced. */
  function SetItems(sc: PosScene, li: nat, items: seq<Item>): (r: PosScene)
    requires li < |sc.layers|
    ensures |r.layers| == |sc.layers|
    ensures forall j :: 0 <= j < |sc.layers| ==> r.layers[j].id == sc.layers[j].id
    ensures forall j :: 0 <= j < |sc.layers| && j != li ==> r.layers[j] == sc.layers[j]
    ensures r.layers[li].items == items
    ensures r.dialogue == sc.dialogue && r.id == sc.id
  {
    sc.(layers := sc.layers[li := sc.layers[li].(items := items)])
  }

  // ---- images ----

  /** Every lookup of `moveItem` succeeds, checked in the store's order: source
      scene, source layer, item, target scene, target layer. */
  predicate MoveFound(scenes: PosScenes, fromScene: string, fromLayer: string, itemId: string,
                      toScene: string, toLayer: string)
  {
    && fromScene in scenes
    && LayerAt(scenes[fromScene].layers, fromLayer).Some?
    && ItemAt(scenes[fromScene].layers[LayerAt(scenes[fromScene].layers, fromLayer).value].items, itemId).Some?
    && toScene in scenes
    && LayerAt(scenes[toScene].layers, toLayer).Some?
  }

  /** `moveItem`: push the item onto the end of the target layer, then splice
      it out of its index in the source layer. Both layers are the same list
      when the addresses agree, so a same-layer move puts the item last. */
  function MoveItem(scenes: PosScenes, fromScene: string, fromLayer: string, itemId: string,
                    toScene: string, toLayer: string): (r: PosScenes)
    ensures r.Keys == scenes.Keys
    ensures !MoveFound(scenes, fromScene, fromLayer, itemId, toScene, toLayer) ==> r == scenes
    ensures forall k :: k in scenes && k != fromScene && k != toScene ==> r[k] == scenes[k]
  {
    if !MoveFound(scenes, fromScene, fromLayer, itemId, toScene, toLayer) then scenes
    else
      var fl := LayerAt(scenes[fromScene].layers, fromLayer).value;
      var i := ItemAt(scenes[fromScene].layers[fl].items, itemId).value;
      var tl := LayerAt(scenes[toScene].layers, toLayer).value;
      var item := scenes[fromScene].layers[fl].items[i];
      var s1 := scenes[toScene := SetItems(scenes[toScene], tl, scenes[toScene].layers[tl].items + [item])];
      assert |s1[fromScene].layers[fl].items| >= |scenes[fromScene].layers[fl].items|;
      s1[fromScene := SetItems(s1[fromScene], fl, RemoveAt(s1[fromScene].layers[fl].items, i))]
  }

  /** A move between two different layers: the target gains the item at its
      end and the source loses exactly the item at its index. */
  lemma MoveItemAppends(scenes: PosScenes, fromScene: string, fromLayer: string, itemId: string,
                        toScene: string, toLayer: string)
    requires MoveFound(scenes, fromScene, fromLayer, itemId, toScene, toLayer)
    requires fromScene != toScene || fromLayer != toLayer
    ensures var r := MoveItem(scenes, fromScene, fromLayer, itemId, toScene, toLayer);
            var fl := LayerAt(scenes[fromScene].layers, fromLayer).value;
            var i := ItemAt(scenes[fromScene].layers[fl].items, itemId).value;
            var tl := LayerAt(scenes[toScene].layers, toLayer).value;
            && |r[toScene].layers| == |scenes[toScene].layers|
            && |r[fromScene].layers| == |scenes[fromScene].layers|
            && r[toScene].layers[tl].items == scenes[toScene].layers[tl].items + [scenes[fromScene].layers[fl].items[i]]
            && r[fromScene].layers[fl].items == RemoveAt(scenes[fromScene].layers[fl].items, i)
  {
    var fl := LayerAt(scenes[fromScene].layers, fromLayer).value;
    var tl := LayerAt(scenes[toScene].layers, toLayer).value;
    assert fromScene == toScene ==> fl != tl;
  }

  /** A move within one layer puts the item last and keeps the others in order. */
  lemma MoveItemSameLayerLast(scenes: PosScenes, sid: string, layerId: string, itemId: string)
    requires MoveFound(scenes, sid, layerId, itemId, sid, layerId)
    ensures var r := MoveItem(scenes, sid, layerId, itemId, sid, layerId);
            var li := LayerAt(scenes[sid].layers, layerId).value;
            var items := scenes[sid].layers[li].items;
            var i := ItemAt(items, itemId).value;
            |r[sid].layers| == |scenes[sid].layers| && r[sid].layers[li].items == RemoveAt(items, i) + [items[i]]
  {
    var li := LayerAt(scenes[sid].layers, layerId).value;
    var items := scenes[sid].layers[li].items;
    var i := ItemAt(items, itemId).value;
    assert RemoveAt(items + [items[i]], i) == RemoveAt(items, i) + [items[i]];
  }

  /** Every image item of a scene. */
  function PosLayersItems(ls: seq<PosLayer>): multiset<Item> {
    if |ls| == 0 then multiset{} else multiset(ls[0].items) + PosLayersItems(ls[1..])
  }

  function PosImages(sc: PosScene): multiset<Item> {
    PosLayersItems(sc.layers)
  }

  function PosLines(sc: PosScene): multiset<Dialogue> {
    multiset(sc.dialogue)
  }

  /** Replacing one layer's items changes the layer sum by exactly that list. */
  lemma {:induction false} PosLayersItemsUpdate(ls: seq<PosLayer>, i: nat, items: seq<Item>)
    requires i < |ls|
    ensures PosLayersItems(ls[i := ls[i].(items := items)]) + multiset(ls[i].items)
         == PosLayersItems(ls) + multiset(items)
  {
    var ls' := ls[i := ls[i].(items := items)];
    assert PosLayersItems(ls') == multiset(ls'[0].items) + PosLayersItems(ls'[1..]);
    assert PosLayersItems(ls) == multiset(ls[0].items) + PosLayersItems(ls[1..]);
    if i == 0 {
      assert ls'[1..] == ls[1..];
    } else {
      assert ls'[0] == ls[0];
      assert ls[1..][i - 1] == ls[i];
      assert ls'[1..] == ls[1..][i - 1 := ls[1..][i - 1].(items := items)];
      PosLayersItemsUpdate(ls[1..], i - 1, items);
      var a, b, b' := multiset(ls[0].items), PosLayersItems(ls[1..]), PosLayersItems(ls'[1..]);
      var x, y := multiset(ls[i].items), multiset(items);
      assert b' + x == b + y;
      assert (a + b') + x == a + (b' + x) == a + (b + y) == (a + b) + y;
    }
  }

  /** Writing `items` into layer `li` of scene `sid` changes the collection's
      images by exactly the difference of the two lists. */
  lemma SetItemsTotals(scenes: PosScenes, sid: string, li: nat, items: seq<Item>)
    requires sid in scenes && li < |scenes[sid].layers|
    ensures Total(scenes[sid := SetItems(scenes[sid], li, items)], PosImages) + multiset(scenes[sid].layers[li].items)
         == Total(scenes, PosImages) + multiset(items)
    ensures Total(scenes[sid := SetItems(scenes[sid], li, items)], PosLines) == Total(scenes, PosLines)
  {
    var v := SetItems(scenes[sid], li, items);
    PosLayersItemsUpdate(scenes[sid].layers, li, items);
    TotalUpdateDelta(scenes, PosImages, sid, v, multiset(scenes[sid].layers[li].items), multiset(items));
    TotalUpdateSame(scenes, PosLines, sid, v);
  }

  /** A move never loses or duplicates an image, and no dialogue changes. */
  lemma MoveItemPreservesOwnership(scenes: PosScenes, fromScene: string, fromLayer: string, itemId: string,
                                   toScene: string, toLayer: string)
    ensures var r := MoveItem(scenes, fromScene, fromLayer, itemId, toScene, toLayer);
            Total(r, PosImages) == Total(scenes, PosImages) && Total(r, PosLines) == Total(scenes, PosLines)
  {
    if MoveFound(scenes, fromScene, fromLayer, itemId, toScene, toLayer) {
      var fl := LayerAt(scenes[fromScene].layers, fromLayer).value;
      var i := ItemAt(scenes[fromScene].layers[fl].items, itemId).value;
      var tl := LayerAt(scenes[toScene].layers, toLayer).value;
      var item := scenes[fromScene].layers[fl].items[i];
      var pushed := scenes[toScene].layers[tl].items + [item];
      var s1 := scenes[toScene := SetItems(scenes[toScene], tl, pushed)];
      SetItemsTotals(scenes, toScene, tl, pushed);
      var src := s1[fromScene].layers[fl].items;
      assert src[i] == item;
      var rest := RemoveAt(src, i);
      SetItemsTotals(s1, fromScene, fl, rest);
      var t0, t1, t2 := Total(scenes, PosImages), Total(s1, PosImages), Total(s1[fromScene := SetItems(s1[fromScene], fl, rest)], PosImages);
      var o := multiset(scenes[toScene].layers[tl].items);
      assert t1 + o == t0 + o + multiset{item};
      Cancel(t1, t0 + multiset{item}, o);
      assert t2 + multiset(src) == t1 + multiset(rest);
      assert multiset(rest) + multiset{item} == multiset(src);
      assert t2 + multiset(src) == (t0 + multiset(rest)) + multiset{item};
      assert t2 + multiset(src) == t0 + multiset(src);
      Cancel(t2, t0, multiset(src));
    }
  }

  /** The item `addItem` builds: fresh id, coordinates default to 0, zoom as given. */
  function NewItem(patch: ItemPatch, freshId: string): (it: Item)
    requires patch.imageUrl.Some?
    ensures it.id == freshId && it.imageUrl == patch.imageUrl.value && it.zoomFactor == patch.zoomFactor
    ensures it.x == patch.x.GetOr(0.0) && it.y == patch.y.GetOr(0.0)
  {
    Item(freshId, patch.imageUrl.value, patch.x.GetOr(0.0), patch.y.GetOr(0.0), patch.zoomFactor)
  }

  /** `addItem`: needs a truthy `imageUrl`, the scene and the layer; appends
      one new item. */
  function AddItem(scenes: PosScenes, sid: string, layerId: string, patch: ItemPatch, freshId: string): (r: PosScenes)
    ensures r.Keys == scenes.Keys
    ensures forall k :: k in scenes && k != sid ==> r[k] == scenes[k]
    ensures !Truthy(patch.imageUrl) || sid !in scenes || LayerAt(scenes[sid].layers, layerId).None? ==> r == scenes
    ensures Truthy(patch.imageUrl) && sid in scenes && LayerAt(scenes[sid].layers, layerId).Some? ==>
              var li := LayerAt(scenes[sid].layers, layerId).value;
              r[sid] == SetItems(scenes[sid], li, scenes[sid].layers[li].items + [NewItem(patch, freshId)])
  {
    if !Truthy(patch.imageUrl) || sid !in scenes then scenes
    else match LayerAt(scenes[sid].layers, layerId)
      case None => scenes
      case Some(li) => scenes[sid := SetItems(scenes[sid], li, scenes[sid].layers[li].items + [NewItem(patch, freshId)])]
  }

  /** `addItem` adds exactly one image to the collection. */
  lemma AddItemAddsOne(scenes: PosScenes, sid: string, layerId: string, patch: ItemPatch, freshId: string)
    requires Truthy(patch.imageUrl) && sid in scenes && LayerAt(scenes[sid].layers, layerId).Some?
    ensures Total(AddItem(scenes, sid, layerId, patch, freshId), PosImages)
         == Total(scenes, PosImages) + multiset{NewItem(patch, freshId)}
  {
    var li := LayerAt(scenes[sid].layers, layerId).value;
    var before := scenes[sid].layers[li].items;
    var it := NewItem(patch, freshId);
    SetItemsTotals(scenes, sid, li, before + [it]);
    var t', t := Total(AddItem(scenes, sid, layerId, patch, freshId), PosImages), Total(scenes, PosImages);
    assert t' + multiset(before) == (t + multiset{it}) + multiset(before);
    Cancel(t', t + multiset{it}, multiset(before));
  }

  /** `Object.assign(item, patch)`. */
  function AssignItem(item: Item, patch: ItemPatch): (r: Item)
    ensures patch == ItemPatch(None, None, None, None, None) ==> r == item
    ensures patch.x.Some? ==> r.x == patch.x.value
    ensures patch.x.None? ==> r.x == item.x
    ensures patch.y.Some? ==> r.y == patch.y.value
    ensures patch.y.None? ==> r.y == item.y
    ensures r.id == (if patch.id.Some? then patch.id.value else item.id)
    ensures r.imageUrl == (if patch.imageUrl.Some? then patch.imageUrl.value else item.imageUrl)
    ensures r.zoomFactor == (if patch.zoomFactor.Some? then patch.zoomFactor else item.zoomFactor)
  {
    Item(patch.id.GetOr(item.id), patch.imageUrl.GetOr(item.imageUrl), patch.x.GetOr(item.x),
         patch.y.GetOr(item.y), if patch.zoomFactor.Some? then patch.zoomFactor else item.zoomFactor)
  }

  /** `update`: assign the patch onto the first item with `itemId`, or push a
      new item with that id when the patch has a truthy `imageUrl` (zoom
      defaulting to 1). The scene is read without a check, so it must exist;
      a missing layer is a no-op. */
  function Update(scenes: PosScenes, sid: string, layerId: string, itemId: string, patch: ItemPatch): (r: PosScenes)
    requires sid in scenes
    ensures r.Keys == scenes.Keys
    ensures forall k :: k in scenes && k != sid ==> r[k] == scenes[k]
    ensures LayerAt(scenes[sid].layers, layerId).None? ==> r == scenes
    ensures LayerAt(scenes[sid].layers, layerId).Some? ==>
              var li := LayerAt(scenes[sid].layers, layerId).value;
              var items := scenes[sid].layers[li].items;
              && |r[sid].layers| == |scenes[sid].layers|
              && (ItemAt(items, itemId).Some? ==>
                    var i := ItemAt(items, itemId).value;
                    r[sid].layers[li].items == items[i := AssignItem(items[i], patch)])
              && (ItemAt(items, itemId).None? && Truthy(patch.imageUrl) ==>
                    r[sid].layers[li].items == items + [Item(itemId, patch.imageUrl.value, patch.x.GetOr(0.0),
                                                              patch.y.GetOr(0.0), Some(patch.zoomFactor.GetOr(1.0)))])
              && (ItemAt(items, itemId).None? && !Truthy(patch.imageUrl) ==> r == scenes)
  {
    match LayerAt(scenes[sid].layers, layerId)
    case None => scenes
    case Some(li) =>
      var items := scenes[sid].layers[li].items;
      match ItemAt(items, itemId)
      case Some(i) => scenes[sid := SetItems(scenes[sid], li, items[i := AssignItem(items[i], patch)])]
      case None =>
        if Truthy(patch.imageUrl) then
          scenes[sid := SetItems(scenes[sid], li, items + [Item(itemId, patch.imageUrl.value, patch.x.GetOr(0.0),
                                                                patch.y.GetOr(0.0), Some(patch.zoomFactor.GetOr(1.0)))])]
        else scenes
  }

  /** Patching a found item swaps that one item for its patched version in the
      collection's images and keeps every dialogue line. */
  lemma UpdateSwapsOneItem(scenes: PosScenes, sid: string, layerId: string, itemId: string, patch: ItemPatch)
    requires sid in scenes && LayerAt(scenes[sid].layers, layerId).Some?
    requires ItemAt(scenes[sid].layers[LayerAt(scenes[sid].layers, layerId).value].items, itemId).Some?
    ensures var r := Update(scenes, sid, layerId, itemId, patch);
            var items := scenes[sid].layers[LayerAt(scenes[sid].layers, layerId).value].items;
            var old_ := items[ItemAt(items, itemId).value];
            && Total(r, PosImages) + multiset{old_} == Total(scenes, PosImages) + multiset{AssignItem(old_, patch)}
            && Total(r, PosLines) == Total(scenes, PosLines)
  {
    var li := LayerAt(scenes[sid].layers, layerId).value;
    var items := scenes[sid].layers[li].items;
    var i := ItemAt(items, itemId).value;
    var patched := items[i := AssignItem(items[i], patch)];
    assert Update(scenes, sid, layerId, itemId, patch) == scenes[sid := SetItems(scenes[sid], li, patched)];
    SetItemsTotals(scenes, sid, li, patched);
    SwapOne(items, i, AssignItem(items[i], patch));
    var t', t := Total(Update(scenes, sid, layerId, itemId, patch), PosImages), Total(scenes, PosImages);
    Rebalance(t', t, multiset(items), multiset(patched), multiset{items[i]}, multiset{AssignItem(items[i], patch)});
  }

  /** Overwriting one entry of a list swaps one element of its multiset. */
  lemma SwapOne<T>(s: seq<T>, i: nat, x: T)
    requires i < |s|
    ensures multiset(s[i := x]) + multiset{s[i]} == multiset(s) + multiset{x}
  {
    assert s == s[..i] + [s[i]] + s[i + 1..];
    assert s[i := x] == s[..i] + [x] + s[i + 1..];
  }

  /** `deleteItem`: filter the id out of the addressed layer; a missing scene
      or layer is a no-op. */
  function DeleteItem(scenes: PosScenes, sid: string, layerId: string, itemId: string): (r: PosScenes)
    ensures r.Keys == scenes.Keys
    ensures forall k :: k in scenes && k != sid ==> r[k] == scenes[k]
    ensures sid !in scenes || LayerAt(scenes[sid].layers, layerId).None? ==> r == scenes
    ensures sid in scenes && LayerAt(scenes[sid].layers, layerId).Some? ==>
              var li := LayerAt(scenes[sid].layers, layerId).value;
              var items := scenes[sid].layers[li].items;
              && |r[sid].layers| == |scenes[sid].layers|
              && r[sid].dialogue == scenes[sid].dialogue
              && (forall j :: 0 <= j < |scenes[sid].layers| && j != li ==> r[sid].layers[j] == scenes[sid].layers[j])
              && (forall it :: it in r[sid].layers[li].items ==> it in items && it.id != itemId)
              && (forall it :: it in items ==> multiset(r[sid].layers[li].items)[it] == if it.id == itemId then 0 else multiset(items)[it])
  {
    if sid !in scenes then scenes
    else match LayerAt(scenes[sid].layers, layerId)
      case None => scenes
      case Some(li) =>
        var p := (it: Item) => it.id != itemId;
        FilterCount(scenes[sid].layers[li].items, p);
        scenes[sid := SetItems(scenes[sid], li, Filter(scenes[sid].layers[li].items, p))]
  }

  // ---- dialogue ----

  /** `updateDialogue`: assign the patch onto the first line whose id is the
      patch's id; a missing scene or line (or a patch without id) is a no-op. */
  function UpdateDialogue(scenes: PosScenes, sid: string, patch: LinePatch): (r: PosScenes)
    ensures r.Keys == scenes.Keys
    ensures forall k :: k in scenes && k != sid ==> r[k] == scenes[k]
    ensures sid !in scenes || patch.id.None? || LineAt(scenes[sid].dialogue, patch.id.value).None? ==> r == scenes
    ensures sid in scenes && patch.id.Some? && LineAt(scenes[sid].dialogue, patch.id.value).Some? ==>
              var lines := scenes[sid].dialogue;
              var i := LineAt(lines, patch.id.value).value;
              && r[sid] == scenes[sid].(dialogue := r[sid].dialogue)
              && |r[sid].dialogue| == |lines|
              && r[sid].dialogue[i] == Dialogue(patch.id.value, patch.speaker.GetOr(lines[i].speaker), patch.text.GetOr(lines[i].text))
              && forall j :: 0 <= j < |lines| && j != i ==> r[sid].dialogue[j] == lines[j]
  {
    if sid !in scenes || patch.id.None? then scenes
    else
      var lines := scenes[sid].dialogue;
      match LineAt(lines, patch.id.value)
      case None => scenes
      case Some(i) =>
        var d := lines[i];
        scenes[sid := scenes[sid].(dialogue := lines[i := Dialogue(patch.id.GetOr(d.id), patch.speaker.GetOr(d.speaker), patch.text.GetOr(d.text))])]
  }

  /** Patching a found line swaps that one line for its patched version in the
      collection's dialogue and keeps every image. */
  lemma UpdateDialogueSwapsOneLine(scenes: PosScenes, sid: string, patch: LinePatch)
    requires sid in scenes && patch.id.Some? && LineAt(scenes[sid].dialogue, patch.id.value).Some?
    ensures var r := UpdateDialogue(scenes, sid, patch);
            var lines := scenes[sid].dialogue;
            var d := lines[LineAt(lines, patch.id.value).value];
            var d' := Dialogue(patch.id.value, patch.speaker.GetOr(d.speaker), patch.text.GetOr(d.text));
            && Total(r, PosLines) + multiset{d} == Total(scenes, PosLines) + multiset{d'}
            && Total(r, PosImages) == Total(scenes, PosImages)
  {
    var lines := scenes[sid].dialogue;
    var i := LineAt(lines, patch.id.value).value;
    var d := lines[i];
    var d' := Dialogue(patch.id.value, patch.speaker.GetOr(d.speaker), patch.text.GetOr(d.text));
    var v := scenes[sid].(dialogue := lines[i := d']);
    assert UpdateDialogue(scenes, sid, patch) == scenes[sid := v];
    SwapOne(lines, i, d');
    TotalUpdateDelta(scenes, PosLines, sid, v, multiset{d}, multiset{d'});
    TotalUpdateSame(scenes, PosImages, sid, v);
  }

  /** Write the dialogue of scene `sid`. */
  function SetLines(scenes: PosScenes, sid: string, lines: seq<Dialogue>): (r: PosScenes)
    requires sid in scenes
    ensures r.Keys == scenes.Keys
    ensures forall k :: k in scenes && k != sid ==> r[k] == scenes[k]
    ensures r[sid] == scenes[sid].(dialogue := lines)
  {
    scenes[sid := scenes[sid].(dialogue := lines)]
  }

  /** `moveDialogue`: both scenes must exist and the line must be found; it
      is spliced out and then spliced in at `index` of the target list (read
      after the removal, so a same-scene move sees the shortened list). */
  function MoveDialogue(scenes: PosScenes, fromScene: string, lineId: string, toScene: string, index: nat): (r: PosScenes)
    ensures r.Keys == scenes.Keys
    ensures forall k :: k in scenes && k != fromScene && k != toScene ==> r[k] == scenes[k]
    ensures fromScene !in scenes || toScene !in scenes || LineAt(scenes[fromScene].dialogue, lineId).None? ==> r == scenes
  {
    if fromScene !in scenes || toScene !in scenes then scenes
    else match LineAt(scenes[fromScene].dialogue, lineId)
      case None => scenes
      case Some(i) =>
        var s1 := SetLines(scenes, fromScene, RemoveAt(scenes[fromScene].dialogue, i));
        SetLines(s1, toScene, InsertAt(s1[toScene].dialogue, index, scenes[fromScene].dialogue[i]))
  }

  /** A dialogue move keeps every line of the collection and no image changes. */
  lemma MoveDialoguePreservesOwnership(scenes: PosScenes, fromScene: string, lineId: string, toScene: string, index: nat)
    ensures var r := MoveDialogue(scenes, fromScene, lineId, toScene, index);
            Total(r, PosLines) == Total(scenes, PosLines) && Total(r, PosImages) == Total(scenes, PosImages)
  {
    if fromScene in scenes && toScene in scenes && LineAt(scenes[fromScene].dialogue, lineId).Some? {
      var i := LineAt(scenes[fromScene].dialogue, lineId).value;
      var d := scenes[fromScene].dialogue[i];
      var v1 := scenes[fromScene].(dialogue := RemoveAt(scenes[fromScene].dialogue, i));
      var s1 := scenes[fromScene := v1];
      TotalUpdateRemove(scenes, PosLines, fromScene, v1, multiset{d});
      TotalUpdateSame(scenes, PosImages, fromScene, v1);
      var v2 := s1[toScene].(dialogue := InsertAt(s1[toScene].dialogue, index, d));
      TotalUpdateAdd(s1, PosLines, toScene, v2, multiset{d});
      TotalUpdateSame(s1, PosImages, toScene, v2);
    }
  }

  /** The moved line lands at `index` (clamped to the target list). */
  lemma MoveDialoguePlacement(scenes: PosScenes, fromScene: string, lineId: string, toScene: string, index: nat)
    requires fromScene in scenes && toScene in scenes && LineAt(scenes[fromScene].dialogue, lineId).Some?
    ensures var r := MoveDialogue(scenes, fromScene, lineId, toScene, index);
            var i := LineAt(scenes[fromScene].dialogue, lineId).value;
            var n := if fromScene == toScene then |scenes[toScene].dialogue| - 1 else |scenes[toScene].dialogue|;
            && |r[toScene].dialogue| == n + 1
            && r[toScene].dialogue[Clamp(index, n)] == scenes[fromScene].dialogue[i]
            && (fromScene != toScene ==>
                  && r[fromScene].dialogue == RemoveAt(scenes[fromScene].dialogue, i)
                  && r[toScene].dialogue == InsertAt(scenes[toScene].dialogue, index, scenes[fromScene].dialogue[i]))
            && (fromScene == toScene ==> r[toScene].dialogue == Reorder(scenes[toScene].dialogue, i, index))
  {
  }

  /** Moving a line to the index it already holds changes nothing. */
  lemma MoveDialogueToOwnIndex(scenes: PosScenes, sid: string, lineId: string, i: nat)
    requires sid in scenes && LineAt(scenes[sid].dialogue, lineId) == Some(i)
    ensures MoveDialogue(scenes, sid, lineId, sid, i) == scenes
  {
    ReorderSameIndex(scenes[sid].dialogue, i);
    var r := MoveDialogue(scenes, sid, lineId, sid, i);
    assert r[sid].dialogue == scenes[sid].dialogue;
    assert r[sid] == scenes[sid];
  }

  /** `addDialogue`: the new line (fresh id, missing text and speaker `''`) is
      appended when the scene exists, and returned either way. */
  function AddDialogue(scenes: PosScenes, sid: string, text: Option<string>, speaker: Option<string>,
                       freshId: string): (r: (Dialogue, PosScenes))
    ensures r.0 == Dialogue(freshId, speaker.GetOr(""), text.GetOr(""))
    ensures r.1.Keys == scenes.Keys
    ensures forall k :: k in scenes && k != sid ==> r.1[k] == scenes[k]
    ensures sid !in scenes ==> r.1 == scenes
    ensures sid in scenes ==> r.1[sid] == scenes[sid].(dialogue := scenes[sid].dialogue + [r.0])
  {
    var d := Dialogue(freshId, speaker.GetOr(""), text.GetOr(""));
    if sid !in scenes then (d, scenes)
    else (d, scenes[sid := scenes[sid].(dialogue := scenes[sid].dialogue + [d])])
  }

  /** `deleteDialogue`: filter the id out of the scene's dialogue; a missing
      scene is a no-op. */
  function DeleteDialogue(scenes: PosScenes, sid: string, lineId: string): (r: PosScenes)
    ensures r.Keys == scenes.Keys
    ensures forall k :: k in scenes && k != sid ==> r[k] == scenes[k]
    ensures sid !in scenes ==> r == scenes
    ensures sid in scenes ==>
              && r[sid] == scenes[sid].(dialogue := r[sid].dialogue)
              && (forall d :: d in r[sid].dialogue ==> d in scenes[sid].dialogue && d.id != lineId)
              && (forall d :: d in scenes[sid].dialogue ==>
                    multiset(r[sid].dialogue)[d] == if d.id == lineId then 0 else multiset(scenes[sid].dialogue)[d])
  {
    if sid !in scenes then scenes
    else
      var p := (d: Dialogue) => d.id != lineId;
      FilterCount(scenes[sid].dialogue, p);
      scenes[sid := scenes[sid].(dialogue := Filter(scenes[sid].dialogue, p))]
  }

  /** Deleting a just-added line whose id was not yet used in the scene gives
      the scenes back. */
  lemma AddDialogueThenDelete(scenes: PosScenes, sid: string, text: Option<string>, speaker: Option<string>,
                              freshId: string)
    requires sid in scenes && forall d :: d in scenes[sid].dialogue ==> d.id != freshId
    ensures DeleteDialogue(AddDialogue(scenes, sid, text, speaker, freshId).1, sid, freshId) == scenes
  {
    var lines := scenes[sid].dialogue;
    var line := Dialogue(freshId, speaker.GetOr(""), text.GetOr(""));
    var added := scenes[sid := scenes[sid].(dialogue := lines + [line])];
    assert AddDialogue(scenes, sid, text, speaker, freshId).1 == added;
    var p := (d: Dialogue) => d.id != freshId;
    var kept := Filter(lines + [line], p);
    assert DeleteDialogue(added, sid, freshId) == added[sid := added[sid].(dialogue := kept)];
    assert kept == lines by { FilterDropsLast(lines, line, p); }
    assert added[sid].(dialogue := lines) == scenes[sid];
    UpdateTwice(scenes, sid, added[sid]);
  }

  lemma UpdateTwice(m: PosScenes, k: string, v: PosScene)
    requires k in m
    ensures m[k := v][k := m[k]] == m
  {
  }
}
