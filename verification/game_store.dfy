/** The editor store (`useGameStore`): the item actions on the scene collection.
    Moves are index based; a copy gets an id from a freshId-id oracle. */
module GameStore {
  import opened Wrappers
  import opened Seqs
  import opened Types
  import opened Ownership

  /** `Partial<ImageAsset>`: the fields an `update` or `addImage` call supplies. */
  datatype ImagePatch = ImagePatch(
    id: Option<string>,
    name: Option<string>,
    url: Option<string>,
    x: Option<real>,
    y: Option<real>,
    zoomFactor: Option<real>)

  function ItemIndex(items: seq<ImageAsset>, itemId: string): Option<nat> {
    FirstIndex(items, (i: ImageAsset) => i.id == itemId)
  }

  function LineIndex(lines: seq<Dialogue>, lineId: string): Option<nat> {
    FirstIndex(lines, (d: Dialogue) => d.id == lineId)
  }

  /** The scene with the items of layer `li` replaced. */
  function WithItems(sc: Scene, li: nat, items: seq<ImageAsset>): (r: Scene)
    requires li < |sc.layers|
    ensures |r.layers| == |sc.layers|
    ensures forall j :: 0 <= j < |sc.layers| ==> r.layers[j].id == sc.layers[j].id
    ensures forall j :: 0 <= j < |sc.layers| && j != li ==> r.layers[j] == sc.layers[j]
    ensures r.layers[li].items == items
    ensures r.dialogue == sc.dialogue
  {
    sc.(layers := sc.layers[li := sc.layers[li].(items := items)])
  }

  // ---- the four list edits every move and copy is made of ----

  /** Remove dialogue line `i` of scene `sid`. */
  function TakeLine(scenes: Scenes, sid: string, i: nat): (r: Scenes)
    requires sid in scenes && i < |scenes[sid].dialogue|
    ensures r.Keys == scenes.Keys
  {
    scenes[sid := scenes[sid].(dialogue := RemoveAt(scenes[sid].dialogue, i))]
  }

  /** Splice line `d` into the dialogue of scene `sid` at `index`. */
  function PutLine(scenes: Scenes, sid: string, index: nat, d: Dialogue): (r: Scenes)
    requires sid in scenes
    ensures r.Keys == scenes.Keys
  {
    scenes[sid := scenes[sid].(dialogue := InsertAt(scenes[sid].dialogue, index, d))]
  }

  /** Remove item `i` of layer `li` of scene `sid`. */
  function TakeImage(scenes: Scenes, sid: string, li: nat, i: nat): (r: Scenes)
    requires sid in scenes && li < |scenes[sid].layers| && i < |scenes[sid].layers[li].items|
    ensures r.Keys == scenes.Keys
    ensures |r[sid].layers| == |scenes[sid].layers|
  {
    scenes[sid := WithItems(scenes[sid], li, RemoveAt(scenes[sid].layers[li].items, i))]
  }

  /** The target-list rule of `moveItem`/`copyItem` for images: an empty layer
      gets the item pushed, otherwise it is spliced in at `index`. */
  function PlaceImage(items: seq<ImageAsset>, index: nat, item: ImageAsset): (r: seq<ImageAsset>)
    ensures |items| == 0 ==> r == [item]
    ensures |r| == |items| + 1
    ensures r[Clamp(index, |items|)] == item
    ensures multiset(r) == multiset(items) + multiset{item}
    ensures RemoveAt(r, Clamp(index, |items|)) == items
  {
    if |items| == 0 then [item]
    else
      RemoveInserted(items, index, item);
      InsertAt(items, index, item)
  }

  /** Put image `item` into layer `li` of scene `sid` at `index`. */
  function PutImage(scenes: Scenes, sid: string, li: nat, index: nat, item: ImageAsset): (r: Scenes)
    requires sid in scenes && li < |scenes[sid].layers|
    ensures r.Keys == scenes.Keys
  {
    scenes[sid := WithItems(scenes[sid], li, PlaceImage(scenes[sid].layers[li].items, index, item))]
  }

  // ---- moveItem / copyItem ----

  /** Every lookup `moveItem` and `copyItem` make succeeds: both scenes exist,
      for images both layers exist, and the item is in its source list. */
  predicate Found(scenes: Scenes, kind: ItemKind, src: string, tgt: string, itemId: string,
                  srcLayer: Option<string>, tgtLayer: Option<string>)
  {
    && src in scenes && tgt in scenes
    && match kind
       case DialogueKind => LineIndex(scenes[src].dialogue, itemId).Some?
       case ImageKind =>
         && LayerIndex(scenes[src].layers, srcLayer).Some?
         && LayerIndex(scenes[tgt].layers, tgtLayer).Some?
         && ItemIndex(scenes[src].layers[LayerIndex(scenes[src].layers, srcLayer).value].items, itemId).Some?
  }

  /** `moveItem`: take the first item with `itemId` out of its source list and
      put it into the target list at `newIndex`. Any failed lookup is a no-op. */
  function MoveItem(scenes: Scenes, kind: ItemKind, src: string, tgt: string, itemId: string,
                    newIndex: nat, srcLayer: Option<string>, tgtLayer: Option<string>): (r: Scenes)
    ensures r.Keys == scenes.Keys
    ensures !Found(scenes, kind, src, tgt, itemId, srcLayer, tgtLayer) ==> r == scenes
    ensures forall k :: k in scenes && k != src && k != tgt ==> r[k] == scenes[k]
  {
    if !Found(scenes, kind, src, tgt, itemId, srcLayer, tgtLayer) then scenes
    else match kind
      case DialogueKind =>
        var i := LineIndex(scenes[src].dialogue, itemId).value;
        PutLine(TakeLine(scenes, src, i), tgt, newIndex, scenes[src].dialogue[i])
      case ImageKind =>
        var sl := LayerIndex(scenes[src].layers, srcLayer).value;
        var tl := LayerIndex(scenes[tgt].layers, tgtLayer).value;
        var i := ItemIndex(scenes[src].layers[sl].items, itemId).value;
        var s1 := TakeImage(scenes, src, sl, i);
        PutImage(s1, tgt, tl, newIndex, scenes[src].layers[sl].items[i])
  }

  /** `copyItem`: like `moveItem`, but the source list is left alone and a copy
      of the item carrying the id `freshId` is put into the target list. */
  function CopyItem(scenes: Scenes, kind: ItemKind, src: string, tgt: string, itemId: string,
                    newIndex: nat, srcLayer: Option<string>, tgtLayer: Option<string>,
                    freshId: string): (r: Scenes)
    ensures r.Keys == scenes.Keys
    ensures !Found(scenes, kind, src, tgt, itemId, srcLayer, tgtLayer) ==> r == scenes
    ensures forall k :: k in scenes && k != tgt ==> r[k] == scenes[k]
  {
    if !Found(scenes, kind, src, tgt, itemId, srcLayer, tgtLayer) then scenes
    else match kind
      case DialogueKind =>
        var i := LineIndex(scenes[src].dialogue, itemId).value;
        PutLine(scenes, tgt, newIndex, scenes[src].dialogue[i].(id := freshId))
      case ImageKind =>
        var sl := LayerIndex(scenes[src].layers, srcLayer).value;
        var tl := LayerIndex(scenes[tgt].layers, tgtLayer).value;
        var i := ItemIndex(scenes[src].layers[sl].items, itemId).value;
        PutImage(scenes, tgt, tl, newIndex, scenes[src].layers[sl].items[i].(id := freshId))
  }

  // ---- reorderItem / deleteItem ----

  /** The list `reorderItem` and `deleteItem` address exists: the scene exists
      and, for images, a truthy layer id names one of its layers. */
  predicate Addressed(scenes: Scenes, kind: ItemKind, sid: string, layerId: Option<string>) {
    && sid in scenes
    && (kind == ImageKind ==> Truthy(layerId) && LayerIndex(scenes[sid].layers, layerId).Some?)
  }

  /** Length of the addressed list. */
  function ListLength(scenes: Scenes, kind: ItemKind, sid: string, layerId: Option<string>): nat
    requires Addressed(scenes, kind, sid, layerId)
  {
    match kind
    case DialogueKind => |scenes[sid].dialogue|
    case ImageKind => |scenes[sid].layers[LayerIndex(scenes[sid].layers, layerId).value].items|
  }

  /** `reorderItem`: move the element at `oldIndex` of one list to `newIndex`.
      The store needs `oldIndex` to be inside the list; past the end it would
      splice `undefined` in. */
  function ReorderItem(scenes: Scenes, kind: ItemKind, sid: string, oldIndex: nat, newIndex: nat,
                       layerId: Option<string>): (r: Scenes)
    requires Addressed(scenes, kind, sid, layerId) ==> oldIndex < ListLength(scenes, kind, sid, layerId)
    ensures r.Keys == scenes.Keys
    ensures !Addressed(scenes, kind, sid, layerId) ==> r == scenes
    ensures forall k :: k in scenes && k != sid ==> r[k] == scenes[k]
  {
    if !Addressed(scenes, kind, sid, layerId) then scenes
    else match kind
      case DialogueKind =>
        scenes[sid := scenes[sid].(dialogue := Reorder(scenes[sid].dialogue, oldIndex, newIndex))]
      case ImageKind =>
        var li := LayerIndex(scenes[sid].layers, layerId).value;
        scenes[sid := WithItems(scenes[sid], li, Reorder(scenes[sid].layers[li].items, oldIndex, newIndex))]
  }

  /** `deleteItem`: filter every entry with `itemId` out of the addressed list.
      An image delete without a layer id does nothing. */
  function DeleteItem(scenes: Scenes, kind: ItemKind, sid: string, itemId: string,
                      layerId: Option<string>): (r: Scenes)
    ensures r.Keys == scenes.Keys
    ensures !Addressed(scenes, kind, sid, layerId) ==> r == scenes
    ensures forall k :: k in scenes && k != sid ==> r[k] == scenes[k]
  {
    if !Addressed(scenes, kind, sid, layerId) then scenes
    else match kind
      case DialogueKind =>
        scenes[sid := scenes[sid].(dialogue := Filter(scenes[sid].dialogue, (d: Dialogue) => d.id != itemId))]
      case ImageKind =>
        var li := LayerIndex(scenes[sid].layers, layerId).value;
        scenes[sid := WithItems(scenes[sid], li, Filter(scenes[sid].layers[li].items, (i: ImageAsset) => i.id != itemId))]
  }

  // ---- addImage / update ----

  /** The item `addImage` builds: freshId id, missing name `''`, missing
      coordinates `0`, missing zoom `1`. */
  function NewImage(patch: ImagePatch, id: string): ImageAsset
    requires patch.url.Some?
  {
    ImageAsset(
      id,
      if Truthy(patch.name) then patch.name.value else "",
      patch.url.value,
      patch.x.GetOr(0.0),
      patch.y.GetOr(0.0),
      Some(patch.zoomFactor.GetOr(1.0)))
  }

  /** `addImage`: push a new item onto a layer; needs a truthy url, the scene and the layer. */
  function AddImage(scenes: Scenes, sid: string, layerId: string, patch: ImagePatch, freshId: string): (r: Scenes)
    ensures r.Keys == scenes.Keys
    ensures forall k :: k in scenes && k != sid ==> r[k] == scenes[k]
    ensures !Truthy(patch.url) || sid !in scenes || LayerIndex(scenes[sid].layers, Some(layerId)).None?
            ==> r == scenes
    ensures Truthy(patch.url) && sid in scenes && LayerIndex(scenes[sid].layers, Some(layerId)).Some?
            ==> var li := LayerIndex(scenes[sid].layers, Some(layerId)).value;
                |r[sid].layers| == |scenes[sid].layers|
                && r[sid].layers[li].items == scenes[sid].layers[li].items + [NewImage(patch, freshId)]
                && forall j :: 0 <= j < |scenes[sid].layers| && j != li ==> r[sid].layers[j] == scenes[sid].layers[j]
  {
    if !Truthy(patch.url) || sid !in scenes then scenes
    else match LayerIndex(scenes[sid].layers, Some(layerId))
      case None => scenes
      case Some(li) =>
        scenes[sid := WithItems(scenes[sid], li, scenes[sid].layers[li].items + [NewImage(patch, freshId)])]
  }

  /** `addImage` adds exactly the new image to the collection when it adds
      anything, and never touches a dialogue line. */
  lemma AddImageAddsOne(scenes: Scenes, sid: string, layerId: string, patch: ImagePatch, freshId: string)
    ensures var r := AddImage(scenes, sid, layerId, patch, freshId);
            && Total(r, SceneLines) == Total(scenes, SceneLines)
            && Total(r, SceneImages)
               == Total(scenes, SceneImages)
                  + if Truthy(patch.url) && sid in scenes && LayerIndex(scenes[sid].layers, Some(layerId)).Some?
                    then multiset{NewImage(patch, freshId)} else multiset{}
  {
    if Truthy(patch.url) && sid in scenes && LayerIndex(scenes[sid].layers, Some(layerId)).Some? {
      var li := LayerIndex(scenes[sid].layers, Some(layerId)).value;
      var items := scenes[sid].layers[li].items;
      var it := NewImage(patch, freshId);
      assert PlaceImage(items, |items|, it) == items + [it];
      assert AddImage(scenes, sid, layerId, patch, freshId) == PutImage(scenes, sid, li, |items|, it);
      PutImageTotals(scenes, sid, li, |items|, it);
    }
  }

  /** `Object.assign(item, patch)`: every field the patch carries overwrites. */
  function Assign(item: ImageAsset, patch: ImagePatch): (r: ImageAsset)
    ensures patch == ImagePatch(None, None, None, None, None, None) ==> r == item
    ensures r.id == (if patch.id.Some? then patch.id.value else item.id)
    ensures r.name == (if patch.name.Some? then patch.name.value else item.name)
    ensures r.url == (if patch.url.Some? then patch.url.value else item.url)
    ensures r.x == (if patch.x.Some? then patch.x.value else item.x)
    ensures r.y == (if patch.y.Some? then patch.y.value else item.y)
    ensures r.zoomFactor == (if patch.zoomFactor.Some? then patch.zoomFactor else item.zoomFactor)
  {
    ImageAsset(
      patch.id.GetOr(item.id),
      patch.name.GetOr(item.name),
      patch.url.GetOr(item.url),
      patch.x.GetOr(item.x),
      patch.y.GetOr(item.y),
      if patch.zoomFactor.Some? then patch.zoomFactor else item.zoomFactor)
  }

  /** `update`: patch the first item with `itemId` in the layer, or, when there
      is none and the patch carries a truthy url, push a new item whose id is the
      patch's id or else `freshId`. A missing scene or layer is a no-op. */
  function Update(scenes: Scenes, sid: string, layerId: string, itemId: string, patch: ImagePatch,
                  freshId: string): (r: Scenes)
    ensures r.Keys == scenes.Keys
    ensures forall k :: k in scenes && k != sid ==> r[k] == scenes[k]
    ensures sid !in scenes || LayerIndex(scenes[sid].layers, Some(layerId)).None? ==> r == scenes
  {
    if sid !in scenes then scenes
    else match LayerIndex(scenes[sid].layers, Some(layerId))
      case None => scenes
      case Some(li) =>
        var items := scenes[sid].layers[li].items;
        match ItemIndex(items, itemId)
        case Some(i) => scenes[sid := WithItems(scenes[sid], li, items[i := Assign(items[i], patch)])]
        case None =>
          if Truthy(patch.url) then
            var id := if Truthy(patch.id) then patch.id.value else freshId;
            scenes[sid := WithItems(scenes[sid], li, items + [NewImage(patch, id)])]
          else scenes
  }

  // ---- ownership: how each list edit changes the collection's multisets ----

  lemma TakeLineTotals(scenes: Scenes, sid: string, i: nat)
    requires sid in scenes && i < |scenes[sid].dialogue|
    ensures Total(TakeLine(scenes, sid, i), SceneLines) + multiset{scenes[sid].dialogue[i]}
         == Total(scenes, SceneLines)
    ensures Total(TakeLine(scenes, sid, i), SceneImages) == Total(scenes, SceneImages)
  {
    var v := scenes[sid].(dialogue := RemoveAt(scenes[sid].dialogue, i));
    TotalUpdateRemove(scenes, SceneLines, sid, v, multiset{scenes[sid].dialogue[i]});
    TotalUpdateSame(scenes, SceneImages, sid, v);
  }

  lemma PutLineTotals(scenes: Scenes, sid: string, index: nat, d: Dialogue)
    requires sid in scenes
    ensures Total(PutLine(scenes, sid, index, d), SceneLines) == Total(scenes, SceneLines) + multiset{d}
    ensures Total(PutLine(scenes, sid, index, d), SceneImages) == Total(scenes, SceneImages)
  {
    var v := scenes[sid].(dialogue := InsertAt(scenes[sid].dialogue, index, d));
    TotalUpdateAdd(scenes, SceneLines, sid, v, multiset{d});
    TotalUpdateSame(scenes, SceneImages, sid, v);
  }

  /** Replacing one layer's items changes the scene's images by exactly that list. */
  lemma WithItemsImages(sc: Scene, li: nat, items: seq<ImageAsset>)
    requires li < |sc.layers|
    ensures SceneImages(WithItems(sc, li, items)) + multiset(sc.layers[li].items)
         == SceneImages(sc) + multiset(items)
    ensures SceneLines(WithItems(sc, li, items)) == SceneLines(sc)
  {
    LayersItemsUpdate(sc.layers, li, items);
  }

  lemma TakeImageTotals(scenes: Scenes, sid: string, li: nat, i: nat)
    requires sid in scenes && li < |scenes[sid].layers| && i < |scenes[sid].layers[li].items|
    ensures Total(TakeImage(scenes, sid, li, i), SceneImages) + multiset{scenes[sid].layers[li].items[i]}
         == Total(scenes, SceneImages)
    ensures Total(TakeImage(scenes, sid, li, i), SceneLines) == Total(scenes, SceneLines)
  {
    var items := scenes[sid].layers[li].items;
    var rest := RemoveAt(items, i);
    var v := WithItems(scenes[sid], li, rest);
    WithItemsImages(scenes[sid], li, rest);
    var a, b, c, e := SceneImages(v), multiset(items), SceneImages(scenes[sid]), multiset{items[i]};
    assert a + b == c + multiset(rest);
    assert multiset(rest) + e == b;
    assert (a + e) + b == a + b + e == c + multiset(rest) + e == c + b;
    Cancel(a + e, c, b);
    TotalUpdateRemove(scenes, SceneImages, sid, v, e);
    TotalUpdateSame(scenes, SceneLines, sid, v);
  }

  lemma PutImageTotals(scenes: Scenes, sid: string, li: nat, index: nat, item: ImageAsset)
    requires sid in scenes && li < |scenes[sid].layers|
    ensures Total(PutImage(scenes, sid, li, index, item), SceneImages) == Total(scenes, SceneImages) + multiset{item}
    ensures Total(PutImage(scenes, sid, li, index, item), SceneLines) == Total(scenes, SceneLines)
  {
    var items := scenes[sid].layers[li].items;
    var placed := PlaceImage(items, index, item);
    var v := WithItems(scenes[sid], li, placed);
    WithItemsImages(scenes[sid], li, placed);
    var a, b, c, e := SceneImages(v), multiset(items), SceneImages(scenes[sid]), multiset{item};
    assert a + b == c + (b + e);
    assert a + b == (c + e) + b;
    Cancel(a, c + e, b);
    TotalUpdateAdd(scenes, SceneImages, sid, v, e);
    TotalUpdateSame(scenes, SceneLines, sid, v);
  }

  // ---- properties of moveItem ----

  /** A move never loses or duplicates anything: the multisets of all dialogue
      lines and of all image items of the collection are what they were. */
  lemma MoveItemPreservesOwnership(scenes: Scenes, kind: ItemKind, src: string, tgt: string, itemId: string,
                                   newIndex: nat, srcLayer: Option<string>, tgtLayer: Option<string>)
    ensures var r := MoveItem(scenes, kind, src, tgt, itemId, newIndex, srcLayer, tgtLayer);
            Total(r, SceneLines) == Total(scenes, SceneLines)
            && Total(r, SceneImages) == Total(scenes, SceneImages)
  {
    if Found(scenes, kind, src, tgt, itemId, srcLayer, tgtLayer) {
      match kind
      case DialogueKind =>
        var i := LineIndex(scenes[src].dialogue, itemId).value;
        var d := scenes[src].dialogue[i];
        var s1 := TakeLine(scenes, src, i);
        TakeLineTotals(scenes, src, i);
        PutLineTotals(s1, tgt, newIndex, d);
      case ImageKind =>
        var sl := LayerIndex(scenes[src].layers, srcLayer).value;
        var tl := LayerIndex(scenes[tgt].layers, tgtLayer).value;
        var i := ItemIndex(scenes[src].layers[sl].items, itemId).value;
        var s1 := TakeImage(scenes, src, sl, i);
        TakeImageTotals(scenes, src, sl, i);
        PutImageTotals(s1, tgt, tl, newIndex, scenes[src].layers[sl].items[i]);
    }
  }

  /** A dialogue move takes the line out of its source list and puts it, once,
      at `newIndex` (clamped) of the target list. */
  lemma MoveLinePlacement(scenes: Scenes, src: string, tgt: string, itemId: string, newIndex: nat)
    requires Found(scenes, DialogueKind, src, tgt, itemId, None, None)
    ensures var r := MoveItem(scenes, DialogueKind, src, tgt, itemId, newIndex, None, None);
            var d := scenes[src].dialogue[LineIndex(scenes[src].dialogue, itemId).value];
            if src != tgt then
              && multiset(r[src].dialogue) + multiset{d} == multiset(scenes[src].dialogue)
              && multiset(r[tgt].dialogue) == multiset(scenes[tgt].dialogue) + multiset{d}
              && |r[tgt].dialogue| == |scenes[tgt].dialogue| + 1
              && r[tgt].dialogue[Clamp(newIndex, |scenes[tgt].dialogue|)] == d
              && r[src].dialogue == RemoveAt(scenes[src].dialogue, LineIndex(scenes[src].dialogue, itemId).value)
              && r[tgt].dialogue == InsertAt(scenes[tgt].dialogue, newIndex, d)
            else
              && multiset(r[tgt].dialogue) == multiset(scenes[tgt].dialogue)
              && |r[tgt].dialogue| == |scenes[tgt].dialogue|
              && r[tgt].dialogue[Clamp(newIndex, |scenes[tgt].dialogue| - 1)] == d
              && r[tgt].dialogue == Reorder(scenes[tgt].dialogue, LineIndex(scenes[src].dialogue, itemId).value, newIndex)
  {
  }

  /** An image move into a different list takes the item out of its source
      layer and puts it, once, at `newIndex` (clamped) of the target layer;
      every other layer keeps its items. */
  lemma MoveImagePlacement(scenes: Scenes, src: string, tgt: string, itemId: string, newIndex: nat,
                           srcLayer: Option<string>, tgtLayer: Option<string>)
    requires Found(scenes, ImageKind, src, tgt, itemId, srcLayer, tgtLayer)
    requires src != tgt || srcLayer != tgtLayer
    ensures var r := MoveItem(scenes, ImageKind, src, tgt, itemId, newIndex, srcLayer, tgtLayer);
            var sl := LayerIndex(scenes[src].layers, srcLayer).value;
            var tl := LayerIndex(scenes[tgt].layers, tgtLayer).value;
            var item := scenes[src].layers[sl].items[ItemIndex(scenes[src].layers[sl].items, itemId).value];
            && |r[src].layers| == |scenes[src].layers| && |r[tgt].layers| == |scenes[tgt].layers|
            && multiset(r[src].layers[sl].items) + multiset{item} == multiset(scenes[src].layers[sl].items)
            && multiset(r[tgt].layers[tl].items) == multiset(scenes[tgt].layers[tl].items) + multiset{item}
            && |r[tgt].layers[tl].items| == |scenes[tgt].layers[tl].items| + 1
            && r[tgt].layers[tl].items[Clamp(newIndex, |scenes[tgt].layers[tl].items|)] == item
            && r[src].layers[sl].items == RemoveAt(scenes[src].layers[sl].items, ItemIndex(scenes[src].layers[sl].items, itemId).value)
            && r[tgt].layers[tl].items == PlaceImage(scenes[tgt].layers[tl].items, newIndex, item)
            && (forall j :: 0 <= j < |r[tgt].layers| && j != tl && (src != tgt || j != sl) ==>
                  r[tgt].layers[j] == scenes[tgt].layers[j])
  {
    var sl := LayerIndex(scenes[src].layers, srcLayer).value;
    var tl := LayerIndex(scenes[tgt].layers, tgtLayer).value;
    assert src == tgt ==> sl != tl;
  }

  /** The target layer of an image move between two lists: the layer list keeps
      its length and ids, and the target layer receives the item by the
      push-or-splice rule. */
  lemma MoveImageTarget(scenes: Scenes, src: string, tgt: string, itemId: string, newIndex: nat,
                        srcLayer: Option<string>, tgtLayer: Option<string>)
    requires Found(scenes, ImageKind, src, tgt, itemId, srcLayer, tgtLayer)
    requires src != tgt || srcLayer != tgtLayer
    ensures var r := MoveItem(scenes, ImageKind, src, tgt, itemId, newIndex, srcLayer, tgtLayer);
            var sl := LayerIndex(scenes[src].layers, srcLayer).value;
            var tl := LayerIndex(scenes[tgt].layers, tgtLayer).value;
            var item := scenes[src].layers[sl].items[ItemIndex(scenes[src].layers[sl].items, itemId).value];
            && |r[tgt].layers| == |scenes[tgt].layers|
            && (forall j :: 0 <= j < |scenes[tgt].layers| ==> r[tgt].layers[j].id == scenes[tgt].layers[j].id)
            && r[tgt].layers[tl].items == PlaceImage(scenes[tgt].layers[tl].items, newIndex, item)
  {
    var sl := LayerIndex(scenes[src].layers, srcLayer).value;
    var tl := LayerIndex(scenes[tgt].layers, tgtLayer).value;
    var i := ItemIndex(scenes[src].layers[sl].items, itemId).value;
    assert src == tgt ==> sl != tl;
    var s1 := TakeImage(scenes, src, sl, i);
    assert s1[tgt].layers[tl].items == scenes[tgt].layers[tl].items;
    assert forall j :: 0 <= j < |scenes[tgt].layers| ==> s1[tgt].layers[j].id == scenes[tgt].layers[j].id;
  }

  /** Moving an item into an empty layer puts it at index 0, whatever `newIndex` is. */
  lemma MoveImageIntoEmptyLayer(scenes: Scenes, src: string, tgt: string, itemId: string, newIndex: nat,
                                srcLayer: Option<string>, tgtLayer: Option<string>)
    requires Found(scenes, ImageKind, src, tgt, itemId, srcLayer, tgtLayer)
    requires src != tgt || srcLayer != tgtLayer
    requires |scenes[tgt].layers[LayerIndex(scenes[tgt].layers, tgtLayer).value].items| == 0
    ensures var r := MoveItem(scenes, ImageKind, src, tgt, itemId, newIndex, srcLayer, tgtLayer);
            var sl := LayerIndex(scenes[src].layers, srcLayer).value;
            var tl := LayerIndex(scenes[tgt].layers, tgtLayer).value;
            r[tgt].layers[tl].items == [scenes[src].layers[sl].items[ItemIndex(scenes[src].layers[sl].items, itemId).value]]
  {
    var sl := LayerIndex(scenes[src].layers, srcLayer).value;
    var tl := LayerIndex(scenes[tgt].layers, tgtLayer).value;
    assert src == tgt ==> sl != tl;
  }

  lemma WithItemsOverwrite(sc: Scene, li: nat, a: seq<ImageAsset>, b: seq<ImageAsset>)
    requires li < |sc.layers|
    ensures WithItems(WithItems(sc, li, a), li, b) == WithItems(sc, li, b)
    ensures WithItems(sc, li, sc.layers[li].items) == sc
  {
    assert WithItems(WithItems(sc, li, a), li, b).layers == WithItems(sc, li, b).layers;
    assert sc.layers[li := sc.layers[li].(items := sc.layers[li].items)] == sc.layers;
  }

  /** Moving a line to the index it already holds in its own list changes nothing. */
  lemma MoveLineToOwnIndex(scenes: Scenes, sid: string, itemId: string, i: nat)
    requires sid in scenes && LineIndex(scenes[sid].dialogue, itemId) == Some(i)
    ensures MoveItem(scenes, DialogueKind, sid, sid, itemId, i, None, None) == scenes
  {
    ReorderSameIndex(scenes[sid].dialogue, i);
    var s1 := TakeLine(scenes, sid, i);
    assert PutLine(s1, sid, i, scenes[sid].dialogue[i])[sid] == scenes[sid];
  }

  /** Pushing into an empty list or splicing back at the old index restores the list. */
  lemma PlaceBackSameIndex(items: seq<ImageAsset>, i: nat)
    requires i < |items|
    ensures PlaceImage(RemoveAt(items, i), i, items[i]) == items
  {
    if |items| > 1 {
      ReorderSameIndex(items, i);
    }
  }

  /** Moving an image to the index it already holds in its own layer changes nothing. */
  lemma MoveImageToOwnIndex(scenes: Scenes, sid: string, itemId: string, layerId: Option<string>, i: nat)
    requires Found(scenes, ImageKind, sid, sid, itemId, layerId, layerId)
    requires ItemIndex(scenes[sid].layers[LayerIndex(scenes[sid].layers, layerId).value].items, itemId) == Some(i)
    ensures MoveItem(scenes, ImageKind, sid, sid, itemId, i, layerId, layerId) == scenes
  {
    var li := LayerIndex(scenes[sid].layers, layerId).value;
    var items := scenes[sid].layers[li].items;
    var rest := RemoveAt(items, i);
    var s1 := TakeImage(scenes, sid, li, i);
    var r := PutImage(s1, sid, li, i, items[i]);
    assert MoveItem(scenes, ImageKind, sid, sid, itemId, i, layerId, layerId) == r;
    assert r[sid] == scenes[sid] by {
      assert s1[sid] == WithItems(scenes[sid], li, rest);
      PlaceBackSameIndex(items, i);
      WithItemsOverwrite(scenes[sid], li, rest, items);
    }
    RestoreKey(scenes, sid, s1[sid], r[sid]);
  }

  /** Overwriting a scene and then writing its old value back gives the map back. */
  lemma RestoreKey(m: Scenes, k: string, v1: Scene, v2: Scene)
    requires k in m && v2 == m[k]
    ensures m[k := v1][k := v2] == m
  {
  }

  // ---- properties of copyItem ----

  /** A dialogue copy adds exactly one line to the collection, the source line
      with the id `freshId`, at `newIndex` (clamped) of the target list; no
      image changes. */
  lemma CopyLineAddsOne(scenes: Scenes, src: string, tgt: string, itemId: string, newIndex: nat, freshId: string)
    requires Found(scenes, DialogueKind, src, tgt, itemId, None, None)
    ensures var r := CopyItem(scenes, DialogueKind, src, tgt, itemId, newIndex, None, None, freshId);
            var copy := scenes[src].dialogue[LineIndex(scenes[src].dialogue, itemId).value].(id := freshId);
            && Total(r, SceneLines) == Total(scenes, SceneLines) + multiset{copy}
            && Total(r, SceneImages) == Total(scenes, SceneImages)
            && |r[tgt].dialogue| == |scenes[tgt].dialogue| + 1
            && r[tgt].dialogue[Clamp(newIndex, |scenes[tgt].dialogue|)] == copy
            && r[tgt].dialogue == InsertAt(scenes[tgt].dialogue, newIndex, copy)
  {
    var d := scenes[src].dialogue[LineIndex(scenes[src].dialogue, itemId).value];
    PutLineTotals(scenes, tgt, newIndex, d.(id := freshId));
  }

  /** An image copy adds exactly one item to the collection, the source item
      with the id `freshId`, at `newIndex` (clamped; index 0 in an empty layer)
      of the target layer; the source layer keeps its items unless it is the
      target, and no dialogue changes. */
  lemma CopyImageAddsOne(scenes: Scenes, src: string, tgt: string, itemId: string, newIndex: nat,
                         srcLayer: Option<string>, tgtLayer: Option<string>, freshId: string)
    requires Found(scenes, ImageKind, src, tgt, itemId, srcLayer, tgtLayer)
    ensures var r := CopyItem(scenes, ImageKind, src, tgt, itemId, newIndex, srcLayer, tgtLayer, freshId);
            var sl := LayerIndex(scenes[src].layers, srcLayer).value;
            var tl := LayerIndex(scenes[tgt].layers, tgtLayer).value;
            var copy := scenes[src].layers[sl].items[ItemIndex(scenes[src].layers[sl].items, itemId).value].(id := freshId);
            && Total(r, SceneImages) == Total(scenes, SceneImages) + multiset{copy}
            && Total(r, SceneLines) == Total(scenes, SceneLines)
            && |r[tgt].layers| == |scenes[tgt].layers|
            && |r[tgt].layers[tl].items| == |scenes[tgt].layers[tl].items| + 1
            && r[tgt].layers[tl].items[Clamp(newIndex, |scenes[tgt].layers[tl].items|)] == copy
            && r[tgt].layers[tl].items == PlaceImage(scenes[tgt].layers[tl].items, newIndex, copy)
            && (src != tgt || sl != tl ==> r[src].layers[sl] == scenes[src].layers[sl])
  {
    var sl := LayerIndex(scenes[src].layers, srcLayer).value;
    var tl := LayerIndex(scenes[tgt].layers, tgtLayer).value;
    var item := scenes[src].layers[sl].items[ItemIndex(scenes[src].layers[sl].items, itemId).value];
    PutImageTotals(scenes, tgt, tl, newIndex, item.(id := freshId));
  }

  /** `freshId` is the id of no line and no image of the collection. */
  ghost predicate FreshIn(scenes: Scenes, freshId: string) {
    && (forall d :: d in Total(scenes, SceneLines) ==> d.id != freshId)
    && (forall i :: i in Total(scenes, SceneImages) ==> i.id != freshId)
  }

  /** With a fresh id, a dialogue copy is the only line carrying that id and occurs once. */
  lemma CopyLineIdUnique(scenes: Scenes, src: string, tgt: string, itemId: string, newIndex: nat, freshId: string)
    requires Found(scenes, DialogueKind, src, tgt, itemId, None, None)
    requires FreshIn(scenes, freshId)
    ensures var r := CopyItem(scenes, DialogueKind, src, tgt, itemId, newIndex, None, None, freshId);
            var copy := scenes[src].dialogue[LineIndex(scenes[src].dialogue, itemId).value].(id := freshId);
            && Total(r, SceneLines)[copy] == 1
            && (forall d :: d in Total(r, SceneLines) && d.id == freshId ==> d == copy)
  {
    CopyLineAddsOne(scenes, src, tgt, itemId, newIndex, freshId);
  }

  /** With a fresh id, an image copy is the only item carrying that id and occurs once. */
  lemma CopyImageIdUnique(scenes: Scenes, src: string, tgt: string, itemId: string, newIndex: nat,
                          srcLayer: Option<string>, tgtLayer: Option<string>, freshId: string)
    requires Found(scenes, ImageKind, src, tgt, itemId, srcLayer, tgtLayer)
    requires FreshIn(scenes, freshId)
    ensures var r := CopyItem(scenes, ImageKind, src, tgt, itemId, newIndex, srcLayer, tgtLayer, freshId);
            var sl := LayerIndex(scenes[src].layers, srcLayer).value;
            var copy := scenes[src].layers[sl].items[ItemIndex(scenes[src].layers[sl].items, itemId).value].(id := freshId);
            && Total(r, SceneImages)[copy] == 1
            && (forall i :: i in Total(r, SceneImages) && i.id == freshId ==> i == copy)
  {
    CopyImageAddsOne(scenes, src, tgt, itemId, newIndex, srcLayer, tgtLayer, freshId);
  }

  // ---- properties of reorderItem and deleteItem ----

  /** `reorderItem` permutes the addressed list and touches no other list: the
      scene's other layers (or its dialogue) stay as they were, and the
      collection's multisets are unchanged. */
  lemma ReorderItemPermutes(scenes: Scenes, kind: ItemKind, sid: string, oldIndex: nat, newIndex: nat,
                            layerId: Option<string>)
    requires Addressed(scenes, kind, sid, layerId)
    requires oldIndex < ListLength(scenes, kind, sid, layerId)
    ensures var r := ReorderItem(scenes, kind, sid, oldIndex, newIndex, layerId);
            && Total(r, SceneLines) == Total(scenes, SceneLines)
            && Total(r, SceneImages) == Total(scenes, SceneImages)
            && match kind
               case DialogueKind =>
                 && multiset(r[sid].dialogue) == multiset(scenes[sid].dialogue)
                 && r[sid].dialogue == Reorder(scenes[sid].dialogue, oldIndex, newIndex)
                 && r[sid].layers == scenes[sid].layers
               case ImageKind =>
                 var li := LayerIndex(scenes[sid].layers, layerId).value;
                 && |r[sid].layers| == |scenes[sid].layers|
                 && multiset(r[sid].layers[li].items) == multiset(scenes[sid].layers[li].items)
                 && r[sid].layers[li].items == Reorder(scenes[sid].layers[li].items, oldIndex, newIndex)
                 && r[sid].dialogue == scenes[sid].dialogue
                 && forall j :: 0 <= j < |scenes[sid].layers| && j != li ==> r[sid].layers[j] == scenes[sid].layers[j]
  {
    match kind
    case DialogueKind =>
      var v := scenes[sid].(dialogue := Reorder(scenes[sid].dialogue, oldIndex, newIndex));
      TotalUpdateSame(scenes, SceneLines, sid, v);
      TotalUpdateSame(scenes, SceneImages, sid, v);
    case ImageKind =>
      var li := LayerIndex(scenes[sid].layers, layerId).value;
      var items := scenes[sid].layers[li].items;
      var v := WithItems(scenes[sid], li, Reorder(items, oldIndex, newIndex));
      WithItemsImages(scenes[sid], li, Reorder(items, oldIndex, newIndex));
      Cancel(SceneImages(v), SceneImages(scenes[sid]), multiset(items));
      TotalUpdateSame(scenes, SceneLines, sid, v);
      TotalUpdateSame(scenes, SceneImages, sid, v);
  }

  /** Reordering an element to its own index is the identity. */
  lemma ReorderItemSameIndex(scenes: Scenes, kind: ItemKind, sid: string, i: nat, layerId: Option<string>)
    requires Addressed(scenes, kind, sid, layerId) ==> i < ListLength(scenes, kind, sid, layerId)
    ensures ReorderItem(scenes, kind, sid, i, i, layerId) == scenes
  {
    if Addressed(scenes, kind, sid, layerId) {
      match kind
      case DialogueKind =>
        ReorderSameIndex(scenes[sid].dialogue, i);
        RestoreKey(scenes, sid, scenes[sid], scenes[sid].(dialogue := Reorder(scenes[sid].dialogue, i, i)));
      case ImageKind =>
        var li := LayerIndex(scenes[sid].layers, layerId).value;
        ReorderSameIndex(scenes[sid].layers[li].items, i);
        WithItemsOverwrite(scenes[sid], li, [], scenes[sid].layers[li].items);
        RestoreKey(scenes, sid, scenes[sid], WithItems(scenes[sid], li, Reorder(scenes[sid].layers[li].items, i, i)));
    }
  }

  /** `deleteItem` drops every entry with `itemId` from the addressed list, keeps
      every other entry with its multiplicity, and touches no other list. */
  lemma DeleteItemRemovesOnlyId(scenes: Scenes, kind: ItemKind, sid: string, itemId: string, layerId: Option<string>)
    requires Addressed(scenes, kind, sid, layerId)
    ensures var r := DeleteItem(scenes, kind, sid, itemId, layerId);
            match kind
            case DialogueKind =>
              && (forall d :: d in r[sid].dialogue ==> d in scenes[sid].dialogue && d.id != itemId)
              && (forall d :: d in scenes[sid].dialogue && d.id != itemId ==>
                    multiset(r[sid].dialogue)[d] == multiset(scenes[sid].dialogue)[d])
              && r[sid].layers == scenes[sid].layers
            case ImageKind =>
              var li := LayerIndex(scenes[sid].layers, layerId).value;
              && |r[sid].layers| == |scenes[sid].layers|
              && (forall i :: i in r[sid].layers[li].items ==> i in scenes[sid].layers[li].items && i.id != itemId)
              && (forall i :: i in scenes[sid].layers[li].items && i.id != itemId ==>
                    multiset(r[sid].layers[li].items)[i] == multiset(scenes[sid].layers[li].items)[i])
              && r[sid].dialogue == scenes[sid].dialogue
              && forall j :: 0 <= j < |scenes[sid].layers| && j != li ==> r[sid].layers[j] == scenes[sid].layers[j]
  {
    match kind
    case DialogueKind =>
      FilterCount(scenes[sid].dialogue, (d: Dialogue) => d.id != itemId);
    case ImageKind =>
      var li := LayerIndex(scenes[sid].layers, layerId).value;
      FilterCount(scenes[sid].layers[li].items, (i: ImageAsset) => i.id != itemId);
  }

  /** `update` on an item that is present patches exactly that item: it keeps
      the fields the patch leaves out and takes the ones it carries; every
      other item, layer and scene is unchanged. */
  lemma UpdatePatchesFound(scenes: Scenes, sid: string, layerId: string, itemId: string, patch: ImagePatch,
                           freshId: string)
    requires sid in scenes && LayerIndex(scenes[sid].layers, Some(layerId)).Some?
    requires ItemIndex(scenes[sid].layers[LayerIndex(scenes[sid].layers, Some(layerId)).value].items, itemId).Some?
    ensures var r := Update(scenes, sid, layerId, itemId, patch, freshId);
            var li := LayerIndex(scenes[sid].layers, Some(layerId)).value;
            var items := scenes[sid].layers[li].items;
            var i := ItemIndex(items, itemId).value;
            && |r[sid].layers| == |scenes[sid].layers|
            && |r[sid].layers[li].items| == |items|
            && r[sid].layers[li].items[i].x == patch.x.GetOr(items[i].x)
            && r[sid].layers[li].items[i].y == patch.y.GetOr(items[i].y)
            && r[sid].layers[li].items[i].url == patch.url.GetOr(items[i].url)
            && r[sid].layers[li].items[i].name == patch.name.GetOr(items[i].name)
            && r[sid].layers[li].items[i].id == patch.id.GetOr(itemId)
            && r[sid].layers[li].items[i].zoomFactor == (if patch.zoomFactor.Some? then patch.zoomFactor else items[i].zoomFactor)
            && (forall j :: 0 <= j < |items| && j != i ==> r[sid].layers[li].items[j] == items[j])
            && (forall j :: 0 <= j < |scenes[sid].layers| && j != li ==> r[sid].layers[j] == scenes[sid].layers[j])
            && r[sid].dialogue == scenes[sid].dialogue
  {
  }

  /** `update` of an absent item with a truthy url appends one new item whose
      id is the patch's (when truthy) or else the fresh one; without a url it
      changes nothing. */
  lemma UpdateAppendsMissing(scenes: Scenes, sid: string, layerId: string, itemId: string, patch: ImagePatch,
                             freshId: string)
    requires sid in scenes && LayerIndex(scenes[sid].layers, Some(layerId)).Some?
    requires ItemIndex(scenes[sid].layers[LayerIndex(scenes[sid].layers, Some(layerId)).value].items, itemId).None?
    ensures var r := Update(scenes, sid, layerId, itemId, patch, freshId);
            var li := LayerIndex(scenes[sid].layers, Some(layerId)).value;
            var items := scenes[sid].layers[li].items;
            && (!Truthy(patch.url) ==> r == scenes)
            && (Truthy(patch.url) ==>
                  && |r[sid].layers| == |scenes[sid].layers|
                  && r[sid].layers[li].items == items + [NewImage(patch, if Truthy(patch.id) then patch.id.value else freshId)]
                  && r[sid].layers[li].items[|items|].url == patch.url.value
                  && r[sid].layers[li].items[|items|].x == patch.x.GetOr(0.0)
                  && r[sid].layers[li].items[|items|].y == patch.y.GetOr(0.0)
                  && r[sid].layers[li].items[|items|].zoomFactor == Some(patch.zoomFactor.GetOr(1.0)))
  {
  }

  lemma SecondLineIndex(d1: Dialogue, d2: Dialogue)
    requires d1.id != d2.id
    ensures LineIndex([d1, d2], d2.id) == Some(1)
  {
    var r := LineIndex([d1, d2], d2.id);
    assert r.Some? by { assert [d1, d2][1].id == d2.id; }
  }

  /** Moving the second line of one scene to the top of another: the source
      keeps its first line and the target gets the moved line in front. */
  lemma CrossSceneLineMove(scenes: Scenes, a: string, b: string, d1: Dialogue, d2: Dialogue, d3: Dialogue)
    requires a in scenes && b in scenes && a != b
    requires scenes[a].dialogue == [d1, d2] && scenes[b].dialogue == [d3] && d1.id != d2.id
    ensures var r := MoveItem(scenes, DialogueKind, a, b, d2.id, 0, None, None);
            r[a].dialogue == [d1] && r[b].dialogue == [d2, d3]
  {
    assert LineIndex(scenes[a].dialogue, d2.id) == Some(1) by { SecondLineIndex(d1, d2); }
    assert Found(scenes, DialogueKind, a, b, d2.id, None, None);
    var s1 := TakeLine(scenes, a, 1);
    assert s1[a].dialogue == [d1] by { assert RemoveAt([d1, d2], 1) == [d1]; }
    assert s1[b] == scenes[b];
    var r := PutLine(s1, b, 0, d2);
    assert r == MoveItem(scenes, DialogueKind, a, b, d2.id, 0, None, None);
    assert r[a] == s1[a];
    assert r[b].dialogue == [d2, d3] by { assert InsertAt([d3], 0, d2) == [d2, d3]; }
  }
}
