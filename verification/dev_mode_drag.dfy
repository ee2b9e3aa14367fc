/** The in-viewport editing hook: in dev mode an image can be dragged with the
    mouse, zoomed, or created by dropping a url; every change goes through
    the editor store's `update`. Outside dev mode every handler except mouse-up's
    `preventDefault` does nothing. */
module DevModeDrag {
  import opened Wrappers
  import opened Types
  import opened GameStore

  /** The drag in progress: the item's address, where the mouse went down and
      where the item was then. */
  datatype DragRef = DragRef(sceneId: string, layerId: string, itemId: string,
                             startMouseX: real, startMouseY: real, startItemX: real, startItemY: real)

  /** `handleMouseDown`: record the drag. */
  function MouseDown(devMode: bool, drag: Option<DragRef>, sceneId: string, layerId: string, itemId: string,
                     mouseX: real, mouseY: real, itemX: real, itemY: real): (r: Option<DragRef>)
    ensures !devMode ==> r == drag
    ensures devMode ==> r == Some(DragRef(sceneId, layerId, itemId, mouseX, mouseY, itemX, itemY))
  {
    if !devMode then drag else Some(DragRef(sceneId, layerId, itemId, mouseX, mouseY, itemX, itemY))
  }

  /** The patch a mouse move sends: the item's start position plus the mouse's
      travel since mouse-down. */
  function MovePatch(d: DragRef, mouseX: real, mouseY: real): (p: ImagePatch)
    ensures p.x == Some(d.startItemX + (mouseX - d.startMouseX))
    ensures p.y == Some(d.startItemY + (mouseY - d.startMouseY))
    ensures p.id.None? && p.url.None? && p.name.None? && p.zoomFactor.None?
  {
    ImagePatch(None, None, None, Some(d.startItemX + (mouseX - d.startMouseX)),
               Some(d.startItemY + (mouseY - d.startMouseY)), None)
  }

  /** `handleMouseMove`: without dev mode or a drag nothing happens; otherwise
      the item is placed by `MovePatch`. The patch has no url, so `update`
      never creates an item here and the fresh id goes unused. */
  function MouseMove(devMode: bool, drag: Option<DragRef>, scenes: Scenes, mouseX: real, mouseY: real): (r: Scenes)
    ensures !devMode || drag.None? ==> r == scenes
    ensures r.Keys == scenes.Keys
  {
    if !devMode || drag.None? then scenes
    else
      var d := drag.value;
      Update(scenes, d.sceneId, d.layerId, d.itemId, MovePatch(d, mouseX, mouseY), "")
  }

  /** A mouse move puts the dragged item at its start position plus the
      mouse's travel, and changes no other item. */
  lemma MouseMovePlacesItem(scenes: Scenes, d: DragRef, mouseX: real, mouseY: real)
    requires d.sceneId in scenes && LayerIndex(scenes[d.sceneId].layers, Some(d.layerId)).Some?
    requires ItemIndex(scenes[d.sceneId].layers[LayerIndex(scenes[d.sceneId].layers, Some(d.layerId)).value].items, d.itemId).Some?
    ensures var r := MouseMove(true, Some(d), scenes, mouseX, mouseY);
            var li := LayerIndex(scenes[d.sceneId].layers, Some(d.layerId)).value;
            var items := scenes[d.sceneId].layers[li].items;
            var i := ItemIndex(items, d.itemId).value;
            && |r[d.sceneId].layers| == |scenes[d.sceneId].layers| && |r[d.sceneId].layers[li].items| == |items|
            && r[d.sceneId].layers[li].items[i] == items[i].(x := d.startItemX + (mouseX - d.startMouseX),
                                                             y := d.startItemY + (mouseY - d.startMouseY))
            && (forall j :: 0 <= j < |items| && j != i ==> r[d.sceneId].layers[li].items[j] == items[j])
  {
    UpdatePatchesFound(scenes, d.sceneId, d.layerId, d.itemId, MovePatch(d, mouseX, mouseY), "");
  }

  /** Each move depends on the drag's start only: a later move gives the same
      scenes whatever moves came before it. */
  lemma MouseMoveForgetsEarlierMoves(scenes: Scenes, d: DragRef, x1: real, y1: real, x2: real, y2: real)
    ensures MouseMove(true, Some(d), MouseMove(true, Some(d), scenes, x1, y1), x2, y2)
         == MouseMove(true, Some(d), scenes, x2, y2)
  {
    var sid := d.sceneId;
    if sid in scenes && LayerIndex(scenes[sid].layers, Some(d.layerId)).Some? {
      var li := LayerIndex(scenes[sid].layers, Some(d.layerId)).value;
      var items := scenes[sid].layers[li].items;
      if ItemIndex(items, d.itemId).Some? {
        var i := ItemIndex(items, d.itemId).value;
        var a1 := items[i := Assign(items[i], MovePatch(d, x1, y1))];
        var a2 := items[i := Assign(items[i], MovePatch(d, x2, y2))];
        var s1 := MouseMove(true, Some(d), scenes, x1, y1);
        MoveKeepsAddress(scenes, d, x1, y1);
        assert s1 == scenes[sid := WithItems(scenes[sid], li, a1)];
        assert s1[sid].layers[li].items == a1;
        assert a1[i := Assign(a1[i], MovePatch(d, x2, y2))] == a2;
        assert MouseMove(true, Some(d), s1, x2, y2) == s1[sid := WithItems(WithItems(scenes[sid], li, a1), li, a2)];
        WithItemsOverwrite(scenes[sid], li, a1, a2);
      }
    }
  }

  /** A move leaves the dragged item where the drag record finds it. */
  lemma MoveKeepsAddress(scenes: Scenes, d: DragRef, mouseX: real, mouseY: real)
    requires d.sceneId in scenes && LayerIndex(scenes[d.sceneId].layers, Some(d.layerId)).Some?
    requires ItemIndex(scenes[d.sceneId].layers[LayerIndex(scenes[d.sceneId].layers, Some(d.layerId)).value].items, d.itemId).Some?
    ensures var r := MouseMove(true, Some(d), scenes, mouseX, mouseY);
            var li := LayerIndex(scenes[d.sceneId].layers, Some(d.layerId)).value;
            && LayerIndex(r[d.sceneId].layers, Some(d.layerId)) == Some(li)
            && li < |r[d.sceneId].layers|
            && ItemIndex(r[d.sceneId].layers[li].items, d.itemId) == ItemIndex(scenes[d.sceneId].layers[li].items, d.itemId)
  {
    var sid := d.sceneId;
    var li := LayerIndex(scenes[sid].layers, Some(d.layerId)).value;
    var items := scenes[sid].layers[li].items;
    var i := ItemIndex(items, d.itemId).value;
    var r := MouseMove(true, Some(d), scenes, mouseX, mouseY);
    assert r == scenes[sid := WithItems(scenes[sid], li, items[i := Assign(items[i], MovePatch(d, mouseX, mouseY))])];
    LayerIndexSameIds(r[sid].layers, scenes[sid].layers, Some(d.layerId));
    assert forall j :: 0 <= j < |items| ==> r[sid].layers[li].items[j].id == items[j].id;
  }

  /** `handleMouseUp`: the drag ends (dev mode only). */
  function MouseUp(devMode: bool, drag: Option<DragRef>): (r: Option<DragRef>)
    ensures devMode ==> r.None?
    ensures !devMode ==> r == drag
  {
    if devMode then None else drag
  }

  /** A mouse-down followed by a move to the same mouse point puts the item
      at the start position recorded on mouse-down, and no other item moves:
      no displacement, no travel. */
  lemma MouseDownWithoutTravel(scenes: Scenes, drag: Option<DragRef>, sceneId: string, layerId: string,
                               itemId: string, mouseX: real, mouseY: real, itemX: real, itemY: real)
    requires sceneId in scenes && LayerIndex(scenes[sceneId].layers, Some(layerId)).Some?
    requires ItemIndex(scenes[sceneId].layers[LayerIndex(scenes[sceneId].layers, Some(layerId)).value].items, itemId).Some?
    ensures var r := MouseMove(true, MouseDown(true, drag, sceneId, layerId, itemId, mouseX, mouseY, itemX, itemY),
                               scenes, mouseX, mouseY);
            var li := LayerIndex(scenes[sceneId].layers, Some(layerId)).value;
            var items := scenes[sceneId].layers[li].items;
            var i := ItemIndex(items, itemId).value;
            && |r[sceneId].layers| == |scenes[sceneId].layers| && |r[sceneId].layers[li].items| == |items|
            && r[sceneId].layers[li].items[i] == items[i].(x := itemX, y := itemY)
            && (forall j :: 0 <= j < |items| && j != i ==> r[sceneId].layers[li].items[j] == items[j])
  {
    MouseMovePlacesItem(scenes, DragRef(sceneId, layerId, itemId, mouseX, mouseY, itemX, itemY), mouseX, mouseY);
  }

  /** After a mouse-up in developer mode, mouse moves change nothing until the
      next mouse-down. */
  lemma MovesAfterMouseUpIgnored(drag: Option<DragRef>, scenes: Scenes, mouseX: real, mouseY: real)
    ensures MouseMove(true, MouseUp(true, drag), scenes, mouseX, mouseY) == scenes
  {
  }

  /** `handleZoom`: send only the zoom factor. */
  function Zoom(devMode: bool, scenes: Scenes, sceneId: string, layerId: string, itemId: string, zoom: real): (r: Scenes)
    ensures !devMode ==> r == scenes
    ensures r.Keys == scenes.Keys
  {
    if !devMode then scenes
    else Update(scenes, sceneId, layerId, itemId, ImagePatch(None, None, None, None, None, Some(zoom)), "")
  }

  /** Zoom changes the item's zoom factor and nothing else. */
  lemma ZoomWritesOnlyZoom(scenes: Scenes, sceneId: string, layerId: string, itemId: string, zoom: real)
    requires sceneId in scenes && LayerIndex(scenes[sceneId].layers, Some(layerId)).Some?
    requires ItemIndex(scenes[sceneId].layers[LayerIndex(scenes[sceneId].layers, Some(layerId)).value].items, itemId).Some?
    ensures var r := Zoom(true, scenes, sceneId, layerId, itemId, zoom);
            var li := LayerIndex(scenes[sceneId].layers, Some(layerId)).value;
            var items := scenes[sceneId].layers[li].items;
            var i := ItemIndex(items, itemId).value;
            && |r[sceneId].layers| == |scenes[sceneId].layers|
            && r[sceneId].layers[li].items == items[i := items[i].(zoomFactor := Some(zoom))]
  {
    var patch := ImagePatch(None, None, None, None, None, Some(zoom));
    UpdatePatchesFound(scenes, sceneId, layerId, itemId, patch, "");
    var r := Zoom(true, scenes, sceneId, layerId, itemId, zoom);
    var li := LayerIndex(scenes[sceneId].layers, Some(layerId)).value;
    var items := scenes[sceneId].layers[li].items;
    var i := ItemIndex(items, itemId).value;
    assert r[sceneId].layers[li].items[i] == items[i].(zoomFactor := Some(zoom));
  }

  /** `handleDrop`: a dropped url becomes a new item on layer `fg` at the drop
      point relative to the container. `update` is asked for a new random id
      (`lookupId`), finds nothing under it, and pushes an item with a second
      random id (`freshId`), since the patch carries none. An empty payload
      does nothing. */
  function Drop(devMode: bool, scenes: Scenes, sceneId: string, url: string, clientX: real, clientY: real,
                left: real, top: real, lookupId: string, freshId: string): (r: Scenes)
    ensures !devMode || url == "" ==> r == scenes
    ensures r.Keys == scenes.Keys
  {
    if !devMode || url == "" then scenes
    else Update(scenes, sceneId, Fg, lookupId, ImagePatch(None, None, Some(url), Some(clientX - left), Some(clientY - top), None), freshId)
  }

  /** A drop adds one item, at the container-relative point, to the end of
      the scene's `fg` layer. */
  lemma DropAddsToForeground(scenes: Scenes, sceneId: string, url: string, clientX: real, clientY: real,
                             left: real, top: real, lookupId: string, freshId: string)
    requires url != "" && sceneId in scenes && LayerIndex(scenes[sceneId].layers, Some(Fg)).Some?
    requires forall it :: it in scenes[sceneId].layers[LayerIndex(scenes[sceneId].layers, Some(Fg)).value].items ==> it.id != lookupId
    ensures var r := Drop(true, scenes, sceneId, url, clientX, clientY, left, top, lookupId, freshId);
            var li := LayerIndex(scenes[sceneId].layers, Some(Fg)).value;
            r[sceneId].layers[li].items
              == scenes[sceneId].layers[li].items + [ImageAsset(freshId, "", url, clientX - left, clientY - top, Some(1.0))]
  {
    var patch := ImagePatch(None, None, Some(url), Some(clientX - left), Some(clientY - top), None);
    UpdateAppendsMissing(scenes, sceneId, Fg, lookupId, patch, freshId);
  }
}
