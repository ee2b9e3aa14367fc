# Scene editor core: stores, drag protocols and playback history

This project models, in Dafny, the core of a browser-based visual-novel scene
editor. A story is a map from scene id to scene. A scene has:

- three parallax layers (`bg`, `mid`, `fg`) of positioned images;
- an ordered list of dialogue lines;
- an optional list of choices. Choices link the scenes into a story graph.

The model covers:

- **Scene data.** The scene types. The `applyDefaults`/`loadGameData`
  normalisation, which adds missing layers and sorts layers back to front.
  Module `Types`: `types.dfy`. Module `GameData`: `game_data.dfy`.
- **The editor store** (`useGameStore`). The snapshot pair
  (module `GameSnapshot`). Scene creation and the graph projection
  (module `GameGraph`). Item moves, copies, reorders, deletes and patches
  (module `GameStore`). Dialogue and choice edits (module `GameLines`).
- **The position-edits store** used by the in-game palette
  (`PositionStore`).
- **The react-dnd protocol of the sidebar** (`ReactDnd`):
  - begin and end drag;
  - the item-wrapper hover, which reorders or moves as the cursor passes over
    items;
  - the container drop, and the section drop.
- **The dnd-kit protocol of the asset palette** (`DndKit`):
  - drag start, over, end and cancel;
  - the `scene-layer` drop-id split;
  - the Alt-key copy.

  The Alt key state comes from the keyboard store (`Keyboard`).
- **The sidebar coordinator** (`Sections`):
  - section open flags forced open while dragging;
  - the add-scene draft field;
  - the choice picker.
- **The dialogue line editor** (`DialogueForm`) and **string helpers** (`Text`).
- **The graph store's write-backs** (`GraphStore`) and **the asset store**
  (`AssetStore`).
- **The playback history of visited scenes** (`SceneHistory`).
- **The developer-mode mouse drag** (`DevModeDrag`).

**How values are modelled**

- Scene maps are immutable values. Each store action is a pure function from
  the old map to the new one.
- Ids from `nanoid` and clock readings are explicit parameters.
- JavaScript `undefined` is `None`. `splice(i, 0, x)` is an insertion at
  `min(i, length)`.
- Shared helpers:
  - `Seqs` holds insertion, removal, reorder, first-index and filter.
  - `Ownership` holds the multiset of all items summed over a scene map. The
    "nothing lost, nothing duplicated" lemmas are stated with it.

## Model

| member | source | states |
|---|---|---|
| Seqs.RemoveInserted | src/stores/useGameStore.ts:98-99 | splicing an element in and then out again at the same clamped index gives the list back |
| Seqs.Reorder | src/stores/useGameStore.ts:211-229 | a reorder keeps the length and the contents, puts the moved element at the clamped new index, and taking it back out gives the list without it at its old place, so the others keep their order |
| Types.LayerIndex | src/stores/useGameStore.ts:57 | a found layer is the first whose id equals the requested one; absent is returned exactly when no layer has that id or no id is given |
| GameData.DefaultLayer | src/game/gameData.ts:9-14 | a layer created for a missing id carries that id and no items |
| GameData.Missing | src/game/gameData.ts:18-25 | default layers are created for exactly the canonical ids the given layers lack |
| GameData.SortLayers | src/game/gameData.ts:28-32 | the layer sort is a permutation of its input ordered bg, mid, fg |
| GameData.SortLayersOfSorted | src/game/gameData.ts:28-32 | sorting layers already in bg, mid, fg order leaves them unchanged (the sort is stable) |
| GameData.SortBgFgMid | src/game/gameData.ts:28-32 | the layers bg, fg, mid come out as bg, mid, fg |
| GameData.DefaultedLayers | src/game/gameData.ts:18-32 | the result has a layer of every id and is sorted; as a multiset it is exactly the given layers plus one default layer per id none of them has |
| GameData.ApplyDefaults | src/game/gameData.ts:16-43 | a normalised scene has all three layers in order, its layers are exactly the given ones plus a default for each missing id, it keeps its given layers, dialogue and choices (choices default to empty), width defaults to 2000 when 0 or absent, the id falls back to a fresh id, and the name falls back to "Scene <given id>", which reads "Scene undefined" when no id was given |
| GameData.SceneName | src/game/gameData.ts:37 | a truthy name is kept; otherwise the name is "Scene " followed by the given id, or by "undefined" when there is none |
| GameData.ApplyDefaultsIdempotent | src/game/gameData.ts:16-43 | normalising an already normalised scene changes nothing |
| GameData.SceneBGainsMidLayer | src/game/gameData.ts:112-158 | the built-in scene with only bg and fg layers gains a default mid layer between them |
| GameData.LoadGameData | src/game/gameData.ts:161-169 | loading keeps the set of scene keys and normalises each raw scene under its own key |
| GameGraph.NodeOf | src/stores/useGameStore.ts:364-375 | a graph node carries the scene's id and name and its stored position, 0 where none is stored |
| GameGraph.ToRFNodes | src/stores/useGameStore.ts:364-375 | there is one node per scene, in order |
| GameGraph.ToRFNodesIds | src/stores/useGameStore.ts:364-375 | a node with a given id exists exactly when a scene with that id exists |
| GameGraph.ToRFEdges | src/stores/useGameStore.ts:377-392 | there is one edge per choice over all scenes |
| GameGraph.ToRFEdgesMembers | src/stores/useGameStore.ts:377-392 | an edge appears exactly when some scene has a choice from which it is built (source scene, target, label) |
| GameGraph.AddScene | src/stores/useGameStore.ts:32-54 | adding a scene adds exactly the fresh key, stores the new scene under it and leaves the other scenes alone |
| GameGraph.NewScene | src/stores/useGameStore.ts:36-41 | the new scene carries the fresh id, the given name or "Scene <id>" when the name is empty, width 2000, no dialogue and no choices |
| GameGraph.AddSceneLayers | src/stores/useGameStore.ts:38-41 | a new scene gets the three default layers bg, mid, fg |
| GameSnapshot.CreateSnapshot | src/stores/useGameStore.ts:306-309 | a snapshot holds the current scenes and leaves them unchanged |
| GameSnapshot.RestoreSnapshot | src/stores/useGameStore.ts:310-316 | a restore puts the snapshot back and clears it, and without a snapshot does nothing |
| GameSnapshot.SnapshotAtomic | src/stores/useGameStore.ts:306-316 | a snapshot, then any sequence of scene edits, then a restore returns the original scenes with no snapshot |
| GameSnapshot.RestoreTwice | src/stores/useGameStore.ts:310-316 | a second restore has no further effect |
| GameSnapshot.CancelledReorderRestores | src/stores/useGameStore.ts:211-229 | a hover that swaps two fg items, followed by a cancelled drag, restores the original order |
| GameStore.PlaceImage | src/stores/useGameStore.ts:113-119 | an image inserted into a layer lands at the clamped index and fills an empty layer alone; taking it back out gives the original layer, so every other item keeps its order |
| GameStore.MoveItem | src/stores/useGameStore.ts:77-121 | a move that cannot find its scenes, layers or item is a no-op; otherwise only the source and target scenes change |
| GameStore.MoveItemPreservesOwnership | src/stores/useGameStore.ts:77-121 | a move never loses or duplicates a dialogue line or an image anywhere in the story |
| GameStore.MoveLinePlacement | src/stores/useGameStore.ts:93-99 | between two scenes, the source list is the old one with the line spliced out and the target list is the old one with the line spliced in at the clamped index; within one scene, the list is the reorder of the line to that index |
| GameStore.MoveImagePlacement | src/stores/useGameStore.ts:100-119 | between two layers, the source layer is the old one with the image spliced out and the target layer gets it pushed (when empty) or spliced in at the clamped index; other target layers are untouched |
| GameStore.MoveImageIntoEmptyLayer | src/stores/useGameStore.ts:115-116 | an image moved into an empty layer becomes that layer's only item |
| GameStore.MoveLineToOwnIndex | src/stores/useGameStore.ts:93-99 | moving a line to its own index changes nothing |
| GameStore.MoveImageToOwnIndex | src/stores/useGameStore.ts:100-119 | moving an image to its own index in its own layer changes nothing |
| GameStore.CopyItem | src/stores/useGameStore.ts:122-172 | a copy whose item is not found is a no-op; otherwise only the target scene changes |
| GameStore.CopyLineAddsOne | src/stores/useGameStore.ts:138-147 | a line copy adds exactly one line, the original with the fresh id, and no images; the target list is the old one with the copy spliced in at the clamped index |
| GameStore.CopyImageAddsOne | src/stores/useGameStore.ts:148-170 | an image copy adds exactly one image, the original with the fresh id, and leaves the source layer as it was; the target layer gets the copy pushed (when empty) or spliced in at the clamped index |
| GameStore.CopyLineIdUnique | src/stores/useGameStore.ts:138-147 | with an unused fresh id, the copied line is the only line carrying it and occurs once |
| GameStore.CopyImageIdUnique | src/stores/useGameStore.ts:148-170 | with an unused fresh id, the copied image is the only image carrying it and occurs once |
| GameStore.ReorderItem | src/stores/useGameStore.ts:211-229 | a reorder of an unaddressed list is a no-op and touches no other scene |
| GameStore.ReorderItemPermutes | src/stores/useGameStore.ts:211-229 | a reorder turns the addressed list into the splice-out, splice-in reorder, whose entry at the clamped new index is the moved one and whose other entries keep their order; the other lists and the story's totals are unchanged |
| GameStore.ReorderItemSameIndex | src/stores/useGameStore.ts:211-229 | a reorder to the same index changes nothing |
| GameStore.DeleteItem | src/stores/useGameStore.ts:194-210 | a delete from an unaddressed list is a no-op and touches no other scene |
| GameStore.DeleteItemRemovesOnlyId | src/stores/useGameStore.ts:194-210 | a delete removes every entry with the id from the addressed list, keeps every other entry with its multiplicity, adds nothing that was not there, and leaves the other lists alone |
| GameStore.AddImage | src/stores/useGameStore.ts:173-193 | without a url, scene or layer nothing changes; otherwise exactly one new image with the fresh id is appended to that layer |
| GameStore.AddImageAddsOne | src/stores/useGameStore.ts:173-193 | over all scenes, the images grow by exactly the new image when url, scene and layer are present and stay the same otherwise; the dialogue lines never change |
| GameStore.Assign | src/stores/useGameStore.ts:61-63 | every field the patch carries overwrites the item's, every field it lacks is kept, so an empty patch changes nothing |
| GameStore.Update | src/stores/useGameStore.ts:55-76 | an update of a missing scene or layer is a no-op and touches no other scene |
| GameStore.UpdatePatchesFound | src/stores/useGameStore.ts:57-63 | a found item takes each of url, x, y, name and scale that the patch gives and keeps the others; its neighbours, other layers and dialogue are unchanged |
| GameStore.UpdateAppendsMissing | src/stores/useGameStore.ts:65-74 | a missing item is appended only when the patch has a url, with the patch's id or a fresh one, position 0 by default and zoom 1 by default |
| GameStore.CrossSceneLineMove | src/stores/useGameStore.ts:77-121 | moving the second of two lines of scene A to the front of scene B leaves A with the first line and puts the moved line before B's |
| GameLines.FindLine | src/stores/useGameStore.ts:245 | a line is found exactly when some line has the id, and the found line is from the list with that id |
| GameLines.EditLine | src/stores/useGameStore.ts:230-262 | a line edit changes only the first line with the id, and nothing when none has it |
| GameLines.UpdateDialogueText | src/stores/useGameStore.ts:230-239 | only the text of the first line with the id in the named scene changes |
| GameLines.TextThenSpeakerIsUpsert | src/stores/useGameStore.ts:230-262 | on a present line, a text update followed by a speaker change is the same as one upsert of both |
| GameLines.ChangeSpeaker | src/stores/useGameStore.ts:253-262 | only the speaker of the first line with the id in the named scene changes |
| GameLines.UpsertDialogue | src/stores/useGameStore.ts:240-252 | an existing line is replaced in place by the new speaker and text; otherwise the line is appended; a missing scene is a no-op |
| GameLines.UpsertThenFind | src/stores/useGameStore.ts:240-252 | after an upsert, the line found under the id is exactly the new one |
| GameLines.UpsertIdempotent | src/stores/useGameStore.ts:240-252 | repeating an upsert changes nothing |
| GameLines.AddDialogue | src/stores/useGameStore.ts:263-277 | a new line with the fresh id and empty defaults is appended to the scene and returned |
| GameLines.AddDialogueThenDelete | src/stores/useGameStore.ts:263-277 | deleting a just-added line with an unused id restores the scenes |
| GameLines.AddChoice | src/stores/useGameStore.ts:287-295 | a choice is appended to the scene's list, which is created when absent |
| GameLines.DeleteChoice | src/stores/useGameStore.ts:278-286 | a choice delete keeps exactly the choices whose id differs, each with its multiplicity and in their original order |
| GameLines.AddChoiceThenDelete | src/stores/useGameStore.ts:278-295 | deleting a just-added choice with an unused id restores the scenes |
| GameLines.Dedup | src/stores/useGameStore.ts:296-305 | de-duplication keeps each element exactly once |
| GameLines.DedupFirstOccurrenceOrder | src/stores/useGameStore.ts:296-305 | de-duplication lists the elements in the order of their first occurrence in the input |
| GameLines.GetAllSpeakers | src/stores/useGameStore.ts:296-305 | the speaker list has no duplicates and no empty name |
| GameLines.GetAllSpeakersMembers | src/stores/useGameStore.ts:296-305 | a name is listed exactly when it is non-empty and some line of some scene has it as speaker |
| PositionStore.TakeSnapshot | src/game/hooks/positionEditsStore.ts:43-47 | a snapshot holds the current scenes and leaves them unchanged |
| PositionStore.RestoreSnapshot | src/game/hooks/positionEditsStore.ts:48-53 | a restore puts the snapshot back and clears it |
| PositionStore.ClearSnapshot | src/game/hooks/positionEditsStore.ts:54-58 | a clear drops the snapshot and keeps the scenes |
| PositionStore.TakeThenRestore | src/game/hooks/positionEditsStore.ts:43-53 | a snapshot, then any edits, then a restore returns the original scenes |
| PositionStore.MoveItem | src/game/hooks/positionEditsStore.ts:111-129 | a move with any address missing is a no-op; only the two named scenes can change |
| PositionStore.MoveItemAppends | src/game/hooks/positionEditsStore.ts:124-127 | across lists, the item is removed from its source layer and appended to the target layer |
| PositionStore.MoveItemSameLayerLast | src/game/hooks/positionEditsStore.ts:124-127 | a move within one layer sends the item to the end |
| PositionStore.MoveItemPreservesOwnership | src/game/hooks/positionEditsStore.ts:111-129 | a move never loses or duplicates an item or a line |
| PositionStore.NewItem | src/game/hooks/positionEditsStore.ts:139-145 | a new item has the fresh id, the patch's url and zoom, and position 0 by default |
| PositionStore.AddItem | src/game/hooks/positionEditsStore.ts:130-149 | without a url, scene or layer nothing changes; otherwise the new item is appended to that layer |
| PositionStore.AddItemAddsOne | src/game/hooks/positionEditsStore.ts:130-149 | an add grows the story's items by exactly the new item |
| PositionStore.AssignItem | src/game/hooks/positionEditsStore.ts:155-158 | every field the patch carries overwrites the item's, every field it lacks is kept |
| PositionStore.Update | src/game/hooks/positionEditsStore.ts:150-170 | a found item is patched in place; a missing one is appended with the patch's url and defaults only when a url is given; a missing layer is a no-op |
| PositionStore.UpdateSwapsOneItem | src/game/hooks/positionEditsStore.ts:150-170 | patching a found item swaps that one item for its patched copy in the multiset of all items, and leaves the lines alone |
| PositionStore.DeleteItem | src/game/hooks/positionEditsStore.ts:104-110 | every item with the id leaves the layer; the others keep their multiplicity; other layers are untouched |
| PositionStore.UpdateDialogue | src/game/hooks/positionEditsStore.ts:59-66 | the first line with the patch's id takes the given speaker and text; without an id or a match nothing changes |
| PositionStore.UpdateDialogueSwapsOneLine | src/game/hooks/positionEditsStore.ts:59-66 | updating a found line swaps that one line for its patched copy in the multiset of all lines, and leaves the items alone |
| PositionStore.MoveDialogue | src/game/hooks/positionEditsStore.ts:67-81 | a move with a missing scene or line is a no-op; only the two named scenes change |
| PositionStore.MoveDialoguePreservesOwnership | src/game/hooks/positionEditsStore.ts:67-81 | a line move never loses or duplicates a line or an item |
| PositionStore.MoveDialoguePlacement | src/game/hooks/positionEditsStore.ts:67-81 | the moved line sits at the clamped index of the target list; between two scenes the source list loses exactly that line and the target list gains it spliced in, and within one scene the list is the reorder of the line |
| PositionStore.MoveDialogueToOwnIndex | src/game/hooks/positionEditsStore.ts:67-81 | moving a line to its own index changes nothing |
| PositionStore.AddDialogue | src/game/hooks/positionEditsStore.ts:82-96 | a line with the fresh id and empty defaults is appended and returned |
| PositionStore.AddDialogueThenDelete | src/game/hooks/positionEditsStore.ts:82-103 | adding a line with a fresh id and then deleting that id gives back the original scenes |
| PositionStore.DeleteDialogue | src/game/hooks/positionEditsStore.ts:97-103 | every line with the id is removed and the others keep their multiplicity |
| ReactDnd.BeginDrag | src/components/Sidebarv2/Wrappers.tsx:31-44 | a non-draggable item starts nothing; otherwise the store is snapshotted and the drag record holds the item's id and position |
| ReactDnd.EndDrag | src/components/Sidebarv2/Wrappers.tsx:45-49 | a drag end keeps the scenes after a drop and restores the snapshot otherwise |
| ReactDnd.Hover | src/components/Sidebarv2/Wrappers.tsx:59-102 | a hover over the record's own position is a no-op; otherwise the record moves to the hovered position, and an image record also moves to the hovered layer |
| ReactDnd.HoverEvent | src/components/Sidebarv2/Wrappers.tsx:58-102 | a hover without a drag, or with an item of another kind, is ignored |
| ReactDnd.CancelledDragRestores | src/components/Sidebarv2/Wrappers.tsx:31-102 | a drag cancelled after any sequence of hovers leaves the scenes as they were before it began |
| ReactDnd.HoverKeepsTracking | src/components/Sidebarv2/Wrappers.tsx:59-102 | a hover over a rendered item, at an index inside its list, keeps the record pointing at the dragged item's actual position; the draft line's slot one past the end is not covered |
| ReactDnd.DraftSlotLosesTrack | src/components/Sidebarv2/GameEditorSidebar.tsx:281-289 | a same-scene hover over the draft line's slot puts the line last but records the index one past the end, so the record stops tracking it and no later hover over another line of that scene is well defined |
| ReactDnd.HoverMovesLine | src/components/Sidebarv2/Wrappers.tsx:75-81 | a line hovered over another scene's list ends up at the hovered index there |
| ReactDnd.HoverMovesImage | src/components/Sidebarv2/Wrappers.tsx:84-98 | an image hovered over another layer's list ends up at the hovered index of that layer |
| ReactDnd.DropOn | src/components/Sidebarv2/Wrappers.tsx:151-167 | a drop of another kind or onto the item's own collection does nothing; otherwise the container's drop callback fires |
| ReactDnd.DropPutsItemFirst | src/components/Sidebarv2/Wrappers.tsx:155-167 | an item dropped on another collection becomes its first entry |
| ReactDnd.SectionDrop | src/components/Sidebarv2/DroppableSection.tsx:33-45 | a section drop of another kind or from the same scene does nothing |
| ReactDnd.SectionImageDropIsNoop | src/components/Sidebarv2/DroppableSection.tsx:33-45 | an image dropped on a section never moves, since the move names no layer |
| ReactDnd.SectionLineDropFirst | src/components/Sidebarv2/DroppableSection.tsx:33-45 | a line dropped on another scene's section becomes its first line |
| Keyboard.HandleEvent | src/stores/keyboardStateStore.ts:17-22 | a key-up always releases; a key-down holds exactly when the key is Alt |
| Keyboard.ReplayIsLastEvent | src/stores/keyboardStateStore.ts:17-22 | after any events, Alt is held exactly when the last event was an Alt key-down |
| Keyboard.InitiallyReleased | src/stores/keyboardStateStore.ts:10-22 | Alt starts released and stays released through any events none of which is an Alt key-down |
| DndKit.DragStart | src/components/AssetPalette.tsx:36-41 | a drag with data snapshots the store and remembers the entry; one without data does nothing |
| DndKit.DragOver | src/components/AssetPalette.tsx:42-68 | hovering a layer or dragging a non-dialogue entry changes nothing; a dialogue hover over an entry moves the line there |
| DndKit.SplitDropId | src/components/AssetPalette.tsx:79 | the drop id splits at its first two dashes; no part contains a dash and the layer part is absent exactly when there is no dash |
| DndKit.DropIdRoundTrip | src/components/AssetPalette.tsx:79 | a drop id built from a dash-free scene id and a layer id splits back into both |
| DndKit.DashedSceneIdMisroutes | src/components/AssetPalette.tsx:79 | a scene id containing a dash splits into the wrong scene and layer |
| DndKit.DragEnd | src/components/AssetPalette.tsx:69-102 | a drag end always clears the snapshot; without a target it also forgets the drag; a dialogue drag leaves the scenes as hovered |
| DndKit.DropOnOriginIsNoop | src/components/AssetPalette.tsx:81 | dropping an image on its own scene and layer changes nothing |
| DndKit.AltDropCopies | src/components/AssetPalette.tsx:82-83 | an Alt drop adds exactly one copy of the dragged image, with the fresh id, and touches no other scene |
| DndKit.PlainDropMoves | src/components/AssetPalette.tsx:85-97 | a drop without Alt never loses or duplicates an item or a line |
| DndKit.DragCancel | src/components/AssetPalette.tsx:103-106 | a cancel restores the snapshot and forgets the drag |
| DndKit.CancelUndoesHovers | src/components/AssetPalette.tsx:36-106 | a drag cancelled after any hovers leaves the scenes as they were at drag start |
| DndKit.DialogueDropKeepsHovers | src/components/AssetPalette.tsx:42-102 | ending a dialogue drag keeps the order the hovers produced |
| DndKit.AltDropFgToBg | src/components/AssetPalette.tsx:79-83 | an Alt drop of an fg image on the bg layer appends its copy to bg and leaves fg as it was |
| Sections.Toggle | src/components/Sidebarv2/GameEditorSidebar.tsx:64-70 | a toggle flips the user flag of one section and no other flag |
| Sections.ToggleTwice | src/components/Sidebarv2/GameEditorSidebar.tsx:64-70 | toggling twice restores every flag |
| Sections.DragEnter | src/components/Sidebarv2/GameEditorSidebar.tsx:72-83 | a drag entering a closed section forces it open |
| Sections.DragLeave | src/components/Sidebarv2/GameEditorSidebar.tsx:85-96 | a drag leaving a section the user has not opened clears its forced flag |
| Sections.EnterThenLeave | src/components/Sidebarv2/GameEditorSidebar.tsx:72-104 | a section is open while dragged over, is open after the drag leaves exactly when the user opened it, and no other section is affected |
| Sections.OnDrop | src/components/Sidebarv2/GameEditorSidebar.tsx:106-117 | a drop makes every forced-open section and the drop target user-open and clears the forced flags |
| Sections.OnDropKeepsOpen | src/components/Sidebarv2/GameEditorSidebar.tsx:98-117 | after a drop, exactly the sections open before it and the drop target are open |
| Sections.DraftKeyDown | src/components/Sidebarv2/GameEditorSidebar.tsx:181-189 | Enter on a non-blank draft adds the scene and closes the draft; Escape discards it; a blank draft and other keys change nothing |
| Sections.DraftCommitAddsScene | src/components/Sidebarv2/GameEditorSidebar.tsx:181-189 | committing a draft under an unused id adds exactly one scene named as typed |
| Sections.Options | src/components/Sidebarv2/GameEditorSidebar.tsx:484-492 | the picker offers exactly the other scenes that no choice of the scene leads to yet, labelled by name or id |
| Sections.Submit | src/components/Sidebarv2/GameEditorSidebar.tsx:494-505 | submitting an offered scene appends a choice to it with its label; anything else does nothing |
| Sections.SubmitNoDuplicateTarget | src/components/Sidebarv2/GameEditorSidebar.tsx:484-505 | a submitted target is another existing scene not yet linked, and is no longer offered afterwards |
| Text.Trim | src/components/Sidebarv2/DraggableDialogueItem.tsx:81-92 | a trimmed string is a slice of the input with only white space on either side of it; it is empty exactly when the input is blank, and otherwise starts and ends with non-space |
| Text.TrimIdempotent | src/components/Sidebarv2/DraggableDialogueItem.tsx:81-92 | trimming twice is trimming once |
| DialogueForm.ClickToEdit | src/components/Sidebarv2/DraggableDialogueItem.tsx:76-80 | a click opens the editor unless a drag is in progress |
| DialogueForm.HandleSubmit | src/components/Sidebarv2/DraggableDialogueItem.tsx:81-92 | a blank speaker or text does nothing; otherwise the trimmed line is upserted and the editor closes |
| DialogueForm.SubmitStoresTrimmedLine | src/components/Sidebarv2/DraggableDialogueItem.tsx:81-92 | after a submit, the line found under the id has the trimmed, non-empty speaker and text |
| DialogueForm.FilterSpeakers | src/components/Sidebarv2/DraggableDialogueItem.tsx:294-296 | exactly the speakers whose lower-cased name contains the lower-cased query are kept |
| DialogueForm.FilterKeepsOrder | src/components/Sidebarv2/DraggableDialogueItem.tsx:294-296 | the filtered speakers keep their original order |
| DialogueForm.EmptyQueryKeepsAll | src/components/Sidebarv2/DraggableDialogueItem.tsx:294-296 | an empty query keeps every speaker |
| DialogueForm.ShowCreateIff | src/components/Sidebarv2/DraggableDialogueItem.tsx:298 | "create" is offered exactly when the query is non-empty and matches no speaker, so never for a listed speaker |
| GraphStore.OnConnect | src/stores/graphStore.ts:58-79 | a connection appends one choice to the source scene's existing list, with the target and placeholder label; without a list nothing changes |
| GraphStore.OnConnectAddsOneChoice | src/stores/graphStore.ts:60-66 | the source keeps its choices and gains one last choice leading to the target |
| GraphStore.WriteBack | src/stores/graphStore.ts:35-40 | one position change sets the named scene's graph coordinates (absent ones read as 0) and touches no other field and no other scene; an unknown id changes nothing |
| GraphStore.OnNodesChange | src/stores/graphStore.ts:32-41 | a batch of node changes alters only graph coordinates, and leaves every scene that no position change names exactly as it was |
| GraphStore.OnNodesChangeLastWins | src/stores/graphStore.ts:26-42 | after a batch of node changes, each scene holds the last position given for it, or is unchanged when there is none |
| GraphStore.OtherChangesKeepScenes | src/stores/graphStore.ts:32-41 | changes that are not position changes leave the scenes alone |
| AssetStore.AddAsset | src/stores/assetStore.ts:43-46 | adding an asset records the data url under the original url and keeps the other entries |
| AssetStore.ResolveUrl | src/stores/assetStore.ts:48-51 | resolving gives the stored data url, or the url itself when none is stored |
| AssetStore.ResolveAfterAdd | src/stores/assetStore.ts:43-51 | after an add, the added url resolves to its data url and every other url resolves as before |
| AssetStore.LoadSceneData | src/stores/assetStore.ts:53-66 | every data url embedded in a scene's items maps to itself, and every other stored entry is kept |
| AssetStore.AssetPath | src/stores/assetStore.ts:83-84 | an exported asset path is not a data url |
| AssetStore.ExportSceneData | src/stores/assetStore.ts:68-91 | outside production the scenes come back unchanged; for production no data url remains and only data urls change |
| AssetStore.ExportIdempotent | src/stores/assetStore.ts:68-91 | exporting an exported story again changes nothing |
| SceneHistory.Init | src/game/hooks/hooks.ts:45-56 | the history starts with the initial scene at 0 and no transition |
| SceneHistory.GoForward | src/game/hooks/hooks.ts:63-102 | going to an unknown scene does nothing; otherwise the scene is appended right after the last one and a collapse is scheduled |
| SceneHistory.GoBack | src/game/hooks/hooks.ts:104-130 | with two or more visits, the last is popped, the previous scene becomes current, both stay visible until the collapse, and a collapse is scheduled |
| SceneHistory.Complete | src/game/hooks/hooks.ts:95-99 | a collapse applies only while its transition is still the latest |
| SceneHistory.InitLaidOut | src/game/hooks/hooks.ts:45-56 | the initial history is laid out edge to edge |
| SceneHistory.NavigationKeepsLayout | src/game/hooks/hooks.ts:63-130 | going forward or back keeps every scene starting where the previous one ends |
| SceneHistory.ForwardThenBack | src/game/hooks/hooks.ts:63-130 | going forward then back returns to the same history and current scene |
| SceneHistory.StaleCompletionIgnored | src/game/hooks/hooks.ts:95-127 | the forward collapse is ignored once a later back navigation has started |
| DevModeDrag.MouseDown | src/game/hooks/useDevModeDrag.ts:27-52 | outside developer mode nothing is recorded; otherwise the start positions of mouse and item are |
| DevModeDrag.MovePatch | src/game/hooks/useDevModeDrag.ts:70-75 | a move patch is the item's start position plus the mouse displacement, and nothing else |
| DevModeDrag.MouseMove | src/game/hooks/useDevModeDrag.ts:55-78 | without developer mode or a drag nothing changes |
| DevModeDrag.MouseMovePlacesItem | src/game/hooks/useDevModeDrag.ts:55-78 | the dragged item moves to its start plus the displacement, and its neighbours stay |
| DevModeDrag.MouseMoveForgetsEarlierMoves | src/game/hooks/useDevModeDrag.ts:55-78 | a later mouse position overrides an earlier one |
| DevModeDrag.MouseUp | src/game/hooks/useDevModeDrag.ts:81-88 | a mouse-up in developer mode ends the drag |
| DevModeDrag.MouseDownWithoutTravel | src/game/hooks/useDevModeDrag.ts:27-78 | after a mouse-down, a move to the same mouse point puts the item at the start position recorded on mouse-down and moves no other item |
| DevModeDrag.MovesAfterMouseUpIgnored | src/game/hooks/useDevModeDrag.ts:55-88 | after a mouse-up in developer mode, a mouse move changes nothing |
| DevModeDrag.Zoom | src/game/hooks/useDevModeDrag.ts:90-96 | outside developer mode the zoom is ignored |
| DevModeDrag.ZoomWritesOnlyZoom | src/game/hooks/useDevModeDrag.ts:90-96 | a zoom changes only the zoom factor of the addressed item |
| DevModeDrag.Drop | src/game/hooks/useDevModeDrag.ts:98-119 | outside developer mode, or without a url, nothing changes |
| DevModeDrag.DropAddsToForeground | src/game/hooks/useDevModeDrag.ts:98-119 | a dropped image is appended to the fg layer at the drop point relative to the container, with zoom 1 |

## Left out

- Rendering, styling and the React component tree are not modelled. Only the state changes that the event handlers perform are.
- File upload (`uploadFiles`) and reading images into data urls are left out: they are I/O. The asset store receives the resulting data url as a parameter.
- The xyflow node and edge arrays in the graph store are left out. So are `addEdge` and the node changes other than positions. They are view state of a third-party library.
- `getStoredAssets` (src/stores/assetStore.ts:93-96) is not modelled. It returns the asset map unchanged.
- Debounce and animation timers are left out. The scene-history collapse callback is returned as a `Completion` value, to be applied later.
- The `isOver` transition detection in the droppable wrapper (src/components/Sidebarv2/Wrappers.tsx:171-181) is left out. The coordinator's enter and leave handlers are modelled directly.
- Object key order (`Object.values`, `Object.entries`) is not modelled. Such lists are passed in as sequences.
- Numbers are exact reals and indices are natural numbers: floating-point rounding and negative indices are not modelled.
- A JSON deep clone is modelled as a value copy, because scenes are immutable values here.
- `toLowerCase` is modelled on ASCII letters only. `trim` strips exactly ECMAScript's WhiteSpace and LineTerminator code points.
- The graph position of a scene (`graphX`, `graphY`) is an optional scene field that the graph store writes. The item type of the position-edits store is inferred from how the store uses it.
- AssetStore.ExportSceneData: the source reads the clock once per asset (`Date.now()` inside the loop); the model uses one reading for all assets of the call, so they share one path.
- ReactDnd.Hover: requires that the recorded index lies inside the list the reorder addresses. The source would splice out `undefined` otherwise. `HoverKeepsTracking` shows that the precondition holds along any sequence of hovers over the wrappers of existing items. The draft line's wrapper (src/components/Sidebarv2/GameEditorSidebar.tsx:281-289) is also a hover target, at index `|dialogue|`. `ValidSlot` excludes it. `DraftSlotLosesTrack` shows that after a same-scene hover there, the next hover over another line of the scene violates the precondition: the source splices `undefined` into the dialogue at that point, and that path is not modelled.
- DndKit.DropIdRoundTrip: requires a scene id without `-`. `DashedSceneIdMisroutes` shows that the split goes wrong otherwise. The position-edits store's scene ids come only from the built-in data, which has no dashed ids.
- PositionStore.RestoreSnapshot and DndKit.DragCancel: require a snapshot. Without one, the source would set the scenes to `null`.
- PositionStore.Update: requires the scene to exist. The source dereferences it without a check.
- Sections.Options and Sections.Submit: require the scene to exist. The picker reads it without a check.
- DndKit.DragEnd: on the dialogue path, and on the early return when a move has no target scene or layer, the source keeps the dragged entry set. The model does the same.
- SceneHistory.GoForward: an empty history still renews the transition id, as the source does.
- DevModeDrag.Drop: in the source, the lookup id and the stored id come from two separate `nanoid` calls. Both are parameters here.
