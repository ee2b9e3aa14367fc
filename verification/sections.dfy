/** The v2 sidebar's coordinator state: which collapsible sections are open,
    the add-scene draft input, and the choice picker of a scene. A section id
    is `${sceneId}-${section}`. A section is open when the user opened it or a
    drag hovering over it forced it open; a drop makes forced sections stick. */
module Sections {
  import opened Wrappers
  import opened Types
  import opened Text
  import opened GameGraph
  import opened GameLines

  /** A missing entry of a `Record<string, boolean>` reads as false. */
  function Get(m: map<string, bool>, k: string): bool {
    k in m && m[k]
  }

  datatype Flags = Flags(user: map<string, bool>, forced: map<string, bool>)

  function SectionId(sceneId: string, section: string): string {
    sceneId + "-" + section
  }

  /** `isOpen`. */
  predicate IsOpen(f: Flags, id: string) {
    Get(f.user, id) || Get(f.forced, id)
  }

  /** `toggleSection`: flip the user flag of one section. */
  function Toggle(f: Flags, id: string): (r: Flags)
    ensures r.forced == f.forced
    ensures Get(r.user, id) == !Get(f.user, id)
    ensures forall k :: k != id ==> Get(r.user, k) == Get(f.user, k)
  {
    f.(user := f.user[id := !Get(f.user, id)])
  }

  /** Toggling twice gives every section its former user flag back, and the
      same map when the section had an entry. */
  lemma ToggleTwice(f: Flags, id: string)
    ensures forall k :: Get(Toggle(Toggle(f, id), id).user, k) == Get(f.user, k)
    ensures id in f.user ==> Toggle(Toggle(f, id), id) == f
  {
    if id in f.user {
      assert Toggle(Toggle(f, id), id).user == f.user;
    }
  }

  /** `handleDragEnter` (after its debounce): force the section open unless the
      user already opened it. */
  function DragEnter(f: Flags, id: string): (r: Flags)
    ensures r.user == f.user
    ensures !Get(f.user, id) ==> r.forced == f.forced[id := true]
    ensures Get(f.user, id) ==> r == f
  {
    if !Get(f.user, id) then f.(forced := f.forced[id := true]) else f
  }

  /** `handleDragLeave`: un-force the section unless the user opened it. */
  function DragLeave(f: Flags, id: string): (r: Flags)
    ensures r.user == f.user
    ensures !Get(f.user, id) ==> r.forced == f.forced[id := false]
    ensures Get(f.user, id) ==> r == f
  {
    if !Get(f.user, id) then f.(forced := f.forced[id := false]) else f
  }

  /** Entering opens the section; entering and leaving again closes it unless
      the user holds it open; no other section changes either way. */
  lemma EnterThenLeave(f: Flags, id: string)
    ensures IsOpen(DragEnter(f, id), id)
    ensures IsOpen(DragLeave(DragEnter(f, id), id), id) <==> Get(f.user, id)
    ensures forall k :: k != id ==> (IsOpen(DragLeave(DragEnter(f, id), id), k) <==> IsOpen(f, k))
  {
  }

  /** The true entries of a flag map. */
  function TrueEntries(m: map<string, bool>): (r: map<string, bool>)
    ensures forall k :: k in r <==> Get(m, k)
    ensures forall k :: k in r ==> r[k]
  {
    map k | k in m && m[k] :: true
  }

  /** `onDrop`: the forced flags that are set become user flags, the forced
      map is emptied, and the dropped-on section is marked user-open. */
  function OnDrop(f: Flags, id: string): (r: Flags)
    ensures r.forced == map[]
    ensures Get(r.user, id)
    ensures forall k :: k != id ==> (Get(r.user, k) <==> Get(f.user, k) || Get(f.forced, k))
  {
    Flags((f.user + TrueEntries(f.forced))[id := true], map[])
  }

  /** A drop closes nothing: exactly the sections open before it, plus the
      dropped-on one, are open after it. */
  lemma OnDropKeepsOpen(f: Flags, id: string)
    ensures forall k :: IsOpen(OnDrop(f, id), k) <==> IsOpen(f, k) || k == id
  {
  }

  // ---- add-scene draft ----

  datatype Key = Enter | Escape | OtherKey

  /** A keydown in the draft scene's name input (`draft` is its name, `None`
      when no draft is shown). Enter adds a scene named by the untrimmed
      draft if its trimmed form is non-empty, and discards the draft; Escape
      discards the draft. */
  function DraftKeyDown(scenes: Scenes, draft: Option<string>, key: Key, freshId: string): (r: (Scenes, Option<string>))
    ensures draft.None? ==> r == (scenes, draft)
    ensures draft.Some? && key == Enter && !Blank(draft.value) ==> r == (AddScene(scenes, draft.value, freshId), None)
    ensures draft.Some? && key == Enter && Blank(draft.value) ==> r == (scenes, draft)
    ensures draft.Some? && key == Escape ==> r == (scenes, None)
    ensures key == OtherKey ==> r == (scenes, draft)
  {
    match draft
    case None => (scenes, draft)
    case Some(name) =>
      match key
      case Enter => if |Trim(name)| > 0 then (AddScene(scenes, name, freshId), None) else (scenes, draft)
      case Escape => (scenes, None)
      case OtherKey => (scenes, draft)
  }

  /** A committed draft adds exactly one scene, under the fresh id, named by
      the draft as typed. */
  lemma DraftCommitAddsScene(scenes: Scenes, name: string, freshId: string)
    requires !Blank(name) && freshId !in scenes
    ensures var r := DraftKeyDown(scenes, Some(name), Enter, freshId).0;
            && r.Keys == scenes.Keys + {freshId}
            && |r.Keys| == |scenes.Keys| + 1
            && r[freshId].name == name
  {
    assert |name| > 0;
    var r := DraftKeyDown(scenes, Some(name), Enter, freshId).0;
    assert scenes.Keys !! {freshId};
  }

  // ---- choice picker ----

  /** The scene already has a choice leading to `id`. */
  predicate Targets(choices: Option<seq<Choice>>, id: string) {
    choices.Some? && exists c :: c in choices.value && c.nextSceneId == id
  }

  /** `sceneOptions`: every other scene that the scene's choices do not yet
      lead to, labelled by its name or, when that is empty, its id. The
      picker reads the scene without a check, so it must exist. */
  function Options(scenes: Scenes, sceneId: string): (r: map<string, string>)
    requires sceneId in scenes
    ensures forall id :: id in r <==> id in scenes && id != sceneId && !Targets(scenes[sceneId].choices, id)
    ensures forall id :: id in r ==> r[id] == if scenes[id].name != "" then scenes[id].name else id
  {
    map id | id in scenes && id != sceneId && !Targets(scenes[sceneId].choices, id) ::
      if scenes[id].name != "" then scenes[id].name else id
  }

  /** The picker's `handleSubmit`: a listed option becomes a new choice with
      the fresh id, the option's label and the option as target; anything
      else is ignored. */
  function Submit(scenes: Scenes, sceneId: string, v: string, freshId: string): (r: Scenes)
    requires sceneId in scenes
    ensures v !in Options(scenes, sceneId) ==> r == scenes
    ensures v in Options(scenes, sceneId) ==> r == AddChoice(scenes, sceneId, Choice(freshId, Options(scenes, sceneId)[v], v))
  {
    var opts := Options(scenes, sceneId);
    if v in opts then AddChoice(scenes, sceneId, Choice(freshId, opts[v], v)) else scenes
  }

  /** A submitted choice leads to another scene that was not yet a target; it
      is then a target, so the same option is not offered again. */
  lemma SubmitNoDuplicateTarget(scenes: Scenes, sceneId: string, v: string, freshId: string)
    requires sceneId in scenes && v in Options(scenes, sceneId)
    ensures v != sceneId && v in scenes && !Targets(scenes[sceneId].choices, v)
    ensures v !in Options(Submit(scenes, sceneId, v, freshId), sceneId)
  {
    var r := Submit(scenes, sceneId, v, freshId);
    var c := Choice(freshId, Options(scenes, sceneId)[v], v);
    assert c in r[sceneId].choices.value;
  }
}
