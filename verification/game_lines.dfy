/** The editor store (`useGameStore`): the dialogue and choice actions and the speaker
    list. */
module GameLines {
  import opened Wrappers
  import opened Seqs
  import opened Types
  import opened GameStore

  /** The line the first `find(d => d.id === id)` returns. */
  function FindLine(lines: seq<Dialogue>, id: string): (r: Option<Dialogue>)
    ensures r.Some? <==> exists j :: 0 <= j < |lines| && lines[j].id == id
    ensures r.Some? ==> r.value in lines && r.value.id == id
  {
    match LineIndex(lines, id)
    case None => None
    case Some(i) => Some(lines[i])
  }

  /** Replace the first line with `id` by `f` of it; other lines stay. */
  function EditLine(lines: seq<Dialogue>, id: string, f: Dialogue -> Dialogue): (r: seq<Dialogue>)
    ensures |r| == |lines|
    ensures LineIndex(lines, id).None? ==> r == lines
    ensures LineIndex(lines, id).Some? ==>
              var i := LineIndex(lines, id).value;
              r[i] == f(lines[i]) && forall j :: 0 <= j < |lines| && j != i ==> r[j] == lines[j]
  {
    match LineIndex(lines, id)
    case None => lines
    case Some(i) => lines[i := f(lines[i])]
  }

  /** `updateDialogueText`: set the text of the first line with `id`; a
      missing scene or line changes nothing. */
  function UpdateDialogueText(scenes: Scenes, sid: string, id: string, text: string): (r: Scenes)
    ensures r.Keys == scenes.Keys
    ensures forall k :: k in scenes && k != sid ==> r[k] == scenes[k]
    ensures sid in scenes ==>
              && r[sid] == scenes[sid].(dialogue := r[sid].dialogue)
              && |r[sid].dialogue| == |scenes[sid].dialogue|
              && forall j :: 0 <= j < |scenes[sid].dialogue| ==>
                   r[sid].dialogue[j] == if Some(j) == LineIndex(scenes[sid].dialogue, id)
                                         then scenes[sid].dialogue[j].(text := text)
                                         else scenes[sid].dialogue[j]
  {
    if sid !in scenes then scenes
    else scenes[sid := scenes[sid].(dialogue := EditLine(scenes[sid].dialogue, id, (d: Dialogue) => d.(text := text)))]
  }

  /** `changeSpeaker`: set the speaker of the first line with `id`; a missing
      scene or line changes nothing. */
  function ChangeSpeaker(scenes: Scenes, sid: string, id: string, speaker: string): (r: Scenes)
    ensures r.Keys == scenes.Keys
    ensures forall k :: k in scenes && k != sid ==> r[k] == scenes[k]
    ensures sid in scenes ==>
              && r[sid] == scenes[sid].(dialogue := r[sid].dialogue)
              && |r[sid].dialogue| == |scenes[sid].dialogue|
              && forall j :: 0 <= j < |scenes[sid].dialogue| ==>
                   r[sid].dialogue[j] == if Some(j) == LineIndex(scenes[sid].dialogue, id)
                                         then scenes[sid].dialogue[j].(speaker := speaker)
                                         else scenes[sid].dialogue[j]
  {
    if sid !in scenes then scenes
    else scenes[sid := scenes[sid].(dialogue := EditLine(scenes[sid].dialogue, id, (d: Dialogue) => d.(speaker := speaker)))]
  }

  /** On a present line, setting the text and then the speaker is one upsert. */
  lemma TextThenSpeakerIsUpsert(scenes: Scenes, sid: string, id: string, text: string, speaker: string)
    requires sid in scenes && LineIndex(scenes[sid].dialogue, id).Some?
    ensures ChangeSpeaker(UpdateDialogueText(scenes, sid, id, text), sid, id, speaker)
         == UpsertDialogue(scenes, sid, id, text, speaker)
  {
    var lines := scenes[sid].dialogue;
    var i := LineIndex(lines, id).value;
    var s1 := UpdateDialogueText(scenes, sid, id, text);
    var mid := lines[i := lines[i].(text := text)];
    assert s1[sid].dialogue == mid;
    assert forall j :: 0 <= j < i ==> mid[j] == lines[j];
    assert LineIndex(mid, id) == Some(i);
    var s2 := ChangeSpeaker(s1, sid, id, speaker);
    assert s2[sid].dialogue == lines[i := lines[i].(text := text, speaker := speaker)];
  }

  /** `upsertDialogue`: if the scene has a line with `id`, set its text and
      speaker; otherwise append a new line with that id. A missing scene is a
      no-op. */
  function UpsertDialogue(scenes: Scenes, sid: string, id: string, text: string, speaker: string): (r: Scenes)
    ensures r.Keys == scenes.Keys
    ensures forall k :: k in scenes && k != sid ==> r[k] == scenes[k]
    ensures sid !in scenes ==> r == scenes
    ensures sid in scenes ==> r[sid] == scenes[sid].(dialogue := r[sid].dialogue)
    ensures sid in scenes && LineIndex(scenes[sid].dialogue, id).Some? ==>
              var i := LineIndex(scenes[sid].dialogue, id).value;
              && |r[sid].dialogue| == |scenes[sid].dialogue|
              && r[sid].dialogue[i] == Dialogue(id, speaker, text)
              && forall j :: 0 <= j < |scenes[sid].dialogue| && j != i ==> r[sid].dialogue[j] == scenes[sid].dialogue[j]
    ensures sid in scenes && LineIndex(scenes[sid].dialogue, id).None? ==>
              r[sid].dialogue == scenes[sid].dialogue + [Dialogue(id, speaker, text)]
  {
    if sid !in scenes then scenes
    else
      var lines := scenes[sid].dialogue;
      match LineIndex(lines, id)
      case Some(i) => scenes[sid := scenes[sid].(dialogue := lines[i := lines[i].(text := text, speaker := speaker)])]
      case None => scenes[sid := scenes[sid].(dialogue := lines + [Dialogue(id, speaker, text)])]
  }

  /** After an upsert into an existing scene, looking the id up finds exactly
      the line written. */
  lemma UpsertThenFind(scenes: Scenes, sid: string, id: string, text: string, speaker: string)
    requires sid in scenes
    ensures FindLine(UpsertDialogue(scenes, sid, id, text, speaker)[sid].dialogue, id) == Some(Dialogue(id, speaker, text))
  {
    var lines := scenes[sid].dialogue;
    var r := UpsertDialogue(scenes, sid, id, text, speaker)[sid].dialogue;
    match LineIndex(lines, id)
    case Some(i) =>
      assert forall j :: 0 <= j < i ==> r[j] == lines[j];
      assert LineIndex(r, id) == Some(i);
    case None =>
      assert r[|lines|].id == id;
      assert forall j :: 0 <= j < |lines| ==> r[j] == lines[j];
  }

  /** Upserting the same line twice is the same as once. */
  lemma UpsertIdempotent(scenes: Scenes, sid: string, id: string, text: string, speaker: string)
    ensures var once := UpsertDialogue(scenes, sid, id, text, speaker);
            UpsertDialogue(once, sid, id, text, speaker) == once
  {
    var once := UpsertDialogue(scenes, sid, id, text, speaker);
    if sid in scenes {
      var lines := scenes[sid].dialogue;
      var r := once[sid].dialogue;
      var k :=  if LineIndex(lines, id).Some? then LineIndex(lines, id).value else |lines|;
      assert forall j :: 0 <= j < k ==> r[j] == lines[j];
      assert LineIndex(r, id) == Some(k);
      assert r[k := r[k].(text := text, speaker := speaker)] == r;
      RestoreScene(once, sid);
    }
  }

  lemma RestoreScene(m: Scenes, k: string)
    requires k in m
    ensures m[k := m[k].(dialogue := m[k].dialogue)] == m
  {
  }

  /** The line `addDialogue` builds: a fresh id, missing text and speaker `''`. */
  function NewLine(text: Option<string>, speaker: Option<string>, freshId: string): (d: Dialogue)
    ensures d.id == freshId
  {
    Dialogue(freshId, speaker.GetOr(""), text.GetOr(""))
  }

  /** `addDialogue`: append a new line to the scene and return it. The line is
      returned even when the scene is missing and nothing was added. */
  function AddDialogue(scenes: Scenes, sid: string, text: Option<string>, speaker: Option<string>,
                       freshId: string): (r: (Dialogue, Scenes))
    ensures r.0 == NewLine(text, speaker, freshId)
    ensures r.1.Keys == scenes.Keys
    ensures forall k :: k in scenes && k != sid ==> r.1[k] == scenes[k]
    ensures sid !in scenes ==> r.1 == scenes
    ensures sid in scenes ==> r.1[sid] == scenes[sid].(dialogue := scenes[sid].dialogue + [r.0])
  {
    var d := NewLine(text, speaker, freshId);
    if sid !in scenes then (d, scenes)
    else (d, scenes[sid := scenes[sid].(dialogue := scenes[sid].dialogue + [d])])
  }

  /** Deleting the added line (by its fresh id) undoes `addDialogue`. */
  lemma AddDialogueThenDelete(scenes: Scenes, sid: string, text: Option<string>, speaker: Option<string>,
                              freshId: string)
    requires sid in scenes
    requires forall d :: d in scenes[sid].dialogue ==> d.id != freshId
    ensures DeleteItem(AddDialogue(scenes, sid, text, speaker, freshId).1, DialogueKind, sid, freshId, None) == scenes
  {
    var lines := scenes[sid].dialogue;
    var line := NewLine(text, speaker, freshId);
    var added := scenes[sid := scenes[sid].(dialogue := lines + [line])];
    assert AddDialogue(scenes, sid, text, speaker, freshId).1 == added;
    var kept := Filter(lines + [line], (d: Dialogue) => d.id != freshId);
    assert DeleteItem(added, DialogueKind, sid, freshId, None) == added[sid := scenes[sid].(dialogue := kept)];
    assert kept == lines by { DropFreshLine(lines, line, freshId); }
    assert added[sid := scenes[sid].(dialogue := lines)] == scenes by { RestoreScene(scenes, sid); }
  }

  /** Filtering out a line whose id no earlier line has gives back the list before it. */
  lemma DropFreshLine(lines: seq<Dialogue>, line: Dialogue, id: string)
    requires line.id == id && forall x :: x in lines ==> x.id != id
    ensures Filter(lines + [line], (d: Dialogue) => d.id != id) == lines
  {
    var p := (d: Dialogue) => d.id != id;
    FilterKeepsAll(lines, p);
    FilterAppendDrop(lines, line, p);
  }

  // ---- choices ----

  /** `addChoice`: append `choice` to the scene's choices (starting a list if
      the scene has none); a missing scene is a no-op. */
  function AddChoice(scenes: Scenes, sid: string, choice: Choice): (r: Scenes)
    ensures r.Keys == scenes.Keys
    ensures forall k :: k in scenes && k != sid ==> r[k] == scenes[k]
    ensures sid !in scenes ==> r == scenes
    ensures sid in scenes ==> r[sid] == scenes[sid].(choices := Some(scenes[sid].choices.GetOr([]) + [choice]))
  {
    if sid !in scenes then scenes
    else scenes[sid := scenes[sid].(choices := Some(scenes[sid].choices.GetOr([]) + [choice]))]
  }

  /** `deleteChoice`: drop every choice with `choiceId`; a scene without a
      choice list, or a missing scene, is left alone. */
  function DeleteChoice(scenes: Scenes, sid: string, choiceId: string): (r: Scenes)
    ensures r.Keys == scenes.Keys
    ensures forall k :: k in scenes && k != sid ==> r[k] == scenes[k]
    ensures sid !in scenes || scenes[sid].choices.None? ==> r == scenes
    ensures sid in scenes && scenes[sid].choices.Some? ==>
              && r[sid] == scenes[sid].(choices := r[sid].choices)
              && r[sid].choices.Some?
              && (forall c :: c in r[sid].choices.value ==> c in scenes[sid].choices.value && c.id != choiceId)
              && (forall c :: c in scenes[sid].choices.value && c.id != choiceId ==> c in r[sid].choices.value)
              && (forall c :: c in scenes[sid].choices.value ==>
                    multiset(r[sid].choices.value)[c] == if c.id == choiceId then 0 else multiset(scenes[sid].choices.value)[c])
              && IsSubsequence(r[sid].choices.value, scenes[sid].choices.value)
  {
    if sid !in scenes || scenes[sid].choices.None? then scenes
    else
      var cs := scenes[sid].choices.value;
      var p := (c: Choice) => c.id != choiceId;
      FilterCount(cs, p);
      FilterIsSubsequence(cs, p);
      scenes[sid := scenes[sid].(choices := Some(Filter(cs, p)))]
  }

  /** Deleting a just-added choice whose id was not yet used gives the scenes
      back, provided the scene already had a choice list. */
  lemma AddChoiceThenDelete(scenes: Scenes, sid: string, choice: Choice)
    requires sid in scenes && scenes[sid].choices.Some?
    requires forall c :: c in scenes[sid].choices.value ==> c.id != choice.id
    ensures DeleteChoice(AddChoice(scenes, sid, choice), sid, choice.id) == scenes
  {
    var cs := scenes[sid].choices.value;
    var p := (c: Choice) => c.id != choice.id;
    var added := AddChoice(scenes, sid, choice);
    assert added == scenes[sid := scenes[sid].(choices := Some(cs + [choice]))];
    FilterKeepsAll(cs, p);
    FilterAppendDrop(cs, choice, p);
    assert Filter(cs + [choice], p) == cs;
    assert added[sid].(choices := Some(cs)) == scenes[sid];
    RestoreKey(scenes, sid, added[sid], scenes[sid]);
  }

  // ---- getAllSpeakers ----

  /** Every speaker of every line, scene by scene (`flatMap`). */
  function Speakers(values: seq<Scene>): seq<string> {
    if |values| == 0 then []
    else SpeakersOf(values[0].dialogue) + Speakers(values[1..])
  }

  function SpeakersOf(lines: seq<Dialogue>): (r: seq<string>)
    ensures |r| == |lines|
    ensures forall j :: 0 <= j < |lines| ==> r[j] == lines[j].speaker
  {
    if |lines| == 0 then [] else [lines[0].speaker] + SpeakersOf(lines[1..])
  }

  predicate Distinct<T(==)>(s: seq<T>) {
    forall i, j :: 0 <= i < j < |s| ==> s[i] != s[j]
  }

  /** `Array.from(new Set(s))`: each element once, in first-occurrence order. */
  function Dedup<T(==)>(s: seq<T>): (r: seq<T>)
    ensures Distinct(r)
    ensures forall x :: x in r ==> x in s
    ensures forall x :: x in s ==> x in r
  {
    if |s| == 0 then []
    else
      var t := Dedup(s[..|s| - 1]);
      var last := s[|s| - 1];
      assert s == s[..|s| - 1] + [last];
      if last in t then t else t + [last]
  }

  /** Index of the first occurrence of `x` in `s`. */
  function FirstPos<T(==)>(s: seq<T>, x: T): (k: nat)
    requires x in s
    ensures k < |s| && s[k] == x
    ensures forall j :: 0 <= j < k ==> s[j] != x
  {
    if s[0] == x then 0 else FirstPos(s[1..], x) + 1
  }

  /** An element of a prefix is first met at the same index in the whole list. */
  lemma {:induction false} FirstPosPrefix<T>(s: seq<T>, n: nat, x: T)
    requires n <= |s| && x in s[..n]
    ensures FirstPos(s, x) == FirstPos(s[..n], x)
  {
    var q := s[..n];
    assert q[0] == s[0];
    if s[0] != x {
      assert q[1..] == s[1..][..n - 1];
      FirstPosPrefix(s[1..], n - 1, x);
    }
  }

  /** An element absent from all but the last position is first met there. */
  lemma FirstPosLast<T>(s: seq<T>, x: T)
    requires |s| > 0 && s[|s| - 1] == x && x !in s[..|s| - 1]
    ensures FirstPos(s, x) == |s| - 1
  {
  }

  /** `Dedup` lists the elements in the order of their first occurrence in `s`. */
  lemma {:induction false} DedupFirstOccurrenceOrder<T>(s: seq<T>)
    ensures FirstOccurrenceOrder(Dedup(s), s)
    decreases |s|
  {
    if |s| > 0 {
      var p := s[..|s| - 1];
      DedupFirstOccurrenceOrder(p);
      DedupStep(s, Dedup(p), Dedup(s));
    }
  }

  /** Every element of `r` occurs in `s`, and earlier in `r` means first met earlier in `s`. */
  predicate FirstOccurrenceOrder<T(==)>(r: seq<T>, s: seq<T>) {
    && (forall x :: x in r ==> x in s)
    && forall i, j :: 0 <= i < j < |r| ==> FirstPos(s, r[i]) < FirstPos(s, r[j])
  }

  lemma DedupStep<T>(s: seq<T>, t: seq<T>, r: seq<T>)
    requires |s| > 0 && FirstOccurrenceOrder(t, s[..|s| - 1])
    requires r == t || (r == t + [s[|s| - 1]] && s[|s| - 1] !in s[..|s| - 1])
    ensures FirstOccurrenceOrder(r, s)
  {
    var n := |s| - 1;
    forall x | x in t ensures x in s[..n] && x in s {
      assert x in s[..n];
      var k :| 0 <= k < n && s[..n][k] == x;
      assert s[k] == x;
    }
    forall i, j | 0 <= i < j < |r| ensures FirstPos(s, r[i]) < FirstPos(s, r[j]) {
      assert r[i] == t[i] && t[i] in t;
      FirstPosPrefix(s, n, r[i]);
      if j < |t| {
        assert r[j] == t[j] && t[j] in t;
        FirstPosPrefix(s, n, r[j]);
      } else {
        FirstPosLast(s, r[j]);
      }
    }
  }

  /** `getAllSpeakers`: the distinct non-empty speakers of all lines, scenes
      taken in `values` order (the order `Object.values` yields). */
  function GetAllSpeakers(values: seq<Scene>): (r: seq<string>)
    ensures Distinct(r)
    ensures forall x :: x in r ==> x != ""
  {
    Dedup(Filter(Speakers(values), (x: string) => x != ""))
  }

  /** A speaker is listed iff it is non-empty and speaks some line of some scene. */
  lemma {:induction false} GetAllSpeakersMembers(values: seq<Scene>, x: string)
    ensures x in GetAllSpeakers(values) <==>
              x != "" && exists i, j :: 0 <= i < |values| && 0 <= j < |values[i].dialogue| && values[i].dialogue[j].speaker == x
  {
    SpeakersMembers(values, x);
  }

  lemma {:induction false} SpeakersMembers(values: seq<Scene>, x: string)
    ensures x in Speakers(values) <==>
              exists i, j :: 0 <= i < |values| && 0 <= j < |values[i].dialogue| && values[i].dialogue[j].speaker == x
  {
    if |values| > 0 {
      SpeakersMembers(values[1..], x);
      var head := SpeakersOf(values[0].dialogue);
      if x in head {
        var j :| 0 <= j < |head| && head[j] == x;
        assert values[0].dialogue[j].speaker == x;
      }
      if exists i, j :: 0 <= i < |values| && 0 <= j < |values[i].dialogue| && values[i].dialogue[j].speaker == x {
        var i, j :| 0 <= i < |values| && 0 <= j < |values[i].dialogue| && values[i].dialogue[j].speaker == x;
        if i == 0 {
          assert head[j] == x;
        } else {
          assert values[1..][i - 1] == values[i];
        }
      }
      if x in Speakers(values[1..]) {
        var i, j :| 0 <= i < |values[1..]| && 0 <= j < |values[1..][i].dialogue| && values[1..][i].dialogue[j].speaker == x;
        assert values[i + 1] == values[1..][i];
      }
    }
  }
}
