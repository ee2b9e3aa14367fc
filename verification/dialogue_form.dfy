/** The dialogue item of the v2 sidebar: click-to-edit, the edit form's
    submit validation, and the speaker autocomplete's filter and
    "Create speaker" rule. */
module DialogueForm {
  import opened Wrappers
  import opened Seqs
  import opened Types
  import opened Text
  import opened GameStore
  import opened GameLines

  /** `handleClickToEdit`: a click enters edit mode unless the item is being
      dragged. */
  function ClickToEdit(editing: bool, isDragging: bool): (r: bool)
    ensures isDragging ==> r == editing
    ensures !isDragging ==> r
  {
    if !isDragging then true else editing
  }

  /** `handleSubmit`: a blank speaker or blank content is refused and the form
      stays open; otherwise the line is upserted with both values trimmed and
      edit mode ends. Returns the scenes and the new editing flag. */
  function HandleSubmit(scenes: Scenes, sceneId: string, itemId: string, speaker: string, content: string,
                        editing: bool): (r: (Scenes, bool))
    ensures Blank(speaker) || Blank(content) ==> r == (scenes, editing)
    ensures !Blank(speaker) && !Blank(content) ==>
              r == (UpsertDialogue(scenes, sceneId, itemId, Trim(content), Trim(speaker)), false)
  {
    if |Trim(speaker)| == 0 then (scenes, editing)
    else if |Trim(content)| == 0 then (scenes, editing)
    else (UpsertDialogue(scenes, sceneId, itemId, Trim(content), Trim(speaker)), false)
  }

  /** After an accepted submit the scene holds the line with the trimmed
      values, which are neither empty nor padded. */
  lemma SubmitStoresTrimmedLine(scenes: Scenes, sceneId: string, itemId: string, speaker: string, content: string,
                                editing: bool)
    requires sceneId in scenes && !Blank(speaker) && !Blank(content)
    ensures var r := HandleSubmit(scenes, sceneId, itemId, speaker, content, editing).0;
            && FindLine(r[sceneId].dialogue, itemId) == Some(Dialogue(itemId, Trim(speaker), Trim(content)))
            && Trim(speaker) != "" && Trim(content) != ""
            && Trim(Trim(speaker)) == Trim(speaker) && Trim(Trim(content)) == Trim(content)
  {
    UpsertThenFind(scenes, sceneId, itemId, Trim(content), Trim(speaker));
    TrimIdempotent(speaker);
    TrimIdempotent(content);
  }

  /** A speaker matches the query when its lower-cased form includes the
      lower-cased query. */
  predicate Matches(query: string, speaker: string) {
    Contains(Lower(speaker), Lower(query))
  }

  /** `filteredSpeakers`. */
  function FilterSpeakers(speakers: seq<string>, query: string): (r: seq<string>)
    ensures forall s :: s in r ==> s in speakers && Matches(query, s)
    ensures forall s :: s in speakers && Matches(query, s) ==> s in r
  {
    Filter(speakers, (s: string) => Matches(query, s))
  }

  /** The filtered list is an order-preserving sub-list of the speakers. */
  lemma FilterKeepsOrder(speakers: seq<string>, query: string)
    ensures IsSubsequence(FilterSpeakers(speakers, query), speakers)
  {
    FilterIsSubsequence(speakers, (s: string) => Matches(query, s));
  }

  /** An empty query keeps every speaker. */
  lemma EmptyQueryKeepsAll(speakers: seq<string>)
    ensures FilterSpeakers(speakers, "") == speakers
  {
    forall s | s in speakers ensures Matches("", s) {
      ContainsEmptyAndSelf(Lower(s));
    }
    FilterKeepsAll(speakers, (s: string) => Matches("", s));
  }

  /** `showCreateOption`: a non-empty query that no speaker matches. */
  predicate ShowCreate(speakers: seq<string>, query: string) {
    query != "" && |FilterSpeakers(speakers, query)| == 0
  }

  /** The create option shows exactly when the query is non-empty and matches
      no speaker; a query equal to a listed speaker never offers it. */
  lemma ShowCreateIff(speakers: seq<string>, query: string)
    ensures ShowCreate(speakers, query) <==> query != "" && forall s :: s in speakers ==> !Matches(query, s)
    ensures query in speakers ==> !ShowCreate(speakers, query)
  {
    var r := FilterSpeakers(speakers, query);
    if |r| > 0 {
      assert r[0] in r;
    }
    if query in speakers {
      ContainsEmptyAndSelf(Lower(query));
      assert query in r;
    }
  }
}
