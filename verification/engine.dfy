/** The handlers and effects of the `App` component, each as a pure transition from the state
    and the outcomes of the store calls it makes to the state the component settles in. */
module Engine {
  import opened Outcomes
  import opened Notes
  import Panel

  /** One store call a transition made, together with how it settled. */
  datatype Call =
    | ListCall(listed: Result<seq<NoteSummary>>)
    | CreateCall(draft: Draft, created: Result<Note>)
    | UpdateCall(target: Option<NoteId>, draft: Draft, updated: Result<Note>)
    | DeleteCall(doomed: NoteId, deleted: Result<()>)

  /** The outcome of one transition: the state once the handler's updates and the detail effect
      have been applied, the store calls made in order, and the id whose `get` the detail effect
      started and which is still in flight (settled later by `ResolveFetch`). */
  datatype Step = Step(view: ViewState, calls: seq<Call>, pending: Option<NoteId>)

  /** The notes known after `c` settles, given the notes known before it. */
  function Absorb(c: Call, prior: seq<NoteSummary>): seq<NoteSummary>
  {
    if c.ListCall? && c.listed.Ok? then c.listed.value else prior
  }

  /** The notes the most recent successful list among `calls` returned, or `prior` if none
      succeeded. */
  function LastListed(calls: seq<Call>, prior: seq<NoteSummary>): seq<NoteSummary>
    decreases |calls|
  {
    if calls == [] then prior else LastListed(calls[1..], Absorb(calls[0], prior))
  }

  /** Reading the log in two pieces gives the same last list as reading it whole. */
  lemma {:induction false} LastListedAppend(a: seq<Call>, b: seq<Call>, prior: seq<NoteSummary>)
    ensures LastListed(a + b, prior) == LastListed(b, LastListed(a, prior))
    decreases |a|
  {
    if a == [] {
      assert a + b == b;
    } else {
      assert (a + b)[0] == a[0];
      assert (a + b)[1..] == a[1..] + b;
      LastListedAppend(a[1..], b, Absorb(a[0], prior));
    }
  }

  /** A store call followed by a list: the notes known afterwards are the list's on success and
      whatever the first call left otherwise. */
  lemma CallThenList(c: Call, listed: Result<seq<NoteSummary>>, prior: seq<NoteSummary>)
    requires !c.ListCall?
    ensures LastListed([c, ListCall(listed)], prior) == if listed.Ok? then listed.value else prior
  {
    var calls := [c, ListCall(listed)];
    var tail := [ListCall(listed)];
    assert calls[1..] == tail && tail[1..] == [];
    assert Absorb(c, prior) == prior;
    assert LastListed(calls, prior) == LastListed(tail, prior);
    assert LastListed(tail, prior) == LastListed([], Absorb(ListCall(listed), prior));
  }

  /** The detail effect's promise about a step: a `get` is in flight exactly when the selection
      moved to a new, non-empty id, and then it is for that id and `loading` is set. */
  predicate EffectFollowsSelection(before: Option<NoteId>, r: Step)
  {
    && (r.pending.Some? <==> r.view.selectedNoteId != before && r.view.selectedNoteId.Some?)
    && (r.pending.Some? ==> r.pending == r.view.selectedNoteId && r.view.loading)
  }

  /** The effect on `selectedNoteId`, run after a handler's batched updates `s`. It runs only when
      the selection differs from `before` (the dependency array). A cleared selection drops the
      current note and returns to detail mode; a new id sets `loading` and starts its `get`. */
  function Settle(before: Option<NoteId>, s: ViewState, calls: seq<Call>): (r: Step)
    ensures r.calls == calls
    ensures EffectFollowsSelection(before, r)
    ensures s.selectedNoteId == before ==> r.view == s
    ensures s.selectedNoteId != before && s.selectedNoteId.None? ==>
              r.view == s.(currentNote := None, mainMode := Detail)
    ensures s.selectedNoteId.Some? ==> r.view.currentNote == s.currentNote && r.view.mainMode == s.mainMode
    ensures r.view.notes == s.notes && r.view.selectedNoteId == s.selectedNoteId && r.view.error == s.error
  {
    if s.selectedNoteId == before then Step(s, calls, None)
    else match s.selectedNoteId
      case None => Step(s.(currentNote := None, mainMode := Detail), calls, None)
      case Some(id) => Step(s.(loading := true), calls, Some(id))
  }

  /** How the `get` started by the detail effect settles. Success shows the fetched note in detail
      mode and clears the error; failure reports the note as not found, drops the current note and
      leaves the mode alone. Either way the list and the selection are untouched. */
  function ResolveFetch(s: ViewState, got: Result<Note>): (r: ViewState)
    ensures r.notes == s.notes && r.selectedNoteId == s.selectedNoteId && !r.loading
    ensures got.Ok? ==> r.currentNote == Some(got.value) && r.error == "" && r.mainMode == Detail
    ensures got.Err? ==> r.currentNote.None? && r.error == NotFoundMessage && r.mainMode == s.mainMode
  {
    match got
    case Ok(n) => s.(currentNote := Some(n), error := "", loading := false, mainMode := Detail)
    case Err(_) => s.(error := NotFoundMessage, currentNote := None, loading := false)
  }

  /** The startup effect: one `list`. On success the list replaces `notes` wholesale and, when it is
      non-empty and nothing is selected, its first note is selected (which starts that note's
      detail fetch); the error is not cleared. On failure the message, or a fallback when it is
      empty, becomes the error and the list and selection are untouched. */
  function Startup(s: ViewState, listed: Result<seq<NoteSummary>>): (r: Step)
    ensures r.calls == [ListCall(listed)]
    ensures r.view.notes == LastListed(r.calls, s.notes)
    ensures EffectFollowsSelection(s.selectedNoteId, r)
    ensures listed.Ok? ==> r.view.notes == listed.value && r.view.error == s.error
                           && r.view.currentNote == s.currentNote && r.view.mainMode == s.mainMode
    ensures listed.Ok? && |listed.value| > 0 && s.selectedNoteId.None? ==>
              r.view.selectedNoteId == Some(listed.value[0].id) && r.pending == Some(listed.value[0].id)
    ensures listed.Ok? && !(|listed.value| > 0 && s.selectedNoteId.None?) ==>
              r.view == s.(notes := listed.value, loading := false) && r.pending.None?
    ensures listed.Err? ==>
              && r.pending.None?
              && r.view == s.(error := if listed.message == "" then ListFallbackMessage else listed.message,
                              loading := false)
    ensures listed.Err? ==> r.view.error != ""
  {
    match listed
    case Ok(data) =>
      var selection := if |data| > 0 && s.selectedNoteId.None? then Some(data[0].id) else s.selectedNoteId;
      Settle(s.selectedNoteId, s.(notes := data, selectedNoteId := selection, loading := false), [ListCall(listed)])
    case Err(message) =>
      Step(s.(error := if message == "" then ListFallbackMessage else message, loading := false), [ListCall(listed)], None)
  }

  /** A click on a sidebar row: the selection becomes `id` and the detail effect reacts, which it
      does only if the id actually changed. */
  function Select(s: ViewState, id: Option<NoteId>): (r: Step)
    ensures r.calls == [] && r.view.notes == s.notes && r.view.error == s.error
    ensures r.view.selectedNoteId == id
    ensures EffectFollowsSelection(s.selectedNoteId, r)
    ensures id == s.selectedNoteId ==> r == Step(s, [], None)
    ensures id != s.selectedNoteId && id.None? ==>
              r.view == s.(selectedNoteId := None, currentNote := None, mainMode := Detail) && r.pending.None?
    ensures id.Some? && id != s.selectedNoteId ==>
              r.view == s.(selectedNoteId := id, loading := true) && r.pending == id
  {
    Settle(s.selectedNoteId, s.(selectedNoteId := id), [])
  }

  /** The create intent: the current note becomes a blank draft and the create form opens;
      nothing else changes and no store call is made. */
  function CreateIntent(s: ViewState): (r: ViewState)
    ensures r.mainMode == Create && r.currentNote == Some(BlankNote)
    ensures r.notes == s.notes && r.selectedNoteId == s.selectedNoteId
    ensures r.loading == s.loading && r.error == s.error
    ensures !s.loading && s.error == "" ==> Panel.MainPanel(r) == Panel.CreateForm(BlankNote)
  {
    s.(currentNote := Some(BlankNote), mainMode := Create)
  }

  /** The edit intent: only the mode changes, and the edit form opens on the current note. */
  function EditIntent(s: ViewState): (r: ViewState)
    ensures r.mainMode == Edit
    ensures r.notes == s.notes && r.selectedNoteId == s.selectedNoteId && r.currentNote == s.currentNote
    ensures r.loading == s.loading && r.error == s.error
    ensures !s.loading && s.error == "" ==> Panel.MainPanel(r) == Panel.EditForm(s.currentNote)
  {
    s.(mainMode := Edit)
  }

  /** Cancelling either form: only the mode changes, back to detail, so the detail card shows
      whatever the current note is at that moment. */
  function Cancel(s: ViewState): (r: ViewState)
    ensures r.mainMode == Detail
    ensures r.notes == s.notes && r.selectedNoteId == s.selectedNoteId && r.currentNote == s.currentNote
    ensures r.loading == s.loading && r.error == s.error
    ensures !s.loading && s.error == "" ==> Panel.MainPanel(r) == Panel.DetailView(Panel.NoteDetail(s.currentNote))
  {
    s.(mainMode := Detail)
  }

  /** Saving the create form: `create`, then a fresh `list` if that succeeded. When both succeed
      the refreshed list replaces `notes`, the created note is selected (its detail fetch starts if
      its id differs from the old selection) and the form closes. When either fails its message
      becomes the error and everything else, the create mode included, stays as it was. */
  function SaveNew(s: ViewState, draft: Draft, created: Result<Note>, listed: Result<seq<NoteSummary>>): (r: Step)
    ensures |r.calls| >= 1 && r.calls[0] == CreateCall(draft, created)
    ensures r.calls == if created.Ok? then [CreateCall(draft, created), ListCall(listed)]
                       else [CreateCall(draft, created)]
    ensures r.view.notes == LastListed(r.calls, s.notes)
    ensures EffectFollowsSelection(s.selectedNoteId, r)
    ensures created.Ok? && listed.Ok? ==>
              && r.view.notes == listed.value
              && r.view.selectedNoteId == created.value.id
              && r.view.mainMode == Detail
              && r.view.error == ""
              && (r.view.loading <==> r.pending.Some?)
    ensures created.Ok? && listed.Ok? && created.value.id == s.selectedNoteId ==>
              r.view.currentNote == s.currentNote && r.pending.None?
    ensures created.Ok? && listed.Ok? && created.value.id.None? && s.selectedNoteId.Some? ==>
              r.view.currentNote.None? && r.pending.None? && !r.view.loading
    ensures created.Ok? && listed.Ok? && created.value.id.Some? && created.value.id != s.selectedNoteId ==>
              r.view.currentNote == s.currentNote && r.view.loading && r.pending == created.value.id
    ensures created.Err? ==> r.pending.None? && r.view == s.(error := created.message, loading := false)
    ensures created.Ok? && listed.Err? ==> r.pending.None? && r.view == s.(error := listed.message, loading := false)
  {
    match created
    case Err(message) =>
      Step(s.(error := message, loading := false), [CreateCall(draft, created)], None)
    case Ok(note) =>
      var calls := [CreateCall(draft, created), ListCall(listed)];
      CallThenList(calls[0], listed, s.notes);
      match listed
      case Err(message) => Step(s.(error := message, loading := false), calls, None)
      case Ok(data) =>
        Settle(s.selectedNoteId,
               s.(notes := data, selectedNoteId := note.id, mainMode := Detail, error := "", loading := false),
               calls)
  }

  /** Saving the edit form: `update` of the current note's id, then a fresh `list` if that
      succeeded. On success the refreshed list replaces `notes`, the selection becomes that id and
      the form closes; the detail is not fetched again unless the id differs from the selection.
      On failure only the error and the loading flag change. With no current note the read of its
      id throws before any store call. */
  function SaveEdit(s: ViewState, draft: Draft, updated: Result<Note>, listed: Result<seq<NoteSummary>>): (r: Step)
    ensures s.currentNote.None? ==> r == Step(s.(error := NullNoteMessage, loading := false), [], None)
    ensures s.currentNote.Some? ==> |r.calls| >= 1 && r.calls[0] == UpdateCall(s.currentNote.value.id, draft, updated)
    ensures s.currentNote.Some? && updated.Ok? ==> r.calls == [r.calls[0], ListCall(listed)]
    ensures s.currentNote.Some? && updated.Err? ==> |r.calls| == 1
    ensures r.view.notes == LastListed(r.calls, s.notes)
    ensures EffectFollowsSelection(s.selectedNoteId, r)
    ensures s.currentNote.Some? && updated.Ok? && listed.Ok? ==>
              && r.view.notes == listed.value
              && r.view.selectedNoteId == s.currentNote.value.id
              && r.view.mainMode == Detail
              && r.view.error == ""
    ensures s.currentNote.Some? && updated.Ok? && listed.Ok? && s.currentNote.value.id == s.selectedNoteId ==>
              r.pending.None? && r.view == s.(notes := listed.value, mainMode := Detail, error := "", loading := false)
    ensures s.currentNote.Some? && updated.Ok? && listed.Ok? && s.currentNote.value.id.None? && s.selectedNoteId.Some? ==>
              r.view.currentNote.None? && r.pending.None? && !r.view.loading
    ensures s.currentNote.Some? && updated.Ok? && listed.Ok? && s.currentNote.value.id.Some?
              && s.currentNote.value.id != s.selectedNoteId ==>
              r.view.currentNote == s.currentNote && r.view.loading && r.pending == s.currentNote.value.id
    ensures s.currentNote.Some? && updated.Err? ==> r.pending.None? && r.view == s.(error := updated.message, loading := false)
    ensures s.currentNote.Some? && updated.Ok? && listed.Err? ==>
              r.pending.None? && r.view == s.(error := listed.message, loading := false)
  {
    match s.currentNote
    case None => Step(s.(error := NullNoteMessage, loading := false), [], None)
    case Some(current) =>
      var target := current.id;
      match updated
      case Err(message) => Step(s.(error := message, loading := false), [UpdateCall(target, draft, updated)], None)
      case Ok(_) =>
        var calls := [UpdateCall(target, draft, updated), ListCall(listed)];
        CallThenList(calls[0], listed, s.notes);
        match listed
        case Err(message) => Step(s.(error := message, loading := false), calls, None)
        case Ok(data) =>
          Settle(s.selectedNoteId,
                 s.(notes := data, selectedNoteId := target, mainMode := Detail, error := "", loading := false),
                 calls)
  }

  /** Deleting a note from the sidebar. A declined confirmation changes nothing. Otherwise
      `delete`, then a fresh `list` if that succeeded. On success the refreshed list replaces
      `notes` and its first note is selected, or, when it is empty, the selection and the current
      note are cleared; the mode returns to detail. On failure at either step only the error and
      the loading flag change. */
  function Delete(s: ViewState, id: NoteId, confirmed: bool, deleted: Result<()>, listed: Result<seq<NoteSummary>>): (r: Step)
    ensures !confirmed ==> r == Step(s, [], None)
    ensures confirmed ==> |r.calls| >= 1 && r.calls[0] == DeleteCall(id, deleted)
    ensures confirmed && deleted.Ok? ==> r.calls == [DeleteCall(id, deleted), ListCall(listed)]
    ensures confirmed && deleted.Err? ==> |r.calls| == 1
    ensures r.view.notes == LastListed(r.calls, s.notes)
    ensures EffectFollowsSelection(s.selectedNoteId, r)
    ensures confirmed && deleted.Ok? && listed.Ok? ==>
              && r.view.notes == listed.value
              && r.view.mainMode == Detail
              && r.view.error == ""
              && (r.view.loading <==> r.pending.Some?)
    ensures confirmed && deleted.Ok? && listed.Ok? && |listed.value| > 0 ==>
              r.view.selectedNoteId == Some(listed.value[0].id)
    ensures confirmed && deleted.Ok? && listed.Ok? && |listed.value| == 0 ==>
              r.view.selectedNoteId.None? && r.view.currentNote.None? && r.pending.None? && !r.view.loading
    ensures confirmed && deleted.Ok? && listed.Ok? && |listed.value| > 0 && Some(listed.value[0].id) == s.selectedNoteId ==>
              r.pending.None? && r.view == s.(notes := listed.value, mainMode := Detail, error := "", loading := false)
    ensures confirmed && deleted.Ok? && listed.Ok? && |listed.value| > 0 && Some(listed.value[0].id) != s.selectedNoteId ==>
              r.view.currentNote == s.currentNote && r.view.loading && r.pending == Some(listed.value[0].id)
    ensures confirmed && deleted.Err? ==> r.pending.None? && r.view == s.(error := deleted.message, loading := false)
    ensures confirmed && deleted.Ok? && listed.Err? ==>
              r.pending.None? && r.view == s.(error := listed.message, loading := false)
  {
    if !confirmed then Step(s, [], None)
    else match deleted
      case Err(message) => Step(s.(error := message, loading := false), [DeleteCall(id, deleted)], None)
      case Ok(_) =>
        var calls := [DeleteCall(id, deleted), ListCall(listed)];
        CallThenList(calls[0], listed, s.notes);
        match listed
        case Err(message) => Step(s.(error := message, loading := false), calls, None)
        case Ok(data) =>
          var picked := if |data| > 0 then s.(selectedNoteId := Some(data[0].id))
                        else s.(selectedNoteId := None, currentNote := None);
          Settle(s.selectedNoteId, picked.(notes := data, mainMode := Detail, error := "", loading := false), calls)
  }
}
