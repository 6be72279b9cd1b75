/** Properties that relate several transitions, and concrete runs of the app. */
module Scenarios {
  import opened Outcomes
  import opened Notes
  import opened Themes
  import Engine
  import Panel
  import App

  /** Cancelling is idempotent, and a no-op in detail mode. */
  lemma CancelIdempotent(s: ViewState)
    ensures Engine.Cancel(Engine.Cancel(s)) == Engine.Cancel(s)
    ensures s.mainMode == Detail ==> Engine.Cancel(s) == s
  {
  }

  /** Cancelling the create form keeps the blank draft as the current note, and so the detail card
      of an untitled, empty note is shown rather than the previous note. */
  lemma CreateThenCancelKeepsDraft(s: ViewState)
    requires !s.loading && s.error == ""
    ensures Engine.Cancel(Engine.CreateIntent(s)) == s.(currentNote := Some(BlankNote), mainMode := Detail)
    ensures Panel.MainPanel(Engine.Cancel(Engine.CreateIntent(s)))
              == Panel.DetailView(Panel.Card(Panel.Fallback("Untitled"), Panel.Fallback("No content."), None))
  {
  }

  /** Selecting the same note twice: the second click triggers nothing. */
  lemma ReselectIsNoop(s: ViewState, id: Option<NoteId>)
    ensures Engine.Select(Engine.Select(s, id).view, id) == Engine.Step(Engine.Select(s, id).view, [], None)
  {
  }

  /** A successful edit of the selected note refreshes the list and closes the form but keeps the
      note buffer as it was before the save: no new detail fetch is started. */
  lemma SaveEditKeepsBuffer(s: ViewState, d: Draft, updated: Note, data: seq<NoteSummary>)
    requires s.currentNote.Some? && s.currentNote.value.id == s.selectedNoteId
    ensures Engine.SaveEdit(s, d, Ok(updated), Ok(data)).view.currentNote == s.currentNote
    ensures Engine.SaveEdit(s, d, Ok(updated), Ok(data)).pending.None?
  {
  }

  /** Cancelling the create form leaves the blank draft on the detail card with its Edit button;
      editing it and saving sends the update to no id at all, because the draft has none. */
  lemma EditAfterCancelledCreateHasNoTarget(s: ViewState, d: Draft, updated: Result<Note>, listed: Result<seq<NoteSummary>>)
    requires !s.loading && s.error == ""
    ensures Panel.EditButtonShown(Engine.Cancel(Engine.CreateIntent(s)))
    ensures Engine.SaveEdit(Engine.EditIntent(Engine.Cancel(Engine.CreateIntent(s))), d, updated, listed).calls[0]
              == Engine.UpdateCall(None, d, updated)
  {
  }

  /** Toggling the theme twice through the machine restores it and changes nothing else. */
  lemma ThemeTwice(m: App.Machine)
    ensures App.Run(m, [App.ClickTheme, App.ClickTheme]) == m
  {
    ToggleInvolution(m.theme);
    assert [App.ClickTheme, App.ClickTheme][1..] == [App.ClickTheme];
  }

  const A := NoteSummary("a", "First", None)
  const B := NoteSummary("b", "", None)

  /** Example: mounting with an empty list: no selection, detail mode, no error. */
  lemma MountEmpty()
    ensures App.Mount(Ok([])).view.selectedNoteId.None?
    ensures App.Mount(Ok([])).view.mainMode == Detail && App.Mount(Ok([])).view.error == ""
  {
  }

  /** Example: mounting with two notes selects the first and starts its fetch. */
  lemma MountSelectsFirst()
    ensures App.Mount(Ok([A, B])).view.selectedNoteId == Some("a")
    ensures App.Mount(Ok([A, B])).pending == Some("a")
  {
  }

  /** Example: a create that succeeds while the refresh fails leaves the create form open behind the error. */
  lemma CreateOkListFails(s: ViewState, d: Draft, n: Note)
    requires s.mainMode == Create
    ensures Engine.SaveNew(s, d, Ok(n), Err("Failed to fetch notes")).view.mainMode == Create
    ensures Engine.SaveNew(s, d, Ok(n), Err("Failed to fetch notes")).view.error == "Failed to fetch notes"
  {
  }

  /** Example: deleting the last note clears the list, the selection and the note buffer. */
  lemma DeleteLast(s: ViewState)
    requires s.notes == [A] && s.selectedNoteId == Some("a")
    ensures Engine.Delete(s, "a", true, Ok(()), Ok([])).view.notes == []
    ensures Engine.Delete(s, "a", true, Ok(()), Ok([])).view.selectedNoteId.None?
    ensures Engine.Delete(s, "a", true, Ok(()), Ok([])).view.currentNote.None?
  {
  }

  /** Example: a detail fetch that fails reports "Note not found." and keeps the list. */
  lemma FetchNotFound(s: ViewState)
    ensures Engine.ResolveFetch(s, Err("Failed to fetch note")).error == "Note not found."
    ensures Engine.ResolveFetch(s, Err("Failed to fetch note")).currentNote.None?
    ensures Engine.ResolveFetch(s, Err("Failed to fetch note")).notes == s.notes
  {
  }
}
