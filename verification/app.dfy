/** The whole `App` component as an event-driven machine: the view state, the detail fetch in
    flight, the theme, and the log of every store call made so far. User events reach the engine
    only through controls that are on screen at the time. */
module App {
  import opened Outcomes
  import opened Notes
  import opened Themes
  import Drafts
  import Engine
  import Panel

  datatype Machine = Machine(view: ViewState, pending: Option<NoteId>, theme: Theme, log: seq<Engine.Call>)

  /** What can happen to a mounted `App`: a user gesture together with the outcomes of the store
      calls it leads to, or the settling of the detail fetch in flight. */
  datatype Event =
    | ClickRow(id: NoteId)
    | DetailFetched(got: Result<Note>)
    | ClickNew
    | ClickEdit
    | ClickCancel
    | SubmitForm(draft: Draft, saved: Result<Note>, listed: Result<seq<NoteSummary>>)
    | ClickDelete(id: NoteId, confirmed: bool, deleted: Result<()>, listed: Result<seq<NoteSummary>>)
    | ClickTheme

  /** Commits a transition: its state, its store calls appended to the log, and its detail fetch,
      which supersedes any still in flight. */
  function Advance(m: Machine, step: Engine.Step): (r: Machine)
    ensures r.view == step.view && r.theme == m.theme
    ensures r.log == m.log + step.calls
    ensures step.pending.Some? ==> r.pending == step.pending
    ensures step.pending.None? ==> r.pending == m.pending
  {
    Machine(step.view, if step.pending.Some? then step.pending else m.pending, m.theme, m.log + step.calls)
  }

  /** Mounting the component: the initial state, then the startup list. */
  function Mount(listed: Result<seq<NoteSummary>>): (r: Machine)
    ensures r.log == [Engine.ListCall(listed)] && r.theme == InitialTheme
    ensures listed.Ok? && |listed.value| > 0 ==>
              && r.view.notes == listed.value
              && r.view.selectedNoteId == Some(listed.value[0].id)
              && r.pending == Some(listed.value[0].id)
              && r.view.loading && r.view.error == "" && r.view.mainMode == Detail
    ensures listed.Ok? && |listed.value| == 0 ==>
              r.view == Initial && r.pending.None?
    ensures listed.Err? ==>
              && r.view.notes == [] && r.view.selectedNoteId.None? && r.pending.None?
              && r.view.error != "" && !r.view.loading
  {
    Advance(Machine(Initial, None, InitialTheme, []), Engine.Startup(Initial, listed))
  }

  /** Submitting whichever form is on screen: the blank-draft guard first, then the create or the
      edit save. With no form on screen there is nothing to submit. */
  function Submit(s: ViewState, draft: Draft, saved: Result<Note>, listed: Result<seq<NoteSummary>>): (r: Engine.Step)
    ensures !Drafts.PassesGuard(draft) ==> r == Engine.Step(s, [], None)
    ensures !Panel.FormShown(s) ==> r == Engine.Step(s, [], None)
    ensures Drafts.PassesGuard(draft) && Panel.MainPanel(s).CreateForm? ==> r == Engine.SaveNew(s, draft, saved, listed)
    ensures Drafts.PassesGuard(draft) && Panel.MainPanel(s).EditForm? ==> r == Engine.SaveEdit(s, draft, saved, listed)
  {
    if !Drafts.PassesGuard(draft) then Engine.Step(s, [], None)
    else match Panel.MainPanel(s)
      case CreateForm(_) => Engine.SaveNew(s, draft, saved, listed)
      case EditForm(_) => Engine.SaveEdit(s, draft, saved, listed)
      case _ => Engine.Step(s, [], None)
  }

  /** One event. Sidebar rows and their delete buttons exist only for listed notes, the Edit button
      only on a note's detail card, Save and Cancel only on a form, and a fetch can settle only
      while one is in flight; any other event leaves the machine as it is. */
  function Apply(m: Machine, e: Event): (r: Machine)
    ensures e.ClickTheme? ==> r == m.(theme := Toggle(m.theme))
    ensures !e.ClickTheme? ==> r.theme == m.theme
    ensures e.DetailFetched? && m.pending.Some? ==>
              r == m.(view := Engine.ResolveFetch(m.view, e.got), pending := None)
    ensures e.DetailFetched? && m.pending.None? ==> r == m
    ensures e.ClickRow? && !Listed(m.view.notes, e.id) ==> r == m
    ensures e.ClickDelete? && !Listed(m.view.notes, e.id) ==> r == m
    ensures e.ClickEdit? && !Panel.EditButtonShown(m.view) ==> r == m
    ensures e.ClickCancel? && !Panel.FormShown(m.view) ==> r == m
  {
    match e
    case ClickRow(id) =>
      if Listed(m.view.notes, id) then Advance(m, Engine.Select(m.view, Some(id))) else m
    case DetailFetched(got) =>
      if m.pending.Some? then m.(view := Engine.ResolveFetch(m.view, got), pending := None) else m
    case ClickNew => m.(view := Engine.CreateIntent(m.view))
    case ClickEdit =>
      if Panel.EditButtonShown(m.view) then m.(view := Engine.EditIntent(m.view)) else m
    case ClickCancel =>
      if Panel.FormShown(m.view) then m.(view := Engine.Cancel(m.view)) else m
    case SubmitForm(draft, saved, listed) => Advance(m, Submit(m.view, draft, saved, listed))
    case ClickDelete(id, confirmed, deleted, listed) =>
      if Listed(m.view.notes, id) then Advance(m, Engine.Delete(m.view, id, confirmed, deleted, listed)) else m
    case ClickTheme => m.(theme := Toggle(m.theme))
  }

  /** The events applied one after another. */
  function Run(m: Machine, events: seq<Event>): Machine
    decreases |events|
  {
    if events == [] then m else Run(Apply(m, events[0]), events[1..])
  }

  /** A draft that fails the guard never reaches the store and changes nothing. */
  lemma BlankSubmitIsNoop(m: Machine, draft: Draft, saved: Result<Note>, listed: Result<seq<NoteSummary>>)
    requires Drafts.IsBlank(draft.title) && Drafts.IsBlank(draft.content)
    ensures Apply(m, SubmitForm(draft, saved, listed)) == m
  {
    Drafts.GuardIffNotBlank(draft);
  }

  // ---- The list always reflects the most recent successful list call ----

  /** `notes` is what the most recent successful list call returned, or empty if none has. */
  predicate NotesMatchLog(m: Machine)
  {
    m.view.notes == Engine.LastListed(m.log, [])
  }

  lemma MountMatchesLog(listed: Result<seq<NoteSummary>>)
    ensures NotesMatchLog(Mount(listed))
  {
  }

  lemma AdvanceKeepsNotesMatchLog(m: Machine, step: Engine.Step)
    requires NotesMatchLog(m)
    requires step.view.notes == Engine.LastListed(step.calls, m.view.notes)
    ensures NotesMatchLog(Advance(m, step))
  {
    Engine.LastListedAppend(m.log, step.calls, []);
  }

  lemma ApplyKeepsNotesMatchLog(m: Machine, e: Event)
    requires NotesMatchLog(m)
    ensures NotesMatchLog(Apply(m, e))
  {
    match e
    case ClickRow(id) =>
      if Listed(m.view.notes, id) {
        AdvanceKeepsNotesMatchLog(m, Engine.Select(m.view, Some(id)));
      }
    case SubmitForm(draft, saved, listed) =>
      AdvanceKeepsNotesMatchLog(m, Submit(m.view, draft, saved, listed));
    case ClickDelete(id, confirmed, deleted, listed) =>
      if Listed(m.view.notes, id) {
        AdvanceKeepsNotesMatchLog(m, Engine.Delete(m.view, id, confirmed, deleted, listed));
      }
    case _ =>
  }

  /** Across any run, the sidebar list is exactly the last successful list call's result. */
  lemma {:induction false} RunKeepsNotesMatchLog(m: Machine, events: seq<Event>)
    requires NotesMatchLog(m)
    ensures NotesMatchLog(Run(m, events))
    decreases |events|
  {
    if events != [] {
      ApplyKeepsNotesMatchLog(m, events[0]);
      RunKeepsNotesMatchLog(Apply(m, events[0]), events[1..]);
    }
  }

  // ---- The edit form is never shown without a note to edit ----

  /** Every failure the event can report carries a non-empty message. */
  predicate Reported(e: Event)
  {
    match e
    case SubmitForm(_, saved, listed) => (saved.Err? ==> saved.message != "") && (listed.Err? ==> listed.message != "")
    case ClickDelete(_, _, deleted, listed) => (deleted.Err? ==> deleted.message != "") && (listed.Err? ==> listed.message != "")
    case _ => true
  }

  /** In edit mode without a current note, an error is on screen instead of the edit form. */
  predicate EditHasNote(s: ViewState)
  {
    s.mainMode == Edit && s.currentNote.None? ==> s.error != ""
  }

  /** Hence the edit form is only ever seeded with a note. */
  lemma EditFormIsSeeded(s: ViewState)
    requires EditHasNote(s)
    ensures Panel.MainPanel(s).EditForm? ==> Panel.MainPanel(s).seed.Some?
  {
  }

  lemma MountHasNote(listed: Result<seq<NoteSummary>>)
    ensures EditHasNote(Mount(listed).view)
  {
  }

  lemma ApplyKeepsEditHasNote(m: Machine, e: Event)
    requires EditHasNote(m.view) && Reported(e)
    ensures EditHasNote(Apply(m, e).view)
  {
  }

  /** Across any run whose failures all carry messages, the edit form always has a note, so saving
      it never reads the id of a missing note. */
  lemma {:induction false} RunKeepsEditHasNote(m: Machine, events: seq<Event>)
    requires EditHasNote(m.view)
    requires forall i :: 0 <= i < |events| ==> Reported(events[i])
    ensures EditHasNote(Run(m, events).view)
    decreases |events|
  {
    if events != [] {
      ApplyKeepsEditHasNote(m, events[0]);
      RunKeepsEditHasNote(Apply(m, events[0]), events[1..]);
    }
  }
}
