# Notes app view-state machine

A Dafny model of the state machine inside the React `App` component of a small notes manager
(`notes_frontend/src/App.js`). The component keeps a list of note summaries for the sidebar, the
selected note id, a main-panel mode (detail, edit or create), a loading flag, an error message
and the current note buffer. It keeps them in step with a remote CRUD note store through one
startup effect, one effect on the selected id, and the create, save-new, edit, save-edit,
delete and cancel handlers.

Each store call becomes an input: `Ok(value)` or `Err(message)`. Each handler becomes a pure
function from the state and its outcomes to a `Step`. A step holds the new state, the store calls
made (with their outcomes), and the id whose detail `get` is still in flight. That fetch is
settled later, by a separate `ResolveFetch` event.

Layout:

- `outcomes.dfy` (`Outcomes`): `Option` and the store-call `Result`.
- `notes.dfy` (`Notes`): the note, summary, draft, mode and view-state records. It also holds the
  initial state and the fixed messages.
- `drafts.dfy` (`Drafts`): `trim` over an explicit whitespace set, and the form's blank-draft guard.
- `engine.dfy` (`Engine`): the effects and handlers as transitions, and the log of store calls.
- `panel.dfy` (`Panel`): the main-panel choice, the detail card, the sidebar rows and the
  "Untitled" / "No content." fallbacks.
- `theme.dfy` (`Themes`): the light/dark toggle.
- `app.dfy` (`App`): the mounted component as a machine driven by events. User events reach a
  handler only through a control that is on screen. The module proves two invariants over
  arbitrary event runs:
  - `notes` is always the result of the most recent successful list call.
  - The edit form is never shown without a note to edit.
- `scenarios.dfy` (`Scenarios`): properties relating several transitions, and concrete runs.

Modelling choices:

- Note ids are non-empty strings. JavaScript `null`, `undefined` and `""` are all falsy in the
  `!selectedNoteId` test, and all three are represented by `None`.
- Each handler is atomic. Its state updates are applied together, as React 18 batches them. The
  selection effect then runs once, and only if `selectedNoteId` differs from its value before
  the handler (the effect's dependency array). As a result, a save, delete or startup that moves
  the selection to a new id ends with `loading` set and that id's `get` in flight. The handler's
  own `setLoading(false)` is overridden by the effect's `setLoading(true)`.

The model follows the code where a tidier description of the design would differ:

- `loading` starts false.
- Selecting a note does not clear the error. A failed detail fetch leaves the mode unchanged.
- The startup list does not clear an earlier error.
- Cancel changes only the mode. After a cancelled create, the blank draft stays the current note
  and is shown as an untitled note with an Edit button. Saving an edit of it sends the update to
  no id (`Scenarios.EditAfterCancelledCreateHasNoTarget`).
- Save-edit targets `currentNote.id`, not the selected id. When that id is already the selected
  one, the detail is not fetched again and the buffer keeps the pre-save note. When it differs,
  the selection moves to it and the selection effect runs: a fetch for a new id, or a cleared
  buffer when the id is missing and a note was selected (the cancelled-create draft).
- When `currentNote` is null, reading its id throws inside the `try`, and the error becomes the
  `TypeError` message (V8 wording). `Engine.SaveEdit` models this branch as written. It cannot be
  reached in the component: the edit form cannot render without a note (see the last line under
  "Left out"), so there is nothing to submit.
- The create form is always seeded with a fresh blank note, whatever `currentNote` holds.

## Model

| member | source | states |
|---|---|---|
| Drafts.TrimStart | notes_frontend/src/App.js:162 | the leading-whitespace strip of `trim`: the result is a suffix of the input, every dropped character is whitespace, and it does not start with whitespace |
| Drafts.TrimEnd | notes_frontend/src/App.js:162 | the trailing-whitespace strip of `trim`: the result is a prefix of the input, every dropped character is whitespace, and it does not end with whitespace |
| Drafts.Trim | notes_frontend/src/App.js:162 | `trim` is the leading-stripped string cut short only by trailing whitespace: a prefix of it whose dropped tail is all whitespace, and a non-empty result starts and ends with a non-whitespace character |
| Drafts.TrimEmptyIffBlank | notes_frontend/src/App.js:162 | `s.trim()` is falsy exactly when every character of `s` is whitespace |
| Drafts.GuardIffNotBlank | notes_frontend/src/App.js:160-164 | the form passes a draft to `onSave` exactly when its title or its content is not blank |
| App.Submit | notes_frontend/src/App.js:160-164 | a draft that fails the guard produces no store call and no state change; otherwise it goes to the save-new handler under the create form and to the save-edit handler under the edit form; with no form on screen nothing happens |
| App.BlankSubmitIsNoop | notes_frontend/src/App.js:162 | submitting a draft whose title and content are both blank leaves the whole machine unchanged, call log included |
| Engine.Settle | notes_frontend/src/App.js:334-353 | the selection effect runs only when the id changed; a cleared selection drops the current note and returns to detail mode with no fetch; a new id sets loading and starts exactly one `get` for that id; list, selection and error are untouched |
| Engine.ResolveFetch | notes_frontend/src/App.js:341-352 | a successful `get` shows the note in detail mode and clears error and loading; a failed one sets "Note not found.", drops the current note and clears loading, leaving list, selection and mode unchanged |
| Engine.Startup | notes_frontend/src/App.js:315-331 | on success `notes` is replaced wholesale; the first id is selected (and fetched) only if the list is non-empty and nothing was selected, else only `notes` and loading change; on failure the error is the message, or "Failed to fetch notes." when it is empty, and the list and selection are untouched |
| Engine.Select | notes_frontend/src/App.js:450 | a sidebar click sets the selection; re-selecting the current id is a complete no-op; a new id sets loading and starts its fetch; list and error are untouched |
| Engine.CreateIntent | notes_frontend/src/App.js:358-361 | mode create and current note the blank draft; list, selection, loading and error unchanged; with nothing loading and no error the blank create form is on screen (partner: Scenarios.CreateThenCancelKeepsDraft) |
| Engine.EditIntent | notes_frontend/src/App.js:380-382 | mode edit; list, selection, current note, loading and error unchanged; with nothing loading and no error the edit form seeded with the current note is on screen |
| Engine.Cancel | notes_frontend/src/App.js:503-509 | mode detail; list, selection, current note, loading and error unchanged; with nothing loading and no error the detail card of the current note is on screen (partners: Scenarios.CancelIdempotent, Scenarios.CreateThenCancelKeepsDraft) |
| Engine.SaveNew | notes_frontend/src/App.js:364-377 | calls `create` and then, only if it succeeded, `list`; when both succeed the list is the refreshed one, the created id is selected, the mode is detail and the error is cleared; the buffer is kept when that id was already selected, kept while a new id's fetch starts, and cleared when the created note has no id while a note was selected; when either fails only the error (the failure message) and loading change, so the mode stays create |
| Engine.SaveEdit | notes_frontend/src/App.js:385-398 | calls `update` on the current note's id and then, only if it succeeded, `list`; on success the list is refreshed, that id is selected and the mode is detail; when the id was already selected nothing else changes (no detail refetch), when it is a different id its fetch starts, and when it is missing while a note was selected the buffer is cleared; on failure only error and loading change; with no current note no store call is made and the error is the null-read message |
| Engine.Delete | notes_frontend/src/App.js:401-420 | a declined confirmation is a complete no-op; otherwise calls `delete` and then, only if it succeeded, `list`; on success the mode is detail and the refreshed list's first id is selected: when it was already selected nothing else changes (the buffer is kept, no fetch); when it is new its fetch starts; with an empty list the selection and current note are cleared; on failure at either step only error and loading change |
| Engine.LastListedAppend | notes_frontend/src/App.js:319 | the notes known after a call log are those of the most recent successful list, read piecewise or whole |
| Panel.FieldLabel | notes_frontend/src/App.js:118 | an empty field shows its greyed fallback, a non-empty one shows itself; what is shown is never empty |
| Panel.LabelRoundTrip | notes_frontend/src/App.js:118 | the field can always be read back from its label, so the fallback loses nothing |
| Panel.TitleLabel | notes_frontend/src/App.js:253 | an empty title shows "Untitled", any other title shows itself |
| Panel.ContentLabel | notes_frontend/src/App.js:279 | empty content shows "No content.", any other content shows itself |
| Panel.NoteDetail | notes_frontend/src/App.js:237-289 | with no note the card is the "Select a note" prompt; otherwise it shows the title and content labels, and a last-updated line exactly when the timestamp is non-empty |
| Panel.MainPanel | notes_frontend/src/App.js:485-516 | the panel is chosen by priority: loading, then a non-empty error (shown verbatim), then the create form (seeded blank), then the edit form (seeded with the current note), then the detail card of the current note; each choice holds exactly when its condition does |
| Panel.SidebarRows | notes_frontend/src/App.js:85-105 | one row per summary in list order, carrying its id and title label, highlighted exactly when its id is the selected one |
| Panel.AtMostOneActive | notes_frontend/src/App.js:88 | with distinct ids at most one row is highlighted, and only a listed selection is highlighted |
| Themes.Toggle | notes_frontend/src/App.js:423-425 | the toggle always changes the theme: light becomes dark and dark becomes light |
| Themes.ToggleInvolution | notes_frontend/src/App.js:424 | toggling twice gives back the original theme |
| App.Advance | notes_frontend/src/App.js:353 | committing a step appends its calls to the log; a new detail fetch supersedes the one in flight |
| App.Mount | notes_frontend/src/App.js:294-331 | from the initial state, an empty list leaves the initial state; a non-empty one selects and fetches the first note with no error; a failed one leaves no notes, no selection and a non-empty error |
| App.Apply | notes_frontend/src/App.js:447-516 | sidebar clicks and deletes act only on listed ids, Edit only on a shown note card, Cancel only on a shown form, and a fetch result only while one is in flight; the theme changes only on the toggle |
| App.AdvanceKeepsNotesMatchLog | notes_frontend/src/App.js:319 | a step whose notes are those of its last successful list keeps the sidebar list equal to the last successful list in the whole log |
| App.ApplyKeepsNotesMatchLog | notes_frontend/src/App.js:315-420 | every event keeps `notes` equal to the result of the most recent successful list call |
| App.RunKeepsNotesMatchLog | notes_frontend/src/App.js:315-420 | across any run of events, `notes` is always the result of the most recent successful list call, never a local patch |
| App.EditFormIsSeeded | notes_frontend/src/App.js:505-510 | while the edit-mode invariant holds, the edit form is only shown with a note to seed it |
| App.ApplyKeepsEditHasNote | notes_frontend/src/App.js:505-510 | every event whose failures carry messages keeps the invariant that edit mode without a current note shows an error |
| App.RunKeepsEditHasNote | notes_frontend/src/App.js:389 | across any run whose failures carry messages, saving the edit form never reads the id of a missing note |
| Scenarios.CancelIdempotent | notes_frontend/src/App.js:503 | cancelling twice is cancelling once, and cancelling in detail mode changes nothing |
| Scenarios.CreateThenCancelKeepsDraft | notes_frontend/src/App.js:358-361 | after create then cancel the current note is still the blank draft, shown as "Untitled" / "No content." |
| Scenarios.EditAfterCancelledCreateHasNoTarget | notes_frontend/src/App.js:389 | editing the draft left by a cancelled create and saving it sends the update to no id |
| Scenarios.ReselectIsNoop | notes_frontend/src/App.js:353 | clicking the same row twice: the second click makes no call, starts no fetch and changes nothing |
| Scenarios.SaveEditKeepsBuffer | notes_frontend/src/App.js:392 | a successful edit of the selected note leaves the note buffer as it was and starts no fetch |
| Scenarios.ThemeTwice | notes_frontend/src/App.js:424 | two theme toggles leave the whole machine unchanged |
| Scenarios.MountEmpty | notes_frontend/src/App.js:315-331 | example: mounting with an empty list leaves no selection, detail mode and no error |
| Scenarios.MountSelectsFirst | notes_frontend/src/App.js:321-323 | example: mounting with notes "a", "b" selects "a" and fetches it |
| Scenarios.CreateOkListFails | notes_frontend/src/App.js:368-375 | example: a create that succeeds with a failing refresh keeps create mode and shows the refresh's message |
| Scenarios.DeleteLast | notes_frontend/src/App.js:409-414 | example: deleting the only note leaves no notes, no selection and no current note |
| Scenarios.FetchNotFound | notes_frontend/src/App.js:348-351 | example: a failed detail fetch shows "Note not found.", drops the current note and keeps the list |

## Left out

- HTTP transport (`fetch`, URLs, JSON bodies, `API_BASE` and its environment lookup): each store
  call is modelled only by its `Ok`/`Err` outcome.
- DOM and CSS effects (`setProperty`, `data-theme`, inline styles, the `<style>` block) and the
  toggle button's caption: these are presentation only.
- `window.confirm`: it is a boolean input to `Engine.Delete`.
- Async interleaving: React scheduling and batching order are not modelled. Each handler is
  atomic given its outcomes. A newer detail fetch supersedes an older one still in flight, and the
  older response is dropped. In the real component a stale response can still land and overwrite
  newer state.
- The startup effect reads the selection captured at mount, which is always `null`. The model reads
  the selection in the state it is applied to, which is the same thing when startup runs first.
- Per-keystroke editing (`handleChange`) and the form's re-seeding effect: the draft is taken as a
  given value at submit time. It is modelled as title and content only. The edit form actually
  submits the whole note object, id and timestamp included.
- Drafts.IsSpace: a small explicit whitespace set rather than everything JavaScript's `trim`
  strips (the remaining Unicode space separators are not modelled).
- Timestamp formatting (`toLocaleString`): it depends on locale and the date library. The card
  records only whether a last-updated line is shown, and the raw timestamp.
- Ids are non-empty strings. A numeric id `0` would be falsy in the source, and the distinction
  between `null`, `undefined` and `""` in the dependency comparison is not modelled.
- App.RunKeepsEditHasNote: it assumes every store failure carries a non-empty message, which holds
  for the errors this file throws. A failure with an empty message while the edit mode has no note
  clears the error with the edit mode still on. The component then renders the edit form with a
  null `initialNote`: the form's `form.title` read throws during render and the component tree
  crashes. The model has no crashed state; there it shows `Panel.EditForm(None)`.
