/** The records the notes app keeps in its `App` component state. */
module Notes {
  import opened Outcomes

  /** A note identifier as assigned by the store. Empty ids are falsy in the app's
      `!selectedNoteId` tests, so they are represented by `None` instead. */
  type NoteId = s: string | s != "" witness "1"

  /** A full note as returned by `get`, `create` and `update`, or the blank draft of the create
      form, which has no id yet. */
  datatype Note = Note(id: Option<NoteId>, title: string, content: string, timestamp: Option<string>)

  /** One entry of the list returned by `list`, rendered as a sidebar row. */
  datatype NoteSummary = NoteSummary(id: NoteId, title: string, timestamp: Option<string>)

  /** The title and content the form holds when it is submitted. */
  datatype Draft = Draft(title: string, content: string)

  /** What the main panel is meant to show: `mainMode` in the component. */
  datatype Mode = Detail | Edit | Create

  /** The component state that the handlers and effects update. */
  datatype ViewState = ViewState(
    notes: seq<NoteSummary>,
    selectedNoteId: Option<NoteId>,
    mainMode: Mode,
    loading: bool,
    error: string,
    currentNote: Option<Note>
  )

  /** The state of a freshly mounted `App`. */
  const Initial := ViewState([], None, Detail, false, "", None)

  /** The buffer the create intent puts into `currentNote`. */
  const BlankNote := Note(None, "", "", None)

  /** The error shown when the startup list fails with an empty message. */
  const ListFallbackMessage := "Failed to fetch notes."

  /** The error shown whenever a detail fetch fails, whatever the store said. */
  const NotFoundMessage := "Note not found."

  /** The message of the `TypeError` raised by reading `currentNote.id` while `currentNote` is
      `null` (the wording of the V8 engine). */
  const NullNoteMessage := "Cannot read properties of null (reading 'id')"

  /** True when some summary in `notes` carries `id`. */
  predicate Listed(notes: seq<NoteSummary>, id: NoteId)
  {
    exists i :: 0 <= i < |notes| && notes[i].id == id
  }
}
