/** What the `App` component renders from its state: the main panel, the detail card and the
    sidebar rows, with their fallback labels. */
module Panel {
  import opened Outcomes
  import opened Notes

  /** A rendered text: the field itself, or a greyed-out fallback shown in its place. */
  datatype Label = Text(text: string) | Fallback(text: string)

  /** The text a label puts on screen. */
  function Shown(l: Label): string
  {
    l.text
  }

  /** The label of a text field, with `fallback` standing in for an empty (falsy) field. */
  function FieldLabel(field: string, fallback: string): (r: Label)
    requires fallback != ""
    ensures r.Fallback? <==> field == ""
    ensures Shown(r) != ""
    ensures r.Text? ==> Shown(r) == field
    ensures r.Fallback? ==> Shown(r) == fallback
  {
    if field == "" then Fallback(fallback) else Text(field)
  }

  /** The field a label was made from: the fallback stands for an empty field. */
  function FieldOf(l: Label): string
  {
    if l.Fallback? then "" else l.text
  }

  /** A label loses nothing: the field can always be read back from it, so two different fields
      never render alike, even when a field spells out its own fallback. */
  lemma LabelRoundTrip(field: string, fallback: string)
    requires fallback != ""
    ensures FieldOf(FieldLabel(field, fallback)) == field
  {
  }

  /** A note title as the sidebar and the detail card show it. */
  function TitleLabel(title: string): (r: Label)
    ensures r.Fallback? <==> title == ""
    ensures r.Fallback? ==> Shown(r) == "Untitled"
    ensures r.Text? ==> Shown(r) == title
  {
    FieldLabel(title, "Untitled")
  }

  /** A note body as the detail card shows it. */
  function ContentLabel(content: string): (r: Label)
    ensures r.Fallback? <==> content == ""
    ensures r.Fallback? ==> Shown(r) == "No content."
    ensures r.Text? ==> Shown(r) == content
  {
    FieldLabel(content, "No content.")
  }

  /** The detail card: a prompt to pick a note when there is none, or the note's title, body and,
      when it has a non-empty timestamp, its last-updated line. */
  datatype DetailCard =
    | PickPrompt
    | Card(title: Label, body: Label, lastUpdated: Option<string>)

  function NoteDetail(note: Option<Note>): (r: DetailCard)
    ensures r.PickPrompt? <==> note.None?
    ensures note.Some? ==> r.title == TitleLabel(note.value.title) && r.body == ContentLabel(note.value.content)
    ensures note.Some? ==> (r.lastUpdated.Some? <==> note.value.timestamp.Some? && note.value.timestamp.value != "")
    ensures r.Card? && r.lastUpdated.Some? ==> r.lastUpdated == note.value.timestamp
  {
    match note
    case None => PickPrompt
    case Some(n) =>
      var stamp := if n.timestamp.Some? && n.timestamp.value != "" then n.timestamp else None;
      Card(TitleLabel(n.title), ContentLabel(n.content), stamp)
  }

  /** What the main panel holds. */
  datatype MainView =
    | LoadingBanner
    | ErrorBanner(message: string)
    | CreateForm(initial: Note)
    | EditForm(seed: Option<Note>)
    | DetailView(card: DetailCard)

  /** The main panel, chosen by priority: loading, then a non-empty error, then the create form
      (always seeded blank), then the edit form (seeded with the current note), then the detail
      card of the current note. */
  function MainPanel(s: ViewState): (r: MainView)
    ensures r.LoadingBanner? <==> s.loading
    ensures r.ErrorBanner? <==> !s.loading && s.error != ""
    ensures r.ErrorBanner? ==> r.message == s.error
    ensures r.CreateForm? <==> !s.loading && s.error == "" && s.mainMode == Create
    ensures r.CreateForm? ==> r.initial == BlankNote
    ensures r.EditForm? <==> !s.loading && s.error == "" && s.mainMode == Edit
    ensures r.EditForm? ==> r.seed == s.currentNote
    ensures r.DetailView? <==> !s.loading && s.error == "" && s.mainMode == Detail
    ensures r.DetailView? ==> r.card == NoteDetail(s.currentNote)
  {
    if s.loading then LoadingBanner
    else if s.error != "" then ErrorBanner(s.error)
    else match s.mainMode
      case Create => CreateForm(BlankNote)
      case Edit => EditForm(s.currentNote)
      case Detail => DetailView(NoteDetail(s.currentNote))
  }

  /** True when one of the two forms is on screen (so Save and Cancel can be pressed). */
  predicate FormShown(s: ViewState)
  {
    MainPanel(s).CreateForm? || MainPanel(s).EditForm?
  }

  /** True when the detail card of a note, with its Edit button, is on screen. */
  predicate EditButtonShown(s: ViewState)
  {
    MainPanel(s).DetailView? && MainPanel(s).card.Card?
  }

  /** One sidebar row: the note it selects or deletes, its caption, and whether it is highlighted. */
  datatype SidebarRow = SidebarRow(id: NoteId, caption: Label, active: bool)

  /** The sidebar rows, one per summary in list order, the selected one highlighted. */
  function SidebarRows(notes: seq<NoteSummary>, selected: Option<NoteId>): (rows: seq<SidebarRow>)
    ensures |rows| == |notes|
    ensures forall i :: 0 <= i < |rows| ==> rows[i].id == notes[i].id
    ensures forall i :: 0 <= i < |rows| ==> rows[i].caption == TitleLabel(notes[i].title)
    ensures forall i :: 0 <= i < |rows| ==> (rows[i].active <==> selected == Some(notes[i].id))
    decreases |notes|
  {
    if notes == [] then []
    else
      [SidebarRow(notes[0].id, TitleLabel(notes[0].title), selected == Some(notes[0].id))]
      + SidebarRows(notes[1..], selected)
  }

  /** With distinct ids at most one row is highlighted, and a row is highlighted only if the
      selection is listed. */
  lemma AtMostOneActive(notes: seq<NoteSummary>, selected: Option<NoteId>, i: nat, j: nat)
    requires forall a, b :: 0 <= a < b < |notes| ==> notes[a].id != notes[b].id
    requires i < |notes| && j < |notes|
    ensures SidebarRows(notes, selected)[i].active && SidebarRows(notes, selected)[j].active ==>
              i == j && Listed(notes, selected.value)
  {
    var rows := SidebarRows(notes, selected);
    if rows[i].active && rows[j].active && i != j {
      if i < j {
        assert notes[i].id != notes[j].id;
      } else {
        assert notes[j].id != notes[i].id;
      }
    }
  }
}
