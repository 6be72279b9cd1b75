/** The light/dark theme setting, kept apart from the note state. */
module Themes {

  datatype Theme = Light | Dark

  /** The theme a freshly mounted `App` starts with. */
  const InitialTheme := Light

  /** The theme toggle: light becomes dark and dark becomes light. */
  function Toggle(t: Theme): (r: Theme)
    ensures r != t
    ensures r.Light? <==> t.Dark?
  {
    if t == Light then Dark else Light
  }

  /** Toggling twice gives the original theme back. */
  lemma ToggleInvolution(t: Theme)
    ensures Toggle(Toggle(t)) == t
  {
  }
}
