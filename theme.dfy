/** The site theme: a two-state toggle between the glass and the retro look. */
module Theme {

  const Glass: string := "glass"
  const Retro: string := "retro"

  /** The toggle updater: retro becomes glass, anything else becomes retro. */
  function Toggled(prev: string): (next: string)
    ensures next == Retro || next == Glass
    ensures next == Glass <==> prev == Retro
  {
    if prev == Retro then Glass else Retro
  }

  /** On the two themes the toggle is its own inverse. */
  lemma ToggleTwice(prev: string)
    requires prev == Retro || prev == Glass
    ensures Toggled(Toggled(prev)) == prev
    ensures Toggled(prev) != prev
  {
  }

  class ThemeProvider {
    var theme: string

    constructor ()
      ensures theme == Glass
    {
      theme := Glass;
    }

    method ToggleTheme()
      modifies this
      ensures theme == Toggled(old(theme))
      ensures theme == Retro || theme == Glass
    {
      theme := if theme == Retro then Glass else Retro;
    }
  }
}
