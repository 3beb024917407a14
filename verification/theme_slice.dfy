/** The theme slice of the store (`src/store/slices/themeSlice.ts`). The
    declared type allows only "light" and "dark", but `setTheme` stores its
    payload unchecked, so the state is any string and the toggle is
    written against "light" alone. */
module ThemeSlice {

  const Light := "light"
  const Dark := "dark"

  datatype ThemeState = ThemeState(theme: string)

  const InitialThemeState := ThemeState(Light)

  datatype ThemeAction = SetTheme(payload: string) | ToggleTheme

  predicate IsDeclaredTheme(t: string)
  {
    t == Light || t == Dark
  }

  /** The reducer: `setTheme` stores its payload; `toggleTheme` goes to
      dark from light and to light from anything else. */
  function Reduce(s: ThemeState, a: ThemeAction): (r: ThemeState)
    ensures a.SetTheme? ==> r.theme == a.payload
    ensures a == ToggleTheme ==> IsDeclaredTheme(r.theme) && r.theme != s.theme
    ensures a == ToggleTheme ==> (r.theme == Dark <==> s.theme == Light)
  {
    match a
    case SetTheme(payload) => ThemeState(payload)
    case ToggleTheme => ThemeState(if s.theme == Light then Dark else Light)
  }

  /** Toggling keeps a declared theme declared, and toggling twice returns
      to where it started exactly when the theme was a declared one. */
  lemma ToggleTwice(s: ThemeState)
    ensures IsDeclaredTheme(s.theme) <==> Reduce(Reduce(s, ToggleTheme), ToggleTheme) == s
  {
  }

  /** With an undeclared payload stored, one toggle returns to light. */
  lemma ToggleRepairsUndeclared(s: ThemeState)
    requires !IsDeclaredTheme(s.theme)
    ensures Reduce(s, ToggleTheme) == InitialThemeState
  {
  }

  /** The initial state is declared, and light. */
  lemma InitialIsLight()
    ensures IsDeclaredTheme(InitialThemeState.theme)
    ensures Reduce(InitialThemeState, ToggleTheme).theme == Dark
  {
  }
}
