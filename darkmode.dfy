/**
 * The three cells the dark-mode toggle of the desk bundle reads and writes:
 * the `data-theme` attribute of the root element, the `pluto_dark_mode`
 * entry of `localStorage`, and the glyph of the toggle's icon span.
 */
module DarkMode {
  import opened Wrappers

  /** `Sun` is the "☀️" glyph, `Moon` the "🌙" glyph. */
  datatype Glyph = Sun | Moon

  /** The `localStorage` key the toggle persists its state under. */
  const StorageKey: string := "pluto_dark_mode"

  datatype Cells = Cells(theme: Option<string>, stored: Option<string>, icon: Glyph)

  /** `getAttribute("data-theme") === "dark"`. */
  predicate IsDark(theme: Option<string>) {
    theme == Some("dark")
  }

  /** The icon offers to leave the current mode: the sun while dark mode is on, the moon otherwise. */
  predicate IconMatches(c: Cells) {
    (c.icon == Sun) == IsDark(c.theme)
  }

  /** The cells as a click leaves them: attribute dark or absent, the flag mirroring it, the icon matching it. */
  predicate Settled(c: Cells) {
    && (c.theme.None? || IsDark(c.theme))
    && c.stored == Some(if IsDark(c.theme) then "true" else "false")
    && IconMatches(c)
  }

  /**
   * Injecting the toggle, once the navbar is found: a stored "true" turns
   * the attribute dark and shows the sun; any other stored value (or none)
   * leaves the attribute as it was and shows the moon. Nothing is written to
   * storage.
   */
  function AfterInit(theme: Option<string>, stored: Option<string>): (c: Cells)
    ensures c.stored == stored
    ensures c.icon == Sun <==> stored == Some("true")
    ensures stored == Some("true") ==> IsDark(c.theme)
    ensures stored != Some("true") ==> c.theme == theme
  {
    if stored == Some("true") then Cells(Some("dark"), stored, Sun)
    else Cells(theme, stored, Moon)
  }

  /**
   * One click of the toggle: dark becomes absent, anything else (absent or
   * another theme) becomes dark; the flag and the icon follow the new state.
   */
  function Click(c: Cells): (r: Cells)
    ensures IsDark(r.theme) <==> !IsDark(c.theme)
    ensures Settled(r)
  {
    if IsDark(c.theme) then Cells(None, Some("false"), Moon)
    else Cells(Some("dark"), Some("true"), Sun)
  }

  /**
   * The icon shown after injection agrees with the attribute exactly when the
   * flag is "true" or the attribute was not already dark: an attribute the
   * host set to dark with no "true" flag stored is shown with the moon.
   */
  lemma InitIconMatches(theme: Option<string>, stored: Option<string>)
    ensures IconMatches(AfterInit(theme, stored)) <==> (stored == Some("true") || !IsDark(theme))
  {
  }

  /** Two clicks give back the attribute exactly when it started dark or absent. */
  lemma ClickTwiceRestoresTheme(c: Cells)
    ensures Click(Click(c)).theme == c.theme <==> (c.theme.None? || IsDark(c.theme))
  {
  }

  /** Once settled, two clicks give back all three cells. */
  lemma ClickTwiceSettled(c: Cells)
    requires Settled(c)
    ensures Click(Click(c)) == c
  {
  }

  /**
   * Starting with no flag and no attribute: the first click stores "true" and
   * turns the attribute dark, the second stores "false" and removes it.
   */
  lemma FreshRoundTrip()
    ensures AfterInit(None, None) == Cells(None, None, Moon)
    ensures Click(AfterInit(None, None)) == Cells(Some("dark"), Some("true"), Sun)
    ensures Click(Click(AfterInit(None, None))) == Cells(None, Some("false"), Moon)
  {
  }
}
