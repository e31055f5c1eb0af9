/** The theme decision of the settings form: which theme the page ends up in
    and which pair of colour tokens it then sets. */
module Theme {

  datatype Mode = Day | Night

  /** The two colour tokens, `--color-dark` and `--color-light`, as RGB
      triples. */
  datatype Palette = Palette(dark: string, light: string)

  const Black: string := "10, 10, 20"
  const White: string := "255, 255, 255"

  /** The resolved theme, the value written back into the theme selector, and
      the tokens set on the document. */
  datatype ThemeChoice = ThemeChoice(theme: Mode, value: string, palette: Palette)

  /** `toggleTheme`: night only when the system asks for a dark colour scheme
      and the requested theme is "night"; day for every other input. The night
      palette is the day palette with its two tokens swapped. */
  function ResolveTheme(requested: string, systemPrefersDark: bool): (r: ThemeChoice)
    ensures r.theme == Night <==> systemPrefersDark && requested == "night"
    ensures r.value == (if r.theme == Night then "night" else "day")
    ensures r.theme == Day ==> r.palette == Palette(Black, White)
    ensures r.theme == Night ==> r.palette == Palette(White, Black)
  {
    if systemPrefersDark && requested == "night" then
      ThemeChoice(Night, "night", Palette(White, Black))
    else
      ThemeChoice(Day, "day", Palette(Black, White))
  }

  /** Whatever is requested, the two results differ only by swapping the
      tokens, and each palette uses both colours once. */
  lemma PaletteSwapped(r1: string, d1: bool, r2: string, d2: bool)
    requires ResolveTheme(r1, d1).theme != ResolveTheme(r2, d2).theme
    ensures ResolveTheme(r1, d1).palette.dark == ResolveTheme(r2, d2).palette.light
    ensures ResolveTheme(r1, d1).palette.light == ResolveTheme(r2, d2).palette.dark
    ensures ResolveTheme(r1, d1).palette.dark != ResolveTheme(r1, d1).palette.light
  {
  }

  /** The conjunction of the two signals, case by case: a night request on a
      light system and a day request on a dark system both give day. */
  lemma ThemeConjunction()
    ensures ResolveTheme("night", false).theme == Day
    ensures ResolveTheme("night", true).theme == Night
    ensures ResolveTheme("day", true).theme == Day
    ensures ResolveTheme("day", false).theme == Day
  {
  }
}
