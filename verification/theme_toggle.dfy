/**
 * The light/dark theme button. The theme provider's context, the stored
 * `theme` entry of localStorage, the system dark-scheme preference and the
 * `dark` class on the document root are explicit inputs and outputs here
 * instead of effects.
 */
module ThemeToggle {
  import opened Wrappers

  datatype Theme = Light | Dark

  /** The string a theme is written as. */
  function ThemeName(t: Theme): (name: string)
    ensures name == "light" || name == "dark"
    ensures name == "dark" <==> t == Dark
  {
    match t
    case Light => "light"
    case Dark => "dark"
  }

  /** The other theme. */
  function Opposite(t: Theme): (r: Theme)
    ensures r != t
  {
    match t
    case Light => Dark
    case Dark => Light
  }

  /** What the effects write outside the component: whether the document root
      carries the `dark` class, and the stored `theme` entry. */
  datatype Document = Document(darkClass: bool, stored: Option<string>)

  /** The component's state: the provider's theme when a provider is present,
      and the local fallback theme. */
  datatype ToggleState = ToggleState(context: Option<Theme>, local: Theme)

  /** The local theme on first render: the provider's theme if there is one,
      light otherwise. */
  function InitialLocal(context: Option<Theme>): (t: Theme)
    ensures context.Some? ==> t == context.value
    ensures context.None? ==> t == Light
  {
    context.GetOr(Light)
  }

  /** The mount effect. With a provider it does nothing. Otherwise a stored
      "dark" or "light" is adopted; failing that, a system preference for dark
      selects dark, and without one the theme stays as it was. */
  function InitEffect(context: Option<Theme>, local: Theme, saved: Option<string>, prefersDark: bool): (t: Theme)
    ensures context.Some? ==> t == local
    ensures context.None? && saved == Some("dark") ==> t == Dark
    ensures context.None? && saved == Some("light") ==> t == Light
    ensures context.None? && saved != Some("dark") && saved != Some("light") ==>
              t == (if prefersDark then Dark else local)
  {
    if context.Some? then local
    else if saved == Some("dark") then Dark
    else if saved == Some("light") then Light
    else if prefersDark then Dark
    else local
  }

  /** The effect that runs whenever the local theme changes. With a provider
      it does nothing; otherwise it sets or clears the `dark` class and stores
      the theme's name. */
  function ApplyEffect(context: Option<Theme>, local: Theme, doc: Document): (r: Document)
    ensures context.Some? ==> r == doc
    ensures context.None? ==> (r.darkClass <==> local == Dark)
    ensures context.None? ==> r.stored == Some(ThemeName(local))
  {
    if context.Some? then doc
    else Document(local == Dark, Some(ThemeName(local)))
  }

  /** The document reflects the local theme: the class matches it and the
      stored entry names it. */
  predicate InSync(s: ToggleState, doc: Document)
  {
    s.context.None? ==> (doc.darkClass <==> s.local == Dark) && doc.stored == Some(ThemeName(s.local))
  }

  /** Mounting the button on a document whose stored `theme` entry is
      `doc.stored`: the first render uses `InitialLocal`, both effects then
      run in order (the mount effect reads the stored entry, the apply effect
      still sees the first-render theme), and if the mount effect changed the
      theme the re-render runs the apply effect once more. */
  function Mount(context: Option<Theme>, prefersDark: bool, doc: Document): (r: (ToggleState, Document))
    ensures r.0.context == context
    ensures InSync(r.0, r.1)
    ensures context.Some? ==> r.0.local == context.value && r.1 == doc
    ensures r.0.local == InitEffect(context, InitialLocal(context), doc.stored, prefersDark)
  {
    var first := InitialLocal(context);
    var adopted := InitEffect(context, first, doc.stored, prefersDark);
    var doc1 := ApplyEffect(context, first, doc);
    var doc2 := if adopted != first then ApplyEffect(context, adopted, doc1) else doc1;
    (ToggleState(context, adopted), doc2)
  }

  /** A theme written by the apply effect is the theme adopted on the next
      mount, whatever the system preference. */
  lemma StoredThemeSurvivesReload(t: Theme, doc: Document, prefersDark: bool)
    ensures Mount(None, prefersDark, ApplyEffect(None, t, doc)).0.local == t
  {
  }

  /** The click handler: the provider's theme is flipped when a provider is
      present, the local theme otherwise. */
  function ToggleTheme(s: ToggleState): (r: ToggleState)
    ensures s.context.Some? ==> r.context == Some(Opposite(s.context.value)) && r.local == s.local
    ensures s.context.None? ==> r.context == None && r.local == Opposite(s.local)
  {
    match s.context
    case Some(t) => s.(context := Some(if t == Dark then Light else Dark))
    case None => s.(local := if s.local == Dark then Light else Dark)
  }

  /** Toggling twice restores the state. */
  lemma ToggleTwiceIsIdentity(s: ToggleState)
    ensures ToggleTheme(ToggleTheme(s)) == s
  {
  }

  /** A click followed by the apply effect keeps the document in sync with the
      local theme. */
  lemma ToggleKeepsDocumentInSync(s: ToggleState, doc: Document)
    requires InSync(s, doc)
    ensures InSync(ToggleTheme(s), ApplyEffect(s.context, ToggleTheme(s).local, doc))
  {
  }

  /** The theme the button describes: the provider's when present, else the local one. */
  function CurrentTheme(s: ToggleState): (t: Theme)
    ensures s.context.Some? ==> t == s.context.value
    ensures s.context.None? ==> t == s.local
  {
    s.context.GetOr(s.local)
  }

  /** The button's aria-label. */
  function AriaLabel(current: Theme): (r: string)
    ensures r == "Switch to " + ThemeName(Opposite(current)) + " mode"
  {
    "Switch to " + (if current == Dark then "light" else "dark") + " mode"
  }

  /** The screen-reader text inside the button. */
  function ScreenReaderText(current: Theme): (r: string)
    ensures r == "Switch to " + ThemeName(Opposite(current)) + " mode"
  {
    if current == Dark then "Switch to light mode" else "Switch to dark mode"
  }

  /** Both texts name the theme a click switches to, and they agree. */
  lemma ButtonTextsNameTheOpposite(s: ToggleState)
    ensures AriaLabel(CurrentTheme(s)) == "Switch to " + ThemeName(CurrentTheme(ToggleTheme(s))) + " mode"
    ensures ScreenReaderText(CurrentTheme(s)) == AriaLabel(CurrentTheme(s))
  {
  }
}
