/** The theme mode of `ThemeProvider` (`src/contexts/ThemeContext.tsx`) as a state
    machine: the mode, the theme derived from it, and whether the system colour-scheme
    listener is subscribed. The system colour scheme at each step is a parameter. */
module Theme {
  import opened Wrappers

  datatype Mode = Light | Dark | System

  /** `Appearance.getColorScheme()`: `'light'`, `'dark'` or `null`. */
  datatype Scheme = SchemeLight | SchemeDark | NoScheme

  datatype Colors = Colors(primary: string, secondary: string, background: string, surface: string,
                           text: string, textSecondary: string, border: string, error: string,
                           success: string, warning: string)

  const LightColors := Colors("#007AFF", "#5856D6", "#F2F2F7", "#FFFFFF", "#000000",
                              "#8E8E93", "#C6C6C8", "#FF3B30", "#34C759", "#FF9500")

  const DarkColors := Colors("#0A84FF", "#5E5CE6", "#000000", "#1C1C1E", "#FFFFFF",
                             "#8E8E93", "#38383A", "#FF453A", "#32D74B", "#FF9F0A")

  datatype AppTheme = AppTheme(dark: bool, colors: Colors)

  /** `{ dark, colors: dark ? DARK_THEME : LIGHT_THEME }` */
  function ThemeFor(dark: bool): (t: AppTheme)
    ensures t.dark == dark
    ensures t.colors == DarkColors <==> dark
  {
    AppTheme(dark, if dark then DarkColors else LightColors)
  }

  /** `mode` as stored and compared: `'light'`, `'dark'` or `'system'`. */
  function ModeName(m: Mode): (s: string)
    ensures s == "light" || s == "dark" || s == "system"
  {
    match m
    case Light => "light"
    case Dark => "dark"
    case System => "system"
  }

  /** The stored-mode check: only the three mode names are adopted. */
  function ParseMode(stored: Option<string>): (r: Option<Mode>)
    ensures r.Some? <==> stored.Some? && (stored.value == "light" || stored.value == "dark" || stored.value == "system")
    ensures r.Some? ==> ModeName(r.value) == stored.value
  {
    match stored
    case None => None
    case Some(s) =>
      if s == "light" then Some(Light)
      else if s == "dark" then Some(Dark)
      else if s == "system" then Some(System)
      else None
  }

  /** A persisted mode is read back as itself. */
  lemma ModeNameRoundTrip(m: Mode)
    ensures ParseMode(Some(ModeName(m))) == Some(m)
  {
  }

  /** The provider's state: `mode`, `theme`, and whether the change listener is
      subscribed. */
  datatype State = State(mode: Mode, theme: AppTheme, listening: bool)

  /** The theme the mode calls for under the current system colour scheme. */
  function Expected(m: Mode, scheme: Scheme): AppTheme
  {
    if m == System then ThemeFor(scheme == SchemeDark) else ThemeFor(m == Dark)
  }

  /** The state agrees with its mode: the listener is subscribed exactly in system mode,
      and the theme is the one the mode calls for. */
  predicate Consistent(st: State, scheme: Scheme)
  {
    st.listening == (st.mode == System) && st.theme == Expected(st.mode, scheme)
  }

  /** The `[mode]` effect: in system mode subscribe and take the current colour scheme,
      otherwise unsubscribe and take the mode's own theme. */
  function ApplyMode(m: Mode, scheme: Scheme): (st: State)
    ensures st.mode == m && Consistent(st, scheme)
  {
    if m == System then State(System, ThemeFor(scheme == SchemeDark), true)
    else State(m, ThemeFor(m == Dark), false)
  }

  /** `setMode(m)`: the effect re-runs only when the mode changes. */
  function SetMode(st: State, m: Mode, scheme: Scheme): (r: State)
    ensures r.mode == m
    ensures Consistent(st, scheme) ==> Consistent(r, scheme)
  {
    if m == st.mode then st else ApplyMode(m, scheme)
  }

  /** The first render and its effects: mode `'system'`, the theme from the colour
      scheme, the listener subscribed. */
  function Mount(scheme: Scheme): (st: State)
    ensures st.mode == System && st.listening
    ensures st.theme.dark <==> scheme == SchemeDark
    ensures Consistent(st, scheme)
  {
    var initial := State(System, ThemeFor(scheme == SchemeDark), false);
    ApplyMode(initial.mode, scheme)
  }

  /** The load effect with the value found under `app_theme`. */
  function LoadStored(st: State, stored: Option<string>, scheme: Scheme): (r: State)
    ensures ParseMode(stored).None? ==> r == st
    ensures ParseMode(stored).Some? ==> r.mode == ParseMode(stored).value
    ensures Consistent(st, scheme) ==> Consistent(r, scheme)
  {
    match ParseMode(stored)
    case None => st
    case Some(m) => SetMode(st, m, scheme)
  }

  /** A change event from `Appearance`: only a subscribed listener sees it. */
  function SchemeChanged(st: State, scheme: Scheme): (r: State)
    ensures r.mode == st.mode && r.listening == st.listening
    ensures st.listening ==> r.theme == ThemeFor(scheme == SchemeDark)
    ensures !st.listening ==> r == st
  {
    if st.listening then st.(theme := ThemeFor(scheme == SchemeDark)) else st
  }

  /** A consistent state stays consistent when the colour scheme changes under it. */
  lemma SchemeChangedConsistent(st: State, before: Scheme, after: Scheme)
    requires Consistent(st, before)
    ensures Consistent(SchemeChanged(st, after), after)
  {
  }

  /** The successor in the toggle cycle. */
  function Next(m: Mode): (n: Mode)
    ensures n != m
  {
    match m
    case System => Light
    case Light => Dark
    case Dark => System
  }

  /** `toggleTheme()`: the new state and the value written under `app_theme`. */
  function Toggle(st: State, scheme: Scheme): (r: (State, string))
    ensures r.0.mode == Next(st.mode)
    ensures r.1 == ModeName(r.0.mode)
    ensures ParseMode(Some(r.1)) == Some(r.0.mode)
    ensures Consistent(st, scheme) ==> Consistent(r.0, scheme)
  {
    var next := Next(st.mode);
    ModeNameRoundTrip(next);
    (SetMode(st, next, scheme), ModeName(next))
  }

  /** Three toggles under the same colour scheme lead back to the starting state, having
      passed through every mode in the order system, light, dark. */
  lemma ToggleThrice(st: State, scheme: Scheme)
    requires Consistent(st, scheme)
    ensures var s1 := Toggle(st, scheme).0;
      var s2 := Toggle(s1, scheme).0;
      var s3 := Toggle(s2, scheme).0;
      && s3 == st
      && {st.mode, s1.mode, s2.mode} == {Light, Dark, System}
      && (st.mode == System ==> s1.mode == Light && s2.mode == Dark)
      && (st.mode == Light ==> s1.mode == Dark && s2.mode == System)
      && (st.mode == Dark ==> s1.mode == System && s2.mode == Light)
  {
  }

  /** A consistent state is dark exactly in dark mode, or in system mode under a dark
      colour scheme, and has the dark colours exactly when it is dark. */
  lemma DarkIff(st: State, scheme: Scheme)
    requires Consistent(st, scheme)
    ensures st.theme.dark <==> st.mode == Dark || (st.mode == System && scheme == SchemeDark)
    ensures st.theme.colors == DarkColors <==> st.theme.dark
  {
  }
}
