/**
 * The settings context: a colour theme and a page size, with the provider's
 * defaults, a theme toggle and a page-size setter.  React's `useState`
 * setters are modelled as immediate updates of one immutable record.
 */
module Settings {
  import opened Wrappers

  /** `'dark' | 'light'` */
  datatype Theme = Light | Dark

  datatype SettingsState = SettingsState(theme: Theme, pageSize: int)

  const DefaultTheme := Light
  const DefaultPageSize := 20

  /**
   * The provider's starting state: a destructuring default applies only when
   * the prop is `undefined`, modelled as `None`.
   */
  function Provide(initialTheme: Option<Theme>, initialPageSize: Option<int>): (s: SettingsState)
    ensures initialTheme.Some? ==> s.theme == initialTheme.value
    ensures initialTheme.None? ==> s.theme == Light
    ensures initialPageSize.Some? ==> s.pageSize == initialPageSize.value
    ensures initialPageSize.None? ==> s.pageSize == 20
  {
    SettingsState(initialTheme.GetOr(DefaultTheme), initialPageSize.GetOr(DefaultPageSize))
  }

  /** The other theme. */
  function Flip(t: Theme): Theme
  {
    match t
    case Light => Dark
    case Dark => Light
  }

  /** `toggleTheme`: `prevTheme === 'light' ? 'dark' : 'light'`, page size untouched. */
  function ToggleTheme(s: SettingsState): (r: SettingsState)
    ensures r.theme != s.theme
    ensures r.pageSize == s.pageSize
  {
    s.(theme := Flip(s.theme))
  }

  /** `changePageSize(size)`: the page size becomes `size`, the theme is untouched. */
  function ChangePageSize(s: SettingsState, size: int): (r: SettingsState)
    ensures r.pageSize == size
    ensures r.theme == s.theme
  {
    s.(pageSize := size)
  }

  /** Toggling twice gives back the settings toggled from. */
  lemma ToggleInvolution(s: SettingsState)
    ensures ToggleTheme(ToggleTheme(s)) == s
  {
  }

  /** Light goes to dark and dark to light. */
  lemma ToggleMaps(pageSize: int)
    ensures ToggleTheme(SettingsState(Light, pageSize)).theme == Dark
    ensures ToggleTheme(SettingsState(Dark, pageSize)).theme == Light
  {
  }

  /** The two setters touch different fields, so their order does not matter. */
  lemma ToggleCommutesWithChangePageSize(s: SettingsState, size: int)
    ensures ToggleTheme(ChangePageSize(s, size)) == ChangePageSize(ToggleTheme(s), size)
  {
  }

  /** Setting the page size twice keeps only the later size. */
  lemma ChangePageSizeLastWins(s: SettingsState, a: int, b: int)
    ensures ChangePageSize(ChangePageSize(s, a), b) == ChangePageSize(s, b)
  {
  }

  /** With no props the provider starts light with 20 rows per page. */
  lemma ProvideDefaults()
    ensures Provide(None, None) == SettingsState(Light, 20)
  {
  }
}
