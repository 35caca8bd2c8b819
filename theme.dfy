/**
 * The colour theme (script.js:1179-1200): the page's `data-theme` attribute, or the
 * saved theme, defaults to `light`; `toggleTheme` turns `light` into `dark` and any other
 * theme into `light`; `setTheme` shows a sun icon for the dark theme and a moon otherwise.
 * Reading and writing the attribute and the stored value are not modelled.
 */
module Theme {
  import opened Wrappers

  const Light: string := "light"
  const Dark: string := "dark"

  /** The icon `setTheme` puts in the toggle button. */
  datatype Icon = Sun | Moon

  /** `value || 'light'`: a missing or empty attribute counts as the light theme. */
  function Current(value: Option<string>): (t: string)
    ensures t == Light <==> value.None? || value.value == [] || value.value == Light
    ensures t != Light ==> value == Some(t)
  {
    match value
    case None => Light
    case Some(v) => if v == [] then Light else v
  }

  /** `toggleTheme`'s choice of the new theme. */
  function Toggled(current: string): (t: string)
    ensures t == Light || t == Dark
    ensures t == Dark <==> current == Light
  {
    if current == Light then Dark else Light
  }

  /** What `toggleTheme` sets, from the attribute it reads. */
  function Toggle(value: Option<string>): (t: string)
    ensures t == Light || t == Dark
    ensures t == Dark <==> value.None? || value.value == [] || value.value == Light
  {
    Toggled(Current(value))
  }

  /** `setTheme`'s icon. */
  function IconFor(theme: string): (i: Icon)
    ensures i == Sun <==> theme == Dark
  {
    if theme == Dark then Sun else Moon
  }

  /** On the two themes the script sets, toggling twice comes back to the start. */
  lemma ToggleInvolution(t: string)
    requires t == Light || t == Dark
    ensures Toggled(Toggled(t)) == t
  {
    assert Light != Dark;
  }

  /** After one toggle the themes alternate, whatever the page started with. */
  lemma ToggleAlternates(value: Option<string>)
    ensures var t := Toggle(value);
      && Toggle(Some(t)) != t
      && Toggle(Some(Toggle(Some(t)))) == t
  {
    var t := Toggle(value);
    assert Light != Dark;
    ToggleInvolution(t);
  }

  /**
   * From either theme the script sets, toggling flips the icon. A foreign stored theme
   * shows a moon and toggles to light, which shows a moon as well.
   */
  lemma ToggleFlipsIcon(value: Option<string>)
    requires Current(value) == Light || Current(value) == Dark
    ensures IconFor(Toggle(value)) == Sun <==> IconFor(Current(value)) == Moon
  {
    assert Light != Dark;
  }
}
