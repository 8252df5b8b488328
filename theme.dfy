/** The theme toggle (main.js:91-122): a `light`/`dark` preference read from
    storage at start, flipped by the toggle button, applied to the document and
    the button's icon, and written back to storage on every flip. */
module ThemeController {
  import opened Wrappers

  const Light: string := "light"
  const Dark: string := "dark"
  const SunIcon: string := "fas fa-sun"
  const MoonIcon: string := "fas fa-moon"

  /** `localStorage.getItem('theme') || 'light'` (main.js:94): a missing or
      empty entry gives `light`; any other stored string is kept as it is. */
  function InitialTheme(stored: Option<string>): (theme: string)
    ensures theme != ""
    ensures theme == Light || stored == Some(theme)
    ensures stored.Some? && stored.value != "" ==> theme == stored.value
  {
    if stored.Some? && stored.value != "" then stored.value else Light
  }

  /** The click handler's flip (main.js:106): `light` becomes `dark`, anything
      else becomes `light`. */
  function Toggled(theme: string): (t: string)
    ensures t == Light || t == Dark
    ensures t == Dark <==> theme == Light
  {
    if theme == Light then Dark else Light
  }

  /** The icon class `applyTheme` gives the toggle (main.js:116-120). */
  function IconFor(theme: string): (icon: string)
    ensures icon == SunIcon || icon == MoonIcon
    ensures icon == SunIcon <==> theme == Dark
  {
    if theme == Dark then SunIcon else MoonIcon
  }

  /** The theme after `n` clicks. */
  function ToggledTimes(theme: string, n: nat): string
  {
    if n == 0 then theme else Toggled(ToggledTimes(theme, n - 1))
  }

  /** Two clicks from `light` or `dark` give back the same theme. */
  lemma ToggleTwice(theme: string)
    requires theme == Light || theme == Dark
    ensures Toggled(Toggled(theme)) == theme
  {
  }

  /** After `n` clicks from `light` or `dark` the theme is the starting one
      when `n` is even and the other one when `n` is odd. */
  lemma {:induction false} ToggleParity(theme: string, n: nat)
    requires theme == Light || theme == Dark
    ensures ToggledTimes(theme, n) == if n % 2 == 0 then theme else Toggled(theme)
  {
    if n > 0 {
      ToggleParity(theme, n - 1);
    }
  }

  /** From any other stored value the first click gives `light`, and from then
      on the theme alternates starting from `light`. */
  lemma {:induction false} ToggleFromOther(theme: string, n: nat)
    requires theme != Light && theme != Dark && n >= 1
    ensures ToggledTimes(theme, n) == if n % 2 == 1 then Light else Dark
  {
    if n > 1 {
      ToggleFromOther(theme, n - 1);
    }
  }

  class ThemeToggle {
    var currentTheme: string
    /** The `theme` entry of local storage. */
    var storedTheme: Option<string>
    /** The document element's `data-theme` attribute. */
    var documentTheme: string
    /** The class of the toggle button's icon. */
    var iconClass: string

    /** The page shows the current theme. */
    ghost predicate Valid()
      reads this
    {
      documentTheme == currentTheme && iconClass == IconFor(currentTheme)
    }

    /** The constructor and `init` (main.js:92-102): the stored theme is read
        and applied, and storage is not written. */
    constructor (stored: Option<string>)
      ensures currentTheme == InitialTheme(stored) && storedTheme == stored
      ensures Valid()
    {
      currentTheme := InitialTheme(stored);
      storedTheme := stored;
      new;
      ApplyTheme(currentTheme);
    }

    /** `applyTheme` (main.js:112-121). */
    method ApplyTheme(theme: string)
      modifies this`documentTheme, this`iconClass
      ensures documentTheme == theme
      ensures iconClass == SunIcon <==> theme == Dark
      ensures iconClass == MoonIcon <==> theme != Dark
    {
      documentTheme := theme;
      if theme == Dark {
        iconClass := SunIcon;
      } else {
        iconClass := MoonIcon;
      }
    }

    /** The click handler (main.js:105-109): flip, apply, store; afterwards the
        stored value, the document and the icon all agree with the theme. */
    method Toggle()
      modifies this
      ensures currentTheme == Toggled(old(currentTheme))
      ensures storedTheme == Some(currentTheme)
      ensures Valid()
    {
      currentTheme := if currentTheme == Light then Dark else Light;
      ApplyTheme(currentTheme);
      storedTheme := Some(currentTheme);
    }
  }
}
