/** The navigation bar: the light/dark theme switch, which persists the choice
    in local storage and mirrors it in the `dark` class of the document, the
    highlighted link of the current page, and the mobile menu. */
module Navbar {
  import opened Wrappers

  /** The paths of the navigation links, in display order. */
  const NavPaths: seq<string> :=
    ["/", "/events", "/locations", "/education", "/data", "/get-involved", "/about"]

  /** `savedTheme || (prefersDark ? "dark" : "light")`: a stored non-empty
      value wins, whatever it is; otherwise the system preference decides. */
  function InitialTheme(saved: Option<string>, prefersDark: bool): (theme: string)
    ensures theme != ""
    ensures saved.Some? && saved.value != "" ==> theme == saved.value
    ensures (saved.None? || saved.value == "") ==> theme == (if prefersDark then "dark" else "light")
  {
    if saved.Some? && saved.value != "" then saved.value
    else if prefersDark then "dark" else "light"
  }

  /** `theme === "light" ? "dark" : "light"`. */
  function Toggled(theme: string): (next: string)
    ensures next == "dark" || next == "light"
    ensures next == "dark" <==> theme == "light"
  {
    if theme == "light" then "dark" else "light"
  }

  /** Toggling twice from light or dark comes back; from any other stored
      value the first toggle gives light and the second dark. */
  lemma ToggleTwice(theme: string)
    ensures theme == "light" || theme == "dark" ==> Toggled(Toggled(theme)) == theme
    ensures theme != "light" && theme != "dark" ==> Toggled(Toggled(theme)) == "dark"
  {
  }

  class NavbarState {
    /** `location.pathname`. */
    var pathname: string
    /** The mobile menu. */
    var isOpen: bool
    var theme: string
    /** `localStorage["wormi-theme"]`. */
    var storedTheme: Option<string>
    /** Whether the document element carries the `dark` class. */
    var darkClass: bool

    /** The class of the document follows the theme. */
    predicate Consistent()
      reads this
    {
      darkClass <==> theme == "dark"
    }

    /** `location.pathname === path`. */
    predicate IsActive(path: string)
      reads this
    {
      pathname == path
    }

    /** The first render: menu closed, theme "light"; storage and the
        document class are whatever the browser holds. */
    constructor (pathname: string, storedTheme: Option<string>, darkClass: bool)
      ensures this.pathname == pathname && this.storedTheme == storedTheme
      ensures this.darkClass == darkClass
      ensures !isOpen && theme == "light"
    {
      this.pathname := pathname;
      this.storedTheme := storedTheme;
      this.darkClass := darkClass;
      isOpen := false;
      theme := "light";
    }

    /** The mount effect: the theme from storage or the system preference,
        mirrored in the document class. Storage is only read. */
    method ApplyInitialTheme(prefersDark: bool)
      modifies this
      ensures theme == InitialTheme(old(storedTheme), prefersDark)
      ensures Consistent()
      ensures storedTheme == old(storedTheme) && pathname == old(pathname) && isOpen == old(isOpen)
    {
      theme := InitialTheme(storedTheme, prefersDark);
      darkClass := theme == "dark";
    }

    /** `toggleTheme`: flips the theme, stores it and mirrors it. */
    method ToggleTheme()
      modifies this
      ensures theme == Toggled(old(theme))
      ensures storedTheme == Some(theme)
      ensures Consistent()
      ensures pathname == old(pathname) && isOpen == old(isOpen)
    {
      var next := Toggled(theme);
      theme := next;
      storedTheme := Some(next);
      darkClass := next == "dark";
    }

    /** The menu button. */
    method ToggleMenu()
      modifies this
      ensures isOpen == !old(isOpen)
      ensures pathname == old(pathname) && theme == old(theme)
      ensures storedTheme == old(storedTheme) && darkClass == old(darkClass)
    {
      isOpen := !isOpen;
    }

    /** A click on a mobile link. */
    method CloseMenu()
      modifies this
      ensures !isOpen
      ensures pathname == old(pathname) && theme == old(theme)
      ensures storedTheme == old(storedTheme) && darkClass == old(darkClass)
    {
      isOpen := false;
    }
  }

  /** The links are distinct, so at most one of them is highlighted. */
  lemma AtMostOneActive(nav: NavbarState)
    ensures forall i, j :: 0 <= i < j < |NavPaths| && nav.IsActive(NavPaths[i]) ==> !nav.IsActive(NavPaths[j])
  {
    forall i, j | 0 <= i < j < |NavPaths| ensures NavPaths[i] != NavPaths[j] {
      assert |NavPaths[i]| != |NavPaths[j]| || NavPaths[i][1] != NavPaths[j][1] || NavPaths[i][2] != NavPaths[j][2];
    }
  }
}
