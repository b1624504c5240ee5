/**
 * app/components/NavBar.tsx: the top navigation. The menus are derived from the user the
 * root loader (app/root.tsx) provides; the colour theme is component state mirrored into the document's
 * `dark` class and into local storage, both modelled as fields.
 */
module NavBar {
  import opened Wrappers
  import opened Types
  import Auth
  import MaintenanceLayout
  import Session

  /** A menu entry: its label and its target. */
  datatype Link = Link(name: string, href: string)

  const Home := Link("Home", "/")
  const Products := Link("Products", "/products")
  const Maintenance := Link("Maintenance", "/maintenance")

  /** The permission list holds the permission that opens the maintenance section. */
  predicate MayMaintain(permissions: Option<seq<RolePermission>>) {
    permissions.Some? && Auth.HasPermission(permissions.value, MaintenanceLayout.MaintenancePermission)
  }

  /** `navigation` for a user with the given `permissions` field: Home and Products, then Maintenance if allowed. */
  function Navigation(permissions: Option<seq<RolePermission>>): (nav: seq<Link>)
    ensures |nav| >= 2 && nav[0] == Home && nav[1] == Products
    ensures Maintenance in nav <==> MayMaintain(permissions)
    ensures |nav| == (if MayMaintain(permissions) then 3 else 2)
  {
    [Home, Products] + (if MayMaintain(permissions) then [Maintenance] else [])
  }

  /** `userNavigation`: the account menu of a logged-in user, or the way to log in. */
  function UserNavigation(user: Option<SessionUser>): (menu: seq<Link>)
    ensures user.Some? ==> menu == [Link("Settings", "/settings"), Link("Sign out", "/logout")]
    ensures user.None? ==> menu == [Link("Sign in", "/login")]
  {
    if user.Some? then [Link("Settings", "/settings"), Link("Sign out", "/logout")]
    else [Link("Sign in", "/login")]
  }

  /**
   * The menu as the root loader feeds it: its user comes from `requireAuth`, that is from the
   * session, and a session user has no `permissions` field, so Maintenance is never listed.
   */
  function RootNavigation(user: Option<SessionUser>): (nav: seq<Link>)
    ensures nav == [Home, Products]
    ensures Maintenance !in nav
  {
    Navigation(None)
  }

  /**
   * As written, a user who logs in holding the maintenance permission is let into the
   * maintenance section by its gate but never offered the link to it.
   */
  lemma MaintenanceNeverListed(data: map<string, string>, user: User, pathname: string, refreshed: Option<seq<RolePermission>>)
    requires user.id != [] && user.permissions.Some?
    requires Auth.HasPermission(user.permissions.value, MaintenanceLayout.MaintenancePermission)
    ensures Maintenance !in RootNavigation(Session.GetUserFromSession(Session.WithUser(data, user)))
    ensures MaintenanceLayout.Loader(
              Auth.Request(Session.GetUserFromSession(Session.WithUser(data, user)), pathname, user.permissions.value),
              refreshed).Data?
  {
    Session.LoginRoundTrip(data, user);
  }

  /** The menu with the user's permission list fetched, as the maintenance layout does. */
  function IntendedNavigation(user: Option<SessionUser>, permissions: seq<RolePermission>): (nav: seq<Link>)
    ensures Maintenance in nav <==> user.Some? && Auth.HasPermission(permissions, MaintenanceLayout.MaintenancePermission)
    ensures |nav| >= 2 && nav[0] == Home && nav[1] == Products
  {
    if user.Some? then Navigation(Some(permissions)) else Navigation(None)
  }

  /** With the permissions fetched, the Maintenance link is shown exactly to the users its gate lets in. */
  lemma IntendedLinkMatchesGate(req: Auth.Request, refreshed: Option<seq<RolePermission>>)
    ensures Maintenance in IntendedNavigation(req.sessionUser, req.userPermissions)
        <==> MaintenanceLayout.Loader(req, refreshed).Data?
  {
  }

  /** The theme after the toggle button: "light" becomes "dark", anything else "light". */
  function Toggled(theme: string): (next: string)
    ensures next == "dark" <==> theme == "light"
    ensures next == "light" || next == "dark"
  {
    if theme == "light" then "dark" else "light"
  }

  /** Toggling twice restores a light or dark theme, and any theme after one toggle. */
  lemma ToggleTwice(theme: string)
    ensures theme == "light" || theme == "dark" ==> Toggled(Toggled(theme)) == theme
    ensures Toggled(Toggled(Toggled(theme))) == Toggled(theme)
  {
  }

  /** The theme the mount effect applies: the stored one, or "light" when none is stored. */
  function InitialTheme(stored: Option<string>): (theme: string)
    ensures Truthy(stored) ==> theme == stored.value
    ensures !Truthy(stored) ==> theme == "light"
  {
    OrElse(stored, "light")
  }

  /** A toggled theme is stored, so the next page load starts with it. */
  lemma ReloadKeepsToggledTheme(theme: string)
    ensures InitialTheme(Some(Toggled(theme))) == Toggled(theme)
  {
  }

  /** The theme state, the document's `dark` class and the stored `theme` item. */
  class Theme {
    var theme: string
    var darkClass: bool
    var stored: Option<string>

    /** The document shows dark exactly when the theme is "dark". */
    predicate Valid()
      reads this
    {
      darkClass == (theme == "dark")
    }

    /** Mounting: the state starts "light", then the effect applies the stored theme. */
    constructor (storage: Option<string>)
      ensures Valid()
      ensures theme == InitialTheme(storage) && stored == storage
    {
      theme := "light";
      stored := storage;
      var storedTheme := OrElse(storage, "light");
      theme := storedTheme;
      darkClass := storedTheme == "dark";
    }

    /** `toggleTheme`: flip the theme, the document class and the stored item together. */
    method Toggle()
      modifies this
      ensures Valid()
      ensures theme == Toggled(old(theme)) && stored == Some(theme)
    {
      var newTheme := if theme == "light" then "dark" else "light";
      theme := newTheme;
      darkClass := newTheme == "dark";
      stored := Some(newTheme);
    }
  }
}
