/**
 * app/routes/layouts/maintenance.tsx: the maintenance section's loader. It requires the
 * maintenance permission, refreshes the user's permissions from the backend (an input
 * here), and keeps the navigation items the user may see.
 */
module MaintenanceLayout {
  import opened Wrappers
  import opened Types
  import Seqs
  import Auth

  datatype NavItem = NavItem(name: string, permission: string, href: string)

  const MaintenancePermission := "prijzencheck.pages.maintenance"

  const NavItems := [
    NavItem("Statistics", "prijzencheck.pages.maintenance.statistics", "/maintenance"),
    NavItem("Products", "prijzencheck.pages.maintenance.products", "/maintenance/products"),
    NavItem("Users", "prijzencheck.pages.maintenance.users", "/maintenance/users"),
    NavItem("Roles", "prijzencheck.pages.maintenance.roles", "/maintenance/roles")
  ]

  /** An item without a permission is always shown; one with a permission only to holders of it. */
  predicate MayShow(item: NavItem, perms: Option<seq<RolePermission>>) {
    item.permission == [] || (perms.Some? && Auth.HasPermission(perms.value, item.permission))
  }

  /** The `navItems.filter(...)` of the loader, for any item list. */
  function Visible(items: seq<NavItem>, perms: Option<seq<RolePermission>>): (nav: seq<NavItem>)
    ensures Seqs.IsSublist(nav, items)
    ensures forall item :: item in nav <==> item in items && MayShow(item, perms)
  {
    Seqs.Filter(items, item => MayShow(item, perms))
  }

  /** Without a permission list every permissioned item disappears, and the fixed items all have one. */
  lemma NoPermissionsNoNavigation()
    ensures Visible(NavItems, None) == []
  {
    Seqs.FilterNone(NavItems, item => MayShow(item, None));
  }

  /** An item without a permission is shown to everyone, whatever their permissions. */
  lemma UnprotectedItemShown(items: seq<NavItem>, item: NavItem, perms: Option<seq<RolePermission>>)
    requires item in items && item.permission == []
    ensures item in Visible(items, perms)
  {
  }

  /** A user holding all four section permissions sees the whole menu, in order. */
  lemma FullPermissionsFullMenu(perms: seq<RolePermission>)
    requires forall item :: item in NavItems ==> Auth.HasPermission(perms, item.permission)
    ensures Visible(NavItems, Some(perms)) == NavItems
  {
    Seqs.FilterAll(NavItems, item => MayShow(item, Some(perms)));
  }

  /**
   * The loader: a denied gate becomes its redirect; a granted one yields the navigation
   * built from the refreshed permissions.
   */
  function Loader(req: Auth.Request, refreshed: Option<seq<RolePermission>>): (r: RouteOutcome<seq<NavItem>>)
    ensures r.Data? <==> Auth.RequirePermission(req, MaintenancePermission, None).Granted?
    ensures r.Data? ==> r.value == Visible(NavItems, refreshed)
    ensures r.Redirect? ==> r.location == Auth.RequirePermission(req, MaintenancePermission, None).location
    ensures !r.ThrowStatus?
  {
    match Auth.RequirePermission(req, MaintenancePermission, None)
    case Denied(location) => Redirect(location)
    case Granted(_) => Data(Visible(NavItems, refreshed))
  }
}
