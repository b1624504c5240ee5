/**
 * app/routes/maintenance/roles/roleDetails.tsx: the page that edits a role. The backend's
 * roles (by id) are a map and the answer to `updateRole` is an input. The page keeps the
 * chosen permission names in a state array, which rendering sorts in place before the
 * hidden `_permissions` field joins them.
 */
module RoleDetails {
  import opened Wrappers
  import opened Types
  import Strings
  import Auth
  import RolesService
  import Selection
  import Sorting
  import Feedback

  const ViewPermission := "prijzencheck.pages.maintenance.roles"

  /** What the loader hands to the page: the role (null when unknown) and every permission. */
  datatype Page = Page(role: Option<UserRole>, permissions: seq<RolePermission>)

  /**
   * `loader`. Its `if (!user)` guard never fires: a granted gate always holds a user, so the
   * loader never throws 401. An unknown role is handed to the page as null.
   */
  function Loader(req: Auth.Request, id: string, roles: map<string, UserRole>, permissions: seq<RolePermission>): (r: RouteOutcome<Page>)
    ensures r.Data? <==> Auth.RequirePermission(req, ViewPermission, None).Granted?
    ensures r.Data? ==> r.value == Page(if id in roles then Some(roles[id]) else None, permissions)
    ensures !r.Data? ==> r == Redirect(Auth.RequirePermission(req, ViewPermission, None).location)
    ensures !r.ThrowStatus?
  {
    match Auth.RequirePermission(req, ViewPermission, None)
    case Denied(location) => Redirect(location)
    case Granted(_) => Data(Page(if id in roles then Some(roles[id]) else None, permissions))
  }

  /** The last segment of the request's path. */
  function RoleId(pathname: string): (id: string)
    ensures '/' !in id
  {
    Strings.LastPiece(pathname, '/')
  }

  /** The stored permission names joined with commas; absent when the role has no list. */
  function StoredPermissions(role: UserRole): (joined: Option<string>)
    ensures joined.Some? <==> role.permissions.Some?
    ensures joined.Some? ==> joined.value == Selection.Submitted(PermissionNames(role.permissions.value))
  {
    if role.permissions.Some? then Some(Selection.Submitted(PermissionNames(role.permissions.value))) else None
  }

  /**
   * The no-change test as written: same name, same description (a role without one never
   * matches), and `_permissions` equal to the stored names joined in stored order.
   */
  predicate NoChanges(role: UserRole, form: Form) {
    FormGet(form, "name") == Some(role.name)
    && role.description.Some? && FormGet(form, "description") == role.description
    && StoredPermissions(role).Some? && FormGet(form, "_permissions") == StoredPermissions(role)
  }

  const NoChangesDetected := ActionData(400, Some("No changes detected."), Some("updateRole"), None)

  /** `action`: every answer is named "updateRole". */
  function Action(pathname: string, form: Form, roles: map<string, UserRole>, response: Response<()>): (r: ActionData)
    ensures r.action == Some("updateRole")
    ensures RoleId(pathname) == [] ==> r == ActionData(400, Some("Role ID is required."), Some("updateRole"), None)
    ensures RoleId(pathname) != [] && RoleId(pathname) !in roles ==>
      r == ActionData(404, Some("Role not found."), Some("updateRole"), None)
    ensures RoleId(pathname) != [] && RoleId(pathname) in roles && FormGet(form, "_action") == Some("updateRole") ==>
      r == (if NoChanges(roles[RoleId(pathname)], form) then NoChangesDetected
            else Tagged(RolesService.UpdateRole(form, response).result, "updateRole"))
    ensures RoleId(pathname) != [] && RoleId(pathname) in roles && FormGet(form, "_action") != Some("updateRole") ==>
      r == ActionData(400, Some("Invalid action."), Some("updateRole"), None)
  {
    var roleId := RoleId(pathname);
    if roleId == [] then ActionData(400, Some("Role ID is required."), Some("updateRole"), None)
    else if roleId !in roles then ActionData(404, Some("Role not found."), Some("updateRole"), None)
    else if FormGet(form, "_action") == Some("updateRole") then
      if NoChanges(roles[roleId], form) then NoChangesDetected
      else Tagged(RolesService.UpdateRole(form, response).result, "updateRole")
    else ActionData(400, Some("Invalid action."), Some("updateRole"), None)
  }

  /** An accepted update is answered with 200 and the result line turns green. */
  lemma AcceptedUpdateIsGreen(pathname: string, form: Form, roles: map<string, UserRole>)
    requires RoleId(pathname) != [] && RoleId(pathname) in roles && FormGet(form, "_action") == Some("updateRole")
    requires !NoChanges(roles[RoleId(pathname)], form) && !RolesService.NameMissing(FormGet(form, "name"))
    ensures Action(pathname, form, roles, Ok(())).code == 200
    ensures Green([Feedback.FromAction(Action(pathname, form, roles, Ok(())))])
  {
    assert [Feedback.FromAction(Action(pathname, form, roles, Ok(())))][0].code == Some(200);
  }

  /** Some entry carries code 200: the result line is green. */
  predicate Green(entries: seq<Feedback.Entry>) {
    exists i :: 0 <= i < |entries| && entries[i].code == Some(200)
  }

  /** The permissions the page starts with: the role's names when it has any. */
  function InitialPermissions(role: UserRole): (names: seq<string>)
    ensures role.permissions.Some? && role.permissions.value != [] ==> names == PermissionNames(role.permissions.value)
    ensures role.permissions.None? || role.permissions.value == [] ==> names == []
  {
    if role.permissions.Some? && |role.permissions.value| > 0 then PermissionNames(role.permissions.value) else []
  }

  /** The dropdown: the permissions not chosen yet, by name. */
  function OfferedNames(existing: seq<RolePermission>, chosen: seq<string>): (names: seq<string>)
    ensures Sorting.Sorted(names)
    ensures multiset(names) == multiset(PermissionNames(Selection.Offered(existing, PermissionName, chosen)))
    ensures forall n :: n in names <==> (exists i :: 0 <= i < |existing| && existing[i].name == n) && n !in chosen
  {
    var offered := PermissionNames(Selection.Offered(existing, PermissionName, chosen));
    var names := Sorting.SortedSeq(offered);
    OfferedMembers(existing, chosen);
    assert forall n :: n in names <==> n in multiset(offered);
    assert forall n :: n in names <==> n in offered;
    names
  }

  /** The names of the offered permissions: exactly the existing names not chosen. */
  lemma OfferedMembers(existing: seq<RolePermission>, chosen: seq<string>)
    ensures var offered := PermissionNames(Selection.Offered(existing, PermissionName, chosen));
      forall n :: n in offered <==> (exists i :: 0 <= i < |existing| && existing[i].name == n) && n !in chosen
  {
    var o := Selection.Offered(existing, PermissionName, chosen);
    var offered := PermissionNames(o);
    forall n
      ensures n in offered <==> (exists i :: 0 <= i < |existing| && existing[i].name == n) && n !in chosen
    {
      if n in offered {
        var k :| 0 <= k < |offered| && offered[k] == n;
        assert o[k] in o;
        var i :| 0 <= i < |existing| && existing[i] == o[k];
      }
      if (exists i :: 0 <= i < |existing| && existing[i].name == n) && n !in chosen {
        var i :| 0 <= i < |existing| && existing[i].name == n;
        assert existing[i] in o;
        var k :| 0 <= k < |o| && o[k] == existing[i];
        assert offered[k] == n;
      }
    }
  }

  function PermissionName(p: RolePermission): string {
    p.name
  }

  /** The `permissions` state array. */
  class PermissionEditor {
    var permissions: array<string>

    /** The empty initial state, then the effect that loads the role's names. */
    constructor (role: UserRole)
      ensures permissions[..] == InitialPermissions(role)
    {
      var names := InitialPermissions(role);
      permissions := new string[|names|](i requires 0 <= i < |names| => names[i]);
    }

    /** The dropdown's `onChange`: a new array with the name appended, if it is new and non-empty. */
    method Add(name: string)
      modifies this
      ensures permissions[..] == Selection.Added(old(permissions[..]), name)
    {
      var current := permissions[..];
      if name != [] && name !in current {
        var next := current + [name];
        permissions := new string[|next|](i requires 0 <= i < |next| => next[i]);
      }
    }

    /** The cross next to a name: a new array without it. */
    method Remove(name: string)
      modifies this
      ensures permissions[..] == Selection.Removed(old(permissions[..]), name)
    {
      var next := Selection.Removed(permissions[..], name);
      permissions := new string[|next|](i requires 0 <= i < |next| => next[i]);
    }

    /** Rendering sorts the state array in place, then fills the hidden `_permissions` field. */
    method Render() returns (hidden: string)
      modifies permissions
      ensures permissions[..] == Sorting.SortedSeq(old(permissions[..]))
      ensures hidden == Selection.Submitted(permissions[..])
    {
      Sorting.Sort(permissions);
      hidden := Selection.Submitted(permissions[..]);
    }
  }

  /** Names that survive the comma join and split. */
  predicate CommaFree(names: seq<string>) {
    forall i :: 0 <= i < |names| ==> ',' !in names[i]
  }

  /**
   * Submitting a role whose stored permission names are out of order without touching
   * anything is never recognised as unchanged: the page sends the sorted names, the test
   * compares with the stored order, and an update request is made.
   */
  lemma UnsortedRoleIsNeverUnchanged(role: UserRole, form: Form)
    requires role.permissions.Some?
    requires CommaFree(PermissionNames(role.permissions.value))
    requires !Sorting.Sorted(PermissionNames(role.permissions.value))
    requires FormGet(form, "_permissions") == Some(Selection.Submitted(Sorting.SortedSeq(PermissionNames(role.permissions.value))))
    ensures !NoChanges(role, form)
  {
    var names := PermissionNames(role.permissions.value);
    var sorted := Sorting.SortedSeq(names);
    if Selection.Submitted(sorted) == Selection.Submitted(names) {
      assert names != [];
      assert names[0] in multiset(sorted);
      assert CommaFree(sorted) by {
        forall i | 0 <= i < |sorted| ensures ',' !in sorted[i] {
          assert sorted[i] in multiset(names);
        }
      }
      Strings.SplitJoin(names, ',');
      Strings.SplitJoin(sorted, ',');
      assert false;
    }
  }

  /** The no-change test comparing with the names in the order the page submits them. */
  predicate IntendedNoChanges(role: UserRole, form: Form) {
    FormGet(form, "name") == Some(role.name)
    && role.description.Some? && FormGet(form, "description") == role.description
    && role.permissions.Some?
    && FormGet(form, "_permissions") == Some(Selection.Submitted(Sorting.SortedSeq(PermissionNames(role.permissions.value))))
  }

  /**
   * With the intended test an untouched form is recognised whatever the stored order: the
   * page's names are some reordering of the stored ones, and it submits them sorted.
   */
  lemma IntendedDetectsUntouchedForm(role: UserRole, form: Form, shown: seq<string>)
    requires role.permissions.Some? && role.description.Some?
    requires multiset(shown) == multiset(PermissionNames(role.permissions.value))
    requires form == map["name" := role.name, "description" := role.description.value,
                         "_permissions" := Selection.Submitted(Sorting.SortedSeq(shown))]
    ensures IntendedNoChanges(role, form)
  {
    var names := PermissionNames(role.permissions.value);
    Sorting.SortedUnique(Sorting.SortedSeq(shown), Sorting.SortedSeq(names));
  }

  /** For a role stored in sorted order both tests agree. */
  lemma IntendedAgreesOnSortedRoles(role: UserRole, form: Form)
    requires role.permissions.Some? && Sorting.Sorted(PermissionNames(role.permissions.value))
    ensures IntendedNoChanges(role, form) == NoChanges(role, form)
  {
    var names := PermissionNames(role.permissions.value);
    Sorting.SortedUnique(Sorting.SortedSeq(names), names);
  }
}
