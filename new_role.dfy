/**
 * app/routes/maintenance/roles/newRole.tsx: the page that creates a role. The loader is a
 * permission gate in front of the permission list; the action hands the form to
 * `createRole`, whose backend answer is an input. The chosen permissions are a
 * `Selection.PickList` submitted as the hidden `_permissions` field.
 */
module NewRole {
  import opened Wrappers
  import opened Types
  import Auth
  import RolesService
  import Selection
  import Seqs
  import Feedback
  import Strings

  const CreatePermission := "prijzencheck.pages.maintenance.roles.create"

  /** `loader`. As on the role details page, its 401 guard never fires. */
  function Loader(req: Auth.Request, permissions: seq<RolePermission>): (r: RouteOutcome<seq<RolePermission>>)
    ensures r.Data? <==> Auth.RequirePermission(req, CreatePermission, None).Granted?
    ensures r.Data? ==> r.value == permissions
    ensures !r.Data? ==> r == Redirect(Auth.RequirePermission(req, CreatePermission, None).location)
    ensures !r.ThrowStatus?
  {
    match Auth.RequirePermission(req, CreatePermission, None)
    case Denied(location) => Redirect(location)
    case Granted(_) => Data(permissions)
  }

  /** `action`: a created role (201) redirects to the roles list, anything else is reported. */
  function Action(form: Form, response: Response<()>): (r: RouteOutcome<ActionData>)
    ensures FormGet(form, "_action") == Some("createRole") ==>
      var result := RolesService.CreateRole(form, response).result;
      r == (if result.code == 201 then Redirect("/maintenance/roles") else Data(Tagged(result, "createRole")))
    ensures FormGet(form, "_action") != Some("createRole") ==>
      r == Data(ActionData(400, Some("Invalid action."), Some("createRole"), None))
  {
    if FormGet(form, "_action") == Some("createRole") then
      var result := RolesService.CreateRole(form, response).result;
      if result.code == 201 then Redirect("/maintenance/roles") else Data(Tagged(result, "createRole"))
    else Data(ActionData(400, Some("Invalid action."), Some("createRole"), None))
  }

  /** A named role the backend accepts leads back to the roles list. */
  lemma AcceptedRoleRedirects(form: Form)
    requires FormGet(form, "_action") == Some("createRole") && !RolesService.NameMissing(FormGet(form, "name"))
    ensures Action(form, Ok(())) == Redirect("/maintenance/roles")
  {
  }

  /** A missing name comes back as an error shown under the name field. */
  lemma MissingNameShownAtField(form: Form, response: Response<()>)
    requires FormGet(form, "_action") == Some("createRole") && RolesService.NameMissing(FormGet(form, "name"))
    ensures Action(form, response).Data?
    ensures Feedback.ShownMessage([Feedback.FromAction(Action(form, response).value)], "name")
         == Some("Role name is required")
  {
    var e := Feedback.FromAction(Action(form, response).value);
    assert Feedback.About(e, "name");
    assert Seqs.Filter([e], Feedback.AboutTarget("name")) == [e];
  }

  function PermissionName(p: RolePermission): string {
    p.name
  }

  /** The dropdown: the existing permissions not chosen yet, in the loader's order. */
  function OfferedPermissions(existing: seq<RolePermission>, chosen: seq<string>): (offered: seq<RolePermission>)
    ensures Seqs.IsSublist(offered, existing)
    ensures forall p :: p in offered <==> p in existing && p.name !in chosen
  {
    Selection.Offered(existing, PermissionName, chosen)
  }

  /**
   * The chosen permissions reach the backend as chosen: when no name holds a comma or edge
   * whitespace, the body `createRole` sends lists exactly the picked names, in order, and no
   * permission at all when none was picked.
   */
  lemma PickedPermissionsAreSent(form: Form, chosen: seq<string>, response: Response<()>)
    requires Selection.WellFormed(chosen)
    requires forall i :: 0 <= i < |chosen| ==> ',' !in chosen[i] && Strings.Untrimmed(chosen[i])
    requires "_permissions" in form && form["_permissions"] == Selection.Submitted(chosen)
    requires !RolesService.NameMissing(FormGet(form, "name"))
    ensures RolesService.CreateRole(form, response).request
         == Some(RolesService.CreateRoleJson(form["name"], RolesService.Description(FormGet(form, "description")), chosen))
  {
    assert forall i :: 0 <= i < |chosen| ==> chosen[i] != [] by {
      forall i | 0 <= i < |chosen| ensures chosen[i] != [] {
        assert chosen[i] in chosen;
      }
    }
    RolesService.JoinParseRoundTrip(chosen);
  }
}
