/**
 * app/routes/maintenance/roles/deleteRole.tsx: visiting `/maintenance/roles/<id>/delete`
 * deletes that role through `deleteRole`, whose backend answer is an input.
 */
module DeleteRole {
  import opened Wrappers
  import opened Types
  import Auth
  import RolesService

  const DeletePermission := "prijzencheck.pages.maintenance.roles.delete"

  /** `{ code, message, roleId }` */
  datatype Report = Report(code: int, message: string, roleId: string)

  /** What the loader returns, and the id a delete request went out for. */
  datatype Visit = Visit(outcome: RouteOutcome<Report>, deleted: Option<string>)

  /** `loader` */
  function Loader(req: Auth.Request, id: Option<string>, response: Response<()>): (v: Visit)
    ensures Auth.RequirePermission(req, DeletePermission, None).Denied? ==>
      v == Visit(Redirect(Auth.RequirePermission(req, DeletePermission, None).location), None)
    ensures v.deleted.Some? <==> Auth.RequirePermission(req, DeletePermission, None).Granted? && Truthy(id)
    ensures v.deleted.Some? ==> v.deleted == id
    ensures v.deleted.None? && Auth.RequirePermission(req, DeletePermission, None).Granted? ==>
      v.outcome == Redirect("/maintenance/roles")
    ensures v.deleted.Some? ==>
      var result := RolesService.DeleteRole(response);
      v.outcome == (if result.code == 204 then Redirect("/maintenance/roles") else Data(Report(result.code, result.message, id.value)))
  {
    match Auth.RequirePermission(req, DeletePermission, None)
    case Denied(location) => Visit(Redirect(location), None)
    case Granted(_) =>
      if !Truthy(id) then Visit(Redirect("/maintenance/roles"), None)
      else
        var result := RolesService.DeleteRole(response);
        if result.code == 204 then Visit(Redirect("/maintenance/roles"), Some(id.value))
        else Visit(Data(Report(result.code, result.message, id.value)), Some(id.value))
  }

  /**
   * A permitted visit with an id ends on the roles list exactly when the backend accepts the
   * delete (a backend that answers a failure with 204 aside); otherwise the page reports why.
   */
  lemma DeleteOutcome(req: Auth.Request, id: string, response: Response<()>)
    requires req.sessionUser.Some? && Auth.HasPermission(req.userPermissions, DeletePermission) && id != []
    requires response.HttpError? ==> response.status != 204
    ensures Loader(req, Some(id), response).deleted == Some(id)
    ensures Loader(req, Some(id), response).outcome.Redirect? <==> response.Ok?
    ensures response.Thrown? ==> Loader(req, Some(id), response).outcome == Data(Report(500, "Internal server error", id))
  {
  }
}
