/**
 * app/routes/maintenance/users/deleteUser.tsx: visiting `/maintenance/users/<id>/delete`
 * deletes that user. The answer of `deleteUser` is an input; the result records which id,
 * if any, a delete request was sent for.
 */
module DeleteUser {
  import opened Wrappers
  import opened Types
  import Auth

  const DeletePermission := "prijzencheck.pages.maintenance.users.delete"

  /** `{ code, message, userId }` */
  datatype Report = Report(code: int, message: string, userId: string)

  /** What the loader returns, and the id a delete request went out for. */
  datatype Visit = Visit(outcome: RouteOutcome<Report>, deleted: Option<string>)

  /** `loader` */
  function Loader(req: Auth.Request, id: Option<string>, result: ServiceResult): (v: Visit)
    ensures Auth.RequirePermission(req, DeletePermission, None).Denied? ==>
      v == Visit(Redirect(Auth.RequirePermission(req, DeletePermission, None).location), None)
    ensures v.deleted.Some? <==>
      Auth.RequirePermission(req, DeletePermission, None).Granted? && Truthy(id)
      && id.value != Auth.RequirePermission(req, DeletePermission, None).user.id
    ensures v.deleted.Some? ==> v.deleted == id
    ensures Auth.RequirePermission(req, DeletePermission, None).Granted? && !Truthy(id) ==>
      v.outcome == Redirect("/maintenance/users")
    ensures v.deleted.Some? ==>
      v.outcome == (if result.code == 204 then Redirect("/maintenance/users") else Data(Report(result.code, result.message, id.value)))
  {
    match Auth.RequirePermission(req, DeletePermission, None)
    case Denied(location) => Visit(Redirect(location), None)
    case Granted(loggedIn) =>
      if !Truthy(id) then Visit(Redirect("/maintenance/users"), None)
      else if id.value == loggedIn.id then
        Visit(Data(Report(400, "You cannot delete your own user account.", id.value)), None)
      else if result.code == 204 then Visit(Redirect("/maintenance/users"), Some(id.value))
      else Visit(Data(Report(result.code, result.message, id.value)), Some(id.value))
  }

  /** Nobody can delete their own account this way, whatever the backend would answer. */
  lemma NoSelfDelete(req: Auth.Request, result: ServiceResult)
    requires req.sessionUser.Some? && Auth.HasPermission(req.userPermissions, DeletePermission)
    requires req.sessionUser.value.id != []
    ensures var v := Loader(req, Some(req.sessionUser.value.id), result);
      v.deleted.None? && v.outcome == Data(Report(400, "You cannot delete your own user account.", req.sessionUser.value.id))
  {
  }
}
