/**
 * app/routes/maintenance/users/newUser.tsx: the page that creates a user. The loader is a
 * permission gate in front of the role list; the action hands the form to `createUser`,
 * whose answer is an input. The chosen roles are a `Selection.PickList` and the feedback a
 * `Feedback.FeedbackList`.
 */
module NewUser {
  import opened Wrappers
  import opened Types
  import Auth
  import Feedback
  import Selection
  import Seqs

  const CreatePermission := "prijzencheck.pages.maintenance.users.create"

  /** `loader`: the gate, then the existing roles. */
  function Loader(req: Auth.Request, roles: seq<UserRole>): (r: RouteOutcome<seq<UserRole>>)
    ensures r.Data? <==> Auth.RequirePermission(req, CreatePermission, None).Granted?
    ensures r.Data? ==> r.value == roles
    ensures r.Redirect? <==> !r.Data?
    ensures r.Redirect? ==> r.location == Auth.RequirePermission(req, CreatePermission, None).location
  {
    match Auth.RequirePermission(req, CreatePermission, None)
    case Denied(location) => Redirect(location)
    case Granted(_) => Data(roles)
  }

  /**
   * `action` as written: a created user (201) redirects to the users list; any other result
   * is handed back under the name "updateUserSettings"; another `_action` is refused.
   */
  function Action(form: Form, created: ServiceResult): (r: RouteOutcome<ActionData>)
    ensures FormGet(form, "_action") == Some("createUser") && created.code == 201 ==> r == Redirect("/maintenance/users")
    ensures FormGet(form, "_action") == Some("createUser") && created.code != 201 ==>
      r == Data(ActionData(created.code, Some(created.message), Some("updateUserSettings"), created.fields))
    ensures FormGet(form, "_action") != Some("createUser") ==>
      r == Data(ActionData(400, Some("Invalid action."), Some("createUser"), None))
  {
    if FormGet(form, "_action") == Some("createUser") then
      if created.code == 201 then Redirect("/maintenance/users")
      else Data(ActionData(created.code, Some(created.message), Some("updateUserSettings"), created.fields))
    else Data(ActionData(400, Some("Invalid action."), Some("createUser"), None))
  }

  /**
   * A failed creation without field errors is never shown: the page shows the result line
   * only for entries named "createUser".
   */
  lemma FailedCreateIsNotShown(form: Form, created: ServiceResult)
    requires FormGet(form, "_action") == Some("createUser")
    requires created.code != 201 && created.fields.None?
    ensures Action(form, created).Data?
    ensures Feedback.ResultMessage([Feedback.FromAction(Action(form, created).value)], "createUser") == None
  {
    Feedback.ActionResultShown(Action(form, created).value, "createUser");
  }

  /**
   * `action` with the failed result named after the form that sent it: the same outcome as
   * the action as written, except for the name a failed creation is handed back under.
   */
  function IntendedAction(form: Form, created: ServiceResult): (r: RouteOutcome<ActionData>)
    ensures FormGet(form, "_action") == Some("createUser") && created.code == 201 ==> r == Redirect("/maintenance/users")
    ensures FormGet(form, "_action") == Some("createUser") && created.code != 201 ==>
      r == Data(ActionData(created.code, Some(created.message), Some("createUser"), created.fields))
    ensures FormGet(form, "_action") != Some("createUser") ==>
      r == Data(ActionData(400, Some("Invalid action."), Some("createUser"), None))
    ensures r.Data? ==> r.value.action == Some("createUser")
    ensures r.Redirect? <==> Action(form, created).Redirect?
    ensures r.Data? ==> Action(form, created).Data? && r.value == Action(form, created).value.(action := Some("createUser"))
  {
    if FormGet(form, "_action") == Some("createUser") then
      if created.code == 201 then Redirect("/maintenance/users")
      else Data(ActionData(created.code, Some(created.message), Some("createUser"), created.fields))
    else Data(ActionData(400, Some("Invalid action."), Some("createUser"), None))
  }

  /** With the intended name every failure without field errors reaches the result line. */
  lemma IntendedFailedCreateIsShown(form: Form, created: ServiceResult)
    requires FormGet(form, "_action") == Some("createUser")
    requires created.code != 201 && created.fields.None?
    ensures IntendedAction(form, created).Data?
    ensures Feedback.ResultMessage([Feedback.FromAction(IntendedAction(form, created).value)], "createUser")
         == Some(created.message)
  {
    Feedback.ActionResultShown(IntendedAction(form, created).value, "createUser");
  }

  function RoleName(role: UserRole): string {
    role.name
  }

  /** The roles the dropdown offers: those not chosen yet, in the loader's order. */
  function OfferedRoles(existing: seq<UserRole>, chosen: seq<string>): (offered: seq<UserRole>)
    ensures Seqs.IsSublist(offered, existing)
    ensures forall r :: r in offered <==> r in existing && r.name !in chosen
  {
    Selection.Offered(existing, RoleName, chosen)
  }
}
