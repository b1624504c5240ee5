/**
 * app/routes/maintenance/users/userDetails.tsx: the loader and the action of a user's
 * maintenance page. The backend's users (by id) and statistics (by username) are maps,
 * and the answers of the two service calls the action can make are inputs.
 */
module UserDetails {
  import opened Wrappers
  import opened Types
  import Strings
  import Auth
  import UserService

  const ViewPermission := "prijzencheck.pages.maintenance.users"

  /** What the loader hands to the page. */
  datatype Page = Page(user: User, stats: Statistics)

  /** `loader`: the permission gate, then a thrown 404 for a missing user or missing statistics. */
  function Loader(req: Auth.Request, id: string, users: map<string, User>, stats: map<string, Statistics>): (r: RouteOutcome<Page>)
    ensures Auth.RequirePermission(req, ViewPermission, None).Denied? ==>
      r == Redirect(Auth.RequirePermission(req, ViewPermission, None).location)
    ensures Auth.RequirePermission(req, ViewPermission, None).Granted? && id !in users ==>
      r == ThrowStatus(404, "User not found")
    ensures Auth.RequirePermission(req, ViewPermission, None).Granted? && id in users && users[id].username !in stats ==>
      r == ThrowStatus(404, "Statistics not found")
    ensures Auth.RequirePermission(req, ViewPermission, None).Granted? && id in users && users[id].username in stats ==>
      r == Data(Page(users[id], stats[users[id].username]))
    ensures r.Data? ==> id in users && users[id].username in stats && r.value == Page(users[id], stats[users[id].username])
  {
    match Auth.RequirePermission(req, ViewPermission, None)
    case Denied(location) => Redirect(location)
    case Granted(_) =>
      if id !in users then ThrowStatus(404, "User not found")
      else
        var user := users[id];
        if user.username !in stats then ThrowStatus(404, "Statistics not found")
        else Data(Page(user, stats[user.username]))
  }

  /** The page is only ever served to a logged-in user holding the view permission. */
  lemma LoaderNeedsPermission(req: Auth.Request, id: string, users: map<string, User>, stats: map<string, Statistics>)
    ensures Loader(req, id, users, stats).Data? ==>
      req.sessionUser.Some? && Auth.HasPermission(req.userPermissions, ViewPermission)
  {
  }

  /** The last segment of the request's path. */
  function UserId(pathname: string): (id: string)
    ensures '/' !in id
  {
    Strings.LastPiece(pathname, '/')
  }

  /** On `/maintenance/users/<id>` the action works on `<id>`; with a trailing slash it has none. */
  lemma UserIdOfPath(prefix: string, id: string)
    requires '/' !in id
    ensures UserId(prefix + "/" + id) == id
    ensures UserId(prefix + "/") == []
  {
    Strings.LastPieceAfterSeparator(prefix, id, '/');
    Strings.LastPieceAfterSeparator(prefix, [], '/');
    assert prefix + "/" + [] == prefix + "/";
  }

  /**
   * The settings form would change nothing: same username and display name, the current
   * or an empty new e-mail, and no image or an empty one.
   */
  predicate NoChanges(user: User, form: Form, image: Option<File>) {
    FormGet(form, "username") == Some(user.username)
    && FormGet(form, "displayName") == Some(user.name)
    && (FormGet(form, "newEmail") == Some(user.email) || FormGet(form, "newEmail") == Some([]))
    && (image.None? || image.value.size == 0)
  }

  /** `action`, with the answers the two services would give. */
  function Action(pathname: string, form: Form, image: Option<File>, users: map<string, User>,
                  settingsResponse: Response<()>, passwordResult: ServiceResult): (r: ActionData)
    ensures UserId(pathname) == [] ==>
      r == ActionData(400, Some("User ID is required."), FormGet(form, "_action"), None)
    ensures UserId(pathname) != [] && UserId(pathname) !in users ==>
      r == ActionData(404, Some("User not found."), FormGet(form, "_action"), None)
    ensures UserId(pathname) != [] && UserId(pathname) in users && FormGet(form, "_action") == Some("updateUserSettings") ==>
      r == (if NoChanges(users[UserId(pathname)], form, image)
            then ActionData(400, Some("No changes detected."), Some("updateUserSettings"), None)
            else Tagged(UserService.UpdateUserSettings(form, image, settingsResponse).result, "updateUserSettings"))
    ensures UserId(pathname) != [] && UserId(pathname) in users && FormGet(form, "_action") == Some("updateUserPassword") ==>
      r == Tagged(passwordResult, "updateUserPassword")
    ensures (UserId(pathname) != [] && UserId(pathname) in users
             && FormGet(form, "_action") != Some("updateUserSettings") && FormGet(form, "_action") != Some("updateUserPassword")) ==>
      r == ActionData(400, Some("Invalid action."), FormGet(form, "_action"), None)
  {
    var actionType := FormGet(form, "_action");
    var userId := UserId(pathname);
    if userId == [] then ActionData(400, Some("User ID is required."), actionType, None)
    else if userId !in users then ActionData(404, Some("User not found."), actionType, None)
    else
      var user := users[userId];
      if actionType == Some("updateUserSettings") then
        if NoChanges(user, form, image) then
          ActionData(400, Some("No changes detected."), Some("updateUserSettings"), None)
        else
          Tagged(UserService.UpdateUserSettings(form, image, settingsResponse).result, "updateUserSettings")
      else if actionType == Some("updateUserPassword") then
        Tagged(passwordResult, "updateUserPassword")
      else
        ActionData(400, Some("Invalid action."), actionType, None)
  }

  /**
   * The guards come before any service call: without a user id, for an unknown user, and
   * for an unchanged settings form the answer does not depend on what the services would say.
   */
  lemma GuardsCallNoService(pathname: string, form: Form, image: Option<File>, users: map<string, User>,
                            s1: Response<()>, s2: Response<()>, p1: ServiceResult, p2: ServiceResult)
    requires UserId(pathname) == [] || UserId(pathname) !in users
      || (FormGet(form, "_action") == Some("updateUserSettings") && NoChanges(users[UserId(pathname)], form, image))
    ensures Action(pathname, form, image, users, s1, p1) == Action(pathname, form, image, users, s2, p2)
    ensures Action(pathname, form, image, users, s1, p1).code == (if UserId(pathname) != [] && UserId(pathname) !in users then 404 else 400)
  {
  }

  /**
   * A new, confirmed e-mail address always reaches the service, and the patch it sends
   * holds the e-mail replace.
   */
  lemma NewEmailIsSent(pathname: string, form: Form, image: Option<File>, users: map<string, User>,
                       settingsResponse: Response<()>, passwordResult: ServiceResult)
    requires UserId(pathname) != [] && UserId(pathname) in users && FormGet(form, "_action") == Some("updateUserSettings")
    requires "newEmail" in form && form["newEmail"] != [] && form["newEmail"] != users[UserId(pathname)].email
    requires FormGet(form, "confirmEmail") == Some(form["newEmail"])
    ensures Action(pathname, form, image, users, settingsResponse, passwordResult)
         == Tagged(UserService.MapResponse(settingsResponse), "updateUserSettings")
    ensures UserService.EmailOp(Some(form["newEmail"]))
         in UserService.SettingsOps(FormGet(form, "displayName"), FormGet(form, "newEmail"), image)
  {
  }
}
