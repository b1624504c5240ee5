/**
 * The records of app/components/Types.tsx, the submitted form, and the outcomes of the
 * backend calls that the application makes (each network call is an input value here).
 */
module Types {
  import opened Wrappers

  datatype RolePermission = RolePermission(id: string, name: string, description: string)

  datatype UserRole = UserRole(
    id: Option<string>,
    name: string,
    description: Option<string>,
    permissions: Option<seq<RolePermission>>)

  /**
   * A user as the backend sends it. `enabled` is not declared in Types.tsx but is read by the
   * users table; a missing value reads as false.
   */
  datatype User = User(
    id: string,
    username: string,
    password: Option<string>,
    name: string,
    email: string,
    roles: Option<seq<UserRole>>,
    permissions: Option<seq<RolePermission>>,
    enabled: bool)

  /** The user rebuilt from the session cookie: only the id is known to be present. */
  datatype SessionUser = SessionUser(
    id: string,
    username: Option<string>,
    name: Option<string>,
    email: Option<string>)

  /** Product prices are opaque here: nothing in the model computes with them. */
  datatype Product = Product(productCode: string, eanCode: string, description: string, price: real, imageUrl: string)

  datatype Statistics = Statistics(
    id: string, name: string, lookupsByEAN: int, lookupsByCode: int,
    totalLookups: int, totalProducts: int, totalUsers: int)

  /** An uploaded file as `FormData.get` returns it. A form with an empty file input still sends one. */
  datatype File = File(name: string, size: nat)

  /** The text fields of a submitted form; `FormData.get` of a missing field is `null`. */
  type Form = map<string, string>

  function FormGet(form: Form, key: string): (v: Option<string>)
    ensures v.Some? <==> key in form
    ensures v.Some? ==> v.value == form[key]
  {
    if key in form then Some(form[key]) else None
  }

  /** The JSON error body the backend may send with a failed response. */
  datatype ErrorBody = ErrorBody(status: Option<int>, message: Option<string>, fields: Option<seq<string>>)

  /** What parsing the body of a failed response yields: a parsed body, or the parse error. */
  datatype ErrorPayload = Parsed(body: ErrorBody) | Unparsable(error: string)

  /**
   * The outcome of one `fetch`: an OK response with its parsed body, a non-OK response
   * (status, status text, body), or an exception whose text is `error`.
   */
  datatype Response<T> =
    | Ok(body: T)
    | HttpError(status: int, statusText: string, payload: ErrorPayload)
    | Thrown(error: string)

  /** The `{ code, message, fields? }` records the services return. */
  datatype ServiceResult = ServiceResult(code: int, message: string, fields: Option<seq<string>>)

  /** The records route actions and loaders return to the page. */
  datatype ActionData = ActionData(
    code: int,
    message: Option<string>,
    action: Option<string>,
    fields: Option<seq<string>>)

  /** A service result, as a route action reports it under the action's name. */
  function Tagged(result: ServiceResult, action: string): (d: ActionData)
    ensures d.code == result.code && d.message == Some(result.message) && d.fields == result.fields
    ensures d.action == Some(action)
  {
    ActionData(result.code, Some(result.message), Some(action), result.fields)
  }

  /** The names of a permission list, in order. */
  function PermissionNames(ps: seq<RolePermission>): (names: seq<string>)
    ensures |names| == |ps|
    ensures forall i :: 0 <= i < |ps| ==> names[i] == ps[i].name
  {
    seq(|ps|, i requires 0 <= i < |ps| => ps[i].name)
  }

  /** What a loader or action hands to the router: data, a redirect, or a thrown status response. */
  datatype RouteOutcome<T> =
    | Data(value: T)
    | Redirect(location: string)
    | ThrowStatus(status: int, body: string)
}
