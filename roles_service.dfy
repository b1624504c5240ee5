/**
 * app/services/rolesService.server.ts: `createRole`, `updateRole` and `deleteRole` turn a
 * submitted form into a backend request and the backend's answer into a
 * `{ code, message, fields? }` record. The answer is an input; the request a call would
 * send is part of the result, so that "no request is made" can be stated.
 */
module RolesService {
  import opened Wrappers
  import opened Types
  import Strings
  import JsonPatch

  const NameRequired := ServiceResult(400, "Role name is required", Some(["name"]))
  const NameTaken := ServiceResult(409, "Role with this name already exists", Some(["name"]))
  const InternalError := ServiceResult(500, "Internal server error", None)

  /** The request a service call sends (none when validation stops it) and what it returns. */
  datatype Call = Call(request: Option<string>, result: ServiceResult)

  /** The name field is missing, empty or only whitespace. */
  predicate NameMissing(name: Option<string>) {
    name.None? || Strings.IsBlank(name.value)
  }

  /** A missing, empty or whitespace-only description is sent as null. */
  function Description(d: Option<string>): (r: Option<string>)
    ensures r.None? <==> d.None? || Strings.IsBlank(d.value)
    ensures r.Some? ==> r == d
  {
    if d.None? || Strings.IsBlank(d.value) then None else d
  }

  /**
   * The `_permissions` field as a list of names: nothing when it is missing or blank,
   * otherwise one trimmed name per comma-separated piece, empty pieces included.
   */
  function ParsePermissions(raw: Option<string>): (names: seq<string>)
    ensures raw.None? || Strings.IsBlank(raw.value) ==> names == []
    ensures raw.Some? && !Strings.IsBlank(raw.value) ==>
      |names| == Strings.Count(raw.value, ',') + 1
      && forall i :: 0 <= i < |names| ==> names[i] == Strings.Trim(Strings.Split(raw.value, ',')[i])
    ensures forall i :: 0 <= i < |names| ==> Strings.Untrimmed(names[i]) && ',' !in names[i]
  {
    if raw.None? || Strings.IsBlank(raw.value) then []
    else
      var parts := Strings.Split(raw.value, ',');
      seq(|parts|, i requires 0 <= i < |parts| => TrimPiece(parts[i]))
  }

  /** A piece of a split has no comma, and trimming keeps it that way. */
  function TrimPiece(piece: string): (r: string)
    requires ',' !in piece
    ensures r == Strings.Trim(piece) && Strings.Untrimmed(r) && ',' !in r
  {
    var r := Strings.Trim(piece);
    Strings.ContainsMembers(piece, r);
    r
  }

  /** A name list the pick lists can produce: no empty name, no comma, no edge whitespace. */
  predicate WellFormedNames(names: seq<string>) {
    forall i :: 0 <= i < |names| ==> names[i] != [] && ',' !in names[i] && Strings.Untrimmed(names[i])
  }

  /** The joined `_permissions` value parses back to the same list, the empty list included. */
  lemma JoinParseRoundTrip(names: seq<string>)
    requires WellFormedNames(names)
    ensures ParsePermissions(Some(Strings.Join(names, ","))) == names
  {
    var joined := Strings.Join(names, ",");
    if names != [] {
      assert joined[0] == names[0][0];
      Strings.BlankIffAllWhitespace(joined);
      Strings.SplitJoin(names, ',');
      var parsed := ParsePermissions(Some(joined));
      forall i | 0 <= i < |names| ensures parsed[i] == names[i] {
        Strings.TrimUntrimmed(names[i]);
      }
    }
  }

  const CreateNameKey := "{\"name\":"
  const DescriptionKey := ",\"description\":"
  const PermissionsKey := ",\"permissions\":"

  /** `JSON.stringify` of the description: the quoted text, or null. */
  function DescriptionJson(description: Option<string>): string {
    if description.Some? then JsonPatch.JsonQuote(description.value) else "null"
  }

  /** The create request body: the trimmed name, the description and the permission objects. */
  function CreateRoleJson(name: string, description: Option<string>, permissions: seq<string>): string {
    CreateNameKey + (JsonPatch.JsonQuote(Strings.Trim(name))
    + (DescriptionKey + (DescriptionJson(description)
    + (PermissionsKey + (JsonPatch.NameListJson(permissions) + "}")))))
  }

  /** The fields of a create request as the backend reads them. */
  datatype CreateRequest = CreateRequest(name: string, description: Option<string>, permissions: seq<string>)

  /** Reads a create body whose strings hold no escapes: a name, a description or null, a name list. */
  function ReadCreateBody(body: string): Option<CreateRequest> {
    match JsonPatch.DropPrefix(CreateNameKey, body)
    case None => None
    case Some(s1) =>
      match JsonPatch.ReadQuoted(s1)
      case None => None
      case Some((name, s2)) =>
        match JsonPatch.DropPrefix(DescriptionKey, s2)
        case None => None
        case Some(s3) =>
          match JsonPatch.ReadValue(s3)
          case None => None
          case Some((d, s4)) =>
            if d.NameList? then None
            else
              match JsonPatch.DropPrefix(PermissionsKey, s4)
              case None => None
              case Some(s5) =>
                match JsonPatch.ReadValue(s5)
                case None => None
                case Some((p, s6)) =>
                  if p.NameList? && s6 == "}" then
                    Some(CreateRequest(name, if d.Quoted? then Some(d.raw) else None, p.names))
                  else None
  }

  /**
   * Round trip: the backend reads the trimmed name, the description or null, and the
   * permission names back from the create body, whatever characters they hold, since
   * `JSON.stringify` escapes what needs escaping.
   */
  lemma CreateRoleJsonDecodes(name: string, description: Option<string>, permissions: seq<string>)
    ensures ReadCreateBody(CreateRoleJson(name, description, permissions))
         == Some(CreateRequest(Strings.Trim(name), description, permissions))
  {
    ReadCreateBodyOf(Strings.Trim(name), description, permissions);
  }

  /** The description's text reads back as the description, or null as none. */
  lemma ReadDescriptionOf(description: Option<string>, rest: string)
    ensures JsonPatch.ReadValue(DescriptionJson(description) + rest)
         == Some((if description.Some? then JsonPatch.Quoted(description.value) else JsonPatch.Null, rest))
  {
    if description.Some? {
      var q := JsonPatch.JsonQuote(description.value);
      assert (q + rest)[0] == '"';
      JsonPatch.ReadJsonQuotedOf(description.value, rest);
    } else {
      JsonPatch.ReadNullOf(rest);
    }
  }

  /** The create body, written from its parts, reads back as those parts. */
  lemma ReadCreateBodyOf(name: string, description: Option<string>, permissions: seq<string>)
    ensures ReadCreateBody(CreateNameKey + (JsonPatch.JsonQuote(name) + (DescriptionKey + (DescriptionJson(description)
              + (PermissionsKey + (JsonPatch.NameListJson(permissions) + "}"))))))
         == Some(CreateRequest(name, description, permissions))
  {
    var dv := if description.Some? then JsonPatch.Quoted(description.value) else JsonPatch.Null;
    var t5 := JsonPatch.NameListJson(permissions) + "}";
    var t4 := PermissionsKey + t5;
    var t3 := DescriptionJson(description) + t4;
    var t2 := DescriptionKey + t3;
    var t1 := JsonPatch.JsonQuote(name) + t2;
    JsonPatch.DropPrefixOf(CreateNameKey, t1);
    JsonPatch.ReadJsonQuotedOf(name, t2);
    JsonPatch.DropPrefixOf(DescriptionKey, t3);
    ReadDescriptionOf(description, t4);
    JsonPatch.DropPrefixOf(PermissionsKey, t5);
    JsonPatch.ReadNameListOf(permissions, "}");
    ReadCreateBodySteps(CreateNameKey + t1, t1, name, t2, t3, dv, t4, t5, permissions);
  }

  /** The reader's steps, each one given. */
  lemma ReadCreateBodySteps(body: string, t1: string, name: string, t2: string, t3: string,
                            dv: JsonPatch.PatchValue, t4: string, t5: string, permissions: seq<string>)
    requires JsonPatch.DropPrefix(CreateNameKey, body) == Some(t1)
    requires JsonPatch.ReadQuoted(t1) == Some((name, t2))
    requires JsonPatch.DropPrefix(DescriptionKey, t2) == Some(t3)
    requires JsonPatch.ReadValue(t3) == Some((dv, t4)) && !dv.NameList?
    requires JsonPatch.DropPrefix(PermissionsKey, t4) == Some(t5)
    requires JsonPatch.ReadValue(t5) == Some((JsonPatch.NameList(permissions), "}"))
    ensures ReadCreateBody(body) == Some(CreateRequest(name, if dv.Quoted? then Some(dv.raw) else None, permissions))
  {
  }

  /**
   * The backend never sees the edge whitespace of a new role's name: the body is the same
   * for the name and its trimmed form, and the name read back from it is the trimmed one.
   */
  lemma CreateRoleJsonTrimsName(name: string, description: Option<string>, permissions: seq<string>)
    ensures CreateRoleJson(name, description, permissions)
         == CreateRoleJson(Strings.Trim(name), description, permissions)
    ensures var read := ReadCreateBody(CreateRoleJson(name, description, permissions));
      read.Some? && read.value.name == Strings.Trim(name) && Strings.Untrimmed(read.value.name)
  {
    Strings.TrimUntrimmed(Strings.Trim(name));
    CreateRoleJsonDecodes(name, description, permissions);
  }

  /**
   * The operations of the `updateRole` patch: the name as submitted (not trimmed), the
   * description or null, and the permission list only when it is non-empty.
   */
  function UpdateRoleOps(name: string, description: Option<string>, permissions: seq<string>): seq<JsonPatch.PatchOp> {
    [ JsonPatch.Replace("/name", JsonPatch.Quoted(name)),
      JsonPatch.Replace("/description", if description.Some? then JsonPatch.Quoted(description.value) else JsonPatch.Null) ]
    + (if permissions != [] then [JsonPatch.Replace("/permissions", JsonPatch.NameList(permissions))] else [])
  }

  /** The answer to a failed create or update. */
  function FailureResult(status: int, payload: ErrorPayload, fallback: string): (r: ServiceResult)
    ensures payload.Unparsable? ==> r == InternalError
    ensures payload.Parsed? && payload.body.status == Some(409) ==> r == NameTaken
    ensures payload.Parsed? && payload.body.status != Some(409) ==>
      r == ServiceResult(status, OrElse(payload.body.message, fallback), Some(payload.body.fields.GetOr([])))
  {
    match payload
    case Unparsable(_) => InternalError
    case Parsed(body) =>
      if body.status == Some(409) then NameTaken
      else ServiceResult(status, OrElse(body.message, fallback), Some(body.fields.GetOr([])))
  }

  /** How a create or update maps the backend's answer. */
  function MapResponse(response: Response<()>, success: ServiceResult, fallback: string): (r: ServiceResult)
    ensures response.Ok? ==> r == success
    ensures response.Thrown? ==> r == InternalError
    ensures response.HttpError? ==> r == FailureResult(response.status, response.payload, fallback)
  {
    match response
    case Ok(_) => success
    case Thrown(_) => InternalError
    case HttpError(status, _, payload) => FailureResult(status, payload, fallback)
  }

  const Created := ServiceResult(201, "Role created successfully", None)
  const Updated := ServiceResult(200, "Role updated successfully", None)
  const Deleted := ServiceResult(204, "Role deleted successfully", None)

  /** `createRole(formData)` */
  function CreateRole(form: Form, response: Response<()>): (c: Call)
    ensures c.request.None? <==> NameMissing(FormGet(form, "name"))
    ensures c.request.None? ==> c.result == NameRequired
    ensures c.request.Some? ==>
      c.request.value == CreateRoleJson(form["name"], Description(FormGet(form, "description")),
                                        ParsePermissions(FormGet(form, "_permissions")))
      && c.result == MapResponse(response, Created, "Failed to create role")
  {
    var name := FormGet(form, "name");
    if NameMissing(name) then Call(None, NameRequired)
    else
      var body := CreateRoleJson(name.value, Description(FormGet(form, "description")),
                                 ParsePermissions(FormGet(form, "_permissions")));
      Call(Some(body), MapResponse(response, Created, "Failed to create role"))
  }

  /** `updateRole(roleId, formData)` */
  function UpdateRole(form: Form, response: Response<()>): (c: Call)
    ensures c.request.None? <==> NameMissing(FormGet(form, "name"))
    ensures c.request.None? ==> c.result == NameRequired
    ensures c.request.Some? ==>
      c.request.value == JsonPatch.Render(UpdateRoleOps(form["name"], Description(FormGet(form, "description")),
                                                        ParsePermissions(FormGet(form, "_permissions"))))
      && c.result == MapResponse(response, Updated, "Failed to update role")
  {
    var name := FormGet(form, "name");
    if NameMissing(name) then Call(None, NameRequired)
    else
      var ops := UpdateRoleOps(name.value, Description(FormGet(form, "description")),
                               ParsePermissions(FormGet(form, "_permissions")));
      Call(Some(JsonPatch.Render(ops)), MapResponse(response, Updated, "Failed to update role"))
  }

  /**
   * What the backend reads from a `createRole` request with a name: the trimmed name, which
   * is neither empty nor edged with whitespace, the description or null, and the parsed names.
   */
  lemma CreateRoleRequestContents(form: Form, response: Response<()>)
    requires "name" in form && !NameMissing(Some(form["name"]))
    ensures CreateRole(form, response).request.Some?
    ensures ReadCreateBody(CreateRole(form, response).request.value)
         == Some(CreateRequest(Strings.Trim(form["name"]), Description(FormGet(form, "description")),
                               ParsePermissions(FormGet(form, "_permissions"))))
    ensures Strings.Trim(form["name"]) != [] && Strings.Untrimmed(Strings.Trim(form["name"]))
  {
    CreateRoleJsonDecodes(form["name"], Description(FormGet(form, "description")),
                          ParsePermissions(FormGet(form, "_permissions")));
  }

  /**
   * What the backend reads from an `updateRole` patch whose name and description hold
   * nothing JSON would escape (they are put between quotes as they are; the permission
   * list goes through `JSON.stringify`): a /name replace with the untrimmed
   * name, a /description replace with the description or null, and a /permissions replace
   * exactly when the parsed list is non-empty.
   */
  lemma UpdateRolePatchContents(form: Form, response: Response<()>)
    requires "name" in form && !NameMissing(Some(form["name"]))
    requires JsonPatch.JsonSafe(form["name"])
    requires "description" in form ==> JsonPatch.JsonSafe(form["description"])
    ensures UpdateRole(form, response).request.Some?
    ensures var ops := JsonPatch.Decode(UpdateRole(form, response).request.value);
      var perms := ParsePermissions(FormGet(form, "_permissions"));
      && ops.Some?
      && |ops.value| == (if perms == [] then 2 else 3)
      && ops.value[0] == JsonPatch.Replace("/name", JsonPatch.Quoted(form["name"]))
      && ops.value[1].path == "/description"
      && (ops.value[1].value.Null? <==> Description(FormGet(form, "description")).None?)
      && (perms != [] ==> ops.value[2] == JsonPatch.Replace("/permissions", JsonPatch.NameList(perms)))
  {
    var desc := Description(FormGet(form, "description"));
    var perms := ParsePermissions(FormGet(form, "_permissions"));
    var ops := UpdateRoleOps(form["name"], desc, perms);
    UpdateRoleOpsSafe(form["name"], desc, perms);
    JsonPatch.DecodeRender(ops);
    UpdateRoleOpsShape(form["name"], desc, perms);
  }

  /** The update operations, read by position. */
  lemma UpdateRoleOpsShape(name: string, description: Option<string>, permissions: seq<string>)
    ensures var ops := UpdateRoleOps(name, description, permissions);
      && |ops| == (if permissions == [] then 2 else 3)
      && ops[0] == JsonPatch.Replace("/name", JsonPatch.Quoted(name))
      && ops[1].path == "/description"
      && (ops[1].value.Null? <==> description.None?)
      && (permissions != [] ==> ops[2] == JsonPatch.Replace("/permissions", JsonPatch.NameList(permissions)))
  {
  }

  /** The update paths hold nothing JSON would escape. */
  lemma PathsSafe()
    ensures JsonPatch.JsonSafe("/name") && JsonPatch.JsonSafe("/description") && JsonPatch.JsonSafe("/permissions")
  {
  }

  /** Safe field values make a patch with nothing to escape. */
  lemma UpdateRoleOpsSafe(name: string, description: Option<string>, permissions: seq<string>)
    requires JsonPatch.JsonSafe(name)
    requires description.Some? ==> JsonPatch.JsonSafe(description.value)
    ensures forall i :: 0 <= i < |UpdateRoleOps(name, description, permissions)| ==>
              JsonPatch.SafeOp(UpdateRoleOps(name, description, permissions)[i])
  {
    PathsSafe();
  }

  /** `deleteRole(roleId)`: no 409 case and no fields. */
  function DeleteRole(response: Response<()>): (r: ServiceResult)
    ensures response.Ok? ==> r == Deleted
    ensures response.Thrown? || (response.HttpError? && response.payload.Unparsable?) ==> r == InternalError
    ensures response.HttpError? && response.payload.Parsed? ==>
      r == ServiceResult(response.status, OrElse(response.payload.body.message, "Failed to delete role"), None)
  {
    match response
    case Ok(_) => Deleted
    case Thrown(_) => InternalError
    case HttpError(status, _, Unparsable(_)) => InternalError
    case HttpError(status, _, Parsed(body)) => ServiceResult(status, OrElse(body.message, "Failed to delete role"), None)
  }

  /** Validation comes first: with a missing or blank name nothing is sent, whatever the backend would say. */
  lemma MissingNameSendsNothing(form: Form, r1: Response<()>, r2: Response<()>)
    requires NameMissing(FormGet(form, "name"))
    ensures CreateRole(form, r1) == CreateRole(form, r2) == Call(None, NameRequired)
    ensures UpdateRole(form, r1) == UpdateRole(form, r2) == Call(None, NameRequired)
  {
  }
}
