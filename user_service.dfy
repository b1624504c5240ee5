/**
 * app/services/userService.server.ts: `updateUserSettings` checks the e-mail confirmation,
 * writes a JSON Patch of the changed settings and maps the backend's answer. The answer is
 * an input, and the request the call would send is part of the result.
 */
module UserService {
  import opened Wrappers
  import opened Types
  import Seqs
  import JsonPatch

  const EmailMismatch := ServiceResult(400, "New email and confirmation do not match.", None)
  const SettingsUpdated := ServiceResult(204, "Succesfully updated user settings.", None)

  /** The request a call sends (none when the confirmation check stops it) and what it returns. */
  datatype Call = Call(request: Option<string>, result: ServiceResult)

  function DisplayNameOp(displayName: Option<string>): JsonPatch.PatchOp {
    JsonPatch.Replace("/displayName", JsonPatch.Quoted(displayName.GetOr([])))
  }

  function EmailOp(newEmail: Option<string>): JsonPatch.PatchOp {
    JsonPatch.Replace("/email", JsonPatch.Quoted(newEmail.GetOr([])))
  }

  function ImageOp(image: Option<File>): JsonPatch.PatchOp {
    JsonPatch.Replace("/profileImage", JsonPatch.Quoted(if image.Some? then image.value.name else []))
  }

  /**
   * The operations of the settings patch: of the display-name, e-mail and image replaces,
   * in that order, exactly those whose field was filled in. Any file counts as an image,
   * including the empty one a form sends when no file was chosen.
   */
  function SettingsOps(displayName: Option<string>, newEmail: Option<string>, image: Option<File>): (ops: seq<JsonPatch.PatchOp>)
    ensures Seqs.IsSublist(ops, [DisplayNameOp(displayName), EmailOp(newEmail), ImageOp(image)])
    ensures DisplayNameOp(displayName) in ops <==> Truthy(displayName)
    ensures EmailOp(newEmail) in ops <==> Truthy(newEmail)
    ensures ImageOp(image) in ops <==> image.Some?
    ensures |ops| <= 3
  {
    var candidates := [DisplayNameOp(displayName), EmailOp(newEmail), ImageOp(image)];
    var keep := (op: JsonPatch.PatchOp) =>
      if op.path == "/displayName" then Truthy(displayName)
      else if op.path == "/email" then Truthy(newEmail)
      else image.Some?;
    var ops := Seqs.Filter(candidates, keep);
    assert |ops| <= 3 by {
      Seqs.SublistLength(ops, candidates);
    }
    ops
  }

  /** How the backend's answer is reported. */
  function MapResponse(response: Response<()>): (r: ServiceResult)
    ensures response.Ok? ==> r == SettingsUpdated
    ensures response.HttpError? && response.payload.Parsed? ==>
      r == ServiceResult(response.status, response.statusText, None)
    ensures response.HttpError? && response.payload.Unparsable? ==>
      r == ServiceResult(500, response.payload.error, None)
    ensures response.Thrown? ==> r == ServiceResult(500, response.error, None)
  {
    match response
    case Ok(_) => SettingsUpdated
    case HttpError(status, statusText, Parsed(_)) => ServiceResult(status, statusText, None)
    case HttpError(_, _, Unparsable(error)) => ServiceResult(500, error, None)
    case Thrown(error) => ServiceResult(500, error, None)
  }

  /** A non-empty new e-mail that differs from its confirmation. */
  predicate EmailMismatched(newEmail: Option<string>, confirmEmail: Option<string>) {
    Truthy(newEmail) && Some(newEmail.value) != confirmEmail
  }

  /** `updateUserSettings(userId, formData)`, the image being the form's `profileImage` file. */
  function UpdateUserSettings(form: Form, image: Option<File>, response: Response<()>): (c: Call)
    ensures c.request.None? <==> EmailMismatched(FormGet(form, "newEmail"), FormGet(form, "confirmEmail"))
    ensures c.request.None? ==> c.result == EmailMismatch
    ensures c.request.Some? ==>
      c.request.value == JsonPatch.Render(SettingsOps(FormGet(form, "displayName"), FormGet(form, "newEmail"), image))
      && c.result == MapResponse(response)
  {
    var newEmail := FormGet(form, "newEmail");
    if EmailMismatched(newEmail, FormGet(form, "confirmEmail")) then Call(None, EmailMismatch)
    else
      var ops := SettingsOps(FormGet(form, "displayName"), newEmail, image);
      Call(Some(JsonPatch.Render(ops)), MapResponse(response))
  }

  /** An empty or missing new e-mail skips the confirmation check. */
  lemma EmptyEmailSkipsCheck(form: Form, image: Option<File>, response: Response<()>)
    requires !Truthy(FormGet(form, "newEmail"))
    ensures UpdateUserSettings(form, image, response).request.Some?
  {
  }

  /** With nothing filled in the patch is exactly `[]`. */
  lemma NothingToChange(form: Form, response: Response<()>)
    requires !Truthy(FormGet(form, "displayName")) && !Truthy(FormGet(form, "newEmail"))
    ensures UpdateUserSettings(form, None, response).request == Some("[]")
  {
    var ops := SettingsOps(FormGet(form, "displayName"), FormGet(form, "newEmail"), None);
    Seqs.SublistMembers(ops, [DisplayNameOp(FormGet(form, "displayName")), EmailOp(FormGet(form, "newEmail")), ImageOp(None)]);
  }

  /**
   * What the backend reads from the patch when no value holds a character JSON would
   * escape: the filled-in replaces, in order.
   */
  lemma SettingsPatchDecodes(form: Form, image: Option<File>, response: Response<()>)
    requires !EmailMismatched(FormGet(form, "newEmail"), FormGet(form, "confirmEmail"))
    requires "displayName" in form ==> JsonPatch.JsonSafe(form["displayName"])
    requires "newEmail" in form ==> JsonPatch.JsonSafe(form["newEmail"])
    requires image.Some? ==> JsonPatch.JsonSafe(image.value.name)
    ensures JsonPatch.Decode(UpdateUserSettings(form, image, response).request.value)
         == Some(SettingsOps(FormGet(form, "displayName"), FormGet(form, "newEmail"), image))
  {
    var dn := FormGet(form, "displayName");
    var email := FormGet(form, "newEmail");
    var ops := SettingsOps(dn, email, image);
    SettingsOpsSafe(dn, email, image);
    JsonPatch.DecodeRender(ops);
  }

  /** Safe field values make a patch with nothing to escape. */
  lemma SettingsOpsSafe(displayName: Option<string>, newEmail: Option<string>, image: Option<File>)
    requires displayName.Some? ==> JsonPatch.JsonSafe(displayName.value)
    requires newEmail.Some? ==> JsonPatch.JsonSafe(newEmail.value)
    requires image.Some? ==> JsonPatch.JsonSafe(image.value.name)
    ensures forall i :: 0 <= i < |SettingsOps(displayName, newEmail, image)| ==>
              JsonPatch.SafeOp(SettingsOps(displayName, newEmail, image)[i])
  {
    var candidates := [DisplayNameOp(displayName), EmailOp(newEmail), ImageOp(image)];
    PathsSafe();
    OpSafe("/displayName", displayName.GetOr([]));
    OpSafe("/email", newEmail.GetOr([]));
    OpSafe("/profileImage", if image.Some? then image.value.name else []);
    SublistSafe(SettingsOps(displayName, newEmail, image), candidates);
  }

  /** The settings paths hold nothing JSON would escape. */
  lemma PathsSafe()
    ensures JsonPatch.JsonSafe("/displayName") && JsonPatch.JsonSafe("/email") && JsonPatch.JsonSafe("/profileImage")
  {
  }

  /** A replace of a fixed path with a safe text is safe. */
  lemma OpSafe(path: string, raw: string)
    requires JsonPatch.JsonSafe(path) && JsonPatch.JsonSafe(raw)
    ensures JsonPatch.SafeOp(JsonPatch.Replace(path, JsonPatch.Quoted(raw)))
  {
  }

  /** Every operation taken from a list of safe operations is safe. */
  lemma SublistSafe(ops: seq<JsonPatch.PatchOp>, candidates: seq<JsonPatch.PatchOp>)
    requires Seqs.IsSublist(ops, candidates)
    requires forall j :: 0 <= j < |candidates| ==> JsonPatch.SafeOp(candidates[j])
    ensures forall i :: 0 <= i < |ops| ==> JsonPatch.SafeOp(ops[i])
  {
    Seqs.SublistMembers(ops, candidates);
    forall i | 0 <= i < |ops| ensures JsonPatch.SafeOp(ops[i]) {
      assert ops[i] in ops;
      var j :| 0 <= j < |candidates| && candidates[j] == ops[i];
    }
  }

  /**
   * The empty file a multipart form sends when no image was chosen is still an image here:
   * changing only the display name also replaces the profile image with the empty name.
   */
  lemma EmptyFileReplacesImage(displayName: Option<string>, newEmail: Option<string>)
    ensures JsonPatch.Replace("/profileImage", JsonPatch.Quoted([]))
         in SettingsOps(displayName, newEmail, Some(File([], 0)))
  {
  }

  /**
   * The settings patch with the image replace sent only for a file with content, which is
   * how the user details page's own no-change check reads an empty file.
   */
  function IntendedSettingsOps(displayName: Option<string>, newEmail: Option<string>, image: Option<File>): (ops: seq<JsonPatch.PatchOp>)
    ensures DisplayNameOp(displayName) in ops <==> Truthy(displayName)
    ensures EmailOp(newEmail) in ops <==> Truthy(newEmail)
    ensures forall op :: op in ops && op.path == "/profileImage" ==>
      image.Some? && image.value.size > 0 && op == ImageOp(image)
    ensures image.Some? && image.value.size > 0 ==> ImageOp(image) in ops
  {
    var chosen := if image.Some? && image.value.size > 0 then image else None;
    var ops := SettingsOps(displayName, newEmail, chosen);
    Seqs.SublistMembers(ops, [DisplayNameOp(displayName), EmailOp(newEmail), ImageOp(chosen)]);
    ops
  }

  /** Without an empty file the intended patch is the one sent. */
  lemma IntendedAgreesWithoutEmptyFile(displayName: Option<string>, newEmail: Option<string>, image: Option<File>)
    requires image.None? || image.value.size > 0
    ensures IntendedSettingsOps(displayName, newEmail, image) == SettingsOps(displayName, newEmail, image)
  {
  }
}
