/**
 * The feedback list the user and role pages keep in React state
 * (app/routes/maintenance/users/userDetails.tsx, newUser.tsx and
 * app/routes/maintenance/roles/roleDetails.tsx, newRole.tsx). A validation event on a field
 * drops that field's entries and appends at most one error for it; a new action result
 * replaces the whole list.
 */
module Feedback {
  import opened Wrappers
  import opened Types
  import Seqs
  import Strings

  /** One `{ code?, message?, action?, fields? }` entry. */
  datatype Entry = Entry(code: Option<int>, message: Option<string>, action: Option<string>, fields: Option<seq<string>>)

  const InvalidEmail := "Invalid email format."
  const PasswordTooShortMessage := "Password must be at least 4 characters."

  /** The entry is about the target field. */
  predicate About(e: Entry, target: string) {
    e.fields.Some? && target in e.fields.value
  }

  function AboutTarget(target: string): Entry -> bool {
    e => About(e, target)
  }

  function NotAboutTarget(target: string): Entry -> bool {
    e => !About(e, target)
  }

  /** The entries concerning `target`, in order. */
  function For(entries: seq<Entry>, target: string): seq<Entry> {
    Seqs.Filter(entries, AboutTarget(target))
  }

  /** The entries that are not about the target field, in order. */
  function Without(entries: seq<Entry>, target: string): seq<Entry> {
    Seqs.Filter(entries, NotAboutTarget(target))
  }

  /** The error a failed validation appends for `target`. */
  function FieldError(target: string, message: string): Entry {
    Entry(None, Some(message), None, Some([target]))
  }

  /** The list after a validation event on `target`. */
  function Validated(entries: seq<Entry>, target: string, invalid: bool, message: string): seq<Entry> {
    var kept := Without(entries, target);
    if invalid then kept + [FieldError(target, message)] else kept
  }

  /** Entry `j` is the first one concerning `field`. */
  predicate FirstAbout(entries: seq<Entry>, field: string, j: int) {
    0 <= j < |entries| && About(entries[j], field) && forall k :: 0 <= k < j ==> !About(entries[k], field)
  }

  /**
   * The message shown under a field: that of the first entry concerning it, and none
   * when no entry does.
   */
  function ShownMessage(entries: seq<Entry>, field: string): (shown: Option<string>)
    ensures (forall j :: 0 <= j < |entries| ==> !About(entries[j], field)) ==> shown == None
    ensures forall j :: FirstAbout(entries, field, j) ==> shown == entries[j].message
  {
    var found := For(entries, field);
    if found == [] then
      assert forall j :: 0 <= j < |entries| ==> entries[j] in entries && !AboutTarget(field)(entries[j]);
      None
    else
      Seqs.FilterFirst(entries, AboutTarget(field));
      var first :| FirstAbout(entries, field, first) && found[0] == entries[first];
      assert forall j :: FirstAbout(entries, field, j) ==> j == first;
      found[0].message
  }

  /** A non-empty e-mail the validator rejects, the validator's verdict being an input. */
  predicate EmailInvalid(email: string, isEmail: bool) {
    email != [] && !isEmail
  }

  /**
   * The string's `length` in JavaScript: the number of UTF-16 code units, two for a
   * code point above U+FFFF.
   */
  function Utf16Length(s: string): (n: nat)
    ensures |s| <= n <= 2 * |s|
    ensures (forall i :: 0 <= i < |s| ==> s[i] as int < 0x10000) ==> n == |s|
  {
    if s == [] then 0 else (if s[0] as int >= 0x10000 then 2 else 1) + Utf16Length(s[1..])
  }

  /** A password that is not blank and shorter than four UTF-16 code units. */
  predicate PasswordTooShort(password: string) {
    password != [] && |Strings.Trim(password)| > 0 && Utf16Length(password) < 4
  }

  /** The entry an action result becomes. */
  function FromAction(a: ActionData): Entry {
    Entry(Some(a.code), a.message, a.action, a.fields)
  }

  /** The action answered with a truthy code. */
  predicate HasCode(actionData: Option<ActionData>) {
    actionData.Some? && actionData.value.code != 0
  }

  predicate HasNoFields(e: Entry) {
    e.fields.None?
  }

  /**
   * The result line under a form's submit button: shown when some entry without fields
   * carries the form's action name, with the message of the first entry without fields.
   */
  function ResultMessage(entries: seq<Entry>, actionName: string): (shown: Option<string>)
    ensures shown.Some? ==> exists i :: 0 <= i < |entries| && entries[i].action == Some(actionName) && entries[i].fields.None?
    ensures !(exists i :: 0 <= i < |entries| && entries[i].action == Some(actionName) && entries[i].fields.None?) ==>
      shown == None
    ensures (exists i :: 0 <= i < |entries| && entries[i].action == Some(actionName) && entries[i].fields.None?) ==>
      exists j :: 0 <= j < |entries| && entries[j].fields.None? && shown == entries[j].message
                  && forall k :: 0 <= k < j ==> entries[k].fields.Some?
  {
    if exists i :: 0 <= i < |entries| && entries[i].action == Some(actionName) && entries[i].fields.None? then
      var i :| 0 <= i < |entries| && entries[i].action == Some(actionName) && entries[i].fields.None?;
      var general := Seqs.Filter(entries, HasNoFields);
      assert entries[i] in general;
      Seqs.FilterFirst(entries, HasNoFields);
      general[0].message
    else None
  }

  /** The `feedback` state of one page. */
  class FeedbackList {
    var entries: seq<Entry>

    constructor ()
      ensures entries == []
    {
      entries := [];
    }

    /** Remove the field's old entries, then append the error when there is one. */
    method Validate(target: string, invalid: bool, message: string)
      modifies this
      ensures entries == Validated(old(entries), target, invalid, message)
    {
      entries := Seqs.Filter(entries, NotAboutTarget(target));
      if invalid {
        entries := entries + [FieldError(target, message)];
      }
    }

    /** `handleValidateEmail` */
    method ValidateEmail(target: string, email: string, isEmail: bool)
      modifies this
      ensures entries == Validated(old(entries), target, EmailInvalid(email, isEmail), InvalidEmail)
    {
      Validate(target, EmailInvalid(email, isEmail), InvalidEmail);
    }

    /** `handleValidatePassword` */
    method ValidatePassword(target: string, password: string)
      modifies this
      ensures entries == Validated(old(entries), target, PasswordTooShort(password), PasswordTooShortMessage)
    {
      Validate(target, PasswordTooShort(password), PasswordTooShortMessage);
    }

    /** The effect that runs on a new action result: clear, then keep the result if it has a code. */
    method ShowActionResult(actionData: Option<ActionData>)
      modifies this
      ensures entries == (if HasCode(actionData) then [FromAction(actionData.value)] else [])
    {
      entries := [];
      if HasCode(actionData) {
        entries := Seqs.Filter(entries, HasNoFields);
        entries := entries + [FromAction(actionData.value)];
      }
    }
  }

  /** After a validation event the field has exactly one entry, the error, if it is invalid, and none otherwise. */
  lemma ValidatedForTarget(entries: seq<Entry>, target: string, invalid: bool, message: string)
    ensures For(Validated(entries, target, invalid, message), target)
         == (if invalid then [FieldError(target, message)] else [])
  {
    var kept := Without(entries, target);
    Seqs.FilterNone(kept, AboutTarget(target));
    if invalid {
      var err := FieldError(target, message);
      Seqs.FilterAppend(kept, [err], AboutTarget(target));
      assert Seqs.Filter([err], AboutTarget(target)) == [err];
    }
  }

  /** Entries about any other field keep their contents and order. */
  lemma ValidatedKeepsOthers(entries: seq<Entry>, target: string, invalid: bool, message: string)
    ensures Without(Validated(entries, target, invalid, message), target) == Without(entries, target)
  {
    var kept := Without(entries, target);
    Seqs.FilterAll(kept, NotAboutTarget(target));
    if invalid {
      var err := FieldError(target, message);
      Seqs.FilterAppend(kept, [err], NotAboutTarget(target));
      assert Seqs.Filter([err], NotAboutTarget(target)) == [];
    }
  }

  /** The page shows the error under the field exactly when the value was invalid. */
  lemma ValidationMessageShown(entries: seq<Entry>, target: string, invalid: bool, message: string)
    ensures ShownMessage(Validated(entries, target, invalid, message), target)
         == (if invalid then Some(message) else None)
  {
    ValidatedForTarget(entries, target, invalid, message);
  }

  /** A password is flagged exactly when it is not blank and has fewer than four UTF-16 code units. */
  lemma PasswordTooShortIff(password: string)
    ensures PasswordTooShort(password) <==> !Strings.IsBlank(password) && Utf16Length(password) < 4
    ensures |password| >= 4 ==> !PasswordTooShort(password)
  {
  }

  /**
   * After a result without field errors the result line shows its message exactly when the
   * result carries the form's action name.
   */
  lemma ActionResultShown(d: ActionData, actionName: string)
    requires d.fields.None?
    ensures ResultMessage([FromAction(d)], actionName) == (if d.action == Some(actionName) then d.message else None)
  {
    var entries := [FromAction(d)];
    if d.action == Some(actionName) {
      assert entries[0].action == Some(actionName) && entries[0].fields.None?;
      assert Seqs.Filter(entries, HasNoFields) == entries;
    }
  }
}
