/**
 * app/components/RolesTable.tsx: the searchable roles table of the maintenance pages, with
 * a preview of at most three permissions per role. The search term, the confirmation modal
 * and the role a delete request is about are component state.
 */
module RolesTable {
  import opened Wrappers
  import opened Types
  import Strings
  import Seqs

  /** The lowered permission names of a role, none when the role has no list. */
  function PermissionNames(role: UserRole): (names: seq<string>)
    ensures role.permissions.None? ==> names == []
    ensures role.permissions.Some? ==>
              (|names| == |role.permissions.value|
               && forall i :: 0 <= i < |names| ==> names[i] == Strings.Lower(role.permissions.value[i].name))
  {
    if role.permissions.None? then []
    else seq(|role.permissions.value|, i requires 0 <= i < |role.permissions.value| => Strings.Lower(role.permissions.value[i].name))
  }

  /** The filter's test: the term occurs in the lowered name, description (empty when absent) or a permission name. */
  predicate Matches(role: UserRole, term: string) {
    Strings.Contains(Strings.Lower(role.name), term)
    || Strings.Contains(Strings.Lower(role.description.GetOr([])), term)
    || exists i :: 0 <= i < |PermissionNames(role)| && Strings.Contains(PermissionNames(role)[i], term)
  }

  function MatchesTerm(term: string): UserRole -> bool {
    r => Matches(r, term)
  }

  /** The search filter: no rows without data; otherwise the matching roles, in order. */
  function Filtered(data: Option<seq<UserRole>>, term: string): (rows: Option<seq<UserRole>>)
    ensures rows.Some? <==> data.Some?
    ensures rows.Some? ==> Seqs.IsSublist(rows.value, data.value)
    ensures rows.Some? ==> forall r :: r in rows.value <==> r in data.value && Matches(r, term)
  {
    if data.None? then None else Some(Seqs.Filter(data.value, MatchesTerm(term)))
  }

  /** The search keeps every occurrence of a matching role, and nothing else. */
  lemma FilteredCount(roles: seq<UserRole>, term: string)
    ensures forall r :: multiset(Filtered(Some(roles), term).value)[r] == if Matches(r, term) then multiset(roles)[r] else 0
  {
    Seqs.FilterCount(roles, MatchesTerm(term));
  }

  /** An empty search keeps every role. */
  lemma EmptyTermKeepsAll(roles: seq<UserRole>)
    ensures Filtered(Some(roles), []) == Some(roles)
  {
    forall r | r in roles ensures Matches(r, []) {
      Strings.ContainsEmpty(Strings.Lower(r.name));
    }
    Seqs.FilterAll(roles, MatchesTerm([]));
  }

  /** Typing more narrows the search: a role shown for the longer term is shown for any part of it. */
  lemma LongerTermShowsFewer(roles: seq<UserRole>, term: string, longer: string)
    requires Strings.Contains(longer, term)
    ensures forall r :: r in Filtered(Some(roles), longer).value ==> r in Filtered(Some(roles), term).value
  {
    forall r | Matches(r, longer) ensures Matches(r, term) {
      if Strings.Contains(Strings.Lower(r.name), longer) {
        Strings.ContainsTransitive(Strings.Lower(r.name), longer, term);
      } else if Strings.Contains(Strings.Lower(r.description.GetOr([])), longer) {
        Strings.ContainsTransitive(Strings.Lower(r.description.GetOr([])), longer, term);
      } else {
        var i :| 0 <= i < |PermissionNames(r)| && Strings.Contains(PermissionNames(r)[i], longer);
        Strings.ContainsTransitive(PermissionNames(r)[i], longer, term);
      }
    }
  }

  /** A role is found by any part of one of its permission names, in whatever case it was typed. */
  lemma FoundByPermission(roles: seq<UserRole>, r: UserRole, i: nat, typed: string)
    requires r in roles && r.permissions.Some? && i < |r.permissions.value|
    requires Strings.Contains(r.permissions.value[i].name, typed)
    ensures r in Filtered(Some(roles), Strings.Lower(typed)).value
  {
    Strings.ContainsLower(r.permissions.value[i].name, typed);
    assert Strings.Contains(PermissionNames(r)[i], Strings.Lower(typed));
  }

  /** The permissions cell of a row. */
  datatype PermissionCell = NoPermissions | Chips(names: seq<string>, more: bool)

  /** "No permissions", or the first three names and "more..." when there are more than three. */
  function Preview(role: UserRole): (cell: PermissionCell)
    ensures cell.NoPermissions? <==> role.permissions.None? || role.permissions.value == []
    ensures cell.Chips? ==>
              (|cell.names| == (if |role.permissions.value| < 3 then |role.permissions.value| else 3)
               && (forall i :: 0 <= i < |cell.names| ==> cell.names[i] == role.permissions.value[i].name)
               && (cell.more <==> |role.permissions.value| > 3))
  {
    if role.permissions.None? || role.permissions.value == [] then NoPermissions
    else
      var shown := if |role.permissions.value| < 3 then role.permissions.value else role.permissions.value[..3];
      Chips(seq(|shown|, i requires 0 <= i < |shown| => shown[i].name), |role.permissions.value| > 3)
  }

  /** Every permission of a role with at most three is shown, and nothing says there are more. */
  lemma SmallRoleShownInFull(role: UserRole)
    requires role.permissions.Some? && 0 < |role.permissions.value| <= 3
    ensures Preview(role).Chips? && !Preview(role).more
    ensures forall p :: p in role.permissions.value ==> p.name in Preview(role).names
  {
    forall p | p in role.permissions.value ensures p.name in Preview(role).names {
      var i :| 0 <= i < |role.permissions.value| && role.permissions.value[i] == p;
      assert Preview(role).names[i] == p.name;
    }
  }

  /** `navigateToRole`: no navigation without an id or for a click on a link or an icon. */
  function RowClick(roleId: Option<string>, tagName: string): (target: Option<string>)
    ensures target.None? <==> !Truthy(roleId) || tagName in {"a", "svg", "path"}
    ensures target.Some? ==> target.value == "/maintenance/roles/" + roleId.value
  {
    if !Truthy(roleId) then None
    else if tagName == "a" || tagName == "svg" || tagName == "path" then None
    else Some("/maintenance/roles/" + roleId.value)
  }

  /** The component's state. */
  class Table {
    var searchTerm: string
    var isConfirmationModalOpen: bool
    var deleteRoleId: Option<string>

    constructor ()
      ensures searchTerm == [] && !isConfirmationModalOpen && deleteRoleId.None?
    {
      searchTerm := [];
      isConfirmationModalOpen := false;
      deleteRoleId := None;
    }

    /** The search input's `onChange` stores the lowered text. */
    method Search(input: string)
      modifies this
      ensures searchTerm == Strings.Lower(input)
      ensures isConfirmationModalOpen == old(isConfirmationModalOpen) && deleteRoleId == old(deleteRoleId)
    {
      searchTerm := Strings.Lower(input);
    }

    /** The delete icon of a row: a role without an id is recorded as none. */
    method RequestDelete(role: UserRole)
      modifies this
      ensures deleteRoleId == role.id && isConfirmationModalOpen
      ensures searchTerm == old(searchTerm)
    {
      deleteRoleId := role.id;
      isConfirmationModalOpen := true;
    }

    /** The modal's `onClose`. */
    method CloseModal()
      modifies this
      ensures !isConfirmationModalOpen
      ensures searchTerm == old(searchTerm) && deleteRoleId == old(deleteRoleId)
    {
      isConfirmationModalOpen := false;
    }

    /** `handleConfirmDelete`: without a role id only the modal closes. */
    method ConfirmDelete() returns (target: Option<string>)
      modifies this
      ensures target.None? <==> !Truthy(old(deleteRoleId))
      ensures target.Some? ==> target.value == "/maintenance/roles/" + old(deleteRoleId).value + "/delete"
      ensures isConfirmationModalOpen == (old(isConfirmationModalOpen) && target.Some?)
      ensures searchTerm == old(searchTerm) && deleteRoleId == old(deleteRoleId)
    {
      if !Truthy(deleteRoleId) {
        isConfirmationModalOpen := false;
        return None;
      }
      target := Some("/maintenance/roles/" + deleteRoleId.value + "/delete");
    }
  }
}
