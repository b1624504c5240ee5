/**
 * app/components/UsersTable.tsx: the searchable users table of the maintenance pages. The
 * search filter is a pure function of the term; the search term, the confirmation modal and
 * the user a delete or enable/disable request is about are component state. Navigation is
 * returned as the path navigated to.
 */
module UsersTable {
  import opened Wrappers
  import opened Types
  import Strings
  import Seqs

  /** The lowered role names of a user, none when the user has no role list. */
  function RoleNames(user: User): (names: seq<string>)
    ensures user.roles.None? ==> names == []
    ensures user.roles.Some? ==>
              (|names| == |user.roles.value|
               && forall i :: 0 <= i < |names| ==> names[i] == Strings.Lower(user.roles.value[i].name))
  {
    if user.roles.None? then []
    else seq(|user.roles.value|, i requires 0 <= i < |user.roles.value| => Strings.Lower(user.roles.value[i].name))
  }

  /** The filter's test: the term occurs in the lowered username, display name, e-mail or a role name. */
  predicate Matches(user: User, term: string) {
    Strings.Contains(Strings.Lower(user.username), term)
    || Strings.Contains(Strings.Lower(user.name), term)
    || Strings.Contains(Strings.Lower(user.email), term)
    || exists i :: 0 <= i < |RoleNames(user)| && Strings.Contains(RoleNames(user)[i], term)
  }

  function MatchesTerm(term: string): User -> bool {
    u => Matches(u, term)
  }

  /** The search filter: no rows without data; otherwise the matching users, in order. */
  function Filtered(data: Option<seq<User>>, term: string): (rows: Option<seq<User>>)
    ensures rows.Some? <==> data.Some?
    ensures rows.Some? ==> Seqs.IsSublist(rows.value, data.value)
    ensures rows.Some? ==> forall u :: u in rows.value <==> u in data.value && Matches(u, term)
  {
    if data.None? then None else Some(Seqs.Filter(data.value, MatchesTerm(term)))
  }

  /** The search keeps every occurrence of a matching user, and nothing else. */
  lemma FilteredCount(users: seq<User>, term: string)
    ensures forall u :: multiset(Filtered(Some(users), term).value)[u] == if Matches(u, term) then multiset(users)[u] else 0
  {
    Seqs.FilterCount(users, MatchesTerm(term));
  }

  /** An empty search keeps every user. */
  lemma EmptyTermKeepsAll(users: seq<User>)
    ensures Filtered(Some(users), []) == Some(users)
  {
    forall u | u in users ensures Matches(u, []) {
      Strings.ContainsEmpty(Strings.Lower(u.username));
    }
    Seqs.FilterAll(users, MatchesTerm([]));
  }

  /** Whatever the case it was typed in, text found in a username finds that user. */
  lemma TypedUsernameFindsUser(users: seq<User>, u: User, typed: string)
    requires u in users && Strings.Contains(u.username, typed)
    ensures u in Filtered(Some(users), Strings.Lower(typed)).value
  {
    Strings.ContainsLower(u.username, typed);
  }

  /** Typing more narrows the search: a user shown for the longer term is shown for any part of it. */
  lemma LongerTermShowsFewer(users: seq<User>, term: string, longer: string)
    requires Strings.Contains(longer, term)
    ensures forall u :: u in Filtered(Some(users), longer).value ==> u in Filtered(Some(users), term).value
  {
    forall u | Matches(u, longer) ensures Matches(u, term) {
      if Strings.Contains(Strings.Lower(u.username), longer) {
        Strings.ContainsTransitive(Strings.Lower(u.username), longer, term);
      } else if Strings.Contains(Strings.Lower(u.name), longer) {
        Strings.ContainsTransitive(Strings.Lower(u.name), longer, term);
      } else if Strings.Contains(Strings.Lower(u.email), longer) {
        Strings.ContainsTransitive(Strings.Lower(u.email), longer, term);
      } else {
        var i :| 0 <= i < |RoleNames(u)| && Strings.Contains(RoleNames(u)[i], longer);
        Strings.ContainsTransitive(RoleNames(u)[i], longer, term);
      }
    }
  }

  /** A user without a role list is found only through its username, display name or e-mail. */
  lemma NoRolesMatchesOnOwnFields(user: User, term: string)
    requires user.roles.None?
    ensures Matches(user, term) <==>
      Strings.Contains(Strings.Lower(user.username), term)
      || Strings.Contains(Strings.Lower(user.name), term)
      || Strings.Contains(Strings.Lower(user.email), term)
  {
  }

  /** The user an enable/disable confirmation is about, and what it will do. */
  datatype EnableRequest = EnableRequest(id: string, enable: bool)

  /** `navigateToUser`: no navigation for an empty id or a click on a link or an icon. */
  function RowClick(userId: string, tagName: string): (target: Option<string>)
    ensures target.None? <==> userId == [] || tagName in {"a", "svg", "path"}
    ensures target.Some? ==> target.value == "/maintenance/users/" + userId
  {
    if userId == [] then None
    else if tagName == "a" || tagName == "svg" || tagName == "path" then None
    else Some("/maintenance/users/" + userId)
  }

  /** The component's state. */
  class Table {
    var searchTerm: string
    var isConfirmationModalOpen: bool
    var deleteUserId: Option<string>
    var enableUser: Option<EnableRequest>

    constructor ()
      ensures searchTerm == [] && !isConfirmationModalOpen && deleteUserId.None? && enableUser.None?
    {
      searchTerm := [];
      isConfirmationModalOpen := false;
      deleteUserId := None;
      enableUser := None;
    }

    /** The search input's `onChange` stores the lowered text. */
    method Search(input: string)
      modifies this
      ensures searchTerm == Strings.Lower(input)
      ensures isConfirmationModalOpen == old(isConfirmationModalOpen)
      ensures deleteUserId == old(deleteUserId) && enableUser == old(enableUser)
    {
      searchTerm := Strings.Lower(input);
    }

    /** The delete icon of a row. */
    method RequestDelete(user: User)
      modifies this
      ensures deleteUserId == Some(user.id) && isConfirmationModalOpen
      ensures searchTerm == old(searchTerm) && enableUser == old(enableUser)
    {
      deleteUserId := Some(user.id);
      isConfirmationModalOpen := true;
    }

    /** The enabled/disabled icon of a row asks to flip the user's state. */
    method RequestToggle(user: User)
      modifies this
      ensures enableUser == Some(EnableRequest(user.id, !user.enabled)) && isConfirmationModalOpen
      ensures searchTerm == old(searchTerm) && deleteUserId == old(deleteUserId)
    {
      enableUser := Some(EnableRequest(user.id, !user.enabled));
      isConfirmationModalOpen := true;
    }

    /** The modal's `onClose`. */
    method CloseModal()
      modifies this
      ensures !isConfirmationModalOpen
      ensures searchTerm == old(searchTerm) && deleteUserId == old(deleteUserId) && enableUser == old(enableUser)
    {
      isConfirmationModalOpen := false;
    }

    /** `handleConfirmDelete`: without a user id only the modal closes. */
    method ConfirmDelete() returns (target: Option<string>)
      modifies this
      ensures target.None? <==> !Truthy(old(deleteUserId))
      ensures target.Some? ==> target.value == "/maintenance/users/" + old(deleteUserId).value + "/delete"
      ensures isConfirmationModalOpen == (old(isConfirmationModalOpen) && target.Some?)
      ensures searchTerm == old(searchTerm) && deleteUserId == old(deleteUserId) && enableUser == old(enableUser)
    {
      if !Truthy(deleteUserId) {
        isConfirmationModalOpen := false;
        return None;
      }
      target := Some("/maintenance/users/" + deleteUserId.value + "/delete");
    }

    /** `handleToggleEnabled`: without a pending request only the modal closes. */
    method ConfirmToggle() returns (target: Option<string>)
      modifies this
      ensures target.None? <==> old(enableUser).None?
      ensures target.Some? ==> target.value == "/maintenance/users/" + old(enableUser).value.id + "/toggleEnabled"
      ensures isConfirmationModalOpen == (old(isConfirmationModalOpen) && target.Some?)
      ensures searchTerm == old(searchTerm) && deleteUserId == old(deleteUserId) && enableUser == old(enableUser)
    {
      if enableUser.None? {
        isConfirmationModalOpen := false;
        return None;
      }
      target := Some("/maintenance/users/" + enableUser.value.id + "/toggleEnabled");
    }
  }
}
