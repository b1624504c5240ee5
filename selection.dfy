/**
 * The pick lists of the user and role forms: the roles chosen for a new user
 * (app/routes/maintenance/users/newUser.tsx) and the permissions chosen for a new role
 * (app/routes/maintenance/roles/newRole.tsx). A name is added from a dropdown of the
 * existing entries not yet chosen, removed by its cross, and the list is submitted as one
 * hidden field holding the names joined with ",".
 */
module Selection {
  import Seqs
  import Strings

  /** What the handlers keep true of a pick list: no empty name and no name twice. */
  predicate WellFormed(items: seq<string>) {
    Seqs.NoDuplicates(items) && [] !in items
  }

  /** The `onChange` of the dropdown: a chosen, non-empty, not-yet-selected name is appended. */
  function Added(items: seq<string>, name: string): (r: seq<string>)
    ensures name != [] && name !in items ==> r == items + [name]
    ensures name == [] || name in items ==> r == items
    ensures WellFormed(items) ==> WellFormed(r)
  {
    if name != [] && name !in items then items + [name] else items
  }

  function Other(name: string): string -> bool {
    x => x != name
  }

  /** The cross of a chosen name: every other name, in order. */
  function Removed(items: seq<string>, name: string): (r: seq<string>)
    ensures Seqs.IsSublist(r, items)
    ensures name !in r
    ensures forall x :: x != name ==> (x in r <==> x in items)
    ensures WellFormed(items) ==> WellFormed(r)
  {
    var r := Seqs.Filter(items, Other(name));
    assert WellFormed(items) ==> WellFormed(r) by {
      if WellFormed(items) {
        Seqs.SublistNoDuplicates(r, items);
      }
    }
    r
  }

  /** The existing entries whose names are not chosen, in order. */
  function Offered<T(==,!new)>(existing: seq<T>, nameOf: T -> string, items: seq<string>): (r: seq<T>)
    ensures Seqs.IsSublist(r, existing)
    ensures forall e :: e in r <==> e in existing && nameOf(e) !in items
  {
    Seqs.Filter(existing, (e: T) => nameOf(e) !in items)
  }

  /** The hidden form field: the chosen names joined with commas. */
  function Submitted(items: seq<string>): string {
    Strings.Join(items, ",")
  }

  /** The list as React state, replaced by each handler. */
  class PickList {
    var items: seq<string>

    constructor ()
      ensures items == []
    {
      items := [];
    }

    method Add(name: string)
      modifies this
      ensures items == Added(old(items), name)
    {
      if name != [] && name !in items {
        items := items + [name];
      }
    }

    method Remove(name: string)
      modifies this
      ensures items == Removed(old(items), name)
    {
      items := Seqs.Filter(items, Other(name));
    }
  }

  /** Removing a name just added restores the list. */
  lemma RemoveUndoesAdd(items: seq<string>, name: string)
    requires name !in items
    ensures Removed(Added(items, name), name) == items
  {
    Seqs.FilterAll(items, Other(name));
    if name != [] {
      Seqs.FilterAppend(items, [name], Other(name));
      assert Seqs.Filter([name], Other(name)) == [];
    }
  }

  /** Choosing an offered entry with a name appends exactly that name. */
  lemma AddOffered<T(!new)>(existing: seq<T>, nameOf: T -> string, items: seq<string>, e: T)
    requires e in Offered(existing, nameOf, items) && nameOf(e) != []
    ensures Added(items, nameOf(e)) == items + [nameOf(e)]
    ensures e !in Offered(existing, nameOf, Added(items, nameOf(e)))
  {
  }

  /**
   * Without commas and edge whitespace in the names, the service's comma-split of the
   * submitted field gives back the list, the empty list included.
   */
  lemma SubmittedSplitsBack(items: seq<string>)
    requires WellFormed(items)
    requires forall i :: 0 <= i < |items| ==> ',' !in items[i] && Strings.Untrimmed(items[i])
    ensures items != [] ==> Strings.Split(Submitted(items), ',') == items
    ensures items == [] <==> Submitted(items) == []
  {
    if items != [] {
      Strings.SplitJoin(items, ',');
      assert items[0] in items;
      assert Submitted(items)[0] == items[0][0];
    }
  }

  /** A run of picks: `(true, name)` adds a name, `(false, name)` removes one. */
  function ApplyPicks(items: seq<string>, picks: seq<(bool, string)>): seq<string>
    decreases |picks|
  {
    if picks == [] then items
    else
      var next := if picks[0].0 then Added(items, picks[0].1) else Removed(items, picks[0].1);
      ApplyPicks(next, picks[1..])
  }

  /** Whatever is picked, the list stays free of duplicates and empty names. */
  lemma {:induction false} PicksKeepWellFormed(items: seq<string>, picks: seq<(bool, string)>)
    requires WellFormed(items)
    ensures WellFormed(ApplyPicks(items, picks))
    decreases |picks|
  {
    if picks != [] {
      var next := if picks[0].0 then Added(items, picks[0].1) else Removed(items, picks[0].1);
      PicksKeepWellFormed(next, picks[1..]);
    }
  }
}
