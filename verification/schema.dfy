/** Small pure helpers over schema listings: hiding the server's own
    databases in the open-project dialog, and grouping foreign keys by
    table in the relationship viewer. */
module Schema {
  import opened Wrappers
  import Recency
  import Session

  const SystemDatabases: seq<string> := ["information_schema", "mysql", "performance_schema", "sys"]

  predicate IsSystemDatabase(v: Session.Value) {
    v.VText? && v.s in SystemDatabases
  }

  /** The databases listed in the open-project dialog, in server order. */
  function UserDatabases(databases: seq<Session.Value>): (r: seq<Session.Value>)
    ensures forall i | 0 <= i < |r| :: r[i] in databases && !IsSystemDatabase(r[i])
    ensures forall i | 0 <= i < |databases| && !IsSystemDatabase(databases[i]) :: databases[i] in r
    ensures Recency.SubsequenceOf(r, databases)
  {
    Recency.TakeWithoutIsSubsequence(databases, IsSystemDatabase, true, |databases|);
    Recency.Without(databases, IsSystemDatabase, true)
  }

  /** One row of the foreign-key query: `(table, column, referenced table,
      referenced column)`. */
  datatype ForeignKey = ForeignKey(table: string, column: string, refTable: string, refColumn: string)

  /** What the viewer lists under a table: `(column, ref_table, ref_column)`. */
  datatype Reference = Reference(column: string, refTable: string, refColumn: string)

  datatype Group = Group(table: string, references: seq<Reference>)

  function ReferenceOf(fk: ForeignKey): Reference {
    Reference(fk.column, fk.refTable, fk.refColumn)
  }

  /** The tables of `fks`, each once, in order of first appearance. */
  function FirstSeenTables(fks: seq<ForeignKey>): (r: seq<string>)
    ensures forall i, j | 0 <= i < j < |r| :: r[i] != r[j]
    ensures forall i | 0 <= i < |fks| :: fks[i].table in r
  {
    if fks == [] then []
    else
      var init := fks[..|fks| - 1];
      var last := fks[|fks| - 1];
      var seen := FirstSeenTables(init);
      assert forall i | 0 <= i < |init| :: init[i] == fks[i];
      if last.table in seen then seen else seen + [last.table]
  }

  /** Every table in the order occurs in the listing. */
  lemma {:induction false} FirstSeenTablesOnlyListed(fks: seq<ForeignKey>)
    ensures forall i | 0 <= i < |FirstSeenTables(fks)| ::
              exists j | 0 <= j < |fks| :: fks[j].table == FirstSeenTables(fks)[i]
  {
    if fks != [] {
      var n := |fks| - 1;
      var init := fks[..n];
      FirstSeenTablesOnlyListed(init);
      var seen := FirstSeenTables(init);
      var r := FirstSeenTables(fks);
      assert r == if fks[n].table in seen then seen else seen + [fks[n].table];
      forall i | 0 <= i < |r|
        ensures exists j | 0 <= j < |fks| :: fks[j].table == r[i]
      {
        if i < |seen| {
          var j :| 0 <= j < |init| && init[j].table == seen[i];
          assert fks[j] == init[j];
          assert fks[j].table == r[i];
        } else {
          assert fks[n].table == r[i];
        }
      }
    } else {
      assert FirstSeenTables(fks) == [];
    }
  }

  /** The references of `table`'s foreign keys, in their original order. */
  function ReferencesOf(fks: seq<ForeignKey>, table: string): seq<Reference> {
    if fks == [] then []
    else
      var last := fks[|fks| - 1];
      ReferencesOf(fks[..|fks| - 1], table) + (if last.table == table then [ReferenceOf(last)] else [])
  }

  /** Position of the group for `table`, if there is one. */
  function GroupIndex(groups: seq<Group>, table: string): (r: Option<nat>)
    ensures r.Some? ==> r.value < |groups| && groups[r.value].table == table
    ensures r.None? ==> forall i | 0 <= i < |groups| :: groups[i].table != table
  {
    if groups == [] then None
    else if groups[|groups| - 1].table == table then Some(|groups| - 1)
    else GroupIndex(groups[..|groups| - 1], table)
  }

  /** Extending the listing by one key adds its table when it is new. */
  lemma FirstSeenStep(fks: seq<ForeignKey>, i: nat)
    requires i < |fks|
    ensures var seen := FirstSeenTables(fks[..i]);
            FirstSeenTables(fks[..i + 1]) == if fks[i].table in seen then seen else seen + [fks[i].table]
  {
    var p := fks[..i + 1];
    assert p[..|p| - 1] == fks[..i];
  }

  /** Extending the listing by one key adds its reference to its table only. */
  lemma ReferencesStep(fks: seq<ForeignKey>, i: nat, table: string)
    requires i < |fks|
    ensures ReferencesOf(fks[..i + 1], table)
         == ReferencesOf(fks[..i], table) + (if fks[i].table == table then [ReferenceOf(fks[i])] else [])
  {
    var p := fks[..i + 1];
    assert p[..|p| - 1] == fks[..i];
  }

  /** A table that never appears has no references. */
  lemma {:induction false} ReferencesAbsent(fks: seq<ForeignKey>, table: string)
    requires table !in FirstSeenTables(fks)
    ensures ReferencesOf(fks, table) == []
  {
    if fks != [] {
      var init := fks[..|fks| - 1];
      assert forall i | 0 <= i < |init| :: init[i] == fks[i];
      ReferencesAbsent(init, table);
    }
  }

  /** `groups` is the grouping of `fks`: one group per table in order of
      first appearance, each holding that table's references in order. */
  predicate GroupsOf(groups: seq<Group>, fks: seq<ForeignKey>) {
    && |groups| == |FirstSeenTables(fks)|
    && (forall j | 0 <= j < |groups| :: groups[j].table == FirstSeenTables(fks)[j])
    && (forall j | 0 <= j < |groups| :: groups[j].references == ReferencesOf(fks, groups[j].table))
  }

  /** One step of the loop: create the table's group if missing, then
      append the reference to it. */
  function AddReference(groups: seq<Group>, fk: ForeignKey): seq<Group> {
    match GroupIndex(groups, fk.table)
    case Some(k) => groups[k := Group(fk.table, groups[k].references + [ReferenceOf(fk)])]
    case None => groups + [Group(fk.table, [ReferenceOf(fk)])]
  }

  /** Adding a key whose table already has a group. */
  lemma AddToExistingGroup(fks: seq<ForeignKey>, i: nat, groups: seq<Group>, k: nat)
    requires i < |fks| && GroupsOf(groups, fks[..i])
    requires k < |groups| && groups[k].table == fks[i].table
    ensures GroupsOf(groups[k := Group(fks[i].table, groups[k].references + [ReferenceOf(fks[i])])], fks[..i + 1])
  {
    var fk := fks[i];
    var seen := FirstSeenTables(fks[..i]);
    FirstSeenStep(fks, i);
    assert fk.table in seen by { assert seen[k] == fk.table; }
    var after := groups[k := Group(fk.table, groups[k].references + [ReferenceOf(fk)])];
    forall j | 0 <= j < |after|
      ensures after[j].references == ReferencesOf(fks[..i + 1], after[j].table)
    {
      ReferencesStep(fks, i, after[j].table);
      if j != k {
        assert seen[j] != seen[k];
      }
    }
  }

  /** Adding a key whose table has no group yet. */
  lemma AddNewGroup(fks: seq<ForeignKey>, i: nat, groups: seq<Group>)
    requires i < |fks| && GroupsOf(groups, fks[..i])
    requires forall j | 0 <= j < |groups| :: groups[j].table != fks[i].table
    ensures GroupsOf(groups + [Group(fks[i].table, [ReferenceOf(fks[i])])], fks[..i + 1])
  {
    var fk := fks[i];
    var after := groups + [Group(fk.table, [ReferenceOf(fk)])];
    NewTableOrder(fks, i, groups);
    forall j | 0 <= j < |after|
      ensures after[j].references == ReferencesOf(fks[..i + 1], after[j].table)
    {
      if j < |groups| {
        assert after[j] == groups[j];
        ReferencesStep(fks, i, groups[j].table);
      } else {
        NewTableReferences(fks, i);
      }
    }
  }

  /** A key whose table has no group yet appends that table to the order. */
  lemma NewTableOrder(fks: seq<ForeignKey>, i: nat, groups: seq<Group>)
    requires i < |fks| && GroupsOf(groups, fks[..i])
    requires forall j | 0 <= j < |groups| :: groups[j].table != fks[i].table
    ensures fks[i].table !in FirstSeenTables(fks[..i])
    ensures FirstSeenTables(fks[..i + 1]) == FirstSeenTables(fks[..i]) + [fks[i].table]
    ensures var after := groups + [Group(fks[i].table, [ReferenceOf(fks[i])])];
            forall j | 0 <= j < |after| :: after[j].table == FirstSeenTables(fks[..i + 1])[j]
  {
    var seen := FirstSeenTables(fks[..i]);
    FirstSeenStep(fks, i);
    forall j | 0 <= j < |seen| ensures seen[j] != fks[i].table {
      assert groups[j].table == seen[j];
    }
  }

  /** The first key of a table opens its list with its own reference. */
  lemma NewTableReferences(fks: seq<ForeignKey>, i: nat)
    requires i < |fks| && fks[i].table !in FirstSeenTables(fks[..i])
    ensures ReferencesOf(fks[..i + 1], fks[i].table) == [ReferenceOf(fks[i])]
  {
    ReferencesStep(fks, i, fks[i].table);
    ReferencesAbsent(fks[..i], fks[i].table);
  }

  /** The grouping loop of the relationship viewer (a dictionary keyed by
      table, filled in listing order). */
  method GroupByTable(fks: seq<ForeignKey>) returns (groups: seq<Group>)
    ensures |groups| == |FirstSeenTables(fks)|
    ensures forall i | 0 <= i < |groups| :: groups[i].table == FirstSeenTables(fks)[i]
    ensures forall i | 0 <= i < |groups| :: groups[i].references == ReferencesOf(fks, groups[i].table)
  {
    groups := [];
    var i := 0;
    while i < |fks|
      invariant 0 <= i <= |fks|
      invariant GroupsOf(groups, fks[..i])
    {
      var fk := fks[i];
      match GroupIndex(groups, fk.table) {
        case Some(k) => AddToExistingGroup(fks, i, groups, k);
        case None => AddNewGroup(fks, i, groups);
      }
      groups := AddReference(groups, fk);
      i := i + 1;
    }
    assert fks[..i] == fks;
  }
}
