/** The SQL text built by the table designer (`create_table`) and the
    add-row dialog (`insert_row`). */
module Statements {
  import opened Wrappers
  import opened Text
  import Session
  import Recency

  /** One row of the table designer's column list: name, data type,
      size/length, the Primary Key and Not Null marks, and the default. */
  datatype ColumnSpec = ColumnSpec(name: string, dataType: string, size: string,
                                   primaryKey: bool, notNull: bool, default: string)

  function Quote(name: string): string { "`" + name + "`" }

  /** `` `name` TYPE `` */
  function Head(c: ColumnSpec): string { Quote(c.name) + " " + c.dataType }

  /** A size is written only for VARCHAR and CHAR, and only when given. */
  predicate Sized(c: ColumnSpec) {
    (c.dataType == "VARCHAR" || c.dataType == "CHAR") && c.size != ""
  }

  /** The constraint part of a column definition. */
  function Constraints(c: ColumnSpec): string {
    (if c.primaryKey || c.notNull then " NOT NULL" else "")
    + (if c.default != "" then " DEFAULT '" + c.default + "'" else "")
  }

  /** One column definition: the head, the size in parentheses when it
      applies, then the constraints. */
  function ColumnClause(c: ColumnSpec): string {
    Head(c) + (if Sized(c) then "(" + c.size + ")" else "") + Constraints(c)
  }

  /** A column's constraints start with NOT NULL exactly when it is a
      primary key or marked Not Null, and end with a quoted default exactly
      when a default is given. */
  lemma ConstraintsShape(c: ColumnSpec)
    ensures var r := Constraints(c);
            && ((c.primaryKey || c.notNull) <==> (|r| >= 9 && r[..9] == " NOT NULL"))
            && (c.default != "" <==> (|r| > 0 && r[|r| - 1] == '\''))
  {
    var notNull := if c.primaryKey || c.notNull then " NOT NULL" else "";
    var default := if c.default != "" then " DEFAULT '" + c.default + "'" else "";
    assert Constraints(c) == notNull + default;
    assert (notNull + default)[..|notNull|] == notNull;
    assert notNull == "" && default != "" ==> (notNull + default)[1] == 'D';
  }

  /** A column definition reads `` `name` TYPE ``, then `(size)` for a sized
      VARCHAR or CHAR column and nothing otherwise, then the constraints. */
  lemma ColumnClauseShape(c: ColumnSpec)
    ensures var r := ColumnClause(c);
            && |r| == |Head(c)| + (if Sized(c) then |c.size| + 2 else 0) + |Constraints(c)|
            && r[..|Head(c)|] == Head(c)
            && (Sized(c) ==> r[|Head(c)|..|Head(c)| + |c.size| + 2] == "(" + c.size + ")")
            && r[|r| - |Constraints(c)|..] == Constraints(c)
  {
  }

  /** Some column is marked Primary Key. */
  predicate AnyPrimaryKey(cols: seq<ColumnSpec>) {
    exists i | 0 <= i < |cols| :: cols[i].primaryKey
  }

  /** The quoted names of the primary key columns, in column order. */
  function PrimaryKeyNames(cols: seq<ColumnSpec>): (r: seq<string>)
    ensures |r| <= |cols|
    ensures r == [] <==> !AnyPrimaryKey(cols)
  {
    if cols == [] then []
    else
      var last := cols[|cols| - 1];
      assert forall i | 0 <= i < |cols| - 1 :: cols[..|cols| - 1][i] == cols[i];
      PrimaryKeyNames(cols[..|cols| - 1]) + (if last.primaryKey then [Quote(last.name)] else [])
  }

  /** Extending the column list by one column extends the key list by that
      column's name when it is a primary key. */
  lemma PrimaryKeyNamesStep(cols: seq<ColumnSpec>, i: nat)
    requires i < |cols|
    ensures PrimaryKeyNames(cols[..i + 1])
         == PrimaryKeyNames(cols[..i]) + (if cols[i].primaryKey then [Quote(cols[i].name)] else [])
  {
    var p := cols[..i + 1];
    assert p[..|p| - 1] == cols[..i];
  }

  /** The key list holds the quoted name of every primary-key column and
      nothing else. */
  lemma {:induction false} PrimaryKeyNamesMembers(cols: seq<ColumnSpec>)
    ensures forall i | 0 <= i < |cols| && cols[i].primaryKey :: Quote(cols[i].name) in PrimaryKeyNames(cols)
    ensures forall j | 0 <= j < |PrimaryKeyNames(cols)| ::
              exists i | 0 <= i < |cols| :: cols[i].primaryKey && PrimaryKeyNames(cols)[j] == Quote(cols[i].name)
  {
    if cols != [] {
      var n := |cols| - 1;
      var init := cols[..n];
      var r0 := PrimaryKeyNames(init);
      var r := PrimaryKeyNames(cols);
      PrimaryKeyNamesMembers(init);
      assert r == r0 + (if cols[n].primaryKey then [Quote(cols[n].name)] else []);
      forall i | 0 <= i < |cols| && cols[i].primaryKey
        ensures Quote(cols[i].name) in r
      {
        if i < n {
          assert init[i] == cols[i];
          assert Quote(init[i].name) in r0;
        }
      }
      forall j | 0 <= j < |r|
        ensures exists i | 0 <= i < |cols| :: cols[i].primaryKey && r[j] == Quote(cols[i].name)
      {
        if j < |r0| {
          var i :| 0 <= i < |init| && init[i].primaryKey && r0[j] == Quote(init[i].name);
          assert cols[i] == init[i];
          assert cols[i].primaryKey && r[j] == Quote(cols[i].name);
        } else {
          assert cols[n].primaryKey && r[j] == Quote(cols[n].name);
        }
      }
    } else {
      assert PrimaryKeyNames(cols) == [];
    }
  }

  function PrimaryKeyClause(cols: seq<ColumnSpec>): string {
    "PRIMARY KEY (" + Join(PrimaryKeyNames(cols), ", ") + ")"
  }

  datatype BuildError = TableNameRequired | ColumnRequired

  /** The column definitions, one per column, in order. */
  function ColumnClauses(cols: seq<ColumnSpec>): (r: seq<string>)
    ensures |r| == |cols|
    ensures forall j | 0 <= j < |cols| :: r[j] == ColumnClause(cols[j])
  {
    if cols == [] then []
    else
      var init := cols[..|cols| - 1];
      assert forall j | 0 <= j < |init| :: init[j] == cols[j];
      ColumnClauses(init) + [ColumnClause(cols[|cols| - 1])]
  }

  lemma ColumnClausesStep(cols: seq<ColumnSpec>, i: nat)
    requires i < |cols|
    ensures ColumnClauses(cols[..i + 1]) == ColumnClauses(cols[..i]) + [ColumnClause(cols[i])]
  {
    var p := cols[..i + 1];
    assert p[..|p| - 1] == cols[..i];
  }

  /** The loop of `create_table`: one definition per column, and the
      quoted names of the primary key columns. */
  method ColumnDefinitions(cols: seq<ColumnSpec>) returns (defs: seq<string>, primaryKeys: seq<string>)
    ensures |defs| == |cols|
    ensures forall j | 0 <= j < |cols| :: defs[j] == ColumnClause(cols[j])
    ensures primaryKeys == PrimaryKeyNames(cols)
  {
    defs, primaryKeys := [], [];
    var i := 0;
    while i < |cols|
      invariant 0 <= i <= |cols|
      invariant defs == ColumnClauses(cols[..i])
      invariant primaryKeys == PrimaryKeyNames(cols[..i])
    {
      var c := cols[i];
      ColumnClausesStep(cols, i);
      PrimaryKeyNamesStep(cols, i);
      if c.primaryKey {
        primaryKeys := primaryKeys + [Quote(c.name)];
      }
      defs := defs + [ColumnClause(c)];
      i := i + 1;
    }
    assert cols[..i] == cols;
  }

  /** `create_table`: checks the stripped table name and the column list,
      then builds one definition per column and, when some column is a
      primary key, one trailing PRIMARY KEY clause. `clauses` is the list
      the statement joins. */
  method CreateTableStatement(tableName: string, cols: seq<ColumnSpec>)
    returns (r: Result<string, BuildError>, clauses: seq<string>)
    ensures r == Err(TableNameRequired) <==> Strip(tableName) == ""
    ensures r == Err(ColumnRequired) <==> Strip(tableName) != "" && cols == []
    ensures r.Ok? ==> |clauses| == |cols| + (if AnyPrimaryKey(cols) then 1 else 0)
    ensures r.Ok? ==> forall i | 0 <= i < |cols| :: clauses[i] == ColumnClause(cols[i])
    ensures r.Ok? && AnyPrimaryKey(cols) ==> clauses[|cols|] == PrimaryKeyClause(cols)
    ensures r.Ok? ==>
              r.value == "CREATE TABLE " + Quote(Strip(tableName)) + " (\n  " + Join(clauses, ",\n  ") + "\n)"
  {
    clauses := [];
    var name := Strip(tableName);
    if name == "" {
      return Err(TableNameRequired), clauses;
    }
    if cols == [] {
      return Err(ColumnRequired), clauses;
    }
    var primaryKeys;
    clauses, primaryKeys := ColumnDefinitions(cols);
    if primaryKeys != [] {
      clauses := clauses + ["PRIMARY KEY (" + Join(primaryKeys, ", ") + ")"];
    }
    r := Ok("CREATE TABLE " + Quote(name) + " (\n  " + Join(clauses, ",\n  ") + "\n)");
  }

  /** The non-empty entries, in column order: the statement's parameters. */
  function NonEmpty(entries: seq<string>): (r: seq<string>)
    ensures |r| <= |entries|
    ensures r == [] <==> forall i | 0 <= i < |entries| :: entries[i] == ""
    ensures forall i | 0 <= i < |r| :: r[i] != ""
  {
    if entries == [] then []
    else
      var last := entries[|entries| - 1];
      assert forall i | 0 <= i < |entries| - 1 :: entries[..|entries| - 1][i] == entries[i];
      NonEmpty(entries[..|entries| - 1]) + (if last != "" then [last] else [])
  }

  /** How many times `p` occurs in `xs`. */
  function Occurrences(xs: seq<string>, p: string): nat {
    if xs == [] then 0
    else Occurrences(xs[..|xs| - 1], p) + (if xs[|xs| - 1] == p then 1 else 0)
  }

  lemma NonEmptyStep(entries: seq<string>, i: nat)
    requires i < |entries|
    ensures NonEmpty(entries[..i + 1]) == NonEmpty(entries[..i]) + (if entries[i] != "" then [entries[i]] else [])
  {
    var p := entries[..i + 1];
    assert p[..|p| - 1] == entries[..i];
  }

  /** The placeholder `insert_row` writes for one entry. */
  function PlaceholderFor(entry: string): string {
    if entry != "" then "%s" else "NULL"
  }

  /** The placeholders for a row of entries, one per entry, in order. */
  function PlaceholderList(entries: seq<string>): (r: seq<string>)
    ensures |r| == |entries|
    ensures forall i | 0 <= i < |entries| :: r[i] == PlaceholderFor(entries[i])
  {
    if entries == [] then []
    else
      var init := entries[..|entries| - 1];
      assert forall i | 0 <= i < |init| :: init[i] == entries[i];
      PlaceholderList(init) + [PlaceholderFor(entries[|entries| - 1])]
  }

  lemma PlaceholderListStep(entries: seq<string>, i: nat)
    requires i < |entries|
    ensures PlaceholderList(entries[..i + 1]) == PlaceholderList(entries[..i]) + [PlaceholderFor(entries[i])]
  {
    var p := entries[..i + 1];
    assert p[..|p| - 1] == entries[..i];
  }

  lemma OccurrencesSnoc(xs: seq<string>, x: string, p: string)
    ensures Occurrences(xs + [x], p) == Occurrences(xs, p) + (if x == p then 1 else 0)
  {
    assert (xs + [x])[..|xs|] == xs;
  }

  /** There is one `%s` placeholder per parameter: the statement's
      placeholders and its parameters always agree in number. */
  lemma {:induction false} PlaceholdersMatchParameters(entries: seq<string>)
    ensures Occurrences(PlaceholderList(entries), "%s") == |NonEmpty(entries)|
  {
    if entries != [] {
      var n := |entries| - 1;
      var init := entries[..n];
      PlaceholdersMatchParameters(init);
      assert PlaceholderList(entries) == PlaceholderList(init) + [PlaceholderFor(entries[n])];
      OccurrencesSnoc(PlaceholderList(init), PlaceholderFor(entries[n]), "%s");
      assert "NULL" != "%s" by { assert |"NULL"| != |"%s"|; }
    }
  }

  /** One `DESCRIBE` row as the add-row dialog reads it: the column name
      (first field) and the Extra field (sixth). */
  datatype DescribedColumn = DescribedColumn(field: string, extra: string)

  /** A `DESCRIBE` row the add-row dialog asks a value for. */
  predicate Insertable(d: DescribedColumn) {
    d.extra != "auto_increment"
  }

  /** The columns offered for a new row: all but `auto_increment` ones. */
  function InsertableColumns(structure: seq<DescribedColumn>): (r: seq<string>)
    ensures |r| <= |structure|
    ensures forall j | 0 <= j < |structure| && Insertable(structure[j]) :: structure[j].field in r
  {
    if structure == [] then []
    else
      var rest := InsertableColumns(structure[1..]);
      assert forall j | 1 <= j < |structure| :: structure[j] == structure[1..][j - 1];
      if Insertable(structure[0]) then [structure[0].field] + rest else rest
  }

  /** Every offered column is the field of an insertable `DESCRIBE` row. */
  lemma {:induction false} InsertableColumnsOnlyOffered(structure: seq<DescribedColumn>, i: nat)
    requires i < |InsertableColumns(structure)|
    ensures exists j | 0 <= j < |structure| ::
              structure[j].field == InsertableColumns(structure)[i] && Insertable(structure[j])
  {
    var rest := InsertableColumns(structure[1..]);
    if Insertable(structure[0]) && i == 0 {
      assert structure[0].field == InsertableColumns(structure)[0];
    } else {
      var k := if Insertable(structure[0]) then i - 1 else i;
      assert InsertableColumns(structure)[i] == rest[k];
      InsertableColumnsOnlyOffered(structure[1..], k);
      var j :| 0 <= j < |structure[1..]| && structure[1..][j].field == rest[k] && Insertable(structure[1..][j]);
      assert structure[j + 1] == structure[1..][j];
    }
  }

  /** The column names of `DESCRIBE` rows, in row order. */
  function Fields(structure: seq<DescribedColumn>): (r: seq<string>)
    ensures |r| == |structure|
    ensures forall i | 0 <= i < |structure| :: r[i] == structure[i].field
  {
    seq(|structure|, i requires 0 <= i < |structure| => structure[i].field)
  }

  function Extra(d: DescribedColumn): string { d.extra }

  /** The offered columns are exactly the names of the rows left after
      dropping the `auto_increment` ones, each row once, in `DESCRIBE`
      order. */
  lemma InsertableColumnsInOrder(structure: seq<DescribedColumn>)
    ensures InsertableColumns(structure) == Fields(Recency.Without(structure, Extra, "auto_increment"))
    ensures Recency.SubsequenceOf(InsertableColumns(structure), Fields(structure))
  {
    InsertableColumnsFilter(structure);
    InsertableColumnsSubsequence(structure);
  }

  lemma FieldsCons(d: DescribedColumn, rows: seq<DescribedColumn>)
    ensures Fields([d] + rows) == [d.field] + Fields(rows)
  {
  }

  /** The offered columns are the fields of the rows a filter on the Extra
      field keeps. */
  lemma {:induction false} InsertableColumnsFilter(structure: seq<DescribedColumn>)
    ensures InsertableColumns(structure) == Fields(Recency.Without(structure, Extra, "auto_increment"))
  {
    if structure != [] {
      var tail := structure[1..];
      var rest := InsertableColumns(tail);
      var kept := Recency.Without(tail, Extra, "auto_increment");
      InsertableColumnsFilter(tail);
      assert rest == Fields(kept);
      if Insertable(structure[0]) {
        assert Extra(structure[0]) != "auto_increment";
        assert InsertableColumns(structure) == [structure[0].field] + rest;
        assert Recency.Without(structure, Extra, "auto_increment") == [structure[0]] + kept;
        FieldsCons(structure[0], kept);
      } else {
        assert Extra(structure[0]) == "auto_increment";
        assert InsertableColumns(structure) == rest;
        assert Recency.Without(structure, Extra, "auto_increment") == kept;
      }
    }
  }

  /** The offered columns keep the `DESCRIBE` order of their rows. */
  lemma {:induction false} InsertableColumnsSubsequence(structure: seq<DescribedColumn>)
    ensures Recency.SubsequenceOf(InsertableColumns(structure), Fields(structure))
  {
    if structure != [] {
      var tail := structure[1..];
      var rest := InsertableColumns(tail);
      InsertableColumnsSubsequence(tail);
      var fields := Fields(structure);
      assert fields[1..] == Fields(tail);
      if Insertable(structure[0]) {
        var r := InsertableColumns(structure);
        assert r == [structure[0].field] + rest;
        assert r[0] == fields[0] && r[1..] == rest;
      } else {
        assert InsertableColumns(structure) == rest;
        Recency.SubsequenceOfTail(rest, fields);
      }
    }
  }

  /** The loop of `insert_row`: one placeholder per entry, `%s` for a
      filled one and `NULL` for an empty one, and the filled entries. */
  method Placeholders(entries: seq<string>) returns (placeholders: seq<string>, values: seq<string>)
    ensures placeholders == PlaceholderList(entries)
    ensures values == NonEmpty(entries)
  {
    values, placeholders := [], [];
    var i := 0;
    while i < |entries|
      invariant 0 <= i <= |entries|
      invariant placeholders == PlaceholderList(entries[..i])
      invariant values == NonEmpty(entries[..i])
    {
      var value := entries[i];
      NonEmptyStep(entries, i);
      PlaceholderListStep(entries, i);
      if value != "" {
        values := values + [value];
        placeholders := placeholders + ["%s"];
      } else {
        placeholders := placeholders + ["NULL"];
      }
      i := i + 1;
    }
    assert entries[..i] == entries;
  }

  /** `insert_row`: the statement over all offered columns, with the
      filled entries as its parameters; no statement when every entry is
      empty. `entries[i]` is the text typed for `columns[i]`. */
  method InsertStatement(table: string, columns: seq<string>, entries: seq<string>)
    returns (r: Option<Session.Statement>, placeholders: seq<string>)
    requires |entries| == |columns|
    ensures |placeholders| == |columns|
    ensures forall i | 0 <= i < |columns| :: placeholders[i] == (if entries[i] != "" then "%s" else "NULL")
    ensures Occurrences(placeholders, "%s") == |NonEmpty(entries)|
    ensures r.None? <==> forall i | 0 <= i < |entries| :: entries[i] == ""
    ensures r.Some? ==> |r.value.params| == |NonEmpty(entries)|
    ensures r.Some? ==> forall i | 0 <= i < |r.value.params| :: r.value.params[i] == Session.VText(NonEmpty(entries)[i])
    ensures r.Some? ==> r.value.sql == "INSERT INTO " + Quote(table) + " (" + Join(columns, ", ") + ") VALUES ("
                                       + Join(placeholders, ", ") + ")"
  {
    var values;
    placeholders, values := Placeholders(entries);
    PlaceholdersMatchParameters(entries);
    if values != [] {
      var params := seq(|values|, k requires 0 <= k < |values| => Session.VText(values[k]));
      r := Some(Session.Statement("INSERT INTO " + Quote(table) + " (" + Join(columns, ", ") + ") VALUES ("
                                  + Join(placeholders, ", ") + ")", params));
    } else {
      r := None;
    }
  }
}
