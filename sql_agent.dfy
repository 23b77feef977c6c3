/**
 * The text handling of the SQL agent: extracting SQL from a model's
 * Markdown-fenced answer, folding the rows fetched during schema
 * introspection into a schema record, and rendering that record as the
 * schema description placed in every prompt.
 */
module SqlAgent {
  import opened Wrappers
  import opened PyStr
  import opened PyDict
  import opened Seqs

  // ---------------------------------------------------------------------------
  // Extracting SQL from a fenced answer (`_clean_sql`)
  // ---------------------------------------------------------------------------

  const Fence := "```"
  const SqlFence := "```sql"

  /**
   * `_clean_sql`: the stripped body of the first "```sql" block, else the
   * stripped text after the first bare fence, else the input unchanged.
   */
  function CleanSql(sqlStr: string): string {
    if Contains(sqlStr, SqlFence) then Strip(Split(Split(sqlStr, SqlFence)[1], Fence)[0])
    else if Contains(sqlStr, Fence) then Strip(Split(sqlStr, Fence)[1])
    else sqlStr
  }

  /** Every "```sql" begins with a bare fence. */
  lemma SqlFenceHasFence(s: string)
    requires Contains(s, SqlFence)
    ensures Contains(s, Fence)
  {
    var i := Find(s, SqlFence, 0).value;
    assert s[i..i + 3] == s[i..i + 6][..3];
    OccursAtContains(s, Fence, i);
  }

  /**
   * With a "```sql" tag, the result is the stripped text from just after the
   * first "```sql" to the first complete fence before the next "```sql" (or
   * to that "```sql", or to the end).
   */
  lemma CleanSqlTagged(s: string)
    requires Contains(s, SqlFence)
    ensures var open := Find(s, SqlFence, 0).value + |SqlFence|;
            var stop := NextOrEnd(s, SqlFence, open);
            var close := NextOrEnd(s[..stop], Fence, open);
            open <= close <= stop <= |s| && CleanSql(s) == Strip(s[open..close])
  {
    var open := Find(s, SqlFence, 0).value + |SqlFence|;
    var stop := NextOrEnd(s, SqlFence, open);
    SplitSecond(s, SqlFence, Find(s, SqlFence, 0).value);
    SplitFirstOfSlice(s, Fence, open, stop);
  }

  /**
   * With only bare fences, the result is the stripped text between the first
   * fence and the second, or everything after a lone fence.
   */
  lemma CleanSqlBare(s: string)
    requires !Contains(s, SqlFence) && Contains(s, Fence)
    ensures var open := Find(s, Fence, 0).value + |Fence|;
            open <= |s| && CleanSql(s) == Strip(s[open..NextOrEnd(s, Fence, open)])
  {
    SplitSecond(s, Fence, Find(s, Fence, 0).value);
  }

  /** Text without any fence comes back unchanged, not even stripped. */
  lemma CleanSqlUnfenced(s: string)
    requires !Contains(s, Fence)
    ensures CleanSql(s) == s
  {
    if Contains(s, SqlFence) {
      SqlFenceHasFence(s);
    }
  }

  /** Whatever a fenced answer yields holds no fence any more. */
  lemma CleanSqlFenceFree(s: string)
    requires Contains(s, Fence)
    ensures !Contains(CleanSql(s), Fence)
  {
    if Contains(s, SqlFence) {
      var body := Split(s, SqlFence)[1];
      SplitPiecesFree(body, Fence);
      StripContains(Split(body, Fence)[0], Fence);
    } else {
      SplitPiecesFree(s, Fence);
      StripContains(Split(s, Fence)[1], Fence);
    }
  }

  /** Cleaning twice is cleaning once. */
  lemma CleanSqlIdempotent(s: string)
    ensures CleanSql(CleanSql(s)) == CleanSql(s)
  {
    if Contains(s, Fence) {
      CleanSqlFenceFree(s);
      CleanSqlUnfenced(CleanSql(s));
    } else {
      CleanSqlUnfenced(s);
    }
  }

  // ---------------------------------------------------------------------------
  // The schema record and the introspection rows it is folded from
  // (`_get_detailed_schema`)
  // ---------------------------------------------------------------------------

  /** One entry of a table's column list. */
  datatype Column = Column(name: string, dataType: string, nullable: bool,
                           default: Option<string>, constraints: seq<string>)

  /** One foreign-key edge. */
  datatype Relationship = Relationship(name: string, sourceTable: string, sourceColumn: string,
                                       targetTable: string, targetColumn: string)

  /** The agent's schema: columns per table, labels per enumerated type, foreign keys. */
  datatype Schema = Schema(tables: Dict<string, seq<Column>>, enums: Dict<string, seq<string>>,
                           relationships: seq<Relationship>)

  /** A row of the enum query: type name and one label. */
  datatype EnumRow = EnumRow(typeName: string, enumLabel: string)

  /** A row of the column query. */
  datatype ColumnRow = ColumnRow(tableName: string, columnName: string, dataType: string,
                                 isNullable: string, columnDefault: Option<string>,
                                 constraintType: Option<string>)

  /** A row of the foreign-key query. */
  datatype ForeignKeyRow = ForeignKeyRow(constraintName: string, sourceTable: string, sourceColumn: string,
                                         targetTable: string, targetColumn: string)

  /** The type names of the enum rows, in row order. */
  function TypeNames(rows: seq<EnumRow>): (names: seq<string>)
    ensures |names| == |rows| && forall i :: 0 <= i < |rows| ==> names[i] == rows[i].typeName
  {
    if rows == [] then [] else TypeNames(rows[..|rows| - 1]) + [rows[|rows| - 1].typeName]
  }

  /** The labels of the rows for type `name`, in row order. */
  function LabelsOf(rows: seq<EnumRow>, name: string): seq<string> {
    if rows == [] then []
    else
      var last := rows[|rows| - 1];
      LabelsOf(rows[..|rows| - 1], name) + (if last.typeName == name then [last.enumLabel] else [])
  }

  /**
   * The enum dictionary after the rows: a type's list is created the first
   * time the type is seen, then every row appends its label to its type's list.
   */
  function EnumsOf(rows: seq<EnumRow>): Dict<string, seq<string>> {
    if rows == [] then Empty()
    else
      var d, row := EnumsOf(rows[..|rows| - 1]), rows[|rows| - 1];
      var d' := if row.typeName in d.vals then d else Put(d, row.typeName, []);
      Put(d', row.typeName, d'.vals[row.typeName] + [row.enumLabel])
  }

  /** A type with no rows has no labels. */
  lemma {:induction false} LabelsOfAbsent(rows: seq<EnumRow>, name: string)
    requires name !in TypeNames(rows)
    ensures LabelsOf(rows, name) == []
  {
    if rows != [] {
      var init := rows[..|rows| - 1];
      assert TypeNames(rows) == TypeNames(init) + [rows[|rows| - 1].typeName];
      LabelsOfAbsent(init, name);
    }
  }

  /**
   * The enum dictionary lists each type once, in the order the types first
   * appear in the rows, and holds under each type all its labels in row order.
   */
  lemma EnumsGrouped(rows: seq<EnumRow>)
    ensures FirstOccurrenceOrder(EnumsOf(rows).keys, TypeNames(rows))
    ensures forall n :: n in EnumsOf(rows).vals <==> n in TypeNames(rows)
    ensures forall n :: n in EnumsOf(rows).vals ==> EnumsOf(rows).vals[n] == LabelsOf(rows, n)
  {
    EnumsKeys(rows);
    EnumsLabels(rows);
  }

  /** One row more: its type keeps or takes its place, and its list grows by the label. */
  lemma EnumsOfSnoc(rows: seq<EnumRow>)
    requires rows != []
    ensures var d, row := EnumsOf(rows[..|rows| - 1]), rows[|rows| - 1];
            var t := row.typeName;
            EnumsOf(rows) == Put(d, t, if t in d.vals then d.vals[t] + [row.enumLabel] else [row.enumLabel])
  {
    var d, row := EnumsOf(rows[..|rows| - 1]), rows[|rows| - 1];
    var t := row.typeName;
    if t !in d.vals {
      var d' := Put(d, t, []);
      assert EnumsOf(rows) == Put(d', t, d'.vals[t] + [row.enumLabel]);
      assert d'.vals[t] + [row.enumLabel] == [row.enumLabel];
      PutPut(d, t, [], [row.enumLabel]);
    }
  }

  /** The enum types are listed once each, in the order they first appear in the rows. */
  lemma {:induction false} EnumsKeys(rows: seq<EnumRow>)
    ensures FirstOccurrenceOrder(EnumsOf(rows).keys, TypeNames(rows))
    ensures forall n :: n in EnumsOf(rows).vals <==> n in TypeNames(rows)
  {
    if rows != [] {
      var init, t := rows[..|rows| - 1], rows[|rows| - 1].typeName;
      var d := EnumsOf(init);
      EnumsKeys(init);
      EnumsOfSnoc(rows);
      assert TypeNames(rows) == TypeNames(init) + [t];
      assert t in d.vals <==> t in d.keys;
      OrderSnoc(d.keys, TypeNames(init), t);
    }
  }

  /** Each type holds all of its labels, in row order. */
  lemma {:induction false} EnumsLabels(rows: seq<EnumRow>)
    ensures forall n :: n in EnumsOf(rows).vals ==> EnumsOf(rows).vals[n] == LabelsOf(rows, n)
  {
    if rows != [] {
      var init, row := rows[..|rows| - 1], rows[|rows| - 1];
      var d := EnumsOf(init);
      EnumsLabels(init);
      EnumsOfSnoc(rows);
      if row.typeName !in d.vals {
        EnumsKeys(init);
        LabelsOfAbsent(init, row.typeName);
      }
    }
  }

  /** The enum loop of `_get_detailed_schema`. */
  method FoldEnums(rows: seq<EnumRow>) returns (enums: Dict<string, seq<string>>)
    ensures enums == EnumsOf(rows)
  {
    enums := Empty();
    for i := 0 to |rows|
      invariant enums == EnumsOf(rows[..i])
    {
      var row := rows[i];
      assert rows[..i + 1][..i] == rows[..i];
      if row.typeName !in enums.vals {
        enums := Put(enums, row.typeName, []);
      }
      enums := Put(enums, row.typeName, enums.vals[row.typeName] + [row.enumLabel]);
    }
    assert rows[..|rows|] == rows;
  }

  /** `column_info` built from a column row. */
  function ColumnInfo(row: ColumnRow): (c: Column)
    ensures c.name == row.columnName && c.dataType == row.dataType && c.default == row.columnDefault
    ensures c.nullable <==> row.isNullable == "YES"
    ensures |c.constraints| <= 1
    ensures c.constraints != [] <==> Truthy(row.constraintType)
    ensures forall k :: 0 <= k < |c.constraints| ==> Some(c.constraints[k]) == row.constraintType
  {
    Column(row.columnName, row.dataType, row.isNullable == "YES", row.columnDefault,
           if Truthy(row.constraintType) then [row.constraintType.value] else [])
  }

  function ColumnsOf(rows: seq<ColumnRow>): (cols: seq<Column>)
    ensures |cols| == |rows| && forall i :: 0 <= i < |rows| ==> cols[i] == ColumnInfo(rows[i])
  {
    if rows == [] then [] else ColumnsOf(rows[..|rows| - 1]) + [ColumnInfo(rows[|rows| - 1])]
  }

  /** A maximal stretch of consecutive column rows of one table. */
  datatype Run = Run(table: string, rows: seq<ColumnRow>)

  /** The column rows cut into runs of equal table name. */
  function Runs(rows: seq<ColumnRow>): (rs: seq<Run>)
    ensures |rs| <= |rows| && (rs == [] <==> rows == [])
    ensures rs != [] ==> rs[|rs| - 1].table == rows[|rows| - 1].tableName
  {
    if rows == [] then []
    else
      var prev, row := Runs(rows[..|rows| - 1]), rows[|rows| - 1];
      if prev != [] && prev[|prev| - 1].table == row.tableName then
        prev[..|prev| - 1] + [Run(row.tableName, prev[|prev| - 1].rows + [row])]
      else
        prev + [Run(row.tableName, [row])]
  }

  /** All rows of the runs, in order. */
  function Flatten(rs: seq<Run>): seq<ColumnRow> {
    if rs == [] then [] else Flatten(rs[..|rs| - 1]) + rs[|rs| - 1].rows
  }

  /** Each run is non-empty, holds rows of its own table only, and differs in table from the next run. */
  ghost predicate MaximalRuns(rs: seq<Run>) {
    (forall i :: 0 <= i < |rs| ==> rs[i].rows != []) &&
    (forall i, k :: 0 <= i < |rs| && 0 <= k < |rs[i].rows| ==> rs[i].rows[k].tableName == rs[i].table) &&
    (forall i :: 0 < i < |rs| ==> rs[i - 1].table != rs[i].table)
  }

  lemma FlattenSnoc(rs: seq<Run>, r: Run)
    ensures Flatten(rs + [r]) == Flatten(rs) + r.rows
  {
    assert (rs + [r])[..|rs|] == rs;
  }

  /** Growing the last run by a row of its table keeps the runs maximal. */
  lemma MaximalExtend(head: seq<Run>, last: Run, row: ColumnRow)
    requires MaximalRuns(head + [last]) && last.table == row.tableName
    ensures MaximalRuns(head + [Run(last.table, last.rows + [row])])
  {
    var rs, rs' := head + [last], head + [Run(last.table, last.rows + [row])];
    forall i | 0 <= i < |rs'| ensures rs'[i].table == rs[i].table { }
  }

  /** Opening a run for a row of another table keeps the runs maximal. */
  lemma MaximalOpen(prev: seq<Run>, row: ColumnRow)
    requires MaximalRuns(prev) && (prev == [] || prev[|prev| - 1].table != row.tableName)
    ensures MaximalRuns(prev + [Run(row.tableName, [row])])
  {
  }

  /** The runs after the first `i + 1` rows, from the runs after the first `i`. */
  lemma RunsSnoc(rows: seq<ColumnRow>, i: nat)
    requires i < |rows|
    ensures var prev, row := Runs(rows[..i]), rows[i];
            if prev != [] && prev[|prev| - 1].table == row.tableName then
              Runs(rows[..i + 1]) == prev[..|prev| - 1] + [Run(row.tableName, prev[|prev| - 1].rows + [row])]
            else
              Runs(rows[..i + 1]) == prev + [Run(row.tableName, [row])]
  {
    assert rows[..i + 1][..i] == rows[..i];
  }

  /** A row of the last run's table: the last run grows by that row. */
  lemma FlattenExtendStep(rows: seq<ColumnRow>)
    requires rows != []
    requires var prev := Runs(rows[..|rows| - 1]);
             prev != [] && prev[|prev| - 1].table == rows[|rows| - 1].tableName
    requires Flatten(Runs(rows[..|rows| - 1])) == rows[..|rows| - 1]
    ensures Flatten(Runs(rows)) == rows
  {
    var init, row := rows[..|rows| - 1], rows[|rows| - 1];
    var prev := Runs(init);
    var head, last := prev[..|prev| - 1], prev[|prev| - 1];
    var grown := Run(row.tableName, last.rows + [row]);
    assert Runs(rows) == head + [grown];
    assert Flatten(Runs(rows)) == Flatten(head) + (last.rows + [row]) by {
      FlattenSnoc(head, grown);
    }
    assert Flatten(head) + last.rows == init by {
      SplitLast(prev);
      FlattenSnoc(head, last);
    }
    assert init + [row] == rows by {
      SplitLast(rows);
    }
    assert Flatten(head) + (last.rows + [row]) == (Flatten(head) + last.rows) + [row];
  }

  /** A row of another table: a new run holds just that row. */
  lemma FlattenOpenStep(rows: seq<ColumnRow>)
    requires rows != []
    requires var prev := Runs(rows[..|rows| - 1]);
             !(prev != [] && prev[|prev| - 1].table == rows[|rows| - 1].tableName)
    requires Flatten(Runs(rows[..|rows| - 1])) == rows[..|rows| - 1]
    ensures Flatten(Runs(rows)) == rows
  {
    SplitLast(rows);
    FlattenSnoc(Runs(rows[..|rows| - 1]), Run(rows[|rows| - 1].tableName, [rows[|rows| - 1]]));
  }

  /** `Runs` cuts the rows into runs without losing, adding or moving a row. */
  lemma {:induction false} RunsFlatten(rows: seq<ColumnRow>)
    ensures Flatten(Runs(rows)) == rows
  {
    if rows != [] {
      var prev := Runs(rows[..|rows| - 1]);
      RunsFlatten(rows[..|rows| - 1]);
      if prev != [] && prev[|prev| - 1].table == rows[|rows| - 1].tableName {
        FlattenExtendStep(rows);
      } else {
        FlattenOpenStep(rows);
      }
    }
  }

  /** The runs are maximal: non-empty, uniform, and each differs in table from the next. */
  lemma {:induction false} RunsMaximal(rows: seq<ColumnRow>)
    ensures MaximalRuns(Runs(rows))
  {
    if rows != [] {
      var i := |rows| - 1;
      var prev, row := Runs(rows[..i]), rows[i];
      RunsMaximal(rows[..i]);
      RunsSnoc(rows, i);
      assert rows[..i + 1] == rows;
      if prev != [] && prev[|prev| - 1].table == row.tableName {
        var head, last := prev[..|prev| - 1], prev[|prev| - 1];
        assert prev == head + [last];
        MaximalExtend(head, last, row);
      } else {
        MaximalOpen(prev, row);
      }
    }
  }

  /** The `(table, columns)` assignments the table loop performs, one per run. */
  function RunEntries(rs: seq<Run>): (es: seq<(string, seq<Column>)>)
    ensures |es| == |rs|
  {
    if rs == [] then [] else RunEntries(rs[..|rs| - 1]) + [(rs[|rs| - 1].table, ColumnsOf(rs[|rs| - 1].rows))]
  }

  lemma {:induction false} RunEntriesElements(rs: seq<Run>)
    ensures forall i :: 0 <= i < |rs| ==> RunEntries(rs)[i] == (rs[i].table, ColumnsOf(rs[i].rows))
  {
    if rs != [] {
      var init := rs[..|rs| - 1];
      RunEntriesElements(init);
      assert forall i :: 0 <= i < |init| ==> rs[i] == init[i];
    }
  }

  /** The tables a fold of `rows` produces: each run assigns its columns to its table. */
  function TablesOf(rows: seq<ColumnRow>): Dict<string, seq<Column>> {
    FromPairs(RunEntries(Runs(rows)))
  }

  /**
   * A table's columns are those of its last run: a table name that comes back
   * after another table starts over with an empty list.
   */
  lemma TableFromLastRun(rows: seq<ColumnRow>, i: nat)
    requires i < |Runs(rows)|
    requires forall j :: i < j < |Runs(rows)| ==> Runs(rows)[j].table != Runs(rows)[i].table
    ensures Runs(rows)[i].table in TablesOf(rows).vals
    ensures TablesOf(rows).vals[Runs(rows)[i].table] == ColumnsOf(Runs(rows)[i].rows)
  {
    var es := RunEntries(Runs(rows));
    RunEntriesElements(Runs(rows));
    FromPairsSemantics(es);
    assert Firsts(es)[i] == es[i].0;
  }

  lemma EntriesSnoc(rs: seq<Run>, r: Run)
    ensures RunEntries(rs + [r]) == RunEntries(rs) + [(r.table, ColumnsOf(r.rows))]
  {
    assert (rs + [r])[..|rs|] == rs;
  }

  lemma ColumnsSnoc(rows: seq<ColumnRow>, row: ColumnRow)
    ensures ColumnsOf(rows + [row]) == ColumnsOf(rows) + [ColumnInfo(row)]
  {
    assert (rows + [row])[..|rows|] == rows;
  }

  /** A row of the same table as the row before it appends its column to that table's list. */
  lemma TablesContinue(rows: seq<ColumnRow>, i: nat)
    requires 0 < i < |rows| && rows[i - 1].tableName == rows[i].tableName
    ensures var d, t := TablesOf(rows[..i]), rows[i].tableName;
            t in d.vals && TablesOf(rows[..i + 1]) == Put(d, t, d.vals[t] + [ColumnInfo(rows[i])])
  {
    var row := rows[i];
    var prev := Runs(rows[..i]);
    var t, c := row.tableName, ColumnInfo(row);
    assert prev != [] && prev[|prev| - 1].table == t by {
      assert rows[..i][i - 1] == rows[i - 1];
    }
    var head, last := prev[..|prev| - 1], prev[|prev| - 1];
    var d0, cols := FromPairs(RunEntries(head)), ColumnsOf(last.rows);
    assert TablesOf(rows[..i]) == Put(d0, t, cols) by {
      SplitLast(prev);
      EntriesSnoc(head, last);
      FromPairsSnoc(RunEntries(head), (t, cols));
    }
    assert TablesOf(rows[..i + 1]) == Put(d0, t, cols + [c]) by {
      RunsSnoc(rows, i);
      EntriesSnoc(head, Run(t, last.rows + [row]));
      ColumnsSnoc(last.rows, row);
      FromPairsSnoc(RunEntries(head), (t, cols + [c]));
    }
    PutPut(d0, t, cols, cols + [c]);
  }

  /** A row whose table differs from the row before it (re)starts that table with an empty list. */
  lemma TablesRestart(rows: seq<ColumnRow>, i: nat)
    requires i < |rows| && !(i > 0 && rows[i - 1].tableName == rows[i].tableName)
    ensures var d, t := Put(TablesOf(rows[..i]), rows[i].tableName, []), rows[i].tableName;
            t in d.vals && TablesOf(rows[..i + 1]) == Put(d, t, d.vals[t] + [ColumnInfo(rows[i])])
  {
    var row := rows[i];
    var prev := Runs(rows[..i]);
    var t, c := row.tableName, ColumnInfo(row);
    assert TablesOf(rows[..i + 1]) == Put(TablesOf(rows[..i]), t, [c]) by {
      if i > 0 {
        assert prev[|prev| - 1].table != t by {
          assert rows[..i][i - 1] == rows[i - 1];
        }
      }
      RunsSnoc(rows, i);
      EntriesSnoc(prev, Run(t, [row]));
      assert ColumnsOf([row]) == [c];
      FromPairsSnoc(RunEntries(prev), (t, [c]));
    }
    var d := Put(TablesOf(rows[..i]), t, []);
    assert d.vals[t] + [c] == [c];
    PutPut(TablesOf(rows[..i]), t, [], [c]);
  }

  /** The table loop: a change of table name starts a fresh list, every row appends its column. */
  method FoldTables(rows: seq<ColumnRow>) returns (tables: Dict<string, seq<Column>>)
    ensures tables == TablesOf(rows)
  {
    tables := Empty();
    var currentTable: Option<string> := None;
    for i := 0 to |rows|
      invariant tables == TablesOf(rows[..i])
      invariant currentTable == if i == 0 then None else Some(rows[i - 1].tableName)
    {
      var row := rows[i];
      var tableName := row.tableName;
      ghost var next := TablesOf(rows[..i + 1]);
      if Some(tableName) != currentTable {
        TablesRestart(rows, i);
        tables := Put(tables, tableName, []);
        currentTable := Some(tableName);
      } else {
        TablesContinue(rows, i);
      }
      assert tableName in tables.vals && next == Put(tables, tableName, tables.vals[tableName] + [ColumnInfo(row)]);
      var columnInfo := ColumnInfo(row);
      tables := Put(tables, tableName, tables.vals[tableName] + [columnInfo]);
    }
    assert rows[..|rows|] == rows;
  }

  /** The foreign-key loop: one relationship per row, in row order. */
  method FoldRelationships(rows: seq<ForeignKeyRow>) returns (relationships: seq<Relationship>)
    ensures |relationships| == |rows|
    ensures forall i :: 0 <= i < |rows| ==>
              relationships[i] == Relationship(rows[i].constraintName, rows[i].sourceTable, rows[i].sourceColumn,
                                               rows[i].targetTable, rows[i].targetColumn)
  {
    relationships := [];
    for i := 0 to |rows|
      invariant |relationships| == i
      invariant forall k :: 0 <= k < i ==>
                  relationships[k] == Relationship(rows[k].constraintName, rows[k].sourceTable, rows[k].sourceColumn,
                                                   rows[k].targetTable, rows[k].targetColumn)
    {
      var fk := rows[i];
      relationships := relationships + [Relationship(fk.constraintName, fk.sourceTable, fk.sourceColumn,
                                                     fk.targetTable, fk.targetColumn)];
    }
  }

  /** `_get_detailed_schema` over the rows its three queries fetch. */
  method GetDetailedSchema(enumRows: seq<EnumRow>, columnRows: seq<ColumnRow>, foreignKeyRows: seq<ForeignKeyRow>)
    returns (schema: Schema)
    ensures schema.enums == EnumsOf(enumRows)
    ensures schema.tables == TablesOf(columnRows)
    ensures |schema.relationships| == |foreignKeyRows|
    ensures forall i :: 0 <= i < |foreignKeyRows| ==>
              var fk := foreignKeyRows[i];
              schema.relationships[i] == Relationship(fk.constraintName, fk.sourceTable, fk.sourceColumn,
                                                      fk.targetTable, fk.targetColumn)
  {
    var enums := FoldEnums(enumRows);
    var tables := FoldTables(columnRows);
    var relationships := FoldRelationships(foreignKeyRows);
    schema := Schema(tables, enums, relationships);
  }

  // ---------------------------------------------------------------------------
  // The schema description handed to the model (`_format_schema_prompt`)
  // ---------------------------------------------------------------------------

  const Header := "Database Schema Description:\n"
  const EnumHeading := "\nEnumerated Types:"
  const TablesHeading := "\n\nTables:"
  const RelationshipsHeading := "\n\nTable Relationships:"

  function EnumLine(name: string, values: seq<string>): string {
    "\n- " + name + ": " + Join(values, ", ")
  }

  /** One line per type of `names`, in order. */
  function EnumLines(names: seq<string>, enums: map<string, seq<string>>): string
    requires forall n :: n in names ==> n in enums
  {
    if names == [] then ""
    else EnumLines(names[..|names| - 1], enums) + EnumLine(names[|names| - 1], enums[names[|names| - 1]])
  }

  /** The enum section is present only for a non-empty dictionary. */
  function EnumSection(enums: Dict<string, seq<string>>): string {
    if enums.keys == [] then "" else EnumHeading + EnumLines(enums.keys, enums.vals)
  }

  function ColumnHead(col: Column): string {
    "- " + col.name + " (" + col.dataType + ")"
  }

  function NotNullPart(col: Column): string {
    if col.nullable then "" else " NOT NULL"
  }

  function DefaultPart(col: Column): string {
    if Truthy(col.default) then " DEFAULT " + col.default.value else ""
  }

  function ConstraintsPart(col: Column): string {
    if col.constraints == [] then "" else " [" + Join(col.constraints, ", ") + "]"
  }

  /** The description of one column. */
  function ColumnLine(col: Column): string {
    ColumnHead(col) + NotNullPart(col) + DefaultPart(col) + ConstraintsPart(col)
  }

  function ColumnLines(cols: seq<Column>): string {
    if cols == [] then "" else ColumnLines(cols[..|cols| - 1]) + ("\n" + ColumnLine(cols[|cols| - 1]))
  }

  function TableBlock(table: string, cols: seq<Column>): string {
    "\n\nTable '" + table + "':" + ColumnLines(cols)
  }

  /** One block per table of `names`, in order. */
  function TableBlocks(names: seq<string>, tables: map<string, seq<Column>>): string
    requires forall n :: n in names ==> n in tables
  {
    if names == [] then ""
    else TableBlocks(names[..|names| - 1], tables) + TableBlock(names[|names| - 1], tables[names[|names| - 1]])
  }

  function RelationshipLine(r: Relationship): string {
    "\n- " + r.sourceTable + "." + r.sourceColumn + " \U{2192} " + r.targetTable + "." + r.targetColumn
    + " (Foreign Key: " + r.name + ")"
  }

  function RelationshipLines(rs: seq<Relationship>): string {
    if rs == [] then "" else RelationshipLines(rs[..|rs| - 1]) + RelationshipLine(rs[|rs| - 1])
  }

  /** The relationship section is present only for a non-empty list. */
  function RelationshipSection(rs: seq<Relationship>): string {
    if rs == [] then "" else RelationshipsHeading + RelationshipLines(rs)
  }

  /** The whole description: header, enums, tables, relationships. */
  function RenderSchema(schema: Schema): string {
    Header + EnumSection(schema.enums) + TablesHeading + TableBlocks(schema.tables.keys, schema.tables.vals)
    + RelationshipSection(schema.relationships)
  }

  /** The prompt builder: header, enum section, tables, relationship section, appended in that order. */
  method FormatSchemaPrompt(schema: Schema) returns (prompt: string)
    ensures prompt == RenderSchema(schema)
  {
    prompt := Header;
    var enumText := EnumSectionOf(schema.enums);
    prompt := prompt + enumText;

    prompt := prompt + TablesHeading;
    var tables := schema.tables;
    ghost var base := prompt;
    for i := 0 to |tables.keys|
      invariant prompt == base + TableBlocks(tables.keys[..i], tables.vals)
    {
      var table := tables.keys[i];
      var columns := tables.vals[table];
      var block := TableBlockOf(table, columns);
      assert tables.keys[..i + 1][..i] == tables.keys[..i];
      AppendAssoc(base, TableBlocks(tables.keys[..i], tables.vals), block);
      prompt := prompt + block;
    }
    assert tables.keys[..|tables.keys|] == tables.keys;

    var relationshipText := RelationshipSectionOf(schema.relationships);
    prompt := prompt + relationshipText;
  }

  /** The enum section: nothing for an empty dictionary, else the heading and a line per type. */
  method EnumSectionOf(enums: Dict<string, seq<string>>) returns (text: string)
    ensures text == EnumSection(enums)
  {
    text := "";
    if enums.keys != [] {
      text := EnumHeading;
      for i := 0 to |enums.keys|
        invariant text == EnumHeading + EnumLines(enums.keys[..i], enums.vals)
      {
        var name := enums.keys[i];
        var line := "\n- " + name + ": " + Join(enums.vals[name], ", ");
        assert enums.keys[..i + 1][..i] == enums.keys[..i];
        AppendAssoc(EnumHeading, EnumLines(enums.keys[..i], enums.vals), line);
        text := text + line;
      }
      assert enums.keys[..|enums.keys|] == enums.keys;
    }
  }

  /** The relationship section: nothing for an empty list, else the heading and a line per foreign key. */
  method RelationshipSectionOf(relationships: seq<Relationship>) returns (text: string)
    ensures text == RelationshipSection(relationships)
  {
    text := "";
    if relationships != [] {
      text := RelationshipsHeading;
      for i := 0 to |relationships|
        invariant text == RelationshipsHeading + RelationshipLines(relationships[..i])
      {
        var rel := relationships[i];
        var line := "\n- " + rel.sourceTable + "." + rel.sourceColumn + " \U{2192} "
                    + rel.targetTable + "." + rel.targetColumn + " (Foreign Key: " + rel.name + ")";
        assert relationships[..i + 1][..i] == relationships[..i];
        AppendAssoc(RelationshipsHeading, RelationshipLines(relationships[..i]), line);
        text := text + line;
      }
      assert relationships[..|relationships|] == relationships;
    }
  }

  /** One table's block: its heading, then a line per column. */
  method TableBlockOf(table: string, columns: seq<Column>) returns (block: string)
    ensures block == TableBlock(table, columns)
  {
    var heading := "\n\nTable '" + table + "':";
    block := heading;
    for j := 0 to |columns|
      invariant block == heading + ColumnLines(columns[..j])
    {
      var desc := ColumnDescription(columns[j]);
      assert ColumnLines(columns[..j + 1]) == ColumnLines(columns[..j]) + ("\n" + desc) by {
        assert columns[..j + 1][..j] == columns[..j];
      }
      assert block + ("\n" + desc) == heading + ColumnLines(columns[..j + 1]) by {
        AppendAssoc(heading, ColumnLines(columns[..j]), "\n" + desc);
      }
      block := block + ("\n" + desc);
    }
    assert columns[..|columns|] == columns;
  }

  /** The column description: the head, then each decoration its condition asks for. */
  method ColumnDescription(col: Column) returns (desc: string)
    ensures desc == ColumnLine(col)
  {
    desc := "- " + col.name + " (" + col.dataType + ")";
    if !col.nullable {
      desc := desc + " NOT NULL";
    }
    if Truthy(col.default) {
      desc := desc + (" DEFAULT " + col.default.value);
    }
    if col.constraints != [] {
      desc := desc + (" [" + Join(col.constraints, ", ") + "]");
    }
  }

  /** The description regrouped around each of its sections. */
  lemma RenderParts(schema: Schema)
    ensures var e, t := EnumSection(schema.enums), TableBlocks(schema.tables.keys, schema.tables.vals);
            var r := RelationshipSection(schema.relationships);
            && RenderSchema(schema) == Header + (e + (TablesHeading + t + r))
            && RenderSchema(schema) == (Header + e) + (TablesHeading + (t + r))
            && RenderSchema(schema) == (Header + e + TablesHeading + t) + r
  {
    var e, t := EnumSection(schema.enums), TableBlocks(schema.tables.keys, schema.tables.vals);
    var r := RelationshipSection(schema.relationships);
    AppendAssoc(Header + e, TablesHeading, t);
    AppendAssoc(Header + e, TablesHeading + t, r);
    AppendAssoc(Header, e, TablesHeading + t + r);
    AppendAssoc(TablesHeading, t, r);
  }

  /** The description opens with the header line. */
  lemma PromptOpensWithHeader(schema: Schema)
    ensures |Header| <= |RenderSchema(schema)| && RenderSchema(schema)[..|Header|] == Header
  {
    RenderParts(schema);
    var rest := EnumSection(schema.enums) + (TablesHeading + TableBlocks(schema.tables.keys, schema.tables.vals)
                + RelationshipSection(schema.relationships));
    assert (Header + rest)[..|Header|] == Header;
  }

  lemma EnumHeadingPresent(schema: Schema)
    requires schema.enums.keys != []
    ensures OccursAt(RenderSchema(schema), EnumHeading, |Header|)
  {
    var e := EnumSection(schema.enums);
    var t := TableBlocks(schema.tables.keys, schema.tables.vals);
    var after := TablesHeading + t + RelationshipSection(schema.relationships);
    var lines := EnumLines(schema.enums.keys, schema.enums.vals);
    assert RenderSchema(schema) == Header + (e + after) by {
      RenderParts(schema);
    }
    assert e == EnumHeading + lines;
    assert OccursAt(e + after, EnumHeading, 0) by {
      AppendAssoc(EnumHeading, lines, after);
      OccursAtExtend(EnumHeading, lines + after, EnumHeading, 0);
    }
    OccursAtShift(Header, e + after, EnumHeading, 0);
  }

  lemma EnumHeadingAbsent(schema: Schema)
    requires schema.enums.keys == []
    ensures !OccursAt(RenderSchema(schema), EnumHeading, |Header|)
  {
    RenderParts(schema);
    var t := TableBlocks(schema.tables.keys, schema.tables.vals);
    var r := RelationshipSection(schema.relationships);
    var after := TablesHeading + t + r;
    assert EnumSection(schema.enums) + after == after;
    OccursAtShift(Header, after, EnumHeading, 0);
    AppendAssoc(TablesHeading, t, r);
    assert after[1] == TablesHeading[1];
    MarkerChars();
    NotAtStart(after, EnumHeading, 1);
  }

  /** The enum heading follows the header exactly when there are enumerated types. */
  lemma EnumSectionShown(schema: Schema)
    ensures OccursAt(RenderSchema(schema), EnumHeading, |Header|) <==> schema.enums.keys != []
  {
    if schema.enums.keys != [] {
      EnumHeadingPresent(schema);
    } else {
      EnumHeadingAbsent(schema);
    }
  }

  /** The tables heading always follows the enum section. */
  lemma TablesHeadingShown(schema: Schema)
    ensures OccursAt(RenderSchema(schema), TablesHeading, |Header| + |EnumSection(schema.enums)|)
    ensures Contains(RenderSchema(schema), TablesHeading)
  {
    RenderParts(schema);
    var e := EnumSection(schema.enums);
    var rest := TableBlocks(schema.tables.keys, schema.tables.vals) + RelationshipSection(schema.relationships);
    OccursAtExtend(TablesHeading, rest, TablesHeading, 0);
    OccursAtShift(Header + e, TablesHeading + rest, TablesHeading, 0);
    OccursAtContains(RenderSchema(schema), TablesHeading, |Header + e|);
  }

  lemma RelationshipsPresent(schema: Schema)
    requires schema.relationships != []
    ensures var r := |Header| + |EnumSection(schema.enums)| + |TablesHeading|
                     + |TableBlocks(schema.tables.keys, schema.tables.vals)|;
            r < |RenderSchema(schema)| && OccursAt(RenderSchema(schema), RelationshipsHeading, r)
  {
    var before := Header + EnumSection(schema.enums) + TablesHeading + TableBlocks(schema.tables.keys, schema.tables.vals);
    var section := RelationshipSection(schema.relationships);
    var lines := RelationshipLines(schema.relationships);
    assert RenderSchema(schema) == before + section by {
      RenderParts(schema);
    }
    assert section == RelationshipsHeading + lines;
    assert OccursAt(section, RelationshipsHeading, 0) by {
      OccursAtExtend(RelationshipsHeading, lines, RelationshipsHeading, 0);
    }
    OccursAtShift(before, section, RelationshipsHeading, 0);
  }

  lemma RelationshipsAbsent(schema: Schema)
    requires schema.relationships == []
    ensures RenderSchema(schema) == Header + EnumSection(schema.enums) + TablesHeading
                                    + TableBlocks(schema.tables.keys, schema.tables.vals)
  {
    assert RelationshipSection(schema.relationships) == "";
  }

  /**
   * Text follows the table blocks exactly when there are relationships, and
   * it then opens with the relationship heading.
   */
  lemma RelationshipSectionShown(schema: Schema)
    ensures var r := |Header| + |EnumSection(schema.enums)| + |TablesHeading|
                     + |TableBlocks(schema.tables.keys, schema.tables.vals)|;
            (r < |RenderSchema(schema)| <==> schema.relationships != [])
            && (schema.relationships != [] ==> OccursAt(RenderSchema(schema), RelationshipsHeading, r))
  {
    if schema.relationships != [] {
      RelationshipsPresent(schema);
    } else {
      RelationshipsAbsent(schema);
    }
  }

  /** The second character of each marker the lemmas below tell apart. */
  lemma MarkerChars()
    ensures " NOT NULL"[1] == 'N' && " DEFAULT "[1] == 'D' && " ["[1] == '['
    ensures EnumHeading[1] == 'E' && TablesHeading[1] == '\n'
  {
  }

  /** The bracketed list, when present, opens with " [". */
  lemma ConstraintsPartStart(col: Column)
    ensures ConstraintsPart(col) == [] || (|ConstraintsPart(col)| > 1 && ConstraintsPart(col)[1] == '[')
  {
    if col.constraints != [] {
      assert ConstraintsPart(col) == " [" + (Join(col.constraints, ", ") + "]");
    }
  }

  /** What follows the NOT NULL part opens with " D" or " [", if anything follows. */
  lemma DecorationTailStart(col: Column)
    ensures var tail := DefaultPart(col) + ConstraintsPart(col);
            tail == [] || (|tail| > 1 && (tail[1] == 'D' || tail[1] == '['))
  {
    ConstraintsPartStart(col);
    if Truthy(col.default) {
      assert DefaultPart(col) == " DEFAULT " + col.default.value;
    }
  }

  lemma NotNullPresent(col: Column)
    requires !col.nullable
    ensures OccursAt(ColumnLine(col), " NOT NULL", |ColumnHead(col)|)
  {
    var head, tail := ColumnHead(col), DefaultPart(col) + ConstraintsPart(col);
    AppendAssoc(head + " NOT NULL", DefaultPart(col), ConstraintsPart(col));
    AppendAssoc(head, " NOT NULL", tail);
    OccursAtExtend(" NOT NULL", tail, " NOT NULL", 0);
    OccursAtShift(head, " NOT NULL" + tail, " NOT NULL", 0);
  }

  lemma NotNullAbsent(col: Column)
    requires col.nullable
    ensures !OccursAt(ColumnLine(col), " NOT NULL", |ColumnHead(col)|)
  {
    var head, tail := ColumnHead(col), DefaultPart(col) + ConstraintsPart(col);
    assert head + NotNullPart(col) == head;
    AppendAssoc(head, DefaultPart(col), ConstraintsPart(col));
    OccursAtShift(head, tail, " NOT NULL", 0);
    DecorationTailStart(col);
    if tail != [] {
      MarkerChars();
      NotAtStart(tail, " NOT NULL", 1);
    }
  }

  /** " NOT NULL" follows the head exactly when the column is not nullable. */
  lemma NotNullShown(col: Column)
    ensures OccursAt(ColumnLine(col), " NOT NULL", |ColumnHead(col)|) <==> !col.nullable
  {
    if col.nullable {
      NotNullAbsent(col);
    } else {
      NotNullPresent(col);
    }
  }

  /** " DEFAULT " follows the NOT NULL part exactly when the default is a non-empty string. */
  lemma DefaultShown(col: Column)
    ensures OccursAt(ColumnLine(col), " DEFAULT ", |ColumnHead(col)| + |NotNullPart(col)|) <==> Truthy(col.default)
  {
    var head, n, d, c := ColumnHead(col), NotNullPart(col), DefaultPart(col), ConstraintsPart(col);
    var pre, rest := head + n, d + c;
    assert ColumnLine(col) == pre + rest;
    OccursAtShift(pre, rest, " DEFAULT ", 0);
    if Truthy(col.default) {
      assert rest == " DEFAULT " + (col.default.value + c);
      OccursAtExtend(" DEFAULT ", col.default.value + c, " DEFAULT ", 0);
    } else {
      assert rest == c;
      ConstraintsPartStart(col);
      if c != [] {
        MarkerChars();
        NotAtStart(c, " DEFAULT ", 1);
      }
    }
  }

  /** Text follows the DEFAULT part exactly when there are constraints, and then it is the bracketed list. */
  lemma ConstraintsShown(col: Column)
    ensures var m := |ColumnHead(col)| + |NotNullPart(col)| + |DefaultPart(col)|;
            (m < |ColumnLine(col)| <==> col.constraints != [])
            && (col.constraints != [] ==> OccursAt(ColumnLine(col), " [", m) && ColumnLine(col)[|ColumnLine(col)| - 1] == ']')
  {
    var pre, c := ColumnHead(col) + NotNullPart(col) + DefaultPart(col), ConstraintsPart(col);
    assert ColumnLine(col) == pre + c;
    if col.constraints != [] {
      var list := Join(col.constraints, ", ") + "]";
      assert c == " [" + list;
      OccursAtExtend(" [", list, " [", 0);
      OccursAtShift(pre, c, " [", 0);
      assert (pre + c)[|pre + c| - 1] == c[|c| - 1];
    }
  }

  /** Each enum line appears in the enum lines of the types listed. */
  lemma {:induction false} EnumLinesContain(names: seq<string>, enums: map<string, seq<string>>, i: nat)
    requires forall n :: n in names ==> n in enums
    requires i < |names|
    ensures Contains(EnumLines(names, enums), EnumLine(names[i], enums[names[i]]))
  {
    var init, last := names[..|names| - 1], names[|names| - 1];
    var line := EnumLine(names[i], enums[names[i]]);
    if i == |names| - 1 {
      OccursAtContains(line, line, 0);
      ContainsRight(EnumLines(init, enums), line, line);
    } else {
      assert names[i] == init[i];
      EnumLinesContain(init, enums, i);
      ContainsLeft(EnumLines(init, enums), EnumLine(last, enums[last]), line);
    }
  }

  /** Each table block appears in the blocks of the tables listed. */
  lemma {:induction false} TableBlocksContain(names: seq<string>, tables: map<string, seq<Column>>, i: nat)
    requires forall n :: n in names ==> n in tables
    requires i < |names|
    ensures Contains(TableBlocks(names, tables), TableBlock(names[i], tables[names[i]]))
  {
    var init, last := names[..|names| - 1], names[|names| - 1];
    var block := TableBlock(names[i], tables[names[i]]);
    if i == |names| - 1 {
      OccursAtContains(block, block, 0);
      ContainsRight(TableBlocks(init, tables), block, block);
    } else {
      assert names[i] == init[i];
      TableBlocksContain(init, tables, i);
      ContainsLeft(TableBlocks(init, tables), TableBlock(last, tables[last]), block);
    }
  }

  /** Each column's line, after its line break, appears in the column lines. */
  lemma {:induction false} ColumnLinesContain(cols: seq<Column>, j: nat)
    requires j < |cols|
    ensures Contains(ColumnLines(cols), "\n" + ColumnLine(cols[j]))
  {
    var init := cols[..|cols| - 1];
    var line := "\n" + ColumnLine(cols[j]);
    if j == |cols| - 1 {
      OccursAtContains(line, line, 0);
      ContainsRight(ColumnLines(init), line, line);
    } else {
      assert cols[j] == init[j];
      ColumnLinesContain(init, j);
      ContainsLeft(ColumnLines(init), "\n" + ColumnLine(cols[|cols| - 1]), line);
    }
  }

  /** Each relationship's line appears in the relationship lines. */
  lemma {:induction false} RelationshipLinesContain(rs: seq<Relationship>, k: nat)
    requires k < |rs|
    ensures Contains(RelationshipLines(rs), RelationshipLine(rs[k]))
  {
    var init := rs[..|rs| - 1];
    var line := RelationshipLine(rs[k]);
    if k == |rs| - 1 {
      OccursAtContains(line, line, 0);
      ContainsRight(RelationshipLines(init), line, line);
    } else {
      assert rs[k] == init[k];
      RelationshipLinesContain(init, k);
      ContainsLeft(RelationshipLines(init), RelationshipLine(rs[|rs| - 1]), line);
    }
  }

  /** Every enumerated type's line is part of the description. */
  lemma EnumListed(schema: Schema, name: string)
    requires name in schema.enums.vals
    ensures Contains(RenderSchema(schema), EnumLine(name, schema.enums.vals[name]))
  {
    var enums := schema.enums;
    var line := EnumLine(name, enums.vals[name]);
    var e := EnumSection(enums);
    var after := TablesHeading + TableBlocks(schema.tables.keys, schema.tables.vals)
                 + RelationshipSection(schema.relationships);
    RenderParts(schema);
    var i :| 0 <= i < |enums.keys| && enums.keys[i] == name;
    EnumLinesContain(enums.keys, enums.vals, i);
    ContainsRight(EnumHeading, EnumLines(enums.keys, enums.vals), line);
    ContainsLeft(e, after, line);
    ContainsRight(Header, e + after, line);
  }

  /** Every table's block is part of the description. */
  lemma TableListed(schema: Schema, name: string)
    requires name in schema.tables.vals
    ensures Contains(RenderSchema(schema), TableBlock(name, schema.tables.vals[name]))
  {
    var tables := schema.tables;
    var block := TableBlock(name, tables.vals[name]);
    var t := TableBlocks(tables.keys, tables.vals);
    var before := Header + EnumSection(schema.enums) + TablesHeading;
    RenderParts(schema);
    var i :| 0 <= i < |tables.keys| && tables.keys[i] == name;
    TableBlocksContain(tables.keys, tables.vals, i);
    ContainsRight(before, t, block);
    ContainsLeft(before + t, RelationshipSection(schema.relationships), block);
  }

  /** Every column's line, after its line break, is part of the description. */
  lemma ColumnListed(schema: Schema, name: string, j: nat)
    requires name in schema.tables.vals && j < |schema.tables.vals[name]|
    ensures Contains(RenderSchema(schema), "\n" + ColumnLine(schema.tables.vals[name][j]))
  {
    var cols := schema.tables.vals[name];
    TableListed(schema, name);
    ColumnLinesContain(cols, j);
    ContainsRight("\n\nTable '" + name + "':", ColumnLines(cols), "\n" + ColumnLine(cols[j]));
    ContainsTrans(RenderSchema(schema), TableBlock(name, cols), "\n" + ColumnLine(cols[j]));
  }

  /** Every foreign key's line is part of the description. */
  lemma RelationshipListed(schema: Schema, k: nat)
    requires k < |schema.relationships|
    ensures Contains(RenderSchema(schema), RelationshipLine(schema.relationships[k]))
  {
    var rs := schema.relationships;
    var line := RelationshipLine(rs[k]);
    var before := Header + EnumSection(schema.enums) + TablesHeading + TableBlocks(schema.tables.keys, schema.tables.vals);
    RenderParts(schema);
    RelationshipLinesContain(rs, k);
    ContainsRight(RelationshipsHeading, RelationshipLines(rs), line);
    ContainsRight(before, RelationshipSection(rs), line);
  }

  /** The table names of the column rows, in row order. */
  function TableNames(rows: seq<ColumnRow>): (names: seq<string>)
    ensures |names| == |rows| && forall i :: 0 <= i < |rows| ==> names[i] == rows[i].tableName
  {
    if rows == [] then [] else TableNames(rows[..|rows| - 1]) + [rows[|rows| - 1].tableName]
  }

  /** One more row adds its table at the end, unless the table is already there. */
  lemma TablesKeysStep(rows: seq<ColumnRow>, i: nat)
    requires i < |rows|
    ensures var d, t := TablesOf(rows[..i]), rows[i].tableName;
            TablesOf(rows[..i + 1]).keys == if t in d.keys then d.keys else d.keys + [t]
  {
    if i > 0 && rows[i - 1].tableName == rows[i].tableName {
      TablesContinue(rows, i);
    } else {
      TablesRestart(rows, i);
    }
  }

  /**
   * The folded tables are the tables named in the rows, each listed once, in
   * the order the tables first appear.
   */
  lemma {:induction false} TablesInFirstAppearanceOrder(rows: seq<ColumnRow>)
    ensures FirstOccurrenceOrder(TablesOf(rows).keys, TableNames(rows))
  {
    if rows != [] {
      var i := |rows| - 1;
      var init := rows[..i];
      assert rows[..i + 1] == rows;
      TablesInFirstAppearanceOrder(init);
      TablesKeysStep(rows, i);
      assert TableNames(rows) == TableNames(init) + [rows[i].tableName];
      OrderSnoc(TablesOf(init).keys, TableNames(init), rows[i].tableName);
    }
  }
}
