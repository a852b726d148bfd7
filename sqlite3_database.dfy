/**
 * The operations of `SQLite3Database` that turn engine results back into
 * records and CSV rows into records, and what reading back a written row
 * yields. The engine itself is not modelled: the column list that
 * `PRAGMA table_info` reports and the rows that `fetchall` returns are
 * parameters.
 */
module Sqlite3Database {
  import opened Wrappers
  import opened Records
  import Statements

  /**
   * `[c(**dict(zip(col_names, row))) for row in res]`, the records of
   * `select_all`, for a record type whose fields with a default are `defaults`.
   */
  function Materialise(cols: seq<string>, defaults: Record, rows: seq<Row>): (items: seq<Record>)
    ensures |items| == |rows|
    ensures forall i :: 0 <= i < |rows| ==> items[i] == Construct(defaults, Zip(cols, rows[i]))
  {
    if rows == [] then [] else [Construct(defaults, Zip(cols, rows[0]))] + Materialise(cols, defaults, rows[1..])
  }

  /**
   * With distinct column names, record `i` maps column `j` to value `j` of
   * result row `i`, for every position both the columns and the row have;
   * a default never hides a value the row holds.
   */
  lemma MaterialiseValue(cols: seq<string>, defaults: Record, rows: seq<Row>, i: nat, j: nat)
    requires Distinct(cols)
    requires i < |rows| && j < |cols| && j < |rows[i]|
    ensures cols[j] in Materialise(cols, defaults, rows)[i]
    ensures Materialise(cols, defaults, rows)[i][cols[j]] == rows[i][j]
  {
    ZipValue(cols, rows[i], j);
  }

  /**
   * `select`: the statement with its parameters, and the records built one by
   * one from the rows the engine returned for it (`res`), in result order,
   * with the record type's defaults under each zipped row.
   */
  method Select(table: string, cols: seq<string>, defaults: Record, query: Query, res: seq<Row>)
    returns (stmt: Statements.Statement, items: seq<Record>)
    ensures stmt == Statements.Select(table, cols, query)
    ensures items == Materialise(cols, defaults, res)
  {
    stmt := Statements.Select(table, cols, query);
    items := [];
    for i := 0 to |res|
      invariant |items| == i
      invariant forall j :: 0 <= j < i ==> items[j] == Construct(defaults, Zip(cols, res[j]))
    {
      items := items + [Construct(defaults, Zip(cols, res[i]))];
    }
  }

  /** One CSV data row as `csv.DictReader` yields it: header name and text, in header order. */
  type CsvRow = seq<(string, string)>

  /** A CSV pair that `insert_from_csv` keeps. */
  predicate Kept(key: string, fields: set<string>, includeId: bool)
  {
    !(key == "id" && !includeId) && key in fields
  }

  /**
   * `row_clean` of `insert_from_csv`: the pairs of a CSV row whose key the
   * record type declares, without `id` unless `includeId`; a later pair with
   * the same key overwrites an earlier one.
   */
  function CleanRow(row: CsvRow, fields: set<string>, includeId: bool): (clean: Record)
    ensures clean.Keys <= fields
    ensures !includeId ==> "id" !in clean
    ensures forall k :: k in clean <==> exists j :: 0 <= j < |row| && row[j].0 == k && Kept(k, fields, includeId)
  {
    if row == [] then map[]
    else
      var prefix := row[..|row| - 1];
      assert forall j :: 0 <= j < |prefix| ==> prefix[j] == row[j];
      var clean := CleanRow(prefix, fields, includeId);
      var (k, v) := row[|row| - 1];
      if k == "id" && !includeId then clean
      else if k in fields then clean[k := Text(v)]
      else clean
  }

  /**
   * Kept values are unchanged: a kept key holds the text of its last pair in
   * the row.
   */
  lemma {:induction false} CleanRowValue(row: CsvRow, fields: set<string>, includeId: bool, j: nat)
    requires j < |row| && Kept(row[j].0, fields, includeId)
    requires forall l :: j < l < |row| ==> row[l].0 != row[j].0
    ensures row[j].0 in CleanRow(row, fields, includeId)
    ensures CleanRow(row, fields, includeId)[row[j].0] == Text(row[j].1)
  {
    if j < |row| - 1 {
      var prefix := row[..|row| - 1];
      assert prefix[j] == row[j];
      CleanRowValue(prefix, fields, includeId, j);
    }
  }

  /**
   * `c(**row_clean)` for a record type whose fields with a default value are
   * `defaults`: every given field keeps its value, and every defaulted field
   * not given takes its default.
   */
  function Construct(defaults: Record, given: Record): (obj: Record)
    ensures obj.Keys == defaults.Keys + given.Keys
    ensures forall k :: k in given ==> obj[k] == given[k]
    ensures forall k :: k in defaults && k !in given ==> obj[k] == defaults[k]
  {
    defaults + given
  }

  /**
   * `insert_from_csv`: one record per CSV row, in file order, built from the
   * cleaned row and the record type's defaults, then `insert_many` of those
   * records.
   */
  method InsertFromCsv(table: string, cols: seq<string>, rows: seq<CsvRow>, fields: set<string>, defaults: Record, includeId: bool)
    returns (data: seq<Record>, batch: Result<Statements.Batch, Error>)
    ensures |data| == |rows|
    ensures forall i :: 0 <= i < |rows| ==> data[i] == Construct(defaults, CleanRow(rows[i], fields, includeId))
    ensures batch == Statements.InsertMany(table, cols, data)
  {
    data := [];
    for i := 0 to |rows|
      invariant |data| == i
      invariant forall l :: 0 <= l < i ==> data[l] == Construct(defaults, CleanRow(rows[l], fields, includeId))
    {
      var row := rows[i];
      var rowClean: Record := map[];
      for j := 0 to |row|
        invariant rowClean == CleanRow(row[..j], fields, includeId)
      {
        assert row[..j + 1][..j] == row[..j];
        var (k, v) := row[j];
        if k == "id" && !includeId {
          continue;
        }
        if k in fields {
          rowClean := rowClean[k := Text(v)];
        }
      }
      assert row[..|row|] == row;
      data := data + [Construct(defaults, rowClean)];
    }
    batch := Statements.InsertMany(table, cols, data);
  }

  /**
   * A record built from a CSV row can be inserted exactly when each column
   * after the identity column is either given by a kept pair of the row or
   * has a default; otherwise `insert_many` reports the missing column.
   */
  lemma CsvRecordInsertable(table: string, cols: seq<string>, row: CsvRow, fields: set<string>, defaults: Record, includeId: bool)
    ensures var obj := Construct(defaults, CleanRow(row, fields, includeId));
            Statements.InsertOne(table, cols, obj).Success?
            <==> forall i :: 1 <= i < |cols| ==>
                   cols[i] in defaults || exists j :: 0 <= j < |row| && row[j].0 == cols[i] && Kept(cols[i], fields, includeId)
  {
    var obj := Construct(defaults, CleanRow(row, fields, includeId));
    var names := Statements.InsertColumns(cols);
    assert forall i :: 0 <= i < |names| ==> names[i] == cols[i + 1];
    if forall i :: 0 <= i < |names| ==> names[i] in obj {
      forall i | 1 <= i < |cols| ensures cols[i] in obj {
        assert cols[i] == names[i - 1];
      }
    }
  }

  lemma InsertedValues(table: string, cols: seq<string>, obj: Record)
    requires |cols| > 0
    requires Statements.InsertOne(table, cols, obj).Success?
    ensures Statements.InsertOne(table, cols, obj).value.params == Attributes(obj, cols[1..]).value
  {
  }

  lemma DistinctTail(cols: seq<string>)
    requires Distinct(cols) && |cols| > 0
    ensures Distinct(cols[1..]) && cols[0] !in cols[1..]
  {
  }

  /**
   * Insert then read back: when the engine stores the inserted parameters
   * after a fresh identity value, in column order, zipping that row with the
   * columns gives back the object's value in every column after the first,
   * and the identity value in the first.
   */
  lemma InsertReadBack(table: string, cols: seq<string>, obj: Record, id: Value)
    requires Distinct(cols) && |cols| > 0
    requires Statements.InsertOne(table, cols, obj).Success?
    ensures Zip(cols, [id] + Statements.InsertOne(table, cols, obj).value.params)
            == (map k | k in obj && k in cols[1..] :: obj[k])[cols[0] := id]
  {
    var names := cols[1..];
    var vs := Attributes(obj, names).value;
    InsertedValues(table, cols, obj);
    DistinctTail(cols);
    ZipAttributes(obj, names);
    ZipFirst(cols, id, vs);
  }

  /**
   * Update then read back: the values `update` binds to its SET list, zipped
   * with the columns, are the object restricted to the table's columns.
   */
  lemma UpdateReadBack(table: string, cols: seq<string>, obj: Record, query: Query)
    requires Distinct(cols)
    requires Statements.Update(table, cols, obj, query).Success?
    ensures var params := Statements.Update(table, cols, obj, query).value.params;
            && |cols| <= |params|
            && Zip(cols, params[..|cols|]) == map k | k in obj && k in cols :: obj[k]
  {
    var vs := Attributes(obj, cols).value;
    var params := Statements.Update(table, cols, obj, query).value.params;
    assert params[..|cols|] == vs;
    ZipAttributes(obj, cols);
  }
}
