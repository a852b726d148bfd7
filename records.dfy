/**
 * The values the mapper moves between records and table rows: the
 * engine's column metadata, a record as a name-to-value map, an equality
 * query as an ordered list of pairs, and the two conversions between a
 * record and a positional row.
 */
module Records {
  import opened Wrappers

  /**
   * A value bound to a `?` placeholder or read from a result row. The mapper
   * never computes with one; it only carries it.
   */
  datatype Value = Null | Integer(i: int) | Real(r: real) | Text(s: string) | Boolean(b: bool)

  /**
   * One row of `PRAGMA table_info`: position, name, declared type,
   * not-null flag, default value, primary-key flag.
   */
  datatype ColumnInfo = ColumnInfo(cid: int, name: string, declType: string, notNull: int, dflt: Option<string>, pk: int)

  /** An object of the record type, seen through its attributes. */
  type Record = map<string, Value>

  /** An equality query `{column: value, ...}`, in the dict's insertion order. */
  type Query = seq<(string, Value)>

  /** One positional result row, in the order of the selected columns. */
  type Row = seq<Value>

  /** `getattr` on an attribute the object does not have. */
  datatype Error = AttributeError(name: string)

  /** `table_columns`: the name field of each `table_info` row. */
  function TableColumns(info: seq<ColumnInfo>): (names: seq<string>)
    ensures |names| == |info|
    ensures forall i :: 0 <= i < |info| ==> names[i] == info[i].name
  {
    if info == [] then [] else [info[0].name] + TableColumns(info[1..])
  }

  /** No name occurs twice. */
  predicate Distinct(names: seq<string>)
  {
    forall i, j :: 0 <= i < j < |names| ==> names[i] != names[j]
  }

  /**
   * `[getattr(obj, name) for name in names]`: the object's values in column
   * order, or the error for the first name it lacks.
   */
  function Attributes(obj: Record, names: seq<string>): (r: Result<seq<Value>, Error>)
    ensures r.Success? <==> forall i :: 0 <= i < |names| ==> names[i] in obj
    ensures r.Success? ==> |r.value| == |names|
    ensures r.Success? ==> forall i :: 0 <= i < |names| ==> r.value[i] == obj[names[i]]
    ensures r.Failure? ==> exists i :: 0 <= i < |names| && names[i] == r.error.name && names[i] !in obj && forall j :: 0 <= j < i ==> names[j] in obj
  {
    if names == [] then Success([])
    else if names[0] !in obj then Failure(AttributeError(names[0]))
    else
      match Attributes(obj, names[1..])
      case Success(vs) => Success([obj[names[0]]] + vs)
      case Failure(e) =>
        var k :| 0 <= k < |names[1..]| && names[1..][k] == e.name && names[1..][k] !in obj && forall j :: 0 <= j < k ==> names[1..][j] in obj;
        assert names[k + 1] == e.name && forall j :: 0 <= j < k + 1 ==> names[j] in obj;
        Failure(e)
  }

  /**
   * `dict(zip(names, row))`: pairs beyond the shorter of the two are dropped,
   * and a name given twice keeps its later value.
   */
  function Zip(names: seq<string>, row: Row): (m: Record)
    ensures forall k :: k in m <==> exists i :: 0 <= i < |names| && i < |row| && names[i] == k
  {
    if names == [] || row == [] then map[]
    else
      var rest := Zip(names[1..], row[1..]);
      assert forall k :: k in rest <==> exists i :: 1 <= i < |names| && i < |row| && names[i] == k by {
        forall k | k in rest ensures exists i :: 1 <= i < |names| && i < |row| && names[i] == k {
          var i :| 0 <= i < |names[1..]| && i < |row[1..]| && names[1..][i] == k;
          assert names[i + 1] == k;
        }
      }
      map[names[0] := row[0]] + rest
  }

  /** Each name of the zip holds the value at its last position within the shorter length. */
  lemma {:induction false} ZipValue(names: seq<string>, row: Row, i: nat)
    requires i < |names| && i < |row|
    requires forall j :: i < j < |names| && j < |row| ==> names[j] != names[i]
    ensures names[i] in Zip(names, row) && Zip(names, row)[names[i]] == row[i]
  {
    if i > 0 {
      ZipValue(names[1..], row[1..], i - 1);
    } else {
      assert forall j :: 0 <= j < |names[1..]| && j < |row[1..]| ==> names[1..][j] == names[j + 1];
    }
  }

  /** A name the remaining columns do not hold is no key of their zip. */
  lemma ZipAbsent(names: seq<string>, row: Row, k: string)
    requires k !in names
    ensures k !in Zip(names, row)
  {
  }

  /** A first column that does not recur takes the first value of the row. */
  lemma ZipFirst(names: seq<string>, id: Value, vs: Row)
    requires |names| > 0 && names[0] !in names[1..]
    ensures Zip(names, [id] + vs) == Zip(names[1..], vs)[names[0] := id]
  {
    var row := [id] + vs;
    ZipAbsent(names[1..], vs, names[0]);
    assert row[0] == id && row[1..] == vs;
  }

  /**
   * Reading back what was bound: zipping the columns with the object's values
   * in column order gives the object restricted to those columns.
   */
  lemma ZipAttributes(obj: Record, names: seq<string>)
    requires Distinct(names)
    requires Attributes(obj, names).Success?
    ensures Zip(names, Attributes(obj, names).value) == map k | k in obj && k in names :: obj[k]
  {
    var vs := Attributes(obj, names).value;
    var z := Zip(names, vs);
    forall k | k in z ensures k in obj && k in names && z[k] == obj[k] {
      var i :| 0 <= i < |names| && i < |vs| && names[i] == k;
      ZipValue(names, vs, i);
    }
    forall k | k in obj && k in names ensures k in z {
      var i :| 0 <= i < |names| && names[i] == k;
      ZipValue(names, vs, i);
    }
  }
}
