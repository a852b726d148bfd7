/**
 * The SQL text and the positional parameters that `SQLite3Database`
 * hands to the engine for each operation. Every statement is built
 * character for character as the Python implementation's f-strings build it, including
 * their line breaks and indentation.
 *
 * The property that matters is that the text and the parameters agree:
 * the statement holds as many `?` placeholders as there are parameters, and
 * the placeholder with exactly `i` placeholders before it is the one the
 * statement ties to the column whose value is parameter `i`. Table and
 * column names are interpolated unquoted, so this holds when no name
 * itself contains a `?` (the `Plain` preconditions below).
 */
module Statements {
  import opened Wrappers
  import opened SqlText
  import opened Records

  /** A statement run with `cursor.execute(sql, params)`. */
  datatype Statement = Statement(sql: string, params: seq<Value>)

  /** A statement run with `cursor.executemany(sql, paramRows)`. */
  datatype Batch = Batch(sql: string, paramRows: seq<seq<Value>>)

  /** The text closing the insert, select, update and delete statements. */
  const StatementEnd: string := ";\n        "

  /** A name that cannot be mistaken for a placeholder. */
  predicate Plain(name: string)
  {
    '?' !in name
  }

  predicate AllPlain(names: seq<string>)
  {
    forall i :: 0 <= i < |names| ==> Plain(names[i])
  }

  /**
   * Text that a name may directly follow: nothing, or text ending in a space,
   * as every statement head and list separator here does.
   */
  predicate Separated(lead: string)
  {
    lead == [] || lead[|lead| - 1] == ' '
  }

  /** Text ending in a space still does after anything is put in front of it. */
  lemma SeparatedAfter(front: string, tail: string)
    requires tail != [] && Separated(tail)
    ensures Separated(front + tail)
  {
    assert (front + tail)[|front + tail| - 1] == tail[|tail| - 1];
  }

  /**
   * Parameter `i` is bound to `column`: the statement writes `column=?` right
   * after a space or at the very start, so that the whole name and not just a
   * suffix of a longer one stands there, and exactly `i` placeholders come
   * before that `?`.
   */
  ghost predicate BoundAt(sql: string, i: nat, column: string)
  {
    Plain(column) && exists lead, rest :: sql == lead + (column + "=?") + rest && Separated(lead) && Placeholders(lead) == i
  }

  // ---------------------------------------------------------------- CREATE

  /** `" ".join([name, type.upper()])`: one column definition. */
  function ColumnDefs(fields: seq<(string, string)>): (defs: seq<string>)
    ensures |defs| == |fields|
    ensures forall i :: 0 <= i < |fields| ==> defs[i] == fields[i].0 + " " + Upper(fields[i].1)
  {
    if fields == [] then []
    else [fields[0].0 + " " + Upper(fields[0].1)] + ColumnDefs(fields[1..])
  }

  /** The text before the column definitions, ending with the fixed identity column. */
  function CreateTableHead(table: string): string
  {
    "\n            CREATE TABLE IF NOT EXISTS " + table + " (\n                id INTEGER PRIMARY KEY,\n                "
  }

  const CreateTableClose: string := "\n            )\n        "

  /** `create_table`'s statement, with the caller's `sql` appended. */
  function CreateTable(table: string, fields: seq<(string, string)>, sql: string): string
  {
    CreateTableHead(table) + Join(ColumnDefs(fields), ", ") + CreateTableClose + sql
  }

  /**
   * The statement opens with the identity column, ends with `sql` unchanged,
   * and holds the definition of field `i`, name then upper-cased type, in
   * slot `i` of the definition list.
   */
  lemma CreateTableLayout(table: string, fields: seq<(string, string)>, sql: string, i: nat)
    requires i < |fields|
    ensures CreateTable(table, fields, sql)
            == CreateTableHead(table)
               + (Before(ColumnDefs(fields), ", ", i) + (fields[i].0 + " " + Upper(fields[i].1)) + After(ColumnDefs(fields), ", ", i))
               + CreateTableClose + sql
  {
    JoinEntry(ColumnDefs(fields), ", ", i);
  }

  // ---------------------------------------------------------------- INSERT

  /**
   * `col_names[1:]`: every column but the first, the identity column, which
   * the insert leaves to the engine and so never names.
   */
  function InsertColumns(cols: seq<string>): (names: seq<string>)
    ensures |cols| > 0 ==> names == cols[1..]
    ensures |cols| == 0 ==> names == []
    ensures Distinct(cols) && |cols| > 0 ==> cols[0] !in names
  {
    if |cols| == 0 then [] else cols[1..]
  }

  /** `", ".join(["?"] * n)`. */
  function PlaceholderList(n: nat): string
  {
    Join(Repeat("?", n), ", ")
  }

  const InsertOneVerb: string := "INSERT OR REPLACE INTO "
  const InsertManyVerb: string := "INSERT INTO "

  /** The text before the column list of an insert. */
  function InsertHead(verb: string, table: string): string
  {
    "\n            " + verb + table + " ("
  }

  const ValuesOpen: string := ")\n            VALUES ("

  /** The insert statement of `insert_one` (verb `InsertOneVerb`) or `insert_many` (verb `InsertManyVerb`). */
  function InsertSql(verb: string, table: string, cols: seq<string>): string
  {
    var names := InsertColumns(cols);
    InsertHead(verb, table) + Join(names, ", ") + ValuesOpen + PlaceholderList(|names|) + ")" + StatementEnd
  }

  /** `insert_one`: the statement and the object's values for `col_names[1:]`. */
  function InsertOne(table: string, cols: seq<string>, obj: Record): Result<Statement, Error>
  {
    match Attributes(obj, InsertColumns(cols))
    case Success(vs) => Success(Statement(InsertSql(InsertOneVerb, table, cols), vs))
    case Failure(e) => Failure(e)
  }

  /** One parameter tuple per object, or the error of the first object that lacks a column. */
  function AttributeRows(objs: seq<Record>, names: seq<string>): (r: Result<seq<seq<Value>>, Error>)
    ensures r.Success? <==> forall i :: 0 <= i < |objs| ==> Attributes(objs[i], names).Success?
    ensures r.Success? ==> |r.value| == |objs|
    ensures r.Success? ==> forall i :: 0 <= i < |objs| ==> r.value[i] == Attributes(objs[i], names).value
  {
    if objs == [] then Success([])
    else
      match Attributes(objs[0], names)
      case Failure(e) => Failure(e)
      case Success(vs) =>
        match AttributeRows(objs[1..], names)
        case Success(rows) => Success([vs] + rows)
        case Failure(e) => Failure(e)
  }

  /** A failing batch reports the error of the first object that lacks a column. */
  lemma {:induction false} AttributeRowsFailure(objs: seq<Record>, names: seq<string>)
    requires AttributeRows(objs, names).Failure?
    ensures exists i :: 0 <= i < |objs| && Attributes(objs[i], names) == Failure(AttributeRows(objs, names).error)
                        && forall j :: 0 <= j < i ==> Attributes(objs[j], names).Success?
  {
    if Attributes(objs[0], names).Success? {
      var rest := objs[1..];
      AttributeRowsFailure(rest, names);
      var k :| 0 <= k < |rest| && Attributes(rest[k], names) == Failure(AttributeRows(rest, names).error)
               && forall j :: 0 <= j < k ==> Attributes(rest[j], names).Success?;
      assert objs[k + 1] == rest[k];
      forall j | 0 < j < k + 1 ensures Attributes(objs[j], names).Success? {
        assert objs[j] == rest[j - 1];
      }
    }
  }

  /** `insert_many`: one statement, one parameter tuple per object. */
  function InsertMany(table: string, cols: seq<string>, objs: seq<Record>): Result<Batch, Error>
  {
    match AttributeRows(objs, InsertColumns(cols))
    case Success(rows) => Success(Batch(InsertSql(InsertManyVerb, table, cols), rows))
    case Failure(e) => Failure(e)
  }

  /** Plain names joined by a plain separator hold no placeholder. */
  lemma PlainJoinCount(names: seq<string>, sep: string)
    requires AllPlain(names) && Plain(sep)
    ensures Placeholders(Join(names, sep)) == 0
  {
    forall i | 0 <= i < |names| ensures CountChar(names[i], '?') == 0 {
      CountAbsent(names[i], '?');
    }
    JoinCount(names, sep, '?', 0);
  }

  /** The `?` list holds exactly `n` placeholders. */
  lemma PlaceholderListCount(n: nat)
    ensures Placeholders(PlaceholderList(n)) == n
  {
    var qs := Repeat("?", n);
    assert forall i :: 0 <= i < |qs| ==> CountChar(qs[i], '?') == 1;
    JoinCount(qs, ", ", '?', 1);
  }

  /**
   * Placeholder count and parameter count agree for an insert: both are the
   * number of columns after the first.
   */
  lemma {:induction false} InsertSqlCount(verb: string, table: string, cols: seq<string>)
    requires Plain(verb) && Plain(table) && AllPlain(cols)
    ensures Placeholders(InsertSql(verb, table, cols)) == |InsertColumns(cols)|
  {
    var names := InsertColumns(cols);
    assert AllPlain(names);
    PlainJoinCount(names, ", ");
    PlaceholderListCount(|names|);
    var head := InsertHead(verb, table);
    var list := Join(names, ", ");
    var vals := PlaceholderList(|names|);
    CountAbsent(head, '?');
    CountAbsent(ValuesOpen, '?');
    CountAbsent(")", '?');
    CountAbsent(StatementEnd, '?');
    CountConcat(head, list, '?');
    CountConcat(head + list, ValuesOpen, '?');
    CountConcat(head + list + ValuesOpen, vals, '?');
    CountConcat(head + list + ValuesOpen + vals, ")", '?');
    CountConcat(head + list + ValuesOpen + vals + ")", StatementEnd, '?');
  }

  /**
   * The `i`-th named column of an insert and the placeholder with exactly `i`
   * placeholders before it stand in slot `i` of their two lists.
   */
  lemma {:induction false} InsertSlot(verb: string, table: string, cols: seq<string>, i: nat)
    requires Plain(verb) && Plain(table) && AllPlain(cols)
    requires i < |InsertColumns(cols)|
    ensures var names := InsertColumns(cols);
            var qs := Repeat("?", |names|);
            var upToValue := InsertHead(verb, table) + (Before(names, ", ", i) + names[i] + After(names, ", ", i))
                             + ValuesOpen + Before(qs, ", ", i);
            && InsertSql(verb, table, cols)
               == InsertHead(verb, table) + (Before(names, ", ", i) + names[i] + After(names, ", ", i))
                  + ValuesOpen + (Before(qs, ", ", i) + "?" + After(qs, ", ", i)) + ")" + StatementEnd
            && Placeholders(upToValue) == i
  {
    var names := InsertColumns(cols);
    var qs := Repeat("?", |names|);
    assert AllPlain(names);
    JoinEntry(names, ", ", i);
    JoinEntry(qs, ", ", i);
    var head := InsertHead(verb, table);
    var list := Before(names, ", ", i) + names[i] + After(names, ", ", i);
    PlainJoinCount(names, ", ");
    assert forall j :: 0 <= j < |qs| ==> CountChar(qs[j], '?') == 1;
    BeforeCount(qs, ", ", '?', 1, i);
    CountAbsent(head, '?');
    CountAbsent(ValuesOpen, '?');
    CountConcat(head, list, '?');
    CountConcat(head + list, ValuesOpen, '?');
    CountConcat(head + list + ValuesOpen, Before(qs, ", ", i), '?');
  }

  /**
   * `insert_one` succeeds exactly when the object has every column after the
   * first; its parameters are then those columns' values in column order, as
   * many as the statement has placeholders.
   */
  lemma InsertOneParams(table: string, cols: seq<string>, obj: Record)
    requires Plain(table) && AllPlain(cols)
    ensures var r := InsertOne(table, cols, obj);
      && (r.Success? <==> forall i :: 1 <= i < |cols| ==> cols[i] in obj)
      && (r.Success? ==>
            && |r.value.params| == Placeholders(r.value.sql) == |InsertColumns(cols)|
            && forall i :: 0 <= i < |r.value.params| ==> r.value.params[i] == obj[cols[i + 1]])
      && (r.Failure? ==> r.error.name !in obj && exists i :: 1 <= i < |cols| && cols[i] == r.error.name)
  {
    InsertSqlCount(InsertOneVerb, table, cols);
    var names := InsertColumns(cols);
    assert forall i :: 0 <= i < |names| ==> names[i] == cols[i + 1];
    assert (forall i :: 1 <= i < |cols| ==> cols[i] in obj) <==> (forall i :: 0 <= i < |names| ==> names[i] in obj) by {
      if forall i :: 0 <= i < |names| ==> names[i] in obj {
        forall i | 1 <= i < |cols| ensures cols[i] in obj {
          assert cols[i] == names[i - 1];
        }
      }
    }
    var a := Attributes(obj, names);
    if a.Failure? {
      var k :| 0 <= k < |names| && names[k] == a.error.name && names[k] !in obj && forall j :: 0 <= j < k ==> names[j] in obj;
      assert cols[k + 1] == a.error.name;
    }
  }

  /**
   * `insert_many` yields one parameter tuple per object, in object order, each
   * the tuple `insert_one` would bind for that object and each as long as the
   * statement's placeholder count.
   */
  lemma InsertManyParams(table: string, cols: seq<string>, objs: seq<Record>)
    requires Plain(table) && AllPlain(cols)
    ensures var r := InsertMany(table, cols, objs);
      && (r.Success? <==> forall i :: 0 <= i < |objs| ==> InsertOne(table, cols, objs[i]).Success?)
      && (r.Success? ==>
            && |r.value.paramRows| == |objs|
            && forall i :: 0 <= i < |objs| ==>
                 && r.value.paramRows[i] == InsertOne(table, cols, objs[i]).value.params
                 && |r.value.paramRows[i]| == Placeholders(r.value.sql))
  {
    InsertSqlCount(InsertManyVerb, table, cols);
  }

  // ---------------------------------------------------------------- WHERE / SET

  /** `f"{name}=?"` for each name, in order. */
  function Bindings(names: seq<string>): (terms: seq<string>)
    ensures |terms| == |names|
    ensures forall i :: 0 <= i < |names| ==> terms[i] == names[i] + "=?"
  {
    if names == [] then [] else [names[0] + "=?"] + Bindings(names[1..])
  }

  /** `query.keys()`, in insertion order. */
  function Keys(query: Query): (keys: seq<string>)
    ensures |keys| == |query|
    ensures forall i :: 0 <= i < |query| ==> keys[i] == query[i].0
  {
    if query == [] then [] else [query[0].0] + Keys(query[1..])
  }

  /** `tuple(query.values())`, in the same order as the keys. */
  function QueryValues(query: Query): (vs: seq<Value>)
    ensures |vs| == |query|
    ensures forall i :: 0 <= i < |query| ==> vs[i] == query[i].1
  {
    if query == [] then [] else [query[0].1] + QueryValues(query[1..])
  }

  /** The text after `WHERE `: one `key=?` per query key, joined by ` AND `. */
  function Condition(query: Query): string
  {
    Join(Bindings(Keys(query)), " AND ")
  }

  /** An empty query leaves nothing after `WHERE `. */
  lemma EmptyCondition()
    ensures Condition([]) == ""
  {
  }

  /** Each `name=?` holds exactly one placeholder. */
  lemma BindingsCount(names: seq<string>)
    requires AllPlain(names)
    ensures forall i :: 0 <= i < |names| ==> Placeholders(Bindings(names)[i]) == 1
  {
    forall i | 0 <= i < |names| ensures Placeholders(Bindings(names)[i]) == 1 {
      CountAbsent(names[i], '?');
      CountConcat(names[i], "=?", '?');
    }
  }

  /** A joined list of plain bindings holds one placeholder per name. */
  lemma BindingListCount(names: seq<string>, sep: string)
    requires AllPlain(names) && Plain(sep)
    ensures Placeholders(Join(Bindings(names), sep)) == |names|
  {
    BindingsCount(names);
    JoinCount(Bindings(names), sep, '?', 1);
  }

  /**
   * In `pre + <bindings joined by sep> + post`, the binding of `names[i]` is
   * the placeholder that follows the ones of `pre` and of the `i` earlier names.
   */
  lemma {:induction false} BindingSlot(pre: string, names: seq<string>, sep: string, post: string, i: nat)
    requires AllPlain(names) && Plain(sep)
    requires Separated(pre) && sep != [] && Separated(sep)
    requires i < |names|
    ensures BoundAt(pre + Join(Bindings(names), sep) + post, Placeholders(pre) + i, names[i])
  {
    var terms := Bindings(names);
    JoinEntry(terms, sep, i);
    BindingsCount(names);
    BeforeCount(terms, sep, '?', 1, i);
    var lead := pre + Before(terms, sep, i);
    var rest := After(terms, sep, i) + post;
    CountConcat(pre, Before(terms, sep, i), '?');
    if i > 0 {
      assert lead == (pre + Join(terms[..i], sep)) + sep;
    }
    Regroup(pre, Before(terms, sep, i), terms[i], After(terms, sep, i), post);
  }

  // ---------------------------------------------------------------- SELECT / DELETE

  function SelectHead(table: string, cols: seq<string>): string
  {
    "\n            SELECT " + Join(cols, ", ") + " \n            FROM " + table + "\n            WHERE "
  }

  /** `select`'s statement and parameters: every column, filtered by the query. */
  function Select(table: string, cols: seq<string>, query: Query): Statement
  {
    Statement(SelectHead(table, cols) + Condition(query) + StatementEnd, QueryValues(query))
  }

  /** `select_all`'s statement: every row, no parameters. */
  function SelectAll(table: string): (sql: string)
    ensures Placeholders(sql) == Placeholders(table)
  {
    CountAbsent("SELECT * FROM ", '?');
    CountConcat("SELECT * FROM ", table, '?');
    "SELECT * FROM " + table
  }

  function DeleteHead(table: string): string
  {
    "\n            DELETE FROM " + table + "\n            WHERE "
  }

  /** `delete`'s statement and parameters. */
  function Delete(table: string, query: Query): Statement
  {
    Statement(DeleteHead(table) + Condition(query) + StatementEnd, QueryValues(query))
  }

  /**
   * For a statement that is `head + condition + end`, the placeholders are
   * those of `head` followed by one per query key, and query value `i` is
   * bound right after `key_i=`.
   */
  lemma {:induction false} ConditionBinding(head: string, query: Query)
    requires AllPlain(Keys(query)) && Separated(head)
    ensures Placeholders(head + Condition(query) + StatementEnd) == Placeholders(head) + |query|
    ensures forall i :: 0 <= i < |query| ==>
              BoundAt(head + Condition(query) + StatementEnd, Placeholders(head) + i, query[i].0)
  {
    var keys := Keys(query);
    BindingListCount(keys, " AND ");
    CountAbsent(StatementEnd, '?');
    CountConcat(head, Condition(query), '?');
    CountConcat(head + Condition(query), StatementEnd, '?');
    forall i | 0 <= i < |query|
      ensures BoundAt(head + Condition(query) + StatementEnd, Placeholders(head) + i, query[i].0)
    {
      BindingSlot(head, keys, " AND ", StatementEnd, i);
    }
  }

  /**
   * `select`: placeholder count equals the number of query values, and value
   * `i` is bound right after `key_i=`, in query order.
   */
  lemma SelectBinding(table: string, cols: seq<string>, query: Query)
    requires Plain(table) && AllPlain(cols) && AllPlain(Keys(query))
    ensures var s := Select(table, cols, query);
      && Placeholders(s.sql) == |s.params| == |query|
      && forall i :: 0 <= i < |query| ==> BoundAt(s.sql, i, query[i].0) && s.params[i] == query[i].1
  {
    var list := Join(cols, ", ");
    PlainJoinCount(cols, ", ");
    CountAbsent("\n            SELECT ", '?');
    CountAbsent(" \n            FROM ", '?');
    CountAbsent(table, '?');
    CountAbsent("\n            WHERE ", '?');
    CountConcat("\n            SELECT ", list, '?');
    CountConcat("\n            SELECT " + list, " \n            FROM ", '?');
    CountConcat("\n            SELECT " + list + " \n            FROM ", table, '?');
    CountConcat("\n            SELECT " + list + " \n            FROM " + table, "\n            WHERE ", '?');
    assert Placeholders(SelectHead(table, cols)) == 0;
    SeparatedAfter("\n            SELECT " + list + " \n            FROM " + table, "\n            WHERE ");
    ConditionBinding(SelectHead(table, cols), query);
  }

  /** `delete`: the same agreement between its condition and its parameters. */
  lemma DeleteBinding(table: string, query: Query)
    requires Plain(table) && AllPlain(Keys(query))
    ensures var s := Delete(table, query);
      && Placeholders(s.sql) == |s.params| == |query|
      && forall i :: 0 <= i < |query| ==> BoundAt(s.sql, i, query[i].0) && s.params[i] == query[i].1
  {
    CountAbsent(DeleteHead(table), '?');
    SeparatedAfter("\n            DELETE FROM " + table, "\n            WHERE ");
    ConditionBinding(DeleteHead(table), query);
  }

  // ---------------------------------------------------------------- UPDATE

  function UpdateSql(table: string, cols: seq<string>, query: Query): string
  {
    "\n            UPDATE " + table + "\n            SET " + Join(Bindings(cols), ", ")
      + "\n            WHERE " + Condition(query) + StatementEnd
  }

  /**
   * `update`: every column is set, the first included, from the object's
   * values in column order, followed by the query values.
   */
  function Update(table: string, cols: seq<string>, obj: Record, query: Query): Result<Statement, Error>
  {
    match Attributes(obj, cols)
    case Success(vs) => Success(Statement(UpdateSql(table, cols, query), vs + QueryValues(query)))
    case Failure(e) => Failure(e)
  }

  /**
   * `update` succeeds exactly when the object has every column; then it binds
   * `|cols| + |query|` parameters to as many placeholders: parameter `i` below
   * `|cols|` is the object's value for `cols[i]`, bound after `cols[i]=` in the
   * SET list, and parameter `|cols| + j` is query value `j`, bound after
   * `key_j=` in the WHERE clause.
   */
  lemma {:induction false} UpdateBinding(table: string, cols: seq<string>, obj: Record, query: Query)
    requires Plain(table) && AllPlain(cols) && AllPlain(Keys(query))
    ensures var r := Update(table, cols, obj, query);
      && (r.Success? <==> forall i :: 0 <= i < |cols| ==> cols[i] in obj)
      && (r.Success? ==>
            && Placeholders(r.value.sql) == |r.value.params| == |cols| + |query|
            && (forall i :: 0 <= i < |cols| ==> BoundAt(r.value.sql, i, cols[i]) && r.value.params[i] == obj[cols[i]])
            && (forall j :: 0 <= j < |query| ==>
                  BoundAt(r.value.sql, |cols| + j, query[j].0) && r.value.params[|cols| + j] == query[j].1))
  {
    var pre := "\n            UPDATE " + table + "\n            SET ";
    var assignments := Join(Bindings(cols), ", ");
    var mid := "\n            WHERE ";
    var head := pre + assignments + mid;
    CountAbsent(pre, '?');
    CountAbsent(mid, '?');
    BindingListCount(cols, ", ");
    CountConcat(pre, assignments, '?');
    CountConcat(pre + assignments, mid, '?');
    SeparatedAfter(pre + assignments, mid);
    ConditionBinding(head, query);
    forall i | 0 <= i < |cols| ensures BoundAt(UpdateSql(table, cols, query), i, cols[i]) {
      SetBinding(table, cols, query, i);
    }
  }

  /** In the SET list of `update`, the object's value for `cols[i]` is bound after `cols[i]=`. */
  lemma SetBinding(table: string, cols: seq<string>, query: Query, i: nat)
    requires Plain(table) && AllPlain(cols) && i < |cols|
    ensures BoundAt(UpdateSql(table, cols, query), i, cols[i])
  {
    var pre := "\n            UPDATE " + table + "\n            SET ";
    var post := "\n            WHERE " + Condition(query) + StatementEnd;
    var sep := ", ";
    assert sep[|sep| - 1] == ' ';
    SeparatedAfter("\n            UPDATE " + table, "\n            SET ");
    CountAbsent(pre, '?');
    BindingSlot(pre, cols, sep, post, i);
    assert UpdateSql(table, cols, query) == pre + Join(Bindings(cols), sep) + post;
  }
}
