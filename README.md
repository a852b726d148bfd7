# gd-sqlite3 record mapper, modelled in Dafny

`SQLite3Database` is a thin object-to-row mapper over SQLite. Given the
column list of a table, it builds the SQL text and the positional parameter
tuple for each CRUD operation. It turns each result row back into a record
by zipping it with the column names. For CSV import it keeps only the
columns the record type declares. This project models that logic and proves
what it promises. The engine does not take part: the column list and the
result rows are inputs.

Modules:

- `Wrappers` (wrappers.dfy): the `Result` type. A Python exception becomes a
  `Failure`.
- `SqlText` (sql_text.dfy): Python's `sep.join`, `[s] * n` and `str.upper`,
  and a count of `?` placeholders. It also has lemmas that place each joined
  item in its own slot.
- `Records` (records.dfy): values, `table_info` rows, records as
  name-to-value maps, `table_columns`, `[getattr(obj, n) for n in names]` and
  `dict(zip(names, row))`.
- `Statements` (statements.dfy): the statement text and parameters of
  `create_table`, `insert_one`, `insert_many`, `select`, `select_all`,
  `update` and `delete`. The text matches the f-strings character for
  character, line breaks and indentation included.
- `Sqlite3Database` (sqlite3_database.dfy): `select`'s row loop,
  `select_all`'s comprehension, `insert_from_csv`'s nested loops, and what
  reading back an inserted or updated row yields.

The central invariant is that the text and the parameters agree. Each
statement holds as many `?` placeholders as it has parameters. The
placeholder with exactly `i` placeholders before it is the one the statement
ties to the column whose value is parameter `i` (`Statements.BoundAt`:
the text reads `column=?` there, the whole name directly after a space or at
the start, so a longer name that merely ends in `column` does not qualify).
Table and column names are pasted into the text unquoted, so this holds only
when no name contains a `?`. The `Plain` preconditions of those lemmas say
so.

`update` reads and sets every column, `id` included
(src/gd_sqlite3/__init__.py:174, 177), so an update fails with
`AttributeError("id")` on a record without an `id` field.

## Model

| member | source | states |
|---|---|---|
| `Records.TableColumns` | src/gd_sqlite3/__init__.py:41-43 | one name per `table_info` row, the row's second field, same length and order |
| `Records.Attributes` | src/gd_sqlite3/__init__.py:98 | succeeds iff the object has every named attribute; then value `i` is the attribute `names[i]`; otherwise the error names the first missing attribute |
| `Records.Zip` | src/gd_sqlite3/__init__.py:152 | `dict(zip(...))` has as keys exactly the names at positions both sequences have; pairs beyond the shorter are dropped |
| `Records.ZipValue` | src/gd_sqlite3/__init__.py:152 | a name holds the row value at its last position within the shorter length |
| `Records.ZipAttributes` | src/gd_sqlite3/__init__.py:177 | zipping distinct columns with the object's values in column order gives back the object restricted to those columns |
| `Records.ZipFirst` | src/gd_sqlite3/__init__.py:152 | a first column that does not recur takes the row's first value, the rest zip as before |
| `SqlText.Join` | src/gd_sqlite3/__init__.py:53 | defined as `sep.join(items)`; its layout is stated by `SqlText.JoinSplit` and `SqlText.JoinEntry`, its placeholder count by `SqlText.JoinCount` |
| `SqlText.JoinEntry` | src/gd_sqlite3/__init__.py:53 | every item of a join stands in its own slot, in list order, between the separators |
| `SqlText.JoinSplit` | src/gd_sqlite3/__init__.py:53 | a join splits into the join of a prefix, one separator and the join of the rest |
| `SqlText.JoinCount` | src/gd_sqlite3/__init__.py:94 | with a separator free of a character, a join holds that character `k` times per item when each item holds it `k` times |
| `SqlText.Repeat` | src/gd_sqlite3/__init__.py:94 | `['?'] * n` has `n` elements, each `?` |
| `SqlText.Upper` | src/gd_sqlite3/__init__.py:53 | `upper()` keeps the length, turns each lower-case ASCII letter into its capital and keeps every other character |
| `SqlText.UpperIdempotent` | src/gd_sqlite3/__init__.py:53 | upper-casing twice equals once, and no lower-case ASCII letter is left |
| `Statements.ColumnDefs` | src/gd_sqlite3/__init__.py:53 | one definition per field, in field order: the name, one space, the upper-cased type |
| `Statements.CreateTable` | src/gd_sqlite3/__init__.py:50-56 | defined as the `create_table` f-string plus `sql`; its layout is stated by `Statements.CreateTableLayout` |
| `Statements.CreateTableLayout` | src/gd_sqlite3/__init__.py:50-56 | the statement is the head ending in `id INTEGER PRIMARY KEY,`, then definition `i` in slot `i` of the `", "` list, then the closing text, then `sql` unchanged |
| `Statements.InsertColumns` | src/gd_sqlite3/__init__.py:93 | the insert never names the identity column: with distinct column names, the first column is not among the named ones, which are `col_names[1:]` (empty for an empty column list) |
| `Statements.InsertSql` | src/gd_sqlite3/__init__.py:92-95 | defined as the `insert_one`/`insert_many` f-string; its placeholder count is stated by `Statements.InsertSqlCount` and its slots by `Statements.InsertSlot` |
| `Statements.InsertOne` | src/gd_sqlite3/__init__.py:91-98 | defined as the statement plus the `getattr` tuple; its contract is stated by `Statements.InsertOneParams` |
| `Statements.InsertMany` | src/gd_sqlite3/__init__.py:106-114 | defined as the statement plus one `getattr` tuple per object; its contract is stated by `Statements.InsertManyParams` |
| `Statements.PlaceholderListCount` | src/gd_sqlite3/__init__.py:107 | the `", ".join(['?'] * n)` list holds exactly `n` placeholders |
| `Statements.InsertSqlCount` | src/gd_sqlite3/__init__.py:92-95 | an insert statement holds exactly `len(col_names[1:])` placeholders |
| `Statements.InsertSlot` | src/gd_sqlite3/__init__.py:93-94 | column `col_names[i+1]` stands in slot `i` of the column list, and the placeholder with `i` placeholders before it stands in slot `i` of the VALUES list |
| `Statements.InsertOneParams` | src/gd_sqlite3/__init__.py:91-98 | `insert_one` succeeds iff the object has every column after the first; then parameter `i` is its value for `col_names[i+1]`, and there are as many parameters as placeholders; otherwise the error names a missing column |
| `Statements.AttributeRows` | src/gd_sqlite3/__init__.py:112-114 | one parameter tuple per object, in object order, each the object's values for the columns; fails iff some object lacks a column |
| `Statements.AttributeRowsFailure` | src/gd_sqlite3/__init__.py:112-114 | a failing batch reports the error of the first object that lacks a column |
| `Statements.InsertManyParams` | src/gd_sqlite3/__init__.py:106-114 | `insert_many` succeeds iff `insert_one` would for every object; then tuple `i` is the tuple `insert_one` binds for object `i`, and each is as long as the placeholder count |
| `Statements.Bindings` | src/gd_sqlite3/__init__.py:174 | one `name=?` term per name, in order |
| `Statements.Keys` | src/gd_sqlite3/__init__.py:147 | the query keys in insertion order |
| `Statements.QueryValues` | src/gd_sqlite3/__init__.py:149 | the query values in the same order as the keys |
| `Statements.Condition` | src/gd_sqlite3/__init__.py:147 | defined as `' AND '.join(f"{f}=?" for f in query.keys())`; its count and slots are stated by `Statements.ConditionBinding` |
| `Statements.EmptyCondition` | src/gd_sqlite3/__init__.py:147 | an empty query leaves nothing after `WHERE` |
| `Statements.BindingsCount` | src/gd_sqlite3/__init__.py:147 | each `name=?` term of a plain name holds exactly one placeholder |
| `Statements.BindingListCount` | src/gd_sqlite3/__init__.py:174 | a joined list of such terms holds one placeholder per name |
| `Statements.BindingSlot` | src/gd_sqlite3/__init__.py:147 | in a joined list of terms after text ending in a space, with a separator ending in a space, `name_i=?` stands whole right after a space or at the start, and its `?` follows the placeholders of the text before the list and of the `i` earlier terms |
| `Statements.ConditionBinding` | src/gd_sqlite3/__init__.py:147-149 | the WHERE clause adds one placeholder per query key, and value `i` is bound right after `key_i=` |
| `Statements.Select` | src/gd_sqlite3/__init__.py:143-149 | defined as the `select` f-string and `tuple(query.values())`; its contract is stated by `Statements.SelectBinding` |
| `Statements.SelectBinding` | src/gd_sqlite3/__init__.py:143-149 | `select` has as many placeholders as parameters (the query length), and parameter `i` is query value `i`, bound after `key_i=` |
| `Statements.SelectAll` | src/gd_sqlite3/__init__.py:159 | `SELECT * FROM table` adds no placeholder to those of the table name |
| `Statements.Delete` | src/gd_sqlite3/__init__.py:188-192 | defined as the `delete` f-string and `tuple(query.values())`; its contract is stated by `Statements.DeleteBinding` |
| `Statements.DeleteBinding` | src/gd_sqlite3/__init__.py:188-192 | `delete` has as many placeholders as parameters, and parameter `i` is query value `i`, bound after `key_i=` |
| `Statements.UpdateSql` | src/gd_sqlite3/__init__.py:171-175 | defined as the `update` f-string; its slots are stated by `Statements.SetBinding` and `Statements.UpdateBinding` |
| `Statements.Update` | src/gd_sqlite3/__init__.py:171-178 | defined as the statement with the object's values for every column followed by the query values; its contract is stated by `Statements.UpdateBinding` |
| `Statements.SetBinding` | src/gd_sqlite3/__init__.py:174 | in the SET list, the value for `col_names[i]` is the placeholder with `i` placeholders before it, right after the whole name `col_names[i]=` |
| `Statements.UpdateBinding` | src/gd_sqlite3/__init__.py:171-178 | `update` succeeds iff the object has every column, the first included; then it has `len(col_names) + len(query)` parameters and as many placeholders; parameter `i` is the object's value for `col_names[i]`, bound after `col_names[i]=` in SET; parameter `len(col_names) + j` is query value `j`, bound after `key_j=` in WHERE |
| `Sqlite3Database.Materialise` | src/gd_sqlite3/__init__.py:160 | one record per result row, in result order, each the row zipped with the column names over the record type's defaults |
| `Sqlite3Database.MaterialiseValue` | src/gd_sqlite3/__init__.py:160 | with distinct column names, record `i` maps column `j` to value `j` of row `i`; no default hides a value the row holds |
| `Sqlite3Database.Select` | src/gd_sqlite3/__init__.py:143-153 | the loop appends one record per row, the zipped row over the defaults; the result equals the `select_all` comprehension; the statement is `select`'s |
| `Sqlite3Database.CleanRow` | src/gd_sqlite3/__init__.py:126-131 | the cleaned row holds only declared fields and never `id` unless `include_id`; a key is kept iff some pair has it and it passes both tests |
| `Sqlite3Database.CleanRowValue` | src/gd_sqlite3/__init__.py:127-131 | a kept key holds, unchanged, the text of its last pair in the row |
| `Sqlite3Database.Construct` | src/gd_sqlite3/__init__.py:132 | the record built by `c(**kwargs)`, here and in `select`/`select_all`, has the given fields with their values, and every defaulted field not given with its default |
| `Sqlite3Database.InsertFromCsv` | src/gd_sqlite3/__init__.py:119-133 | one record per CSV row, in file order, built from the cleaned row and the defaults, then exactly `insert_many` of those records |
| `Sqlite3Database.CsvRecordInsertable` | src/gd_sqlite3/__init__.py:119-133 | a record built from a CSV row can be inserted iff each column after the first is given by a kept pair of the row or has a default |
| `Sqlite3Database.InsertReadBack` | src/gd_sqlite3/__init__.py:97-98 | a row stored as a fresh identity value followed by `insert_one`'s parameters reads back as the object's value in every column after the first, and the identity value in the first |
| `Sqlite3Database.UpdateReadBack` | src/gd_sqlite3/__init__.py:177-178 | the SET values of `update`, zipped with the columns, read back as the object restricted to the table's columns |

## Left out

- The engine: the connection, `cursor`, `execute`, `executemany`, `fetchall` and `commit` (src/gd_sqlite3/__init__.py:24, 28, 57-58, 97-100, 115-116, 149, 179-180, 192-193). Which rows a query matches, constraints and autocommit belong to SQLite. So the model takes the result rows as an input, and the read-back lemmas state their assumption about the stored row.
- `get_table_info` and `PRAGMA table_info` (src/gd_sqlite3/__init__.py:30-39): the engine produces the column list, so it is an input. For the same reason the schema that `create_table` returns is not modelled.
- The `conn` field is the class's only mutable state, and it is engine plumbing. So no operation in the model is a class method.
- `drop_table`, `delete_all`, `create_trigger`, `export_table_to_csv`: they only paste a name into fixed text and run it.
- File reading and writing and the `csv` module. A CSV row is the list of (header, text) pairs that `csv.DictReader` yields; its `restkey`/`restval` handling of ragged rows is not modelled.
- `print(stmt)` in `insert_one`.
- Python reflection. An object is a map from attribute name to value. The record type's declared fields are a set of names, and its fields with a default value are a map from name to default.
- `Sqlite3Database.Construct`: models `c(**kwargs)` as the given fields over the defaults. It does not model the `TypeError` that the constructor raises for a field with no default and no value, nor attrs converters and validators. In the model such a record lacks the field, and `insert_many` reports `AttributeError` for it instead.
- `Sqlite3Database.Materialise`, `Sqlite3Database.Select`: each record is the zipped row over the defaults. The `TypeError` that `c(**...)` raises for a table column the record type does not declare (src/gd_sqlite3/__init__.py:152, 160) is not modelled: such a column stays in the model's record, as an extra key.
- Float query values: a `Real` value is carried and never computed with, so float rounding plays no part.
- `SqlText.Upper`: does not model Unicode case mapping (`'ß'.upper() == 'SS'`, non-ASCII letters), only ASCII `a`-`z`. The upper-cased text is the whole column definition after the name (type and constraints), so a non-ASCII letter in it, for example in a `DEFAULT` string literal, keeps its case in the model where Python changes it.
- `Statements.SelectBinding`, `Statements.DeleteBinding`, `Statements.UpdateBinding`, `Statements.SetBinding`, `Statements.ConditionBinding`, `Statements.BindingSlot`, `Statements.BindingsCount`, `Statements.BindingListCount`, `Statements.InsertSqlCount`, `Statements.InsertSlot`, `Statements.InsertOneParams`, `Statements.InsertManyParams`: these hold only for table, column and key names without a `?`. The source pastes names in unquoted, so a `?` in a name would shift every later binding.
- Duplicate query keys: a Python dict cannot hold two equal keys. The model's query is a list of pairs and does not forbid them; no property depends on that.
- `Statements.BoundAt` pins a name by the space in front of it. It does not rule out a name that itself holds a space, such as `a id`, whose tail `id` would also qualify. The source pastes names unquoted, and such a name is no valid unquoted SQL identifier.
