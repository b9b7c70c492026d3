/**
 * scripts/clone_database.py: translating MySQL column types to SQLite
 * affinities, building the column definitions of `create_sqlite_table`,
 * converting row values in `clone_table`, and `add_vector_column`.
 *
 * The MySQL `DESCRIBE` rows, the selected rows and the outcome of the
 * `ALTER TABLE` are inputs.
 */
module CloneSchema {
  import opened Wrappers
  import opened Text
  import opened Batching

  /** The four affinities `mysql_to_sqlite_type` can return. */
  datatype SqliteType = Integer | Real | TextType | Blob {
    function Name(): string {
      match this
      case Integer => "INTEGER"
      case Real => "REAL"
      case TextType => "TEXT"
      case Blob => "BLOB"
    }
  }

  predicate Mentions(t: string, words: seq<string>) {
    exists i :: 0 <= i < |words| && Contains(t, words[i])
  }

  /** `mysql_to_sqlite_type`: substring tests on the lower-cased type, in
      order, the first that matches deciding. Dates, times and anything
      unrecognised become TEXT. */
  function MysqlToSqliteType(mysqlType: string): SqliteType {
    var t := Lower(mysqlType);
    if Contains(t, "int") then Integer
    else if Contains(t, "float") || Contains(t, "double") || Contains(t, "decimal") then Real
    else if Contains(t, "text") || Contains(t, "varchar") || Contains(t, "char") then TextType
    else if Contains(t, "blob") || Contains(t, "binary") then Blob
    else TextType
  }

  /** A string contains what it starts with. */
  lemma ContainsPrefix(s: string, sub: string)
    requires sub <= s
    ensures Contains(s, sub)
  {
    assert s[..|sub|] == sub;
  }

  /** A string contains every infix. */
  lemma {:induction false} ContainsInfix(a: string, sub: string, b: string)
    ensures Contains(a + sub + b, sub)
    decreases |a|
  {
    var s := a + sub + b;
    if a == [] {
      assert s == sub + b;
      ContainsPrefix(s, sub);
    } else {
      assert s[1..] == a[1..] + sub + b;
      ContainsInfix(a[1..], sub, b);
    }
  }

  /** Every type whose name mentions `int`, in any case and with any
      qualifiers around it, is INTEGER: the integer test comes first. */
  lemma IntegerFirst(prefix: string, suffix: string)
    ensures MysqlToSqliteType(prefix + "int" + suffix) == Integer
    ensures MysqlToSqliteType(prefix + "INT" + suffix) == Integer
  {
    LowerAppend(prefix + "int", suffix);
    LowerAppend(prefix, "int");
    LowerAppend(prefix + "INT", suffix);
    LowerAppend(prefix, "INT");
    assert Lower("int") == "int";
    assert Lower("INT") == "int";
    ContainsInfix(Lower(prefix), "int", Lower(suffix));
  }

  /** Lower-casing the type first changes nothing. */
  lemma CaseInsensitive(mysqlType: string)
    ensures MysqlToSqliteType(Lower(mysqlType)) == MysqlToSqliteType(mysqlType)
  {
    assert Lower(Lower(mysqlType)) == Lower(mysqlType);
  }

  /** A type is TEXT exactly when it mentions none of the integer, real or
      binary words, or mentions a text word but no integer or real word:
      dates, times and unrecognised types all land here. */
  lemma TextFallback(mysqlType: string)
    ensures var t := Lower(mysqlType);
      MysqlToSqliteType(mysqlType) == TextType <==>
        !Mentions(t, ["int", "float", "double", "decimal"])
        && (Mentions(t, ["text", "varchar", "char"]) || !Mentions(t, ["blob", "binary"]))
  {
    var t := Lower(mysqlType);
    var ints := ["int", "float", "double", "decimal"];
    var texts := ["text", "varchar", "char"];
    var bins := ["blob", "binary"];
    assert Mentions(t, ints) <==> Contains(t, ints[0]) || Contains(t, ints[1]) || Contains(t, ints[2]) || Contains(t, ints[3]);
    assert Mentions(t, texts) <==> Contains(t, texts[0]) || Contains(t, texts[1]) || Contains(t, texts[2]);
    assert Mentions(t, bins) <==> Contains(t, bins[0]) || Contains(t, bins[1]);
  }

  // ---------------------------------------------------------------------
  // Column definitions
  // ---------------------------------------------------------------------

  /** A row of MySQL's `DESCRIBE`: Field, Type, Key, Null and Extra (which
      may be absent). */
  datatype Column = Column(field: string, mysqlType: string, key: string, nullable: string, extra: Option<string>)

  /** What one column definition says. */
  datatype ColumnSpec = ColumnSpec(name: string, sqlType: SqliteType, primaryKey: bool, autoIncrement: bool, notNull: bool)

  /** The decisions of the loop in `create_sqlite_table` for one column. */
  function SpecOf(col: Column, primaryKey: Option<string>): (r: ColumnSpec)
    ensures r.name == col.field && r.sqlType == MysqlToSqliteType(col.mysqlType)
    ensures r.primaryKey <==> col.key == "PRI" || (primaryKey.Some? && primaryKey.value != "" && col.field == primaryKey.value)
    ensures r.autoIncrement ==> r.primaryKey
    ensures r.autoIncrement <==> r.primaryKey && Contains(Lower(col.extra.GetOr("")), "auto_increment")
    ensures r.notNull <==> col.nullable == "NO"
  {
    var pk := col.key == "PRI" || (primaryKey.Some? && primaryKey.value != "" && col.field == primaryKey.value);
    ColumnSpec(col.field, MysqlToSqliteType(col.mysqlType), pk,
      pk && Contains(Lower(col.extra.GetOr("")), "auto_increment"), col.nullable == "NO")
  }

  /** The words after the column name. */
  function Words(c: ColumnSpec): seq<string> {
    [c.sqlType.Name()]
      + (if c.primaryKey then ["PRIMARY", "KEY"] else [])
      + (if c.primaryKey && c.autoIncrement then ["AUTOINCREMENT"] else [])
      + (if c.notNull then ["NOT", "NULL"] else [])
  }

  /** `' '.join(words)` */
  function JoinSpace(words: seq<string>): string {
    if words == [] then ""
    else if |words| == 1 then words[0]
    else words[0] + " " + JoinSpace(words[1..])
  }

  /** `f"{col_name} {col_type}"` */
  function ColumnDef(c: ColumnSpec): string {
    c.name + " " + JoinSpace(Words(c))
  }

  /** Reading the words back: the affinity, then the flags in their fixed
      order. */
  function ReadWords(w: seq<string>): Option<(SqliteType, bool, bool, bool)> {
    if w == [] then None
    else
      var t :=
        if w[0] == "INTEGER" then Some(Integer) else if w[0] == "REAL" then Some(Real)
        else if w[0] == "TEXT" then Some(TextType) else if w[0] == "BLOB" then Some(Blob) else None;
      var rest := w[1..];
      var pk := |rest| >= 2 && rest[0] == "PRIMARY" && rest[1] == "KEY";
      var rest1 := if pk then rest[2..] else rest;
      var ai := |rest1| >= 1 && rest1[0] == "AUTOINCREMENT";
      var rest2 := if ai then rest1[1..] else rest1;
      var nn := |rest2| == 2 && rest2[0] == "NOT" && rest2[1] == "NULL";
      if t.None? || !(rest2 == [] || nn) then None else Some((t.value, pk, ai, nn))
  }

  /** The words of a definition determine its affinity and flags, so the
      definition says exactly what was decided for the column. */
  lemma WordsRoundTrip(c: ColumnSpec)
    requires c.autoIncrement ==> c.primaryKey
    ensures ReadWords(Words(c)) == Some((c.sqlType, c.primaryKey, c.autoIncrement, c.notNull))
  {
    var w := Words(c);
    var pkw: seq<string> := if c.primaryKey then ["PRIMARY", "KEY"] else [];
    var aiw: seq<string> := if c.primaryKey && c.autoIncrement then ["AUTOINCREMENT"] else [];
    var nnw: seq<string> := if c.notNull then ["NOT", "NULL"] else [];
    assert w == [c.sqlType.Name()] + pkw + aiw + nnw;
    assert w[1..] == pkw + aiw + nnw;
    assert "AUTOINCREMENT" != "PRIMARY" && "NOT" != "PRIMARY" && "NOT" != "AUTOINCREMENT";
    if c.primaryKey {
      assert w[1..][2..] == aiw + nnw;
    }
    if c.primaryKey && c.autoIncrement {
      assert (aiw + nnw)[1..] == nnw;
    }
  }

  /** `create_sqlite_table`: one definition per column, in schema order,
      joined into the CREATE statement. */
  function CreateTableSql(table: string, columns: seq<Column>, primaryKey: Option<string>): (r: (string, seq<ColumnSpec>))
    ensures |r.1| == |columns|
    ensures forall i :: 0 <= i < |columns| ==> r.1[i] == SpecOf(columns[i], primaryKey)
  {
    var specs := seq(|columns|, i requires 0 <= i < |columns| => SpecOf(columns[i], primaryKey));
    var defs := seq(|specs|, i requires 0 <= i < |specs| => ColumnDef(specs[i]));
    ("CREATE TABLE IF NOT EXISTS " + table + " (" + JoinWith(defs, ", ") + ")", specs)
  }

  /** `sep.join(parts)` */
  function JoinWith(parts: seq<string>, sep: string): string {
    if parts == [] then ""
    else if |parts| == 1 then parts[0]
    else parts[0] + sep + JoinWith(parts[1..], sep)
  }

  /** Every definition is well formed: AUTOINCREMENT only on a primary
      key, and the primary key given by name is marked even when MySQL
      does not mark it. */
  lemma CreateTableSpec(table: string, columns: seq<Column>, primaryKey: string)
    requires primaryKey != ""
    ensures var specs := CreateTableSql(table, columns, Some(primaryKey)).1;
      && (forall i :: 0 <= i < |specs| ==> specs[i].autoIncrement ==> specs[i].primaryKey)
      && (forall i :: 0 <= i < |specs| && columns[i].field == primaryKey ==> specs[i].primaryKey)
      && (forall i :: 0 <= i < |specs| ==>
            ReadWords(Words(specs[i])) ==
              Some((specs[i].sqlType, specs[i].primaryKey, specs[i].autoIncrement, specs[i].notNull)))
  {
    var specs := CreateTableSql(table, columns, Some(primaryKey)).1;
    forall i | 0 <= i < |specs|
      ensures ReadWords(Words(specs[i])) ==
              Some((specs[i].sqlType, specs[i].primaryKey, specs[i].autoIncrement, specs[i].notNull))
    {
      WordsRoundTrip(specs[i]);
    }
  }

  // ---------------------------------------------------------------------
  // Copying rows
  // ---------------------------------------------------------------------

  /** A value as the MySQL driver returns it; `Other` carries `str(value)`. */
  datatype Value = Null | Bytes(b: seq<bv8>) | Other(repr: string)

  /** A value as bound to the SQLite insert. */
  datatype Bound = BNull | BBytes(b: seq<bv8>) | BText(s: string)

  /** The conversion of one value. */
  function Bind(v: Value): (r: Bound)
    ensures r.BNull? <==> v.Null?
    ensures v.Bytes? ==> r == BBytes(v.b)
    ensures v.Other? ==> r == BText(v.repr)
  {
    match v
    case Null => BNull
    case Bytes(b) => BBytes(b)
    case Other(s) => BText(s)
  }

  /** The value a bound one reads back as. */
  function Unbind(b: Bound): Value {
    match b
    case BNull => Null
    case BBytes(x) => Bytes(x)
    case BText(s) => Other(s)
  }

  /** Nothing is lost by the conversion: reading back gives the value. */
  lemma BindRoundTrip(v: Value)
    ensures Unbind(Bind(v)) == v
  {
  }

  /** A selected row, by column name. */
  type Row = map<string, Value>

  /** `tuple(row_values)`: the converted values in column order. */
  function ConvertRow(row: Row, columns: seq<string>): (r: seq<Bound>)
    requires forall i :: 0 <= i < |columns| ==> columns[i] in row
    ensures |r| == |columns|
    ensures forall i :: 0 <= i < |columns| ==> Unbind(r[i]) == row[columns[i]]
  {
    seq(|columns|, i requires 0 <= i < |columns| => Bind(row[columns[i]]))
  }

  predicate HasColumns(rows: seq<Row>, columns: seq<string>) {
    forall k, i :: 0 <= k < |rows| && 0 <= i < |columns| ==> columns[i] in rows[k]
  }

  function ConvertRows(rows: seq<Row>, columns: seq<string>): (r: seq<seq<Bound>>)
    requires HasColumns(rows, columns)
    ensures |r| == |rows|
  {
    seq(|rows|, k requires 0 <= k < |rows| => ConvertRow(rows[k], columns))
  }

  /** `clone_table`: the SQLite table is cleared, then the result set is
      read `batchSize` rows at a time and each batch inserted. Every row
      is inserted once, in result order, whatever the batch size, and the
      count reported is the number of rows. The rows and the column list
      come from the same SELECT, so every row has every column. */
  method CloneTable(previous: seq<seq<Bound>>, rows: seq<Row>, columns: seq<string>, batchSize: nat)
    returns (table: seq<seq<Bound>>, totalRows: nat, batches: nat)
    requires batchSize > 0
    requires HasColumns(rows, columns)
    ensures table == ConvertRows(rows, columns)
    ensures totalRows == |rows|
    ensures batches == |Chunks(rows, batchSize)|
  {
    table := [];
    totalRows := 0;
    batches := 0;
    var pos := 0;
    while pos < |rows|
      invariant 0 <= pos <= |rows| && totalRows == pos
      invariant table == ConvertRows(rows[..pos], columns)
      invariant batches + |Chunks(rows[pos..], batchSize)| == |Chunks(rows, batchSize)|
      decreases |rows| - pos
    {
      var m := Min(batchSize, |rows| - pos);
      var batch := rows[pos..pos + m];
      var values := ConvertRows(batch, columns);
      assert rows[..pos + m] == rows[..pos] + batch;
      assert ConvertRows(rows[..pos + m], columns) == table + values;
      assert rows[pos..][m..] == rows[pos + m..];
      table := table + values;
      totalRows := totalRows + |batch|;
      batches := batches + 1;
      pos := pos + m;
    }
    assert rows[..pos] == rows;
  }

  // ---------------------------------------------------------------------
  // add_vector_column
  // ---------------------------------------------------------------------

  const VectorColumn: string := "name_vector"

  /** SQLite's answer to `ALTER TABLE items ADD COLUMN name_vector BLOB`
      on a table with the given columns. */
  function AlterAddColumn(columns: seq<string>): Result<seq<string>, string> {
    if VectorColumn in columns then Failure("duplicate column name: " + VectorColumn)
    else Success(columns + [VectorColumn])
  }

  /** `add_vector_column` given the answer of the ALTER: a "duplicate
      column name" error (in any case) is swallowed, any other error is
      raised. */
  function AddVectorColumn(columns: seq<string>, answer: Result<seq<string>, string>): (r: Result<seq<string>, string>)
    ensures answer.Success? ==> r == answer
    ensures answer.Failure? && Contains(Lower(answer.error), DuplicateMarker) ==> r == Success(columns)
    ensures answer.Failure? && !Contains(Lower(answer.error), DuplicateMarker) ==> r == answer
  {
    match answer
    case Success(c) => Success(c)
    case Failure(e) => if Contains(Lower(e), DuplicateMarker) then Success(columns) else Failure(e)
  }

  const DuplicateMarker: string := "duplicate column name"

  /** SQLite's duplicate-column message is recognised. */
  lemma DuplicateRecognised()
    ensures Contains(Lower("duplicate column name: " + VectorColumn), DuplicateMarker)
  {
    var msg := "duplicate column name: " + VectorColumn;
    forall i | 0 <= i < |msg| ensures LowerChar(msg[i]) == msg[i] {
      assert !('A' <= msg[i] <= 'Z');
    }
    assert Lower(msg) == msg;
    assert DuplicateMarker <= msg;
    ContainsPrefix(msg, DuplicateMarker);
  }

  /** Adding the column is idempotent: after one call the table has the
      column, and a second call succeeds and leaves it unchanged. */
  lemma AddVectorColumnIdempotent(columns: seq<string>)
    ensures var once := AddVectorColumn(columns, AlterAddColumn(columns));
      && once.Success? && VectorColumn in once.value
      && AddVectorColumn(once.value, AlterAddColumn(once.value)) == once
  {
    DuplicateRecognised();
    if VectorColumn !in columns {
      assert (columns + [VectorColumn])[|columns|] == VectorColumn;
    }
  }
}
