/** The state file: databases, tables, columns and rows, one record to a line. */
module StateFile {
  import opened Wrappers
  import opened Values
  import opened Predicates
  import opened SortedMap
  import opened TableIndex
  import opened History
  import opened TableStatements
  import opened TableChanges
  import opened TableRevert
  import opened TableEffects
  import opened Databases
  import opened TextLines
  import opened RecordText
  import opened RecordFields

  datatype Contents = Contents(databases: set<string>, tables: map<TableName, TableImage>)

  const NOTHING := Contents({}, map[])

  // ---------- writing ----------

  const FORMAT_LINE := "FORMAT\t3"

  /** The first comments; the legend of record kinds that follows them is not spelled out. */
  const STATE_COMMENTS := ["# Runtime state dump (human-readable)", "# Records:"]

  function DatabaseRecord(name: string): Record {
    Record("DATABASE", [Token("name", Escaped(name))])
  }

  function TableRecord(name: TableName): Record {
    Record("TABLE", [Token("db", Escaped(name.database)), Token("name", Escaped(name.table))])
  }

  function OwnerTokens(name: TableName): seq<Token> {
    [Token("db", Escaped(name.database)), Token("table", Escaped(name.table))]
  }

  function ColumnRecord(name: TableName, c: Column): Record {
    Record("COLUMN", OwnerTokens(name) + ColumnTokens(c))
  }

  function RowRecord(name: TableName, row: Row): Record {
    Record("ROW", OwnerTokens(name) + RowTokens(row.id, row.values))
  }

  function ColumnLines(name: TableName, schema: Schema): seq<string> {
    seq(|schema|, i requires 0 <= i < |schema| => ColumnRecord(name, schema[i]).Line())
  }

  function RowLines(name: TableName, rows: seq<Row>): seq<string> {
    seq(|rows|, i requires 0 <= i < |rows| => RowRecord(name, rows[i]).Line())
  }

  function TableLines(name: TableName, image: TableImage): seq<string> {
    ["# Database: " + Escaped(name.database), "# Table: " + Escaped(name.table), TableRecord(name).Line()]
    + ColumnLines(name, image.schema) + RowLines(name, image.rows) + [""]
  }

  /** One database and its tables, in the order in which the hash maps yield them. */
  datatype Listing = Listing(database: string, tables: seq<string>)

  function TablesLines(c: Contents, database: string, tables: seq<string>): seq<string>
    requires forall t :: t in tables ==> TableName(database, t) in c.tables
  {
    if tables == [] then []
    else
      var n := |tables| - 1;
      TablesLines(c, database, tables[..n])
        + TableLines(TableName(database, tables[n]), c.tables[TableName(database, tables[n])])
  }

  predicate Names(order: seq<Listing>, c: Contents) {
    forall i :: 0 <= i < |order| ==> forall t :: t in order[i].tables ==> TableName(order[i].database, t) in c.tables
  }

  function DatabasesLines(c: Contents, order: seq<Listing>): seq<string>
    requires Names(order, c)
  {
    if order == [] then []
    else
      var n := |order| - 1;
      DatabasesLines(c, order[..n]) + [DatabaseRecord(order[n].database).Line()]
      + TablesLines(c, order[n].database, order[n].tables)
  }

  function StateLines(c: Contents, order: seq<Listing>): seq<string>
    requires Names(order, c)
  {
    [FORMAT_LINE] + STATE_COMMENTS + DatabasesLines(c, order)
  }

  predicate AllDifferent(names: seq<string>) {
    forall i, j :: 0 <= i < j < |names| ==> names[i] != names[j]
  }

  /** The order lists every database and every table once. */
  ghost predicate Complete(order: seq<Listing>, c: Contents) {
    && Names(order, c)
    && (forall i, j :: 0 <= i < j < |order| ==> order[i].database != order[j].database)
    && (forall i :: 0 <= i < |order| ==> AllDifferent(order[i].tables))
    && (forall db :: db in c.databases <==> exists i :: 0 <= i < |order| && order[i].database == db)
    && (forall name :: name in c.tables ==>
      exists i :: 0 <= i < |order| && order[i].database == name.database && name.table in order[i].tables)
  }

  // ---------- reading ----------

  const EMPTY_TABLE := TableImage([], [], 0, map[])

  function WithDatabase(c: Contents, name: string): Contents {
    c.(databases := c.databases + {name})
  }

  /** A table that is already there stays. */
  function WithTable(c: Contents, name: TableName): Contents {
    var d := WithDatabase(c, name.database);
    if name in c.tables then d else d.(tables := d.tables[name := EMPTY_TABLE])
  }

  /** A column at the end; the heap starts over. */
  function WithColumn(image: TableImage, c: Column): TableImage {
    TableImage(image.schema + [c], [], 0,
               if c.constraint == Indexed && c.name !in image.indexes then image.indexes[c.name := map[]]
                 else image.indexes)
  }

  /** The value can be encoded for an index on a column of this type. */
  predicate Encodable(v: Value, t: ValueType) {
    v.Null? || (t == IntType <==> v.Int?)
  }

  function WithEntry(image: TableImage, name: string, values: seq<Value>, id: RowId): Index
    requires name in image.indexes && |values| == |image.schema|
    requires forall i :: 0 <= i < |values| ==> Encodable(values[i], image.schema[i].typ)
  {
    match FindColumnIndex(image.schema, name)
    case None => image.indexes[name]
    case Some(i) =>
      assert Encodable(values[i], image.schema[i].typ);
      MapInsert(image.indexes[name], EncodeIndexKey(values[i], image.schema[i].typ), id)
  }

  /** A row at the end, in the heap and in every index. */
  function WithRow(image: TableImage, id: RowId, values: seq<Value>): TableImage
    requires |values| == |image.schema| && forall i :: 0 <= i < |values| ==> Encodable(values[i], image.schema[i].typ)
  {
    var rowId := if id == INVALID_ROW_ID then image.next else id;
    TableImage(image.schema, image.rows + [Row(rowId, values)], if rowId >= image.next then rowId + 1 else image.next,
               map name | name in image.indexes :: WithEntry(image, name, values, rowId))
  }

  function TakeTable(c: Contents, parts: seq<string>): Option<Contents> {
    var database, table := FindField(parts, "db"), FindField(parts, "name");
    if database.None? || table.None? then None
    else Some(WithTable(c, TableName(Unescaped(database.value), Unescaped(table.value))))
  }

  function Owner(parts: seq<string>): Option<TableName> {
    var database, table := FindField(parts, "db"), FindField(parts, "table");
    if database.None? || table.None? then None else Some(TableName(Unescaped(database.value), Unescaped(table.value)))
  }

  function TakeColumn(c: Contents, parts: seq<string>): Option<Contents> {
    var owner, column := Owner(parts), ParseColumn(parts);
    if owner.None? || column.None? then None
    else if owner.value !in c.tables then Some(c)
    else Some(c.(tables := c.tables[owner.value := WithColumn(c.tables[owner.value], column.value)]))
  }

  function TakeRow(c: Contents, parts: seq<string>): Option<Contents> {
    var owner := Owner(parts);
    if owner.None? then None
    else if owner.value !in c.tables then Some(c)
    else
      var image, id, values := c.tables[owner.value], ParseId(parts), ParseValues(parts, false);
      if id.None? || values.None? || |values.value| != |image.schema| then None
      else if !(forall i :: 0 <= i < |values.value| ==> Encodable(values.value[i], image.schema[i].typ)) then None
      else Some(c.(tables := c.tables[owner.value := WithRow(image, id.value, values.value)]))
  }

  function TakeDatabase(c: Contents, parts: seq<string>): Option<Contents> {
    match FindField(parts, "name")
    case None => None
    case Some(name) => Some(WithDatabase(c, Unescaped(name)))
  }

  /** One record; records with another tag are passed over. */
  function TakeRecord(c: Contents, parts: seq<string>): Option<Contents>
    requires parts != []
  {
    if parts[0] == "DATABASE" then TakeDatabase(c, parts)
    else if parts[0] == "TABLE" then TakeTable(c, parts)
    else if parts[0] == "COLUMN" then TakeColumn(c, parts)
    else if parts[0] == "ROW" then TakeRow(c, parts)
    else Some(c)
  }

  /** The state so far, and whether the first record has been seen, which may name the format. */
  datatype Loader = Loader(checked: bool, contents: Contents)

  predicate Skipped(line: string) {
    line == "" || line[0] == '#'
  }

  function TakeLine(l: Loader, line: string): Option<Loader> {
    if Skipped(line) then Some(l)
    else
      var parts := Split(line);
      if !l.checked && parts[0] == "FORMAT" then
        if |parts| == 2 && parts[1] == "3" then Some(l.(checked := true)) else None
      else
        match TakeRecord(l.contents, parts)
        case None => None
        case Some(c) => Some(Loader(true, c))
  }

  function TakeLines(l: Option<Loader>, lines: seq<string>): Option<Loader> {
    if lines == [] then l
    else
      match TakeLines(l, lines[..|lines| - 1])
      case None => None
      case Some(m) => TakeLine(m, lines[|lines| - 1])
  }

  /** What loading the lines of a state file yields; None if it fails. */
  function LoadedState(lines: seq<string>): Option<Contents> {
    match TakeLines(Some(Loader(false, NOTHING)), lines)
    case None => None
    case Some(l) => Some(l.contents)
  }

  lemma TakeMore(l: Option<Loader>, lines: seq<string>, line: string)
    ensures TakeLines(l, lines + [line])
      == match TakeLines(l, lines) case None => None case Some(m) => TakeLine(m, line)
  {
    assert (lines + [line])[..|lines|] == lines;
  }

  lemma {:induction false} TakeConcat(l: Option<Loader>, a: seq<string>, b: seq<string>)
    ensures TakeLines(l, a + b) == TakeLines(TakeLines(l, a), b)
  {
    hide TakeLine;
    if b == [] {
      assert a + b == a;
    } else {
      var n := |b| - 1;
      TakeConcat(l, a, b[..n]);
      assert (a + b)[..|a + b| - 1] == a + b[..n];
    }
  }

  // ---------- a table is read back ----------

  function NormalSchema(schema: Schema): (normal: Schema)
    ensures |normal| == |schema|
  {
    seq(|schema|, i requires 0 <= i < |schema| => Normal(schema[i]))
  }

  /** No column declares DEFAULT NULL. */
  predicate NoNullDefault(schema: Schema) {
    forall i :: 0 <= i < |schema| ==> schema[i].default != Some(Null)
  }

  lemma NormalExact(schema: Schema)
    ensures NormalSchema(schema) == schema <==> NoNullDefault(schema)
  {
    if NormalSchema(schema) == schema {
      forall i | 0 <= i < |schema|
        ensures schema[i].default != Some(Null) { assert NormalSchema(schema)[i] == schema[i]; }
    }
  }

  /** An image as it is read back. */
  function NormalImage(image: TableImage): TableImage {
    image.(schema := NormalSchema(image.schema))
  }

  predicate PlainName(name: TableName) {
    Plain(name.database) && Plain(name.table)
  }

  /** No newline in any string. */
  predicate PlainTable(image: TableImage) {
    && (forall i :: 0 <= i < |image.schema| ==> PlainColumn(image.schema[i]))
    && (forall i :: 0 <= i < |image.rows| ==> PlainValues(image.rows[i].values))
  }

  /** Every row has a 64-bit id of its own. */
  predicate GoodIds(image: TableImage) {
    forall i :: 0 <= i < |image.rows| ==> image.rows[i].id < WORD64 && image.rows[i].id != INVALID_ROW_ID
  }

  predicate PlainImage(image: TableImage) {
    GoodIds(image) && PlainTable(image)
  }

  lemma PlainImageRow(image: TableImage, i: nat)
    requires PlainImage(image) && i < |image.rows|
    ensures PlainRow(image.rows[i]) && image.rows[i].id != INVALID_ROW_ID
  {
  }

  /** Rows, counter and indexes belong together. */
  ghost predicate SoundImage(image: TableImage) {
    Intact(TableState(image.rows, image.next, image.indexes, []), image.schema)
  }

  lemma OwnerReadable(name: TableName)
    requires PlainName(name)
    ensures GoodTokens(OwnerTokens(name))
  {
    hide Tame, Escaped;
    EscapedField(name.database);
    EscapedField(name.table);
  }

  lemma ColumnReadable(name: TableName, c: Column)
    requires PlainName(name) && PlainColumn(c)
    ensures ColumnRecord(name, c).Readable()
  {
    hide PlainColumn, ColumnTokens, OwnerTokens, GoodTokens;
    OwnerReadable(name);
    ColumnTokensReadable(c);
    GoodTogether(OwnerTokens(name), ColumnTokens(c));
  }

  lemma FourColumnTokens(c: Column)
    ensures |ColumnTokens(c)| == 4
  {
  }

  lemma RowReadable(name: TableName, row: Row)
    requires PlainName(name) && PlainRow(row)
    ensures RowRecord(name, row).Readable()
  {
    hide PlainRow, RowTokens, OwnerTokens, GoodTokens;
    OwnerReadable(name);
    RowTokensReadable(row);
    GoodTogether(OwnerTokens(name), RowTokens(row.id, row.values));
  }

  /** The owner of a record's column or row. */
  lemma OwnerReads(r: Record, name: TableName)
    requires r.Readable() && |r.tokens| >= 2 && r.tokens[..2] == OwnerTokens(name)
    ensures Owner(r.Parts()) == Some(name)
  {
    hide Tame, FindFrom, Escaped, Scanned;
    assert r.tokens[0] == r.tokens[..2][0] && r.tokens[1] == r.tokens[..2][1];
    FieldAt(r, 0, "db");
    FieldAt(r, 1, "table");
    UnescapeEscape(name.database);
    UnescapeEscape(name.table);
  }

  /** A record's line goes to the function for its tag. */
  lemma LineTaken(c: Contents, r: Record)
    requires r.Readable() && r.tag[0] != '#'
    ensures TakeLine(Loader(true, c), r.Line())
      == match TakeRecord(c, r.Parts()) case None => None case Some(d) => Some(Loader(true, d))
  {
    hide TakeRecord, Tame, Split, Bare;
    RecordSplits(r);
    RecordIsLine(r);
  }

  lemma DatabaseReads(c: Contents, name: string)
    requires Plain(name)
    ensures DatabaseRecord(name).Readable()
    ensures TakeLine(Loader(true, c), DatabaseRecord(name).Line()) == Some(Loader(true, WithDatabase(c, name)))
  {
    hide Tame, Escaped, Scanned, FindFrom, TakeLine;
    var r := DatabaseRecord(name);
    EscapedField(name);
    LineTaken(c, r);
    FieldAt(r, 0, "name");
    UnescapeEscape(name);
  }

  lemma TableReads(c: Contents, name: TableName)
    requires PlainName(name)
    ensures TableRecord(name).Readable()
    ensures TakeLine(Loader(true, c), TableRecord(name).Line()) == Some(Loader(true, WithTable(c, name)))
  {
    hide Tame, Escaped, Scanned, FindFrom, TakeLine;
    var r := TableRecord(name);
    EscapedField(name.database);
    EscapedField(name.table);
    LineTaken(c, r);
    FieldAt(r, 0, "db");
    FieldAt(r, 1, "name");
    UnescapeEscape(name.database);
    UnescapeEscape(name.table);
  }

  lemma ColumnTaken(c: Contents, name: TableName, column: Column)
    requires PlainName(name) && PlainColumn(column) && name in c.tables
    ensures TakeLine(Loader(true, c), ColumnRecord(name, column).Line())
         == Some(Loader(true, c.(tables := c.tables[name := WithColumn(c.tables[name], Normal(column))])))
  {
    hide Tame, Escaped, TakeLine, Owner, ParseColumn, WithColumn, ColumnTokens;
    var r := ColumnRecord(name, column);
    ColumnReadable(name, column);
    LineTaken(c, r);
    assert r.tokens[..2] == OwnerTokens(name) && r.tokens[2..] == ColumnTokens(column);
    OwnerReads(r, name);
    FourColumnTokens(column);
    ColumnReads(r, 2, column);
  }

  lemma RowTaken(c: Contents, name: TableName, row: Row)
    requires PlainName(name) && PlainRow(row) && name in c.tables && |row.values| == |c.tables[name].schema|
    requires forall i :: 0 <= i < |row.values| ==> Encodable(row.values[i], c.tables[name].schema[i].typ)
    ensures TakeLine(Loader(true, c), RowRecord(name, row).Line())
         == Some(Loader(true, c.(tables := c.tables[name := WithRow(c.tables[name], row.id, row.values)])))
  {
    hide Tame, Escaped, TakeLine, Owner, ParseId, ParseValues, WithRow, RowTokens, Encodable;
    var r := RowRecord(name, row);
    RowReadable(name, row);
    LineTaken(c, r);
    assert r.tokens[..2] == OwnerTokens(name) && r.tokens[2..] == RowTokens(row.id, row.values);
    OwnerReads(r, name);
    RowIdAndValues(r, name, row);
  }

  lemma RowIdAndValues(r: Record, name: TableName, row: Row)
    requires r == RowRecord(name, row) && r.Readable() && PlainRow(row)
    ensures ParseId(r.Parts()) == Some(row.id) && ParseValues(r.Parts(), false) == Some(row.values)
  {
    hide Tame, Escaped, Decimal, EncodeValue, ParseId, ParseValues, GoodTokens;
    assert r.tokens[2..] == RowTokens(row.id, row.values);
    RowIdReads(r, 2, row);
    var first :=
      ["ROW", Pair("db", Escaped(name.database)), Pair("table", Escaped(name.table)), Pair("row_id", Decimal(row.id))];
    OwnerHasNoValue(name, row.id);
    ValuesRead(first, row.values, false);
    assert r.Parts() == first + ValueFields(row.values);
  }

  lemma OwnerHasNoValue(name: TableName, id: RowId)
    ensures var first :=
      ["ROW", Pair("db", Escaped(name.database)), Pair("table", Escaped(name.table)), Pair("row_id", Decimal(id))];
      forall i :: 0 <= i < |first| ==> NoValue(first[i])
  {
    hide Escaped, Decimal, ParseKeyValue, Pair;
    TagHasNoValue("ROW");
    PairParses("db", Escaped(name.database));
    PairParses("table", Escaped(name.table));
    PairParses("row_id", Decimal(id));
  }

  lemma TagHasNoValue(tag: string)
    requires '=' !in tag
    ensures NoValue(tag)
  {
    hide ParseKeyValue;
    NoEquals(tag);
  }

  lemma NoEquals(s: string)
    requires '=' !in s
    ensures ParseKeyValue(s) == None
  {
    var i := EqualsAt(s);
  }

  // ---------- columns, rows, tables ----------

  lemma {:induction false} NormalFinds(schema: Schema, name: string)
    ensures FindColumnIndex(NormalSchema(schema), name) == FindColumnIndex(schema, name)
  {
    if schema != [] {
      NormalFinds(schema[1..], name);
      assert NormalSchema(schema)[1..] == NormalSchema(schema[1..]);
    }
  }

  /** A table whose first `k` columns have been read. */
  function ColumnsSoFar(schema: Schema, k: nat): TableImage
    requires k <= |schema|
  {
    TableImage(NormalSchema(schema[..k]), [], 0, map name | name in Indexes(schema[..k]) :: map[])
  }

  lemma ColumnsMore(schema: Schema, k: nat)
    requires k < |schema|
    ensures ColumnsSoFar(schema, k + 1) == WithColumn(ColumnsSoFar(schema, k), Normal(schema[k]))
  {
    var a, b := schema[..k], schema[..k + 1];
    assert b == a + [schema[k]];
    assert NormalSchema(b) == NormalSchema(a) + [Normal(schema[k])];
    IndexesMore(a, schema[k]);
  }

  lemma IndexesMore(a: Schema, c: Column)
    ensures Indexes(a + [c]) == Indexes(a) + if c.constraint == Indexed then {c.name} else {}
  {
    var b := a + [c];
    forall name | name in Indexes(a) ensures name in Indexes(b) {
      var i :| 0 <= i < |a| && a[i].constraint == Indexed && a[i].name == name;
      assert b[i] == a[i];
    }
    assert b[|a|] == c;
  }

  lemma {:induction false} ColumnsTaken(c: Contents, name: TableName, image: TableImage, k: nat)
    requires PlainName(name) && PlainImage(image) && k <= |image.schema|
    requires name in c.tables && c.tables[name] == EMPTY_TABLE
    ensures TakeLines(Some(Loader(true, c)), ColumnLines(name, image.schema)[..k])
         == Some(Loader(true, c.(tables := c.tables[name := ColumnsSoFar(image.schema, k)])))
  {
    hide TakeLine, PlainColumn, PlainRow, WithColumn, ColumnRecord;
    var lines := ColumnLines(name, image.schema);
    if k == 0 {
      assert ColumnsSoFar(image.schema, 0) == EMPTY_TABLE;
      assert c.tables[name := EMPTY_TABLE] == c.tables;
    } else {
      ColumnsTaken(c, name, image, k - 1);
      assert lines[..k] == lines[..k - 1] + [lines[k - 1]];
      TakeMore(Some(Loader(true, c)), lines[..k - 1], lines[k - 1]);
      var d := c.(tables := c.tables[name := ColumnsSoFar(image.schema, k - 1)]);
      ColumnTaken(d, name, image.schema[k - 1]);
      ColumnsMore(image.schema, k - 1);
      assert d.tables[name := ColumnsSoFar(image.schema, k)] == c.tables[name := ColumnsSoFar(image.schema, k)];
    }
  }

  /** A table whose first `k` rows have been read. */
  function RowsSoFar(image: TableImage, k: nat): TableImage
    requires k <= |image.rows| && AllIndexable(image.rows, image.schema)
  {
    TableImage(NormalSchema(image.schema), image.rows[..k], NextId(image.rows[..k]),
      Rebuilt(image.rows[..k], image.schema))
  }

  lemma ConformingEncodable(row: Row, schema: Schema)
    requires Conforms(row, schema)
    ensures forall i :: 0 <= i < |schema| ==> Encodable(row.values[i], NormalSchema(schema)[i].typ)
  {
    forall i | 0 <= i < |schema| ensures Encodable(row.values[i], NormalSchema(schema)[i].typ) {
      assert CanAssign(row.values[i], schema[i]);
    }
  }

  lemma RowsMore(image: TableImage, k: nat)
    requires k < |image.rows| && AllIndexable(image.rows, image.schema) && AllConform(image.rows, image.schema)
    requires image.rows[k].id != INVALID_ROW_ID
    requires forall i :: 0 <= i < |image.schema| ==>
      Encodable(image.rows[k].values[i], NormalSchema(image.schema)[i].typ)
    ensures |image.rows[k].values| == |image.schema|
    ensures RowsSoFar(image, k + 1) == WithRow(RowsSoFar(image, k), image.rows[k].id, image.rows[k].values)
  {
    hide KeyOf, MapInsert, Conforms, Encodable, EncodeIndexKey, FindColumnIndex;
    var rows, row := image.rows, image.rows[k];
    ConformLength(rows, image.schema, k);
    assert rows[..k + 1] == rows[..k] + [row] && rows[..k + 1][..k] == rows[..k];
    var before := RowsSoFar(image, k);
    forall name | name in Indexes(image.schema)
      ensures Rebuilt(rows[..k + 1], image.schema)[name] == WithEntry(before, name, row.values, row.id)
    {
      EntryIsKey(image, k, name);
    }
  }

  lemma EntryIsKey(image: TableImage, k: nat, name: string)
    requires k < |image.rows| && AllIndexable(image.rows, image.schema) && |image.rows[k].values| == |image.schema|
    requires name in Indexes(image.schema)
    requires forall i :: 0 <= i < |image.schema| ==>
      Encodable(image.rows[k].values[i], NormalSchema(image.schema)[i].typ)
    ensures WithEntry(RowsSoFar(image, k), name, image.rows[k].values, image.rows[k].id)
         == Rebuilt(image.rows[..k + 1], image.schema)[name]
  {
    hide MapInsert, Encodable, EncodeIndexKey, FindColumnIndex;
    var schema, rows := image.schema, image.rows;
    var c, t := ColumnOf(schema, name), TypeAt(schema, name);
    NormalFinds(schema, name);
    assert rows[..k + 1][..k] == rows[..k];
    assert Typed(rows[k], c, t);
    assert BuildIndex(rows[..k + 1], c, t) == MapInsert(BuildIndex(rows[..k], c, t), KeyOf(rows[k], c, t), rows[k].id);
  }

  lemma {:induction false} RowsTaken(c: Contents, name: TableName, image: TableImage, k: nat)
    requires PlainName(name) && PlainImage(image) && k <= |image.rows|
    requires AllIndexable(image.rows, image.schema) && AllConform(image.rows, image.schema)
    requires name in c.tables && c.tables[name] == ColumnsSoFar(image.schema, |image.schema|)
    ensures TakeLines(Some(Loader(true, c)), RowLines(name, image.rows)[..k])
         == Some(Loader(true, c.(tables := c.tables[name := RowsSoFar(image, k)])))
  {
    hide TakeLine, PlainColumn, PlainRow, WithRow, RowRecord, Conforms, Indexable, Encodable, Rebuilt;
    var lines := RowLines(name, image.rows);
    if k == 0 {
      NoRows(image);
      assert c.tables[name := RowsSoFar(image, 0)] == c.tables;
    } else {
      RowsTaken(c, name, image, k - 1);
      assert lines[..k] == lines[..k - 1] + [lines[k - 1]];
      TakeMore(Some(Loader(true, c)), lines[..k - 1], lines[k - 1]);
      var d := c.(tables := c.tables[name := RowsSoFar(image, k - 1)]);
      ConformingEncodable(image.rows[k - 1], image.schema);
      RowsMore(image, k - 1);
      PlainImageRow(image, k - 1);
      RowTaken(d, name, image.rows[k - 1]);
      assert d.tables[name := RowsSoFar(image, k)] == c.tables[name := RowsSoFar(image, k)];
    }
  }

  lemma NoRows(image: TableImage)
    requires AllIndexable(image.rows, image.schema)
    ensures RowsSoFar(image, 0) == ColumnsSoFar(image.schema, |image.schema|)
  {
    assert image.rows[..0] == [] && image.schema[..|image.schema|] == image.schema;
  }

  /** The loaded image of a sound table is the table. */
  lemma SoundIsRead(image: TableImage)
    requires SoundImage(image)
    ensures AllIndexable(image.rows, image.schema) && AllConform(image.rows, image.schema)
    ensures RowsSoFar(image, |image.rows|) == NormalImage(image)
  {
    hide Conforms, Agrees, Rebuilt, ReplayAll, RowMap, AllUnique;
    var s := TableState(image.rows, image.next, image.indexes, []);
    RetoldConsistent(s, image.schema);
    SelfRebuild(Retold(s), image.schema);
    assert image.rows[..|image.rows|] == image.rows;
  }

  lemma {:induction false} SkipAll(l: Loader, lines: seq<string>)
    requires forall i :: 0 <= i < |lines| ==> Skipped(lines[i])
    ensures TakeLines(Some(l), lines) == Some(l)
  {
    if lines != [] { SkipAll(l, lines[..|lines| - 1]); }
  }

  /** The lines of a table add the table. */
  lemma TableTaken(c: Contents, name: TableName, image: TableImage)
    requires PlainName(name) && PlainImage(image) && SoundImage(image) && name !in c.tables
      && name.database in c.databases
    ensures TakeLines(Some(Loader(true, c)), TableLines(name, image))
         == Some(Loader(true, c.(tables := c.tables[name := NormalImage(image)])))
  {
    hide TakeLine, TakeLines, PlainImage, SoundImage, PlainName, ColumnLines, RowLines, NormalImage, AllIndexable,
      AllConform, Escaped, TableRecord;
    var comments, columns, rows := ["# Database: " + Escaped(name.database), "# Table: " + Escaped(name.table)],
      ColumnLines(name, image.schema), RowLines(name, image.rows);
    var header := comments + [TableRecord(name).Line()];
    var l := Some(Loader(true, c));
    assert TableLines(name, image) == header + columns + rows + [""];
    SkipAll(Loader(true, c), comments);
    TakeMore(l, comments, TableRecord(name).Line());
    TableReads(c, name);
    assert c.databases + {name.database} == c.databases;
    var d := c.(tables := c.tables[name := EMPTY_TABLE]);
    TakeConcat(l, header, columns);
    AllColumnsTaken(d, name, image);
    var e := d.(tables := d.tables[name := ColumnsSoFar(image.schema, |image.schema|)]);
    TakeConcat(l, header + columns, rows);
    SoundIsRead(image);
    AllRowsTaken(e, name, image);
    var f := e.(tables := e.tables[name := NormalImage(image)]);
    TakeMore(l, header + columns + rows, "");
    EmptySkipped(Loader(true, f));
    assert f.tables == c.tables[name := NormalImage(image)];
  }

  lemma EmptySkipped(l: Loader)
    ensures TakeLine(l, "") == Some(l)
  {
  }

  lemma AllColumnsTaken(c: Contents, name: TableName, image: TableImage)
    requires PlainName(name) && PlainImage(image) && name in c.tables && c.tables[name] == EMPTY_TABLE
    ensures TakeLines(Some(Loader(true, c)), ColumnLines(name, image.schema))
         == Some(Loader(true, c.(tables := c.tables[name := ColumnsSoFar(image.schema, |image.schema|)])))
  {
    hide TakeLines, PlainName, PlainImage;
    var lines, n := ColumnLines(name, image.schema), |image.schema|;
    ColumnsTaken(c, name, image, n);
    assert lines[..n] == lines;
  }

  lemma AllRowsTaken(c: Contents, name: TableName, image: TableImage)
    requires PlainName(name) && PlainImage(image)
    requires AllIndexable(image.rows, image.schema) && AllConform(image.rows, image.schema)
    requires name in c.tables && c.tables[name] == ColumnsSoFar(image.schema, |image.schema|)
    ensures TakeLines(Some(Loader(true, c)), RowLines(name, image.rows))
         == Some(Loader(true, c.(tables := c.tables[name := RowsSoFar(image, |image.rows|)])))
  {
    hide TakeLines, PlainName, PlainImage, AllIndexable, AllConform;
    var lines, n := RowLines(name, image.rows), |image.rows|;
    RowsTaken(c, name, image, n);
    assert lines[..n] == lines;
  }

  // ---------- the whole file, in any order ----------

  /** No string contains a newline. */
  predicate PlainContents(c: Contents) {
    && (forall db :: db in c.databases ==> Plain(db))
    && (forall name :: name in c.tables ==> PlainName(name) && PlainTable(c.tables[name]))
  }

  /** What every state is that statements lead to. */
  ghost predicate Savable(c: Contents) {
    forall name :: name in c.tables ==>
      name.database in c.databases && GoodIds(c.tables[name]) && SoundImage(c.tables[name])
  }

  /** Everything in the file can be written and read back. */
  ghost predicate Storable(c: Contents) {
    && (forall db :: db in c.databases ==> Plain(db))
    && (forall name :: name in c.tables ==>
          name.database in c.databases && PlainName(name) && PlainImage(c.tables[name]) && SoundImage(c.tables[name]))
  }

  /** The tables of the first listings, as they are read back. */
  function ReadSoFar(c: Contents, order: seq<Listing>): Contents {
    Contents(set i | 0 <= i < |order| :: order[i].database,
             map name | name in c.tables && Listed(order, name) :: NormalImage(c.tables[name]))
  }

  predicate Listed(order: seq<Listing>, name: TableName) {
    exists i :: 0 <= i < |order| && order[i].database == name.database && name.table in order[i].tables
  }

  function WithTables(d: Contents, c: Contents, database: string, tables: seq<string>): Contents {
    d.(tables := d.tables + map name | name in c.tables && name.database == database && name.table in tables ::
      NormalImage(c.tables[name]))
  }

  lemma {:induction false} TablesTaken(c: Contents, d: Contents, database: string, tables: seq<string>)
    requires Storable(c) && AllDifferent(tables) && forall t :: t in tables ==> TableName(database, t) in c.tables
    requires database in d.databases && forall t :: t in tables ==> TableName(database, t) !in d.tables
    ensures TakeLines(Some(Loader(true, d)), TablesLines(c, database, tables))
      == Some(Loader(true, WithTables(d, c, database, tables)))
  {
    hide TakeLine, PlainName, PlainImage, SoundImage, NormalImage, TableLines;
    if tables == [] {
      assert WithTables(d, c, database, tables) == d;
    } else {
      var n := |tables| - 1;
      TablesTaken(c, d, database, tables[..n]);
      var e, name := WithTables(d, c, database, tables[..n]), TableName(database, tables[n]);
      assert tables[n] in tables && tables[n] !in tables[..n];
      TakeConcat(Some(Loader(true, d)), TablesLines(c, database, tables[..n]), TableLines(name, c.tables[name]));
      TableTaken(e, name, c.tables[name]);
      OneMoreTable(d, c, database, tables, n);
    }
  }

  lemma OneMoreTable(d: Contents, c: Contents, database: string, tables: seq<string>, n: nat)
    requires |tables| == n + 1 && TableName(database, tables[n]) in c.tables
    ensures var name, e := TableName(database, tables[n]), WithTables(d, c, database, tables[..n]);
      WithTables(d, c, database, tables) == e.(tables := e.tables[name := NormalImage(c.tables[name])])
  {
    hide NormalImage;
    assert tables == tables[..n] + [tables[n]];
  }

  lemma ReadMore(c: Contents, order: seq<Listing>, n: nat)
    requires |order| == n + 1
    ensures ReadSoFar(c, order)
      == WithTables(WithDatabase(ReadSoFar(c, order[..n]), order[n].database), c, order[n].database, order[n].tables)
  {
    hide NormalImage, Listed;
    forall name ensures Listed(order, name) <==>
      Listed(order[..n], name) || (order[n].database == name.database && name.table in order[n].tables)
    {
      ListedMore(order, n, name);
    }
    var a, b := ReadSoFar(c, order),
      WithTables(WithDatabase(ReadSoFar(c, order[..n]), order[n].database), c, order[n].database, order[n].tables);
    DatabasesMore(c, order, n);
    assert a.tables == b.tables;
  }

  lemma DatabasesMore(c: Contents, order: seq<Listing>, n: nat)
    requires |order| == n + 1
    ensures ReadSoFar(c, order).databases == ReadSoFar(c, order[..n]).databases + {order[n].database}
  {
    forall db | db in ReadSoFar(c, order).databases
      ensures db in ReadSoFar(c, order[..n]).databases + {order[n].database}
    {
      var i :| 0 <= i < |order| && order[i].database == db;
      if i < n { assert order[..n][i] == order[i]; }
    }
    forall db | db in ReadSoFar(c, order[..n]).databases ensures db in ReadSoFar(c, order).databases {
      var i :| 0 <= i < n && order[..n][i].database == db;
      assert order[i].database == db;
    }
  }

  lemma ListedMore(order: seq<Listing>, n: nat, name: TableName)
    requires |order| == n + 1
    ensures Listed(order, name) <==>
      (Listed(order[..n], name) || (order[n].database == name.database && name.table in order[n].tables))
  {
    if Listed(order, name) {
      var i :| 0 <= i < |order| && order[i].database == name.database && name.table in order[i].tables;
      if i < n { assert order[..n][i] == order[i]; }
    }
    if Listed(order[..n], name) {
      var i :| 0 <= i < n && order[..n][i].database == name.database && name.table in order[..n][i].tables;
      assert order[i] == order[..n][i];
    }
  }

  /** Distinct databases, distinct tables. */
  ghost predicate Distinct(order: seq<Listing>) {
    && (forall i, j :: 0 <= i < j < |order| ==> order[i].database != order[j].database)
    && (forall i :: 0 <= i < |order| ==> AllDifferent(order[i].tables))
  }

  lemma {:induction false} DatabasesTaken(c: Contents, order: seq<Listing>)
    requires Storable(c) && Names(order, c) && Distinct(order)
    requires forall i :: 0 <= i < |order| ==> order[i].database in c.databases
    ensures TakeLines(Some(Loader(true, NOTHING)), DatabasesLines(c, order)) == Some(Loader(true, ReadSoFar(c, order)))
  {
    hide TakeLine, PlainName, PlainImage, SoundImage, NormalImage, TablesLines, AllDifferent, Plain;
    var l := Some(Loader(true, NOTHING));
    if order == [] {
      assert ReadSoFar(c, order) == NOTHING;
    } else {
      var n := |order| - 1;
      var database, tables, lines := order[n].database, order[n].tables, DatabasesLines(c, order[..n]);
      DatabasesTaken(c, order[..n]);
      var d := ReadSoFar(c, order[..n]);
      TakeMore(l, lines, DatabaseRecord(database).Line());
      DatabaseReads(d, database);
      var e := WithDatabase(d, database);
      TakeConcat(l, lines + [DatabaseRecord(database).Line()], TablesLines(c, database, tables));
      TablesTaken(c, e, database, tables);
      ReadMore(c, order, n);
    }
  }

  /** Contents as they are read back. */
  function NormalContents(c: Contents): Contents {
    Contents(c.databases, map name | name in c.tables :: NormalImage(c.tables[name]))
  }

  lemma CompleteIsAll(c: Contents, order: seq<Listing>)
    requires Complete(order, c)
    ensures ReadSoFar(c, order) == NormalContents(c) && Distinct(order)
    ensures forall i :: 0 <= i < |order| ==> order[i].database in c.databases
  {
    hide NormalImage;
  }

  lemma FormatSplits()
    ensures Split(FORMAT_LINE) == ["FORMAT", "3"]
  {
    hide Tame, SplitFrom;
    var fields := ["FORMAT", "3"];
    BareIsTame("FORMAT");
    BareIsTame("3");
    SplitTabbed(fields);
    assert fields[..1] == ["FORMAT"] && Tabbed(["FORMAT"]) == "FORMAT";
    assert Tabbed(fields) == FORMAT_LINE;
  }

  lemma FormatTaken(c: Contents)
    ensures TakeLine(Loader(false, c), FORMAT_LINE) == Some(Loader(true, c))
  {
    hide Split, TakeRecord;
    FormatSplits();
  }

  /** Loading what was saved gives everything back, in whatever order the hash maps were written: databases, tables,
      columns (a default of NULL reads as no default), rows with their ids, counters and indexes. */
  lemma LoadInvertsSave(c: Contents, order: seq<Listing>)
    requires Storable(c) && Complete(order, c)
    ensures LoadedState(StateLines(c, order)) == Some(NormalContents(c))
  {
    hide TakeLine, Storable, DatabasesLines, ReadSoFar, Complete, TakeLines, Names;
    var start := Loader(false, NOTHING);
    OrderNames(c, order);
    CompleteIsAll(c, order);
    TakeMore(Some(start), [], FORMAT_LINE);
    NothingTaken(start);
    assert [] + [FORMAT_LINE] == [FORMAT_LINE];
    FormatTaken(NOTHING);
    TakeConcat(Some(start), [FORMAT_LINE], STATE_COMMENTS);
    CommentsSkipped();
    SkipAll(Loader(true, NOTHING), STATE_COMMENTS);
    TakeConcat(Some(start), [FORMAT_LINE] + STATE_COMMENTS, DatabasesLines(c, order));
    DatabasesTaken(c, order);
  }

  lemma CommentsSkipped()
    ensures forall i :: 0 <= i < |STATE_COMMENTS| ==> Skipped(STATE_COMMENTS[i])
  {
  }

  lemma OrderNames(c: Contents, order: seq<Listing>)
    requires Complete(order, c)
    ensures Names(order, c)
  {
  }

  lemma NothingTaken(l: Loader)
    ensures TakeLines(Some(l), []) == Some(l)
  {
  }

  // ---------- nothing that is loaded holds a newline ----------

  lemma TakeKeepsPlain(c: Contents, parts: seq<string>)
    requires PlainContents(c) && parts != [] && AllPlain(parts) && TakeRecord(c, parts).Some?
    ensures PlainContents(TakeRecord(c, parts).value)
  {
    hide FindFrom, Scanned, Plain, PlainTable, ParseColumn, ParseValues, ParseId, Owner, WithRow, WithColumn, Encodable;
    if parts[0] == "DATABASE" {
      FieldPlain(parts, "name");
    } else if parts[0] == "TABLE" {
      FieldPlain(parts, "db");
      FieldPlain(parts, "name");
      EmptyPlain();
    } else if parts[0] == "COLUMN" {
      if Owner(parts).value in c.tables {
        ParsedColumnPlain(parts);
        ColumnKeepsPlain(c.tables[Owner(parts).value], ParseColumn(parts).value);
      }
    } else if parts[0] == "ROW" {
      if Owner(parts).value in c.tables {
        ParsedValuesPlain(parts, false);
        RowKeepsPlain(c.tables[Owner(parts).value], ParseId(parts).value, ParseValues(parts, false).value);
      }
    }
  }

  lemma EmptyPlain()
    ensures PlainTable(EMPTY_TABLE)
  {
  }

  lemma ColumnKeepsPlain(image: TableImage, column: Column)
    requires PlainTable(image) && PlainColumn(column)
    ensures PlainTable(WithColumn(image, column))
  {
    hide PlainColumn;
  }

  lemma RowKeepsPlain(image: TableImage, id: RowId, values: seq<Value>)
    requires PlainTable(image) && PlainValues(values)
    requires |values| == |image.schema| && forall i :: 0 <= i < |values| ==> Encodable(values[i], image.schema[i].typ)
    ensures PlainTable(WithRow(image, id, values))
  {
    hide PlainColumn, PlainValues, Encodable, WithEntry;
  }

  lemma LineKeepsPlain(l: Loader, line: string)
    requires PlainContents(l.contents) && Plain(line) && TakeLine(l, line).Some?
    ensures PlainContents(TakeLine(l, line).value.contents)
  {
    hide Split, PlainContents, TakeRecord, Plain;
    if !Skipped(line) {
      SplitPlain(line);
      if TakeRecord(l.contents, Split(line)).Some? { TakeKeepsPlain(l.contents, Split(line)); }
    }
  }

  lemma {:induction false} LinesKeepPlain(l: Loader, lines: seq<string>)
    requires PlainContents(l.contents) && AllPlain(lines) && TakeLines(Some(l), lines).Some?
    ensures PlainContents(TakeLines(Some(l), lines).value.contents)
  {
    hide TakeLine, PlainContents, Plain;
    if lines != [] {
      var n := |lines| - 1;
      LinesKeepPlain(l, lines[..n]);
      LineKeepsPlain(TakeLines(Some(l), lines[..n]).value, lines[n]);
    }
  }

  lemma LoadedStatePlain(lines: seq<string>)
    requires AllPlain(lines) && LoadedState(lines).Some?
    ensures PlainContents(LoadedState(lines).value)
  {
    hide TakeLines;
    LinesKeepPlain(Loader(false, NOTHING), lines);
  }

  lemma StorableIff(c: Contents)
    requires Savable(c)
    ensures Storable(c) <==> PlainContents(c)
  {
    hide GoodIds, PlainTable, SoundImage, PlainName, Plain;
  }
}
