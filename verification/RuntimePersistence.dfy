/** Saving the runtime state and the change log to two files, and loading them again. */
module RuntimePersistence {
  import opened Wrappers
  import opened Values
  import opened Predicates
  import opened SortedMap
  import opened TableIndex
  import opened History
  import opened TableStatements
  import opened TableEffects
  import opened Databases
  import opened TextLines
  import opened RecordText
  import opened RecordFields
  import opened StateFile
  import HistoryFile

  type ChangeRecord = HistoryFile.ChangeRecord

  // ---------- the index check at the end of loading ----------

  /** Every row is the only one under its key in this index, and the index finds it. */
  predicate IndexPasses(image: TableImage, name: string)
    requires name in image.indexes
  {
    match FindColumnIndex(image.schema, name)
    case None => false
    case Some(c) => FindsEvery(image.indexes[name], image.rows, c, image.schema[c].typ)
  }

  predicate FindsEvery(m: Index, rows: seq<Row>, c: nat, t: ValueType) {
    && (forall i :: 0 <= i < |rows| ==> c < |rows[i].values| && Encodable(rows[i].values[c], t))
    && (forall i, j :: 0 <= i < j < |rows| ==>
      EncodeIndexKey(rows[i].values[c], t) != EncodeIndexKey(rows[j].values[c], t))
    && (forall i :: 0 <= i < |rows| ==> MapFind(m, EncodeIndexKey(rows[i].values[c], t)) == [rows[i].id])
  }

  predicate IndexesPass(c: Contents) {
    forall table :: table in c.tables ==> forall name :: name in c.tables[table].indexes ==>
      IndexPasses(c.tables[table], name)
  }

  /** No two rows have the same value in the column, and each value is listed with its row and with no other. */
  ghost predicate ListsEvery(m: Index, rows: seq<Row>, c: nat, t: ValueType)
    requires forall i :: 0 <= i < |rows| ==> Typed(rows[i], c, t)
  {
    && (forall i, j :: 0 <= i < j < |rows| && Typed(rows[i], c, t) && Typed(rows[j], c, t) ==>
          rows[i].values[c] != rows[j].values[c])
    && (forall i :: 0 <= i < |rows| ==> KeyOf(rows[i], c, t) in m && m[KeyOf(rows[i], c, t)] == [rows[i].id])
  }

  /** What the check decides for an indexed column without NULLs. */
  lemma FindsEveryMeans(m: Index, rows: seq<Row>, c: nat, t: ValueType)
    requires forall i :: 0 <= i < |rows| ==> Typed(rows[i], c, t)
    ensures FindsEvery(m, rows, c, t) <==> ListsEvery(m, rows, c, t)
  {
    hide EncodeIndexKey;
    forall i, j | 0 <= i < j < |rows|
      ensures KeyOf(rows[i], c, t) == KeyOf(rows[j], c, t) <==> rows[i].values[c] == rows[j].values[c]
    {
      EncodeKeepsOrder(rows[i].values[c], rows[j].values[c], t);
    }
  }

  lemma AgreesFinds(m: Index, rows: seq<Row>, c: nat, t: ValueType)
    requires Agrees(m, rows, c, t) && Ascending(rows)
    ensures FindsEvery(m, rows, c, t)
  {
    hide EncodeIndexKey;
    AscendingDistinct(rows);
    AgreesDistinct(m, rows, c, t);
    forall i | 0 <= i < |rows|
      ensures c < |rows[i].values| && Encodable(rows[i].values[c], t)
        && MapFind(m, EncodeIndexKey(rows[i].values[c], t)) == [rows[i].id]
    {
      assert Typed(rows[i], c, t) && KeyOf(rows[i], c, t) in m;
    }
    forall i, j | 0 <= i < j < |rows|
      ensures EncodeIndexKey(rows[i].values[c], t) != EncodeIndexKey(rows[j].values[c], t)
    {
      assert KeyOf(rows[i], c, t) != KeyOf(rows[j], c, t);
    }
  }

  lemma SoundPasses(image: TableImage, name: string)
    requires SoundImage(image) && name in image.indexes
    ensures IndexPasses(NormalImage(image), name)
  {
    hide FindsEvery, Agrees, FindColumnIndex, Conforms, ReplayAll, RowMap;
    NormalFinds(image.schema, name);
    AgreesFinds(image.indexes[name], image.rows, ColumnOf(image.schema, name), TypeAt(image.schema, name));
  }

  lemma AscendingDistinct(rows: seq<Row>)
    requires Ascending(rows)
    ensures DistinctIds(rows)
  {
  }

  // ---------- the files as text ----------

  lemma LinesOfJoined(lines: seq<string>)
    requires AllPlain(lines)
    ensures Lines(Joined(lines)) == lines
  {
    hide Cut, Joined;
    CutNothing();
    CutJoined("", lines);
    assert "" + Joined(lines) == Joined(lines) && [] + lines == lines;
  }

  lemma PlainTogether(a: seq<string>, b: seq<string>)
    requires AllPlain(a) && AllPlain(b)
    ensures AllPlain(a + b)
  {
  }

  lemma CommentPlain(comment: string, name: string)
    requires Plain(comment) && Plain(name)
    ensures Plain(comment + Escaped(name))
  {
    hide Escaped;
    EscapeKeepsLines(name);
  }

  lemma TablePlain(name: TableName, image: TableImage)
    requires PlainName(name) && PlainImage(image)
    ensures AllPlain(TableLines(name, image))
  {
    hide TableRecord, ColumnRecord, RowRecord, Escaped, PlainColumn, PlainRow, Plain;
    TableReads(NOTHING, name);
    RecordIsLine(TableRecord(name));
    CommentsArePlain(name);
    forall i | 0 <= i < |image.schema| ensures Plain(ColumnRecord(name, image.schema[i]).Line()) {
      ColumnReadable(name, image.schema[i]);
      RecordIsLine(ColumnRecord(name, image.schema[i]));
    }
    forall i | 0 <= i < |image.rows| ensures Plain(RowRecord(name, image.rows[i]).Line()) {
      PlainImageRow(image, i);
      RowReadable(name, image.rows[i]);
      RecordIsLine(RowRecord(name, image.rows[i]));
    }
    var header :=
      ["# Database: " + Escaped(name.database), "# Table: " + Escaped(name.table), TableRecord(name).Line()];
    PlainTogether(header, ColumnLines(name, image.schema));
    PlainTogether(header + ColumnLines(name, image.schema), RowLines(name, image.rows));
    PlainTogether(header + ColumnLines(name, image.schema) + RowLines(name, image.rows), [""]);
  }

  lemma CommentsArePlain(name: TableName)
    requires PlainName(name)
    ensures Plain("# Database: " + Escaped(name.database)) && Plain("# Table: " + Escaped(name.table)) && Plain("")
  {
    CommentPlain("# Database: ", name.database);
    CommentPlain("# Table: ", name.table);
  }

  lemma {:induction false} TablesPlain(c: Contents, database: string, tables: seq<string>)
    requires Storable(c) && forall t :: t in tables ==> TableName(database, t) in c.tables
    ensures AllPlain(TablesLines(c, database, tables))
  {
    hide PlainName, PlainImage, SoundImage, TableLines, Plain;
    if tables != [] {
      var n := |tables| - 1;
      TablesPlain(c, database, tables[..n]);
      TablePlain(TableName(database, tables[n]), c.tables[TableName(database, tables[n])]);
    }
  }

  lemma {:induction false} DatabasesPlain(c: Contents, order: seq<Listing>)
    requires Storable(c) && Names(order, c) && forall i :: 0 <= i < |order| ==> order[i].database in c.databases
    ensures AllPlain(DatabasesLines(c, order))
  {
    hide PlainName, PlainImage, SoundImage, DatabaseRecord, TablesLines, Plain;
    if order != [] {
      var n := |order| - 1;
      DatabasesPlain(c, order[..n]);
      DatabaseReads(NOTHING, order[n].database);
      RecordIsLine(DatabaseRecord(order[n].database));
      TablesPlain(c, order[n].database, order[n].tables);
    }
  }

  lemma HeadersPlain()
    ensures AllPlain([FORMAT_LINE] + STATE_COMMENTS) && AllPlain([FORMAT_LINE] + HistoryFile.HISTORY_COMMENTS)
  {
    assert Plain(FORMAT_LINE);
    assert Plain(STATE_COMMENTS[0]) && Plain(STATE_COMMENTS[1]);
    assert Plain(HistoryFile.HISTORY_COMMENTS[0]) && Plain(HistoryFile.HISTORY_COMMENTS[1]);
  }

  lemma EventPlain(r: ChangeRecord)
    requires HistoryFile.PlainRecord(r)
    ensures AllPlain(HistoryFile.EventLines(r))
  {
    hide HistoryFile.EventRecord, HistoryFile.RowRecord, HistoryFile.SchemaColumnRecord, PlainRow, PlainColumn, Plain;
    HistoryFile.EventReadable(r);
    RecordIsLine(HistoryFile.EventRecord(r));
    var any := HistoryFile.Loader(true, [], Some(r));
    if r.schema.Some? {
      forall i | 0 <= i < |r.schema.value| ensures Plain(HistoryFile.SchemaColumnRecord(r.schema.value[i]).Line()) {
        HistoryFile.SchemaColumnTaken(any, r.schema.value[i]);
        RecordIsLine(HistoryFile.SchemaColumnRecord(r.schema.value[i]));
      }
    }
    RowPlain("BEFORE", r.before);
    RowPlain("AFTER", r.after);
    EndPlain();
  }

  lemma RowPlain(tag: string, row: Option<Row>)
    requires (tag == "BEFORE" || tag == "AFTER") && (row.Some? ==> PlainRow(row.value))
    ensures AllPlain(HistoryFile.RowLine(tag, row))
  {
    hide HistoryFile.RowRecord, PlainRow, Plain;
    if row.Some? {
      var r := HistoryFile.ChangeRecord(InsertRow, "", "", "", 0, None, None, None);
      HistoryFile.RowTaken(HistoryFile.Loader(true, [], Some(r)), tag, row.value);
      RecordIsLine(HistoryFile.RowRecord(tag, row.value));
    }
  }

  lemma EndPlain()
    ensures Plain("EVENT_END") && Plain("")
  {
  }

  lemma {:induction false} EventsPlain(records: seq<ChangeRecord>)
    requires HistoryFile.AllPlainRecords(records)
    ensures AllPlain(HistoryFile.EventsLines(records))
  {
    hide HistoryFile.EventLines, HistoryFile.PlainRecord, Plain;
    if records != [] {
      var n := |records| - 1;
      EventsPlain(records[..n]);
      EventPlain(records[n]);
    }
  }

  /** What loading makes of the two files. */
  function LoadedContents(text: string): Option<Contents> {
    LoadedState(Lines(text))
  }

  function LoadedRecords(text: string): Option<seq<ChangeRecord>> {
    HistoryFile.LoadedHistory(Lines(text))
  }

  /** Loading the files that Save writes, in whatever order it meets databases and tables, succeeds and gives back the
      databases, schemas, rows with their ids, counters, indexes and the change log; a default of NULL reads as no
      default and a recorded schema without columns as none. */
  lemma LoadInvertsSave(c: Contents, order: seq<Listing>, records: seq<ChangeRecord>)
    requires Storable(c) && Complete(order, c) && HistoryFile.AllPlainRecords(records)
    ensures LoadedContents(Joined(StateLines(c, order))) == Some(NormalContents(c)) && IndexesPass(NormalContents(c))
    ensures LoadedRecords(Joined(HistoryFile.HistoryLines(records))) == Some(HistoryFile.NormalRecords(records))
  {
    hide Complete, StateLines, Storable, LoadedState, HistoryFile.LoadedHistory, HistoryFile.HistoryLines,
      HistoryFile.AllPlainRecords, Lines, Joined, IndexesPass, NormalContents;
    OrderNames(c, order);
    StatePlain(c, order);
    LinesOfJoined(StateLines(c, order));
    StateFile.LoadInvertsSave(c, order);
    ContentsPass(c);
    HistoryLoaded(records);
  }

  lemma HistoryLoaded(records: seq<ChangeRecord>)
    requires HistoryFile.AllPlainRecords(records)
    ensures LoadedRecords(Joined(HistoryFile.HistoryLines(records))) == Some(HistoryFile.NormalRecords(records))
  {
    hide HistoryFile.LoadedHistory, HistoryFile.HistoryLines, HistoryFile.AllPlainRecords, Lines, Joined;
    HistoryPlain(records);
    LinesOfJoined(HistoryFile.HistoryLines(records));
    HistoryFile.LoadInvertsSave(records);
  }

  lemma StatePlain(c: Contents, order: seq<Listing>)
    requires Storable(c) && Complete(order, c) && Names(order, c)
    ensures AllPlain(StateLines(c, order))
  {
    hide DatabasesLines, Storable, Plain;
    HeadersPlain();
    DatabasesPlain(c, order);
    PlainTogether([FORMAT_LINE] + STATE_COMMENTS, DatabasesLines(c, order));
  }

  lemma HistoryPlain(records: seq<ChangeRecord>)
    requires HistoryFile.AllPlainRecords(records)
    ensures AllPlain(HistoryFile.HistoryLines(records))
  {
    hide HistoryFile.EventsLines, HistoryFile.PlainRecord, Plain;
    HeadersPlain();
    EventsPlain(records);
    PlainTogether([FORMAT_LINE] + HistoryFile.HISTORY_COMMENTS, HistoryFile.EventsLines(records));
  }

  lemma ContentsPass(c: Contents)
    requires Storable(c)
    ensures IndexesPass(NormalContents(c))
  {
    hide SoundImage, PlainImage, IndexPasses, PlainName, Plain;
    forall table | table in c.tables
      ensures forall name :: name in NormalImage(c.tables[table]).indexes ==>
        IndexPasses(NormalImage(c.tables[table]), name)
    {
      forall name | name in c.tables[table].indexes ensures IndexPasses(NormalImage(c.tables[table]), name) {
        SoundPasses(c.tables[table], name);
      }
    }
  }

  /** No table has a column that declares DEFAULT NULL. */
  predicate NoNullDefaults(c: Contents) {
    forall name :: name in c.tables ==> NoNullDefault(c.tables[name].schema)
  }

  lemma ContentsExact(c: Contents)
    ensures NormalContents(c) == c <==> NoNullDefaults(c)
  {
    hide NoNullDefault, NormalSchema;
    forall name | name in c.tables
      ensures NormalImage(c.tables[name]) == c.tables[name] <==> NoNullDefault(c.tables[name].schema)
    {
      NormalExact(c.tables[name].schema);
    }
    if NoNullDefaults(c) { assert NormalContents(c).tables == c.tables; }
    if NormalContents(c) == c {
      forall name | name in c.tables ensures NormalImage(c.tables[name]) == c.tables[name] {
        assert NormalContents(c).tables[name] == c.tables[name];
      }
    }
  }

  /** The state comes back exactly as it was saved if and only if no column declares DEFAULT NULL and no string contains
      a newline. */
  lemma StateExactlyWhen(c: Contents, order: seq<Listing>)
    requires Savable(c) && Complete(order, c) && Names(order, c)
    ensures LoadedContents(Joined(StateLines(c, order))) == Some(c) <==> NoNullDefaults(c) && PlainContents(c)
  {
    hide Complete, Names, Savable, Storable, StateLines, LoadedState, HistoryFile.LoadedHistory, Joined, NormalContents,
      NoNullDefaults, PlainContents, Cut;
    var text := Joined(StateLines(c, order));
    LinesArePlain(text);
    if LoadedContents(text).Some? { LoadedStatePlain(Lines(text)); }
    StorableIff(c);
    if PlainContents(c) {
      NothingRecorded();
      LoadInvertsSave(c, order, []);
      ContentsExact(c);
    }
  }

  lemma NothingRecorded()
    ensures HistoryFile.AllPlainRecords([])
  {
  }

  /** The change log comes back exactly as it was saved if and only if no string contains a newline, no recorded schema
      is without columns, and none declares DEFAULT NULL. */
  lemma HistoryExactlyWhen(records: seq<ChangeRecord>)
    requires HistoryFile.AllGoodNumbers(records)
    ensures LoadedRecords(Joined(HistoryFile.HistoryLines(records))) == Some(records) <==>
      HistoryFile.AllExactRecords(records) && HistoryFile.AllPlainTexts(records)
  {
    hide HistoryFile.LoadedHistory, HistoryFile.HistoryLines, HistoryFile.AllPlainRecords, HistoryFile.AllExactRecords,
      HistoryFile.AllPlainTexts, HistoryFile.AllGoodNumbers, HistoryFile.NormalRecords, Joined, Cut;
    var text := Joined(HistoryFile.HistoryLines(records));
    LinesArePlain(text);
    if LoadedRecords(text).Some? { HistoryFile.LoadedHistoryPlain(Lines(text)); }
    HistoryFile.PlainRecordsIff(records);
    if HistoryFile.AllPlainTexts(records) {
      HistoryLoaded(records);
      HistoryFile.RecordsExact(records);
    }
  }

  /** Loading gives back exactly what was saved, in both files, if and only if no string contains a newline, no column
      declares DEFAULT NULL, neither in a table nor in a recorded schema, and no recorded schema is without columns. */
  lemma ExactExactlyWhen(c: Contents, order: seq<Listing>, records: seq<ChangeRecord>)
    requires Savable(c) && Complete(order, c) && HistoryFile.AllGoodNumbers(records)
    ensures
      && LoadedContents(Joined(StateLines(c, order))) == Some(c)
      && LoadedRecords(Joined(HistoryFile.HistoryLines(records))) == Some(records)
      <==>
      && NoNullDefaults(c) && PlainContents(c)
      && HistoryFile.AllExactRecords(records) && HistoryFile.AllPlainTexts(records)
  {
    hide StateLines, Joined, LoadedContents, LoadedRecords, NoNullDefaults, PlainContents, Savable,
      HistoryFile.HistoryLines, HistoryFile.AllExactRecords, HistoryFile.AllPlainTexts, HistoryFile.AllGoodNumbers;
    OrderNames(c, order);
    StateExactlyWhen(c, order);
    HistoryExactlyWhen(records);
  }

  /** One table `t` in one database `d`. */
  function OneTable(image: TableImage): Contents {
    Contents({"d"}, map[TableName("d", "t") := image])
  }

  const ONE_LISTING := [Listing("d", ["t"])]

  lemma OneTableSavable(image: TableImage)
    requires GoodIds(image) && SoundImage(image)
    ensures Savable(OneTable(image)) && Complete(ONE_LISTING, OneTable(image)) && Names(ONE_LISTING, OneTable(image))
  {
    hide GoodIds, SoundImage;
    assert ONE_LISTING[0].database == "d";
  }

  lemma UnindexedSound(column: Column, rows: seq<Row>)
    requires column.constraint == Free && AllConform(rows, [column]) && Ascending(rows)
    ensures SoundImage(TableImage([column], rows, NextId(rows), map[]))
  {
    hide Conforms, NextId;
    assert Indexes([column]) == {};
  }

  lemma OneTablePlain(image: TableImage)
    ensures PlainContents(OneTable(image)) <==> PlainTable(image)
    ensures NoNullDefaults(OneTable(image)) <==> NoNullDefault(image.schema)
  {
    hide PlainTable, NoNullDefault;
    var c, name := OneTable(image), TableName("d", "t");
    assert name in c.tables && c.tables[name] == image && Plain("d") && Plain("t");
  }

  /** For instance: an empty table with one column, which declares DEFAULT NULL. */
  lemma NullDefaultIsLost() returns (c: Contents)
    ensures c == OneTable(TableImage([Column("k", IntType, Free, Some(Null))], [], 0, map[]))
    ensures Savable(c) && PlainContents(c) && Complete(ONE_LISTING, c) && Names(ONE_LISTING, c)
    ensures LoadedContents(Joined(StateLines(c, ONE_LISTING))) != Some(c)
  {
    hide StateLines, LoadedContents, Joined, SoundImage, Savable, Complete, Names, PlainContents, NoNullDefaults;
    var column := Column("k", IntType, Free, Some(Null));
    var image := TableImage([column], [], 0, map[]);
    c := OneTable(image);
    UnindexedSound(column, []);
    OneTableSavable(image);
    OneTablePlain(image);
    StateExactlyWhen(c, ONE_LISTING);
    assert image.schema[0] == column && !NoNullDefault(image.schema);
  }

  /** For instance: a table with one column, and a row that holds a newline. */
  lemma NewlineIsLost() returns (c: Contents)
    ensures c == OneTable(TableImage([Column("k", StringType, Free, None)], [Row(0, [Str("a\nb")])], 1, map[]))
    ensures Savable(c) && NoNullDefaults(c) && Complete(ONE_LISTING, c) && Names(ONE_LISTING, c)
    ensures LoadedContents(Joined(StateLines(c, ONE_LISTING))) != Some(c)
  {
    hide StateLines, LoadedContents, Joined, SoundImage, Savable, Complete, Names, PlainContents, NoNullDefaults;
    var column, row := Column("k", StringType, Free, None), Row(0, [Str("a\nb")]);
    var image := TableImage([column], [row], 1, map[]);
    c := OneTable(image);
    NextOfOne(row);
    UnindexedSound(column, [row]);
    OneTableSavable(image);
    OneTablePlain(image);
    StateExactlyWhen(c, ONE_LISTING);
    assert "a\nb"[1] == '\n' && row.values[0] == Str("a\nb") && !PlainValues(row.values) && image.rows[0] == row;
  }

  lemma NextOfOne(row: Row)
    ensures NextId([row]) == row.id + 1
  {
    assert [row][..0] == [];
  }

  /** Every state that statements can lead to can be saved and loaded again, as long as no string contains a newline. */
  lemma IntactIsStorable(x: Snapshot)
    requires AllIntact(x) && forall db :: db in x.databases ==> Plain(db)
    requires forall name :: name in x.tables ==> Plain(name.table) && PlainImage(x.tables[name])
    ensures Storable(Contents(x.databases, x.tables))
  {
    hide PlainImage, IndexesAgree, AllConform, Plain;
    forall name | name in x.tables ensures SoundImage(x.tables[name]) {
      SoundIfIntact(x, name);
    }
    forall name | name in x.tables ensures name.database in x.databases && PlainName(name) {
    }
  }

  lemma SoundIfIntact(x: Snapshot, name: TableName)
    requires name in x.tables && Intact(StateOf(x, name), x.tables[name].schema)
    ensures SoundImage(x.tables[name])
  {
    hide AllConform, Agrees;
  }

  // ---------- the files ----------

  /** The two files; None while one does not exist. */
  class RuntimePersistence {
    var stateFile: Option<string>
    var historyFile: Option<string>

    constructor (stateFile: Option<string>, historyFile: Option<string>)
      ensures this.stateFile == stateFile && this.historyFile == historyFile
    {
      this.stateFile, this.historyFile := stateFile, historyFile;
    }

    // ---------- saving ----------

    /** Writes both files.  Databases and tables come in whatever order the hash maps yield them. */
    method Save(c: Contents, records: seq<ChangeRecord>) returns (ghost order: seq<Listing>)
      requires forall name :: name in c.tables ==> name.database in c.databases
      modifies this
      ensures Complete(order, c) && Names(order, c) && stateFile == Some(Joined(StateLines(c, order)))
      ensures historyFile == Some(Joined(HistoryFile.HistoryLines(records)))
    {
      hide TablesLines, DatabasesLines, HistoryFile.EventsLines, HistoryFile.EventLines, Joined;
      var header := Written("", [FORMAT_LINE] + STATE_COMMENTS);
      var body;
      body, order := WriteDatabases(c);
      AppendedLines([FORMAT_LINE] + STATE_COMMENTS, DatabasesLines(c, order));
      stateFile := Some(header + body);
      var historyHeader := Written("", [FORMAT_LINE] + HistoryFile.HISTORY_COMMENTS);
      var events := WriteEvents(records);
      AppendedLines([FORMAT_LINE] + HistoryFile.HISTORY_COMMENTS, HistoryFile.EventsLines(records));
      historyFile := Some(historyHeader + events);
    }

    lemma AppendedLines(a: seq<string>, b: seq<string>)
      ensures Joined(a + b) == Joined(a) + Joined(b)
      decreases |b|
    {
      hide Joined;
      if b == [] {
        CutNothing();
        assert a + b == a && Joined(a) + "" == Joined(a);
      } else {
        var n := |b| - 1;
        AppendedLines(a, b[..n]);
        JoinedStep(b);
        JoinedStep(a + b);
        assert (a + b)[..|a + b| - 1] == a + b[..n];
        assert Joined(a) + (Joined(b[..n]) + b[n] + "\n") == Joined(a) + Joined(b[..n]) + b[n] + "\n";
      }
    }

    /** Writes lines one by one. */
    method Written(text: string, lines: seq<string>) returns (longer: string)
      ensures longer == text + Joined(lines)
      ensures text == "" ==> longer == Joined(lines)
    {
      hide Joined;
      longer := text;
      var i := 0;
      CutNothing();
      assert lines[..0] == [] && text + "" == text;
      while i < |lines|
        invariant i <= |lines| && longer == text + Joined(lines[..i])
      {
        JoinedStep(lines[..i + 1]);
        assert lines[..i + 1][..i] == lines[..i];
        assert text + (Joined(lines[..i]) + lines[i] + "\n") == text + Joined(lines[..i]) + lines[i] + "\n";
        longer := longer + lines[i] + "\n";
        i := i + 1;
      }
      assert lines[..|lines|] == lines && "" + Joined(lines) == Joined(lines);
    }

    method WriteDatabases(c: Contents) returns (text: string, ghost order: seq<Listing>)
      requires forall name :: name in c.tables ==> name.database in c.databases
      ensures Complete(order, c) && Names(order, c) && text == Joined(DatabasesLines(c, order))
    {
      hide DatabasesLines, Joined, CompleteFor, Complete, Names;
      text, order := "", [];
      NothingWritten(c);
      var databases := c.databases;
      assert c.databases - databases == {};
      while databases != {}
        invariant databases <= c.databases && Names(order, c) && text == Joined(DatabasesLines(c, order))
        invariant CompleteFor(order, c, c.databases - databases)
        decreases databases
      {
        var database :| database in databases;
        ghost var listing;
        text, listing := WriteDatabase(text, c, database, order);
        CompleteMore(order, c, c.databases - databases, listing);
        order := order + [listing];
        assert c.databases - (databases - {database}) == c.databases - databases + {database};
        databases := databases - {database};
      }
      assert c.databases - databases == c.databases;
      CompleteAll(order, c);
    }

    lemma NothingWritten(c: Contents)
      ensures CompleteFor([], c, {}) && Names([], c) && Joined(DatabasesLines(c, [])) == ""
    {
    }

    /** One database and its tables. */
    method WriteDatabase(text: string, c: Contents, database: string, ghost order: seq<Listing>)
      returns (longer: string, ghost listing: Listing)
      requires Names(order, c) && text == Joined(DatabasesLines(c, order))
      ensures listing.database == database && AllDifferent(listing.tables)
      ensures forall name :: name in c.tables && name.database == database ==> name.table in listing.tables
      ensures Names(order + [listing], c) && longer == Joined(DatabasesLines(c, order + [listing]))
    {
      hide TablesLines, Joined, DatabaseRecord, AllDifferent;
      var header := Written(text, [DatabaseRecord(database).Line()]);
      var tables, listed := WriteTables(c, database);
      listing := Listing(database, listed);
      ghost var lines, longerOrder := DatabasesLines(c, order), order + [listing];
      assert longerOrder[..|order|] == order;
      AppendedLines(lines, [DatabaseRecord(database).Line()]);
      AppendedLines(lines + [DatabaseRecord(database).Line()], TablesLines(c, database, listed));
      longer := header + tables;
    }

    /** The order lists these databases and all their tables once. */
    ghost predicate CompleteFor(order: seq<Listing>, c: Contents, databases: set<string>) {
      && Distinct(order)
      && (forall i :: 0 <= i < |order| ==> order[i].database in databases)
      && (forall db :: db in databases ==> exists i :: 0 <= i < |order| && order[i].database == db)
      && (forall i :: 0 <= i < |order| ==> forall name :: name in c.tables && name.database == order[i].database ==>
        name.table in order[i].tables)
    }

    lemma CompleteMore(order: seq<Listing>, c: Contents, databases: set<string>, l: Listing)
      requires CompleteFor(order, c, databases) && l.database !in databases && AllDifferent(l.tables)
      requires forall name :: name in c.tables && name.database == l.database ==> name.table in l.tables
      ensures CompleteFor(order + [l], c, databases + {l.database})
    {
      hide AllDifferent;
      var longer := order + [l];
      forall db | db in databases + {l.database} ensures exists i :: 0 <= i < |longer| && longer[i].database == db {
        if db in databases {
          var i :| 0 <= i < |order| && order[i].database == db;
          assert longer[i].database == db;
        } else {
          assert longer[|order|].database == db;
        }
      }
    }

    lemma CompleteAll(order: seq<Listing>, c: Contents)
      requires CompleteFor(order, c, c.databases) && Names(order, c)
      requires forall name :: name in c.tables ==> name.database in c.databases
      ensures Complete(order, c)
    {
      hide AllDifferent;
    }

    method WriteTables(c: Contents, database: string) returns (text: string, listed: seq<string>)
      ensures AllDifferent(listed) && forall t :: t in listed <==> TableName(database, t) in c.tables
      ensures text == Joined(TablesLines(c, database, listed))
    {
      hide TableLines, Joined;
      text, listed := "", [];
      CutNothing();
      var names := set name | name in c.tables && name.database == database :: name.table;
      while names != {}
        invariant AllDifferent(listed) && forall t :: t in listed ==> TableName(database, t) in c.tables && t !in names
        invariant forall t :: t in names ==> TableName(database, t) in c.tables
        invariant forall t :: TableName(database, t) in c.tables ==> t in listed || t in names
        invariant text == Joined(TablesLines(c, database, listed))
        decreases names
      {
        var table :| table in names;
        var name := TableName(database, table);
        ghost var before := listed;
        listed := listed + [table];
        assert listed[..|before|] == before;
        AppendedLines(TablesLines(c, database, before), TableLines(name, c.tables[name]));
        text := Written(text, TableLines(name, c.tables[name]));
        names := names - {table};
      }
    }

    method WriteEvents(records: seq<ChangeRecord>) returns (text: string)
      ensures text == Joined(HistoryFile.EventsLines(records))
    {
      hide HistoryFile.EventLines, Joined;
      text := "";
      CutNothing();
      var i := 0;
      while i < |records|
        invariant i <= |records| && text == Joined(HistoryFile.EventsLines(records[..i]))
      {
        assert records[..i + 1][..i] == records[..i];
        AppendedLines(HistoryFile.EventsLines(records[..i]), HistoryFile.EventLines(records[i]));
        text := Written(text, HistoryFile.EventLines(records[i]));
        i := i + 1;
      }
      assert records[..|records|] == records;
    }

    // ---------- loading ----------

    /** Reads both files.  Without a state file nothing is touched; without a history file the log is cleared. */
    method Load(contents: Contents, records: seq<ChangeRecord>) returns (ok: bool, c: Contents, r: seq<ChangeRecord>)
      ensures stateFile.None? ==> ok && c == contents && r == records
      ensures stateFile.Some? && LoadedContents(stateFile.value).None? ==> !ok
      ensures stateFile.Some? && LoadedContents(stateFile.value).Some? && historyFile.None? ==>
        ok && c == LoadedContents(stateFile.value).value && r == []
      ensures stateFile.Some? && LoadedContents(stateFile.value).Some? && historyFile.Some? ==>
        (ok <==> LoadedRecords(historyFile.value).Some? && IndexesPass(LoadedContents(stateFile.value).value))
      ensures stateFile.Some? && historyFile.Some? && ok ==>
        c == LoadedContents(stateFile.value).value && r == LoadedRecords(historyFile.value).value
    {
      hide LoadedContents, LoadedRecords, IndexesPass;
      c, r := contents, records;
      if stateFile.None? { return true, c, r; }
      var loaded := LoadState(stateFile.value);
      if loaded.None? { return false, c, r; }
      c := loaded.value;
      if historyFile.None? { return true, c, []; }
      var history := LoadHistory(historyFile.value);
      if history.None? { return false, c, r; }
      r := history.value;
      ok := IndexesPass(c);
    }

    method LoadState(text: string) returns (loaded: Option<Contents>)
      ensures loaded == LoadedContents(text)
    {
      hide Lines, TakeLine;
      var lines := ReadLines(text);
      ghost var start := Some(Loader(false, NOTHING));
      var l := Loader(false, NOTHING);
      var i := 0;
      while i < |lines|
        invariant i <= |lines| && TakeLines(start, lines[..i]) == Some(l)
      {
        TakeMore(start, lines[..i], lines[i]);
        assert lines[..i] + [lines[i]] == lines[..i + 1];
        var taken := LoadStateLine(l, lines[i]);
        if taken.None? {
          StateStops(lines, i + 1);
          return None;
        }
        l := taken.value;
        i := i + 1;
      }
      assert lines[..|lines|] == lines;
      return Some(l.contents);
    }

    lemma StateStops(lines: seq<string>, i: nat)
      requires i <= |lines| && TakeLines(Some(Loader(false, NOTHING)), lines[..i]) == None
      ensures LoadedState(lines) == None
    {
      hide TakeLine, TakeLines;
      TakeConcat(Some(Loader(false, NOTHING)), lines[..i], lines[i..]);
      assert lines == lines[..i] + lines[i..];
      NoneStays(lines[i..]);
    }

    lemma {:induction false} NoneStays(lines: seq<string>)
      ensures TakeLines(None, lines) == None
    {
      if lines != [] { NoneStays(lines[..|lines| - 1]); }
    }

    method LoadStateLine(l: Loader, line: string) returns (taken: Option<Loader>)
      ensures taken == TakeLine(l, line)
    {
      hide Split, TakeDatabase, TakeTable, TakeColumn, TakeRow;
      if line == "" || line[0] == '#' { return Some(l); }
      var parts := SplitByTab(line);
      if !l.checked && parts[0] == "FORMAT" {
        if |parts| != 2 || parts[1] != "3" { return None; }
        return Some(Loader(true, l.contents));
      }
      var c := Some(l.contents);
      if parts[0] == "DATABASE" {
        c := TakeDatabase(l.contents, parts);
      } else if parts[0] == "TABLE" {
        c := TakeTable(l.contents, parts);
      } else if parts[0] == "COLUMN" {
        c := TakeColumn(l.contents, parts);
      } else if parts[0] == "ROW" {
        c := LoadRow(l.contents, parts);
      }
      return if c.Some? then Some(Loader(true, c.value)) else None;
    }

    method LoadRow(c: Contents, parts: seq<string>) returns (d: Option<Contents>)
      ensures d == TakeRow(c, parts)
    {
      hide FindFrom, ParseValues, ParseId, Encodable, Scanned, WithRow;
      var database := FindFieldValue(parts, "db");
      var table := FindFieldValue(parts, "table");
      if database.None? || table.None? { return None; }
      var name := TableName(Unescaped(database.value), Unescaped(table.value));
      if name !in c.tables { return Some(c); }
      var image, id := c.tables[name], ParseId(parts);
      if id.None? { return None; }
      var values := ReadValues(parts, false);
      if values.None? || |values.value| != |image.schema| { return None; }
      if !(forall i :: 0 <= i < |values.value| ==> Encodable(values.value[i], image.schema[i].typ)) { return None; }
      return Some(c.(tables := c.tables[name := WithRow(image, id.value, values.value)]));
    }

    /** The values among a record's fields. */
    method ReadValues(parts: seq<string>, bare: bool) returns (values: Option<seq<Value>>)
      ensures values == ParseValues(parts, bare)
    {
      hide ParseKeyValue, TryDecodeValue;
      var read := [];
      var i := 0;
      while i < |parts|
        invariant i <= |parts| && ParseValues(parts[..i], bare) == Some(read)
      {
        assert parts[..i + 1][..i] == parts[..i];
        var token := ParseKeyValue(parts[i]);
        var encoded := if token.Some? then token.value.value else parts[i];
        if if token.Some? then token.value.key == "value" else bare {
          var decoded := TryDecodeValue(encoded);
          if decoded.None? {
            ValuesStop(parts, bare, i + 1);
            return None;
          }
          read := read + [decoded.value];
        }
        i := i + 1;
      }
      assert parts[..|parts|] == parts;
      return Some(read);
    }

    lemma {:induction false} ValuesStop(parts: seq<string>, bare: bool, i: nat)
      requires i <= |parts| && ParseValues(parts[..i], bare) == None
      ensures ParseValues(parts, bare) == None
    {
      hide ParseKeyValue, TryDecodeValue;
      if i < |parts| {
        assert parts[..|parts| - 1][..i] == parts[..i];
        ValuesStop(parts[..|parts| - 1], bare, i);
      } else {
        assert parts[..i] == parts;
      }
    }

    method LoadHistory(text: string) returns (loaded: Option<seq<ChangeRecord>>)
      ensures loaded == LoadedRecords(text)
    {
      hide Lines, HistoryFile.TakeLine;
      var lines := ReadLines(text);
      ghost var start := Some(HistoryFile.Loader(false, [], None));
      var l := HistoryFile.Loader(false, [], None);
      var i := 0;
      while i < |lines|
        invariant i <= |lines| && HistoryFile.TakeLines(start, lines[..i]) == Some(l)
      {
        HistoryFile.TakeMore(start, lines[..i], lines[i]);
        assert lines[..i] + [lines[i]] == lines[..i + 1];
        var taken := LoadHistoryLine(l, lines[i]);
        if taken.None? {
          HistoryStops(lines, i + 1);
          return None;
        }
        l := taken.value;
        i := i + 1;
      }
      assert lines[..|lines|] == lines;
      if l.pending.Some? { return None; }
      return Some(l.records);
    }

    lemma HistoryStops(lines: seq<string>, i: nat)
      requires i <= |lines| && HistoryFile.TakeLines(Some(HistoryFile.Loader(false, [], None)), lines[..i]) == None
      ensures HistoryFile.LoadedHistory(lines) == None
    {
      hide HistoryFile.TakeLine, HistoryFile.TakeLines;
      HistoryFile.TakeConcat(Some(HistoryFile.Loader(false, [], None)), lines[..i], lines[i..]);
      assert lines == lines[..i] + lines[i..];
      NoHistoryStays(lines[i..]);
    }

    lemma {:induction false} NoHistoryStays(lines: seq<string>)
      ensures HistoryFile.TakeLines(None, lines) == None
    {
      if lines != [] { NoHistoryStays(lines[..|lines| - 1]); }
    }

    method LoadHistoryLine(l: HistoryFile.Loader, line: string) returns (taken: Option<HistoryFile.Loader>)
      ensures taken == HistoryFile.TakeLine(l, line)
    {
      hide Split, HistoryFile.TakeEvent, HistoryFile.TakeSchemaColumn, HistoryFile.TakeEnd, ParseValues, ParseId;
      if line == "" || line[0] == '#' { return Some(l); }
      var parts := SplitByTab(line);
      if !l.checked && parts[0] == "FORMAT" {
        if |parts| != 2 || parts[1] != "3" { return None; }
        return Some(l.(checked := true));
      }
      var m := l.(checked := true);
      if parts[0] == "EVENT" { return HistoryFile.TakeEvent(m, parts); }
      if parts[0] == "SCHEMA_COLUMN" { return HistoryFile.TakeSchemaColumn(m, parts); }
      if parts[0] == "BEFORE" || parts[0] == "AFTER" {
        if m.pending.None? { return None; }
        var id := ParseId(parts);
        if id.None? { return None; }
        var values := ReadValues(parts[1..], true);
        if values.None? { return None; }
        var row := Some(Row(id.value, values.value));
        return Some(m.(pending :=
          Some(if parts[0] == "BEFORE" then m.pending.value.(before := row) else m.pending.value.(after := row))));
      }
      if parts[0] == "EVENT_END" && |parts| == 1 { return HistoryFile.TakeEnd(m); }
      return None;
    }
  }
}
