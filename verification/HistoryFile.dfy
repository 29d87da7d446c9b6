/** The history file: one block of lines for every recorded change. */
module HistoryFile {
  import opened Wrappers
  import opened Predicates
  import opened History
  import opened TextLines
  import opened RecordText
  import opened RecordFields
  import StateFile

  /** A change as the version store keeps it, with the schema that CREATE TABLE and DROP TABLE record. */
  datatype ChangeRecord = ChangeRecord(kind: ChangeKind, database: string, table: string, timestamp: string,
    rowId: RowId,
                                       schema: Option<Schema>, before: Option<Row>, after: Option<Row>)

  // ---------- writing ----------

  const HISTORY_COMMENTS := ["# Version history dump (event-based)", "# Records:"]

  function EventRecord(r: ChangeRecord): Record {
    Record("EVENT",
      [Token("kind", ChangeKindName(r.kind)), Token("db", Escaped(r.database)), Token("table", Escaped(r.table)),
                     Token("timestamp", Escaped(r.timestamp)), Token("row_id", Decimal(r.rowId))])
  }

  function SchemaColumnRecord(c: Column): Record {
    Record("SCHEMA_COLUMN", ColumnTokens(c))
  }

  function RowRecord(tag: string, row: Row): Record {
    Record(tag, RowTokens(row.id, row.values))
  }

  function SchemaLines(schema: Schema): seq<string> {
    seq(|schema|, i requires 0 <= i < |schema| => SchemaColumnRecord(schema[i]).Line())
  }

  function RowLine(tag: string, row: Option<Row>): seq<string> {
    if row.Some? then [RowRecord(tag, row.value).Line()] else []
  }

  function EventLines(r: ChangeRecord): seq<string> {
    [EventRecord(r).Line()] + (if r.schema.Some? then SchemaLines(r.schema.value) else [])
    + RowLine("BEFORE", r.before) + RowLine("AFTER", r.after) + ["EVENT_END", ""]
  }

  function EventsLines(records: seq<ChangeRecord>): seq<string> {
    if records == [] then [] else EventsLines(records[..|records| - 1]) + EventLines(records[|records| - 1])
  }

  function HistoryLines(records: seq<ChangeRecord>): seq<string> {
    [StateFile.FORMAT_LINE] + HISTORY_COMMENTS + EventsLines(records)
  }

  // ---------- reading ----------

  /** The finished records, and the one whose block is open. */
  datatype Loader = Loader(checked: bool, records: seq<ChangeRecord>, pending: Option<ChangeRecord>)

  function TakeEvent(l: Loader, parts: seq<string>): Option<Loader> {
    if l.pending.Some? then None
    else
      var kind, database := FindField(parts, "kind"), FindField(parts, "db");
      var table, timestamp := FindField(parts, "table"), FindField(parts, "timestamp");
      if kind.None? || database.None? || table.None? || timestamp.None? then None
      else
        match ParseChangeKind(kind.value)
        case None => None
        case Some(k) =>
          match ParseId(parts)
          case None => None
          case Some(id) =>
            Some(l.(pending := Some(ChangeRecord(k, Unescaped(database.value), Unescaped(table.value),
                                                 Unescaped(timestamp.value), id, None, None, None))))
  }

  function TakeSchemaColumn(l: Loader, parts: seq<string>): Option<Loader> {
    if l.pending.None? then None
    else
      match ParseColumn(parts)
      case None => None
      case Some(c) => Some(l.(pending := Some(WithColumn(l.pending.value, c))))
  }

  function WithColumn(r: ChangeRecord, c: Column): ChangeRecord {
    r.(schema := Some((if r.schema.Some? then r.schema.value else []) + [c]))
  }

  function TakeRow(l: Loader, parts: seq<string>): Option<Loader>
    requires parts != []
  {
    if l.pending.None? then None
    else
      var id, values := ParseId(parts), ParseValues(parts[1..], true);
      if id.None? || values.None? then None
      else
        var row := Some(Row(id.value, values.value));
        Some(l.(pending :=
          Some(if parts[0] == "BEFORE" then l.pending.value.(before := row) else l.pending.value.(after := row))))
  }

  function TakeEnd(l: Loader): Option<Loader> {
    if l.pending.None? then None else Some(Loader(l.checked, l.records + [l.pending.value], None))
  }

  /** One record; another tag is an error. */
  function TakeRecord(l: Loader, parts: seq<string>): Option<Loader>
    requires parts != []
  {
    if parts[0] == "EVENT" then TakeEvent(l, parts)
    else if parts[0] == "SCHEMA_COLUMN" then TakeSchemaColumn(l, parts)
    else if parts[0] == "BEFORE" || parts[0] == "AFTER" then TakeRow(l, parts)
    else if parts[0] == "EVENT_END" && |parts| == 1 then TakeEnd(l)
    else None
  }

  function TakeLine(l: Loader, line: string): Option<Loader> {
    if StateFile.Skipped(line) then Some(l)
    else
      var parts := Split(line);
      if !l.checked && parts[0] == "FORMAT" then
        if |parts| == 2 && parts[1] == "3" then Some(l.(checked := true)) else None
      else TakeRecord(l.(checked := true), parts)
  }

  function TakeLines(l: Option<Loader>, lines: seq<string>): Option<Loader> {
    if lines == [] then l
    else
      match TakeLines(l, lines[..|lines| - 1])
      case None => None
      case Some(m) => TakeLine(m, lines[|lines| - 1])
  }

  /** What loading the lines of a history file yields; None if it fails, as it does when a block is left open. */
  function LoadedHistory(lines: seq<string>): Option<seq<ChangeRecord>> {
    match TakeLines(Some(Loader(false, [], None)), lines)
    case None => None
    case Some(l) => if l.pending.Some? then None else Some(l.records)
  }

  // ---------- blocks ----------

  predicate IsRecord(line: string, tag: string) {
    !StateFile.Skipped(line) && Split(line)[0] == tag
  }

  /** Before the `i`-th line an event has begun and not ended. */
  predicate OpenAt(lines: seq<string>, i: nat)
    requires i <= |lines|
  {
    exists b :: 0 <= b < i && IsRecord(lines[b], "EVENT") && NoEndIn(lines, b + 1, i)
  }

  predicate NoEndIn(lines: seq<string>, from: nat, to: nat)
    requires from <= to <= |lines|
  {
    forall k :: from <= k < to ==> !IsRecord(lines[k], "EVENT_END")
  }

  /** Events begin outside a block; everything else but the format stands in one. */
  predicate InPlace(lines: seq<string>, i: nat)
    requires i < |lines|
  {
    || StateFile.Skipped(lines[i])
    || (!OpenAt(lines, i) && (IsRecord(lines[i], "EVENT") || IsRecord(lines[i], "FORMAT")))
    || (OpenAt(lines, i) && (IsRecord(lines[i], "EVENT_END") || IsRecord(lines[i], "SCHEMA_COLUMN")
                             || IsRecord(lines[i], "BEFORE") || IsRecord(lines[i], "AFTER")))
  }

  function Ends(lines: seq<string>): nat {
    if lines == [] then 0 else Ends(lines[..|lines| - 1]) + if IsRecord(lines[|lines| - 1], "EVENT_END") then 1 else 0
  }

  lemma OpenBefore(lines: seq<string>, i: nat)
    requires i < |lines|
    ensures OpenAt(lines[..|lines| - 1], i) <==> OpenAt(lines, i)
  {
    hide IsRecord;
    var front := lines[..|lines| - 1];
    if OpenAt(front, i) {
      var b :| 0 <= b < i && IsRecord(front[b], "EVENT") && NoEndIn(front, b + 1, i);
      assert forall k :: b + 1 <= k < i ==> lines[k] == front[k];
      assert IsRecord(lines[b], "EVENT") && NoEndIn(lines, b + 1, i);
    }
    if OpenAt(lines, i) {
      var b :| 0 <= b < i && IsRecord(lines[b], "EVENT") && NoEndIn(lines, b + 1, i);
      assert forall k :: b + 1 <= k < i ==> lines[k] == front[k];
      assert IsRecord(front[b], "EVENT") && NoEndIn(front, b + 1, i);
    }
  }

  lemma OpenMore(lines: seq<string>, i: nat)
    requires i < |lines|
    ensures OpenAt(lines, i + 1) <==>
      IsRecord(lines[i], "EVENT") || (OpenAt(lines, i) && !IsRecord(lines[i], "EVENT_END"))
  {
    if IsRecord(lines[i], "EVENT") {
      assert NoEndIn(lines, i + 1, i + 1);
    } else if OpenAt(lines, i) && !IsRecord(lines[i], "EVENT_END") {
      var b :| 0 <= b < i && IsRecord(lines[b], "EVENT") && NoEndIn(lines, b + 1, i);
      assert NoEndIn(lines, b + 1, i + 1);
    }
    if OpenAt(lines, i + 1) && !IsRecord(lines[i], "EVENT") {
      var b :| 0 <= b < i + 1 && IsRecord(lines[b], "EVENT") && NoEndIn(lines, b + 1, i + 1);
      assert NoEndIn(lines, b + 1, i);
    }
  }

  lemma TakeInPlace(l: Loader, lines: seq<string>)
    requires lines != [] && (l.pending.Some? <==> OpenAt(lines, |lines| - 1))
    requires !l.checked ==> l.pending.None?
    requires TakeLine(l, lines[|lines| - 1]).Some?
    ensures var m := TakeLine(l, lines[|lines| - 1]).value;
      && InPlace(lines, |lines| - 1) && (m.pending.Some? <==> OpenAt(lines, |lines|))
        && (!m.checked ==> m.pending.None?)
      && |m.records| == |l.records| + if IsRecord(lines[|lines| - 1], "EVENT_END") then 1 else 0
  {
    hide OpenAt, ParseColumn, ParseId, ParseValues, ParseChangeKind, FindField, Split, Unescaped;
    OpenMore(lines, |lines| - 1);
  }

  lemma PlaceBefore(lines: seq<string>, i: nat)
    requires i < |lines| - 1
    ensures InPlace(lines, i) <==> InPlace(lines[..|lines| - 1], i)
  {
    hide OpenAt, IsRecord;
    OpenBefore(lines, i);
  }

  lemma {:induction false} TakenInPlace(lines: seq<string>)
    requires TakeLines(Some(Loader(false, [], None)), lines).Some?
    ensures var l := TakeLines(Some(Loader(false, [], None)), lines).value;
      && (forall i :: 0 <= i < |lines| ==> InPlace(lines, i))
      && (l.pending.Some? <==> OpenAt(lines, |lines|)) && (!l.checked ==> l.pending.None?) && |l.records| == Ends(lines)
  {
    hide OpenAt, InPlace, TakeLine, IsRecord;
    if lines == [] {
      NothingOpen(lines);
    } else {
      var n := |lines| - 1;
      TakenInPlace(lines[..n]);
      OpenBefore(lines, n);
      TakeInPlace(TakeLines(Some(Loader(false, [], None)), lines[..n]).value, lines);
      forall i | 0 <= i < n ensures InPlace(lines, i) { PlaceBefore(lines, i); }
    }
  }

  lemma NothingOpen(lines: seq<string>)
    requires lines == []
    ensures !OpenAt(lines, 0)
  {
  }

  /** A history that is loaded is made of whole blocks, one for each of its records. */
  lemma LoadedInBlocks(lines: seq<string>)
    requires LoadedHistory(lines).Some?
    ensures (forall i :: 0 <= i < |lines| ==> InPlace(lines, i)) && !OpenAt(lines, |lines|)
    ensures |LoadedHistory(lines).value| == Ends(lines)
  {
    hide OpenAt, InPlace, TakeLines;
    TakenInPlace(lines);
  }

  /** A file of another format is refused. */
  lemma OtherFormatRefused(lines: seq<string>)
    requires lines != [] && IsRecord(lines[0], "FORMAT") && Split(lines[0]) != ["FORMAT", "3"]
    ensures LoadedHistory(lines).None? && StateFile.LoadedState(lines).None?
  {
    hide Split, StateFile.TakeRecord, TakeRecord;
    var first, start, state := lines[..1], Loader(false, [], None), StateFile.Loader(false, StateFile.NOTHING);
    assert first + lines[1..] == lines && first[..0] == [];
    TakeConcat(Some(start), first, lines[1..]);
    StateFile.TakeConcat(Some(state), first, lines[1..]);
    NothingTaken(lines[1..]);
  }

  lemma {:induction false} NothingTaken(lines: seq<string>)
    ensures TakeLines(None, lines).None? && StateFile.TakeLines(None, lines).None?
  {
    if lines != [] { NothingTaken(lines[..|lines| - 1]); }
  }

  lemma TakeMore(l: Option<Loader>, lines: seq<string>, line: string)
    ensures TakeLines(l, lines + [line])
      == match TakeLines(l, lines) case None => None case Some(m) => TakeLine(m, line)
  {
    assert (lines + [line])[..|lines|] == lines;
  }

  lemma TakeOne(l: Option<Loader>, line: string)
    ensures TakeLines(l, [line]) == match l case None => None case Some(m) => TakeLine(m, line)
  {
    TakeMore(l, [], line);
    assert [] + [line] == [line];
  }

  lemma {:induction false} TakeConcat(l: Option<Loader>, a: seq<string>, b: seq<string>)
    ensures TakeLines(l, a + b) == TakeLines(TakeLines(l, a), b)
  {
    hide TakeLine;
    if b == [] {
      assert a + b == a;
    } else {
      var n := |b| - 1;
      TakeConcat(l, a, b[..n]);
      assert (a + b)[..|a + b| - 1] == a + b[..n];
    }
  }

  // ---------- a record is read back ----------

  predicate PlainRecord(r: ChangeRecord) {
    && Plain(r.database) && Plain(r.table) && Plain(r.timestamp) && r.rowId < WORD64
    && (r.schema.Some? ==> PlainSchema(r.schema.value))
    && (r.before.Some? ==> PlainRow(r.before.value)) && (r.after.Some? ==> PlainRow(r.after.value))
  }

  /** No string contains a newline. */
  predicate PlainTexts(r: ChangeRecord) {
    && Plain(r.database) && Plain(r.table) && Plain(r.timestamp) && (r.schema.Some? ==> PlainSchema(r.schema.value))
    && (r.before.Some? ==> PlainValues(r.before.value.values)) && (r.after.Some? ==> PlainValues(r.after.value.values))
  }

  /** Row ids of 64 bits. */
  predicate GoodNumbers(r: ChangeRecord) {
    && r.rowId < WORD64
    && (r.before.Some? ==> r.before.value.id < WORD64) && (r.after.Some? ==> r.after.value.id < WORD64)
  }

  predicate PlainSchema(schema: Schema) {
    forall i :: 0 <= i < |schema| ==> PlainColumn(schema[i])
  }

  /** A record as it is read back: defaults of NULL are no defaults, and a schema without columns is no schema. */
  function NormalRecord(r: ChangeRecord): ChangeRecord {
    r.(schema := if r.schema.Some? && r.schema.value != [] then Some(StateFile.NormalSchema(r.schema.value)) else None)
  }

  lemma LineTaken(l: Loader, r: Record)
    requires r.Readable() && r.tag[0] != '#' && l.checked
    ensures TakeLine(l, r.Line()) == TakeRecord(l, r.Parts())
  {
    hide TakeRecord, Split, Tabbed, GoodTokens;
    RecordSplits(r);
    RecordIsLine(r);
  }

  lemma EventKeys()
    ensures GoodKey("kind") && GoodKey("db") && GoodKey("table") && GoodKey("timestamp") && GoodKey("row_id")
  {
    hide Bare;
    KeysBare();
  }

  lemma KeysBare()
    ensures Bare("kind") && Bare("db") && Bare("table") && Bare("timestamp") && Bare("row_id")
  {
  }

  lemma TagsBare()
    ensures Bare("EVENT") && Bare("SCHEMA_COLUMN") && '=' !in "EVENT" && '=' !in "SCHEMA_COLUMN"
  {
  }

  lemma EventReadable(r: ChangeRecord)
    requires PlainRecord(r)
    ensures EventRecord(r).Readable()
  {
    hide Tame, Escaped, Decimal, ChangeKindName, GoodKey, Bare;
    EventKeys();
    TagsBare();
    KindReads(r.kind);
    BareField(ChangeKindName(r.kind));
    EscapedField(r.database);
    EscapedField(r.table);
    EscapedField(r.timestamp);
    DecimalField(r.rowId);
  }

  lemma EventTaken(l: Loader, r: ChangeRecord)
    requires PlainRecord(r) && l.checked && l.pending.None?
    ensures TakeLine(l, EventRecord(r).Line())
         == Some(l.(pending := Some(ChangeRecord(r.kind, r.database, r.table, r.timestamp, r.rowId, None, None, None))))
  {
    hide Escaped, Scanned, Decimal, ChangeKindName, ParseChangeKind, FindFrom, TakeLine, ParseRowId, GoodTokens;
    var e := EventRecord(r);
    EventReadable(r);
    LineTaken(l, e);
    FieldAt(e, 0, "kind");
    FieldAt(e, 1, "db");
    FieldAt(e, 2, "table");
    FieldAt(e, 3, "timestamp");
    FieldAt(e, 4, "row_id");
    KindReads(r.kind);
    UnescapeEscape(r.database);
    UnescapeEscape(r.table);
    UnescapeEscape(r.timestamp);
    IdReads(r.rowId);
  }

  lemma SchemaColumnTaken(l: Loader, c: Column)
    requires PlainColumn(c) && l.checked && l.pending.Some?
    ensures SchemaColumnRecord(c).Readable()
    ensures TakeLine(l, SchemaColumnRecord(c).Line())
      == Some(l.(pending := Some(WithColumn(l.pending.value, Normal(c)))))
  {
    hide TakeLine, ParseColumn, ColumnTokens, GoodTokens, Bare;
    TagsBare();
    var r := SchemaColumnRecord(c);
    ColumnTokensReadable(c);
    LineTaken(l, r);
    StateFile.FourColumnTokens(c);
    assert r.tokens[0..] == ColumnTokens(c);
    ColumnReads(r, 0, c);
  }

  lemma RowTaken(l: Loader, tag: string, row: Row)
    requires PlainRow(row) && l.checked && l.pending.Some? && (tag == "BEFORE" || tag == "AFTER")
    ensures RowRecord(tag, row).Readable()
    ensures TakeLine(l, RowRecord(tag, row).Line())
         == Some(l.(pending :=
           Some(if tag == "BEFORE" then l.pending.value.(before := Some(row))
             else l.pending.value.(after := Some(row)))))
  {
    hide TakeLine, ParseId, ParseValues, RowTokens, GoodTokens;
    var r := RowRecord(tag, row);
    RowTokensReadable(row);
    LineTaken(l, r);
    RowParts(r, tag, row);
  }

  lemma RowParts(r: Record, tag: string, row: Row)
    requires r == RowRecord(tag, row) && r.Readable() && PlainRow(row)
    ensures ParseId(r.Parts()) == Some(row.id) && ParseValues(r.Parts()[1..], true) == Some(row.values)
  {
    hide Decimal, EncodeValue, ParseId, ParseValues, GoodTokens, ParseKeyValue;
    assert r.tokens[0..] == RowTokens(row.id, row.values);
    RowIdReads(r, 0, row);
    PairParses("row_id", Decimal(row.id));
    ValuesRead([Pair("row_id", Decimal(row.id))], row.values, true);
    assert r.Parts()[1..] == [Pair("row_id", Decimal(row.id))] + ValueFields(row.values);
  }

  lemma EndTaken(l: Loader)
    requires l.checked && l.pending.Some?
    ensures TakeLines(Some(l), ["EVENT_END", ""]) == Some(Loader(true, l.records + [l.pending.value], None))
  {
    hide Split, TakeLines;
    EndSplits();
    assert ["EVENT_END", ""] == ["EVENT_END"] + [""];
    TakeOne(Some(l), "EVENT_END");
    TakeMore(Some(l), ["EVENT_END"], "");
  }

  lemma EndSplits()
    ensures Split("EVENT_END") == ["EVENT_END"]
  {
    hide Tame, SplitFrom;
    BareIsTame("EVENT_END");
    SplitTabbed(["EVENT_END"]);
  }

  function SchemaSoFar(schema: Schema, k: nat): Option<Schema>
    requires k <= |schema|
  {
    if k == 0 then None else Some(StateFile.NormalSchema(schema[..k]))
  }

  lemma {:induction false} SchemaTaken(l: Loader, schema: Schema, k: nat)
    requires PlainSchema(schema) && k <= |schema| && l.checked && l.pending.Some? && l.pending.value.schema.None?
    ensures TakeLines(Some(l), SchemaLines(schema)[..k])
         == Some(l.(pending := Some(l.pending.value.(schema := SchemaSoFar(schema, k)))))
  {
    hide TakeLine, PlainColumn, SchemaColumnRecord;
    var lines := SchemaLines(schema);
    if k > 0 {
      SchemaTaken(l, schema, k - 1);
      assert lines[..k] == lines[..k - 1] + [lines[k - 1]];
      TakeMore(Some(l), lines[..k - 1], lines[k - 1]);
      SchemaColumnTaken(l.(pending := Some(l.pending.value.(schema := SchemaSoFar(schema, k - 1)))), schema[k - 1]);
      SchemaMore(schema, k - 1);
    }
  }

  lemma SchemaMore(schema: Schema, k: nat)
    requires k < |schema|
    ensures StateFile.NormalSchema(schema[..k + 1])
      == (if k == 0 then [] else StateFile.NormalSchema(schema[..k])) + [Normal(schema[k])]
  {
    assert schema[..k + 1] == schema[..k] + [schema[k]];
  }

  lemma OptionalSchemaTaken(l: Loader, schema: Option<Schema>)
    requires (schema.Some? ==> PlainSchema(schema.value)) && l.checked && l.pending.Some?
      && l.pending.value.schema.None?
    ensures TakeLines(Some(l), if schema.Some? then SchemaLines(schema.value) else [])
      == Some(l.(pending := Some(l.pending.value.(schema :=
      if schema.Some? && schema.value != [] then Some(StateFile.NormalSchema(schema.value)) else None))))
  {
    hide PlainSchema, TakeLine;
    if schema.Some? {
      var lines, n := SchemaLines(schema.value), |schema.value|;
      SchemaTaken(l, schema.value, n);
      assert lines[..n] == lines && schema.value[..n] == schema.value;
    }
  }

  lemma OptionalRowTaken(l: Loader, tag: string, row: Option<Row>)
    requires (row.Some? ==> PlainRow(row.value)) && l.checked && l.pending.Some?
    requires (tag == "BEFORE" && l.pending.value.before.None?) || (tag == "AFTER" && l.pending.value.after.None?)
    ensures TakeLines(Some(l), RowLine(tag, row))
         == Some(l.(pending :=
           Some(if tag == "BEFORE" then l.pending.value.(before := row) else l.pending.value.(after := row))))
  {
    hide TakeLine, PlainRow, RowRecord;
    if row.Some? {
      RowTaken(l, tag, row.value);
      TakeOne(Some(l), RowRecord(tag, row.value).Line());
    }
  }

  /** The block of a record adds the record. */
  lemma EventRead(l: Loader, r: ChangeRecord)
    requires PlainRecord(r) && l.checked && l.pending.None?
    ensures TakeLines(Some(l), EventLines(r)) == Some(Loader(true, l.records + [NormalRecord(r)], None))
  {
    hide TakeLine, TakeLines, EventRecord, SchemaLines, RowLine, PlainSchema, PlainRow;
    var s := Some(l);
    var a, b := [EventRecord(r).Line()], if r.schema.Some? then SchemaLines(r.schema.value) else [];
    var c, d, e := RowLine("BEFORE", r.before), RowLine("AFTER", r.after), ["EVENT_END", ""];
    assert EventLines(r) == a + b + c + d + e;
    TakeConcat(s, a + b + c + d, e);
    TakeConcat(s, a + b + c, d);
    TakeConcat(s, a + b, c);
    TakeConcat(s, a, b);
    TakeOne(s, EventRecord(r).Line());
    EventTaken(l, r);
    var p := ChangeRecord(r.kind, r.database, r.table, r.timestamp, r.rowId, None, None, None);
    OptionalSchemaTaken(l.(pending := Some(p)), r.schema);
    var q := p.(schema := NormalRecord(r).schema);
    OptionalRowTaken(l.(pending := Some(q)), "BEFORE", r.before);
    OptionalRowTaken(l.(pending := Some(q.(before := r.before))), "AFTER", r.after);
    EndTaken(l.(pending := Some(q.(before := r.before, after := r.after))));
  }

  function NormalRecords(records: seq<ChangeRecord>): seq<ChangeRecord> {
    seq(|records|, i requires 0 <= i < |records| => NormalRecord(records[i]))
  }

  /** A recorded schema has columns, and none of them declares DEFAULT NULL. */
  predicate ExactRecord(r: ChangeRecord) {
    r.schema.Some? ==> r.schema.value != [] && StateFile.NoNullDefault(r.schema.value)
  }

  predicate AllExactRecords(records: seq<ChangeRecord>) {
    forall i :: 0 <= i < |records| ==> ExactRecord(records[i])
  }

  lemma RecordsExact(records: seq<ChangeRecord>)
    ensures NormalRecords(records) == records <==> AllExactRecords(records)
  {
    hide StateFile.NoNullDefault, StateFile.NormalSchema;
    forall i | 0 <= i < |records| ensures NormalRecords(records)[i] == records[i] <==> ExactRecord(records[i]) {
      if records[i].schema.Some? { StateFile.NormalExact(records[i].schema.value); }
    }
  }

  predicate AllPlainRecords(records: seq<ChangeRecord>) {
    forall i :: 0 <= i < |records| ==> PlainRecord(records[i])
  }

  lemma {:induction false} EventsRead(records: seq<ChangeRecord>)
    requires AllPlainRecords(records)
    ensures TakeLines(Some(Loader(true, [], None)), EventsLines(records))
      == Some(Loader(true, NormalRecords(records), None))
  {
    hide TakeLine, EventLines, PlainRecord, NormalRecord;
    if records == [] {
      assert NormalRecords(records) == [];
    } else {
      var n := |records| - 1;
      EventsRead(records[..n]);
      TakeConcat(Some(Loader(true, [], None)), EventsLines(records[..n]), EventLines(records[n]));
      EventRead(Loader(true, NormalRecords(records[..n]), None), records[n]);
      assert NormalRecords(records) == NormalRecords(records[..n]) + [NormalRecord(records[n])];
    }
  }

  lemma {:induction false} SkipAll(l: Loader, lines: seq<string>)
    requires forall i :: 0 <= i < |lines| ==> StateFile.Skipped(lines[i])
    ensures TakeLines(Some(l), lines) == Some(l)
  {
    if lines != [] { SkipAll(l, lines[..|lines| - 1]); }
  }

  lemma FormatTaken(l: Loader)
    requires !l.checked
    ensures TakeLine(l, StateFile.FORMAT_LINE) == Some(l.(checked := true))
  {
    hide Split, TakeRecord;
    StateFile.FormatSplits();
  }

  /** Loading a saved history gives every record back, in order: a default of NULL reads as no default, and a schema
      without columns as none. */
  lemma LoadInvertsSave(records: seq<ChangeRecord>)
    requires AllPlainRecords(records)
    ensures LoadedHistory(HistoryLines(records)) == Some(NormalRecords(records))
  {
    hide TakeLine, TakeLines, EventsLines, AllPlainRecords, NormalRecords;
    var start := Loader(false, [], None);
    TakeOne(Some(start), StateFile.FORMAT_LINE);
    FormatTaken(start);
    TakeConcat(Some(start), [StateFile.FORMAT_LINE], HISTORY_COMMENTS);
    CommentsSkipped();
    SkipAll(Loader(true, [], None), HISTORY_COMMENTS);
    TakeConcat(Some(start), [StateFile.FORMAT_LINE] + HISTORY_COMMENTS, EventsLines(records));
    EventsRead(records);
  }

  lemma CommentsSkipped()
    ensures forall i :: 0 <= i < |HISTORY_COMMENTS| ==> StateFile.Skipped(HISTORY_COMMENTS[i])
  {
  }

  // ---------- nothing that is loaded holds a newline ----------

  predicate PlainLoader(l: Loader) {
    (forall i :: 0 <= i < |l.records| ==> PlainTexts(l.records[i])) && (l.pending.Some? ==> PlainTexts(l.pending.value))
  }

  lemma EventKeepsPlain(l: Loader, parts: seq<string>)
    requires PlainLoader(l) && AllPlain(parts) && TakeEvent(l, parts).Some?
    ensures PlainLoader(TakeEvent(l, parts).value)
  {
    hide FindFrom, Scanned, Plain, ParseChangeKind, ParseId;
    FieldPlain(parts, "db");
    FieldPlain(parts, "table");
    FieldPlain(parts, "timestamp");
  }

  lemma TakeKeepsPlain(l: Loader, parts: seq<string>)
    requires PlainLoader(l) && parts != [] && AllPlain(parts) && TakeRecord(l, parts).Some?
    ensures PlainLoader(TakeRecord(l, parts).value)
  {
    hide FindFrom, Plain, ParseColumn, ParseValues, ParseId, TakeEvent, PlainColumn, PlainValues;
    if parts[0] == "EVENT" {
      EventKeepsPlain(l, parts);
    } else if parts[0] == "SCHEMA_COLUMN" {
      ParsedColumnPlain(parts);
    } else if parts[0] == "BEFORE" || parts[0] == "AFTER" {
      ParsedValuesPlain(parts[1..], true);
    }
  }

  lemma LineKeepsPlain(l: Loader, line: string)
    requires PlainLoader(l) && Plain(line) && TakeLine(l, line).Some?
    ensures PlainLoader(TakeLine(l, line).value)
  {
    hide Split, PlainTexts, TakeRecord, Plain;
    if !StateFile.Skipped(line) {
      SplitPlain(line);
      var checked := l.(checked := true);
      if TakeRecord(checked, Split(line)).Some? { TakeKeepsPlain(checked, Split(line)); }
    }
  }

  lemma {:induction false} LinesKeepPlain(l: Loader, lines: seq<string>)
    requires PlainLoader(l) && AllPlain(lines) && TakeLines(Some(l), lines).Some?
    ensures PlainLoader(TakeLines(Some(l), lines).value)
  {
    hide TakeLine, PlainLoader, Plain;
    if lines != [] {
      var n := |lines| - 1;
      LinesKeepPlain(l, lines[..n]);
      LineKeepsPlain(TakeLines(Some(l), lines[..n]).value, lines[n]);
    }
  }

  predicate AllPlainTexts(records: seq<ChangeRecord>) {
    forall i :: 0 <= i < |records| ==> PlainTexts(records[i])
  }

  predicate AllGoodNumbers(records: seq<ChangeRecord>) {
    forall i :: 0 <= i < |records| ==> GoodNumbers(records[i])
  }

  lemma LoadedHistoryPlain(lines: seq<string>)
    requires AllPlain(lines) && LoadedHistory(lines).Some?
    ensures AllPlainTexts(LoadedHistory(lines).value)
  {
    hide TakeLines, PlainTexts;
    LinesKeepPlain(Loader(false, [], None), lines);
  }

  lemma PlainRecordsIff(records: seq<ChangeRecord>)
    requires AllGoodNumbers(records)
    ensures AllPlainRecords(records) <==> AllPlainTexts(records)
  {
    hide PlainSchema, PlainValues, Plain;
    forall i | 0 <= i < |records| ensures PlainRecord(records[i]) <==> PlainTexts(records[i]) {
      assert GoodNumbers(records[i]);
    }
  }
}
