/** INSERT, UPDATE, DELETE and REVERT on one table, as functions of its heap, its indexes and its history. */
module TableStatements {
  import opened Wrappers
  import opened Keys
  import opened Values
  import opened Predicates
  import opened SortedMap
  import opened TableIndex
  import opened History

  /** A table's three views: the heap (with the id counter), the indexes, and the append-only history. */
  datatype TableState = TableState(rows: seq<Row>, next: RowId, indexes: map<string, Index>, history: seq<Event>)

  /** A table without its history. */
  datatype TableImage = TableImage(schema: Schema, rows: seq<Row>, next: RowId, indexes: map<string, Index>)

  /** When the i-th event of the table's history is recorded; a clock that never goes backwards. */
  type Clock = nat -> Time

  ghost predicate Monotone(clock: Clock) {
    forall i, j :: i <= j ==> clock(i) <= clock(j)
  }

  // ---------- rows that fit the schema ----------

  predicate CanAssign(v: Value, column: Column) {
    if v.Null? then column.constraint == Free else TypeOf(v) == column.typ
  }

  predicate Conforms(row: Row, schema: Schema) {
    |row.values| == |schema| && forall i :: 0 <= i < |schema| ==> CanAssign(row.values[i], schema[i])
  }

  predicate AllConform(rows: seq<Row>, schema: Schema) {
    forall i :: 0 <= i < |rows| ==> Conforms(rows[i], schema)
  }

  /** `ValidateRowAgainstSchema`: NULLs give way to defaults, then every value must be assignable. */
  function Validated(values: seq<Value>, schema: Schema): (r: Result<seq<Value>>)
    requires |values| == |schema|
    ensures r.Ok? ==> |r.value| == |schema| && forall i :: 0 <= i < |schema| ==> CanAssign(r.value[i], schema[i])
  {
    if schema == [] then Ok([])
    else
      var n := |schema| - 1;
      match Validated(values[..n], schema[..n])
      case Err(error) => Err(error)
      case Ok(first) =>
        var v := if values[n].Null? && schema[n].default.Some? then schema[n].default.value else values[n];
        if CanAssign(v, schema[n]) then Ok(first + [v]) else Err(ConstraintViolation)
  }

  function Indexes(schema: Schema): set<string> {
    set i | 0 <= i < |schema| && schema[i].constraint == Indexed :: schema[i].name
  }

  /** The column that an index of this name is on. */
  function ColumnOf(schema: Schema, name: string): (c: nat)
    requires name in Indexes(schema)
    ensures c < |schema|
  {
    FindColumnIndex(schema, name).value
  }

  function TypeAt(schema: Schema, name: string): ValueType
    requires name in Indexes(schema)
  {
    schema[ColumnOf(schema, name)].typ
  }

  /** A row that every index can hold. */
  predicate Indexable(row: Row, schema: Schema) {
    |row.values| == |schema| && forall name :: name in Indexes(schema) ==>
      Typed(row, ColumnOf(schema, name), TypeAt(schema, name))
  }

  function IndexKey(row: Row, schema: Schema, name: string): Key
    requires name in Indexes(schema) && Indexable(row, schema)
  {
    KeyOf(row, ColumnOf(schema, name), TypeAt(schema, name))
  }

  /** A conforming row can be indexed unless an indexed value is NULL. */
  predicate NoIndexedNull(row: Row, schema: Schema)
    requires |row.values| == |schema|
  {
    forall name :: name in Indexes(schema) ==> !row.values[ColumnOf(schema, name)].Null?
  }

  lemma ConformingIsIndexable(row: Row, schema: Schema)
    requires Conforms(row, schema)
    ensures Indexable(row, schema) <==> NoIndexedNull(row, schema)
  {
    forall name | name in Indexes(schema)
      ensures Typed(row, ColumnOf(schema, name), TypeAt(schema, name)) <==> !row.values[ColumnOf(schema, name)].Null?
    {
      assert CanAssign(row.values[ColumnOf(schema, name)], schema[ColumnOf(schema, name)]);
    }
  }

  // ---------- rebuilding indexes ----------

  /** The index that inserting the rows one after another makes. */
  function BuildIndex(rows: seq<Row>, c: nat, t: ValueType): Index
    requires TypedColumn(rows, c, t)
  {
    if rows == [] then map[]
    else MapInsert(BuildIndex(rows[..|rows| - 1], c, t), KeyOf(rows[|rows| - 1], c, t), rows[|rows| - 1].id)
  }

  predicate DistinctKeys(rows: seq<Row>, c: nat, t: ValueType)
    requires TypedColumn(rows, c, t)
  {
    forall i, j :: 0 <= i < j < |rows| ==> KeyOf(rows[i], c, t) != KeyOf(rows[j], c, t)
  }

  predicate AllIndexable(rows: seq<Row>, schema: Schema) {
    forall i :: 0 <= i < |rows| ==> Indexable(rows[i], schema)
  }

  /** No two rows share a value of an indexed column. */
  predicate AllUnique(rows: seq<Row>, schema: Schema)
    requires AllIndexable(rows, schema)
  {
    forall name :: name in Indexes(schema) ==> DistinctKeys(rows, ColumnOf(schema, name), TypeAt(schema, name))
  }

  predicate CanRebuild(rows: seq<Row>, schema: Schema) {
    AllIndexable(rows, schema) && AllUnique(rows, schema)
  }

  function Rebuilt(rows: seq<Row>, schema: Schema): map<string, Index>
    requires AllIndexable(rows, schema)
  {
    map name | name in Indexes(schema) :: BuildIndex(rows, ColumnOf(schema, name), TypeAt(schema, name))
  }

  /** Inserting a row under a key that is not there. */
  lemma AgreesMore(m: Index, rows: seq<Row>, row: Row, c: nat, t: ValueType)
    requires Agrees(m, rows, c, t) && Typed(row, c, t) && KeyOf(row, c, t) !in m
    ensures Agrees(MapInsert(m, KeyOf(row, c, t), row.id), rows + [row], c, t)
  {
    hide KeyOf;
    var k := KeyOf(row, c, t);
    var m', rows' := MapInsert(m, k, row.id), rows + [row];
    assert AddRow([], row.id) == [row.id];
    forall q | q in m' ensures exists i :: 0 <= i < |rows'| && KeyOf(rows'[i], c, t) == q {
      if q == k {
        assert KeyOf(rows'[|rows|], c, t) == q;
      } else {
        var i :| 0 <= i < |rows| && KeyOf(rows[i], c, t) == q;
        assert rows'[i] == rows[i];
      }
    }
  }

  lemma AgreesEmpty(c: nat, t: ValueType)
    ensures Agrees(map[], [], c, t)
  {
  }

  lemma KeyIsNew(m: Index, rows: seq<Row>, k: Key, c: nat, t: ValueType)
    requires Agrees(m, rows, c, t) && forall i :: 0 <= i < |rows| ==> KeyOf(rows[i], c, t) != k
    ensures k !in m
  {
  }

  /** An index built from rows with distinct keys is exactly the map from key to owner. */
  lemma {:induction false} BuildAgrees(rows: seq<Row>, c: nat, t: ValueType)
    requires TypedColumn(rows, c, t) && DistinctKeys(rows, c, t)
    ensures Agrees(BuildIndex(rows, c, t), rows, c, t)
  {
    hide KeyOf, MapInsert, Agrees;
    if rows == [] {
      AgreesEmpty(c, t);
    } else {
      var n := |rows| - 1;
      var m := BuildIndex(rows[..n], c, t);
      BuildAgrees(rows[..n], c, t);
      KeyIsNew(m, rows[..n], KeyOf(rows[n], c, t), c, t);
      AgreesMore(m, rows[..n], rows[n], c, t);
      assert rows[..n] + [rows[n]] == rows;
    }
  }

  /** Rows determine the index that agrees with them. */
  lemma AgreesUnique(m: Index, m': Index, rows: seq<Row>, c: nat, t: ValueType)
    requires Agrees(m, rows, c, t) && Agrees(m', rows, c, t)
    ensures m == m'
  {
    hide KeyOf;
    forall k | k in m || k in m' ensures k in m && k in m' && m[k] == m'[k] {
      var i :| 0 <= i < |rows| && KeyOf(rows[i], c, t) == k;
    }
  }

  // ---------- the invariant ----------

  predicate Ascending(rows: seq<Row>) {
    forall i, j :: 0 <= i < j < |rows| ==> rows[i].id < rows[j].id
  }

  /** One more than the greatest id. */
  function NextId(rows: seq<Row>): RowId {
    if rows == [] then 0
    else
      var rest, last := NextId(rows[..|rows| - 1]), rows[|rows| - 1].id;
      if last >= rest then last + 1 else rest
  }

  ghost predicate IndexesAgree(s: TableState, schema: Schema) {
    && s.indexes.Keys == Indexes(schema)
    && forall name :: name in Indexes(schema) ==>
         Agrees(s.indexes[name], s.rows, ColumnOf(schema, name), TypeAt(schema, name))
  }

  /** Heap, indexes and history are three views of one table. */
  ghost predicate Consistent(s: TableState, schema: Schema) {
    && AllConform(s.rows, schema) && Ascending(s.rows) && s.next == NextId(s.rows)
    && IndexesAgree(s, schema)
    && RowMap(s.rows) == ReplayAll(s.history)
  }

  /** Events are stamped by the clock. */
  ghost predicate Stamped(h: seq<Event>, clock: Clock) {
    forall i :: 0 <= i < |h| ==> h[i].time == clock(i)
  }

  function Recorded(h: seq<Event>, cs: seq<Change>, clock: Clock): seq<Event> {
    h + seq(|cs|, i requires 0 <= i < |cs| => Event(cs[i], clock(|h| + i)))
  }

  lemma RecordedReplay(h: seq<Event>, cs: seq<Change>, clock: Clock)
    ensures ReplayAll(Recorded(h, cs, clock)) == ApplyAll(ReplayAll(h), cs)
    ensures Stamped(h, clock) ==> Stamped(Recorded(h, cs, clock), clock)
  {
    hide ReplayAll, ApplyAll;
    var more := seq(|cs|, i requires 0 <= i < |cs| => Event(cs[i], clock(|h| + i)));
    ReplayMore(h, more);
    ChangesBack(h, cs, clock);
  }

  lemma ChangesBack(h: seq<Event>, cs: seq<Change>, clock: Clock)
    ensures Changes(seq(|cs|, i requires 0 <= i < |cs| => Event(cs[i], clock(|h| + i)))) == cs
  {
  }

  lemma {:induction false} NextIdIsAbove(rows: seq<Row>)
    ensures forall i :: 0 <= i < |rows| ==> rows[i].id < NextId(rows)
    ensures rows != [] ==> exists i :: 0 <= i < |rows| && NextId(rows) == rows[i].id + 1
  {
    if rows != [] {
      var n, rest := |rows| - 1, rows[..|rows| - 1];
      NextIdIsAbove(rest);
      if rows[n].id >= NextId(rest) {
        assert NextId(rows) == rows[n].id + 1;
      } else {
        assert rest != [] && NextId(rows) == NextId(rest);
        var i :| 0 <= i < |rest| && NextId(rest) == rest[i].id + 1;
        assert NextId(rows) == rows[i].id + 1;
      }
    }
  }

  // ---------- INSERT ----------

  datatype Outcome = Outcome(state: TableState, error: Option<Error>)

  /** The schema positions of the named columns. */
  function Positions(schema: Schema, names: seq<string>): (r: Result<seq<nat>>)
    ensures r.Ok? ==> |r.value| == |names| && forall i :: 0 <= i < |names| ==> r.value[i] < |schema|
  {
    if names == [] then Ok([])
    else
      var n := |names| - 1;
      match Positions(schema, names[..n])
      case Err(error) => Err(error)
      case Ok(first) =>
        match FindColumnIndex(schema, names[n])
        case None => Err(SemanticError)
        case Some(i) => Ok(first + [i])
  }

  /** Literals at their positions, NULL everywhere else. */
  function Placed(schema: Schema, positions: seq<nat>, input: seq<Expr>): (r: Result<seq<Value>>)
    requires |input| <= |positions| && forall i :: 0 <= i < |positions| ==> positions[i] < |schema|
    ensures r.Ok? ==> |r.value| == |schema|
  {
    if input == [] then Ok(seq(|schema|, i => Null))
    else
      var n := |input| - 1;
      match Placed(schema, positions, input[..n])
      case Err(error) => Err(error)
      case Ok(values) => if input[n].Literal? then Ok(values[positions[n] := input[n].value]) else Err(ValidationError)
  }

  predicate KeyTaken(s: TableState, schema: Schema, row: Row)
    requires s.indexes.Keys == Indexes(schema) && Indexable(row, schema)
  {
    exists name :: name in Indexes(schema) && MapFind(s.indexes[name], IndexKey(row, schema, name)) != []
  }

  function Added(s: TableState, schema: Schema, row: Row, clock: Clock): TableState
    requires s.indexes.Keys == Indexes(schema) && Indexable(row, schema)
  {
    TableState(s.rows + [row], s.next + 1,
               map name | name in Indexes(schema) :: MapInsert(s.indexes[name], IndexKey(row, schema, name), row.id),
               Recorded(s.history, [Change(InsertRow, None, Some(row))], clock))
  }

  /** One row of an INSERT. */
  function InsertOne(s: TableState, schema: Schema, values: seq<Value>, clock: Clock): Result<TableState>
    requires s.indexes.Keys == Indexes(schema) && |values| == |schema|
  {
    match Validated(values, schema)
    case Err(error) => Err(error)
    case Ok(fitting) =>
      var row := Row(s.next, fitting);
      ConformingIsIndexable(row, schema);
      if !NoIndexedNull(row, schema) || KeyTaken(s, schema, row) then Err(ConstraintViolation)
      else Ok(Added(s, schema, row, clock))
  }

  /** Rows are inserted one by one; those before a rejected one stay. */
  function InsertRows(s: TableState, schema: Schema, positions: seq<nat>, inputs: seq<seq<Expr>>,
                      clock: Clock): (o: Outcome)
    requires s.indexes.Keys == Indexes(schema)
    requires forall i :: 0 <= i < |positions| ==> positions[i] < |schema|
    requires forall i :: 0 <= i < |inputs| ==> |inputs[i]| <= |positions|
    ensures o.state.indexes.Keys == Indexes(schema)
  {
    if inputs == [] then Outcome(s, None)
    else
      var n := |inputs| - 1;
      var before := InsertRows(s, schema, positions, inputs[..n], clock);
      if before.error.Some? then before
      else match Placed(schema, positions, inputs[n])
        case Err(error) => Outcome(before.state, Some(error))
        case Ok(values) =>
          match InsertOne(before.state, schema, values, clock)
          case Err(error) => Outcome(before.state, Some(error))
          case Ok(after) => Outcome(after, None)
  }

  /** A row with a new id at the end. */
  lemma AppendAscending(rows: seq<Row>, row: Row)
    requires Ascending(rows) && row.id == NextId(rows)
    ensures Ascending(rows + [row]) && NextId(rows + [row]) == NextId(rows) + 1
    ensures RowMap(rows + [row]) == RowMap(rows)[row.id := row]
  {
    NextIdIsAbove(rows);
    assert (rows + [row])[..|rows|] == rows;
  }

  lemma AddedConsistent(s: TableState, schema: Schema, row: Row, clock: Clock)
    requires Consistent(s, schema) && Conforms(row, schema) && Indexable(row, schema) && row.id == s.next
    requires !KeyTaken(s, schema, row)
    ensures Consistent(Added(s, schema, row, clock), schema)
  {
    hide RowMap, KeyOf, Agrees, ReplayAll, MapInsert, Conforms, Indexable, KeyTaken, Recorded;
    var change := Change(InsertRow, None, Some(row));
    AppendAscending(s.rows, row);
    RecordedReplay(s.history, [change], clock);
    ApplyOne(RowMap(s.rows), change);
    AddedIndexes(s, schema, row, clock);
  }

  lemma AddedIndexes(s: TableState, schema: Schema, row: Row, clock: Clock)
    requires IndexesAgree(s, schema) && Indexable(row, schema) && row.id == s.next && !KeyTaken(s, schema, row)
    ensures IndexesAgree(Added(s, schema, row, clock), schema)
  {
    hide KeyOf, Agrees, MapInsert, Typed, KeyTaken, Recorded;
    var s' := Added(s, schema, row, clock);
    forall name | name in Indexes(schema)
      ensures Agrees(s'.indexes[name], s'.rows, ColumnOf(schema, name), TypeAt(schema, name))
    {
      NotTaken(s, schema, row, name);
      AgreesMore(s.indexes[name], s.rows, row, ColumnOf(schema, name), TypeAt(schema, name));
    }
  }

  lemma ApplyOne(m: RowsById, c: Change)
    ensures ApplyAll(m, [c]) == Apply(m, c)
  {
    assert [c][..0] == [];
  }

  lemma NotTaken(s: TableState, schema: Schema, row: Row, name: string)
    requires IndexesAgree(s, schema) && Indexable(row, schema) && name in Indexes(schema) && !KeyTaken(s, schema, row)
    ensures Typed(row, ColumnOf(schema, name), TypeAt(schema, name)) && IndexKey(row, schema, name) !in s.indexes[name]
  {
    hide KeyOf;
    var m, c, t := s.indexes[name], ColumnOf(schema, name), TypeAt(schema, name);
    assert Agrees(m, s.rows, c, t);
    assert MapFind(m, IndexKey(row, schema, name)) == [];
  }

  lemma InsertOneKeeps(s: TableState, schema: Schema, values: seq<Value>, clock: Clock)
    requires Consistent(s, schema) && |values| == |schema| && InsertOne(s, schema, values, clock).Ok?
    ensures Consistent(InsertOne(s, schema, values, clock).value, schema)
  {
    hide Consistent, KeyTaken, NoIndexedNull, Added;
    var row := Row(s.next, Validated(values, schema).value);
    ConformingIsIndexable(row, schema);
    NextOf(s, schema);
    AddedConsistent(s, schema, row, clock);
  }

  lemma NextOf(s: TableState, schema: Schema)
    requires Consistent(s, schema)
    ensures s.next == NextId(s.rows) && s.indexes.Keys == Indexes(schema)
  {
  }

  /** INSERT keeps heap, indexes and history in step, even when it stops at a rejected row. */
  lemma {:induction false} InsertKeeps(s: TableState, schema: Schema, positions: seq<nat>, inputs: seq<seq<Expr>>,
                                       clock: Clock)
    requires Consistent(s, schema)
    requires s.indexes.Keys == Indexes(schema)
    requires forall i :: 0 <= i < |positions| ==> positions[i] < |schema|
    requires forall i :: 0 <= i < |inputs| ==> |inputs[i]| <= |positions|
    ensures Consistent(InsertRows(s, schema, positions, inputs, clock).state, schema)
  {
    hide Consistent, InsertOne;
    if inputs != [] {
      var n := |inputs| - 1;
      InsertKeeps(s, schema, positions, inputs[..n], clock);
      var before := InsertRows(s, schema, positions, inputs[..n], clock);
      if before.error.None? && Placed(schema, positions, inputs[n]).Ok? {
        var values := Placed(schema, positions, inputs[n]).value;
        if InsertOne(before.state, schema, values, clock).Ok? { InsertOneKeeps(before.state, schema, values, clock); }
      }
    }
  }
}
