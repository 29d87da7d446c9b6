/** Whole runs of statements on one table. */
module TableRuns {
  import opened Wrappers
  import opened Values
  import opened Predicates
  import opened TableIndex
  import opened History
  import opened TableStatements
  import opened TableChanges
  import opened TableRevert

  datatype Statement =
    | InsertInto(positions: seq<nat>, inputs: seq<seq<Expr>>)
    | UpdateWhere(where: Option<Expr>, assignments: seq<Assignment>)
    | DeleteWhere(where: Option<Expr>)
    | RevertTo(mode: Mode)

  /** A table as CREATE TABLE leaves it. */
  function Created(schema: Schema, clock: Clock): TableState {
    TableState([], 0, map name | name in Indexes(schema) :: map[], [Event(Change(CreateTable, None, None), clock(0))])
  }

  /** `s'` is what the statement makes of `s`.  UPDATE, DELETE and REVERT belong to a run only if they succeed; an
      INSERT may stop at a rejected row. */
  ghost predicate Executes(s: TableState, statement: Statement, schema: Schema, clock: Clock, s': TableState) {
    match statement
    case InsertInto(positions, inputs) =>
      && s.indexes.Keys == Indexes(schema)
      && (forall i :: 0 <= i < |positions| ==> positions[i] < |schema|)
      && (forall i :: 0 <= i < |inputs| ==> |inputs[i]| <= |positions|)
      && s' == InsertRows(s, schema, positions, inputs, clock).state
    case UpdateWhere(where, assignments) =>
      Shaped(s.rows, schema) && Update(s, schema, where, assignments, clock) == Outcome(s', None)
    case DeleteWhere(where) =>
      Shaped(s.rows, schema) && Delete(s, schema, where, clock) == Outcome(s', None)
    case RevertTo(mode) =>
      exists rows, cs :: Reverts(s, schema, mode, clock, rows, cs, Outcome(s', None))
  }

  ghost predicate IsRun(ss: seq<TableState>, statements: seq<Statement>, schema: Schema, clock: Clock) {
    && |ss| == |statements| + 1 && ss[0] == Created(schema, clock)
    && forall k, n :: 0 <= k && k + 1 == n < |ss| ==> Executes(ss[k], statements[k], schema, clock, ss[n])
  }

  /** Every row the history mentions fits the schema, so every past state does. */
  ghost predicate PastConforms(h: seq<Event>, schema: Schema) {
    forall i :: 0 <= i < |h| && h[i].change.after.Some? ==> Conforms(h[i].change.after.value, schema)
  }

  ghost predicate ChangesConform(cs: seq<Change>, schema: Schema) {
    forall i :: 0 <= i < |cs| && cs[i].after.Some? ==> Conforms(cs[i].after.value, schema)
  }

  lemma {:induction false} ApplyConforms(cs: seq<Change>, schema: Schema)
    requires ChangesConform(cs, schema)
    ensures forall id :: id in ApplyAll(map[], cs) ==> Conforms(ApplyAll(map[], cs)[id], schema)
  {
    hide Conforms;
    if cs != [] { ApplyConforms(cs[..|cs| - 1], schema); }
  }

  lemma {:induction false} UpToConforms(h: seq<Event>, t: Time, schema: Schema)
    requires PastConforms(h, schema)
    ensures ChangesConform(UpTo(h, t), schema)
  {
    hide Conforms;
    if h != [] { UpToConforms(h[..|h| - 1], t, schema); }
  }

  /** A past state fits the schema. */
  lemma PastRowsConform(h: seq<Event>, t: Time, schema: Schema, rows: seq<Row>)
    requires PastConforms(h, schema) && Lists(rows, Replay(h, t))
    ensures AllConform(rows, schema)
  {
    hide Conforms, RowMap;
    UpToConforms(h, t, schema);
    ApplyConforms(UpTo(h, t), schema);
    forall i | 0 <= i < |rows| ensures Conforms(rows[i], schema) { RowMapAt(rows, i); }
  }

  /** What a run keeps. */
  ghost predicate Sound(s: TableState, schema: Schema, clock: Clock) {
    Consistent(s, schema) && PastConforms(s.history, schema) && Stamped(s.history, clock) && s.history != []
  }

  lemma CreatedSound(schema: Schema, clock: Clock)
    ensures Sound(Created(schema, clock), schema, clock)
  {
    var s := Created(schema, clock);
    assert Changes(s.history) == [Change(CreateTable, None, None)];
    ApplyOne(map[], Change(CreateTable, None, None));
  }

  lemma RecordedSound(h: seq<Event>, cs: seq<Change>, schema: Schema, clock: Clock)
    requires PastConforms(h, schema) && Stamped(h, clock) && ChangesConform(cs, schema)
    ensures PastConforms(Recorded(h, cs, clock), schema) && Stamped(Recorded(h, cs, clock), clock)
    ensures h <= Recorded(h, cs, clock)
  {
    hide Conforms;
  }

  // ---------- the changes that each statement records fit the schema ----------

  lemma {:induction false} UpdateChangesConform(rows: seq<Row>, schema: Schema, where: Option<Expr>,
                                                assignments: seq<Assignment>)
    requires Shaped(rows, schema)
    ensures ChangesConform(UpdateSweep(rows, schema, where, assignments).changes, schema)
  {
    hide Updated, Conforms;
    if rows != [] {
      var n := |rows| - 1;
      UpdateChangesConform(rows[..n], schema, where, assignments);
      UpdatedRow(rows[n], schema, where, assignments);
    }
  }

  lemma {:induction false} DeleteChangesConform(rows: seq<Row>, schema: Schema, where: Option<Expr>)
    requires Shaped(rows, schema)
    ensures ChangesConform(DeleteSweep(rows, schema, where).changes, schema)
  {
    hide Passes, Conforms;
    if rows != [] { DeleteChangesConform(rows[..|rows| - 1], schema, where); }
  }

  lemma DeltaConforms(cs: seq<Change>, current: RowsById, rows: seq<Row>, schema: Schema)
    requires IsDelta(cs, current, RowMap(rows)) && AllConform(rows, schema)
    ensures ChangesConform(cs, schema)
  {
    hide Conforms, RowMap, Touches, Differ;
    forall i | 0 <= i < |cs| && cs[i].after.Some? ensures Conforms(cs[i].after.value, schema) {
      assert Moves(cs[i], current, RowMap(rows));
      RowMapHas(rows, IdOf(cs[i]));
    }
  }

  lemma {:induction false} InsertSound(s: TableState, schema: Schema, positions: seq<nat>, inputs: seq<seq<Expr>>,
                                       clock: Clock)
    requires Sound(s, schema, clock) && s.indexes.Keys == Indexes(schema)
    requires forall i :: 0 <= i < |positions| ==> positions[i] < |schema|
    requires forall i :: 0 <= i < |inputs| ==> |inputs[i]| <= |positions|
    ensures var s' := InsertRows(s, schema, positions, inputs, clock).state;
      Sound(s', schema, clock) && s.history <= s'.history
  {
    hide Sound, InsertOne;
    if inputs != [] {
      var n := |inputs| - 1;
      InsertSound(s, schema, positions, inputs[..n], clock);
      var before := InsertRows(s, schema, positions, inputs[..n], clock);
      if before.error.None? && Placed(schema, positions, inputs[n]).Ok? {
        var values := Placed(schema, positions, inputs[n]).value;
        if InsertOne(before.state, schema, values, clock).Ok? { InsertOneSound(before.state, schema, values, clock); }
      }
    }
  }

  lemma InsertOneSound(s: TableState, schema: Schema, values: seq<Value>, clock: Clock)
    requires Sound(s, schema, clock) && |values| == |schema| && s.indexes.Keys == Indexes(schema)
    requires InsertOne(s, schema, values, clock).Ok?
    ensures var s' := InsertOne(s, schema, values, clock).value; Sound(s', schema, clock) && s.history <= s'.history
  {
    hide Consistent, KeyTaken, NoIndexedNull, Recorded;
    InsertOneKeeps(s, schema, values, clock);
    var row := Row(s.next, Validated(values, schema).value);
    RecordedSound(s.history, [Change(InsertRow, None, Some(row))], schema, clock);
  }

  /** Every statement of a run keeps the invariant and only adds to the history. */
  lemma StepSound(s: TableState, statement: Statement, schema: Schema, clock: Clock, s': TableState)
    requires Sound(s, schema, clock) && Executes(s, statement, schema, clock, s')
    ensures Sound(s', schema, clock) && s.history <= s'.history
  {
    hide Consistent, InsertRows, UpdateSweep, DeleteSweep, CanRebuild, Rebuilt, Recorded, IsDelta, Replay, RowMap;
    match statement
    case InsertInto(positions, inputs) => InsertSound(s, schema, positions, inputs, clock);
    case UpdateWhere(where, assignments) =>
      UpdateKeeps(s, schema, where, assignments, clock);
      UpdateChangesConform(s.rows, schema, where, assignments);
      RecordedSound(s.history, UpdateSweep(s.rows, schema, where, assignments).changes, schema, clock);
    case DeleteWhere(where) =>
      DeleteConsistent(s, schema, where, clock);
      DeleteChangesConform(s.rows, schema, where);
      RecordedSound(s.history, DeleteSweep(s.rows, schema, where).changes, schema, clock);
    case RevertTo(mode) =>
      var rows, cs :| Reverts(s, schema, mode, clock, rows, cs, Outcome(s', None));
      PastRowsConform(s.history, TargetTime(s.history, mode).value, schema, rows);
      RevertKeeps(s, schema, mode, clock, rows, cs, Outcome(s', None));
      DeltaConforms(cs, RowMap(s.rows), rows, schema);
      RecordedSound(s.history, cs, schema, clock);
  }

  /** Over every run: replaying the history gives exactly the heap, every index is exactly the map from value to owner,
      ids ascend, and the counter is one more than the greatest id. */
  lemma {:induction false} RunSound(ss: seq<TableState>, statements: seq<Statement>, schema: Schema, clock: Clock,
                                    k: nat)
    requires IsRun(ss, statements, schema, clock) && k < |ss|
    ensures Sound(ss[k], schema, clock)
    ensures forall j :: 0 <= j <= k ==> ss[j].history <= ss[k].history
  {
    hide Sound, Executes;
    if k == 0 {
      CreatedSound(schema, clock);
    } else {
      RunSound(ss, statements, schema, clock, k - 1);
      StepSound(ss[k - 1], statements[k - 1], schema, clock, ss[k]);
    }
  }

  /** In any run, REVERT from any state to any earlier statement boundary succeeds and restores that state's rows and
      indexes exactly.  Reverting forward again is the same statement with a later boundary. */
  lemma RevertInRun(ss: seq<TableState>, statements: seq<Statement>, schema: Schema, clock: Clock, j: nat, k: nat,
                    t: Time,
                    rows: seq<Row>, cs: seq<Change>, o: Outcome)
    requires IsRun(ss, statements, schema, clock) && Monotone(clock) && j <= k < |ss|
    requires ss[j].history != [] && clock(|ss[j].history| - 1) <= t
      && (|ss[j].history| < |ss[k].history| ==> t < clock(|ss[j].history|))
    requires Reverts(ss[k], schema, AtOrBefore(t), clock, rows, cs, o)
    ensures o.error.None? && Sound(o.state, schema, clock)
    ensures o.state.rows == ss[j].rows && o.state.indexes == ss[j].indexes && o.state.next == ss[j].next
  {
    hide Executes, IsRun, Reverts, Consistent, PastConforms;
    RunSound(ss, statements, schema, clock, j);
    RunSound(ss, statements, schema, clock, k);
    RevertToBoundary(ss[j], ss[k], schema, t, clock, rows, cs, o);
    RevertIsStatement(ss[k], schema, AtOrBefore(t), clock, rows, cs, o);
    StepSound(ss[k], RevertTo(AtOrBefore(t)), schema, clock, o.state);
  }

  lemma RevertIsStatement(s: TableState, schema: Schema, mode: Mode, clock: Clock, rows: seq<Row>, cs: seq<Change>,
                          o: Outcome)
    requires Reverts(s, schema, mode, clock, rows, cs, o) && o.error.None?
    ensures Executes(s, RevertTo(mode), schema, clock, o.state)
  {
    assert o == Outcome(o.state, None);
  }
}
