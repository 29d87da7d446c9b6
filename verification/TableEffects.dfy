/** Every statement on one table, successful or not: what it keeps, and that timestamps do not influence it. */
module TableEffects {
  import opened Wrappers
  import opened Values
  import opened Predicates
  import opened SortedMap
  import opened TableIndex
  import opened History
  import opened TableStatements
  import opened TableChanges
  import opened TableRevert
  import opened TableRuns

  datatype TableCommand =
    | InsertValues(columns: seq<string>, inputs: seq<seq<Expr>>)
    | UpdateRows(where: Option<Expr>, assignments: seq<Assignment>)
    | DeleteRows(where: Option<Expr>)
    | RevertTable(mode: Mode)

  /** No input row of an INSERT is longer than its column list. */
  predicate WellFormed(command: TableCommand) {
    command.InsertValues? ==> forall i :: 0 <= i < |command.inputs| ==> |command.inputs[i]| <= |command.columns|
  }

  function Inserted(s: TableState, schema: Schema, columns: seq<string>, inputs: seq<seq<Expr>>, clock: Clock): Outcome
    requires s.indexes.Keys == Indexes(schema) && forall i :: 0 <= i < |inputs| ==> |inputs[i]| <= |columns|
  {
    match Positions(schema, columns)
    case Err(error) => Outcome(s, Some(error))
    case Ok(positions) => InsertRows(s, schema, positions, inputs, clock)
  }

  /** `o` is the outcome of the statement on `s`. */
  ghost predicate Effect(s: TableState, schema: Schema, command: TableCommand, clock: Clock, o: Outcome) {
    match command
    case InsertValues(columns, inputs) =>
      s.indexes.Keys == Indexes(schema) && WellFormed(command) && o == Inserted(s, schema, columns, inputs, clock)
    case UpdateRows(where, assignments) => Shaped(s.rows, schema) && o == Update(s, schema, where, assignments, clock)
    case DeleteRows(where) => Shaped(s.rows, schema) && o == Delete(s, schema, where, clock)
    case RevertTable(mode) => exists rows, cs :: Reverts(s, schema, mode, clock, rows, cs, o)
  }

  // ---------- what statements that fail keep, too ----------

  /** Rows fit the schema and ascend by id, the counter is one more than the greatest id, every index is exactly the map
      from value to owner, and whatever the history mentions fits the schema. */
  ghost predicate Intact(s: TableState, schema: Schema) {
    && AllConform(s.rows, schema) && Ascending(s.rows) && s.next == NextId(s.rows)
    && IndexesAgree(s, schema) && PastConforms(s.history, schema)
  }

  /** A history that replays to the given rows. */
  function Rewritten(rows: seq<Row>): seq<Event> {
    seq(|rows|, i requires 0 <= i < |rows| => Event(Change(InsertRow, None, Some(rows[i])), 0))
  }

  lemma {:induction false} RewrittenReplays(rows: seq<Row>)
    ensures ReplayAll(Rewritten(rows)) == RowMap(rows)
  {
    if rows == [] {
      assert Changes(Rewritten(rows)) == [];
    } else {
      var n := |rows| - 1;
      RewrittenReplays(rows[..n]);
      var cs := Changes(Rewritten(rows));
      assert cs[..n] == Changes(Rewritten(rows[..n]));
      assert cs[n] == Change(InsertRow, None, Some(rows[n]));
    }
  }

  /** The same table with a history that replays to its rows. */
  function Retold(s: TableState): TableState {
    s.(history := Rewritten(s.rows))
  }

  lemma RetoldConsistent(s: TableState, schema: Schema)
    requires Intact(s, schema)
    ensures Consistent(Retold(s), schema)
  {
    hide RowMap, ReplayAll, Conforms, Agrees, Rewritten;
    RewrittenReplays(s.rows);
  }

  // ---------- histories and clocks do not influence INSERT, UPDATE and DELETE ----------

  /** The same table up to its history. */
  predicate Alike(s: TableState, t: TableState) {
    s.rows == t.rows && s.next == t.next && s.indexes == t.indexes
  }

  /** `s'` and `t'` record the same changes after `s` and `t`. */
  ghost predicate SameNews(s: seq<Event>, s': seq<Event>, t: seq<Event>, t': seq<Event>) {
    s <= s' && t <= t' && Changes(s'[|s|..]) == Changes(t'[|t|..])
  }

  ghost predicate SameEffect(s: TableState, o: Outcome, t: TableState, p: Outcome) {
    o.error == p.error && Alike(o.state, p.state)
    && SameNews(s.history, o.state.history, t.history, p.state.history)
  }

  lemma RecordedNews(s: seq<Event>, t: seq<Event>, cs: seq<Change>, c: Clock, d: Clock)
    ensures SameNews(s, Recorded(s, cs, c), t, Recorded(t, cs, d))
  {
    assert Changes(Recorded(s, cs, c)[|s|..]) == cs;
    assert Changes(Recorded(t, cs, d)[|t|..]) == cs;
  }

  lemma NewsTwice(s: seq<Event>, s1: seq<Event>, s2: seq<Event>, t: seq<Event>, t1: seq<Event>, t2: seq<Event>)
    requires SameNews(s, s1, t, t1) && SameNews(s1, s2, t1, t2)
    ensures SameNews(s, s2, t, t2)
  {
    assert Changes(s2[|s|..]) == Changes(s1[|s|..]) + Changes(s2[|s1|..]);
    assert Changes(t2[|t|..]) == Changes(t1[|t|..]) + Changes(t2[|t1|..]);
  }

  lemma SettledAlike(s: TableState, t: TableState, schema: Schema, sweep: Sweep, c: Clock, d: Clock)
    requires Alike(s, t)
    ensures SameEffect(s, Settled(s, schema, sweep, c), t, Settled(t, schema, sweep, d))
  {
    hide CanRebuild, Rebuilt, Recorded;
    RecordedNews(s.history, t.history, sweep.changes, c, d);
  }

  lemma InsertOneAlike(s: TableState, t: TableState, schema: Schema, values: seq<Value>, c: Clock, d: Clock)
    requires Alike(s, t) && s.indexes.Keys == Indexes(schema) && |values| == |schema|
    ensures var o, p := InsertOne(s, schema, values, c), InsertOne(t, schema, values, d);
      match o
      case Err(error) => p == Err(error)
      case Ok(s') => p.Ok? && Alike(s', p.value) && SameNews(s.history, s'.history, t.history, p.value.history)
  {
    hide Validated, KeyTaken, NoIndexedNull, IndexKey, MapInsert, Recorded, Indexes;
    match Validated(values, schema)
    case Err(_) =>
    case Ok(fitting) =>
      var row := Row(s.next, fitting);
      ConformingIsIndexable(row, schema);
      TakenAlike(s, t, schema, row);
      RecordedNews(s.history, t.history, [Change(InsertRow, None, Some(row))], c, d);
  }

  lemma TakenAlike(s: TableState, t: TableState, schema: Schema, row: Row)
    requires Alike(s, t) && s.indexes.Keys == Indexes(schema)
    ensures Indexable(row, schema) ==> (KeyTaken(s, schema, row) <==> KeyTaken(t, schema, row))
  {
  }

  lemma {:induction false} InsertRowsAlike(s: TableState, t: TableState, schema: Schema, positions: seq<nat>,
                                           inputs: seq<seq<Expr>>, c: Clock, d: Clock)
    requires Alike(s, t) && s.indexes.Keys == Indexes(schema)
    requires forall i :: 0 <= i < |positions| ==> positions[i] < |schema|
    requires forall i :: 0 <= i < |inputs| ==> |inputs[i]| <= |positions|
    ensures SameEffect(s, InsertRows(s, schema, positions, inputs, c), t, InsertRows(t, schema, positions, inputs, d))
  {
    hide InsertOne, Placed, SameNews, Indexes;
    NoNews(s.history, t.history);
    if inputs != [] {
      var n := |inputs| - 1;
      InsertRowsAlike(s, t, schema, positions, inputs[..n], c, d);
      var o, p := InsertRows(s, schema, positions, inputs[..n], c), InsertRows(t, schema, positions, inputs[..n], d);
      if o.error.None? {
        match Placed(schema, positions, inputs[n])
        case Err(_) =>
        case Ok(values) =>
          InsertOneAlike(o.state, p.state, schema, values, c, d);
          match InsertOne(o.state, schema, values, c)
          case Err(_) =>
          case Ok(s') =>
            var t' := InsertOne(p.state, schema, values, d).value;
            NewsTwice(s.history, o.state.history, s'.history, t.history, p.state.history, t'.history);
      }
    }
  }

  lemma NoNews(s: seq<Event>, t: seq<Event>)
    ensures SameNews(s, s, t, t)
  {
    assert s[|s|..] == [] && t[|t|..] == [];
  }

  /** On tables that are the same up to their histories, whatever the clocks, INSERT, UPDATE and DELETE have the same
      outcome and record the same changes. */
  lemma EffectAlike(s: TableState, t: TableState, schema: Schema, command: TableCommand, c: Clock, d: Clock,
                    o: Outcome, p: Outcome)
    requires Alike(s, t) && !command.RevertTable? && Effect(s, schema, command, c, o)
      && Effect(t, schema, command, d, p)
    ensures SameEffect(s, o, t, p)
  {
    hide InsertRows, Settled, SameNews, UpdateSweep, DeleteSweep, Positions;
    match command
    case InsertValues(columns, inputs) => {
      NoNews(s.history, t.history);
      if Positions(schema, columns).Ok? {
        InsertRowsAlike(s, t, schema, Positions(schema, columns).value, inputs, c, d);
      }
    }
    case UpdateRows(where, assignments) =>
      SettledAlike(s, t, schema, UpdateSweep(s.rows, schema, where, assignments), c, d);
    case DeleteRows(where) =>
      SettledAlike(s, t, schema, DeleteSweep(s.rows, schema, where), c, d);
  }

  // ---------- every statement keeps the table intact ----------

  lemma RecordedConforms(h: seq<Event>, cs: seq<Change>, schema: Schema, clock: Clock)
    requires PastConforms(h, schema) && ChangesConform(cs, schema)
    ensures PastConforms(Recorded(h, cs, clock), schema) && h <= Recorded(h, cs, clock)
  {
    hide Conforms;
  }

  lemma {:induction false} InsertConforms(s: TableState, schema: Schema, positions: seq<nat>, inputs: seq<seq<Expr>>,
                                          clock: Clock)
    requires PastConforms(s.history, schema) && s.indexes.Keys == Indexes(schema)
    requires forall i :: 0 <= i < |positions| ==> positions[i] < |schema|
    requires forall i :: 0 <= i < |inputs| ==> |inputs[i]| <= |positions|
    ensures var h := InsertRows(s, schema, positions, inputs, clock).state.history;
      PastConforms(h, schema) && s.history <= h
  {
    hide InsertOne, Placed, PastConforms, Indexes;
    if inputs != [] {
      var n := |inputs| - 1;
      InsertConforms(s, schema, positions, inputs[..n], clock);
      var before := InsertRows(s, schema, positions, inputs[..n], clock);
      if before.error.None? && Placed(schema, positions, inputs[n]).Ok? {
        InsertOneConforms(before.state, schema, Placed(schema, positions, inputs[n]).value, clock);
      }
    }
  }

  lemma InsertOneConforms(s: TableState, schema: Schema, values: seq<Value>, clock: Clock)
    requires PastConforms(s.history, schema) && |values| == |schema| && s.indexes.Keys == Indexes(schema)
    ensures var r := InsertOne(s, schema, values, clock);
      r.Ok? ==> PastConforms(r.value.history, schema) && s.history <= r.value.history
  {
    hide KeyTaken, NoIndexedNull, Recorded, MapInsert, IndexKey, Indexes;
    if InsertOne(s, schema, values, clock).Ok? {
      var row := Row(s.next, Validated(values, schema).value);
      ConformingIsIndexable(row, schema);
      RecordedConforms(s.history, [Change(InsertRow, None, Some(row))], schema, clock);
    }
  }

  /** An outcome that is like one on the retold table leaves the table intact. */
  lemma IntactAgain(s: TableState, o: Outcome, p: Outcome, schema: Schema)
    requires Alike(o.state, p.state) && Consistent(p.state, schema) && PastConforms(o.state.history, schema)
    ensures Intact(o.state, schema)
  {
    hide Conforms, Agrees, RowMap, ReplayAll;
  }

  lemma InsertIntact(s: TableState, schema: Schema, columns: seq<string>, inputs: seq<seq<Expr>>, clock: Clock)
    requires Intact(s, schema) && s.indexes.Keys == Indexes(schema)
    requires forall i :: 0 <= i < |inputs| ==> |inputs[i]| <= |columns|
    ensures var s' := Inserted(s, schema, columns, inputs, clock).state; Intact(s', schema) && s.history <= s'.history
  {
    hide InsertRows, Consistent, Positions, PastConforms, IndexesAgree, AllConform;
    if Positions(schema, columns).Ok? {
      var positions := Positions(schema, columns).value;
      RetoldConsistent(s, schema);
      InsertKeeps(Retold(s), schema, positions, inputs, clock);
      InsertRowsAlike(s, Retold(s), schema, positions, inputs, clock, clock);
      InsertConforms(s, schema, positions, inputs, clock);
      IntactAgain(s, InsertRows(s, schema, positions, inputs, clock),
        InsertRows(Retold(s), schema, positions, inputs, clock), schema);
    }
  }

  lemma SettledIntact(s: TableState, schema: Schema, sweep: Sweep, clock: Clock)
    requires Intact(s, schema) && ChangesConform(sweep.changes, schema)
    requires Settled(s, schema, sweep, clock).error.None? ==>
      Consistent(Settled(Retold(s), schema, sweep, clock).state, schema)
    ensures var s' := Settled(s, schema, sweep, clock).state; Intact(s', schema) && s.history <= s'.history
  {
    hide Recorded, CanRebuild, Rebuilt, Agrees, Conforms, ReplayAll, RowMap, ChangesConform, PastConforms;
    RecordedConforms(s.history, sweep.changes, schema, clock);
  }

  lemma UpdateIntact(s: TableState, schema: Schema, where: Option<Expr>, assignments: seq<Assignment>, clock: Clock)
    requires Intact(s, schema) && Shaped(s.rows, schema)
    ensures var s' := Update(s, schema, where, assignments, clock).state; Intact(s', schema) && s.history <= s'.history
  {
    hide UpdateSweep, Consistent, Settled, ChangesConform, Intact;
    var sweep := UpdateSweep(s.rows, schema, where, assignments);
    UpdateChangesConform(s.rows, schema, where, assignments);
    if Update(s, schema, where, assignments, clock).error.None? {
      RetoldConsistent(s, schema);
      SettledAlike(s, Retold(s), schema, sweep, clock, clock);
      UpdateKeeps(Retold(s), schema, where, assignments, clock);
    }
    SettledIntact(s, schema, sweep, clock);
  }

  lemma DeleteIntact(s: TableState, schema: Schema, where: Option<Expr>, clock: Clock)
    requires Intact(s, schema) && Shaped(s.rows, schema)
    ensures var s' := Delete(s, schema, where, clock).state; Intact(s', schema) && s.history <= s'.history
  {
    hide DeleteSweep, Consistent, ChangesConform, Intact, CanRebuild, Rebuilt, Recorded;
    var sweep := DeleteSweep(s.rows, schema, where);
    DeleteChangesConform(s.rows, schema, where);
    if sweep.error.None? {
      RetoldConsistent(s, schema);
      DeleteConsistent(Retold(s), schema, where, clock);
    }
    SettledIntact(s, schema, sweep, clock);
  }

  lemma RevertIntact(s: TableState, schema: Schema, mode: Mode, clock: Clock, rows: seq<Row>, cs: seq<Change>,
                     o: Outcome)
    requires Intact(s, schema) && Reverts(s, schema, mode, clock, rows, cs, o)
    ensures Intact(o.state, schema) && s.history <= o.state.history
  {
    hide Recorded, CanRebuild, Rebuilt, Agrees, Conforms, RowMap, Replay, IsDelta, Shaped, ChangesConform, PastConforms;
    if mode.Malformed? || TargetTime(s.history, mode).None? || !Shaped(rows, schema) { return; }
    PastRowsConform(s.history, TargetTime(s.history, mode).value, schema, rows);
    DeltaConforms(cs, RowMap(s.rows), rows, schema);
    RecordedConforms(s.history, cs, schema, clock);
    if CanRebuild(rows, schema) { RebuiltAgrees(o.state, schema); }
  }

  /** Whatever the statement and its outcome. */
  lemma EffectIntact(s: TableState, schema: Schema, command: TableCommand, clock: Clock, o: Outcome)
    requires Intact(s, schema) && Effect(s, schema, command, clock, o)
    ensures Intact(o.state, schema) && s.history <= o.state.history
  {
    hide Intact, Reverts, Update, Delete, Inserted, Shaped, Indexes;
    match command
    case InsertValues(columns, inputs) => InsertIntact(s, schema, columns, inputs, clock);
    case UpdateRows(where, assignments) => UpdateIntact(s, schema, where, assignments, clock);
    case DeleteRows(where) => DeleteIntact(s, schema, where, clock);
    case RevertTable(mode) =>
      var rows, cs :| Reverts(s, schema, mode, clock, rows, cs, o);
      RevertIntact(s, schema, mode, clock, rows, cs, o);
  }

  // ---------- which failures leave no trace ----------

  /** An INSERT turns this row down. */
  predicate Rejected(s: TableState, schema: Schema, values: seq<Value>)
    requires s.indexes.Keys == Indexes(schema) && |values| == |schema|
  {
    match Validated(values, schema)
    case Err(_) => true
    case Ok(fitting) =>
      var row := Row(s.next, fitting);
      ConformingIsIndexable(row, schema);
      !NoIndexedNull(row, schema) || KeyTaken(s, schema, row)
  }

  /** An UPDATE changes this row. */
  predicate UpdatesRow(row: Row, schema: Schema, where: Option<Expr>, assignments: seq<Assignment>)
    requires |row.values| == |schema|
  {
    && Passes(where, schema, row) == Ok(true) && Assigned(row, schema, assignments).Ok?
    && Validated(Assigned(row, schema, assignments).value.values, schema).Ok?
  }

  /** An UPDATE stops at this row: its clause, an assignment or the validation of the new row fails. */
  predicate StopsUpdate(row: Row, schema: Schema, where: Option<Expr>, assignments: seq<Assignment>)
    requires |row.values| == |schema|
  {
    Passes(where, schema, row).Err?
      || (Passes(where, schema, row) == Ok(true) && !UpdatesRow(row, schema, where, assignments))
  }

  /** Every row that the UPDATE would change comes after one that it stops at. */
  ghost predicate UpdatesNone(rows: seq<Row>, schema: Schema, where: Option<Expr>, assignments: seq<Assignment>)
    requires Shaped(rows, schema)
  {
    forall i :: 0 <= i < |rows| && UpdatesRow(rows[i], schema, where, assignments) ==>
      StopsWithin(rows, i, schema, where, assignments)
  }

  ghost predicate StopsWithin(rows: seq<Row>, n: nat, schema: Schema, where: Option<Expr>, assignments: seq<Assignment>)
    requires Shaped(rows, schema) && n <= |rows|
  {
    exists i :: 0 <= i < n && StopsUpdate(rows[i], schema, where, assignments)
  }

  /** Every row that the DELETE would drop comes after one at which its clause fails. */
  ghost predicate DeletesNone(rows: seq<Row>, schema: Schema, where: Option<Expr>)
    requires Shaped(rows, schema)
  {
    forall i :: 0 <= i < |rows| && Passes(where, schema, rows[i]) == Ok(true) ==>
      ClauseFailsWithin(rows, i, schema, where)
  }

  ghost predicate ClauseFailsWithin(rows: seq<Row>, n: nat, schema: Schema, where: Option<Expr>)
    requires Shaped(rows, schema) && n <= |rows|
  {
    exists i :: 0 <= i < n && Passes(where, schema, rows[i]).Err?
  }

  lemma UpdatedOrNot(row: Row, schema: Schema, where: Option<Expr>, assignments: seq<Assignment>)
    requires |row.values| == |schema|
    ensures var r := Updated(row, schema, where, assignments);
      && (r.Err? <==> StopsUpdate(row, schema, where, assignments))
      && (r.Ok? && r.value.Some? <==> UpdatesRow(row, schema, where, assignments))
  {
    hide Passes, Assigned, Validated;
  }

  /** The first rows of a sweep are a sweep. */
  lemma {:induction false} UpdateRecords(rows: seq<Row>, schema: Schema, where: Option<Expr>,
                                         assignments: seq<Assignment>, n: nat)
    requires Shaped(rows, schema) && n <= |rows|
    ensures var sweep := UpdateSweep(rows[..n], schema, where, assignments);
      && (sweep.error.Some? <==> StopsWithin(rows, n, schema, where, assignments))
      && (sweep.changes == [] <==> forall i :: 0 <= i < n && UpdatesRow(rows[i], schema, where, assignments) ==>
            StopsWithin(rows, i, schema, where, assignments))
  {
    hide Updated, UpdatesRow, StopsUpdate;
    if n > 0 {
      UpdateRecords(rows, schema, where, assignments, n - 1);
      assert rows[..n][..n - 1] == rows[..n - 1];
      UpdatedOrNot(rows[n - 1], schema, where, assignments);
    }
  }

  lemma {:induction false} DeleteRecords(rows: seq<Row>, schema: Schema, where: Option<Expr>, n: nat)
    requires Shaped(rows, schema) && n <= |rows|
    ensures var sweep := DeleteSweep(rows[..n], schema, where);
      && (sweep.error.Some? <==> ClauseFailsWithin(rows, n, schema, where))
      && (sweep.changes == [] <==> forall i :: 0 <= i < n && Passes(where, schema, rows[i]) == Ok(true) ==>
            ClauseFailsWithin(rows, i, schema, where))
  {
    hide Passes;
    if n > 0 {
      DeleteRecords(rows, schema, where, n - 1);
      assert rows[..n][..n - 1] == rows[..n - 1];
    }
  }

  lemma SweepsRecord(rows: seq<Row>, schema: Schema, where: Option<Expr>, assignments: seq<Assignment>)
    requires Shaped(rows, schema)
    ensures UpdateSweep(rows, schema, where, assignments).changes == [] <==>
      UpdatesNone(rows, schema, where, assignments)
    ensures DeleteSweep(rows, schema, where).changes == [] <==> DeletesNone(rows, schema, where)
  {
    hide UpdatesRow, Passes, StopsWithin, ClauseFailsWithin, UpdateSweep, DeleteSweep;
    UpdateRecords(rows, schema, where, assignments, |rows|);
    DeleteRecords(rows, schema, where, |rows|);
    assert rows[..|rows|] == rows;
  }

  /** The statement has nothing to record: an INSERT whose columns are unknown or whose first row is turned down, an
      UPDATE or DELETE that stops before the first row that it would change, a REVERT without a target, with rows of
      another shape, or to what there is. */
  ghost predicate NothingToRecord(s: TableState, schema: Schema, command: TableCommand) {
    match command
    case InsertValues(columns, inputs) =>
      s.indexes.Keys == Indexes(schema) && WellFormed(command) &&
      (match Positions(schema, columns)
       case Err(_) => true
       case Ok(positions) =>
         inputs == [] ||
         match Placed(schema, positions, inputs[0])
         case Err(_) => true
         case Ok(values) => Rejected(s, schema, values))
    case UpdateRows(where, assignments) => Shaped(s.rows, schema) && UpdatesNone(s.rows, schema, where, assignments)
    case DeleteRows(where) => Shaped(s.rows, schema) && DeletesNone(s.rows, schema, where)
    case RevertTable(mode) =>
      mode.Malformed? ||
      match TargetTime(s.history, mode)
      case None => true
      case Some(t) =>
        var past := Replay(s.history, t);
        Misshapen(past, schema) || Same(RowMap(s.rows), past)
  }

  ghost predicate Same(current: RowsById, target: RowsById) {
    forall id :: id in current || id in target ==> !Differ(current, target, id)
  }

  lemma {:induction false} InsertGrows(s: TableState, schema: Schema, positions: seq<nat>, inputs: seq<seq<Expr>>,
                                       clock: Clock)
    requires s.indexes.Keys == Indexes(schema)
    requires forall i :: 0 <= i < |positions| ==> positions[i] < |schema|
    requires forall i :: 0 <= i < |inputs| ==> |inputs[i]| <= |positions|
    requires inputs != []
    ensures var o := InsertRows(s, schema, positions, inputs, clock);
      var placed := Placed(schema, positions, inputs[0]);
      if placed.Err? || Rejected(s, schema, placed.value) then o.error.Some? && o.state == s
      else |o.state.rows| > |s.rows|
    decreases |inputs|
  {
    hide Placed, Validated, NoIndexedNull, KeyTaken, Added, Indexes;
    var n := |inputs| - 1;
    assert InsertRows(s, schema, positions, [], clock) == Outcome(s, None);
    var before := InsertRows(s, schema, positions, inputs[..n], clock);
    if n > 0 { InsertGrows(s, schema, positions, inputs[..n], clock); }
    if before.error.None? && Placed(schema, positions, inputs[n]).Ok? {
      OneRow(before.state, schema, Placed(schema, positions, inputs[n]).value, clock);
    }
  }

  lemma OneRow(s: TableState, schema: Schema, values: seq<Value>, clock: Clock)
    requires s.indexes.Keys == Indexes(schema) && |values| == |schema|
    ensures var r := InsertOne(s, schema, values, clock);
      (r.Err? <==> Rejected(s, schema, values)) && (r.Ok? ==> |r.value.rows| == |s.rows| + 1)
  {
    hide Validated, NoIndexedNull, KeyTaken, Indexes, Recorded, IndexKey, MapInsert;
  }

  lemma RecordedSame(h: seq<Event>, cs: seq<Change>, clock: Clock)
    ensures Recorded(h, cs, clock) == h <==> cs == []
  {
    if cs == [] { assert Recorded(h, cs, clock) == h; } else { assert |Recorded(h, cs, clock)| > |h|; }
  }

  lemma FailedSweep(s: TableState, schema: Schema, sweep: Sweep, clock: Clock)
    requires Settled(s, schema, sweep, clock).error.Some?
    ensures Settled(s, schema, sweep, clock).state == s <==> sweep.changes == []
  {
    hide Recorded, CanRebuild, Rebuilt;
    RecordedSame(s.history, sweep.changes, clock);
  }

  lemma MovesDiffer(c: Change, current: RowsById, target: RowsById)
    requires Moves(c, current, target)
    ensures Differ(current, target, IdOf(c)) && (IdOf(c) in current || IdOf(c) in target)
  {
  }

  lemma EmptyDelta(cs: seq<Change>, current: RowsById, target: RowsById)
    requires IsDelta(cs, current, target)
    ensures cs == [] <==> Same(current, target)
  {
    hide Moves, Differ;
    if cs != [] { MovesDiffer(cs[0], current, target); }
  }

  /** A row of another shape than the schema. */
  predicate Misshapen(m: RowsById, schema: Schema) {
    exists id :: id in m && |m[id].values| != |schema|
  }

  lemma ShapedOrNot(rows: seq<Row>, schema: Schema)
    requires Ascending(rows)
    ensures Shaped(rows, schema) <==> !Misshapen(RowMap(rows), schema)
  {
    hide RowMap;
    if !Shaped(rows, schema) {
      var i :| 0 <= i < |rows| && |rows[i].values| != |schema|;
      RowMapAt(rows, i);
    }
    if Misshapen(RowMap(rows), schema) {
      var id :| id in RowMap(rows) && |RowMap(rows)[id].values| != |schema|;
      RowMapHas(rows, id);
    }
  }

  lemma FailedRevert(s: TableState, schema: Schema, mode: Mode, clock: Clock, rows: seq<Row>, cs: seq<Change>,
                     o: Outcome)
    requires Reverts(s, schema, mode, clock, rows, cs, o) && o.error.Some?
    ensures o.state == s <==> NothingToRecord(s, schema, RevertTable(mode))
  {
    hide RowMap, Replay, IsDelta, Shaped, Settled, Misshapen, Same;
    if !mode.Malformed? && TargetTime(s.history, mode).Some? {
      ShapedOrNot(rows, schema);
      if Shaped(rows, schema) {
        EmptyDelta(cs, RowMap(s.rows), RowMap(rows));
        FailedSweep(s, schema, Sweep(rows, cs, None), clock);
      }
    }
  }

  /** A statement that fails leaves the table and its history exactly as they were if and only if it had nothing to
      record before it failed. */
  lemma FailedWithoutTrace(s: TableState, schema: Schema, command: TableCommand, clock: Clock, o: Outcome)
    requires Effect(s, schema, command, clock, o) && o.error.Some?
    ensures o.state == s <==> NothingToRecord(s, schema, command)
  {
    hide InsertRows, Settled, UpdateSweep, DeleteSweep, Positions, Reverts, Placed, Rejected, Indexes, Shaped,
      UpdatesNone, DeletesNone;
    match command
    case InsertValues(columns, inputs) => {
      if Positions(schema, columns).Ok? {
        var positions := Positions(schema, columns).value;
        if inputs == [] {
          NoInputs(s, schema, positions, clock);
        } else {
          InsertGrows(s, schema, positions, inputs, clock);
        }
      }
    }
    case UpdateRows(where, assignments) => {
      FailedSweep(s, schema, UpdateSweep(s.rows, schema, where, assignments), clock);
      SweepsRecord(s.rows, schema, where, assignments);
    }
    case DeleteRows(where) => {
      FailedSweep(s, schema, DeleteSweep(s.rows, schema, where), clock);
      SweepsRecord(s.rows, schema, where, []);
    }
    case RevertTable(mode) =>
      var rows, cs :| Reverts(s, schema, mode, clock, rows, cs, o);
      FailedRevert(s, schema, mode, clock, rows, cs, o);
  }

  // ---------- which statements fail ----------

  /** What stops a statement after its sweep, or in it. */
  predicate CannotSettle(sweep: Sweep, schema: Schema) {
    sweep.error.Some? || !CanRebuild(sweep.rows, schema)
  }

  const ANY_CLOCK: Clock := _ => 0

  /** The statement fails on this table: an INSERT at an unknown column or a rejected row, an UPDATE or DELETE in its
      sweep or for a NULL or a duplicate that it leaves, a REVERT without a target, with rows of another shape, or to
      rows that can not be indexed. */
  ghost predicate Fails(s: TableState, schema: Schema, command: TableCommand) {
    match command
    case InsertValues(columns, inputs) =>
      s.indexes.Keys == Indexes(schema) && WellFormed(command)
        && Inserted(s, schema, columns, inputs, ANY_CLOCK).error.Some?
    case UpdateRows(where, assignments) =>
      Shaped(s.rows, schema) && CannotSettle(UpdateSweep(s.rows, schema, where, assignments), schema)
    case DeleteRows(where) => Shaped(s.rows, schema) && CannotSettle(DeleteSweep(s.rows, schema, where), schema)
    case RevertTable(mode) =>
      mode.Malformed? ||
      match TargetTime(s.history, mode)
      case None => true
      case Some(t) =>
        var past := Replay(s.history, t);
        Misshapen(past, schema) || exists rows :: Lists(rows, past) && !CanRebuild(rows, schema)
  }

  lemma RevertFailsExactly(s: TableState, schema: Schema, mode: Mode, clock: Clock, rows: seq<Row>, cs: seq<Change>,
                           o: Outcome)
    requires Reverts(s, schema, mode, clock, rows, cs, o)
    ensures o.error.Some? <==> Fails(s, schema, RevertTable(mode))
  {
    hide RowMap, Replay, IsDelta, Shaped, Misshapen, CanRebuild, Rebuilt, Recorded;
    if !mode.Malformed? && TargetTime(s.history, mode).Some? {
      ShapedOrNot(rows, schema);
      var past := Replay(s.history, TargetTime(s.history, mode).value);
      forall other | Lists(other, past) ensures other == rows { ListsUnique(other, rows); }
    }
  }

  /** Whether a statement fails is decided by the table alone. */
  lemma FailsExactly(s: TableState, schema: Schema, command: TableCommand, clock: Clock, o: Outcome)
    requires Effect(s, schema, command, clock, o)
    ensures o.error.Some? <==> Fails(s, schema, command)
  {
    hide Inserted, UpdateSweep, DeleteSweep, Reverts, CanRebuild, Rebuilt, Recorded, SameNews, Indexes, Shaped;
    match command
    case InsertValues(columns, inputs) =>
      var p := Inserted(s, schema, columns, inputs, ANY_CLOCK);
      assert Effect(s, schema, command, ANY_CLOCK, p);
      EffectAlike(s, s, schema, command, clock, ANY_CLOCK, o, p);
    case RevertTable(mode) =>
      var rows, cs :| Reverts(s, schema, mode, clock, rows, cs, o);
      RevertFailsExactly(s, schema, mode, clock, rows, cs, o);
    case _ =>
  }

  lemma NoInputs(s: TableState, schema: Schema, positions: seq<nat>, clock: Clock)
    requires s.indexes.Keys == Indexes(schema) && forall i :: 0 <= i < |positions| ==> positions[i] < |schema|
    ensures InsertRows(s, schema, positions, [], clock) == Outcome(s, None)
  {
  }

  // ---------- an INSERT that fails after its first row ----------

  /** One indexed column. */
  function OneColumnOf(t: ValueType): Schema {
    [Column("k", t, Indexed, None)]
  }

  const ONE_COLUMN := OneColumnOf(IntType)

  const NO_ROWS := TableState([], 0, map["k" := map[]], [])

  const TWICE_ONE := InsertValues(["k"], [[Literal(Int(1))], [Literal(Int(1))]])

  function FirstRow(v: Value): Row {
    Row(0, [v])
  }

  lemma OneColumn(t: ValueType, v: Value)
    requires TypeOf(v) == t != NullType
    ensures Indexes(OneColumnOf(t)) == {"k"} && ColumnOf(OneColumnOf(t), "k") == 0 && TypeAt(OneColumnOf(t), "k") == t
    ensures Positions(OneColumnOf(t), ["k"]) == Ok([0])
    ensures Validated([v], OneColumnOf(t)) == Ok([v])
    ensures Placed(OneColumnOf(t), [0], [Literal(v)]) == Ok([v])
  {
    var schema := OneColumnOf(t);
    var names: seq<string> := ["k"];
    assert FindColumnIndex(schema, "k") == Some(0);
    assert names[..0] == [] && [Literal(v)][..0] == [];
    assert Positions(schema, []) == Ok([]);
    var nulls := Placed(schema, [0], []).value;
    assert nulls == [Null] && Placed(schema, [0], []) == Ok(nulls);
    assert [Null][0 := v] == [v] && [] + [0] == [0];
    var values: seq<Value> := [v];
    assert values[..0] == [] && schema[..0] == [] && Validated([], []) == Ok([]) && [] + values == values;
    assert schema[0].constraint == Indexed;
  }

  /** A value is inserted into the empty table. */
  lemma FirstInserted(t: ValueType, v: Value, clock: Clock)
    requires TypeOf(v) == t != NullType
    ensures NO_ROWS.indexes.Keys == Indexes(OneColumnOf(t)) && Indexable(FirstRow(v), OneColumnOf(t))
    ensures InsertRows(NO_ROWS, OneColumnOf(t), [0], [[Literal(v)]], clock)
      == Outcome(Added(NO_ROWS, OneColumnOf(t), FirstRow(v), clock), None)
  {
    hide Validated, Placed, Positions, Recorded, FindColumnIndex, EncodeIndexKey;
    OneColumn(t, v);
    var inputs: seq<seq<Expr>> := [[Literal(v)]];
    assert inputs[..0] == [];
    NoInputs(NO_ROWS, OneColumnOf(t), [0], clock);
    assert Typed(FirstRow(v), 0, t);
    assert InsertOne(NO_ROWS, OneColumnOf(t), [v], clock) == Ok(Added(NO_ROWS, OneColumnOf(t), FirstRow(v), clock));
  }

  /** The row 1 is inserted into the empty table and turned down the second time. */
  lemma FirstThenRejected(clock: Clock)
    ensures NO_ROWS.indexes.Keys == Indexes(ONE_COLUMN) && WellFormed(TWICE_ONE)
    ensures Indexable(FirstRow(Int(1)), ONE_COLUMN)
    ensures Inserted(NO_ROWS, ONE_COLUMN, TWICE_ONE.columns, TWICE_ONE.inputs, clock)
         == Outcome(Added(NO_ROWS, ONE_COLUMN, FirstRow(Int(1)), clock), Some(ConstraintViolation))
  {
    hide Validated, Placed, Positions, Recorded, FindColumnIndex, EncodeIndexKey;
    OneColumn(IntType, Int(1));
    FirstInserted(IntType, Int(1), clock);
    var inputs: seq<seq<Expr>> := TWICE_ONE.inputs;
    assert inputs[..1] == [[Literal(Int(1))]];
    var first, again, after := FirstRow(Int(1)), Row(1, [Int(1)]), Added(NO_ROWS, ONE_COLUMN, FirstRow(Int(1)), clock);
    assert Typed(again, 0, IntType);
    assert IndexKey(again, ONE_COLUMN, "k") == IndexKey(first, ONE_COLUMN, "k");
    assert AddRow([], 0) == [0];
    assert MapFind(after.indexes["k"], IndexKey(again, ONE_COLUMN, "k")) == [0];
    assert KeyTaken(after, ONE_COLUMN, again);
  }

  lemma NoRowsIntact()
    ensures Intact(NO_ROWS, ONE_COLUMN)
  {
    hide FindColumnIndex, Agrees, Conforms, Validated, Placed, Positions;
    OneColumn(IntType, Int(1));
    AgreesEmpty(0, IntType);
  }

  lemma AddedOne(t: ValueType, v: Value, clock: Clock)
    requires NO_ROWS.indexes.Keys == Indexes(OneColumnOf(t)) && Indexable(FirstRow(v), OneColumnOf(t))
    ensures var after := Added(NO_ROWS, OneColumnOf(t), FirstRow(v), clock);
      after.rows == [FirstRow(v)] && |after.history| == 1
  {
    assert NO_ROWS.rows + [FirstRow(v)] == [FirstRow(v)];
  }
}
