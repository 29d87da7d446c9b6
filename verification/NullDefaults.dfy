/** DEFAULT NULL means the same as no default: no statement has another outcome, and no request another answer, if every
    default of NULL is forgotten. */
module NullDefaults {
  import opened Wrappers
  import opened Values
  import opened Predicates
  import opened SortedMap
  import opened TableIndex
  import opened History
  import opened TableStatements
  import opened TableChanges
  import opened TableRevert
  import opened TableEffects
  import opened TableStore
  import opened Databases
  import opened WriteAheadLog
  import opened Transactions
  import opened RecordFields
  import opened StateFile

  // ---------- statements ----------

  /** Schemas that differ in defaults of NULL only. */
  predicate Twins(a: Schema, b: Schema) {
    |a| == |b| && forall i :: 0 <= i < |a| ==> Normal(a[i]) == Normal(b[i])
  }

  lemma NormalTwins(schema: Schema)
    ensures Twins(schema, NormalSchema(schema))
  {
  }

  lemma TwinColumn(a: Schema, b: Schema, i: nat)
    requires Twins(a, b) && i < |a|
    ensures a[i].name == b[i].name && a[i].typ == b[i].typ && a[i].constraint == b[i].constraint
    ensures a[i].default == b[i].default || (a[i].default in {None, Some(Null)} && b[i].default in {None, Some(Null)})
  {
    assert Normal(a[i]) == Normal(b[i]);
  }

  lemma {:induction false} TwinFind(a: Schema, b: Schema, name: string)
    requires Twins(a, b)
    ensures FindColumnIndex(a, name) == FindColumnIndex(b, name)
    decreases |a|
  {
    hide Normal;
    if a != [] {
      TwinColumn(a, b, 0);
      TwinFind(a[1..], b[1..], name);
    }
  }

  lemma TwinValue(e: Expr, a: Schema, b: Schema, row: Row)
    requires Twins(a, b) && |row.values| == |a|
    ensures EvaluateValue(e, a, row) == EvaluateValue(e, b, row)
  {
    hide FindColumnIndex, Twins;
    if e.ColumnRef? { TwinFind(a, b, e.name); }
  }

  lemma {:induction false} TwinPredicate(e: Expr, a: Schema, b: Schema, row: Row)
    requires Twins(a, b) && |row.values| == |a|
    ensures EvaluatePredicate(e, a, row) == EvaluatePredicate(e, b, row)
    decreases e
  {
    hide EvaluateValue, Twins;
    match e
    case Logical(_, left, right) =>
      TwinPredicate(left, a, b, row);
      TwinPredicate(right, a, b, row);
    case Compare(_, left, right) =>
      TwinValue(left, a, b, row);
      TwinValue(right, a, b, row);
    case Between(subject, lower, upper) =>
      TwinValue(subject, a, b, row);
      TwinValue(lower, a, b, row);
      TwinValue(upper, a, b, row);
    case _ => TwinValue(e, a, b, row);
  }

  lemma TwinPasses(where: Option<Expr>, a: Schema, b: Schema, row: Row)
    requires Twins(a, b) && |row.values| == |a|
    ensures Passes(where, a, row) == Passes(where, b, row)
  {
    hide EvaluatePredicate, Twins;
    if where.Some? { TwinPredicate(where.value, a, b, row); }
  }

  /** A filter answers the same rows, and fails alike. */
  lemma {:induction false} ScanIgnoresNullDefaults(rows: seq<Row>, where: Option<Expr>, a: Schema, b: Schema)
    requires Twins(a, b) && Shaped(rows, a) && |a| == |b|
    ensures Scan(rows, where, a) == Scan(rows, where, b)
  {
    hide Passes, Twins;
    if rows != [] {
      var n := |rows| - 1;
      ScanIgnoresNullDefaults(rows[..n], where, a, b);
      TwinPasses(where, a, b, rows[n]);
    }
  }

  /** NULL is left a NULL whether its column declares it or declares nothing. */
  lemma {:induction false} TwinValidated(values: seq<Value>, a: Schema, b: Schema)
    requires Twins(a, b) && |values| == |a|
    ensures Validated(values, a) == Validated(values, b)
    decreases |a|
  {
    hide Normal;
    if a != [] {
      var n := |a| - 1;
      TwinValidated(values[..n], a[..n], b[..n]);
      TwinColumn(a, b, n);
    }
  }

  lemma TwinIndexes(a: Schema, b: Schema)
    requires Twins(a, b)
    ensures Indexes(a) == Indexes(b)
    ensures forall name :: name in Indexes(a) ==>
      ColumnOf(a, name) == ColumnOf(b, name) && TypeAt(a, name) == TypeAt(b, name)
  {
    hide Normal, FindColumnIndex, Twins;
    TwinLength(a, b);
    forall i | 0 <= i < |a|
      ensures a[i].name == b[i].name && a[i].constraint == b[i].constraint && a[i].typ == b[i].typ
    {
      TwinColumn(a, b, i);
    }
    forall name | name in Indexes(a) ensures name in Indexes(b) && ColumnOf(a, name) == ColumnOf(b, name) {
      var i :| 0 <= i < |a| && a[i].constraint == Indexed && a[i].name == name;
      assert b[i].constraint == Indexed && b[i].name == name;
      TwinFind(a, b, name);
    }
    forall name | name in Indexes(b) ensures name in Indexes(a) {
      var i :| 0 <= i < |b| && b[i].constraint == Indexed && b[i].name == name;
      assert a[i].constraint == Indexed && a[i].name == name;
    }
  }

  lemma TwinLength(a: Schema, b: Schema)
    requires Twins(a, b)
    ensures |a| == |b|
  {
  }

  lemma {:induction false} TwinPositions(a: Schema, b: Schema, names: seq<string>)
    requires Twins(a, b)
    ensures Positions(a, names) == Positions(b, names)
  {
    hide FindColumnIndex, Twins;
    if names != [] {
      var n := |names| - 1;
      TwinPositions(a, b, names[..n]);
      TwinFind(a, b, names[n]);
    }
  }

  lemma {:induction false} TwinPlaced(a: Schema, b: Schema, positions: seq<nat>, input: seq<Expr>)
    requires |a| == |b| && |input| <= |positions| && forall i :: 0 <= i < |positions| ==> positions[i] < |a|
    ensures Placed(a, positions, input) == Placed(b, positions, input)
  {
    if input != [] { TwinPlaced(a, b, positions, input[..|input| - 1]); }
  }

  lemma TwinInsertOne(s: TableState, a: Schema, b: Schema, values: seq<Value>, clock: Clock)
    requires Twins(a, b) && s.indexes.Keys == Indexes(a) == Indexes(b) && |values| == |a|
    ensures InsertOne(s, a, values, clock) == InsertOne(s, b, values, clock)
  {
    hide Twins, Indexes, ColumnOf, TypeAt, KeyOf, MapInsert, MapFind, Validated, Recorded;
    TwinLength(a, b);
    TwinIndexes(a, b);
    TwinValidated(values, a, b);
    if Validated(values, a).Ok? {
      var row := Row(s.next, Validated(values, a).value);
      ConformingIsIndexable(row, a);
      ConformingIsIndexable(row, b);
      if NoIndexedNull(row, a) {
        forall name | name in Indexes(a) ensures IndexKey(row, a, name) == IndexKey(row, b, name) {}
        assert Added(s, a, row, clock).indexes == Added(s, b, row, clock).indexes;
      }
    }
  }

  lemma {:induction false} TwinInsertRows(s: TableState, a: Schema, b: Schema, positions: seq<nat>,
                                          inputs: seq<seq<Expr>>, clock: Clock)
    requires Twins(a, b) && s.indexes.Keys == Indexes(a) == Indexes(b) && |a| == |b|
    requires forall i :: 0 <= i < |positions| ==> positions[i] < |a|
    requires forall i :: 0 <= i < |inputs| ==> |inputs[i]| <= |positions|
    ensures InsertRows(s, a, positions, inputs, clock) == InsertRows(s, b, positions, inputs, clock)
  {
    hide Twins, Indexes, Placed, InsertOne;
    if inputs != [] {
      var n := |inputs| - 1;
      TwinInsertRows(s, a, b, positions, inputs[..n], clock);
      TwinPlaced(a, b, positions, inputs[n]);
      var before := InsertRows(s, a, positions, inputs[..n], clock);
      if before.error.None? && Placed(a, positions, inputs[n]).Ok? {
        TwinInsertOne(before.state, a, b, Placed(a, positions, inputs[n]).value, clock);
      }
    }
  }

  lemma {:induction false} TwinAssigned(row: Row, a: Schema, b: Schema, assignments: seq<Assignment>)
    requires Twins(a, b) && |row.values| == |a| == |b|
    ensures Assigned(row, a, assignments) == Assigned(row, b, assignments)
  {
    hide Twins, FindColumnIndex, EvaluateValue;
    if assignments != [] {
      var n := |assignments| - 1;
      TwinAssigned(row, a, b, assignments[..n]);
      TwinFind(a, b, assignments[n].column);
      if Assigned(row, a, assignments[..n]).Ok? {
        TwinValue(assignments[n].value, a, b, Assigned(row, a, assignments[..n]).value);
      }
    }
  }

  lemma TwinUpdated(row: Row, a: Schema, b: Schema, where: Option<Expr>, assignments: seq<Assignment>)
    requires Twins(a, b) && |row.values| == |a| == |b|
    ensures Updated(row, a, where, assignments) == Updated(row, b, where, assignments)
  {
    hide Twins, Passes, Assigned, Validated;
    TwinPasses(where, a, b, row);
    TwinAssigned(row, a, b, assignments);
    if Assigned(row, a, assignments).Ok? { TwinValidated(Assigned(row, a, assignments).value.values, a, b); }
  }

  lemma {:induction false} TwinSweeps(rows: seq<Row>, a: Schema, b: Schema, where: Option<Expr>,
                                      assignments: seq<Assignment>)
    requires Twins(a, b) && |a| == |b| && Shaped(rows, a)
    ensures UpdateSweep(rows, a, where, assignments) == UpdateSweep(rows, b, where, assignments)
    ensures DeleteSweep(rows, a, where) == DeleteSweep(rows, b, where)
  {
    hide Twins, Updated, Passes;
    if rows != [] {
      var n := |rows| - 1;
      TwinSweeps(rows[..n], a, b, where, assignments);
      TwinUpdated(rows[n], a, b, where, assignments);
      TwinPasses(where, a, b, rows[n]);
    }
  }

  lemma TwinRebuild(rows: seq<Row>, a: Schema, b: Schema)
    requires Twins(a, b)
    ensures CanRebuild(rows, a) == CanRebuild(rows, b)
    ensures AllIndexable(rows, a) ==> AllIndexable(rows, b) && Rebuilt(rows, a) == Rebuilt(rows, b)
  {
    hide Twins, Indexes, ColumnOf, TypeAt, KeyOf, BuildIndex, DistinctKeys;
    TwinLength(a, b);
    TwinIndexes(a, b);
    forall i | 0 <= i < |rows| ensures Indexable(rows[i], a) == Indexable(rows[i], b) {}
  }

  lemma TwinSettled(s: TableState, a: Schema, b: Schema, sweep: Sweep, clock: Clock)
    requires Twins(a, b)
    ensures Settled(s, a, sweep, clock) == Settled(s, b, sweep, clock)
  {
    hide Twins, CanRebuild, Rebuilt, Recorded;
    TwinRebuild(sweep.rows, a, b);
    if CanRebuild(sweep.rows, a) { RebuildIndexable(sweep.rows, a); }
  }

  lemma RebuildIndexable(rows: seq<Row>, schema: Schema)
    requires CanRebuild(rows, schema)
    ensures AllIndexable(rows, schema)
  {
  }

  /** No statement has another outcome under a schema that differs in defaults of NULL only. */
  lemma EffectIgnoresNullDefaults(s: TableState, a: Schema, b: Schema, command: TableCommand, clock: Clock, o: Outcome)
    requires Twins(a, b) && Effect(s, a, command, clock, o)
    ensures Effect(s, b, command, clock, o)
  {
    hide Twins, Indexes, InsertRows, Positions, UpdateSweep, DeleteSweep, Settled, RowMap, Replay;
    TwinLength(a, b);
    TwinIndexes(a, b);
    match command
    case InsertValues(columns, inputs) =>
      TwinPositions(a, b, columns);
      if Positions(a, columns).Ok? { TwinInsertRows(s, a, b, Positions(a, columns).value, inputs, clock); }
    case UpdateRows(where, assignments) =>
      TwinSweeps(s.rows, a, b, where, assignments);
      TwinSettled(s, a, b, UpdateSweep(s.rows, a, where, assignments), clock);
    case DeleteRows(where) =>
      TwinSweeps(s.rows, a, b, where, []);
      TwinSettled(s, a, b, DeleteSweep(s.rows, a, where), clock);
    case RevertTable(mode) =>
      var rows, cs :| Reverts(s, a, mode, clock, rows, cs, o);
      TwinSettled(s, a, b, Sweep(rows, cs, None), clock);
      assert Reverts(s, b, mode, clock, rows, cs, o);
  }

  // ---------- requests ----------

  /** The state with every default of NULL forgotten. */
  function Forgetful(x: Snapshot): (y: Snapshot)
    ensures y.tables.Keys == x.tables.Keys
  {
    x.(tables := map name | name in x.tables :: NormalImage(x.tables[name]))
  }

  lemma PerformsForgetful(x: Snapshot, current: string, c: Command, clock: Clock, y: Snapshot, error: Option<Error>,
                          current': string)
    requires Performs(x, current, c, clock, y, error, current')
    ensures Performs(Forgetful(x), current, c, clock, Forgetful(y), error, current')
  {
    hide Effect, NormalSchema;
    if c.Modify? {
      match Find(x, current, c.target)
      case Err(_) =>
      case Ok(name) =>
        NormalTwins(x.tables[name].schema);
        assert StateOf(Forgetful(x), name) == StateOf(x, name) && StateOf(Forgetful(y), name) == StateOf(y, name);
        EffectIgnoresNullDefaults(StateOf(x, name), x.tables[name].schema, NormalSchema(x.tables[name].schema),
          c.command, clock,
                                  Outcome(StateOf(y, name), error));
        assert OnlyTable(Forgetful(x), Forgetful(y), name);
    }
  }

  function ForgetfulTx(tx: OpenTx): OpenTx {
    tx.(working := Forgetful(tx.working))
  }

  function ForgetfulState(s: EngineState): EngineState {
    EngineState(Forgetful(s.shared), map key | key in s.open :: ForgetfulTx(s.open[key]),
                Disk(Forgetful(s.disk.saved), s.disk.wal))
  }

  function ForgetfulAnswer(a: Answer): Answer {
    a.(state := ForgetfulState(a.state))
  }

  lemma ForgetfulOpen(s: EngineState, key: string, tx: OpenTx)
    ensures ForgetfulState(s.(open := s.open[key := tx]))
      == ForgetfulState(s).(open := ForgetfulState(s).open[key := ForgetfulTx(tx)])
    ensures ForgetfulState(s.(open := s.open - {key})) == ForgetfulState(s).(open := ForgetfulState(s).open - {key})
  {
    hide Forgetful;
    var longer, shorter := s.open[key := tx], s.open - {key};
    assert (map k | k in longer :: ForgetfulTx(longer[k]))
      == (map k | k in s.open :: ForgetfulTx(s.open[k]))[key := ForgetfulTx(tx)];
    assert (map k | k in shorter :: ForgetfulTx(shorter[k])) == (map k | k in s.open :: ForgetfulTx(s.open[k])) - {key};
  }

  lemma InsideForgetful(s: EngineState, key: string, c: Command, i: Input, a: Answer)
    requires key in s.open && AnswersInside(s, key, c, i, a)
    ensures AnswersInside(ForgetfulState(s), key, c, i, ForgetfulAnswer(a))
  {
    hide Performs, Forgetful;
    if !IsService(c) && !c.Ddl? {
      PerformsForgetful(s.open[key].working, i.session.current, c, i.clock, a.state.open[key].working, a.error,
        a.current);
      ForgetfulOpen(s, key, a.state.open[key]);
    }
  }

  /** An engine that has forgotten the defaults of NULL gives the same answers. */
  lemma AnswersForgetful(parse: Parser, s: EngineState, i: Input, a: Answer)
    requires Answers(parse, s, i, a)
    ensures Answers(parse, ForgetfulState(s), i, ForgetfulAnswer(a))
  {
    hide Performs, Forgetful;
    var key := Key(i.session);
    match parse(i.sql)
    case Err(_) =>
    case Ok(Begin) =>
      if key !in s.open { ForgetfulOpen(s, key, OpenTx(s.shared, [])); }
    case Ok(Commit) =>
      if key in s.open { ForgetfulOpen(s, key, s.open[key]); }
    case Ok(Rollback) =>
      if key in s.open { ForgetfulOpen(s, key, s.open[key]); }
    case Ok(c) =>
      if key in s.open {
        InsideForgetful(s, key, c, i, a);
      } else {
        PerformsForgetful(s.shared, i.session.current, c, i.clock, a.state.shared, a.error, a.current);
      }
  }

  function ForgetfulRun(r: Run): (f: Run)
    ensures |f.states| == |r.states| && f.inputs == r.inputs && |f.answers| == |r.answers|
  {
    Run(seq(|r.states|, k requires 0 <= k < |r.states| => ForgetfulState(r.states[k])), r.inputs,
        seq(|r.answers|, k requires 0 <= k < |r.answers| => ForgetfulAnswer(r.answers[k])))
  }

  /** Any interleaving of sessions is answered alike by an engine that starts without the defaults of NULL. */
  lemma RunForgetful(parse: Parser, r: Run)
    requires r.Valid(parse)
    ensures ForgetfulRun(r).Valid(parse)
  {
    hide Answers, ForgetfulState;
    var f := ForgetfulRun(r);
    forall k | 0 <= k < |r.inputs| ensures f.Step(parse, k) {
      assert r.Step(parse, k);
      AnswersForgetful(parse, r.states[k], r.inputs[k], r.answers[k]);
    }
  }
}
