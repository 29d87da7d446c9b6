/** When statements on one table fail, with which error, and what they leave then, in terms of rows and values. */
module FailureMeaning {
  import opened Wrappers
  import opened Values
  import opened Predicates
  import opened ClauseMeaning
  import opened TableIndex
  import opened History
  import opened TableStatements
  import opened TableChanges
  import opened TableRevert
  import opened TableEffects
  import opened StatementMeaning

  // ---------- clauses ----------

  /** What is wrong with an operand: it names no column, or it is neither a literal nor a column. */
  ghost function OperandFaults(e: Expr, schema: Schema): seq<Error> {
    match e
    case Literal(_) => []
    case ColumnRef(name) => if Known(schema, name) then [] else [SemanticError]
    case _ => [NotImplemented]
  }

  /** What is wrong with a clause, from left to right. */
  ghost function Faults(e: Expr, schema: Schema, row: Row): seq<Error>
    requires |row.values| == |schema|
  {
    match e
    case Logical(_, left, right) => Faults(left, schema, row) + Faults(right, schema, row)
    case Compare(_, left, right) =>
      var operands := OperandFaults(left, schema) + OperandFaults(right, schema);
      if operands == [] && !Comparable(left, right, schema, row) then [TypeMismatch] else operands
    case Between(subject, lower, upper) =>
      if Comparable(subject, lower, schema, row) && Comparable(subject, upper, schema, row) then [] else [TypeMismatch]
    case _ => OperandFaults(e, schema)
  }

  lemma OperandFails(e: Expr, schema: Schema, row: Row)
    requires |row.values| == |schema|
    ensures EvaluateValue(e, schema, row).Ok? <==> OperandFaults(e, schema) == []
    ensures EvaluateValue(e, schema, row).Err? ==> EvaluateValue(e, schema, row).error == OperandFaults(e, schema)[0]
  {
    hide FindColumnIndex, Known;
    if e.ColumnRef? { FoundIfNamed(schema, e.name); }
  }

  /** A clause fails exactly if something is wrong with it, and then with the first thing that is. */
  lemma {:induction false} ClauseFails(e: Expr, schema: Schema, row: Row)
    requires |row.values| == |schema|
    ensures EvaluatePredicate(e, schema, row).Ok? <==> Faults(e, schema, row) == []
    ensures EvaluatePredicate(e, schema, row).Err? ==>
      EvaluatePredicate(e, schema, row).error == Faults(e, schema, row)[0]
  {
    hide EvaluateValue, OperandFaults, Comparable, CompareValues, Holds, Truthy;
    match e
    case Logical(connective, left, right) =>
      ClauseFails(left, schema, row);
      ClauseFails(right, schema, row);
    case Compare(op, left, right) =>
      OperandFails(left, schema, row);
      OperandFails(right, schema, row);
      PairMeans(Equal, left, right, schema, row);
    case Between(subject, lower, upper) =>
      PairMeans(Equal, subject, lower, schema, row);
      PairMeans(Equal, subject, upper, schema, row);
    case _ => OperandFails(e, schema, row);
  }

  // ---------- UPDATE ----------

  ghost function AssignmentFaults(a: Assignment, schema: Schema): seq<Error> {
    (if Known(schema, a.column) then [] else [SemanticError]) + OperandFaults(a.value, schema)
  }

  /** Assignments fail at the first one with something wrong. */
  lemma {:induction false} AssignedFails(row: Row, schema: Schema, assignments: seq<Assignment>, k: nat)
    requires |row.values| == |schema| && k < |assignments| && AssignmentFaults(assignments[k], schema) != []
    requires forall j :: 0 <= j < k ==> AssignmentFaults(assignments[j], schema) == []
    ensures Assigned(row, schema, assignments) == Err(AssignmentFaults(assignments[k], schema)[0])
  {
    hide EvaluateValue, OperandFaults, FindColumnIndex, Known;
    var n := |assignments| - 1;
    if k < n {
      AssignedFails(row, schema, assignments[..n], k);
    } else {
      AllAssigned(row, schema, assignments[..n]);
      var before := Assigned(row, schema, assignments[..n]).value;
      FoundIfNamed(schema, assignments[n].column);
      OperandFails(assignments[n].value, schema, before);
    }
  }

  lemma AllAssigned(row: Row, schema: Schema, assignments: seq<Assignment>)
    requires |row.values| == |schema|
    requires forall j :: 0 <= j < |assignments| ==> AssignmentFaults(assignments[j], schema) == []
    ensures Assigned(row, schema, assignments).Ok?
  {
    hide Known;
    AssignedIf(row, schema, assignments);
    forall j | 0 <= j < |assignments| ensures Assignable(assignments[j], schema) {
      assert AssignmentFaults(assignments[j], schema) == [];
    }
  }

  /** The run of the assignments is determined. */
  lemma {:induction false} RunIsAssigned(rs: seq<Row>, row: Row, schema: Schema, assignments: seq<Assignment>)
    requires |row.values| == |schema| && AssignRun(rs, row, schema, assignments)
    ensures Assigned(row, schema, assignments) == Ok(rs[|assignments|])
  {
    hide FirstNamed, StandsFor, EvaluateValue, FindColumnIndex;
    if assignments != [] {
      var n := |assignments| - 1;
      RunPrefix(rs, row, schema, assignments);
      RunIsAssigned(rs[..|rs| - 1], row, schema, assignments[..n]);
      var a, before, after := assignments[n], rs[n], rs[n + 1];
      assert OneAssigned(before, schema, a, after);
      var c, v :| 0 <= c < |schema| && FirstNamed(schema, a.column, c) && StandsFor(a.value, schema, before, v)
        && after == Row(before.id, before.values[c := v]);
      FoundIsFirst(schema, a.column, c);
      ValueMeans(a.value, schema, before);
    }
  }

  lemma RunPrefix(rs: seq<Row>, row: Row, schema: Schema, assignments: seq<Assignment>)
    requires |row.values| == |schema| && AssignRun(rs, row, schema, assignments) && assignments != []
    ensures AssignRun(rs[..|rs| - 1], row, schema, assignments[..|assignments| - 1])
  {
    hide OneAssigned;
  }

  /** The row can be updated: the clause can be evaluated, and is false or lets it become another row. */
  ghost predicate Updatable(row: Row, schema: Schema, where: Option<Expr>, assignments: seq<Assignment>)
    requires |row.values| == |schema|
  {
    Passes(where, schema, row).Ok?
    && (Passes(where, schema, row) == Ok(true) ==> exists row' :: NewRow(row, schema, assignments, row'))
  }

  /** What becomes of a row, and that it is the only one there is for it. */
  lemma UpdatedIff(row: Row, schema: Schema, where: Option<Expr>, assignments: seq<Assignment>)
    requires |row.values| == |schema|
    ensures Updated(row, schema, where, assignments).Ok? <==> Updatable(row, schema, where, assignments)
    ensures forall row' :: Passes(where, schema, row) == Ok(true) && NewRow(row, schema, assignments, row') ==>
      Updated(row, schema, where, assignments) == Ok(Some(row'))
  {
    hide Passes, Assigned, Validated, Filled, AllSuit, AssignRun;
    forall row' | Passes(where, schema, row) == Ok(true) && NewRow(row, schema, assignments, row')
      ensures Updated(row, schema, where, assignments) == Ok(Some(row'))
    {
      NewIsUpdated(row, schema, assignments, row');
    }
    if Updated(row, schema, where, assignments).Ok? { UpdatedMeans(row, schema, where, assignments); }
  }

  lemma NewIsUpdated(row: Row, schema: Schema, assignments: seq<Assignment>, row': Row)
    requires |row.values| == |schema| && NewRow(row, schema, assignments, row')
    ensures Assigned(row, schema, assignments).Ok?
    ensures Validated(Assigned(row, schema, assignments).value.values, schema) == Ok(row'.values) && row'.id == row.id
  {
    hide Assigned, Validated, Filled, AllSuit, OneAssigned;
    var rs: seq<Row> :|
      AssignRun(rs, row, schema, assignments) && row'.values == Filled(rs[|assignments|].values, schema);
    RunIsAssigned(rs, row, schema, assignments);
    ValidatedMeans(rs[|assignments|].values, schema);
  }

  /** The error of a row that cannot be updated: the clause's, or else that of the first assignment with something
      wrong, or else that a column cannot hold what it gets. */
  lemma UpdatedFails(row: Row, schema: Schema, where: Option<Expr>, assignments: seq<Assignment>)
    requires |row.values| == |schema| && !Updatable(row, schema, where, assignments)
    ensures var r := Updated(row, schema, where, assignments);
      r == Err(if where.Some? && Faults(where.value, schema, row) != [] then Faults(where.value, schema, row)[0]
               else if Assigned(row, schema, assignments).Err? then Assigned(row, schema, assignments).error
               else ConstraintViolation)
  {
    hide EvaluatePredicate, Faults, Assigned, Validated, Updatable;
    UpdatedIff(row, schema, where, assignments);
    if where.Some? { ClauseFails(where.value, schema, row); }
    if Assigned(row, schema, assignments).Ok? { ValidatedMeans(Assigned(row, schema, assignments).value.values, schema);
      }
  }

  /** A sweep stops at the first row that cannot be updated, having recorded the changes of the rows before it. */
  lemma {:induction false} UpdateSweepStops(rows: seq<Row>, schema: Schema, where: Option<Expr>,
                                            assignments: seq<Assignment>, i: nat)
    requires Shaped(rows, schema) && i < |rows| && Updated(rows[i], schema, where, assignments).Err?
    requires forall j :: 0 <= j < i ==> Updated(rows[j], schema, where, assignments).Ok?
    ensures UpdateSweep(rows, schema, where, assignments)
      == UpdateSweep(rows[..i], schema, where, assignments)
           .(error := Some(Updated(rows[i], schema, where, assignments).error))
    ensures UpdateSweep(rows[..i], schema, where, assignments).error.None?
  {
    hide Updated;
    var n := |rows| - 1;
    if i < n {
      assert rows[..n][..i] == rows[..i];
      UpdateSweepStops(rows[..n], schema, where, assignments, i);
    } else {
      UpdateSweepEnds(rows[..n], schema, where, assignments);
    }
  }

  lemma {:induction false} UpdateSweepEnds(rows: seq<Row>, schema: Schema, where: Option<Expr>,
                                           assignments: seq<Assignment>)
    requires Shaped(rows, schema) && forall j :: 0 <= j < |rows| ==> Updated(rows[j], schema, where, assignments).Ok?
    ensures UpdateSweep(rows, schema, where, assignments).error.None?
  {
    hide Updated;
    if rows != [] { UpdateSweepEnds(rows[..|rows| - 1], schema, where, assignments); }
  }

  /** An UPDATE that meets a row that cannot be updated fails with the error of the first such row and leaves rows, ids,
      counter and indexes as they are. */
  lemma UpdateStops(s: TableState, schema: Schema, where: Option<Expr>, assignments: seq<Assignment>, clock: Clock,
                    i: nat)
    requires Shaped(s.rows, schema) && i < |s.rows| && !Updatable(s.rows[i], schema, where, assignments)
    requires forall j :: 0 <= j < i ==> Updatable(s.rows[j], schema, where, assignments)
    ensures var o := Update(s, schema, where, assignments, clock);
      && o.error.Some? && Updated(s.rows[i], schema, where, assignments) == Err(o.error.value)
      && o.state.(history := s.history) == s
      && Records(s.history, o.state.history, UpdateSweep(s.rows[..i], schema, where, assignments).changes, clock)
  {
    hide Updated, Updatable, UpdateSweep, Recorded, Records, CanRebuild;
    forall j | 0 <= j <= i
      ensures Updated(s.rows[j], schema, where, assignments).Ok? <==> Updatable(s.rows[j], schema, where, assignments)
    {
      UpdatedIff(s.rows[j], schema, where, assignments);
    }
    UpdateSweepStops(s.rows, schema, where, assignments, i);
    RecordedMeans(s.history, UpdateSweep(s.rows[..i], schema, where, assignments).changes, clock);
  }

  /** `rows'` is what the rows become. */
  ghost predicate Become(rows: seq<Row>, schema: Schema, where: Option<Expr>, assignments: seq<Assignment>,
                         rows': seq<Row>)
    requires Shaped(rows, schema)
  {
    |rows'| == |rows| && forall i :: 0 <= i < |rows| ==> BecomesOne(rows[i], schema, where, assignments, rows'[i])
  }

  ghost predicate BecomesOne(row: Row, schema: Schema, where: Option<Expr>, assignments: seq<Assignment>, row': Row)
    requires |row.values| == |schema|
  {
    match Passes(where, schema, row)
    case Ok(true) => NewRow(row, schema, assignments, row')
    case Ok(false) => row' == row
    case Err(_) => false
  }

  lemma OneIsUpdated(row: Row, schema: Schema, where: Option<Expr>, assignments: seq<Assignment>, row': Row)
    requires |row.values| == |schema| && BecomesOne(row, schema, where, assignments, row')
    ensures var r := Updated(row, schema, where, assignments);
      r.Ok? && row' == if r.value.Some? then r.value.value else row
  {
    hide Passes, Assigned, Validated, NewRow;
    UpdatedIff(row, schema, where, assignments);
  }

  lemma {:induction false} BecomeIsSweep(rows: seq<Row>, schema: Schema, where: Option<Expr>,
                                         assignments: seq<Assignment>, rows': seq<Row>)
    requires Shaped(rows, schema) && Become(rows, schema, where, assignments, rows')
    ensures var sweep := UpdateSweep(rows, schema, where, assignments); sweep.error.None? && sweep.rows == rows'
  {
    hide Updated, BecomesOne;
    if rows != [] {
      var n := |rows| - 1;
      BecomeIsSweep(rows[..n], schema, where, assignments, rows'[..n]);
      OneIsUpdated(rows[n], schema, where, assignments, rows'[n]);
      assert rows' == rows'[..n] + [rows'[n]];
    }
  }

  /** An UPDATE all of whose rows can be updated succeeds exactly if no indexed column becomes NULL and no two rows come
      to share the value of one; then the table holds the new rows, and otherwise the old ones. */
  lemma UpdateEnds(s: TableState, schema: Schema, where: Option<Expr>, assignments: seq<Assignment>, clock: Clock,
                   rows': seq<Row>)
    requires AllConform(s.rows, schema) && Shaped(s.rows, schema) && Become(s.rows, schema, where, assignments, rows')
    ensures Shaped(rows', schema)
    ensures var o := Update(s, schema, where, assignments, clock);
      if (forall i :: 0 <= i < |rows'| ==> NoNullKey(rows'[i], schema))
         && (forall i, j :: 0 <= i < j < |rows'| ==> !Clash(rows'[i], rows'[j], schema))
      then o.error.None? && o.state.rows == rows'
      else o.error == Some(ConstraintViolation) && o.state.(history := s.history) == s
  {
    hide UpdateSweep, NoNullKey, Clash, Conforms, Rebuilt, Recorded, CanRebuild, Become;
    BecomeIsSweep(s.rows, schema, where, assignments, rows');
    UpdateSweepRows(s.rows, schema, where, assignments);
    ConformShaped(rows', schema);
    CanRebuildMeans(rows', schema);
  }

  // ---------- DELETE ----------

  lemma {:induction false} DeleteSweepStops(rows: seq<Row>, schema: Schema, where: Option<Expr>, i: nat)
    requires Shaped(rows, schema) && i < |rows| && Passes(where, schema, rows[i]).Err?
    requires forall j :: 0 <= j < i ==> Passes(where, schema, rows[j]).Ok?
    ensures DeleteSweep(rows, schema, where)
      == DeleteSweep(rows[..i], schema, where).(error := Some(Passes(where, schema, rows[i]).error))
  {
    hide Passes;
    var n := |rows| - 1;
    if i < n {
      assert rows[..n][..i] == rows[..i];
      DeleteSweepStops(rows[..n], schema, where, i);
    } else {
      DeleteSweepEnds(rows[..n], schema, where);
    }
  }

  lemma {:induction false} DeleteSweepEnds(rows: seq<Row>, schema: Schema, where: Option<Expr>)
    requires Shaped(rows, schema) && forall j :: 0 <= j < |rows| ==> Passes(where, schema, rows[j]).Ok?
    ensures DeleteSweep(rows, schema, where).error.None?
  {
    hide Passes;
    if rows != [] { DeleteSweepEnds(rows[..|rows| - 1], schema, where); }
  }

  /** Nothing is wrong with the clause on this row. */
  ghost predicate Faultless(where: Option<Expr>, schema: Schema, row: Row)
    requires |row.values| == |schema|
  {
    where.Some? ==> Faults(where.value, schema, row) == []
  }

  lemma PassesIfFaultless(where: Option<Expr>, schema: Schema, row: Row)
    requires |row.values| == |schema|
    ensures Passes(where, schema, row).Ok? <==> Faultless(where, schema, row)
    ensures !Faultless(where, schema, row) ==> Passes(where, schema, row) == Err(Faults(where.value, schema, row)[0])
  {
    hide EvaluatePredicate, Faults;
    if where.Some? { ClauseFails(where.value, schema, row); }
  }

  /** A DELETE fails at the first row with which something is wrong in the clause, and leaves rows, ids, counter and
      indexes as they are. */
  lemma DeleteStops(s: TableState, schema: Schema, where: Option<Expr>, clock: Clock, i: nat)
    requires Shaped(s.rows, schema) && i < |s.rows| && !Faultless(where, schema, s.rows[i])
    requires forall j :: 0 <= j < i ==> Faultless(where, schema, s.rows[j])
    ensures var o := Delete(s, schema, where, clock);
      && o.error == Some(Faults(where.value, schema, s.rows[i])[0]) && o.state.(history := s.history) == s
      && Records(s.history, o.state.history, DeleteSweep(s.rows[..i], schema, where).changes, clock)
  {
    hide Passes, Faults, DeleteSweep, Recorded, Records, CanRebuild;
    forall j | 0 <= j <= i
      ensures Passes(where, schema, s.rows[j]).Ok? <==> Faultless(where, schema, s.rows[j])
      ensures !Faultless(where, schema, s.rows[j]) ==>
        Passes(where, schema, s.rows[j]) == Err(Faults(where.value, schema, s.rows[j])[0])
    {
      PassesIfFaultless(where, schema, s.rows[j]);
    }
    DeleteSweepStops(s.rows, schema, where, i);
    RecordedMeans(s.history, DeleteSweep(s.rows[..i], schema, where).changes, clock);
  }

  /** Without such a row it succeeds. */
  lemma DeleteEnds(s: TableState, schema: Schema, where: Option<Expr>, clock: Clock)
    requires Consistent(s, schema) && Shaped(s.rows, schema)
    requires forall j :: 0 <= j < |s.rows| ==> Faultless(where, schema, s.rows[j])
    ensures Delete(s, schema, where, clock).error.None?
  {
    hide Passes, Faultless, Delete, DeleteSweep, Consistent, CanRebuild;
    forall j | 0 <= j < |s.rows| ensures Passes(where, schema, s.rows[j]).Ok? {
      PassesIfFaultless(where, schema, s.rows[j]);
    }
    DeleteSweepEnds(s.rows, schema, where);
    DeleteNeverConflicts(s, schema, where, clock);
  }

  // ---------- INSERT ----------

  /** An INSERT that names an unknown column does nothing else. */
  lemma UnknownColumnFails(s: TableState, schema: Schema, columns: seq<string>, inputs: seq<seq<Expr>>, clock: Clock)
    requires s.indexes.Keys == Indexes(schema) && forall i :: 0 <= i < |inputs| ==> |inputs[i]| <= |columns|
    requires exists k :: 0 <= k < |columns| && !Known(schema, columns[k])
    ensures Inserted(s, schema, columns, inputs, clock) == Outcome(s, Some(SemanticError))
  {
    hide Known, FirstNamed, InsertRows, Positions;
    PositionsMean(schema, columns);
    UnknownPosition(schema, columns);
  }

  lemma {:induction false} UnknownPosition(schema: Schema, columns: seq<string>)
    ensures Positions(schema, columns).Err? ==> Positions(schema, columns).error == SemanticError
  {
    if columns != [] { UnknownPosition(schema, columns[..|columns| - 1]); }
  }

  /** The table can take the row that an input row stands for. */
  ghost predicate Acceptable(s: TableState, schema: Schema, columns: seq<string>, input: seq<Expr>)
    requires |input| <= |columns| && Shaped(s.rows, schema)
  {
    exists values :: Stands(columns, input, schema, values) && Fits(s, schema, values)
  }

  ghost predicate Stands(columns: seq<string>, input: seq<Expr>, schema: Schema, values: seq<Value>)
    requires |input| <= |columns|
  {
    exists given :: Gives(columns, input, schema, given) && values == Filled(given, schema)
  }

  ghost predicate Fits(s: TableState, schema: Schema, values: seq<Value>)
    requires Shaped(s.rows, schema)
  {
    var row := Row(s.next, values);
    && AllSuit(values, schema) && NoNullKey(row, schema)
    && forall i :: 0 <= i < |s.rows| ==> !Clash(s.rows[i], row, schema)
  }

  /** What an input row gives is determined. */
  lemma GivesOne(columns: seq<string>, input: seq<Expr>, schema: Schema, given: seq<Value>, given': seq<Value>)
    requires |input| <= |columns| && Gives(columns, input, schema, given) && Gives(columns, input, schema, given')
    ensures given == given'
  {
    hide LastNamed;
    forall c | 0 <= c < |schema| ensures given[c] == given'[c] {
      match LastNamed(columns, |input|, schema, c)
      case None =>
      case Some(k) => assert Literal(given[c]) == Literal(given'[c]);
    }
  }

  lemma OneInsertable(s: TableState, schema: Schema, columns: seq<string>, input: seq<Expr>, clock: Clock)
    requires IndexesAgree(s, schema) && Shaped(s.rows, schema) && Positions(schema, columns).Ok? && |input| <= |columns|
    requires Placed(schema, Positions(schema, columns).value, input).Ok?
    ensures var r := InsertOne(s, schema, Placed(schema, Positions(schema, columns).value, input).value, clock);
      && (r.Ok? <==> Acceptable(s, schema, columns, input))
      && (r.Err? ==> r.error == ConstraintViolation)
  {
    hide Placed, Positions, LastNamed, Filled, Fits, Added, KeyTaken, NoIndexedNull, IndexesAgree, Indexes;
    var given := Placed(schema, Positions(schema, columns).value, input).value;
    PlacedMeans(schema, columns, input);
    FitsMeans(s, schema, given, clock);
    assert Stands(columns, input, schema, Filled(given, schema));
    forall values | Stands(columns, input, schema, values) ensures values == Filled(given, schema) {
      var given' :| Gives(columns, input, schema, given') && values == Filled(given', schema);
      GivesOne(columns, input, schema, given, given');
    }
  }

  lemma FitsMeans(s: TableState, schema: Schema, given: seq<Value>, clock: Clock)
    requires IndexesAgree(s, schema) && Shaped(s.rows, schema) && |given| == |schema|
    ensures var r := InsertOne(s, schema, given, clock);
      && (r.Ok? <==> Fits(s, schema, Filled(given, schema)))
      && (r.Err? ==> r.error == ConstraintViolation)
  {
    hide Filled, AllSuit, NoNullKey, Clash, Validated, NoIndexedNull, Indexes, Added, KeyTaken, IndexesAgree;
    InsertOneMeans(s, schema, given, clock);
    ValidatedMeans(given, schema);
  }

  /** An INSERT that fails does so at an input row that has something else than literals, or that the table as the input
      rows before it have left it cannot take; these stay. */
  lemma {:induction false} InsertStops(s: TableState, schema: Schema, columns: seq<string>, inputs: seq<seq<Expr>>,
                                       clock: Clock) returns (k: nat)
    requires Intact(s, schema) && s.indexes.Keys == Indexes(schema) && Positions(schema, columns).Ok?
    requires forall i :: 0 <= i < |inputs| ==> |inputs[i]| <= |columns|
    requires Inserted(s, schema, columns, inputs, clock).error.Some?
    ensures k < |inputs|
    ensures var o := Inserted(s, schema, columns, inputs, clock);
      && Shaped(o.state.rows, schema) && Inserted(s, schema, columns, inputs[..k], clock) == Outcome(o.state, None)
      && if exists i :: 0 <= i < |inputs[k]| && !inputs[k][i].Literal? then o.error == Some(ValidationError)
         else o.error == Some(ConstraintViolation) && !Acceptable(o.state, schema, columns, inputs[k])
  {
    hide Placed, InsertOne, Positions, Acceptable, Indexes, Intact, IndexesAgree, AllConform;
    var positions, n := Positions(schema, columns).value, |inputs| - 1;
    var before := InsertRows(s, schema, positions, inputs[..n], clock);
    InsertIntact(s, schema, columns, inputs, clock);
    IntactShape(InsertRows(s, schema, positions, inputs, clock).state, schema);
    if before.error.Some? {
      k := InsertStops(s, schema, columns, inputs[..n], clock);
      assert inputs[..n][..k] == inputs[..k] && inputs[..n][k] == inputs[k];
    } else {
      k := n;
      InsertIntact(s, schema, columns, inputs[..n], clock);
      IntactShape(before.state, schema);
      PlacedMeans(schema, columns, inputs[n]);
      if Placed(schema, positions, inputs[n]).Ok? {
        OneInsertable(before.state, schema, columns, inputs[n], clock);
      } else {
        NotPlaced(schema, positions, inputs[n]);
      }
    }
  }

  lemma IntactShape(s: TableState, schema: Schema)
    requires Intact(s, schema)
    ensures IndexesAgree(s, schema) && Shaped(s.rows, schema)
  {
    hide IndexesAgree, Conforms;
    ConformShaped(s.rows, schema);
  }

  lemma {:induction false} NotPlaced(schema: Schema, positions: seq<nat>, input: seq<Expr>)
    requires |input| <= |positions| && forall i :: 0 <= i < |positions| ==> positions[i] < |schema|
    ensures Placed(schema, positions, input).Err? ==> Placed(schema, positions, input).error == ValidationError
  {
    if input != [] { NotPlaced(schema, positions, input[..|input| - 1]); }
  }

  // ---------- REVERT ----------

  /** A REVERT with nothing to go back to, or to a past whose rows have another number of columns, leaves everything as
      it is; otherwise it fails only if the past rows have a NULL or a repetition in an indexed column, and leaves rows,
      ids, counter and indexes as they are. */
  lemma RevertFails(s: TableState, schema: Schema, mode: Mode, clock: Clock, rows: seq<Row>, cs: seq<Change>,
                    o: Outcome)
    requires Reverts(s, schema, mode, clock, rows, cs, o)
    ensures o.error == Some(NotFound) <==> !mode.Malformed? && TargetTime(s.history, mode).None?
    ensures mode.Malformed? ==> o.error == Some(ValidationError)
    ensures o.error in {Some(NotFound), Some(ValidationError)} ==> o.state == s
    ensures o.error.Some? ==>
      o.error.value in {NotFound, ValidationError, ConstraintViolation} && o.state.(history := s.history) == s
    ensures !mode.Malformed? && TargetTime(s.history, mode).Some? ==>
      && (o.error == Some(ValidationError) <==> !Shaped(rows, schema))
      && (o.error == Some(ConstraintViolation) <==> Shaped(rows, schema) && !CanRebuild(rows, schema))
  {
    hide Recorded, CanRebuild, Rebuilt, Shaped, Replay, Lists;
  }
}
