/** What INSERT, UPDATE and DELETE do to the rows of a table, in terms of the rows and values themselves. */
module StatementMeaning {
  import opened Wrappers
  import opened Values
  import opened Predicates
  import opened ClauseMeaning
  import opened SortedMap
  import opened TableIndex
  import opened History
  import opened TableStatements
  import opened TableChanges

  // ---------- columns and their values ----------

  /** A column can hold the value: NULL only if it is neither NOT NULL nor indexed, otherwise a value of its type. */
  predicate Suits(v: Value, column: Column) {
    (v == Null && column.constraint != NotNull && column.constraint != Indexed)
      || (v != Null && TypeOf(v) == column.typ)
  }

  predicate AllSuit(values: seq<Value>, schema: Schema) {
    |values| == |schema| && forall c :: 0 <= c < |schema| ==> Suits(values[c], schema[c])
  }

  /** The values with defaults in place of NULLs. */
  function Filled(given: seq<Value>, schema: Schema): seq<Value>
    requires |given| == |schema|
  {
    seq(|schema|, c requires 0 <= c < |schema| =>
      if given[c] == Null && schema[c].default.Some? then schema[c].default.value else given[c])
  }

  lemma ConformsMeans(row: Row, schema: Schema)
    ensures Conforms(row, schema) <==> AllSuit(row.values, schema)
  {
    if |row.values| == |schema| {
      forall c | 0 <= c < |schema|
        ensures CanAssign(row.values[c], schema[c]) <==> Suits(row.values[c], schema[c])
      {}
    }
  }

  /** Validation fills in the defaults, and succeeds exactly if every column can hold what it gets then. */
  lemma {:induction false} ValidatedMeans(given: seq<Value>, schema: Schema)
    requires |given| == |schema|
    ensures Validated(given, schema) ==
      if AllSuit(Filled(given, schema), schema) then Ok(Filled(given, schema)) else Err(ConstraintViolation)
  {
    hide Suits, AllSuit, Filled;
    if schema == [] {
      NothingFilled();
    } else {
      var n := |schema| - 1;
      ValidatedMeans(given[..n], schema[..n]);
      FilledMore(given, schema);
    }
  }

  lemma NothingFilled()
    ensures Filled([], []) == [] && AllSuit([], [])
  {
  }

  lemma FilledMore(given: seq<Value>, schema: Schema)
    requires |given| == |schema| && schema != []
    ensures var n := |schema| - 1;
      var v := if given[n].Null? && schema[n].default.Some? then schema[n].default.value else given[n];
      && Filled(given, schema) == Filled(given[..n], schema[..n]) + [v]
      && (AllSuit(Filled(given, schema), schema) <==>
            AllSuit(Filled(given[..n], schema[..n]), schema[..n]) && CanAssign(v, schema[n]))
  {
    var n := |schema| - 1;
    var all, first := Filled(given, schema), Filled(given[..n], schema[..n]);
    assert Suits(all[n], schema[n]) <==> CanAssign(all[n], schema[n]);
    hide Suits;
    if AllSuit(first, schema[..n]) && Suits(all[n], schema[n]) {
      forall c | 0 <= c < |schema| ensures Suits(all[c], schema[c]) {
        if c < n { assert first[c] == all[c] && schema[..n][c] == schema[c]; }
      }
    }
  }

  // ---------- UPDATE ----------

  /** The row after each assignment: every one sets its column to what its expression stands for on the row before
      it. */
  ghost predicate AssignRun(rs: seq<Row>, row: Row, schema: Schema, assignments: seq<Assignment>)
    requires |row.values| == |schema|
  {
    && |rs| == |assignments| + 1 && rs[0] == row && (forall k :: 0 <= k < |rs| ==> |rs[k].values| == |schema|)
    && forall k, n :: 0 <= k && n == k + 1 && n < |rs| ==> OneAssigned(rs[k], schema, assignments[k], rs[n])
  }

  ghost predicate OneAssigned(before: Row, schema: Schema, a: Assignment, after: Row)
    requires |before.values| == |schema|
  {
    exists c, v ::
      && 0 <= c < |schema| && FirstNamed(schema, a.column, c) && StandsFor(a.value, schema, before, v)
      && after == Row(before.id, before.values[c := v])
  }

  /** Assignments are possible if their columns exist and their expressions stand for values. */
  lemma {:induction false} AssignedMeans(row: Row, schema: Schema, assignments: seq<Assignment>) returns (rs: seq<Row>)
    requires |row.values| == |schema| && Assigned(row, schema, assignments).Ok?
    ensures |rs| == |assignments| + 1 && AssignRun(rs, row, schema, assignments)
    ensures Assigned(row, schema, assignments) == Ok(rs[|assignments|])
  {
    hide FirstNamed, StandsFor, EvaluateValue, FindColumnIndex;
    if assignments == [] {
      rs := [row];
    } else {
      var n := |assignments| - 1;
      var first := AssignedMeans(row, schema, assignments[..n]);
      var a, before, after := assignments[n], first[n], Assigned(row, schema, assignments).value;
      rs := first + [after];
      var c := FindColumnIndex(schema, a.column).value;
      FoundIsFirst(schema, a.column, c);
      ValueMeans(a.value, schema, before);
      assert OneAssigned(before, schema, a, after);
      assert before.id == row.id;
      AssignRunMore(first, row, schema, assignments, after);
    }
  }

  lemma AssignRunMore(rs: seq<Row>, row: Row, schema: Schema, assignments: seq<Assignment>, after: Row)
    requires |row.values| == |schema| && assignments != [] && |after.values| == |schema|
    requires AssignRun(rs, row, schema, assignments[..|assignments| - 1])
    requires OneAssigned(rs[|assignments| - 1], schema, assignments[|assignments| - 1], after)
    ensures AssignRun(rs + [after], row, schema, assignments)
  {
    hide OneAssigned;
  }

  /** The column is there, and the expression stands for a value, whatever the row. */
  ghost predicate Assignable(a: Assignment, schema: Schema) {
    Known(schema, a.column) && (a.value.Literal? || (a.value.ColumnRef? && Known(schema, a.value.name)))
  }

  /** Some column has the name. */
  ghost predicate Known(schema: Schema, name: string) {
    exists c :: 0 <= c < |schema| && FirstNamed(schema, name, c)
  }

  lemma FoundIfNamed(schema: Schema, name: string)
    ensures FindColumnIndex(schema, name).Some? <==> Known(schema, name)
  {
    hide FindColumnIndex, FirstNamed;
    var found := FindColumnIndex(schema, name);
    if found.Some? { FoundIsFirst(schema, name, found.value); }
    forall c | 0 <= c < |schema| && FirstNamed(schema, name, c)
      ensures found == Some(c) { FoundIsFirst(schema, name, c); }
  }

  lemma {:induction false} AssignedIf(row: Row, schema: Schema, assignments: seq<Assignment>)
    requires |row.values| == |schema|
    ensures Assigned(row, schema, assignments).Ok? <==>
      forall k :: 0 <= k < |assignments| ==> Assignable(assignments[k], schema)
  {
    hide FirstNamed, FindColumnIndex;
    if assignments != [] {
      var n := |assignments| - 1;
      AssignedIf(row, schema, assignments[..n]);
      var a := assignments[n];
      FoundIfNamed(schema, a.column);
      if a.value.ColumnRef? { FoundIfNamed(schema, a.value.name); }
      assert assignments == assignments[..n] + [a];
    }
  }

  predicate Names(a: Assignment, schema: Schema, c: nat)
    requires c < |schema|
  {
    FirstNamed(schema, a.column, c)
  }

  lemma StepKeeps(before: Row, schema: Schema, a: Assignment, after: Row, c: nat)
    requires |before.values| == |schema| && c < |schema| && OneAssigned(before, schema, a, after)
    ensures after.id == before.id && |after.values| == |schema|
    ensures if Names(a, schema, c) then StandsFor(a.value, schema, before, after.values[c])
      else after.values[c] == before.values[c]
  {
    hide StandsFor;
  }

  lemma {:induction false} Untouched(rs: seq<Row>, row: Row, schema: Schema, assignments: seq<Assignment>,
                                     c: nat, m: nat, n: nat)
    requires |row.values| == |schema| && c < |schema| && AssignRun(rs, row, schema, assignments)
    requires m <= n <= |assignments| && forall j :: m <= j < n ==> !Names(assignments[j], schema, c)
    ensures rs[n].id == rs[m].id && rs[n].values[c] == rs[m].values[c]
  {
    hide StandsFor, OneAssigned, Names;
    if m < n {
      Untouched(rs, row, schema, assignments, c, m, n - 1);
      StepKeeps(rs[n - 1], schema, assignments[n - 1], rs[n], c);
    }
  }

  /** A column has the value of the last assignment that names it, evaluated on the row as the ones before it have left
      it; a column that none names keeps its value. */
  lemma LastAssignmentCounts(rs: seq<Row>, row: Row, schema: Schema, assignments: seq<Assignment>, c: nat)
    requires |row.values| == |schema| && c < |schema| && AssignRun(rs, row, schema, assignments)
    ensures var n := |assignments|;
      && ((forall k :: 0 <= k < n ==> !Names(assignments[k], schema, c)) ==> rs[n].values[c] == row.values[c])
      && (forall k :: 0 <= k < n && Names(assignments[k], schema, c) && NoneNames(assignments[k + 1..], schema, c) ==>
            StandsFor(assignments[k].value, schema, rs[k], rs[n].values[c]))
  {
    hide StandsFor, OneAssigned, Names;
    var n := |assignments|;
    if forall k :: 0 <= k < n ==> !Names(assignments[k], schema, c) {
      Untouched(rs, row, schema, assignments, c, 0, n);
    }
    forall k | 0 <= k < n && Names(assignments[k], schema, c) && NoneNames(assignments[k + 1..], schema, c)
      ensures StandsFor(assignments[k].value, schema, rs[k], rs[n].values[c])
    {
      StepKeeps(rs[k], schema, assignments[k], rs[k + 1], c);
      var later := assignments[k + 1..];
      forall j | k < j < n ensures !Names(assignments[j], schema, c) { assert later[j - k - 1] == assignments[j]; }
      Untouched(rs, row, schema, assignments, c, k + 1, n);
    }
  }

  predicate NoneNames(assignments: seq<Assignment>, schema: Schema, c: nat)
    requires c < |schema|
  {
    forall k :: 0 <= k < |assignments| ==> !Names(assignments[k], schema, c)
  }

  /** What an UPDATE makes of a row that its clause is true of. */
  ghost predicate NewRow(row: Row, schema: Schema, assignments: seq<Assignment>, row': Row)
    requires |row.values| == |schema|
  {
    && row'.id == row.id && AllSuit(row'.values, schema)
    && exists rs: seq<Row> ::
      AssignRun(rs, row, schema, assignments) && row'.values == Filled(rs[|assignments|].values, schema)
  }

  lemma UpdatedMeans(row: Row, schema: Schema, where: Option<Expr>, assignments: seq<Assignment>)
    requires |row.values| == |schema| && Updated(row, schema, where, assignments).Ok?
    ensures var r := Updated(row, schema, where, assignments).value;
      && Passes(where, schema, row) == Ok(r.Some?)
      && (r.Some? ==> NewRow(row, schema, assignments, r.value))
  {
    hide Passes, Assigned, Validated, Filled, AllSuit, OneAssigned;
    if Passes(where, schema, row) == Ok(true) {
      var rs := AssignedMeans(row, schema, assignments);
      ValidatedMeans(rs[|assignments|].values, schema);
    }
  }

  /** The rows at these positions are replaced, and only they; each of them is recorded as it was and as it is. */
  ghost predicate Replaces(at: seq<nat>, rows: seq<Row>, schema: Schema, assignments: seq<Assignment>, rows': seq<Row>,
                           changes: seq<Change>)
    requires Shaped(rows, schema)
  {
    && |rows'| == |rows| && |changes| == |at|
    && (forall i :: 0 <= i < |at| ==> at[i] < |rows| && NewRow(rows[at[i]], schema, assignments, rows'[at[i]]))
    && (forall k {:trigger rows'[k]} :: 0 <= k < |rows| && k !in at ==> rows'[k] == rows[k])
    && (forall i :: 0 <= i < |at| ==> changes[i] == Change(UpdateRow, Some(rows[at[i]]), Some(rows'[at[i]])))
  }

  lemma ReplacesMore(at: seq<nat>, rows: seq<Row>, schema: Schema, assignments: seq<Assignment>, rows': seq<Row>,
                     changes: seq<Change>, row: Row, changed: bool)
    requires Shaped(rows, schema) && rows != []
    requires Replaces(at, rows[..|rows| - 1], schema, assignments, rows', changes)
    requires if changed then NewRow(rows[|rows| - 1], schema, assignments, row) else row == rows[|rows| - 1]
    ensures var n := |rows| - 1;
      if changed then Replaces(at + [n], rows, schema, assignments, rows' + [row],
                               changes + [Change(UpdateRow, Some(rows[n]), Some(row))])
      else Replaces(at, rows, schema, assignments, rows' + [row], changes)
  {
    hide NewRow;
    var n := |rows| - 1;
    var rest := rows[..n];
    forall i | 0 <= i < |at| ensures rest[at[i]] == rows[at[i]] && (rows' + [row])[at[i]] == rows'[at[i]] {}
  }

  /** A sweep that ends replaces exactly the rows that pass the clause. */
  lemma {:induction false} UpdateSweepMeans(rows: seq<Row>, schema: Schema, where: Option<Expr>,
                                            assignments: seq<Assignment>) returns (at: seq<nat>)
    requires Shaped(rows, schema) && UpdateSweep(rows, schema, where, assignments).error.None?
    ensures PassAt(at, rows, where, schema)
    ensures var sweep := UpdateSweep(rows, schema, where, assignments);
      Replaces(at, rows, schema, assignments, sweep.rows, sweep.changes)
  {
    hide Updated, Passes, NewRow, PassAt, Replaces;
    if rows == [] {
      at := [];
      NoneAt(where, schema);
      NothingReplaced(schema, assignments);
    } else {
      var n := |rows| - 1;
      at := UpdateSweepMeans(rows[..n], schema, where, assignments);
      var before := UpdateSweep(rows[..n], schema, where, assignments);
      UpdatedMeans(rows[n], schema, where, assignments);
      PassAtBounds(at, rows[..n], where, schema);
      PassAtMore(at, rows, where, schema);
      var r := Updated(rows[n], schema, where, assignments).value;
      ReplacesMore(at, rows, schema, assignments, before.rows, before.changes, if r.Some? then r.value
        else rows[n], r.Some?);
      if r.Some? { at := at + [n]; }
    }
  }

  lemma NothingReplaced(schema: Schema, assignments: seq<Assignment>)
    ensures Replaces([], [], schema, assignments, [], [])
  {
  }

  /** The history afterwards is the one before, and then one event for each of these changes, at the times of the
      clock. */
  ghost predicate Records(h: seq<Event>, h': seq<Event>, changes: seq<Change>, clock: Clock) {
    && |h'| == |h| + |changes| && h <= h'
    && forall i :: 0 <= i < |changes| ==> h'[|h| + i].change == changes[i] && h'[|h| + i].time == clock(|h| + i)
  }

  lemma RecordedMeans(h: seq<Event>, changes: seq<Change>, clock: Clock)
    ensures Records(h, Recorded(h, changes, clock), changes, clock)
  {
  }

  /** An UPDATE that succeeds gives every row that its clause is true of the values that its assignments make, in the
      order of the rows, changes no other row, and records one change for each of them, with the row before and
      after. */
  lemma UpdateMeans(s: TableState, schema: Schema, where: Option<Expr>, assignments: seq<Assignment>, clock: Clock)
    returns (at: seq<nat>, changes: seq<Change>)
    requires Shaped(s.rows, schema) && Update(s, schema, where, assignments, clock).error.None?
    ensures PassAt(at, s.rows, where, schema)
    ensures Decidable(where, schema, s.rows) ==> ChosenAt(at, s.rows, where, schema)
    ensures var after := Update(s, schema, where, assignments, clock).state;
      && Replaces(at, s.rows, schema, assignments, after.rows, changes)
        && Records(s.history, after.history, changes, clock)
  {
    hide UpdateSweep, CanRebuild, Rebuilt, Recorded, PassAt, ChosenAt, Replaces, Decidable, Records;
    at := UpdateSweepMeans(s.rows, schema, where, assignments);
    changes := UpdateSweep(s.rows, schema, where, assignments).changes;
    RecordedMeans(s.history, changes, clock);
    if Decidable(where, schema, s.rows) { PassAtMeans(at, s.rows, where, schema); }
  }

  // ---------- DELETE ----------

  /** The positions, in ascending order, of the rows that the clause is not true of. */
  ghost predicate FailAt(at: seq<nat>, rows: seq<Row>, where: Option<Expr>, schema: Schema)
    requires Shaped(rows, schema)
  {
    && (forall i, j :: 0 <= i < j < |at| ==> at[i] < at[j])
    && (forall i :: 0 <= i < |at| ==> at[i] < |rows| && Passes(where, schema, rows[at[i]]) == Ok(false))
    && forall k {:trigger k in at} :: 0 <= k < |rows| && Passes(where, schema, rows[k]) == Ok(false) ==> k in at
  }

  lemma FailAtMore(at: seq<nat>, rows: seq<Row>, where: Option<Expr>, schema: Schema)
    requires Shaped(rows, schema) && rows != [] && FailAt(at, rows[..|rows| - 1], where, schema)
    requires Passes(where, schema, rows[|rows| - 1]).Ok?
    ensures var n := |rows| - 1;
      var fails := Passes(where, schema, rows[n]) == Ok(false);
      var more := if fails then at + [n] else at;
      && FailAt(more, rows, where, schema)
      && RowsAt(more, rows) == RowsAt(at, rows[..n]) + if fails then [rows[n]] else []
  {
    hide Passes;
    var n := |rows| - 1;
    var rest := rows[..n];
    var more := if Passes(where, schema, rows[n]) == Ok(false) then at + [n] else at;
    forall k {:trigger k in more} | 0 <= k < |rows| && Passes(where, schema, rows[k]) == Ok(false) ensures k in more {
      if k < n { assert rest[k] == rows[k] && k in at; } else { assert more[|at|] == n; }
    }
  }

  lemma NoneFails(where: Option<Expr>, schema: Schema)
    ensures FailAt([], [], where, schema)
  {
  }

  /** The dropped rows, each recorded as it was. */
  predicate Drops(at: seq<nat>, rows: seq<Row>, changes: seq<Change>) {
    |changes| == |at|
    && forall i :: 0 <= i < |at| ==> at[i] < |rows| && changes[i] == Change(DeleteRow, Some(rows[at[i]]), None)
  }

  lemma DropsMore(at: seq<nat>, rows: seq<Row>, changes: seq<Change>)
    requires rows != [] && Drops(at, rows[..|rows| - 1], changes)
    ensures var n := |rows| - 1;
      Drops(at, rows, changes) && Drops(at + [n], rows, changes + [Change(DeleteRow, Some(rows[n]), None)])
  {
    forall i | 0 <= i < |at| ensures rows[..|rows| - 1][at[i]] == rows[at[i]] {}
  }

  /** A sweep that ends keeps exactly the rows that do not pass the clause, in their order, and drops exactly the
      others. */
  lemma {:induction false} DeleteSweepMeans(rows: seq<Row>, schema: Schema, where: Option<Expr>)
    returns (gone: seq<nat>, kept: seq<nat>)
    requires Shaped(rows, schema) && DeleteSweep(rows, schema, where).error.None?
    ensures PassAt(gone, rows, where, schema) && FailAt(kept, rows, where, schema)
    ensures forall i :: 0 <= i < |kept| ==> kept[i] < |rows|
    ensures DeleteSweep(rows, schema, where).rows == RowsAt(kept, rows)
    ensures Drops(gone, rows, DeleteSweep(rows, schema, where).changes)
    ensures NoneErrs(rows, where, schema)
  {
    hide Passes, PassAt, FailAt, Drops, RowsAt;
    if rows == [] {
      gone, kept := [], [];
      NoneAt(where, schema);
      NoneFails(where, schema);
      NothingDropped();
    } else {
      var n := |rows| - 1;
      gone, kept := DeleteSweepMeans(rows[..n], schema, where);
      PassAtBounds(gone, rows[..n], where, schema);
      PassAtMore(gone, rows, where, schema);
      FailAtMore(kept, rows, where, schema);
      DropsMore(gone, rows, DeleteSweep(rows[..n], schema, where).changes);
      NoneErrsMore(rows, where, schema);
      if Passes(where, schema, rows[n]) == Ok(true) {
        assert RowsAt(kept, rows[..n]) + [] == RowsAt(kept, rows[..n]);
        gone := gone + [n];
      } else {
        kept := kept + [n];
      }
    }
  }

  lemma NothingDropped()
    ensures Drops([], [], [])
  {
  }

  predicate NoneErrs(rows: seq<Row>, where: Option<Expr>, schema: Schema)
    requires Shaped(rows, schema)
  {
    forall i :: 0 <= i < |rows| ==> Passes(where, schema, rows[i]).Ok?
  }

  lemma NoneErrsMore(rows: seq<Row>, where: Option<Expr>, schema: Schema)
    requires Shaped(rows, schema) && rows != [] && NoneErrs(rows[..|rows| - 1], where, schema)
    requires Passes(where, schema, rows[|rows| - 1]).Ok?
    ensures NoneErrs(rows, where, schema)
  {
    hide Passes;
    var rest := rows[..|rows| - 1];
    forall i | 0 <= i < |rows| ensures Passes(where, schema, rows[i]).Ok? {
      if i < |rest| { assert rest[i] == rows[i]; }
    }
  }

  /** The positions, in ascending order, of the rows that the clause, read as a statement about values, is not true
      of. */
  ghost predicate SparedAt(at: seq<nat>, rows: seq<Row>, where: Option<Expr>, schema: Schema)
    requires Shaped(rows, schema)
  {
    && (forall i, j :: 0 <= i < j < |at| ==> at[i] < at[j])
    && (forall i :: 0 <= i < |at| ==> at[i] < |rows| && !Chosen(where, schema, rows[at[i]]))
    && forall k {:trigger k in at} :: 0 <= k < |rows| && !Chosen(where, schema, rows[k]) ==> k in at
  }

  lemma FailAtMeans(at: seq<nat>, rows: seq<Row>, where: Option<Expr>, schema: Schema)
    requires Shaped(rows, schema) && Decidable(where, schema, rows)
    ensures FailAt(at, rows, where, schema) <==> SparedAt(at, rows, where, schema)
  {
    hide Passes, Chosen, Decidable;
    forall i | 0 <= i < |rows| ensures Passes(where, schema, rows[i]) == Ok(Chosen(where, schema, rows[i])) {
      PassesMeans(where, schema, rows, i);
    }
  }

  /** A DELETE that succeeds leaves exactly the rows that its clause is not true of, in their order, and records one
      change for each of the others, holding that row. */
  lemma DeleteMeans(s: TableState, schema: Schema, where: Option<Expr>, clock: Clock)
    returns (gone: seq<nat>, kept: seq<nat>, changes: seq<Change>)
    requires Shaped(s.rows, schema) && Delete(s, schema, where, clock).error.None?
    ensures PassAt(gone, s.rows, where, schema) && FailAt(kept, s.rows, where, schema)
    ensures Decidable(where, schema, s.rows) ==>
      ChosenAt(gone, s.rows, where, schema) && SparedAt(kept, s.rows, where, schema)
    ensures forall i :: 0 <= i < |kept| ==> kept[i] < |s.rows|
    ensures var after := Delete(s, schema, where, clock).state;
      after.rows == RowsAt(kept, s.rows) && Drops(gone, s.rows, changes)
        && Records(s.history, after.history, changes, clock)
  {
    hide DeleteSweep, CanRebuild, Rebuilt, Recorded, PassAt, FailAt, ChosenAt, SparedAt, Drops, Decidable, Records,
      RowsAt;
    gone, kept := DeleteSweepMeans(s.rows, schema, where);
    changes := DeleteSweep(s.rows, schema, where).changes;
    RecordedMeans(s.history, changes, clock);
    if Decidable(where, schema, s.rows) {
      PassAtMeans(gone, s.rows, where, schema);
      FailAtMeans(kept, s.rows, where, schema);
    }
  }

  /** No row that is left passes the clause, and without a clause no row is left. */
  lemma DeleteLeavesNone(s: TableState, schema: Schema, where: Option<Expr>, clock: Clock)
    requires Shaped(s.rows, schema) && Delete(s, schema, where, clock).error.None?
    ensures var rows := Delete(s, schema, where, clock).state.rows;
      && (forall row :: row in rows ==> |row.values| == |schema| && Passes(where, schema, row) == Ok(false))
      && (where.None? ==> rows == [])
  {
    hide Delete, Passes, PassAt, Drops, Records;
    var gone, kept, changes := DeleteMeans(s, schema, where, clock);
    if where.None? && kept != [] { NoClausePasses(schema, s.rows[kept[0]]); }
  }

  lemma NoClausePasses(schema: Schema, row: Row)
    requires |row.values| == |schema|
    ensures Passes(None, schema, row) == Ok(true)
  {
  }

  // ---------- indexed columns ----------

  /** The column that some index is on. */
  ghost predicate IndexColumn(schema: Schema, c: nat)
    requires c < |schema|
  {
    exists d :: 0 <= d < |schema| && schema[d].constraint == Indexed && FirstNamed(schema, schema[d].name, c)
  }

  lemma IndexColumns(schema: Schema, c: nat)
    requires c < |schema|
    ensures IndexColumn(schema, c) <==> exists name :: name in Indexes(schema) && ColumnOf(schema, name) == c
  {
    hide FindColumnIndex, FirstNamed;
    if IndexColumn(schema, c) {
      var d :| 0 <= d < |schema| && schema[d].constraint == Indexed && FirstNamed(schema, schema[d].name, c);
      FoundIsFirst(schema, schema[d].name, c);
      assert schema[d].name in Indexes(schema) && ColumnOf(schema, schema[d].name) == c;
    }
    if name :| name in Indexes(schema) && ColumnOf(schema, name) == c {
      FoundIsFirst(schema, name, c);
    }
  }

  /** No indexed column of the row is NULL. */
  ghost predicate NoNullKey(row: Row, schema: Schema)
    requires |row.values| == |schema|
  {
    forall c :: 0 <= c < |schema| && IndexColumn(schema, c) ==> row.values[c] != Null
  }

  lemma NoNullKeyMeans(row: Row, schema: Schema)
    requires |row.values| == |schema|
    ensures NoIndexedNull(row, schema) <==> NoNullKey(row, schema)
  {
    hide IndexColumn, FindColumnIndex, Indexes;
    forall c | 0 <= c < |schema|
      ensures IndexColumn(schema, c) <==> exists name :: name in Indexes(schema) && ColumnOf(schema, name) == c
    {
      IndexColumns(schema, c);
    }
  }

  /** Two rows have the same value in an indexed column. */
  ghost predicate Clash(a: Row, b: Row, schema: Schema)
    requires |a.values| == |b.values| == |schema|
  {
    exists c :: 0 <= c < |schema| && IndexColumn(schema, c) && a.values[c] == b.values[c]
  }

  lemma ClashMeans(a: Row, b: Row, schema: Schema)
    requires Indexable(a, schema) && Indexable(b, schema)
    ensures Clash(a, b, schema) <==>
      exists name :: name in Indexes(schema) && IndexKey(a, schema, name) == IndexKey(b, schema, name)
  {
    hide IndexColumn, FindColumnIndex, Indexes, EncodeIndexKey;
    forall c | 0 <= c < |schema|
      ensures IndexColumn(schema, c) <==> exists name :: name in Indexes(schema) && ColumnOf(schema, name) == c
    {
      IndexColumns(schema, c);
    }
    forall name | name in Indexes(schema)
      ensures IndexKey(a, schema, name) == IndexKey(b, schema, name) <==>
        a.values[ColumnOf(schema, name)] == b.values[ColumnOf(schema, name)]
    {
      var c := ColumnOf(schema, name);
      EncodeKeepsOrder(a.values[c], b.values[c], TypeAt(schema, name));
    }
  }

  /** Indexes can be built for rows that fit the schema exactly if no indexed column is NULL and no two rows clash. */
  lemma CanRebuildMeans(rows: seq<Row>, schema: Schema)
    requires AllConform(rows, schema) && Shaped(rows, schema)
    ensures CanRebuild(rows, schema) <==>
      && (forall i :: 0 <= i < |rows| ==> NoNullKey(rows[i], schema))
      && (forall i, j :: 0 <= i < j < |rows| ==> !Clash(rows[i], rows[j], schema))
  {
    hide NoNullKey, Clash, Conforms, Indexable, NoIndexedNull, Indexes, FindColumnIndex, KeyOf;
    forall i | 0 <= i < |rows| ensures Indexable(rows[i], schema) <==> NoNullKey(rows[i], schema) {
      ConformingIsIndexable(rows[i], schema);
      NoNullKeyMeans(rows[i], schema);
    }
    if AllIndexable(rows, schema) {
      forall i, j | 0 <= i < j < |rows|
        ensures Clash(rows[i], rows[j], schema) <==>
          exists name :: name in Indexes(schema) && IndexKey(rows[i], schema, name) == IndexKey(rows[j], schema, name)
      {
        ClashMeans(rows[i], rows[j], schema);
      }
      UniqueMeans(rows, schema);
    }
  }

  lemma UniqueMeans(rows: seq<Row>, schema: Schema)
    requires AllIndexable(rows, schema)
    ensures AllUnique(rows, schema) <==> forall i, j, name :: 0 <= i < j < |rows| && name in Indexes(schema) ==>
      IndexKey(rows[i], schema, name) != IndexKey(rows[j], schema, name)
  {
    hide KeyOf, Indexes, FindColumnIndex;
  }

  // ---------- INSERT ----------

  /** With indexes that agree with the rows, a row is accepted exactly if, defaults filled in, every column can hold
      what it gets, no indexed column is NULL, and no row there has the same value in an indexed column. */
  lemma InsertOneMeans(s: TableState, schema: Schema, given: seq<Value>, clock: Clock)
    requires IndexesAgree(s, schema) && |given| == |schema| && Shaped(s.rows, schema)
    ensures InsertOne(s, schema, given, clock).Ok? <==>
      var row := Row(s.next, Filled(given, schema));
      && AllSuit(row.values, schema) && NoNullKey(row, schema)
      && forall i :: 0 <= i < |s.rows| ==> !Clash(s.rows[i], row, schema)
  {
    hide Filled, AllSuit, NoNullKey, Clash, Validated, NoIndexedNull, Indexes, Added, KeyTaken, IndexesAgree;
    ValidatedMeans(given, schema);
    if Validated(given, schema).Ok? {
      var row := Row(s.next, Validated(given, schema).value);
      ConformingIsIndexable(row, schema);
      NoNullKeyMeans(row, schema);
      if NoIndexedNull(row, schema) { TakenMeans(s, schema, row); }
    }
  }

  lemma TakenMeans(s: TableState, schema: Schema, row: Row)
    requires IndexesAgree(s, schema) && Indexable(row, schema) && Shaped(s.rows, schema)
    ensures KeyTaken(s, schema, row) <==> exists i :: 0 <= i < |s.rows| && Clash(s.rows[i], row, schema)
  {
    hide Clash, Indexes, FindColumnIndex, KeyOf, MapFind, Agrees, Typed;
    AgreeIndexable(s, schema);
    if KeyTaken(s, schema, row) {
      var name :| name in Indexes(schema) && MapFind(s.indexes[name], IndexKey(row, schema, name)) != [];
      FoundUnder(s, schema, row, name);
      var i :| 0 <= i < |s.rows| && IndexKey(s.rows[i], schema, name) == IndexKey(row, schema, name);
      ClashMeans(s.rows[i], row, schema);
    }
    if i :| 0 <= i < |s.rows| && Clash(s.rows[i], row, schema) {
      ClashMeans(s.rows[i], row, schema);
      var name :| name in Indexes(schema) && IndexKey(s.rows[i], schema, name) == IndexKey(row, schema, name);
      FoundUnder(s, schema, row, name);
    }
  }

  lemma FoundUnder(s: TableState, schema: Schema, row: Row, name: string)
    requires IndexesAgree(s, schema) && Indexable(row, schema) && AllIndexable(s.rows, schema)
      && name in Indexes(schema)
    ensures MapFind(s.indexes[name], IndexKey(row, schema, name)) != [] <==>
      exists i :: 0 <= i < |s.rows| && IndexKey(s.rows[i], schema, name) == IndexKey(row, schema, name)
  {
    hide KeyOf, FindColumnIndex;
    FoundMeans(s.indexes[name], s.rows, row, ColumnOf(schema, name), TypeAt(schema, name));
  }

  lemma AgreeIndexable(s: TableState, schema: Schema)
    requires IndexesAgree(s, schema) && Shaped(s.rows, schema)
    ensures AllIndexable(s.rows, schema)
  {
    hide FindColumnIndex, Indexes, KeyOf;
    forall i | 0 <= i < |s.rows| ensures Indexable(s.rows[i], schema) {
      forall name | name in Indexes(schema) ensures Typed(s.rows[i], ColumnOf(schema, name), TypeAt(schema, name)) {
        assert Agrees(s.indexes[name], s.rows, ColumnOf(schema, name), TypeAt(schema, name));
      }
    }
  }

  lemma FoundMeans(m: Index, rows: seq<Row>, row: Row, c: nat, t: ValueType)
    requires Agrees(m, rows, c, t) && Typed(row, c, t)
    ensures MapFind(m, KeyOf(row, c, t)) != [] <==>
      exists i :: 0 <= i < |rows| && KeyOf(rows[i], c, t) == KeyOf(row, c, t)
  {
    hide KeyOf;
  }

  /** Of the first `n` columns that a statement names, the last one that is column `c`. */
  function LastNamed(columns: seq<string>, n: nat, schema: Schema, c: nat): (k: Option<nat>)
    requires n <= |columns| && c < |schema|
    ensures k.Some? ==>
      k.value < n && FirstNamed(schema, columns[k.value], c) && forall j :: k.value < j < n ==>
        !FirstNamed(schema, columns[j], c)
    ensures k.None? ==> forall j :: 0 <= j < n ==> !FirstNamed(schema, columns[j], c)
  {
    if n == 0 then None
    else if FirstNamed(schema, columns[n - 1], c) then Some(n - 1)
    else LastNamed(columns, n - 1, schema, c)
  }

  /** The values that an input row gives to the columns: its literals by name, and NULL to a column that is not
      named. */
  predicate Gives(columns: seq<string>, input: seq<Expr>, schema: Schema, given: seq<Value>)
    requires |input| <= |columns|
  {
    && |given| == |schema|
    && forall c :: 0 <= c < |schema| ==>
         match LastNamed(columns, |input|, schema, c)
         case None => given[c] == Null
         case Some(k) => input[k] == Literal(given[c])
  }

  lemma {:induction false} PositionsMean(schema: Schema, columns: seq<string>)
    ensures Positions(schema, columns).Ok? <==>
      forall k :: 0 <= k < |columns| ==> Known(schema, columns[k])
    ensures Positions(schema, columns).Ok? ==> forall k :: 0 <= k < |columns| ==>
      FirstNamed(schema, columns[k], Positions(schema, columns).value[k])
  {
    hide FindColumnIndex, FirstNamed, Known;
    if columns != [] {
      var n := |columns| - 1;
      PositionsMean(schema, columns[..n]);
      FoundIfNamed(schema, columns[n]);
      if FindColumnIndex(schema, columns[n]).Some? {
        FoundIsFirst(schema, columns[n], FindColumnIndex(schema, columns[n]).value);
      }
      assert columns == columns[..n] + [columns[n]];
    }
  }

  lemma NamedOnce(schema: Schema, name: string, c: nat, d: nat)
    requires c < |schema| && d < |schema| && FirstNamed(schema, name, c) && FirstNamed(schema, name, d)
    ensures c == d
  {
  }

  lemma {:induction false} PlacedMeans(schema: Schema, columns: seq<string>, input: seq<Expr>)
    requires Positions(schema, columns).Ok? && |input| <= |columns|
    ensures var placed := Placed(schema, Positions(schema, columns).value, input);
      && (placed.Ok? <==> forall k :: 0 <= k < |input| ==> input[k].Literal?)
      && (placed.Ok? ==> Gives(columns, input, schema, placed.value))
  {
    hide FirstNamed, Positions, LastNamed, Gives;
    var positions := Positions(schema, columns).value;
    PositionsMean(schema, columns);
    if input == [] {
      NothingGiven(schema, columns);
    } else {
      var n := |input| - 1;
      PlacedMeans(schema, columns, input[..n]);
      assert input == input[..n] + [input[n]];
      if Placed(schema, positions, input[..n]).Ok? && input[n].Literal? {
        GivesMore(schema, columns, input, Placed(schema, positions, input[..n]).value, positions[n]);
      }
    }
  }

  lemma NothingGiven(schema: Schema, columns: seq<string>)
    ensures Gives(columns, [], schema, seq(|schema|, i => Null))
  {
  }

  lemma GivesMore(schema: Schema, columns: seq<string>, input: seq<Expr>, given: seq<Value>, at: nat)
    requires input != [] && |input| <= |columns| && input[|input| - 1].Literal? && at < |schema| == |given|
    requires Gives(columns, input[..|input| - 1], schema, given) && FirstNamed(schema, columns[|input| - 1], at)
    ensures Gives(columns, input, schema, given[at := input[|input| - 1].value])
  {
    hide FirstNamed;
    var n := |input| - 1;
    forall c | 0 <= c < |schema| && c != at ensures !FirstNamed(schema, columns[n], c) {
      if FirstNamed(schema, columns[n], c) { NamedOnce(schema, columns[n], at, c); }
    }
  }

  /** The row that an input row becomes. */
  ghost predicate RowFrom(columns: seq<string>, input: seq<Expr>, schema: Schema, row: Row)
    requires |input| <= |columns|
  {
    exists given ::
      Gives(columns, input, schema, given) && row.values == Filled(given, schema) && AllSuit(row.values, schema)
  }

  function Insertions(rows: seq<Row>): seq<Change> {
    seq(|rows|, i requires 0 <= i < |rows| => Change(InsertRow, None, Some(rows[i])))
  }

  lemma InsertionsMore(rows: seq<Row>, row: Row)
    ensures Insertions(rows + [row]) == Insertions(rows) + [Change(InsertRow, None, Some(row))]
  {
  }

  lemma RecordsMore(h: seq<Event>, h1: seq<Event>, h2: seq<Event>, changes: seq<Change>, change: Change, clock: Clock)
    requires Records(h, h1, changes, clock) && Records(h1, h2, [change], clock)
    ensures Records(h, h2, changes + [change], clock)
  {
  }

  /** An INSERT appends, one by one and with ids that count up from the counter, the rows that its input rows become, up
      to the first one that is turned down, and records each of them; it succeeds exactly if none is turned down. */
  lemma {:induction false} InsertMeans(s: TableState, schema: Schema, columns: seq<string>, inputs: seq<seq<Expr>>,
                                       clock: Clock) returns (news: seq<Row>)
    requires s.indexes.Keys == Indexes(schema) && Positions(schema, columns).Ok?
    requires forall i :: 0 <= i < |inputs| ==> |inputs[i]| <= |columns|
    ensures var o := InsertRows(s, schema, Positions(schema, columns).value, inputs, clock);
      && |news| <= |inputs| && (o.error.None? <==> |news| == |inputs|)
      && o.state.rows == s.rows + news && o.state.next == s.next + |news|
      && (forall i :: 0 <= i < |news| ==> news[i].id == s.next + i && RowFrom(columns, inputs[i], schema, news[i]))
      && Records(s.history, o.state.history, Insertions(news), clock)
  {
    hide Placed, InsertOne, Positions, RowFrom, Records, Insertions, Indexes;
    var positions := Positions(schema, columns).value;
    if inputs == [] {
      news := [];
      NothingInserted(s.history, clock);
      assert s.rows + [] == s.rows;
    } else {
      var n := |inputs| - 1;
      news := InsertMeans(s, schema, columns, inputs[..n], clock);
      var before := InsertRows(s, schema, positions, inputs[..n], clock);
      if before.error.None? && Placed(schema, positions, inputs[n]).Ok? {
        var given := Placed(schema, positions, inputs[n]).value;
        if InsertOne(before.state, schema, given, clock).Ok? {
          var row := OneInserted(before.state, schema, columns, inputs[n], clock);
          RecordsMore(s.history, before.state.history, InsertOne(before.state, schema, given, clock).value.history,
                      Insertions(news), Change(InsertRow, None, Some(row)), clock);
          InsertionsMore(news, row);
          assert s.rows + news + [row] == s.rows + (news + [row]);
          news := news + [row];
        }
      }
    }
  }

  lemma NothingInserted(h: seq<Event>, clock: Clock)
    ensures Records(h, h, Insertions([]), clock)
  {
  }

  lemma OneInserted(s: TableState, schema: Schema, columns: seq<string>, input: seq<Expr>, clock: Clock)
    returns (row: Row)
    requires s.indexes.Keys == Indexes(schema) && Positions(schema, columns).Ok? && |input| <= |columns|
    requires Placed(schema, Positions(schema, columns).value, input).Ok?
    requires InsertOne(s, schema, Placed(schema, Positions(schema, columns).value, input).value, clock).Ok?
    ensures var after :=
      InsertOne(s, schema, Placed(schema, Positions(schema, columns).value, input).value, clock).value;
      && row.id == s.next && RowFrom(columns, input, schema, row)
      && after.rows == s.rows + [row] && after.next == s.next + 1
      && Records(s.history, after.history, [Change(InsertRow, None, Some(row))], clock)
  {
    hide Placed, Positions, Validated, KeyTaken, NoIndexedNull, Indexes, Gives, Filled, AllSuit, Recorded, Records,
      IndexKey;
    var given := Placed(schema, Positions(schema, columns).value, input).value;
    PlacedMeans(schema, columns, input);
    ValidatedMeans(given, schema);
    row := Row(s.next, Validated(given, schema).value);
    RecordedMeans(s.history, [Change(InsertRow, None, Some(row))], clock);
  }
}
