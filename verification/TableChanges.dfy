/** UPDATE and DELETE: a sweep over the heap that records its changes, then a rebuild of every index. */
module TableChanges {
  import opened Wrappers
  import opened Values
  import opened Predicates
  import opened SortedMap
  import opened TableIndex
  import opened History
  import opened TableStatements

  datatype Assignment = Assignment(column: string, value: Expr)

  /** What a sweep leaves of the rows, what it records, and the error it stops at. */
  datatype Sweep = Sweep(rows: seq<Row>, changes: seq<Change>, error: Option<Error>)

  /** Assignments take effect one after another, each seeing the ones before it. */
  function Assigned(row: Row, schema: Schema, assignments: seq<Assignment>): (r: Result<Row>)
    requires |row.values| == |schema|
    ensures r.Ok? ==> r.value.id == row.id && |r.value.values| == |schema|
  {
    if assignments == [] then Ok(row)
    else
      var n := |assignments| - 1;
      match Assigned(row, schema, assignments[..n])
      case Err(error) => Err(error)
      case Ok(before) =>
        match FindColumnIndex(schema, assignments[n].column)
        case None => Err(SemanticError)
        case Some(i) =>
          match EvaluateValue(assignments[n].value, schema, before)
          case Err(error) => Err(error)
          case Ok(v) => Ok(Row(row.id, before.values[i := v]))
  }

  /** One row of an UPDATE; None if the clause leaves it out. */
  function Updated(row: Row, schema: Schema, where: Option<Expr>,
                   assignments: seq<Assignment>): (r: Result<Option<Row>>)
    requires |row.values| == |schema|
    ensures r.Ok? && r.value.Some? ==> r.value.value.id == row.id && Conforms(r.value.value, schema)
  {
    match Passes(where, schema, row)
    case Err(error) => Err(error)
    case Ok(pass) =>
      if !pass then Ok(None)
      else match Assigned(row, schema, assignments)
        case Err(error) => Err(error)
        case Ok(changed) =>
          match Validated(changed.values, schema)
          case Err(error) => Err(error)
          case Ok(values) => Ok(Some(Row(row.id, values)))
  }

  function UpdateSweep(rows: seq<Row>, schema: Schema, where: Option<Expr>, assignments: seq<Assignment>): (s: Sweep)
    requires Shaped(rows, schema)
    ensures s.error.None? ==> |s.rows| == |rows|
  {
    if rows == [] then Sweep([], [], None)
    else
      var n := |rows| - 1;
      var before := UpdateSweep(rows[..n], schema, where, assignments);
      if before.error.Some? then before
      else match Updated(rows[n], schema, where, assignments)
        case Err(error) => before.(error := Some(error))
        case Ok(None) => before.(rows := before.rows + [rows[n]])
        case Ok(Some(row)) =>
          Sweep(before.rows + [row], before.changes + [Change(UpdateRow, Some(rows[n]), Some(row))], None)
  }

  function DeleteSweep(rows: seq<Row>, schema: Schema, where: Option<Expr>): Sweep
    requires Shaped(rows, schema)
  {
    if rows == [] then Sweep([], [], None)
    else
      var n := |rows| - 1;
      var before := DeleteSweep(rows[..n], schema, where);
      if before.error.Some? then before
      else match Passes(where, schema, rows[n])
        case Err(error) => before.(error := Some(error))
        case Ok(pass) =>
          if pass then before.(changes := before.changes + [Change(DeleteRow, Some(rows[n]), None)])
          else before.(rows := before.rows + [rows[n]])
  }

  /** The end of both statements: indexes are rebuilt and the heap replaced, unless the rebuild finds a NULL or a
      duplicate.  The events of the sweep are in the history either way. */
  function Settled(s: TableState, schema: Schema, sweep: Sweep, clock: Clock): Outcome {
    var recorded := s.(history := Recorded(s.history, sweep.changes, clock));
    if sweep.error.Some? then Outcome(recorded, sweep.error)
    else if !CanRebuild(sweep.rows, schema) then Outcome(recorded, Some(ConstraintViolation))
    else Outcome(TableState(sweep.rows, NextId(sweep.rows), Rebuilt(sweep.rows, schema), recorded.history), None)
  }

  function Update(s: TableState, schema: Schema, where: Option<Expr>, assignments: seq<Assignment>,
                  clock: Clock): Outcome
    requires Shaped(s.rows, schema)
  {
    Settled(s, schema, UpdateSweep(s.rows, schema, where, assignments), clock)
  }

  function Delete(s: TableState, schema: Schema, where: Option<Expr>, clock: Clock): Outcome
    requires Shaped(s.rows, schema)
  {
    Settled(s, schema, DeleteSweep(s.rows, schema, where), clock)
  }

  // ---------- what a sweep does to the rows ----------

  ghost predicate SameIds(a: seq<Row>, b: seq<Row>) {
    |a| == |b| && forall i :: 0 <= i < |a| ==> a[i].id == b[i].id
  }

  lemma {:induction false} UpdateSweepRows(rows: seq<Row>, schema: Schema, where: Option<Expr>,
                                           assignments: seq<Assignment>)
    requires AllConform(rows, schema) && Shaped(rows, schema)
    requires UpdateSweep(rows, schema, where, assignments).error.None?
    ensures SameIds(rows, UpdateSweep(rows, schema, where, assignments).rows)
    ensures AllConform(UpdateSweep(rows, schema, where, assignments).rows, schema)
  {
    hide Updated, Conforms;
    if rows != [] {
      var n := |rows| - 1;
      UpdateSweepRows(rows[..n], schema, where, assignments);
      UpdatedRow(rows[n], schema, where, assignments);
    }
  }

  lemma UpdatedRow(row: Row, schema: Schema, where: Option<Expr>, assignments: seq<Assignment>)
    requires |row.values| == |schema|
    ensures var r := Updated(row, schema, where, assignments);
      r.Ok? && r.value.Some? ==> r.value.value.id == row.id && Conforms(r.value.value, schema)
  {
  }

  /** `m` holds these rows. */
  ghost predicate HasRows(m: RowsById, rows: seq<Row>) {
    forall i :: 0 <= i < |rows| ==> rows[i].id in m && m[rows[i].id] == rows[i]
  }

  /** Replaying an UPDATE's changes gives its rows. */
  lemma {:induction false} UpdateReplays(m: RowsById, rows: seq<Row>, schema: Schema, where: Option<Expr>,
                                         assignments: seq<Assignment>)
    requires Shaped(rows, schema) && HasRows(m, rows) && Ascending(rows)
    requires UpdateSweep(rows, schema, where, assignments).error.None?
    ensures var sweep := UpdateSweep(rows, schema, where, assignments);
      ApplyAll(m, sweep.changes) == m + RowMap(sweep.rows) && SameIds(rows, sweep.rows)
  {
    hide Updated, RowMap, ApplyAll, SameIds;
    if rows == [] {
      NothingReplayed(m);
    } else {
      var n := |rows| - 1;
      UpdateReplays(m, rows[..n], schema, where, assignments);
      UpdatedRow(rows[n], schema, where, assignments);
      var updated := Updated(rows[n], schema, where, assignments).value;
      OneUpdate(m, rows, UpdateSweep(rows[..n], schema, where, assignments), updated);
    }
  }

  /** One more row of an UPDATE, changed or not. */
  lemma OneUpdate(m: RowsById, rows: seq<Row>, before: Sweep, updated: Option<Row>)
    requires rows != [] && HasRows(m, rows) && Ascending(rows)
    requires ApplyAll(m, before.changes) == m + RowMap(before.rows) && SameIds(rows[..|rows| - 1], before.rows)
    requires updated.Some? ==> updated.value.id == rows[|rows| - 1].id
    ensures var row := if updated.Some? then updated.value else rows[|rows| - 1];
      var cs := if updated.Some? then before.changes + [Change(UpdateRow, Some(rows[|rows| - 1]), Some(row))]
        else before.changes;
      ApplyAll(m, cs) == m + RowMap(before.rows + [row]) && SameIds(rows, before.rows + [row])
  {
    hide RowMap, ApplyAll;
    var n := |rows| - 1;
    var row := if updated.Some? then updated.value else rows[n];
    RowMapMore(before.rows, row);
    IdIsNew(rows, before.rows, n);
    if updated.Some? {
      ApplyMore(m, before.changes, Change(UpdateRow, Some(rows[n]), Some(row)));
      MergeUpdated(m, RowMap(before.rows), row);
    } else {
      MergeKept(m, RowMap(before.rows), row);
    }
  }

  lemma NothingReplayed(m: RowsById)
    ensures ApplyAll(m, []) == m + RowMap([]) && SameIds([], [])
  {
  }

  lemma IdIsNew(rows: seq<Row>, before: seq<Row>, n: nat)
    requires Ascending(rows) && n < |rows| && SameIds(rows[..n], before)
    ensures rows[n].id !in RowMap(before)
  {
    RowMapHas(before, rows[n].id);
  }

  lemma MergeUpdated(m: RowsById, r: RowsById, row: Row)
    ensures (m + r)[row.id := row] == m + r[row.id := row]
  {
  }

  lemma MergeKept(m: RowsById, r: RowsById, row: Row)
    requires row.id in m && m[row.id] == row && row.id !in r
    ensures m + r == m + r[row.id := row]
  {
  }

  lemma RowMapMore(rows: seq<Row>, row: Row)
    ensures RowMap(rows + [row]) == RowMap(rows)[row.id := row]
  {
    assert (rows + [row])[..|rows|] == rows;
  }

  lemma ApplyMore(m: RowsById, cs: seq<Change>, c: Change)
    ensures ApplyAll(m, cs + [c]) == Apply(ApplyAll(m, cs), c)
  {
    assert (cs + [c])[..|cs|] == cs;
  }

  /** The rows that a DELETE keeps. */
  lemma {:induction false} DeleteKeeps(rows: seq<Row>, schema: Schema, where: Option<Expr>)
    requires Shaped(rows, schema) && Ascending(rows) && DeleteSweep(rows, schema, where).error.None?
    ensures var kept := DeleteSweep(rows, schema, where).rows;
      (forall r :: r in kept ==> r in rows) && Ascending(kept)
  {
    hide Passes, Ascending;
    if rows == [] {
      NothingAscends();
    } else {
      var n := |rows| - 1;
      PrefixAscends(rows, n);
      DeleteKeeps(rows[..n], schema, where);
      var before, after := DeleteSweep(rows[..n], schema, where), DeleteSweep(rows, schema, where);
      assert after.rows == before.rows || after.rows == before.rows + [rows[n]];
      assert forall r :: r in before.rows ==> r in rows[..n];
      if after.rows != before.rows { KeptAscends(before.rows, rows, n); }
    }
  }

  lemma NothingAscends()
    ensures Ascending([])
  {
  }

  lemma PrefixAscends(rows: seq<Row>, n: nat)
    requires Ascending(rows) && n <= |rows|
    ensures Ascending(rows[..n])
  {
  }

  /** The ids that a DELETE's changes take away. */
  function Gone(cs: seq<Change>): set<RowId> {
    set i | 0 <= i < |cs| && cs[i].before.Some? :: cs[i].before.value.id
  }

  predicate AllDeletes(cs: seq<Change>) {
    forall i :: 0 <= i < |cs| ==> cs[i].kind == DeleteRow && cs[i].before.Some?
  }

  lemma {:induction false} DeletesApply(m: RowsById, cs: seq<Change>)
    requires AllDeletes(cs)
    ensures ApplyAll(m, cs) == m - Gone(cs)
  {
    if cs != [] {
      var n := |cs| - 1;
      DeletesApply(m, cs[..n]);
      assert Gone(cs) == Gone(cs[..n]) + {cs[n].before.value.id};
    }
  }

  /** What is kept is what is not taken away. */
  ghost predicate Splits(rows: seq<Row>, kept: seq<Row>, cs: seq<Change>) {
    && AllDeletes(cs) && RowMap(kept) == RowMap(rows) - Gone(cs)
    && forall id :: id in Gone(cs) ==> id in RowMap(rows)
  }

  lemma {:induction false} DeleteSplits(rows: seq<Row>, schema: Schema, where: Option<Expr>)
    requires Shaped(rows, schema) && Ascending(rows) && DeleteSweep(rows, schema, where).error.None?
    ensures Splits(rows, DeleteSweep(rows, schema, where).rows, DeleteSweep(rows, schema, where).changes)
  {
    hide Passes, Splits;
    if rows == [] {
      NothingSplit();
    } else {
      var n := |rows| - 1;
      DeleteSplits(rows[..n], schema, where);
      var before := DeleteSweep(rows[..n], schema, where);
      assert rows == rows[..n] + [rows[n]];
      SplitsMore(rows[..n], before.rows, before.changes, rows[n], rows);
    }
  }

  lemma NothingSplit()
    ensures Splits([], [], [])
  {
  }

  lemma SplitsMore(first: seq<Row>, kept: seq<Row>, cs: seq<Change>, row: Row, rows: seq<Row>)
    requires rows == first + [row] && Ascending(rows) && Splits(first, kept, cs)
    ensures Splits(rows, kept, cs + [Change(DeleteRow, Some(row), None)])
    ensures Splits(rows, kept + [row], cs)
  {
    hide RowMap, Gone;
    assert rows[..|first|] == first && rows[|first|] == row;
    RowMapMore(first, row);
    RowMapMore(kept, row);
    LastIdIsNew(rows, |first|);
    GoneMore(cs, Change(DeleteRow, Some(row), None));
    TakenAway(RowMap(first), Gone(cs), row);
    StaysBehind(RowMap(first), Gone(cs), row);
  }

  lemma GoneMore(cs: seq<Change>, c: Change)
    requires c.before.Some?
    ensures Gone(cs + [c]) == Gone(cs) + {c.before.value.id}
  {
    var cs' := cs + [c];
    assert cs'[|cs|] == c;
    forall id | id in Gone(cs) ensures id in Gone(cs') {
      var i :| 0 <= i < |cs| && cs[i].before.Some? && cs[i].before.value.id == id;
      assert cs'[i] == cs[i];
    }
  }

  lemma TakenAway(m: RowsById, gone: set<RowId>, row: Row)
    requires row.id !in m
    ensures m - gone == m[row.id := row] - (gone + {row.id})
  {
  }

  lemma StaysBehind(m: RowsById, gone: set<RowId>, row: Row)
    requires row.id !in m && forall id :: id in gone ==> id in m
    ensures (m - gone)[row.id := row] == m[row.id := row] - gone
  {
  }

  lemma LastIdIsNew(rows: seq<Row>, n: nat)
    requires Ascending(rows) && n < |rows|
    ensures rows[n].id !in RowMap(rows[..n])
  {
    RowMapHas(rows[..n], rows[n].id);
  }

  lemma KeptAscends(kept: seq<Row>, rows: seq<Row>, n: nat)
    requires Ascending(rows) && n < |rows| && Ascending(kept) && forall r :: r in kept ==> r in rows[..n]
    ensures Ascending(kept + [rows[n]])
  {
    forall i | 0 <= i < |kept| ensures kept[i].id < rows[n].id {
      assert kept[i] in rows[..n];
      var j :| 0 <= j < n && rows[..n][j] == kept[i];
      assert rows[j] == kept[i];
    }
  }

  // ---------- the three views stay in step ----------

  lemma ConformShaped(rows: seq<Row>, schema: Schema)
    requires AllConform(rows, schema)
    ensures Shaped(rows, schema)
  {
    assert forall i :: 0 <= i < |rows| ==> Conforms(rows[i], schema);
  }

  lemma {:induction false} SameIdsSame(a: seq<Row>, b: seq<Row>)
    requires SameIds(a, b)
    ensures NextId(a) == NextId(b) && RowMap(a).Keys == RowMap(b).Keys && (Ascending(a) ==> Ascending(b))
  {
    if a != [] { SameIdsSame(a[..|a| - 1], b[..|b| - 1]); }
  }

  /** Rebuilt indexes agree with the rows they are built from. */
  lemma RebuiltAgrees(s: TableState, schema: Schema)
    requires CanRebuild(s.rows, schema) && s.indexes == Rebuilt(s.rows, schema)
    ensures IndexesAgree(s, schema)
  {
    hide KeyOf, BuildIndex, Agrees;
    forall name | name in Indexes(schema)
      ensures Agrees(s.indexes[name], s.rows, ColumnOf(schema, name), TypeAt(schema, name))
    {
      BuildAgrees(s.rows, ColumnOf(schema, name), TypeAt(schema, name));
    }
  }

  lemma RowsHaveThemselves(rows: seq<Row>)
    requires Ascending(rows)
    ensures HasRows(RowMap(rows), rows)
  {
    forall i | 0 <= i < |rows| ensures rows[i].id in RowMap(rows) && RowMap(rows)[rows[i].id] == rows[i] {
      RowMapAt(rows, i);
    }
  }

  /** A successful UPDATE keeps heap, indexes and history in step. */
  lemma UpdateKeeps(s: TableState, schema: Schema, where: Option<Expr>, assignments: seq<Assignment>, clock: Clock)
    requires Consistent(s, schema) && Shaped(s.rows, schema) && Update(s, schema, where, assignments, clock).error.None?
    ensures Consistent(Update(s, schema, where, assignments, clock).state, schema)
  {
    hide RowMap, ApplyAll, KeyOf, Agrees, BuildIndex, Recorded, UpdateSweep, CanRebuild, Conforms, ReplayAll;
    var sweep, s' :=
      UpdateSweep(s.rows, schema, where, assignments), Update(s, schema, where, assignments, clock).state;
    UpdateSweepRows(s.rows, schema, where, assignments);
    SameIdsSame(s.rows, sweep.rows);
    RebuiltAgrees(s', schema);
    RecordedReplay(s.history, sweep.changes, clock);
    RowsHaveThemselves(s.rows);
    UpdateReplays(RowMap(s.rows), s.rows, schema, where, assignments);
    Overwritten(RowMap(s.rows), RowMap(sweep.rows));
  }

  lemma Overwritten(m: RowsById, m': RowsById)
    requires m.Keys == m'.Keys
    ensures m + m' == m'
  {
  }

  /** The rebuild after a DELETE finds neither a NULL nor a duplicate: a DELETE that evaluates cannot fail. */
  lemma DeleteNeverConflicts(s: TableState, schema: Schema, where: Option<Expr>, clock: Clock)
    requires Consistent(s, schema) && Shaped(s.rows, schema)
    ensures Delete(s, schema, where, clock).error == DeleteSweep(s.rows, schema, where).error
    ensures DeleteSweep(s.rows, schema, where).error.None? ==>
      CanRebuild(DeleteSweep(s.rows, schema, where).rows, schema)
  {
    hide RowMap, ApplyAll, KeyOf, Recorded, DeleteSweep, ReplayAll, Passes;
    if DeleteSweep(s.rows, schema, where).error.None? {
      DeleteKeeps(s.rows, schema, where);
      SubrowsRebuild(s, schema, DeleteSweep(s.rows, schema, where).rows);
    }
  }

  /** Any rows of a consistent table, in order, can be indexed. */
  lemma SubrowsRebuild(s: TableState, schema: Schema, rows: seq<Row>)
    requires Consistent(s, schema) && Ascending(rows) && forall r :: r in rows ==> r in s.rows
    ensures CanRebuild(rows, schema) && AllConform(rows, schema)
  {
    hide KeyOf, Typed, Conforms, Agrees, DistinctKeys, TypedColumn, ReplayAll;
    SubrowsConform(s.rows, rows, schema);
    forall name | name in Indexes(schema)
      ensures TypedColumn(rows, ColumnOf(schema, name), TypeAt(schema, name))
           && DistinctKeys(rows, ColumnOf(schema, name), TypeAt(schema, name))
    {
      SubrowsDistinct(s.indexes[name], s.rows, rows, ColumnOf(schema, name), TypeAt(schema, name));
    }
    forall i | 0 <= i < |rows| ensures Indexable(rows[i], schema) {
      ConformLength(rows, schema, i);
      forall name | name in Indexes(schema) ensures Typed(rows[i], ColumnOf(schema, name), TypeAt(schema, name)) {
        TypedAt(rows, ColumnOf(schema, name), TypeAt(schema, name), i);
      }
    }
  }

  lemma ConformLength(rows: seq<Row>, schema: Schema, i: nat)
    requires AllConform(rows, schema) && i < |rows|
    ensures |rows[i].values| == |schema|
  {
    assert Conforms(rows[i], schema);
  }

  lemma TypedAt(rows: seq<Row>, c: nat, t: ValueType, i: nat)
    requires TypedColumn(rows, c, t) && i < |rows|
    ensures Typed(rows[i], c, t)
  {
  }

  lemma SubrowsConform(all: seq<Row>, rows: seq<Row>, schema: Schema)
    requires AllConform(all, schema) && forall r :: r in rows ==> r in all
    ensures AllConform(rows, schema)
  {
    hide Conforms;
    forall i | 0 <= i < |rows| ensures Conforms(rows[i], schema) {
      assert rows[i] in all;
    }
  }

  /** Rows of an indexed table have keys of their own. */
  lemma SubrowsDistinct(m: Index, all: seq<Row>, rows: seq<Row>, c: nat, t: ValueType)
    requires Agrees(m, all, c, t) && Ascending(rows) && forall r :: r in rows ==> r in all
    ensures TypedColumn(rows, c, t) && DistinctKeys(rows, c, t)
  {
    hide KeyOf;
    forall i | 0 <= i < |rows|
      ensures Typed(rows[i], c, t) && KeyOf(rows[i], c, t) in m && m[KeyOf(rows[i], c, t)] == [rows[i].id]
    {
      assert rows[i] in all;
      var a :| 0 <= a < |all| && all[a] == rows[i];
      assert m[KeyOf(all[a], c, t)] == [all[a].id];
    }
    forall i, j | 0 <= i < j < |rows| ensures KeyOf(rows[i], c, t) != KeyOf(rows[j], c, t) {
      assert [rows[i].id][0] != [rows[j].id][0];
    }
  }

  /** A DELETE that evaluates keeps heap, indexes and history in step. */
  lemma DeleteConsistent(s: TableState, schema: Schema, where: Option<Expr>, clock: Clock)
    requires Consistent(s, schema) && Shaped(s.rows, schema) && DeleteSweep(s.rows, schema, where).error.None?
    ensures Consistent(Delete(s, schema, where, clock).state, schema)
  {
    hide RowMap, ApplyAll, KeyOf, Agrees, BuildIndex, Recorded, DeleteSweep, CanRebuild, Conforms, ReplayAll, Splits;
    var sweep, s' := DeleteSweep(s.rows, schema, where), Delete(s, schema, where, clock).state;
    DeleteNeverConflicts(s, schema, where, clock);
    DeleteKeeps(s.rows, schema, where);
    SubrowsRebuild(s, schema, sweep.rows);
    RebuiltAgrees(s', schema);
    RecordedReplay(s.history, sweep.changes, clock);
    DeleteSplits(s.rows, schema, where);
    SplitsReplay(s.rows, sweep.rows, sweep.changes);
  }

  lemma SplitsReplay(rows: seq<Row>, kept: seq<Row>, cs: seq<Change>)
    requires Splits(rows, kept, cs)
    ensures ApplyAll(RowMap(rows), cs) == RowMap(kept)
  {
    hide RowMap, Gone;
    DeletesApply(RowMap(rows), cs);
  }
}
