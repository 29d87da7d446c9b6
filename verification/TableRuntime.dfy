/** The statements on one table carried out on its heap, its indexes and the change log. */
module TableRuntime {
  import opened Wrappers
  import Keys
  import opened Values
  import opened Predicates
  import opened SortedMap
  import opened TableIndex
  import opened History
  import opened TableStatements
  import opened TableChanges
  import opened TableRevert
  import opened TableStore

  class TableRuntime {
    const schema: Schema
    const database: string
    const table: string
    const heap: TableHeap
    const store: VersionStore
    var indexes: map<string, Index>

    function State(): TableState
      reads this, heap, store
    {
      TableState(heap.rows, heap.nextRowId, indexes, HistoryOf(store.records, database, table))
    }

    function Image(): TableImage
      reads this, heap
    {
      TableImage(schema, heap.rows, heap.nextRowId, indexes)
    }

    /** Every index of the schema exists. */
    predicate Ready()
      reads this
    {
      indexes.Keys == Indexes(schema)
    }

    constructor (schema: Schema, database: string, table: string, store: VersionStore, now: Time)
      modifies store
      ensures this.schema == schema && this.database == database && this.table == table && this.store == store
      ensures fresh(heap) && Ready()
      ensures State() == TableState([], 0, map name | name in Indexes(schema) :: map[],
                                    HistoryOf(old(store.records), database, table)
                                      + [Event(Change(CreateTable, None, None), now)])
    {
      this.schema, this.database, this.table, this.store := schema, database, table, store;
      heap := new TableHeap();
      indexes := map name | name in Indexes(schema) :: map[];
      new;
      store.Append(database, table, Change(CreateTable, None, None), now);
    }

    // ---------- INSERT ----------

    method ResolveColumns(names: seq<string>) returns (r: Result<seq<nat>>)
      ensures r == Positions(schema, names)
    {
      var positions := [];
      var i := 0;
      while i < |names|
        invariant i <= |names| && Positions(schema, names[..i]) == Ok(positions)
      {
        assert names[..i + 1][..i] == names[..i];
        match FindColumnIndex(schema, names[i]) {
          case None =>
            PositionsError(names, i);
            return Err(SemanticError);
          case Some(position) =>
            positions := positions + [position];
        }
        i := i + 1;
      }
      assert names[..|names|] == names;
      return Ok(positions);
    }

    lemma {:induction false} PositionsError(names: seq<string>, i: nat)
      requires i < |names| && Positions(schema, names[..i + 1]).Err?
      ensures Positions(schema, names) == Positions(schema, names[..i + 1])
    {
      if i + 1 == |names| {
        assert names[..i + 1] == names;
      } else {
        assert names[..|names| - 1][..i + 1] == names[..i + 1];
        PositionsError(names[..|names| - 1], i);
      }
    }

    method PlaceValues(positions: seq<nat>, input: seq<Expr>) returns (r: Result<seq<Value>>)
      requires |input| <= |positions| && forall i :: 0 <= i < |positions| ==> positions[i] < |schema|
      ensures r == Placed(schema, positions, input)
    {
      var values := seq(|schema|, i => Null);
      var i := 0;
      while i < |input|
        invariant i <= |input| && Placed(schema, positions, input[..i]) == Ok(values) && |values| == |schema|
      {
        assert input[..i + 1][..i] == input[..i];
        if !input[i].Literal? {
          PlacedError(positions, input, i);
          return Err(ValidationError);
        }
        values := values[positions[i] := input[i].value];
        i := i + 1;
      }
      assert input[..|input|] == input;
      return Ok(values);
    }

    lemma {:induction false} PlacedError(positions: seq<nat>, input: seq<Expr>, i: nat)
      requires |input| <= |positions| && forall i :: 0 <= i < |positions| ==> positions[i] < |schema|
      requires i < |input| && Placed(schema, positions, input[..i + 1]).Err?
      ensures Placed(schema, positions, input) == Placed(schema, positions, input[..i + 1])
    {
      if i + 1 == |input| {
        assert input[..i + 1] == input;
      } else {
        assert input[..|input| - 1][..i + 1] == input[..i + 1];
        PlacedError(positions, input[..|input| - 1], i);
      }
    }

    /** Defaults for NULLs, then the type and NULL checks, column by column. */
    method ValidateRowAgainstSchema(values: seq<Value>) returns (r: Result<seq<Value>>)
      requires |values| == |schema|
      ensures r == Validated(values, schema)
    {
      var fitting := [];
      var i := 0;
      while i < |schema|
        invariant i <= |schema| && Validated(values[..i], schema[..i]) == Ok(fitting)
      {
        assert values[..i + 1][..i] == values[..i] && schema[..i + 1][..i] == schema[..i];
        var value := values[i];
        if value.Null? && schema[i].default.Some? { value := schema[i].default.value; }
        if !CanAssign(value, schema[i]) {
          ValidatedError(values, schema, i);
          return Err(ConstraintViolation);
        }
        fitting := fitting + [value];
        i := i + 1;
      }
      assert values[..|schema|] == values && schema[..|schema|] == schema;
      return Ok(fitting);
    }

    lemma {:induction false} ValidatedError(values: seq<Value>, schema: Schema, i: nat)
      requires |values| == |schema| && i < |schema| && Validated(values[..i + 1], schema[..i + 1]).Err?
      ensures Validated(values, schema) == Validated(values[..i + 1], schema[..i + 1])
    {
      if i + 1 == |schema| {
        assert values[..i + 1] == values && schema[..i + 1] == schema;
      } else {
        var n := |schema| - 1;
        assert values[..n][..i + 1] == values[..i + 1] && schema[..n][..i + 1] == schema[..i + 1];
        ValidatedError(values[..n], schema[..n], i);
      }
    }

    /** Looks the row's keys up in every index, in whatever order the indexes come. */
    method CheckIndexes(row: Row) returns (ok: bool)
      requires Ready() && Conforms(row, schema)
      ensures ok <==> Indexable(row, schema) && !KeyTaken(State(), schema, row)
    {
      hide KeyOf, MapFind, FindColumnIndex, Indexes;
      ConformingIsIndexable(row, schema);
      var names := Indexes(schema);
      while names != {}
        invariant names <= Indexes(schema)
        invariant forall name :: name in Indexes(schema) && name !in names ==>
          Typed(row, ColumnOf(schema, name), TypeAt(schema, name))
          && MapFind(indexes[name], KeyOf(row, ColumnOf(schema, name), TypeAt(schema, name))) == []
        decreases names
      {
        var name :| name in names;
        var c := ColumnOf(schema, name);
        assert CanAssign(row.values[c], schema[c]);
        if row.values[c].Null? { return false; }
        if MapFind(indexes[name], KeyOf(row, c, TypeAt(schema, name))) != [] { return false; }
        names := names - {name};
      }
      return true;
    }

    /** The row's id joins every index. */
    method AddToIndexes(row: Row)
      requires Ready() && Indexable(row, schema)
      modifies this
      ensures indexes == map name | name in Indexes(schema) ::
        MapInsert(old(indexes)[name], IndexKey(row, schema, name), row.id)
    {
      hide IndexKey, Indexable, Indexes, MapInsert;
      var names := Indexes(schema);
      while names != {}
        invariant names <= Indexes(schema) && Ready()
        invariant forall name :: name in Indexes(schema) ==>
          indexes[name] == if name in names then old(indexes)[name]
                           else MapInsert(old(indexes)[name], IndexKey(row, schema, name), row.id)
        decreases names
      {
        var name :| name in names;
        indexes := indexes[name := MapInsert(indexes[name], IndexKey(row, schema, name), row.id)];
        names := names - {name};
      }
    }

    /** One validated row joins the heap, the indexes and the history. */
    method InsertValues(values: seq<Value>, clock: Clock) returns (error: Option<Error>)
      requires Ready() && |values| == |schema|
      modifies this, heap, store
      ensures Ready()
      ensures match InsertOne(old(State()), schema, values, clock)
        case Err(e) => error == Some(e) && State() == old(State())
        case Ok(after) => error == None && State() == after
      ensures Logs(old(store.records), store.records, database, table)
    {
      hide KeyTaken, Indexable, IndexKey, MapInsert;
      var validated := ValidateRowAgainstSchema(values);
      if validated.Err? { return Some(validated.error); }
      var row := Row(heap.nextRowId, validated.value);
      ConformingIsIndexable(row, schema);
      var free := CheckIndexes(row);
      if !free { return Some(ConstraintViolation); }
      var rowId := heap.Insert(None, row.values);
      AddToIndexes(row);
      store.Append(database, table, Change(InsertRow, None, Some(row)),
        clock(|HistoryOf(store.records, database, table)|));
      return None;
    }

    /** The rows of an INSERT one by one; those before a rejected one stay. */
    method Insert(columnNames: seq<string>, inputs: seq<seq<Expr>>, clock: Clock) returns (error: Option<Error>)
      requires Ready() && forall i :: 0 <= i < |inputs| ==> |inputs[i]| <= |columnNames|
      modifies this, heap, store
      ensures Ready()
      ensures match Positions(schema, columnNames)
        case Err(e) => error == Some(e) && State() == old(State())
        case Ok(positions) => Outcome(State(), error) == InsertRows(old(State()), schema, positions, inputs, clock)
      ensures Logs(old(store.records), store.records, database, table)
    {
      hide InsertOne, Placed;
      var resolved := ResolveColumns(columnNames);
      if resolved.Err? { return Some(resolved.error); }
      var positions := resolved.value;
      ghost var start := State();
      var i := 0;
      while i < |inputs|
        invariant i <= |inputs| && Ready()
        invariant InsertRows(start, schema, positions, inputs[..i], clock) == Outcome(State(), None)
        invariant Logs(old(store.records), store.records, database, table)
      {
        assert inputs[..i + 1][..i] == inputs[..i];
        var placed := PlaceValues(positions, inputs[i]);
        if placed.Err? {
          InsertStops(start, positions, inputs, i, clock);
          return Some(placed.error);
        }
        error := InsertValues(placed.value, clock);
        if error.Some? {
          InsertStops(start, positions, inputs, i, clock);
          return;
        }
        i := i + 1;
      }
      assert inputs[..|inputs|] == inputs;
      return None;
    }

    lemma {:induction false} InsertStops(s: TableState, positions: seq<nat>, inputs: seq<seq<Expr>>, i: nat,
                                         clock: Clock)
      requires s.indexes.Keys == Indexes(schema)
      requires forall i :: 0 <= i < |positions| ==> positions[i] < |schema|
      requires forall i :: 0 <= i < |inputs| ==> |inputs[i]| <= |positions|
      requires i < |inputs| && InsertRows(s, schema, positions, inputs[..i + 1], clock).error.Some?
      ensures InsertRows(s, schema, positions, inputs, clock)
        == InsertRows(s, schema, positions, inputs[..i + 1], clock)
    {
      hide InsertOne, Placed;
      if i + 1 == |inputs| {
        assert inputs[..i + 1] == inputs;
      } else {
        assert inputs[..|inputs| - 1][..i + 1] == inputs[..i + 1];
        InsertStops(s, positions, inputs[..|inputs| - 1], i, clock);
      }
    }

    // ---------- rebuilding ----------

    /** The rows seen so far can stand in this index. */
    predicate Good(rows: seq<Row>, name: string)
      requires name in Indexes(schema)
    {
      TypedColumn(rows, ColumnOf(schema, name), TypeAt(schema, name))
      && DistinctKeys(rows, ColumnOf(schema, name), TypeAt(schema, name))
    }

    function Built(rows: seq<Row>, name: string): Index
      requires name in Indexes(schema) && Good(rows, name)
    {
      BuildIndex(rows, ColumnOf(schema, name), TypeAt(schema, name))
    }

    lemma GoodMore(rows: seq<Row>, row: Row, name: string)
      requires name in Indexes(schema) && Good(rows, name) && Conforms(row, schema)
      ensures var c, t := ColumnOf(schema, name), TypeAt(schema, name);
        && (Typed(row, c, t) <==> !row.values[c].Null?)
        && (Good(rows + [row], name) <==> Typed(row, c, t) && MapFind(Built(rows, name), KeyOf(row, c, t)) == [])
        && (Good(rows + [row], name) ==>
          Built(rows + [row], name) == MapInsert(Built(rows, name), KeyOf(row, c, t), row.id))
    {
      hide KeyOf, MapInsert;
      var c, t, rows' := ColumnOf(schema, name), TypeAt(schema, name), rows + [row];
      assert CanAssign(row.values[c], schema[c]);
      assert rows'[..|rows|] == rows && rows'[|rows|] == row;
      BuildAgrees(rows, c, t);
      if Typed(row, c, t) {
        assert TypedColumn(rows', c, t);
        GoodKeys(rows, row, c, t);
      } else {
        assert !Typed(rows'[|rows|], c, t);
      }
    }

    lemma GoodKeys(rows: seq<Row>, row: Row, c: nat, t: ValueType)
      requires TypedColumn(rows, c, t) && DistinctKeys(rows, c, t) && Typed(row, c, t)
        && TypedColumn(rows + [row], c, t)
      requires Agrees(BuildIndex(rows, c, t), rows, c, t)
      ensures DistinctKeys(rows + [row], c, t) <==> MapFind(BuildIndex(rows, c, t), KeyOf(row, c, t)) == []
    {
      hide KeyOf, BuildIndex;
      var rows', m, k := rows + [row], BuildIndex(rows, c, t), KeyOf(row, c, t);
      assert forall i :: 0 <= i < |rows| ==> KeyOf(rows'[i], c, t) == KeyOf(rows[i], c, t);
      assert KeyOf(rows'[|rows|], c, t) == k;
      if k in m {
        var i :| 0 <= i < |rows| && KeyOf(rows[i], c, t) == k;
        assert m[KeyOf(rows[i], c, t)] == [rows[i].id];
      } else {
        forall i | 0 <= i < |rows| ensures KeyOf(rows[i], c, t) != k { assert KeyOf(rows[i], c, t) in m; }
      }
    }

    lemma GoodPrefix(rows: seq<Row>, n: nat, name: string)
      requires name in Indexes(schema) && n <= |rows| && Good(rows, name)
      ensures Good(rows[..n], name)
    {
      hide KeyOf;
    }

    lemma GoodMeansRebuild(rows: seq<Row>)
      requires AllConform(rows, schema)
      ensures CanRebuild(rows, schema) <==> forall name :: name in Indexes(schema) ==> Good(rows, name)
    {
      hide KeyOf, DistinctKeys, Typed, FindColumnIndex;
      if forall name :: name in Indexes(schema) ==> Good(rows, name) {
        forall i | 0 <= i < |rows| ensures Indexable(rows[i], schema) {
          assert Conforms(rows[i], schema);
          forall name | name in Indexes(schema) ensures Typed(rows[i], ColumnOf(schema, name), TypeAt(schema, name)) {
            assert Good(rows, name);
          }
        }
      }
    }

    /** One more row for every index that is being rebuilt. */
    method RebuildRow(rows: seq<Row>, i: nat, built: map<string, Index>) returns (ok: bool, rebuilt: map<string, Index>)
      requires AllConform(rows, schema) && i < |rows| && built.Keys == Indexes(schema)
      requires forall name :: name in Indexes(schema) ==> Good(rows[..i], name) && built[name] == Built(rows[..i], name)
      ensures rebuilt.Keys == Indexes(schema)
      ensures ok ==> forall name :: name in Indexes(schema) ==>
        Good(rows[..i + 1], name) && rebuilt[name] == Built(rows[..i + 1], name)
      ensures !ok ==> exists name :: name in Indexes(schema) && !Good(rows[..i + 1], name)
    {
      hide KeyOf, MapInsert, MapFind, FindColumnIndex, Conforms, Good, Built;
      rebuilt := built;
      var row := rows[i];
      ghost var seen, seen' := rows[..i], rows[..i + 1];
      assert seen' == seen + [row];
      ConformLength(rows, schema, i);
      var names := Indexes(schema);
      while names != {}
        invariant names <= Indexes(schema) && rebuilt.Keys == Indexes(schema)
        invariant forall name :: name in names ==> Good(seen, name) && rebuilt[name] == Built(seen, name)
        invariant forall name :: name in Indexes(schema) - names ==>
          Good(seen', name) && rebuilt[name] == Built(seen', name)
        decreases names
      {
        var name :| name in names;
        GoodMore(seen, row, name);
        if row.values[ColumnOf(schema, name)].Null? { return false, rebuilt; }
        var key := KeyOf(row, ColumnOf(schema, name), TypeAt(schema, name));
        if MapFind(rebuilt[name], key) != [] { return false, rebuilt; }
        rebuilt := rebuilt[name := MapInsert(rebuilt[name], key, row.id)];
        names := names - {name};
      }
      return true, rebuilt;
    }

    /** Fresh indexes for the given rows; on a NULL or a duplicate the old indexes stay. */
    method RebuildIndexes(rows: seq<Row>) returns (ok: bool)
      requires AllConform(rows, schema)
      modifies this
      ensures ok <==> CanRebuild(rows, schema)
      ensures ok ==> indexes == Rebuilt(rows, schema)
      ensures !ok ==> indexes == old(indexes)
    {
      hide KeyOf, Good, Built, CanRebuild, Rebuilt, AllConform;
      var rebuilt: map<string, Index> := map name | name in Indexes(schema) :: map[];
      StartGood();
      GoodMeansRebuild(rows);
      var i := 0;
      while i < |rows|
        invariant i <= |rows| && rebuilt.Keys == Indexes(schema) && indexes == old(indexes)
        invariant forall name :: name in Indexes(schema) ==>
          Good(rows[..i], name) && rebuilt[name] == Built(rows[..i], name)
      {
        ok, rebuilt := RebuildRow(rows, i, rebuilt);
        if !ok {
          ghost var name :| name in Indexes(schema) && !Good(rows[..i + 1], name);
          NotGood(rows, i + 1, name);
          return false;
        }
        i := i + 1;
      }
      assert rows[..|rows|] == rows;
      AllBuilt(rows, rebuilt);
      indexes := rebuilt;
      return true;
    }

    lemma StartGood()
      ensures forall name :: name in Indexes(schema) ==> Good([], name) && Built([], name) == map[]
    {
    }

    lemma NotGood(rows: seq<Row>, n: nat, name: string)
      requires name in Indexes(schema) && n <= |rows| && !Good(rows[..n], name)
      ensures !Good(rows, name)
    {
      hide KeyOf, Good;
      if Good(rows, name) { GoodPrefix(rows, n, name); }
    }

    lemma AllBuilt(rows: seq<Row>, rebuilt: map<string, Index>)
      requires AllConform(rows, schema) && rebuilt.Keys == Indexes(schema)
      requires forall name :: name in Indexes(schema) ==> Good(rows, name) && rebuilt[name] == Built(rows, name)
      ensures CanRebuild(rows, schema) && rebuilt == Rebuilt(rows, schema)
    {
      hide KeyOf, BuildIndex, FindColumnIndex;
      GoodMeansRebuild(rows);
    }

    // ---------- UPDATE and DELETE ----------

    /** Appends one change, stamped by the clock. */
    method Record(change: Change, clock: Clock)
      modifies store
      ensures State() == old(State()).(history := Recorded(old(State().history), [change], clock))
      ensures Logs(old(store.records), store.records, database, table)
    {
      var history := HistoryOf(store.records, database, table);
      store.Append(database, table, change, clock(|history|));
    }

    /** A history that grows change by change. */
    lemma RecordedMore(h: seq<Event>, cs: seq<Change>, c: Change, clock: Clock)
      ensures Recorded(Recorded(h, cs, clock), [c], clock) == Recorded(h, cs + [c], clock)
      ensures Recorded(h, [], clock) == h
    {
    }

    /** The new heap goes in if its indexes can be built. */
    method Install(rows: seq<Row>) returns (error: Option<Error>)
      requires AllConform(rows, schema)
      modifies this, heap
      ensures error == if CanRebuild(rows, schema) then None else Some(ConstraintViolation)
      ensures error.None? ==>
        State() == TableState(rows, NextId(rows), Rebuilt(rows, schema), old(State().history))
      ensures error.Some? ==> State() == old(State())
    {
      hide CanRebuild, Rebuilt;
      var ok := RebuildIndexes(rows);
      if !ok { return Some(ConstraintViolation); }
      heap.ReplaceAll(rows);
      return None;
    }

    /** The assignments of an UPDATE, one after another. */
    method AssignTo(row: Row, assignments: seq<Assignment>) returns (r: Result<Row>)
      requires |row.values| == |schema|
      ensures r == Assigned(row, schema, assignments)
    {
      hide EvaluateValue;
      var changed := row;
      var i := 0;
      while i < |assignments|
        invariant i <= |assignments| && Assigned(row, schema, assignments[..i]) == Ok(changed)
        invariant |changed.values| == |schema| && changed.id == row.id
      {
        assert assignments[..i + 1][..i] == assignments[..i];
        match FindColumnIndex(schema, assignments[i].column) {
          case None =>
            AssignedError(row, assignments, i);
            return Err(SemanticError);
          case Some(column) =>
            match EvaluateValue(assignments[i].value, schema, changed) {
              case Err(error) =>
                AssignedError(row, assignments, i);
                return Err(error);
              case Ok(value) =>
                changed := Row(row.id, changed.values[column := value]);
            }
        }
        i := i + 1;
      }
      assert assignments[..|assignments|] == assignments;
      return Ok(changed);
    }

    lemma {:induction false} AssignedError(row: Row, assignments: seq<Assignment>, i: nat)
      requires |row.values| == |schema|
      requires i < |assignments| && Assigned(row, schema, assignments[..i + 1]).Err?
      ensures Assigned(row, schema, assignments) == Assigned(row, schema, assignments[..i + 1])
    {
      hide EvaluateValue;
      if i + 1 == |assignments| {
        assert assignments[..i + 1] == assignments;
      } else {
        assert assignments[..|assignments| - 1][..i + 1] == assignments[..i + 1];
        AssignedError(row, assignments[..|assignments| - 1], i);
      }
    }

    method UpdateOne(row: Row, where: Option<Expr>, assignments: seq<Assignment>) returns (r: Result<Option<Row>>)
      requires |row.values| == |schema|
      ensures r == Updated(row, schema, where, assignments)
    {
      hide Passes, Assigned, Validated;
      match Passes(where, schema, row)
      case Err(error) => return Err(error);
      case Ok(pass) =>
        if !pass { return Ok(None); }
        var changed := AssignTo(row, assignments);
        if changed.Err? { return Err(changed.error); }
        var validated := ValidateRowAgainstSchema(changed.value.values);
        if validated.Err? { return Err(validated.error); }
        return Ok(Some(Row(row.id, validated.value)));
    }

    /** UPDATE: a sweep that records each change as it goes, then the rebuild. */
    method Update(where: Option<Expr>, assignments: seq<Assignment>, clock: Clock) returns (error: Option<Error>)
      requires AllConform(heap.rows, schema) && Shaped(heap.rows, schema)
      modifies this, heap, store
      ensures Outcome(State(), error) == TableChanges.Update(old(State()), schema, where, assignments, clock)
      ensures Logs(old(store.records), store.records, database, table)
    {
      hide Updated, Recorded, CanRebuild, Rebuilt, AllConform;
      ghost var start := State();
      var rows := heap.rows;
      var swept := [];
      ghost var changes := [];
      RecordedMore(start.history, [], Change(UpdateRow, None, None), clock);
      var i := 0;
      while i < |rows|
        invariant i <= |rows| && UpdateSweep(rows[..i], schema, where, assignments) == Sweep(swept, changes, None)
        invariant State() == start.(history := Recorded(start.history, changes, clock))
        invariant Logs(old(store.records), store.records, database, table)
      {
        assert rows[..i + 1][..i] == rows[..i];
        var updated := UpdateOne(rows[i], where, assignments);
        match updated {
          case Err(e) =>
            UpdateStops(rows, where, assignments, i);
            return Some(e);
          case Ok(None) =>
            swept := swept + [rows[i]];
          case Ok(Some(row)) =>
            var change := Change(UpdateRow, Some(rows[i]), Some(row));
            Record(change, clock);
            RecordedMore(start.history, changes, change, clock);
            swept, changes := swept + [row], changes + [change];
        }
        i := i + 1;
      }
      assert rows[..|rows|] == rows;
      UpdateSweepRows(rows, schema, where, assignments);
      error := Install(swept);
    }

    lemma {:induction false} UpdateStops(rows: seq<Row>, where: Option<Expr>, assignments: seq<Assignment>, i: nat)
      requires Shaped(rows, schema) && i < |rows|
      requires UpdateSweep(rows[..i + 1], schema, where, assignments).error.Some?
      ensures UpdateSweep(rows, schema, where, assignments) == UpdateSweep(rows[..i + 1], schema, where, assignments)
    {
      hide Updated;
      if i + 1 == |rows| {
        assert rows[..i + 1] == rows;
      } else {
        assert rows[..|rows| - 1][..i + 1] == rows[..i + 1];
        UpdateStops(rows[..|rows| - 1], where, assignments, i);
      }
    }

    /** DELETE: a sweep that records each deletion as it goes, then the rebuild. */
    method Delete(where: Option<Expr>, clock: Clock) returns (error: Option<Error>)
      requires AllConform(heap.rows, schema) && Shaped(heap.rows, schema)
      modifies this, heap, store
      ensures Outcome(State(), error) == TableChanges.Delete(old(State()), schema, where, clock)
      ensures Logs(old(store.records), store.records, database, table)
    {
      hide Passes, Recorded, CanRebuild, Rebuilt, Conforms;
      ghost var start := State();
      var rows := heap.rows;
      var kept := [];
      ghost var changes := [];
      RecordedMore(start.history, [], Change(DeleteRow, None, None), clock);
      var i := 0;
      while i < |rows|
        invariant i <= |rows| && DeleteSweep(rows[..i], schema, where) == Sweep(kept, changes, None)
        invariant State() == start.(history := Recorded(start.history, changes, clock))
        invariant Logs(old(store.records), store.records, database, table)
        invariant AllConform(kept, schema)
      {
        assert rows[..i + 1][..i] == rows[..i];
        match Passes(where, schema, rows[i]) {
          case Err(e) =>
            DeleteStops(rows, where, i);
            return Some(e);
          case Ok(pass) =>
            if pass {
              var change := Change(DeleteRow, Some(rows[i]), None);
              Record(change, clock);
              RecordedMore(start.history, changes, change, clock);
              changes := changes + [change];
            } else {
              kept := kept + [rows[i]];
            }
        }
        i := i + 1;
      }
      assert rows[..|rows|] == rows;
      error := Install(kept);
    }

    lemma {:induction false} DeleteStops(rows: seq<Row>, where: Option<Expr>, i: nat)
      requires Shaped(rows, schema) && i < |rows| && DeleteSweep(rows[..i + 1], schema, where).error.Some?
      ensures DeleteSweep(rows, schema, where) == DeleteSweep(rows[..i + 1], schema, where)
    {
      hide Passes;
      if i + 1 == |rows| {
        assert rows[..i + 1] == rows;
      } else {
        assert rows[..|rows| - 1][..i + 1] == rows[..i + 1];
        DeleteStops(rows[..|rows| - 1], where, i);
      }
    }

    // ---------- REVERT ----------

    /** Replays the history up to `t` and lists the rows in ascending order of id. */
    method ReconstructTableStateAt(t: Time) returns (rows: seq<Row>)
      ensures Lists(rows, Replay(State().history, t))
    {
      hide Apply, Lists;
      var history := store.HistoryForTable(database, table);
      var byId: RowsById := map[];
      var i := 0;
      NothingReplayed(map[]);
      while i < |history|
        invariant i <= |history| && byId == Replay(history[..i], t) && WellKeyed(byId)
      {
        assert history[..i + 1][..i] == history[..i];
        if history[i].time <= t {
          ApplyMore(map[], UpTo(history[..i], t), history[i].change);
          ApplyKeepsKeys(byId, history[i].change);
          byId := Apply(byId, history[i].change);
        }
        i := i + 1;
      }
      assert history[..|history|] == history;
      rows := SortRows(byId);
    }

    lemma ApplyKeepsKeys(m: RowsById, c: Change)
      requires WellKeyed(m)
      ensures WellKeyed(Apply(m, c))
    {
    }

    /** The rows of a map, taken in any order, sorted by id. */
    method SortRows(byId: RowsById) returns (rows: seq<Row>)
      requires WellKeyed(byId)
      ensures Lists(rows, byId)
    {
      rows := [];
      var ids := byId.Keys;
      while ids != {}
        invariant ids <= byId.Keys
        invariant Ascending(rows) && RowMap(rows) == byId - ids
        decreases ids
      {
        var id :| id in ids;
        RowMapHas(rows, id);
        rows := InsertSorted(rows, byId[id]);
        ids := ids - {id};
      }
    }

    method InsertSorted(rows: seq<Row>, row: Row) returns (sorted: seq<Row>)
      requires Ascending(rows) && row.id !in RowMap(rows)
      ensures Ascending(sorted) && RowMap(sorted) == RowMap(rows)[row.id := row]
    {
      hide RowMap;
      var i := 0;
      while i < |rows| && rows[i].id < row.id
        invariant i <= |rows| && forall j :: 0 <= j < i ==> rows[j].id < row.id
      {
        i := i + 1;
      }
      if i < |rows| { RowMapAt(rows, i); }
      sorted := rows[..i] + [row] + rows[i..];
      InsertedRows(rows, row, i);
    }

    lemma InsertedRows(rows: seq<Row>, row: Row, i: nat)
      requires i <= |rows| && row.id !in RowMap(rows)
      ensures RowMap(rows[..i] + [row] + rows[i..]) == RowMap(rows)[row.id := row]
    {
      hide RowMap;
      var a, b := rows[..i], rows[i..];
      assert rows == a + b;
      RowMapConcat(a, b);
      RowMapMore(a, row);
      RowMapConcat(a + [row], b);
    }

    /** Values compare equal one by one. */
    method RowValuesEqual(a: Row, b: Row) returns (equal: bool)
      ensures equal <==> a.values == b.values
    {
      if |a.values| != |b.values| { return false; }
      var i := 0;
      while i < |a.values|
        invariant i <= |a.values| && a.values[..i] == b.values[..i]
      {
        if TypeOf(a.values[i]) != TypeOf(b.values[i]) { return false; }
        CompareEqual(a.values[i], b.values[i]);
        if CompareValues(a.values[i], b.values[i]) != 0 { return false; }
        assert a.values[..i + 1] == a.values[..i] + [a.values[i]] && b.values[..i + 1] == b.values[..i] + [b.values[i]];
        i := i + 1;
      }
      assert a.values[..|a.values|] == a.values && b.values[..|b.values|] == b.values;
      return true;
    }

    /** The changes recorded so far move every row in `settled` and no other. */
    ghost predicate Recording(cs: seq<Change>, current: RowsById, target: RowsById, settled: set<RowId>) {
      && (forall i :: 0 <= i < |cs| ==> Moves(cs[i], current, target) && IdOf(cs[i]) in settled)
      && (forall i, j :: 0 <= i < j < |cs| ==> IdOf(cs[i]) != IdOf(cs[j]))
      && (forall id :: id in settled && Differ(current, target, id) ==> Touches(cs, id))
    }

    lemma RecordingMore(cs: seq<Change>, current: RowsById, target: RowsById, settled: set<RowId>, c: Change)
      requires Recording(cs, current, target, settled) && Moves(c, current, target) && IdOf(c) !in settled
      ensures Recording(cs + [c], current, target, settled + {IdOf(c)})
    {
      hide Moves, Differ;
      var cs' := cs + [c];
      forall id ensures Touches(cs', id) <==> Touches(cs, id) || id == IdOf(c) {
        assert cs'[..|cs'| - 1] == cs;
        TouchesMore(cs', id);
      }
    }

    lemma RecordingSkip(cs: seq<Change>, current: RowsById, target: RowsById, settled: set<RowId>, id: RowId)
      requires Recording(cs, current, target, settled) && !Differ(current, target, id)
      ensures Recording(cs, current, target, settled + {id})
    {
      hide Moves, Touches;
    }

    /** Records how the current rows become the target's: first the rows there are, then the rows that come back. */
    method RecordDelta(current: RowsById, target: RowsById, clock: Clock) returns (ghost cs: seq<Change>)
      requires WellKeyed(current) && WellKeyed(target)
      modifies store
      ensures IsDelta(cs, current, target)
      ensures State() == old(State()).(history := Recorded(old(State().history), cs, clock))
      ensures Logs(old(store.records), store.records, database, table)
    {
      hide Recorded, Differ, Touches, Recording, Moves;
      cs := [];
      ghost var start, settled: set<RowId> := State().history, {};
      RecordedMore(start, [], Change(DeleteRow, None, None), clock);
      NothingRecorded(current, target);
      var ids := current.Keys;
      while ids != {}
        invariant ids <= current.Keys && settled == current.Keys - ids && Recording(cs, current, target, settled)
        invariant State() == old(State()).(history := Recorded(start, cs, clock))
        invariant Logs(old(store.records), store.records, database, table)
        decreases ids
      {
        var id :| id in ids;
        cs := RecordOne(id, current, target, clock, cs, start, settled);
        ids := ids - {id};
        settled := settled + {id};
      }
      ids := target.Keys;
      while ids != {}
        invariant ids <= target.Keys && settled == current.Keys + (target.Keys - ids)
          && Recording(cs, current, target, settled)
        invariant State() == old(State()).(history := Recorded(start, cs, clock))
        invariant Logs(old(store.records), store.records, database, table)
        decreases ids
      {
        var id :| id in ids;
        if id !in current {
          var change := Change(InsertRow, None, Some(target[id]));
          MovesIn(change, current, target, id);
          Record(change, clock);
          RecordedMore(start, cs, change, clock);
          RecordingMore(cs, current, target, settled, change);
          cs := cs + [change];
        } else {
          assert settled + {id} == settled;
        }
        settled := settled + {id};
        ids := ids - {id};
      }
      RecordingDone(cs, current, target, settled);
    }

    lemma NothingRecorded(current: RowsById, target: RowsById)
      ensures Recording([], current, target, {})
    {
    }

    lemma MovesIn(c: Change, current: RowsById, target: RowsById, id: RowId)
      requires WellKeyed(target) && id in target && id !in current && c == Change(InsertRow, None, Some(target[id]))
      ensures Moves(c, current, target) && IdOf(c) == id
    {
    }

    lemma RecordingDone(cs: seq<Change>, current: RowsById, target: RowsById, settled: set<RowId>)
      requires Recording(cs, current, target, settled) && settled == current.Keys + target.Keys
      ensures IsDelta(cs, current, target)
    {
      hide Moves, Differ, Touches;
    }

    /** One current row: gone in the target, changed in it, or the same. */
    method RecordOne(id: RowId, current: RowsById, target: RowsById, clock: Clock,
                     ghost cs: seq<Change>, ghost start: seq<Event>, ghost settled: set<RowId>)
      returns (ghost cs': seq<Change>)
      requires WellKeyed(current) && WellKeyed(target) && id in current && id !in settled
      requires Recording(cs, current, target, settled) && State().history == Recorded(start, cs, clock)
      modifies store
      ensures Recording(cs', current, target, settled + {id})
      ensures State() == old(State()).(history := Recorded(start, cs', clock))
      ensures Logs(old(store.records), store.records, database, table)
    {
      hide Recorded, Touches, Recording;
      cs' := cs;
      if id !in target {
        var change := Change(DeleteRow, Some(current[id]), None);
        Record(change, clock);
        RecordedMore(start, cs, change, clock);
        RecordingMore(cs, current, target, settled, change);
        cs' := cs + [change];
        return;
      }
      var equal := RowValuesEqual(current[id], target[id]);
      if !equal {
        var change := Change(UpdateRow, Some(current[id]), Some(target[id]));
        Record(change, clock);
        RecordedMore(start, cs, change, clock);
        RecordingMore(cs, current, target, settled, change);
        cs' := cs + [change];
      } else {
        RecordingSkip(cs, current, target, settled, id);
      }
    }

    /** Rows that the history mentions fit the schema, unless they are of another shape (of an earlier table of the
        name). */
    ghost predicate PastFits(h: seq<Event>) {
      forall i :: 0 <= i < |h| && h[i].change.after.Some? && |h[i].change.after.value.values| == |schema| ==>
        Conforms(h[i].change.after.value, schema)
    }

    lemma {:induction false} ReplayFits(h: seq<Event>, t: Time)
      requires PastFits(h)
      ensures forall id :: id in Replay(h, t) && |Replay(h, t)[id].values| == |schema| ==>
        Conforms(Replay(h, t)[id], schema)
    {
      hide Conforms;
      if h != [] {
        var n := |h| - 1;
        ReplayFits(h[..n], t);
        var before := Replay(h[..n], t);
        if h[n].time <= t {
          ApplyMore(map[], UpTo(h[..n], t), h[n].change);
          assert Replay(h, t) == Apply(before, h[n].change);
          ApplyFits(before, h[n].change);
        } else {
          assert Replay(h, t) == before;
        }
      }
    }

    lemma ApplyFits(m: RowsById, c: Change)
      requires forall id :: id in m && |m[id].values| == |schema| ==> Conforms(m[id], schema)
      requires c.after.Some? && |c.after.value.values| == |schema| ==> Conforms(c.after.value, schema)
      ensures forall id :: id in Apply(m, c) && |Apply(m, c)[id].values| == |schema| ==>
        Conforms(Apply(m, c)[id], schema)
    {
      hide Conforms;
    }

    lemma ListedFits(h: seq<Event>, t: Time, rows: seq<Row>)
      requires PastFits(h) && Lists(rows, Replay(h, t)) && Shaped(rows, schema)
      ensures AllConform(rows, schema)
    {
      hide Conforms, RowMap, Replay;
      ReplayFits(h, t);
      forall i | 0 <= i < |rows| ensures Conforms(rows[i], schema) { RowMapAt(rows, i); }
    }

    method ChooseTime(mode: Mode) returns (target: Option<Time>)
      requires !mode.Malformed?
      ensures target == TargetTime(State().history, mode)
    {
      match mode
      case ToLatest => target := store.LatestTimestampForTable(database, table);
      case AtOrBefore(t) => target := store.LatestTimestampAtOrBefore(database, table, t);
      case Exact(t) =>
        var has := store.HasExactTimestampForTable(database, table, t);
        target := if has then Some(t) else None;
    }

    method CheckShape(rows: seq<Row>) returns (ok: bool)
      ensures ok <==> Shaped(rows, schema)
    {
      var i := 0;
      while i < |rows|
        invariant i <= |rows| && forall j :: 0 <= j < i ==> |rows[j].values| == |schema|
      {
        if |rows[i].values| != |schema| { return false; }
        i := i + 1;
      }
      return true;
    }

    /** REVERT: the target rows are replayed, the difference recorded, the indexes rebuilt and the heap replaced. */
    method Revert(mode: Mode, clock: Clock) returns (error: Option<Error>, ghost rows: seq<Row>, ghost cs: seq<Change>)
      requires PastFits(State().history) && Ascending(heap.rows)
      modifies this, heap, store
      ensures Reverts(old(State()), schema, mode, clock, rows, cs, Outcome(State(), error))
      ensures Logs(old(store.records), store.records, database, table)
    {
      hide Recorded, CanRebuild, Rebuilt, AllConform, IsDelta, Replay, TargetTime, Lists, PastFits, Shaped, RowMap;
      rows, cs := [], [];
      if mode.Malformed? { return Some(ValidationError), rows, cs; }
      ghost var start := State();
      var target := ChooseTime(mode);
      if target.None? { return Some(NotFound), rows, cs; }
      var past := ReconstructTableStateAt(target.value);
      rows := past;
      var shaped := CheckShape(past);
      if !shaped { return Some(ValidationError), rows, cs; }
      ListedFits(start.history, target.value, past);
      RowMapWellKeyed(heap.rows);
      RowMapWellKeyed(past);
      cs := RecordDelta(RowMap(heap.rows), RowMap(past), clock);
      error := Install(past);
    }

    // ---------- cloning and checking ----------

    /** A private copy for a transaction, with the transaction's copy of the change log: rows are inserted with their
        ids, indexes filled row by row. */
    method Clone(log: VersionStore) returns (copy: TableRuntime)
      requires Ready() && AllIndexable(heap.rows, schema)
      ensures fresh(copy) && fresh(copy.heap) && copy.store == log
      ensures copy.schema == schema && copy.database == database && copy.table == table
      ensures copy.heap.rows == heap.rows && copy.heap.nextRowId == NextId(heap.rows)
      ensures copy.indexes == Rebuilt(heap.rows, schema)
    {
      hide BuildIndex, KeyOf, Indexable, FindColumnIndex, MapInsert;
      copy := new TableRuntime.Copying(schema, database, table, log);
      var rows := heap.rows;
      var i := 0;
      while i < |rows|
        invariant i <= |rows| && fresh(copy) && fresh(copy.heap)
        invariant copy.heap.rows == rows[..i] && copy.heap.nextRowId == NextId(rows[..i])
        invariant copy.indexes == map name | name in Indexes(schema) :: map[]
      {
        assert rows[..i + 1][..i] == rows[..i];
        var id := copy.heap.Insert(Some(rows[i].id), rows[i].values);
        i := i + 1;
      }
      assert rows[..|rows|] == rows;
      copy.FillIndexes(rows);
    }

    constructor Copying(schema: Schema, database: string, table: string, store: VersionStore)
      ensures this.schema == schema && this.database == database && this.table == table && this.store == store
      ensures fresh(heap) && heap.rows == [] && heap.nextRowId == 0
      ensures indexes == map name | name in Indexes(schema) :: map[]
    {
      this.schema, this.database, this.table, this.store := schema, database, table, store;
      heap := new TableHeap();
      indexes := map name | name in Indexes(schema) :: map[];
    }

    /** Every row joins every index, without looking for duplicates. */
    method FillIndexes(rows: seq<Row>)
      requires AllIndexable(rows, schema) && indexes == map name | name in Indexes(schema) :: map[]
      modifies this
      ensures indexes == Rebuilt(rows, schema)
    {
      hide KeyOf, FindColumnIndex, MapInsert, Indexable, BuildIndex;
      var i := 0;
      NothingRebuilt();
      assert rows[..0] == [];
      while i < |rows|
        invariant i <= |rows| && AllIndexable(rows[..i], schema) && indexes == Rebuilt(rows[..i], schema)
      {
        RebuiltMore(rows, i);
        AddToIndexes(rows[i]);
        i := i + 1;
      }
      assert rows[..|rows|] == rows;
    }

    lemma NothingRebuilt()
      ensures Rebuilt([], schema) == map name | name in Indexes(schema) :: map[]
    {
    }

    lemma RebuiltMore(rows: seq<Row>, i: nat)
      requires i < |rows| && AllIndexable(rows, schema)
      ensures AllIndexable(rows[..i], schema) && AllIndexable(rows[..i + 1], schema)
      ensures Rebuilt(rows[..i + 1], schema)
           == map name | name in Indexes(schema) ::
             MapInsert(Rebuilt(rows[..i], schema)[name], IndexKey(rows[i], schema, name), rows[i].id)
    {
      hide KeyOf, FindColumnIndex, MapInsert;
      assert rows[..i + 1][..i] == rows[..i];
    }

    /** CHECK INDEX: every row of the heap is the only one under its key, and the index finds it. */
    method ValidateIndexConsistency() returns (ok: bool)
      requires Ready() && AllIndexable(heap.rows, schema)
      ensures ok <==> forall name :: name in Indexes(schema) ==> FindsEveryRow(indexes[name], heap.rows, name)
    {
      hide KeyOf, FindColumnIndex, Indexable;
      var names := Indexes(schema);
      while names != {}
        invariant names <= Indexes(schema)
        invariant forall name :: name in Indexes(schema) - names ==> FindsEveryRow(indexes[name], heap.rows, name)
        decreases names
      {
        var name :| name in names;
        var fine := CheckOneIndex(name);
        if !fine { return false; }
        names := names - {name};
      }
      return true;
    }

    ghost predicate FindsEveryRow(m: Index, rows: seq<Row>, name: string)
      requires name in Indexes(schema) && AllIndexable(rows, schema)
    {
      && DistinctKeys(rows, ColumnOf(schema, name), TypeAt(schema, name))
      && forall i :: 0 <= i < |rows| ==> MapFind(m, IndexKey(rows[i], schema, name)) == [rows[i].id]
    }

    method CheckOneIndex(name: string) returns (ok: bool)
      requires Ready() && AllIndexable(heap.rows, schema) && name in Indexes(schema)
      ensures ok <==> FindsEveryRow(indexes[name], heap.rows, name)
    {
      hide EncodeIndexKey, FindColumnIndex, MapFind;
      var seen: set<Keys.Key> := {};
      var i := 0;
      while i < |heap.rows|
        invariant i <= |heap.rows|
        invariant seen == set j | 0 <= j < i :: IndexKey(heap.rows[j], schema, name)
        invariant forall j, k :: 0 <= j < k < i ==>
          IndexKey(heap.rows[j], schema, name) != IndexKey(heap.rows[k], schema, name)
        invariant forall j :: 0 <= j < i ==>
          MapFind(indexes[name], IndexKey(heap.rows[j], schema, name)) == [heap.rows[j].id]
      {
        var key := IndexKey(heap.rows[i], schema, name);
        if key in seen { return false; }
        seen := seen + {key};
        var found := MapFind(indexes[name], key);
        if |found| != 1 || found[0] != heap.rows[i].id { return false; }
        i := i + 1;
      }
      return true;
    }

    /** REBUILD INDEX: indexes are dropped and filled again, then checked. */
    method RebuildAndCheck() returns (ok: bool)
      requires AllIndexable(heap.rows, schema)
      modifies this
      ensures indexes == Rebuilt(heap.rows, schema)
      ensures ok <==> forall name :: name in Indexes(schema) ==> FindsEveryRow(indexes[name], heap.rows, name)
    {
      hide KeyOf, FindColumnIndex, Indexable, BuildIndex;
      indexes := map name | name in Indexes(schema) :: map[];
      var rows := heap.ScanAll();
      FillIndexes(rows);
      ok := ValidateIndexConsistency();
    }

    /** On a table that is consistent, with its history or with another one, a clone is exact, CHECK INDEX passes, and
        REBUILD INDEX changes nothing. */
    lemma ConsistentMeansExact(h: seq<Event>)
      requires Consistent(State().(history := h), schema)
      ensures Ready() && AllIndexable(heap.rows, schema)
      ensures NextId(heap.rows) == heap.nextRowId && Rebuilt(heap.rows, schema) == indexes
      ensures forall name :: name in Indexes(schema) ==> FindsEveryRow(indexes[name], heap.rows, name)
    {
      hide KeyOf, FindColumnIndex, Indexable, BuildIndex, RowMap, ReplayAll, Conforms;
      SelfRebuild(State().(history := h), schema);
      forall name | name in Indexes(schema) ensures FindsEveryRow(indexes[name], heap.rows, name) {
        assert Agrees(indexes[name], heap.rows, ColumnOf(schema, name), TypeAt(schema, name));
        assert DistinctKeys(heap.rows, ColumnOf(schema, name), TypeAt(schema, name));
      }
    }
  }
}
