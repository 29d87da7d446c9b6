/** A sharded table over whole runs: every row stays on the node that its shard key hashes to, so statements that are
    sent to one node reach every row that they are about. */
module ShardedCluster {
  import opened Wrappers
  import opened Values
  import opened Predicates
  import opened SortedMap
  import opened TableIndex
  import opened History
  import opened TableStatements
  import opened TableChanges
  import opened TableRevert
  import opened TableRuns
  import opened TableEffects
  import opened RenderedLiterals
  import opened ShardRouting

  // ---------- where a statement goes ----------

  datatype Destination = Everywhere | OneNode(node: nat) | Refused

  /** Modifications without a clause and queries that fix no shard key go everywhere; a modification whose clause fixes
      no shard key is refused. */
  function DestinationOf(query: bool, where: Option<Expr>, schema: Schema, nodes: nat, hash: Hash): (d: Destination)
    requires nodes > 0
  {
    if !query && where.None? then Everywhere
    else match RouteNodeIndex(where, schema, nodes, hash)
      case Some(i) => OneNode(i)
      case None => if query then Everywhere else Refused
  }

  /** The parts of a clause that are joined by AND. */
  function Conjuncts(e: Expr): seq<Expr> {
    match e
    case Logical(And, left, right) => Conjuncts(left) + Conjuncts(right)
    case _ => [e]
  }

  /** `key == literal`, either way round. */
  predicate FixesKey(e: Expr, shardKey: string) {
    e.Compare? && e.op == Equal
    && ((e.left == ColumnRef(shardKey) && e.right.Literal?) || (e.right == ColumnRef(shardKey) && e.left.Literal?))
  }

  predicate SomeFixesKey(parts: seq<Expr>, shardKey: string) {
    exists i :: 0 <= i < |parts| && FixesKey(parts[i], shardKey)
  }

  lemma SomeOfBoth(l: seq<Expr>, r: seq<Expr>, shardKey: string)
    ensures SomeFixesKey(l + r, shardKey) <==> SomeFixesKey(l, shardKey) || SomeFixesKey(r, shardKey)
  {
    hide FixesKey;
    if SomeFixesKey(l, shardKey) {
      var i :| 0 <= i < |l| && FixesKey(l[i], shardKey);
      assert (l + r)[i] == l[i];
    }
    if SomeFixesKey(r, shardKey) {
      var i :| 0 <= i < |r| && FixesKey(r[i], shardKey);
      assert (l + r)[|l| + i] == r[i];
    }
  }

  lemma {:induction false} ExtractsFromConjuncts(e: Expr, shardKey: string)
    ensures TryExtractShardKeyValue(e, shardKey).Some? <==> SomeFixesKey(Conjuncts(e), shardKey)
  {
    match e
    case Logical(And, left, right) =>
      ExtractsFromConjuncts(left, shardKey);
      ExtractsFromConjuncts(right, shardKey);
      SomeOfBoth(Conjuncts(left), Conjuncts(right), shardKey);
    case _ => assert Conjuncts(e)[0] == e;
  }

  /** UPDATE and DELETE are refused if and only if they have a clause, and the table has no shard key or no part of the
      clause fixes it. */
  lemma RefusedExactly(where: Option<Expr>, schema: Schema, nodes: nat, hash: Hash)
    requires nodes > 0
    ensures DestinationOf(false, where, schema, nodes, hash) == Refused <==>
      where.Some? &&
      (ResolveShardKeyColumn(schema).None? ||
       !SomeFixesKey(Conjuncts(where.value), ResolveShardKeyColumn(schema).value))
  {
    hide SomeFixesKey, Conjuncts, TryExtractShardKeyValue;
    if where.Some? && ResolveShardKeyColumn(schema).Some? {
      ExtractsFromConjuncts(where.value, ResolveShardKeyColumn(schema).value);
    }
  }

  /** The literal that a part fixes the key to. */
  function FixedTo(e: Expr, shardKey: string): Value
    requires FixesKey(e, shardKey)
  {
    if e.right.Literal? then e.right.value else e.left.value
  }

  predicate FirstFixesKey(parts: seq<Expr>, shardKey: string, k: nat) {
    k < |parts| && FixesKey(parts[k], shardKey) && forall j :: 0 <= j < k ==> !FixesKey(parts[j], shardKey)
  }

  lemma {:induction false} FirstFixesIs(e: Expr, shardKey: string, k: nat)
    requires FirstFixesKey(Conjuncts(e), shardKey, k)
    ensures TryExtractShardKeyValue(e, shardKey) == Some(FixedTo(Conjuncts(e)[k], shardKey))
  {
    hide FixesKey, FixedTo;
    match e
    case Logical(And, left, right) =>
      var l, r := Conjuncts(left), Conjuncts(right);
      if k < |l| {
        forall j | 0 <= j <= k ensures l[j] == Conjuncts(e)[j] {}
        FirstFixesIs(left, shardKey, k);
      } else {
        forall j | 0 <= j < |l| ensures l[j] == Conjuncts(e)[j] {}
        forall j | 0 <= j <= k - |l| ensures r[j] == Conjuncts(e)[|l| + j] {}
        ExtractsFromConjuncts(left, shardKey);
        FirstFixesIs(right, shardKey, k - |l|);
      }
    case _ => PartFixes(e, shardKey);
  }

  lemma PartFixes(e: Expr, shardKey: string)
    requires FixesKey(e, shardKey)
    ensures TryExtractShardKeyValue(e, shardKey) == Some(FixedTo(e, shardKey))
  {
  }

  /** A statement goes to the node of the first value that a part of its clause fixes the shard key to. */
  lemma SentToOne(query: bool, where: Expr, schema: Schema, nodes: nat, hash: Hash, k: nat)
    requires nodes > 0 && ResolveShardKeyColumn(schema).Some?
    requires FirstFixesKey(Conjuncts(where), ResolveShardKeyColumn(schema).value, k)
    ensures DestinationOf(query, Some(where), schema, nodes, hash)
      == OneNode(RouteValueToNode(FixedTo(Conjuncts(where)[k], ResolveShardKeyColumn(schema).value), nodes, hash))
  {
    hide FixesKey, FixedTo, Conjuncts, TryExtractShardKeyValue, ResolveShardKeyColumn;
    FirstFixesIs(where, ResolveShardKeyColumn(schema).value, k);
  }

  /** A query goes everywhere if and only if no part of its clause fixes the shard key, a modification if and only if it
      has no clause. */
  lemma SentEverywhere(query: bool, where: Option<Expr>, schema: Schema, nodes: nat, hash: Hash)
    requires nodes > 0
    ensures DestinationOf(query, where, schema, nodes, hash) == Everywhere <==>
      where.None?
      || (query && (ResolveShardKeyColumn(schema).None?
                    || !SomeFixesKey(Conjuncts(where.value), ResolveShardKeyColumn(schema).value)))
  {
    hide SomeFixesKey, Conjuncts, TryExtractShardKeyValue, ResolveShardKeyColumn;
    if where.Some? && ResolveShardKeyColumn(schema).Some? {
      ExtractsFromConjuncts(where.value, ResolveShardKeyColumn(schema).value);
    }
  }

  function KeyIs(i: Int64): Expr {
    Compare(Equal, ColumnRef("k"), Literal(Int(i)))
  }

  /** For instance: a clause that names two values of the shard key. */
  lemma TwoValuesRefused(nodes: nat, hash: Hash)
    requires nodes > 0
    ensures DestinationOf(false, Some(Logical(Or, KeyIs(1), KeyIs(2))), ONE_COLUMN, nodes, hash) == Refused
    ensures DestinationOf(false, Some(KeyIs(1)), ONE_COLUMN, nodes, hash)
      == OneNode(RouteValueToNode(Int(1), nodes, hash))
  {
    assert FirstIndexed(ONE_COLUMN, true) == Some("k");
  }

  // ---------- runs of a cluster ----------

  datatype Step =
    | SendInsert(columns: seq<string>, inputs: seq<seq<Expr>>)
    | SendUpdate(where: Option<Expr>, assignments: seq<Assignment>)
    | SendDelete(where: Option<Expr>)
    | SendRevert(mode: Mode)

  /** The literals of one row as the node reads them. */
  function AsLiterals(values: seq<Value>): seq<Expr> {
    seq(|values|, i requires 0 <= i < |values| => Literal(Reread(values[i])))
  }

  function AllLiterals(rows: seq<seq<Value>>): seq<seq<Expr>> {
    seq(|rows|, i requires 0 <= i < |rows| => AsLiterals(rows[i]))
  }

  predicate AllDifferent(names: seq<string>) {
    forall i, j :: 0 <= i < j < |names| ==> names[i] != names[j]
  }

  /** What the parser and the coordinator let through: distinct columns, rows of their number of literals, and a shard
      key, which is not NULL. */
  ghost predicate Accepted(step: Step, schema: Schema) {
    && ResolveShardKeyColumn(schema).Some?
    && match step
       case SendInsert(columns, inputs) =>
         && AllDifferent(columns) && (forall i :: 0 <= i < |inputs| ==> |inputs[i]| == |columns|)
         && Position(columns, ResolveShardKeyColumn(schema).value).Some?
         && var shardAt := Position(columns, ResolveShardKeyColumn(schema).value).value;
            Splittable(inputs, shardAt) && forall i :: 0 <= i < |inputs| ==> inputs[i][shardAt] != Literal(Null)
       case _ => true
  }

  /** No backslash or quote in an inserted shard key, and no assignment to the shard key. */
  ghost predicate KeepsPlaces(step: Step, schema: Schema)
    requires Accepted(step, schema)
  {
    match step
    case SendInsert(columns, inputs) =>
      var shardAt := Position(columns, ResolveShardKeyColumn(schema).value).value;
      forall i :: 0 <= i < |inputs| ==> inputs[i][shardAt].Literal? && Unescaped(inputs[i][shardAt].value)
    case SendUpdate(_, assignments) =>
      forall i :: 0 <= i < |assignments| ==> FindColumnIndex(schema, assignments[i].column) != Some(ShardColumn(schema))
    case _ => true
  }

  ghost predicate Allowed(step: Step, schema: Schema) {
    Accepted(step, schema) && KeepsPlaces(step, schema)
  }

  /** What the coordinator sends to a node: its share of an INSERT, else the statement itself. */
  ghost function CommandFor(step: Step, schema: Schema, node: nat, nodes: nat, hash: Hash): TableCommand
    requires Accepted(step, schema) && node < nodes
  {
    match step
    case SendInsert(columns, inputs) =>
      var shardAt := Position(columns, ResolveShardKeyColumn(schema).value).value;
      RowsWide(inputs, shardAt);
      InsertValues(columns, AllLiterals(Share(Rows(inputs), shardAt, nodes, hash, node)))
    case SendUpdate(where, assignments) => UpdateRows(where, assignments)
    case SendDelete(where) => DeleteRows(where)
    case SendRevert(mode) => RevertTable(mode)
  }

  lemma RowsWide(inputs: seq<seq<Expr>>, shardAt: nat)
    requires Splittable(inputs, shardAt)
    ensures forall i :: 0 <= i < |inputs| ==> Literals(inputs[i]).Some? && |Rows(inputs)[i]| == |inputs[i]|
    ensures forall i :: 0 <= i < |Rows(inputs)| ==> shardAt < |Rows(inputs)[i]|
  {
    hide Literals;
    forall i | 0 <= i < |inputs| ensures |Rows(inputs)[i]| == |inputs[i]| { LiteralsLength(inputs[i]); }
  }

  /** Every node runs its command, with whatever outcome, or does not get it. */
  ghost predicate Reaches(c: seq<TableState>, step: Step, schema: Schema, hash: Hash, c': seq<TableState>)
    requires Accepted(step, schema)
  {
    |c'| == |c| && forall i :: 0 <= i < |c| ==>
      c'[i] == c[i] || Runs(c[i], c'[i], schema, CommandFor(step, schema, i, |c|, hash))
  }

  ghost predicate Runs(s: TableState, s': TableState, schema: Schema, command: TableCommand) {
    exists clock, error :: Effect(s, schema, command, clock, Outcome(s', error))
  }

  /** A table without rows, and without rows in its history. */
  ghost predicate Empty(s: TableState) {
    s.rows == [] && forall i :: 0 <= i < |s.history| ==> s.history[i].change.after.None?
  }

  ghost predicate IsRun(cs: seq<seq<TableState>>, steps: seq<Step>, schema: Schema, hash: Hash) {
    && |cs| == |steps| + 1 && (forall i :: 0 <= i < |cs[0]| ==> Empty(cs[0][i]))
    && (forall k :: 0 <= k < |steps| ==> Allowed(steps[k], schema))
    && forall k, n :: 0 <= k && k + 1 == n < |cs| ==> Reaches(cs[k], steps[k], schema, hash, cs[n])
  }

  // ---------- rows stay where they belong ----------

  /** The row is of the schema's shape and its shard key hashes to the node. */
  predicate Belongs(row: Row, schema: Schema, c: nat, node: nat, nodes: nat, hash: Hash)
    requires nodes > 0 && c < |schema|
  {
    |row.values| == |schema| && !row.values[c].Null? && RouteValueToNode(row.values[c], nodes, hash) == node
  }

  ghost predicate ChangesBelong(cs: seq<Change>, schema: Schema, c: nat, node: nat, nodes: nat, hash: Hash)
    requires nodes > 0 && c < |schema|
  {
    forall i :: 0 <= i < |cs| && cs[i].after.Some? ==> Belongs(cs[i].after.value, schema, c, node, nodes, hash)
  }

  ghost predicate HistoryBelongs(h: seq<Event>, schema: Schema, c: nat, node: nat, nodes: nat, hash: Hash)
    requires nodes > 0 && c < |schema|
  {
    forall i :: 0 <= i < |h| && h[i].change.after.Some? ==>
      Belongs(h[i].change.after.value, schema, c, node, nodes, hash)
  }

  /** Every row that the node holds or has held belongs there. */
  ghost predicate Settles(s: TableState, schema: Schema, c: nat, node: nat, nodes: nat, hash: Hash)
    requires nodes > 0 && c < |schema|
  {
    BelongOn(s.rows, schema, c, node, nodes, hash) && HistoryBelongs(s.history, schema, c, node, nodes, hash)
  }

  lemma RecordedBelongs(h: seq<Event>, cs: seq<Change>, clock: Clock, schema: Schema, c: nat, node: nat, nodes: nat,
                        hash: Hash)
    requires nodes > 0 && c < |schema| && HistoryBelongs(h, schema, c, node, nodes, hash)
      && ChangesBelong(cs, schema, c, node, nodes, hash)
    ensures HistoryBelongs(Recorded(h, cs, clock), schema, c, node, nodes, hash)
  {
    hide Belongs;
  }

  // ---------- INSERT ----------

  lemma {:induction false} PositionsFind(schema: Schema, names: seq<string>, k: nat)
    requires Positions(schema, names).Ok? && k < |names|
    ensures FindColumnIndex(schema, names[k]) == Some(Positions(schema, names).value[k])
  {
    hide FindColumnIndex;
    if k + 1 < |names| { PositionsFind(schema, names[..|names| - 1], k); }
  }

  /** The literal at the only position that stands for a column is placed there. */
  lemma {:induction false} PlacedThere(schema: Schema, positions: seq<nat>, input: seq<Expr>, k: nat)
    requires |input| <= |positions| && k < |input| && forall i :: 0 <= i < |positions| ==> positions[i] < |schema|
    requires forall j :: 0 <= j < |positions| && j != k ==> positions[j] != positions[k]
    requires Placed(schema, positions, input).Ok?
    ensures input[k].Literal? && Placed(schema, positions, input).value[positions[k]] == input[k].value
  {
    var n := |input| - 1;
    if k < n { PlacedThere(schema, positions, input[..n], k); }
  }

  lemma InsertOneSettles(s: TableState, schema: Schema, values: seq<Value>, clock: Clock, c: nat, node: nat,
                         nodes: nat, hash: Hash)
    requires nodes > 0 && c < |schema| && Settles(s, schema, c, node, nodes, hash)
    requires s.indexes.Keys == Indexes(schema) && |values| == |schema| && InsertOne(s, schema, values, clock).Ok?
    requires !values[c].Null? && RouteValueToNode(values[c], nodes, hash) == node
    ensures Settles(InsertOne(s, schema, values, clock).value, schema, c, node, nodes, hash)
  {
    hide KeyTaken, NoIndexedNull, IndexKey, MapInsert, Recorded, Indexes, RouteValueToNode;
    var row := Row(s.next, Validated(values, schema).value);
    ConformingIsIndexable(row, schema);
    ValidatedKeeps(values, schema, c);
    BelongMore(s.rows, row, schema, c, node, nodes, hash);
    RecordedBelongs(s.history, [Change(InsertRow, None, Some(row))], clock, schema, c, node, nodes, hash);
  }

  /** Every input row has, at the position of the shard key, a value of its own that hashes to the node. */
  ghost predicate Destined(inputs: seq<seq<Expr>>, positions: seq<nat>, shardAt: nat, node: nat, nodes: nat, hash: Hash)
    requires nodes > 0
  {
    && shardAt < |positions|
      && (forall j :: 0 <= j < |positions| && j != shardAt ==> positions[j] != positions[shardAt])
    && forall i :: 0 <= i < |inputs| ==>
         && |inputs[i]| == |positions| && inputs[i][shardAt].Literal? && !inputs[i][shardAt].value.Null?
         && RouteValueToNode(inputs[i][shardAt].value, nodes, hash) == node
  }

  lemma {:induction false} InsertSettles(s: TableState, schema: Schema, positions: seq<nat>, inputs: seq<seq<Expr>>,
                                         clock: Clock,
                                         shardAt: nat, node: nat, nodes: nat, hash: Hash)
    requires nodes > 0 && s.indexes.Keys == Indexes(schema)
    requires forall i :: 0 <= i < |positions| ==> positions[i] < |schema|
    requires forall i :: 0 <= i < |inputs| ==> |inputs[i]| <= |positions|
    requires Destined(inputs, positions, shardAt, node, nodes, hash)
      && Settles(s, schema, positions[shardAt], node, nodes, hash)
    ensures Settles(InsertRows(s, schema, positions, inputs, clock).state, schema, positions[shardAt], node, nodes,
      hash)
  {
    hide InsertOne, Placed, Settles, RouteValueToNode, Indexes;
    if inputs != [] {
      var n, c := |inputs| - 1, positions[shardAt];
      InsertSettles(s, schema, positions, inputs[..n], clock, shardAt, node, nodes, hash);
      var before := InsertRows(s, schema, positions, inputs[..n], clock);
      if before.error.None? && Placed(schema, positions, inputs[n]).Ok? {
        var values := Placed(schema, positions, inputs[n]).value;
        PlacedThere(schema, positions, inputs[n], shardAt);
        if InsertOne(before.state, schema, values, clock).Ok? {
          InsertOneSettles(before.state, schema, values, clock, c, node, nodes, hash);
        }
      }
    }
  }

  /** A share holds rows of the INSERT that hash to its node. */
  lemma {:induction false} ShareRows(rows: seq<seq<Value>>, shardAt: nat, nodes: nat, hash: Hash, node: nat)
    requires nodes > 0 && forall i :: 0 <= i < |rows| ==> shardAt < |rows[i]|
    ensures forall r :: r in Share(rows, shardAt, nodes, hash, node) ==>
      r in rows && RouteValueToNode(r[shardAt], nodes, hash) == node
  {
    hide RouteValueToNode;
    if rows != [] {
      var n := |rows| - 1;
      ShareRows(rows[..n], shardAt, nodes, hash, node);
      assert rows == rows[..n] + [rows[n]];
    }
  }

  lemma {:induction false} LiteralsAt(input: seq<Expr>, k: nat)
    requires Literals(input).Some? && k < |input|
    ensures |Literals(input).value| == |input| && input[k] == Literal(Literals(input).value[k])
  {
    LiteralsLength(input);
    var n := |input| - 1;
    LiteralsLength(input[..n]);
    if k < n { LiteralsAt(input[..n], k); }
  }

  lemma ShareDestined(columns: seq<string>, inputs: seq<seq<Expr>>, schema: Schema, positions: seq<nat>, node: nat,
                      nodes: nat, hash: Hash)
    requires Allowed(SendInsert(columns, inputs), schema) && node < nodes && Positions(schema, columns) == Ok(positions)
    ensures var shardAt := Position(columns, ResolveShardKeyColumn(schema).value).value;
      && shardAt < |columns| && positions[shardAt] == ShardColumn(schema)
      && Destined(CommandFor(SendInsert(columns, inputs), schema, node, nodes, hash).inputs, positions, shardAt, node,
        nodes, hash)
  {
    hide RouteValueToNode, ResolveShardKeyColumn, Position, Literals, Positions, Reread, Unescaped;
    var shardKey := ResolveShardKeyColumn(schema).value;
    var shardAt := Position(columns, shardKey).value;
    RowsWide(inputs, shardAt);
    var rows: seq<seq<Value>> := Rows(inputs);
    var share: seq<seq<Value>> := Share(rows, shardAt, nodes, hash, node);
    ShareRows(rows, shardAt, nodes, hash, node);
    PositionIs(columns, shardKey);
    PositionsFind(schema, columns, shardAt);
    forall j | 0 <= j < |positions| && j != shardAt ensures positions[j] != positions[shardAt] {
      PositionsFind(schema, columns, j);
      FoundHasName(schema, columns[j]);
      FoundHasName(schema, columns[shardAt]);
    }
    forall i | 0 <= i < |share|
      ensures |share[i]| == |columns| && !share[i][shardAt].Null? && Reread(share[i][shardAt]) == share[i][shardAt]
      ensures RouteValueToNode(share[i][shardAt], nodes, hash) == node
    {
      assert share[i] in share;
      var k :| 0 <= k < |rows| && rows[k] == share[i];
      LiteralsAt(inputs[k], shardAt);
      RereadExact(share[i][shardAt]);
    }
  }

  lemma PositionIs(names: seq<string>, name: string)
    requires Position(names, name).Some?
    ensures Position(names, name).value < |names| && names[Position(names, name).value] == name
  {
  }

  lemma FoundHasName(schema: Schema, name: string)
    ensures FindColumnIndex(schema, name).Some? ==> schema[FindColumnIndex(schema, name).value].name == name
  {
  }

  // ---------- UPDATE, DELETE and REVERT ----------

  lemma {:induction false} UpdateChangesBelong(rows: seq<Row>, schema: Schema, where: Option<Expr>,
                                               assignments: seq<Assignment>,
                                               c: nat, node: nat, nodes: nat, hash: Hash)
    requires nodes > 0 && c < |schema| && Shaped(rows, schema) && BelongOn(rows, schema, c, node, nodes, hash)
    requires forall i :: 0 <= i < |assignments| ==> FindColumnIndex(schema, assignments[i].column) != Some(c)
    ensures ChangesBelong(UpdateSweep(rows, schema, where, assignments).changes, schema, c, node, nodes, hash)
  {
    hide Updated, RouteValueToNode;
    if rows != [] {
      var n := |rows| - 1;
      UpdateChangesBelong(rows[..n], schema, where, assignments, c, node, nodes, hash);
      UpdatedKeepsShardKey(rows[n], schema, where, assignments, c);
      UpdatedRow(rows[n], schema, where, assignments);
    }
  }

  lemma {:induction false} DeleteBelongs(rows: seq<Row>, schema: Schema, where: Option<Expr>, c: nat, node: nat,
                                         nodes: nat, hash: Hash)
    requires nodes > 0 && c < |schema| && Shaped(rows, schema) && BelongOn(rows, schema, c, node, nodes, hash)
    ensures BelongOn(DeleteSweep(rows, schema, where).rows, schema, c, node, nodes, hash)
    ensures ChangesBelong(DeleteSweep(rows, schema, where).changes, schema, c, node, nodes, hash)
  {
    hide Passes, RouteValueToNode;
    if rows != [] {
      var n := |rows| - 1;
      DeleteBelongs(rows[..n], schema, where, c, node, nodes, hash);
      BelongMore(DeleteSweep(rows[..n], schema, where).rows, rows[n], schema, c, node, nodes, hash);
    }
  }

  lemma SettledSettles(s: TableState, schema: Schema, sweep: Sweep, clock: Clock, c: nat, node: nat, nodes: nat,
                       hash: Hash)
    requires nodes > 0 && c < |schema| && Settles(s, schema, c, node, nodes, hash)
    requires BelongOn(sweep.rows, schema, c, node, nodes, hash)
      && ChangesBelong(sweep.changes, schema, c, node, nodes, hash)
    ensures Settles(Settled(s, schema, sweep, clock).state, schema, c, node, nodes, hash)
  {
    hide BelongOn, HistoryBelongs, ChangesBelong, Recorded, CanRebuild, Rebuilt;
    RecordedBelongs(s.history, sweep.changes, clock, schema, c, node, nodes, hash);
  }

  lemma {:induction false} ReplayBelongs(h: seq<Event>, t: Time, schema: Schema, c: nat, node: nat, nodes: nat,
                                         hash: Hash)
    requires nodes > 0 && c < |schema| && HistoryBelongs(h, schema, c, node, nodes, hash)
    ensures forall id :: id in Replay(h, t) ==> Belongs(Replay(h, t)[id], schema, c, node, nodes, hash)
  {
    hide Belongs;
    if h != [] {
      var n := |h| - 1;
      ReplayBelongs(h[..n], t, schema, c, node, nodes, hash);
      if h[n].time <= t {
        ApplyMore(map[], UpTo(h[..n], t), h[n].change);
        assert Replay(h, t) == Apply(Replay(h[..n], t), h[n].change);
        ApplyBelongs(Replay(h[..n], t), h[n].change, schema, c, node, nodes, hash);
      } else {
        assert Replay(h, t) == Replay(h[..n], t);
      }
    }
  }

  lemma ApplyBelongs(m: RowsById, change: Change, schema: Schema, c: nat, node: nat, nodes: nat, hash: Hash)
    requires nodes > 0 && c < |schema| && forall id :: id in m ==> Belongs(m[id], schema, c, node, nodes, hash)
    requires change.after.Some? ==> Belongs(change.after.value, schema, c, node, nodes, hash)
    ensures forall id :: id in Apply(m, change) ==> Belongs(Apply(m, change)[id], schema, c, node, nodes, hash)
  {
    hide Belongs;
  }

  lemma RevertSettles(s: TableState, schema: Schema, mode: Mode, clock: Clock, rows: seq<Row>, cs: seq<Change>,
                      o: Outcome,
                      c: nat, node: nat, nodes: nat, hash: Hash)
    requires nodes > 0 && c < |schema| && Settles(s, schema, c, node, nodes, hash)
      && Reverts(s, schema, mode, clock, rows, cs, o)
    ensures Settles(o.state, schema, c, node, nodes, hash)
  {
    hide RowMap, Replay, Settled, Belongs, Touches, Differ, HistoryBelongs;
    if !mode.Malformed? && TargetTime(s.history, mode).Some? && Shaped(rows, schema) {
      ReplayBelongs(s.history, TargetTime(s.history, mode).value, schema, c, node, nodes, hash);
      forall i | 0 <= i < |rows| ensures Belongs(rows[i], schema, c, node, nodes, hash) { RowMapAt(rows, i); }
      forall i | 0 <= i < |cs| && cs[i].after.Some? ensures Belongs(cs[i].after.value, schema, c, node, nodes, hash) {
        assert Moves(cs[i], RowMap(s.rows), RowMap(rows));
      }
      AllBelong(rows, schema, c, node, nodes, hash);
      SettledSettles(s, schema, Sweep(rows, cs, None), clock, c, node, nodes, hash);
    }
  }

  lemma AllBelong(rows: seq<Row>, schema: Schema, c: nat, node: nat, nodes: nat, hash: Hash)
    requires nodes > 0 && c < |schema| && forall i :: 0 <= i < |rows| ==> Belongs(rows[i], schema, c, node, nodes, hash)
    ensures BelongOn(rows, schema, c, node, nodes, hash)
  {
  }

  // ---------- whole runs ----------

  /** Whatever its outcome, no command moves a row to a node where it does not belong. */
  lemma CommandSettles(s: TableState, s': TableState, step: Step, schema: Schema, node: nat, nodes: nat, hash: Hash)
    requires Allowed(step, schema) && node < nodes && Settles(s, schema, ShardColumn(schema), node, nodes, hash)
    requires Runs(s, s', schema, CommandFor(step, schema, node, nodes, hash))
    ensures Settles(s', schema, ShardColumn(schema), node, nodes, hash)
  {
    hide Settles, InsertRows, UpdateSweep, DeleteSweep, Settled, Reverts, Positions, Destined, ShardColumn,
      ResolveShardKeyColumn, Position, Indexes, Share, Rows, Splittable;
    var command, c := CommandFor(step, schema, node, nodes, hash), ShardColumn(schema);
    var clock, error :| Effect(s, schema, command, clock, Outcome(s', error));
    SettlesMeans(s, schema, c, node, nodes, hash);
    match step
    case SendInsert(columns, inputs) => {
      if Positions(schema, columns).Ok? {
        var positions := Positions(schema, columns).value;
        ShareDestined(columns, inputs, schema, positions, node, nodes, hash);
        InsertSettles(s, schema, positions, command.inputs, clock,
          Position(columns, ResolveShardKeyColumn(schema).value).value,
                      node, nodes, hash);
      }
    }
    case SendUpdate(where, assignments) => {
      UpdateStaysPlaced(s.rows, schema, where, assignments, c, node, nodes, hash);
      UpdateChangesBelong(s.rows, schema, where, assignments, c, node, nodes, hash);
      SettledSettles(s, schema, UpdateSweep(s.rows, schema, where, assignments), clock, c, node, nodes, hash);
    }
    case SendDelete(where) => {
      DeleteBelongs(s.rows, schema, where, c, node, nodes, hash);
      SettledSettles(s, schema, DeleteSweep(s.rows, schema, where), clock, c, node, nodes, hash);
    }
    case SendRevert(mode) =>
      var rows, cs :| Reverts(s, schema, mode, clock, rows, cs, Outcome(s', error));
      RevertSettles(s, schema, mode, clock, rows, cs, Outcome(s', error), c, node, nodes, hash);
  }

  lemma SettlesMeans(s: TableState, schema: Schema, c: nat, node: nat, nodes: nat, hash: Hash)
    requires nodes > 0 && c < |schema| && Settles(s, schema, c, node, nodes, hash)
    ensures BelongOn(s.rows, schema, c, node, nodes, hash) && Shaped(s.rows, schema)
  {
  }

  /** Over every run, every row is on the node that its shard key hashes to. */
  lemma {:induction false} RunSettles(cs: seq<seq<TableState>>, steps: seq<Step>, schema: Schema, hash: Hash, k: nat,
                                      i: nat)
    requires IsRun(cs, steps, schema, hash) && k < |cs| && ResolveShardKeyColumn(schema).Some? && i < |cs[k]|
    ensures |cs[k]| == |cs[0]| && Settles(cs[k][i], schema, ShardColumn(schema), i, |cs[k]|, hash)
    decreases k
  {
    hide Settles, Runs, CommandFor, ShardColumn, ResolveShardKeyColumn, Accepted, KeepsPlaces, Empty;
    if k == 0 {
      EmptySettles(cs[0][i], schema, ShardColumn(schema), i, |cs[0]|, hash);
    } else {
      assert Reaches(cs[k - 1], steps[k - 1], schema, hash, cs[k]);
      RunSettles(cs, steps, schema, hash, k - 1, i);
      if cs[k][i] != cs[k - 1][i] {
        CommandSettles(cs[k - 1][i], cs[k][i], steps[k - 1], schema, i, |cs[k]|, hash);
      }
    }
  }

  lemma EmptySettles(s: TableState, schema: Schema, c: nat, node: nat, nodes: nat, hash: Hash)
    requires nodes > 0 && c < |schema| && Empty(s)
    ensures Settles(s, schema, c, node, nodes, hash)
  {
  }

  function RowsOf(c: seq<TableState>): seq<seq<Row>> {
    seq(|c|, i requires 0 <= i < |c| => c[i].rows)
  }

  lemma RunWellPlaced(cs: seq<seq<TableState>>, steps: seq<Step>, schema: Schema, hash: Hash, k: nat)
    requires IsRun(cs, steps, schema, hash) && k < |cs| && ResolveShardKeyColumn(schema).Some?
    ensures WellPlaced(RowsOf(cs[k]), schema, hash)
  {
    hide Settles, IsRun, ShardColumn, ResolveShardKeyColumn, RouteValueToNode;
    forall i | 0 <= i < |cs[k]|
      ensures Shaped(cs[k][i].rows, schema) && BelongOn(cs[k][i].rows, schema, ShardColumn(schema), i, |cs[k]|, hash)
    {
      RunSettles(cs, steps, schema, hash, k, i);
      SettlesMeans(cs[k][i], schema, ShardColumn(schema), i, |cs[k]|, hash);
    }
  }

  /** In every state that sharded INSERTs, UPDATEs that do not assign the shard key, DELETEs and REVERTs lead to,
      reaching all nodes or only some of them, a query that is sent to one node answers exactly what a fan-out over the
      cluster would. */
  lemma TargetedInRun(cs: seq<seq<TableState>>, steps: seq<Step>, schema: Schema, hash: Hash, k: nat,
                      where: Option<Expr>)
    requires IsRun(cs, steps, schema, hash) && k < |cs| && RouteNodeIndex(where, schema, |cs[k]|, hash).Some?
    ensures WellPlaced(RowsOf(cs[k]), schema, hash) && forall i :: 0 <= i < |cs[k]| ==> Shaped(RowsOf(cs[k])[i], schema)
    ensures FanOut(RowsOf(cs[k]), where, schema).Ok? ==>
      Scan(RowsOf(cs[k])[RouteNodeIndex(where, schema, |cs[k]|, hash).value], where, schema)
        == FanOut(RowsOf(cs[k]), where, schema)
  {
    hide IsRun, WellPlaced, FanOut, Scan;
    RunWellPlaced(cs, steps, schema, hash, k);
    ShapedNodes(RowsOf(cs[k]), schema, hash);
    if FanOut(RowsOf(cs[k]), where, schema).Ok? { TargetedSeesAll(RowsOf(cs[k]), where, schema, hash); }
  }

  // ---------- shard keys with a backslash ----------

  /** The node that a literal is sent to is, whatever the hash, the one of the value that is stored there, if and only
      if the literal contains no backslash or quote. */
  lemma SentWhereItBelongs(v: Value)
    ensures (forall nodes: nat, hash: Hash :: nodes > 0 ==>
      RouteValueToNode(Reread(v), nodes, hash) == RouteValueToNode(v, nodes, hash))
      <==> Unescaped(v)
  {
    RereadExact(v);
    if Reread(v) != v {
      var hash: Hash := w => if w == v then 0 else 1;
      assert RouteValueToNode(Reread(v), 2, hash) == 1 && RouteValueToNode(v, 2, hash) == 0;
    }
  }

  const TEXT := OneColumnOf(StringType)

  const BACKSLASH_A := "\\a"

  function ByLength(v: Value): nat {
    if v.Str? then |v.s| else 0
  }

  /** For instance: hashed by length, `\a` is sent to the first of two nodes, which stores `\\a`; that belongs on the
      second. */
  lemma BackslashStrays(clock: Clock) returns (c: seq<TableState>, step: Step, c': seq<TableState>)
    ensures |c| == 2 && Empty(c[0]) && Empty(c[1])
    ensures step == SendInsert(["k"], [[Literal(Str(BACKSLASH_A))]]) && Accepted(step, TEXT)
    ensures Lexable(BACKSLASH_A) && Reaches(c, step, TEXT, ByLength, c') && !WellPlaced(RowsOf(c'), TEXT, ByLength)
  {
    hide Recorded, MapInsert, EncodeIndexKey, InsertRows, Added;
    var names: seq<string>, inputs: seq<seq<Expr>> := ["k"], [[Literal(Str(BACKSLASH_A))]];
    step := SendInsert(names, inputs);
    var stored := Str(Quoted(BACKSLASH_A));
    TextIsAccepted(step);
    FirstInserted(StringType, stored, clock);
    AddedOne(StringType, stored, clock);
    var after := Added(NO_ROWS, TEXT, FirstRow(stored), clock);
    c, c' := [NO_ROWS, NO_ROWS], [after, NO_ROWS];
    OneColumn(StringType, stored);
    assert Effect(NO_ROWS, TEXT, CommandFor(step, TEXT, 0, 2, ByLength), clock, Outcome(after, None));
    assert Runs(c[0], c'[0], TEXT, CommandFor(step, TEXT, 0, 2, ByLength));
    assert RowsOf(c')[0] == [FirstRow(stored)] && FirstRow(stored) in RowsOf(c')[0];
  }

  lemma TextIsAccepted(step: Step)
    requires step == SendInsert(["k"], [[Literal(Str(BACKSLASH_A))]])
    ensures Accepted(step, TEXT) && ShardColumn(TEXT) == 0
    ensures CommandFor(step, TEXT, 0, 2, ByLength) == InsertValues(["k"], [[Literal(Str(Quoted(BACKSLASH_A)))]])
    ensures |Quoted(BACKSLASH_A)| == 3
  {
    var input: seq<Expr> := [Literal(Str(BACKSLASH_A))];
    var rows: seq<seq<Value>> := [[Str(BACKSLASH_A)]];
    assert FirstIndexed(TEXT, true) == None by { assert TEXT[1..] == []; }
    assert FirstIndexed(TEXT, false) == Some("k");
    assert input[..0] == [] && Literals(input[..0]) == Some([]) && Literals(input) == Some([] + [Str(BACKSLASH_A)]);
    assert step.inputs[0] == input && Literals(input).value == rows[0];
    assert Rows(step.inputs) == rows;
    assert rows[..0] == [] && Share(rows, 0, 2, ByLength, 0) == [] + [rows[0]];
    assert AsLiterals(rows[0]) == [Literal(Str(Quoted(BACKSLASH_A)))];
    assert AllLiterals(rows) == [AsLiterals(rows[0])];
    assert BACKSLASH_A[..1] == "\\" && "\\"[..0] == "" && Quoted("\\") == "" + "\\" + "\\";
  }

  // ---------- modifications that are sent to one node ----------

  lemma {:induction false} NothingUpdated(rows: seq<Row>, schema: Schema, where: Option<Expr>,
                                          assignments: seq<Assignment>)
    requires Shaped(rows, schema) && UpdateSweep(rows, schema, where, assignments).error.None?
    requires forall i :: 0 <= i < |rows| ==> Passes(where, schema, rows[i]) != Ok(true)
    ensures UpdateSweep(rows, schema, where, assignments) == Sweep(rows, [], None)
  {
    hide Assigned, Validated, Passes;
    if rows != [] {
      var n := |rows| - 1;
      NothingUpdated(rows[..n], schema, where, assignments);
      assert rows == rows[..n] + [rows[n]];
    }
  }

  lemma {:induction false} NothingDeleted(rows: seq<Row>, schema: Schema, where: Option<Expr>)
    requires Shaped(rows, schema) && DeleteSweep(rows, schema, where).error.None?
    requires forall i :: 0 <= i < |rows| ==> Passes(where, schema, rows[i]) != Ok(true)
    ensures DeleteSweep(rows, schema, where) == Sweep(rows, [], None)
  {
    hide Passes;
    if rows != [] {
      var n := |rows| - 1;
      NothingDeleted(rows[..n], schema, where);
      assert rows == rows[..n] + [rows[n]];
    }
  }

  /** In every state of a run: an UPDATE or DELETE that is sent to one node would change nothing on any other node that
      could evaluate it. */
  lemma TargetedChangesAll(cs: seq<seq<TableState>>, steps: seq<Step>, schema: Schema, hash: Hash, k: nat,
                           where: Option<Expr>, assignments: seq<Assignment>, j: nat)
    requires IsRun(cs, steps, schema, hash) && k < |cs| && j < |cs[k]| && ResolveShardKeyColumn(schema).Some?
    requires DestinationOf(false, where, schema, |cs[k]|, hash).OneNode?
      && DestinationOf(false, where, schema, |cs[k]|, hash).node != j
    ensures Shaped(cs[k][j].rows, schema)
    ensures UpdateSweep(cs[k][j].rows, schema, where, assignments).error.None? ==>
      UpdateSweep(cs[k][j].rows, schema, where, assignments) == Sweep(cs[k][j].rows, [], None)
    ensures DeleteSweep(cs[k][j].rows, schema, where).error.None? ==>
      DeleteSweep(cs[k][j].rows, schema, where) == Sweep(cs[k][j].rows, [], None)
  {
    hide IsRun, WellPlaced, UpdateSweep, DeleteSweep, Passes, RouteNodeIndex;
    RunWellPlaced(cs, steps, schema, hash, k);
    ShapedNodes(RowsOf(cs[k]), schema, hash);
    OthersHaveNone(RowsOf(cs[k]), where, schema, hash, j);
    var rows := cs[k][j].rows;
    assert RowsOf(cs[k])[j] == rows;
    if UpdateSweep(rows, schema, where, assignments).error.None? { NothingUpdated(rows, schema, where, assignments); }
    if DeleteSweep(rows, schema, where).error.None? { NothingDeleted(rows, schema, where); }
  }
}
