/** Hash sharding: rows go to the node that their shard key hashes to, and a query that fixes the shard key goes there
    too. */
module ShardRouting {
  import opened Wrappers
  import opened Values
  import opened Predicates
  import opened TableStatements
  import opened TableChanges

  /** Any hash will do. */
  type Hash = Value -> nat

  /** The first indexed integer column, else the first indexed column. */
  function ResolveShardKeyColumn(schema: Schema): (name: Option<string>)
    ensures name.Some? ==> name.value in Indexes(schema)
    ensures name.None? <==> Indexes(schema) == {}
  {
    var ints := FirstIndexed(schema, true);
    if ints.Some? then ints else FirstIndexed(schema, false)
  }

  function FirstIndexed(schema: Schema, onlyInts: bool): (name: Option<string>)
    ensures name.Some? ==> name.value in Indexes(schema)
    ensures name.None? ==> forall i :: 0 <= i < |schema| && schema[i].constraint == Indexed ==>
      onlyInts && schema[i].typ != IntType
  {
    if schema == [] then None
    else if schema[0].constraint == Indexed && (onlyInts ==> schema[0].typ == IntType) then Some(schema[0].name)
    else
      var rest := FirstIndexed(schema[1..], onlyInts);
      assert rest.Some? ==> rest.value in Indexes(schema) by {
        if rest.Some? {
          var i :| 0 <= i < |schema[1..]| && schema[1..][i].constraint == Indexed && schema[1..][i].name == rest.value;
          assert schema[i + 1].name == rest.value;
        }
      }
      rest
  }

  predicate IndexedAt(schema: Schema, i: nat, onlyInts: bool) {
    i < |schema| && schema[i].constraint == Indexed && (onlyInts ==> schema[i].typ == IntType)
  }

  /** The column that rows are placed by: an indexed integer column with none before it, or, where there is no such
      column at all, an indexed column with none before it. */
  ghost predicate IsShardKey(schema: Schema, i: nat) {
    if exists j :: IndexedAt(schema, j, true) then
      IndexedAt(schema, i, true) && forall j :: 0 <= j < i ==> !IndexedAt(schema, j, true)
    else
      IndexedAt(schema, i, false) && forall j :: 0 <= j < i ==> !IndexedAt(schema, j, false)
  }

  lemma ShardKeyMeans(schema: Schema, i: nat)
    requires IsShardKey(schema, i)
    ensures ResolveShardKeyColumn(schema) == Some(schema[i].name)
  {
    if IndexedAt(schema, i, true) && forall j :: 0 <= j < i ==> !IndexedAt(schema, j, true) {
      FirstIndexedIs(schema, true, i);
    } else {
      FirstIndexedIs(schema, false, i);
      var ints := FirstIndexed(schema, true);
      if ints.Some? {
        var j := FoundIndexed(schema, true);
        assert IndexedAt(schema, j, true);
      }
    }
  }

  lemma {:induction false} FirstIndexedIs(schema: Schema, onlyInts: bool, i: nat)
    requires IndexedAt(schema, i, onlyInts) && forall j :: 0 <= j < i ==> !IndexedAt(schema, j, onlyInts)
    ensures FirstIndexed(schema, onlyInts) == Some(schema[i].name)
  {
    if i > 0 {
      assert !IndexedAt(schema, 0, onlyInts);
      forall j | 0 <= j < i - 1 ensures !IndexedAt(schema[1..], j, onlyInts) {
        assert !IndexedAt(schema, j + 1, onlyInts);
      }
      FirstIndexedIs(schema[1..], onlyInts, i - 1);
    }
  }

  lemma {:induction false} FoundIndexed(schema: Schema, onlyInts: bool) returns (i: nat)
    requires FirstIndexed(schema, onlyInts).Some?
    ensures IndexedAt(schema, i, onlyInts)
  {
    if IndexedAt(schema, 0, onlyInts) { return 0; }
    i := FoundIndexed(schema[1..], onlyInts);
    i := i + 1;
  }

  /** The literal on the other side of a column. */
  function LiteralBeside(column: Expr, value: Expr, shardKey: string): Option<Value> {
    if column.ColumnRef? && value.Literal? && column.name == shardKey then Some(value.value) else None
  }

  /** The value that the clause fixes the shard key to: nothing under OR, the first that is found under AND. */
  function TryExtractShardKeyValue(e: Expr, shardKey: string): Option<Value> {
    match e
    case Logical(connective, left, right) =>
      if connective == Or then None
      else
        var l := TryExtractShardKeyValue(left, shardKey);
        if l.Some? then l else TryExtractShardKeyValue(right, shardKey)
    case Compare(op, left, right) =>
      if op != Equal then None
      else
        var l := LiteralBeside(left, right, shardKey);
        if l.Some? then l else LiteralBeside(right, left, shardKey)
    case _ => None
  }

  function RouteValueToNode(v: Value, nodes: nat, hash: Hash): (i: nat)
    requires nodes > 0
    ensures i < nodes
  {
    hash(v) % nodes
  }

  /** The one node that a query with this clause needs, if the clause fixes the shard key. */
  function RouteNodeIndex(where: Option<Expr>, schema: Schema, nodes: nat, hash: Hash): (i: Option<nat>)
    ensures i.Some? ==> i.value < nodes
  {
    if nodes == 0 || where.None? then None
    else match ResolveShardKeyColumn(schema)
      case None => None
      case Some(shardKey) =>
        match TryExtractShardKeyValue(where.value, shardKey)
        case None => None
        case Some(v) => Some(RouteValueToNode(v, nodes, hash))
  }

  /** A row that passes has the extracted value in its shard key column. */
  lemma {:induction false} PassingRowHasValue(e: Expr, schema: Schema, row: Row, shardKey: string)
    requires |row.values| == |schema| && FindColumnIndex(schema, shardKey).Some?
    requires EvaluatePredicate(e, schema, row) == Ok(true) && TryExtractShardKeyValue(e, shardKey).Some?
    ensures row.values[FindColumnIndex(schema, shardKey).value] == TryExtractShardKeyValue(e, shardKey).value
  {
    match e
    case Logical(connective, left, right) =>
      if TryExtractShardKeyValue(left, shardKey).Some? {
        PassingRowHasValue(left, schema, row, shardKey);
      } else {
        PassingRowHasValue(right, schema, row, shardKey);
      }
    case Compare(op, left, right) =>
      CompareEqual(EvaluateValue(left, schema, row).value, EvaluateValue(right, schema, row).value);
    case _ =>
  }

  // ---------- a cluster ----------

  function ShardColumn(schema: Schema): (c: nat)
    requires ResolveShardKeyColumn(schema).Some?
    ensures c < |schema|
  {
    ColumnOf(schema, ResolveShardKeyColumn(schema).value)
  }

  /** Every row is on the node that its shard key hashes to. */
  ghost predicate WellPlaced(nodes: seq<seq<Row>>, schema: Schema, hash: Hash) {
    && ResolveShardKeyColumn(schema).Some?
    && forall i :: 0 <= i < |nodes| ==>
         Shaped(nodes[i], schema)
         && forall r :: r in nodes[i] ==>
           |r.values| == |schema| && RouteValueToNode(r.values[ShardColumn(schema)], |nodes|, hash) == i
  }

  /** What a fan-out collects, node by node; it fails if one of them does. */
  function FanOut(nodes: seq<seq<Row>>, where: Option<Expr>, schema: Schema): Result<seq<Row>>
    requires forall i :: 0 <= i < |nodes| ==> Shaped(nodes[i], schema)
  {
    if nodes == [] then Ok([])
    else
      var n := |nodes| - 1;
      match FanOut(nodes[..n], where, schema)
      case Err(error) => Err(error)
      case Ok(first) =>
        match Scan(nodes[n], where, schema)
        case Err(error) => Err(error)
        case Ok(rows) => Ok(first + rows)
  }

  /** A fan-out to one more node fails if it failed before or the node fails, and else adds the node's answer. */
  lemma FanOutMore(nodes: seq<seq<Row>>, rows: seq<Row>, where: Option<Expr>, schema: Schema)
    requires (forall i :: 0 <= i < |nodes| ==> Shaped(nodes[i], schema)) && Shaped(rows, schema)
    ensures FanOut(nodes + [rows], where, schema).Ok? <==>
      FanOut(nodes, where, schema).Ok? && Scan(rows, where, schema).Ok?
    ensures FanOut(nodes + [rows], where, schema).Ok? ==>
      FanOut(nodes + [rows], where, schema).value
      == FanOut(nodes, where, schema).value + Scan(rows, where, schema).value
  {
    hide Scan, Shaped;
    assert (nodes + [rows])[..|nodes|] == nodes;
  }

  /** Wherever else a row is, it does not satisfy the clause. */
  lemma OthersHaveNone(nodes: seq<seq<Row>>, where: Option<Expr>, schema: Schema, hash: Hash, j: nat)
    requires WellPlaced(nodes, schema, hash) && RouteNodeIndex(where, schema, |nodes|, hash).Some? && j < |nodes|
    ensures forall r :: r in nodes[j] && Passes(where, schema, r) == Ok(true) ==>
      j == RouteNodeIndex(where, schema, |nodes|, hash).value
  {
    hide EvaluatePredicate, TryExtractShardKeyValue, ResolveShardKeyColumn;
    forall r | r in nodes[j] && Passes(where, schema, r) == Ok(true)
      ensures j == RouteNodeIndex(where, schema, |nodes|, hash).value
    {
      PassingRowHasValue(where.value, schema, r, ResolveShardKeyColumn(schema).value);
    }
  }

  /** A targeted query returns exactly the rows that a fan-out over the whole cluster would. */
  lemma TargetedSeesAll(nodes: seq<seq<Row>>, where: Option<Expr>, schema: Schema, hash: Hash)
    requires WellPlaced(nodes, schema, hash) && RouteNodeIndex(where, schema, |nodes|, hash).Some?
    requires FanOut(nodes, where, schema).Ok?
    ensures var i := RouteNodeIndex(where, schema, |nodes|, hash).value;
      Scan(nodes[i], where, schema) == FanOut(nodes, where, schema)
  {
    hide Passes, RouteNodeIndex, WellPlaced;
    ShapedNodes(nodes, schema, hash);
    var i := RouteNodeIndex(where, schema, |nodes|, hash).value;
    assert nodes[..|nodes|] == nodes;
    OnlyOneAnswers(nodes, |nodes|, where, schema, hash, i);
  }

  lemma ShapedNodes(nodes: seq<seq<Row>>, schema: Schema, hash: Hash)
    requires WellPlaced(nodes, schema, hash)
    ensures forall i :: 0 <= i < |nodes| ==> Shaped(nodes[i], schema)
  {
  }

  lemma {:induction false} OnlyOneAnswers(nodes: seq<seq<Row>>, n: nat, where: Option<Expr>, schema: Schema,
                                          hash: Hash, i: nat)
    requires WellPlaced(nodes, schema, hash) && RouteNodeIndex(where, schema, |nodes|, hash) == Some(i)
    requires forall j :: 0 <= j < |nodes| ==> Shaped(nodes[j], schema)
    requires n <= |nodes| && FanOut(nodes[..n], where, schema).Ok?
    ensures FanOut(nodes[..n], where, schema) == if i < n then Scan(nodes[i], where, schema) else Ok([])
  {
    hide Passes, RouteNodeIndex, WellPlaced;
    if n > 0 {
      assert nodes[..n][..n - 1] == nodes[..n - 1];
      OnlyOneAnswers(nodes, n - 1, where, schema, hash, i);
      ScanSelects(nodes[n - 1], where, schema);
      OthersHaveNone(nodes, where, schema, hash, n - 1);
      var rows := Scan(nodes[n - 1], where, schema).value;
      if n - 1 != i {
        FirstIsMember(rows);
        assert FanOut(nodes[..n - 1], where, schema).value + [] == FanOut(nodes[..n - 1], where, schema).value;
      } else {
        assert [] + rows == rows;
      }
    }
  }

  lemma FirstIsMember(rows: seq<Row>)
    ensures rows != [] ==> rows[0] in rows
  {
  }

  // ---------- inserting and changing rows ----------

  /** The literals of one input row. */
  function Literals(input: seq<Expr>): Option<seq<Value>> {
    if input == [] then Some([])
    else
      match Literals(input[..|input| - 1])
      case None => None
      case Some(values) => if input[|input| - 1].Literal? then Some(values + [input[|input| - 1].value]) else None
  }

  /** Input rows that go to one node, in their order. */
  function Share(rows: seq<seq<Value>>, shardAt: nat, nodes: nat, hash: Hash, node: nat): seq<seq<Value>>
    requires nodes > 0 && forall i :: 0 <= i < |rows| ==> shardAt < |rows[i]|
  {
    if rows == [] then []
    else
      var rest, last := Share(rows[..|rows| - 1], shardAt, nodes, hash, node), rows[|rows| - 1];
      if RouteValueToNode(last[shardAt], nodes, hash) == node then rest + [last] else rest
  }

  /** A share keeps the order of the rows. */
  lemma {:induction false} ShareConcat(a: seq<seq<Value>>, b: seq<seq<Value>>, shardAt: nat, nodes: nat, hash: Hash,
                                       node: nat)
    requires nodes > 0 && (forall i :: 0 <= i < |a| ==> shardAt < |a[i]|)
      && forall i :: 0 <= i < |b| ==> shardAt < |b[i]|
    ensures var all := a + b;
      (forall i :: 0 <= i < |all| ==> shardAt < |all[i]|)
      && Share(all, shardAt, nodes, hash, node)
         == Share(a, shardAt, nodes, hash, node) + Share(b, shardAt, nodes, hash, node)
  {
    hide RouteValueToNode;
    if b == [] {
      assert a + b == a;
    } else {
      var n := |b| - 1;
      ShareConcat(a, b[..n], shardAt, nodes, hash, node);
      assert (a + b)[..|a + b| - 1] == a + b[..n];
    }
  }

  /** The first position of a name in a list of names. */
  function Position(names: seq<string>, name: string): (i: Option<nat>)
    ensures i.Some? ==> i.value < |names| && names[i.value] == name && forall j :: 0 <= j < i.value ==> names[j] != name
    ensures i.None? ==> name !in names
  {
    if names == [] then None
    else if names[0] == name then Some(0)
    else match Position(names[1..], name)
      case None => None
      case Some(i) => Some(i + 1)
  }

  /** Every input row wide enough for its shard key and made of literals. */
  predicate Splittable(inputs: seq<seq<Expr>>, shardAt: nat) {
    forall i :: 0 <= i < |inputs| ==> shardAt < |inputs[i]| && Literals(inputs[i]).Some?
  }

  function Rows(inputs: seq<seq<Expr>>): seq<seq<Value>>
    requires forall i :: 0 <= i < |inputs| ==> Literals(inputs[i]).Some?
  {
    seq(|inputs|, i requires 0 <= i < |inputs| => Literals(inputs[i]).value)
  }

  lemma {:induction false} LiteralsLength(input: seq<Expr>)
    ensures Literals(input).Some? ==> |Literals(input).value| == |input|
  {
    if input != [] { LiteralsLength(input[..|input| - 1]); }
  }

  method ReadLiterals(input: seq<Expr>) returns (values: Option<seq<Value>>)
    ensures values == Literals(input)
  {
    var read := [];
    var i := 0;
    while i < |input|
      invariant i <= |input| && Literals(input[..i]) == Some(read)
    {
      assert input[..i + 1][..i] == input[..i];
      if !input[i].Literal? {
        NotLiteral(input, i);
        return None;
      }
      read := read + [input[i].value];
      i := i + 1;
    }
    assert input[..|input|] == input;
    return Some(read);
  }

  lemma {:induction false} NotLiteral(input: seq<Expr>, i: nat)
    requires i < |input| && !input[i].Literal?
    ensures Literals(input).None?
  {
    if i < |input| - 1 { NotLiteral(input[..|input| - 1], i); }
  }

  /** Each node's share of an INSERT: every input row goes to exactly the node its shard key hashes to. */
  method SplitInsertByShard(schema: Schema, columnNames: seq<string>, inputs: seq<seq<Expr>>, nodes: nat, hash: Hash)
    returns (shares: Option<map<nat, seq<seq<Value>>>>)
    requires nodes > 0
    ensures shares.Some? <==>
      ResolveShardKeyColumn(schema).Some?
      && Position(columnNames, ResolveShardKeyColumn(schema).value).Some?
      && Splittable(inputs, Position(columnNames, ResolveShardKeyColumn(schema).value).value)
    ensures shares.Some? ==>
      var shardAt, rows := Position(columnNames, ResolveShardKeyColumn(schema).value).value, Rows(inputs);
      && (forall i :: 0 <= i < |rows| ==> shardAt < |rows[i]|)
      && (forall n :: n in shares.value ==> shares.value[n] == Share(rows, shardAt, nodes, hash, n))
      && (forall n :: n !in shares.value ==> Share(rows, shardAt, nodes, hash, n) == [])
  {
    hide RouteValueToNode, ResolveShardKeyColumn, Position, Literals;
    var shardKey := ResolveShardKeyColumn(schema);
    if shardKey.None? { return None; }
    var position := Position(columnNames, shardKey.value);
    if position.None? { return None; }
    var shardAt := position.value;
    var byNode: map<nat, seq<seq<Value>>> := map[];
    ghost var done: seq<seq<Value>> := [];
    var i := 0;
    while i < |inputs|
      invariant i <= |inputs| && Splittable(inputs[..i], shardAt) && done == Rows(inputs[..i])
      invariant forall k :: 0 <= k < |done| ==> shardAt < |done[k]|
      invariant forall n :: n in byNode ==> byNode[n] == Share(done, shardAt, nodes, hash, n)
      invariant forall n :: n !in byNode ==> Share(done, shardAt, nodes, hash, n) == []
    {
      if shardAt >= |inputs[i]| { return None; }
      var values := ReadLiterals(inputs[i]);
      if values.None? { return None; }
      LiteralsLength(inputs[i]);
      var node := RouteValueToNode(values.value[shardAt], nodes, hash);
      byNode := byNode[node := (if node in byNode then byNode[node] else []) + [values.value]];
      ShareMore(done, values.value, shardAt, nodes, hash);
      done := done + [values.value];
      i := i + 1;
    }
    assert inputs[..|inputs|] == inputs;
    return Some(byNode);
  }

  lemma ShareMore(rows: seq<seq<Value>>, row: seq<Value>, shardAt: nat, nodes: nat, hash: Hash)
    requires nodes > 0 && (forall i :: 0 <= i < |rows| ==> shardAt < |rows[i]|) && shardAt < |row|
    ensures forall n :: Share(rows + [row], shardAt, nodes, hash, n) == Share(rows, shardAt, nodes, hash, n)
                          + (if RouteValueToNode(row[shardAt], nodes, hash) == n then [row] else [])
  {
    assert (rows + [row])[..|rows|] == rows;
  }

  /** All shares together, node by node. */
  function AllShares(rows: seq<seq<Value>>, shardAt: nat, nodes: nat, hash: Hash, upTo: nat): multiset<seq<Value>>
    requires nodes > 0 && forall i :: 0 <= i < |rows| ==> shardAt < |rows[i]|
  {
    if upTo == 0 then multiset{}
      else AllShares(rows, shardAt, nodes, hash, upTo - 1) + multiset(Share(rows, shardAt, nodes, hash, upTo - 1))
  }

  /** Conservation: no input row is lost and none is sent twice. */
  lemma {:induction false} SharesAddUp(rows: seq<seq<Value>>, shardAt: nat, nodes: nat, hash: Hash)
    requires nodes > 0 && forall i :: 0 <= i < |rows| ==> shardAt < |rows[i]|
    ensures AllShares(rows, shardAt, nodes, hash, nodes) == multiset(rows)
  {
    hide RouteValueToNode;
    if rows == [] {
      NoShares(shardAt, nodes, hash, nodes);
    } else {
      var n := |rows| - 1;
      SharesAddUp(rows[..n], shardAt, nodes, hash);
      OneMoreShare(rows, shardAt, nodes, hash, nodes);
      assert rows == rows[..n] + [rows[n]];
      RouteInRange(rows[n][shardAt], nodes, hash);
    }
  }

  lemma RouteInRange(v: Value, nodes: nat, hash: Hash)
    requires nodes > 0
    ensures RouteValueToNode(v, nodes, hash) < nodes
  {
  }

  lemma {:induction false} NoShares(shardAt: nat, nodes: nat, hash: Hash, upTo: nat)
    requires nodes > 0
    ensures AllShares([], shardAt, nodes, hash, upTo) == multiset{}
  {
    if upTo > 0 { NoShares(shardAt, nodes, hash, upTo - 1); }
  }

  lemma {:induction false} OneMoreShare(rows: seq<seq<Value>>, shardAt: nat, nodes: nat, hash: Hash, upTo: nat)
    requires nodes > 0 && (forall i :: 0 <= i < |rows| ==> shardAt < |rows[i]|) && rows != []
    ensures var n := |rows| - 1;
      AllShares(rows, shardAt, nodes, hash, upTo)
      == AllShares(rows[..n], shardAt, nodes, hash, upTo)
         + if RouteValueToNode(rows[n][shardAt], nodes, hash) < upTo then multiset{rows[n]} else multiset{}
  {
    hide RouteValueToNode;
    if upTo > 0 { OneMoreShare(rows, shardAt, nodes, hash, upTo - 1); }
  }

  lemma {:induction false} AssignedKeepsShardKey(row: Row, schema: Schema, assignments: seq<Assignment>, c: nat)
    requires |row.values| == |schema| && c < |schema| && Assigned(row, schema, assignments).Ok?
    requires forall i :: 0 <= i < |assignments| ==> FindColumnIndex(schema, assignments[i].column) != Some(c)
    ensures Assigned(row, schema, assignments).value.values[c] == row.values[c]
  {
    hide EvaluateValue;
    if assignments != [] { AssignedKeepsShardKey(row, schema, assignments[..|assignments| - 1], c); }
  }

  lemma {:induction false} ValidatedKeeps(values: seq<Value>, schema: Schema, c: nat)
    requires |values| == |schema| && c < |schema| && Validated(values, schema).Ok? && !values[c].Null?
    ensures Validated(values, schema).value[c] == values[c]
  {
    var n := |schema| - 1;
    if c < n { ValidatedKeeps(values[..n], schema[..n], c); }
  }

  lemma UpdatedKeepsShardKey(row: Row, schema: Schema, where: Option<Expr>, assignments: seq<Assignment>, c: nat)
    requires |row.values| == |schema| && c < |schema| && !row.values[c].Null?
    requires forall i :: 0 <= i < |assignments| ==> FindColumnIndex(schema, assignments[i].column) != Some(c)
    ensures var r := Updated(row, schema, where, assignments);
      r.Ok? && r.value.Some? ==> r.value.value.values[c] == row.values[c]
  {
    hide Passes, Assigned, Validated;
    if Passes(where, schema, row) == Ok(true) && Assigned(row, schema, assignments).Ok? {
      AssignedKeepsShardKey(row, schema, assignments, c);
      var changed := Assigned(row, schema, assignments).value;
      if Validated(changed.values, schema).Ok? { ValidatedKeeps(changed.values, schema, c); }
    }
  }

  /** Rows that belong on a node. */
  ghost predicate BelongOn(rows: seq<Row>, schema: Schema, c: nat, node: nat, nodes: nat, hash: Hash)
    requires nodes > 0 && c < |schema|
  {
    forall i :: 0 <= i < |rows| ==>
      |rows[i].values| == |schema| && !rows[i].values[c].Null?
        && RouteValueToNode(rows[i].values[c], nodes, hash) == node
  }

  lemma BelongMore(rows: seq<Row>, row: Row, schema: Schema, c: nat, node: nat, nodes: nat, hash: Hash)
    requires nodes > 0 && c < |schema| && BelongOn(rows, schema, c, node, nodes, hash)
      && BelongOn([row], schema, c, node, nodes, hash)
    ensures BelongOn(rows + [row], schema, c, node, nodes, hash)
  {
    hide RouteValueToNode;
    assert row == [row][0];
  }

  /** An UPDATE that does not assign the shard key leaves every row where it belongs. */
  lemma {:induction false} UpdateStaysPlaced(rows: seq<Row>, schema: Schema, where: Option<Expr>,
                                             assignments: seq<Assignment>,
                                             c: nat, node: nat, nodes: nat, hash: Hash)
    requires nodes > 0 && c < |schema| && Shaped(rows, schema) && BelongOn(rows, schema, c, node, nodes, hash)
    requires forall i :: 0 <= i < |assignments| ==> FindColumnIndex(schema, assignments[i].column) != Some(c)
    ensures BelongOn(UpdateSweep(rows, schema, where, assignments).rows, schema, c, node, nodes, hash)
  {
    hide Updated, RouteValueToNode;
    if rows != [] {
      var n := |rows| - 1;
      var before := UpdateSweep(rows[..n], schema, where, assignments).rows;
      UpdateStaysPlaced(rows[..n], schema, where, assignments, c, node, nodes, hash);
      UpdatedKeepsShardKey(rows[n], schema, where, assignments, c);
      UpdatedRow(rows[n], schema, where, assignments);
      BelongMore(before, rows[n], schema, c, node, nodes, hash);
      var after := UpdateSweep(rows, schema, where, assignments).rows;
      if |after| > |before| {
        var row := after[|before|];
        assert after == before + [row];
        BelongMore(before, row, schema, c, node, nodes, hash);
      } else {
        assert after == before;
      }
    }
  }
}
