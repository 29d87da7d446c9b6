/** Rows, schemas, and the evaluation of WHERE clauses. */
module Predicates {
  import opened Wrappers
  import opened Values

  type RowId = nat

  datatype Row = Row(id: RowId, values: seq<Value>)

  datatype Constraint = Free | NotNull | Indexed

  datatype Column = Column(name: string, typ: ValueType, constraint: Constraint, default: Option<Value>)

  type Schema = seq<Column>

  datatype Comparison = Equal | NotEqual | Less | Greater | LessEqual | GreaterEqual

  datatype Connective = And | Or

  datatype Expr =
    | Literal(value: Value)
    | ColumnRef(name: string)
    | Compare(op: Comparison, left: Expr, right: Expr)
    | Logical(connective: Connective, left: Expr, right: Expr)
    | Between(subject: Expr, lower: Expr, upper: Expr)
    | Aggregate(name: string)

  /** The first column of that name. */
  function FindColumnIndex(schema: Schema, name: string): (i: Option<nat>)
    ensures i.Some? ==> i.value < |schema| && schema[i.value].name == name
    ensures i.None? ==> forall j :: 0 <= j < |schema| ==> schema[j].name != name
  {
    if schema == [] then None
    else if schema[0].name == name then Some(0)
    else match FindColumnIndex(schema[1..], name)
      case None => None
      case Some(i) => Some(i + 1)
  }

  function EvaluateValue(e: Expr, schema: Schema, row: Row): Result<Value>
    requires |row.values| == |schema|
  {
    match e
    case Literal(v) => Ok(v)
    case ColumnRef(name) =>
      (match FindColumnIndex(schema, name)
       case None => Err(SemanticError)
       case Some(i) => Ok(row.values[i]))
    case _ => Err(NotImplemented)
  }

  predicate Holds(op: Comparison, compared: int) {
    match op
    case Equal => compared == 0
    case NotEqual => compared != 0
    case Less => compared < 0
    case Greater => compared > 0
    case LessEqual => compared <= 0
    case GreaterEqual => compared >= 0
  }

  predicate Truthy(v: Value) {
    match v
    case Null => false
    case Int(i) => i != 0
    case Str(s) => s != ""
  }

  /** Both sides of a connective are always evaluated; the first error wins. */
  function EvaluatePredicate(e: Expr, schema: Schema, row: Row): Result<bool>
    requires |row.values| == |schema|
  {
    match e
    case Logical(connective, left, right) =>
      (match EvaluatePredicate(left, schema, row)
       case Err(error) => Err(error)
       case Ok(l) =>
         match EvaluatePredicate(right, schema, row)
         case Err(error) => Err(error)
         case Ok(r) => Ok(if connective == And then l && r else l || r))
    case Compare(op, left, right) =>
      (match EvaluateValue(left, schema, row)
       case Err(error) => Err(error)
       case Ok(l) =>
         match EvaluateValue(right, schema, row)
         case Err(error) => Err(error)
         case Ok(r) =>
           if TypeOf(l) != TypeOf(r) then Err(TypeMismatch) else Ok(Holds(op, CompareValues(l, r))))
    case Between(subject, lower, upper) =>
      var v, lo, hi :=
        EvaluateValue(subject, schema, row), EvaluateValue(lower, schema, row), EvaluateValue(upper, schema, row);
      if v.Err? || lo.Err? || hi.Err? then Err(TypeMismatch)
      else if TypeOf(v.value) != TypeOf(lo.value) || TypeOf(v.value) != TypeOf(hi.value) then Err(TypeMismatch)
      else Ok(CompareValues(v.value, lo.value) >= 0 && CompareValues(v.value, hi.value) < 0)
    case _ =>
      match EvaluateValue(e, schema, row)
      case Err(error) => Err(error)
      case Ok(v) => Ok(Truthy(v))
  }

  predicate Shaped(rows: seq<Row>, schema: Schema) {
    forall i :: 0 <= i < |rows| ==> |rows[i].values| == |schema|
  }

  /** No clause lets every row pass. */
  function Passes(where: Option<Expr>, schema: Schema, row: Row): Result<bool>
    requires |row.values| == |schema|
  {
    if where.None? then Ok(true) else EvaluatePredicate(where.value, schema, row)
  }

  /** The rows that pass, in their order, or the first error. */
  function Scan(rows: seq<Row>, where: Option<Expr>, schema: Schema): Result<seq<Row>>
    requires Shaped(rows, schema)
  {
    if rows == [] then Ok([])
    else
      var rest := rows[..|rows| - 1];
      match Scan(rest, where, schema)
      case Err(error) => Err(error)
      case Ok(passed) =>
        match Passes(where, schema, rows[|rows| - 1])
        case Err(error) => Err(error)
        case Ok(pass) => Ok(if pass then passed + [rows[|rows| - 1]] else passed)
  }

  lemma {:induction false} ScanSelects(rows: seq<Row>, where: Option<Expr>, schema: Schema)
    requires Shaped(rows, schema) && Scan(rows, where, schema).Ok?
    ensures forall r :: r in Scan(rows, where, schema).value <==>
      r in rows && |r.values| == |schema| && Passes(where, schema, r) == Ok(true)
    ensures forall r :: r in rows ==> |r.values| == |schema| && Passes(where, schema, r).Ok?
  {
    hide Passes;
    if rows != [] {
      var n := |rows| - 1;
      ScanSelects(rows[..n], where, schema);
      assert rows == rows[..n] + [rows[n]];
    }
  }

  /** The positions, in ascending order, of the rows on which the clause is true. */
  ghost predicate PassAt(at: seq<nat>, rows: seq<Row>, where: Option<Expr>, schema: Schema)
    requires Shaped(rows, schema)
  {
    && (forall i, j :: 0 <= i < j < |at| ==> at[i] < at[j])
    && (forall i :: 0 <= i < |at| ==> at[i] < |rows| && Passes(where, schema, rows[at[i]]) == Ok(true))
    && forall k {:trigger k in at} :: 0 <= k < |rows| && Passes(where, schema, rows[k]) == Ok(true) ==> k in at
  }

  function RowsAt(at: seq<nat>, rows: seq<Row>): seq<Row>
    requires forall i :: 0 <= i < |at| ==> at[i] < |rows|
  {
    seq(|at|, i requires 0 <= i < |at| => rows[at[i]])
  }

  lemma PassAtMore(at: seq<nat>, rows: seq<Row>, where: Option<Expr>, schema: Schema)
    requires Shaped(rows, schema) && rows != [] && PassAt(at, rows[..|rows| - 1], where, schema)
    ensures var n := |rows| - 1;
      var more := if Passes(where, schema, rows[n]) == Ok(true) then at + [n] else at;
      && PassAt(more, rows, where, schema)
      && RowsAt(more, rows) == RowsAt(at, rows[..n]) + if Passes(where, schema, rows[n]) == Ok(true) then [rows[n]]
        else []
  {
    hide Passes, PassAt, RowsAt;
    PassAtBounds(at, rows[..|rows| - 1], where, schema);
    PassAtOneMore(at, rows, where, schema);
    RowsAtMore(at, rows);
  }

  /** The positions, in ascending order, of the first `n` rows on which the clause is true. */
  ghost predicate PassUpTo(at: seq<nat>, n: nat, rows: seq<Row>, where: Option<Expr>, schema: Schema)
    requires Shaped(rows, schema) && n <= |rows|
  {
    && (forall i, j :: 0 <= i < j < |at| ==> at[i] < at[j])
    && (forall i :: 0 <= i < |at| ==> at[i] < n && Passes(where, schema, rows[at[i]]) == Ok(true))
    && forall k {:trigger k in at} :: 0 <= k < n && Passes(where, schema, rows[k]) == Ok(true) ==> k in at
  }

  lemma PassUpToAll(at: seq<nat>, n: nat, rows: seq<Row>, where: Option<Expr>, schema: Schema)
    requires Shaped(rows, schema) && n <= |rows|
    ensures PassUpTo(at, n, rows, where, schema) <==> PassAt(at, rows[..n], where, schema)
  {
    hide Passes;
    assert forall k :: 0 <= k < n ==> rows[..n][k] == rows[k];
  }

  lemma PassUpToMore(at: seq<nat>, n: nat, rows: seq<Row>, where: Option<Expr>, schema: Schema)
    requires Shaped(rows, schema) && n < |rows| && PassUpTo(at, n, rows, where, schema)
    ensures PassUpTo(if Passes(where, schema, rows[n]) == Ok(true) then at + [n] else at, n + 1, rows, where, schema)
  {
    hide Passes;
    if Passes(where, schema, rows[n]) == Ok(true) {
      var more := at + [n];
      forall k {:trigger k in more} | 0 <= k < n + 1 && Passes(where, schema, rows[k]) == Ok(true) ensures k in more {
        InMore(at, n, k);
      }
    }
  }

  lemma InMore(at: seq<nat>, n: nat, k: nat)
    ensures k in at + [n] <==> k in at || k == n
  {
  }

  lemma PassAtOneMore(at: seq<nat>, rows: seq<Row>, where: Option<Expr>, schema: Schema)
    requires Shaped(rows, schema) && rows != [] && PassAt(at, rows[..|rows| - 1], where, schema)
    ensures var n := |rows| - 1;
      PassAt(if Passes(where, schema, rows[n]) == Ok(true) then at + [n] else at, rows, where, schema)
  {
    hide Passes, PassAt, PassUpTo;
    var n := |rows| - 1;
    PassUpToAll(at, n, rows, where, schema);
    PassUpToMore(at, n, rows, where, schema);
    PassUpToAll(if Passes(where, schema, rows[n]) == Ok(true) then at + [n] else at, n + 1, rows, where, schema);
    assert rows[..n + 1] == rows;
  }

  lemma RowsAtMore(at: seq<nat>, rows: seq<Row>)
    requires rows != [] && forall i :: 0 <= i < |at| ==> at[i] < |rows| - 1
    ensures var n := |rows| - 1;
      RowsAt(at, rows) == RowsAt(at, rows[..n]) && RowsAt(at + [n], rows) == RowsAt(at, rows[..n]) + [rows[n]]
  {
  }

  /** A scan yields the rows at exactly these positions. */
  lemma {:induction false} ScanInOrder(rows: seq<Row>, where: Option<Expr>, schema: Schema) returns (at: seq<nat>)
    requires Shaped(rows, schema) && Scan(rows, where, schema).Ok?
    ensures PassAt(at, rows, where, schema) && Scan(rows, where, schema) == Ok(RowsAt(at, rows))
  {
    hide Passes, PassAt, RowsAt;
    at := [];
    if rows == [] {
      NoneAt(where, schema);
    } else {
      var n := |rows| - 1;
      at := ScanInOrder(rows[..n], where, schema);
      PassAtBounds(at, rows[..n], where, schema);
      PassAtMore(at, rows, where, schema);
      if Passes(where, schema, rows[n]) == Ok(true) {
        at := at + [n];
      } else {
        assert RowsAt(at, rows[..n]) + [] == RowsAt(at, rows[..n]);
      }
    }
  }

  lemma NoneAt(where: Option<Expr>, schema: Schema)
    ensures PassAt([], [], where, schema) && RowsAt([], []) == []
  {
  }

  lemma PassAtBounds(at: seq<nat>, rows: seq<Row>, where: Option<Expr>, schema: Schema)
    requires Shaped(rows, schema) && PassAt(at, rows, where, schema)
    ensures forall i :: 0 <= i < |at| ==> at[i] < |rows|
  {
  }

  /** A scan fails only if some row makes the clause fail. */
  lemma {:induction false} ScanSucceeds(rows: seq<Row>, where: Option<Expr>, schema: Schema)
    requires Shaped(rows, schema) && forall i :: 0 <= i < |rows| ==> Passes(where, schema, rows[i]).Ok?
    ensures Scan(rows, where, schema).Ok?
  {
    if rows != [] { ScanSucceeds(rows[..|rows| - 1], where, schema); }
  }
}
