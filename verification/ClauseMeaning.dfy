/** What a WHERE clause says about a row, in terms of the values themselves: the reference for their evaluation. */
module ClauseMeaning {
  import opened Wrappers
  import opened Values
  import opened Predicates

  // ---------- values ----------

  /** The column is the first one of that name. */
  predicate FirstNamed(schema: Schema, name: string, i: nat)
    requires i < |schema|
  {
    schema[i].name == name && forall j :: 0 <= j < i ==> schema[j].name != name
  }

  lemma {:induction false} FoundIsFirst(schema: Schema, name: string, i: nat)
    requires i < |schema|
    ensures FindColumnIndex(schema, name) == Some(i) <==> FirstNamed(schema, name, i)
  {
    if i > 0 {
      FoundIsFirst(schema[1..], name, i - 1);
      assert FirstNamed(schema, name, i) <==> schema[0].name != name && FirstNamed(schema[1..], name, i - 1) by {
        assert schema[1..][i - 1] == schema[i];
        assert forall j :: 0 < j < i ==> schema[j] == schema[1..][j - 1];
        assert forall j :: 0 <= j < i - 1 ==> schema[1..][j] == schema[j + 1];
      }
    }
  }

  /** The expression stands for the value: a literal for itself, a column for what the row holds there. */
  ghost predicate StandsFor(e: Expr, schema: Schema, row: Row, v: Value)
    requires |row.values| == |schema|
  {
    match e
    case Literal(w) => v == w
    case ColumnRef(name) => exists i :: 0 <= i < |schema| && FirstNamed(schema, name, i) && v == row.values[i]
    case _ => false
  }

  lemma ValueMeans(e: Expr, schema: Schema, row: Row)
    requires |row.values| == |schema|
    ensures forall v :: EvaluateValue(e, schema, row) == Ok(v) <==> StandsFor(e, schema, row, v)
  {
    hide FindColumnIndex, FirstNamed;
    if e.ColumnRef? {
      forall i | 0 <= i < |schema|
        ensures FindColumnIndex(schema, e.name) == Some(i) <==> FirstNamed(schema, e.name, i)
      {
        FoundIsFirst(schema, e.name, i);
      }
    }
  }

  // ---------- comparisons ----------

  predicate Ordering(op: Comparison) {
    op != Equal && op != NotEqual
  }

  /** The relation that a comparison is meant to decide. */
  ghost predicate Related(op: Comparison, l: Value, r: Value) {
    && TypeOf(l) == TypeOf(r)
    && match op
       case Equal => l == r
       case NotEqual => l != r
       case Less => Before(l, r)
       case Greater => Before(r, l)
       case LessEqual => !Before(r, l)
       case GreaterEqual => !Before(l, r)
  }

  lemma HoldsMeans(op: Comparison, l: Value, r: Value)
    requires TypeOf(l) == TypeOf(r) && (Ordering(op) ==> NoOverflow(l, r))
    ensures Holds(op, CompareValues(l, r)) <==> Related(op, l, r)
  {
    hide CompareValues, Before;
    CompareEqual(l, r);
    if Ordering(op) { CompareIsOrder(l, r); }
  }

  lemma TruthyMeans(v: Value)
    ensures Truthy(v) <==> v !in {Null, Int(0), Str("")}
  {
  }

  // ---------- clauses ----------

  /** Both sides stand for values, and these are related. */
  ghost predicate RelatedIn(op: Comparison, left: Expr, right: Expr, schema: Schema, row: Row)
    requires |row.values| == |schema|
  {
    exists l, r :: StandsFor(left, schema, row, l) && StandsFor(right, schema, row, r) && Related(op, l, r)
  }

  /** Both sides stand for values of one type. */
  ghost predicate Comparable(left: Expr, right: Expr, schema: Schema, row: Row)
    requires |row.values| == |schema|
  {
    exists l, r :: StandsFor(left, schema, row, l) && StandsFor(right, schema, row, r) && TypeOf(l) == TypeOf(r)
  }

  /** The difference of both sides, should they be integers, does not overflow. */
  ghost predicate Measurable(left: Expr, right: Expr, schema: Schema, row: Row)
    requires |row.values| == |schema|
  {
    forall l, r :: StandsFor(left, schema, row, l) && StandsFor(right, schema, row, r) ==> NoOverflow(l, r)
  }

  /** The clause is true of the row; BETWEEN includes the lower bound and excludes the upper one. */
  ghost predicate Satisfies(e: Expr, schema: Schema, row: Row)
    requires |row.values| == |schema|
  {
    match e
    case Logical(And, left, right) => Satisfies(left, schema, row) && Satisfies(right, schema, row)
    case Logical(Or, left, right) => Satisfies(left, schema, row) || Satisfies(right, schema, row)
    case Compare(op, left, right) => RelatedIn(op, left, right, schema, row)
    case Between(subject, lower, upper) =>
      RelatedIn(GreaterEqual, subject, lower, schema, row) && RelatedIn(Less, subject, upper, schema, row)
    case _ => exists v :: StandsFor(e, schema, row, v) && v !in {Null, Int(0), Str("")}
  }

  /** The clause says something about the row: all its columns are there, and comparisons are between values of one
      type. */
  ghost predicate Meaningful(e: Expr, schema: Schema, row: Row)
    requires |row.values| == |schema|
  {
    match e
    case Logical(_, left, right) => Meaningful(left, schema, row) && Meaningful(right, schema, row)
    case Compare(_, left, right) => Comparable(left, right, schema, row)
    case Between(subject, lower, upper) =>
      Comparable(subject, lower, schema, row) && Comparable(subject, upper, schema, row)
    case _ => exists v :: StandsFor(e, schema, row, v)
  }

  /** No ordering in the clause is between integers whose difference overflows. */
  ghost predicate Measured(e: Expr, schema: Schema, row: Row)
    requires |row.values| == |schema|
  {
    match e
    case Logical(_, left, right) => Measured(left, schema, row) && Measured(right, schema, row)
    case Compare(op, left, right) => Ordering(op) ==> Measurable(left, right, schema, row)
    case Between(subject, lower, upper) =>
      Measurable(subject, lower, schema, row) && Measurable(subject, upper, schema, row)
    case _ => true
  }

  lemma PairMeans(op: Comparison, left: Expr, right: Expr, schema: Schema, row: Row)
    requires |row.values| == |schema|
    ensures var l, r := EvaluateValue(left, schema, row), EvaluateValue(right, schema, row);
      && (Comparable(left, right, schema, row) <==> l.Ok? && r.Ok? && TypeOf(l.value) == TypeOf(r.value))
      && (Comparable(left, right, schema, row) && (Ordering(op) ==> Measurable(left, right, schema, row)) ==>
            (Holds(op, CompareValues(l.value, r.value)) <==> RelatedIn(op, left, right, schema, row)))
  {
    hide EvaluateValue, StandsFor, Holds, CompareValues, NoOverflow, Related, TypeOf;
    ValueMeans(left, schema, row);
    ValueMeans(right, schema, row);
    var l, r := EvaluateValue(left, schema, row), EvaluateValue(right, schema, row);
    if l.Ok? && r.Ok? {
      assert StandsFor(left, schema, row, l.value) && StandsFor(right, schema, row, r.value);
      if TypeOf(l.value) == TypeOf(r.value) && (Ordering(op) ==> Measurable(left, right, schema, row)) {
        HoldsMeans(op, l.value, r.value);
      }
    }
  }

  /** A clause is evaluated if and only if it says something about the row, and then, as long as no difference
      overflows, to true if and only if what it says is true. */
  lemma {:induction false} ClauseMeans(e: Expr, schema: Schema, row: Row)
    requires |row.values| == |schema|
    ensures EvaluatePredicate(e, schema, row).Ok? <==> Meaningful(e, schema, row)
    ensures EvaluatePredicate(e, schema, row).Ok? && Measured(e, schema, row) ==>
      (EvaluatePredicate(e, schema, row).value <==> Satisfies(e, schema, row))
  {
    hide EvaluateValue, StandsFor, Comparable, Measurable, RelatedIn, CompareValues;
    match e
    case Logical(connective, left, right) =>
      ClauseMeans(left, schema, row);
      ClauseMeans(right, schema, row);
    case Compare(op, left, right) => PairMeans(op, left, right, schema, row);
    case Between(subject, lower, upper) =>
      PairMeans(GreaterEqual, subject, lower, schema, row);
      PairMeans(Less, subject, upper, schema, row);
    case _ =>
      ValueMeans(e, schema, row);
      var v := EvaluateValue(e, schema, row);
      if v.Ok? { TruthyMeans(v.value); }
  }

  // ---------- rows ----------

  /** The clause, if there is one, is true of the row. */
  ghost predicate Chosen(where: Option<Expr>, schema: Schema, row: Row)
    requires |row.values| == |schema|
  {
    where.Some? ==> Satisfies(where.value, schema, row)
  }

  /** The clause can be decided for every row. */
  ghost predicate Decidable(where: Option<Expr>, schema: Schema, rows: seq<Row>)
    requires Shaped(rows, schema)
  {
    where.Some? ==> forall i :: 0 <= i < |rows| ==>
      Meaningful(where.value, schema, rows[i]) && Measured(where.value, schema, rows[i])
  }

  lemma PassesMeans(where: Option<Expr>, schema: Schema, rows: seq<Row>, i: nat)
    requires Shaped(rows, schema) && Decidable(where, schema, rows) && i < |rows|
    ensures Passes(where, schema, rows[i]) == Ok(Chosen(where, schema, rows[i]))
  {
    hide EvaluatePredicate, Satisfies, Meaningful, Measured;
    if where.Some? { ClauseMeans(where.value, schema, rows[i]); }
  }

  /** The positions, in ascending order, of the rows that the clause is true of. */
  ghost predicate ChosenAt(at: seq<nat>, rows: seq<Row>, where: Option<Expr>, schema: Schema)
    requires Shaped(rows, schema)
  {
    && (forall i, j :: 0 <= i < j < |at| ==> at[i] < at[j])
    && (forall i :: 0 <= i < |at| ==> at[i] < |rows| && Chosen(where, schema, rows[at[i]]))
    && forall k {:trigger k in at} :: 0 <= k < |rows| && Chosen(where, schema, rows[k]) ==> k in at
  }

  lemma PassAtMeans(at: seq<nat>, rows: seq<Row>, where: Option<Expr>, schema: Schema)
    requires Shaped(rows, schema) && Decidable(where, schema, rows)
    ensures PassAt(at, rows, where, schema) <==> ChosenAt(at, rows, where, schema)
  {
    hide Passes, Chosen, Decidable;
    forall i | 0 <= i < |rows| ensures Passes(where, schema, rows[i]) == Ok(Chosen(where, schema, rows[i])) {
      PassesMeans(where, schema, rows, i);
    }
  }

  lemma AllPassOrNot(rows: seq<Row>, where: Option<Expr>, schema: Schema)
    requires Shaped(rows, schema) && Decidable(where, schema, rows)
    ensures forall i :: 0 <= i < |rows| ==> Passes(where, schema, rows[i]).Ok?
  {
    hide Passes, Chosen, Decidable;
    forall i | 0 <= i < |rows| ensures Passes(where, schema, rows[i]).Ok? { PassesMeans(where, schema, rows, i); }
  }

  /** Filtering by a clause that can be decided answers the rows that it is true of, in their order. */
  lemma ScanMeans(rows: seq<Row>, where: Option<Expr>, schema: Schema) returns (at: seq<nat>)
    requires Shaped(rows, schema) && Decidable(where, schema, rows)
    ensures ChosenAt(at, rows, where, schema) && Scan(rows, where, schema) == Ok(RowsAt(at, rows))
  {
    hide Passes, Scan, PassAt, ChosenAt, Decidable, RowsAt;
    AllPassOrNot(rows, where, schema);
    ScanSucceeds(rows, where, schema);
    at := ScanInOrder(rows, where, schema);
    PassAtMeans(at, rows, where, schema);
    PassAtBounds(at, rows, where, schema);
  }
}
