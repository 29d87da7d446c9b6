/** SELECT's row filter: the index path returns what the scan would, in key order. */
module FilterRows {
  import opened Wrappers
  import opened Keys
  import opened Values
  import opened Predicates
  import opened ClauseMeaning
  import opened TableIndex
  import opened SortedMap
  import opened BStarPlusTree
  import TreeShape
  import TreeLookup

  type Entry = TreeShape.Entry

  // ---------- from index entries to rows ----------

  function IdsOf(es: seq<Entry>): seq<RowId> {
    if es == [] then [] else IdsOf(es[..|es| - 1]) + es[|es| - 1].rows
  }

  /** The looked-up rows that pass, in the order of their ids, or the first error; unknown ids are skipped. */
  function Picked(ids: seq<RowId>, lookup: map<RowId, Row>, where: Option<Expr>, schema: Schema): Result<seq<Row>>
    requires forall id :: id in lookup ==> |lookup[id].values| == |schema|
  {
    if ids == [] then Ok([])
    else
      var id := ids[|ids| - 1];
      match Picked(ids[..|ids| - 1], lookup, where, schema)
      case Err(error) => Err(error)
      case Ok(picked) =>
        if id !in lookup then Ok(picked)
        else match Passes(where, schema, lookup[id])
          case Err(error) => Err(error)
          case Ok(pass) => Ok(if pass then picked + [lookup[id]] else picked)
  }

  /** The entry stands for the row. */
  ghost predicate EntryOf(e: Entry, r: Row, c: nat, t: ValueType) {
    Typed(r, c, t) && e.rows == [r.id] && e.key == KeyOf(r, c, t)
  }

  /** `owners` are the rows that the entries stand for, in the same order. */
  ghost predicate Owned(es: seq<Entry>, owners: seq<Row>, rows: seq<Row>, c: nat, t: ValueType) {
    && |owners| == |es|
    && forall i :: 0 <= i < |es| ==> owners[i] in rows && EntryOf(es[i], owners[i], c, t)
  }

  ghost predicate AscendingBy(rows: seq<Row>, c: nat, t: ValueType) {
    && TypedColumn(rows, c, t)
    && forall i, j :: 0 <= i < j < |rows| ==> Before(rows[i].values[c], rows[j].values[c])
  }

  /** Entries of an index that agrees with the rows have owners. */
  lemma {:induction false} FindOwners(es: seq<Entry>, m: Index, rows: seq<Row>, c: nat, t: ValueType)
    returns (owners: seq<Row>)
    requires Agrees(m, rows, c, t)
    requires forall i :: 0 <= i < |es| ==> es[i].key in m && m[es[i].key] == es[i].rows
    ensures Owned(es, owners, rows, c, t)
  {
    owners := [];
    if es != [] {
      var n := |es| - 1;
      var first := FindOwners(es[..n], m, rows, c, t);
      var r := OwnerOf(es[n], m, rows, c, t);
      owners := first + [r];
    }
  }

  lemma OwnerOf(e: Entry, m: Index, rows: seq<Row>, c: nat, t: ValueType) returns (r: Row)
    requires Agrees(m, rows, c, t) && e.key in m && m[e.key] == e.rows
    ensures r in rows && EntryOf(e, r, c, t)
  {
    var j :| 0 <= j < |rows| && KeyOf(rows[j], c, t) == e.key;
    r := rows[j];
  }

  lemma OwnersAscend(es: seq<Entry>, owners: seq<Row>, rows: seq<Row>, c: nat, t: ValueType)
    requires Owned(es, owners, rows, c, t) && Sorted(es)
    ensures AscendingBy(owners, c, t)
  {
    hide Rank, EncodeIndexKey;
    forall i, j | 0 <= i < j < |owners| ensures Before(owners[i].values[c], owners[j].values[c]) {
      assert EntryOf(es[i], owners[i], c, t) && EntryOf(es[j], owners[j], c, t);
      EncodeKeepsOrder(owners[i].values[c], owners[j].values[c], t);
    }
  }

  /** Picking through the entries is scanning their owners. */
  lemma {:induction false} PickedIsScan(es: seq<Entry>, owners: seq<Row>, rows: seq<Row>, c: nat, t: ValueType,
                                        where: Option<Expr>, schema: Schema)
    requires Owned(es, owners, rows, c, t) && DistinctIds(rows) && Shaped(rows, schema)
    ensures Shaped(owners, schema) && forall id :: id in RowMap(rows) ==> |RowMap(rows)[id].values| == |schema|
    ensures Picked(IdsOf(es), RowMap(rows), where, schema) == Scan(owners, where, schema)
  {
    hide Passes, RowMap, EntryOf, Owned;
    LookupShaped(rows, schema);
    OwnersShaped(es, owners, rows, c, t, schema);
    if es != [] {
      var n := |es| - 1;
      PickedIsScan(es[..n], owners[..n], rows, c, t, where, schema);
      LastOwner(es, owners, rows, c, t);
      assert owners[..|owners| - 1] == owners[..n];
    }
  }

  lemma OwnersShaped(es: seq<Entry>, owners: seq<Row>, rows: seq<Row>, c: nat, t: ValueType, schema: Schema)
    requires Owned(es, owners, rows, c, t) && Shaped(rows, schema)
    ensures |owners| == |es| && Shaped(owners, schema)
    ensures es != [] ==> Owned(es[..|es| - 1], owners[..|es| - 1], rows, c, t)
  {
    hide EntryOf;
  }

  lemma LookupShaped(rows: seq<Row>, schema: Schema)
    requires Shaped(rows, schema)
    ensures forall id :: id in RowMap(rows) ==> |RowMap(rows)[id].values| == |schema|
  {
    forall id | id in RowMap(rows) ensures |RowMap(rows)[id].values| == |schema| { RowMapHas(rows, id); }
  }

  lemma LastOwner(es: seq<Entry>, owners: seq<Row>, rows: seq<Row>, c: nat, t: ValueType)
    requires Owned(es, owners, rows, c, t) && DistinctIds(rows) && es != []
    ensures var n, r := |es| - 1, owners[|es| - 1];
      && IdsOf(es) == IdsOf(es[..n]) + [r.id] && IdsOf(es)[..|IdsOf(es)| - 1] == IdsOf(es[..n])
      && r.id in RowMap(rows) && RowMap(rows)[r.id] == r
  {
    var n := |es| - 1;
    assert EntryOf(es[n], owners[n], c, t);
    var j :| 0 <= j < |rows| && rows[j] == owners[n];
    RowMapAt(rows, j);
  }

  /** Filtering keeps the order. */
  lemma {:induction false} ScanKeepsOrder(rows: seq<Row>, c: nat, t: ValueType, where: Option<Expr>, schema: Schema)
    requires Shaped(rows, schema) && AscendingBy(rows, c, t) && Scan(rows, where, schema).Ok?
    ensures AscendingBy(Scan(rows, where, schema).value, c, t)
  {
    hide Passes, Before;
    if rows != [] {
      var n := |rows| - 1;
      ScanKeepsOrder(rows[..n], c, t, where, schema);
      ScanSelects(rows[..n], where, schema);
      forall r | r in Scan(rows[..n], where, schema).value
        ensures Typed(r, c, t) && Before(r.values[c], rows[n].values[c])
      {
        var i :| 0 <= i < n && rows[..n][i] == r;
        assert rows[i] == r;
      }
    }
  }

  lemma {:induction false} ScanKeepsIds(rows: seq<Row>, where: Option<Expr>, schema: Schema)
    requires Shaped(rows, schema) && DistinctIds(rows) && Scan(rows, where, schema).Ok?
    ensures DistinctIds(Scan(rows, where, schema).value)
  {
    hide Passes;
    if rows != [] {
      var n := |rows| - 1;
      ScanKeepsIds(rows[..n], where, schema);
      ScanSelects(rows[..n], where, schema);
      forall r | r in Scan(rows[..n], where, schema).value ensures r.id != rows[n].id {
        var i :| 0 <= i < n && rows[..n][i] == r;
        assert rows[i] == r;
      }
    }
  }

  // ---------- the index path is the scan ----------

  /** Duplicate-free sequences with the same members are permutations of each other. */
  lemma {:induction false} SameMembers(a: seq<Row>, b: seq<Row>)
    requires forall i, j :: 0 <= i < j < |a| ==> a[i] != a[j]
    requires forall i, j :: 0 <= i < j < |b| ==> b[i] != b[j]
    requires forall r :: r in a <==> r in b
    ensures multiset(a) == multiset(b)
  {
    Once(a);
    Once(b);
    assert forall r :: multiset(a)[r] == multiset(b)[r];
  }

  lemma {:induction false} Once(a: seq<Row>)
    requires forall i, j :: 0 <= i < j < |a| ==> a[i] != a[j]
    ensures forall r :: multiset(a)[r] == if r in a then 1 else 0
  {
    if a != [] {
      var n := |a| - 1;
      Once(a[..n]);
      assert a == a[..n] + [a[n]];
    }
  }

  /** If no passing row is missing among the owners, filtering them is a permutation of the scan, in key order. */
  lemma IndexPathIsScan(es: seq<Entry>, owners: seq<Row>, rows: seq<Row>, c: nat, t: ValueType,
                        where: Option<Expr>, schema: Schema)
    requires Owned(es, owners, rows, c, t) && Sorted(es) && DistinctIds(rows) && Shaped(rows, schema)
      && Shaped(owners, schema)
    requires Scan(rows, where, schema).Ok?
    requires forall r :: r in Scan(rows, where, schema).value ==> r in owners
    ensures var f := Scan(owners, where, schema);
      f.Ok? && AscendingBy(f.value, c, t) && multiset(f.value) == multiset(Scan(rows, where, schema).value)
  {
    hide Passes, Rank, Before, EntryOf;
    ScanSelects(rows, where, schema);
    ScanSucceeds(owners, where, schema);
    ScanSelects(owners, where, schema);
    OwnersAscend(es, owners, rows, c, t);
    ScanKeepsOrder(owners, c, t, where, schema);
    ScanKeepsIds(rows, where, schema);
    NotBeforeItself(Scan(owners, where, schema).value, c, t);
    SameMembers(Scan(owners, where, schema).value, Scan(rows, where, schema).value);
  }

  lemma NotBeforeItself(rows: seq<Row>, c: nat, t: ValueType)
    requires AscendingBy(rows, c, t)
    ensures forall i, j :: 0 <= i < j < |rows| ==> rows[i] != rows[j]
  {
    forall i, j | 0 <= i < j < |rows| ensures rows[i] != rows[j] {
      assert Before(rows[i].values[c], rows[j].values[c]);
    }
  }

  // ---------- which entries a clause needs ----------

  /** A literal that the column can be compared with: of its type, and if it matters which is less, no difference
      overflows. */
  ghost predicate Fits(v: Value, rows: seq<Row>, c: nat, t: ValueType, ordered: bool) {
    && TypeOf(v) == t && t != NullType && TypedColumn(rows, c, t)
    && (ordered ==> forall i :: 0 <= i < |rows| ==> NoOverflow(rows[i].values[c], v))
  }

  /** `es` are the entries of `m` with keys in [lower, upper). */
  ghost predicate RangeOf(es: seq<Entry>, m: Index, lower: Key, upper: Key) {
    Sorted(es) && ToMap(es) == map k | k in m && Rank(lower) <= Rank(k) < Rank(upper) :: m[k]
  }

  lemma RangeEntries(es: seq<Entry>, m: Index, lower: Key, upper: Key)
    requires RangeOf(es, m, lower, upper)
    ensures forall i :: 0 <= i < |es| ==> es[i].key in m && m[es[i].key] == es[i].rows
    ensures forall k :: k in m && Rank(lower) <= Rank(k) < Rank(upper) ==> TreeShape.Entry(k, m[k]) in es
  {
    hide Rank, ToMap, Sorted;
    TreeLookup.SortedToMap(es);
    var range := ToMap(es);
    forall i | 0 <= i < |es| ensures es[i].key in m && m[es[i].key] == es[i].rows {
      assert es[i] in es;
      assert es[i].key in range;
    }
    forall k | k in m && Rank(lower) <= Rank(k) < Rank(upper) ensures TreeShape.Entry(k, m[k]) in es {
      assert k in range;
    }
  }

  /** The clause is a comparison of an indexed column with a literal, or a BETWEEN of literals, on that index. */
  datatype Access = Access(lower: Key, upper: Key) | AccessOne(key: Key) | NoAccess

  function AccessFor(where: Expr, t: ValueType): Access {
    match where
    case Compare(op, ColumnRef(_), Literal(v)) =>
      if TypeOf(v) != t then NoAccess
      else
        var encoded := EncodeIndexKey(v, t);
        (match op
         case Equal => AccessOne(encoded)
         case NotEqual => NoAccess
         case Less => Access("", encoded + "\U{FF}")
         case LessEqual => Access("", encoded + "\U{FF}")
         case Greater => Access(encoded, "\U{FF}\U{FF}\U{FF}\U{FF}")
         case GreaterEqual => Access(encoded, "\U{FF}\U{FF}\U{FF}\U{FF}"))
    case Between(ColumnRef(_), Literal(lo), Literal(hi)) =>
      if TypeOf(lo) != t || TypeOf(hi) != t then NoAccess else Access(EncodeIndexKey(lo, t), EncodeIndexKey(hi, t))
    case _ => NoAccess
  }

  ghost predicate Within(access: Access, k: Key) {
    match access
    case Access(lower, upper) => Rank(lower) <= Rank(k) < Rank(upper)
    case AccessOne(key) => k == key
    case NoAccess => false
  }

  /** The literals of an index-served clause fit the column. */
  ghost predicate LiteralsFit(where: Expr, rows: seq<Row>, c: nat, t: ValueType) {
    match where
    case Compare(op, ColumnRef(_), Literal(v)) => Fits(v, rows, c, t, op != Equal && op != NotEqual)
    case Between(ColumnRef(_), Literal(lo), Literal(hi)) => Fits(lo, rows, c, t, true) && Fits(hi, rows, c, t, true)
    case _ => true
  }

  function SubjectOf(where: Expr): Option<string> {
    match where
    case Compare(_, ColumnRef(name), Literal(_)) => Some(name)
    case Between(ColumnRef(name), Literal(_), Literal(_)) => Some(name)
    case _ => None
  }

  /** Every row that passes has its key where the index is searched, and no row makes the clause fail. */
  lemma PassingIsWithin(where: Expr, rows: seq<Row>, c: nat, t: ValueType, schema: Schema, i: nat)
    requires i < |rows| && Shaped(rows, schema) && LiteralsFit(where, rows, c, t)
    requires SubjectOf(where).Some? && FindColumnIndex(schema, SubjectOf(where).value) == Some(c)
    requires AccessFor(where, t) != NoAccess
    ensures Typed(rows[i], c, t) && EvaluatePredicate(where, schema, rows[i]).Ok?
    ensures EvaluatePredicate(where, schema, rows[i]) == Ok(true) ==> Within(AccessFor(where, t), KeyOf(rows[i], c, t))
  {
    hide Rank, EncodeIndexKey;
    var x := rows[i].values[c];
    match where {
      case Compare(op, ColumnRef(_), Literal(v)) =>
        CompareEqual(x, v);
        if op != Equal { CompareIsOrder(x, v); }
        EncodeKeepsOrder(x, v, t);
        EncodeKeepsOrder(v, x, t);
        ScanBounds(x, t);
        ScanBounds(v, t);
      case Between(ColumnRef(_), Literal(lo), Literal(hi)) =>
        CompareIsOrder(x, lo);
        CompareIsOrder(x, hi);
        EncodeKeepsOrder(x, lo, t);
        EncodeKeepsOrder(x, hi, t);
    }
  }

  /** The value stands in the relation that the clause demands of the column. */
  ghost predicate InRelation(where: Expr, x: Value) {
    match where
    case Compare(op, ColumnRef(_), Literal(v)) => Related(op, x, v)
    case Between(ColumnRef(_), Literal(lo), Literal(hi)) => Related(GreaterEqual, x, lo) && Related(Less, x, hi)
    case _ => false
  }

  lemma ServedMeans(where: Expr, rows: seq<Row>, c: nat, t: ValueType, schema: Schema, i: nat)
    requires i < |rows| && Shaped(rows, schema) && LiteralsFit(where, rows, c, t)
    requires SubjectOf(where).Some? && FindColumnIndex(schema, SubjectOf(where).value) == Some(c)
    ensures EvaluatePredicate(where, schema, rows[i]) == Ok(InRelation(where, rows[i].values[c]))
  {
    hide CompareValues, Holds, Related, Before, NoOverflow;
    var x := rows[i].values[c];
    assert Typed(rows[i], c, t);
    match where {
      case Compare(op, ColumnRef(_), Literal(v)) => HoldsMeans(op, x, v);
      case Between(ColumnRef(_), Literal(lo), Literal(hi)) =>
        HoldsMeans(GreaterEqual, x, lo);
        HoldsMeans(Less, x, hi);
        BothHold(CompareValues(x, lo), CompareValues(x, hi));
    }
  }

  lemma BothHold(a: int, b: int)
    ensures Holds(GreaterEqual, a) && Holds(Less, b) <==> a >= 0 && b < 0
  {
  }

  /** The answer of the index path: the rows whose column stands in the relation that the clause demands. */
  lemma AnswerMeans(r: seq<Row>, rows: seq<Row>, c: nat, t: ValueType, where: Expr, schema: Schema)
    requires Shaped(rows, schema) && LiteralsFit(where, rows, c, t) && SameRows(r, rows, c, t, Some(where), schema)
    requires SubjectOf(where).Some? && FindColumnIndex(schema, SubjectOf(where).value) == Some(c)
    ensures forall row :: row in r <==> row in rows && c < |row.values| && InRelation(where, row.values[c])
  {
    hide EvaluatePredicate, InRelation, LiteralsFit;
    ScanSelects(rows, Some(where), schema);
    forall row ensures row in r <==> row in rows && c < |row.values| && InRelation(where, row.values[c]) {
      assert row in r <==> row in multiset(r);
      if row in rows {
        var i :| 0 <= i < |rows| && rows[i] == row;
        ServedMeans(where, rows, c, t, schema, i);
      }
    }
  }

  // ---------- the filter ----------

  /** The index on column `c` can be searched and agrees with the rows. */
  ghost predicate Serves(index: BStarPlusTree, rows: seq<Row>, c: nat, t: ValueType)
    reads index, TreeShape.Nodes(index.shape)
  {
    index.Searchable() && Agrees(index.Content(), rows, c, t)
  }

  /** The rows an index search leads to are those that pass the clause, in key order. */
  ghost predicate SameRows(r: seq<Row>, rows: seq<Row>, c: nat, t: ValueType, where: Option<Expr>, schema: Schema)
    requires Shaped(rows, schema)
  {
    && Scan(rows, where, schema).Ok?
    && multiset(r) == multiset(Scan(rows, where, schema).value)
    && AscendingBy(r, c, t)
  }

  /** From the ids that an access yields to the answer. */
  lemma AccessAnswers(ids: seq<RowId>, es: seq<Entry>, m: Index, rows: seq<Row>, c: nat, t: ValueType,
                      where: Expr, schema: Schema)
    requires ids == IdsOf(es) && Sorted(es) && Agrees(m, rows, c, t) && DistinctIds(rows) && Shaped(rows, schema)
    requires forall i :: 0 <= i < |es| ==> es[i].key in m && m[es[i].key] == es[i].rows
    requires forall k :: k in m && Within(AccessFor(where, t), k) ==> TreeShape.Entry(k, m[k]) in es
    requires SubjectOf(where).Some? && FindColumnIndex(schema, SubjectOf(where).value) == Some(c)
    requires LiteralsFit(where, rows, c, t) && AccessFor(where, t) != NoAccess
    ensures forall id :: id in RowMap(rows) ==> |RowMap(rows)[id].values| == |schema|
    ensures var f := Picked(ids, RowMap(rows), Some(where), schema);
      f.Ok? && SameRows(f.value, rows, c, t, Some(where), schema)
  {
    hide Rank, EvaluatePredicate, KeyOf, RowMap, AccessFor, LiteralsFit, Within, Sorted;
    var owners := FindOwners(es, m, rows, c, t);
    PickedIsScan(es, owners, rows, c, t, Some(where), schema);
    forall i | 0 <= i < |rows|
      ensures EvaluatePredicate(where, schema, rows[i]).Ok?
      ensures EvaluatePredicate(where, schema, rows[i]) == Ok(true) ==> rows[i] in owners
    {
      PassingIsWithin(where, rows, c, t, schema, i);
      if EvaluatePredicate(where, schema, rows[i]) == Ok(true) { OwnerFound(es, owners, m, rows, c, t, i); }
    }
    ScanSucceeds(rows, Some(where), schema);
    ScanSelects(rows, Some(where), schema);
    IndexPathIsScan(es, owners, rows, c, t, Some(where), schema);
  }

  lemma OwnerFound(es: seq<Entry>, owners: seq<Row>, m: Index, rows: seq<Row>, c: nat, t: ValueType, i: nat)
    requires Agrees(m, rows, c, t) && DistinctIds(rows) && Owned(es, owners, rows, c, t) && i < |rows|
    requires Typed(rows[i], c, t) && TreeShape.Entry(KeyOf(rows[i], c, t), m[KeyOf(rows[i], c, t)]) in es
    ensures rows[i] in owners
  {
    hide KeyOf;
    var k := KeyOf(rows[i], c, t);
    var j :| 0 <= j < |es| && es[j] == TreeShape.Entry(k, m[k]);
    assert EntryOf(es[j], owners[j], c, t);
    assert [owners[j].id][0] == [rows[i].id][0];
    var n :| 0 <= n < |rows| && rows[n] == owners[j];
  }

  /** `append_if_passes` over a list of candidates. */
  method AppendPassing(ids: seq<RowId>, lookup: map<RowId, Row>, where: Option<Expr>, schema: Schema)
    returns (r: Result<seq<Row>>)
    requires forall id :: id in lookup ==> |lookup[id].values| == |schema|
    ensures r == Picked(ids, lookup, where, schema)
  {
    hide Passes;
    var filtered := [];
    var i := 0;
    while i < |ids|
      invariant i <= |ids| && Picked(ids[..i], lookup, where, schema) == Ok(filtered)
    {
      assert ids[..i + 1][..i] == ids[..i];
      if ids[i] in lookup {
        match Passes(where, schema, lookup[ids[i]]) {
          case Err(error) =>
            PickedError(ids, i, lookup, where, schema);
            return Err(error);
          case Ok(pass) =>
            if pass { filtered := filtered + [lookup[ids[i]]]; }
        }
      }
      i := i + 1;
    }
    assert ids[..|ids|] == ids;
    return Ok(filtered);
  }

  /** An error at one candidate is the answer. */
  lemma {:induction false} PickedError(ids: seq<RowId>, i: nat, lookup: map<RowId, Row>, where: Option<Expr>,
                                       schema: Schema)
    requires forall id :: id in lookup ==> |lookup[id].values| == |schema|
    requires i < |ids| && Picked(ids[..i + 1], lookup, where, schema).Err?
    ensures Picked(ids, lookup, where, schema) == Picked(ids[..i + 1], lookup, where, schema)
  {
    hide Passes;
    if i + 1 == |ids| {
      assert ids[..i + 1] == ids;
    } else {
      var n := |ids| - 1;
      assert ids[..n][..i + 1] == ids[..i + 1];
      PickedError(ids[..n], i, lookup, where, schema);
    }
  }

  lemma {:induction false} ScanError(rows: seq<Row>, i: nat, where: Option<Expr>, schema: Schema)
    requires Shaped(rows, schema) && i < |rows| && Scan(rows[..i + 1], where, schema).Err?
    ensures Scan(rows, where, schema) == Scan(rows[..i + 1], where, schema)
  {
    hide Passes;
    if i + 1 == |rows| {
      assert rows[..i + 1] == rows;
    } else {
      var n := |rows| - 1;
      assert rows[..n][..i + 1] == rows[..i + 1];
      ScanError(rows[..n], i, where, schema);
    }
  }

  /** The fallback: every row is looked at. */
  method ScanRows(rows: seq<Row>, where: Option<Expr>, schema: Schema) returns (r: Result<seq<Row>>)
    requires Shaped(rows, schema)
    ensures r == Scan(rows, where, schema)
  {
    hide Passes;
    var filtered := [];
    var i := 0;
    while i < |rows|
      invariant i <= |rows| && Scan(rows[..i], where, schema) == Ok(filtered)
    {
      assert rows[..i + 1][..i] == rows[..i];
      match Passes(where, schema, rows[i]) {
        case Err(error) =>
          ScanError(rows, i, where, schema);
          return Err(error);
        case Ok(pass) =>
          if pass { filtered := filtered + [rows[i]]; }
      }
      i := i + 1;
    }
    assert rows[..|rows|] == rows;
    return Ok(filtered);
  }

  /** The rows by id, as the filter looks them up. */
  method BuildLookup(rows: seq<Row>) returns (lookup: map<RowId, Row>)
    ensures lookup == RowMap(rows)
  {
    lookup := map[];
    var i := 0;
    while i < |rows|
      invariant i <= |rows| && lookup == RowMap(rows[..i])
    {
      assert rows[..i + 1][..i] == rows[..i];
      lookup := lookup[rows[i].id := rows[i]];
      i := i + 1;
    }
    assert rows[..|rows|] == rows;
  }

  method AllIds(es: seq<Entry>) returns (ids: seq<RowId>)
    ensures ids == IdsOf(es)
  {
    ids := [];
    var i := 0;
    while i < |es|
      invariant i <= |es| && ids == IdsOf(es[..i])
    {
      assert es[..i + 1][..i] == es[..i];
      ids := ids + es[i].rows;
      i := i + 1;
    }
    assert es[..|es|] == es;
  }

  /** The candidates that the index yields for a clause. */
  method Candidates(index: BStarPlusTree, access: Access) returns (ids: seq<RowId>, ghost es: seq<Entry>)
    requires index.Searchable()
    ensures ids == IdsOf(es) && Sorted(es)
    ensures forall i :: 0 <= i < |es| ==> es[i].key in index.Content() && index.Content()[es[i].key] == es[i].rows
    ensures forall k :: k in index.Content() && Within(access, k) ==> TreeShape.Entry(k, index.Content()[k]) in es
  {
    hide Rank;
    match access {
      case NoAccess =>
        return [], [];
      case AccessOne(key) =>
        ids := index.Find(key);
        es := if key in index.Content() then [TreeShape.Entry(key, ids)] else [];
        assert IdsOf(es) == ids;
      case Access(lower, upper) =>
        var entries := index.RangeScan(lower, upper);
        ids := AllIds(entries);
        es := entries;
        RangeEntries(es, index.Content(), lower, upper);
    }
  }

  /** Comparisons other than `!=`, and BETWEEN, of an indexed column with literals. */
  predicate UsesIndex(where: Option<Expr>, schema: Schema, indexed: set<string>) {
    && where.Some? && SubjectOf(where.value).Some? && SubjectOf(where.value).value in indexed
    && FindColumnIndex(schema, SubjectOf(where.value).value).Some?
    && !(where.value.Compare? && where.value.op == NotEqual)
  }

  /** The filter of SELECT.  On the index path the answer is the scan's, in ascending order of the column. */
  method FilterRows(rows: seq<Row>, where: Option<Expr>, schema: Schema, indexes: map<string, BStarPlusTree>)
    returns (r: Result<seq<Row>>, usedIndexPath: bool)
    requires Shaped(rows, schema) && DistinctIds(rows)
    requires forall name :: name in indexes && FindColumnIndex(schema, name).Some? ==>
      var c := FindColumnIndex(schema, name).value; Serves(indexes[name], rows, c, schema[c].typ)
    requires where.Some? && SubjectOf(where.value).Some? && SubjectOf(where.value).value in indexes ==>
      var c := FindColumnIndex(schema, SubjectOf(where.value).value);
      c.Some? ==> LiteralsFit(where.value, rows, c.value, schema[c.value].typ)
    ensures !usedIndexPath ==> r == Scan(rows, where, schema)
    ensures usedIndexPath <==> UsesIndex(where, schema, indexes.Keys)
    ensures usedIndexPath ==>
      var c := FindColumnIndex(schema, SubjectOf(where.value).value).value;
      r.Ok? && SameRows(r.value, rows, c, schema[c].typ, where, schema)
    ensures usedIndexPath ==>
      var c := FindColumnIndex(schema, SubjectOf(where.value).value).value;
      forall row :: row in r.value <==> row in rows && c < |row.values| && InRelation(where.value, row.values[c])
    ensures !usedIndexPath && Decidable(where, schema, rows) ==>
      r.Ok? && exists at :: ChosenAt(at, rows, where, schema) && r.value == RowsAt(at, rows)
  {
    hide Rank, RowMap, EncodeIndexKey, Agrees, Within, Passes, Scan, InRelation, ChosenAt, Decidable;
    usedIndexPath := false;
    if where.Some? && SubjectOf(where.value).Some? {
      var name := SubjectOf(where.value).value;
      var column := FindColumnIndex(schema, name);
      if column.Some? && name in indexes {
        var t := schema[column.value].typ;
        var access := AccessFor(where.value, t);
        ServedAccess(where.value, rows, column.value, t);
        if access != NoAccess {
          var index := indexes[name];
          index.NodesAllocated(index.shape);
          var lookup := BuildLookup(rows);
          LookupShaped(rows, schema);
          var ids;
          ghost var es;
          ids, es := Candidates(index, access);
          r := AppendPassing(ids, lookup, where, schema);
          AccessAnswers(ids, es, index.Content(), rows, column.value, t, where.value, schema);
          AnswerMeans(r.value, rows, column.value, t, where.value, schema);
          return r, true;
        }
      }
    }
    r := ScanRows(rows, where, schema);
    if Decidable(where, schema, rows) {
      ghost var at := ScanMeans(rows, where, schema);
    }
  }

  /** With fitting literals only an inequality is left to the scan. */
  lemma ServedAccess(where: Expr, rows: seq<Row>, c: nat, t: ValueType)
    requires SubjectOf(where).Some? && LiteralsFit(where, rows, c, t)
    ensures AccessFor(where, t) == NoAccess <==> where.Compare? && where.op == NotEqual
  {
    hide EncodeIndexKey;
  }
}
