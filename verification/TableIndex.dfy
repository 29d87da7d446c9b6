/** What an index of a table holds: for every value of its column the row that owns it, and nothing else. */
module TableIndex {
  import opened Keys
  import opened Values
  import opened Predicates
  import opened SortedMap

  function KeyOf(row: Row, c: nat, t: ValueType): Key
    requires Typed(row, c, t)
  {
    EncodeIndexKey(row.values[c], t)
  }

  /** A value that an index can hold. */
  predicate Typed(row: Row, c: nat, t: ValueType) {
    c < |row.values| && TypeOf(row.values[c]) == t && t != NullType
  }

  predicate TypedColumn(rows: seq<Row>, c: nat, t: ValueType) {
    forall i :: 0 <= i < |rows| ==> Typed(rows[i], c, t)
  }

  predicate DistinctIds(rows: seq<Row>) {
    forall i, j :: 0 <= i < j < |rows| ==> rows[i].id != rows[j].id
  }

  /** The index is exactly the map from encoded value to the single row that owns it. */
  ghost predicate Agrees(m: Index, rows: seq<Row>, c: nat, t: ValueType) {
    && TypedColumn(rows, c, t)
    && (forall i :: 0 <= i < |rows| ==> KeyOf(rows[i], c, t) in m && m[KeyOf(rows[i], c, t)] == [rows[i].id])
    && (forall k :: k in m ==> exists i :: 0 <= i < |rows| && KeyOf(rows[i], c, t) == k)
  }

  /** Rows by id. */
  function RowMap(rows: seq<Row>): map<RowId, Row> {
    if rows == [] then map[] else RowMap(rows[..|rows| - 1])[rows[|rows| - 1].id := rows[|rows| - 1]]
  }

  lemma {:induction false} RowMapHas(rows: seq<Row>, id: RowId)
    ensures id in RowMap(rows) ==> RowMap(rows)[id] in rows && RowMap(rows)[id].id == id
    ensures id in RowMap(rows) <==> exists i :: 0 <= i < |rows| && rows[i].id == id
  {
    if rows != [] {
      var n := |rows| - 1;
      RowMapHas(rows[..n], id);
      if id in RowMap(rows[..n]) {
        var i :| 0 <= i < n && rows[..n][i].id == id;
        assert rows[i].id == id;
      }
      assert rows == rows[..n] + [rows[n]];
    }
  }

  lemma {:induction false} RowMapAt(rows: seq<Row>, i: nat)
    requires DistinctIds(rows) && i < |rows|
    ensures rows[i].id in RowMap(rows) && RowMap(rows)[rows[i].id] == rows[i]
  {
    var n := |rows| - 1;
    if i < n { RowMapAt(rows[..n], i); }
  }

  lemma {:induction false} RowMapConcat(a: seq<Row>, b: seq<Row>)
    ensures RowMap(a + b) == RowMap(a) + RowMap(b)
  {
    if b == [] {
      assert a + b == a;
    } else {
      var n := |b| - 1;
      RowMapConcat(a, b[..n]);
      assert (a + b)[..|a + b| - 1] == a + b[..n];
    }
  }

  /** Rows with different ids but equal keys cannot both be indexed. */
  lemma AgreesDistinct(m: Index, rows: seq<Row>, c: nat, t: ValueType)
    requires Agrees(m, rows, c, t) && DistinctIds(rows)
    ensures forall i, j :: 0 <= i < j < |rows| ==> KeyOf(rows[i], c, t) != KeyOf(rows[j], c, t)
  {
    forall i, j | 0 <= i < j < |rows| ensures KeyOf(rows[i], c, t) != KeyOf(rows[j], c, t) {
      assert [rows[i].id][0] != [rows[j].id][0];
    }
  }
}
