/** What the index promises: a sorted map from keys to duplicate-free lists of row ids. */
module SortedMap {
  import opened Keys
  import opened TreeShape

  type Index = map<Key, Rows>

  // ---------- the map, and the two updates it allows ----------

  function AddRow(rows: Rows, r: RowId): Rows {
    if r in rows then rows else rows + [r]
  }

  function RemoveRow(rows: Rows, r: RowId): (rest: Rows)
    ensures r !in rows ==> rest == rows
    ensures r in rows ==> multiset(rest) == multiset(rows) - multiset{r}
  {
    if rows == [] then []
    else
      assert rows == [rows[0]] + rows[1..];
      if rows[0] == r then rows[1..] else [rows[0]] + RemoveRow(rows[1..], r)
  }

  /** `Insert(k, r)` as a map update. */
  function MapInsert(m: Index, k: Key, r: RowId): Index {
    m[k := AddRow(MapFind(m, k), r)]
  }

  /** `Remove(k, r)` as a map update: a key whose list empties goes away. */
  function MapRemove(m: Index, k: Key, r: RowId): Index {
    if k !in m then m
    else if RemoveRow(m[k], r) == [] then m - {k}
    else m[k := RemoveRow(m[k], r)]
  }

  function MapFind(m: Index, k: Key): Rows {
    if k in m then m[k] else []
  }

  /** What an insertion does, key by key. */
  ghost predicate OneRowMore(m: Index, m': Index, k: Key, r: RowId) {
    && m'.Keys == m.Keys + {k} && (forall other :: other in m && other != k ==> m'[other] == m[other])
    && r in m'[k] && MapFind(m, k) <= m'[k] && |m'[k]| == |MapFind(m, k)| + if r in MapFind(m, k) then 0 else 1
  }

  lemma InsertAddsRow(m: Index, k: Key, r: RowId)
    ensures OneRowMore(m, MapInsert(m, k, r), k, r)
  {
  }

  /** A list without its first occurrence of a row id; the others keep their order. */
  ghost predicate WithoutFirst(rows: Rows, rest: Rows, r: RowId) {
    exists i :: 0 <= i < |rows| && FirstAt(rows, r, i) && rest == rows[..i] + rows[i + 1..]
  }

  predicate FirstAt(rows: Rows, r: RowId, i: nat)
    requires i < |rows|
  {
    rows[i] == r && r !in rows[..i]
  }

  lemma {:induction false} RemoveRowAt(rows: Rows, r: RowId) returns (i: nat)
    requires r in rows
    ensures i < |rows| && FirstAt(rows, r, i) && RemoveRow(rows, r) == rows[..i] + rows[i + 1..]
  {
    hide FirstAt;
    if rows[0] == r {
      i := 0;
      FirstOfAll(rows, r);
      assert rows[..0] + rows[1..] == rows[1..];
    } else {
      var j := RemoveRowAt(rows[1..], r);
      i := j + 1;
      FirstLater(rows, r, j);
    }
  }

  lemma FirstOfAll(rows: Rows, r: RowId)
    requires rows != [] && rows[0] == r
    ensures FirstAt(rows, r, 0)
  {
  }

  lemma FirstLater(rows: Rows, r: RowId, j: nat)
    requires rows != [] && rows[0] != r && j < |rows[1..]| && FirstAt(rows[1..], r, j)
    ensures FirstAt(rows, r, j + 1)
    ensures rows[..j + 1] + rows[j + 2..] == [rows[0]] + (rows[1..][..j] + rows[1..][j + 1..])
  {
    var tail := rows[1..];
    assert rows[..j + 1] == [rows[0]] + tail[..j];
    InOneMore(rows[0], tail[..j], r);
    assert rows[j + 2..] == tail[j + 1..];
  }

  lemma RemoveRowKeepsOrder(rows: Rows, r: RowId)
    requires r in rows
    ensures WithoutFirst(rows, RemoveRow(rows, r), r)
  {
    hide FirstAt;
    var i := RemoveRowAt(rows, r);
  }

  /** What a removal does, key by key. */
  ghost predicate OneRowLess(m: Index, m': Index, k: Key, r: RowId) {
    && (forall other :: other != k ==> (other in m' <==> other in m))
    && (forall other :: other != k && other in m ==> m'[other] == m[other])
    && (k in m' <==> k in m && m[k] != [r] && m[k] != [])
    && (k in m' ==> if r in m[k] then WithoutFirst(m[k], m'[k], r) else m'[k] == m[k])
  }

  lemma RemoveTakesRow(m: Index, k: Key, r: RowId)
    ensures OneRowLess(m, MapRemove(m, k, r), k, r)
  {
    hide WithoutFirst, RemoveRow;
    if k in m && r in m[k] {
      RemoveRowKeepsOrder(m[k], r);
      SingleOrMore(m[k], r);
    }
  }

  lemma SingleOrMore(rows: Rows, r: RowId)
    requires r in rows
    ensures RemoveRow(rows, r) == [] <==> rows == [r]
  {
    assert |multiset(rows)| == |rows|;
    assert |RemoveRow(rows, r)| == |multiset(RemoveRow(rows, r))| == |rows| - 1;
  }

  ghost predicate NoRepeat(rows: Rows) {
    forall i, j :: 0 <= i < j < |rows| ==> rows[i] != rows[j]
  }

  /** No row id is listed twice under one key. */
  ghost predicate NoRepeats(m: Index) {
    forall k :: k in m ==> NoRepeat(m[k])
  }

  lemma UpdatesKeepNoRepeats(m: Index, k: Key, r: RowId)
    requires NoRepeats(m)
    ensures NoRepeats(MapInsert(m, k, r)) && NoRepeats(MapRemove(m, k, r))
  {
    if k in m { RemoveRowNoRepeat(m[k], r); }
  }

  lemma {:induction false} RemoveRowHas(rows: Rows, r: RowId, x: RowId)
    requires NoRepeat(rows)
    ensures x in RemoveRow(rows, r) <==> x in rows && x != r
  {
    if rows != [] {
      var tail := rows[1..];
      InOneMore(rows[0], tail, x);
      assert rows == [rows[0]] + tail;
      if rows[0] == r {
        assert forall i :: 0 <= i < |tail| ==> tail[i] == rows[i + 1];
      } else {
        RemoveRowHas(tail, r, x);
        InOneMore(rows[0], RemoveRow(tail, r), x);
      }
    }
  }

  lemma InOneMore(first: RowId, tail: Rows, x: RowId)
    ensures x in [first] + tail <==> x == first || x in tail
  {
  }

  lemma {:induction false} RemoveRowNoRepeat(rows: Rows, r: RowId)
    requires NoRepeat(rows)
    ensures NoRepeat(RemoveRow(rows, r))
  {
    if rows != [] && rows[0] != r {
      var rest := RemoveRow(rows[1..], r);
      RemoveRowNoRepeat(rows[1..], r);
      RemoveRowHas(rows[1..], r, rows[0]);
      assert rows[0] !in rest;
      assert NoRepeat([rows[0]] + rest);
    }
  }

  // ---------- the same on the ascending list of entries ----------

  ghost predicate Sorted(es: seq<Entry>) {
    forall i, j :: 0 <= i < j < |es| ==> Rank(es[i].key) < Rank(es[j].key)
  }

  ghost predicate Within(es: seq<Entry>, lo: real, hi: real) {
    forall i :: 0 <= i < |es| ==> lo <= Rank(es[i].key) < hi
  }

  ghost function ToMap(es: seq<Entry>): Index {
    if es == [] then map[] else ToMap(es[1..])[es[0].key := es[0].rows]
  }

  ghost function Upsert(es: seq<Entry>, k: Key, r: RowId): seq<Entry> {
    if es == [] then [Entry(k, [r])]
    else if Rank(es[0].key) < Rank(k) then [es[0]] + Upsert(es[1..], k, r)
    else if es[0].key == k then [Entry(k, AddRow(es[0].rows, r))] + es[1..]
    else [Entry(k, [r])] + es
  }

  ghost function Drop(es: seq<Entry>, k: Key, r: RowId): seq<Entry> {
    if es == [] then []
    else if Rank(es[0].key) < Rank(k) then [es[0]] + Drop(es[1..], k, r)
    else if es[0].key == k then
      var rest := RemoveRow(es[0].rows, r);
      if rest == [] then es[1..] else [Entry(k, rest)] + es[1..]
    else es
  }

  ghost function Lookup(es: seq<Entry>, k: Key): Rows {
    if es == [] then [] else if es[0].key == k then es[0].rows else Lookup(es[1..], k)
  }

  ghost predicate Below(es: seq<Entry>, k: Key) {
    forall i :: 0 <= i < |es| ==> Rank(es[i].key) < Rank(k)
  }

  ghost predicate Above(es: seq<Entry>, k: Key) {
    forall i :: 0 <= i < |es| ==> Rank(k) < Rank(es[i].key)
  }

  // An update passes the entries below its key and never reaches those above it.

  lemma {:induction false} UpsertAfterBelow(a: seq<Entry>, x: seq<Entry>, k: Key, r: RowId)
    requires Below(a, k)
    ensures Upsert(a + x, k, r) == a + Upsert(x, k, r)
  {
    hide Rank;
    if a == [] {
      assert a + x == x;
    } else {
      UpsertAfterBelow(a[1..], x, k, r);
      assert (a + x)[0] == a[0] && (a + x)[1..] == a[1..] + x;
      assert [a[0]] + (a[1..] + Upsert(x, k, r)) == a + Upsert(x, k, r);
    }
  }

  lemma {:induction false} UpsertBeforeAbove(x: seq<Entry>, b: seq<Entry>, k: Key, r: RowId)
    requires Above(b, k)
    ensures Upsert(x + b, k, r) == Upsert(x, k, r) + b
  {
    hide Rank;
    if x == [] {
      assert x + b == b;
      if b != [] { assert Rank(k) < Rank(b[0].key); }
    } else {
      assert (x + b)[0] == x[0] && (x + b)[1..] == x[1..] + b;
      if Rank(x[0].key) < Rank(k) {
        UpsertBeforeAbove(x[1..], b, k, r);
        assert [x[0]] + (Upsert(x[1..], k, r) + b) == [x[0]] + Upsert(x[1..], k, r) + b;
      }
    }
  }

  lemma {:induction false} DropAfterBelow(a: seq<Entry>, x: seq<Entry>, k: Key, r: RowId)
    requires Below(a, k)
    ensures Drop(a + x, k, r) == a + Drop(x, k, r)
  {
    hide Rank;
    if a == [] {
      assert a + x == x;
    } else {
      DropAfterBelow(a[1..], x, k, r);
      assert (a + x)[0] == a[0] && (a + x)[1..] == a[1..] + x;
      assert [a[0]] + (a[1..] + Drop(x, k, r)) == a + Drop(x, k, r);
    }
  }

  lemma {:induction false} DropBeforeAbove(x: seq<Entry>, b: seq<Entry>, k: Key, r: RowId)
    requires Above(b, k)
    ensures Drop(x + b, k, r) == Drop(x, k, r) + b
  {
    hide Rank;
    if x == [] {
      assert x + b == b;
      if b != [] { assert Rank(k) < Rank(b[0].key); }
    } else {
      assert (x + b)[0] == x[0] && (x + b)[1..] == x[1..] + b;
      if Rank(x[0].key) < Rank(k) {
        DropBeforeAbove(x[1..], b, k, r);
        assert [x[0]] + (Drop(x[1..], k, r) + b) == [x[0]] + Drop(x[1..], k, r) + b;
      }
    }
  }

  lemma {:induction false} LookupAfterBelow(a: seq<Entry>, x: seq<Entry>, k: Key)
    requires Below(a, k)
    ensures Lookup(a + x, k) == Lookup(x, k)
  {
    hide Rank;
    if a == [] {
      assert a + x == x;
    } else {
      assert Rank(a[0].key) < Rank(k);
      LookupAfterBelow(a[1..], x, k);
      assert (a + x)[0] == a[0] && (a + x)[1..] == a[1..] + x;
    }
  }

  lemma {:induction false} LookupBeforeAbove(x: seq<Entry>, b: seq<Entry>, k: Key)
    requires Above(b, k)
    ensures Lookup(x + b, k) == Lookup(x, k)
  {
    hide Rank;
    if x == [] {
      assert x + b == b;
      NotInAbove(b, k);
    } else {
      LookupBeforeAbove(x[1..], b, k);
      assert (x + b)[0] == x[0] && (x + b)[1..] == x[1..] + b;
    }
  }

  lemma {:induction false} NotInAbove(es: seq<Entry>, k: Key)
    requires Above(es, k)
    ensures k !in ToMap(es) && Lookup(es, k) == []
  {
    hide Rank;
    if es != [] {
      assert Rank(k) < Rank(es[0].key);
      NotInAbove(es[1..], k);
    }
  }

  // ---------- the list is the map ----------

  lemma Tail(es: seq<Entry>)
    requires Sorted(es) && es != []
    ensures Sorted(es[1..]) && Above(es[1..], es[0].key)
  {
    hide Rank;
  }

  lemma Head(e: Entry, es: seq<Entry>)
    requires Sorted(es) && Above(es, e.key)
    ensures Sorted([e] + es)
  {
    hide Rank;
  }

  /** On an ascending list, `Upsert` is `MapInsert`. */
  lemma {:induction false} UpsertIsMapInsert(es: seq<Entry>, k: Key, r: RowId)
    requires Sorted(es)
    ensures ToMap(Upsert(es, k, r)) == MapInsert(ToMap(es), k, r)
  {
    hide Rank, Sorted, Above;
    assert AddRow([], r) == [r];
    if es != [] {
      Tail(es);
      RankOrdersLexicographically(es[0].key, k);
      if Rank(es[0].key) < Rank(k) {
        UpsertIsMapInsert(es[1..], k, r);
      } else if es[0].key != k {
        AboveTrans(es, k);
        NotInAbove(es, k);
      }
    }
  }

  /** On an ascending list, `Drop` is `MapRemove`. */
  lemma {:induction false} DropIsMapRemove(es: seq<Entry>, k: Key, r: RowId)
    requires Sorted(es)
    ensures ToMap(Drop(es, k, r)) == MapRemove(ToMap(es), k, r)
  {
    hide Rank, Sorted, Above;
    if es != [] {
      Tail(es);
      RankOrdersLexicographically(es[0].key, k);
      if Rank(es[0].key) < Rank(k) {
        DropIsMapRemove(es[1..], k, r);
      } else if es[0].key == k {
        NotInAbove(es[1..], k);
        assert ToMap(es) - {k} == ToMap(es[1..]);
      } else {
        AboveTrans(es, k);
        NotInAbove(es, k);
      }
    }
  }

  lemma AboveTrans(es: seq<Entry>, k: Key)
    requires Sorted(es) && es != [] && Rank(k) < Rank(es[0].key)
    ensures Above(es, k)
  {
    hide Rank;
  }

  lemma {:induction false} LookupIsMapFind(es: seq<Entry>, k: Key)
    ensures Lookup(es, k) == MapFind(ToMap(es), k)
  {
    if es != [] {
      LookupIsMapFind(es[1..], k);
    }
  }

  /** A map determines its ascending list: nothing is lost by speaking of the map. */
  lemma {:induction false} ToMapInjective(es: seq<Entry>, es': seq<Entry>)
    requires Sorted(es) && Sorted(es') && ToMap(es) == ToMap(es')
    ensures es == es'
  {
    hide Rank, Sorted, Above;
    if es != [] && es' != [] {
      Tail(es); Tail(es');
      NotInAbove(es[1..], es[0].key); NotInAbove(es'[1..], es'[0].key);
      FirstIsLeast(es, es'); FirstIsLeast(es', es);
      RankOrdersLexicographically(es[0].key, es'[0].key);
      assert es[0].rows == ToMap(es)[es[0].key] && es'[0].rows == ToMap(es')[es'[0].key];
      assert ToMap(es[1..]) == ToMap(es) - {es[0].key};
      assert ToMap(es'[1..]) == ToMap(es') - {es'[0].key};
      ToMapInjective(es[1..], es'[1..]);
      assert es == [es[0]] + es[1..] && es' == [es'[0]] + es'[1..];
    } else {
      EmptyMap(es);
      EmptyMap(es');
    }
  }

  lemma EmptyMap(es: seq<Entry>)
    ensures es == [] <==> ToMap(es) == map[]
  {
    if es != [] {
      assert es[0].key in ToMap(es);
    }
  }

  lemma FirstIsLeast(es: seq<Entry>, es': seq<Entry>)
    requires es != [] && es' != [] && Sorted(es') && ToMap(es) == ToMap(es')
    ensures Rank(es'[0].key) <= Rank(es[0].key)
  {
    hide Rank;
    assert es[0].key in ToMap(es);
    if Rank(es[0].key) < Rank(es'[0].key) {
      AboveTrans(es', es[0].key);
      NotInAbove(es', es[0].key);
    }
  }
}
