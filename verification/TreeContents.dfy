/** From search order to contents: a valid tree lists its entries in ascending order, an update of
    the child a key is routed to is an update of the whole, and an edit of one leaf is an update of its entries. */
module TreeContents {
  import opened Keys
  import opened TreeShape
  import opened SortedMap

  // ---------- positions in a node ----------

  /** `std::lower_bound`: the first position whose key is not below `k`. */
  function LowerBound(keys: seq<Key>, k: Key): (n: nat)
    ensures n <= |keys|
    ensures forall i :: 0 <= i < n ==> Rank(keys[i]) < Rank(k)
    ensures n < |keys| ==> Rank(k) <= Rank(keys[n])
  {
    if keys == [] || !Less(keys[0], k) then 0
    else
      var m := LowerBound(keys[1..], k);
      assert forall i :: 0 < i < m + 1 ==> keys[i] == keys[1..][i - 1];
      m + 1
  }

  /** `std::upper_bound`: the first position whose key is above `k`. */
  function UpperBound(keys: seq<Key>, k: Key): (n: nat)
    ensures n <= |keys|
    ensures forall i :: 0 <= i < n ==> Rank(keys[i]) <= Rank(k)
    ensures n < |keys| ==> Rank(k) < Rank(keys[n])
  {
    if keys == [] || Less(k, keys[0]) then 0
    else
      var m := UpperBound(keys[1..], k);
      assert forall i :: 0 < i < m + 1 ==> keys[i] == keys[1..][i - 1];
      m + 1
  }

  // ---------- ascending contents ----------

  lemma SortedAppend(a: seq<Entry>, b: seq<Entry>, lo: real, mid: real, hi: real)
    requires Sorted(a) && Within(a, lo, mid) && Sorted(b) && Within(b, mid, hi) && lo < mid < hi
    ensures Sorted(a + b) && Within(a + b, lo, hi)
  {
    hide Rank;
  }

  /** The entries of a valid tree ascend strictly and stay inside its bounds. */
  lemma {:induction false} ContentsSorted<N>(t: Tree<N>, lo: real, hi: real, h: nat)
    requires Ordered(t, lo, hi, h)
    ensures Sorted(Contents(t)) && Within(Contents(t), lo, hi)
    decreases h, 0, 0
  {
    hide Rank;
    if t.Leaf? {
      LeafContents(t);
    } else {
      ForestSorted(t.keys, t.kids, lo, hi, h - 1);
    }
  }

  lemma {:induction false} ForestSorted<N>(ks: seq<Key>, c: seq<Tree<N>>, lo: real, hi: real, h: nat)
    requires Forest(ks, c, lo, hi, h)
    ensures Sorted(Entries(LeavesF(c))) && Within(Entries(LeavesF(c)), lo, hi)
    decreases h, 1, |ks|
  {
    hide Rank, Ordered, Sorted, Within, Entries, Leaves;
    assert Ordered(c[0], lo, Hi(ks, 0, hi), h) by { assert Lo(ks, 0, lo) == lo; }
    ContentsSorted(c[0], lo, Hi(ks, 0, hi), h);
    assert LeavesF(c) == Leaves(c[0]) + LeavesF(c[1..]);
    EntriesAppend(Leaves(c[0]), LeavesF(c[1..]));
    if ks == [] {
      assert c[1..] == [];
      NoEntries<N>();
      assert Contents(c[0]) + [] == Contents(c[0]);
    } else {
      ForestCut(ks, c, 0, lo, hi, h);
      ForestSorted(ks[1..], c[1..], Rank(ks[0]), hi, h);
      SortedAppend(Contents(c[0]), Entries(LeavesF(c[1..])), lo, Rank(ks[0]), hi);
    }
  }

  lemma NoEntries<N>()
    ensures LeavesF<N>([]) == [] && Entries<N>([]) == []
  {
  }

  // ---------- routing ----------

  ghost predicate RoutesTo(ks: seq<Key>, i: nat, k: Key) {
    && i <= |ks|
    && (forall j :: 0 <= j < i ==> Rank(ks[j]) <= Rank(k))
    && (i < |ks| ==> Rank(k) < Rank(ks[i]))
  }

  /** Children left of the routed one hold only smaller keys, children right of it only larger ones. */
  lemma RouteSplits<N>(ks: seq<Key>, c: seq<Tree<N>>, i: nat, k: Key, lo: real, hi: real, h: nat)
    requires Forest(ks, c, lo, hi, h) && RoutesTo(ks, i, k) && lo <= Rank(k) < hi
    ensures Lo(ks, i, lo) <= Rank(k) < Hi(ks, i, hi)
    ensures Below(Entries(LeavesF(c[..i])), k) && Above(Entries(LeavesF(c[i + 1..])), k)
  {
    hide Rank, Ordered, Entries, Leaves, LeavesF;
    if i > 0 {
      ForestCut(ks, c, i - 1, lo, hi, h);
      ForestSorted(ks[..i - 1], c[..i], lo, Rank(ks[i - 1]), h);
    } else {
      NoEntries<N>();
      assert c[..i] == [];
    }
    if i < |ks| {
      ForestCut(ks, c, i, lo, hi, h);
      ForestSorted(ks[i + 1..], c[i + 1..], Rank(ks[i]), hi, h);
    } else {
      NoEntries<N>();
      assert c[i + 1..] == [];
    }
  }

  // ---------- edits of one leaf ----------

  lemma LeafSplit<N>(id: N, keys: seq<Key>, vals: seq<Rows>, p: nat, k: Key, lo: real, hi: real)
    requires Ordered(Leaf(id, keys, vals), lo, hi, 0) && p <= |keys|
    requires forall i :: 0 <= i < p ==> Rank(keys[i]) < Rank(k)
    requires p < |keys| ==> Rank(k) <= Rank(keys[p])
    ensures var es := LeafEntries(Leaf(id, keys, vals));
      && Below(es[..p], k)
      && (p == |keys| || keys[p] != k ==> Above(es[p..], k))
      && (p < |keys| && keys[p] == k ==> Above(es[p + 1..], k))
  {
    hide Rank;
    if p < |keys| {
      RankOrdersLexicographically(keys[p], k);
    }
  }

  /** Inserting a key that the leaf does not hold. */
  lemma LeafInsertKey<N>(id: N, keys: seq<Key>, vals: seq<Rows>, p: nat, k: Key, r: RowId, lo: real, hi: real)
    requires Ordered(Leaf(id, keys, vals), lo, hi, 0) && p <= |keys| && lo <= Rank(k) < hi
    requires forall i :: 0 <= i < p ==> Rank(keys[i]) < Rank(k)
    requires p < |keys| ==> Rank(k) <= Rank(keys[p]) && keys[p] != k
    ensures var t := Leaf(id, keys[..p] + [k] + keys[p..], vals[..p] + [[r]] + vals[p..]);
      Ordered(t, lo, hi, 0) && Contents(t) == Upsert(Contents(Leaf(id, keys, vals)), k, r)
  {
    hide Rank, Below, Above, Upsert, Entries, Leaves, KeysIn, RowLists;
    var t, t' := Leaf(id, keys, vals), Leaf(id, keys[..p] + [k] + keys[p..], vals[..p] + [[r]] + vals[p..]);
    LeafContents(t);
    LeafContents(t');
    var es := LeafEntries(t);
    LeafSplit(id, keys, vals, p, k, lo, hi);
    UpsertInto(es[..p], [], es[p..], k, r);
    UpsertNone(k, r);
    assert es[..p] + [] + es[p..] == es;
    assert LeafEntries(t') == es[..p] + [Entry(k, [r])] + es[p..];
    KeysInInsert(keys, p, k, lo, hi);
    RowListsInsert(vals, p, r);
  }

  lemma UpsertNone(k: Key, r: RowId)
    ensures Upsert([], k, r) == [Entry(k, [r])]
  {
  }

  lemma KeysInInsert(keys: seq<Key>, p: nat, k: Key, lo: real, hi: real)
    requires KeysIn(keys, lo, hi) && p <= |keys| && lo <= Rank(k) < hi
    requires forall i :: 0 <= i < p ==> Rank(keys[i]) < Rank(k)
    requires p < |keys| ==> Rank(k) <= Rank(keys[p]) && keys[p] != k
    ensures KeysIn(keys[..p] + [k] + keys[p..], lo, hi)
  {
    hide Rank;
    if p < |keys| { RankOrdersLexicographically(keys[p], k); }
    var ks := keys[..p] + [k] + keys[p..];
    forall i | 0 <= i < |ks| ensures lo <= Rank(ks[i]) < hi && (i + 1 < |ks| ==> Rank(ks[i]) < Rank(ks[i + 1])) {
    }
    Ascending(ks);
  }

  lemma RowListsInsert(vals: seq<Rows>, p: nat, r: RowId)
    requires RowLists(vals) && p <= |vals|
    ensures RowLists(vals[..p] + [[r]] + vals[p..])
  {
  }

  lemma UpsertInto(a: seq<Entry>, x: seq<Entry>, b: seq<Entry>, k: Key, r: RowId)
    requires Below(a, k) && Above(b, k)
    ensures Upsert(a + x + b, k, r) == a + Upsert(x, k, r) + b
  {
    hide Below, Above, Upsert;
    Associative(a, x, b);
    UpsertAfterBelow(a, x + b, k, r);
    UpsertBeforeAbove(x, b, k, r);
    Associative(a, Upsert(x, k, r), b);
  }

  lemma DropFrom(a: seq<Entry>, x: seq<Entry>, b: seq<Entry>, k: Key, r: RowId)
    requires Below(a, k) && Above(b, k)
    ensures Drop(a + x + b, k, r) == a + Drop(x, k, r) + b
  {
    hide Below, Above, Drop;
    Associative(a, x, b);
    DropAfterBelow(a, x + b, k, r);
    DropBeforeAbove(x, b, k, r);
    Associative(a, Drop(x, k, r), b);
  }

  lemma LookupIn(a: seq<Entry>, x: seq<Entry>, b: seq<Entry>, k: Key)
    requires Below(a, k) && Above(b, k)
    ensures Lookup(a + x + b, k) == Lookup(x, k)
  {
    hide Below, Above, Lookup;
    Associative(a, x, b);
    LookupAfterBelow(a, x + b, k);
    LookupBeforeAbove(x, b, k);
  }

  /** Replacing the row list of a key the leaf holds. */
  lemma LeafAddRow<N>(id: N, keys: seq<Key>, vals: seq<Rows>, p: nat, k: Key, r: RowId, lo: real, hi: real)
    requires Ordered(Leaf(id, keys, vals), lo, hi, 0) && p < |keys| && keys[p] == k
    ensures var t := Leaf(id, keys, vals[p := AddRow(vals[p], r)]);
      Ordered(t, lo, hi, 0) && Contents(t) == Upsert(Contents(Leaf(id, keys, vals)), k, r)
  {
    var t' := Leaf(id, keys, vals[p := AddRow(vals[p], r)]);
    LeafAddRowEntries(id, keys, vals, p, k, r, lo, hi);
    assert RowLists(t'.vals);
  }

  lemma LeafAddRowEntries<N>(id: N, keys: seq<Key>, vals: seq<Rows>, p: nat, k: Key, r: RowId, lo: real, hi: real)
    requires Ordered(Leaf(id, keys, vals), lo, hi, 0) && p < |keys| && keys[p] == k
    ensures Contents(Leaf(id, keys, vals[p := AddRow(vals[p], r)])) == Upsert(Contents(Leaf(id, keys, vals)), k, r)
  {
    hide Rank, Below, Above, Upsert, Entries, Leaves, LeafEntries, AddRow;
    var t, t' := Leaf(id, keys, vals), Leaf(id, keys, vals[p := AddRow(vals[p], r)]);
    LeafAt(id, keys, vals, p, k, lo, hi);
    LeafContents(t);
    LeafContents(t');
    var es := LeafEntries(t);
    UpsertInto(es[..p], [es[p]], es[p + 1..], k, r);
    UpsertOne(es[p], r);
    SplitOut(es, p);
    EntriesReplace(id, keys, vals, p, AddRow(vals[p], r));
  }

  lemma SplitOut<T>(s: seq<T>, p: nat)
    requires p < |s|
    ensures s[..p] + [s[p]] + s[p + 1..] == s
  {
  }

  lemma EntriesReplace<N>(id: N, keys: seq<Key>, vals: seq<Rows>, p: nat, v: Rows)
    requires |vals| == |keys| && p < |keys|
    ensures var es := LeafEntries(Leaf(id, keys, vals));
      LeafEntries(Leaf(id, keys, vals[p := v])) == es[..p] + [Entry(keys[p], v)] + es[p + 1..]
  {
  }

  lemma EntriesRemove<N>(id: N, keys: seq<Key>, vals: seq<Rows>, p: nat)
    requires |vals| == |keys| && p < |keys|
    ensures var es := LeafEntries(Leaf(id, keys, vals));
      LeafEntries(Leaf(id, keys[..p] + keys[p + 1..], vals[..p] + vals[p + 1..])) == es[..p] + [] + es[p + 1..]
  {
  }

  lemma LeafAt<N>(id: N, keys: seq<Key>, vals: seq<Rows>, p: nat, k: Key, lo: real, hi: real)
    requires Ordered(Leaf(id, keys, vals), lo, hi, 0) && p < |keys| && keys[p] == k
    ensures |LeafEntries(Leaf(id, keys, vals))| == |keys| == |vals|
    ensures LeafEntries(Leaf(id, keys, vals))[p] == Entry(k, vals[p])
    ensures Below(LeafEntries(Leaf(id, keys, vals))[..p], k) && Above(LeafEntries(Leaf(id, keys, vals))[p + 1..], k)
  {
    hide Rank;
  }

  lemma UpsertOne(e: Entry, r: RowId)
    ensures Upsert([e], e.key, r) == [Entry(e.key, AddRow(e.rows, r))]
  {
  }

  lemma DropOne(e: Entry, r: RowId)
    ensures var rest := RemoveRow(e.rows, r);
      Drop([e], e.key, r) == if rest == [] then [] else [Entry(e.key, rest)]
  {
  }

  /** Removing a row id from the list of a key the leaf holds. */
  lemma LeafDropRow<N>(id: N, keys: seq<Key>, vals: seq<Rows>, p: nat, k: Key, r: RowId, lo: real, hi: real)
    requires Ordered(Leaf(id, keys, vals), lo, hi, 0) && p < |keys| && keys[p] == k
    requires RemoveRow(vals[p], r) != []
    ensures var t := Leaf(id, keys, vals[p := RemoveRow(vals[p], r)]);
      Ordered(t, lo, hi, 0) && Contents(t) == Drop(Contents(Leaf(id, keys, vals)), k, r)
  {
    var t' := Leaf(id, keys, vals[p := RemoveRow(vals[p], r)]);
    LeafDropRowEntries(id, keys, vals, p, k, r, lo, hi);
    assert RowLists(t'.vals);
  }

  lemma LeafDropRowEntries<N>(id: N, keys: seq<Key>, vals: seq<Rows>, p: nat, k: Key, r: RowId, lo: real, hi: real)
    requires Ordered(Leaf(id, keys, vals), lo, hi, 0) && p < |keys| && keys[p] == k
    requires RemoveRow(vals[p], r) != []
    ensures Contents(Leaf(id, keys, vals[p := RemoveRow(vals[p], r)])) == Drop(Contents(Leaf(id, keys, vals)), k, r)
  {
    hide Rank, Below, Above, Drop, Entries, Leaves, LeafEntries, RemoveRow;
    var t, t' := Leaf(id, keys, vals), Leaf(id, keys, vals[p := RemoveRow(vals[p], r)]);
    LeafAt(id, keys, vals, p, k, lo, hi);
    LeafContents(t);
    LeafContents(t');
    var es := LeafEntries(t);
    DropFrom(es[..p], [es[p]], es[p + 1..], k, r);
    DropOne(es[p], r);
    SplitOut(es, p);
    EntriesReplace(id, keys, vals, p, RemoveRow(vals[p], r));
  }

  /** A row id that is not in the list of its key. */
  lemma LeafMissesRow<N>(id: N, keys: seq<Key>, vals: seq<Rows>, p: nat, k: Key, r: RowId, lo: real, hi: real)
    requires Ordered(Leaf(id, keys, vals), lo, hi, 0) && p < |keys| && keys[p] == k && r !in vals[p]
    ensures var es := Contents(Leaf(id, keys, vals)); Drop(es, k, r) == es
  {
    hide Rank, Contents, Drop, KeysIn;
    LeafDropRow(id, keys, vals, p, k, r, lo, hi);
    assert vals[p := vals[p]] == vals;
  }

  /** Removing the only row id of a key removes the key. */
  lemma LeafDropKey<N>(id: N, keys: seq<Key>, vals: seq<Rows>, p: nat, k: Key, r: RowId, lo: real, hi: real)
    requires Ordered(Leaf(id, keys, vals), lo, hi, 0) && p < |keys| && keys[p] == k
    requires RemoveRow(vals[p], r) == []
    ensures var t := Leaf(id, keys[..p] + keys[p + 1..], vals[..p] + vals[p + 1..]);
      Ordered(t, lo, hi, 0) && Contents(t) == Drop(Contents(Leaf(id, keys, vals)), k, r)
  {
    hide Rank, Contents, Drop, RemoveRow;
    LeafDropKeyEntries(id, keys, vals, p, k, r, lo, hi);
  }

  lemma LeafDropKeyEntries<N>(id: N, keys: seq<Key>, vals: seq<Rows>, p: nat, k: Key, r: RowId, lo: real, hi: real)
    requires Ordered(Leaf(id, keys, vals), lo, hi, 0) && p < |keys| && keys[p] == k
    requires RemoveRow(vals[p], r) == []
    ensures var t := Leaf(id, keys[..p] + keys[p + 1..], vals[..p] + vals[p + 1..]);
      Contents(t) == Drop(Contents(Leaf(id, keys, vals)), k, r)
  {
    hide Rank, Below, Above, Drop, Entries, Leaves, LeafEntries, RemoveRow;
    var t, t' := Leaf(id, keys, vals), Leaf(id, keys[..p] + keys[p + 1..], vals[..p] + vals[p + 1..]);
    LeafAt(id, keys, vals, p, k, lo, hi);
    LeafContents(t);
    LeafContents(t');
    var es := LeafEntries(t);
    DropFrom(es[..p], [es[p]], es[p + 1..], k, r);
    DropOne(es[p], r);
    SplitOut(es, p);
    EntriesRemove(id, keys, vals, p);
  }

  /** A key the leaf does not hold is not in its contents. */
  lemma LeafMisses<N>(id: N, keys: seq<Key>, vals: seq<Rows>, p: nat, k: Key, r: RowId, lo: real, hi: real)
    requires Ordered(Leaf(id, keys, vals), lo, hi, 0) && p <= |keys|
    requires forall i :: 0 <= i < p ==> Rank(keys[i]) < Rank(k)
    requires p < |keys| ==> Rank(k) <= Rank(keys[p]) && keys[p] != k
    ensures var es := Contents(Leaf(id, keys, vals)); Drop(es, k, r) == es && Lookup(es, k) == []
  {
    hide Rank;
    var t := Leaf(id, keys, vals);
    LeafContents(t);
    var es := LeafEntries(t);
    LeafSplit(id, keys, vals, p, k, lo, hi);
    DropFrom(es[..p], [], es[p..], k, r);
    LookupIn(es[..p], [], es[p..], k);
    assert es[..p] + [] + es[p..] == es;
  }

  lemma LeafHits<N>(id: N, keys: seq<Key>, vals: seq<Rows>, p: nat, k: Key, lo: real, hi: real)
    requires Ordered(Leaf(id, keys, vals), lo, hi, 0) && p < |keys| && keys[p] == k
    ensures Lookup(Contents(Leaf(id, keys, vals)), k) == vals[p]
  {
    hide Rank;
    var t := Leaf(id, keys, vals);
    LeafContents(t);
    var es := LeafEntries(t);
    LeafSplit(id, keys, vals, p, k, lo, hi);
    LookupIn(es[..p], [es[p]], es[p + 1..], k);
    assert es[..p] + [es[p]] + es[p + 1..] == es;
  }
}
