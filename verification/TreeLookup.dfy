/** Reading the tree: the leaf a key belongs to, and the entries between two keys along the leaf chain. */
module TreeLookup {
  import opened Keys
  import opened TreeShape
  import opened TreeRepairs
  import opened TreeNodes
  import opened TreeSiblings
  import opened TreeContents
  import opened SortedMap

  // ---------- the leaf a key belongs to ----------

  /** `c` is the subtree of `t` that covers `key`: everything before it is smaller, everything after it is larger. */
  ghost predicate Covers<N>(t: Tree<N>, x: seq<Tree<N>>, c: Tree<N>, y: seq<Tree<N>>, key: Key) {
    Leaves(t) == x + Leaves(c) + y && Below(Entries(x), key) && Above(Entries(y), key)
  }

  lemma CoversItself<N>(t: Tree<N>, key: Key)
    ensures Covers(t, [], t, [], key)
  {
  }

  /** One step down. */
  lemma CoversKid<N>(t: Tree<N>, x: seq<Tree<N>>, c: Tree<N>, y: seq<Tree<N>>, i: nat, key: Key, lo: real, hi: real,
                     h: nat)
    requires Covers(t, x, c, y, key) && Ordered(c, lo, hi, h) && h > 0 && i < |c.kids|
    requires RoutesTo(c.keys, i, key) && lo <= Rank(key) < hi
    ensures |c.kids| == |c.keys| + 1 && Lo(c.keys, i, lo) <= Rank(key) < Hi(c.keys, i, hi)
    ensures Ordered(c.kids[i], Lo(c.keys, i, lo), Hi(c.keys, i, hi), h - 1)
    ensures Covers(t, x + LeavesF(c.kids[..i]), c.kids[i], LeavesF(c.kids[i + 1..]) + y, key)
  {
    hide Rank, Leaves, LeavesF, Entries, Forest, Ordered;
    KidsOrdered(c, lo, hi, h);
    RouteSplits(c.keys, c.kids, i, key, lo, hi, h - 1);
    KidOrdered(c.keys, c.kids, i, lo, hi, h - 1);
    var a, b := LeavesF(c.kids[..i]), LeavesF(c.kids[i + 1..]);
    assert c.kids[i..i + 1] == [c.kids[i]];
    LeavesOf1(c.kids[i]);
    PlugLeaves(c, i, 1, [], [c.kids[i]]);
    EntriesAppend(x, a);
    EntriesAppend(b, y);
    assert x + (a + Leaves(c.kids[i]) + b) + y == (x + a) + Leaves(c.kids[i]) + (b + y);
  }

  lemma KidOrdered<N>(ks: seq<Key>, c: seq<Tree<N>>, i: nat, lo: real, hi: real, h: nat)
    requires Forest(ks, c, lo, hi, h) && i < |c|
    ensures |c| == |ks| + 1 && Ordered(c[i], Lo(ks, i, lo), Hi(ks, i, hi), h)
  {
    hide Rank;
  }

  /** The `i`-th leaf is the only one that can hold `key`. */
  ghost predicate LeafOf<N>(t: Tree<N>, i: nat, key: Key) {
    i < |Leaves(t)| && Below(Entries(Leaves(t)[..i]), key) && Above(Entries(Leaves(t)[i + 1..]), key)
  }

  /** The leaf at the end of the descent. */
  lemma CoversLeaf<N>(t: Tree<N>, x: seq<Tree<N>>, c: Tree<N>, y: seq<Tree<N>>, key: Key)
    requires Covers(t, x, c, y, key) && c.Leaf?
    ensures LeafOf(t, |x|, key) && Leaves(t)[|x|] == c
  {
    assert Leaves(c) == [c];
    assert Leaves(t)[..|x|] == x && Leaves(t)[|x| + 1..] == y;
  }

  /** Looking a key up in its leaf is looking it up in the tree. */
  lemma LookupInLeaf<N>(ls: seq<Tree<N>>, i: nat, key: Key)
    requires i < |ls| && Below(Entries(ls[..i]), key) && Above(Entries(ls[i + 1..]), key)
    ensures Lookup(Entries(ls), key) == Lookup(LeafEntries(ls[i]), key)
  {
    hide Below, Above, Lookup, LeafEntries;
    EntriesAround(ls, i);
    LookupIn(Entries(ls[..i]), LeafEntries(ls[i]), Entries(ls[i + 1..]), key);
  }

  lemma EntriesAround<N>(ls: seq<Tree<N>>, i: nat)
    requires i < |ls|
    ensures Entries(ls) == Entries(ls[..i]) + LeafEntries(ls[i]) + Entries(ls[i + 1..])
    ensures Entries(ls[..i + 1]) == Entries(ls[..i]) + LeafEntries(ls[i])
  {
    hide LeafEntries, Entries;
    SplitAround(ls, i);
    EntriesAppend(ls[..i + 1], ls[i + 1..]);
    EntriesAppend(ls[..i], [ls[i]]);
    EntriesOfOne(ls[i]);
  }

  lemma SplitAround<T>(s: seq<T>, i: nat)
    requires i < |s|
    ensures s == s[..i + 1] + s[i + 1..] && s[..i + 1] == s[..i] + [s[i]]
  {
  }

  lemma EntriesOfOne<N>(l: Tree<N>)
    ensures Entries([l]) == LeafEntries(l)
  {
    assert Entries([l]) == LeafEntries(l) + Entries<N>([]);
  }

  /** Every leaf is in order by itself, within the bounds of the whole. */
  lemma {:induction false} LeavesOrdered<N>(t: Tree<N>, lo: real, hi: real, h: nat, i: nat)
    requires Ordered(t, lo, hi, h) && i < |Leaves(t)|
    ensures Ordered(Leaves(t)[i], lo, hi, 0) && Leaves(t)[i].Leaf?
    decreases h, 0, 0
  {
    hide Rank;
    if t.Inner? {
      ForestLeavesOrdered(t.keys, t.kids, lo, hi, h - 1, i);
    }
  }

  lemma {:induction false} ForestLeavesOrdered<N>(ks: seq<Key>, c: seq<Tree<N>>, lo: real, hi: real, h: nat, i: nat)
    requires Forest(ks, c, lo, hi, h) && i < |LeavesF(c)|
    ensures Ordered(LeavesF(c)[i], lo, hi, 0) && LeavesF(c)[i].Leaf?
    decreases h, 1, |ks|
  {
    hide Rank, Ordered, Leaves;
    KidOrdered(ks, c, 0, lo, hi, h);
    assert LeavesF(c) == Leaves(c[0]) + LeavesF(c[1..]);
    assert |ks| == 0 ==> c[1..] == [];
    if i < |Leaves(c[0])| {
      LeavesOrdered(c[0], lo, Hi(ks, 0, hi), h, i);
      Weaken(Leaves(c[0])[i], lo, Hi(ks, 0, hi), lo, hi);
    } else {
      ForestCut(ks, c, 0, lo, hi, h);
      ForestLeavesOrdered(ks[1..], c[1..], Rank(ks[0]), hi, h, i - |Leaves(c[0])|);
      Weaken(LeavesF(c)[i], Rank(ks[0]), hi, lo, hi);
    }
  }

  lemma Weaken<N>(t: Tree<N>, lo: real, hi: real, lo': real, hi': real)
    requires Ordered(t, lo, hi, 0) && lo' <= lo && hi <= hi'
    ensures Ordered(t, lo', hi', 0)
  {
    hide Rank;
  }

  /** What the leaves' nodes hold. */
  lemma {:induction false} LeavesHold(t: Tree<Node>)
    requires Holds(t)
    ensures forall i :: 0 <= i < |Leaves(t)| ==> HoldsTop(Leaves(t)[i])
    decreases t, 0
  {
    if t.Inner? { ForestLeavesHold(t.kids); }
  }

  lemma {:induction false} ForestLeavesHold(kids: seq<Tree<Node>>)
    requires HoldsAll(kids)
    ensures forall i :: 0 <= i < |LeavesF(kids)| ==> HoldsTop(LeavesF(kids)[i])
    decreases kids, 1
  {
    if kids != [] {
      LeavesHold(kids[0]);
      ForestLeavesHold(kids[1..]);
    }
  }

  // ---------- the entries between two keys ----------

  /** The entries with `lower <= key < upper`, in their order. */
  ghost function Between(es: seq<Entry>, lower: Key, upper: Key): seq<Entry> {
    if es == [] then []
    else (if Rank(lower) <= Rank(es[0].key) < Rank(upper) then [es[0]] else []) + Between(es[1..], lower, upper)
  }

  lemma {:induction false} BetweenAppend(a: seq<Entry>, b: seq<Entry>, lower: Key, upper: Key)
    ensures Between(a + b, lower, upper) == Between(a, lower, upper) + Between(b, lower, upper)
  {
    hide Rank;
    if a == [] {
      assert a + b == b;
    } else {
      assert (a + b)[0] == a[0] && (a + b)[1..] == a[1..] + b;
      BetweenAppend(a[1..], b, lower, upper);
    }
  }

  lemma {:induction false} BetweenNone(es: seq<Entry>, lower: Key, upper: Key)
    requires forall i :: 0 <= i < |es| ==> Rank(es[i].key) < Rank(lower) || Rank(upper) <= Rank(es[i].key)
    ensures Between(es, lower, upper) == []
  {
    hide Rank;
    if es != [] { BetweenNone(es[1..], lower, upper); }
  }

  /** Exactly the entries in the range, and in strictly ascending order. */
  lemma {:induction false} BetweenIsRange(es: seq<Entry>, lower: Key, upper: Key)
    requires Sorted(es)
    ensures Sorted(Between(es, lower, upper))
    ensures forall e :: e in Between(es, lower, upper) <==> e in es && Rank(lower) <= Rank(e.key) < Rank(upper)
  {
    hide Rank;
    if es != [] {
      Tail(es);
      BetweenIsRange(es[1..], lower, upper);
      var rest := Between(es[1..], lower, upper);
      forall i | 0 <= i < |rest| ensures Rank(es[0].key) < Rank(rest[i].key) {
        assert rest[i] in rest;
        var j :| 0 <= j < |es[1..]| && es[1..][j] == rest[i];
      }
      assert es == [es[0]] + es[1..];
      Head(es[0], rest);
    }
  }

  /** The range as a part of the map. */
  lemma RangeOfMap(es: seq<Entry>, lower: Key, upper: Key)
    requires Sorted(es)
    ensures ToMap(Between(es, lower, upper)) == map k | k in ToMap(es) && Rank(lower) <= Rank(k) < Rank(upper) ::
      ToMap(es)[k]
  {
    BetweenIsRange(es, lower, upper);
    SortedToMap(es);
    SortedToMap(Between(es, lower, upper));
  }

  /** A map made of an ascending list holds exactly the listed pairs. */
  lemma {:induction false} SortedToMap(es: seq<Entry>)
    requires Sorted(es)
    ensures forall k :: k in ToMap(es) ==> Entry(k, ToMap(es)[k]) in es
    ensures forall e :: e in es ==> e.key in ToMap(es) && ToMap(es)[e.key] == e.rows
  {
    hide Rank, Sorted, Above;
    if es != [] {
      Tail(es);
      SortedToMap(es[1..]);
      NotInAbove(es[1..], es[0].key);
      assert es == [es[0]] + es[1..];
    }
  }

  // ---------- reading one leaf ----------

  /** The `i`-th leaf of a tree that the heap holds. */
  lemma LeafHeld(t: Tree<Node>, i: nat, lo: real, hi: real, h: nat)
    requires Holds(t) && Ordered(t, lo, hi, h) && i < |Leaves(t)|
    ensures var l := Leaves(t)[i];
      && l.Leaf? && l.id.isLeaf && l.id.keys == l.keys && l.id.values == l.vals && |l.vals| == |l.keys|
      && Ordered(l, lo, hi, 0)
      && |LeafEntries(l)| == |l.keys|
      && forall j :: 0 <= j < |l.keys| ==> LeafEntries(l)[j] == Entry(l.keys[j], l.vals[j])
  {
    hide Rank, Leaves;
    LeavesHold(t);
    LeavesOrdered(t, lo, hi, h, i);
  }

  /** The leaf holds the key. */
  lemma FindHits<N>(t: Tree<N>, i: nat, p: nat, key: Key, lo: real, hi: real, h: nat)
    requires Ordered(t, lo, hi, h) && LeafOf(t, i, key)
    requires var l := Leaves(t)[i]; p < |l.keys| && l.keys[p] == key
    ensures var l := Leaves(t)[i];
      l.Leaf? && |l.vals| == |l.keys| && MapFind(ToMap(Contents(t)), key) == l.vals[p]
  {
    hide Rank, Leaves, Entries, Below, Above, Lookup, MapFind, ToMap, LeafEntries;
    var l := Leaves(t)[i];
    LeavesOrdered(t, lo, hi, h, i);
    LeafHits(l.id, l.keys, l.vals, p, key, lo, hi);
    LeafContents(l);
    LookupInLeaf(Leaves(t), i, key);
    LookupIsMapFind(Contents(t), key);
  }

  /** The leaf does not hold the key. */
  lemma FindMisses<N>(t: Tree<N>, i: nat, p: nat, key: Key, lo: real, hi: real, h: nat)
    requires Ordered(t, lo, hi, h) && LeafOf(t, i, key)
    requires var l := Leaves(t)[i];
      && p <= |l.keys| && (forall j :: 0 <= j < p ==> Rank(l.keys[j]) < Rank(key))
      && (p < |l.keys| ==> Rank(key) <= Rank(l.keys[p]) && l.keys[p] != key)
    ensures MapFind(ToMap(Contents(t)), key) == []
  {
    hide Rank, Leaves, Entries, Below, Above, Lookup, MapFind, ToMap, LeafEntries;
    var l := Leaves(t)[i];
    LeavesOrdered(t, lo, hi, h, i);
    LeafMisses(l.id, l.keys, l.vals, p, key, 0, lo, hi);
    LeafContents(l);
    LookupInLeaf(Leaves(t), i, key);
    LookupIsMapFind(Contents(t), key);
  }

  // ---------- walking the chain ----------

  /** How many entries there are before the `i`-th leaf. */
  ghost function Offset<N>(t: Tree<N>, i: nat): nat
    requires i <= |Leaves(t)|
  {
    |Entries(Leaves(t)[..i])|
  }

  /** The entries of the `i`-th leaf follow those of the leaves before it. */
  lemma OffsetStep<N>(t: Tree<N>, i: nat)
    requires i < |Leaves(t)|
    ensures Offset(t, i + 1) == Offset(t, i) + |LeafEntries(Leaves(t)[i])|
    ensures Offset(t, i + 1) <= |Contents(t)|
    ensures forall j :: 0 <= j < |LeafEntries(Leaves(t)[i])| ==>
      Offset(t, i) + j < |Contents(t)| && Contents(t)[Offset(t, i) + j] == LeafEntries(Leaves(t)[i])[j]
  {
    hide Leaves, LeafEntries, Entries;
    EntriesAround(Leaves(t), i);
  }

  lemma OffsetEnd<N>(t: Tree<N>)
    ensures Offset(t, |Leaves(t)|) == |Contents(t)|
  {
    assert Leaves(t)[..|Leaves(t)|] == Leaves(t);
  }

  /** Nothing before the first leaf visited is in the range. */
  lemma ScanStart<N>(t: Tree<N>, i: nat, lower: Key, upper: Key)
    requires LeafOf(t, i, lower)
    ensures i < |Leaves(t)| && Offset(t, i) <= |Contents(t)|
    ensures Between(Contents(t)[..Offset(t, i)], lower, upper) == []
  {
    hide Rank, Leaves, Entries, LeafEntries;
    EntriesAround(Leaves(t), i);
    assert Contents(t)[..Offset(t, i)] == Entries(Leaves(t)[..i]);
    BetweenNone(Entries(Leaves(t)[..i]), lower, upper);
  }

  /** One entry further. */
  lemma ScanStep(es: seq<Entry>, n: nat, lower: Key, upper: Key)
    requires n < |es|
    ensures Between(es[..n + 1], lower, upper)
         == Between(es[..n], lower, upper) + if Rank(lower) <= Rank(es[n].key) < Rank(upper) then [es[n]] else []
  {
    hide Rank;
    assert es[..n + 1] == es[..n] + [es[n]];
    BetweenAppend(es[..n], [es[n]], lower, upper);
  }

  /** The first entry at or above the upper bound ends the range. */
  lemma ScanStop(es: seq<Entry>, n: nat, lower: Key, upper: Key)
    requires n < |es| && Sorted(es) && Rank(upper) <= Rank(es[n].key)
    ensures Between(es, lower, upper) == Between(es[..n], lower, upper)
  {
    hide Rank;
    assert es == es[..n] + es[n..];
    BetweenAppend(es[..n], es[n..], lower, upper);
    forall i | 0 <= i < |es[n..]| ensures Rank(upper) <= Rank(es[n..][i].key) {
      assert es[n..][i] == es[n + i];
    }
    BetweenNone(es[n..], lower, upper);
  }

  /** The `i`-th leaf points to the one behind it. */
  lemma NextLeaf(t: Tree<Node>, i: nat)
    requires Linked(Chain([], t, [])) && i < |Leaves(t)|
    ensures Leaves(t)[i].id.nextLeaf == if i + 1 < |Leaves(t)| then Leaves(t)[i + 1].id else null
  {
    hide Leaves;
    var c := Ids(Leaves(t));
    assert Chain([], t, []) == c;
    assert c[i] == Leaves(t)[i].id;
    if i + 1 < |c| { assert c[i + 1] == Leaves(t)[i + 1].id; }
  }
}
