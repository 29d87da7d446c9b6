/** How high a tree can grow: nodes that are at least half full make the number of keys exponential in the height. */
module TreeHeight {
  import opened Keys
  import opened TreeShape
  import opened TreeInsertion
  import opened SortedMap

  ghost function Pow(b: nat, n: nat): nat {
    if n == 0 then 1 else b * Pow(b, n - 1)
  }

  /** A subtree whose every node is at least half full. */
  lemma {:induction false} FullSubtree<N>(t: Tree<N>, lo: real, hi: real, h: nat, M: nat)
    requires Ordered(t, lo, hi, h) && Full(t, M)
    ensures |Contents(t)| >= MinKeys(M) * Pow(MinKeys(M) + 1, h)
    decreases h, 0, 0
  {
    hide Rank, Pow;
    if t.Leaf? {
      LeafContents(t);
      OneToZero(MinKeys(M) + 1);
    } else {
      var m := MinKeys(M);
      FullForest(t.keys, t.kids, lo, hi, h - 1, M);
      AtLeast(|t.kids|, m + 1, m * Pow(m + 1, h - 1));
      PowStep(m, h);
    }
  }

  lemma OneToZero(b: nat)
    ensures Pow(b, 0) == 1
  {
  }

  lemma PowStep(m: nat, h: nat)
    requires h > 0
    ensures (m + 1) * (m * Pow(m + 1, h - 1)) == m * Pow(m + 1, h)
  {
    var p := Pow(m + 1, h - 1);
    assert Pow(m + 1, h) == (m + 1) * p;
    assert (m + 1) * (m * p) == m * ((m + 1) * p);
  }

  lemma AtLeast(a: nat, b: nat, c: nat)
    requires a >= b
    ensures a * c >= b * c
  {
  }

  lemma {:induction false} FullForest<N>(ks: seq<Key>, c: seq<Tree<N>>, lo: real, hi: real, h: nat, M: nat)
    requires Forest(ks, c, lo, hi, h) && FullF(c, M)
    ensures |Entries(LeavesF(c))| >= |c| * (MinKeys(M) * Pow(MinKeys(M) + 1, h))
    decreases h, 1, |ks|
  {
    hide Rank, Ordered, Leaves, Entries, Pow, Full;
    var n := MinKeys(M) * Pow(MinKeys(M) + 1, h);
    FirstOfForest(ks, c, lo, hi, h);
    FullSubtree(c[0], lo, Hi(ks, 0, hi), h, M);
    EntriesAppend(Leaves(c[0]), LeavesF(c[1..]));
    if ks == [] {
      assert |c| * n == n;
    } else {
      ForestCut(ks, c, 0, lo, hi, h);
      FullForest(ks[1..], c[1..], Rank(ks[0]), hi, h, M);
      assert |c| * n == n + |c[1..]| * n;
    }
  }

  lemma FirstOfForest<N>(ks: seq<Key>, c: seq<Tree<N>>, lo: real, hi: real, h: nat)
    requires Forest(ks, c, lo, hi, h)
    ensures c != [] && Ordered(c[0], lo, Hi(ks, 0, hi), h)
    ensures LeavesF(c) == Leaves(c[0]) + LeavesF(c[1..])
  {
    assert Lo(ks, 0, lo) == lo;
  }

  /** A tree of height `h` holds exponentially many keys; its root alone may hold a single one. */
  lemma HeightBound<N>(t: Tree<N>, lo: real, hi: real, h: nat, M: nat)
    requires Sub(t, lo, hi, h, M) && h >= 1
    ensures |Contents(t)| >= 2 * (MinKeys(M) * Pow(MinKeys(M) + 1, h - 1))
  {
    hide Rank, Pow, Full, Forest;
    KidsOrdered(t, lo, hi, h);
    FullForest(t.keys, t.kids, lo, hi, h - 1, M);
    AtLeast(|t.kids|, 2, MinKeys(M) * Pow(MinKeys(M) + 1, h - 1));
    assert Leaves(t) == LeavesF(t.kids);
  }

  /** The map has one key for each entry of the list. */
  lemma {:induction false} AsManyKeys(es: seq<Entry>)
    requires Sorted(es)
    ensures |ToMap(es)| == |es|
  {
    hide Rank, Sorted, Above;
    if es != [] {
      Tail(es);
      AsManyKeys(es[1..]);
      NotInAbove(es[1..], es[0].key);
      assert ToMap(es).Keys == ToMap(es[1..]).Keys + {es[0].key};
    }
  }
}
