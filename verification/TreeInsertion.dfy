/** What insertion does to the tree value: making room before descending, taking back what the child hands up,
    and splitting a node that has grown too large. */
module TreeInsertion {
  import opened Keys
  import opened TreeShape
  import opened TreeRepairs
  import opened TreeContents
  import opened SortedMap

  /** Capacities for which every repair keeps every node at least half full: even, and six or more. */
  predicate Capacity(M: nat) {
    M >= 6 && M % 2 == 0
  }

  ghost predicate FullBelow<N>(t: Tree<N>, M: nat) {
    t.Inner? ==> FullF(t.kids, M)
  }

  /** A subtree that is in order; its top may be a root and so hold few keys, everything below is half full. */
  ghost predicate Sub<N>(t: Tree<N>, lo: real, hi: real, h: nat, M: nat) {
    Ordered(t, lo, hi, h) && FullBelow(t, M) && |t.keys| <= M && (t.Inner? ==> t.keys != [])
  }

  /** `trees`, told apart by `seps`, are what became of `t` when `key` was inserted. */
  ghost predicate Inserted<N>(t: Tree<N>, seps: seq<Key>, trees: seq<Tree<N>>, key: Key, row: RowId,
                              lo: real, hi: real, h: nat, M: nat)
  {
    && 1 <= |trees| <= 2 && |trees| == |seps| + 1
    && Forest(seps, trees, lo, hi, h)
    && Entries(LeavesF(trees)) == Upsert(Contents(t), key, row)
    && trees[0].id == t.id
    && (|trees| == 1 ==> |t.keys| <= |trees[0].keys| <= M && FullBelow(trees[0], M))
    && (|trees| == 2 ==> |t.keys| == M && FullF(trees, M))
  }

  // ---------- occupancy of repairs ----------

  lemma Fuse2Below<N>(p: Tree<N>, i: nat, M: nat)
    requires Siblings(p, i, 2) && FullBelow(p.kids[i], M) && FullBelow(p.kids[i + 1], M)
    ensures FullBelow(Fuse2(p, i), M)
  {
    hide Full;
  }

  lemma Fuse3Below<N>(p: Tree<N>, i: nat, M: nat)
    requires Siblings(p, i, 3)
    requires FullBelow(p.kids[i], M) && FullBelow(p.kids[i + 1], M) && FullBelow(p.kids[i + 2], M)
    ensures FullBelow(Fuse3(p, i), M)
  {
    hide Full;
  }

  lemma CutFull<N>(f: Tree<N>, c: nat, r: N, M: nat)
    requires Shaped(f) && c < |f.keys| && FullBelow(f, M)
    ensures FullBelow(CutLeft(f, c), M) && FullBelow(CutRight(f, c, r), M)
    ensures |CutLeft(f, c).keys| == c
    ensures |CutRight(f, c, r).keys| == |f.keys| - c - if f.Leaf? then 0 else 1
  {
    hide Full;
  }

  /** Children other than the `n` from the `i`-th on are at least half full. */
  ghost predicate OthersFull<N>(p: Tree<N>, i: nat, n: nat, M: nat)
    requires p.Inner?
  {
    forall j :: 0 <= j < |p.kids| && !(i <= j < i + n) ==> Full(p.kids[j], M)
  }

  lemma RecutFull<N>(p: Tree<N>, i: nat, c: nat, M: nat)
    requires Siblings(p, i, 2) && c < |Fuse2(p, i).keys| && OthersFull(p, i, 2, M)
    requires FullBelow(p.kids[i], M) && FullBelow(p.kids[i + 1], M)
    requires MinKeys(M) <= c <= M
    requires MinKeys(M) <= |p.kids[i].keys| + |p.kids[i + 1].keys| - c <= M
    ensures FullBelow(Recut(p, i, c), M)
  {
    var f, r := Fuse2(p, i), p.kids[i + 1].id;
    Fuse2Below(p, i, M);
    CutFull(f, c, r, M);
    PlugFull(p, i, 2, [CutSep(f, c)], [CutLeft(f, c), CutRight(f, c, r)], M);
  }

  lemma ThreeToTwoFull<N>(p: Tree<N>, i: nat, c: nat, M: nat)
    requires Siblings(p, i, 3) && c < |Fuse3(p, i).keys| && OthersFull(p, i, 3, M)
    requires FullBelow(p.kids[i], M) && FullBelow(p.kids[i + 1], M) && FullBelow(p.kids[i + 2], M)
    requires MinKeys(M) <= c <= M
    requires MinKeys(M) <= |Fuse3(p, i).keys| - c - (if p.kids[i].Leaf? then 0 else 1) <= M
    ensures FullBelow(ThreeToTwo(p, i, c), M)
  {
    var f, r := Fuse3(p, i), p.kids[i + 1].id;
    Fuse3Below(p, i, M);
    CutFull(f, c, r, M);
    PlugFull(p, i, 3, [CutSep(f, c)], [CutLeft(f, c), CutRight(f, c, r)], M);
  }

  // Where the thirds begin when `total` keys go to three leaves, or to three inner nodes and two separators.

  function SecondLeaf(total: nat): nat { total / 3 }

  function ThirdLeaf(total: nat): nat { total / 3 + (total - total / 3) / 2 }

  function FirstSeparator(total: nat): nat { total / 3 }

  function SecondSeparator(total: nat): nat { total / 3 + 1 + (total - total / 3) / 2 }

  /** Two children become three, as the tree cuts them. */
  function Thirds<N>(p: Tree<N>, i: nat, m: N): Tree<N>
    requires Siblings(p, i, 2) && |Fuse2(p, i).keys| >= 6
  {
    var n := |Fuse2(p, i).keys|;
    if p.kids[i].Leaf? then TwoToThree(p, i, SecondLeaf(n), ThirdLeaf(n), m)
    else TwoToThree(p, i, FirstSeparator(n), SecondSeparator(n), m)
  }

  /** Two full children become three that are at least half full and have room. */
  lemma ThirdsFull<N>(p: Tree<N>, i: nat, m: N, M: nat)
    requires Capacity(M) && Siblings(p, i, 2) && FullF(p.kids, M)
    requires |p.kids[i].keys| == M && |p.kids[i + 1].keys| == M
    ensures FullBelow(Thirds(p, i, m), M)
    ensures forall j :: i <= j < i + 3 ==> |Thirds(p, i, m).kids[j].keys| < M
  {
    var f, r := Fuse2(p, i), p.kids[i + 1].id;
    var n := |f.keys|;
    var a := if f.Leaf? then SecondLeaf(n) else FirstSeparator(n);
    var b := if f.Leaf? then ThirdLeaf(n) else SecondSeparator(n);
    ThirdSizes(M);
    Fuse2Below(p, i, M);
    CutTwiceFull(f, a, b, m, r, M);
    var l := CutLeft(f, b);
    var g := [CutLeft(l, a), CutRight(l, a, m), CutRight(f, b, r)];
    PlugFull(p, i, 2, [CutSep(l, a), CutSep(f, b)], g, M);
    var p' := Thirds(p, i, m);
    assert p'.kids[i] == g[0] && p'.kids[i + 1] == g[1] && p'.kids[i + 2] == g[2];
  }

  /** The thirds arithmetic: all three parts are at least half full and none is full. */
  lemma ThirdSizes(M: nat)
    requires Capacity(M)
    ensures MinKeys(M) <= SecondLeaf(2 * M) < M
    ensures MinKeys(M) <= ThirdLeaf(2 * M) - SecondLeaf(2 * M) < M
    ensures MinKeys(M) <= 2 * M - ThirdLeaf(2 * M) < M
    ensures MinKeys(M) <= FirstSeparator(2 * M + 1) < M
    ensures MinKeys(M) <= SecondSeparator(2 * M + 1) - FirstSeparator(2 * M + 1) - 1 < M
    ensures MinKeys(M) <= 2 * M - SecondSeparator(2 * M + 1) < M
  {
  }

  lemma CutTwiceFull<N>(f: Tree<N>, a: nat, b: nat, m: N, r: N, M: nat)
    requires Shaped(f) && a < b < |f.keys| && FullBelow(f, M)
    requires var s := if f.Leaf? then 0 else 1;
      MinKeys(M) <= a < M && MinKeys(M) <= b - a - s < M && MinKeys(M) <= |f.keys| - b - s < M
    ensures var l := CutLeft(f, b); var g := [CutLeft(l, a), CutRight(l, a, m), CutRight(f, b, r)];
      FullF(g, M) && forall j :: 0 <= j < 3 ==> |g[j].keys| < M
  {
    CutFull(f, b, r, M);
    CutFull(CutLeft(f, b), a, m, M);
  }

  // ---------- making room ----------

  /** `p` is `t` with its children evened out. */
  ghost predicate Adjusted<N>(t: Tree<N>, p: Tree<N>, lo: real, hi: real, h: nat, M: nat) {
    p.Inner? && p.id == t.id && Sub(p, lo, hi, h, M) && Contents(p) == Contents(t) && Distinct(p)
  }

  /** A full child gives one key to a left neighbour that has room. */
  lemma MovedLeft<N>(t: Tree<N>, ci: nat, lo: real, hi: real, h: nat, M: nat)
    requires Capacity(M) && Sub(t, lo, hi, h, M) && h > 0 && Distinct(t) && 0 < ci < |t.kids|
    requires |t.kids[ci - 1].keys| < M == |t.kids[ci].keys|
    ensures Siblings(t, ci - 1, 2) && |t.kids[ci - 1].keys| + 1 < |Fuse2(t, ci - 1).keys|
    ensures var p := Recut(t, ci - 1, |t.kids[ci - 1].keys| + 1);
      Adjusted(t, p, lo, hi, h, M) && |p.keys| == |t.keys| && Ids(Leaves(p)) == Ids(Leaves(t)) && Nodes(p) == Nodes(t)
  {
    hide Ordered, Leaves, Entries, Nodes, Distinct;
    OrderedSiblings(t, ci - 1, 2, lo, hi, h);
    var c := |t.kids[ci - 1].keys| + 1;
    assert Full(t.kids[ci - 1], M) && Full(t.kids[ci], M);
    RecutOrdered(t, ci - 1, c, lo, hi, h);
    RecutKeeps(t, ci - 1, c);
    RecutDistinct(t, ci - 1, c);
    RecutFull(t, ci - 1, c, M);
  }

  /** A full child gives one key to a right neighbour that has room. */
  lemma MovedRight<N>(t: Tree<N>, ci: nat, lo: real, hi: real, h: nat, M: nat)
    requires Capacity(M) && Sub(t, lo, hi, h, M) && h > 0 && Distinct(t) && ci + 1 < |t.kids|
    requires |t.kids[ci + 1].keys| < M == |t.kids[ci].keys|
    ensures Siblings(t, ci, 2) && |t.kids[ci].keys| - 1 < |Fuse2(t, ci).keys|
    ensures var p := Recut(t, ci, |t.kids[ci].keys| - 1);
      Adjusted(t, p, lo, hi, h, M) && |p.keys| == |t.keys| && Ids(Leaves(p)) == Ids(Leaves(t)) && Nodes(p) == Nodes(t)
  {
    hide Ordered, Leaves, Entries, Nodes, Distinct;
    OrderedSiblings(t, ci, 2, lo, hi, h);
    var c := |t.kids[ci].keys| - 1;
    assert Full(t.kids[ci], M) && Full(t.kids[ci + 1], M);
    RecutOrdered(t, ci, c, lo, hi, h);
    RecutKeeps(t, ci, c);
    RecutDistinct(t, ci, c);
    RecutFull(t, ci, c, M);
  }

  /** Two full neighbours become three children, if the parent has room for one more. */
  lemma SplitInThirds<N>(t: Tree<N>, i: nat, m: N, lo: real, hi: real, h: nat, M: nat)
    requires Capacity(M) && Sub(t, lo, hi, h, M) && h > 0 && Distinct(t) && i + 1 < |t.kids| && |t.keys| < M
    requires |t.kids[i].keys| == M && |t.kids[i + 1].keys| == M && m !in Nodes(t)
    ensures Siblings(t, i, 2) && |Fuse2(t, i).keys| >= 6
    ensures var p := Thirds(t, i, m);
      Adjusted(t, p, lo, hi, h, M) && |p.keys| == |t.keys| + 1 && Nodes(p) == Nodes(t) + {m}
      && (t.kids[i].Inner? ==> Ids(Leaves(p)) == Ids(Leaves(t)))
  {
    hide Ordered, Leaves, Entries, Nodes, Distinct;
    OrderedSiblings(t, i, 2, lo, hi, h);
    var n := |Fuse2(t, i).keys|;
    var a := if t.kids[i].Leaf? then SecondLeaf(n) else FirstSeparator(n);
    var b := if t.kids[i].Leaf? then ThirdLeaf(n) else SecondSeparator(n);
    ThirdSizes(M);
    TwoToThreeOrdered(t, i, a, b, m, lo, hi, h);
    TwoToThreeKeeps(t, i, a, b, m);
    TwoToThreeDistinct(t, i, a, b, m);
    ThirdsFull(t, i, m, M);
  }

  /** A key routed to one of two neighbours that became three is now routed to one of the three. */
  lemma ThirdsRoute<N>(p: Tree<N>, i: nat, m: N, ci: nat, ci': nat, key: Key, lo: real, hi: real, h: nat)
    requires Siblings(p, i, 2) && |Fuse2(p, i).keys| >= 6
    requires Ordered(p, lo, hi, h) && h > 0
    requires RoutesTo(p.keys, ci, key) && i <= ci <= i + 1
    requires RoutesTo(Thirds(p, i, m).keys, ci', key)
    ensures i <= ci' <= i + 2
  {
    hide Rank, Forest;
    var ks := Thirds(p, i, m).keys;
    assert SepsIn(p.keys, lo, hi) by { KidsOrdered(p, lo, hi, h); }
    assert forall j :: 0 <= j < i ==> ks[j] == p.keys[j];
    assert i + 2 < |ks| ==> ks[i + 2] == p.keys[i + 1] && Rank(p.keys[ci]) <= Rank(p.keys[i + 1]);
  }

  /** The capacities are exactly those for which splitting and merging keep every size between half and full:
      the smallest of the thirds of two full neighbours, and a merge of two minimal inner nodes. */
  lemma CapacityIsExact(M: nat)
    requires M >= 3
    ensures Capacity(M) <==>
      && MinKeys(M) <= SecondLeaf(2 * M) && MinKeys(M) <= ThirdLeaf(2 * M) - SecondLeaf(2 * M)
      && MinKeys(M) <= 2 * M - ThirdLeaf(2 * M) && MinKeys(M) <= FirstSeparator(2 * M + 1)
      && MinKeys(M) <= SecondSeparator(2 * M + 1) - FirstSeparator(2 * M + 1) - 1
      && MinKeys(M) <= 2 * M - SecondSeparator(2 * M + 1)
      && (MinKeys(M) - 1) + 1 + MinKeys(M) <= M
  {
  }

  // ---------- taking back what the child hands up ----------

  /** An insertion into the routed child is an insertion into the parent. */
  lemma InsertedBelow<N>(p: Tree<N>, ci: nat, seps: seq<Key>, trees: seq<Tree<N>>, key: Key, row: RowId,
                         lo: real, hi: real, h: nat, M: nat)
    requires Sub(p, lo, hi, h, M) && h > 0 && Pluggable(p, ci, 1)
    requires RoutesTo(p.keys, ci, key) && lo <= Rank(key) < hi
    requires |trees| == |seps| + 1
    requires Inserted(p.kids[ci], seps, trees, key, row, Lo(p.keys, ci, lo), Hi(p.keys, ci, hi), h - 1, M)
    ensures Ordered(Plug(p, ci, 1, seps, trees), lo, hi, h)
    ensures Contents(Plug(p, ci, 1, seps, trees)) == Upsert(Contents(p), key, row)
    ensures FullBelow(Plug(p, ci, 1, seps, trees), M)
  {
    hide Rank, Leaves, LeavesF, Entries, Upsert, RoutesTo, Forest, Ordered, Plug, Full;
    PlugOrdered(p, ci, 1, seps, trees, lo, hi, h);
    InsertedContents(p, ci, seps, trees, key, row, lo, hi, h);
    assert FullF(trees, M) by {
      if |trees| == 1 { GrownFull(p.kids[ci], trees[0], M); }
    }
    PlugFull(p, ci, 1, seps, trees, M);
  }

  lemma GrownFull<N>(t: Tree<N>, t': Tree<N>, M: nat)
    requires Full(t, M) && |t.keys| <= |t'.keys| <= M && FullBelow(t', M)
    ensures Full(t', M)
  {
  }

  /** What surrounds the routed child's entries, whatever takes that child's place. */
  lemma RoutedContents<N>(p: Tree<N>, ci: nat, seps: seq<Key>, trees: seq<Tree<N>>, key: Key, lo: real, hi: real,
                          h: nat)
    requires Ordered(p, lo, hi, h) && h > 0 && Pluggable(p, ci, 1) && |trees| == |seps| + 1
    requires RoutesTo(p.keys, ci, key) && lo <= Rank(key) < hi
    ensures var a, b := Entries(LeavesF(p.kids[..ci])), Entries(LeavesF(p.kids[ci + 1..]));
      && Below(a, key) && Above(b, key)
      && Contents(p) == a + Contents(p.kids[ci]) + b
      && Contents(Plug(p, ci, 1, seps, trees)) == a + Entries(LeavesF(trees)) + b
  {
    hide Leaves, LeavesF, Entries, Below, Above, Ordered, Rank, RoutesTo, Plug, Forest;
    KidsOrdered(p, lo, hi, h);
    RouteSplits(p.keys, p.kids, ci, key, lo, hi, h - 1);
    PlugContents(p, ci, 1, seps, trees);
    assert p.kids[ci..ci + 1] == [p.kids[ci]];
    LeavesOf1(p.kids[ci]);
  }

  lemma InsertedContents<N>(p: Tree<N>, ci: nat, seps: seq<Key>, trees: seq<Tree<N>>, key: Key, row: RowId,
                            lo: real, hi: real, h: nat)
    requires Ordered(p, lo, hi, h) && h > 0 && Pluggable(p, ci, 1)
    requires RoutesTo(p.keys, ci, key) && lo <= Rank(key) < hi
    requires |trees| == |seps| + 1 && Entries(LeavesF(trees)) == Upsert(Contents(p.kids[ci]), key, row)
    ensures Contents(Plug(p, ci, 1, seps, trees)) == Upsert(Contents(p), key, row)
  {
    hide Leaves, LeavesF, Entries, Upsert, Below, Above, Ordered, Rank, RoutesTo, Plug;
    RoutedContents(p, ci, seps, trees, key, lo, hi, h);
    UpsertInto(Entries(LeavesF(p.kids[..ci])), Contents(p.kids[ci]), Entries(LeavesF(p.kids[ci + 1..])), key, row);
  }

  // ---------- splitting ----------

  /** A node that has grown to `M + 1` keys is split in the middle. */
  lemma SplitTop<N>(t: Tree<N>, u: Tree<N>, r: N, key: Key, row: RowId, lo: real, hi: real, h: nat, M: nat)
    requires Capacity(M) && |t.keys| == M && |u.keys| == M + 1 && u.id == t.id
    requires Ordered(u, lo, hi, h) && FullBelow(u, M) && Contents(u) == Upsert(Contents(t), key, row)
    ensures Shaped(u) && (M + 1) / 2 < |u.keys|
    ensures Inserted(t, [CutSep(u, (M + 1) / 2)], [CutLeft(u, (M + 1) / 2), CutRight(u, (M + 1) / 2, r)],
                     key, row, lo, hi, h, M)
  {
    hide Upsert, Rank, Ordered, Leaves, LeavesF, Entries, FullBelow, Forest;
    OrderedShaped(u, lo, hi, h);
    var c := (M + 1) / 2;
    CutOrdered(u, c, r, lo, hi, h);
    PairForest(CutSep(u, c), CutLeft(u, c), CutRight(u, c, r), lo, hi, h);
    CutOnce(u, c, r);
    CutFull(u, c, r, M);
    PairFull(CutLeft(u, c), CutRight(u, c, r), M);
  }

  lemma PairFull<N>(a: Tree<N>, b: Tree<N>, M: nat)
    requires FullBelow(a, M) && MinKeys(M) <= |a.keys| <= M
    requires FullBelow(b, M) && MinKeys(M) <= |b.keys| <= M
    ensures FullF([a, b], M)
  {
  }

  /** A node that has not grown too large is handed back alone. */
  lemma KeepTop<N>(t: Tree<N>, u: Tree<N>, key: Key, row: RowId, lo: real, hi: real, h: nat, M: nat)
    requires |t.keys| <= |u.keys| <= M && u.id == t.id
    requires Ordered(u, lo, hi, h) && FullBelow(u, M) && Contents(u) == Upsert(Contents(t), key, row)
    requires lo < hi
    ensures Inserted(t, [], [u], key, row, lo, hi, h, M)
  {
    hide Upsert, Rank;
    LeavesOf1(u);
  }
}
