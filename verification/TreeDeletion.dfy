/** What deletion does to the tree value: repairing a child that has become one key short, and handing the result up. */
module TreeDeletion {
  import opened Keys
  import opened TreeShape
  import opened TreeRepairs
  import opened TreeContents
  import opened TreeInsertion
  import opened SortedMap

  /** Every child is at least half full, except that the `ci`-th may lack one key. */
  ghost predicate OneShort<N>(p: Tree<N>, ci: nat, M: nat) {
    && p.Inner? && |p.kids| == |p.keys| + 1 && ci < |p.kids|
    && OthersFull(p, ci, 1, M) && FullBelow(p.kids[ci], M)
    && MinKeys(M) - 1 <= |p.kids[ci].keys| <= M
  }

  /** `p'` is `p` with its short child repaired; the parent lost at most one child. */
  ghost predicate Mended<N>(p: Tree<N>, p': Tree<N>, lo: real, hi: real, h: nat, M: nat) {
    && p'.Inner? && p'.id == p.id && Ordered(p', lo, hi, h) && FullBelow(p', M)
    && Contents(p') == Contents(p) && Distinct(p') && Nodes(p') <= Nodes(p)
    && |p.keys| - 1 <= |p'.keys| <= |p.keys|
  }

  lemma NothingShort<N>(p: Tree<N>, ci: nat, lo: real, hi: real, h: nat, M: nat)
    requires OneShort(p, ci, M) && |p.kids[ci].keys| >= MinKeys(M) && Ordered(p, lo, hi, h) && Distinct(p)
    ensures Mended(p, p, lo, hi, h, M)
  {
    hide Rank, Ordered, Contents, Distinct;
    forall j | 0 <= j < |p.kids| ensures Full(p.kids[j], M) {
      if j == ci { FullAgain(p.kids[j], M); }
    }
  }

  lemma FullAgain<N>(t: Tree<N>, M: nat)
    requires MinKeys(M) <= |t.keys| <= M && FullBelow(t, M)
    ensures Full(t, M)
  {
  }

  /** The child takes the last entry or child of a left neighbour that can spare it. */
  lemma BorrowedFromLeft<N>(p: Tree<N>, ci: nat, lo: real, hi: real, h: nat, M: nat)
    requires Capacity(M) && OneShort(p, ci, M) && |p.kids[ci].keys| < MinKeys(M) && ci > 0
    requires |p.kids[ci - 1].keys| > MinKeys(M)
    requires Ordered(p, lo, hi, h) && h > 0 && Distinct(p)
    ensures Siblings(p, ci - 1, 2) && |p.kids[ci - 1].keys| - 1 < |Fuse2(p, ci - 1).keys|
    ensures Mended(p, Recut(p, ci - 1, |p.kids[ci - 1].keys| - 1), lo, hi, h, M)
    ensures Ids(Leaves(Recut(p, ci - 1, |p.kids[ci - 1].keys| - 1))) == Ids(Leaves(p))
  {
    hide Rank, Ordered, Leaves, Entries, Nodes, Distinct, Ids, Full;
    FullKid(p, ci, ci - 1, M);
    OrderedSiblings(p, ci - 1, 2, lo, hi, h);
    var c := |p.kids[ci - 1].keys| - 1;
    RecutOrdered(p, ci - 1, c, lo, hi, h);
    RecutKeeps(p, ci - 1, c);
    RecutDistinct(p, ci - 1, c);
    RecutFull(p, ci - 1, c, M);
  }

  lemma FullKid<N>(p: Tree<N>, ci: nat, j: nat, M: nat)
    requires OneShort(p, ci, M) && j < |p.kids| && j != ci
    ensures MinKeys(M) <= |p.kids[j].keys| <= M && FullBelow(p.kids[j], M)
  {
    assert Full(p.kids[j], M);
  }

  /** The child takes the first entry or child of a right neighbour that can spare it. */
  lemma BorrowedFromRight<N>(p: Tree<N>, ci: nat, lo: real, hi: real, h: nat, M: nat)
    requires Capacity(M) && OneShort(p, ci, M) && |p.kids[ci].keys| < MinKeys(M) && ci + 1 < |p.kids|
    requires |p.kids[ci + 1].keys| > MinKeys(M)
    requires Ordered(p, lo, hi, h) && h > 0 && Distinct(p)
    ensures Siblings(p, ci, 2) && |p.kids[ci].keys| + 1 < |Fuse2(p, ci).keys|
    ensures Mended(p, Recut(p, ci, |p.kids[ci].keys| + 1), lo, hi, h, M)
    ensures Ids(Leaves(Recut(p, ci, |p.kids[ci].keys| + 1))) == Ids(Leaves(p))
  {
    hide Rank, Ordered, Leaves, Entries, Nodes, Distinct, Ids, Full;
    FullKid(p, ci, ci + 1, M);
    OrderedSiblings(p, ci, 2, lo, hi, h);
    var c := |p.kids[ci].keys| + 1;
    RecutOrdered(p, ci, c, lo, hi, h);
    RecutKeeps(p, ci, c);
    RecutDistinct(p, ci, c);
    RecutFull(p, ci, c, M);
  }

  /** The three children from the `j`-th on can be gathered in two. */
  predicate Gatherable<N>(p: Tree<N>, j: nat, M: nat) {
    && Siblings(p, j, 3)
    && var n := |Fuse3(p, j).keys|;
       if p.kids[j].Leaf? then 2 * MinKeys(M) <= n <= 2 * M else 2 * MinKeys(M) + 1 <= n <= 2 * M + 1
  }

  /** Three children of which one is short become two. */
  lemma Gathered<N>(p: Tree<N>, ci: nat, j: nat, lo: real, hi: real, h: nat, M: nat)
    requires Capacity(M) && OneShort(p, ci, M) && j <= ci <= j + 2 && Gatherable(p, j, M)
    requires Ordered(p, lo, hi, h) && h > 0 && Distinct(p)
    ensures Mended(p, ThreeToTwo(p, j, |Fuse3(p, j).keys| / 2), lo, hi, h, M)
    ensures p.kids[j].Inner? ==> Ids(Leaves(ThreeToTwo(p, j, |Fuse3(p, j).keys| / 2))) == Ids(Leaves(p))
  {
    hide Rank, Ordered, Leaves, Entries, Nodes, Distinct, Ids, Full;
    KidsBelow(p, ci, M);
    var c := |Fuse3(p, j).keys| / 2;
    ThreeToTwoOrdered(p, j, c, lo, hi, h);
    ThreeToTwoKeeps(p, j, c);
    ThreeToTwoDistinct(p, j, c);
    ThreeToTwoFull(p, j, c, M);
  }

  lemma KidsBelow<N>(p: Tree<N>, ci: nat, M: nat)
    requires OneShort(p, ci, M)
    ensures forall j :: 0 <= j < |p.kids| ==> FullBelow(p.kids[j], M)
    ensures forall j :: 0 <= j < |p.kids| ==> |p.kids[j].keys| <= M
    ensures forall j :: 0 <= j < |p.kids| && j != ci ==> MinKeys(M) <= |p.kids[j].keys|
  {
    forall j | 0 <= j < |p.kids| && j != ci
      ensures FullBelow(p.kids[j], M) && MinKeys(M) <= |p.kids[j].keys| <= M
    {
      FullKid(p, ci, j, M);
    }
  }

  /** When no neighbour can spare a key, any three children around the short one can be gathered in two. */
  lemma AlwaysGatherable<N>(p: Tree<N>, ci: nat, j: nat, lo: real, hi: real, h: nat, M: nat)
    requires Capacity(M) && OneShort(p, ci, M) && |p.kids[ci].keys| < MinKeys(M)
    requires ci > 0 ==> |p.kids[ci - 1].keys| <= MinKeys(M)
    requires ci + 1 < |p.kids| ==> |p.kids[ci + 1].keys| <= MinKeys(M)
    requires j <= ci <= j + 2 < |p.kids| && Ordered(p, lo, hi, h) && h > 0
    ensures Gatherable(p, j, M)
  {
    hide Rank, Ordered, Fuse;
    KidsBelow(p, ci, M);
    OrderedSiblings(p, j, 3, lo, hi, h);
  }

  /** Two children of which one is short, and neither has a key to spare, become one. */
  lemma Merged<N>(p: Tree<N>, ci: nat, j: nat, lo: real, hi: real, h: nat, M: nat)
    requires Capacity(M) && OneShort(p, ci, M) && |p.kids[ci].keys| < MinKeys(M)
    requires j <= ci <= j + 1 < |p.kids|
    requires |p.kids[if ci == j then j + 1 else j].keys| <= MinKeys(M)
    requires Ordered(p, lo, hi, h) && h > 0 && Distinct(p)
    ensures Siblings(p, j, 2) && Mended(p, Merge(p, j), lo, hi, h, M)
    ensures p.kids[j].Inner? ==> Ids(Leaves(Merge(p, j))) == Ids(Leaves(p))
  {
    hide Rank, Ordered, Leaves, Entries, Nodes, Distinct, Ids, Full, Forest;
    KidsBelow(p, ci, M);
    OrderedSiblings(p, j, 2, lo, hi, h);
    MergeOrdered(p, j, lo, hi, h);
    MergeKeeps(p, j);
    MergeDistinct(p, j);
    MergeFull(p, j, M);
  }

  lemma MergeFull<N>(p: Tree<N>, j: nat, M: nat)
    requires Siblings(p, j, 2) && OthersFull(p, j, 2, M)
    requires FullBelow(p.kids[j], M) && FullBelow(p.kids[j + 1], M)
    requires MinKeys(M) <= |Fuse2(p, j).keys| <= M
    ensures FullBelow(Merge(p, j), M)
  {
    Fuse2Below(p, j, M);
    PlugFull(p, j, 2, [], [Fuse2(p, j)], M);
  }

  // ---------- handing the result up ----------

  /** `u` is what became of `t` when `row` was removed from the list of `key`. */
  ghost predicate Removed<N>(t: Tree<N>, u: Tree<N>, key: Key, row: RowId, lo: real, hi: real, h: nat, M: nat) {
    && u.id == t.id && Ordered(u, lo, hi, h) && FullBelow(u, M)
    && Contents(u) == Drop(Contents(t), key, row) && Distinct(u) && Nodes(u) <= Nodes(t)
    && |t.keys| - 1 <= |u.keys| <= |t.keys|
  }

  /** A removal from the routed child is a removal from the parent, whose child may now be one key short. */
  lemma RemovedBelow<N>(p: Tree<N>, ci: nat, kid: Tree<N>, key: Key, row: RowId, lo: real, hi: real, h: nat, M: nat)
    requires Sub(p, lo, hi, h, M) && h > 0 && Pluggable(p, ci, 1) && Distinct(p)
    requires RoutesTo(p.keys, ci, key) && lo <= Rank(key) < hi
    requires Removed(p.kids[ci], kid, key, row, Lo(p.keys, ci, lo), Hi(p.keys, ci, hi), h - 1, M)
    ensures var u := Plug(p, ci, 1, [], [kid]);
      && Ordered(u, lo, hi, h) && Contents(u) == Drop(Contents(p), key, row) && OneShort(u, ci, M)
      && Distinct(u) && Nodes(u) <= Nodes(p) && u.keys == p.keys && u.kids[ci] == kid
  {
    hide Rank, Leaves, LeavesF, Entries, Drop, RoutesTo, Forest, Ordered, Plug, Full, Nodes, NodesF, Distinct,
      DistinctF;
    RouteBounds(p.keys, ci, key, lo, hi);
    SingleForest(kid, Lo(p.keys, ci, lo), Hi(p.keys, ci, hi), h - 1);
    PlugOrdered(p, ci, 1, [], [kid], lo, hi, h);
    RemovedContents(p, ci, kid, key, row, lo, hi, h);
    RemovedNodes(p, ci, kid);
    RemovedSizes(p, ci, kid, M);
  }

  lemma RemovedContents<N>(p: Tree<N>, ci: nat, kid: Tree<N>, key: Key, row: RowId, lo: real, hi: real, h: nat)
    requires Ordered(p, lo, hi, h) && h > 0 && Pluggable(p, ci, 1)
    requires RoutesTo(p.keys, ci, key) && lo <= Rank(key) < hi
    requires Contents(kid) == Drop(Contents(p.kids[ci]), key, row)
    ensures Contents(Plug(p, ci, 1, [], [kid])) == Drop(Contents(p), key, row)
  {
    hide Leaves, LeavesF, Entries, Drop, Below, Above, Ordered, Rank, RoutesTo, Plug;
    RoutedContents(p, ci, [], [kid], key, lo, hi, h);
    LeavesOf1(kid);
    DropFrom(Entries(LeavesF(p.kids[..ci])), Contents(p.kids[ci]), Entries(LeavesF(p.kids[ci + 1..])), key, row);
  }

  lemma RemovedNodes<N>(p: Tree<N>, ci: nat, kid: Tree<N>)
    requires Pluggable(p, ci, 1) && Distinct(p) && Distinct(kid) && Nodes(kid) <= Nodes(p.kids[ci])
    ensures Distinct(Plug(p, ci, 1, [], [kid])) && Nodes(Plug(p, ci, 1, [], [kid])) <= Nodes(p)
  {
    hide Nodes, NodesF, Distinct, Plug;
    assert p.kids[ci..ci + 1] == [p.kids[ci]];
    LeavesOf1(p.kids[ci]);
    LeavesOf1(kid);
    PlugLeaves(p, ci, 1, [], [kid]);
    PlugDistinct(p, ci, 1, [], [kid]);
  }

  lemma RemovedSizes<N>(p: Tree<N>, ci: nat, kid: Tree<N>, M: nat)
    requires Pluggable(p, ci, 1) && FullF(p.kids, M) && FullBelow(kid, M)
    requires |p.kids[ci].keys| - 1 <= |kid.keys| <= |p.kids[ci].keys|
    ensures var u := Plug(p, ci, 1, [], [kid]); OneShort(u, ci, M) && u.keys == p.keys && u.kids[ci] == kid
  {
    assert Full(p.kids[ci], M);
  }

  lemma RouteBounds(ks: seq<Key>, i: nat, key: Key, lo: real, hi: real)
    requires RoutesTo(ks, i, key) && lo <= Rank(key) < hi
    ensures Lo(ks, i, lo) <= Rank(key) < Hi(ks, i, hi)
  {
    hide Rank;
  }

  lemma SingleForest<N>(t: Tree<N>, lo: real, hi: real, h: nat)
    requires Ordered(t, lo, hi, h) && lo < hi
    ensures Forest([], [t], lo, hi, h)
  {
    hide Rank, Ordered;
    assert Lo([], 0, lo) == lo && Hi([], 0, hi) == hi;
  }
}
