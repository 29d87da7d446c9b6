/** The steps that rebalance a tree, as operations on a parent and neighbouring children.

    Each one fuses two or three neighbours and cuts the result again, so each keeps the search
    order, the contents and the leaves' left-to-right order; they differ in how many keys each
    child ends up with. */
module TreeRepairs {
  import opened Keys
  import opened TreeShape

  predicate Shaped<N>(t: Tree<N>) {
    if t.Leaf? then |t.vals| == |t.keys| else |t.kids| == |t.keys| + 1
  }

  predicate Siblings<N>(p: Tree<N>, i: nat, n: nat) {
    && Pluggable(p, i, n)
    && (forall j :: i <= j < i + n ==> (p.kids[j].Leaf? <==> p.kids[i].Leaf?) && Shaped(p.kids[j]))
  }

  /** Children `i` and `i + 1` as one node. */
  function Fuse2<N>(p: Tree<N>, i: nat): (f: Tree<N>)
    requires Siblings(p, i, 2)
    ensures f.Leaf? <==> p.kids[i].Leaf?
    ensures Shaped(f)
    ensures |f.keys| == |p.kids[i].keys| + |p.kids[i + 1].keys| + if f.Leaf? then 0 else 1
  {
    Fuse(p.kids[i], p.keys[i], p.kids[i + 1])
  }

  /** Children `i`, `i + 1` and `i + 2` as one node. */
  function Fuse3<N>(p: Tree<N>, i: nat): (f: Tree<N>)
    requires Siblings(p, i, 3)
    ensures f.Leaf? <==> p.kids[i].Leaf?
    ensures Shaped(f)
    ensures |f.keys| == |p.kids[i].keys| + |p.kids[i + 1].keys| + |p.kids[i + 2].keys| + if f.Leaf? then 0 else 2
  {
    Fuse(Fuse(p.kids[i], p.keys[i], p.kids[i + 1]), p.keys[i + 1], p.kids[i + 2])
  }

  /** Moves the border between children `i` and `i + 1`: the left one keeps `c` keys. */
  function Recut<N>(p: Tree<N>, i: nat, c: nat): Tree<N>
    requires Siblings(p, i, 2) && c < |Fuse2(p, i).keys|
  {
    var f := Fuse2(p, i);
    Plug(p, i, 2, [CutSep(f, c)], [CutLeft(f, c), CutRight(f, c, p.kids[i + 1].id)])
  }

  /** Children `i` and `i + 1` become three; `m` is the new middle node. */
  function TwoToThree<N>(p: Tree<N>, i: nat, a: nat, b: nat, m: N): Tree<N>
    requires Siblings(p, i, 2) && a < b < |Fuse2(p, i).keys|
  {
    var f := Fuse2(p, i);
    var l := CutLeft(f, b);
    Plug(p, i, 2, [CutSep(l, a), CutSep(f, b)],
         [CutLeft(l, a), CutRight(l, a, m), CutRight(f, b, p.kids[i + 1].id)])
  }

  /** Children `i`, `i + 1` and `i + 2` become two. */
  function ThreeToTwo<N>(p: Tree<N>, i: nat, c: nat): Tree<N>
    requires Siblings(p, i, 3) && c < |Fuse3(p, i).keys|
  {
    var f := Fuse3(p, i);
    Plug(p, i, 3, [CutSep(f, c)], [CutLeft(f, c), CutRight(f, c, p.kids[i + 1].id)])
  }

  /** Children `i` and `i + 1` become one. */
  function Merge<N>(p: Tree<N>, i: nat): Tree<N>
    requires Siblings(p, i, 2)
  {
    Plug(p, i, 2, [], [Fuse2(p, i)])
  }

  lemma OrderedSiblings<N>(p: Tree<N>, i: nat, n: nat, lo: real, hi: real, h: nat)
    requires Ordered(p, lo, hi, h) && h > 0 && 0 < n && i + n <= |p.kids|
    ensures Siblings(p, i, n)
  {
    OrderedShaped(p.kids[i], Lo(p.keys, i, lo), Hi(p.keys, i, hi), h - 1);
    forall j | i <= j < i + n
      ensures (p.kids[j].Leaf? <==> p.kids[i].Leaf?) && Shaped(p.kids[j])
    {
      OrderedShaped(p.kids[j], Lo(p.keys, j, lo), Hi(p.keys, j, hi), h - 1);
    }
  }

  lemma OrderedShaped<N>(t: Tree<N>, lo: real, hi: real, h: nat)
    requires Ordered(t, lo, hi, h)
    ensures Shaped(t) && (t.Leaf? <==> h == 0)
  {
  }

  lemma Fuse2Ordered<N>(p: Tree<N>, i: nat, lo: real, hi: real, h: nat)
    requires Siblings(p, i, 2) && Ordered(p, lo, hi, h) && h > 0
    ensures Ordered(Fuse2(p, i), Lo(p.keys, i, lo), Hi(p.keys, i + 1, hi), h - 1)
  {
    assert Ordered(p.kids[i], Lo(p.keys, i, lo), Hi(p.keys, i, hi), h - 1);
    assert Ordered(p.kids[i + 1], Lo(p.keys, i + 1, lo), Hi(p.keys, i + 1, hi), h - 1);
    FuseOrdered(p.kids[i], p.keys[i], p.kids[i + 1], Lo(p.keys, i, lo), Hi(p.keys, i + 1, hi), h - 1);
  }

  lemma Fuse3Ordered<N>(p: Tree<N>, i: nat, lo: real, hi: real, h: nat)
    requires Siblings(p, i, 3) && Ordered(p, lo, hi, h) && h > 0
    ensures Ordered(Fuse3(p, i), Lo(p.keys, i, lo), Hi(p.keys, i + 2, hi), h - 1)
  {
    Fuse2Ordered(p, i, lo, hi, h);
    assert Ordered(p.kids[i + 2], Lo(p.keys, i + 2, lo), Hi(p.keys, i + 2, hi), h - 1);
    FuseOrdered(Fuse2(p, i), p.keys[i + 1], p.kids[i + 2], Lo(p.keys, i, lo), Hi(p.keys, i + 2, hi), h - 1);
  }

  lemma PairForest<N>(sep: Key, l: Tree<N>, r: Tree<N>, lo: real, hi: real, h: nat)
    requires Ordered(l, lo, Rank(sep), h) && Ordered(r, Rank(sep), hi, h) && lo < Rank(sep) < hi
    ensures Forest([sep], [l, r], lo, hi, h)
  {
    var ks, c := [sep], [l, r];
    assert Lo(ks, 0, lo) == lo && Hi(ks, 0, hi) == Rank(sep) && Lo(ks, 1, lo) == Rank(sep) && Hi(ks, 1, hi) == hi;
    forall i | 0 <= i < |c| ensures Ordered(c[i], Lo(ks, i, lo), Hi(ks, i, hi), h) {
      if i == 0 { assert c[i] == l; } else { assert i == 1 && c[i] == r; }
    }
  }

  lemma RecutOrdered<N>(p: Tree<N>, i: nat, c: nat, lo: real, hi: real, h: nat)
    requires Siblings(p, i, 2) && 0 < c < |Fuse2(p, i).keys|
    requires Ordered(p, lo, hi, h) && h > 0
    ensures Ordered(Recut(p, i, c), lo, hi, h)
  {
    var f, r := Fuse2(p, i), p.kids[i + 1].id;
    var lo', hi' := Lo(p.keys, i, lo), Hi(p.keys, i + 1, hi);
    Fuse2Ordered(p, i, lo, hi, h);
    CutOrdered(f, c, r, lo', hi', h - 1);
    PairForest(CutSep(f, c), CutLeft(f, c), CutRight(f, c, r), lo', hi', h - 1);
    PlugOrdered(p, i, 2, [CutSep(f, c)], [CutLeft(f, c), CutRight(f, c, r)], lo, hi, h);
  }

  lemma ThreeToTwoOrdered<N>(p: Tree<N>, i: nat, c: nat, lo: real, hi: real, h: nat)
    requires Siblings(p, i, 3) && 0 < c < |Fuse3(p, i).keys|
    requires Ordered(p, lo, hi, h) && h > 0
    ensures Ordered(ThreeToTwo(p, i, c), lo, hi, h)
  {
    var f, r := Fuse3(p, i), p.kids[i + 1].id;
    var lo', hi' := Lo(p.keys, i, lo), Hi(p.keys, i + 2, hi);
    Fuse3Ordered(p, i, lo, hi, h);
    CutOrdered(f, c, r, lo', hi', h - 1);
    PairForest(CutSep(f, c), CutLeft(f, c), CutRight(f, c, r), lo', hi', h - 1);
    PlugOrdered(p, i, 3, [CutSep(f, c)], [CutLeft(f, c), CutRight(f, c, r)], lo, hi, h);
  }

  lemma TwoToThreeOrdered<N>(p: Tree<N>, i: nat, a: nat, b: nat, m: N, lo: real, hi: real, h: nat)
    requires Siblings(p, i, 2) && 0 < a < b < |Fuse2(p, i).keys|
    requires Ordered(p, lo, hi, h) && h > 0
    ensures Ordered(TwoToThree(p, i, a, b, m), lo, hi, h)
  {
    var f, r := Fuse2(p, i), p.kids[i + 1].id;
    var l := CutLeft(f, b);
    Fuse2Ordered(p, i, lo, hi, h);
    CutTwiceOrdered(f, a, b, m, r, Lo(p.keys, i, lo), Hi(p.keys, i + 1, hi), h - 1);
    PlugOrdered(p, i, 2, [CutSep(l, a), CutSep(f, b)],
              [CutLeft(l, a), CutRight(l, a, m), CutRight(f, b, r)], lo, hi, h);
  }

  lemma CutTwiceOrdered<N>(f: Tree<N>, a: nat, b: nat, m: N, r: N, lo: real, hi: real, h: nat)
    requires Shaped(f) && 0 < a < b < |f.keys| && Ordered(f, lo, hi, h)
    ensures var l := CutLeft(f, b);
      Forest([CutSep(l, a), CutSep(f, b)], [CutLeft(l, a), CutRight(l, a, m), CutRight(f, b, r)], lo, hi, h)
  {
    var l := CutLeft(f, b);
    CutOrdered(f, b, r, lo, hi, h);
    CutOrdered(l, a, m, lo, Rank(CutSep(f, b)), h);
    TripleForest(CutSep(l, a), CutSep(f, b), CutLeft(l, a), CutRight(l, a, m), CutRight(f, b, r), lo, hi, h);
  }

  lemma TripleForest<N>(s: Key, s': Key, l: Tree<N>, m: Tree<N>, r: Tree<N>, lo: real, hi: real, h: nat)
    requires Ordered(l, lo, Rank(s), h) && Ordered(m, Rank(s), Rank(s'), h) && Ordered(r, Rank(s'), hi, h)
    requires lo < Rank(s) < Rank(s') < hi
    ensures Forest([s, s'], [l, m, r], lo, hi, h)
  {
    PairForest(s, l, m, lo, Rank(s'), h);
    assert Forest([], [r], Rank(s'), hi, h);
    ForestJoin([s], [l, m], s', [], [r], lo, hi, h);
    assert [s] + [s'] + [] == [s, s'] && [l, m] + [r] == [l, m, r];
  }

  lemma MergeOrdered<N>(p: Tree<N>, i: nat, lo: real, hi: real, h: nat)
    requires Siblings(p, i, 2)
    requires Ordered(p, lo, hi, h) && h > 0
    ensures Ordered(Merge(p, i), lo, hi, h)
  {
    Fuse2Ordered(p, i, lo, hi, h);
    assert Forest([], [Fuse2(p, i)], Lo(p.keys, i, lo), Hi(p.keys, i + 1, hi), h - 1);
    PlugOrdered(p, i, 2, [], [Fuse2(p, i)], lo, hi, h);
  }

  // ---------- what a repair leaves alone ----------

  /** The leaf nodes before child `i` and from child `j` on. */
  ghost function IdsBefore<N>(p: Tree<N>, i: nat): seq<N>
    requires p.Inner? && i <= |p.kids|
  {
    Ids(LeavesF(p.kids[..i]))
  }

  ghost function IdsFrom<N>(p: Tree<N>, j: nat): seq<N>
    requires p.Inner? && j <= |p.kids|
  {
    Ids(LeavesF(p.kids[j..]))
  }

  lemma LeavesOf1<N>(a: Tree<N>)
    ensures LeavesF([a]) == Leaves(a) && NodesF([a]) == Nodes(a)
  {
    assert LeavesF([a]) == Leaves(a) + LeavesF<N>([]);
  }

  lemma LeavesOf2<N>(a: Tree<N>, b: Tree<N>)
    ensures LeavesF([a, b]) == Leaves(a) + Leaves(b) && NodesF([a, b]) == Nodes(a) + Nodes(b)
  {
    LeavesOf1(b);
    assert [a, b][1..] == [b];
  }

  lemma LeavesOf3<N>(a: Tree<N>, b: Tree<N>, c: Tree<N>)
    ensures LeavesF([a, b, c]) == Leaves(a) + Leaves(b) + Leaves(c)
    ensures NodesF([a, b, c]) == Nodes(a) + Nodes(b) + Nodes(c)
  {
    hide Leaves, Nodes;
    LeavesOf2(b, c);
    assert [a, b, c][1..] == [b, c];
  }

  /** The group that replaces a run of children decides what the repair does to contents, leaves and nodes. */
  lemma PlugKeeps<N>(p: Tree<N>, i: nat, n: nat, seps: seq<Key>, group: seq<Tree<N>>)
    requires Pluggable(p, i, n) && |group| == |seps| + 1
    requires Entries(LeavesF(group)) == Entries(LeavesF(p.kids[i..i + n]))
    ensures Contents(Plug(p, i, n, seps, group)) == Contents(p)
    ensures Ids(Leaves(p)) == IdsBefore(p, i) + Ids(LeavesF(p.kids[i..i + n])) + IdsFrom(p, i + n)
    ensures Ids(Leaves(Plug(p, i, n, seps, group))) == IdsBefore(p, i) + Ids(LeavesF(group)) + IdsFrom(p, i + n)
  {
    hide Leaves, LeavesF, Entries, Ids;
    PlugContents(p, i, n, seps, group);
    PlugLeaves(p, i, n, seps, group);
    IdsAppend(LeavesF(p.kids[..i]), LeavesF(p.kids[i..i + n]), LeavesF(p.kids[i + n..]));
    IdsAppend(LeavesF(p.kids[..i]), LeavesF(group), LeavesF(p.kids[i + n..]));
  }

  lemma IdsAppend<N>(a: seq<Tree<N>>, b: seq<Tree<N>>, c: seq<Tree<N>>)
    ensures Ids(a + b + c) == Ids(a) + Ids(b) + Ids(c)
  {
  }

  lemma Fuse2Contents<N>(p: Tree<N>, i: nat)
    requires Siblings(p, i, 2)
    ensures Entries(LeavesF(p.kids[i..i + 2])) == Contents(Fuse2(p, i))
    ensures p.kids[i].Inner? ==> LeavesF(p.kids[i..i + 2]) == Leaves(Fuse2(p, i))
    ensures p.kids[i].Leaf? ==> Ids(LeavesF(p.kids[i..i + 2])) == [p.kids[i].id, p.kids[i + 1].id]
    ensures NodesF(p.kids[i..i + 2]) == Nodes(Fuse2(p, i)) + {p.kids[i + 1].id}
  {
    var l, r := p.kids[i], p.kids[i + 1];
    assert p.kids[i..i + 2] == [l, r];
    LeavesOf2(l, r);
    EntriesAppend(Leaves(l), Leaves(r));
    FuseNodes(l, p.keys[i], r);
    if l.Leaf? { FuseLeafContents(l, p.keys[i], r); } else { FuseInnerLeaves(l, p.keys[i], r); }
  }

  lemma Fuse3Contents<N>(p: Tree<N>, i: nat)
    requires Siblings(p, i, 3)
    ensures Entries(LeavesF(p.kids[i..i + 3])) == Contents(Fuse3(p, i))
    ensures p.kids[i].Inner? ==> LeavesF(p.kids[i..i + 3]) == Leaves(Fuse3(p, i))
    ensures p.kids[i].Leaf? ==> Ids(LeavesF(p.kids[i..i + 3])) == [p.kids[i].id, p.kids[i + 1].id, p.kids[i + 2].id]
    ensures NodesF(p.kids[i..i + 3]) == Nodes(Fuse3(p, i)) + {p.kids[i + 1].id, p.kids[i + 2].id}
  {
    hide Leaves, LeavesF, Entries, Nodes, NodesF;
    var l, m, r := p.kids[i], p.kids[i + 1], p.kids[i + 2];
    var f := Fuse2(p, i);
    assert p.kids[i..i + 3] == [l, m, r] && p.kids[i..i + 2] == [l, m];
    Fuse2Contents(p, i);
    LeavesOf3(l, m, r);
    LeavesOf2(l, m);
    EntriesAppend(Leaves(l) + Leaves(m), Leaves(r));
    FuseNodes(f, p.keys[i + 1], r);
    if l.Leaf? {
      FuseLeafContents(f, p.keys[i + 1], r);
      LeafLeaves(l); LeafLeaves(m); LeafLeaves(r);
    } else {
      FuseInnerLeaves(f, p.keys[i + 1], r);
    }
  }

  lemma CutOnce<N>(f: Tree<N>, c: nat, r: N)
    requires Shaped(f) && c < |f.keys|
    ensures var g := [CutLeft(f, c), CutRight(f, c, r)];
      && Entries(LeavesF(g)) == Contents(f)
      && (f.Inner? ==> LeavesF(g) == Leaves(f))
      && (f.Leaf? ==> Ids(LeavesF(g)) == [f.id, r])
      && NodesF(g) == Nodes(f) + {r}
  {
    var a, b := CutLeft(f, c), CutRight(f, c, r);
    LeavesOf2(a, b);
    EntriesAppend(Leaves(a), Leaves(b));
    CutNodes(f, c, r);
    if f.Leaf? { CutLeafContents(f, c, r); } else { CutInnerLeaves(f, c, r); }
  }

  lemma CutTwice<N>(f: Tree<N>, a: nat, b: nat, m: N, r: N)
    requires Shaped(f) && a < b < |f.keys|
    ensures var l := CutLeft(f, b); var g := [CutLeft(l, a), CutRight(l, a, m), CutRight(f, b, r)];
      && Entries(LeavesF(g)) == Contents(f)
      && (f.Inner? ==> LeavesF(g) == Leaves(f))
      && (f.Leaf? ==> Ids(LeavesF(g)) == [f.id, m, r])
      && NodesF(g) == Nodes(f) + {m, r}
  {
    hide Leaves, LeavesF, Entries, Nodes, NodesF;
    var l := CutLeft(f, b);
    var x, y, z := CutLeft(l, a), CutRight(l, a, m), CutRight(f, b, r);
    CutOnce(f, b, r);
    CutOnce(l, a, m);
    LeavesOf2(l, z);
    LeavesOf2(x, y);
    LeavesOf3(x, y, z);
    EntriesAppend(Leaves(x) + Leaves(y), Leaves(z));
    EntriesAppend(Leaves(l), Leaves(z));
    if f.Leaf? {
      LeafLeaves(x); LeafLeaves(y); LeafLeaves(z);
    }
  }

  lemma LeafLeaves<N>(t: Tree<N>)
    requires t.Leaf?
    ensures Leaves(t) == [t]
  {
  }

  lemma RecutKeeps<N>(p: Tree<N>, i: nat, c: nat)
    requires Siblings(p, i, 2) && c < |Fuse2(p, i).keys|
    ensures Contents(Recut(p, i, c)) == Contents(p)
    ensures Ids(Leaves(Recut(p, i, c))) == Ids(Leaves(p))
    ensures Nodes(Recut(p, i, c)) == Nodes(p)
  {
    hide Leaves, LeavesF, Entries, Ids, Nodes, NodesF, Plug;
    var f, r := Fuse2(p, i), p.kids[i + 1].id;
    Fuse2Contents(p, i);
    CutOnce(f, c, r);
    PlugKeeps(p, i, 2, [CutSep(f, c)], [CutLeft(f, c), CutRight(f, c, r)]);
    PlugLeaves(p, i, 2, [CutSep(f, c)], [CutLeft(f, c), CutRight(f, c, r)]);
  }

  lemma TwoToThreeKeeps<N>(p: Tree<N>, i: nat, a: nat, b: nat, m: N)
    requires Siblings(p, i, 2) && a < b < |Fuse2(p, i).keys|
    ensures Contents(TwoToThree(p, i, a, b, m)) == Contents(p)
    ensures Nodes(TwoToThree(p, i, a, b, m)) == Nodes(p) + {m}
    ensures p.kids[i].Inner? ==> Ids(Leaves(TwoToThree(p, i, a, b, m))) == Ids(Leaves(p))
    ensures p.kids[i].Leaf? ==>
      var l, r := p.kids[i].id, p.kids[i + 1].id;
      && Ids(Leaves(p)) == IdsBefore(p, i) + [l, r] + IdsFrom(p, i + 2)
      && Ids(Leaves(TwoToThree(p, i, a, b, m))) == IdsBefore(p, i) + [l, m, r] + IdsFrom(p, i + 2)
  {
    hide Leaves, LeavesF, Entries, Ids, Nodes, NodesF, Plug;
    var f, r := Fuse2(p, i), p.kids[i + 1].id;
    var l := CutLeft(f, b);
    var seps, g := [CutSep(l, a), CutSep(f, b)], [CutLeft(l, a), CutRight(l, a, m), CutRight(f, b, r)];
    Fuse2Contents(p, i);
    CutTwice(f, a, b, m, r);
    PlugKeeps(p, i, 2, seps, g);
    PlugLeaves(p, i, 2, seps, g);
  }

  lemma ThreeToTwoKeeps<N>(p: Tree<N>, i: nat, c: nat)
    requires Siblings(p, i, 3) && c < |Fuse3(p, i).keys|
    ensures Contents(ThreeToTwo(p, i, c)) == Contents(p)
    ensures Nodes(ThreeToTwo(p, i, c)) <= Nodes(p)
    ensures p.kids[i].Inner? ==> Ids(Leaves(ThreeToTwo(p, i, c))) == Ids(Leaves(p))
    ensures p.kids[i].Leaf? ==>
      var l, m, r := p.kids[i].id, p.kids[i + 1].id, p.kids[i + 2].id;
      && Ids(Leaves(p)) == IdsBefore(p, i) + [l, m, r] + IdsFrom(p, i + 3)
      && Ids(Leaves(ThreeToTwo(p, i, c))) == IdsBefore(p, i) + [l, m] + IdsFrom(p, i + 3)
  {
    hide Leaves, LeavesF, Entries, Ids, Nodes, NodesF, Plug;
    var f, r := Fuse3(p, i), p.kids[i + 1].id;
    Fuse3Contents(p, i);
    CutOnce(f, c, r);
    PlugKeeps(p, i, 3, [CutSep(f, c)], [CutLeft(f, c), CutRight(f, c, r)]);
    PlugLeaves(p, i, 3, [CutSep(f, c)], [CutLeft(f, c), CutRight(f, c, r)]);
  }

  lemma MergeKeeps<N>(p: Tree<N>, i: nat)
    requires Siblings(p, i, 2)
    ensures Contents(Merge(p, i)) == Contents(p)
    ensures Nodes(Merge(p, i)) <= Nodes(p)
    ensures p.kids[i].Inner? ==> Ids(Leaves(Merge(p, i))) == Ids(Leaves(p))
    ensures p.kids[i].Leaf? ==>
      var l, r := p.kids[i].id, p.kids[i + 1].id;
      && Ids(Leaves(p)) == IdsBefore(p, i) + [l, r] + IdsFrom(p, i + 2)
      && Ids(Leaves(Merge(p, i))) == IdsBefore(p, i) + [l] + IdsFrom(p, i + 2)
  {
    hide Leaves, LeavesF, Entries, Nodes, NodesF, Plug;
    Fuse2Contents(p, i);
    LeavesOf1(Fuse2(p, i));
    if p.kids[i].Leaf? { LeafLeaves(Fuse2(p, i)); }
    PlugKeeps(p, i, 2, [], [Fuse2(p, i)]);
    PlugLeaves(p, i, 2, [], [Fuse2(p, i)]);
  }

  // ---------- no node is used twice ----------

  lemma Fuse2Nodes<N>(p: Tree<N>, i: nat)
    requires Siblings(p, i, 2)
    ensures NodesF(p.kids[i..i + 2]) == Nodes(Fuse2(p, i)) + {p.kids[i + 1].id}
  {
    Fuse2Contents(p, i);
  }

  lemma Fuse3Nodes<N>(p: Tree<N>, i: nat)
    requires Siblings(p, i, 3)
    ensures NodesF(p.kids[i..i + 3]) == Nodes(Fuse3(p, i)) + {p.kids[i + 1].id, p.kids[i + 2].id}
  {
    Fuse3Contents(p, i);
  }

  lemma CutOnceNodes<N>(f: Tree<N>, c: nat, r: N)
    requires Shaped(f) && c < |f.keys|
    ensures NodesF([CutLeft(f, c), CutRight(f, c, r)]) == Nodes(f) + {r}
  {
    CutOnce(f, c, r);
  }

  lemma FuseDistinct<N>(l: Tree<N>, sep: Key, r: Tree<N>)
    requires (l.Leaf? <==> r.Leaf?) && Distinct(l) && Distinct(r) && Nodes(l) !! Nodes(r)
    ensures Distinct(Fuse(l, sep, r)) && r.id !in Nodes(Fuse(l, sep, r))
  {
    if l.Inner? {
      JoinDistinct(l.kids, r.kids);
      NodesFAppend(l.kids, r.kids);
    }
  }

  lemma CutOnceDistinct<N>(f: Tree<N>, c: nat, r: N)
    requires Shaped(f) && c < |f.keys| && Distinct(f) && r !in Nodes(f)
    ensures Distinct(CutLeft(f, c)) && Distinct(CutRight(f, c, r))
    ensures Nodes(CutLeft(f, c)) !! Nodes(CutRight(f, c, r))
  {
    if f.Inner? {
      TreeShape.CutDistinct(f.kids, c + 1);
      NodesFAppend(f.kids[..c + 1], f.kids[c + 1..]);
      assert f.kids == f.kids[..c + 1] + f.kids[c + 1..];
    }
  }

  lemma ChildrenDistinct<N>(p: Tree<N>, i: nat, n: nat)
    requires Siblings(p, i, n) && Distinct(p)
    ensures forall j :: i <= j < i + n ==> Distinct(p.kids[j])
    ensures forall j, k :: i <= j < k < i + n ==> Nodes(p.kids[j]) !! Nodes(p.kids[k])
  {
  }

  lemma RecutDistinct<N>(p: Tree<N>, i: nat, c: nat)
    requires Siblings(p, i, 2) && c < |Fuse2(p, i).keys| && Distinct(p)
    ensures Distinct(Recut(p, i, c))
  {
    hide Nodes, NodesF, Distinct, Plug;
    var f, r := Fuse2(p, i), p.kids[i + 1].id;
    ChildrenDistinct(p, i, 2);
    FuseDistinct(p.kids[i], p.keys[i], p.kids[i + 1]);
    CutOnceDistinct(f, c, r);
    Fuse2Nodes(p, i);
    CutOnceNodes(f, c, r);
    PlugDistinct(p, i, 2, [CutSep(f, c)], [CutLeft(f, c), CutRight(f, c, r)]);
  }

  lemma MergeDistinct<N>(p: Tree<N>, i: nat)
    requires Siblings(p, i, 2) && Distinct(p)
    ensures Distinct(Merge(p, i))
  {
    hide Nodes, NodesF, Distinct, Plug;
    ChildrenDistinct(p, i, 2);
    FuseDistinct(p.kids[i], p.keys[i], p.kids[i + 1]);
    Fuse2Nodes(p, i);
    LeavesOf1(Fuse2(p, i));
    PlugDistinct(p, i, 2, [], [Fuse2(p, i)]);
  }

  lemma Fuse3Distinct<N>(p: Tree<N>, i: nat)
    requires Siblings(p, i, 3) && Distinct(p)
    ensures Distinct(Fuse3(p, i)) && p.kids[i + 1].id !in Nodes(Fuse3(p, i))
  {
    hide Nodes, NodesF, Distinct, Fuse;
    var l, m, r := p.kids[i], p.kids[i + 1], p.kids[i + 2];
    ChildrenDistinct(p, i, 3);
    FuseDistinct(l, p.keys[i], m);
    FuseNodes(l, p.keys[i], m);
    FuseDistinct(Fuse2(p, i), p.keys[i + 1], r);
    FuseNodes(Fuse2(p, i), p.keys[i + 1], r);
    TopNode(m);
  }

  lemma ThreeToTwoDistinct<N>(p: Tree<N>, i: nat, c: nat)
    requires Siblings(p, i, 3) && c < |Fuse3(p, i).keys| && Distinct(p)
    ensures Distinct(ThreeToTwo(p, i, c))
  {
    hide Nodes, NodesF, Distinct, Plug;
    var f, m := Fuse3(p, i), p.kids[i + 1].id;
    Fuse3Distinct(p, i);
    CutOnceDistinct(f, c, m);
    Fuse3Nodes(p, i);
    CutOnceNodes(f, c, m);
    PlugDistinct(p, i, 3, [CutSep(f, c)], [CutLeft(f, c), CutRight(f, c, m)]);
  }

  lemma TopNode<N>(t: Tree<N>)
    ensures t.id in Nodes(t)
  {
  }

  lemma CutTwiceDistinct<N>(f: Tree<N>, a: nat, b: nat, m: N, r: N)
    requires Shaped(f) && a < b < |f.keys| && Distinct(f) && m !in Nodes(f) && r !in Nodes(f) && m != r
    ensures var l := CutLeft(f, b); DistinctF([CutLeft(l, a), CutRight(l, a, m), CutRight(f, b, r)])
  {
    hide Nodes, NodesF, Distinct;
    var l := CutLeft(f, b);
    CutOnceDistinct(f, b, r);
    CutNodes(f, b, r);
    CutNodes(l, a, m);
    CutNodes(f, b, f.id);
    CutOnceDistinct(l, a, m);
  }

  lemma TwoToThreeDistinct<N>(p: Tree<N>, i: nat, a: nat, b: nat, m: N)
    requires Siblings(p, i, 2) && a < b < |Fuse2(p, i).keys| && Distinct(p) && m !in Nodes(p)
    ensures Distinct(TwoToThree(p, i, a, b, m))
  {
    hide Nodes, NodesF, Distinct, Plug;
    var f, r := Fuse2(p, i), p.kids[i + 1].id;
    var l := CutLeft(f, b);
    ChildrenDistinct(p, i, 2);
    ChildNodes(p, i, 2);
    FuseDistinct(p.kids[i], p.keys[i], p.kids[i + 1]);
    Fuse2Contents(p, i);
    TopNode(p.kids[i + 1]);
    CutTwiceDistinct(f, a, b, m, r);
    CutTwice(f, a, b, m, r);
    PlugDistinct(p, i, 2, [CutSep(l, a), CutSep(f, b)], [CutLeft(l, a), CutRight(l, a, m), CutRight(f, b, r)]);
  }

  lemma ChildNodes<N>(p: Tree<N>, i: nat, n: nat)
    requires Pluggable(p, i, n)
    ensures NodesF(p.kids[i..i + n]) <= Nodes(p)
  {
    assert p.kids == p.kids[..i] + p.kids[i..i + n] + p.kids[i + n..];
    NodesFAppend(p.kids[..i] + p.kids[i..i + n], p.kids[i + n..]);
    NodesFAppend(p.kids[..i], p.kids[i..i + n]);
  }
}
