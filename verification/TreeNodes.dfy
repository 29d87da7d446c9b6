/** The nodes of the index as heap objects, and what it means for them to spell out a tree value. */
module TreeNodes {
  import opened Keys
  import opened TreeShape
  import opened TreeRepairs

  class Node {
    const isLeaf: bool
    var keys: seq<Key>
    var values: seq<Rows>
    var children: seq<Node>
    var nextLeaf: Node?
    var prevLeaf: Node?

    constructor (leaf: bool)
      ensures isLeaf == leaf && keys == [] && values == [] && children == []
      ensures nextLeaf == null && prevLeaf == null
    {
      isLeaf := leaf;
      keys, values, children := [], [], [];
      nextLeaf, prevLeaf := null, null;
    }
  }

  /** The node at the top of `t` has the fields that `t` says. */
  ghost predicate HoldsTop(t: Tree<Node>)
    reads t.id`keys, t.id`values, t.id`children
  {
    && t.id.isLeaf == t.Leaf? && t.id.keys == t.keys
    && (t.Leaf? ==> t.id.values == t.vals)
    && (t.Inner? ==> t.id.children == Ids(t.kids))
  }

  /** Every node of `t` has the fields that `t` says. */
  ghost predicate Holds(t: Tree<Node>)
    reads Nodes(t)`keys, Nodes(t)`values, Nodes(t)`children
  {
    HoldsTop(t) && (t.Inner? ==> HoldsAll(t.kids))
  }

  ghost predicate HoldsAll(kids: seq<Tree<Node>>)
    reads NodesF(kids)`keys, NodesF(kids)`values, NodesF(kids)`children
  {
    NodesFAll(kids);
    forall i :: 0 <= i < |kids| ==> Holds(kids[i])
  }

  ghost function Elems(c: seq<Node>): set<Node> {
    set n | n in c
  }

  lemma AllAllocated(c: seq<Node>)
    ensures allocated(Elems(c))
  {
  }

  /** The nodes of `c` are a doubly linked list, in this order. */
  ghost predicate Linked(c: seq<Node>)
    reads Elems(c)`nextLeaf, Elems(c)`prevLeaf
  {
    && (forall i, j :: 0 <= i < j < |c| ==> c[i] != c[j])
    && (forall i, j :: 0 <= i && i + 1 == j < |c| ==> c[i].nextLeaf == c[j] && c[j].prevLeaf == c[i])
    && (c != [] ==> c[0].prevLeaf == null && c[|c| - 1].nextLeaf == null)
  }

  /** What a repair may rely on before it edits the `n` children of `p` from the `i`-th on. */
  lemma LookAt(p: Tree<Node>, i: nat, n: nat)
    requires Siblings(p, i, n) && Holds(p) && Distinct(p)
    ensures p.id in Nodes(p) && !p.id.isLeaf && p.id.keys == p.keys
    ensures |p.id.children| == |p.kids| && p.id.children == Ids(p.kids)
    ensures forall j :: i <= j < i + n ==> p.id.children[j] == p.kids[j].id
    ensures forall j :: i <= j < i + n ==> HoldsTop(p.kids[j]) && p.kids[j].id in Nodes(p) && p.kids[j].id != p.id
    ensures forall j, k :: i <= j < k < i + n ==> p.kids[j].id != p.kids[k].id
  {
    NodesFAll(p.kids);
    forall j | i <= j < i + n
      ensures HoldsTop(p.kids[j]) && p.kids[j].id in Nodes(p) && p.kids[j].id != p.id
    {
      assert Holds(p.kids[j]);
      TopNode(p.kids[j]);
    }
    forall j, k | i <= j < k < i + n ensures p.kids[j].id != p.kids[k].id {
      TopNode(p.kids[j]);
      TopNode(p.kids[k]);
    }
  }

  /** Leaves are nodes. */
  lemma {:induction false} LeavesAreNodes<N>(t: Tree<N>)
    ensures forall n :: n in Ids(Leaves(t)) ==> n in Nodes(t)
    decreases t, 0
  {
    if t.Inner? { ForestLeavesAreNodes(t.kids); }
  }

  lemma {:induction false} ForestLeavesAreNodes<N>(kids: seq<Tree<N>>)
    ensures forall n :: n in Ids(LeavesF(kids)) ==> n in NodesF(kids)
    decreases kids, 1
  {
    if kids != [] {
      LeavesAreNodes(kids[0]);
      ForestLeavesAreNodes(kids[1..]);
      IdsSlices(Leaves(kids[0]), LeavesF(kids[1..]));
    }
  }

  lemma LookAtTop(p: Tree<Node>)
    requires p.Inner? && Holds(p)
    ensures !p.id.isLeaf && p.id.keys == p.keys && |p.id.children| == |p.kids|
  {
  }

  lemma SomeSiblings<N>(p: Tree<N>, i: nat, n: nat)
    requires p.Inner? && p.kids != [] && Siblings(p, 0, |p.kids|) && n > 0 && i + n <= |p.kids|
    ensures Siblings(p, i, n)
  {
  }

  /** The grandchildren that the `n` children of `p` from the `i`-th on share out among themselves. */
  ghost function Pool<N>(p: Tree<N>, i: nat, n: nat): seq<Tree<N>>
    requires Pluggable(p, i, n)
    decreases n
  {
    var first := if p.kids[i].Inner? then p.kids[i].kids else [];
    if n == 1 then first else first + Pool(p, i + 1, n - 1)
  }

  lemma {:induction false} PoolHolds(p: Tree<Node>, i: nat, n: nat)
    requires Pluggable(p, i, n) && Holds(p)
    ensures HoldsAll(Pool(p, i, n))
    decreases n
  {
    NodesFAll(p.kids);
    assert Holds(p.kids[i]);
    if n > 1 {
      PoolHolds(p, i + 1, n - 1);
      HoldsAppend(if p.kids[i].Inner? then p.kids[i].kids else [], Pool(p, i + 1, n - 1));
    }
  }

  lemma {:induction false} PoolNodes<N>(p: Tree<N>, i: nat, n: nat)
    requires Pluggable(p, i, n) && Distinct(p)
    ensures NodesF(Pool(p, i, n)) <= NodesF(p.kids)
    ensures forall j :: 0 <= j < |p.kids| ==> p.kids[j].id !in NodesF(Pool(p, i, n))
    decreases n
  {
    PoolChild(p, i);
    if n > 1 {
      PoolNodes(p, i + 1, n - 1);
      NodesFAppend(if p.kids[i].Inner? then p.kids[i].kids else [], Pool(p, i + 1, n - 1));
    }
  }

  lemma HoldsAppend(a: seq<Tree<Node>>, b: seq<Tree<Node>>)
    requires HoldsAll(a) && HoldsAll(b)
    ensures HoldsAll(a + b)
  {
  }

  lemma PoolChild<N>(p: Tree<N>, i: nat)
    requires Pluggable(p, i, 1) && Distinct(p)
    ensures var first := if p.kids[i].Inner? then p.kids[i].kids else [];
      NodesF(first) <= NodesF(p.kids) && forall j :: 0 <= j < |p.kids| ==> p.kids[j].id !in NodesF(first)
  {
    NodesFAll(p.kids);
    forall j | 0 <= j < |p.kids| && p.kids[i].Inner? ensures p.kids[j].id !in NodesF(p.kids[i].kids) {
      TopNode(p.kids[j]);
      assert Distinct(p.kids[i]);
    }
  }

  /** The nodes that a repair of the children `i` .. `i + n` of `p` leaves alone. */
  ghost function Rest<N>(p: Tree<N>, i: nat, n: nat): set<N>
    requires Pluggable(p, i, n)
  {
    NodesF(p.kids[..i]) + NodesF(p.kids[i + n..]) + NodesF(Pool(p, i, n))
  }

  /** What those nodes hold. */
  ghost predicate Ready(p: Tree<Node>, i: nat, n: nat)
    requires Pluggable(p, i, n)
    reads Rest(p, i, n)`keys, Rest(p, i, n)`values, Rest(p, i, n)`children
  {
    HoldsAll(p.kids[..i]) && HoldsAll(p.kids[i + n..]) && HoldsAll(Pool(p, i, n))
  }

  lemma GetReady(p: Tree<Node>, i: nat, n: nat)
    requires Pluggable(p, i, n) && Holds(p) && Distinct(p)
    ensures Ready(p, i, n) && allocated(Rest(p, i, n))
    ensures p.id !in Rest(p, i, n)
    ensures forall j :: i <= j < i + n ==> p.kids[j].id !in Rest(p, i, n)
  {
    hide Pool;
    PoolHolds(p, i, n);
    assert p.kids == p.kids[..i] + p.kids[i..i + n] + p.kids[i + n..];
    NodesFAppend(p.kids[..i] + p.kids[i..i + n], p.kids[i + n..]);
    NodesFAppend(p.kids[..i], p.kids[i..i + n]);
    PoolNodes(p, i, n);
    SplitDistinct(p.kids, i, n);
    NodesFAll(p.kids[i..i + n]);
    forall j | i <= j < i + n
      ensures p.kids[j].id !in NodesF(p.kids[..i]) && p.kids[j].id !in NodesF(p.kids[i + n..])
    {
      TopNode(p.kids[j]);
      assert p.kids[j] == p.kids[i..i + n][j - i];
    }
  }

  /** A tree whose top and whose children hold. */
  lemma Assembled(p: Tree<Node>, i: nat, n: nat, seps: seq<Key>, group: seq<Tree<Node>>)
    requires Pluggable(p, i, n) && |group| == |seps| + 1
    requires HoldsAll(p.kids[..i]) && HoldsAll(group) && HoldsAll(p.kids[i + n..])
    requires HoldsTop(Plug(p, i, n, seps, group))
    ensures Holds(Plug(p, i, n, seps, group))
  {
    var p' := Plug(p, i, n, seps, group);
    forall j | 0 <= j < |p'.kids| ensures Holds(p'.kids[j]) {
      if j < i {
        assert p'.kids[j] == p.kids[..i][j];
      } else if j < i + |group| {
        assert p'.kids[j] == group[j - i];
      } else {
        assert p'.kids[j] == p.kids[i + n..][j - i - |group|];
      }
    }
  }

  /** After a repair: the edited tops and the untouched rest add up to the repaired tree. */
  lemma Repaired(p: Tree<Node>, i: nat, n: nat, seps: seq<Key>, group: seq<Tree<Node>>)
    requires Pluggable(p, i, n) && |group| == |seps| + 1
    requires Ready(p, i, n)
    requires HoldsTop(Plug(p, i, n, seps, group))
    requires forall j :: 0 <= j < |group| ==> HoldsTop(group[j])
    requires forall j :: 0 <= j < |group| ==> group[j].Inner? ==> AllIn(group[j].kids, Pool(p, i, n))
    ensures Holds(Plug(p, i, n, seps, group))
  {
    hide Pool;
    forall j | 0 <= j < |group| ensures Holds(group[j]) {
      GroupHolds(p, i, n, group[j]);
    }
    Assembled(p, i, n, seps, group);
  }

  /** The `i`-th child of `p` on its own, and everything else. */
  lemma SetApart(p: Tree<Node>, i: nat)
    requires Pluggable(p, i, 1) && Holds(p) && Distinct(p)
    ensures HoldsTop(p) && Holds(p.kids[i]) && Distinct(p.kids[i])
    ensures HoldsAll(p.kids[..i]) && HoldsAll(p.kids[i + 1..])
    ensures allocated(Nodes(p)) && allocated(NodesF(p.kids[..i])) && allocated(NodesF(p.kids[i + 1..]))
    ensures p.id in Nodes(p) && Nodes(p.kids[i]) <= Nodes(p) && p.id !in Nodes(p.kids[i])
    ensures p.id !in NodesF(p.kids[..i]) && p.id !in NodesF(p.kids[i + 1..])
    ensures NodesF(p.kids[..i]) <= Nodes(p) && NodesF(p.kids[i + 1..]) <= Nodes(p)
    ensures NodesF(p.kids[..i]) !! Nodes(p.kids[i]) && NodesF(p.kids[i + 1..]) !! Nodes(p.kids[i])
  {
    hide Holds, Nodes, NodesF, Distinct, DistinctF;
    NodesApart(p, i);
    HoldsApart(p, i);
  }

  lemma HoldsApart(p: Tree<Node>, i: nat)
    requires Pluggable(p, i, 1) && Holds(p)
    ensures HoldsTop(p) && Holds(p.kids[i])
    ensures HoldsAll(p.kids[..i]) && HoldsAll(p.kids[i + 1..])
  {
    hide HoldsTop, Nodes, NodesF;
    assert HoldsAll(p.kids);
  }

  lemma NodesApart<N>(p: Tree<N>, i: nat)
    requires Pluggable(p, i, 1) && Distinct(p)
    ensures Distinct(p.kids[i])
    ensures p.id in Nodes(p) && Nodes(p.kids[i]) <= Nodes(p) && p.id !in Nodes(p.kids[i])
    ensures p.id !in NodesF(p.kids[..i]) && p.id !in NodesF(p.kids[i + 1..])
    ensures NodesF(p.kids[..i]) <= Nodes(p) && NodesF(p.kids[i + 1..]) <= Nodes(p)
    ensures NodesF(p.kids[..i]) !! Nodes(p.kids[i]) && NodesF(p.kids[i + 1..]) !! Nodes(p.kids[i])
  {
    hide Nodes, NodesF, Distinct, DistinctF;
    var kid := p.kids[i];
    TopOfDistinct(p);
    assert p.kids[i..i + 1] == [kid];
    LeavesOf1(kid);
    SplitDistinct(p.kids, i, 1);
    KidDistinct(p.kids, i);
    assert p.kids == p.kids[..i] + [kid] + p.kids[i + 1..];
    NodesFAppend(p.kids[..i] + [kid], p.kids[i + 1..]);
    NodesFAppend(p.kids[..i], [kid]);
  }

  lemma TopOfDistinct<N>(p: Tree<N>)
    requires p.Inner? && Distinct(p)
    ensures Nodes(p) == {p.id} + NodesF(p.kids) && p.id !in NodesF(p.kids) && DistinctF(p.kids)
  {
  }

  lemma KidDistinct<N>(kids: seq<Tree<N>>, i: nat)
    requires DistinctF(kids) && i < |kids|
    ensures Distinct(kids[i])
  {
  }

  lemma GroupHolds(p: Tree<Node>, i: nat, n: nat, g: Tree<Node>)
    requires Pluggable(p, i, n) && Ready(p, i, n)
    requires HoldsTop(g) && (g.Inner? ==> AllIn(g.kids, Pool(p, i, n)))
    ensures Holds(g)
  {
    if g.Inner? {
      forall j | 0 <= j < |g.kids| ensures Holds(g.kids[j]) {
        assert g.kids[j] in Pool(p, i, n);
      }
    }
  }

  ghost predicate AllIn<N>(kids: seq<Tree<N>>, pool: seq<Tree<N>>) {
    forall j :: 0 <= j < |kids| ==> kids[j] in pool
  }

  lemma Pool2<N>(p: Tree<N>, i: nat)
    requires Siblings(p, i, 2)
    ensures Pool(p, i, 2) == if p.kids[i].Inner? then Fuse2(p, i).kids else []
  {
    assert Pool(p, i + 1, 1) == if p.kids[i].Inner? then p.kids[i + 1].kids else [];
  }

  lemma Pool3<N>(p: Tree<N>, i: nat)
    requires Siblings(p, i, 3)
    ensures Pool(p, i, 3) == if p.kids[i].Inner? then Fuse3(p, i).kids else []
  {
    assert Pool(p, i + 2, 1) == if p.kids[i].Inner? then p.kids[i + 2].kids else [];
    assert Pool(p, i + 1, 2) == if p.kids[i].Inner? then p.kids[i + 1].kids + p.kids[i + 2].kids else [];
    if p.kids[i].Inner? {
      Associative(p.kids[i].kids, p.kids[i + 1].kids, p.kids[i + 2].kids);
    }
  }

  lemma IdsSlices<N>(a: seq<Tree<N>>, b: seq<Tree<N>>)
    ensures Ids(a + b) == Ids(a) + Ids(b)
    ensures forall c :: 0 <= c <= |a| ==> Ids(a[..c]) == Ids(a)[..c] && Ids(a[c..]) == Ids(a)[c..]
  {
  }

  // ---------- reading a repair off the edited fields ----------

  lemma RecutHolds(p: Tree<Node>, i: nat, c: nat)
    requires Siblings(p, i, 2) && c < |Fuse2(p, i).keys|
    requires Ready(p, i, 2)
    requires HoldsTop(CutLeft(Fuse2(p, i), c)) && HoldsTop(CutRight(Fuse2(p, i), c, p.kids[i + 1].id))
    requires !p.id.isLeaf && p.id.keys == p.keys[i := CutSep(Fuse2(p, i), c)] && p.id.children == Ids(p.kids)
    ensures Holds(Recut(p, i, c))
  {
    hide Ready, Holds, HoldsAll, Pool;
    var f := Fuse2(p, i);
    var g := [CutLeft(f, c), CutRight(f, c, p.kids[i + 1].id)];
    Pool2(p, i);
    if f.Inner? {
      assert AllIn(g[0].kids, f.kids) && AllIn(g[1].kids, f.kids);
    }
    var p' := Recut(p, i, c);
    assert p'.keys == p.id.keys;
    assert Ids(p'.kids) == Ids(p.kids);
    Repaired(p, i, 2, [CutSep(f, c)], g);
  }

  lemma CutsFromPool<N>(f: Tree<N>, a: nat, b: nat, m: N, r: N)
    requires Shaped(f) && a < b < |f.keys| && f.Inner?
    ensures AllIn(CutLeft(CutLeft(f, b), a).kids, f.kids)
    ensures AllIn(CutRight(CutLeft(f, b), a, m).kids, f.kids)
    ensures AllIn(CutRight(f, b, r).kids, f.kids)
  {
  }

  lemma TwoToThreeTop(p: Tree<Node>, i: nat, a: nat, b: nat, m: Node)
    requires Siblings(p, i, 2) && a < b < |Fuse2(p, i).keys|
    ensures var p', f := TwoToThree(p, i, a, b, m), Fuse2(p, i);
      && p'.keys == p.keys[..i] + [f.keys[a], f.keys[b]] + p.keys[i + 1..]
      && Ids(p'.kids) == Ids(p.kids)[..i + 1] + [m] + Ids(p.kids)[i + 1..]
  {
    var p', f := TwoToThree(p, i, a, b, m), Fuse2(p, i);
    assert p'.keys == p.keys[..i] + [f.keys[a], f.keys[b]] + p.keys[i + 1..];
    assert p'.kids[i].id == p.kids[i].id && p'.kids[i + 1].id == m && p'.kids[i + 2].id == p.kids[i + 1].id by {
      FusedTop(p, i);
    }
    assert Ids(p'.kids) == Ids(p.kids)[..i + 1] + [m] + Ids(p.kids)[i + 1..];
  }

  lemma TwoToThreeHolds(p: Tree<Node>, i: nat, a: nat, b: nat, m: Node)
    requires Siblings(p, i, 2) && a < b < |Fuse2(p, i).keys|
    requires Ready(p, i, 2)
    requires var f := Fuse2(p, i); var l := CutLeft(f, b);
      && HoldsTop(CutLeft(l, a)) && HoldsTop(CutRight(l, a, m)) && HoldsTop(CutRight(f, b, p.kids[i + 1].id))
      && p.id.keys == p.keys[..i] + [f.keys[a], f.keys[b]] + p.keys[i + 1..]
    requires !p.id.isLeaf && p.id.children == Ids(p.kids)[..i + 1] + [m] + Ids(p.kids)[i + 1..]
    ensures Holds(TwoToThree(p, i, a, b, m))
  {
    hide Ready, Holds, HoldsAll, Pool;
    var f := Fuse2(p, i);
    var l := CutLeft(f, b);
    var g := [CutLeft(l, a), CutRight(l, a, m), CutRight(f, b, p.kids[i + 1].id)];
    Pool2(p, i);
    if f.Inner? { CutsFromPool(f, a, b, m, p.kids[i + 1].id); }
    TwoToThreeTop(p, i, a, b, m);
    Repaired(p, i, 2, [CutSep(l, a), CutSep(f, b)], g);
  }

  lemma ThreeToTwoHolds(p: Tree<Node>, i: nat, c: nat)
    requires Siblings(p, i, 3) && c < |Fuse3(p, i).keys|
    requires Ready(p, i, 3)
    requires HoldsTop(CutLeft(Fuse3(p, i), c)) && HoldsTop(CutRight(Fuse3(p, i), c, p.kids[i + 1].id))
    requires p.id.keys == p.keys[..i] + [Fuse3(p, i).keys[c]] + p.keys[i + 2..]
    requires !p.id.isLeaf && p.id.children == Ids(p.kids)[..i + 2] + Ids(p.kids)[i + 3..]
    ensures Holds(ThreeToTwo(p, i, c))
  {
    hide Ready, Holds, HoldsAll, Pool;
    var f := Fuse3(p, i);
    var g := [CutLeft(f, c), CutRight(f, c, p.kids[i + 1].id)];
    Pool3(p, i);
    if f.Inner? {
      assert AllIn(g[0].kids, f.kids) && AllIn(g[1].kids, f.kids);
    }
    var p' := ThreeToTwo(p, i, c);
    assert p'.keys == p.id.keys;
    assert Ids(p'.kids) == p.id.children;
    Repaired(p, i, 3, [CutSep(f, c)], g);
  }

  lemma MergeHolds(p: Tree<Node>, i: nat)
    requires Siblings(p, i, 2) && Ready(p, i, 2) && HoldsTop(Fuse2(p, i))
    requires p.id.keys == p.keys[..i] + p.keys[i + 1..]
    requires !p.id.isLeaf && p.id.children == Ids(p.kids)[..i + 1] + Ids(p.kids)[i + 2..]
    ensures Holds(Merge(p, i))
  {
    hide Ready, Holds, HoldsAll, Pool, Fuse;
    var f := Fuse2(p, i);
    Pool2(p, i);
    assert f.id == p.kids[i].id by { FusedTop(p, i); }
    if f.Inner? {
      assert AllIn(f.kids, f.kids);
    }
    var p' := Merge(p, i);
    assert p'.keys == p.id.keys;
    assert Ids(p'.kids) == p.id.children;
    Repaired(p, i, 2, [], [f]);
  }

  lemma FusedTop<N>(p: Tree<N>, i: nat)
    requires Siblings(p, i, 2)
    ensures Fuse2(p, i).id == p.kids[i].id
  {
  }

  lemma EntryShiftedLeft(p: Tree<Node>, i: nat)
    requires Siblings(p, i, 2) && p.kids[i].Leaf? && |p.kids[i + 1].keys| >= 2 && Ready(p, i, 2)
    requires var l, r := p.kids[i], p.kids[i + 1];
      && l.id.isLeaf && l.id.keys == l.keys + [r.keys[0]] && l.id.values == l.vals + [r.vals[0]]
      && r.id.isLeaf && r.id.keys == r.keys[1..] && r.id.values == r.vals[1..]
      && !p.id.isLeaf && p.id.keys == p.keys[i := r.keys[1]] && p.id.children == Ids(p.kids)
    ensures Holds(Recut(p, i, |p.kids[i].keys| + 1))
  {
    hide Ready, Holds, Recut;
    var f, c, l, r := Fuse2(p, i), |p.kids[i].keys| + 1, p.kids[i], p.kids[i + 1];
    assert CutLeft(f, c) == Leaf(l.id, l.keys + [r.keys[0]], l.vals + [r.vals[0]]);
    assert CutRight(f, c, r.id) == Leaf(r.id, r.keys[1..], r.vals[1..]);
    RecutHolds(p, i, c);
  }

  lemma EntryShiftedRight(p: Tree<Node>, i: nat)
    requires Siblings(p, i, 2) && p.kids[i].Leaf? && |p.kids[i].keys| >= 1 && Ready(p, i, 2)
    requires var l, r, n := p.kids[i], p.kids[i + 1], |p.kids[i].keys| - 1;
      && l.id.isLeaf && l.id.keys == l.keys[..n] && l.id.values == l.vals[..n]
      && r.id.isLeaf && r.id.keys == [l.keys[n]] + r.keys && r.id.values == [l.vals[n]] + r.vals
      && !p.id.isLeaf && p.id.keys == p.keys[i := l.keys[n]] && p.id.children == Ids(p.kids)
    ensures Holds(Recut(p, i, |p.kids[i].keys| - 1))
  {
    hide Ready, Holds, Recut;
    var f, c, l, r := Fuse2(p, i), |p.kids[i].keys| - 1, p.kids[i], p.kids[i + 1];
    assert CutLeft(f, c) == Leaf(l.id, l.keys[..c], l.vals[..c]);
    assert CutRight(f, c, r.id) == Leaf(r.id, [l.keys[c]] + r.keys, [l.vals[c]] + r.vals);
    RecutHolds(p, i, c);
  }

  lemma ChildShiftedLeft(p: Tree<Node>, i: nat)
    requires Siblings(p, i, 2) && p.kids[i].Inner? && |p.kids[i + 1].keys| >= 1 && Ready(p, i, 2)
    requires var l, r := p.kids[i], p.kids[i + 1];
      && !l.id.isLeaf && l.id.keys == l.keys + [p.keys[i]] && l.id.children == Ids(l.kids) + [Ids(r.kids)[0]]
      && !r.id.isLeaf && r.id.keys == r.keys[1..] && r.id.children == Ids(r.kids)[1..]
      && !p.id.isLeaf && p.id.keys == p.keys[i := r.keys[0]] && p.id.children == Ids(p.kids)
    ensures Holds(Recut(p, i, |p.kids[i].keys| + 1))
  {
    hide Ready, Holds, Recut;
    var f, c, l, r := Fuse2(p, i), |p.kids[i].keys| + 1, p.kids[i], p.kids[i + 1];
    assert CutLeft(f, c) == Inner(l.id, l.keys + [p.keys[i]], l.kids + [r.kids[0]]);
    assert CutRight(f, c, r.id) == Inner(r.id, r.keys[1..], r.kids[1..]);
    assert Ids(l.kids + [r.kids[0]]) == Ids(l.kids) + [Ids(r.kids)[0]];
    assert Ids(r.kids[1..]) == Ids(r.kids)[1..];
    RecutHolds(p, i, c);
  }

  lemma ChildShiftedRight(p: Tree<Node>, i: nat)
    requires Siblings(p, i, 2) && p.kids[i].Inner? && |p.kids[i].keys| >= 1 && Ready(p, i, 2)
    requires var l, r, n := p.kids[i], p.kids[i + 1], |p.kids[i].keys| - 1;
      && !l.id.isLeaf && l.id.keys == l.keys[..n] && l.id.children == Ids(l.kids)[..n + 1]
      && !r.id.isLeaf && r.id.keys == [p.keys[i]] + r.keys && r.id.children == [Ids(l.kids)[n + 1]] + Ids(r.kids)
      && !p.id.isLeaf && p.id.keys == p.keys[i := l.keys[n]] && p.id.children == Ids(p.kids)
    ensures Holds(Recut(p, i, |p.kids[i].keys| - 1))
  {
    hide Ready, Holds, Recut;
    var f, c, l, r := Fuse2(p, i), |p.kids[i].keys| - 1, p.kids[i], p.kids[i + 1];
    assert CutLeft(f, c) == Inner(l.id, l.keys[..c], l.kids[..c + 1]);
    assert CutRight(f, c, r.id) == Inner(r.id, [p.keys[i]] + r.keys, [l.kids[c + 1]] + r.kids);
    assert Ids(l.kids[..c + 1]) == Ids(l.kids)[..c + 1];
    assert Ids([l.kids[c + 1]] + r.kids) == [Ids(l.kids)[c + 1]] + Ids(r.kids);
    RecutHolds(p, i, c);
  }

  lemma LeavesSpread(p: Tree<Node>, i: nat, a: nat, b: nat, m: Node)
    requires Siblings(p, i, 2) && p.kids[i].Leaf? && a < b < |Fuse2(p, i).keys| && Ready(p, i, 2)
    requires var l, r := p.kids[i], p.kids[i + 1]; var ks, vs := l.keys + r.keys, l.vals + r.vals;
      && l.id.isLeaf && l.id.keys == ks[..a] && l.id.values == vs[..a]
      && m.isLeaf && m.keys == ks[a..b] && m.values == vs[a..b]
      && r.id.isLeaf && r.id.keys == ks[b..] && r.id.values == vs[b..]
      && !p.id.isLeaf && p.id.keys == p.keys[..i] + [ks[a], ks[b]] + p.keys[i + 1..]
    requires p.id.children == Ids(p.kids)[..i + 1] + [m] + Ids(p.kids)[i + 1..]
    ensures Holds(TwoToThree(p, i, a, b, m))
  {
    hide Ready, Holds, TwoToThree;
    var f, l, r := Fuse2(p, i), p.kids[i], p.kids[i + 1];
    var h := CutLeft(f, b);
    assert CutLeft(h, a) == Leaf(l.id, f.keys[..a], f.vals[..a]);
    assert CutRight(h, a, m) == Leaf(m, f.keys[a..b], f.vals[a..b]);
    assert CutRight(f, b, r.id) == Leaf(r.id, f.keys[b..], f.vals[b..]);
    TwoToThreeHolds(p, i, a, b, m);
  }

  lemma InternalsSpread(p: Tree<Node>, i: nat, a: nat, b: nat, m: Node)
    requires Siblings(p, i, 2) && p.kids[i].Inner? && a < b < |Fuse2(p, i).keys| && Ready(p, i, 2)
    requires var l, r := p.kids[i], p.kids[i + 1];
             var ks, cs := l.keys + [p.keys[i]] + r.keys, Ids(l.kids) + Ids(r.kids);
      && !l.id.isLeaf && l.id.keys == ks[..a] && l.id.children == cs[..a + 1]
      && !m.isLeaf && m.keys == ks[a + 1..b] && m.children == cs[a + 1..b + 1]
      && !r.id.isLeaf && r.id.keys == ks[b + 1..] && r.id.children == cs[b + 1..]
      && !p.id.isLeaf && p.id.keys == p.keys[..i] + [ks[a], ks[b]] + p.keys[i + 1..]
    requires p.id.children == Ids(p.kids)[..i + 1] + [m] + Ids(p.kids)[i + 1..]
    ensures Holds(TwoToThree(p, i, a, b, m))
  {
    hide Ready, Holds, TwoToThree;
    var f, l, r := Fuse2(p, i), p.kids[i], p.kids[i + 1];
    var h := CutLeft(f, b);
    assert Ids(f.kids) == Ids(l.kids) + Ids(r.kids);
    assert CutLeft(h, a) == Inner(l.id, f.keys[..a], f.kids[..a + 1]);
    assert CutRight(h, a, m) == Inner(m, f.keys[a + 1..b], f.kids[a + 1..b + 1]);
    assert CutRight(f, b, r.id) == Inner(r.id, f.keys[b + 1..], f.kids[b + 1..]);
    assert Ids(f.kids[..a + 1]) == Ids(f.kids)[..a + 1];
    assert Ids(f.kids[a + 1..b + 1]) == Ids(f.kids)[a + 1..b + 1];
    assert Ids(f.kids[b + 1..]) == Ids(f.kids)[b + 1..];
    TwoToThreeHolds(p, i, a, b, m);
  }

  lemma LeavesGathered(p: Tree<Node>, i: nat, c: nat)
    requires Siblings(p, i, 3) && p.kids[i].Leaf? && c < |Fuse3(p, i).keys| && Ready(p, i, 3)
    requires var l, m, r := p.kids[i], p.kids[i + 1], p.kids[i + 2];
             var ks, vs := l.keys + m.keys + r.keys, l.vals + m.vals + r.vals;
      && l.id.isLeaf && l.id.keys == ks[..c] && l.id.values == vs[..c]
      && m.id.isLeaf && m.id.keys == ks[c..] && m.id.values == vs[c..]
      && !p.id.isLeaf && p.id.keys == p.keys[..i] + [ks[c]] + p.keys[i + 2..]
    requires p.id.children == Ids(p.kids)[..i + 2] + Ids(p.kids)[i + 3..]
    ensures Holds(ThreeToTwo(p, i, c))
  {
    hide Ready, Holds, ThreeToTwo;
    var f, l, m := Fuse3(p, i), p.kids[i], p.kids[i + 1];
    assert CutLeft(f, c) == Leaf(l.id, f.keys[..c], f.vals[..c]);
    assert CutRight(f, c, m.id) == Leaf(m.id, f.keys[c..], f.vals[c..]);
    ThreeToTwoHolds(p, i, c);
  }

  lemma InternalsGathered(p: Tree<Node>, i: nat, c: nat)
    requires Siblings(p, i, 3) && p.kids[i].Inner? && c < |Fuse3(p, i).keys| && Ready(p, i, 3)
    requires var l, m, r := p.kids[i], p.kids[i + 1], p.kids[i + 2];
             var ks := l.keys + [p.keys[i]] + m.keys + [p.keys[i + 1]] + r.keys;
             var cs := Ids(l.kids) + Ids(m.kids) + Ids(r.kids);
      && !l.id.isLeaf && l.id.keys == ks[..c] && l.id.children == cs[..c + 1]
      && !m.id.isLeaf && m.id.keys == ks[c + 1..] && m.id.children == cs[c + 1..]
      && !p.id.isLeaf && p.id.keys == p.keys[..i] + [ks[c]] + p.keys[i + 2..]
    requires p.id.children == Ids(p.kids)[..i + 2] + Ids(p.kids)[i + 3..]
    ensures Holds(ThreeToTwo(p, i, c))
  {
    hide Ready, Holds, ThreeToTwo;
    var f, l, m, r := Fuse3(p, i), p.kids[i], p.kids[i + 1], p.kids[i + 2];
    assert Ids(f.kids) == Ids(l.kids) + Ids(m.kids) + Ids(r.kids);
    assert CutLeft(f, c) == Inner(l.id, f.keys[..c], f.kids[..c + 1]);
    assert CutRight(f, c, m.id) == Inner(m.id, f.keys[c + 1..], f.kids[c + 1..]);
    assert Ids(f.kids[..c + 1]) == Ids(f.kids)[..c + 1];
    assert Ids(f.kids[c + 1..]) == Ids(f.kids)[c + 1..];
    ThreeToTwoHolds(p, i, c);
  }

  lemma LeafAbsorbed(p: Tree<Node>, i: nat)
    requires Siblings(p, i, 2) && p.kids[i].Leaf? && Ready(p, i, 2)
    requires var l, r := p.kids[i], p.kids[i + 1];
      l.id.isLeaf && l.id.keys == l.keys + r.keys && l.id.values == l.vals + r.vals
    requires !p.id.isLeaf && p.id.keys == p.keys[..i] + p.keys[i + 1..]
    requires p.id.children == Ids(p.kids)[..i + 1] + Ids(p.kids)[i + 2..]
    ensures Holds(Merge(p, i))
  {
    hide Ready, Holds, Merge;
    MergeHolds(p, i);
  }

  lemma InternalAbsorbed(p: Tree<Node>, i: nat)
    requires Siblings(p, i, 2) && p.kids[i].Inner? && Ready(p, i, 2)
    requires var l, r := p.kids[i], p.kids[i + 1];
      !l.id.isLeaf && l.id.keys == l.keys + [p.keys[i]] + r.keys && l.id.children == Ids(l.kids) + Ids(r.kids)
    requires !p.id.isLeaf && p.id.keys == p.keys[..i] + p.keys[i + 1..]
    requires p.id.children == Ids(p.kids)[..i + 1] + Ids(p.kids)[i + 2..]
    ensures Holds(Merge(p, i))
  {
    hide Ready, Holds, Merge;
    var l, r := p.kids[i], p.kids[i + 1];
    assert Ids(l.kids + r.kids) == Ids(l.kids) + Ids(r.kids);
    MergeHolds(p, i);
  }
}
