/** The self-check of the tree.  It never compares a separator with the bounds its node inherits, and it looks at each
    leaf only next to the leaf visited before it; this is still enough to decide the invariant. */
module TreeValidation {
  import opened Wrappers
  import opened Keys
  import opened TreeShape
  import opened TreeRepairs
  import opened TreeNodes
  import opened TreeSiblings
  import opened TreeContents
  import opened TreeInsertion
  import opened TreeLookup

  /** What the check demands of the values in a subtree at depth `current`, leaves being expected at depth
      `expected`. */
  ghost predicate Passes<N>(t: Tree<N>, current: nat, expected: nat, lo: real, hi: real, M: nat)
    decreases t
  {
    && |t.keys| <= M && Ascends(t.keys) && (current < 2 || MinKeys(M) <= |t.keys|)
    && match t
       case Leaf(_, keys, vals) => current == expected && |vals| == |keys| && InBounds(keys, lo, hi) && RowLists(vals)
       case Inner(_, keys, kids) =>
         && |kids| == |keys| + 1
         && forall i :: 0 <= i < |kids| ==> Passes(kids[i], current + 1, expected, Lo(keys, i, lo), Hi(keys, i, hi), M)
  }

  ghost predicate Ascends(keys: seq<Key>) {
    forall i, j :: 0 <= i < j < |keys| ==> Rank(keys[i]) < Rank(keys[j])
  }

  ghost predicate InBounds(keys: seq<Key>, lo: real, hi: real) {
    forall i :: 0 <= i < |keys| ==> lo <= Rank(keys[i]) < hi
  }

  /** No node has too many keys, and none but the root and its children too few. */
  ghost predicate Sizes<N>(t: Tree<N>, current: nat, M: nat) {
    && |t.keys| <= M && (current < 2 || MinKeys(M) <= |t.keys|)
    && (t.Inner? ==> forall i :: 0 <= i < |t.kids| ==> Sizes(t.kids[i], current + 1, M))
  }

  /** A way down from a node: the child to take at each step. */
  ghost predicate Leads<N>(t: Tree<N>, path: seq<nat>)
    decreases |path|
  {
    path == [] || (t.Inner? && path[0] < |t.kids| && Leads(t.kids[path[0]], path[1..]))
  }

  ghost function Descendant<N>(t: Tree<N>, path: seq<nat>): Tree<N>
    requires Leads(t, path)
    decreases |path|
  {
    if path == [] then t else Descendant(t.kids[path[0]], path[1..])
  }

  /** The size of the node at the end of a way down is within its limits for that depth. */
  ghost predicate SizeFits<N>(t: Tree<N>, path: seq<nat>, current: nat, M: nat)
    requires Leads(t, path)
  {
    var n := |Descendant(t, path).keys|;
    n <= M && (current + |path| >= 2 ==> M <= 2 * n)
  }

  /** Every node of the subtree, wherever it is, has at most `M` keys, and at least half of that from depth 2 on. */
  lemma {:induction false} SizesMean<N>(t: Tree<N>, current: nat, M: nat)
    ensures Sizes(t, current, M) <==> forall path :: Leads(t, path) ==> SizeFits(t, path, current, M)
    decreases t
  {
    hide SizeFits;
    forall path | Sizes(t, current, M) && Leads(t, path) ensures SizeFits(t, path, current, M) {
      SizesReach(t, path, current, M);
    }
    if forall path :: Leads(t, path) ==> SizeFits(t, path, current, M) {
      assert SizeFits(t, [], current, M);
      SizeHere(t, current, M);
      if t.Inner? {
        forall i: nat | i < |t.kids| ensures Sizes(t.kids[i], current + 1, M) {
          forall path | Leads(t.kids[i], path) ensures SizeFits(t.kids[i], path, current + 1, M) {
            SizeThere(t, i, path, current, M);
            assert SizeFits(t, [i] + path, current, M);
          }
          SizesMean(t.kids[i], current + 1, M);
        }
      }
    }
  }

  lemma SizeHere<N>(t: Tree<N>, current: nat, M: nat)
    ensures SizeFits(t, [], current, M) <==> |t.keys| <= M && (current < 2 || MinKeys(M) <= |t.keys|)
  {
  }

  lemma SizeThere<N>(t: Tree<N>, i: nat, path: seq<nat>, current: nat, M: nat)
    requires t.Inner? && i < |t.kids| && Leads(t.kids[i], path)
    ensures Leads(t, [i] + path) && (SizeFits(t, [i] + path, current, M) <==> SizeFits(t.kids[i], path, current + 1, M))
  {
    assert ([i] + path)[1..] == path;
  }

  lemma {:induction false} SizesReach<N>(t: Tree<N>, path: seq<nat>, current: nat, M: nat)
    requires Sizes(t, current, M) && Leads(t, path)
    ensures SizeFits(t, path, current, M)
    decreases |path|
  {
    if path == [] {
      SizeHere(t, current, M);
    } else {
      SizesReach(t.kids[path[0]], path[1..], current + 1, M);
    }
  }

  /** Below the children of the root no leaf is empty, so the bounds of a subtree cannot cross. */
  lemma {:induction false} BoundsApart<N>(t: Tree<N>, current: nat, expected: nat, lo: real, hi: real, M: nat)
    requires Passes(t, current, expected, lo, hi, M) && current >= 2 && M >= 1
    ensures lo < hi
  {
    hide Rank;
    if t.Leaf? {
      assert lo <= Rank(t.keys[0]) < hi;
    } else {
      var last := |t.keys|;
      BoundsApart(t.kids[0], current + 1, expected, Lo(t.keys, 0, lo), Hi(t.keys, 0, hi), M);
      BoundsApart(t.kids[last], current + 1, expected, Lo(t.keys, last, lo), Hi(t.keys, last, hi), M);
    }
  }

  /** Hence separators do lie inside the bounds their node inherits. */
  lemma PassedSeps<N>(t: Tree<N>, current: nat, expected: nat, lo: real, hi: real, M: nat)
    requires Passes(t, current, expected, lo, hi, M) && M >= 1 && t.Inner?
    requires current == 0 ==> lo == BOTTOM && hi == TOP
    ensures SepsIn(t.keys, lo, hi)
  {
    var last := |t.keys|;
    if current == 0 {
      assert forall i :: 0 <= i < |t.keys| ==> BOTTOM < Rank(t.keys[i]) < TOP;
    } else if last > 0 {
      BoundsApart(t.kids[0], current + 1, expected, Lo(t.keys, 0, lo), Hi(t.keys, 0, hi), M);
      BoundsApart(t.kids[last], current + 1, expected, Lo(t.keys, last, lo), Hi(t.keys, last, hi), M);
    }
  }

  /** The check decides search order, uniform depth and sizes. */
  lemma {:induction false} PassesIff<N>(t: Tree<N>, current: nat, expected: nat, lo: real, hi: real, M: nat)
    requires M >= 1 && (current == 0 ==> lo == BOTTOM && hi == TOP)
    ensures Passes(t, current, expected, lo, hi, M)
       <==> expected >= current && Ordered(t, lo, hi, expected - current) && Sizes(t, current, M)
  {
    PassesOrdered(t, current, expected, lo, hi, M);
    OrderedPasses(t, current, expected, lo, hi, M);
  }

  lemma {:induction false} PassesOrdered<N>(t: Tree<N>, current: nat, expected: nat, lo: real, hi: real, M: nat)
    requires M >= 1 && (current == 0 ==> lo == BOTTOM && hi == TOP)
    ensures Passes(t, current, expected, lo, hi, M) ==>
      expected >= current && Ordered(t, lo, hi, expected - current) && Sizes(t, current, M)
    decreases t
  {
    hide Rank;
    if Passes(t, current, expected, lo, hi, M) && t.Inner? {
      PassedSeps(t, current, expected, lo, hi, M);
      forall i | 0 <= i < |t.kids|
        ensures expected >= current + 1 && Sizes(t.kids[i], current + 1, M)
        ensures Ordered(t.kids[i], Lo(t.keys, i, lo), Hi(t.keys, i, hi), expected - current - 1)
      {
        PassesOrdered(t.kids[i], current + 1, expected, Lo(t.keys, i, lo), Hi(t.keys, i, hi), M);
      }
      assert Sizes(t.kids[0], current + 1, M);
      assert Forest(t.keys, t.kids, lo, hi, expected - current - 1);
    }
  }

  lemma {:induction false} OrderedPasses<N>(t: Tree<N>, current: nat, expected: nat, lo: real, hi: real, M: nat)
    ensures expected >= current && Ordered(t, lo, hi, expected - current) && Sizes(t, current, M) ==>
      Passes(t, current, expected, lo, hi, M)
    decreases t
  {
    hide Rank;
    if expected >= current && Ordered(t, lo, hi, expected - current) && Sizes(t, current, M) && t.Inner? {
      assert Forest(t.keys, t.kids, lo, hi, expected - current - 1);
      forall i | 0 <= i < |t.kids|
        ensures Passes(t.kids[i], current + 1, expected, Lo(t.keys, i, lo), Hi(t.keys, i, hi), M)
      {
        OrderedPasses(t.kids[i], current + 1, expected, Lo(t.keys, i, lo), Hi(t.keys, i, hi), M);
      }
    }
  }

  lemma {:induction false} FullSizes<N>(t: Tree<N>, current: nat, M: nat)
    requires |t.keys| <= M && FullBelow(t, M) && (current < 2 || MinKeys(M) <= |t.keys|)
    ensures Sizes(t, current, M)
    decreases t
  {
    if t.Inner? {
      forall i | 0 <= i < |t.kids| ensures Sizes(t.kids[i], current + 1, M) {
        assert Full(t.kids[i], M);
        FullSizes(t.kids[i], current + 1, M);
      }
    }
  }

  // ---------- the leaf chain ----------

  /** Two leaves visited one after the other. */
  ghost predicate Joined(x: Tree<Node>, y: Tree<Node>)
    reads x.id`nextLeaf, y.id`prevLeaf
  {
    && x.id.nextLeaf == y.id && y.id.prevLeaf == x.id
    && (x.keys != [] && y.keys != [] ==> Rank(x.keys[|x.keys| - 1]) < Rank(y.keys[0]))
  }

  /** The leaves visited so far. */
  ghost predicate Strung(ls: seq<Tree<Node>>)
    reads Elems(Ids(ls))`nextLeaf, Elems(Ids(ls))`prevLeaf
  {
    InIds(ls);
    && (ls != [] ==> ls[0].id.prevLeaf == null)
    && (forall i, j :: 0 <= i && i + 1 == j < |ls| ==> Joined(ls[i], ls[j]))
  }

  lemma InIds(ls: seq<Tree<Node>>)
    ensures forall i :: 0 <= i < |ls| ==> ls[i].id in Elems(Ids(ls))
  {
    forall i | 0 <= i < |ls| ensures ls[i].id in Elems(Ids(ls)) {
      assert Ids(ls)[i] == ls[i].id;
    }
  }

  lemma StrungPrefix(a: seq<Tree<Node>>, b: seq<Tree<Node>>)
    requires Strung(a + b)
    ensures Strung(a)
  {
    var c := a + b;
    assert forall i :: 0 <= i < |a| ==> a[i] == c[i];
  }

  lemma StrungOne(done: seq<Tree<Node>>, l: Tree<Node>)
    requires Strung(done)
    ensures Strung(done + [l]) <==> if done == [] then l.id.prevLeaf == null else Joined(done[|done| - 1], l)
  {
    var c := done + [l];
    hide Joined;
    assert forall i :: 0 <= i < |done| ==> c[i] == done[i];
    assert c[|done|] == l;
  }

  /** In a search tree the last key of a leaf is below the first key of the next one. */
  lemma LeavesAscend<N>(t: Tree<N>, i: nat, lo: real, hi: real, h: nat)
    requires Ordered(t, lo, hi, h) && i + 1 < |Leaves(t)|
    ensures var x, y := Leaves(t)[i].keys, Leaves(t)[i + 1].keys;
      x != [] && y != [] ==> Rank(x[|x| - 1]) < Rank(y[0])
  {
    hide Rank, Leaves, Offset, Contents;
    ContentsSorted(t, lo, hi, h);
    LeavesOrdered(t, lo, hi, h, i);
    LeavesOrdered(t, lo, hi, h, i + 1);
    OffsetStep(t, i);
    OffsetStep(t, i + 1);
    var es, x, y := Contents(t), Leaves(t)[i], Leaves(t)[i + 1];
    if x.keys != [] && y.keys != [] {
      var n := Offset(t, i) + |x.keys| - 1;
      assert es[n] == LeafEntries(x)[|x.keys| - 1];
      assert es[n + 1] == LeafEntries(y)[0];
    }
  }

  /** Leaves are told apart by their nodes. */
  lemma {:induction false} LeavesDistinct<N>(t: Tree<N>)
    requires Distinct(t)
    ensures forall i, j :: 0 <= i < j < |Leaves(t)| ==> Leaves(t)[i].id != Leaves(t)[j].id
    decreases t, 0
  {
    if t.Inner? { ForestLeavesDistinct(t.kids); }
  }

  lemma {:induction false} ForestLeavesDistinct<N>(kids: seq<Tree<N>>)
    requires DistinctF(kids)
    ensures forall i, j :: 0 <= i < j < |LeavesF(kids)| ==> LeavesF(kids)[i].id != LeavesF(kids)[j].id
    decreases kids, 1
  {
    if kids != [] {
      hide Nodes, NodesF, Leaves;
      var a, b := Leaves(kids[0]), LeavesF(kids[1..]);
      assert LeavesF(kids) == a + b;
      CutDistinct(kids, 1);
      assert kids[..1] == [kids[0]];
      LeavesOf1(kids[0]);
      LeavesDistinct(kids[0]);
      ForestLeavesDistinct(kids[1..]);
      LeavesAreNodes(kids[0]);
      ForestLeavesAreNodes(kids[1..]);
      forall i, j | 0 <= i < |a| && 0 <= j < |b| ensures a[i].id != b[j].id {
        assert Ids(a)[i] == a[i].id && Ids(b)[j] == b[j].id;
        assert a[i].id in Ids(a) && b[j].id in Ids(b);
      }
    }
  }

  /** For a search tree, the chain that the check follows is the doubly linked list of the leaves. */
  lemma StrungIsLinked(t: Tree<Node>, h: nat)
    requires Ordered(t, BOTTOM, TOP, h) && Distinct(t)
    ensures Linked(Chain([], t, []))
       <==> Strung(Leaves(t)) && (Leaves(t) != [] ==> Leaves(t)[|Leaves(t)| - 1].id.nextLeaf == null)
  {
    hide Rank, Leaves, Distinct, Ordered, Linked, Strung, Ids;
    var ls := Leaves(t);
    assert Chain([], t, []) == Ids(ls);
    LeavesDistinct(t);
    forall i | 0 <= i && i + 1 < |ls|
      ensures ls[i].keys != [] && ls[i + 1].keys != [] ==> Rank(ls[i].keys[|ls[i].keys| - 1]) < Rank(ls[i + 1].keys[0])
    {
      LeavesAscend(t, i, BOTTOM, TOP, h);
    }
    LinkedIffStrung(ls);
  }

  lemma LinkedIffStrung(ls: seq<Tree<Node>>)
    requires forall i, j :: 0 <= i < j < |ls| ==> ls[i].id != ls[j].id
    requires forall i :: 0 <= i && i + 1 < |ls| && ls[i].keys != [] && ls[i + 1].keys != [] ==>
      Rank(ls[i].keys[|ls[i].keys| - 1]) < Rank(ls[i + 1].keys[0])
    ensures Linked(Ids(ls)) <==> Strung(ls) && (ls != [] ==> ls[|ls| - 1].id.nextLeaf == null)
  {
    hide Rank;
    var c := Ids(ls);
    assert forall i, j :: 0 <= i < j < |c| ==> c[i] != c[j];
    if Linked(c) {
      forall i, j | 0 <= i && i + 1 == j < |ls| ensures Joined(ls[i], ls[j]) {
        assert c[i].nextLeaf == c[j] && c[j].prevLeaf == c[i];
      }
    }
    if Strung(ls) && (ls != [] ==> ls[|ls| - 1].id.nextLeaf == null) {
      forall i, j | 0 <= i && i + 1 == j < |c| ensures c[i].nextLeaf == c[j] && c[j].prevLeaf == c[i] {
        assert Joined(ls[i], ls[j]);
      }
    }
  }

  // ---------- one node of the check ----------

  /** `previous` is the last leaf visited, if any, and the heap still holds its keys. */
  ghost predicate LastIs(previous: Node?, done: seq<Tree<Node>>)
    reads if done == [] then {} else {done[|done| - 1].id}
  {
    if done == [] then previous == null
    else var l := done[|done| - 1]; previous == l.id && l.id.keys == l.keys
  }

  ghost function LoOf(min: Option<Key>): real {
    if min.None? then BOTTOM else Rank(min.value)
  }

  ghost function HiOf(max: Option<Key>): real {
    if max.None? then TOP else Rank(max.value)
  }

  /** The subtree passes, and its leaves continue the chain of those visited before. */
  ghost predicate Checked(t: Tree<Node>, current: nat, expected: nat, min: Option<Key>, max: Option<Key>,
                          done: seq<Tree<Node>>, M: nat)
    reads Elems(Ids(done + Leaves(t)))`nextLeaf, Elems(Ids(done + Leaves(t)))`prevLeaf
  {
    Passes(t, current, expected, LoOf(min), HiOf(max), M) && Strung(done + Leaves(t))
  }

  /** What is demanded of one node, its children aside. */
  ghost predicate PassesTop<N>(t: Tree<N>, current: nat, M: nat) {
    |t.keys| <= M && Ascends(t.keys) && (current < 2 || MinKeys(M) <= |t.keys|)
  }

  lemma PassesLeaf<N>(t: Tree<N>, current: nat, expected: nat, lo: real, hi: real, M: nat)
    requires t.Leaf? && PassesTop(t, current, M)
    ensures Passes(t, current, expected, lo, hi, M)
       <==> current == expected && |t.vals| == |t.keys| && InBounds(t.keys, lo, hi) && RowLists(t.vals)
  {
  }

  /** The first `n` children pass. */
  ghost predicate PassesUpTo<N>(t: Tree<N>, n: nat, current: nat, expected: nat, lo: real, hi: real, M: nat)
    requires t.Inner? && |t.kids| == |t.keys| + 1 && n <= |t.kids|
  {
    forall i :: 0 <= i < n ==> Passes(t.kids[i], current + 1, expected, Lo(t.keys, i, lo), Hi(t.keys, i, hi), M)
  }

  lemma PassesInner<N>(t: Tree<N>, current: nat, expected: nat, lo: real, hi: real, M: nat)
    requires t.Inner? && PassesTop(t, current, M)
    ensures Passes(t, current, expected, lo, hi, M)
       <==> |t.kids| == |t.keys| + 1 && PassesUpTo(t, |t.kids|, current, expected, lo, hi, M)
  {
    hide Rank;
  }

  /** The leaves of the first `n` children, added to those visited before. */
  ghost function Seen(done: seq<Tree<Node>>, t: Tree<Node>, n: nat): seq<Tree<Node>>
    requires t.Inner? && n <= |t.kids|
  {
    done + LeavesF(t.kids[..n])
  }

  lemma SeenStep(done: seq<Tree<Node>>, t: Tree<Node>, n: nat)
    requires t.Inner? && n < |t.kids|
    ensures Seen(done, t, n + 1) == Seen(done, t, n) + Leaves(t.kids[n])
    ensures Strung(done + Leaves(t)) ==> Strung(Seen(done, t, n + 1))
  {
    hide Leaves, LeavesF, Strung;
    assert t.kids[..n + 1] == t.kids[..n] + [t.kids[n]];
    LeavesFAppend(t.kids[..n], [t.kids[n]]);
    LeavesOf1(t.kids[n]);
    SeenPrefix(done, t, n + 1);
  }

  lemma SeenPrefix(done: seq<Tree<Node>>, t: Tree<Node>, n: nat)
    requires t.Inner? && n <= |t.kids|
    ensures Strung(done + Leaves(t)) ==> Strung(Seen(done, t, n))
  {
    hide LeavesF, Strung;
    assert t.kids == t.kids[..n] + t.kids[n..];
    LeavesFAppend(t.kids[..n], t.kids[n..]);
    assert done + Leaves(t) == Seen(done, t, n) + LeavesF(t.kids[n..]);
    if Strung(done + Leaves(t)) { StrungPrefix(Seen(done, t, n), LeavesF(t.kids[n..])); }
  }

  lemma SeenAll(done: seq<Tree<Node>>, t: Tree<Node>)
    requires t.Inner?
    ensures Seen(done, t, 0) == done && Seen(done, t, |t.kids|) == done + Leaves(t)
  {
    assert t.kids[..|t.kids|] == t.kids && t.kids[..0] == [];
  }

  /** Everything the check decides, for any tree of nodes. */
  ghost predicate Canonical(t: Tree<Node>, M: nat)
    reads Nodes(t)`nextLeaf, Nodes(t)`prevLeaf
  {
    LeavesAreNodes(t);
    && Ordered(t, BOTTOM, TOP, Depth(t)) && Sizes(t, 0, M) && Linked(Chain([], t, []))
  }

  /** The check's verdict, put together. */
  lemma CanonicalIff(t: Tree<Node>, M: nat)
    requires M >= 1 && Distinct(t)
    ensures Canonical(t, M)
       <==> Passes(t, 0, Depth(t), BOTTOM, TOP, M) && Strung(Leaves(t))
            && (Leaves(t) != [] ==> Leaves(t)[|Leaves(t)| - 1].id.nextLeaf == null)
  {
    hide Rank, Passes, Strung, Leaves, Distinct, Linked, Ordered, Chain, Depth, Sizes;
    PassesIff(t, 0, Depth(t), BOTTOM, TOP, M);
    if Ordered(t, BOTTOM, TOP, Depth(t)) {
      StrungIsLinked(t, Depth(t));
    }
  }

  lemma NothingSeen()
    ensures Strung([]) && LastIs(null, [])
  {
  }

  /** From the check of the root to the verdict. */
  lemma Verdict(t: Tree<Node>, M: nat, previous: Node?)
    requires M >= 1 && Distinct(t)
    ensures Canonical(t, M) ==> Checked(t, 0, Depth(t), None, None, [], M)
    ensures Checked(t, 0, Depth(t), None, None, [], M) && LastIs(previous, [] + Leaves(t)) ==>
      (Canonical(t, M) <==> previous == null || previous.nextLeaf == null)
  {
    hide Rank, Passes, Strung, Leaves, Distinct, Linked, Ordered, Chain, Depth, Sizes, Canonical;
    CanonicalIff(t, M);
    assert [] + Leaves(t) == Leaves(t);
  }

  lemma LeftmostStep<N>(c: Tree<N>, hi: real)
    requires c.Inner?
    ensures c.kids != [] ==> Depth(c) == 1 + Depth(c.kids[0])
    ensures Ordered(c, BOTTOM, hi, Depth(c)) ==>
      c.kids != [] && Ordered(c.kids[0], BOTTOM, if c.keys == [] then hi else Rank(c.keys[0]), Depth(c.kids[0]))
  {
    hide Rank;
    if Ordered(c, BOTTOM, hi, Depth(c)) {
      KidsOrdered(c, BOTTOM, hi, Depth(c));
      KidOrdered(c.keys, c.kids, 0, BOTTOM, hi, Depth(c) - 1);
    }
  }

  lemma LeafDepth<N>(c: Tree<N>)
    requires c.Leaf?
    ensures Depth(c) == 0
  {
  }
}
