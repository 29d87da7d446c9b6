/** The repairs of `TreeRepairs` carried out on nodes: each edit leaves the heap holding exactly the repaired tree,
    with its leaves still linked from left to right. */
module TreeSiblings {
  import opened Keys
  import opened TreeShape
  import opened TreeRepairs
  import opened TreeNodes
  import opened NodeEdits

  /** `parent` is the top of `p`, and `p` is laid out in the heap. */
  ghost predicate Parent(parent: Node, p: Tree<Node>)
    reads Nodes(p)`keys, Nodes(p)`values, Nodes(p)`children
  {
    p.Inner? && p.id == parent && Holds(p) && Distinct(p)
  }

  /** The leaves of `p` between those before and those after it. */
  ghost function Chain(before: seq<Node>, p: Tree<Node>, after: seq<Node>): seq<Node> {
    before + Ids(Leaves(p)) + after
  }

  /** The leaves of trees side by side, between those before and those after them. */
  ghost function ChainAcross(before: seq<Node>, trees: seq<Tree<Node>>, after: seq<Node>): seq<Node> {
    before + Ids(LeavesF(trees)) + after
  }

  /** The leaves of `p` around those of its `i`-th child, and around whatever takes that child's place. */
  lemma ChainAt(before: seq<Node>, p: Tree<Node>, i: nat, after: seq<Node>, seps: seq<Key>, group: seq<Tree<Node>>)
    requires Pluggable(p, i, 1) && |group| == |seps| + 1
    ensures Chain(before, p, after) == Chain(before + IdsBefore(p, i), p.kids[i], IdsFrom(p, i + 1) + after)
    ensures Chain(before, Plug(p, i, 1, seps, group), after)
         == ChainAcross(before + IdsBefore(p, i), group, IdsFrom(p, i + 1) + after)
  {
    hide Leaves, LeavesF, Plug, Ids, Nodes, NodesF, IdsBefore, IdsFrom;
    LeavesAt(p, i, seps, group);
    Regroup(before, IdsBefore(p, i), Ids(Leaves(p.kids[i])), IdsFrom(p, i + 1), after);
    Regroup(before, IdsBefore(p, i), Ids(LeavesF(group)), IdsFrom(p, i + 1), after);
  }

  lemma LeavesAt(p: Tree<Node>, i: nat, seps: seq<Key>, group: seq<Tree<Node>>)
    requires Pluggable(p, i, 1) && |group| == |seps| + 1
    ensures Ids(Leaves(p)) == IdsBefore(p, i) + Ids(Leaves(p.kids[i])) + IdsFrom(p, i + 1)
    ensures Ids(Leaves(Plug(p, i, 1, seps, group))) == IdsBefore(p, i) + Ids(LeavesF(group)) + IdsFrom(p, i + 1)
  {
    hide Leaves, LeavesF, Plug, Ids, Nodes, NodesF;
    assert p.kids[i..i + 1] == [p.kids[i]];
    LeavesOf1(p.kids[i]);
    PlugLeaves(p, i, 1, seps, group);
    IdsAppend(LeavesF(p.kids[..i]), LeavesF(group), LeavesF(p.kids[i + 1..]));
    IdsAppend(LeavesF(p.kids[..i]), Leaves(p.kids[i]), LeavesF(p.kids[i + 1..]));
  }

  lemma Regroup<T>(a: seq<T>, b: seq<T>, c: seq<T>, d: seq<T>, e: seq<T>)
    ensures a + (b + c + d) + e == (a + b) + c + (d + e)
  {
  }

  method RotateEntryLeft(parent: Node, k: nat, ghost p: Tree<Node>)
    requires Parent(parent, p) && Siblings(p, k, 2) && p.kids[k].Leaf? && |p.kids[k + 1].keys| >= 2
    modifies Nodes(p)`keys, Nodes(p)`values
    ensures Holds(Recut(p, k, |p.kids[k].keys| + 1))
  {
    hide Ids, Holds, Nodes, Distinct, Rest, Ready, Recut;
    LookAt(p, k, 2);
    GetReady(p, k, 2);
    ShiftEntryLeft(parent, k, parent.children[k], parent.children[k + 1]);
    EntryShiftedLeft(p, k);
  }

  method RotateEntryRight(parent: Node, k: nat, ghost p: Tree<Node>)
    requires Parent(parent, p) && Siblings(p, k, 2) && p.kids[k].Leaf? && |p.kids[k].keys| >= 1
    modifies Nodes(p)`keys, Nodes(p)`values
    ensures Holds(Recut(p, k, |p.kids[k].keys| - 1))
  {
    hide Ids, Holds, Nodes, Distinct, Rest, Ready, Recut;
    LookAt(p, k, 2);
    GetReady(p, k, 2);
    ShiftEntryRight(parent, k, parent.children[k], parent.children[k + 1]);
    EntryShiftedRight(p, k);
  }

  method RotateChildLeft(parent: Node, k: nat, ghost p: Tree<Node>)
    requires Parent(parent, p) && Siblings(p, k, 2) && p.kids[k].Inner? && |p.kids[k + 1].keys| >= 1
    modifies Nodes(p)`keys, Nodes(p)`children
    ensures Holds(Recut(p, k, |p.kids[k].keys| + 1))
  {
    hide Holds, Nodes, Distinct, Rest, Ready, Recut;
    LookAt(p, k, 2);
    GetReady(p, k, 2);
    ShiftChildLeft(parent, k, parent.children[k], parent.children[k + 1]);
    ChildShiftedLeft(p, k);
  }

  method RotateChildRight(parent: Node, k: nat, ghost p: Tree<Node>)
    requires Parent(parent, p) && Siblings(p, k, 2) && p.kids[k].Inner? && |p.kids[k].keys| >= 1
    modifies Nodes(p)`keys, Nodes(p)`children
    ensures Holds(Recut(p, k, |p.kids[k].keys| - 1))
  {
    hide Holds, Nodes, Distinct, Rest, Ready, Recut;
    LookAt(p, k, 2);
    GetReady(p, k, 2);
    ShiftChildRight(parent, k, parent.children[k], parent.children[k + 1]);
    ChildShiftedRight(p, k);
  }

  method SplitTwoLeaves(parent: Node, k: nat, a: nat, b: nat, ghost p: Tree<Node>,
                        ghost before: seq<Node>, ghost after: seq<Node>) returns (m: Node)
    requires Parent(parent, p) && Siblings(p, k, 2) && p.kids[k].Leaf? && a < b < |Fuse2(p, k).keys|
    requires Linked(Chain(before, p, after))
    modifies Nodes(p)`keys, Nodes(p)`values, Nodes(p)`children
    modifies Nodes(p)`nextLeaf, Nodes(p)`prevLeaf
    ensures fresh(m)
    ensures Holds(TwoToThree(p, k, a, b, m)) && Linked(Chain(before, TwoToThree(p, k, a, b, m), after))
  {
    hide Ids, Holds, Nodes, Distinct, Rest, Ready, TwoToThree, Leaves, Linked, LeavesF, Chain, IdsBefore, IdsFrom,
      Fuse2;
    LookAt(p, k, 2);
    GetReady(p, k, 2);
    var left, right := parent.children[k], parent.children[k + 1];
    ghost var pre, post := before + IdsBefore(p, k), IdsFrom(p, k + 2) + after;
    ChainThreeForTwo(p, k, a, b, left, right, parent, before, after);
    InChain2(pre, left, right, post);
    m := SpreadLeaves(parent, k, left, right, a, b, pre, post);
    LeavesSpread(p, k, a, b, m);
    ChainThreeForTwo(p, k, a, b, left, right, m, before, after);
  }

  lemma ChainThreeForTwo(p: Tree<Node>, k: nat, a: nat, b: nat, left: Node, right: Node, m: Node,
                         before: seq<Node>, after: seq<Node>)
    requires Siblings(p, k, 2) && p.kids[k].Leaf? && a < b < |Fuse2(p, k).keys|
    requires left == p.kids[k].id && right == p.kids[k + 1].id
    ensures Chain(before, p, after) == before + IdsBefore(p, k) + [left, right] + (IdsFrom(p, k + 2) + after)
    ensures Chain(before, TwoToThree(p, k, a, b, m), after)
         == before + IdsBefore(p, k) + [left, m, right] + (IdsFrom(p, k + 2) + after)
  {
    hide Ids, TwoToThree, Leaves, LeavesF;
    TwoToThreeKeeps(p, k, a, b, m);
  }

  method SplitTwoInternals(parent: Node, k: nat, a: nat, b: nat, ghost p: Tree<Node>) returns (m: Node)
    requires Parent(parent, p) && Siblings(p, k, 2) && p.kids[k].Inner? && a < b < |Fuse2(p, k).keys|
    modifies Nodes(p)`keys, Nodes(p)`children
    ensures fresh(m)
    ensures Holds(TwoToThree(p, k, a, b, m))
  {
    hide Holds, Nodes, Distinct, Rest, Ready, TwoToThree;
    LookAt(p, k, 2);
    GetReady(p, k, 2);
    m := SpreadInternals(parent, k, parent.children[k], parent.children[k + 1], a, b);
    InternalsSpread(p, k, a, b, m);
  }

  method GatherThreeLeaves(parent: Node, k: nat, c: nat, ghost p: Tree<Node>,
                           ghost before: seq<Node>, ghost after: seq<Node>)
    requires Parent(parent, p) && Siblings(p, k, 3) && p.kids[k].Leaf? && c < |Fuse3(p, k).keys|
    requires Linked(Chain(before, p, after))
    modifies Nodes(p)`keys, Nodes(p)`values, Nodes(p)`children
    modifies Nodes(p)`nextLeaf, Nodes(p)`prevLeaf, Elems(after)`prevLeaf
    ensures Holds(ThreeToTwo(p, k, c)) && Linked(Chain(before, ThreeToTwo(p, k, c), after))
  {
    hide Ids, Holds, Nodes, Distinct, Rest, Ready, ThreeToTwo, Leaves, Linked, LeavesF;
    LookAt(p, k, 3);
    GetReady(p, k, 3);
    var left, middle, right := parent.children[k], parent.children[k + 1], parent.children[k + 2];
    ghost var pre, post := before + IdsBefore(p, k), IdsFrom(p, k + 3) + after;
    ThreeToTwoKeeps(p, k, c);
    assert Chain(before, p, after) == pre + [left, middle, right] + post;
    assert Chain(before, ThreeToTwo(p, k, c), after) == pre + [left, middle] + post;
    FromInNodes(p, k + 3);
    InChain3(pre, left, middle, right, post);
    GatherLeaves(parent, k, left, middle, right, c, pre, post);
    LeavesGathered(p, k, c);
  }

  lemma FromInNodes(p: Tree<Node>, j: nat)
    requires p.Inner? && j <= |p.kids|
    ensures forall n :: n in IdsFrom(p, j) ==> n in Nodes(p)
  {
    hide Leaves, LeavesF, Ids;
    ForestLeavesAreNodes(p.kids[j..]);
    assert p.kids == p.kids[..j] + p.kids[j..];
    NodesFAppend(p.kids[..j], p.kids[j..]);
  }

  lemma InChain3(pre: seq<Node>, l: Node, m: Node, r: Node, post: seq<Node>)
    ensures var c := pre + [l, m, r] + post; l in c && m in c && forall n :: n in post ==> n in c
  {
    var c := pre + [l, m, r] + post;
    assert c[|pre|] == l && c[|pre| + 1] == m;
    forall n | n in post ensures n in c {
      var i :| 0 <= i < |post| && post[i] == n;
      assert c[|pre| + 3 + i] == n;
    }
  }

  method GatherThreeInternals(parent: Node, k: nat, c: nat, ghost p: Tree<Node>)
    requires Parent(parent, p) && Siblings(p, k, 3) && p.kids[k].Inner? && c < |Fuse3(p, k).keys|
    modifies Nodes(p)`keys, Nodes(p)`children
    ensures Holds(ThreeToTwo(p, k, c))
  {
    hide Holds, Nodes, Distinct, Rest, Ready, ThreeToTwo;
    LookAt(p, k, 3);
    GetReady(p, k, 3);
    GatherInternals(parent, k, parent.children[k], parent.children[k + 1], parent.children[k + 2], c);
    InternalsGathered(p, k, c);
  }

  method MergeTwoLeaves(parent: Node, k: nat, ghost p: Tree<Node>, ghost before: seq<Node>, ghost after: seq<Node>)
    requires Parent(parent, p) && Siblings(p, k, 2) && p.kids[k].Leaf?
    requires Linked(Chain(before, p, after))
    modifies Nodes(p)`keys, Nodes(p)`values, Nodes(p)`children
    modifies Nodes(p)`nextLeaf, Nodes(p)`prevLeaf, Elems(after)`prevLeaf
    ensures Holds(Merge(p, k)) && Linked(Chain(before, Merge(p, k), after))
  {
    hide Ids, Holds, Nodes, Distinct, Rest, Ready, Merge, Leaves, Linked, LeavesF;
    LookAt(p, k, 2);
    GetReady(p, k, 2);
    var left, right := parent.children[k], parent.children[k + 1];
    ghost var pre, post := before + IdsBefore(p, k), IdsFrom(p, k + 2) + after;
    MergeKeeps(p, k);
    assert Chain(before, p, after) == pre + [left, right] + post;
    assert Chain(before, Merge(p, k), after) == pre + [left] + post;
    InChain2(pre, left, right, post);
    FromInNodes(p, k + 2);
    AbsorbLeaf(parent, k, left, right, pre, post);
    LeafAbsorbed(p, k);
  }

  lemma InChain2(pre: seq<Node>, l: Node, r: Node, post: seq<Node>)
    ensures var c := pre + [l, r] + post; l in c && r in c && forall n :: n in post ==> n in c
  {
    var c := pre + [l, r] + post;
    assert c[|pre|] == l && c[|pre| + 1] == r;
    forall n | n in post ensures n in c {
      var i :| 0 <= i < |post| && post[i] == n;
      assert c[|pre| + 2 + i] == n;
    }
  }

  method MergeTwoInternals(parent: Node, k: nat, ghost p: Tree<Node>)
    requires Parent(parent, p) && Siblings(p, k, 2) && p.kids[k].Inner?
    modifies Nodes(p)`keys, Nodes(p)`children
    ensures Holds(Merge(p, k))
  {
    hide Holds, Nodes, Distinct, Rest, Ready, Merge;
    LookAt(p, k, 2);
    GetReady(p, k, 2);
    AbsorbInternal(parent, k, parent.children[k], parent.children[k + 1]);
    InternalAbsorbed(p, k);
  }
}
