/** The B*+ tree index: insertion with redistribution and 2-to-3 splits, deletion with borrowing and 3-to-2 merges,
    lookup, range scan and self-check, on nodes edited in place. */
module BStarPlusTree {
  import opened Wrappers
  import opened Keys
  import opened TreeShape
  import opened TreeRepairs
  import opened TreeNodes
  import opened NodeEdits
  import opened TreeSiblings
  import opened SortedMap
  import opened TreeContents
  import opened TreeInsertion
  import opened TreeDeletion
  import opened TreeHeight
  import opened TreeLookup
  import opened TreeValidation

  /** What a node that had to be split hands to its parent. */
  datatype Split = Split(separatorKey: Key, right: Node)

  /** The heap after an insertion into `t`: `trees` stand side by side where `t` stood. */
  ghost predicate Standing(t: Tree<Node>, split: Option<Split>, seps: seq<Key>, trees: seq<Tree<Node>>)
    reads NodesF(trees)`keys, NodesF(trees)`values, NodesF(trees)`children
  {
    && HoldsAll(trees) && DistinctF(trees)
    && (split.None? <==> |trees| == 1)
    && (split.Some? ==> |seps| == 1 && |trees| == 2 && split.value == Split(seps[0], trees[1].id))
  }

  datatype Update = Add(key: Key, row: RowId) | Take(key: Key, row: RowId)

  /** What a sequence of updates makes of a map. */
  ghost function Outcome(m: Index, updates: seq<Update>): Index {
    if updates == [] then m
    else
      var before := Outcome(m, updates[..|updates| - 1]);
      match updates[|updates| - 1]
      case Add(key, row) => MapInsert(before, key, row)
      case Take(key, row) => MapRemove(before, key, row)
  }

  class BStarPlusTree {
    const maxKeys: nat
    var root: Node
    ghost var shape: Tree<Node>

    /** The nodes spell out `shape`, a search tree of uniform depth, with its leaves doubly linked from left to right:
        all that lookups rely on. */
    ghost predicate Searchable()
      reads this, Nodes(shape)
    {
      LeavesAreNodes(shape);
      && shape.id == root && Holds(shape) && Distinct(shape) && Ordered(shape, BOTTOM, TOP, Depth(shape))
      && Linked(Chain([], shape, []))
    }

    /** What every run keeps: moreover nodes other than the root are at least half full, none is over-full, and no row
        id is listed twice under one key. */
    ghost predicate Valid()
      reads this, Nodes(shape)
    {
      && Capacity(maxKeys) && Searchable() && Sub(shape, BOTTOM, TOP, Depth(shape), maxKeys)
      && NoRepeats(Content())
    }

    /** The sorted map that the tree stands for. */
    ghost function Content(): Index
      reads this
    {
      ToMap(Contents(shape))
    }

    constructor (max: nat)
      ensures maxKeys == if max < 3 then 3 else max
      ensures Capacity(maxKeys) ==> Valid()
      ensures Content() == map[] && fresh(Nodes(shape))
    {
      var leaf := new Node(true);
      maxKeys := if max < 3 then 3 else max;
      root := leaf;
      shape := Leaf(leaf, [], []);
      new;
      LeafContents(shape);
      assert Linked([leaf]);
      assert Chain([], shape, []) == [leaf];
    }

    // ---------- splitting ----------

    /** The upper half of a leaf moves to a new leaf behind it. */
    method SplitLeaf(leaf: Node, ghost t: Tree<Node>, ghost before: seq<Node>, ghost after: seq<Node>)
      returns (split: Split)
      requires t.Leaf? && t.id == leaf && HoldsTop(t) && |t.vals| == |t.keys| && |t.keys| >= 2
      requires Linked(before + [leaf] + after)
      modifies leaf`keys, leaf`values, leaf`nextLeaf, Elems(after)`prevLeaf
      ensures fresh(split.right) && split.separatorKey == CutSep(t, |t.keys| / 2)
      ensures HoldsTop(CutLeft(t, |t.keys| / 2)) && HoldsTop(CutRight(t, |t.keys| / 2, split.right))
      ensures Linked(before + [leaf, split.right] + after)
    {
      var right := new Node(true);
      var mid := |leaf.keys| / 2;
      right.keys := leaf.keys[mid..];
      right.values := leaf.values[mid..];
      leaf.keys := leaf.keys[..mid];
      leaf.values := leaf.values[..mid];
      LinkAfter(leaf, right, before, after);
      return Split(right.keys[0], right);
    }

    /** The upper half of an inner node moves to a new node; the middle key is handed up. */
    method SplitInternal(node: Node, ghost t: Tree<Node>) returns (split: Split)
      requires t.Inner? && t.id == node && HoldsTop(t) && |t.kids| == |t.keys| + 1 && |t.keys| >= 1
      modifies node`keys, node`children
      ensures fresh(split.right) && split.separatorKey == CutSep(t, |t.keys| / 2)
      ensures HoldsTop(CutLeft(t, |t.keys| / 2)) && HoldsTop(CutRight(t, |t.keys| / 2, split.right))
    {
      var right := new Node(false);
      var mid := |node.keys| / 2;
      var separatorKey := node.keys[mid];
      right.keys := node.keys[mid + 1..];
      right.children := node.children[mid + 1..];
      node.keys := node.keys[..mid];
      node.children := node.children[..mid + 1];
      IdsSlices(t.kids, []);
      return Split(separatorKey, right);
    }

    /** The row id joins the list of a key the leaf holds, or the key joins the leaf. */
    method PutEntry(node: Node, key: Key, row: RowId, ghost t: Tree<Node>, ghost lo: real, ghost hi: real)
      returns (added: bool, ghost u: Tree<Node>)
      requires t.Leaf? && t.id == node && HoldsTop(t) && Ordered(t, lo, hi, 0) && lo <= Rank(key) < hi
      modifies node`keys, node`values
      ensures u.Leaf? && u.id == node && HoldsTop(u) && Ordered(u, lo, hi, 0)
      ensures node.keys == u.keys && |u.vals| == |u.keys|
      ensures Contents(u) == Upsert(Contents(t), key, row)
      ensures |u.keys| == |t.keys| + if added then 1 else 0
    {
      hide Rank, Contents, Upsert;
      var position := LowerBound(node.keys, key);
      if position < |node.keys| && node.keys[position] == key {
        if row !in node.values[position] {
          node.values := node.values[position := node.values[position] + [row]];
        }
        added, u := false, Leaf(t.id, t.keys, t.vals[position := AddRow(t.vals[position], row)]);
        LeafAddRow(t.id, t.keys, t.vals, position, key, row, lo, hi);
        assert node.values == u.vals;
        return;
      }
      node.keys := node.keys[..position] + [key] + node.keys[position..];
      node.values := node.values[..position] + [[row]] + node.values[position..];
      added, u := true, Leaf(t.id, node.keys, node.values);
      LeafInsertKey(t.id, t.keys, t.vals, position, key, row, lo, hi);
    }

    /** Insertion into a leaf. */
    method InsertIntoLeaf(node: Node, key: Key, row: RowId, ghost t: Tree<Node>,
                          ghost before: seq<Node>, ghost after: seq<Node>, ghost lo: real, ghost hi: real)
      returns (split: Option<Split>, ghost seps: seq<Key>, ghost trees: seq<Tree<Node>>)
      requires Capacity(maxKeys) && t.Leaf? && t.id == node && HoldsTop(t)
      requires Sub(t, lo, hi, 0, maxKeys) && lo <= Rank(key) < hi
      requires Linked(before + [node] + after)
      modifies node`keys, node`values, node`nextLeaf, Elems(after)`prevLeaf
      ensures Inserted(t, seps, trees, key, row, lo, hi, 0, maxKeys)
      ensures Standing(t, split, seps, trees) && fresh(NodesF(trees) - Nodes(t))
      ensures Linked(ChainAcross(before, trees, after))
    {
      hide Rank, Linked, Contents, Upsert, Inserted, Ordered, LeavesF, NodesF, Ids, HoldsTop, HoldsAll, DistinctF;
      hide CutLeft, CutRight, CutSep, Standing;
      AllAllocated(before + [node] + after);
      var added, u := PutEntry(node, key, row, t, lo, hi);
      if !added || |node.keys| <= maxKeys {
        split, seps, trees := None, [], [u];
        KeepTop(t, u, key, row, lo, hi, 0, maxKeys);
        StandAlone(t, u);
        return;
      }
      var s := SplitLeaf(node, u, before, after);
      SplitTop(t, u, s.right, key, row, lo, hi, 0, maxKeys);
      ghost var c := |u.keys| / 2;
      split, seps, trees := Some(s), [s.separatorKey], [CutLeft(u, c), CutRight(u, c, s.right)];
      CutTops(u, c, s.right);
      StandTwo(t, s.separatorKey, trees[0], trees[1]);
    }

    lemma CutTops(u: Tree<Node>, c: nat, r: Node)
      requires u.Leaf? && Cuttable(u, c)
      ensures CutLeft(u, c).Leaf? && CutLeft(u, c).id == u.id
      ensures CutRight(u, c, r).Leaf? && CutRight(u, c, r).id == r
    {
    }

    lemma StandAlone(t: Tree<Node>, u: Tree<Node>)
      requires t.Leaf? && u.Leaf? && u.id == t.id && HoldsTop(u)
      ensures Standing(t, None, [], [u]) && NodesF([u]) == Nodes(t) && Ids(LeavesF([u])) == [u.id]
    {
      LeavesOf1(u);
    }

    lemma StandTwo(t: Tree<Node>, sep: Key, l: Tree<Node>, r: Tree<Node>)
      requires t.Leaf? && l.Leaf? && r.Leaf? && HoldsTop(l) && HoldsTop(r) && l.id == t.id && r.id != t.id
      ensures Standing(t, Some(Split(sep, r.id)), [sep], [l, r])
      ensures NodesF([l, r]) == Nodes(t) + {r.id} && Ids(LeavesF([l, r])) == [l.id, r.id]
    {
      LeavesOf2(l, r);
    }

    // ---------- making room before descending ----------

    method TryRedistributeLeafWithLeft(parent: Node, ci: nat, ghost p: Tree<Node>) returns (ok: bool)
      requires Parent(parent, p) && ci < |p.kids| && Siblings(p, 0, |p.kids|) && |p.kids[ci].keys| >= 2
      modifies Nodes(p)`keys, Nodes(p)`values
      ensures ok <==> ci > 0 && p.kids[ci].Leaf? && |p.kids[ci - 1].keys| < maxKeys
      ensures if ok then Holds(Recut(p, ci - 1, |p.kids[ci - 1].keys| + 1)) else Holds(p)
    {
      hide Ids, Holds, Nodes, Distinct, Recut;
      if ci == 0 { return false; }
      SomeSiblings(p, ci - 1, 2);
      LookAt(p, ci - 1, 2);
      var leaf := parent.children[ci];
      var left := parent.children[ci - 1];
      if !leaf.isLeaf || !left.isLeaf { return false; }
      if |left.keys| >= maxKeys || leaf.keys == [] { return false; }
      RotateEntryLeft(parent, ci - 1, p);
      return true;
    }

    method TryRedistributeLeafWithRight(parent: Node, ci: nat, ghost p: Tree<Node>) returns (ok: bool)
      requires Parent(parent, p) && ci < |p.kids| && Siblings(p, 0, |p.kids|) && |p.kids[ci].keys| >= 2
      modifies Nodes(p)`keys, Nodes(p)`values
      ensures ok <==> ci + 1 < |p.kids| && p.kids[ci].Leaf? && |p.kids[ci + 1].keys| < maxKeys
      ensures if ok then Holds(Recut(p, ci, |p.kids[ci].keys| - 1)) else Holds(p)
    {
      hide Ids, Holds, Nodes, Distinct, Recut;
      LookAtTop(p);
      if ci + 1 >= |parent.children| { return false; }
      SomeSiblings(p, ci, 2);
      LookAt(p, ci, 2);
      var leaf := parent.children[ci];
      var right := parent.children[ci + 1];
      if !leaf.isLeaf || !right.isLeaf { return false; }
      if |right.keys| >= maxKeys || leaf.keys == [] { return false; }
      RotateEntryRight(parent, ci, p);
      return true;
    }

    method TryTwoToThreeSplitLeafWithRight(parent: Node, ci: nat, ghost p: Tree<Node>,
                                           ghost before: seq<Node>, ghost after: seq<Node>)
      returns (ok: bool, ghost m: Node)
      requires maxKeys >= 3 && Parent(parent, p) && ci < |p.kids| && Siblings(p, 0, |p.kids|)
      requires Linked(Chain(before, p, after))
      modifies Nodes(p)`keys, Nodes(p)`values, Nodes(p)`children
      modifies Nodes(p)`nextLeaf, Nodes(p)`prevLeaf
      ensures ok <==> ci + 1 < |p.kids| && TwoFullNeighbours(p, ci) && p.kids[ci].Leaf?
      ensures ok ==> fresh(m)
      ensures var p' := if ok then Thirds(p, ci, m) else p;
        Holds(p') && Linked(Chain(before, p', after))
    {
      hide Ids, Holds, Nodes, Distinct, TwoToThree, Linked, Chain;
      m := parent;
      LookAtTop(p);
      if ci + 1 >= |parent.children| || |parent.keys| >= maxKeys { return false, m; }
      SomeSiblings(p, ci, 2);
      LookAt(p, ci, 2);
      var left := parent.children[ci];
      var right := parent.children[ci + 1];
      if !left.isLeaf || !right.isLeaf { return false, m; }
      var total := |left.keys| + |right.keys|;
      if |left.keys| < maxKeys || |right.keys| < maxKeys
         || SecondLeaf(total) == 0 || ThirdLeaf(total) == SecondLeaf(total) || ThirdLeaf(total) == total {
        return false, m;
      }
      m := SplitTwoLeaves(parent, ci, SecondLeaf(total), ThirdLeaf(total), p, before, after);
      return true, m;
    }

    /** Children `i` and `i + 1` have no room and their parent has. */
    ghost predicate TwoFullNeighbours(p: Tree<Node>, i: nat)
      requires p.Inner? && i + 1 < |p.kids|
    {
      |p.keys| < maxKeys && |p.kids[i].keys| >= maxKeys && |p.kids[i + 1].keys| >= maxKeys
    }

    method TryTwoToThreeSplitLeafWithLeft(parent: Node, ci: nat, ghost p: Tree<Node>,
                                          ghost before: seq<Node>, ghost after: seq<Node>)
      returns (ok: bool, ghost m: Node)
      requires maxKeys >= 3 && Parent(parent, p) && ci < |p.kids| && Siblings(p, 0, |p.kids|)
      requires Linked(Chain(before, p, after))
      modifies Nodes(p)`keys, Nodes(p)`values, Nodes(p)`children
      modifies Nodes(p)`nextLeaf, Nodes(p)`prevLeaf
      ensures ok <==> ci > 0 && TwoFullNeighbours(p, ci - 1) && p.kids[ci - 1].Leaf?
      ensures ok ==> fresh(m)
      ensures var p' := if ok then Thirds(p, ci - 1, m) else p;
        Holds(p') && Linked(Chain(before, p', after))
    {
      hide Ids, Holds, Nodes, Distinct, Thirds, Linked, Chain;
      LookAtTop(p);
      if ci == 0 || |parent.keys| >= maxKeys { return false, parent; }
      ok, m := TryTwoToThreeSplitLeafWithRight(parent, ci - 1, p, before, after);
    }

    method TryRedistributeInternalWithLeft(parent: Node, ci: nat, ghost p: Tree<Node>) returns (ok: bool)
      requires Parent(parent, p) && ci < |p.kids| && Siblings(p, 0, |p.kids|) && |p.kids[ci].keys| >= 1
      modifies Nodes(p)`keys, Nodes(p)`children
      ensures ok <==> ci > 0 && p.kids[ci].Inner? && |p.kids[ci - 1].keys| < maxKeys
      ensures if ok then Holds(Recut(p, ci - 1, |p.kids[ci - 1].keys| + 1)) else Holds(p)
    {
      hide Holds, Nodes, Distinct, Recut;
      if ci == 0 { return false; }
      SomeSiblings(p, ci - 1, 2);
      LookAt(p, ci - 1, 2);
      var node := parent.children[ci];
      var left := parent.children[ci - 1];
      if node.isLeaf || left.isLeaf { return false; }
      if |left.keys| >= maxKeys || node.keys == [] || node.children == [] { return false; }
      RotateChildLeft(parent, ci - 1, p);
      return true;
    }

    method TryRedistributeInternalWithRight(parent: Node, ci: nat, ghost p: Tree<Node>) returns (ok: bool)
      requires Parent(parent, p) && ci < |p.kids| && Siblings(p, 0, |p.kids|) && |p.kids[ci].keys| >= 1
      modifies Nodes(p)`keys, Nodes(p)`children
      ensures ok <==> ci + 1 < |p.kids| && p.kids[ci].Inner? && |p.kids[ci + 1].keys| < maxKeys
      ensures if ok then Holds(Recut(p, ci, |p.kids[ci].keys| - 1)) else Holds(p)
    {
      hide Holds, Nodes, Distinct, Recut;
      LookAtTop(p);
      if ci + 1 >= |parent.children| { return false; }
      SomeSiblings(p, ci, 2);
      LookAt(p, ci, 2);
      var node := parent.children[ci];
      var right := parent.children[ci + 1];
      if node.isLeaf || right.isLeaf { return false; }
      if |right.keys| >= maxKeys || node.keys == [] || node.children == [] { return false; }
      RotateChildRight(parent, ci, p);
      return true;
    }

    method TryTwoToThreeSplitInternalWithRight(parent: Node, ci: nat, ghost p: Tree<Node>)
      returns (ok: bool, ghost m: Node)
      requires maxKeys >= 3 && Parent(parent, p) && ci < |p.kids| && Siblings(p, 0, |p.kids|)
      modifies Nodes(p)`keys, Nodes(p)`children
      ensures ok <==> ci + 1 < |p.kids| && TwoFullNeighbours(p, ci) && p.kids[ci].Inner?
      ensures ok ==> fresh(m)
      ensures Holds(if ok then Thirds(p, ci, m) else p)
    {
      hide Ids, Holds, Nodes, Distinct, TwoToThree;
      m := parent;
      LookAtTop(p);
      if ci + 1 >= |parent.children| || |parent.keys| >= maxKeys { return false, m; }
      SomeSiblings(p, ci, 2);
      LookAt(p, ci, 2);
      var left := parent.children[ci];
      var right := parent.children[ci + 1];
      if left.isLeaf || right.isLeaf { return false, m; }
      var total := |left.keys| + |right.keys| + 1;
      if |left.keys| < maxKeys || |right.keys| < maxKeys
         || FirstSeparator(total) == 0 || SecondSeparator(total) == FirstSeparator(total) + 1
         || SecondSeparator(total) == total - 1 {
        return false, m;
      }
      m := SplitTwoInternals(parent, ci, FirstSeparator(total), SecondSeparator(total), p);
      return true, m;
    }

    method TryTwoToThreeSplitInternalWithLeft(parent: Node, ci: nat, ghost p: Tree<Node>)
      returns (ok: bool, ghost m: Node)
      requires maxKeys >= 3 && Parent(parent, p) && ci < |p.kids| && Siblings(p, 0, |p.kids|)
      modifies Nodes(p)`keys, Nodes(p)`children
      ensures ok <==> ci > 0 && TwoFullNeighbours(p, ci - 1) && p.kids[ci - 1].Inner?
      ensures ok ==> fresh(m)
      ensures Holds(if ok then Thirds(p, ci - 1, m) else p)
    {
      hide Ids, Holds, Nodes, Distinct, Thirds;
      LookAtTop(p);
      if ci == 0 || |parent.keys| >= maxKeys { return false, parent; }
      ok, m := TryTwoToThreeSplitInternalWithRight(parent, ci - 1, p);
    }

    /** What evening out the children of `t` around the full child `ci` amounts to: nothing, a key moved,
        or the children `i` and `i + 1` turned into three. */
    ghost predicate Evened(t: Tree<Node>, p: Tree<Node>, ci: nat, i: nat, m: Node, adjusted: bool,
                           lo: real, hi: real, h: nat)
    {
      && Adjusted(t, p, lo, hi, h, maxKeys)
      && (!adjusted ==> p == t)
      && (|p.keys| == |t.keys| || Widened(t, p, ci, i, m))
    }

    ghost predicate Widened(t: Tree<Node>, p: Tree<Node>, ci: nat, i: nat, m: Node) {
      && |t.keys| < maxKeys && |p.keys| == |t.keys| + 1 && i <= ci <= i + 1
      && Siblings(t, i, 2) && |Fuse2(t, i).keys| >= 6 && p == Thirds(t, i, m)
      && |t.kids[i].keys| == maxKeys && |t.kids[i + 1].keys| == maxKeys
    }

    lemma NotEvened(t: Tree<Node>, ci: nat, m: Node, lo: real, hi: real, h: nat)
      requires Sub(t, lo, hi, h, maxKeys) && Distinct(t) && t.Inner?
      ensures Evened(t, t, ci, 0, m, false, lo, hi, h)
    {
    }

    lemma ChildSizes(t: Tree<Node>, lo: real, hi: real, h: nat)
      requires Sub(t, lo, hi, h, maxKeys) && h > 0
      ensures t.Inner? && |t.kids| == |t.keys| + 1 && Siblings(t, 0, |t.kids|)
      ensures forall j :: 0 <= j < |t.kids| ==> MinKeys(maxKeys) <= |t.kids[j].keys| <= maxKeys
      ensures forall j :: 0 <= j < |t.kids| ==> (t.kids[j].Leaf? <==> h == 1)
    {
      KidsOrdered(t, lo, hi, h);
      OrderedSiblings(t, 0, |t.kids|, lo, hi, h);
      assert Forest(t.keys, t.kids, lo, hi, h - 1);
      forall j | 0 <= j < |t.kids|
        ensures MinKeys(maxKeys) <= |t.kids[j].keys| <= maxKeys && (t.kids[j].Leaf? <==> h == 1)
      {
        assert Full(t.kids[j], maxKeys);
        assert Ordered(t.kids[j], Lo(t.keys, j, lo), Hi(t.keys, j, hi), h - 1);
        hide Ordered, Forest;
        OrderedShaped(t.kids[j], Lo(t.keys, j, lo), Hi(t.keys, j, hi), h - 1);
      }
    }

    lemma NodesAllocated(t: Tree<Node>)
      ensures allocated(Nodes(t))
    {
    }

    /** A full leaf hands a key to a neighbour that has room. */
    method RedistributeLeaf(node: Node, ci: nat, ghost t: Tree<Node>, ghost lo: real, ghost hi: real, ghost h: nat)
      returns (adjusted: bool, ghost p: Tree<Node>)
      requires Capacity(maxKeys) && Parent(node, t) && Sub(t, lo, hi, h, maxKeys) && h == 1
      requires ci < |t.kids| && |t.kids[ci].keys| == maxKeys
      modifies Nodes(t)`keys, Nodes(t)`values
      ensures Adjusted(t, p, lo, hi, h, maxKeys) && Holds(p)
      ensures |p.keys| == |t.keys| && Ids(Leaves(p)) == Ids(Leaves(t)) && Nodes(p) == Nodes(t)
      ensures !adjusted ==> p == t
    {
      hide Rank, Ids, Holds, Nodes, Distinct, Recut, Leaves, Sub, Contents, Siblings, Fuse2;
      ChildSizes(t, lo, hi, h);
      p := t;
      adjusted := TryRedistributeLeafWithLeft(node, ci, t);
      if adjusted {
        MovedLeft(t, ci, lo, hi, h, maxKeys);
        p := Recut(t, ci - 1, |t.kids[ci - 1].keys| + 1);
        return;
      }
      adjusted := TryRedistributeLeafWithRight(node, ci, t);
      if adjusted {
        MovedRight(t, ci, lo, hi, h, maxKeys);
        p := Recut(t, ci, |t.kids[ci].keys| - 1);
      }
    }

    lemma WidenedAt(t: Tree<Node>, ci: nat, i: nat, m: Node, lo: real, hi: real, h: nat)
      requires Capacity(maxKeys) && Sub(t, lo, hi, h, maxKeys) && h > 0 && Distinct(t)
      requires i <= ci <= i + 1 && i + 1 < |t.kids| && TwoFullNeighbours(t, i) && m !in Nodes(t)
      ensures Siblings(t, i, 2) && |Fuse2(t, i).keys| >= 6
      ensures var p := Thirds(t, i, m);
        Adjusted(t, p, lo, hi, h, maxKeys) && Widened(t, p, ci, i, m) && Nodes(p) == Nodes(t) + {m}
        && (h > 1 ==> Ids(Leaves(p)) == Ids(Leaves(t)))
    {
      hide Rank, Ids, Nodes, Distinct, Leaves, Sub, Contents, Siblings, Fuse2, Thirds, Adjusted;
      ChildSizes(t, lo, hi, h);
      SplitInThirds(t, i, m, lo, hi, h, maxKeys);
    }

    /** A full leaf and a full right neighbour become three leaves, if the parent has room. */
    method WidenLeavesRight(node: Node, ci: nat, ghost t: Tree<Node>, ghost before: seq<Node>, ghost after: seq<Node>,
                  ghost lo: real, ghost hi: real, ghost h: nat)
      returns (adjusted: bool, ghost p: Tree<Node>, ghost i: nat, ghost m: Node)
      requires Capacity(maxKeys) && Parent(node, t) && Sub(t, lo, hi, h, maxKeys) && h == 1
      requires ci < |t.kids| && |t.kids[ci].keys| == maxKeys
      requires Linked(Chain(before, t, after))
      modifies Nodes(t)`keys, Nodes(t)`values, Nodes(t)`children
      modifies Nodes(t)`nextLeaf, Nodes(t)`prevLeaf
      ensures Holds(p) && Linked(Chain(before, p, after)) && fresh(Nodes(p) - Nodes(t))
      ensures if adjusted then Adjusted(t, p, lo, hi, h, maxKeys) && Widened(t, p, ci, i, m) else p == t
    {
      hide Rank, Ids, Holds, Nodes, Distinct, Leaves, Sub, Siblings, Fuse2, Thirds, Linked, Chain;
      hide Adjusted, Widened, TwoFullNeighbours, Elems, MinKeys;
      ChildSizes(t, lo, hi, h);
      NodesAllocated(t);
      p, i := t, 0;
      adjusted, m := TryTwoToThreeSplitLeafWithRight(node, ci, t, before, after);
      if adjusted {
        WidenedAt(t, ci, ci, m, lo, hi, h);
        p, i := Thirds(t, ci, m), ci;
      }
    }

    /** The same with the left neighbour. */
    method WidenLeavesLeft(node: Node, ci: nat, ghost t: Tree<Node>, ghost before: seq<Node>, ghost after: seq<Node>,
                  ghost lo: real, ghost hi: real, ghost h: nat)
      returns (adjusted: bool, ghost p: Tree<Node>, ghost i: nat, ghost m: Node)
      requires Capacity(maxKeys) && Parent(node, t) && Sub(t, lo, hi, h, maxKeys) && h == 1
      requires ci < |t.kids| && |t.kids[ci].keys| == maxKeys
      requires Linked(Chain(before, t, after))
      modifies Nodes(t)`keys, Nodes(t)`values, Nodes(t)`children
      modifies Nodes(t)`nextLeaf, Nodes(t)`prevLeaf
      ensures Holds(p) && Linked(Chain(before, p, after)) && fresh(Nodes(p) - Nodes(t))
      ensures if adjusted then Adjusted(t, p, lo, hi, h, maxKeys) && Widened(t, p, ci, i, m) else p == t
    {
      hide Rank, Ids, Holds, Nodes, Distinct, Leaves, Sub, Siblings, Fuse2, Thirds, Linked, Chain;
      hide Adjusted, Widened, TwoFullNeighbours, Elems, MinKeys;
      ChildSizes(t, lo, hi, h);
      NodesAllocated(t);
      p, i := t, 0;
      adjusted, m := TryTwoToThreeSplitLeafWithLeft(node, ci, t, before, after);
      if adjusted {
        i := ci - 1;
        WidenedAt(t, ci, i, m, lo, hi, h);
        p := Thirds(t, i, m);
      }
    }

    /** A full inner node hands a child to a neighbour that has room. */
    method RedistributeInternal(node: Node, ci: nat, ghost t: Tree<Node>, ghost lo: real, ghost hi: real, ghost h: nat)
      returns (adjusted: bool, ghost p: Tree<Node>)
      requires Capacity(maxKeys) && Parent(node, t) && Sub(t, lo, hi, h, maxKeys) && h > 1
      requires ci < |t.kids| && |t.kids[ci].keys| == maxKeys
      modifies Nodes(t)`keys, Nodes(t)`children
      ensures Adjusted(t, p, lo, hi, h, maxKeys) && Holds(p)
      ensures |p.keys| == |t.keys| && Ids(Leaves(p)) == Ids(Leaves(t)) && Nodes(p) == Nodes(t)
      ensures !adjusted ==> p == t
    {
      hide Rank, Ids, Holds, Nodes, Distinct, Recut, Leaves, Sub, Contents, Siblings, Fuse2;
      ChildSizes(t, lo, hi, h);
      p := t;
      adjusted := TryRedistributeInternalWithLeft(node, ci, t);
      if adjusted {
        MovedLeft(t, ci, lo, hi, h, maxKeys);
        p := Recut(t, ci - 1, |t.kids[ci - 1].keys| + 1);
        return;
      }
      adjusted := TryRedistributeInternalWithRight(node, ci, t);
      if adjusted {
        MovedRight(t, ci, lo, hi, h, maxKeys);
        p := Recut(t, ci, |t.kids[ci].keys| - 1);
      }
    }

    /** A full inner node and a full neighbour become three, if the parent has room. */
    method WidenInternals(node: Node, ci: nat, ghost t: Tree<Node>, ghost lo: real, ghost hi: real, ghost h: nat)
      returns (adjusted: bool, ghost p: Tree<Node>, ghost i: nat, ghost m: Node)
      requires Capacity(maxKeys) && Parent(node, t) && Sub(t, lo, hi, h, maxKeys) && h > 1
      requires ci < |t.kids| && |t.kids[ci].keys| == maxKeys
      modifies Nodes(t)`keys, Nodes(t)`children
      ensures Holds(p) && Ids(Leaves(p)) == Ids(Leaves(t)) && fresh(Nodes(p) - Nodes(t))
      ensures if adjusted then Adjusted(t, p, lo, hi, h, maxKeys) && Widened(t, p, ci, i, m) else p == t
    {
      hide Rank, Ids, Holds, Nodes, Distinct, Leaves, Sub, Siblings, Fuse2, Thirds, Adjusted, Widened,
        TwoFullNeighbours;
      ChildSizes(t, lo, hi, h);
      NodesAllocated(t);
      p, i := t, 0;
      adjusted, m := TryTwoToThreeSplitInternalWithRight(node, ci, t);
      if adjusted {
        WidenedAt(t, ci, ci, m, lo, hi, h);
        p, i := Thirds(t, ci, m), ci;
        return;
      }
      adjusted, m := TryTwoToThreeSplitInternalWithLeft(node, ci, t);
      if adjusted {
        i := ci - 1;
        WidenedAt(t, ci, i, m, lo, hi, h);
        p := Thirds(t, i, m);
      }
    }

    method MakeRoomAmongLeaves(node: Node, ci: nat, ghost t: Tree<Node>, ghost before: seq<Node>,
                               ghost after: seq<Node>,
                               ghost lo: real, ghost hi: real, ghost h: nat)
      returns (adjusted: bool, ghost p: Tree<Node>, ghost i: nat, ghost m: Node)
      requires Capacity(maxKeys) && Parent(node, t) && Sub(t, lo, hi, h, maxKeys) && h == 1
      requires ci < |t.kids| && |t.kids[ci].keys| == maxKeys
      requires Linked(Chain(before, t, after))
      modifies Nodes(t)`keys, Nodes(t)`values, Nodes(t)`children
      modifies Nodes(t)`nextLeaf, Nodes(t)`prevLeaf
      ensures Evened(t, p, ci, i, m, adjusted, lo, hi, h) && Holds(p)
      ensures Linked(Chain(before, p, after)) && fresh(Nodes(p) - Nodes(t))
    {
      hide Rank, Ids, Holds, Distinct, Leaves, Sub, Linked, Contents, Capacity, Adjusted, Widened, Elems;
      NodesAllocated(t);
      AllAllocated(Chain(before, t, after));
      i, m := 0, node;
      adjusted, p := RedistributeLeaf(node, ci, t, lo, hi, h);
      if adjusted { return; }
      adjusted, p, i, m := WidenLeavesRight(node, ci, t, before, after, lo, hi, h);
      if adjusted { return; }
      adjusted, p, i, m := WidenLeavesLeft(node, ci, t, before, after, lo, hi, h);
    }

    method MakeRoomAmongInternals(node: Node, ci: nat, ghost t: Tree<Node>, ghost lo: real, ghost hi: real,
                                  ghost h: nat)
      returns (adjusted: bool, ghost p: Tree<Node>, ghost i: nat, ghost m: Node)
      requires Capacity(maxKeys) && Parent(node, t) && Sub(t, lo, hi, h, maxKeys) && h > 1
      requires ci < |t.kids| && |t.kids[ci].keys| == maxKeys
      modifies Nodes(t)`keys, Nodes(t)`children
      ensures Evened(t, p, ci, i, m, adjusted, lo, hi, h) && Holds(p)
      ensures Ids(Leaves(p)) == Ids(Leaves(t)) && fresh(Nodes(p) - Nodes(t))
    {
      hide Rank, Ids, Holds, Distinct, Leaves, Sub, Contents, Capacity, Adjusted, Widened;
      NodesAllocated(t);
      i, m := 0, node;
      adjusted, p := RedistributeInternal(node, ci, t, lo, hi, h);
      if adjusted { return; }
      adjusted, p, i, m := WidenInternals(node, ci, t, lo, hi, h);
    }

    /** What the `i`-th child looks like. */
    lemma ChildAt(t: Tree<Node>, i: nat, lo: real, hi: real, h: nat)
      requires Parent(t.id, t) && Sub(t, lo, hi, h, maxKeys) && h > 0 && i <= |t.keys|
      ensures |t.kids| == |t.keys| + 1 && t.id.keys == t.keys && |t.id.children| == |t.kids|
      ensures t.id.children[i] == t.kids[i].id && t.kids[i].id.keys == t.kids[i].keys
      ensures MinKeys(maxKeys) <= |t.kids[i].keys| <= maxKeys
      ensures t.kids[i].id.isLeaf <==> h == 1
    {
      ChildSizes(t, lo, hi, h);
      SomeSiblings(t, i, 1);
      LookAt(t, i, 1);
    }

    /** Evens out the neighbourhood of the full child `ci`. */
    method EvenOut(node: Node, ci: nat, ghost t: Tree<Node>, ghost before: seq<Node>, ghost after: seq<Node>,
                   ghost lo: real, ghost hi: real, ghost h: nat)
      returns (adjusted: bool, ghost p: Tree<Node>, ghost i: nat, ghost m: Node)
      requires Capacity(maxKeys) && Parent(node, t) && Sub(t, lo, hi, h, maxKeys) && h > 0
      requires ci < |t.kids| && |t.kids[ci].keys| == maxKeys
      requires Linked(Chain(before, t, after))
      modifies Nodes(t)`keys, Nodes(t)`values, Nodes(t)`children
      modifies Nodes(t)`nextLeaf, Nodes(t)`prevLeaf
      ensures Evened(t, p, ci, i, m, adjusted, lo, hi, h) && Holds(p)
      ensures Linked(Chain(before, p, after)) && fresh(Nodes(p) - Nodes(t))
    {
      hide Rank, Ids, Holds, Distinct, Leaves, Sub, Capacity, Evened, Linked, Elems;
      ChildSizes(t, lo, hi, h);
      ChildAt(t, ci, lo, hi, h);
      AllAllocated(Chain(before, t, after));
      if node.children[ci].isLeaf {
        adjusted, p, i, m := MakeRoomAmongLeaves(node, ci, t, before, after, lo, hi, h);
      } else {
        adjusted, p, i, m := MakeRoomAmongInternals(node, ci, t, lo, hi, h);
      }
    }

    /** Before descending: if the routed child is full, even out its neighbourhood and route again. */
    method MakeRoom(node: Node, key: Key, ghost t: Tree<Node>, ghost before: seq<Node>, ghost after: seq<Node>,
                    ghost lo: real, ghost hi: real, ghost h: nat)
      returns (ci: nat, ghost p: Tree<Node>)
      requires Capacity(maxKeys) && Parent(node, t) && Sub(t, lo, hi, h, maxKeys) && h > 0
      requires Linked(Chain(before, t, after))
      modifies Nodes(t)`keys, Nodes(t)`values, Nodes(t)`children
      modifies Nodes(t)`nextLeaf, Nodes(t)`prevLeaf
      ensures Adjusted(t, p, lo, hi, h, maxKeys) && Holds(p)
      ensures RoutesTo(p.keys, ci, key) && ci < |p.kids|
      ensures |t.keys| <= |p.keys| <= |t.keys| + 1
      ensures |p.keys| > |t.keys| ==> |t.keys| < maxKeys && |p.kids[ci].keys| < maxKeys
      ensures Linked(Chain(before, p, after)) && fresh(Nodes(p) - Nodes(t))
    {
      hide Rank, Ids, Holds, Distinct, Leaves, Sub, Capacity, Evened, Linked;
      ChildSizes(t, lo, hi, h);
      LookAtTop(t);
      ci, p := UpperBound(node.keys, key), t;
      ChildAt(t, ci, lo, hi, h);
      NotEvened(t, ci, node, lo, hi, h);
      ghost var i, m, first := 0, node, ci;
      var adjusted := false;
      if |node.children[ci].keys| >= maxKeys {
        adjusted, p, i, m := EvenOut(node, ci, t, before, after, lo, hi, h);
      }
      EvenedTop(t, p, ci, i, m, adjusted, lo, hi, h);
      if adjusted {
        LookAtTop(p);
        ci := UpperBound(node.keys, key);
      }
      EvenedRoute(t, p, first, ci, key, i, m, adjusted, lo, hi, h);
    }

    lemma EvenedTop(t: Tree<Node>, p: Tree<Node>, first: nat, i: nat, m: Node, adjusted: bool,
                    lo: real, hi: real, h: nat)
      requires Evened(t, p, first, i, m, adjusted, lo, hi, h)
      ensures p.Inner? && p.id == t.id && (!adjusted ==> p == t)
    {
    }

    /** If the parent had to take one more child, the child that the key is routed to now has room. */
    lemma EvenedRoute(t: Tree<Node>, p: Tree<Node>, first: nat, ci: nat, key: Key, i: nat, m: Node, adjusted: bool,
                      lo: real, hi: real, h: nat)
      requires Capacity(maxKeys) && Sub(t, lo, hi, h, maxKeys) && h > 0
      requires Evened(t, p, first, i, m, adjusted, lo, hi, h)
      requires RoutesTo(t.keys, first, key) && RoutesTo(p.keys, ci, key)
      ensures Adjusted(t, p, lo, hi, h, maxKeys) && (!adjusted ==> p == t)
      ensures |t.keys| <= |p.keys| <= |t.keys| + 1
      ensures |p.kids| == |p.keys| + 1
      ensures |p.keys| > |t.keys| ==> |t.keys| < maxKeys && |p.kids[ci].keys| < maxKeys
    {
      hide Rank, Contents, Distinct, RoutesTo, Thirds;
      ChildSizes(p, lo, hi, h);
      if |p.keys| != |t.keys| {
        ThirdsFull(t, i, m, maxKeys);
        ThirdsRoute(t, i, m, first, ci, key, lo, hi, h);
      }
    }

    // ---------- insertion ----------

    /** What the child hands up joins its parent: `trees` take the place of the `ci`-th child. */
    method Attach(node: Node, ci: nat, split: Option<Split>,
                  ghost p: Tree<Node>, ghost seps: seq<Key>, ghost trees: seq<Tree<Node>>)
      requires Pluggable(p, ci, 1) && p.id == node && HoldsTop(p)
      requires |trees| == |seps| + 1 && trees[0].id == p.kids[ci].id && Standing(p.kids[ci], split, seps, trees)
      requires HoldsAll(p.kids[..ci]) && HoldsAll(p.kids[ci + 1..])
      requires node !in NodesF(p.kids[..ci]) && node !in NodesF(p.kids[ci + 1..]) && node !in NodesF(trees)
      modifies node`keys, node`children
      ensures Holds(Plug(p, ci, 1, seps, trees)) && node.keys == Plug(p, ci, 1, seps, trees).keys
      ensures HoldsAll(trees)
    {
      hide HoldsAll, NodesF, Holds, Plug;
      AttachedTop(p, ci, split, seps, trees);
      if split.Some? {
        var s := split.value;
        node.keys := node.keys[..ci] + [s.separatorKey] + node.keys[ci..];
        node.children := node.children[..ci + 1] + [s.right] + node.children[ci + 1..];
      }
      Assembled(p, ci, 1, seps, trees);
    }

    lemma AttachedTop(p: Tree<Node>, ci: nat, split: Option<Split>, seps: seq<Key>, trees: seq<Tree<Node>>)
      requires Pluggable(p, ci, 1)
      requires |trees| == |seps| + 1 && trees[0].id == p.kids[ci].id && Standing(p.kids[ci], split, seps, trees)
      ensures var u, ks, c := Plug(p, ci, 1, seps, trees), p.keys, Ids(p.kids);
        && u.Inner? && u.id == p.id
        && u.keys == (if split.Some? then ks[..ci] + [split.value.separatorKey] + ks[ci..] else ks)
        && Ids(u.kids) == if split.Some? then c[..ci + 1] + [split.value.right] + c[ci + 1..] else c
    {
      hide HoldsAll, NodesF, DistinctF;
      var u, c := Plug(p, ci, 1, seps, trees), Ids(p.kids);
      if split.Some? {
        assert Ids(u.kids) == c[..ci + 1] + [split.value.right] + c[ci + 1..];
      } else {
        assert Ids(u.kids) == c;
      }
    }

    /** The routed child on its own is a subtree in order. */
    lemma KidInOrder(p: Tree<Node>, i: nat, key: Key, lo: real, hi: real, h: nat)
      requires Capacity(maxKeys) && Sub(p, lo, hi, h, maxKeys) && h > 0 && p.Inner? && i < |p.kids|
      requires RoutesTo(p.keys, i, key) && lo <= Rank(key) < hi
      ensures Pluggable(p, i, 1) && Sub(p.kids[i], Lo(p.keys, i, lo), Hi(p.keys, i, hi), h - 1, maxKeys)
      ensures Lo(p.keys, i, lo) <= Rank(key) < Hi(p.keys, i, hi)
    {
      KidsOrdered(p, lo, hi, h);
      assert Forest(p.keys, p.kids, lo, hi, h - 1);
      assert Full(p.kids[i], maxKeys);
      RouteSplits(p.keys, p.kids, i, key, lo, hi, h - 1);
    }

    /** Insertion below an inner node that has made room. */
    method InsertBelow(node: Node, ci: nat, key: Key, row: RowId, ghost p: Tree<Node>,
                       ghost before: seq<Node>, ghost after: seq<Node>, ghost lo: real, ghost hi: real, ghost h: nat)
      returns (ghost u: Tree<Node>)
      requires Capacity(maxKeys) && Parent(node, p) && Sub(p, lo, hi, h, maxKeys) && h > 0
      requires RoutesTo(p.keys, ci, key) && ci < |p.kids| && lo <= Rank(key) < hi
      requires Linked(Chain(before, p, after))
      modifies Nodes(p), Elems(after)`prevLeaf
      ensures Parent(node, u) && node.keys == u.keys
      ensures Ordered(u, lo, hi, h) && FullBelow(u, maxKeys) && Contents(u) == Upsert(Contents(p), key, row)
      ensures |p.keys| <= |u.keys| <= |p.keys| + 1
      ensures |p.kids[ci].keys| < maxKeys ==> |u.keys| == |p.keys|
      ensures Linked(Chain(before, u, after)) && fresh(Nodes(u) - Nodes(p))
      decreases h, 0
    {
      hide Rank, Ids, Holds, HoldsAll, Distinct, DistinctF, Leaves, LeavesF, Sub, Linked, Upsert, RoutesTo, Ordered,
        Contents;
      hide FullBelow, Inserted, Elems, Chain, Lo, Hi, IdsBefore, IdsFrom, Plug;
      KidInOrder(p, ci, key, lo, hi, h);
      ghost var kid, lo', hi' := p.kids[ci], Lo(p.keys, ci, lo), Hi(p.keys, ci, hi);
      ghost var before', after' := before + IdsBefore(p, ci), IdsFrom(p, ci + 1) + after;
      ChildAt(p, ci, lo, hi, h);
      SetApart(p, ci);
      AfterKid(p, ci, after);
      ChainAt(before, p, ci, after, [], [kid]);
      var split;
      ghost var seps, trees;
      split, seps, trees := InsertRecursive(node.children[ci], key, row, kid, before', after', lo', hi', h - 1);
      InsertedSizes(kid, seps, trees, key, row, lo', hi', h - 1);
      AllAllocated(ChainAcross(before', trees, after'));
      Attach(node, ci, split, p, seps, trees);
      u := Plug(p, ci, 1, seps, trees);
      Plugged(p, ci, 1, seps, trees);
      ChainAt(before, p, ci, after, seps, trees);
      InsertedBelow(p, ci, seps, trees, key, row, lo, hi, h, maxKeys);
      PlugDistinct(p, ci, 1, seps, trees);
    }

    lemma AfterKid(p: Tree<Node>, ci: nat, after: seq<Node>)
      requires p.Inner? && ci < |p.kids|
      ensures Elems(IdsFrom(p, ci + 1) + after) <= Nodes(p) + Elems(after)
    {
      FromInNodes(p, ci + 1);
    }

    lemma InsertedSizes(t: Tree<Node>, seps: seq<Key>, trees: seq<Tree<Node>>, key: Key, row: RowId,
                        lo: real, hi: real, h: nat)
      requires Inserted(t, seps, trees, key, row, lo, hi, h, maxKeys)
      ensures 1 <= |trees| <= 2 && |trees| == |seps| + 1 && trees[0].id == t.id
      ensures |t.keys| < maxKeys ==> |trees| == 1
    {
    }

    /** A node is a leaf exactly at height 0. */
    lemma LeafOrInner(t: Tree<Node>, lo: real, hi: real, h: nat)
      requires Holds(t) && Sub(t, lo, hi, h, maxKeys)
      ensures HoldsTop(t) && (t.id.isLeaf <==> h == 0) && (t.Leaf? <==> h == 0) && |t.keys| <= maxKeys
    {
    }

    /** Insertion into the subtree `t`, of height `h`, that holds the keys in [lo, hi). */
    method InsertRecursive(node: Node, key: Key, row: RowId, ghost t: Tree<Node>,
                           ghost before: seq<Node>, ghost after: seq<Node>, ghost lo: real, ghost hi: real,
                           ghost h: nat)
      returns (split: Option<Split>, ghost seps: seq<Key>, ghost trees: seq<Tree<Node>>)
      requires Capacity(maxKeys) && t.id == node && Holds(t) && Distinct(t) && Sub(t, lo, hi, h, maxKeys)
      requires lo <= Rank(key) < hi
      requires Linked(Chain(before, t, after))
      modifies Nodes(t), Elems(after)`prevLeaf
      ensures Inserted(t, seps, trees, key, row, lo, hi, h, maxKeys)
      ensures Standing(t, split, seps, trees) && fresh(NodesF(trees) - Nodes(t))
      ensures Linked(ChainAcross(before, trees, after))
      decreases h, 1
    {
      hide Rank, Ids, Holds, HoldsAll, Distinct, Sub, Leaves, LeavesF, Linked, Chain, ChainAcross, Elems, Standing,
        Inserted, RoutesTo;
      LeafOrInner(t, lo, hi, h);
      if node.isLeaf {
        LeafChain(before, t, after);
        split, seps, trees := InsertIntoLeaf(node, key, row, t, before, after, lo, hi);
        return;
      }
      var ci;
      ghost var p;
      ci, p := MakeRoom(node, key, t, before, after, lo, hi, h);
      ghost var u := InsertBelow(node, ci, key, row, p, before, after, lo, hi, h);
      NodesAllocated(t);
      ghost var grown := Nodes(u) - Nodes(t);
      assert fresh(grown);
      split, seps, trees := SplitIfOver(node, t, u, key, row, before, after, lo, hi, h);
    }

    lemma LeafChain(before: seq<Node>, t: Tree<Node>, after: seq<Node>)
      requires t.Leaf?
      ensures Chain(before, t, after) == before + [t.id] + after && Nodes(t) == {t.id}
    {
    }

    /** The end of an insertion below `t`: the grown node `u` is handed back, in two halves if it has too many keys. */
    method SplitIfOver(node: Node, ghost t: Tree<Node>, ghost u: Tree<Node>, key: Key, row: RowId,
                       ghost before: seq<Node>, ghost after: seq<Node>, ghost lo: real, ghost hi: real, ghost h: nat)
      returns (split: Option<Split>, ghost seps: seq<Key>, ghost trees: seq<Tree<Node>>)
      requires Capacity(maxKeys) && Parent(node, u) && node.keys == u.keys && node == t.id
      requires Ordered(u, lo, hi, h) && FullBelow(u, maxKeys) && Contents(u) == Upsert(Contents(t), key, row)
      requires |t.keys| <= |u.keys| <= |t.keys| + 1 && |t.keys| <= maxKeys && lo < hi
      requires Linked(Chain(before, u, after))
      modifies node`keys, node`children
      ensures Inserted(t, seps, trees, key, row, lo, hi, h, maxKeys)
      ensures Standing(t, split, seps, trees) && fresh(NodesF(trees) - Nodes(u))
      ensures Linked(ChainAcross(before, trees, after))
    {
      hide Rank, Ids, Holds, HoldsAll, Distinct, Leaves, LeavesF, Linked, Elems, Standing, Inserted, RoutesTo, Ordered,
        FullBelow;
      hide Contents, Upsert, ChainAcross, Chain;
      if |node.keys| <= maxKeys {
        split, seps, trees := None, [], [u];
        KeepTop(t, u, key, row, lo, hi, h, maxKeys);
        StandAloneTree(t, u, before, after);
        return;
      }
      SplitReady(u, lo, hi, h);
      AllAllocated(Chain(before, u, after));
      var s := SplitInternal(node, u);
      ghost var c := |u.keys| / 2;
      SplitTop(t, u, s.right, key, row, lo, hi, h, maxKeys);
      split, seps, trees := Some(s), [s.separatorKey], [CutLeft(u, c), CutRight(u, c, s.right)];
      StandInHalves(t, u, c, s, before, after);
    }

    lemma SplitReady(u: Tree<Node>, lo: real, hi: real, h: nat)
      requires Holds(u) && Distinct(u) && Ordered(u, lo, hi, h) && u.Inner?
      ensures HoldsTop(u) && Shaped(u) && HoldsAll(u.kids) && u.id !in NodesF(u.kids)
      ensures allocated(Nodes(u)) && allocated(NodesF(u.kids))
    {
    }

    lemma StandInHalves(t: Tree<Node>, u: Tree<Node>, c: nat, split: Split, before: seq<Node>, after: seq<Node>)
      requires u.Inner? && Shaped(u) && c < |u.keys| && HoldsAll(u.kids) && Distinct(u) && split.right !in Nodes(u)
      requires split.separatorKey == CutSep(u, c)
      requires HoldsTop(CutLeft(u, c)) && HoldsTop(CutRight(u, c, split.right))
      ensures var trees := [CutLeft(u, c), CutRight(u, c, split.right)];
        && Standing(t, Some(split), [split.separatorKey], trees) && NodesF(trees) == Nodes(u) + {split.right}
        && ChainAcross(before, trees, after) == Chain(before, u, after)
    {
      hide Holds, HoldsAll, HoldsTop, Nodes, NodesF, Distinct, Leaves, LeavesF, Ids, Entries;
      CutOnce(u, c, split.right);
      CutOnceDistinct(u, c, split.right);
      HalvesHold(u, c, split.right);
    }

    lemma HalvesHold(u: Tree<Node>, c: nat, r: Node)
      requires u.Inner? && Shaped(u) && c < |u.keys| && HoldsAll(u.kids)
      requires HoldsTop(CutLeft(u, c)) && HoldsTop(CutRight(u, c, r))
      ensures HoldsAll([CutLeft(u, c), CutRight(u, c, r)])
    {
      hide HoldsTop;
      assert HoldsAll(CutLeft(u, c).kids);
      assert HoldsAll(CutRight(u, c, r).kids);
    }

    lemma StandAloneTree(t: Tree<Node>, u: Tree<Node>, before: seq<Node>, after: seq<Node>)
      requires Holds(u) && Distinct(u)
      ensures Standing(t, None, [], [u]) && NodesF([u]) == Nodes(u)
      ensures ChainAcross(before, [u], after) == Chain(before, u, after)
    {
      LeavesOf1(u);
    }

    /** Adds `row` to the list of `key`, once, and changes nothing else. */
    method Insert(key: Key, row: RowId)
      requires Valid()
      modifies this, Nodes(shape)
      ensures Valid() && fresh(Nodes(shape) - old(Nodes(shape)))
      ensures Content() == MapInsert(old(Content()), key, row)
      ensures OneRowMore(old(Content()), Content(), key, row)
    {
      hide Rank, Ids, Holds, HoldsAll, Distinct, DistinctF, Sub, Leaves, LeavesF, Linked, Chain, ChainAcross;
      hide Standing, Inserted, Contents, ToMap, MapInsert, OneRowMore, Upsert, NodesF, NoRepeats, Depth;
      NodesAllocated(shape);
      RankBounds(key);
      ghost var t, h := shape, Depth(shape);
      UpdatesKeepNoRepeats(Content(), key, row);
      InsertAddsRow(Content(), key, row);
      var split;
      ghost var seps, trees;
      split, seps, trees := InsertRecursive(root, key, row, t, [], [], BOTTOM, TOP, h);
      InsertedSizes(t, seps, trees, key, row, BOTTOM, TOP, h);
      StandingSizes(t, split, seps, trees);
      if split.Some? {
        SetRootAbove(split.value, seps, trees);
        TopGrown(t, split, seps, trees, key, row, h, root);
        AtDepth(shape, h + 1);
      } else {
        shape := trees[0];
        TopKept(t, split, seps, trees, key, row, h);
        AtDepth(shape, h);
      }
    }

    lemma AtDepth(t: Tree<Node>, h: nat)
      requires Sub(t, BOTTOM, TOP, h, maxKeys)
      ensures Sub(t, BOTTOM, TOP, Depth(t), maxKeys) && Ordered(t, BOTTOM, TOP, Depth(t))
    {
      OrderedDepth(t, BOTTOM, TOP, h);
    }

    method SetRootAbove(split: Split, ghost seps: seq<Key>, ghost trees: seq<Tree<Node>>)
      requires Standing(shape, Some(split), seps, trees) && trees[0].id == root
      requires Linked(ChainAcross([], trees, []))
      modifies this
      ensures fresh(root) && shape == Inner(root, seps, trees)
      ensures Holds(shape) && Distinct(shape) && Linked(Chain([], shape, []))
    {
      hide Holds, HoldsAll, Distinct, DistinctF, Leaves, LeavesF, Linked, Chain, ChainAcross, NodesF, Nodes, Ids;
      StandingParts(shape, split, seps, trees);
      AllAllocated(ChainAcross([], trees, []));
      var newRoot := new Node(false);
      newRoot.keys := [split.separatorKey];
      newRoot.children := [root, split.right];
      root := newRoot;
      shape := Inner(newRoot, seps, trees);
      UnderRoot(newRoot, seps, trees);
    }

    lemma StandingSizes(t: Tree<Node>, split: Option<Split>, seps: seq<Key>, trees: seq<Tree<Node>>)
      requires Standing(t, split, seps, trees)
      ensures if split.None? then |trees| == 1 else |trees| == 2
    {
    }

    lemma StandingParts(t: Tree<Node>, split: Split, seps: seq<Key>, trees: seq<Tree<Node>>)
      requires Standing(t, Some(split), seps, trees)
      ensures HoldsAll(trees) && DistinctF(trees) && seps == [split.separatorKey] && |trees| == 2
      ensures trees[1].id == split.right && allocated(NodesF(trees))
    {
    }

    lemma UnderRoot(r: Node, seps: seq<Key>, trees: seq<Tree<Node>>)
      requires |trees| == 2 && HoldsAll(trees) && DistinctF(trees) && r !in NodesF(trees)
      requires !r.isLeaf && r.keys == seps && r.children == [trees[0].id, trees[1].id]
      ensures Holds(Inner(r, seps, trees)) && Distinct(Inner(r, seps, trees))
      ensures Chain([], Inner(r, seps, trees), []) == ChainAcross([], trees, [])
    {
      hide HoldsAll, DistinctF, NodesF, LeavesF;
      assert Ids(trees) == r.children;
    }

    lemma RankBounds(key: Key)
      ensures BOTTOM < Rank(key) < TOP
    {
    }

    lemma TopMap(t: Tree<Node>, es: seq<Entry>, key: Key, row: RowId, h: nat)
      requires Sub(t, BOTTOM, TOP, h, maxKeys) && es == Upsert(Contents(t), key, row)
      ensures ToMap(es) == MapInsert(ToMap(Contents(t)), key, row)
    {
      hide Rank, Contents, Upsert, Sorted, Within, MapInsert, ToMap;
      ContentsSorted(t, BOTTOM, TOP, h);
      UpsertIsMapInsert(Contents(t), key, row);
    }

    lemma TopKept(t: Tree<Node>, split: Option<Split>, seps: seq<Key>, trees: seq<Tree<Node>>,
                  key: Key, row: RowId, h: nat)
      requires Inserted(t, seps, trees, key, row, BOTTOM, TOP, h, maxKeys) && Standing(t, split, seps, trees)
      requires Capacity(maxKeys) && Sub(t, BOTTOM, TOP, h, maxKeys) && |trees| == 1
      ensures var u := trees[0];
        && Sub(u, BOTTOM, TOP, h, maxKeys) && ToMap(Contents(u)) == MapInsert(ToMap(Contents(t)), key, row)
        && Holds(u) && Distinct(u) && Nodes(u) == NodesF(trees) && ChainAcross([], trees, []) == Chain([], u, [])
    {
      hide Rank, Leaves, LeavesF, Entries, ToMap, MapInsert, Upsert;
      var u := trees[0];
      assert trees == [u];
      LeavesOf1(u);
      TopMap(t, Contents(u), key, row, h);
      TopShape(t, u, seps, h);
    }

    lemma TopShape(t: Tree<Node>, u: Tree<Node>, seps: seq<Key>, h: nat)
      requires Sub(t, BOTTOM, TOP, h, maxKeys) && Forest(seps, [u], BOTTOM, TOP, h)
      requires |t.keys| <= |u.keys| <= maxKeys && FullBelow(u, maxKeys)
      ensures Sub(u, BOTTOM, TOP, h, maxKeys)
    {
      hide Rank;
      assert Ordered([u][0], Lo(seps, 0, BOTTOM), Hi(seps, 0, TOP), h);
    }

    lemma TopGrown(t: Tree<Node>, split: Option<Split>, seps: seq<Key>, trees: seq<Tree<Node>>,
                   key: Key, row: RowId, h: nat, r: Node)
      requires Inserted(t, seps, trees, key, row, BOTTOM, TOP, h, maxKeys)
      requires Capacity(maxKeys) && Sub(t, BOTTOM, TOP, h, maxKeys) && |trees| == 2
      ensures var u := Inner(r, seps, trees);
        && Sub(u, BOTTOM, TOP, h + 1, maxKeys) && ToMap(Contents(u)) == MapInsert(ToMap(Contents(t)), key, row)
        && Nodes(u) == NodesF(trees) + {r}
    {
      hide Rank, LeavesF, Entries, ToMap, MapInsert, Upsert, Forest;
      TopMap(t, Contents(Inner(r, seps, trees)), key, row, h);
    }

    // ---------- repairing a child that is one key short ----------

    method BorrowForLeaf(parent: Node, leftIndex: nat, rightIndex: nat, borrowFromLeft: bool, ghost p: Tree<Node>)
      requires rightIndex == leftIndex + 1
      requires Parent(parent, p) && Siblings(p, leftIndex, 2) && p.kids[leftIndex].Leaf?
      requires if borrowFromLeft then |p.kids[leftIndex].keys| >= 1 else |p.kids[rightIndex].keys| >= 2
      modifies Nodes(p)`keys, Nodes(p)`values
      ensures var c := |p.kids[leftIndex].keys| + if borrowFromLeft then -1 else 1;
        Holds(Recut(p, leftIndex, c))
    {
      hide Holds, Nodes, Distinct, Recut, Parent;
      if borrowFromLeft {
        RotateEntryRight(parent, leftIndex, p);
      } else {
        RotateEntryLeft(parent, leftIndex, p);
      }
    }

    method BorrowForInternal(parent: Node, leftIndex: nat, rightIndex: nat, borrowFromLeft: bool, ghost p: Tree<Node>)
      requires rightIndex == leftIndex + 1
      requires Parent(parent, p) && Siblings(p, leftIndex, 2) && p.kids[leftIndex].Inner?
      requires |p.kids[if borrowFromLeft then leftIndex else rightIndex].keys| >= 1
      modifies Nodes(p)`keys, Nodes(p)`children
      ensures var c := |p.kids[leftIndex].keys| + if borrowFromLeft then -1 else 1;
        Holds(Recut(p, leftIndex, c))
    {
      hide Holds, Nodes, Distinct, Recut, Parent;
      if borrowFromLeft {
        RotateChildRight(parent, leftIndex, p);
      } else {
        RotateChildLeft(parent, leftIndex, p);
      }
    }

    method MergeLeaves(parent: Node, leftIndex: nat, rightIndex: nat, ghost p: Tree<Node>,
                       ghost before: seq<Node>, ghost after: seq<Node>)
      requires rightIndex == leftIndex + 1
      requires Parent(parent, p) && Siblings(p, leftIndex, 2) && p.kids[leftIndex].Leaf?
      requires Linked(Chain(before, p, after))
      modifies Nodes(p)`keys, Nodes(p)`values, Nodes(p)`children
      modifies Nodes(p)`nextLeaf, Nodes(p)`prevLeaf, Elems(after)`prevLeaf
      ensures Holds(Merge(p, leftIndex)) && Linked(Chain(before, Merge(p, leftIndex), after))
    {
      hide Holds, Nodes, Distinct, Merge, Parent, Linked, Chain, Elems;
      MergeTwoLeaves(parent, leftIndex, p, before, after);
    }

    method MergeInternal(parent: Node, leftIndex: nat, rightIndex: nat, ghost p: Tree<Node>)
      requires rightIndex == leftIndex + 1
      requires Parent(parent, p) && Siblings(p, leftIndex, 2) && p.kids[leftIndex].Inner?
      modifies Nodes(p)`keys, Nodes(p)`children
      ensures Holds(Merge(p, leftIndex))
    {
      hide Holds, Nodes, Distinct, Merge, Parent;
      MergeTwoInternals(parent, leftIndex, p);
    }

    method TryThreeToTwoLeaf(parent: Node, leftIndex: nat, ghost p: Tree<Node>,
                             ghost before: seq<Node>, ghost after: seq<Node>) returns (ok: bool)
      requires Parent(parent, p) && p.kids != [] && Siblings(p, 0, |p.kids|) && Linked(Chain(before, p, after))
      requires maxKeys >= 3
      modifies Nodes(p)`keys, Nodes(p)`values, Nodes(p)`children
      modifies Nodes(p)`nextLeaf, Nodes(p)`prevLeaf, Elems(after)`prevLeaf
      ensures ok <==> Gatherable(p, leftIndex, maxKeys) && p.kids[leftIndex].Leaf?
      ensures var p' := if ok then ThreeToTwo(p, leftIndex, |Fuse3(p, leftIndex).keys| / 2) else p;
        Holds(p') && Linked(Chain(before, p', after))
    {
      hide Ids, Holds, Nodes, Distinct, ThreeToTwo, Linked, Chain, Elems;
      LookAtTop(p);
      if leftIndex + 2 >= |parent.children| { return false; }
      SomeSiblings(p, leftIndex, 3);
      LookAt(p, leftIndex, 3);
      var left := parent.children[leftIndex];
      var middle := parent.children[leftIndex + 1];
      var right := parent.children[leftIndex + 2];
      if !left.isLeaf || !middle.isLeaf || !right.isLeaf { return false; }
      var total := |left.keys| + |middle.keys| + |right.keys|;
      var leftSize := total / 2;
      var rightSize := total - leftSize;
      if total > 2 * maxKeys || total < 2 * MinKeys(maxKeys)
         || leftSize < MinKeys(maxKeys) || rightSize < MinKeys(maxKeys) { return false; }
      GatherThreeLeaves(parent, leftIndex, leftSize, p, before, after);
      return true;
    }

    method TryThreeToTwoInternal(parent: Node, leftIndex: nat, ghost p: Tree<Node>) returns (ok: bool)
      requires Parent(parent, p) && p.kids != [] && Siblings(p, 0, |p.kids|)
      requires maxKeys >= 3
      modifies Nodes(p)`keys, Nodes(p)`children
      ensures ok <==> Gatherable(p, leftIndex, maxKeys) && p.kids[leftIndex].Inner?
      ensures Holds(if ok then ThreeToTwo(p, leftIndex, |Fuse3(p, leftIndex).keys| / 2) else p)
    {
      hide Holds, Nodes, Distinct, ThreeToTwo;
      LookAtTop(p);
      if leftIndex + 2 >= |parent.children| { return false; }
      SomeSiblings(p, leftIndex, 3);
      LookAt(p, leftIndex, 3);
      var left := parent.children[leftIndex];
      var middle := parent.children[leftIndex + 1];
      var right := parent.children[leftIndex + 2];
      if left.isLeaf || middle.isLeaf || right.isLeaf { return false; }
      var total := |left.keys| + |middle.keys| + |right.keys| + 2;
      var leftCount := total / 2;
      var rightCount := total - leftCount - 1;
      if total > 2 * maxKeys + 1 || total < 2 * MinKeys(maxKeys) + 1
         || leftCount < MinKeys(maxKeys) || rightCount < MinKeys(maxKeys) { return false; }
      GatherThreeInternals(parent, leftIndex, leftCount, p);
      return true;
    }

    /** `p`, whose `ci`-th child lacks a key, is laid out in the heap. */
    ghost predicate Short(node: Node, p: Tree<Node>, ci: nat, lo: real, hi: real, h: nat)
      reads Nodes(p)`keys, Nodes(p)`values, Nodes(p)`children
    {
      && Parent(node, p) && Ordered(p, lo, hi, h) && h > 0
      && OneShort(p, ci, maxKeys) && |p.kids[ci].keys| < MinKeys(maxKeys)
    }

    ghost predicate Repaired(p: Tree<Node>, p': Tree<Node>, before: seq<Node>, after: seq<Node>, lo: real, hi: real,
                             h: nat)
      reads Nodes(p')`keys, Nodes(p')`values, Nodes(p')`children
      reads Elems(Chain(before, p', after))`nextLeaf, Elems(Chain(before, p', after))`prevLeaf
    {
      Mended(p, p', lo, hi, h, maxKeys) && Holds(p') && Linked(Chain(before, p', after))
    }

    method BorrowFromLeft(node: Node, ci: nat, leaf: bool, ghost p: Tree<Node>,
                          ghost before: seq<Node>, ghost after: seq<Node>, ghost lo: real, ghost hi: real, ghost h: nat)
      returns (ghost p': Tree<Node>)
      requires Capacity(maxKeys) && Short(node, p, ci, lo, hi, h) && Linked(Chain(before, p, after))
      requires ci > 0 && |p.kids[ci - 1].keys| > MinKeys(maxKeys) && (leaf <==> p.kids[ci - 1].Leaf?)
      modifies Nodes(p)`keys, Nodes(p)`values, Nodes(p)`children
      ensures Repaired(p, p', before, after, lo, hi, h)
    {
      hide Rank, Ids, Holds, Nodes, Distinct, Recut, Linked, Leaves, Ordered, Elems, OneShort, Mended, Fuse2;
      AllAllocated(Chain(before, p, after));
      BorrowedFromLeft(p, ci, lo, hi, h, maxKeys);
      if leaf {
        BorrowForLeaf(node, ci - 1, ci, true, p);
      } else {
        BorrowForInternal(node, ci - 1, ci, true, p);
      }
      p' := Recut(p, ci - 1, |p.kids[ci - 1].keys| - 1);
    }

    method BorrowFromRight(node: Node, ci: nat, leaf: bool, ghost p: Tree<Node>,
                           ghost before: seq<Node>, ghost after: seq<Node>, ghost lo: real, ghost hi: real,
                           ghost h: nat)
      returns (ghost p': Tree<Node>)
      requires Capacity(maxKeys) && Short(node, p, ci, lo, hi, h) && Linked(Chain(before, p, after))
      requires ci + 1 < |p.kids| && |p.kids[ci + 1].keys| > MinKeys(maxKeys) && (leaf <==> p.kids[ci].Leaf?)
      modifies Nodes(p)`keys, Nodes(p)`values, Nodes(p)`children
      ensures Repaired(p, p', before, after, lo, hi, h)
    {
      hide Rank, Ids, Holds, Nodes, Distinct, Recut, Linked, Leaves, Ordered, Elems, OneShort, Mended, Fuse2;
      AllAllocated(Chain(before, p, after));
      BorrowedFromRight(p, ci, lo, hi, h, maxKeys);
      if leaf {
        BorrowForLeaf(node, ci, ci + 1, false, p);
      } else {
        BorrowForInternal(node, ci, ci + 1, false, p);
      }
      p' := Recut(p, ci, |p.kids[ci].keys| + 1);
    }

    method MergeAt(node: Node, ci: nat, j: nat, leaf: bool, ghost p: Tree<Node>,
                   ghost before: seq<Node>, ghost after: seq<Node>, ghost lo: real, ghost hi: real, ghost h: nat)
      returns (ghost p': Tree<Node>)
      requires Capacity(maxKeys) && Short(node, p, ci, lo, hi, h) && Linked(Chain(before, p, after))
      requires j <= ci <= j + 1 < |p.kids| && (leaf <==> p.kids[j].Leaf?)
      requires |p.kids[if ci == j then j + 1 else j].keys| <= MinKeys(maxKeys)
      modifies Nodes(p)`keys, Nodes(p)`values, Nodes(p)`children
      modifies Nodes(p)`nextLeaf, Nodes(p)`prevLeaf, Elems(after)`prevLeaf
      ensures Repaired(p, p', before, after, lo, hi, h)
    {
      hide Rank, Ids, Holds, Nodes, Distinct, Merge, Linked, Leaves, Ordered, Elems, OneShort, Mended;
      AllAllocated(Chain(before, p, after));
      Merged(p, ci, j, lo, hi, h, maxKeys);
      if leaf {
        MergeLeaves(node, j, j + 1, p, before, after);
      } else {
        MergeInternal(node, j, j + 1, p);
      }
      p' := Merge(p, j);
    }

    method TryThreeToTwo(node: Node, j: nat, leaf: bool, ghost p: Tree<Node>, ghost before: seq<Node>,
                         ghost after: seq<Node>)
      returns (ok: bool)
      requires Parent(node, p) && p.kids != [] && Siblings(p, 0, |p.kids|) && Linked(Chain(before, p, after))
      requires maxKeys >= 3 && forall i :: 0 <= i < |p.kids| ==> (p.kids[i].Leaf? <==> leaf)
      modifies Nodes(p)`keys, Nodes(p)`values, Nodes(p)`children
      modifies Nodes(p)`nextLeaf, Nodes(p)`prevLeaf, Elems(after)`prevLeaf
      ensures ok <==> Gatherable(p, j, maxKeys)
      ensures var p' := if ok then ThreeToTwo(p, j, |Fuse3(p, j).keys| / 2) else p;
        Holds(p') && Linked(Chain(before, p', after))
    {
      hide Ids, Holds, Nodes, Distinct, ThreeToTwo, Linked, Leaves, Elems, Fuse3;
      AllAllocated(Chain(before, p, after));
      if leaf {
        ok := TryThreeToTwoLeaf(node, j, p, before, after);
      } else {
        ok := TryThreeToTwoInternal(node, j, p);
        if ok { ThreeToTwoKeeps(p, j, |Fuse3(p, j).keys| / 2); }
      }
    }

    /** The three children from the `j`-th on include the `ci`-th. */
    ghost predicate Window(p: Tree<Node>, ci: nat, j: nat) {
      p.Inner? && j <= ci <= j + 2 < |p.kids|
    }

    method GatherAt(node: Node, ci: nat, j: nat, leaf: bool, ghost p: Tree<Node>,
                    ghost before: seq<Node>, ghost after: seq<Node>, ghost lo: real, ghost hi: real, ghost h: nat)
      returns (ok: bool, ghost p': Tree<Node>)
      requires Capacity(maxKeys) && Short(node, p, ci, lo, hi, h) && Linked(Chain(before, p, after))
      requires Window(p, ci, j) && (leaf <==> h == 1)
      modifies Nodes(p)`keys, Nodes(p)`values, Nodes(p)`children
      modifies Nodes(p)`nextLeaf, Nodes(p)`prevLeaf, Elems(after)`prevLeaf
      ensures ok <==> Gatherable(p, j, maxKeys)
      ensures ok ==> Repaired(p, p', before, after, lo, hi, h)
      ensures !ok ==> p' == p && Holds(p) && Linked(Chain(before, p, after))
    {
      hide Rank, Ids, Holds, Nodes, Distinct, ThreeToTwo, Linked, Chain, Leaves, Ordered, Elems, Mended, Gatherable,
        Fuse3;
      ShortKids(p, ci, lo, hi, h);
      p' := p;
      ok := TryThreeToTwo(node, j, leaf, p, before, after);
      if ok {
        Gathered(p, ci, j, lo, hi, h, maxKeys);
        p' := ThreeToTwo(p, j, |Fuse3(p, j).keys| / 2);
      }
    }

    lemma ShortKids(p: Tree<Node>, ci: nat, lo: real, hi: real, h: nat)
      requires OneShort(p, ci, maxKeys) && Ordered(p, lo, hi, h) && h > 0
      ensures p.kids != [] && Siblings(p, 0, |p.kids|)
      ensures forall j :: 0 <= j < |p.kids| ==> (p.kids[j].Leaf? <==> h == 1)
    {
      hide Rank, Ordered, Forest, Full;
      KidsOrdered(p, lo, hi, h);
      OrderedSiblings(p, 0, |p.kids|, lo, hi, h);
      KidsAtHeight(p, lo, hi, h);
    }

    lemma KidsAtHeight(p: Tree<Node>, lo: real, hi: real, h: nat)
      requires Ordered(p, lo, hi, h) && h > 0
      ensures forall j :: 0 <= j < |p.kids| ==> (p.kids[j].Leaf? <==> h == 1)
    {
      hide Rank;
      assert Forest(p.keys, p.kids, lo, hi, h - 1);
    }

    /** Tries the three children around the short one, then those from it on, then those up to it. */
    method GatherAround(node: Node, ci: nat, leaf: bool, ghost p: Tree<Node>,
                        ghost before: seq<Node>, ghost after: seq<Node>, ghost lo: real, ghost hi: real, ghost h: nat)
      returns (ok: bool, ghost p': Tree<Node>)
      requires Capacity(maxKeys) && Short(node, p, ci, lo, hi, h) && Linked(Chain(before, p, after))
      requires leaf <==> h == 1
      modifies Nodes(p)`keys, Nodes(p)`values, Nodes(p)`children
      modifies Nodes(p)`nextLeaf, Nodes(p)`prevLeaf, Elems(after)`prevLeaf
      ensures ok ==> Repaired(p, p', before, after, lo, hi, h)
      ensures !ok ==> p' == p && forall j :: Window(p, ci, j) ==> !Gatherable(p, j, maxKeys)
    {
      hide Rank, Ids, Holds, Nodes, Distinct, Linked, Chain, Ordered, Elems, OneShort, Gatherable, Repaired;
      ok, p' := false, p;
      ShortTop(node, p, ci, lo, hi, h);
      if ci > 0 && ci + 1 < |node.children| {
        ok, p' := GatherAt(node, ci, ci - 1, leaf, p, before, after, lo, hi, h);
        if ok { return; }
        ShortTop(node, p, ci, lo, hi, h);
      }
      if ci + 2 < |node.children| {
        ok, p' := GatherAt(node, ci, ci, leaf, p, before, after, lo, hi, h);
        if ok { return; }
        ShortTop(node, p, ci, lo, hi, h);
      }
      if ci >= 2 {
        ok, p' := GatherAt(node, ci, ci - 2, leaf, p, before, after, lo, hi, h);
      }
    }

    lemma ShortTop(node: Node, p: Tree<Node>, ci: nat, lo: real, hi: real, h: nat)
      requires Short(node, p, ci, lo, hi, h)
      ensures |node.children| == |p.kids| && ci < |p.kids|
    {
    }

    /** One of the three children around the short one exists and can be gathered. */
    lemma SomeWindow(node: Node, p: Tree<Node>, ci: nat, lo: real, hi: real, h: nat) returns (j: nat)
      requires Capacity(maxKeys) && Short(node, p, ci, lo, hi, h) && |p.kids| >= 3
      requires ci > 0 ==> |p.kids[ci - 1].keys| <= MinKeys(maxKeys)
      requires ci + 1 < |p.kids| ==> |p.kids[ci + 1].keys| <= MinKeys(maxKeys)
      ensures Window(p, ci, j) && Gatherable(p, j, maxKeys)
    {
      hide Rank, Ordered, Gatherable, Holds, Distinct;
      j := if ci == 0 then 0 else if ci + 1 < |p.kids| then ci - 1 else ci - 2;
      AlwaysGatherable(p, ci, j, lo, hi, h, maxKeys);
    }

    /** The `ci`-th child's node, as its parent finds it. */
    lemma KidTop(node: Node, p: Tree<Node>, ci: nat, lo: real, hi: real, h: nat)
      requires Parent(node, p) && Ordered(p, lo, hi, h) && h > 0 && ci < |p.kids|
      ensures |node.children| == |p.kids| && node.children[ci] == p.kids[ci].id
      ensures node.children[ci].keys == p.kids[ci].keys && (node.children[ci].isLeaf <==> h == 1)
      ensures p.kids[ci].Leaf? <==> h == 1
    {
      hide Rank, Ordered, Forest, Nodes;
      KidsOrdered(p, lo, hi, h);
      OrderedSiblings(p, ci, 1, lo, hi, h);
      KidsAtHeight(p, lo, hi, h);
      LookAt(p, ci, 1);
    }

    /** Repairs the `ci`-th child if it lacks a key: a neighbour lends one, or three children become two,
        or the only two become one.  One of these always succeeds. */
    method FixChildUnderflow(node: Node, ci: nat, ghost p: Tree<Node>, ghost before: seq<Node>, ghost after: seq<Node>,
                             ghost lo: real, ghost hi: real, ghost h: nat)
      returns (ghost p': Tree<Node>)
      requires Capacity(maxKeys) && Parent(node, p) && Ordered(p, lo, hi, h) && h > 0
      requires OneShort(p, ci, maxKeys) && |p.kids| >= 2 && Linked(Chain(before, p, after))
      modifies Nodes(p)`keys, Nodes(p)`values, Nodes(p)`children
      modifies Nodes(p)`nextLeaf, Nodes(p)`prevLeaf, Elems(after)`prevLeaf
      ensures Repaired(p, p', before, after, lo, hi, h)
    {
      hide Rank, Ids, Holds, Nodes, Distinct, Linked, Chain, Ordered, Elems, Gatherable, Full, Leaves, Mended;
      KidTop(node, p, ci, lo, hi, h);
      p' := p;
      var child := node.children[ci];
      var minKeys := MinKeys(maxKeys);
      if |child.keys| >= minKeys || |node.children| == 1 {
        NothingShort(p, ci, lo, hi, h, maxKeys);
        return;
      }
      if ci > 0 {
        KidTop(node, p, ci - 1, lo, hi, h);
        if |node.children[ci - 1].keys| > minKeys {
          p' := BorrowFromLeft(node, ci, child.isLeaf, p, before, after, lo, hi, h);
          return;
        }
      }
      if ci + 1 < |node.children| {
        KidTop(node, p, ci + 1, lo, hi, h);
        if |node.children[ci + 1].keys| > minKeys {
          p' := BorrowFromRight(node, ci, child.isLeaf, p, before, after, lo, hi, h);
          return;
        }
      }
      if |node.children| >= 3 {
        ghost var j := SomeWindow(node, p, ci, lo, hi, h);
        var ok;
        ok, p' := GatherAround(node, ci, child.isLeaf, p, before, after, lo, hi, h);
        if ok { return; }
      }
      if |node.children| == 2 {
        if ci > 0 {
          p' := MergeAt(node, ci, ci - 1, child.isLeaf, p, before, after, lo, hi, h);
        } else {
          p' := MergeAt(node, ci, ci, child.isLeaf, p, before, after, lo, hi, h);
        }
      }
    }

    // ---------- deletion ----------

    /** Takes the row id out of the list of a key the leaf holds; a key whose list empties goes away. */
    method RemoveFromLeaf(node: Node, key: Key, row: RowId, ghost t: Tree<Node>, ghost lo: real, ghost hi: real)
      returns (removed: bool, ghost u: Tree<Node>)
      requires t.Leaf? && t.id == node && HoldsTop(t) && Ordered(t, lo, hi, 0)
      modifies node`keys, node`values
      ensures u.Leaf? && u.id == node && HoldsTop(u) && Ordered(u, lo, hi, 0)
      ensures Contents(u) == Drop(Contents(t), key, row)
      ensures |t.keys| - 1 <= |u.keys| <= |t.keys|
      ensures !removed ==> u == t
    {
      hide Rank, Contents, Drop, RemoveRow, Ordered;
      OrderedShaped(t, lo, hi, 0);
      u := t;
      var position := LowerBound(node.keys, key);
      if position >= |node.keys| || node.keys[position] != key {
        LeafMisses(t.id, t.keys, t.vals, position, key, row, lo, hi);
        return false, t;
      }
      if row !in node.values[position] {
        LeafMissesRow(t.id, t.keys, t.vals, position, key, row, lo, hi);
        return false, t;
      }
      removed := true;
      node.values := node.values[position := RemoveRow(node.values[position], row)];
      if node.values[position] == [] {
        node.keys := node.keys[..position] + node.keys[position + 1..];
        node.values := node.values[..position] + node.values[position + 1..];
        LeafDropKey(t.id, t.keys, t.vals, position, key, row, lo, hi);
      } else {
        LeafDropRow(t.id, t.keys, t.vals, position, key, row, lo, hi);
      }
      u := Leaf(t.id, node.keys, node.values);
    }

    /** What became of the subtree `t`. */
    ghost predicate RemovedFrom(t: Tree<Node>, u: Tree<Node>, key: Key, row: RowId,
                                before: seq<Node>, after: seq<Node>, lo: real, hi: real, h: nat)
      reads Nodes(u)`keys, Nodes(u)`values, Nodes(u)`children
      reads Elems(Chain(before, u, after))`nextLeaf, Elems(Chain(before, u, after))`prevLeaf
    {
      Removed(t, u, key, row, lo, hi, h, maxKeys) && Holds(u) && Linked(Chain(before, u, after))
    }

    /** Deletion from the subtree `t`, of height `h`, that holds the keys in [lo, hi). */
    method RemoveRecursive(node: Node, key: Key, row: RowId, ghost t: Tree<Node>,
                           ghost before: seq<Node>, ghost after: seq<Node>, ghost lo: real, ghost hi: real,
                           ghost h: nat)
      returns (removed: bool, ghost u: Tree<Node>)
      requires Capacity(maxKeys) && t.id == node && Holds(t) && Distinct(t) && Sub(t, lo, hi, h, maxKeys)
      requires lo <= Rank(key) < hi
      requires Linked(Chain(before, t, after))
      modifies Nodes(t)`keys, Nodes(t)`values, Nodes(t)`children
      modifies Nodes(t)`nextLeaf, Nodes(t)`prevLeaf, Elems(after)`prevLeaf
      ensures RemovedFrom(t, u, key, row, before, after, lo, hi, h)
      ensures !removed ==> u == t
      decreases h
    {
      hide Rank, Ids, Holds, HoldsAll, Nodes, NodesF, Distinct, DistinctF, Leaves, LeavesF, Linked, Elems, Drop,
        Ordered;
      hide FullBelow, Removed, RemovedFrom, Repaired, Chain, Contents, OneShort, Mended, Plug, Sub;
      LeafOrInner(t, lo, hi, h);
      AllAllocated(Chain(before, t, after));
      if node.isLeaf {
        LeafChain(before, t, after);
        LeafParts(t, lo, hi);
        removed, u := RemoveFromLeaf(node, key, row, t, lo, hi);
        LeafRemoved(t, u, key, row, before, after, lo, hi);
        return;
      }
      InnerParts(t, lo, hi, h);
      var ci := UpperBound(node.keys, key);
      ghost var q;
      removed, q := RemoveBelow(node, ci, key, row, t, before, after, lo, hi, h);
      u := q;
      if removed {
        u := FixChildUnderflow(node, ci, q, before, after, lo, hi, h);
        RepairedIsRemoved(t, q, u, key, row, before, after, lo, hi, h);
      } else {
        KeptIsRemoved(t, key, row, before, after, lo, hi, h);
      }
    }

    lemma InnerParts(t: Tree<Node>, lo: real, hi: real, h: nat)
      requires Holds(t) && Sub(t, lo, hi, h, maxKeys) && h > 0
      ensures t.Inner? && |t.kids| == |t.keys| + 1 && t.id.keys == t.keys
    {
      hide Rank, Forest, FullBelow;
      KidsOrdered(t, lo, hi, h);
    }

    lemma RepairedIsRemoved(t: Tree<Node>, q: Tree<Node>, u: Tree<Node>, key: Key, row: RowId,
                            before: seq<Node>, after: seq<Node>, lo: real, hi: real, h: nat)
      requires Contents(q) == Drop(Contents(t), key, row) && Nodes(q) <= Nodes(t) && |q.keys| == |t.keys|
        && q.id == t.id
      requires Repaired(q, u, before, after, lo, hi, h)
      ensures RemovedFrom(t, u, key, row, before, after, lo, hi, h)
    {
      hide Rank, Contents, Drop, Linked, Forest, Full;
    }

    lemma KeptIsRemoved(t: Tree<Node>, key: Key, row: RowId,
                        before: seq<Node>, after: seq<Node>, lo: real, hi: real, h: nat)
      requires Contents(t) == Drop(Contents(t), key, row) && Sub(t, lo, hi, h, maxKeys)
      requires Holds(t) && Distinct(t) && Linked(Chain(before, t, after))
      ensures RemovedFrom(t, t, key, row, before, after, lo, hi, h)
    {
      hide Rank, Contents, Drop, Linked, Forest, Full;
    }

    lemma LeafParts(t: Tree<Node>, lo: real, hi: real)
      requires t.Leaf? && Sub(t, lo, hi, 0, maxKeys)
      ensures Ordered(t, lo, hi, 0) && t.id in Nodes(t)
    {
    }

    lemma LeafRemoved(t: Tree<Node>, u: Tree<Node>, key: Key, row: RowId, before: seq<Node>, after: seq<Node>,
                      lo: real, hi: real)
      requires t.Leaf? && u.Leaf? && u.id == t.id && HoldsTop(u) && Ordered(u, lo, hi, 0)
      requires Contents(u) == Drop(Contents(t), key, row) && |t.keys| - 1 <= |u.keys| <= |t.keys|
      requires Linked(Chain(before, t, after))
      ensures RemovedFrom(t, u, key, row, before, after, lo, hi, 0)
    {
      hide Rank, Contents, Drop, Ordered, Linked;
      LeafChain(before, t, after);
      LeafChain(before, u, after);
    }

    /** Deletion from the routed child; the parent is not repaired yet. */
    method RemoveBelow(node: Node, ci: nat, key: Key, row: RowId, ghost t: Tree<Node>,
                       ghost before: seq<Node>, ghost after: seq<Node>, ghost lo: real, ghost hi: real, ghost h: nat)
      returns (removed: bool, ghost q: Tree<Node>)
      requires Capacity(maxKeys) && Parent(node, t) && Sub(t, lo, hi, h, maxKeys) && h > 0
      requires RoutesTo(t.keys, ci, key) && ci < |t.kids| && lo <= Rank(key) < hi
      requires Linked(Chain(before, t, after))
      modifies Nodes(t)`keys, Nodes(t)`values, Nodes(t)`children
      modifies Nodes(t)`nextLeaf, Nodes(t)`prevLeaf, Elems(after)`prevLeaf
      ensures Parent(node, q) && Ordered(q, lo, hi, h) && OneShort(q, ci, maxKeys) && |q.kids| >= 2
      ensures Contents(q) == Drop(Contents(t), key, row) && Nodes(q) <= Nodes(t) && |q.keys| == |t.keys|
      ensures Linked(Chain(before, q, after))
      ensures !removed ==> q == t
      decreases h, 0
    {
      hide Rank, Ids, Holds, HoldsAll, Distinct, DistinctF, Leaves, LeavesF, Linked, Elems, Drop, Ordered;
      hide FullBelow, Removed, Chain, ChainAcross, Contents, Plug, RoutesTo, Sub, IdsBefore, IdsFrom, Lo, Hi, HoldsTop;
      KidInOrder(t, ci, key, lo, hi, h);
      ghost var kid, lo', hi' := t.kids[ci], Lo(t.keys, ci, lo), Hi(t.keys, ci, hi);
      ghost var before', after' := before + IdsBefore(t, ci), IdsFrom(t, ci + 1) + after;
      ChildAt(t, ci, lo, hi, h);
      SetApart(t, ci);
      AfterKid(t, ci, after);
      ChainAt(before, t, ci, after, [], [kid]);
      ghost var u;
      removed, u := RemoveRecursive(node.children[ci], key, row, kid, before', after', lo', hi', h - 1);
      q := Plug(t, ci, 1, [], [u]);
      ChildReplaced(t, ci, u, before, after, key, row, lo, hi, h);
    }

    lemma ChildReplaced(t: Tree<Node>, ci: nat, u: Tree<Node>, before: seq<Node>, after: seq<Node>,
                        key: Key, row: RowId, lo: real, hi: real, h: nat)
      requires Capacity(maxKeys) && Sub(t, lo, hi, h, maxKeys) && h > 0 && Pluggable(t, ci, 1) && Distinct(t)
      requires RoutesTo(t.keys, ci, key) && lo <= Rank(key) < hi
      requires HoldsTop(t) && HoldsAll(t.kids[..ci]) && HoldsAll(t.kids[ci + 1..])
      requires RemovedFrom(t.kids[ci], u, key, row, before + IdsBefore(t, ci), IdsFrom(t, ci + 1) + after,
                           Lo(t.keys, ci, lo), Hi(t.keys, ci, hi), h - 1)
      ensures var q := Plug(t, ci, 1, [], [u]);
        && Parent(t.id, q) && Ordered(q, lo, hi, h) && OneShort(q, ci, maxKeys) && |q.kids| >= 2
        && Contents(q) == Drop(Contents(t), key, row) && Nodes(q) <= Nodes(t) && |q.keys| == |t.keys|
        && Linked(Chain(before, q, after)) && (u == t.kids[ci] ==> q == t)
    {
      hide Rank, Holds, HoldsAll, Distinct, DistinctF, Leaves, LeavesF, Linked, Elems, Drop, Ordered, Contents,
        RoutesTo;
      hide FullBelow, IdsBefore, IdsFrom, Nodes, NodesF;
      RemovedBelow(t, ci, u, key, row, lo, hi, h, maxKeys);
      ChainAt(before, t, ci, after, [], [u]);
      ChainOfOne(before + IdsBefore(t, ci), u, IdsFrom(t, ci + 1) + after);
      assert Ids(Plug(t, ci, 1, [], [u]).kids) == Ids(t.kids);
      Assembled(t, ci, 1, [], [u]);
    }

    lemma ChainOfOne(before: seq<Node>, u: Tree<Node>, after: seq<Node>)
      ensures ChainAcross(before, [u], after) == Chain(before, u, after)
    {
      LeavesOf1(u);
    }

    /** Takes `row` out of the list of `key`, drops the key if its list empties, and changes nothing else. */
    method Remove(key: Key, row: RowId)
      requires Valid()
      modifies this, Nodes(shape)
      ensures Valid() && Nodes(shape) <= old(Nodes(shape))
      ensures Content() == MapRemove(old(Content()), key, row)
      ensures OneRowLess(old(Content()), Content(), key, row)
    {
      hide Rank, Ids, Holds, HoldsAll, Distinct, Leaves, LeavesF, Linked, Chain, Contents, ToMap, MapRemove, Drop,
        OneRowLess, Removed, NoRepeats, Depth, Sub;
      NodesAllocated(shape);
      RankBounds(key);
      ghost var t, h := shape, Depth(shape);
      UpdatesKeepNoRepeats(Content(), key, row);
      RemoveTakesRow(Content(), key, row);
      var removed;
      ghost var u;
      removed, u := RemoveRecursive(root, key, row, t, [], [], BOTTOM, TOP, h);
      RemovedAtTop(t, u, key, row, h);
      shape := u;
      if !root.isLeaf && |root.children| == 1 {
        Collapsed(u, h);
        root := root.children[0];
        shape := u.kids[0];
        AtDepth(shape, h - 1);
      } else {
        AtDepth(shape, h);
      }
    }

    lemma RemovedAtTop(t: Tree<Node>, u: Tree<Node>, key: Key, row: RowId, h: nat)
      requires RemovedFrom(t, u, key, row, [], [], BOTTOM, TOP, h) && Sub(t, BOTTOM, TOP, h, maxKeys)
        && Capacity(maxKeys)
      ensures u.id == t.id && Holds(u) && Distinct(u) && Nodes(u) <= Nodes(t) && Linked(Chain([], u, []))
      ensures Ordered(u, BOTTOM, TOP, h) && FullBelow(u, maxKeys) && |u.keys| <= maxKeys
      ensures ToMap(Contents(u)) == MapRemove(ToMap(Contents(t)), key, row)
      ensures u.Inner? <==> !u.id.isLeaf
      ensures u.Inner? ==> |u.id.children| == |u.keys| + 1
    {
      hide Rank, Contents, Sorted, Within, MapRemove, ToMap, Drop, Linked, Chain, Nodes, FullBelow;
      ContentsSorted(t, BOTTOM, TOP, h);
      DropIsMapRemove(Contents(t), key, row);
      OrderedShaped(u, BOTTOM, TOP, h);
    }

    /** A root with a single child hands over to it. */
    lemma Collapsed(u: Tree<Node>, h: nat)
      requires Capacity(maxKeys) && Holds(u) && Distinct(u) && u.Inner? && |u.id.children| == 1
      requires Ordered(u, BOTTOM, TOP, h) && FullBelow(u, maxKeys)
      ensures h > 0 && |u.kids| == 1 && u.id.children[0] == u.kids[0].id
      ensures var v := u.kids[0];
        && Sub(v, BOTTOM, TOP, h - 1, maxKeys) && Holds(v) && Distinct(v) && Nodes(v) <= Nodes(u)
        && Contents(v) == Contents(u) && Chain([], v, []) == Chain([], u, [])
    {
      hide Rank, Contents, Nodes;
      OrderedShaped(u, BOTTOM, TOP, h);
      assert Forest(u.keys, u.kids, BOTTOM, TOP, h - 1);
      assert Full(u.kids[0], maxKeys);
      CollapsedLeaves(u);
    }

    lemma CollapsedLeaves(u: Tree<Node>)
      requires u.Inner? && |u.kids| == 1
      ensures Leaves(u) == Leaves(u.kids[0]) && Nodes(u.kids[0]) <= Nodes(u)
      ensures Contents(u) == Contents(u.kids[0]) && Chain([], u, []) == Chain([], u.kids[0], [])
    {
      assert u.kids == [u.kids[0]];
      LeavesOf1(u.kids[0]);
    }

    // ---------- lookup ----------

    /** The leaf that `key` belongs to; `i` is its place among the leaves. */
    method FindLeaf(key: Key) returns (leaf: Node, ghost i: nat)
      requires Searchable()
      ensures LeafOf(shape, i, key) && leaf == Leaves(shape)[i].id
    {
      hide Rank, Leaves, LeavesF, Entries, Ordered, Linked, Chain, Below, Above, Nodes, Distinct, Ids, FullBelow,
        Forest, Holds, Covers, LeafOf, Lo, Hi;
      RankBounds(key);
      var current := root;
      ghost var c, lo, hi, h := shape, BOTTOM, TOP, Depth(shape);
      ghost var x, y := [], [];
      CoversItself(shape, key);
      while !current.isLeaf
        invariant c.id == current && Holds(c) && Ordered(c, lo, hi, h) && lo <= Rank(key) < hi
        invariant Covers(shape, x, c, y, key)
        decreases h
      {
        StepDown(c, lo, hi, h);
        var childIndex := UpperBound(current.keys, key);
        CoversKid(shape, x, c, y, childIndex, key, lo, hi, h);
        current := current.children[childIndex];
        lo, hi, h := Lo(c.keys, childIndex, lo), Hi(c.keys, childIndex, hi), h - 1;
        x, y := x + LeavesF(c.kids[..childIndex]), LeavesF(c.kids[childIndex + 1..]) + y;
        c := c.kids[childIndex];
      }
      StepDown(c, lo, hi, h);
      CoversLeaf(shape, x, c, y, key);
      leaf, i := current, |x|;
    }

    lemma StepDown(c: Tree<Node>, lo: real, hi: real, h: nat)
      requires Holds(c) && Ordered(c, lo, hi, h)
      ensures c.Leaf? == c.id.isLeaf && c.id.keys == c.keys
      ensures c.Inner? ==> h > 0 && |c.kids| == |c.keys| + 1 && |c.id.children| == |c.kids|
      ensures c.Inner? ==> forall i :: 0 <= i < |c.kids| ==> c.id.children[i] == c.kids[i].id && Holds(c.kids[i])
    {
      OrderedShaped(c, lo, hi, h);
    }

    /** The row ids listed under `key`, none if the tree does not hold it. */
    method Find(key: Key) returns (rows: Rows)
      requires Searchable()
      ensures rows == MapFind(Content(), key)
    {
      hide Rank, Contents, ToMap, Ordered, Holds, Linked, Chain, Nodes, Distinct, LeafOf, MapFind;
      NodesAllocated(shape);
      var leaf;
      ghost var i;
      leaf, i := FindLeaf(key);
      LeafInRange(shape, i, key);
      LeafHeld(shape, i, BOTTOM, TOP, Depth(shape));
      var position := LowerBound(leaf.keys, key);
      if position >= |leaf.keys| || leaf.keys[position] != key {
        FindMisses(shape, i, position, key, BOTTOM, TOP, Depth(shape));
        return [];
      }
      FindHits(shape, i, position, key, BOTTOM, TOP, Depth(shape));
      return leaf.values[position];
    }

    lemma LeafInRange(t: Tree<Node>, i: nat, key: Key)
      requires LeafOf(t, i, key)
      ensures i < |Leaves(t)|
    {
    }

    /** The entries with `lowerBound <= key < upperBound`, in ascending order, read off the leaf chain. */
    method RangeScan(lowerBound: Key, upperBound: Key) returns (entries: seq<Entry>)
      requires Searchable()
      ensures entries == Between(Contents(shape), lowerBound, upperBound) && Sorted(entries)
      ensures ToMap(entries)
           == map k | k in Content() && Rank(lowerBound) <= Rank(k) < Rank(upperBound) :: Content()[k]
    {
      hide Rank, Contents, ToMap, Ordered, Holds, Linked, Chain, Nodes, Distinct, LeafOf, Between, Offset, Sorted,
        LeafEntries, HoldsTop, Ids;
      NodesAllocated(shape);
      AllAllocated(Chain([], shape, []));
      ContentsSorted(shape, BOTTOM, TOP, Depth(shape));
      RangeOfMap(Contents(shape), lowerBound, upperBound);
      BetweenIsRange(Contents(shape), lowerBound, upperBound);
      var first;
      ghost var i;
      first, i := FindLeaf(lowerBound);
      ContentsSorted(shape, BOTTOM, TOP, Depth(shape));
      ScanStart(shape, i, lowerBound, upperBound);
      var leaf: Node? := first;
      entries := [];
      while leaf != null
        invariant i <= |Leaves(shape)|
        invariant leaf == if i < |Leaves(shape)| then Leaves(shape)[i].id else null
        invariant Offset(shape, i) <= |Contents(shape)|
        invariant entries == Between(Contents(shape)[..Offset(shape, i)], lowerBound, upperBound)
        decreases |Leaves(shape)| - i
      {
        LeafHeld(shape, i, BOTTOM, TOP, Depth(shape));
        OffsetStep(shape, i);
        NextLeaf(shape, i);
        ghost var start, l := Offset(shape, i), Leaves(shape)[i];
        assert |LeafEntries(l)| == |leaf.keys| == |leaf.values|;
        ghost var next := leaf.nextLeaf;
        var index := 0;
        while index < |leaf.keys|
          invariant leaf.nextLeaf == next
          invariant index <= |leaf.keys| == |leaf.values| == |LeafEntries(l)|
          invariant forall j :: 0 <= j < |leaf.keys| ==> LeafEntries(l)[j] == Entry(leaf.keys[j], leaf.values[j])
          invariant entries == Between(Contents(shape)[..start + index], lowerBound, upperBound)
        {
          var key := leaf.keys[index];
          ScanStep(Contents(shape), start + index, lowerBound, upperBound);
          if Less(key, lowerBound) {
            index := index + 1;
            continue;
          }
          if !Less(key, upperBound) {
            ScanStop(Contents(shape), start + index, lowerBound, upperBound);
            return;
          }
          entries := entries + [Entry(key, leaf.values[index])];
          index := index + 1;
        }
        leaf := leaf.nextLeaf;
        i := i + 1;
      }
      OffsetEnd(shape);
      assert Contents(shape)[..|Contents(shape)|] == Contents(shape);
    }

    // ---------- self-check ----------

    /** The key-order check of one node. */
    method StrictlyAscending(keys: seq<Key>) returns (ok: bool)
      ensures ok <==> Ascends(keys)
    {
      hide Rank;
      var index := 1;
      while index < |keys|
        invariant 1 <= index && (keys != [] ==> index <= |keys|)
        invariant keys != [] ==> Ascends(keys[..index])
      {
        if !Less(keys[index - 1], keys[index]) { return false; }
        AscendsStep(keys, index);
        index := index + 1;
      }
      assert keys != [] ==> keys[..|keys|] == keys;
      return true;
    }

    lemma AscendsStep(keys: seq<Key>, n: nat)
      requires 0 < n < |keys| && Ascends(keys[..n]) && Rank(keys[n - 1]) < Rank(keys[n])
      ensures Ascends(keys[..n + 1])
    {
      hide Rank;
      forall i | 0 <= i < n ensures Rank(keys[i]) < Rank(keys[n]) {
        assert keys[..n][i] == keys[i] && keys[..n][n - 1] == keys[n - 1];
      }
    }

    /** The entries of one leaf: keys inside the bounds, row lists not empty. */
    method EntriesInBounds(node: Node, minKey: Option<Key>, maxKey: Option<Key>) returns (ok: bool)
      requires |node.values| == |node.keys|
      ensures ok <==> InBounds(node.keys, LoOf(minKey), HiOf(maxKey)) && RowLists(node.values)
    {
      var index := 0;
      while index < |node.keys|
        invariant index <= |node.keys| == |node.values|
        invariant forall i :: 0 <= i < index ==> LoOf(minKey) <= Rank(node.keys[i]) < HiOf(maxKey)
        invariant forall i :: 0 <= i < index ==> node.values[i] != []
      {
        var key := node.keys[index];
        if minKey.Some? && Less(key, minKey.value) { return false; }
        if maxKey.Some? && !Less(key, maxKey.value) { return false; }
        if node.values[index] == [] { return false; }
        index := index + 1;
      }
      return true;
    }

    /** The check of a leaf, `previousLeaf` being the one visited before it. */
    method ValidateLeaf(node: Node, expectedLeafDepth: nat, currentDepth: nat, minKey: Option<Key>, maxKey: Option<Key>,
                        previousLeaf: Node?, ghost t: Tree<Node>, ghost done: seq<Tree<Node>>)
      returns (ok: bool, previous: Node?)
      requires t.Leaf? && t.id == node && HoldsTop(t) && PassesTop(t, currentDepth, maxKeys)
      requires Strung(done) && LastIs(previousLeaf, done)
      ensures ok <==> Checked(t, currentDepth, expectedLeafDepth, minKey, maxKey, done, maxKeys)
      ensures ok ==> LastIs(previous, done + Leaves(t))
    {
      hide Rank, Passes, Strung, PassesTop, InBounds, RowLists, Leaves;
      PassesLeaf(t, currentDepth, expectedLeafDepth, LoOf(minKey), HiOf(maxKey), maxKeys);
      LeafLeaves(t);
      AllAllocated(Ids(done));
      previous := previousLeaf;
      if currentDepth != expectedLeafDepth { return false, previous; }
      if |node.values| != |node.keys| { return false, previous; }
      var inBounds := EntriesInBounds(node, minKey, maxKey);
      StrungOne(done, t);
      if !inBounds { return false, previous; }
      if previousLeaf != null {
        if previousLeaf.nextLeaf != node || node.prevLeaf != previousLeaf { return false, previous; }
        if previousLeaf.keys != [] && node.keys != []
           && !Less(previousLeaf.keys[|previousLeaf.keys| - 1], node.keys[0]) { return false, previous; }
      } else if node.prevLeaf != null { return false, previous; }
      return true, node;
    }

    /** The check of the subtree `t`; `done` are the leaves visited before it. */
    method ValidateNode(node: Node, isRoot: bool, parentIsRoot: bool, expectedLeafDepth: nat, currentDepth: nat,
                        minKey: Option<Key>, maxKey: Option<Key>, previousLeaf: Node?,
                        ghost t: Tree<Node>, ghost done: seq<Tree<Node>>)
      returns (ok: bool, previous: Node?)
      requires t.id == node && Holds(t) && (isRoot <==> currentDepth == 0) && (parentIsRoot <==> currentDepth == 1)
      requires Strung(done) && LastIs(previousLeaf, done)
      ensures ok <==> Checked(t, currentDepth, expectedLeafDepth, minKey, maxKey, done, maxKeys)
      ensures ok ==> LastIs(previous, done + Leaves(t))
      decreases t, 1
    {
      hide Rank, Passes, Strung, Ascends, Leaves, Holds;
      AllAllocated(Ids(done));
      NodesAllocated(t);
      TopHolds(t);
      TopPasses(t, currentDepth, expectedLeafDepth, LoOf(minKey), HiOf(maxKey), maxKeys);
      previous := previousLeaf;
      if |node.keys| > maxKeys { return false, previous; }
      var ascending := StrictlyAscending(node.keys);
      if !ascending { return false, previous; }
      if !isRoot && !parentIsRoot {
        if |node.keys| < MinKeys(maxKeys) { return false, previous; }
      }
      if node.isLeaf {
        ok, previous := ValidateLeaf(node, expectedLeafDepth, currentDepth, minKey, maxKey, previousLeaf, t, done);
        return;
      }
      PassesInner(t, currentDepth, expectedLeafDepth, LoOf(minKey), HiOf(maxKey), maxKeys);
      if |node.children| != |node.keys| + 1 { return false, previous; }
      ok, previous :=
        ValidateChildren(node, isRoot, expectedLeafDepth, currentDepth, minKey, maxKey, previousLeaf, t, done);
    }

    lemma TopHolds(t: Tree<Node>)
      requires Holds(t)
      ensures HoldsTop(t) && (t.Inner? ==> |t.id.children| == |t.kids|)
      ensures t.Inner? ==> forall i :: 0 <= i < |t.kids| ==> Holds(t.kids[i]) && t.kids[i].id == t.id.children[i]
    {
    }

    lemma TopPasses(t: Tree<Node>, current: nat, expected: nat, lo: real, hi: real, M: nat)
      ensures Passes(t, current, expected, lo, hi, M) ==> PassesTop(t, current, M)
      ensures Passes(t, current, expected, lo, hi, M) && t.Inner? ==> |t.kids| == |t.keys| + 1
    {
    }

    /** The check of a node's children from left to right, each inside the bounds that the separators give it. */
    method ValidateChildren(node: Node, isRoot: bool, expectedLeafDepth: nat, currentDepth: nat,
                            minKey: Option<Key>, maxKey: Option<Key>, previousLeaf: Node?,
                            ghost t: Tree<Node>, ghost done: seq<Tree<Node>>)
      returns (ok: bool, previous: Node?)
      requires t.Inner? && |t.kids| == |t.keys| + 1 && t.id == node && Holds(t) && (isRoot <==> currentDepth == 0)
      requires Strung(done) && LastIs(previousLeaf, done)
      ensures ok <==> PassesUpTo(t, |t.kids|, currentDepth, expectedLeafDepth, LoOf(minKey), HiOf(maxKey), maxKeys)
                      && Strung(done + Leaves(t))
      ensures ok ==> LastIs(previous, done + Leaves(t))
      decreases t, 0
    {
      hide Rank, Passes, Strung, LastIs, Leaves, LeavesF, Holds, Seen;
      ghost var lo, hi, n := LoOf(minKey), HiOf(maxKey), |t.keys|;
      NodesAllocated(t);
      TopHolds(t);
      SeenAll(done, t);
      previous := previousLeaf;
      var min := minKey;
      var index := 0;
      while index < |node.keys|
        invariant index <= |node.keys| && node.keys == t.keys && Holds(t)
        invariant Strung(Seen(done, t, index)) && LastIs(previous, Seen(done, t, index))
        invariant PassesUpTo(t, index, currentDepth, expectedLeafDepth, lo, hi, maxKeys)
        invariant LoOf(min) == Lo(t.keys, index, lo)
      {
        TopHolds(t);
        ok, previous := ValidateNode(node.children[index], false, isRoot, expectedLeafDepth, currentDepth + 1,
                                     min, Some(node.keys[index]), previous, t.kids[index], Seen(done, t, index));
        SeenStep(done, t, index);
        if !ok { return; }
        min := Some(node.keys[index]);
        index := index + 1;
      }
      TopHolds(t);
      ok, previous :=
        ValidateNode(node.children[|node.children| - 1], false, isRoot, expectedLeafDepth, currentDepth + 1,
                                   min, maxKey, previous, t.kids[n], Seen(done, t, n));
      SeenStep(done, t, n);
      SeenAll(done, t);
    }

    /** The self-check accepts a tree exactly if it is canonical; then lookups are right, and no run leaves another. */
    method ValidateCanonicalInvariants() returns (ok: bool)
      requires maxKeys >= 3 && shape.id == root && Holds(shape) && Distinct(shape)
      ensures ok <==> Canonical(shape, maxKeys)
      ensures ok ==> Searchable()
      ensures Valid() ==> ok
    {
      hide Rank, Strung, LastIs, Leaves, Holds, Distinct, Linked, Ordered, Chain, Sizes, Checked, Valid, Searchable;
      NodesAllocated(shape);
      AcceptedOrNot();
      var expectedLeafDepth := 0;
      var cursor := root;
      ghost var c, hi := shape, TOP;
      while !cursor.isLeaf
        invariant c.id == cursor && Holds(c) && Depth(shape) == expectedLeafDepth + Depth(c)
        invariant Ordered(shape, BOTTOM, TOP, Depth(shape)) ==> Ordered(c, BOTTOM, hi, Depth(c))
        decreases c
      {
        TopHolds(c);
        LeftmostStep(c, hi);
        expectedLeafDepth := expectedLeafDepth + 1;
        if cursor.children == [] { return false; }
        cursor := cursor.children[0];
        hi := if c.keys == [] then hi else Rank(c.keys[0]);
        c := c.kids[0];
      }
      TopHolds(c);
      LeafDepth(c);
      NothingSeen();
      var previous;
      ok, previous := ValidateNode(root, true, false, expectedLeafDepth, 0, None, None, null, shape, []);
      Verdict(shape, maxKeys, previous);
      if !ok { return; }
      if previous != null && previous.nextLeaf != null { return false; }
    }

    /** Every tree that a run reaches is canonical, and lookups in a canonical tree are right. */
    lemma AcceptedOrNot()
      requires shape.id == root && Holds(shape) && Distinct(shape)
      ensures Valid() ==> Canonical(shape, maxKeys)
      ensures Canonical(shape, maxKeys) ==> Searchable()
    {
      hide Rank, Holds, Distinct, Linked, Ordered, Chain, Depth, Sizes, Full;
      if Valid() { FullSizes(shape, 0, maxKeys); }
    }

    /** Trees that stand for the same map hold the same entries in the same order: lookups and scans do not show how a
        tree has come about. */
    lemma ShapeIsHidden(other: BStarPlusTree)
      requires Searchable() && other.Searchable() && Content() == other.Content()
      ensures Contents(shape) == Contents(other.shape)
    {
      hide Rank, Contents;
      ContentsSorted(shape, BOTTOM, TOP, Depth(shape));
      ContentsSorted(other.shape, BOTTOM, TOP, Depth(other.shape));
      ToMapInjective(Contents(shape), Contents(other.shape));
    }

    /** A tree of height `h` holds exponentially many keys, so a lookup visits logarithmically many nodes. */
    lemma HeightIsLogarithmic()
      requires Valid() && Depth(shape) >= 1
      ensures |Content()| >= 2 * (maxKeys / 2) * Pow(maxKeys / 2 + 1, Depth(shape) - 1)
    {
      hide Rank, Pow, Holds, Distinct, Linked, Contents, ToMap, Sub, Chain, Depth;
      var h := Depth(shape);
      HeightBound(shape, BOTTOM, TOP, h, maxKeys);
      ContentsSorted(shape, BOTTOM, TOP, h);
      AsManyKeys(Contents(shape));
      var m, p := maxKeys / 2, Pow(maxKeys / 2 + 1, h - 1);
      assert 2 * (m * p) == 2 * m * p;
    }

    /** Any run of insertions and deletions does to the map what it should, and keeps every invariant. */
    method Apply(updates: seq<Update>)
      requires Valid()
      modifies this, Nodes(shape)
      ensures Valid() && fresh(Nodes(shape) - old(Nodes(shape)))
      ensures Content() == Outcome(old(Content()), updates)
    {
      hide Rank, Content, Valid, MapInsert, MapRemove;
      ghost var start := Content();
      var i := 0;
      while i < |updates|
        invariant i <= |updates| && Valid() && fresh(Nodes(shape) - old(Nodes(shape)))
        invariant Content() == Outcome(start, updates[..i])
      {
        match updates[i] {
          case Add(key, row) => Insert(key, row);
          case Take(key, row) => Remove(key, row);
        }
        assert updates[..i + 1][..i] == updates[..i];
        i := i + 1;
      }
      assert updates[..|updates|] == updates;
    }
  }
}
