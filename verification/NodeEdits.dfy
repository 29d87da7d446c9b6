/** The in-place edits that the tree's repairs are made of, each told by the fields it leaves behind. */
module NodeEdits {
  import opened TreeNodes

  // ---------- between two leaves ----------

  /** The first entry of `right` becomes the last one of `left`; the separator follows. */
  method ShiftEntryLeft(parent: Node, k: nat, left: Node, right: Node)
    requires left != right && parent != left && parent != right
    requires k < |parent.keys| && |right.keys| >= 2 && |right.values| == |right.keys|
    modifies left`keys, left`values, right`keys, right`values, parent`keys
    ensures left.keys == old(left.keys) + [old(right.keys)[0]]
    ensures left.values == old(left.values) + [old(right.values)[0]]
    ensures right.keys == old(right.keys)[1..] && right.values == old(right.values)[1..]
    ensures parent.keys == old(parent.keys)[k := old(right.keys)[1]]
  {
    left.keys := left.keys + [right.keys[0]];
    left.values := left.values + [right.values[0]];
    right.keys := right.keys[1..];
    right.values := right.values[1..];
    parent.keys := parent.keys[k := right.keys[0]];
  }

  /** The last entry of `left` becomes the first one of `right`; the separator follows. */
  method ShiftEntryRight(parent: Node, k: nat, left: Node, right: Node)
    requires left != right && parent != left && parent != right
    requires k < |parent.keys| && left.keys != [] && |left.values| == |left.keys|
    modifies left`keys, left`values, right`keys, right`values, parent`keys
    ensures var last := |old(left.keys)| - 1;
      && right.keys == [old(left.keys)[last]] + old(right.keys)
      && right.values == [old(left.values)[last]] + old(right.values)
      && left.keys == old(left.keys)[..last] && left.values == old(left.values)[..last]
      && parent.keys == old(parent.keys)[k := old(left.keys)[last]]
  {
    right.keys := [left.keys[|left.keys| - 1]] + right.keys;
    right.values := [left.values[|left.values| - 1]] + right.values;
    left.keys := left.keys[..|left.keys| - 1];
    left.values := left.values[..|left.values| - 1];
    parent.keys := parent.keys[k := right.keys[0]];
  }

  /** A new leaf is linked in between two neighbours. */
  method LinkBetween(left: Node, middle: Node, right: Node, ghost before: seq<Node>, ghost after: seq<Node>)
    requires Linked(before + [left, right] + after)
    requires middle !in before && middle !in after && middle != left && middle != right
    modifies left`nextLeaf, right`prevLeaf, middle`nextLeaf, middle`prevLeaf
    ensures Linked(before + [left, middle, right] + after)
  {
    ghost var rest, n := [right] + after, |before|;
    assert before + [left, right] + after == before + [left] + rest;
    assert before + [left, middle, right] + after == before + [left, middle] + rest;
    ghost var c, c' := before + [left] + rest, before + [left, middle] + rest;
    InsertedAt(before, left, middle, rest);
    assert c[n + 1] == right;
    middle.prevLeaf := left;
    middle.nextLeaf := right;
    right.prevLeaf := middle;
    left.nextLeaf := middle;
  }

  /** Positions in a list that gains `x` behind `at`. */
  lemma InsertedAt(before: seq<Node>, at: Node, x: Node, after: seq<Node>)
    requires Linked(before + [at] + after) && x !in before && x != at && x !in after
    ensures var c, c', n := before + [at] + after, before + [at, x] + after, |before|;
      && |c'| == |c| + 1 && c[n] == at && c'[n] == at && c'[n + 1] == x
      && (forall i :: 0 <= i <= n ==> c'[i] == c[i])
      && (forall i :: n + 1 < i < |c'| ==> c'[i] == c[i - 1])
      && (forall i :: 0 <= i < |c'| && i != n + 1 ==> c'[i] != x)
      && (forall i, j :: 0 <= i < j < |c'| ==> c'[i] != c'[j])
  {
    var c, c', n := before + [at] + after, before + [at, x] + after, |before|;
    forall i | n + 1 < i < |c'| ensures c'[i] == c[i - 1] && c'[i] != x {
      assert c'[i] == after[i - n - 2];
    }
  }

  /** Positions in a list that loses the element `x` behind `at`. */
  lemma RemovedAt(before: seq<Node>, at: Node, x: Node, after: seq<Node>)
    requires Linked(before + [at, x] + after)
    ensures var c, c', n := before + [at, x] + after, before + [at] + after, |before|;
      && |c| == |c'| + 1 && c[n] == at && c[n + 1] == x && c'[n] == at
      && (forall i :: 0 <= i <= n ==> c'[i] == c[i])
      && (forall i :: n < i < |c'| ==> c'[i] == c[i + 1])
      && (forall i, j :: 0 <= i < j < |c'| ==> c'[i] != c'[j])
      && (after != [] ==> c[n + 2] == after[0] && c'[n + 1] == after[0])
  {
    var c, c', n := before + [at, x] + after, before + [at] + after, |before|;
    forall i | n < i < |c'| ensures c'[i] == c[i + 1] {
      assert c'[i] == after[i - n - 1];
    }
  }

  /** The right one of two neighbouring leaves leaves the list. */
  method UnlinkRight(left: Node, right: Node, ghost before: seq<Node>, ghost after: seq<Node>)
    requires Linked(before + [left, right] + after)
    modifies left`nextLeaf, Elems(after)`prevLeaf
    ensures Linked(before + [left] + after)
  {
    ghost var c, c', n := before + [left, right] + after, before + [left] + after, |before|;
    RemovedAt(before, left, right, after);
    assert right.nextLeaf == if after == [] then null else after[0];
    left.nextLeaf := right.nextLeaf;
    if left.nextLeaf != null {
      left.nextLeaf.prevLeaf := left;
    }
  }

  /** A new leaf is linked in after `left`, which may be the last one. */
  method LinkAfter(left: Node, right: Node, ghost before: seq<Node>, ghost after: seq<Node>)
    requires Linked(before + [left] + after)
    requires right !in before && right !in after && right != left
    modifies left`nextLeaf, right`nextLeaf, right`prevLeaf, Elems(after)`prevLeaf
    ensures Linked(before + [left, right] + after)
  {
    ghost var c, c', n := before + [left] + after, before + [left, right] + after, |before|;
    InsertedAt(before, left, right, after);
    assert after != [] ==> c[n + 1] == after[0];
    assert left.nextLeaf == if after == [] then null else after[0];
    right.nextLeaf := left.nextLeaf;
    if right.nextLeaf != null {
      right.nextLeaf.prevLeaf := right;
    }
    right.prevLeaf := left;
    left.nextLeaf := right;
  }

  /** The entries of two leaves, `middle` being empty, are dealt out to three. */
  method SpreadEntries(left: Node, middle: Node, right: Node, a: nat, b: nat)
    requires left != right && left != middle && middle != right
    requires |left.values| == |left.keys| && |right.values| == |right.keys|
    requires a < b < |left.keys| + |right.keys|
    modifies left`keys, left`values, middle`keys, middle`values, right`keys, right`values
    ensures var ks, vs := old(left.keys) + old(right.keys), old(left.values) + old(right.values);
      && left.keys == ks[..a] && left.values == vs[..a]
      && middle.keys == ks[a..b] && middle.values == vs[a..b]
      && right.keys == ks[b..] && right.values == vs[b..]
  {
    var allKeys := left.keys + right.keys;
    var allValues := left.values + right.values;
    left.keys, left.values := allKeys[..a], allValues[..a];
    middle.keys, middle.values := allKeys[a..b], allValues[a..b];
    right.keys, right.values := allKeys[b..], allValues[b..];
  }

  /** The entries of two leaves are spread over three, the middle one new. */
  method SpreadLeaves(parent: Node, k: nat, left: Node, right: Node, a: nat, b: nat,
                      ghost before: seq<Node>, ghost after: seq<Node>) returns (middle: Node)
    requires left != right && parent != left && parent != right
    requires k < |parent.keys| && k < |parent.children|
    requires |left.values| == |left.keys| && |right.values| == |right.keys|
    requires a < b < |left.keys| + |right.keys|
    requires Linked(before + [left, right] + after)
    modifies left`keys, left`values, right`keys, right`values, parent`keys, parent`children
    modifies left`nextLeaf, right`prevLeaf
    ensures fresh(middle) && middle.isLeaf
    ensures var ks, vs := old(left.keys) + old(right.keys), old(left.values) + old(right.values);
      && left.keys == ks[..a] && left.values == vs[..a]
      && middle.keys == ks[a..b] && middle.values == vs[a..b]
      && right.keys == ks[b..] && right.values == vs[b..]
      && parent.keys == old(parent.keys)[..k] + [ks[a], ks[b]] + old(parent.keys)[k + 1..]
    ensures parent.children == old(parent.children)[..k + 1] + [middle] + old(parent.children)[k + 1..]
    ensures Linked(before + [left, middle, right] + after)
  {
    hide Linked;
    AllAllocated(before);
    AllAllocated(after);
    AllAllocated(before + [left, right] + after);
    middle := new Node(true);
    SpreadEntries(left, middle, right, a, b);
    LinkBetween(left, middle, right, before, after);
    parent.keys := parent.keys[..k] + [middle.keys[0], right.keys[0]] + parent.keys[k + 1..];
    parent.children := parent.children[..k + 1] + [middle] + parent.children[k + 1..];
  }

  /** The third of three neighbouring leaves leaves the list; the links of the other two are written again. */
  method UnlinkThird(left: Node, middle: Node, right: Node, ghost before: seq<Node>, ghost after: seq<Node>)
    requires Linked(before + [left, middle, right] + after)
    modifies left`nextLeaf, middle`nextLeaf, middle`prevLeaf, Elems(after)`prevLeaf
    ensures Linked(before + [left, middle] + after)
  {
    assert before + [left, middle, right] + after == (before + [left]) + [middle, right] + after;
    UnlinkRight(middle, right, before + [left], after);
    ghost var c := before + [left, middle] + after;
    assert (before + [left]) + [middle] + after == c;
    assert c[|before|] == left && c[|before| + 1] == middle;
    middle.prevLeaf := left;
    left.nextLeaf := middle;
  }

  /** The entries of three leaves are gathered in the first two. */
  method GatherLeaves(parent: Node, k: nat, left: Node, middle: Node, right: Node, c: nat,
                      ghost before: seq<Node>, ghost after: seq<Node>)
    requires left != middle && left != right && middle != right
    requires parent != left && parent != middle && parent != right
    requires k + 1 < |parent.keys| && k + 2 < |parent.children|
    requires |left.values| == |left.keys| && |middle.values| == |middle.keys| && |right.values| == |right.keys|
    requires c < |left.keys| + |middle.keys| + |right.keys|
    requires Linked(before + [left, middle, right] + after)
    modifies left`keys, left`values, middle`keys, middle`values, parent`keys, parent`children
    modifies left`nextLeaf, middle`nextLeaf, middle`prevLeaf, Elems(after)`prevLeaf
    ensures var ks := old(left.keys) + old(middle.keys) + old(right.keys);
            var vs := old(left.values) + old(middle.values) + old(right.values);
      && left.keys == ks[..c] && left.values == vs[..c]
      && middle.keys == ks[c..] && middle.values == vs[c..]
      && parent.keys == old(parent.keys)[..k] + [ks[c]] + old(parent.keys)[k + 2..]
    ensures parent.children == old(parent.children)[..k + 2] + old(parent.children)[k + 3..]
    ensures Linked(before + [left, middle] + after)
  {
    hide Linked;
    var allKeys := left.keys + middle.keys + right.keys;
    var allValues := left.values + middle.values + right.values;
    left.keys, left.values := allKeys[..c], allValues[..c];
    middle.keys, middle.values := allKeys[c..], allValues[c..];
    UnlinkThird(left, middle, right, before, after);
    parent.keys := parent.keys[k := middle.keys[0]];
    parent.keys := parent.keys[..k + 1] + parent.keys[k + 2..];
    parent.children := parent.children[..k + 2] + parent.children[k + 3..];
  }

  /** `right` is emptied into `left` and dropped from the parent. */
  method AbsorbLeaf(parent: Node, k: nat, left: Node, right: Node,
                    ghost before: seq<Node>, ghost after: seq<Node>)
    requires left != right && parent != left && parent != right
    requires k < |parent.keys| && k + 1 < |parent.children|
    requires Linked(before + [left, right] + after)
    modifies left`keys, left`values, parent`keys, parent`children
    modifies left`nextLeaf, Elems(after)`prevLeaf
    ensures left.keys == old(left.keys) + old(right.keys) && left.values == old(left.values) + old(right.values)
    ensures parent.keys == old(parent.keys)[..k] + old(parent.keys)[k + 1..]
    ensures parent.children == old(parent.children)[..k + 1] + old(parent.children)[k + 2..]
    ensures Linked(before + [left] + after)
  {
    left.keys := left.keys + right.keys;
    left.values := left.values + right.values;
    UnlinkRight(left, right, before, after);
    parent.keys := parent.keys[..k] + parent.keys[k + 1..];
    parent.children := parent.children[..k + 1] + parent.children[k + 2..];
  }

  // ---------- between two inner nodes ----------

  /** The first child of `right` becomes the last one of `left`; a key rotates through the parent. */
  method ShiftChildLeft(parent: Node, k: nat, left: Node, right: Node)
    requires left != right && parent != left && parent != right
    requires k < |parent.keys| && right.keys != [] && right.children != []
    modifies left`keys, left`children, right`keys, right`children, parent`keys
    ensures left.keys == old(left.keys) + [old(parent.keys)[k]]
    ensures left.children == old(left.children) + [old(right.children)[0]]
    ensures right.keys == old(right.keys)[1..] && right.children == old(right.children)[1..]
    ensures parent.keys == old(parent.keys)[k := old(right.keys)[0]]
  {
    left.keys := left.keys + [parent.keys[k]];
    parent.keys := parent.keys[k := right.keys[0]];
    right.keys := right.keys[1..];
    left.children := left.children + [right.children[0]];
    right.children := right.children[1..];
  }

  /** The last child of `left` becomes the first one of `right`; a key rotates through the parent. */
  method ShiftChildRight(parent: Node, k: nat, left: Node, right: Node)
    requires left != right && parent != left && parent != right
    requires k < |parent.keys| && left.keys != [] && left.children != []
    modifies left`keys, left`children, right`keys, right`children, parent`keys
    ensures right.keys == [old(parent.keys)[k]] + old(right.keys)
    ensures right.children == [old(left.children)[|old(left.children)| - 1]] + old(right.children)
    ensures left.keys == old(left.keys)[..|old(left.keys)| - 1]
    ensures left.children == old(left.children)[..|old(left.children)| - 1]
    ensures parent.keys == old(parent.keys)[k := old(left.keys)[|old(left.keys)| - 1]]
  {
    right.keys := [parent.keys[k]] + right.keys;
    parent.keys := parent.keys[k := left.keys[|left.keys| - 1]];
    left.keys := left.keys[..|left.keys| - 1];
    right.children := [left.children[|left.children| - 1]] + right.children;
    left.children := left.children[..|left.children| - 1];
  }

  /** The children of two inner nodes, and the separator between them, are spread over three. */
  method SpreadInternals(parent: Node, k: nat, left: Node, right: Node, a: nat, b: nat) returns (middle: Node)
    requires left != right && parent != left && parent != right
    requires k < |parent.keys| && k < |parent.children|
    requires |left.children| == |left.keys| + 1 && |right.children| == |right.keys| + 1
    requires a < b < |left.keys| + 1 + |right.keys|
    modifies left`keys, left`children, right`keys, right`children, parent`keys, parent`children
    ensures fresh(middle) && !middle.isLeaf
    ensures var ks, cs :=
      old(left.keys) + [old(parent.keys)[k]] + old(right.keys), old(left.children) + old(right.children);
      && left.keys == ks[..a] && left.children == cs[..a + 1]
      && middle.keys == ks[a + 1..b] && middle.children == cs[a + 1..b + 1]
      && right.keys == ks[b + 1..] && right.children == cs[b + 1..]
      && parent.keys == old(parent.keys)[..k] + [ks[a], ks[b]] + old(parent.keys)[k + 1..]
    ensures parent.children == old(parent.children)[..k + 1] + [middle] + old(parent.children)[k + 1..]
  {
    var allKeys := left.keys + [parent.keys[k]] + right.keys;
    var allChildren := left.children + right.children;
    middle := new Node(false);
    left.keys := allKeys[..a];
    middle.keys := allKeys[a + 1..b];
    right.keys := allKeys[b + 1..];
    left.children := allChildren[..a + 1];
    middle.children := allChildren[a + 1..b + 1];
    right.children := allChildren[b + 1..];
    parent.keys := parent.keys[..k] + [allKeys[a], allKeys[b]] + parent.keys[k + 1..];
    parent.children := parent.children[..k + 1] + [middle] + parent.children[k + 1..];
  }

  /** The children of three inner nodes, and the two separators, are gathered in the first two. */
  method GatherInternals(parent: Node, k: nat, left: Node, middle: Node, right: Node, c: nat)
    requires left != middle && left != right && middle != right
    requires parent != left && parent != middle && parent != right
    requires k + 1 < |parent.keys| && k + 2 < |parent.children|
    requires |left.children| == |left.keys| + 1 && |middle.children| == |middle.keys| + 1
    requires |right.children| == |right.keys| + 1
    requires c < |left.keys| + |middle.keys| + |right.keys| + 2
    modifies left`keys, left`children, middle`keys, middle`children, parent`keys, parent`children
    ensures var ks := old(left.keys) + [old(parent.keys)[k]] + old(middle.keys)
                    + [old(parent.keys)[k + 1]] + old(right.keys);
            var cs := old(left.children) + old(middle.children) + old(right.children);
      && left.keys == ks[..c] && left.children == cs[..c + 1]
      && middle.keys == ks[c + 1..] && middle.children == cs[c + 1..]
      && parent.keys == old(parent.keys)[..k] + [ks[c]] + old(parent.keys)[k + 2..]
    ensures parent.children == old(parent.children)[..k + 2] + old(parent.children)[k + 3..]
  {
    var allKeys := left.keys + [parent.keys[k]] + middle.keys + [parent.keys[k + 1]] + right.keys;
    var allChildren := left.children + middle.children + right.children;
    left.keys := allKeys[..c];
    middle.keys := allKeys[c + 1..];
    left.children := allChildren[..c + 1];
    middle.children := allChildren[c + 1..];
    parent.keys := parent.keys[k := allKeys[c]];
    parent.keys := parent.keys[..k + 1] + parent.keys[k + 2..];
    parent.children := parent.children[..k + 2] + parent.children[k + 3..];
  }

  /** `right` and the separator are emptied into `left`; both are dropped from the parent. */
  method AbsorbInternal(parent: Node, k: nat, left: Node, right: Node)
    requires left != right && parent != left && parent != right
    requires k < |parent.keys| && k + 1 < |parent.children|
    modifies left`keys, left`children, parent`keys, parent`children
    ensures left.keys == old(left.keys) + [old(parent.keys)[k]] + old(right.keys)
    ensures left.children == old(left.children) + old(right.children)
    ensures parent.keys == old(parent.keys)[..k] + old(parent.keys)[k + 1..]
    ensures parent.children == old(parent.children)[..k + 1] + old(parent.children)[k + 2..]
  {
    left.keys := left.keys + [parent.keys[k]];
    left.keys := left.keys + right.keys;
    left.children := left.children + right.children;
    parent.keys := parent.keys[..k] + parent.keys[k + 1..];
    parent.children := parent.children[..k + 1] + parent.children[k + 2..];
  }
}
