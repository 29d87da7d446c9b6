/** The B*+ tree as a value: its shape, its search order, and what it contains.

    `N` names nodes.  The imperative tree instantiates it with heap references, so that one value
    records both what a subtree holds and which objects it is made of. */
module TreeShape {
  import opened Keys

  type RowId = nat
  type Rows = seq<RowId>

  datatype Entry = Entry(key: Key, rows: Rows)

  datatype Tree<N> =
    | Leaf(id: N, keys: seq<Key>, vals: seq<Rows>)
    | Inner(id: N, keys: seq<Key>, kids: seq<Tree<N>>)

  // ---------- contents ----------

  /** The leaves of a subtree from left to right. */
  ghost function Leaves<N>(t: Tree<N>): (ls: seq<Tree<N>>)
  {
    match t
    case Leaf(_, _, _) => [t]
    case Inner(_, _, kids) => LeavesF(kids)
  }

  ghost function LeavesF<N>(kids: seq<Tree<N>>): seq<Tree<N>> {
    if kids == [] then [] else Leaves(kids[0]) + LeavesF(kids[1..])
  }

  ghost function LeafEntries<N>(leaf: Tree<N>): seq<Entry> {
    if leaf.Leaf? && |leaf.vals| == |leaf.keys|
    then seq(|leaf.keys|, i requires 0 <= i < |leaf.keys| => Entry(leaf.keys[i], leaf.vals[i]))
    else []
  }

  ghost function Entries<N>(ls: seq<Tree<N>>): seq<Entry> {
    if ls == [] then [] else LeafEntries(ls[0]) + Entries(ls[1..])
  }

  ghost function Ids<N>(ls: seq<Tree<N>>): seq<N> {
    seq(|ls|, i requires 0 <= i < |ls| => ls[i].id)
  }

  ghost function Contents<N>(t: Tree<N>): seq<Entry> {
    Entries(Leaves(t))
  }

  lemma {:induction false} LeavesFAppend<N>(a: seq<Tree<N>>, b: seq<Tree<N>>)
    ensures LeavesF(a + b) == LeavesF(a) + LeavesF(b)
  {
    if a == [] {
      assert a + b == b;
    } else {
      var c := a + b;
      assert c[0] == a[0] && c[1..] == a[1..] + b;
      LeavesFAppend(a[1..], b);
      Associative(Leaves(a[0]), LeavesF(a[1..]), LeavesF(b));
    }
  }

  lemma {:induction false} EntriesAppend<N>(a: seq<Tree<N>>, b: seq<Tree<N>>)
    ensures Entries(a + b) == Entries(a) + Entries(b)
  {
    if a == [] {
      assert a + b == b;
    } else {
      var c := a + b;
      assert c[0] == a[0] && c[1..] == a[1..] + b;
      EntriesAppend(a[1..], b);
      Associative(LeafEntries(a[0]), Entries(a[1..]), Entries(b));
    }
  }

  lemma Associative<T>(a: seq<T>, b: seq<T>, c: seq<T>)
    ensures a + b + c == a + (b + c)
  {
  }

  // ---------- nodes ----------

  ghost function Nodes<N>(t: Tree<N>): set<N> {
    match t
    case Leaf(id, _, _) => {id}
    case Inner(id, _, kids) => {id} + NodesF(kids)
  }

  ghost function NodesF<N>(kids: seq<Tree<N>>): set<N> {
    if kids == [] then {} else Nodes(kids[0]) + NodesF(kids[1..])
  }

  /** No node occurs twice. */
  ghost predicate Distinct<N>(t: Tree<N>) {
    t.Inner? ==> t.id !in NodesF(t.kids) && DistinctF(t.kids)
  }

  ghost predicate DistinctF<N>(kids: seq<Tree<N>>) {
    && (forall i :: 0 <= i < |kids| ==> Distinct(kids[i]))
    && (forall i, j :: 0 <= i < j < |kids| ==> Nodes(kids[i]) !! Nodes(kids[j]))
  }

  lemma {:induction false} NodesFAppend<N>(a: seq<Tree<N>>, b: seq<Tree<N>>)
    ensures NodesF(a + b) == NodesF(a) + NodesF(b)
  {
    if a == [] {
      assert a + b == b;
    } else {
      NodesFAppend(a[1..], b);
      assert (a + b)[1..] == a[1..] + b;
    }
  }

  lemma {:induction false} NodesFHas<N>(kids: seq<Tree<N>>, n: N)
    ensures n in NodesF(kids) <==> exists i :: 0 <= i < |kids| && n in Nodes(kids[i])
  {
    if kids != [] {
      NodesFHas(kids[1..], n);
      if n in NodesF(kids[1..]) {
        var i :| 0 <= i < |kids[1..]| && n in Nodes(kids[1..][i]);
        assert n in Nodes(kids[i + 1]);
      } else if i :| 0 <= i < |kids| && n in Nodes(kids[i]) {
        if i > 0 { assert n in Nodes(kids[1..][i - 1]); }
      }
    }
  }

  lemma NodesFAll<N>(kids: seq<Tree<N>>)
    ensures forall i :: 0 <= i < |kids| ==> Nodes(kids[i]) <= NodesF(kids)
  {
    forall i, n | 0 <= i < |kids| && n in Nodes(kids[i]) ensures n in NodesF(kids) {
      NodesFHas(kids, n);
    }
  }

  // ---------- search order ----------

  /** Leaf keys: strictly ascending inside [lo, hi). */
  ghost predicate KeysIn(keys: seq<Key>, lo: real, hi: real) {
    && (forall i :: 0 <= i < |keys| ==> lo <= Rank(keys[i]) < hi)
    && (forall i, j :: 0 <= i < j < |keys| ==> Rank(keys[i]) < Rank(keys[j]))
  }

  /** Separators: strictly ascending and strictly above the lower bound, so that no child is squeezed out. */
  ghost predicate SepsIn(keys: seq<Key>, lo: real, hi: real) {
    && (forall i :: 0 <= i < |keys| ==> lo < Rank(keys[i]) < hi)
    && (forall i, j :: 0 <= i < j < |keys| ==> Rank(keys[i]) < Rank(keys[j]))
  }

  ghost function Lo(keys: seq<Key>, i: int, lo: real): real
    requires 0 <= i <= |keys|
  {
    if i == 0 then lo else Rank(keys[i - 1])
  }

  ghost function Hi(keys: seq<Key>, i: int, hi: real): real
    requires 0 <= i <= |keys|
  {
    if i == |keys| then hi else Rank(keys[i])
  }

  ghost predicate RowLists(vals: seq<Rows>) {
    forall i :: 0 <= i < |vals| ==> vals[i] != []
  }

  /** A search tree of height `h` for the keys in [lo, hi); all leaves are at the same depth. */
  ghost predicate Ordered<N>(t: Tree<N>, lo: real, hi: real, h: nat)
    decreases h, 0
  {
    match t
    case Leaf(_, keys, vals) => h == 0 && |vals| == |keys| && KeysIn(keys, lo, hi) && RowLists(vals)
    case Inner(_, keys, kids) => h > 0 && Forest(keys, kids, lo, hi, h - 1)
  }

  /** Trees of one height side by side, told apart by separators. */
  ghost predicate Forest<N>(seps: seq<Key>, kids: seq<Tree<N>>, lo: real, hi: real, h: nat)
    decreases h, 1
  {
    && |kids| == |seps| + 1
    && SepsIn(seps, lo, hi)
    && forall i :: 0 <= i < |kids| ==> Ordered(kids[i], Lo(seps, i, lo), Hi(seps, i, hi), h)
  }

  // Bounds that no key reaches.
  ghost const BOTTOM := -1.0
  ghost const TOP := 1.0

  /** The height along the leftmost path. */
  ghost function Depth<N>(t: Tree<N>): nat {
    if t.Leaf? || t.kids == [] then 0 else 1 + Depth(t.kids[0])
  }

  /** A search tree is as high everywhere as along its leftmost path. */
  lemma {:induction false} OrderedDepth<N>(t: Tree<N>, lo: real, hi: real, h: nat)
    requires Ordered(t, lo, hi, h)
    ensures Depth(t) == h
    decreases h
  {
    hide Rank;
    if t.Inner? {
      assert Forest(t.keys, t.kids, lo, hi, h - 1);
      OrderedDepth(t.kids[0], Lo(t.keys, 0, lo), Hi(t.keys, 0, hi), h - 1);
    }
  }

  lemma KidsOrdered<N>(t: Tree<N>, lo: real, hi: real, h: nat)
    requires Ordered(t, lo, hi, h) && h > 0
    ensures t.Inner? && |t.kids| == |t.keys| + 1 && SepsIn(t.keys, lo, hi)
    ensures Forest(t.keys, t.kids, lo, hi, h - 1)
  {
  }

  // ---------- occupancy ----------

  function MinKeys(M: nat): nat {
    (M + 1) / 2
  }

  /** Every node of the subtree, its top included, is at least half full and not over-full. */
  ghost predicate Full<N>(t: Tree<N>, M: nat) {
    && MinKeys(M) <= |t.keys| <= M
    && (t.Inner? ==> FullF(t.kids, M))
  }

  ghost predicate FullF<N>(kids: seq<Tree<N>>, M: nat) {
    forall i :: 0 <= i < |kids| ==> Full(kids[i], M)
  }

  // ---------- fusing and cutting ----------
  //
  // Every restructuring step of the tree fuses neighbours into one node and cuts the result.

  function Fuse<N>(l: Tree<N>, sep: Key, r: Tree<N>): Tree<N> {
    if l.Leaf? && r.Leaf? then Leaf(l.id, l.keys + r.keys, l.vals + r.vals)
    else if l.Inner? && r.Inner? then Inner(l.id, l.keys + [sep] + r.keys, l.kids + r.kids)
    else l
  }

  predicate Cuttable<N>(t: Tree<N>, c: nat) {
    && c < |t.keys|
    && (t.Leaf? ==> c <= |t.vals|)
    && (t.Inner? ==> c + 1 <= |t.kids|)
  }

  function CutLeft<N>(t: Tree<N>, c: nat): Tree<N>
    requires Cuttable(t, c)
  {
    if t.Leaf? then Leaf(t.id, t.keys[..c], t.vals[..c]) else Inner(t.id, t.keys[..c], t.kids[..c + 1])
  }

  function CutSep<N>(t: Tree<N>, c: nat): Key
    requires Cuttable(t, c)
  {
    t.keys[c]
  }

  function CutRight<N>(t: Tree<N>, c: nat, id: N): Tree<N>
    requires Cuttable(t, c)
  {
    if t.Leaf? then Leaf(id, t.keys[c..], t.vals[c..]) else Inner(id, t.keys[c + 1..], t.kids[c + 1..])
  }

  lemma FuseOrdered<N>(l: Tree<N>, sep: Key, r: Tree<N>, lo: real, hi: real, h: nat)
    requires Ordered(l, lo, Rank(sep), h) && Ordered(r, Rank(sep), hi, h)
    requires lo < Rank(sep) < hi
    ensures Ordered(Fuse(l, sep, r), lo, hi, h)
  {
    if l.Leaf? {
      var t := Fuse(l, sep, r);
      assert forall i :: 0 <= i < |t.vals| ==> t.vals[i] == if i < |l.vals| then l.vals[i] else r.vals[i - |l.vals|];
    } else {
      ForestJoin(l.keys, l.kids, sep, r.keys, r.kids, lo, hi, h - 1);
    }
  }

  lemma ForestJoin<N>(ks1: seq<Key>, c1: seq<Tree<N>>, sep: Key, ks2: seq<Key>, c2: seq<Tree<N>>,
                      lo: real, hi: real, h: nat)
    requires Forest(ks1, c1, lo, Rank(sep), h) && Forest(ks2, c2, Rank(sep), hi, h)
    requires lo < Rank(sep) < hi
    ensures Forest(ks1 + [sep] + ks2, c1 + c2, lo, hi, h)
  {
    hide Ordered, Rank;
    var ks, c := ks1 + [sep] + ks2, c1 + c2;
    forall i | 0 <= i < |c| ensures Ordered(c[i], Lo(ks, i, lo), Hi(ks, i, hi), h) {
      if i < |c1| {
        assert Lo(ks, i, lo) == Lo(ks1, i, lo) && Hi(ks, i, hi) == Hi(ks1, i, Rank(sep));
      } else {
        var j := i - |c1|;
        assert c[i] == c2[j];
        assert Lo(ks, i, lo) == Lo(ks2, j, Rank(sep)) && Hi(ks, i, hi) == Hi(ks2, j, hi);
      }
    }
  }

  lemma ForestCut<N>(ks: seq<Key>, c: seq<Tree<N>>, m: nat, lo: real, hi: real, h: nat)
    requires Forest(ks, c, lo, hi, h) && m < |ks|
    ensures Forest(ks[..m], c[..m + 1], lo, Rank(ks[m]), h)
    ensures Forest(ks[m + 1..], c[m + 1..], Rank(ks[m]), hi, h)
  {
    hide Ordered, Rank;
    var c1, c2 := c[..m + 1], c[m + 1..];
    var k1, k2 := ks[..m], ks[m + 1..];
    forall i | 0 <= i < |c1| ensures Ordered(c1[i], Lo(k1, i, lo), Hi(k1, i, Rank(ks[m])), h) {
      assert Lo(k1, i, lo) == Lo(ks, i, lo) && Hi(k1, i, Rank(ks[m])) == Hi(ks, i, hi);
    }
    forall i | 0 <= i < |c2| ensures Ordered(c2[i], Lo(k2, i, Rank(ks[m])), Hi(k2, i, hi), h) {
      assert c2[i] == c[i + m + 1];
      assert Lo(k2, i, Rank(ks[m])) == Lo(ks, i + m + 1, lo) && Hi(k2, i, hi) == Hi(ks, i + m + 1, hi);
    }
  }

  /** A leaf is never cut before its first key; an inner node may be cut anywhere. */
  lemma CutOrdered<N>(t: Tree<N>, c: nat, id: N, lo: real, hi: real, h: nat)
    requires Ordered(t, lo, hi, h) && Cuttable(t, c)
    requires t.Leaf? ==> c > 0
    ensures Ordered(CutLeft(t, c), lo, Rank(CutSep(t, c)), h)
    ensures Ordered(CutRight(t, c, id), Rank(CutSep(t, c)), hi, h)
    ensures lo < Rank(CutSep(t, c)) < hi
  {
    if t.Leaf? {
      assert Rank(t.keys[0]) < Rank(t.keys[c]);
    } else {
      ForestCut(t.keys, t.kids, c, lo, hi, h - 1);
    }
  }

  lemma LeafContents<N>(t: Tree<N>)
    requires t.Leaf?
    ensures Contents(t) == LeafEntries(t)
  {
    assert Leaves(t) == [t];
    assert Entries([t]) == LeafEntries(t) + Entries<N>([]);
  }

  lemma FuseLeafContents<N>(l: Tree<N>, sep: Key, r: Tree<N>)
    requires l.Leaf? && r.Leaf? && |l.vals| == |l.keys| && |r.vals| == |r.keys|
    ensures Contents(Fuse(l, sep, r)) == Contents(l) + Contents(r)
  {
    LeafContents(l);
    LeafContents(r);
    LeafContents(Fuse(l, sep, r));
  }

  lemma FuseInnerLeaves<N>(l: Tree<N>, sep: Key, r: Tree<N>)
    requires l.Inner? && r.Inner?
    ensures Leaves(Fuse(l, sep, r)) == Leaves(l) + Leaves(r)
    ensures Contents(Fuse(l, sep, r)) == Contents(l) + Contents(r)
  {
    LeavesFAppend(l.kids, r.kids);
    EntriesAppend(Leaves(l), Leaves(r));
  }

  lemma FuseNodes<N>(l: Tree<N>, sep: Key, r: Tree<N>)
    requires l.Leaf? <==> r.Leaf?
    ensures Nodes(Fuse(l, sep, r)) + {r.id} == Nodes(l) + Nodes(r)
  {
    if l.Inner? {
      NodesFAppend(l.kids, r.kids);
    }
  }

  lemma CutLeafContents<N>(t: Tree<N>, c: nat, id: N)
    requires Cuttable(t, c) && t.Leaf? && |t.vals| == |t.keys|
    ensures Contents(CutLeft(t, c)) + Contents(CutRight(t, c, id)) == Contents(t)
  {
    LeafContents(CutLeft(t, c));
    LeafContents(CutRight(t, c, id));
    LeafContents(t);
  }

  lemma CutInnerLeaves<N>(t: Tree<N>, c: nat, id: N)
    requires Cuttable(t, c) && t.Inner?
    ensures Leaves(CutLeft(t, c)) + Leaves(CutRight(t, c, id)) == Leaves(t)
    ensures Contents(CutLeft(t, c)) + Contents(CutRight(t, c, id)) == Contents(t)
  {
    var l, r := CutLeft(t, c), CutRight(t, c, id);
    assert l.kids + r.kids == t.kids;
    LeavesFAppend(l.kids, r.kids);
    EntriesAppend(Leaves(l), Leaves(r));
  }

  lemma CutNodes<N>(t: Tree<N>, c: nat, id: N)
    requires Cuttable(t, c)
    ensures Nodes(CutLeft(t, c)) + Nodes(CutRight(t, c, id)) == Nodes(t) + {id}
  {
    if t.Inner? {
      assert t.kids[..c + 1] + t.kids[c + 1..] == t.kids;
      NodesFAppend(t.kids[..c + 1], t.kids[c + 1..]);
    }
  }

  // ---------- replacing neighbouring children ----------

  /** `n` children of `p` from the `i`-th on, with the separators between them, give way to `group`. */
  function Plug<N>(p: Tree<N>, i: nat, n: nat, seps: seq<Key>, group: seq<Tree<N>>): (p': Tree<N>)
    requires Pluggable(p, i, n) && |group| == |seps| + 1
    ensures p'.Inner? && |p'.kids| == |p'.keys| + 1 && |p'.kids| == |p.kids| + |group| - n
  {
    Inner(p.id, p.keys[..i] + seps + p.keys[i + n - 1..], p.kids[..i] + group + p.kids[i + n..])
  }

  predicate Pluggable<N>(p: Tree<N>, i: nat, n: nat) {
    p.Inner? && |p.kids| == |p.keys| + 1 && 0 < n && i + n <= |p.kids|
  }

  lemma PlugOrdered<N>(p: Tree<N>, i: nat, n: nat, seps: seq<Key>, group: seq<Tree<N>>, lo: real, hi: real, h: nat)
    requires Pluggable(p, i, n) && Ordered(p, lo, hi, h) && h > 0
    requires Forest(seps, group, Lo(p.keys, i, lo), Hi(p.keys, i + n - 1, hi), h - 1)
    ensures Ordered(Plug(p, i, n, seps, group), lo, hi, h)
  {
    PlugForest(p.keys, p.kids, i, n, seps, group, lo, hi, h - 1);
  }

  lemma PlugForest<N>(ks: seq<Key>, c: seq<Tree<N>>, i: nat, n: nat, seps: seq<Key>, group: seq<Tree<N>>,
                      lo: real, hi: real, h: nat)
    requires Forest(ks, c, lo, hi, h) && 0 < n && i + n <= |c|
    requires Forest(seps, group, Lo(ks, i, lo), Hi(ks, i + n - 1, hi), h)
    ensures Forest(ks[..i] + seps + ks[i + n - 1..], c[..i] + group + c[i + n..], lo, hi, h)
  {
    hide Ordered, Rank;
    PlugSeps(ks, i, n, seps, lo, hi);
    var ks', c' := ks[..i] + seps + ks[i + n - 1..], c[..i] + group + c[i + n..];
    forall j | 0 <= j < |c'| ensures Ordered(c'[j], Lo(ks', j, lo), Hi(ks', j, hi), h) {
      if j < i {
        assert c'[j] == c[j];
        assert Lo(ks', j, lo) == Lo(ks, j, lo) && Hi(ks', j, hi) == Hi(ks, j, hi);
      } else if j < i + |group| {
        var g := j - i;
        assert c'[j] == group[g];
        assert Lo(ks', j, lo) == Lo(seps, g, Lo(ks, i, lo));
        assert Hi(ks', j, hi) == Hi(seps, g, Hi(ks, i + n - 1, hi));
      } else {
        var g := j - |group| + n;
        assert c'[j] == c[g];
        assert Lo(ks', j, lo) == Lo(ks, g, lo) && Hi(ks', j, hi) == Hi(ks, g, hi);
      }
    }
  }

  lemma PlugSeps(ks: seq<Key>, i: nat, n: nat, seps: seq<Key>, lo: real, hi: real)
    requires 0 < n && i + n <= |ks| + 1 && SepsIn(ks, lo, hi)
    requires SepsIn(seps, Lo(ks, i, lo), Hi(ks, i + n - 1, hi))
    ensures SepsIn(ks[..i] + seps + ks[i + n - 1..], lo, hi)
  {
    hide Rank;
    var ks' := ks[..i] + seps + ks[i + n - 1..];
    forall j | 0 <= j < |ks'| ensures lo < Rank(ks'[j]) < hi && (j + 1 < |ks'| ==> Rank(ks'[j]) < Rank(ks'[j + 1])) {
    }
    Ascending(ks');
  }

  lemma {:induction false} Ascending(ks: seq<Key>)
    requires forall j :: 0 <= j && j + 1 < |ks| ==> Rank(ks[j]) < Rank(ks[j + 1])
    ensures forall i, j :: 0 <= i < j < |ks| ==> Rank(ks[i]) < Rank(ks[j])
  {
    if |ks| > 1 {
      var rest := ks[..|ks| - 1];
      Ascending(rest);
      forall i | 0 <= i < |rest| ensures Rank(ks[i]) < Rank(ks[|rest|]) {
        assert Rank(rest[i]) <= Rank(rest[|rest| - 1]);
      }
    }
  }

  lemma Plugged<N>(p: Tree<N>, i: nat, n: nat, seps: seq<Key>, group: seq<Tree<N>>)
    requires Pluggable(p, i, n) && |group| == |seps| + 1
    ensures Plug(p, i, n, seps, group).Inner? && Plug(p, i, n, seps, group).id == p.id
    ensures |Plug(p, i, n, seps, group).keys| == |p.keys| + |seps| + 1 - n
    ensures Nodes(Plug(p, i, n, seps, group)) <= Nodes(p) + NodesF(group)
  {
    PlugLeaves(p, i, n, seps, group);
  }

  /** The children before and after a group of `n` from the `i`-th on. */
  lemma PlugLeaves<N>(p: Tree<N>, i: nat, n: nat, seps: seq<Key>, group: seq<Tree<N>>)
    requires Pluggable(p, i, n) && |group| == |seps| + 1
    ensures Leaves(p) == LeavesF(p.kids[..i]) + LeavesF(p.kids[i..i + n]) + LeavesF(p.kids[i + n..])
    ensures Leaves(Plug(p, i, n, seps, group))
         == LeavesF(p.kids[..i]) + LeavesF(group) + LeavesF(p.kids[i + n..])
    ensures Nodes(p) == {p.id} + NodesF(p.kids[..i]) + NodesF(p.kids[i..i + n]) + NodesF(p.kids[i + n..])
    ensures Nodes(Plug(p, i, n, seps, group))
         == {p.id} + NodesF(p.kids[..i]) + NodesF(group) + NodesF(p.kids[i + n..])
  {
    var a, b, c := p.kids[..i], p.kids[i..i + n], p.kids[i + n..];
    assert p.kids == a + b + c;
    LeavesFAppend(a + b, c); LeavesFAppend(a, b);
    LeavesFAppend(a + group, c); LeavesFAppend(a, group);
    NodesFAppend(a + b, c); NodesFAppend(a, b);
    NodesFAppend(a + group, c); NodesFAppend(a, group);
  }

  lemma PlugContents<N>(p: Tree<N>, i: nat, n: nat, seps: seq<Key>, group: seq<Tree<N>>)
    requires Pluggable(p, i, n) && |group| == |seps| + 1
    ensures Contents(p)
         == Entries(LeavesF(p.kids[..i])) + Entries(LeavesF(p.kids[i..i + n])) + Entries(LeavesF(p.kids[i + n..]))
    ensures Contents(Plug(p, i, n, seps, group))
         == Entries(LeavesF(p.kids[..i])) + Entries(LeavesF(group)) + Entries(LeavesF(p.kids[i + n..]))
  {
    PlugLeaves(p, i, n, seps, group);
    var a, b, c := LeavesF(p.kids[..i]), LeavesF(p.kids[i..i + n]), LeavesF(p.kids[i + n..]);
    var g := LeavesF(group);
    EntriesAppend(a + b, c); EntriesAppend(a, b);
    EntriesAppend(a + g, c); EntriesAppend(a, g);
  }

  lemma PlugDistinct<N>(p: Tree<N>, i: nat, n: nat, seps: seq<Key>, group: seq<Tree<N>>)
    requires Pluggable(p, i, n) && |group| == |seps| + 1
    requires Distinct(p) && DistinctF(group)
    requires forall x :: x in NodesF(group) ==> x in NodesF(p.kids[i..i + n]) || x !in Nodes(p)
    ensures Distinct(Plug(p, i, n, seps, group))
  {
    var a, b, c := p.kids[..i], p.kids[i..i + n], p.kids[i + n..];
    assert p.kids == a + b + c;
    NodesFAppend(a + b, c); NodesFAppend(a, b);
    NodesFAppend(a + group, c); NodesFAppend(a, group);
    SplitDistinct(p.kids, i, n);
    JoinDistinct(a, group);
    JoinDistinct(a + group, c);
  }

  lemma JoinDistinct<N>(a: seq<Tree<N>>, b: seq<Tree<N>>)
    requires DistinctF(a) && DistinctF(b) && NodesF(a) !! NodesF(b)
    ensures DistinctF(a + b)
  {
    NodesFAll(a); NodesFAll(b);
    var c := a + b;
    forall i, j | 0 <= i < j < |c| ensures Nodes(c[i]) !! Nodes(c[j]) {
      if i < |a| <= j { assert c[j] == b[j - |a|]; }
    }
  }

  lemma SplitDistinct<N>(kids: seq<Tree<N>>, i: nat, n: nat)
    requires DistinctF(kids) && i + n <= |kids|
    ensures DistinctF(kids[..i]) && DistinctF(kids[i..i + n]) && DistinctF(kids[i + n..])
    ensures NodesF(kids[..i]) !! NodesF(kids[i..i + n])
    ensures NodesF(kids[..i]) !! NodesF(kids[i + n..])
    ensures NodesF(kids[i..i + n]) !! NodesF(kids[i + n..])
  {
    hide Nodes, NodesF, Distinct, DistinctF;
    var a, b, c := kids[..i], kids[i..i + n], kids[i + n..];
    CutDistinct(kids, i);
    assert kids[i..] == b + c;
    CutDistinct(b + c, n);
    assert (b + c)[..n] == b && (b + c)[n..] == c;
    NodesFAppend(b, c);
  }

  lemma CutDistinct<N>(kids: seq<Tree<N>>, i: nat)
    requires DistinctF(kids) && i <= |kids|
    ensures DistinctF(kids[..i]) && DistinctF(kids[i..])
    ensures NodesF(kids[..i]) !! NodesF(kids[i..])
  {
    hide Nodes, NodesF, Distinct;
    var a, b := kids[..i], kids[i..];
    forall x | x in NodesF(a) ensures x !in NodesF(b) {
      NodesFHas(a, x);
      NodesFHas(b, x);
    }
  }

  lemma PlugFull<N>(p: Tree<N>, i: nat, n: nat, seps: seq<Key>, group: seq<Tree<N>>, M: nat)
    requires Pluggable(p, i, n) && |group| == |seps| + 1
    requires FullF(group, M)
    requires forall j :: 0 <= j < |p.kids| && !(i <= j < i + n) ==> Full(p.kids[j], M)
    ensures FullF(Plug(p, i, n, seps, group).kids, M)
  {
  }
}
