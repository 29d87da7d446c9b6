/** The trees under a table: building one per indexed column, and the check that every row is found through it. */
module IndexTrees {
  import opened Wrappers
  import opened Keys
  import opened Values
  import opened Predicates
  import opened SortedMap
  import opened TableIndex
  import opened TableStatements
  import opened BStarPlusTree
  import opened FilterRows
  import TreeShape
  import TreeNodes
  import TreeInsertion
  import TreeValidation

  /** A tree with every row under its key, inserted one after another. */
  method BuildTree(maxKeys: nat, rows: seq<Row>, c: nat, t: ValueType) returns (tree: BStarPlusTree)
    requires TreeInsertion.Capacity(maxKeys) && TypedColumn(rows, c, t)
    ensures fresh(tree) && fresh(TreeShape.Nodes(tree.shape)) && tree.maxKeys == maxKeys
    ensures tree.Valid() && tree.Content() == BuildIndex(rows, c, t)
    ensures DistinctKeys(rows, c, t) ==> Serves(tree, rows, c, t)
  {
    hide BStarPlusTree.Valid, BStarPlusTree.Content, KeyOf, MapInsert, Agrees;
    tree := new BStarPlusTree(maxKeys);
    var i := 0;
    while i < |rows|
      invariant i <= |rows| && fresh(tree) && fresh(TreeShape.Nodes(tree.shape)) && tree.maxKeys == maxKeys
      invariant tree.Valid() && tree.Content() == BuildIndex(rows[..i], c, t)
    {
      tree.Insert(KeyOf(rows[i], c, t), rows[i].id);
      tree.NodesAllocated(tree.shape);
      assert rows[..i + 1][..i] == rows[..i];
      i := i + 1;
    }
    assert rows[..|rows|] == rows;
    ValidSearchable(tree);
    if DistinctKeys(rows, c, t) { BuildAgrees(rows, c, t); }
  }

  lemma ValidSearchable(tree: BStarPlusTree)
    requires tree.Valid()
    ensures tree.Searchable()
  {
  }

  /** Every row is the only one under its key, and the tree finds it. */
  ghost predicate TreeFinds(m: Index, rows: seq<Row>, c: nat, t: ValueType)
    requires TypedColumn(rows, c, t)
  {
    && DistinctKeys(rows, c, t)
    && forall i :: 0 <= i < |rows| ==> MapFind(m, KeyOf(rows[i], c, t)) == [rows[i].id]
  }

  ghost function KeysOf(rows: seq<Row>, c: nat, t: ValueType): set<Key>
    requires TypedColumn(rows, c, t)
  {
    set i | 0 <= i < |rows| :: KeyOf(rows[i], c, t)
  }

  /** One row more is found exactly if its key is new and leads to it. */
  lemma FindsMore(m: Index, rows: seq<Row>, n: nat, c: nat, t: ValueType)
    requires TypedColumn(rows, c, t) && n < |rows|
    ensures KeysOf(rows[..n + 1], c, t) == KeysOf(rows[..n], c, t) + {KeyOf(rows[n], c, t)}
    ensures TreeFinds(m, rows[..n + 1], c, t) <==>
      && TreeFinds(m, rows[..n], c, t) && KeyOf(rows[n], c, t) !in KeysOf(rows[..n], c, t)
      && MapFind(m, KeyOf(rows[n], c, t)) == [rows[n].id]
    ensures TreeFinds(m, rows, c, t) ==> TreeFinds(m, rows[..n + 1], c, t)
  {
    hide KeyOf, MapFind;
    var before, more := rows[..n], rows[..n + 1];
    assert more == before + [rows[n]];
    if TreeFinds(m, more, c, t) {
      forall i | 0 <= i < n
        ensures MapFind(m, KeyOf(before[i], c, t)) == [before[i].id] { assert before[i] == more[i]; }
      forall i, j | 0 <= i < j < n ensures KeyOf(before[i], c, t) != KeyOf(before[j], c, t) {
        assert before[i] == more[i] && before[j] == more[j];
      }
      forall i | 0 <= i < n
        ensures KeyOf(before[i], c, t) != KeyOf(rows[n], c, t) { assert before[i] == more[i] && more[n] == rows[n]; }
    }
  }

  method CheckRows(tree: BStarPlusTree, rows: seq<Row>, c: nat, t: ValueType) returns (ok: bool)
    requires tree.Searchable() && TypedColumn(rows, c, t)
    ensures ok <==> TreeFinds(tree.Content(), rows, c, t)
  {
    hide BStarPlusTree.Searchable, BStarPlusTree.Content, KeyOf, MapFind, TreeFinds, KeysOf;
    tree.NodesAllocated(tree.shape);
    ghost var m := tree.Content();
    var seen: set<Key> := {};
    var i := 0;
    NothingToFind(m, c, t);
    assert rows[..0] == [];
    while i < |rows|
      invariant i <= |rows| && tree.Searchable() && tree.Content() == m
      invariant seen == KeysOf(rows[..i], c, t) && TreeFinds(m, rows[..i], c, t)
    {
      FindsMore(m, rows, i, c, t);
      var key := KeyOf(rows[i], c, t);
      if key in seen { return false; }
      seen := seen + {key};
      var found := tree.Find(key);
      if |found| != 1 || found[0] != rows[i].id { return false; }
      i := i + 1;
    }
    assert rows[..|rows|] == rows;
    return true;
  }

  lemma NothingToFind(m: Index, c: nat, t: ValueType)
    ensures KeysOf([], c, t) == {} && TreeFinds(m, [], c, t)
  {
  }

  /** The check of one index: the tree's own invariants, then every row. */
  method CheckTree(tree: BStarPlusTree, rows: seq<Row>, c: nat, t: ValueType) returns (ok: bool)
    requires tree.maxKeys >= 3 && tree.shape.id == tree.root && TreeNodes.Holds(tree.shape)
      && TreeShape.Distinct(tree.shape)
    requires TypedColumn(rows, c, t)
    ensures ok <==> TreeValidation.Canonical(tree.shape, tree.maxKeys) && TreeFinds(tree.Content(), rows, c, t)
    ensures tree.Valid() ==> (ok <==> TreeFinds(tree.Content(), rows, c, t))
  {
    hide BStarPlusTree.Valid, BStarPlusTree.Searchable, BStarPlusTree.Content, KeyOf, MapFind, TreeValidation.Canonical,
      TreeNodes.Holds, TreeShape.Distinct, TreeFinds;
    tree.NodesAllocated(tree.shape);
    ok := tree.ValidateCanonicalInvariants();
    if ok { ok := CheckRows(tree, rows, c, t); }
  }

  lemma AgreesFound(m: Index, rows: seq<Row>, c: nat, t: ValueType)
    requires Agrees(m, rows, c, t)
    ensures forall i :: 0 <= i < |rows| ==> MapFind(m, KeyOf(rows[i], c, t)) == [rows[i].id]
  {
    hide KeyOf;
  }

  /** Building a tree anew and checking it succeeds exactly if no two rows share a key. */
  method RebuildAndCheckTree(maxKeys: nat, rows: seq<Row>, c: nat, t: ValueType) returns (tree: BStarPlusTree, ok: bool)
    requires TreeInsertion.Capacity(maxKeys) && TypedColumn(rows, c, t)
    ensures fresh(tree) && fresh(TreeShape.Nodes(tree.shape)) && tree.Valid()
      && tree.Content() == BuildIndex(rows, c, t)
    ensures ok <==> DistinctKeys(rows, c, t)
  {
    hide KeyOf, BuildIndex, Agrees, TreeValidation.Canonical, TreeNodes.Holds, TreeShape.Distinct;
    tree := BuildTree(maxKeys, rows, c, t);
    tree.NodesAllocated(tree.shape);
    ok := CheckTree(tree, rows, c, t);
    if DistinctKeys(rows, c, t) {
      BuildAgrees(rows, c, t);
      AgreesFound(BuildIndex(rows, c, t), rows, c, t);
    }
  }
}
