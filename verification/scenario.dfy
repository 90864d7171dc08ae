/**
 * Client code that uses only the contracts of the builder: the usual way
 * of building a one-tree model, and the "delete, then re-insert" advice of
 * the duplicate-key error.
 */
module Scenario {
  import opened Errors
  import opened Leaves
  import opened Models
  import opened Builder

  /**
   * Replacing a node: inserting at a taken key fails whatever the node,
   * deleting the key removes only that entry, and then a new empty node
   * can be inserted under the same key.
   */
  method ReplaceNode(t: Tree, key: int) returns (first: Outcome<Error>, second: Outcome<Error>, n: Node)
    requires t.Valid() && key in t.nodes
    modifies t
    ensures first == Fail(DuplicateKey(key)) && second == Pass
    ensures fresh(n) && t.Valid() && key in t.nodes && t.nodes[key] == n
    ensures n.key == Some(key) && n.tree == t && n.empty
    ensures forall k :: k in old(t.nodes) && k != key ==> k in t.nodes && t.nodes[k] == old(t.nodes[k])
    ensures t.nodes.Keys == old(t.nodes.Keys)
    ensures key in old(t.nativeNodes) && t.nativeNodes == old(t.nativeNodes)
    ensures t.createRequests == old(t.createRequests) + [key]
  {
    n := new Node();
    first := t.SetItem(key, n);
    var deleted := t.DelItem(key);
    second := t.SetItem(key, n);
  }

  /** A new tree whose node 0 tests feature 2 against `threshold`, with its two children created. */
  method SplitRoot(threshold: Value) returns (t: Tree, n0: Node)
    ensures fresh(t) && t.Valid() && t.handle == OwnTree && t.ensemble == null && t.root == None
    ensures forall k :: k in t.nodes <==> k == 0 || k == 1 || k == 2
    ensures t.nodes[0] == n0 && n0.config == NumericalTest(2, "<", threshold, true, 1, 2)
    ensures t.nodes[1].BlankAt(t, 1) && t.nodes[2].BlankAt(t, 2) && fresh(t.nodes[1]) && fresh(t.nodes[2])
    ensures t.nodes[1] != t.nodes[2] && n0.Valid() && n0.tree == t && n0.key == Some(0)
  {
    t := new Tree();
    n0 := t.GetItem(0);
    var r := n0.SetNumericalTestNode(2, "<", threshold, true, 1, 2);
  }

  /**
   * One tree whose node 0 tests feature 2 against `threshold` (missing
   * values go left) and whose children 1 and 2 are leaves; node 0 is the root.
   */
  method Stump(threshold: Value, low: Value, high: Value) returns (t: Tree, n0: Node, n1: Node, n2: Node)
    ensures fresh(t) && t.Valid() && t.handle == OwnTree && t.ensemble == null
    ensures (forall k :: k in t.nodes <==> k == 0 || k == 1 || k == 2) && t.root == Some(0)
    ensures n0.config == NumericalTest(2, "<", threshold, true, 1, 2)
    ensures n1.config == Leaf(ScalarLeaf(low)) && n2.config == Leaf(ScalarLeaf(high))
    ensures t.nodes[0] == n0 && t.nodes[1] == n1 && t.nodes[2] == n2
  {
    t, n0 := SplitRoot(threshold);
    n1 := t.GetItem(1);
    var r := n1.SetLeafNode(Single(Num(low)));
    n2 := t.GetItem(2);
    r := n2.SetLeafNode(Single(Num(high)));
    r := n0.SetRoot();
  }

  /**
   * A builder for 4 features and 1 output group receives that tree and is
   * committed: the model holds one tree.
   */
  method OneTreeModel(threshold: Value, low: Value, high: Value) returns (m: Model)
    ensures m == Committed(1)
  {
    var created := ModelBuilder.New(Int(4), Int(1), false, []);
    var builder := created.value;
    var t, _, _, _ := Stump(threshold, low, high);
    var r := builder.Append(t);
    assert builder.Len() == 1;
    m := builder.Commit();
  }
}
