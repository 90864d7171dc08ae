/**
 * The Python-side bookkeeping of `ModelBuilder`, `ModelBuilder.Tree` and
 * `ModelBuilder.Node`. Every native call is an opaque step that succeeds;
 * what the native side is told is kept in ghost fields (`config`,
 * `nativeNodes`, `createRequests`, `root`, `modelParams`) so that
 * contracts can name it.
 */
module Builder {
  import opened Errors
  import opened Lists
  import opened Leaves
  import opened Params
  import opened Models

  /** What the native tree builder was last told about a node. */
  datatype Config =
    | Unset
    | Leaf(leaf: LeafValue)
    | NumericalTest(featureId: int, op: string, threshold: Value, defaultLeft: bool, left: int, right: int)
    | CategoricalTest(featureId: int, leftCategories: seq<int>, defaultLeft: bool, left: int, right: int)

  /** The native handle a `Tree` object holds. */
  datatype TreeHandle =
    | OwnTree       // its own native tree builder, made by the constructor
    | EnsembleView  // a reference to its copy inside the ensemble it was inserted into
    | NoHandle      // `None`: the ensemble deleted the tree

  /** The object `t` refers to, if any: the frame of a method that may touch it. */
  function Only(t: Tree?): set<Tree> {
    if t == null then {} else {t}
  }

  /** The keys of the children a test setter has to create, in creation order. */
  function MissingKeys(present: set<int>, left: int, right: int): seq<int> {
    (if left in present then [] else [left]) +
    (if right in present || right == left then [] else [right])
  }

  /** The children to create are the two keys not yet present, each once. */
  lemma MissingKeysSpec(present: set<int>, left: int, right: int)
    ensures Distinct(MissingKeys(present, left, right))
    ensures forall k :: k in MissingKeys(present, left, right) <==> k !in present && (k == left || k == right)
  {
  }

  /** `ModelBuilder.Node`: a handle to one node of a tree. */
  class Node {
    var empty: bool
    var key: Option<int>   // `node_key`, recorded on insertion
    var tree: Tree?        // the tree the node was last inserted into
    ghost var config: Config

    /** The flag `empty` is exactly "nothing configured", and key and tree are recorded together. */
    ghost predicate Valid()
      reads this
    {
      (empty <==> config == Unset) && (key.Some? <==> tree != null)
    }

    /** The node has been inserted into a tree, so its mutators can reach it. */
    predicate Registered()
      reads this
    {
      tree != null && key.Some?
    }

    /** A node as the tree makes it for a missing key `k`: empty and registered at `k`. */
    ghost predicate BlankAt(t: Tree, k: int)
      reads this
    {
      Valid() && empty && key == Some(k) && tree == t
    }

    constructor ()
      ensures Valid() && empty && !Registered() && key == None && tree == null
    {
      empty := true;
      key := None;
      tree := null;
      config := Unset;
    }

    /**
     * `set_root`: tells the native tree which node is its root. Fails on an
     * unregistered node; never touches `empty`.
     */
    method SetRoot() returns (r: Outcome<Error>)
      requires Valid()
      modifies Only(tree)`root
      ensures r == if Registered() then Pass else Fail(Unregistered(AsRoot))
      ensures Registered() ==> tree.root == key
      ensures !Registered() ==> tree == null
    {
      if !Registered() {
        return Fail(Unregistered(AsRoot));
      }
      tree.root := key;
      r := Pass;
    }

    /**
     * `set_leaf_node`: the value is converted first, so a bad value is
     * reported even on an unregistered node; then registration is checked.
     */
    method SetLeafNode(leafValue: LeafArg) returns (r: Outcome<Error>)
      requires Valid()
      modifies this`empty, this`config
      ensures Valid() && key == old(key) && tree == old(tree)
      ensures ConvertLeaf(leafValue).Failure? ==>
        r == Fail(ConvertLeaf(leafValue).error) && unchanged(this)
      ensures ConvertLeaf(leafValue).Success? && !Registered() ==>
        r == Fail(Unregistered(AsLeaf)) && unchanged(this)
      ensures ConvertLeaf(leafValue).Success? && Registered() ==>
        r == Pass && !empty && config == Leaf(ConvertLeaf(leafValue).value)
    {
      var converted := ConvertLeaf(leafValue);
      if converted.Failure? {
        return Fail(converted.error);
      }
      if !Registered() {
        return Fail(Unregistered(AsLeaf));
      }
      config := Leaf(converted.value);
      empty := false;
      r := Pass;
    }

    /**
     * `set_numerical_test_node`: on a registered node, creates the missing
     * children, sends the test to the native tree and clears `empty`; on an
     * unregistered node fails before anything changes.
     */
    method SetNumericalTestNode(featureId: int, op: string, threshold: Value, defaultLeft: bool,
                                left: int, right: int) returns (r: Outcome<Error>)
      requires Valid() && (tree != null ==> tree.Valid())
      modifies this`empty, this`config, tree
      ensures Valid() && key == old(key) && tree == old(tree)
      ensures !Registered() ==> r == Fail(Unregistered(AsTest)) && unchanged(this)
      ensures Registered() ==>
        && r == Pass && !empty
        && config == NumericalTest(featureId, op, threshold, defaultLeft, left, right)
        && tree.AddedChildren(left, right)
    {
      if !Registered() {
        return Fail(Unregistered(AsTest));
      }
      tree.CreateMissingChildren(left, right);
      config := NumericalTest(featureId, op, threshold, defaultLeft, left, right);
      empty := false;
      r := Pass;
    }

    /**
     * `set_categorical_test_node`: as the numerical setter, with the list of
     * categories routed to the left child.
     */
    method SetCategoricalTestNode(featureId: int, leftCategories: seq<int>, defaultLeft: bool,
                                  left: int, right: int) returns (r: Outcome<Error>)
      requires Valid() && (tree != null ==> tree.Valid())
      modifies this`empty, this`config, tree
      ensures Valid() && key == old(key) && tree == old(tree)
      ensures !Registered() ==> r == Fail(Unregistered(AsTest)) && unchanged(this)
      ensures Registered() ==>
        && r == Pass && !empty
        && config == CategoricalTest(featureId, leftCategories, defaultLeft, left, right)
        && tree.AddedChildren(left, right)
    {
      if !Registered() {
        return Fail(Unregistered(AsTest));
      }
      tree.CreateMissingChildren(left, right);
      config := CategoricalTest(featureId, leftCategories, defaultLeft, left, right);
      empty := false;
      r := Pass;
    }
  }

  /**
   * `ModelBuilder.Tree`: a dict from node key to node (`nodes`, with its
   * insertion order in `order`) over a native tree builder.
   */
  class Tree {
    var nodes: map<int, Node>
    var order: seq<int>
    var handle: TreeHandle
    var ensemble: ModelBuilder?
    ghost var nativeNodes: set<int>  // keys the native tree was asked to create
    ghost var createRequests: seq<int>  // every create request sent to the native tree, in order
    ghost var root: Option<int>      // key last sent as the root

    /** `order` lists each key of `nodes` once; every local key exists natively. */
    ghost predicate Valid()
      reads this
    {
      && Distinct(order)
      && (forall k :: k in order <==> k in nodes)
      && (forall k :: k in nodes ==> k in nativeNodes)
    }

    constructor ()
      ensures Valid() && nodes == map[] && order == [] && nativeNodes == {} && createRequests == [] && root == None
      ensures handle == OwnTree && ensemble == null
    {
      nodes := map[];
      order := [];
      handle := OwnTree;
      ensemble := null;
      nativeNodes := {};
      createRequests := [];
      root := None;
    }

    /** The finaliser frees the native tree itself only for a tree that no ensemble took over. */
    predicate FreesOwnTree()
      reads this
    {
      handle != NoHandle && ensemble == null
    }

    /** `__len__`: the number of nodes, which is the number of keys `keys()` lists. */
    function Len(): (n: nat)
      reads this
      requires Valid()
      ensures n == |Keys()|
    {
      DistinctSize(order);
      assert forall k :: k in Elements(order) <==> k in nodes.Keys;
      assert Elements(order) == nodes.Keys;
      |nodes|
    }

    /** `keys()`: every key once, in insertion order. */
    function Keys(): (ks: seq<int>)
      reads this
      requires Valid()
      ensures Distinct(ks)
      ensures forall k :: k in ks <==> k in nodes
    {
      order
    }

    /**
     * The effect of the first step of both test setters: each child key the
     * tree lacked now holds a fresh empty node registered at that key (one
     * node when the keys are equal), appended to the key order; every key
     * already present keeps its node; nothing else changes.
     */
    twostate predicate AddedChildren(left: int, right: int)
      reads this, nodes.Values
    {
      && Valid()
      && (forall k :: k in nodes <==> k in old(nodes) || k == left || k == right)
      && (forall k :: k in old(nodes) ==> nodes[k] == old(nodes[k]))
      && (forall k :: k in nodes && k !in old(nodes) ==> fresh(nodes[k]) && nodes[k].BlankAt(this, k))
      && order == old(order) + MissingKeys(old(nodes.Keys), left, right)
      && (forall k :: k in nativeNodes <==> k in old(nativeNodes) || k in MissingKeys(old(nodes.Keys), left, right))
      && createRequests == old(createRequests) + MissingKeys(old(nodes.Keys), left, right)
      && handle == old(handle) && ensemble == old(ensemble) && root == old(root)
    }

    /**
     * `if key not in self.tree: self.tree[key] = ModelBuilder.Node()` for the
     * left and then the right child key, which is what `tree[key]` does.
     */
    method CreateMissingChildren(left: int, right: int)
      requires Valid()
      modifies this
      ensures AddedChildren(left, right)
    {
      var _ := GetItem(left);
      var _ := GetItem(right);
    }

    /**
     * `tree[key] = value`: the type check, then the duplicate-key check,
     * then the emptiness check; on success the node is created natively,
     * stored, and records its key and tree.
     */
    method SetItem(key: int, value: Node?) returns (r: Outcome<Error>)
      requires Valid()
      modifies this, value
      ensures Valid()
      ensures value == null ==> r == Fail(NotANode) && unchanged(this)
      ensures value != null && key in old(nodes) ==>
        r == Fail(DuplicateKey(key)) && unchanged(this) && unchanged(value)
      ensures value != null && key !in old(nodes) && !old(value.empty) ==>
        r == Fail(NodeNotEmpty) && unchanged(this) && unchanged(value)
      ensures value != null && key !in old(nodes) && old(value.empty) ==>
        && r == Pass
        && nodes == old(nodes)[key := value]
        && order == old(order) + [key]
        && |nodes| == old(|nodes|) + 1
        && nativeNodes == old(nativeNodes) + {key}
        && createRequests == old(createRequests) + [key]
        && handle == old(handle) && ensemble == old(ensemble) && root == old(root)
        && value.key == Some(key) && value.tree == this
        && value.empty && value.config == old(value.config)
    {
      if value == null {
        return Fail(NotANode);
      }
      if key in nodes {
        return Fail(DuplicateKey(key));
      }
      if !value.empty {
        return Fail(NodeNotEmpty);
      }
      AppendNew(order, key);
      nativeNodes := nativeNodes + {key};
      createRequests := createRequests + [key];
      nodes := nodes[key := value];
      order := order + [key];
      value.key := Some(key);
      value.tree := this;
      r := Pass;
    }

    /**
     * `tree[key]`: the stored node, or, for a missing key, a fresh empty
     * node inserted at that key first.
     */
    method GetItem(key: int) returns (n: Node)
      requires Valid()
      modifies this
      ensures Valid()
      ensures key in nodes && n == nodes[key]
      ensures key in old(nodes) ==> n == old(nodes[key]) && unchanged(this)
      ensures key !in old(nodes) ==>
        && fresh(n) && n.BlankAt(this, key)
        && nodes == old(nodes)[key := n]
        && order == old(order) + [key]
        && |nodes| == old(|nodes|) + 1
        && nativeNodes == old(nativeNodes) + {key}
        && createRequests == old(createRequests) + [key]
        && handle == old(handle) && ensemble == old(ensemble) && root == old(root)
    {
      if key !in nodes {
        var blank := new Node();
        var _ := SetItem(key, blank);
      }
      n := nodes[key];
    }

    /** `del tree[key]`: removes the local entry only; the native tree keeps the node. */
    method DelItem(key: int) returns (r: Outcome<Error>)
      requires Valid()
      modifies this
      ensures Valid()
      ensures key !in old(nodes) ==> r == Fail(MissingKey(key)) && unchanged(this)
      ensures key in old(nodes) ==>
        && r == Pass
        && nodes == old(nodes) - {key}
        && order == RemoveKey(old(order), key)
        && nativeNodes == old(nativeNodes) && createRequests == old(createRequests)
        && handle == old(handle) && ensemble == old(ensemble) && root == old(root)
    {
      if key !in nodes {
        return Fail(MissingKey(key));
      }
      RemoveKeyDistinct(order, key);
      nodes := nodes - {key};
      order := RemoveKey(order, key);
      r := Pass;
    }
  }

  /**
   * The constructor's argument checks, in the order the source makes them:
   * type then sign of `num_feature`, then type then sign of `num_output_group`.
   */
  function CheckCounts(numFeature: IntArg, numOutputGroup: IntArg): (r: Outcome<Error>)
    ensures r.Pass? <==> numFeature.Int? && numFeature.n > 0 && numOutputGroup.Int? && numOutputGroup.n > 0
    ensures r.Fail? && (numFeature.NotInt? || numFeature.n <= 0) ==>
      r.error == (if numFeature.NotInt? then CountNotInt(NumFeature) else CountNotPositive(NumFeature))
    ensures r.Fail? && numFeature.Int? && numFeature.n > 0 ==>
      r.error == (if numOutputGroup.NotInt? then CountNotInt(NumOutputGroup) else CountNotPositive(NumOutputGroup))
  {
    if numFeature.NotInt? then Fail(CountNotInt(NumFeature))
    else if numFeature.n <= 0 then Fail(CountNotPositive(NumFeature))
    else if numOutputGroup.NotInt? then Fail(CountNotInt(NumOutputGroup))
    else if numOutputGroup.n <= 0 then Fail(CountNotPositive(NumOutputGroup))
    else Pass
  }

  /** `ModelBuilder`: an ordered list of trees over a native ensemble builder. */
  class ModelBuilder {
    const numFeature: int
    const numOutputGroup: int
    const randomForest: bool
    var trees: seq<Tree>
    ghost var modelParams: seq<(string, string)>  // pairs sent to the native builder

    /**
     * The counts passed the constructor's checks, and every tree in the
     * list was handed over to an ensemble, so none frees its native tree
     * on its own.
     */
    ghost predicate Valid()
      reads this, trees
    {
      && numFeature > 0 && numOutputGroup > 0
      && forall t :: t in trees ==> !t.FreesOwnTree()
    }

    /** The construction steps after the argument checks: the `**kwargs` are set as parameters. */
    constructor (numFeature: int, numOutputGroup: int, randomForest: bool, kwargs: seq<(string, string)>)
      requires numFeature > 0 && numOutputGroup > 0
      ensures Valid() && trees == [] && modelParams == kwargs
      ensures this.numFeature == numFeature && this.numOutputGroup == numOutputGroup
      ensures this.randomForest == randomForest
    {
      this.numFeature := numFeature;
      this.numOutputGroup := numOutputGroup;
      this.randomForest := randomForest;
      trees := [];
      modelParams := [];
      new;
      var _ := SetParam(Mapping(kwargs), None);
    }

    /**
     * `ModelBuilder(num_feature, num_output_group, random_forest, **kwargs)`:
     * the argument checks, then construction.
     */
    static method New(numFeature: IntArg, numOutputGroup: IntArg, randomForest: bool,
                      kwargs: seq<(string, string)>) returns (r: Result<ModelBuilder, Error>)
      ensures r.Failure? <==> CheckCounts(numFeature, numOutputGroup).Fail?
      ensures r.Failure? ==> r.error == CheckCounts(numFeature, numOutputGroup).error
      ensures r.Success? ==>
        && fresh(r.value) && r.value.Valid() && r.value.trees == [] && r.value.Len() == 0
        && r.value.numFeature == numFeature.n && r.value.numOutputGroup == numOutputGroup.n
        && r.value.randomForest == randomForest && r.value.modelParams == kwargs
    {
      var check := CheckCounts(numFeature, numOutputGroup);
      if check.Fail? {
        return Failure(check.error);
      }
      var b := new ModelBuilder(numFeature.n, numOutputGroup.n, randomForest, kwargs);
      r := Success(b);
    }

    /**
     * `_set_param`: normalises `params` and sends the pairs, one call per
     * pair in order, to the native builder.
     */
    method SetParam(params: ParamArg<string>, value: Option<string>) returns (r: Outcome<Error>)
      modifies this`modelParams
      ensures Normalize(params, value).Failure? ==> r == Fail(NotAPair) && unchanged(this)
      ensures Normalize(params, value).Success? ==>
        r == Pass && modelParams == old(modelParams) + Normalize(params, value).value
    {
      var normalized := Normalize(params, value);
      if normalized.Failure? {
        return Fail(normalized.error);
      }
      var pairs := normalized.value;
      var i := 0;
      while i < |pairs|
        invariant 0 <= i <= |pairs|
        invariant modelParams == old(modelParams) + pairs[..i]
      {
        modelParams := modelParams + [pairs[i]];
        i := i + 1;
      }
      assert pairs[..i] == pairs;
      r := Pass;
    }

    /** `__len__`: the number of trees in the ensemble. */
    function Len(): (n: nat)
      reads this
      ensures n == |trees|
    {
      |trees|
    }

    /** `builder[index]`: Python list indexing, negative indices counting from the end. */
    function Get(index: int): (r: Result<Tree, Error>)
      reads this
      ensures r.Success? <==> -|trees| <= index < |trees|
      ensures r.Success? ==> r.value == trees[if index < 0 then index + |trees| else index]
      ensures r.Failure? ==> r.error == IndexOutOfBounds(index)
    {
      match PyIndex(index, |trees|)
      case Some(p) => Success(trees[p])
      case None => Failure(IndexOutOfBounds(index))
    }

    /**
     * `insert(tree, index)`: every check precedes every change. On success
     * the tree's own native handle is released and replaced by a handle to
     * its copy inside the ensemble, it records the ensemble, and it takes
     * position `index` in the list.
     */
    method Insert(tree: Tree?, index: IntArg) returns (r: Outcome<Error>)
      requires Valid()
      modifies this`trees, Only(tree)`handle, Only(tree)`ensemble
      ensures Valid()
      ensures index.NotInt? ==> r == Fail(IndexNotInt) && unchanged(this)
      ensures index.NotInt? && tree != null ==> unchanged(tree)
      ensures index.Int? && !(0 <= index.n <= |old(trees)|) ==>
        r == Fail(IndexOutOfBounds(index.n)) && unchanged(this)
      ensures index.Int? && !(0 <= index.n <= |old(trees)|) && tree != null ==> unchanged(tree)
      ensures index.Int? && 0 <= index.n <= |old(trees)| && tree == null ==>
        r == Fail(NotATree) && unchanged(this)
      ensures index.Int? && 0 <= index.n <= |old(trees)| && tree != null ==>
        && r == Pass
        && trees == InsertAt(old(trees), index.n, tree)
        && tree.handle == EnsembleView && tree.ensemble == this
        && !tree.FreesOwnTree()
    {
      if index.NotInt? {
        return Fail(IndexNotInt);
      }
      if index.n < 0 || index.n > |trees| {
        return Fail(IndexOutOfBounds(index.n));
      }
      if tree == null {
        return Fail(NotATree);
      }
      tree.handle := EnsembleView;
      tree.ensemble := this;
      trees := InsertAt(trees, index.n, tree);
      r := Pass;
    }

    /** `append(tree)`: `insert(tree, len(self))`. */
    method Append(tree: Tree?) returns (r: Outcome<Error>)
      requires Valid()
      modifies this`trees, Only(tree)`handle, Only(tree)`ensemble
      ensures Valid()
      ensures tree == null ==> r == Fail(NotATree) && unchanged(this)
      ensures tree != null ==>
        && r == Pass
        && trees == old(trees) + [tree]
        && tree.handle == EnsembleView && tree.ensemble == this
    {
      r := Insert(tree, Int(|trees|));
      InsertAtEnd(old(trees), tree);
    }

    /**
     * `del builder[index]`: deletes the tree from the native ensemble, sets
     * the removed tree's handle to `None` (its native tree is gone), and
     * removes it from the list.
     */
    method DelItem(index: int) returns (r: Outcome<Error>)
      requires Valid()
      modifies this`trees, (set t | t in trees)`handle
      ensures Valid()
      ensures PyIndex(index, |old(trees)|).None? ==>
        r == Fail(IndexOutOfBounds(index)) && unchanged(this) && unchanged(old(trees))
      ensures PyIndex(index, |old(trees)|).Some? ==>
        var p := PyIndex(index, |old(trees)|).value;
        && r == Pass
        && trees == DeleteAt(old(trees), p)
        && old(trees)[p].handle == NoHandle && !old(trees)[p].FreesOwnTree()
        && old(trees)[p].nodes == old(trees[p].nodes) && old(trees)[p].order == old(trees[p].order)
        && old(trees)[p].ensemble == old(trees[p].ensemble)
        && forall t :: t in old(trees) && t != old(trees)[p] ==> unchanged(t)
    {
      var pos := PyIndex(index, |trees|);
      if pos.None? {
        return Fail(IndexOutOfBounds(index));
      }
      var p := pos.value;
      trees[p].handle := NoHandle;
      trees := DeleteAt(trees, p);
      r := Pass;
    }

    /**
     * `commit()`: finalises the native ensemble into a model holding the
     * current trees; the builder is left as it was and stays usable.
     */
    method Commit() returns (m: Model)
      ensures m == Committed(|trees|)
    {
      m := Committed(|trees|);
    }
  }
}
