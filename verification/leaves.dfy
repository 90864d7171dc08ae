/**
 * The argument check of `Node.set_leaf_node`: the value is either iterable
 * (every element goes through `float()`, giving a leaf vector) or not (it
 * goes through `float()` itself, giving a single leaf value).
 */
module Leaves {
  import opened Errors

  /** A floating-point number; the model never looks inside one. */
  type Value(==, 0)

  /** What `float()` makes of one Python value. */
  datatype Scalar =
    | Num(v: Value)  // float() accepts it
    | Text           // a string float() cannot parse: ValueError
    | Other          // anything float() refuses by type: TypeError

  /**
   * The `leaf_value` argument: something `iter()` refuses, or an iterable
   * with its elements. A string is iterable, so it arrives as `Iterable`
   * of its one-character strings.
   */
  datatype LeafArg = Single(x: Scalar) | Iterable(xs: seq<Scalar>)

  /** A converted leaf: one value, or one value per output group. */
  datatype LeafValue = ScalarLeaf(v: Value) | VectorLeaf(vs: seq<Value>)

  /**
   * `float(x)`, with the frontend's treatment of its failures: a TypeError
   * becomes the "single float or a list of floats" error, a ValueError
   * escapes as it is.
   */
  function ToFloat(x: Scalar): (r: Result<Value, Error>)
    ensures r.Success? <==> x.Num?
    ensures r.Success? ==> r.value == x.v
    ensures r.Failure? ==> r.error == (if x.Text? then LeafUnparsable else LeafNotNumeric)
  {
    match x
    case Num(v) => Success(v)
    case Text => Failure(LeafUnparsable)
    case Other => Failure(LeafNotNumeric)
  }

  /** Position `k` holds the first element of `xs` that `float()` rejects. */
  ghost predicate FirstRejected(xs: seq<Scalar>, k: int) {
    0 <= k < |xs| && !xs[k].Num? && forall j :: 0 <= j < k ==> xs[j].Num?
  }

  /** `[float(i) for i in xs]`: stops at the first element `float()` rejects. */
  function ToFloats(xs: seq<Scalar>): (r: Result<seq<Value>, Error>)
    ensures r.Success? <==> forall i :: 0 <= i < |xs| ==> xs[i].Num?
    ensures r.Success? ==> |r.value| == |xs| && forall i :: 0 <= i < |xs| ==> r.value[i] == xs[i].v
    ensures r.Failure? ==> exists k :: FirstRejected(xs, k) && r.error == ToFloat(xs[k]).error
  {
    if xs == [] then Success([])
    else match ToFloat(xs[0])
      case Failure(e) => Failure(e)
      case Success(v) =>
        match ToFloats(xs[1..])
        case Failure(e) =>
          ghost var k :| FirstRejected(xs[1..], k) && e == ToFloat(xs[1..][k]).error;
          assert FirstRejected(xs, k + 1) by {
            assert forall j :: 1 <= j < k + 1 ==> xs[j] == xs[1..][j - 1];
          }
          Failure(e)
        case Success(vs) => Success([v] + vs)
  }

  /** The conversion step of `set_leaf_node`. */
  function ConvertLeaf(arg: LeafArg): (r: Result<LeafValue, Error>)
    ensures arg.Single? ==> (r.Success? <==> arg.x.Num?)
    ensures arg.Iterable? ==> (r.Success? <==> forall i :: 0 <= i < |arg.xs| ==> arg.xs[i].Num?)
    ensures r.Success? ==> r.value.ScalarLeaf? == arg.Single?
    ensures r.Failure? && arg.Single? ==> r.error == ToFloat(arg.x).error
    ensures r.Failure? && arg.Iterable? ==>
      exists k :: FirstRejected(arg.xs, k) && r.error == ToFloat(arg.xs[k]).error
  {
    match arg
    case Single(x) =>
      (match ToFloat(x)
       case Success(v) => Success(ScalarLeaf(v))
       case Failure(e) => Failure(e))
    case Iterable(xs) =>
      (match ToFloats(xs)
       case Success(vs) => Success(VectorLeaf(vs))
       case Failure(e) => Failure(e))
  }

  /** The Python argument a caller passes to set a given leaf. */
  function AsArg(leaf: LeafValue): LeafArg {
    match leaf
    case ScalarLeaf(v) => Single(Num(v))
    case VectorLeaf(vs) => Iterable(seq(|vs|, i requires 0 <= i < |vs| => Num(vs[i])))
  }

  /** Passing a leaf's own values converts back to exactly that leaf. */
  lemma ConvertAsArg(leaf: LeafValue)
    ensures ConvertLeaf(AsArg(leaf)) == Success(leaf)
  {
    if leaf.VectorLeaf? {
      var r := ToFloats(AsArg(leaf).xs);
      assert r.value == leaf.vs;
    }
  }
}
