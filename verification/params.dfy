/**
 * Parameter normalisation shared by `ModelBuilder._set_param` and
 * `Model._set_compiler_param`: a mapping, a single key with a value, or an
 * iterable of pairs all become one sequence of (key, value) pairs, which is
 * then forwarded pair by pair to the native layer.
 */
module Params {
  import opened Errors

  /** The shapes the `params` argument can take. */
  datatype ParamArg<V> =
    | Mapping(items: seq<(string, V)>)  // a dict, given by its items in insertion order
    | Key(key: string)                  // a single string key; its value is a separate argument
    | Pairs(pairs: seq<(string, V)>)    // any other iterable of (key, value) pairs

  /**
   * The normalisation step. A string key without a value is iterated like
   * any other iterable: its characters are unpacked as pairs, so the empty
   * string gives no pairs and any other string fails at its first character.
   */
  function Normalize<V>(params: ParamArg<V>, value: Option<V>): (r: Result<seq<(string, V)>, Error>)
    ensures r.Failure? <==> params.Key? && value.None? && params.key != ""
    ensures r.Failure? ==> r.error == NotAPair
    ensures r.Success? && !params.Key? ==> r.value == (if params.Mapping? then params.items else params.pairs)
    ensures r.Success? && params.Key? ==> r.value == if value.Some? then [(params.key, value.value)] else []
  {
    match params
    case Mapping(items) => Success(items)
    case Key(key) =>
      if value.Some? then Success([(key, value.value)])
      else if key == "" then Success([])
      else Failure(NotAPair)
    case Pairs(pairs) => Success(pairs)
  }

  /** A mapping, a list of the same pairs, and a single key with its value all normalise alike. */
  lemma ShapesAgree<V>(ps: seq<(string, V)>, k: string, v: V, value: Option<V>)
    ensures Normalize(Mapping(ps), value) == Normalize(Pairs(ps), value) == Success(ps)
    ensures Normalize(Key(k), Some(v)) == Normalize(Pairs([(k, v)]), value)
  {
  }

  /** `sent` is `pairs` with every value rendered by `toStr`, in the same order. */
  ghost predicate Rendered<V>(sent: seq<(string, string)>, pairs: seq<(string, V)>, toStr: V -> string) {
    |sent| == |pairs| &&
    forall i :: 0 <= i < |sent| ==> sent[i] == (pairs[i].0, toStr(pairs[i].1))
  }

  /**
   * `Model._set_compiler_param`: normalises `params` and forwards each pair,
   * its value passed through `str`, to the compiler. The result lists the
   * (key, string) pairs the compiler receives, in call order; `toStr`
   * stands for Python's `str`.
   */
  method SetCompilerParam<V>(params: ParamArg<V>, value: Option<V>, toStr: V -> string)
    returns (r: Result<seq<(string, string)>, Error>)
    ensures Normalize(params, value).Failure? ==> r == Failure(NotAPair)
    ensures Normalize(params, value).Success? ==>
      r.Success? && Rendered(r.value, Normalize(params, value).value, toStr)
  {
    var normalized := Normalize(params, value);
    if normalized.Failure? {
      return Failure(normalized.error);
    }
    var pairs := normalized.value;
    var sent: seq<(string, string)> := [];
    var i := 0;
    while i < |pairs|
      invariant 0 <= i <= |pairs|
      invariant Rendered(sent, pairs[..i], toStr)
    {
      var (key, val) := pairs[i];
      sent := sent + [(key, toStr(val))];
      i := i + 1;
    }
    assert pairs[..i] == pairs;
    r := Success(sent);
  }
}
