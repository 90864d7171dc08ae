/** Result wrappers and the error kinds the Python frontend raises. */
module Errors {

  datatype Option<+T> = None | Some(value: T)

  datatype Result<+R, +E> = Success(value: R) | Failure(error: E)

  /** The outcome of an operation whose only product is a change of state. */
  datatype Outcome<+E> = Pass | Fail(error: E)

  /** Which node mutator complained about a node that was never inserted. */
  datatype Mutator = AsRoot | AsLeaf | AsTest

  /** Which constructor argument of the builder was rejected. */
  datatype Count = NumFeature | NumOutputGroup

  /**
   * One constructor per `raise` in the frontend (and per Python exception
   * that escapes it on purpose).
   */
  datatype Error =
    // ValueError('model_format parameter must be an ASCII string')
    | NonAsciiFormat
    // ValueError('Unknown model_format: ...')
    | UnknownFormat
    // ValueError raised while unpacking a string as if it were (key, value) pairs
    | NotAPair
    // ValueError('<count> must be of int type')
    | CountNotInt(which: Count)
    // ValueError('<count> must be strictly positive')
    | CountNotPositive(which: Count)
    // TreeliteError('This node has never been inserted into a tree; ...')
    | Unregistered(op: Mutator)
    // TreeliteError('leaf_value parameter should be either a single float or a list of floats')
    | LeafNotNumeric
    // the ValueError of float() on a string it cannot parse, which is not caught
    | LeafUnparsable
    // ValueError('Value must be of type ModelBuidler.Node')
    | NotANode
    // KeyError('Nodes with duplicate keys are not allowed. ...')
    | DuplicateKey(key: int)
    // ValueError('Can only insert an empty node')
    | NodeNotEmpty
    // KeyError of `del nodes[key]` on a missing key
    | MissingKey(key: int)
    // ValueError('index must be of int type')
    | IndexNotInt
    // ValueError('index out of bounds') of insert, IndexError of list indexing
    | IndexOutOfBounds(index: int)
    // ValueError('tree must be of type ModelBuilder.Tree')
    | NotATree

  /** A Python argument that ought to be an `int`: either one, or anything else. */
  datatype IntArg = Int(n: int) | NotInt
}
