# treelite frontend bookkeeping, in Dafny

This project models the Python-side bookkeeping of treelite's model-building
frontend (`python/treelite/frontend.py`). The frontend lets a user assemble
decision trees node by node, collect them in an ensemble builder and
commit the ensemble to an opaque `Model`. It can also load a model from a
file in one of three formats. All real work happens in a native library.
What the Python layer decides itself, and what is modelled here, is this:

- **Node state machine** (`ModelBuilder.Node`, class `Builder.Node`). A node
  starts empty and unregistered. A tree registers it by recording its key
  and the tree on it. The leaf and test setters clear `empty`. Every
  mutator fails on an unregistered node. The test setters first create the
  missing child nodes.
- **Tree container** (`ModelBuilder.Tree`, class `Builder.Tree`). It is a
  dict from int key to node, kept in insertion order (the key order of
  Python 3.7 and later).
  - `tree[k] = node` checks its arguments in a fixed order.
  - `tree[k]` creates a missing node.
  - `del tree[k]` drops only the local entry.
- **Ensemble container** (`ModelBuilder`, class `Builder.ModelBuilder`). It
  is a list of trees plus the validated counts `num_feature` and
  `num_output_group`.
  - `insert` checks everything before it changes anything.
  - `append` is an insert at the end.
  - `del builder[i]` removes a tree and marks its handle as gone.
  - A tree handed to an ensemble is no longer freed on its own. This is the
    builder invariant `ModelBuilder.Valid`, which `insert`, `append` and
    `del builder[i]` keep.
- **Pure helpers.**
  - `_isascii` and the format check of `Model.load` (module `Models`).
  - The parameter normalisation shared by `_set_param` and
    `_set_compiler_param` (module `Params`).
  - Python's list indexing and dict key order (module `Lists`).
  - The `float()` conversion step of `set_leaf_node` (module `Leaves`).

Each native `_LIB` call is an opaque step that succeeds. What the native
side is told is kept in ghost state, so contracts can name it:
- a node's `config`;
- a tree's `nativeNodes`, `createRequests` (every node-creation request,
  in order) and `root`;
- a builder's `modelParams`.

A tree's native handle is the `TreeHandle` field `handle`: its own tree, a
view into an ensemble, or `None`. Python values of the wrong type, where a
`Node` or a `Tree` is expected, are modelled as `null`. Where an `int` is
expected, they are modelled as `IntArg.NotInt`. Leaf values and thresholds
are the opaque type `Leaves.Value`.

Module `Scenario` is client code written only against the contracts:
- it builds a one-tree model (a stump);
- it replaces a node by deleting its key and inserting a new empty node, as
  the duplicate-key message of `__setitem__` advises.

## Model

| member | source | states |
|---|---|---|
| Models.Utf8Length | python/treelite/frontend.py:15 | the UTF-8 length of a string is never below its character count, and equals it only if the first character is below 128 |
| Models.IsAsciiIff | python/treelite/frontend.py:12-19 | the `_isascii` length test holds exactly when every character is below 128 |
| Models.Lower | python/treelite/frontend.py:232 | lower-casing keeps the length |
| Models.LowerAt | python/treelite/frontend.py:232 | lower-casing works character by character |
| Models.LowerKeepsAscii | python/treelite/frontend.py:230-232 | lower-casing an ASCII name keeps it ASCII |
| Models.LowerIdempotent | python/treelite/frontend.py:232 | lower-casing twice is lower-casing once |
| Models.ParseFormat | python/treelite/frontend.py:230-244 | a non-ASCII name fails with the ASCII error and an ASCII name never does; an accepted format's name is the lower-cased input; an ASCII name fails with the unknown-format error exactly when no format has that lower-cased name |
| Models.ParseFormatName | python/treelite/frontend.py:233-241 | each of `lightgbm`, `xgboost` and `protobuf` is accepted and selects its own importer |
| Models.LowerFixesName | python/treelite/frontend.py:233-241 | the three accepted names are already lower case |
| Models.CaseInsensitive | python/treelite/frontend.py:232-244 | an ASCII format name and its lower-case form are judged alike |
| Models.Load | python/treelite/frontend.py:229-245 | `Model.load` succeeds exactly when the format check does, giving a model imported from the given file by the selected importer; otherwise it fails with the format check's error |
| Params.Normalize | python/treelite/frontend.py:634-638 | a mapping gives its items and a list gives its pairs; a string key with a value gives that one pair; a string key without a value gives no pairs when empty and fails otherwise |
| Params.ShapesAgree | python/treelite/frontend.py:634-637 | a mapping and the list of its items normalise alike; a key with a value is the one-pair list |
| Params.SetCompilerParam | python/treelite/frontend.py:156-162 | the compiler receives every normalised pair, in order, with its value rendered by `str`; a string key without a value fails as the normalisation does |
| Lists.PyIndex | python/treelite/frontend.py:604-605 | Python list indexing accepts exactly `-n <= i < n`; a non-negative index is itself and a negative one counts from the end |
| Lists.InsertAtShifts | python/treelite/frontend.py:545 | `list.insert(i, x)` puts `x` at `i`, keeps what is before `i` and moves the rest up by one |
| Lists.DeleteAtShifts | python/treelite/frontend.py:611 | `del list[i]` keeps what is before `i` and moves what is after it down by one |
| Lists.DeleteUndoesInsert | python/treelite/frontend.py:545 | deleting the position just inserted restores the list |
| Lists.InsertAtEnd | python/treelite/frontend.py:565 | inserting at the length is appending |
| Lists.RemoveKey | python/treelite/frontend.py:477 | the key order after `del d[k]` holds exactly the other keys |
| Lists.RemoveKeyDistinct | python/treelite/frontend.py:477 | removing a key keeps the key order free of repeats |
| Lists.AppendNew | python/treelite/frontend.py:472 | adding a new key keeps the key order free of repeats and adds exactly that key |
| Lists.DistinctSize | python/treelite/frontend.py:451-452 | a key order without repeats is as long as its set of keys |
| Leaves.ToFloat | python/treelite/frontend.py:316-319 | `float(x)` succeeds exactly on numbers; a type error becomes the "single float or a list of floats" error; an unparsable string escapes as a value error |
| Leaves.ToFloats | python/treelite/frontend.py:314 | the list comprehension succeeds exactly when every element converts, keeping length and values; otherwise it fails with the error of the first element rejected |
| Leaves.ConvertLeaf | python/treelite/frontend.py:305-319 | a non-iterable gives a scalar leaf and an iterable a vector leaf; conversion fails exactly when some element is rejected, with that element's error |
| Leaves.ConvertAsArg | python/treelite/frontend.py:305-319 | passing a leaf's own values converts back to exactly that leaf |
| Builder.MissingKeysSpec | python/treelite/frontend.py:362-367 | the children a test setter creates are the child keys not yet present, each once, even when both keys are equal |
| Builder.Node.constructor | python/treelite/frontend.py:275-276 | a new node is empty and unregistered |
| Builder.Node.SetRoot | python/treelite/frontend.py:281-291 | an unregistered node fails; a registered one becomes its tree's root; `empty` and the configuration are never touched |
| Builder.Node.SetLeafNode | python/treelite/frontend.py:305-336 | the conversion error comes before the registration check; both failures leave the node unchanged; on success the node is non-empty and configured with the converted leaf |
| Builder.Node.SetNumericalTestNode | python/treelite/frontend.py:362-379 | an unregistered node fails with nothing changed; on success the node is non-empty and configured with the test, and its tree gained exactly the missing children as fresh empty registered nodes, with every other entry kept |
| Builder.Node.SetCategoricalTestNode | python/treelite/frontend.py:407-425 | as the numerical setter, configured with the left categories |
| Builder.Tree.constructor | python/treelite/frontend.py:429-432 | a new tree has no nodes and owns its native tree |
| Builder.Tree.Len | python/treelite/frontend.py:451-452 | the length is the number of keys `keys()` lists |
| Builder.Tree.Keys | python/treelite/frontend.py:445-446 | `keys()` lists every key of the tree exactly once |
| Builder.Tree.CreateMissingChildren | python/treelite/frontend.py:364-367 | each missing child key gets a fresh empty node registered at it, created natively and appended to the key order; present keys keep their nodes; nothing else changes |
| Builder.Tree.SetItem | python/treelite/frontend.py:460-474 | the checks run in order: not a node, then duplicate key whatever the node's state, then non-empty node; each failure changes nothing; on success the key maps to the node, the size grows by one, one creation request for the key goes to the native tree, and the node records the key and the tree |
| Builder.Tree.GetItem | python/treelite/frontend.py:454-458 | a present key returns its node and changes nothing; a missing key gets a fresh empty node, which is returned, and the size grows by one |
| Builder.Tree.DelItem | python/treelite/frontend.py:476-477 | a missing key fails with nothing changed; otherwise exactly that entry goes, the other keys keep their order, and the native tree is not told |
| Builder.CheckCounts | python/treelite/frontend.py:488-495 | the counts pass exactly when both are positive ints; the type check comes before the sign check, and `num_feature` before `num_output_group` |
| Builder.ModelBuilder.constructor | python/treelite/frontend.py:496-503 | a builder made from valid counts holds them, has no trees, keeps the builder invariant, and has sent exactly the keyword parameters |
| Builder.ModelBuilder.New | python/treelite/frontend.py:486-503 | construction fails exactly when the count check does, with its error; otherwise it gives a fresh builder of length 0 that keeps the builder invariant |
| Builder.ModelBuilder.SetParam | python/treelite/frontend.py:634-641 | the native builder receives every normalised pair in order; a string key without a value fails and sends nothing |
| Builder.ModelBuilder.Len | python/treelite/frontend.py:601-602 | the length is the number of trees in the ensemble's list |
| Builder.ModelBuilder.Get | python/treelite/frontend.py:604-605 | indexing succeeds exactly for `-len <= index < len` and gives the tree at that position, counting negative indices from the end; otherwise it fails with an index error |
| Builder.ModelBuilder.Insert | python/treelite/frontend.py:527-545 | a non-int index, an index outside `[0, len]` and a non-tree argument fail in that order, each before any change; on success the tree is at `index` and the others shift; the tree holds a view into the ensemble, records it, and no longer frees its own native tree; the builder invariant (no listed tree frees its own native tree) is kept |
| Builder.ModelBuilder.Append | python/treelite/frontend.py:565 | a non-tree fails with nothing changed; otherwise the tree is added at the end and belongs to the ensemble; the builder invariant is kept |
| Builder.ModelBuilder.DelItem | python/treelite/frontend.py:607-611 | an index outside `[-len, len)` fails with nothing changed; otherwise the position is removed and later trees move down; only the `handle` of listed trees may change: the removed tree's becomes `None`, so it frees nothing, and every other tree is unchanged; the builder invariant is kept |
| Builder.ModelBuilder.Commit | python/treelite/frontend.py:589-593 | the model holds as many trees as the builder, and the builder is left unchanged |
| Scenario.ReplaceNode | python/treelite/frontend.py:463-467 | inserting at a taken key fails; after deleting the key a new empty node can be inserted under it, and every other entry is kept; exactly one more creation request for the key goes to the native tree, which already had that key |
| Scenario.SplitRoot | python/treelite/frontend.py:362-367 | configuring node 0 of a new tree as a test with children 1 and 2 leaves exactly keys 0, 1 and 2, the children empty |
| Scenario.Stump | python/treelite/frontend.py:281-379 | a tree built by `tree[0].set_numerical_test_node(...)`, two `set_leaf_node` calls and `set_root` holds exactly keys 0, 1 and 2, whose nodes are the returned ones, configured as asked, with root 0 |
| Scenario.OneTreeModel | python/treelite/frontend.py:486-593 | building, appending one stump and committing gives a model with one tree |

## Left out

- The native library is not part of this model. Each `_LIB` call, with `_check_call` and the ctypes conversions around it, is a step that succeeds. So the `ret != index` branch of `insert`, the native rejection of a malformed test and native failures in general are not modelled.
- Builder.Tree.SetItem: after `del tree[k]` the native tree still holds `k`, so inserting `k` again asks it to create a node it already has. The model logs the request in `createRequests`, but not how the native side answers.
- Builder.ModelBuilder.DelItem: the native delete runs before the Python list is indexed. The model checks the index the way Python lists do, and does not capture a native error on a negative or out-of-range index.
- Builder.ModelBuilder.Insert: a tree already in an ensemble holds a view handle, and inserting it again would release that view natively. The model records the new handle but not what releasing a view does.
- Builder.Node.SetCategoricalTestNode: the [0, 63] category bound is only documented, never checked, so it is not modelled. Nor is the `c_ubyte` narrowing of the categories.
- Builder.Node.SetNumericalTestNode: `feature_id` is sent as `c_uint` and keys as `c_int`. Their wrap-around is native-side behaviour and is not modelled.
- Dict key order is modelled as the insertion order that Python 3.7 and later guarantee. The source also supports Python 2, whose dicts list keys in no defined order; there `keys()` keeps only the "every key exactly once" part of `Builder.Tree.Keys`.
- The `__del__` finalisers are driven by the garbage collector. Only their decision is kept, as `Tree.FreesOwnTree`: a tree frees its own native tree only if it has a handle and no ensemble.
- `Model.compile`, `export_lib` and `from_xgboost` are not modelled: they need temporary directories, an external toolchain and an external library. Only their parameter step, `_set_compiler_param`, is modelled.
- The `__repr__` strings are not modelled.
- `Tree.items`, `Tree.values`, `Tree.__iter__`, `ModelBuilder.__iter__` and `ModelBuilder.__reversed__` are plain views of `nodes` and `trees`. They are not modelled separately.
- Builder.ModelBuilder.Get: slices are not modelled, only integer indices.
- Floating point is not modelled. `float()` is reduced to accepted, unparsable, or refused by type, and the converted values are opaque.
- Models.IsAsciiIff: the Python 2 `UnicodeDecodeError` branch is not modelled. The `UnicodeEncodeError` branch is not modelled either, because strings with lone surrogates cannot be written as Dafny strings.
- Models.Lower: only ASCII letters are lower-cased. This matches `str.lower()` because the name has passed the ASCII check.
- Params.Normalize: an iterable whose elements are not pairs (other than a bare string) is not modelled. Values are taken to be strings in `_set_param`, which passes them to `c_str` without `str()`.
- Builder.ModelBuilder.New: the type of `random_forest` is not checked by the source, and is modelled as a `bool`.
- Arguments of the wrong Python type where a `Node` or `Tree` is expected are modelled as `null`.
