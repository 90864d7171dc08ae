/**
 * Python list and dict-order semantics on sequences: indexing with
 * negative indices, `list.insert`, `del list[i]`, and the key order of a
 * dict after a deletion.
 */
module Lists {
  import opened Errors

  /**
   * The position Python's list indexing selects for `i` in a list of
   * length `n`: negative indices count from the end; anything outside
   * `[-n, n)` is an IndexError.
   */
  function PyIndex(i: int, n: nat): (r: Option<nat>)
    ensures r.Some? <==> -(n as int) <= i < n
    ensures r.Some? ==> r.value < n
    ensures r.Some? && i >= 0 ==> r.value == i
    ensures r.Some? && i < 0 ==> r.value == n + i
  {
    if 0 <= i < n then Some(i)
    else if -(n as int) <= i < 0 then Some(i + n)
    else None
  }

  /** `s.insert(i, x)` for an index already known to be in `[0, len(s)]`. */
  function InsertAt<T>(s: seq<T>, i: nat, x: T): (r: seq<T>)
    requires i <= |s|
  {
    s[..i] + [x] + s[i..]
  }

  /** `del s[i]` for a position already known to be in range. */
  function DeleteAt<T>(s: seq<T>, i: nat): (r: seq<T>)
    requires i < |s|
  {
    s[..i] + s[i + 1..]
  }

  /**
   * Inserting puts `x` at position `i`; what stood before `i` stays, what
   * stood at or after `i` moves up by one.
   */
  lemma InsertAtShifts<T>(s: seq<T>, i: nat, x: T)
    requires i <= |s|
    ensures |InsertAt(s, i, x)| == |s| + 1
    ensures InsertAt(s, i, x)[i] == x
    ensures forall j :: 0 <= j < i ==> InsertAt(s, i, x)[j] == s[j]
    ensures forall j :: i <= j < |s| ==> InsertAt(s, i, x)[j + 1] == s[j]
  {
  }

  /** Deleting removes position `i`; what stood after it moves down by one. */
  lemma DeleteAtShifts<T>(s: seq<T>, i: nat)
    requires i < |s|
    ensures |DeleteAt(s, i)| == |s| - 1
    ensures forall j :: 0 <= j < i ==> DeleteAt(s, i)[j] == s[j]
    ensures forall j :: i < j < |s| ==> DeleteAt(s, i)[j - 1] == s[j]
  {
  }

  /** Deleting the position just inserted restores the list. */
  lemma DeleteUndoesInsert<T>(s: seq<T>, i: nat, x: T)
    requires i <= |s|
    ensures DeleteAt(InsertAt(s, i, x), i) == s
  {
  }

  /** Appending is inserting at the old length. */
  lemma InsertAtEnd<T>(s: seq<T>, x: T)
    ensures InsertAt(s, |s|, x) == s + [x]
  {
  }

  /** No element occurs twice. */
  predicate Distinct<T(==)>(s: seq<T>) {
    forall i, j :: 0 <= i < j < |s| ==> s[i] != s[j]
  }

  /** `s` without the element `k`, order kept: the key order of a dict after `del d[k]`. */
  function RemoveKey(s: seq<int>, k: int): (r: seq<int>)
    ensures forall x :: x in r <==> x in s && x != k
  {
    if s == [] then []
    else if s[0] == k then RemoveKey(s[1..], k)
    else [s[0]] + RemoveKey(s[1..], k)
  }

  /** Removing a key keeps the others distinct. */
  lemma {:induction false} RemoveKeyDistinct(s: seq<int>, k: int)
    requires Distinct(s)
    ensures Distinct(RemoveKey(s, k))
  {
    if s != [] {
      assert Distinct(s[1..]) by {
        forall i, j | 0 <= i < j < |s[1..]| ensures s[1..][i] != s[1..][j] {
          assert s[1..][i] == s[i + 1] && s[1..][j] == s[j + 1];
        }
      }
      RemoveKeyDistinct(s[1..], k);
      if s[0] != k {
        var r := RemoveKey(s[1..], k);
        assert s[0] !in r by {
          assert s[0] !in s[1..];
        }
        var t := [s[0]] + r;
        forall i, j | 0 <= i < j < |t| ensures t[i] != t[j] {
          if i == 0 {
            assert t[j] == r[j - 1];
          } else {
            assert t[i] == r[i - 1] && t[j] == r[j - 1];
          }
        }
      }
    }
  }

  /** The elements of `s`, as a set. */
  function Elements<T(==)>(s: seq<T>): set<T> {
    set x | x in s
  }

  /** Appending an element not yet present keeps the list free of repeats. */
  lemma AppendNew<T>(s: seq<T>, x: T)
    requires Distinct(s) && x !in s
    ensures Distinct(s + [x])
    ensures Elements(s + [x]) == Elements(s) + {x}
  {
  }

  /** A list without repeats has as many elements as its set of elements. */
  lemma {:induction false} DistinctSize<T>(s: seq<T>)
    requires Distinct(s)
    ensures |Elements(s)| == |s|
  {
    if s != [] {
      var tail := s[1..];
      assert Distinct(tail) by {
        forall i, j | 0 <= i < j < |tail| ensures tail[i] != tail[j] {
          assert tail[i] == s[i + 1] && tail[j] == s[j + 1];
        }
      }
      DistinctSize(tail);
      assert s[0] !in tail;
      assert Elements(s) == {s[0]} + Elements(tail);
    }
  }
}
