/** Results, error numbers, 64-bit arithmetic and collections, shared by the other modules. */
module Prelude {

  datatype Option<+T> = None | Some(value: T)

  datatype Result<+T, +E> = Success(value: T) | Failure(error: E)

  /** The system call errors the code tells apart, plus its own `ErrBadPathResolution`. */
  datatype Errno =
    | ENOENT | EISDIR | ENOTDIR | EEXIST | ENOTEMPTY | EPERM | EACCES | EINVAL | EBUSY | ENOSPC
    | ELOOP | EIO | EBADPATH | EQUOTA

  const MAX_INT64: int := 0x7FFF_FFFF_FFFF_FFFF
  const MIN_INT64: int := -0x8000_0000_0000_0000

  predicate IsInt64(x: int) {
    MIN_INT64 <= x <= MAX_INT64
  }

  /** Two's complement wrap-around of one int64 addition or subtraction. */
  function Wrap64(x: int): (r: int)
    requires 2 * MIN_INT64 <= x <= 2 * MAX_INT64
    ensures IsInt64(r)
    ensures IsInt64(x) <==> r == x
    ensures x > MAX_INT64 ==> r < 0
  {
    if x > MAX_INT64 then x - 0x1_0000_0000_0000_0000
    else if x < MIN_INT64 then x + 0x1_0000_0000_0000_0000
    else x
  }

  function Max(a: int, b: int): int {
    if a >= b then a else b
  }

  function Min(a: int, b: int): int {
    if a <= b then a else b
  }

  /** The elements of `s` that satisfy `p`, in order. */
  function Filter<T>(s: seq<T>, p: T -> bool): seq<T> {
    if s == [] then []
    else Filter(s[..|s| - 1], p) + (if p(s[|s| - 1]) then [s[|s| - 1]] else [])
  }

  lemma {:induction false} FilterMeaning<T>(s: seq<T>, p: T -> bool)
    ensures forall r :: r in Filter(s, p) <==> r in s && p(r)
    decreases |s|
  {
    if s != [] {
      FilterMeaning(s[..|s| - 1], p);
      assert s == s[..|s| - 1] + [s[|s| - 1]];
    }
  }

  lemma FilterGrows<T>(s: seq<T>, x: T, p: T -> bool)
    ensures Filter(s + [x], p) == Filter(s, p) + (if p(x) then [x] else [])
  {
    assert (s + [x])[..|s|] == s;
  }

  function Flatten<T>(lists: seq<seq<T>>): seq<T> {
    if lists == [] then [] else lists[0] + Flatten(lists[1..])
  }

  lemma {:induction false} FlattenGrows<T>(lists: seq<seq<T>>, last: seq<T>)
    ensures Flatten(lists + [last]) == Flatten(lists) + last
    decreases |lists|
  {
    if lists == [] {
      assert (lists + [last])[1..] == [];
    } else {
      assert (lists + [last])[1..] == lists[1..] + [last];
      FlattenGrows(lists[1..], last);
    }
  }

  lemma SubsetSize<T>(a: set<T>, b: set<T>)
    requires a <= b
    ensures |a| <= |b|
    ensures if |a| == |b| then a == b else a < b
  {
    assert b == a + (b - a);
    if a != b {
      assert exists x :: x in b - a;
    }
  }
}
