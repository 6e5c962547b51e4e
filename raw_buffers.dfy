/**
 * The two raw-memory primitives the growable buffers are written with: an overlapping
 * copy inside one allocation (`ptr::copy`, memmove semantics) and a reallocation that
 * keeps the old slots (`alloc::realloc`).
 */
module RawBuffers {
  import opened Sequences

  /** `s` after its `count` slots from `src` on were copied so that they start at `dst`. */
  function Moved<T>(s: seq<T>, src: nat, dst: nat, count: nat): (r: seq<T>)
    requires src + count <= |s| && dst + count <= |s|
    ensures |r| == |s|
    ensures forall k :: 0 <= k < |s| && !(dst <= k < dst + count) ==> r[k] == s[k]
    ensures forall k :: dst <= k < dst + count ==> r[k] == s[k - dst + src]
  {
    s[..dst] + s[src..src + count] + s[dst + count..]
  }

  /** Moves `count` slots starting at `src` so that they start at `dst`; every other slot keeps its value. */
  method CopyWithin<T>(a: array<T>, src: nat, dst: nat, count: nat)
    requires src + count <= a.Length && dst + count <= a.Length
    modifies a
    ensures a[..] == Moved(old(a[..]), src, dst, count)
  {
    if dst <= src {
      CopyForward(a, src, dst, count);
    } else {
      CopyBackward(a, src, dst, count);
    }
    assert forall k :: 0 <= k < a.Length ==> a[..][k] == Moved(old(a[..]), src, dst, count)[k];
  }

  /** The lower-to-higher copy order, safe when the destination does not start after the source. */
  method CopyForward<T>(a: array<T>, src: nat, dst: nat, count: nat)
    requires dst <= src && src + count <= a.Length
    modifies a
    ensures forall k :: 0 <= k < a.Length && !(dst <= k < dst + count) ==> a[k] == old(a[k])
    ensures forall k :: dst <= k < dst + count ==> a[k] == old(a[k - dst + src])
  {
    for j := 0 to count
      invariant forall k :: 0 <= k < a.Length && !(dst <= k < dst + j) ==> a[k] == old(a[k])
      invariant forall k :: dst <= k < dst + j ==> a[k] == old(a[k - dst + src])
    {
      a[dst + j] := a[src + j];
    }
  }

  /** The higher-to-lower copy order, safe when the destination starts after the source. */
  method CopyBackward<T>(a: array<T>, src: nat, dst: nat, count: nat)
    requires src < dst && dst + count <= a.Length
    modifies a
    ensures forall k :: 0 <= k < a.Length && !(dst <= k < dst + count) ==> a[k] == old(a[k])
    ensures forall k :: dst <= k < dst + count ==> a[k] == old(a[k - dst + src])
  {
    var j: nat := count;
    while j > 0
      invariant j <= count
      invariant forall k :: 0 <= k < a.Length && !(dst + j <= k < dst + count) ==> a[k] == old(a[k])
      invariant forall k :: dst + j <= k < dst + count ==> a[k] == old(a[k - dst + src])
    {
      j := j - 1;
      a[dst + j] := a[src + j];
    }
  }

  /**
   * A new allocation of `newCap` slots whose first `a.Length` slots hold the old ones.
   * The remaining slots stand for uninitialised memory: they hold the type's default value
   * and are never read before they are written.
   */
  method Realloc<T(0)>(a: array<T>, newCap: nat) returns (b: array<T>)
    requires a.Length <= newCap
    ensures fresh(b) && b.Length == newCap
    ensures b[..a.Length] == a[..]
  {
    b := new T[newCap];
    for k := 0 to a.Length
      invariant b[..k] == a[..k]
    {
      b[k] := a[k];
    }
  }

  /**
   * Copying the `n - i` live slots from `i` on one slot up and writing `e` into the gap
   * spells `InsertAt` on the live prefix; this is how `insert` moves its tail.
   */
  lemma ShiftOpensGap<T>(before: seq<T>, n: nat, i: nat, e: T)
    requires i <= n < |before|
    ensures Moved(before, i, i + 1, n - i)[i := e][..n + 1] == InsertAt(before[..n], i, e)
  {
    var a := Moved(before, i, i + 1, n - i)[i := e];
    InsertedSlots(a, before[..n], i, e);
  }

  /**
   * Copying the `n - i - 1` live slots after `i` one slot down spells `RemoveAt` on the
   * live prefix of length `n`; this is how `remove` closes the gap.
   */
  lemma ShiftClosesGap<T>(before: seq<T>, n: nat, i: nat)
    requires i < n <= |before|
    ensures Moved(before, i + 1, i, n - i - 1)[..n - 1] == RemoveAt(before[..n], i)
  {
    var a := Moved(before, i + 1, i, n - i - 1);
    RemovedSlots(a, before[..n], i);
  }
}
