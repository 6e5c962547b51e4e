/**
 * `Array<T>`: the growable contiguous buffer whose capacity doubles (1, 2, 4, ...).
 * It only appends and pops at the end.
 */
module Arrays {
  import opened Options
  import opened RawBuffers

  /** The capacity `grow` picks: 1 for an unallocated buffer, twice the old one otherwise. */
  function DoubledCapacity(cap: nat): (r: nat)
    ensures r > cap
    ensures cap == 0 ==> r == 1
    ensures cap > 0 ==> r % cap == 0 && r / cap == 2
  {
    if cap == 0 then 1 else 2 * cap
  }

  class Array<T(0)> {
    var data: array<T>
    var cap: nat
    var len: nat
    /** The live elements, slots `0 .. len - 1`. */
    ghost var Contents: seq<T>
    ghost var Repr: set<object>

    ghost predicate Valid()
      reads this, Repr
      ensures Valid() ==> this in Repr
    {
      this in Repr && Repr == {this, data} &&
      data.Length == cap && len <= cap &&
      Contents == data[..len]
    }

    /** `Array::new` / `default`: no allocation, capacity and length 0. */
    constructor ()
      ensures Valid() && fresh(Repr)
      ensures Contents == [] && cap == 0 && len == 0
    {
      data := new T[0];
      cap, len := 0, 0;
      Contents := [];
      Repr := {this, data};
    }

    /** Appends `elem`, growing first when every slot is in use. */
    method Push(elem: T)
      requires Valid()
      modifies Repr
      ensures Valid() && fresh(Repr - old(Repr))
      ensures Contents == old(Contents) + [elem]
      ensures len == old(len) + 1
      ensures cap == if old(len) == old(cap) then DoubledCapacity(old(cap)) else old(cap)
    {
      if len == cap {
        Grow();
      }
      data[len] := elem;
      len := len + 1;
      Contents := Contents + [elem];
    }

    /** Removes and returns the last element; `None` and no change on an empty buffer. */
    method Pop() returns (r: Option<T>)
      requires Valid()
      modifies this
      ensures Valid() && Repr == old(Repr) && cap == old(cap)
      ensures old(len) == 0 ==> r == None && Contents == old(Contents) && len == 0
      ensures old(len) > 0 ==> r == Some(old(Contents)[old(len) - 1])
      ensures old(len) > 0 ==> Contents == old(Contents)[..old(len) - 1] && len == old(len) - 1
    {
      if len == 0 {
        r := None;
      } else {
        len := len - 1;
        r := Some(data[len]);
        Contents := Contents[..len];
      }
    }

    /** Reallocates with the doubled capacity; the elements are preserved. */
    method Grow()
      requires Valid()
      modifies Repr
      ensures Valid() && fresh(Repr - old(Repr))
      ensures cap == DoubledCapacity(old(cap)) && cap > old(cap)
      ensures len == old(len) && Contents == old(Contents)
    {
      var newCap := DoubledCapacity(cap);
      var newData := Realloc(data, newCap);
      assert newData[..len] == newData[..cap][..len];
      data, cap := newData, newCap;
      Repr := {this, data};
    }
  }

  /** The `it_works` test: push 42, then two pops give 42 and nothing. */
  method ItWorks() returns (first: Option<int>, second: Option<int>)
    ensures first == Some(42) && second == None
  {
    var bytes := new Array<int>();
    bytes.Push(42);
    first := bytes.Pop();
    second := bytes.Pop();
  }

  /** The `bells_and_whistles` test: after pushing 0, 1, ..., 255 there are 256 elements, element `i` is `i`. */
  method BellsAndWhistles() returns (size: nat, at22: int, contents: seq<int>)
    ensures size == 256 && at22 == 22
    ensures |contents| == 256 && forall i :: 0 <= i < 256 ==> contents[i] == i
  {
    var bytes := new Array<int>();
    for x := 0 to 256
      invariant bytes.Valid() && fresh(bytes.Repr)
      invariant bytes.Contents == seq(x, i => i)
    {
      bytes.Push(x);
    }
    size := bytes.len;
    at22 := bytes.data[22];
    contents := bytes.data[..bytes.len];
  }

  /** Pushing every element of `xs` and then popping until `None` yields `xs` backwards (LIFO order). */
  method PushThenPopAll<T(0)>(xs: seq<T>) returns (popped: seq<T>)
    ensures |popped| == |xs|
    ensures forall k :: 0 <= k < |xs| ==> popped[k] == xs[|xs| - 1 - k]
  {
    var a := new Array<T>();
    for i := 0 to |xs|
      invariant a.Valid() && fresh(a.Repr) && a.Contents == xs[..i]
    {
      a.Push(xs[i]);
    }
    popped := [];
    var r := a.Pop();
    while r.Some?
      invariant a.Valid() && fresh(a.Repr) && a.Contents == xs[..a.len]
      invariant r.Some? ==> |popped| + a.len + 1 == |xs| && r.value == xs[a.len]
      invariant r.None? ==> |popped| == |xs| && a.len == 0
      invariant forall k :: 0 <= k < |popped| ==> popped[k] == xs[|xs| - 1 - k]
      decreases a.len, r.Some?
    {
      popped := popped + [r.value];
      r := a.Pop();
    }
  }
}
