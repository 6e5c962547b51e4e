/**
 * `SingleArray<T>`: the growable contiguous buffer whose capacity grows by one slot at a
 * time, with the whole sequence interface (size, push, get, insert, remove).
 */
module SingleArrays {
  import opened Options
  import opened Sequences
  import opened RawBuffers

  class SingleArray<T(0)> {
    var data: array<T>
    var cap: nat
    var len: nat
    /** The live elements, slots `0 .. len - 1`. */
    ghost var Contents: seq<T>
    ghost var Repr: set<object>

    ghost predicate Valid()
      reads this, Repr
      ensures Valid() ==> this in Repr
    {
      this in Repr && Repr == {this, data} &&
      data.Length == cap && len <= cap &&
      Contents == data[..len]
    }

    /** `SingleArray::new` / `default`: no allocation, capacity and length 0. */
    constructor ()
      ensures Valid() && fresh(Repr)
      ensures Contents == [] && cap == 0 && len == 0
    {
      data := new T[0];
      cap, len := 0, 0;
      Contents := [];
      Repr := {this, data};
    }

    /** Removes and returns the last element; `None` and no change on an empty buffer. */
    method Pop() returns (r: Option<T>)
      requires Valid()
      modifies this
      ensures Valid() && Repr == old(Repr) && cap == old(cap)
      ensures old(len) == 0 ==> r == None && Contents == old(Contents) && len == 0
      ensures old(len) > 0 ==> r == Some(old(Contents)[old(len) - 1])
      ensures old(len) > 0 ==> Contents == old(Contents)[..old(len) - 1] && len == old(len) - 1
    {
      if len == 0 {
        r := None;
      } else {
        len := len - 1;
        r := Some(data[len]);
        Contents := Contents[..len];
      }
    }

    /** Reallocates with one more slot; the elements are preserved. */
    method Grow()
      requires Valid()
      modifies Repr
      ensures Valid() && fresh(Repr - old(Repr))
      ensures cap == old(cap) + 1
      ensures len == old(len) && Contents == old(Contents)
    {
      var newCap := 1 + cap;
      var newData := Realloc(data, newCap);
      assert newData[..len] == newData[..cap][..len];
      data, cap := newData, newCap;
      Repr := {this, data};
    }

    /** The number of live elements. */
    function Size(): (n: nat)
      reads Repr
      requires Valid()
      ensures n == |Contents|
    {
      len
    }

    /** Appends `elem`: `insert(elem, len)`. */
    method Push(elem: T)
      requires Valid()
      modifies Repr
      ensures Valid() && fresh(Repr - old(Repr))
      ensures Contents == old(Contents) + [elem]
      ensures cap == if old(len) == old(cap) then old(cap) + 1 else old(cap)
    {
      Insert(elem, len);
      InsertAtEnd(old(Contents), elem);
    }

    /** The element at `index`; the source panics when `index >= len`. */
    function Get(index: nat): (r: T)
      reads Repr
      requires Valid() && index < len
      ensures r == Contents[index]
    {
      data[index]
    }

    /**
     * Puts `elem` at position `index`, shifting the tail one slot right; grows by one slot
     * first when every slot is in use. The source panics when `index > len`.
     */
    method Insert(elem: T, index: nat)
      requires Valid() && index <= len
      modifies Repr
      ensures Valid() && fresh(Repr - old(Repr))
      ensures Contents == InsertAt(old(Contents), index, elem)
      ensures len == old(len) + 1
      ensures cap == if old(cap) == old(len) then old(cap) + 1 else old(cap)
    {
      if cap == len {
        Grow();
      }
      ghost var before := data[..];
      CopyWithin(data, index, index + 1, len - index);
      data[index] := elem;
      ShiftOpensGap(before, len, index, elem);
      len := len + 1;
      Contents := InsertAt(Contents, index, elem);
    }

    /**
     * Takes out the element at position `index`, shifting the tail one slot left; the
     * capacity stays. The source panics when `index >= len`.
     */
    method Remove(index: nat) returns (r: T)
      requires Valid() && index < len
      modifies Repr
      ensures Valid() && Repr == old(Repr) && cap == old(cap)
      ensures r == old(Contents)[index]
      ensures Contents == RemoveAt(old(Contents), index)
      ensures len == old(len) - 1
    {
      len := len - 1;
      r := data[index];
      ghost var before := data[..];
      CopyWithin(data, index + 1, index, len - index);
      ShiftClosesGap(before, len + 1, index);
      Contents := RemoveAt(Contents, index);
    }
  }

  /** The `it_works` test: push 42, then two pops give 42 and nothing. */
  method ItWorks() returns (first: Option<int>, second: Option<int>)
    ensures first == Some(42) && second == None
  {
    var bytes := new SingleArray<int>();
    bytes.Push(42);
    first := bytes.Pop();
    second := bytes.Pop();
  }

  /**
   * The `array_interface` test: inserting 42 at 0, 1024 at 0, -339 at 2 and -851 at 1 reads
   * 1024, -851, 42, -339; removing position 0 returns 1024 and leaves -851, 42, -339.
   */
  method ArrayInterface() returns (before: seq<int>, removed: int, after: seq<int>)
    ensures before == [1024, -851, 42, -339]
    ensures removed == 1024
    ensures after == [-851, 42, -339]
  {
    var buffer := new SingleArray<int>();
    buffer.Insert(42, 0);
    buffer.Insert(1024, 0);
    buffer.Insert(-339, 2);
    buffer.Insert(-851, 1);
    before := [buffer.Get(0), buffer.Get(1), buffer.Get(2), buffer.Get(3)];
    removed := buffer.Remove(0);
    after := [buffer.Get(0), buffer.Get(1), buffer.Get(2)];
  }
}
