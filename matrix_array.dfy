/**
 * `MatrixArray<T>`: a list of `VectorArray` blocks of nominal size `vector`, read as one flat
 * sequence through the index mapping `(i / vector, i % vector)`.
 *
 * `insert` adds a fresh block only when the last block is full (or there is none) and then
 * inserts into block `i / vector` at offset `i % vector`, letting that block exceed `vector`
 * elements; `remove` removes from block `i / vector` and rebalances nothing. The mapping is
 * therefore the flat position only while every block but the last is full, which appends keep.
 */
module MatrixArrays {
  import opened Sequences
  import VectorArrays

  /** The flat sequence the blocks stand for. */
  function Flatten<T>(bs: seq<seq<T>>): seq<T> {
    if bs == [] then [] else bs[0] + Flatten(bs[1..])
  }

  /** The sum of the block lengths (`size`, a fold over the blocks). */
  function TotalSize<T>(bs: seq<seq<T>>): nat {
    if bs == [] then 0 else |bs[0]| + TotalSize(bs[1..])
  }

  /** `need_to_grow`: there is no block, or the last one holds exactly `vector` elements. */
  predicate RoomNeeded<T>(bs: seq<seq<T>>, vector: nat) {
    bs == [] || |bs[|bs| - 1]| == vector
  }

  /** The blocks after `make_room`: one more, empty, block exactly when RoomNeeded. */
  function MadeRoom<T>(bs: seq<seq<T>>, vector: nat): seq<seq<T>> {
    if RoomNeeded(bs, vector) then bs + [[]] else bs
  }

  /** `insert(e, i)` does not panic: after `make_room`, block `i / vector` exists and offset `i % vector` is at most its length. */
  predicate InsertAllowed<T>(bs: seq<seq<T>>, vector: nat, i: nat)
    requires vector > 0
  {
    var r := MadeRoom(bs, vector);
    i / vector < |r| && i % vector <= |r[i / vector]|
  }

  /** The blocks after `insert(e, i)`. */
  function Inserted<T>(bs: seq<seq<T>>, vector: nat, e: T, i: nat): seq<seq<T>>
    requires vector > 0 && InsertAllowed(bs, vector, i)
  {
    var r := MadeRoom(bs, vector);
    r[i / vector := InsertAt(r[i / vector], i % vector, e)]
  }

  /** `remove(i)` and `get(i)` do not panic: block `i / vector` exists and holds offset `i % vector`. */
  predicate Present<T>(bs: seq<seq<T>>, vector: nat, i: nat)
    requires vector > 0
  {
    i / vector < |bs| && i % vector < |bs[i / vector]|
  }

  /** The element `get(i)` reads. */
  function At<T>(bs: seq<seq<T>>, vector: nat, i: nat): T
    requires vector > 0 && Present(bs, vector, i)
  {
    bs[i / vector][i % vector]
  }

  /** The blocks after `remove(i)`. */
  function Removed<T>(bs: seq<seq<T>>, vector: nat, i: nat): seq<seq<T>>
    requires vector > 0 && Present(bs, vector, i)
  {
    bs[i / vector := RemoveAt(bs[i / vector], i % vector)]
  }

  /** The shape appends keep: every block but the last holds `vector` elements, the last 1 to `vector`. */
  ghost predicate Packed<T>(bs: seq<seq<T>>, vector: nat) {
    (forall k :: 0 <= k < |bs| - 1 ==> |bs[k]| == vector) &&
    (|bs| > 0 ==> 0 < |bs[|bs| - 1]| <= vector)
  }

  /** `size()` is the length of the flat sequence. */
  lemma {:induction false} TotalSizeIsLength<T>(bs: seq<seq<T>>)
    ensures TotalSize(bs) == |Flatten(bs)|
  {
    if bs != [] {
      TotalSizeIsLength(bs[1..]);
    }
  }

  /** Flattening distributes over concatenation of block lists. */
  lemma {:induction false} FlattenConcat<T>(a: seq<seq<T>>, b: seq<seq<T>>)
    ensures Flatten(a + b) == Flatten(a) + Flatten(b)
  {
    if a == [] {
      assert a + b == b;
    } else {
      assert (a + b)[1..] == a[1..] + b;
      FlattenConcat(a[1..], b);
    }
  }

  /** The flat sequence split around block `b`. */
  lemma FlattenAround<T>(bs: seq<seq<T>>, b: nat)
    requires b < |bs|
    ensures Flatten(bs) == Flatten(bs[..b]) + bs[b] + Flatten(bs[b + 1..])
    ensures |Flatten(bs[..b])| == TotalSize(bs[..b])
  {
    assert bs == bs[..b] + ([bs[b]] + bs[b + 1..]);
    FlattenConcat(bs[..b], [bs[b]] + bs[b + 1..]);
    assert ([bs[b]] + bs[b + 1..])[1..] == bs[b + 1..];
    TotalSizeIsLength(bs[..b]);
  }

  /** Inserting into block `b` at offset `off` inserts into the flat sequence after the elements of the earlier blocks. */
  lemma FlattenInsert<T>(bs: seq<seq<T>>, b: nat, off: nat, e: T)
    requires b < |bs| && off <= |bs[b]|
    ensures TotalSize(bs[..b]) + off <= |Flatten(bs)|
    ensures Flatten(bs[b := InsertAt(bs[b], off, e)]) == InsertAt(Flatten(bs), TotalSize(bs[..b]) + off, e)
  {
    var nbs := bs[b := InsertAt(bs[b], off, e)];
    FlattenAround(bs, b);
    FlattenAround(nbs, b);
    assert nbs[..b] == bs[..b] && nbs[b + 1..] == bs[b + 1..];
    var pre, post := Flatten(bs[..b]), Flatten(bs[b + 1..]);
    InsertAtFramed(pre, bs[b], post, off, e);
  }

  /** Removing from block `b` at offset `off` removes from the flat sequence after the elements of the earlier blocks. */
  lemma FlattenRemove<T>(bs: seq<seq<T>>, b: nat, off: nat)
    requires b < |bs| && off < |bs[b]|
    ensures TotalSize(bs[..b]) + off < |Flatten(bs)|
    ensures Flatten(bs)[TotalSize(bs[..b]) + off] == bs[b][off]
    ensures Flatten(bs[b := RemoveAt(bs[b], off)]) == RemoveAt(Flatten(bs), TotalSize(bs[..b]) + off)
  {
    var nbs := bs[b := RemoveAt(bs[b], off)];
    FlattenAround(bs, b);
    FlattenAround(nbs, b);
    assert nbs[..b] == bs[..b] && nbs[b + 1..] == bs[b + 1..];
    var pre, post := Flatten(bs[..b]), Flatten(bs[b + 1..]);
    RemoveAtFramed(pre, bs[b], post, off);
  }

  /** Adding one block to the end adds its length to the total. */
  lemma TotalSizeSnoc<T>(bs: seq<seq<T>>, k: nat)
    requires k < |bs|
    ensures TotalSize(bs[..k + 1]) == TotalSize(bs[..k]) + |bs[k]|
  {
    assert bs[..k + 1] == bs[..k] + [bs[k]];
    FlattenConcat(bs[..k], [bs[k]]);
    assert Flatten([bs[k]]) == bs[k] + Flatten<T>([]);
    TotalSizeIsLength(bs[..k + 1]);
    TotalSizeIsLength(bs[..k]);
  }

  /** `make_room` leaves the existing blocks, the flat sequence and the size as they were. */
  lemma MadeRoomKeeps<T>(bs: seq<seq<T>>, vector: nat)
    ensures |MadeRoom(bs, vector)| >= |bs|
    ensures forall k :: 0 <= k < |bs| ==> MadeRoom(bs, vector)[k] == bs[k]
    ensures Flatten(MadeRoom(bs, vector)) == Flatten(bs)
    ensures TotalSize(MadeRoom(bs, vector)) == TotalSize(bs)
  {
    if RoomNeeded(bs, vector) {
      FlattenConcat(bs, [[]]);
      assert Flatten<T>([[]]) == [] + Flatten<T>([]);
      assert Flatten(bs + [[]]) == Flatten(bs);
    }
    TotalSizeIsLength(bs);
    TotalSizeIsLength(MadeRoom(bs, vector));
  }

  /** The number of elements in `m` full blocks, counted block by block. */
  function FullSize(m: nat, vector: nat): nat {
    if m == 0 then 0 else FullSize(m - 1, vector) + vector
  }

  /** Counting full blocks one by one is multiplying. */
  lemma {:induction false} FullSizeIsProduct(m: nat, vector: nat)
    ensures FullSize(m, vector) == m * vector
  {
    if m > 0 {
      FullSizeIsProduct(m - 1, vector);
      assert (m - 1) * vector + vector == m * vector;
    }
  }

  /** The first `b` blocks, all full, hold `b * vector` elements. */
  lemma {:induction false} FullPrefix<T>(bs: seq<seq<T>>, vector: nat, b: nat)
    requires b <= |bs|
    requires forall k :: 0 <= k < b ==> |bs[k]| == vector
    ensures TotalSize(bs[..b]) == FullSize(b, vector)
  {
    if b > 0 {
      FullPrefix(bs, vector, b - 1);
      TotalSizeSnoc(bs, b - 1);
    }
  }

  /** The size of packed blocks. */
  lemma PackedTotal<T>(bs: seq<seq<T>>, vector: nat)
    requires Packed(bs, vector) && |bs| > 0
    ensures TotalSize(bs) == FullSize(|bs| - 1, vector) + |bs[|bs| - 1]|
  {
    FullPrefix(bs, vector, |bs| - 1);
    TotalSizeSnoc(bs, |bs| - 1);
    assert bs[..|bs|] == bs;
  }

  lemma Decompose(i: nat, vector: nat, q: nat, r: nat)
    requires vector > 0 && r < vector && i == FullSize(q, vector) + r
    ensures i / vector == q && i % vector == r
  {
    var q', r' := i / vector, i % vector;
    FullSizeIsProduct(q, vector);
    assert q' * vector + r' == i;
    if q' < q {
      MulLe(q' + 1, q, vector);
    } else if q < q' {
      MulLe(q + 1, q', vector);
    }
  }

  lemma MulLe(a: nat, c: nat, vector: nat)
    requires a <= c
    ensures a * vector <= c * vector
  {
  }

  /** On packed blocks, `get(i)` and `remove(i)` succeed exactly when `i` is below `size()`. */
  lemma PackedPresent<T>(bs: seq<seq<T>>, vector: nat, i: nat)
    requires vector > 0 && Packed(bs, vector)
    ensures Present(bs, vector, i) <==> i < TotalSize(bs)
  {
    if bs != [] {
      PackedTotal(bs, vector);
      BlockBelow(i, vector, |bs| - 1, |bs[|bs| - 1]|, TotalSize(bs));
      PackedHolds(bs, vector, i / vector, i % vector);
    }
  }

  /** In packed blocks, offset `off` of block `b` is held exactly when `b` is a full block or the last one holds it. */
  lemma PackedHolds<T>(bs: seq<seq<T>>, vector: nat, b: nat, off: nat)
    requires Packed(bs, vector) && bs != [] && off < vector
    ensures (b < |bs| && off < |bs[b]|) <==> b < |bs| - 1 || (b == |bs| - 1 && off < |bs[|bs| - 1]|)
  {
    if b < |bs| - 1 {
      assert |bs[b]| == vector;
    }
  }

  /** Index `i` lies below `m` full blocks and `last` more elements exactly when it falls in one of the
      first `m` blocks, or in block `m` before offset `last`. */
  lemma BlockBelow(i: nat, vector: nat, m: nat, last: nat, total: nat)
    requires vector > 0 && last <= vector && total == FullSize(m, vector) + last
    ensures i < total <==> i / vector < m || (i / vector == m && i % vector < last)
    ensures 0 <= i / vector && 0 <= i % vector < vector
  {
    var b, off := i / vector, i % vector;
    FullSizeIsProduct(m, vector);
    assert i == b * vector + off;
    if b < m {
      MulLe(b + 1, m, vector);
      assert (b + 1) * vector == b * vector + vector;
    } else if b > m {
      MulLe(m + 1, b, vector);
      assert (m + 1) * vector == m * vector + vector;
    }
  }

  /** Index `i` lies `i % vector` past the elements of the full blocks before block `i / vector`. */
  lemma PrefixOffset<T>(bs: seq<seq<T>>, vector: nat, i: nat)
    requires vector > 0 && i / vector <= |bs|
    requires forall k :: 0 <= k < i / vector ==> |bs[k]| == vector
    ensures TotalSize(bs[..i / vector]) + i % vector == i
  {
    FullPrefix(bs, vector, i / vector);
    FullSizeIsProduct(i / vector, vector);
    assert i == (i / vector) * vector + i % vector;
  }

  /** On packed blocks, `get(i)` reads position `i` of the flat sequence. */
  lemma PackedGet<T>(bs: seq<seq<T>>, vector: nat, i: nat)
    requires vector > 0 && Packed(bs, vector) && i < TotalSize(bs)
    ensures Present(bs, vector, i) && i < |Flatten(bs)|
    ensures At(bs, vector, i) == Flatten(bs)[i]
  {
    PackedPresent(bs, vector, i);
    PrefixOffset(bs, vector, i);
    FlattenRemove(bs, i / vector, i % vector);
  }

  /** On packed blocks, every block of the grown list but the last is full. */
  lemma PackedRoom<T>(bs: seq<seq<T>>, vector: nat)
    requires Packed(bs, vector)
    ensures forall k :: 0 <= k < |MadeRoom(bs, vector)| - 1 ==> |MadeRoom(bs, vector)[k]| == vector
  {
  }

  /** `PackedInsertAllowed` when the last block is full: `make_room` adds an empty block for index `size()`. */
  lemma FullInsertAllowed<T>(bs: seq<seq<T>>, vector: nat, i: nat)
    requires vector > 0 && Packed(bs, vector) && RoomNeeded(bs, vector) && i <= TotalSize(bs)
    ensures InsertAllowed(bs, vector, i)
  {
    FullTotal(bs, vector);
    BlockBelow(i, vector, |bs|, 1, TotalSize(bs) + 1);
    FullRoom(bs, vector, i / vector, i % vector);
  }

  /** When every block is full, the size is `|bs|` full blocks. */
  lemma FullTotal<T>(bs: seq<seq<T>>, vector: nat)
    requires Packed(bs, vector) && RoomNeeded(bs, vector)
    ensures TotalSize(bs) == FullSize(|bs|, vector)
  {
    if bs != [] {
      PackedTotal(bs, vector);
    }
  }

  /** After `make_room` on full blocks, offset `off` of block `b` is a valid insertion point when `b` is a full block or the new one and `off` is 0. */
  lemma FullRoom<T>(bs: seq<seq<T>>, vector: nat, b: nat, off: nat)
    requires Packed(bs, vector) && RoomNeeded(bs, vector) && off < vector
    requires b < |bs| || (b == |bs| && off == 0)
    ensures b < |MadeRoom(bs, vector)| && off <= |MadeRoom(bs, vector)[b]|
  {
    var r := MadeRoom(bs, vector);
    assert r == bs + [[]];
    if b < |bs| {
      assert r[b] == bs[b];
    }
  }

  /** `PackedInsertAllowed` when the last block has room: every index up to `size()` falls in an existing block. */
  lemma PartialInsertAllowed<T>(bs: seq<seq<T>>, vector: nat, i: nat)
    requires vector > 0 && Packed(bs, vector) && !RoomNeeded(bs, vector) && i <= TotalSize(bs)
    ensures InsertAllowed(bs, vector, i)
  {
    PackedTotal(bs, vector);
    BlockBelow(i, vector, |bs| - 1, |bs[|bs| - 1]| + 1, TotalSize(bs) + 1);
    PartialRoom(bs, vector, i / vector, i % vector);
  }

  /** With room in the last block, offset `off` of block `b` is a valid insertion point when `b` is a full block or the last one reaches `off`. */
  lemma PartialRoom<T>(bs: seq<seq<T>>, vector: nat, b: nat, off: nat)
    requires Packed(bs, vector) && !RoomNeeded(bs, vector) && off < vector
    requires b < |bs| - 1 || (b == |bs| - 1 && off <= |bs[|bs| - 1]|)
    ensures b < |MadeRoom(bs, vector)| && off <= |MadeRoom(bs, vector)[b]|
  {
    if b < |bs| - 1 {
      assert |bs[b]| == vector;
    }
  }

  /** On packed blocks, `insert(e, i)` succeeds for every `i` up to `size()`. */
  lemma PackedInsertAllowed<T>(bs: seq<seq<T>>, vector: nat, i: nat)
    requires vector > 0 && Packed(bs, vector) && i <= TotalSize(bs)
    ensures InsertAllowed(bs, vector, i)
  {
    if RoomNeeded(bs, vector) {
      FullInsertAllowed(bs, vector, i);
    } else {
      PartialInsertAllowed(bs, vector, i);
    }
  }

  /** On packed blocks, `insert(e, i)` inserts `e` at position `i` of the flat sequence. */
  lemma PackedInsert<T>(bs: seq<seq<T>>, vector: nat, e: T, i: nat)
    requires vector > 0 && Packed(bs, vector) && InsertAllowed(bs, vector, i)
    ensures i <= |Flatten(bs)|
    ensures Flatten(Inserted(bs, vector, e, i)) == InsertAt(Flatten(bs), i, e)
  {
    var r := MadeRoom(bs, vector);
    var b, off := i / vector, i % vector;
    assert b < |r| && off <= |r[b]|;
    PackedRoom(bs, vector);
    PrefixOffset(r, vector, i);
    FlattenInsert(r, b, off, e);
    MadeRoomKeeps(bs, vector);
    assert Inserted(bs, vector, e, i) == r[b := InsertAt(r[b], off, e)];
  }

  /** `push(e)` on packed blocks puts `e` in a fresh block when the last is full, else at the end of the last. */
  lemma PackedPushShape<T>(bs: seq<seq<T>>, vector: nat, e: T)
    requires vector > 0 && Packed(bs, vector) && InsertAllowed(bs, vector, TotalSize(bs))
    ensures Packed(Inserted(bs, vector, e, TotalSize(bs)), vector)
  {
    var n := TotalSize(bs);
    var room := MadeRoom(bs, vector);
    var r := Inserted(bs, vector, e, n);
    if RoomNeeded(bs, vector) {
      FullPrefix(bs, vector, |bs|);
      assert bs[..|bs|] == bs;
      Decompose(n, vector, |bs|, 0);
      assert room == bs + [[]];
      assert InsertAt<T>([], 0, e) == [e];
      assert r == room[|bs| := [e]];
      assert forall k :: 0 <= k < |r| - 1 ==> r[k] == bs[k];
    } else {
      var last := bs[|bs| - 1];
      PackedTotal(bs, vector);
      Decompose(n, vector, |bs| - 1, |last|);
      assert room == bs;
      InsertAtEnd(last, e);
      assert r == bs[|bs| - 1 := last + [e]];
      assert forall k :: 0 <= k < |r| - 1 ==> r[k] == bs[k];
    }
  }

  /** `push(e)` on packed blocks succeeds, keeps them packed and appends `e` to the flat sequence. */
  lemma PackedPush<T>(bs: seq<seq<T>>, vector: nat, e: T)
    requires vector > 0 && Packed(bs, vector)
    ensures InsertAllowed(bs, vector, TotalSize(bs))
    ensures Packed(Inserted(bs, vector, e, TotalSize(bs)), vector)
    ensures Flatten(Inserted(bs, vector, e, TotalSize(bs))) == Flatten(bs) + [e]
  {
    var n := TotalSize(bs);
    PackedInsertAllowed(bs, vector, n);
    PackedInsert(bs, vector, e, n);
    TotalSizeIsLength(bs);
    InsertAtEnd(Flatten(bs), e);
    PackedPushShape(bs, vector, e);
  }

  /** On packed blocks, `remove(i)` returns position `i` of the flat sequence and removes it there. */
  lemma PackedRemove<T>(bs: seq<seq<T>>, vector: nat, i: nat)
    requires vector > 0 && Packed(bs, vector) && i < TotalSize(bs)
    ensures Present(bs, vector, i) && i < |Flatten(bs)|
    ensures At(bs, vector, i) == Flatten(bs)[i]
    ensures Flatten(Removed(bs, vector, i)) == RemoveAt(Flatten(bs), i)
  {
    PackedPresent(bs, vector, i);
    PrefixOffset(bs, vector, i);
    FlattenRemove(bs, i / vector, i % vector);
  }

  /** After `insert(e, i)`, `get(i)` reads `e` and the size has grown by one. */
  lemma InsertThenGet<T>(bs: seq<seq<T>>, vector: nat, e: T, i: nat)
    requires vector > 0 && InsertAllowed(bs, vector, i)
    ensures Present(Inserted(bs, vector, e, i), vector, i)
    ensures At(Inserted(bs, vector, e, i), vector, i) == e
    ensures TotalSize(Inserted(bs, vector, e, i)) == TotalSize(bs) + 1
  {
    var r := MadeRoom(bs, vector);
    MadeRoomKeeps(bs, vector);
    FlattenInsert(r, i / vector, i % vector, e);
    TotalSizeIsLength(r);
    TotalSizeIsLength(Inserted(bs, vector, e, i));
  }

  /** `remove(i)` right after `insert(e, i)` returns `e` and leaves the blocks as `make_room` left them. */
  lemma InsertThenRemove<T>(bs: seq<seq<T>>, vector: nat, e: T, i: nat)
    requires vector > 0 && InsertAllowed(bs, vector, i)
    ensures Present(Inserted(bs, vector, e, i), vector, i)
    ensures At(Inserted(bs, vector, e, i), vector, i) == e
    ensures Removed(Inserted(bs, vector, e, i), vector, i) == MadeRoom(bs, vector)
    ensures Flatten(MadeRoom(bs, vector)) == Flatten(bs)
  {
    var r := MadeRoom(bs, vector);
    RemoveInsert(r[i / vector], i % vector, e);
    MadeRoomKeeps(bs, vector);
  }

  /** `remove(i)` shrinks the size by one. */
  lemma RemoveShrinks<T>(bs: seq<seq<T>>, vector: nat, i: nat)
    requires vector > 0 && Present(bs, vector, i)
    ensures TotalSize(Removed(bs, vector, i)) == TotalSize(bs) - 1
  {
    FlattenRemove(bs, i / vector, i % vector);
    TotalSizeIsLength(bs);
    TotalSizeIsLength(Removed(bs, vector, i));
  }

  /**
   * Inserting anywhere but the end overfills a block and unpacks the list: with `vector == 1`
   * and blocks `[[1], [2]]`, `insert(0, 0)` yields `[[0, 1], [2], []]`, whose flat sequence is
   * `[0, 1, 2]` while `get(1)` reads `2`.
   */
  lemma InsertSkewsIndexing()
    ensures Packed([[1], [2]], 1) && InsertAllowed([[1], [2]], 1, 0)
    ensures Inserted([[1], [2]], 1, 0, 0) == [[0, 1], [2], []]
    ensures !Packed(Inserted([[1], [2]], 1, 0, 0), 1)
    ensures Flatten(Inserted([[1], [2]], 1, 0, 0)) == [0, 1, 2]
    ensures Present(Inserted([[1], [2]], 1, 0, 0), 1, 1) && At(Inserted([[1], [2]], 1, 0, 0), 1, 1) == 2
  {
    var bs: seq<seq<int>> := [[1], [2]];
    assert MadeRoom(bs, 1) == bs + [[]];
    assert InsertAt([1], 0, 0) == [0, 1];
    var r := Inserted(bs, 1, 0, 0);
    assert r == [[0, 1], [2], []];
    assert |r[0]| == 2;
    assert r[1..] == [[2], []] && r[1..][1..] == [[]];
    assert Flatten<int>([[]]) == [];
    assert Flatten(r[1..]) == [2];
  }

  /** Appending a store that shares no object with the others keeps the stores pairwise apart. */
  lemma AppendKeepsApart<T(0)>(stores: seq<VectorArrays.VectorArray<T>>, block: VectorArrays.VectorArray<T>)
    requires forall b, c :: 0 <= b < c < |stores| ==> stores[b].Repr !! stores[c].Repr
    requires forall b :: 0 <= b < |stores| ==> block.Repr !! stores[b].Repr
    ensures forall b, c :: 0 <= b < c < |stores| + 1 ==> (stores + [block])[b].Repr !! (stores + [block])[c].Repr
  {
    var all := stores + [block];
    forall b, c | 0 <= b < c < |all|
      ensures all[b].Repr !! all[c].Repr
    {
      assert all[b] == stores[b];
    }
  }

  /**
   * The blocked array. `inner` holds the blocks in order (the outer buffer is a sequence here);
   * `Blocks` is the contents of each block and `Repr` the blocks' footprints, kept pairwise disjoint.
   */
  class MatrixArray<T(0)> {
    var inner: seq<VectorArrays.VectorArray<T>>
    var vector: nat

    ghost var Blocks: seq<seq<T>>
    ghost var Repr: set<object>

    ghost predicate Valid()
      reads this, Repr
      ensures Valid() ==> this in Repr
    {
      this in Repr && vector > 0 && |Blocks| == |inner| &&
      (forall b :: 0 <= b < |inner| ==> inner[b] in Repr && inner[b].Repr <= Repr && this !in inner[b].Repr) &&
      (forall b, c :: 0 <= b < c < |inner| ==> inner[b].Repr !! inner[c].Repr) &&
      (forall b :: 0 <= b < |inner| ==> inner[b].Valid() && inner[b].Contents == Blocks[b])
    }

    /** `MatrixArray::new(vector)`: no blocks yet. */
    constructor (vector: nat)
      requires vector > 0
      ensures Valid() && fresh(Repr)
      ensures Blocks == [] && this.vector == vector
    {
      inner := [];
      this.vector := vector;
      Blocks := [];
      Repr := {this};
    }

    /** `MatrixArray::default()`: no blocks, blocks of 5. */
    constructor Default()
      ensures Valid() && fresh(Repr)
      ensures Blocks == [] && vector == 5
    {
      inner := [];
      vector := 5;
      Blocks := [];
      Repr := {this};
    }

    /** `size()`: the sum of the block sizes, which is the length of the flat sequence. */
    method Size() returns (n: nat)
      requires Valid()
      ensures n == TotalSize(Blocks) && n == |Flatten(Blocks)|
    {
      n := 0;
      var k := 0;
      while k < |inner|
        invariant 0 <= k <= |inner|
        invariant n == TotalSize(Blocks[..k])
      {
        TotalSizeSnoc(Blocks, k);
        n := n + inner[k].Size();
        k := k + 1;
      }
      assert Blocks[..k] == Blocks;
      TotalSizeIsLength(Blocks);
    }

    /** `make_indice`: the block and the offset an index maps to. */
    function MakeIndice(index: nat): (r: (nat, nat))
      reads this
      requires vector > 0
      ensures r.0 * vector + r.1 == index && r.1 < vector
    {
      (index / vector, index % vector)
    }

    /** `need_to_grow`: whether `make_room` must add a block. */
    function NeedToGrow(): (r: bool)
      reads this, Repr
      requires Valid()
      ensures r <==> RoomNeeded(Blocks, vector)
    {
      if |inner| > 0 then inner[|inner| - 1].Size() == vector else true
    }

    /** `make_room`: adds one empty block when there is none or the last one is full. */
    method MakeRoom()
      requires Valid()
      modifies Repr
      ensures Valid() && fresh(Repr - old(Repr)) && vector == old(vector)
      ensures Blocks == MadeRoom(old(Blocks), vector)
    {
      if NeedToGrow() {
        var block := new VectorArrays.VectorArray<T>(vector);
        assert forall b :: 0 <= b < |inner| ==> block.Repr !! inner[b].Repr;
        AppendKeepsApart(inner, block);
        ghost var stores, bs := inner, Blocks;
        inner := inner + [block];
        Blocks := Blocks + [[]];
        Repr := Repr + block.Repr;
        forall c | 0 <= c < |inner|
          ensures inner[c] in Repr && inner[c].Repr <= Repr && this !in inner[c].Repr
          ensures inner[c].Valid() && inner[c].Contents == Blocks[c]
        {
          if c < |stores| {
            assert inner[c] == stores[c] && Blocks[c] == bs[c];
          }
        }
      }
    }

    /**
     * `get(index)`: the element at offset `index % vector` of block `index / vector`; while the
     * blocks are packed this is position `index` of the flat sequence (PackedGet).
     */
    function Get(index: nat): (r: T)
      reads this, Repr
      requires Valid() && Present(Blocks, vector, index)
      ensures r == At(Blocks, vector, index)
    {
      var (b, off) := MakeIndice(index);
      inner[b].Get(off)
    }

    /** `insert(elem, index)`: `make_room`, then an insert into block `index / vector` at offset `index % vector`. */
    method Insert(elem: T, index: nat)
      requires Valid() && InsertAllowed(Blocks, vector, index)
      modifies Repr
      ensures Valid() && fresh(Repr - old(Repr)) && vector == old(vector)
      ensures Blocks == Inserted(old(Blocks), vector, elem, index)
    {
      MakeRoom();
      var (b, off) := MakeIndice(index);
      InsertIntoBlock(b, off, elem);
    }

    /** The store update of `insert`: block `b` receives `elem` at offset `off`, the other blocks stay as they are. */
    method InsertIntoBlock(b: nat, off: nat, elem: T)
      requires Valid() && b < |Blocks| && off <= |Blocks[b]|
      modifies Repr
      ensures Valid() && fresh(Repr - old(Repr)) && vector == old(vector)
      ensures Blocks == old(Blocks)[b := InsertAt(old(Blocks)[b], off, elem)]
    {
      var store := inner[b];
      assert store.Valid() && store.Contents == Blocks[b];
      store.Insert(elem, off);
      Blocks := Blocks[b := store.Contents];
      Repr := Repr + store.Repr;
      forall c | 0 <= c < |inner| && c != b
        ensures inner[c].Valid() && inner[c].Contents == Blocks[c] && inner[c].Repr !! store.Repr
      {
      }
    }

    /** `push(elem)`: `insert(elem, size())`; on packed blocks it keeps them packed and appends to the flat sequence. */
    method Push(elem: T)
      requires Valid() && InsertAllowed(Blocks, vector, TotalSize(Blocks))
      modifies Repr
      ensures Valid() && fresh(Repr - old(Repr)) && vector == old(vector)
      ensures Blocks == Inserted(old(Blocks), vector, elem, TotalSize(old(Blocks)))
      ensures Packed(old(Blocks), vector) ==> Packed(Blocks, vector) && Flatten(Blocks) == Flatten(old(Blocks)) + [elem]
    {
      ghost var bs := Blocks;
      if Packed(bs, vector) {
        PackedPush(bs, vector, elem);
      }
      var size := Size();
      Insert(elem, size);
    }

    /** `remove(index)`: removes and returns offset `index % vector` of block `index / vector`. */
    method Remove(index: nat) returns (r: T)
      requires Valid() && Present(Blocks, vector, index)
      modifies Repr
      ensures Valid() && Repr == old(Repr) && vector == old(vector)
      ensures r == At(old(Blocks), vector, index)
      ensures Blocks == Removed(old(Blocks), vector, index)
    {
      var (b, off) := MakeIndice(index);
      var store := inner[b];
      r := store.Remove(off);
      Blocks := Blocks[b := store.Contents];
      forall c | 0 <= c < |inner|
        ensures inner[c].Repr == old(inner[c].Repr)
        ensures inner[c].Valid() && inner[c].Contents == Blocks[c]
      {
        if c != b {
          assert inner[c].Repr !! store.Repr;
        }
      }
    }
  }

  /** The `creation` test: blocks of 100, empty, then one element after one push. */
  method Creation() returns (before: nat, after: nat)
    ensures before == 0 && after == 1
  {
    var bytes := new MatrixArray<int>(100);
    before := bytes.Size();
    PackedPush(bytes.Blocks, 100, 42);
    bytes.Push(42);
    after := bytes.Size();
  }

  /** The `n` consecutive integers from `lo` on, as the `for i in lo..lo + n` loop pushes them. */
  function Upto(lo: int, n: nat): (r: seq<int>)
    ensures |r| == n && forall k :: 0 <= k < n ==> r[k] == lo + k
  {
    if n == 0 then [] else Upto(lo, n - 1) + [lo + n - 1]
  }

  /** The filling loop of `push_get_insert_remove`: blocks of 1 holding -42 .. 41. */
  method PushRange() returns (m: MatrixArray<int>)
    ensures fresh(m.Repr) && m.Valid() && m.vector == 1
    ensures Packed(m.Blocks, 1) && Flatten(m.Blocks) == Upto(-42, 84)
  {
    m := new MatrixArray<int>(1);
    var i := -42;
    while i < 42
      invariant -42 <= i <= 42
      invariant m.Valid() && fresh(m.Repr) && m.vector == 1
      invariant Packed(m.Blocks, 1)
      invariant Flatten(m.Blocks) == Upto(-42, i + 42)
    {
      PackedPush(m.Blocks, 1, i);
      m.Push(i);
      assert Upto(-42, i + 43) == Upto(-42, i + 42) + [i];
      i := i + 1;
    }
  }

  method PushGetInsertRemove() returns (size: nat, first: int, second: int, third: int)
    ensures size == 84 && first == 0 && second == 686 && third == 0
  {
    var m := PushRange();
    ghost var bs := m.Blocks;
    size := m.Size();
    PackedGet(bs, 1, 42);
    assert At(bs, 1, 42) == 0 by {
      assert Flatten(bs)[42] == Upto(-42, 84)[42];
    }
    first := m.Get(42);
    PackedInsertAllowed(bs, 1, 42);
    InsertThenRemove(bs, 1, 686, 42);
    m.Insert(686, 42);
    second := m.Get(42);
    var removed := m.Remove(42);
    assert m.Blocks == MadeRoom(bs, 1);
    assert Present(m.Blocks, 1, 42) && At(m.Blocks, 1, 42) == 0 by {
      MadeRoomKeeps(bs, 1);
      assert MadeRoom(bs, 1)[42] == bs[42];
    }
    third := m.Get(42);
  }
}
