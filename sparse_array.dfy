/**
 * `SparseArray<T>`: a logical sequence of length `len` in which every position reads as
 * `zero` except those stored, in increasing position order, as `(value, index)` entries of
 * `inner`. Only values different from `zero` are ever stored.
 *
 * `inner` is an `Array<Value<T>>` in the source, on which the code calls `insert(value, pos)`
 * and `remove(pos)`; here it is a sequence and those calls are sequence insertion and removal
 * at a position (InsertAt, RemoveAt), with the preconditions of `VectorArray`'s own
 * `insert` and `remove`.
 */
module SparseArrays {
  import opened Options
  import opened Sequences

  /** A stored entry: the value at logical position `index` (`Value` in the source). */
  datatype Value<T> = Value(value: T, index: nat)

  /** Entries strictly increasing by position. */
  ghost predicate Ordered<T>(es: seq<Value<T>>) {
    forall a, b :: 0 <= a < b < |es| ==> es[a].index < es[b].index
  }

  /** The representation invariant: ordered, inside the logical length, no stored `zero`. */
  ghost predicate WellFormed<T>(es: seq<Value<T>>, zero: T, len: nat) {
    Ordered(es) &&
    forall k :: 0 <= k < |es| ==> es[k].index < len && es[k].value != zero
  }

  /** `find_inner_value`: the first entry stored for position `index`, if any. */
  function FindInnerValue<T>(es: seq<Value<T>>, index: nat): (r: Option<Value<T>>)
    ensures r.Some? ==> r.value in es && r.value.index == index
    ensures r.Some? ==> PositionOf(es, index).Some? && r.value == es[PositionOf(es, index).value]
    ensures r.None? ==> forall k :: 0 <= k < |es| ==> es[k].index != index
  {
    if es == [] then None
    else if es[0].index == index then Some(es[0])
    else FindInnerValue(es[1..], index)
  }

  /** `inner.iter().position(..)`: the place in `es` of the first entry for position `index`. */
  function PositionOf<T>(es: seq<Value<T>>, index: nat): (r: Option<nat>)
    ensures r.Some? ==> r.value < |es| && es[r.value].index == index
    ensures r.Some? ==> forall k :: 0 <= k < r.value ==> es[k].index != index
    ensures r.None? ==> forall k :: 0 <= k < |es| ==> es[k].index != index
  {
    if es == [] then None
    else if es[0].index == index then Some(0)
    else match PositionOf(es[1..], index)
      case Some(p) => Some(p + 1)
      case None => None
  }

  /** What `get(index)` reads: the value of the entry for `index`, or `zero` when none is stored. */
  function Lookup<T>(es: seq<Value<T>>, zero: T, index: nat): (r: T)
    ensures (exists k :: 0 <= k < |es| && es[k].index == index && es[k].value == r) ||
            (r == zero && forall k :: 0 <= k < |es| ==> es[k].index != index)
  {
    match FindInnerValue(es, index)
    case Some(v) => v.value
    case None => zero
  }

  /** The logical sequence of length `len` that the entries stand for. */
  ghost function ViewOf<T>(es: seq<Value<T>>, zero: T, len: nat): seq<T> {
    seq(len, i requires 0 <= i < len => Lookup(es, zero, i))
  }

  /** `len` copies of `zero`: the positions a gap-creating insert leaves unset. */
  function Zeros<T>(zero: T, n: nat): (r: seq<T>)
    ensures |r| == n && forall k :: 0 <= k < n ==> r[k] == zero
  {
    seq(n, _ => zero)
  }

  /** The position of the first entry at or after logical position `index` (the scan of `inner_insert`). */
  function SplitPoint<T>(es: seq<Value<T>>, index: nat): (p: nat)
    ensures p <= |es|
    ensures forall k :: 0 <= k < p ==> es[k].index < index
    ensures p < |es| ==> es[p].index >= index
  {
    if es == [] || es[0].index >= index then 0 else 1 + SplitPoint(es[1..], index)
  }

  /** Every entry moved one position up (the `v.index += 1` loop). */
  function Bumped<T>(es: seq<Value<T>>): seq<Value<T>> {
    seq(|es|, k requires 0 <= k < |es| => es[k].(index := es[k].index + 1))
  }

  /** Every entry moved one position down (the `v.index -= 1` loop after a stored entry). */
  function Lowered<T>(es: seq<Value<T>>): seq<Value<T>>
    requires forall k :: 0 <= k < |es| ==> es[k].index > 0
  {
    seq(|es|, k requires 0 <= k < |es| => es[k].(index := es[k].index - 1))
  }

  /** Entries after logical position `index` moved one position down, the others kept. */
  function LoweredAbove<T>(es: seq<Value<T>>, index: nat): seq<Value<T>> {
    seq(|es|, k requires 0 <= k < |es| =>
      if es[k].index > index then es[k].(index := es[k].index - 1) else es[k])
  }

  /** The entries after `inner_insert(elem, index)`: later entries shifted up, `elem` stored unless it is `zero`. */
  function InnerInserted<T(==)>(es: seq<Value<T>>, zero: T, elem: T, index: nat): seq<Value<T>> {
    var p := SplitPoint(es, index);
    var shifted := es[..p] + Bumped(es[p..]);
    if zero != elem then InsertAt(shifted, p, Value(elem, index)) else shifted
  }

  /** The entries after an `insert(elem, index)` at or past the end: `elem` appended unless it is `zero`. */
  function Appended<T(==)>(es: seq<Value<T>>, zero: T, elem: T, index: nat): seq<Value<T>> {
    if zero != elem then es + [Value(elem, index)] else es
  }

  /** The entries after `remove(index)`: the stored entry (if any) dropped, later entries shifted down. */
  function InnerRemoved<T>(es: seq<Value<T>>, index: nat): seq<Value<T>>
    requires Ordered(es)
  {
    match PositionOf(es, index)
    case Some(p) =>
      assert forall k :: p + 1 <= k < |es| ==> es[k].index > es[p].index;
      es[..p] + Lowered(es[p + 1..])
    case None => LoweredAbove(es, index)
  }

  /** With ordered entries, the entry stored for a position is the one read there. */
  lemma {:induction false} LookupHit<T>(es: seq<Value<T>>, zero: T, k: nat)
    requires Ordered(es) && k < |es|
    ensures Lookup(es, zero, es[k].index) == es[k].value
  {
    if k > 0 {
      assert es[0].index < es[k].index;
      assert es[1..][k - 1] == es[k];
      LookupHit(es[1..], zero, k - 1);
    }
  }

  /** With no entry stored for a position, `zero` is read there. */
  lemma LookupMiss<T>(es: seq<Value<T>>, zero: T, j: nat)
    requires forall k :: 0 <= k < |es| ==> es[k].index != j
    ensures Lookup(es, zero, j) == zero
  {
  }

  /** In ordered entries, everything from the split point on is at or after `index`. */
  lemma SplitPointTail<T>(es: seq<Value<T>>, index: nat)
    requires Ordered(es)
    ensures forall k :: SplitPoint(es, index) <= k < |es| ==> es[k].index >= index
  {
    var p := SplitPoint(es, index);
    forall k | p <= k < |es| ensures es[k].index >= index {
      assert p == k || es[p].index < es[k].index;
    }
  }

  /**
   * `r` is `es` with the entries from place `p` on moved one position up and, when `n` is 1,
   * the entry for `elem` at `index` placed at `p`.
   */
  ghost predicate InsertShaped<T>(es: seq<Value<T>>, r: seq<Value<T>>, p: nat, n: nat, elem: T, index: nat) {
    p <= |es| && n <= 1 && |r| == |es| + n &&
    (forall m :: 0 <= m < p ==> r[m] == es[m]) &&
    (forall m :: p + n <= m < |r| ==> r[m] == es[m - n].(index := es[m - n].index + 1)) &&
    (n == 1 ==> r[p] == Value(elem, index))
  }

  /** Moving the entries from place `p` on one position up, with nothing inserted. */
  lemma ShiftedShape<T>(es: seq<Value<T>>, p: nat, elem: T, index: nat)
    requires p <= |es|
    ensures InsertShaped(es, es[..p] + Bumped(es[p..]), p, 0, elem, index)
  {
    var r := es[..p] + Bumped(es[p..]);
    assert forall m :: p <= m < |r| ==> r[m] == Bumped(es[p..])[m - p];
  }

  /** Inserting the new entry at the split point of a shifted sequence adds it in the gap. */
  lemma InsertedIntoShifted<T>(es: seq<Value<T>>, shifted: seq<Value<T>>, p: nat, elem: T, index: nat,
                               r: seq<Value<T>>)
    requires InsertShaped(es, shifted, p, 0, elem, index)
    requires r == InsertAt(shifted, p, Value(elem, index))
    ensures InsertShaped(es, r, p, 1, elem, index)
  {
    forall m | 0 <= m < p ensures r[m] == es[m] {
      assert r[m] == shifted[m];
    }
    forall m | p + 1 <= m < |r| ensures r[m] == es[m - 1].(index := es[m - 1].index + 1) {
      assert r[m] == shifted[m - 1];
    }
  }

  /** Both branches of `inner_insert` shape the entries as InsertShaped describes. */
  lemma InnerInsertedShape<T>(es: seq<Value<T>>, zero: T, elem: T, index: nat)
    ensures InsertShaped(es, InnerInserted(es, zero, elem, index), SplitPoint(es, index),
                         if zero != elem then 1 else 0, elem, index)
  {
    var p := SplitPoint(es, index);
    var shifted := es[..p] + Bumped(es[p..]);
    ShiftedShape(es, p, elem, index);
    if zero != elem {
      InsertedIntoShifted(es, shifted, p, elem, index, InnerInserted(es, zero, elem, index));
    }
  }

  /** Well-formedness half of the insertion refinement. */
  lemma InsertShapedWellFormed<T>(es: seq<Value<T>>, r: seq<Value<T>>, p: nat, n: nat,
                                  zero: T, len: nat, elem: T, index: nat)
    requires WellFormed(es, zero, len) && index < len
    requires InsertShaped(es, r, p, n, elem, index) && (n == 1 <==> elem != zero)
    requires forall k :: 0 <= k < p ==> es[k].index < index
    requires forall k :: p <= k < |es| ==> es[k].index >= index
    ensures WellFormed(r, zero, len + 1)
  {
    forall a, b | 0 <= a < b < |r| ensures r[a].index < r[b].index {
      if b < p {
      } else if a < p {
        assert r[a].index < index;
      } else if n == 1 && a == p {
      } else {
        assert es[a - n].index < es[b - n].index;
      }
    }
  }

  /** Positions before `index` read as before an insertion shaped as by `inner_insert`. */
  lemma InsertShapedBelow<T>(es: seq<Value<T>>, r: seq<Value<T>>, p: nat, n: nat,
                             zero: T, elem: T, index: nat, j: nat)
    requires Ordered(es) && Ordered(r) && j < index
    requires InsertShaped(es, r, p, n, elem, index)
    requires forall k :: p <= k < |es| ==> es[k].index >= index
    ensures Lookup(r, zero, j) == Lookup(es, zero, j)
  {
    if k :| 0 <= k < |es| && es[k].index == j {
      LookupHit(es, zero, k);
      LookupHit(r, zero, k);
    } else {
      LookupMiss(r, zero, j);
    }
  }

  /** Position `index` reads `elem` after an insertion shaped as by `inner_insert`. */
  lemma InsertShapedAtIndex<T>(es: seq<Value<T>>, r: seq<Value<T>>, p: nat, n: nat,
                               zero: T, elem: T, index: nat)
    requires Ordered(r)
    requires InsertShaped(es, r, p, n, elem, index) && (n == 1 <==> elem != zero)
    requires forall k :: 0 <= k < p ==> es[k].index < index
    requires forall k :: p <= k < |es| ==> es[k].index >= index
    ensures Lookup(r, zero, index) == elem
  {
    if n == 1 {
      LookupHit(r, zero, p);
    } else {
      LookupMiss(r, zero, index);
    }
  }

  /** Positions after `index` read what the position before them read before an insertion shaped as by `inner_insert`. */
  lemma InsertShapedAbove<T>(es: seq<Value<T>>, r: seq<Value<T>>, p: nat, n: nat,
                             zero: T, elem: T, index: nat, j: nat)
    requires Ordered(es) && Ordered(r) && j > index
    requires InsertShaped(es, r, p, n, elem, index)
    requires forall k :: 0 <= k < p ==> es[k].index < index
    ensures Lookup(r, zero, j) == Lookup(es, zero, j - 1)
  {
    if exists k :: 0 <= k < |es| && es[k].index == j - 1 {
      var k :| 0 <= k < |es| && es[k].index == j - 1;
      InsertShapedAboveHit(es, r, p, n, zero, elem, index, k);
    } else {
      InsertShapedAboveMiss(es, r, p, n, zero, elem, index, j);
    }
  }

  /** The entry stored at position `es[k].index` past `index` is read one position further on after the insertion. */
  lemma InsertShapedAboveHit<T>(es: seq<Value<T>>, r: seq<Value<T>>, p: nat, n: nat,
                                zero: T, elem: T, index: nat, k: nat)
    requires Ordered(es) && Ordered(r) && k < |es| && es[k].index >= index
    requires InsertShaped(es, r, p, n, elem, index)
    requires forall k :: 0 <= k < p ==> es[k].index < index
    ensures Lookup(r, zero, es[k].index + 1) == Lookup(es, zero, es[k].index)
  {
    assert k >= p;
    assert r[k + n] == es[k].(index := es[k].index + 1);
    LookupHit(es, zero, k);
    LookupHit(r, zero, k + n);
  }

  /** A position past `index` whose predecessor stored nothing stores nothing after the insertion. */
  lemma InsertShapedAboveMiss<T>(es: seq<Value<T>>, r: seq<Value<T>>, p: nat, n: nat,
                                 zero: T, elem: T, index: nat, j: nat)
    requires j > index
    requires InsertShaped(es, r, p, n, elem, index)
    requires forall k :: 0 <= k < p ==> es[k].index < index
    requires forall k :: 0 <= k < |es| ==> es[k].index != j - 1
    ensures Lookup(r, zero, j) == zero && Lookup(es, zero, j - 1) == zero
  {
    forall m | 0 <= m < |r| ensures r[m].index != j {
      if m >= p + n {
        assert es[m - n].index != j - 1;
      }
    }
    LookupMiss(r, zero, j);
    LookupMiss(es, zero, j - 1);
  }

  /** Entries shaped as by `inner_insert` stay well formed and read as the sequence with `elem` inserted. */
  lemma InsertShapedView<T>(es: seq<Value<T>>, r: seq<Value<T>>, p: nat, n: nat,
                            zero: T, len: nat, elem: T, index: nat)
    requires WellFormed(es, zero, len) && index < len
    requires InsertShaped(es, r, p, n, elem, index) && (n == 1 <==> elem != zero)
    requires forall k :: 0 <= k < p ==> es[k].index < index
    requires forall k :: p <= k < |es| ==> es[k].index >= index
    ensures WellFormed(r, zero, len + 1)
    ensures ViewOf(r, zero, len + 1) == InsertAt(ViewOf(es, zero, len), index, elem)
  {
    InsertShapedWellFormed(es, r, p, n, zero, len, elem, index);
    var v := ViewOf(es, zero, len);
    var w := InsertAt(v, index, elem);
    forall j | 0 <= j < len + 1 ensures ViewOf(r, zero, len + 1)[j] == w[j] {
      if j < index {
        InsertShapedBelow(es, r, p, n, zero, elem, index, j);
      } else if j == index {
        InsertShapedAtIndex(es, r, p, n, zero, elem, index);
      } else {
        InsertShapedAbove(es, r, p, n, zero, elem, index, j);
      }
    }
  }

  /**
   * `inner_insert(elem, index)` with `index < len` keeps the entries well formed, stores one
   * more entry exactly when `elem` is not `zero`, and acts on the logical sequence as an
   * insertion of `elem` at `index`.
   */
  lemma InnerInsertedView<T>(es: seq<Value<T>>, zero: T, len: nat, elem: T, index: nat)
    requires WellFormed(es, zero, len) && index < len
    ensures WellFormed(InnerInserted(es, zero, elem, index), zero, len + 1)
    ensures |InnerInserted(es, zero, elem, index)| == |es| + (if elem != zero then 1 else 0)
    ensures ViewOf(InnerInserted(es, zero, elem, index), zero, len + 1)
         == InsertAt(ViewOf(es, zero, len), index, elem)
  {
    InnerInsertedShape(es, zero, elem, index);
    SplitPointTail(es, index);
    InsertShapedView(es, InnerInserted(es, zero, elem, index), SplitPoint(es, index),
                     if zero != elem then 1 else 0, zero, len, elem, index);
  }

  /**
   * `r` is `es` with the entries from place `q` on moved one position down and, when `d` is 1,
   * the entry at place `q` (the one stored for `index`) dropped.
   */
  ghost predicate RemoveShaped<T>(es: seq<Value<T>>, r: seq<Value<T>>, q: nat, d: nat, index: nat) {
    q + d <= |es| && d <= 1 && |r| == |es| - d &&
    (forall k :: 0 <= k < q ==> es[k].index < index) &&
    (d == 1 ==> es[q].index == index) &&
    (forall k :: q + d <= k < |es| ==> es[k].index > index) &&
    (forall m :: 0 <= m < q ==> r[m] == es[m]) &&
    (forall m :: q <= m < |r| ==> r[m] == es[m + d].(index := es[m + d].index - 1))
  }

  /** In ordered entries, the entries before place `p` lie before its position and those after it after. */
  lemma OrderedAround<T>(es: seq<Value<T>>, p: nat)
    requires Ordered(es) && p < |es|
    ensures forall k :: 0 <= k < p ==> es[k].index < es[p].index
    ensures forall k :: p < k < |es| ==> es[k].index > es[p].index
  {
  }

  /** Dropping the entry at place `p` and moving the later ones down. */
  lemma DropLoweredShape<T>(es: seq<Value<T>>, p: nat, r: seq<Value<T>>)
    requires p < |es| && forall k :: p < k < |es| ==> es[k].index > 0
    requires r == es[..p] + Lowered(es[p + 1..])
    ensures |r| == |es| - 1
    ensures forall m :: 0 <= m < p ==> r[m] == es[m]
    ensures forall m :: p <= m < |r| ==> r[m] == es[m + 1].(index := es[m + 1].index - 1)
  {
    var low := Lowered(es[p + 1..]);
    forall m | p <= m < |r| ensures r[m] == es[m + 1].(index := es[m + 1].index - 1) {
      assert r[m] == low[m - p];
    }
  }

  /** `remove` of a stored position `index`, found at place `p`: the entry goes, later ones move down. */
  lemma RemovedShapeStored<T>(es: seq<Value<T>>, index: nat, p: nat)
    requires Ordered(es) && PositionOf(es, index) == Some(p)
    ensures RemoveShaped(es, InnerRemoved(es, index), p, 1, index)
  {
    OrderedAround(es, p);
    DropLoweredShape(es, p, InnerRemoved(es, index));
  }

  /** `remove` of a position with no stored entry: the entries above `index` move down, the others stay. */
  lemma RemovedShapeMissing<T>(es: seq<Value<T>>, index: nat)
    requires Ordered(es) && PositionOf(es, index).None?
    ensures RemoveShaped(es, InnerRemoved(es, index), SplitPoint(es, index), 0, index)
  {
    var r, q := InnerRemoved(es, index), SplitPoint(es, index);
    SplitPointTail(es, index);
    assert r == LoweredAbove(es, index);
    forall k | q <= k < |es| ensures es[k].index > index {
      assert es[k].index >= index && es[k].index != index;
    }
  }

  /** Both branches of `remove` shape the entries as RemoveShaped describes. */
  lemma InnerRemovedShape<T>(es: seq<Value<T>>, index: nat)
    requires Ordered(es)
    ensures PositionOf(es, index).Some? ==>
      RemoveShaped(es, InnerRemoved(es, index), PositionOf(es, index).value, 1, index)
    ensures PositionOf(es, index).None? ==>
      RemoveShaped(es, InnerRemoved(es, index), SplitPoint(es, index), 0, index)
  {
    match PositionOf(es, index)
    case Some(p) => RemovedShapeStored(es, index, p);
    case None => RemovedShapeMissing(es, index);
  }

  /** Well-formedness half of the removal refinement. */
  lemma RemoveShapedWellFormed<T>(es: seq<Value<T>>, r: seq<Value<T>>, q: nat, d: nat,
                                  zero: T, len: nat, index: nat)
    requires WellFormed(es, zero, len) && index < len
    requires RemoveShaped(es, r, q, d, index)
    ensures WellFormed(r, zero, len - 1)
  {
    forall a, b | 0 <= a < b < |r| ensures r[a].index < r[b].index {
      if b < q {
      } else if a < q {
        assert es[b + d].index > index;
      } else {
        assert es[a + d].index < es[b + d].index;
      }
    }
    forall m | 0 <= m < |r| ensures r[m].index < len - 1 {
      if m < q {
        assert es[m].index < index;
      }
    }
  }

  /** Positions before `index` read as before a removal shaped as by `remove`. */
  lemma RemoveShapedBelow<T>(es: seq<Value<T>>, r: seq<Value<T>>, q: nat, d: nat,
                             zero: T, index: nat, j: nat)
    requires Ordered(es) && Ordered(r) && j < index
    requires RemoveShaped(es, r, q, d, index)
    ensures Lookup(r, zero, j) == Lookup(es, zero, j)
  {
    if k :| 0 <= k < |es| && es[k].index == j {
      LookupHit(es, zero, k);
      LookupHit(r, zero, k);
    } else {
      LookupMiss(r, zero, j);
    }
  }

  /** Positions from `index` on read what the position after them read before a removal shaped as by `remove`. */
  lemma RemoveShapedAbove<T>(es: seq<Value<T>>, r: seq<Value<T>>, q: nat, d: nat,
                             zero: T, index: nat, j: nat)
    requires Ordered(es) && Ordered(r) && j >= index
    requires RemoveShaped(es, r, q, d, index)
    ensures Lookup(r, zero, j) == Lookup(es, zero, j + 1)
  {
    if k :| 0 <= k < |es| && es[k].index == j + 1 {
      LookupHit(es, zero, k);
      LookupHit(r, zero, k - d);
    } else {
      forall m | 0 <= m < |r| ensures r[m].index != j {
        if m >= q {
          assert es[m + d].index != j + 1;
        }
      }
      LookupMiss(r, zero, j);
      LookupMiss(es, zero, j + 1);
    }
  }

  /** Entries shaped as by `remove` stay well formed and read as the sequence without position `index`. */
  lemma RemoveShapedView<T>(es: seq<Value<T>>, r: seq<Value<T>>, q: nat, d: nat,
                            zero: T, len: nat, index: nat)
    requires WellFormed(es, zero, len) && index < len
    requires RemoveShaped(es, r, q, d, index)
    ensures WellFormed(r, zero, len - 1)
    ensures ViewOf(r, zero, len - 1) == RemoveAt(ViewOf(es, zero, len), index)
  {
    RemoveShapedWellFormed(es, r, q, d, zero, len, index);
    var w := RemoveAt(ViewOf(es, zero, len), index);
    forall j | 0 <= j < len - 1 ensures ViewOf(r, zero, len - 1)[j] == w[j] {
      if j < index {
        RemoveShapedBelow(es, r, q, d, zero, index, j);
      } else {
        RemoveShapedAbove(es, r, q, d, zero, index, j);
      }
    }
  }

  /**
   * `remove(index)` with `index < len` keeps the entries well formed, drops exactly the entry
   * stored for `index` if there is one, and acts on the logical sequence as a removal at `index`.
   */
  lemma InnerRemovedView<T>(es: seq<Value<T>>, zero: T, len: nat, index: nat)
    requires WellFormed(es, zero, len) && index < len
    ensures WellFormed(InnerRemoved(es, index), zero, len - 1)
    ensures |InnerRemoved(es, index)| == |es| - (if FindInnerValue(es, index).Some? then 1 else 0)
    ensures ViewOf(InnerRemoved(es, index), zero, len - 1) == RemoveAt(ViewOf(es, zero, len), index)
  {
    InnerRemovedShape(es, index);
    match PositionOf(es, index)
    case Some(p) =>
      RemoveShapedView(es, InnerRemoved(es, index), p, 1, zero, len, index);
    case None =>
      RemoveShapedView(es, InnerRemoved(es, index), SplitPoint(es, index), 0, zero, len, index);
  }

  /**
   * `insert(elem, index)` with `index >= len` keeps the entries well formed and reads as the old
   * sequence, then `zero` at every position up to `index`, then `elem` at `index`.
   */
  lemma AppendedView<T>(es: seq<Value<T>>, zero: T, len: nat, elem: T, index: nat)
    requires WellFormed(es, zero, len) && index >= len
    ensures WellFormed(Appended(es, zero, elem, index), zero, index + 1)
    ensures |Appended(es, zero, elem, index)| == |es| + (if elem != zero then 1 else 0)
    ensures ViewOf(Appended(es, zero, elem, index), zero, index + 1)
         == ViewOf(es, zero, len) + Zeros(zero, index - len) + [elem]
  {
    var r := Appended(es, zero, elem, index);
    var w := ViewOf(es, zero, len) + Zeros(zero, index - len) + [elem];
    forall j | 0 <= j < index + 1 ensures ViewOf(r, zero, index + 1)[j] == w[j] {
      if j < len {
        if k :| 0 <= k < |es| && es[k].index == j {
          LookupHit(es, zero, k);
          LookupHit(r, zero, k);
        } else {
          LookupMiss(r, zero, j);
        }
      } else if j < index {
        LookupMiss(r, zero, j);
      } else if elem != zero {
        LookupHit(r, zero, |es|);
      } else {
        LookupMiss(r, zero, j);
      }
    }
  }

  class SparseArray<T(==)> {
    /** The stored entries (`inner: Array<Value<T>>`). */
    var inner: seq<Value<T>>
    /** The value every unstored position reads as: the element type's `Default`. */
    var zero: T
    /** The logical length. */
    var len: nat

    ghost predicate Valid()
      reads this
    {
      WellFormed(inner, zero, len)
    }

    /** The logical sequence. */
    ghost function View(): seq<T>
      reads this
    {
      ViewOf(inner, zero, len)
    }

    /** `SparseArray::new`: length 0, nothing stored; `zero` is the element type's `Default` value. */
    constructor (zero: T)
      ensures Valid() && View() == []
      ensures inner == [] && len == 0 && this.zero == zero
    {
      inner := [];
      this.zero := zero;
      len := 0;
    }

    /** The logical length. */
    function Size(): (n: nat)
      reads this
      ensures n == |View()|
    {
      len
    }

    /** The value at `index`: the stored one, else `zero`, which is also what every position from `len` on reads. */
    function Get(index: nat): (r: T)
      reads this
      requires Valid()
      ensures index < len ==> r == View()[index]
      ensures index >= len ==> r == zero
    {
      Lookup(inner, zero, index)
    }

    /** Inserts inside the logical sequence (`index < len`): shifts the later entries up and stores `elem` unless it is `zero`. */
    method InnerInsert(elem: T, index: nat)
      requires Valid() && index < len
      modifies this
      ensures Valid() && zero == old(zero) && len == old(len) + 1
      ensures inner == InnerInserted(old(inner), zero, elem, index)
      ensures View() == InsertAt(old(View()), index, elem)
      ensures |inner| == old(|inner|) + (if elem != zero then 1 else 0)
    {
      InnerInsertedView(inner, zero, len, elem, index);
      var pos := ScanTo(inner, index);
      inner := ShiftUpFrom(inner, pos);
      len := len + 1;
      if zero != elem {
        inner := InsertAt(inner, pos, Value(elem, index));
      }
    }

    /**
     * Inserts `elem` at `index`. Inside the sequence this is a sequence insertion; at or past
     * the end the length becomes `index + 1` and the positions in between read `zero`.
     * Nothing is stored for `zero`.
     */
    method Insert(elem: T, index: nat)
      requires Valid()
      modifies this
      ensures Valid() && zero == old(zero)
      ensures len == if index < old(len) then old(len) + 1 else index + 1
      ensures index < old(len) ==> View() == InsertAt(old(View()), index, elem)
      ensures index >= old(len) ==> View() == old(View()) + Zeros(zero, index - old(len)) + [elem]
      ensures |inner| == old(|inner|) + (if elem != zero then 1 else 0)
      ensures inner == if index < old(len) then InnerInserted(old(inner), zero, elem, index)
                       else Appended(old(inner), zero, elem, index)
    {
      if index < len {
        InnerInsert(elem, index);
      } else {
        AppendedView(inner, zero, len, elem, index);
        len := index + 1;
        if zero != elem {
          inner := inner + [Value(elem, index)];
        }
      }
    }

    /** Appends `elem`: `insert(elem, len)`. */
    method Push(elem: T)
      requires Valid()
      modifies this
      ensures Valid() && zero == old(zero) && len == old(len) + 1
      ensures View() == old(View()) + [elem]
    {
      Insert(elem, len);
      assert Zeros(zero, 0) == [];
    }

    /**
     * Takes out position `index` (the source panics when `index >= len`) and returns what it
     * read: the stored value, or the `Default` value when nothing was stored there.
     */
    method Remove(index: nat) returns (r: T)
      requires Valid() && index < len
      modifies this
      ensures Valid() && zero == old(zero) && len == old(len) - 1
      ensures inner == InnerRemoved(old(inner), index)
      ensures r == old(View())[index]
      ensures View() == RemoveAt(old(View()), index)
    {
      ghost var es := inner;
      InnerRemovedView(es, zero, len, index);
      len := len - 1;
      match FindInnerValue(inner, index)
      case Some(_) =>
        var pos := PositionOf(inner, index).value;
        LookupHit(es, zero, pos);
        r := inner[pos].value;
        inner := RemoveAt(inner, pos);
        assert inner[pos..] == es[pos + 1..];
        inner := ShiftDownFrom(inner, pos);
      case None =>
        inner := ShiftDownAbove(inner, index);
        r := zero;
    }
  }

  /** The scan of `inner_insert`: skips the entries before logical position `index`. */
  method ScanTo<T>(es: seq<Value<T>>, index: nat) returns (pos: nat)
    ensures pos == SplitPoint(es, index)
  {
    pos := 0;
    while pos < |es| && index > es[pos].index
      invariant pos <= |es|
      invariant forall k :: 0 <= k < pos ==> es[k].index < index
    {
      pos := pos + 1;
    }
  }

  /** The `v.index += 1` loop over the entries from place `pos` on. */
  method ShiftUpFrom<T>(es: seq<Value<T>>, pos: nat) returns (r: seq<Value<T>>)
    requires pos <= |es|
    ensures r == es[..pos] + Bumped(es[pos..])
  {
    r := es;
    for k := pos to |r|
      invariant |r| == |es|
      invariant forall m :: 0 <= m < pos ==> r[m] == es[m]
      invariant forall m :: pos <= m < k ==> r[m] == es[m].(index := es[m].index + 1)
      invariant forall m :: k <= m < |r| ==> r[m] == es[m]
    {
      r := r[k := r[k].(index := r[k].index + 1)];
    }
  }

  /** The `v.index -= 1` loop over the entries from place `pos` on, after the removed entry. */
  method ShiftDownFrom<T>(es: seq<Value<T>>, pos: nat) returns (r: seq<Value<T>>)
    requires pos <= |es|
    requires forall k :: pos <= k < |es| ==> es[k].index > 0
    ensures r == es[..pos] + Lowered(es[pos..])
  {
    r := es;
    for k := pos to |r|
      invariant |r| == |es|
      invariant forall m :: 0 <= m < pos ==> r[m] == es[m]
      invariant forall m :: pos <= m < k ==> r[m] == es[m].(index := es[m].index - 1)
      invariant forall m :: k <= m < |r| ==> r[m] == es[m]
    {
      r := r[k := r[k].(index := r[k].index - 1)];
    }
  }

  /** The loop of `remove` when nothing is stored for `index`: every later position moves down. */
  method ShiftDownAbove<T>(es: seq<Value<T>>, index: nat) returns (r: seq<Value<T>>)
    ensures r == LoweredAbove(es, index)
  {
    r := es;
    for k := 0 to |r|
      invariant |r| == |es|
      invariant forall m :: 0 <= m < k ==> r[m] == LoweredAbove(es, index)[m]
      invariant forall m :: k <= m < |r| ==> r[m] == es[m]
    {
      if r[k].index > index {
        r := r[k := r[k].(index := r[k].index - 1)];
      }
    }
  }

  /**
   * The inserts of the `it_works` test on a `u8` sparse array (zero 0), as the entries they
   * leave: inserting 0 at 42 (length 43) stores nothing; 1 at 28 (length 44); 2 at 43
   * (length 45); 3 at 42 moves the entry of 2 to 44 (length 46); 4 at 105 is past the end
   * (length 106).
   */
  lemma ItWorksInserts()
    ensures Appended([], 0, 0, 42) == []
    ensures InnerInserted([], 0, 1, 28) == [Value(1, 28)]
    ensures InnerInserted([Value(1, 28)], 0, 2, 43) == [Value(1, 28), Value(2, 43)]
    ensures InnerInserted([Value(1, 28), Value(2, 43)], 0, 3, 42)
         == [Value(1, 28), Value(3, 42), Value(2, 44)]
    ensures Appended([Value(1, 28), Value(3, 42), Value(2, 44)], 0, 4, 105)
         == [Value(1, 28), Value(3, 42), Value(2, 44), Value(4, 105)]
  {
    assert SplitPoint([Value(1, 28)], 43) == 1;
    assert SplitPoint([Value(1, 28), Value(2, 43)], 42) == 1;
  }

  /** The reads of the `it_works` test after its inserts: 23, 28, 44, 42 and 45 read 0, 1, 2, 3 and 0. */
  lemma ItWorksReads()
    ensures var es := [Value(1, 28), Value(3, 42), Value(2, 44), Value(4, 105)];
      [Lookup(es, 0, 23), Lookup(es, 0, 28), Lookup(es, 0, 44), Lookup(es, 0, 42), Lookup(es, 0, 45)]
      == [0, 1, 2, 3, 0]
  {
    var es := [Value(1, 28), Value(3, 42), Value(2, 44), Value(4, 105)];
    LookupHit(es, 0, 0);
    LookupHit(es, 0, 1);
    LookupHit(es, 0, 2);
  }

  /** The first remove of the `it_works` test: nothing is stored at 55, and only 105 lies above it. */
  lemma ItWorksRemoveFirst()
    ensures InnerRemoved([Value(1, 28), Value(3, 42), Value(2, 44), Value(4, 105)], 55)
         == [Value(1, 28), Value(3, 42), Value(2, 44), Value(4, 104)]
  {
    assert PositionOf([Value(1, 28), Value(3, 42), Value(2, 44), Value(4, 105)], 55) == None;
  }

  /** The second remove of the `it_works` test: nothing is stored at 33, so 42, 44 and 104 move down. */
  lemma ItWorksRemoveSecond()
    ensures InnerRemoved([Value(1, 28), Value(3, 42), Value(2, 44), Value(4, 104)], 33)
         == [Value(1, 28), Value(3, 41), Value(2, 43), Value(4, 103)]
  {
    assert PositionOf([Value(1, 28), Value(3, 42), Value(2, 44), Value(4, 104)], 33) == None;
  }

  /** The third remove of the `it_works` test: 41 holds 3 and stays, 43 and 103 move down. */
  lemma ItWorksRemoveThird()
    ensures InnerRemoved([Value(1, 28), Value(3, 41), Value(2, 43), Value(4, 103)], 42)
         == [Value(1, 28), Value(3, 41), Value(2, 42), Value(4, 102)]
  {
    assert PositionOf([Value(1, 28), Value(3, 41), Value(2, 43), Value(4, 103)], 42) == None;
  }

  /** The last remove of the `it_works` test: removing 28 drops the entry of 1 and moves the others down. */
  lemma ItWorksRemoveStored()
    ensures InnerRemoved([Value(1, 28), Value(3, 41), Value(2, 42), Value(4, 102)], 28)
         == [Value(3, 40), Value(2, 41), Value(4, 101)]
  {
    assert PositionOf([Value(1, 28), Value(3, 41), Value(2, 42), Value(4, 102)], 28) == Some(0);
  }

  /** The reads of the `it_works` test after its removes: 41, 40 and 101 read 2, 3 and 4. */
  lemma ItWorksReadsAfterRemoves()
    ensures var es := [Value(3, 40), Value(2, 41), Value(4, 101)];
      [Lookup(es, 0, 41), Lookup(es, 0, 40), Lookup(es, 0, 101)] == [2, 3, 4]
  {
    var es := [Value(3, 40), Value(2, 41), Value(4, 101)];
    LookupHit(es, 0, 0);
    LookupHit(es, 0, 1);
    LookupHit(es, 0, 2);
  }
}
