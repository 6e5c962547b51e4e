/**
 * The abstract sequence operations that every container refines: insertion of one
 * element before position `i` and removal of the element at position `i`.
 */
module Sequences {

  /** `s` with `e` inserted so that it lands at position `i`. */
  function InsertAt<T>(s: seq<T>, i: nat, e: T): (r: seq<T>)
    requires i <= |s|
    ensures |r| == |s| + 1 && r[i] == e
    ensures forall k :: 0 <= k < i ==> r[k] == s[k]
    ensures forall k :: i < k < |r| ==> r[k] == s[k - 1]
  {
    s[..i] + [e] + s[i..]
  }

  /** `s` without its element at position `i`; later elements move one place left. */
  function RemoveAt<T>(s: seq<T>, i: nat): (r: seq<T>)
    requires i < |s|
    ensures |r| == |s| - 1
    ensures forall k :: 0 <= k < i ==> r[k] == s[k]
    ensures forall k :: i <= k < |r| ==> r[k] == s[k + 1]
  {
    s[..i] + s[i + 1..]
  }

  /** Inserting at the end is appending: `push(e)` is `insert(e, size())`. */
  lemma InsertAtEnd<T>(s: seq<T>, e: T)
    ensures InsertAt(s, |s|, e) == s + [e]
  {
    assert InsertAt(s, |s|, e) == s[..|s|] + [e] + s[|s|..];
    assert s[..|s|] == s && s[|s|..] == [];
  }

  /** Removing what was just inserted at the same position gives back the original sequence. */
  lemma RemoveInsert<T>(s: seq<T>, i: nat, e: T)
    requires i <= |s|
    ensures RemoveAt(InsertAt(s, i, e), i) == s
  {
    var r := RemoveAt(InsertAt(s, i, e), i);
    assert forall k :: 0 <= k < |s| ==> r[k] == s[k];
  }

  /** Inserting into the middle part of `pre + s + post` is inserting into the whole, `|pre|` further on. */
  lemma InsertAtFramed<T>(pre: seq<T>, s: seq<T>, post: seq<T>, i: nat, e: T)
    requires i <= |s|
    ensures pre + InsertAt(s, i, e) + post == InsertAt(pre + s + post, |pre| + i, e)
  {
    var whole := pre + s + post;
    assert whole[..|pre| + i] == pre + s[..i];
    assert whole[|pre| + i..] == s[i..] + post;
  }

  /** Removing from the middle part of `pre + s + post` is removing from the whole, `|pre|` further on. */
  lemma RemoveAtFramed<T>(pre: seq<T>, s: seq<T>, post: seq<T>, i: nat)
    requires i < |s|
    ensures (pre + s + post)[|pre| + i] == s[i]
    ensures pre + RemoveAt(s, i) + post == RemoveAt(pre + s + post, |pre| + i)
  {
    var whole := pre + s + post;
    assert whole[..|pre| + i] == pre + s[..i];
    assert whole[|pre| + i + 1..] == s[i + 1..] + post;
  }

  /** Slots that keep the prefix, hold `e` at `i` and the old tail one further on spell `InsertAt(s, i, e)`. */
  lemma InsertedSlots<T>(a: seq<T>, s: seq<T>, i: nat, e: T)
    requires i <= |s| < |a|
    requires forall k :: 0 <= k < i ==> a[k] == s[k]
    requires a[i] == e
    requires forall k :: i < k <= |s| ==> a[k] == s[k - 1]
    ensures a[..|s| + 1] == InsertAt(s, i, e)
  {
    var r := InsertAt(s, i, e);
    forall k | 0 <= k <= |s| ensures a[k] == r[k] {
      if k < i {
        assert r[k] == s[k];
      } else if k > i {
        assert r[k] == s[k - 1];
      }
    }
  }

  /** Slots that keep the prefix before `i` and hold the old tail one place earlier spell `RemoveAt(s, i)`. */
  lemma RemovedSlots<T>(a: seq<T>, s: seq<T>, i: nat)
    requires i < |s| <= |a| + 1
    requires forall k :: 0 <= k < i ==> a[k] == s[k]
    requires forall k :: i <= k < |s| - 1 ==> a[k] == s[k + 1]
    ensures a[..|s| - 1] == RemoveAt(s, i)
  {
    var r := RemoveAt(s, i);
    forall k | 0 <= k < |s| - 1 ensures a[k] == r[k] {
      if k < i {
        assert r[k] == s[k];
      } else {
        assert r[k] == s[k + 1];
      }
    }
  }

  /** A sequence is the part before position `i`, the element at `i` and the part after it. */
  lemma SplitAround<T>(s: seq<T>, i: nat)
    requires i < |s|
    ensures s == s[..i] + [s[i]] + s[i + 1..]
  {
  }

  /** Replacing the element at `n` leaves the part before `n` as it was. */
  lemma TakeUpdated<T>(s: seq<T>, n: nat, e: T)
    requires n < |s|
    ensures s[n := e][..n] == s[..n]
  {
  }
}
