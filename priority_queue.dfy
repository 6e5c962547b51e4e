/**
 * `PriorityQueue<T>`: buckets of one priority each, kept in strictly descending priority
 * order, each bucket a LIFO `Stack` over the doubling `Array`. `dequeue` pops the top of the
 * LAST bucket, which in a descending list is the LOWEST priority present.
 *
 * The queue's own buffer of buckets is a sequence here; the spec functions below give what
 * `enqueue` and `dequeue` do to the abstract list of buckets.
 */
module PriorityQueues {
  import opened Options
  import opened Sequences
  import Arrays

  /** One bucket as the queue sees it: its priority and its stack's items, bottom first. */
  datatype Bucket<T> = Bucket(priority: int, items: seq<T>)

  /** The priorities of the buckets, in queue order. */
  function PrioritiesOf<T>(bs: seq<Bucket<T>>): (ps: seq<int>)
    ensures |ps| == |bs| && forall k :: 0 <= k < |bs| ==> ps[k] == bs[k].priority
  {
    seq(|bs|, k requires 0 <= k < |bs| => bs[k].priority)
  }

  /** Buckets in strictly descending priority order (so priorities are distinct). */
  ghost predicate Descending<T>(bs: seq<Bucket<T>>) {
    forall i, j :: 0 <= i < j < |bs| ==> bs[i].priority > bs[j].priority
  }

  /** No bucket is empty. */
  ghost predicate NoneEmpty<T>(bs: seq<Bucket<T>>) {
    forall i :: 0 <= i < |bs| ==> bs[i].items != []
  }

  /** The shape `enqueue` and `dequeue` keep. */
  ghost predicate Shaped<T>(bs: seq<Bucket<T>>) {
    Descending(bs) && NoneEmpty(bs)
  }

  /** `find_priority_position`: the first position holding priority `p`, if any. */
  function Find(ps: seq<int>, p: int): (r: Option<nat>)
    ensures r.Some? ==> r.value < |ps| && ps[r.value] == p && forall k :: 0 <= k < r.value ==> ps[k] != p
    ensures r.None? ==> forall k :: 0 <= k < |ps| ==> ps[k] != p
  {
    if ps == [] then None
    else if ps[0] == p then Some(0)
    else match Find(ps[1..], p)
      case None => None
      case Some(i) => Some(i + 1)
  }

  /** The result of `get_position_for_new_priority`: the first position whose priority is not above `p`. */
  function Slot(ps: seq<int>, p: int): (r: nat)
    ensures r <= |ps|
    ensures forall k :: 0 <= k < r ==> ps[k] > p
    ensures r < |ps| ==> ps[r] <= p
  {
    if ps == [] || ps[0] <= p then 0 else 1 + Slot(ps[1..], p)
  }

  /** The buckets after `enqueue(p, x)`: `x` goes on top of the bucket for `p`, created at its slot when missing. */
  function Enqueued<T>(bs: seq<Bucket<T>>, p: int, x: T): seq<Bucket<T>> {
    match Find(PrioritiesOf(bs), p)
    case Some(i) => bs[i := Bucket(p, bs[i].items + [x])]
    case None => InsertAt(bs, Slot(PrioritiesOf(bs), p), Bucket(p, [x]))
  }

  /** A stack pop: the top item (nothing when empty) and the items below it. */
  function PopItem<T>(items: seq<T>): (Option<T>, seq<T>) {
    if items == [] then (None, items) else (Some(items[|items| - 1]), items[..|items| - 1])
  }

  /** A stack pop on one bucket. */
  function PopTop<T>(b: Bucket<T>): (Option<T>, Bucket<T>) {
    (PopItem(b.items).0, Bucket(b.priority, PopItem(b.items).1))
  }

  /** The result and the buckets after `dequeue()`: pop the last bucket, drop it once empty. */
  function Dequeued<T>(bs: seq<Bucket<T>>): (Option<T>, seq<Bucket<T>>) {
    if bs == [] then (None, bs)
    else
      var n := |bs| - 1;
      var (r, top) := PopTop(bs[n]);
      (r, if top.items == [] then bs[..n] else bs[n := top])
  }

  /** The buckets after enqueueing each `(priority, item)` pair in turn. */
  function EnqueuedAll<T>(bs: seq<Bucket<T>>, pairs: seq<(int, T)>): seq<Bucket<T>> {
    if pairs == [] then bs
    else
      var n := |pairs| - 1;
      Enqueued(EnqueuedAll(bs, pairs[..n]), pairs[n].0, pairs[n].1)
  }

  /** Everything queued, as a multiset. */
  function Content<T>(bs: seq<Bucket<T>>): multiset<T> {
    if bs == [] then multiset{} else Content(bs[..|bs| - 1]) + multiset(bs[|bs| - 1].items)
  }

  /** `s` back to front. */
  function Reversed<T>(s: seq<T>): (r: seq<T>)
    ensures |r| == |s| && forall k :: 0 <= k < |s| ==> r[k] == s[|s| - 1 - k]
  {
    if s == [] then [] else [s[|s| - 1]] + Reversed(s[..|s| - 1])
  }

  /** The order a full drain serves items in: buckets from the last to the first, each top first. */
  function Serving<T>(bs: seq<Bucket<T>>): seq<T> {
    if bs == [] then [] else Reversed(bs[|bs| - 1].items) + Serving(bs[..|bs| - 1])
  }

  lemma {:induction false} ContentAppend<T>(a: seq<Bucket<T>>, c: seq<Bucket<T>>)
    ensures Content(a + c) == Content(a) + Content(c)
  {
    if c == [] {
      assert a + c == a;
    } else {
      var n := |c| - 1;
      assert (a + c)[..|a + c| - 1] == a + c[..n];
      ContentAppend(a, c[..n]);
    }
  }

  lemma ContentSingle<T>(b: Bucket<T>)
    ensures Content([b]) == multiset(b.items)
  {
    assert [b][..0] == [];
  }

  /** The contents split around bucket `i`. */
  lemma ContentAround<T>(bs: seq<Bucket<T>>, i: nat)
    requires i < |bs|
    ensures Content(bs) == Content(bs[..i]) + multiset(bs[i].items) + Content(bs[i + 1..])
  {
    var pre, post := bs[..i], bs[i + 1..];
    SplitAround(bs, i);
    ContentSplit(pre, bs[i], post);
  }

  /** The contents of the buckets before, at and after one bucket. */
  lemma ContentSplit<T>(pre: seq<Bucket<T>>, b: Bucket<T>, post: seq<Bucket<T>>)
    ensures Content(pre + [b] + post) == Content(pre) + multiset(b.items) + Content(post)
  {
    ContentAppend(pre + [b], post);
    ContentAppend(pre, [b]);
    ContentSingle(b);
  }

  /** Inserting a bucket adds its items to the contents. */
  lemma ContentInsert<T>(bs: seq<Bucket<T>>, i: nat, b: Bucket<T>)
    requires i <= |bs|
    ensures Content(InsertAt(bs, i, b)) == Content(bs) + multiset(b.items)
  {
    assert bs == bs[..i] + bs[i..];
    assert InsertAt(bs, i, b) == bs[..i] + [b] + bs[i..];
    ContentAppend(bs[..i], bs[i..]);
    ContentAppend(bs[..i] + [b], bs[i..]);
    ContentAppend(bs[..i], [b]);
    ContentSingle(b);
  }

  /** `enqueue(p, x)` adds exactly `x`. */
  lemma EnqueueContent<T>(bs: seq<Bucket<T>>, p: int, x: T)
    ensures Content(Enqueued(bs, p, x)) == Content(bs) + multiset{x}
  {
    var f := Find(PrioritiesOf(bs), p);
    if f.Some? {
      var i := f.value;
      var b := Bucket(p, bs[i].items + [x]);
      var r := bs[i := b];
      assert Enqueued(bs, p, x) == r;
      ContentAround(bs, i);
      ContentAround(r, i);
      assert r[..i] == bs[..i] && r[i + 1..] == bs[i + 1..];
      assert multiset(b.items) == multiset(bs[i].items) + multiset{x};
    } else {
      var b := Bucket(p, [x]);
      assert Enqueued(bs, p, x) == InsertAt(bs, Slot(PrioritiesOf(bs), p), b);
      ContentInsert(bs, Slot(PrioritiesOf(bs), p), b);
    }
  }

  /** `enqueue(p, x)` keeps the buckets in strictly descending priority order. */
  lemma EnqueueDescending<T>(bs: seq<Bucket<T>>, p: int, x: T)
    requires Descending(bs)
    ensures Descending(Enqueued(bs, p, x))
  {
    var ps := PrioritiesOf(bs);
    if Find(ps, p).None? {
      var s := Slot(ps, p);
      var r := InsertAt(bs, s, Bucket(p, [x]));
      assert forall k :: 0 <= k < s ==> bs[k].priority > p;
      assert forall k :: s <= k < |bs| ==> bs[k].priority < p by {
        forall k | s <= k < |bs|
          ensures bs[k].priority < p
        {
          assert ps[k] != p && ps[s] <= p;
        }
      }
      forall a, b | 0 <= a < b < |r|
        ensures r[a].priority > r[b].priority
      {
        if b < s {
          assert r[a] == bs[a] && r[b] == bs[b];
        } else if b == s {
          assert r[a] == bs[a];
        } else if a < s {
          assert r[a] == bs[a] && r[b] == bs[b - 1];
        } else if a == s {
          assert r[b] == bs[b - 1];
        } else {
          assert r[a] == bs[a - 1] && r[b] == bs[b - 1];
        }
      }
    }
  }

  /** `enqueue(p, x)` keeps every bucket non-empty. */
  lemma EnqueueNoneEmpty<T>(bs: seq<Bucket<T>>, p: int, x: T)
    requires NoneEmpty(bs)
    ensures NoneEmpty(Enqueued(bs, p, x))
  {
  }

  /** After `enqueue(p, x)` there is a bucket for `p`, and `x` is on top of the first one. */
  lemma EnqueueOnTop<T>(bs: seq<Bucket<T>>, p: int, x: T)
    ensures Find(PrioritiesOf(Enqueued(bs, p, x)), p).Some?
    ensures var i := Find(PrioritiesOf(Enqueued(bs, p, x)), p).value;
      Enqueued(bs, p, x)[i].items != [] && Enqueued(bs, p, x)[i].items[|Enqueued(bs, p, x)[i].items| - 1] == x
  {
    var r := Enqueued(bs, p, x);
    var ps := PrioritiesOf(bs);
    match Find(ps, p)
    case Some(i) =>
      assert PrioritiesOf(r) == ps;
    case None =>
      var s := Slot(ps, p);
      assert r[s] == Bucket(p, [x]);
      assert forall k :: 0 <= k < s ==> r[k].priority > p;
      var f := Find(PrioritiesOf(r), p);
      assert f.Some? && f.value == s by {
        assert PrioritiesOf(r)[s] == p;
      }
  }

  /** On shaped buckets `dequeue()` gives nothing exactly when the queue is empty, and otherwise the top of the lowest-priority bucket. */
  lemma DequeueLowest<T>(bs: seq<Bucket<T>>)
    requires Shaped(bs)
    ensures Dequeued(bs).0.None? <==> bs == []
    ensures bs != [] ==> forall k :: 0 <= k < |bs| ==> bs[k].priority >= bs[|bs| - 1].priority
    ensures bs != [] ==> Dequeued(bs).0 == Some(bs[|bs| - 1].items[|bs[|bs| - 1].items| - 1])
  {
  }

  /** `dequeue()` keeps the buckets descending and non-empty. */
  lemma DequeueShape<T>(bs: seq<Bucket<T>>)
    requires Shaped(bs)
    ensures Shaped(Dequeued(bs).1)
  {
  }

  /** `dequeue()` takes out exactly the item it returns (nothing when the last bucket is empty or missing). */
  lemma DequeueContent<T>(bs: seq<Bucket<T>>)
    ensures Dequeued(bs).0.None? ==> Content(Dequeued(bs).1) == Content(bs)
    ensures Dequeued(bs).0.Some? ==> Content(Dequeued(bs).1) + multiset{Dequeued(bs).0.value} == Content(bs)
    ensures bs != [] && Dequeued(bs).0.None? ==> |Dequeued(bs).1| < |bs|
  {
    if bs != [] {
      var n := |bs| - 1;
      var top := bs[n];
      if top.items != [] {
        var rest := top.items[..|top.items| - 1];
        assert top.items == rest + [top.items[|top.items| - 1]];
        if rest != [] {
          assert bs[n := Bucket(top.priority, rest)][..n] == bs[..n];
        }
      }
    }
  }

  /** In descending buckets whose priorities are all at least `p`, a bucket of priority `p` can only be the last. */
  lemma OnlyLastAtFloor<T>(bs: seq<Bucket<T>>, p: int, i: nat)
    requires Descending(bs) && i < |bs| && bs[i].priority == p
    requires forall k :: 0 <= k < |bs| ==> bs[k].priority >= p
    ensures i == |bs| - 1
  {
    assert forall k :: 0 <= k < |bs| - 1 ==> bs[k].priority > bs[|bs| - 1].priority;
  }

  /** Pushing onto the last bucket and popping it again gives the pushed item back and the buckets unchanged. */
  lemma PushPopLast<T>(bs: seq<Bucket<T>>, x: T)
    requires bs != [] && bs[|bs| - 1].items != []
    ensures var n := |bs| - 1;
      Dequeued(bs[n := Bucket(bs[n].priority, bs[n].items + [x])]) == (Some(x), bs)
  {
    var n := |bs| - 1;
    var items := bs[n].items;
    var r := bs[n := Bucket(bs[n].priority, items + [x])];
    assert (items + [x])[..|items|] == items;
    assert r[n := Bucket(bs[n].priority, items)] == bs;
  }

  /** LIFO: an item enqueued at a priority no higher than any present is the next one out, and the queue is back as it was. */
  lemma EnqueueThenDequeue<T>(bs: seq<Bucket<T>>, p: int, x: T)
    requires Shaped(bs)
    requires forall k :: 0 <= k < |bs| ==> bs[k].priority >= p
    ensures Dequeued(Enqueued(bs, p, x)) == (Some(x), bs)
  {
    var ps := PrioritiesOf(bs);
    var f := Find(ps, p);
    if f.Some? {
      OnlyLastAtFloor(bs, p, f.value);
      PushPopLast(bs, x);
    } else {
      assert Slot(ps, p) == |bs|;
      InsertAtEnd(bs, Bucket(p, [x]));
      assert (bs + [Bucket(p, [x])])[..|bs|] == bs;
    }
  }

  /**
   * Every item successive `dequeue()` calls return. On a well-shaped queue (ServingShapedStep)
   * `dequeue()` returns nothing only once the queue is empty, so this is what a loop collects
   * until its first `None`; on other bucket lists an empty last bucket is skipped over.
   */
  function Drain<T>(bs: seq<Bucket<T>>): (r: seq<T>)
    ensures multiset(r) == Content(bs)
    decreases |Content(bs)|, |bs|
  {
    if bs == [] then []
    else
      DequeueContent(bs);
      match Dequeued(bs)
      case (None, rest) => Drain(rest)
      case (Some(x), rest) => [x] + Drain(rest)
  }

  /** One `dequeue()` step of a drain. */
  lemma DrainStep<T>(bs: seq<Bucket<T>>)
    requires bs != []
    ensures Dequeued(bs).0.None? ==> Drain(bs) == Drain(Dequeued(bs).1)
    ensures Dequeued(bs).0.Some? ==> Drain(bs) == [Dequeued(bs).0.value] + Drain(Dequeued(bs).1)
  {
  }

  /** On a well-shaped queue, `dequeue()` returns nothing only when the queue is empty, and otherwise
      returns the head of the serving order while keeping the shape. */
  lemma ServingShapedStep<T>(bs: seq<Bucket<T>>)
    requires Shaped(bs)
    ensures Shaped(Dequeued(bs).1)
    ensures Dequeued(bs).0.None? <==> bs == []
    ensures Dequeued(bs).0.None? ==> Dequeued(bs).1 == []
    ensures Dequeued(bs).0.Some? ==> Serving(bs) == [Dequeued(bs).0.value] + Serving(Dequeued(bs).1)
  {
    DequeueShape(bs);
    if bs != [] {
      assert bs[|bs| - 1].items != [];
      ServingStep(bs);
    }
  }

  /** One `dequeue()` step of the serving order. */
  lemma ServingStep<T>(bs: seq<Bucket<T>>)
    requires bs != []
    ensures Dequeued(bs).0.None? ==> Serving(bs) == Serving(Dequeued(bs).1)
    ensures Dequeued(bs).0.Some? ==> Serving(bs) == [Dequeued(bs).0.value] + Serving(Dequeued(bs).1)
  {
    var n := |bs| - 1;
    var top := bs[n];
    assert Serving(bs) == Reversed(top.items) + Serving(bs[..n]);
    if top.items != [] {
      var m := |top.items| - 1;
      var rest := top.items[..m];
      assert Reversed(top.items) == [top.items[m]] + Reversed(rest);
      if rest != [] {
        var after := bs[n := Bucket(top.priority, rest)];
        assert after[..n] == bs[..n];
        assert Serving(after) == Reversed(rest) + Serving(bs[..n]);
      }
    }
  }

  /** Draining serves the buckets from the last (lowest priority) to the first, each top first. */
  lemma {:induction false} DrainServes<T>(bs: seq<Bucket<T>>)
    ensures Drain(bs) == Serving(bs)
    decreases |Content(bs)|, |bs|
  {
    if bs != [] {
      DequeueContent(bs);
      DrainServes(Dequeued(bs).1);
      DrainStep(bs);
      ServingStep(bs);
    }
  }

  /** `Stack<T>`: a LIFO over the doubling `Array`; `Items` lists its elements bottom first. */
  class Stack<T(0)> {
    var inner: Arrays.Array<T>

    ghost var Items: seq<T>
    ghost var Repr: set<object>

    ghost predicate Valid()
      reads this, Repr
      ensures Valid() ==> this in Repr
    {
      this in Repr && inner in Repr && inner.Repr <= Repr && this !in inner.Repr &&
      inner.Valid() && Items == inner.Contents
    }

    /** `Stack::new`. */
    constructor ()
      ensures Valid() && fresh(Repr) && Items == []
    {
      inner := new Arrays.Array<T>();
      Items := [];
      new;
      Repr := {this} + inner.Repr;
    }

    /** `is_empty`. */
    function IsEmpty(): (r: bool)
      reads Repr
      requires Valid()
      ensures r <==> Items == []
    {
      inner.len == 0
    }

    /** `push`: `elem` becomes the top. */
    method Push(elem: T)
      requires Valid()
      modifies Repr
      ensures Valid() && fresh(Repr - old(Repr))
      ensures Items == old(Items) + [elem]
    {
      inner.Push(elem);
      Items := inner.Contents;
      Repr := Repr + inner.Repr;
    }

    /** `pop`: the top, taken off; nothing when empty. */
    method Pop() returns (r: Option<T>)
      requires Valid()
      modifies Repr
      ensures Valid() && Repr == old(Repr)
      ensures (r, Items) == PopItem(old(Items))
    {
      r := inner.Pop();
      Items := inner.Contents;
    }
  }

  /** `Priority<T>`: a priority and its own stack, held inline in the queue's buffer. */
  datatype Priority<T(0)> = Priority(priority: int, stack: Stack<T>)

  /** `Priority::new(p)`: priority `p` with a fresh empty stack. */
  method NewPriority<T(0)>(p: int) returns (r: Priority<T>)
    ensures r.priority == p && r.stack.Valid() && fresh(r.stack.Repr) && r.stack.Items == []
  {
    var stack := new Stack<T>();
    r := Priority(p, stack);
  }

  /** Inserting a bucket whose stack shares no object with the others keeps the stacks pairwise apart. */
  lemma InsertKeepsApart<T(0)>(oq: seq<Priority<T>>, pos: nat, bucket: Priority<T>, q: seq<Priority<T>>)
    requires pos <= |oq| && q == InsertAt(oq, pos, bucket)
    requires forall b, c :: 0 <= b < c < |oq| ==> oq[b].stack.Repr !! oq[c].stack.Repr
    requires forall b :: 0 <= b < |oq| ==> bucket.stack.Repr !! oq[b].stack.Repr
    ensures forall b, c :: 0 <= b < c < |q| ==> q[b].stack.Repr !! q[c].stack.Repr
  {
    forall b, c | 0 <= b < c < |q|
      ensures q[b].stack.Repr !! q[c].stack.Repr
    {
      var b', c' := if b < pos then b else b - 1, if c < pos then c else c - 1;
      if b == pos {
        assert q[c] == oq[c'];
      } else if c == pos {
        assert q[b] == oq[b'];
      } else {
        assert q[b] == oq[b'] && q[c] == oq[c'] && b' < c';
      }
    }
  }

  /** Dropping buckets from the end keeps the remaining stacks pairwise apart. */
  lemma PrefixKeepsApart<T(0)>(q: seq<Priority<T>>, n: nat)
    requires n <= |q|
    requires forall b, c :: 0 <= b < c < |q| ==> q[b].stack.Repr !! q[c].stack.Repr
    ensures forall b, c :: 0 <= b < c < n ==> q[..n][b].stack.Repr !! q[..n][c].stack.Repr
  {
    forall b, c | 0 <= b < c < n
      ensures q[..n][b].stack.Repr !! q[..n][c].stack.Repr
    {
      assert q[..n][b] == q[b] && q[..n][c] == q[c];
    }
  }

  /**
   * The queue. `queue` holds the buckets in order (the outer buffer is a sequence here);
   * `Buckets` is what each holds and `Repr` the stacks' footprints, kept pairwise disjoint.
   */
  class PriorityQueue<T(0)> {
    var queue: seq<Priority<T>>

    ghost var Buckets: seq<Bucket<T>>
    ghost var Repr: set<object>

    ghost predicate Valid()
      reads this, Repr
      ensures Valid() ==> this in Repr
    {
      this in Repr && |Buckets| == |queue| &&
      (forall b :: 0 <= b < |queue| ==>
        queue[b].stack in Repr && queue[b].stack.Repr <= Repr && this !in queue[b].stack.Repr) &&
      (forall b, c :: 0 <= b < c < |queue| ==> queue[b].stack.Repr !! queue[c].stack.Repr) &&
      (forall b :: 0 <= b < |queue| ==>
        queue[b].stack.Valid() && Buckets[b] == Bucket(queue[b].priority, queue[b].stack.Items))
    }

    /** `PriorityQueue::new` (and `default`): no buckets. */
    constructor ()
      ensures Valid() && fresh(Repr) && Buckets == []
    {
      queue := [];
      Buckets := [];
      Repr := {this};
    }

    /** The priorities in queue order. */
    function Priorities(): (ps: seq<int>)
      reads this
      ensures |ps| == |queue| && forall k :: 0 <= k < |queue| ==> ps[k] == queue[k].priority
    {
      seq(|queue|, k requires 0 <= k < |queue| reads this => queue[k].priority)
    }

    /** `get_position_for_new_priority`: scans past every priority above `p`. */
    method GetPositionForNewPriority(p: int) returns (pos: nat)
      ensures pos == Slot(Priorities(), p)
    {
      var ps := Priorities();
      pos := 0;
      while pos < |queue| && queue[pos].priority > p
        invariant pos <= |queue|
        invariant forall k :: 0 <= k < pos ==> ps[k] > p
      {
        pos := pos + 1;
      }
      SlotUnique(ps, p, pos);
    }

    /** `insert_new_priority`: an empty bucket for `p` at its slot. */
    method InsertNewPriority(p: int) returns (pos: nat)
      requires Valid()
      modifies Repr
      ensures Valid() && fresh(Repr - old(Repr))
      ensures pos == Slot(PrioritiesOf(old(Buckets)), p)
      ensures Buckets == InsertAt(old(Buckets), pos, Bucket(p, []))
    {
      assert Priorities() == PrioritiesOf(Buckets);
      pos := GetPositionForNewPriority(p);
      var bucket := NewPriority(p);
      InsertBucket(pos, bucket);
    }

    /** The buffer insert of `insert_new_priority`: `bucket`, with its own stack, goes in at `pos`. */
    method InsertBucket(pos: nat, bucket: Priority<T>)
      requires Valid() && pos <= |queue|
      requires bucket.stack.Valid() && bucket.stack.Repr !! Repr
      modifies this
      ensures Valid() && Repr == old(Repr) + bucket.stack.Repr
      ensures Buckets == InsertAt(old(Buckets), pos, Bucket(bucket.priority, bucket.stack.Items))
    {
      ghost var oq := queue;
      assert forall b :: 0 <= b < |oq| ==> bucket.stack.Repr !! oq[b].stack.Repr;
      queue := InsertAt(queue, pos, bucket);
      InsertKeepsApart(oq, pos, bucket, queue);
      Repr := Repr + bucket.stack.Repr;
      Buckets := InsertAt(Buckets, pos, Bucket(bucket.priority, bucket.stack.Items));
      forall b | 0 <= b < |queue|
        ensures queue[b].stack in Repr && queue[b].stack.Repr <= Repr && this !in queue[b].stack.Repr
        ensures queue[b].stack.Valid() && Buckets[b] == Bucket(queue[b].priority, queue[b].stack.Items)
      {
        if b < pos {
          assert queue[b] == oq[b] && Buckets[b] == old(Buckets)[b];
        } else if b > pos {
          assert queue[b] == oq[b - 1] && Buckets[b] == old(Buckets)[b - 1];
        }
      }
    }

    /** `find_priority_or_insert_new`: the position of the bucket for `p`, inserting an empty one when missing. */
    method FindPriorityOrInsertNew(p: int) returns (pos: nat)
      requires Valid()
      modifies Repr
      ensures Valid() && fresh(Repr - old(Repr))
      ensures Find(PrioritiesOf(old(Buckets)), p).Some? ==>
        pos == Find(PrioritiesOf(old(Buckets)), p).value && Buckets == old(Buckets)
      ensures Find(PrioritiesOf(old(Buckets)), p).None? ==>
        pos == Slot(PrioritiesOf(old(Buckets)), p) && Buckets == InsertAt(old(Buckets), pos, Bucket(p, []))
    {
      assert Priorities() == PrioritiesOf(Buckets);
      var found := Find(Priorities(), p);
      if found.Some? {
        pos := found.value;
      } else {
        pos := InsertNewPriority(p);
      }
    }

    /** The push of `enqueue`: `item` onto the stack of bucket `pos`, the other buckets untouched. */
    method PushAt(pos: nat, item: T)
      requires Valid() && pos < |Buckets|
      modifies Repr
      ensures Valid() && fresh(Repr - old(Repr))
      ensures Buckets == old(Buckets)[pos := Bucket(old(Buckets)[pos].priority, old(Buckets)[pos].items + [item])]
    {
      var stack := queue[pos].stack;
      stack.Push(item);
      Buckets := Buckets[pos := Bucket(queue[pos].priority, stack.Items)];
      Repr := Repr + stack.Repr;
      forall c | 0 <= c < |queue| && c != pos
        ensures queue[c].stack.Valid() && queue[c].stack.Items == old(queue[c].stack.Items)
        ensures queue[c].stack.Repr !! stack.Repr
      {
      }
    }

    /** `enqueue(priority, item)`. */
    method Enqueue(priority: int, item: T)
      requires Valid()
      modifies Repr
      ensures Valid() && fresh(Repr - old(Repr))
      ensures Buckets == Enqueued(old(Buckets), priority, item)
    {
      ghost var bs := Buckets;
      var pos := FindPriorityOrInsertNew(priority);
      PushAt(pos, item);
      if Find(PrioritiesOf(bs), priority).None? {
        var grown := InsertAt(bs, pos, Bucket(priority, []));
        assert grown[pos] == Bucket(priority, []) && [] + [item] == [item];
        assert grown[pos := Bucket(priority, [item])] == InsertAt(bs, pos, Bucket(priority, [item]));
      } else {
        assert PrioritiesOf(bs)[pos] == priority;
      }
    }

    /** The pop of `dequeue`: the top of the last bucket's stack, the other buckets untouched. */
    method PopLast() returns (r: Option<T>)
      requires Valid() && |Buckets| > 0
      modifies Repr
      ensures Valid() && Repr == old(Repr) && |queue| == |old(queue)|
      ensures r == PopTop(old(Buckets)[|queue| - 1]).0
      ensures Buckets == old(Buckets)[|queue| - 1 := PopTop(old(Buckets)[|queue| - 1]).1]
    {
      var n := |queue| - 1;
      var last := queue[n];
      ghost var top := Buckets[n];
      assert top == Bucket(last.priority, last.stack.Items);
      r := last.stack.Pop();
      Buckets := Buckets[n := Bucket(last.priority, last.stack.Items)];
      forall c | 0 <= c < |queue|
        ensures queue[c].stack.Repr == old(queue[c].stack.Repr)
        ensures queue[c].stack.Valid() && Buckets[c] == Bucket(queue[c].priority, queue[c].stack.Items)
      {
        if c < n {
          assert queue[c].stack.Repr !! last.stack.Repr;
        }
      }
    }

    /** `self.queue.pop()`: drops the last bucket. */
    method DropLast()
      requires Valid() && |queue| > 0
      modifies this
      ensures Valid() && Repr == old(Repr)
      ensures Buckets == old(Buckets)[..|old(Buckets)| - 1]
    {
      var n := |queue| - 1;
      PrefixKeepsApart(queue, n);
      ghost var q, bs := queue, Buckets;
      queue := queue[..n];
      Buckets := Buckets[..n];
      forall c | 0 <= c < n
        ensures queue[c] == q[c] && Buckets[c] == bs[c]
      {
      }
    }

    /** `dequeue()`: pops the last bucket, dropping it once its stack is empty. */
    method Dequeue() returns (r: Option<T>)
      requires Valid()
      modifies Repr
      ensures Valid() && Repr == old(Repr)
      ensures (r, Buckets) == Dequeued(old(Buckets))
    {
      if |queue| == 0 {
        return None;
      }
      var n := |queue| - 1;
      ghost var before := Buckets;
      r := PopLast();
      if queue[n].stack.IsEmpty() {
        TakeUpdated(before, n, Buckets[n]);
        DropLast();
      }
    }
  }

  /** Two scans for the first priority not above `p` agree. */
  lemma SlotUnique(ps: seq<int>, p: int, pos: nat)
    requires pos <= |ps| && (forall k :: 0 <= k < pos ==> ps[k] > p) && (pos < |ps| ==> ps[pos] <= p)
    ensures pos == Slot(ps, p)
  {
  }

  /** `enqueue` onto the first bucket already holding priority `p`. */
  lemma EnqueueExisting<T>(bs: seq<Bucket<T>>, p: int, x: T, i: nat)
    requires i < |bs| && bs[i].priority == p
    requires forall k :: 0 <= k < i ==> bs[k].priority != p
    ensures Enqueued(bs, p, x) == bs[i := Bucket(p, bs[i].items + [x])]
  {
    var f := Find(PrioritiesOf(bs), p);
    assert f.Some? && f.value == i by {
      assert PrioritiesOf(bs)[i] == p;
    }
  }

  /** `enqueue` at a new priority `p`, whose slot is `s`. */
  lemma EnqueueNew<T>(bs: seq<Bucket<T>>, p: int, x: T, s: nat)
    requires s <= |bs| && forall k :: 0 <= k < |bs| ==> bs[k].priority != p
    requires (forall k :: 0 <= k < s ==> bs[k].priority > p) && (s < |bs| ==> bs[s].priority <= p)
    ensures Enqueued(bs, p, x) == InsertAt(bs, s, Bucket(p, [x]))
  {
    var ps := PrioritiesOf(bs);
    assert Find(ps, p).None?;
    SlotUnique(ps, p, s);
  }

  /** The `it_works` buckets: priority 1 holding 1, then priority 0 holding 42 after it. */
  lemma ItWorksBuckets()
    ensures Enqueued(Enqueued([], 1, 1), 0, 42) == [Bucket(1, [1]), Bucket(0, [42])]
  {
    var b0: seq<Bucket<int>> := [];
    EnqueueNew(b0, 1, 1, 0);
    var b1 := [Bucket(1, [1])];
    assert InsertAt(b0, 0, Bucket(1, [1])) == b1;
    EnqueueNew(b1, 0, 42, 1);
    InsertAtEnd(b1, Bucket(0, [42]));
  }

  /** The `it_works` test: 42 (priority 0) comes out before 1 (priority 1), then nothing. */
  lemma ItWorksTrace()
    ensures var q := Enqueued(Enqueued([], 1, 1), 0, 42);
      Dequeued(q).0 == Some(42) && Dequeued(Dequeued(q).1).0 == Some(1) &&
      Dequeued(Dequeued(Dequeued(q).1).1).0 == None
  {
    ItWorksBuckets();
    var q: seq<Bucket<int>> := [Bucket(1, [1]), Bucket(0, [42])];
    assert q[..1] == [Bucket(1, [1])];
    assert Dequeued(q) == (Some(42), [Bucket(1, [1])]);
    assert [Bucket(1, [1])][..0] == [];
  }

  /** The first three enqueues of the `priority` test, as buckets. */
  lemma PriorityBucketsFirst()
    ensures Enqueued(Enqueued(Enqueued([], 42, 1), 42, 2), 0, 3) == [Bucket(42, [1, 2]), Bucket(0, [3])]
  {
    var b0: seq<Bucket<int>> := [];
    EnqueueNew(b0, 42, 1, 0);
    var b1 := [Bucket(42, [1])];
    assert InsertAt(b0, 0, Bucket(42, [1])) == b1;
    EnqueueExisting(b1, 42, 2, 0);
    var b2 := [Bucket(42, [1, 2])];
    assert [1] + [2] == [1, 2];
    assert b1[0 := Bucket(42, [1] + [2])] == b2;
    EnqueueNew(b2, 0, 3, 1);
    InsertAtEnd(b2, Bucket(0, [3]));
  }

  /** The fourth and fifth enqueues of the `priority` test: two new priorities. */
  lemma PriorityBucketsMiddle()
    ensures Enqueued(Enqueued([Bucket(42, [1, 2]), Bucket(0, [3])], -5, 4), 3, 5)
      == [Bucket(42, [1, 2]), Bucket(3, [5]), Bucket(0, [3]), Bucket(-5, [4])]
  {
    var b3 := [Bucket(42, [1, 2]), Bucket(0, [3])];
    EnqueueNew(b3, -5, 4, 2);
    InsertAtEnd(b3, Bucket(-5, [4]));
    var b4 := [Bucket(42, [1, 2]), Bucket(0, [3]), Bucket(-5, [4])];
    assert b3 + [Bucket(-5, [4])] == b4;
    EnqueueNew(b4, 3, 5, 1);
    assert b4[..1] + [Bucket(3, [5])] + b4[1..] == [Bucket(42, [1, 2]), Bucket(3, [5]), Bucket(0, [3]), Bucket(-5, [4])];
  }

  /** The last two enqueues of the `priority` test: both at priorities already queued. */
  lemma PriorityBucketsLast()
    ensures Enqueued(Enqueued([Bucket(42, [1, 2]), Bucket(3, [5]), Bucket(0, [3]), Bucket(-5, [4])], -5, 6), 0, 7)
      == [Bucket(42, [1, 2]), Bucket(3, [5]), Bucket(0, [3, 7]), Bucket(-5, [4, 6])]
  {
    var b5 := [Bucket(42, [1, 2]), Bucket(3, [5]), Bucket(0, [3]), Bucket(-5, [4])];
    EnqueueExisting(b5, -5, 6, 3);
    var b6 := [Bucket(42, [1, 2]), Bucket(3, [5]), Bucket(0, [3]), Bucket(-5, [4, 6])];
    assert [4] + [6] == [4, 6];
    assert b5[3 := Bucket(-5, [4] + [6])] == b6;
    EnqueueExisting(b6, 0, 7, 2);
    assert [3] + [7] == [3, 7];
    assert b6[2 := Bucket(0, [3] + [7])] == [Bucket(42, [1, 2]), Bucket(3, [5]), Bucket(0, [3, 7]), Bucket(-5, [4, 6])];
  }

  /** Enqueueing one more pair extends the fold by one `enqueue`. */
  lemma EnqueuedAllStep<T>(bs: seq<Bucket<T>>, pairs: seq<(int, T)>, k: nat, before: seq<Bucket<T>>)
    requires k < |pairs| && EnqueuedAll(bs, pairs[..k]) == before
    ensures EnqueuedAll(bs, pairs[..k + 1]) == Enqueued(before, pairs[k].0, pairs[k].1)
  {
    assert pairs[..k + 1][..k] == pairs[..k];
  }

  /** The first three enqueues of the `priority` test, as a fold. */
  lemma PriorityPrefixFirst(ps: seq<(int, int)>)
    requires |ps| == 7 && ps[0] == (42, 1) && ps[1] == (42, 2) && ps[2] == (0, 3)
    ensures EnqueuedAll([], ps[..3]) == [Bucket(42, [1, 2]), Bucket(0, [3])]
  {
    var e: seq<Bucket<int>> := [];
    assert ps[..0] == [];
    EnqueuedAllStep(e, ps, 0, e);
    EnqueuedAllStep(e, ps, 1, Enqueued(e, 42, 1));
    EnqueuedAllStep(e, ps, 2, Enqueued(Enqueued(e, 42, 1), 42, 2));
    PriorityBucketsFirst();
  }

  /** The first five enqueues of the `priority` test, as a fold. */
  lemma PriorityPrefixMiddle(ps: seq<(int, int)>)
    requires |ps| == 7 && ps[0] == (42, 1) && ps[1] == (42, 2) && ps[2] == (0, 3) && ps[3] == (-5, 4)
    requires ps[4] == (3, 5)
    ensures EnqueuedAll([], ps[..5]) == [Bucket(42, [1, 2]), Bucket(3, [5]), Bucket(0, [3]), Bucket(-5, [4])]
  {
    var e: seq<Bucket<int>> := [];
    PriorityPrefixFirst(ps);
    var b3 := [Bucket(42, [1, 2]), Bucket(0, [3])];
    EnqueuedAllStep(e, ps, 3, b3);
    EnqueuedAllStep(e, ps, 4, Enqueued(b3, -5, 4));
    PriorityBucketsMiddle();
  }

  /** All seven enqueues of the `priority` test, one after the other. */
  lemma PriorityBucketsAll(ps: seq<(int, int)>)
    requires |ps| == 7 && ps[0] == (42, 1) && ps[1] == (42, 2) && ps[2] == (0, 3) && ps[3] == (-5, 4)
    requires ps[4] == (3, 5) && ps[5] == (-5, 6) && ps[6] == (0, 7)
    ensures EnqueuedAll([], ps) == [Bucket(42, [1, 2]), Bucket(3, [5]), Bucket(0, [3, 7]), Bucket(-5, [4, 6])]
  {
    var e: seq<Bucket<int>> := [];
    PriorityPrefixMiddle(ps);
    var b5 := [Bucket(42, [1, 2]), Bucket(3, [5]), Bucket(0, [3]), Bucket(-5, [4])];
    EnqueuedAllStep(e, ps, 5, b5);
    EnqueuedAllStep(e, ps, 6, Enqueued(b5, -5, 6));
    assert ps[..7] == ps;
    PriorityBucketsLast();
  }

  /** The buckets of the `priority` test are in descending priority order and none is empty. */
  lemma PriorityShaped()
    ensures Shaped([Bucket(42, [1, 2]), Bucket(3, [5]), Bucket(0, [3, 7]), Bucket(-5, [4, 6])])
  {
  }

  /** The `priority` test's serving order: 6, 4, 7, 3, 5, 2, 1. */
  lemma PriorityServing()
    ensures Serving([Bucket(42, [1, 2]), Bucket(3, [5]), Bucket(0, [3, 7]), Bucket(-5, [4, 6])]) == [6, 4, 7, 3, 5, 2, 1]
  {
    var q: seq<Bucket<int>> := [Bucket(42, [1, 2]), Bucket(3, [5]), Bucket(0, [3, 7]), Bucket(-5, [4, 6])];
    var q1, q2, q3: seq<Bucket<int>> := [Bucket(42, [1, 2])], [Bucket(42, [1, 2]), Bucket(3, [5])], q[..3];
    assert Reversed([4, 6]) == [6, 4];
    assert Reversed([3, 7]) == [7, 3];
    assert Reversed([5]) == [5];
    assert Reversed([1, 2]) == [2, 1];
    assert q1[..0] == [] && Serving(q1) == [2, 1];
    assert q2[..1] == q1 && Serving(q2) == [5, 2, 1];
    assert q3[..2] == q2 && Serving(q3) == [7, 3, 5, 2, 1];
  }

  /** The `priority` test end to end: seven enqueues, then draining yields 6, 4, 7, 3, 5, 2, 1. */
  lemma PriorityTrace(ps: seq<(int, int)>)
    requires |ps| == 7 && ps[0] == (42, 1) && ps[1] == (42, 2) && ps[2] == (0, 3) && ps[3] == (-5, 4)
    requires ps[4] == (3, 5) && ps[5] == (-5, 6) && ps[6] == (0, 7)
    ensures Drain(EnqueuedAll([], ps)) == [6, 4, 7, 3, 5, 2, 1]
  {
    PriorityBucketsAll(ps);
    var q := [Bucket(42, [1, 2]), Bucket(3, [5]), Bucket(0, [3, 7]), Bucket(-5, [4, 6])];
    DrainServes(q);
    PriorityServing();
  }

  /** The `it_works` test on the queue itself. */
  method ItWorks() returns (first: Option<int>, second: Option<int>, third: Option<int>)
    ensures first == Some(42) && second == Some(1) && third == None
  {
    var q := new PriorityQueue<int>();
    q.Enqueue(1, 1);
    q.Enqueue(0, 42);
    ItWorksTrace();
    first := q.Dequeue();
    second := q.Dequeue();
    third := q.Dequeue();
  }

  /** Dequeue until nothing comes out, collecting the items in order (the `priority` test's loop). */
  method DrainAll<T(0)>(q: PriorityQueue<T>) returns (deq: seq<T>)
    requires q.Valid() && Shaped(q.Buckets)
    modifies q.Repr
    ensures q.Valid() && q.Buckets == [] && deq == Serving(old(q.Buckets))
  {
    ghost var target := Serving(q.Buckets);
    deq := [];
    var done := false;
    while !done
      invariant q.Valid() && q.Repr == old(q.Repr) && Shaped(q.Buckets)
      invariant done ==> deq == target && q.Buckets == []
      invariant !done ==> deq + Serving(q.Buckets) == target
      decreases if done then 0 else 1 + |Serving(q.Buckets)|
    {
      ghost var bs := q.Buckets;
      var r := q.Dequeue();
      ServingShapedStep(bs);
      if r.Some? {
        deq := deq + [r.value];
      } else {
        done := true;
      }
    }
  }

  /** Enqueues each `(priority, item)` pair in turn. */
  method EnqueueAll<T(0)>(q: PriorityQueue<T>, pairs: seq<(int, T)>)
    requires q.Valid()
    modifies q.Repr
    ensures q.Valid() && fresh(q.Repr - old(q.Repr))
    ensures q.Buckets == EnqueuedAll(old(q.Buckets), pairs)
  {
    var i := 0;
    while i < |pairs|
      invariant i <= |pairs|
      invariant q.Valid() && fresh(q.Repr - old(q.Repr))
      invariant q.Buckets == EnqueuedAll(old(q.Buckets), pairs[..i])
    {
      assert pairs[..i + 1][..i] == pairs[..i];
      q.Enqueue(pairs[i].0, pairs[i].1);
      i := i + 1;
    }
    assert pairs[..i] == pairs;
  }

  /** The seven enqueues of the `priority` test. */
  method PriorityQueued() returns (q: PriorityQueue<int>)
    ensures q.Valid() && fresh(q.Repr)
    ensures q.Buckets == [Bucket(42, [1, 2]), Bucket(3, [5]), Bucket(0, [3, 7]), Bucket(-5, [4, 6])]
  {
    q := new PriorityQueue<int>();
    var ps := [(42, 1), (42, 2), (0, 3), (-5, 4), (3, 5), (-5, 6), (0, 7)];
    EnqueueAll(q, ps);
    PriorityBucketsAll(ps);
  }

  /** The `priority` test on the queue itself: the items come out as 6, 4, 7, 3, 5, 2, 1. */
  method PriorityOrder() returns (deq: seq<int>)
    ensures deq == [6, 4, 7, 3, 5, 2, 1]
  {
    var q := PriorityQueued();
    PriorityShaped();
    deq := DrainAll(q);
    PriorityServing();
  }
}
