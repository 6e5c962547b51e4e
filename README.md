# Growable arrays, a sparse array, a block matrix and a priority queue

This project models a small Rust library of container types built on raw, manually managed buffers:

- `Array<T>`: a growable buffer with `push`, `pop` and capacity doubling. It is the storage layer
  under the priority queue's stacks.
- `SingleArray<T>` and `VectorArray<T>`: growable buffers behind the `IArray` interface (`size`,
  `push`, `get`, `insert`, `remove`). `SingleArray` grows by one slot, `VectorArray` by a fixed
  `vector` of slots. Both shift elements with an overlapping copy on `insert` and `remove`.
- `SparseArray<T>`: keeps only the positions whose value differs from `T::default()`, as entries
  `(index, value)` sorted by position, plus a logical length.
- `MatrixArray<T>`: a list of `VectorArray` blocks of nominal size `vector`. Index `i` maps to
  block `i / vector` at offset `i % vector`.
- `PriorityQueue<T>`: a list of buckets `(priority, Stack<T>)` in strictly descending priority
  order. `enqueue` pushes onto the bucket's stack and creates the bucket at its slot when it is
  missing. `dequeue` pops the last bucket and drops it once it is empty.

Each container is a Dafny `class` whose methods update its fields in place. Each class also keeps
a ghost abstraction: `Contents` for the buffers, `View()` for the sparse array, `Blocks` for the
matrix and `Buckets` for the queue. Every method states its effect on that abstraction. The
abstract operations are specification functions, and lemmas about those functions give what the
library promises:

- insertion and removal are sequence insertion and removal;
- the sparse representation reads back as the logical sequence it stands for;
- the matrix, while its blocks stay packed, behaves as one flat sequence;
- the queue is last-in first-out within a priority and keeps its buckets ordered and non-empty.

Buffers are Dafny `array`s: `ptr::copy` becomes an element-wise copy that handles overlap in
either direction, and `alloc`/`realloc` becomes allocating a fresh array and copying the live
prefix into it.

Points where the model follows the code rather than its description:

- **Priority order.** The queue keeps its buckets in descending priority and `dequeue` takes from
  the last bucket, so the LOWEST priority is served first (`DequeueLowest`, `PriorityTrace`:
  6, 4, 7, 3, 5, 2, 1).
- **Matrix blocks.** `MatrixArray::insert` does not cascade into the next block, and `remove` does
  not rebalance. After an insert into a full block, that block holds `vector + 1` elements, and
  `get` with the `/`/`%` mapping no longer reads the flat sequence (`InsertSkewsIndexing`).
  Flat-sequence behaviour is proved only for packed blocks: every block full except a non-empty
  last one.
- **Nested containers.** The sparse array and the queue call `insert`/`remove` on their own
  `Array` field, which `Array` does not provide. They are modelled as the sequence operations
  they evidently mean, on a `seq` field, with the bounds `VectorArray` checks.
- **Matrix `get`.** It calls `get` on the `Option` that `self.inner.get(..)` returns. It is modelled
  as the evident intent: a read of block `index / vector`, which must exist.

`T::default()` is a value `zero` that the sparse array is built with. The element type is `T(0)`,
so fresh buffer slots have a value, which stands for uninitialised memory that is never read.

## Model

| member | source | states |
|---|---|---|
| Sequences.InsertAt | src/lib.rs:10 | the `insert(elem, index)` of `IArray`: one longer, `e` at `i`, the prefix kept, the rest one place further on |
| Sequences.RemoveAt | src/lib.rs:11 | the `remove(index)` of `IArray`: one shorter, the prefix kept, the rest one place earlier |
| Sequences.InsertAtEnd | src/lib.rs:8-10 | `push(e)`, defined by the buffers as `insert(e, size())`, is appending |
| Sequences.RemoveInsert | src/lib.rs:10-11 | `remove(i)` after `insert(e, i)` restores the sequence |
| RawBuffers.Moved | src/single_array.rs:114-118 | the effect of `ptr::copy` on a buffer: the `count` destination slots hold the source slots, every other slot is unchanged |
| RawBuffers.CopyWithin | src/single_array.rs:114-118 | the overlapping copy leaves exactly `Moved(old contents, src, dst, count)` in the array, whichever direction the overlap runs |
| RawBuffers.CopyForward | src/single_array.rs:129-133 | the low-to-high copy used when the destination precedes the source moves every slot correctly and touches nothing else |
| RawBuffers.CopyBackward | src/single_array.rs:114-118 | the high-to-low copy used when the destination follows the source moves every slot correctly and touches nothing else |
| RawBuffers.Realloc | src/array.rs:82-109 | reallocation gives a fresh buffer of the new capacity whose prefix is the old buffer |
| RawBuffers.ShiftOpensGap | src/single_array.rs:113-121 | shifting the tail from `i` one slot up, then writing `e` at `i`, spells `InsertAt` of the live prefix |
| RawBuffers.ShiftClosesGap | src/single_array.rs:126-134 | shifting the tail after `i` one slot down spells `RemoveAt` of the live prefix |
| Arrays.DoubledCapacity | src/array.rs:83 | the new capacity is 1 for an empty buffer and exactly twice the old one otherwise, so always larger |
| Arrays.Array.constructor | src/array.rs:16-26 | `new`/`default`: empty, capacity 0, length 0 |
| Arrays.Array.Push | src/array.rs:62-69 | appends `elem`; the capacity doubles exactly when the buffer was full |
| Arrays.Array.Pop | src/array.rs:71-80 | `None` with no change when empty; otherwise the last element, removed, and the capacity kept |
| Arrays.Array.Grow | src/array.rs:82-109 | capacity becomes `DoubledCapacity`; length and elements preserved |
| Arrays.ItWorks | src/array.rs:116-122 | push 42, then pops give `Some(42)` and `None` |
| Arrays.BellsAndWhistles | src/array.rs:124-134 | after pushing 0 to 255 there are 256 elements, element `i` is `i`, and element 22 is 22 |
| Arrays.PushThenPopAll | src/array.rs:62-80 | pushing a sequence and popping until `None` yields it reversed (LIFO) |
| SingleArrays.SingleArray.constructor | src/single_array.rs:19-29 | `new`/`default`: empty, capacity 0 |
| SingleArrays.SingleArray.Pop | src/single_array.rs:61-68 | `None` with no change when empty; otherwise the last element, removed |
| SingleArrays.SingleArray.Grow | src/single_array.rs:70-91 | the capacity grows by exactly one; elements preserved |
| SingleArrays.SingleArray.Size | src/single_array.rs:95-97 | the number of live elements |
| SingleArrays.SingleArray.Push | src/single_array.rs:99-101 | appends `elem`, growing by one slot when full |
| SingleArrays.SingleArray.Get | src/single_array.rs:103-105 | the element at `index`, defined only below the length |
| SingleArrays.SingleArray.Insert | src/single_array.rs:107-122 | for `index <= len`, the contents become `InsertAt(old, index, elem)`, growing by one slot when full |
| SingleArrays.SingleArray.Remove | src/single_array.rs:124-136 | for `index < len`, returns the element at `index`, and the contents become `RemoveAt(old, index)` |
| SingleArrays.ItWorks | src/single_array.rs:143-149 | push 42, then pops give `Some(42)` and `None` |
| SingleArrays.ArrayInterface | src/single_array.rs:163-178 | the interface test's contents before and after `remove(0)`, and the removed 1024 |
| VectorArrays.VectorArray.constructor | src/vector_array.rs:59-64 | `new(vector)`: empty, capacity 0, growth step `vector` |
| VectorArrays.VectorArray.Default | src/vector_array.rs:20-31 | `default`: empty, growth step 5 |
| VectorArrays.VectorArray.Pop | src/vector_array.rs:66-73 | `None` with no change when empty; otherwise the last element, removed |
| VectorArrays.VectorArray.Grow | src/vector_array.rs:75-96 | the capacity grows by exactly `vector`; elements preserved |
| VectorArrays.VectorArray.Size | src/vector_array.rs:100-102 | the number of live elements |
| VectorArrays.VectorArray.Push | src/vector_array.rs:104-106 | appends `elem`, growing by `vector` slots when full |
| VectorArrays.VectorArray.Get | src/vector_array.rs:108-110 | the element at `index`, defined only below the length |
| VectorArrays.VectorArray.Insert | src/vector_array.rs:112-127 | for `index <= len`, the contents become `InsertAt(old, index, elem)`, growing by `vector` when full |
| VectorArrays.VectorArray.Remove | src/vector_array.rs:129-141 | for `index < len`, returns the element at `index`, and the contents become `RemoveAt(old, index)` |
| VectorArrays.ItWorks | src/vector_array.rs:148-154 | push 42, then pops give `Some(42)` and `None` |
| VectorArrays.ArrayInterface | src/vector_array.rs:168-183 | the interface test's contents before and after `remove(0)`, and the removed 1024 |
| SparseArrays.FindInnerValue | src/sparse_array.rs:18-20 | the first entry stored for `index`, or none when no entry has that position |
| SparseArrays.PositionOf | src/sparse_array.rs:90-94 | the place of the first entry for `index`; present exactly when `FindInnerValue` finds one |
| SparseArrays.Lookup | src/sparse_array.rs:67-72 | the stored value for `index`, or `zero` when nothing is stored |
| SparseArrays.Zeros | src/sparse_array.rs:74-82 | `n` copies of the default value, the positions a past-the-end insert leaves unset |
| SparseArrays.InnerInserted | src/sparse_array.rs:22-34 | the entries after `inner_insert`: the entries from the split point on moved one position up, and `elem` stored at the split point unless it is the default (InnerInsertedView gives its meaning) |
| SparseArrays.Appended | src/sparse_array.rs:77-81 | the entries after an `insert` at or past the end: `elem` appended unless it is the default (AppendedView gives its meaning) |
| SparseArrays.InnerRemoved | src/sparse_array.rs:85-110 | the entries after `remove`: a stored entry dropped with the later ones moved down, or only the entries above `index` moved down (InnerRemovedView gives its meaning) |
| SparseArrays.SplitPoint | src/sparse_array.rs:23-26 | the first place whose entry is at or after `index`; every entry before it lies before `index` |
| SparseArrays.LookupHit | src/sparse_array.rs:67-72 | with ordered entries, the position of a stored entry reads its value |
| SparseArrays.LookupMiss | src/sparse_array.rs:67-72 | a position with no stored entry reads the default value |
| SparseArrays.SplitPointTail | src/sparse_array.rs:23-26 | in ordered entries, every entry from the split point on is at or after `index` |
| SparseArrays.InnerInsertedShape | src/sparse_array.rs:22-34 | both branches of `inner_insert` (default value or not) keep the earlier entries, bump the later ones and store `elem` unless it is the default |
| SparseArrays.InsertShapedWellFormed | src/sparse_array.rs:22-34 | the entries after `inner_insert` stay ordered, within the new length and free of default values |
| SparseArrays.InsertShapedBelow | src/sparse_array.rs:22-34 | positions before `index` read as before |
| SparseArrays.InsertShapedAtIndex | src/sparse_array.rs:22-34 | position `index` reads `elem` (the default when nothing is stored) |
| SparseArrays.InsertShapedAbove | src/sparse_array.rs:27-29 | each position after `index` reads what the position before it read |
| SparseArrays.InsertShapedView | src/sparse_array.rs:22-34 | the entries after `inner_insert` read as the logical sequence with `elem` inserted |
| SparseArrays.InnerInsertedView | src/sparse_array.rs:22-34 | `inner_insert` on well-formed entries keeps them well formed and inserts `elem` into the logical sequence |
| SparseArrays.RemovedShapeStored | src/sparse_array.rs:89-100 | removing a stored position drops its entry and moves every later entry down one position |
| SparseArrays.RemovedShapeMissing | src/sparse_array.rs:101-107 | removing an unstored position moves only the entries above it down one position |
| SparseArrays.InnerRemovedShape | src/sparse_array.rs:85-110 | both branches of `remove` have the removal shape |
| SparseArrays.RemoveShapedWellFormed | src/sparse_array.rs:85-110 | the entries after `remove` stay ordered, within the shorter length and free of default values |
| SparseArrays.RemoveShapedBelow | src/sparse_array.rs:85-110 | positions before `index` read as before |
| SparseArrays.RemoveShapedAbove | src/sparse_array.rs:96-98 | each position from `index` on reads what the position after it read |
| SparseArrays.RemoveShapedView | src/sparse_array.rs:85-110 | the entries after `remove` read as the logical sequence without position `index` |
| SparseArrays.InnerRemovedView | src/sparse_array.rs:85-110 | `remove` on well-formed entries keeps them well formed and removes position `index` from the logical sequence |
| SparseArrays.AppendedView | src/sparse_array.rs:76-81 | an insert at or past the end pads with default values and appends `elem`, storing it only when it is not the default |
| SparseArrays.SparseArray.constructor | src/sparse_array.rs:11-16 | `new`: length 0, nothing stored, the default value recorded |
| SparseArrays.SparseArray.Size | src/sparse_array.rs:59-61 | the length of the logical sequence |
| SparseArrays.SparseArray.Get | src/sparse_array.rs:67-72 | below the length, the logical element; from the length on, the default value |
| SparseArrays.SparseArray.InnerInsert | src/sparse_array.rs:22-34 | for `index < len`, the logical sequence becomes `InsertAt(old, index, elem)` and one entry is added unless `elem` is the default |
| SparseArrays.SparseArray.Insert | src/sparse_array.rs:74-83 | inside, a sequence insertion; at or past the end, the length becomes `index + 1` with default values in the gap; the entries grow by one exactly when `elem` is not the default |
| SparseArrays.SparseArray.Push | src/sparse_array.rs:63-65 | appends `elem` to the logical sequence |
| SparseArrays.SparseArray.Remove | src/sparse_array.rs:85-110 | for `index < len`, returns the logical element at `index` (the default when unstored) and removes it from the logical sequence |
| SparseArrays.ScanTo | src/sparse_array.rs:23-26 | the scan stops at the split point |
| SparseArrays.ShiftUpFrom | src/sparse_array.rs:27-29 | the loop moves every entry from `pos` on one position up |
| SparseArrays.ShiftDownFrom | src/sparse_array.rs:96-98 | the loop moves every entry from `pos` on one position down |
| SparseArrays.ShiftDownAbove | src/sparse_array.rs:102-106 | the loop moves the entries above `index` one position down and keeps the others |
| SparseArrays.ItWorksInserts | src/sparse_array.rs:132-140 | the test's inserts store exactly the non-default values at their shifted positions |
| SparseArrays.ItWorksReads | src/sparse_array.rs:141-145 | the test's reads after the inserts |
| SparseArrays.ItWorksRemoveFirst | src/sparse_array.rs:146 | the first removal of the test moves only the entry above it |
| SparseArrays.ItWorksRemoveSecond | src/sparse_array.rs:147 | the second removal of the test |
| SparseArrays.ItWorksRemoveThird | src/sparse_array.rs:148 | the third removal of the test |
| SparseArrays.ItWorksRemoveStored | src/sparse_array.rs:149 | the removal of a stored position drops its entry |
| SparseArrays.ItWorksReadsAfterRemoves | src/sparse_array.rs:150-152 | the test's reads after the removals |
| MatrixArrays.TotalSizeIsLength | src/matrix_array.rs:18-22 | the folded `size()` is the length of the flat sequence |
| MatrixArrays.FlattenConcat | src/matrix_array.rs:18-22 | flattening distributes over concatenating block lists |
| MatrixArrays.FlattenInsert | src/matrix_array.rs:34-39 | inserting into one block inserts into the flat sequence after the earlier blocks' elements |
| MatrixArrays.FlattenRemove | src/matrix_array.rs:41-45 | removing from one block removes from the flat sequence after the earlier blocks' elements |
| MatrixArrays.MadeRoom | src/matrix_array.rs:57-61 | the blocks after `make_room`: one empty block appended exactly when `need_to_grow` |
| MatrixArrays.Inserted | src/matrix_array.rs:34-39 | the blocks after `insert(e, i)`: `make_room`, then `e` inserted into block `i / vector` at offset `i % vector`, with no cascade |
| MatrixArrays.Removed | src/matrix_array.rs:41-45 | the blocks after `remove(i)`: offset `i % vector` removed from block `i / vector`, with no rebalancing |
| MatrixArrays.MadeRoomKeeps | src/matrix_array.rs:57-61 | `make_room` keeps the existing blocks, the flat sequence and the size |
| MatrixArrays.FullSizeIsProduct | src/matrix_array.rs:53-55 | `m` full blocks hold `m * vector` elements |
| MatrixArrays.BlockBelow | src/matrix_array.rs:53-55 | an index is below `m` full blocks plus `last` exactly when its block is before `m`, or is `m` with an offset below `last` |
| MatrixArrays.PrefixOffset | src/matrix_array.rs:53-55 | the index is the earlier full blocks' elements plus its offset |
| MatrixArrays.PackedPresent | src/matrix_array.rs:28-32 | on packed blocks, `get(i)`/`remove(i)` find their element exactly when `i < size()` |
| MatrixArrays.PackedGet | src/matrix_array.rs:28-32 | on packed blocks, `get(i)` reads position `i` of the flat sequence |
| MatrixArrays.PackedInsertAllowed | src/matrix_array.rs:34-39 | on packed blocks, `insert(e, i)` finds its block for every `i <= size()` |
| MatrixArrays.PackedInsert | src/matrix_array.rs:34-39 | on packed blocks, `insert(e, i)` inserts `e` at position `i` of the flat sequence |
| MatrixArrays.PackedPush | src/matrix_array.rs:24-26 | on packed blocks, `push(e)` succeeds, keeps them packed and appends `e` to the flat sequence |
| MatrixArrays.PackedRemove | src/matrix_array.rs:41-45 | on packed blocks, `remove(i)` returns position `i` of the flat sequence and removes it there |
| MatrixArrays.InsertThenGet | src/matrix_array.rs:28-39 | after `insert(e, i)`, `get(i)` reads `e` and the size grew by one |
| MatrixArrays.InsertThenRemove | src/matrix_array.rs:34-45 | `remove(i)` right after `insert(e, i)` returns `e` and leaves the blocks as `make_room` left them |
| MatrixArrays.RemoveShrinks | src/matrix_array.rs:41-45 | `remove(i)` shrinks the size by one |
| MatrixArrays.InsertSkewsIndexing | src/matrix_array.rs:34-39 | inserting into a full block overfills it, so block/offset indexing no longer follows the flat sequence |
| MatrixArrays.MatrixArray.constructor | src/matrix_array.rs:49-51 | `new(vector)`: no blocks |
| MatrixArrays.MatrixArray.Default | src/matrix_array.rs:8-15 | `default`: no blocks, blocks of 5 |
| MatrixArrays.MatrixArray.Size | src/matrix_array.rs:18-22 | the sum of the block sizes, which is the flat length |
| MatrixArrays.MatrixArray.MakeIndice | src/matrix_array.rs:53-55 | the block and offset recombine to the index, with the offset below `vector` |
| MatrixArrays.MatrixArray.NeedToGrow | src/matrix_array.rs:63-69 | true exactly when there is no block or the last one is full |
| MatrixArrays.MatrixArray.MakeRoom | src/matrix_array.rs:57-61 | one empty block appended exactly when `need_to_grow` |
| MatrixArrays.MatrixArray.Get | src/matrix_array.rs:28-32 | the element at offset `index % vector` of block `index / vector` |
| MatrixArrays.MatrixArray.InsertIntoBlock | src/matrix_array.rs:37-38 | the block at `index / vector` receives `elem` at its offset; every other block is unchanged |
| MatrixArrays.MatrixArray.Insert | src/matrix_array.rs:34-39 | the blocks become `Inserted(old, vector, elem, index)` |
| MatrixArrays.MatrixArray.Push | src/matrix_array.rs:24-26 | `insert(elem, size())`; on packed blocks they stay packed and the flat sequence gains `elem` at the end |
| MatrixArrays.MatrixArray.Remove | src/matrix_array.rs:41-45 | returns the element `get(index)` reads and removes it from its block |
| MatrixArrays.Creation | src/matrix_array.rs:77-82 | the size is 0 and then 1 after one push |
| MatrixArrays.PushRange | src/matrix_array.rs:87-90 | the filling loop leaves packed blocks of 1 holding -42 to 41 |
| MatrixArrays.PushGetInsertRemove | src/matrix_array.rs:85-96 | size 84, `get(42)` is 0, then 686 after the insert, then 0 after the removal |
| PriorityQueues.PrioritiesOf | src/priority_queue.rs:36-38 | the buckets' priorities, in queue order |
| PriorityQueues.Find | src/priority_queue.rs:36-38 | the first position holding priority `p`, or none when no bucket has it |
| PriorityQueues.Slot | src/priority_queue.rs:46-54 | the first position whose priority is not above `p`; every earlier one is above it |
| PriorityQueues.Enqueued | src/priority_queue.rs:15-18 | the buckets after `enqueue(p, x)`: `x` on top of the first bucket for `p`, or a new one-item bucket at `p`'s slot |
| PriorityQueues.Dequeued | src/priority_queue.rs:20-27 | the result and buckets after `dequeue()`: nothing on an empty queue, else the last bucket's pop, with the bucket dropped once empty |
| PriorityQueues.EnqueuedAll | src/priority_queue.rs:111-118 | the buckets after enqueuing each pair in turn, as the test's enqueue calls do |
| PriorityQueues.Reversed | src/priority_queue.rs:90-92 | a stack's items in the order its pops return them |
| PriorityQueues.ContentInsert | src/priority_queue.rs:40-44 | inserting a bucket adds its items to the queue's contents |
| PriorityQueues.EnqueueContent | src/priority_queue.rs:15-18 | `enqueue(p, x)` adds exactly `x` |
| PriorityQueues.EnqueueDescending | src/priority_queue.rs:15-18 | `enqueue` keeps the priorities strictly descending |
| PriorityQueues.EnqueueNoneEmpty | src/priority_queue.rs:15-18 | `enqueue` keeps every bucket non-empty |
| PriorityQueues.EnqueueOnTop | src/priority_queue.rs:15-18 | after `enqueue(p, x)` a bucket for `p` exists with `x` on top |
| PriorityQueues.DequeueLowest | src/priority_queue.rs:20-27 | on a well-shaped queue, `dequeue` gives `None` exactly when empty, and otherwise the top of the lowest-priority bucket |
| PriorityQueues.DequeueShape | src/priority_queue.rs:20-27 | `dequeue` keeps the buckets descending and non-empty |
| PriorityQueues.DequeueContent | src/priority_queue.rs:20-27 | `dequeue` removes exactly the item it returns |
| PriorityQueues.PushPopLast | src/priority_queue.rs:15-27 | pushing onto the last bucket and dequeuing gives the item back and restores the buckets |
| PriorityQueues.EnqueueThenDequeue | src/priority_queue.rs:15-27 | an item enqueued at a priority no higher than any present is dequeued next, and the queue is back as it was |
| PriorityQueues.Drain | src/priority_queue.rs:20-27 | the items successive `dequeue`s return until `None` are exactly the contents |
| PriorityQueues.DrainStep | src/priority_queue.rs:20-27 | one `dequeue` is the head of the drain |
| PriorityQueues.ServingShapedStep | src/priority_queue.rs:20-27 | on a well-shaped queue, one `dequeue` is the head of the serving order and keeps the shape |
| PriorityQueues.DrainServes | src/priority_queue.rs:20-27 | the drain serves the buckets from the last (lowest priority) to the first, each stack top first |
| PriorityQueues.Stack.constructor | src/priority_queue.rs:76-80 | a new stack is empty |
| PriorityQueues.Stack.IsEmpty | src/priority_queue.rs:82-84 | true exactly when the stack has no items |
| PriorityQueues.Stack.Push | src/priority_queue.rs:86-88 | `elem` becomes the top |
| PriorityQueues.Stack.Pop | src/priority_queue.rs:90-92 | the top taken off, or `None` when empty |
| PriorityQueues.NewPriority | src/priority_queue.rs:57-69 | `Priority::new(p)`: priority `p` with a fresh, empty stack |
| PriorityQueues.PriorityQueue.constructor | src/priority_queue.rs:8-13 | a new queue has no buckets |
| PriorityQueues.PriorityQueue.Priorities | src/priority_queue.rs:36-38 | the buckets' priorities, in queue order |
| PriorityQueues.PriorityQueue.GetPositionForNewPriority | src/priority_queue.rs:46-54 | the scan returns `Slot` of the priorities |
| PriorityQueues.PriorityQueue.InsertNewPriority | src/priority_queue.rs:40-44 | an empty bucket for `p` inserted at its slot, which is returned |
| PriorityQueues.PriorityQueue.InsertBucket | src/priority_queue.rs:43 | the buffer insert puts the bucket at `pos` and leaves the other stacks untouched |
| PriorityQueues.PriorityQueue.FindPriorityOrInsertNew | src/priority_queue.rs:29-34 | the existing bucket's position with no change, or a new empty bucket at the slot |
| PriorityQueues.PriorityQueue.PushAt | src/priority_queue.rs:17 | `item` on top of bucket `pos`; the other buckets untouched |
| PriorityQueues.PriorityQueue.Enqueue | src/priority_queue.rs:15-18 | the buckets become `Enqueued(old, priority, item)` |
| PriorityQueues.PriorityQueue.PopLast | src/priority_queue.rs:22-23 | the pop of the last bucket's stack; the other buckets untouched |
| PriorityQueues.PriorityQueue.DropLast | src/priority_queue.rs:24-25 | drops the last bucket |
| PriorityQueues.PriorityQueue.Dequeue | src/priority_queue.rs:20-27 | the result and buckets are `Dequeued(old)`: the last bucket's top, the bucket dropped once empty |
| PriorityQueues.SlotUnique | src/priority_queue.rs:46-54 | any position with the scan's stopping property is `Slot` |
| PriorityQueues.EnqueueExisting | src/priority_queue.rs:15-18 | enqueue at an existing priority pushes onto its first bucket |
| PriorityQueues.EnqueueNew | src/priority_queue.rs:15-18 | enqueue at a new priority inserts a one-item bucket at its slot |
| PriorityQueues.ItWorksTrace | src/priority_queue.rs:99-107 | the test's queue yields 42, then 1, then nothing |
| PriorityQueues.PriorityBucketsAll | src/priority_queue.rs:109-124 | the test's seven enqueues build the buckets 42:[1,2], 3:[5], 0:[3,7], -5:[4,6] |
| PriorityQueues.PriorityServing | src/priority_queue.rs:109-124 | those buckets serve 6, 4, 7, 3, 5, 2, 1 |
| PriorityQueues.PriorityTrace | src/priority_queue.rs:109-124 | seven enqueues, then draining yields 6, 4, 7, 3, 5, 2, 1 |
| PriorityQueues.ItWorks | src/priority_queue.rs:99-107 | on the queue object: 42, then 1, then `None` |
| PriorityQueues.DrainAll | src/priority_queue.rs:119-123 | dequeuing until `None` empties a well-shaped queue and collects its serving order |
| PriorityQueues.EnqueueAll | src/priority_queue.rs:111-118 | enqueuing the pairs in turn gives `EnqueuedAll` |
| PriorityQueues.PriorityOrder | src/priority_queue.rs:109-124 | on the queue object, the items come out as 6, 4, 7, 3, 5, 2, 1 |

## Left out

- Memory management is not modelled: `Layout`, `alloc`/`realloc`/`dealloc`, `handle_alloc_error`, the `isize::MAX` allocation assert and the zero-sized-type assert. Allocation is assumed to succeed.
- `Drop` for the three buffers (popping everything, then deallocating) is not modelled, because it only frees memory.
- `Deref`/`DerefMut` to slices is modelled only as the read of `get`. The slice writes and `len()` calls of the `bells_and_whistles` tests in single_array.rs and vector_array.rs are not modelled, and array.rs's is modelled by its pushes and reads.
- `repr` and `Display` of the sparse array, and the final insert and prints of its `it_works` test, are not modelled, because they only produce text.
- examples/test_add.rs is not part of this model.
- The `IArray` trait is not a Dafny trait: each buffer implements its five operations as methods with the same contracts.
- Integer widths (`usize`, `i64`, `u8`) are unbounded integers, so no arithmetic in the model overflows. The `index -= 1` steps of the sparse `remove` cannot underflow in the source either, because they only touch entries above the removed position. The buffers' `len += 1` and `Array`'s doubling stay below `isize::MAX` because of the allocation assert.
- SparseArrays.SparseArray.Insert: the source's `self.len = index + 1` overflows `usize` for `index == usize::MAX` (a panic in a debug build; in a release build `len` wraps to 0, which leaves the stored entry outside the length). Likewise `inner_insert`'s `self.len += 1` overflows when `len == usize::MAX`. The model's unbounded length does not capture either overflow.
- Uninitialised buffer slots hold the type's default value and are never read.
- VectorArrays.VectorArray.constructor: requires `vector > 0`; the source accepts 0, which makes `grow` add no slot.
- MatrixArrays.MatrixArray.constructor: requires `vector > 0`; the source accepts 0, and `make_indice` then divides by zero.
- The outer `Array` of the sparse array, the queue and the matrix is a `seq` field, not a raw buffer, so its capacity and reallocation are not tracked.
- MatrixArrays.MatrixArray.Get: the `Option` it reads through is modelled as the block itself, with the block's existence required.
- SparseArrays.SparseArray.Remove: requires `index < len`, which is the source's own assert.
- SingleArrays.SingleArray.Get and VectorArrays.VectorArray.Get: require `index < len`, where the source's `get(index).unwrap()` panics.
- SingleArrays.SingleArray.Insert and VectorArrays.VectorArray.Insert: require `index <= len`, where the source's assert panics.
- SingleArrays.SingleArray.Remove and VectorArrays.VectorArray.Remove: require `index < len`, where the source's assert panics.
- MatrixArrays.MatrixArray.Insert: requires `InsertAllowed` (after `make_room`, block `index / vector` exists and offset `index % vector` is at most its length), where the source's `unwrap` or the block's assert panics.
- MatrixArrays.MatrixArray.Remove: requires `Present` (block `index / vector` exists and holds offset `index % vector`), where the source's `unwrap` or the block's assert panics.
- MatrixArrays.MatrixArray.Push: requires `InsertAllowed` at `size()`, which PackedPush proves for every packed matrix.
