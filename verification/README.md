# event-emitter listener dispatch, modelled in Dafny

This project models the listener-dispatch core of the `event-emitter`
package. It has three parts:

- **`PriorityIterable`** (`priority_iterable.dfy`, module `PriorityQueue`).
  This is the per-event listener queue. It has:
  - a map from priority to a bucket of items;
  - a strictly descending array of the priorities present;
  - a length counter;
  - a `push` that returns the string handle `"<priority>.<position>"`;
  - a `pop(handle)` that parses the handle and splices the item out;
  - a restartable iterator that walks the buckets in index order.
- **`PriorityList`** (`priority_list.dfy`, module `PriorityLists`).
  This is the alternative queue: a singly linked list kept in descending
  priority. It has a sorted array of priorities and "priority change
  points" that name the first node of each priority except the head's.
  `findOrInsertAndGetIndex` is modelled as well. The list is the sequence
  of nodes from `head` along `next`, and a node reference is a position in
  that sequence.
- **`EventEmitter`** (`event_emitter.dfy`, module `EventEmitters`).
  - The listener tree is the map from fragment paths to what the path
    holds: a plain object (`Branch`), a queue, or `undefined`.
  - `getListenersArray` walks that tree fragment by fragment and creates
    what is missing.
  - `on` pushes a listener into the queue found or created at the name.
  - `emit` calls the listeners in queue order with `(context, ...payload)`
    and stops at the first one that returns `false`.

Three modules hold the pieces the others share:

- `wrappers.dfy`: `Option` and `Result`.
- `strings.dfy`: JavaScript's `split`, the decimal rendering of integers,
  and `Number.parseInt`.
- `ordering.dfy`: the reference order. The higher priority is served first
  and equal priorities keep insertion order, as a stable sort.

Every method is proved against a specification function. Properties that
relate several calls are lemmas:

- the iteration order of a queue is the stable priority sort of what was
  pushed (`ReplayedQueue`), and any well-formed queue, after pushes and
  pops alike, iterates by descending priority (`TaggedSorted`);
- `pop` with the handle `push` returned undoes the push;
- resolving a name again finds what the first resolution stored;
- dispatch calls exactly a prefix of the queue, in order.

Each behavioural test of test/index.js is restated as a lemma or a method.
The sanity checks, which only ask whether a function exists, are not.

`findOrInsertAndGetIndex` (src/PriorityList.js:34-59) appends `value` and
returns the old length even when it finds `value` in the array.
`FoundOrInsertedDescending` states this. `add` only calls it for a priority
that is not yet present, so `add` never sees it.

## Model

| member | source | states |
|---|---|---|
| Strings.Split | index.js:20-21 | `eventName.split(delimiter)` always yields at least one fragment when the delimiter is non-empty, and for a one-character delimiter no fragment contains it |
| Strings.SplitJoin | index.js:20-21 | the fragments joined with the delimiter give the name back, so splitting loses nothing |
| Strings.SplitFromJoin | index.js:20-21 | the same round trip for the splitter's scan from any position, with the piece collected so far |
| Strings.SplitFromNoSeparator | index.js:20-21 | a string without the separator character comes back as one piece |
| Strings.SplitFromOneSeparator | index.js:20-21 | one separator character between two separator-free strings splits them apart |
| Strings.SplitOneSeparator | index.js:20-21 | `"a:b"` with no other `:` splits into exactly `[a, b]` |
| Strings.SplitLeadingSeparator | index.js:20-33 | a leading delimiter adds exactly one empty fragment in front; the walk skips that fragment |
| Strings.NatToDecimal | src/PriorityIterable.js:57 | the bucket position in the handle is rendered as a non-empty run of digits with that value, with no leading zero, and 0 as `0` |
| Strings.IntToDecimal | src/PriorityIterable.js:57 | the priority in the handle is rendered non-empty and without a `.`, so the handle's first `.` is the separator |
| Strings.IntToDecimalDigits | src/PriorityIterable.js:57 | the rendering is a `-` exactly for a negative priority, then the digits of its magnitude without leading zeros |
| Strings.LeadingDigits | src/PriorityIterable.js:67-68 | the digits `parseInt` reads: every one is a digit and the next character is not |
| Strings.TrimStart | src/PriorityIterable.js:67-68 | the white space `parseInt` skips: what is dropped is all white space or line terminators, and what remains does not start with one |
| Strings.ParseInt | src/PriorityIterable.js:67-68 | `Number.parseInt(s, 10)` is `NaN` exactly when no digit follows the leading white space and the optional sign |
| Strings.ParseIntToDecimal | src/PriorityIterable.js:57-68 | parsing the rendering of any integer gives the integer back |
| Strings.ParseIntSkipsWhiteSpace | src/PriorityIterable.js:67-68 | white space in front of a string does not change what `parseInt` reads from it |
| Ordering.FirstBelow | src/PriorityIterable.js:41-48 | the scan stops at the first priority below the new one, and every priority before it is at least as high |
| Ordering.FirstBelowUnique | src/PriorityIterable.js:41-48 | any position with those two properties is the scan's stopping point |
| Ordering.InsertDescendingSplit | src/PriorityIterable.js:41-51 | inserting a new priority places it at the scan's stopping point |
| Ordering.InsertAtScanPoint | src/PriorityIterable.js:41-51 | inserting at a position that meets the scan's condition is the index `push` builds |
| Ordering.InsertDescendingSound | src/PriorityIterable.js:37-51 | adding a priority that is not present keeps the index strictly descending and adds exactly that priority |
| Ordering.InsertDescendingShape | src/PriorityIterable.js:44-50 | the new index is one longer, holds the priority at the scan point, and shifts the rest up by one |
| Ordering.SplitPoint | src/PriorityIterable.js:41-48 | entries at or above a priority followed by entries below it put the insertion point at the seam |
| Ordering.StableInsert | src/PriorityList.js:5-21 | the reference insertion: one entry is added to a priority-ordered sequence |
| Ordering.StableInsertAt | src/PriorityList.js:5-21 | the entry goes after every entry of at least its priority and before the first lower one |
| Ordering.StableInsertPermutes | src/PriorityList.js:5-21 | the insertion adds exactly the new entry to the multiset |
| Ordering.StableInsertSorted | src/PriorityList.js:5-21 | insertion keeps the sequence in descending priority order |
| Ordering.StableInsertWithPriority | src/PriorityList.js:5-21 | among entries of one priority, the new entry comes last (first-in, first-out within a priority) |
| Ordering.StableInsertShape | src/PriorityList.js:5-21 | the new entry lands at the first lower priority, and the other entries keep their relative positions |
| Ordering.WithPriorityConcat | src/PriorityList.js:5-21 | picking the entries of one priority distributes over concatenation |
| Ordering.WithPriorityNone | src/PriorityList.js:5-21 | a sequence with no entry of a priority picks nothing for it |
| Ordering.StableInsertSplit | src/PriorityList.js:5-21 | the entries of each priority after insertion are those before it with the new one placed at the seam |
| Ordering.TailBelow | src/PriorityList.js:5-21 | a sorted tail that starts below a priority holds no entry of that priority |
| Ordering.SortByPrioritySorted | src/PriorityList.js:5-21 | adding entries one at a time yields a sequence in descending priority |
| Ordering.SortByPriorityPermutes | src/PriorityList.js:5-21 | the result holds exactly the added entries |
| Ordering.SortByPriorityStable | src/PriorityList.js:5-21 | entries of equal priority keep the order in which they were added |
| Ordering.StableInsertKeepsHead | src/PriorityList.js:17 | an entry not above the head's priority leaves the head in place |
| Ordering.SortByPriorityHead | src/PriorityList.js:17 | when the first entry added has the maximum priority, it stays the head |
| Ordering.SortPrefixStep | src/PriorityList.js:93-166 | one more add extends the sorted prefix at the insertion point |
| PriorityQueue.NormalizePriority | src/PriorityIterable.js:35 | `priority \|\| defaultPriority`: `undefined` and `0` give the default, and any other priority is kept |
| PriorityQueue.HandleRoundTrip | src/PriorityIterable.js:57-68 | splitting the handle at `.` and parsing both parts gives back the priority and the bucket position |
| PriorityQueue.PaddedHandleRoundTrip | src/PriorityIterable.js:65-68 | a handle with white space in front still decodes to the priority and position it was built from |
| PriorityQueue.SpliceStart | src/PriorityIterable.js:70 | `splice`'s start is clamped to the bucket, and an in-range position is taken as is |
| PriorityQueue.RemoveAt | src/PriorityIterable.js:70 | `splice(k, 1)` removes exactly the item at `k`, and later items move down by one |
| PriorityQueue.TaggedConcat | src/PriorityIterable.js:76-103 | iterating over two index segments visits the first segment's buckets, then the second's |
| PriorityQueue.TaggedFrame | src/PriorityIterable.js:76-103 | iteration depends only on the buckets the index names |
| PriorityQueue.TaggedUpdateFrame | src/PriorityIterable.js:37-38 | a bucket for a priority outside the index does not change iteration |
| PriorityQueue.TaggedPriorities | src/PriorityIterable.js:87-93 | every item visited carries a priority of the index |
| PriorityQueue.TaggedSingle | src/PriorityIterable.js:87-93 | a one-priority index visits exactly that bucket in order |
| PriorityQueue.TaggedSplit | src/PriorityIterable.js:41-48 | splitting the index at the scan point splits the iteration at the new item's stable insertion point |
| PriorityQueue.TaggedAtLeast | src/PriorityIterable.js:41-48 | the buckets before the scan point hold only items of at least the new priority |
| PriorityQueue.TaggedBelow | src/PriorityIterable.js:41-48 | the buckets after the scan point hold only items below the new priority |
| PriorityQueue.InsertionPoint | src/PriorityIterable.js:37-48 | in a strictly descending index, the scan point of a present priority sits right after it |
| PriorityQueue.PushIndexed | src/PriorityIterable.js:33-58 | `push` keeps the index strictly descending and in step with the buckets |
| PriorityQueue.PushExisting | src/PriorityIterable.js:54 | pushing into an existing bucket places the item after that bucket's items |
| PriorityQueue.ReplacedBucket | src/PriorityIterable.js:54 | replacing one indexed bucket changes iteration only in that bucket's span |
| PriorityQueue.PushNew | src/PriorityIterable.js:37-54 | a new priority's single item is visited between the higher and the lower buckets |
| PriorityQueue.PushedNewData | src/PriorityIterable.js:38 | a new priority starts with a bucket holding only the pushed item |
| PriorityQueue.InsertedBucket | src/PriorityIterable.js:37-51 | a bucket under a new priority is visited at the scan point |
| PriorityQueue.TaggedConcatFrame | src/PriorityIterable.js:76-103 | iteration over a split index reads each part from its own buckets |
| PriorityQueue.FrontBucket | src/PriorityIterable.js:44 | a priority placed first in the index is visited first |
| PriorityQueue.PushTagged | src/PriorityIterable.js:33-58 | after `push`, iteration order is the old order with the new item stably inserted by priority |
| PriorityQueue.PushCounted | src/PriorityIterable.js:54-55 | `push` stores exactly one more item for iteration, matching the counter's increment |
| PriorityQueue.PushKeepsCount | src/PriorityIterable.js:37-55 | the state `push` leaves is well formed, and a counter that matched the stored items still matches after the increment |
| PriorityQueue.TaggedSorted | src/PriorityIterable.js:76-103 | any queue whose index is strictly descending, which `push` and `pop` both keep, iterates by descending priority |
| PriorityQueue.ReplayedQueue | src/PriorityIterable.js:33-58 | pushes into a fresh queue keep it well formed, and it iterates in the stable priority sort of the pushes |
| PriorityQueue.ReplayedOrder | src/PriorityIterable.js:33-58 | that iteration is sorted by descending priority, holds exactly the pushed entries, and keeps push order within each priority |
| PriorityQueue.PopRestoresNew | src/PriorityIterable.js:37-51 | an emptied new priority leaves iteration as it was before it was added |
| PriorityQueue.PushThenPop | src/PriorityIterable.js:54-73 | the returned handle names the pushed item, and popping it gives back the old iteration order |
| PriorityQueue.PushThenRestore | src/PriorityIterable.js:37-54 | restoring the pushed bucket restores the iteration order, even though the priority stays in the index |
| PriorityQueue.TaggedRemoveLength | src/PriorityIterable.js:70-71 | removing an item from a bucket shortens iteration by one, matching the counter's decrement |
| PriorityQueue.TaggedPrefixStep | src/PriorityIterable.js:87-98 | the buckets before the cursor's priority index, plus the current bucket, form the visited prefix |
| PriorityQueue.CursorItem | src/PriorityIterable.js:87-93 | the cursor's item is the iteration item at its position, and moving to the next item advances the position by one |
| PriorityQueue.CursorSkip | src/PriorityIterable.js:90-98 | moving past an exhausted bucket does not change the position |
| PriorityQueue.PriorityIterable.constructor | src/PriorityIterable.js:11-20 | a new queue is empty, and its default priority is the option given, else 10 |
| PriorityQueue.PriorityIterable.Push | src/PriorityIterable.js:33-58 | the new index, buckets and length follow from the normalised priority, the handle is `"<priority>.<old bucket length>"`, and a counter equal to the number of stored items stays equal |
| PriorityQueue.PriorityIterable.Store | src/PriorityIterable.js:37-55 | a new priority is indexed with an empty bucket, the item is appended, the counter goes up by one and stays equal to the item count, and the result is the item's bucket position |
| PriorityQueue.PriorityIterable.InsertPriority | src/PriorityIterable.js:37-51 | the scan-and-splice loop inserts the new priority into the index where the descending order needs it |
| PriorityQueue.PriorityIterable.Pop | src/PriorityIterable.js:65-74 | an unknown priority or `NaN` throws a `TypeError`; otherwise the length drops by one, and the item at the clamped position is removed and returned if it exists |
| PriorityQueue.PriorityIterable.Iterator | src/PriorityIterable.js:76-103 | a new iterator over this queue starts at the first item of the first bucket |
| PriorityQueue.PriorityIterable.ToSeq | src/PriorityIterable.js:105-107 | spreading the queue yields the items in iteration order |
| PriorityQueue.PriorityIterator.constructor | src/PriorityIterable.js:79-102 | the cursor starts at priority index 0, item 0 |
| PriorityQueue.PriorityIterator.Next | src/PriorityIterable.js:80-99 | `next()` returns the item at the cursor and advances by one; at the end it reports done and rewinds |
| PriorityQueue.ExampleIndex | test/index.js:93-101 | pushing at 10, then 20, gives the index `[20, 10]` |
| PriorityQueue.ExampleData | test/index.js:93-101 | the buckets after pushing `first`@10, `second`@20, `third`@default |
| PriorityQueue.ExampleContents | test/index.js:93-111 | those buckets iterate as `second`, `first`, `third` |
| PriorityQueue.ExampleQueue | test/index.js:93-101 | the queue after those three pushes has that iteration order |
| PriorityQueue.IterationOrderExample | test/index.js:93-111 | spreading the queue yields `second`, `first`, `third` |
| PriorityQueue.SinglePush | src/PriorityIterable.js:33-58 | one push into a fresh queue indexes its priority alone, and iteration visits just that item |
| PriorityQueue.SinglePushExample | test/index.js:79-91 | pushing `first` at 10 and spreading yields `first` alone |
| PriorityQueue.PaddedPopExample | src/PriorityIterable.js:65-74 | `pop(" 10.0")` on a queue holding `first` at 10 removes and returns `first` |
| PriorityQueue.SharedBucketQueue | src/PriorityIterable.js:33-58 | `a`, `b` and `c` pushed at 10 share one bucket, and the handles of `a` and `b` are `10.0` and `10.1` |
| PriorityQueue.StaleHandleExample | src/PriorityIterable.js:65-74 | after `pop("10.0")` removes `a`, `b`'s handle `10.1` removes `c`, and `b` stays in the queue |
| PriorityLists.FirstAtMost | src/PriorityList.js:37-49 | the scan stops at the first value not above `value`, and every value before it is above |
| PriorityLists.FindOrInsertAndGetIndex | src/PriorityList.js:34-59 | the loop, the splice and the length check compute `FoundOrInserted` |
| PriorityLists.FoundOrInserted | src/PriorityList.js:34-59 | the array grows by one and the returned index holds `value` |
| PriorityLists.FoundOrInsertedPosition | src/PriorityList.js:34-59 | removing the returned index gives back the input; it is the first lower value, else the end |
| PriorityLists.FoundOrInsertedDescending | src/PriorityList.js:34-59 | for a new value this is the descending insertion; a value already present is appended again |
| PriorityLists.Spliced | src/PriorityList.js:126-128 | linking a node after the walk's end puts it at the next position, and later nodes move by one |
| PriorityLists.Shifted | src/PriorityList.js:126-128 | change points keep naming the same nodes after a node is linked in before them |
| PriorityLists.NonHeadHasChangePoint | src/PriorityList.js:17-19 | every priority present other than the head's has a change point |
| PriorityLists.HeadIsMaximum | src/PriorityList.js:17 | the head's priority is the first, and highest, of the priorities array |
| PriorityLists.WalkEndIsInsertionPoint | src/PriorityList.js:122-128 | linking after the walk's end is the stable insertion by priority |
| PriorityLists.SplicedPriorities | src/PriorityList.js:126-128 | the linked list holds exactly the old priorities plus the new node's |
| PriorityLists.SplicedSamePriorities | src/PriorityList.js:110-133 | a node of a known priority keeps the array and the list in agreement |
| PriorityLists.SplicedNewPriority | src/PriorityList.js:135-160 | a node of a new priority agrees with the array that includes the priority |
| PriorityLists.NodesInNewArray | src/PriorityList.js:135-160 | every node's priority is in the updated array |
| PriorityLists.NewArrayInNodes | src/PriorityList.js:135-160 | every priority of the updated array has a node |
| PriorityLists.ChangePointShifted | src/PriorityList.js:126-128 | a change point still names the first node of its priority after the link |
| PriorityLists.ChangePointsShifted | src/PriorityList.js:126-128 | all change points stay first-of-priority after the link |
| PriorityLists.ChangePointsCompleteExisting | src/PriorityList.js:110-133 | the change points still cover every non-head priority after a known-priority add |
| PriorityLists.ChangePointsCompleteNew | src/PriorityList.js:157-161 | with the new node recorded as its priority's change point, the coverage holds |
| PriorityLists.InsertExisting | src/PriorityList.js:110-133 | a known-priority add keeps the list well ordered |
| PriorityLists.InsertNew | src/PriorityList.js:135-166 | a new-priority add below the head keeps the list well ordered |
| PriorityLists.InsertHead | src/PriorityList.js:135-160 | linking in front of the head, and giving the old head's priority a change point, keeps the list well ordered |
| PriorityLists.ChangePointsBelowHead | src/PriorityList.js:17-19 | every change point's priority is below the head's |
| PriorityLists.InsertHeadChangePoints | src/PriorityList.js:17-19 | the change points stay correct when a node becomes the new head |
| PriorityLists.AddExistingPriority | src/PriorityList.js:110-133 | walking from the priority's change point (or the head) ends at the stable insertion point |
| PriorityLists.AddNewPriority | src/PriorityList.js:135-166 | walking from the minimum greater priority's change point is correct below the head, and stays at the head above it |
| PriorityLists.AddNewBelowHead | src/PriorityList.js:135-166 | below the head, the new-priority walk ends at the stable insertion point and keeps the list well ordered |
| PriorityLists.NewPriorityBelowHead | src/PriorityList.js:137-140 | below the head, the new priority is not inserted first, so a minimum greater priority exists |
| PriorityLists.StartAtLeast | src/PriorityList.js:145-151 | the walk's start node has a priority at least the new one |
| PriorityLists.AddNewAboveHead | src/PriorityList.js:138-155 | a priority above the head's makes the walk stop at the head |
| PriorityLists.WalkEnd | src/PriorityList.js:122-124 | the walk passes only nodes of at least the priority and stops before the first lower node |
| PriorityLists.AddedLinksOneNode | src/PriorityList.js:93-166 | every `add` links exactly one node in (at the head of an empty list, else behind the head) and keeps change points valid |
| PriorityLists.LinkedAnchored | src/PriorityList.js:157-161 | change points still name nodes of the list after a link |
| PriorityLists.AddedToEmpty | src/PriorityList.js:100-108 | the first `add` makes the node the head and records its priority |
| PriorityLists.AddedKnownInOrder | src/PriorityList.js:110-133 | a known-priority `add` is the stable insertion and keeps the list well ordered |
| PriorityLists.AddedNewInOrder | src/PriorityList.js:135-166 | a new priority not above the head is the stable insertion and keeps the list well ordered |
| PriorityLists.AddedKnownShape | src/PriorityList.js:110-133 | a known-priority `add` links after the end of the walk from its change point |
| PriorityLists.AddedNewShape | src/PriorityList.js:135-166 | a new-priority `add` links after the walk from the minimum greater priority's change point and records a change point |
| PriorityLists.AddedInOrder | src/PriorityList.js:93-166 | any `add` not above the head keeps the list sorted, stably inserts the node, and updates the array |
| PriorityLists.AddedAboveHead | src/PriorityList.js:135-160 | as written, a priority above the head's is linked behind the head and the list is no longer sorted |
| PriorityLists.AboveHeadInsertedFirst | src/PriorityList.js:137-140 | such a priority is inserted at index 0 of the array, so the minimum greater priority is the priority itself |
| PriorityLists.AddedCorrectedInOrder | src/PriorityList.js:135-160 | the corrected `add` keeps the list sorted and is the stable insertion for every priority |
| PriorityLists.Replayed | src/PriorityList.js:93-166 | a sequence of `add`s from a fresh list keeps change points naming nodes |
| PriorityLists.ReplayedInOrder | src/PriorityList.js:93-166 | when the first item has the maximum priority, the adds yield the stable priority sort |
| PriorityLists.PriorityList.constructor | src/PriorityList.js:73-80 | a new list is empty, with no priorities and no change points |
| PriorityLists.PriorityList.WalkFrom | src/PriorityList.js:122-124 | the `while` loop over `next` ends where `WalkEnd` says |
| PriorityLists.PriorityList.LinkKnown | src/PriorityList.js:110-133 | the known-priority branch reaches the specified state and adds one to the length |
| PriorityLists.PriorityList.LinkNew | src/PriorityList.js:135-166 | the new-priority branch reaches the specified state and adds one to the length |
| PriorityLists.PriorityList.Iterator | src/PriorityList.js:171-188 | the iterator starts at the head |
| PriorityLists.PriorityList.ToSeq | src/PriorityList.js:190-192 | spreading the list yields the node values from the head, as many as the length says |
| PriorityLists.PriorityList.Add | src/PriorityList.js:93-167 | a non-number priority throws a `TypeError` and changes nothing; otherwise the state is `Added` and the new length is returned |
| PriorityLists.ListIterator.constructor | src/PriorityList.js:186 | the cursor starts at the head |
| PriorityLists.ListIterator.Next | src/PriorityList.js:175-185 | `next()` returns the current node's value and follows `next`, until done |
| PriorityLists.MixedPrefix1 | test/index.js:43-72 | sorted prefix after adding A9 |
| PriorityLists.MixedPrefix2 | test/index.js:43-72 | sorted prefix after adding E7 |
| PriorityLists.MixedPrefix3 | test/index.js:43-72 | sorted prefix after adding B9 |
| PriorityLists.MixedPrefix4 | test/index.js:43-72 | sorted prefix after adding D7 |
| PriorityLists.MixedPrefix5 | test/index.js:43-72 | sorted prefix after adding F7 |
| PriorityLists.MixedPrefix6 | test/index.js:43-72 | sorted prefix after adding G7 |
| PriorityLists.MixedPrefix7 | test/index.js:43-72 | sorted prefix after adding H5 |
| PriorityLists.MixedPrefix8 | test/index.js:43-72 | sorted prefix after adding C9 |
| PriorityLists.MixedPrefix9 | test/index.js:43-72 | sorted prefix after adding I5 |
| PriorityLists.MixedOrder | test/index.js:43-72 | the mixed adds yield A9, B9, C9, E7, D7, F7, G7, H5, I5 and a well-ordered list |
| PriorityLists.SortedAdds | src/PriorityList.js:93-166 | adds that arrive in descending priority are linked in call order and leave the list well ordered |
| PriorityLists.OrderedAdd | test/index.js:11-41 | the ordered adds A9, B9, C9, D7, E7, F7, G7, H5, I5 iterate in that order |
| PriorityLists.FirstAdded | src/PriorityList.js:100-108 | a fresh list after one `add` holds that node alone, in order |
| PriorityLists.MisorderedExample | src/PriorityList.js:135-160 | A9 then B12 gives A9, B12 as written |
| PriorityLists.CorrectedExample | src/PriorityList.js:135-160 | with the correction, A9 then B12 gives B12, A9 |
| PriorityLists.MisorderedList | src/PriorityList.js:135-160 | on a list object, adding A@9 then B@12 and spreading yields `A`, `B` |
| EventEmitters.Walk | index.js:19-45 | a successful walk ends at the root or at a path present in the tree |
| EventEmitters.WalkPath | index.js:24-44 | a successful walk saw no empty fragment after the first, and ends at the fragments (minus a leading empty one) |
| EventEmitters.WalkNoEmptyFragment | index.js:29-33 | without empty fragments after the first, the walk never throws the empty-fragment error |
| EventEmitters.WalkCreates | index.js:34-38 | a path the walk adds holds the handler's value if it is the name's own path, else a plain object |
| EventEmitters.WalkAgain | index.js:34-40 | walking again through a tree that extends the first walk's result creates nothing and ends at the same path, whatever the handler |
| EventEmitters.WalkExtends | index.js:34-38 | the walk only adds properties and never replaces one |
| EventEmitters.ResolveAgain | index.js:19-45 | resolving a name a second time finds what the first resolution stored and changes nothing |
| EventEmitters.WalkShifted | index.js:29-33 | an extra leading empty fragment is skipped |
| EventEmitters.LeadingDelimiter | index.js:20-33 | a name with a leading delimiter resolves like the name without it |
| EventEmitters.ResolveQueues | index.js:34-38 | every queue in the tree after a walk was there before, or is the handler's value |
| EventEmitters.Delivered | index.js:80-95 | dispatch calls a prefix of the queue. Every listener but the last returned something other than `false`. The run ends exhausted exactly when all were called and none stopped; a stop means the last returned `false`; a throw comes from the last one |
| EventEmitters.Invocations | index.js:86 | each call receives the emitter's context followed by the payload |
| EventEmitters.DeliveredAfter | index.js:83-93 | once the first `n` listeners continued, the next one's answer decides how dispatch ends |
| EventEmitters.EventEmitter.constructor | index.js:7-54 | the options default to the `:` delimiter and an empty context object, and the tree starts empty |
| EventEmitters.EventEmitter.GetListenersArray | index.js:19-45 | the loop over fragments leaves the tree and returns the value that `Resolve` specifies |
| EventEmitters.EventEmitter.Dispatch | index.js:80-95 | the iterator loop calls the listeners that `Delivered` names, in queue order; it returns `true` if none stopped, `false` if one did, and otherwise passes on the listener's error |
| EventEmitters.EventEmitter.Emit | index.js:72-96 | the name is resolved (storing `undefined` if missing). `undefined` returns `undefined` with no calls; a plain object throws a `TypeError`; a queue is dispatched |
| EventEmitters.EventEmitter.EmitCorrected | index.js:72-78 | the corrected `emit` returns the same result, but leaves the tree unchanged when nothing is registered |
| EventEmitters.EventEmitter.On | index.js:62-70 | the name is resolved (with a new queue if missing). Anything but a queue throws a `TypeError`. The queue gets the listener at `priority \|\| 10`, other queues are unchanged, and the returned subscription holds the handle that `pop` needs |
| EventEmitters.EventEmitter.PushListener | index.js:66 | pushing into a queue of the tree adds the listener at its normalised priority (index and bucket as `PriorityIterable.push` states), returns the handle of its place, and keeps every queue of the tree valid |
| EventEmitters.ResolveTwoFragments | index.js:19-45 | on an empty tree, `a:b` creates a plain object at `a` and the handler's value at `a:b` |
| EventEmitters.ResolveEvent | test/index.js:152-160 | the tree that `Namespace:event` produces on a fresh emitter |
| EventEmitters.RegistrationIndex | test/index.js:289-304 | the index after pushes at 10, 35, 5 and 22 is `[35, 22, 10, 5]` |
| EventEmitters.RegistrationData | test/index.js:289-304 | each of those listeners sits alone in its priority's bucket |
| EventEmitters.RegistrationContents | test/index.js:289-314 | those buckets iterate as listener2, listener4, listener1, listener3 |
| EventEmitters.RegistrationOrder | test/index.js:289-314 | registering at default, 35, 5, 22 gives the call order 2, 4, 1, 3 |
| EventEmitters.StopPropagation | test/index.js:317-342 | when listener1 returns `false`, listener3 is never called and `emit` returns `false` |
| EventEmitters.TwoAtDefault | index.js:62-66 | two `on` calls at the default priority share one bucket, visited in registration order |
| EventEmitters.BothListenersCalled | test/index.js:171-189 | two listeners that return normally are both called, in order, and `emit` returns `true` |
| EventEmitters.FirstListenerStops | test/index.js:191-208 | when the first of two equal-priority listeners returns `false`, the second is not called and `emit` returns `false` |
| EventEmitters.EmitBeforeOn | index.js:34-78 | as written, `emit` before `on` returns `undefined`, but the later `on` throws a `TypeError` |
| EventEmitters.EmitBeforeOnCorrected | index.js:72-78 | with the corrected `emit`, the same sequence registers the listener with handle `10.0` |
| EventEmitters.ResolveRegistered | test/index.js:358-393 | after `on`, resolving the name again finds its queue and adds nothing |
| EventEmitters.RegisteredEmitter | test/index.js:152-160 | `new EventEmitter()` plus one `on` gives one queue holding the listener at 10, with handle `10.0` |
| EventEmitters.EmitRegistered | test/index.js:152-169 | emitting to that emitter calls the listener once, with the context and the payload |
| EventEmitters.ContextAndPayload | test/index.js:210-286 | the listener receives the configured context (or `{}`) followed by the payload, and `emit` returns `true` |
| EventEmitters.ListenerThrows | test/index.js:344-356 | a listener's error leaves `emit` after that one call |
| EventEmitters.Unregister | index.js:69 | calling the function that `on` returned empties the queue for iteration |
| EventEmitters.EmitUnregistered | test/index.js:358-374 | emitting to an emptied queue calls nothing and returns `true` |
| EventEmitters.UnregisterBeforeEmit | test/index.js:358-374 | unregistering before `emit`: no call, and `true` |
| EventEmitters.UnregisterAfterEmit | test/index.js:376-393 | the first `emit` calls the listener once; after unregistering, the second calls nothing |

## Left out

- Listener invocation is not executed. Each listener's answer comes from a
  `respond` function: `Continue` for any return value other than `false`,
  `Stop` for `false`, and `Throw` for an exception. Side effects of
  listeners, such as re-entrant `on`/`emit`, are not modelled.
- EventEmitters.EventEmitter.Emit: does not model the queue being changed
  while the loop runs. The queue is read by one iterator that nothing else
  touches. The exception a listener throws is represented by the listener
  that threw it.
- Priorities are integers. Floating-point and non-numeric priorities are
  not modelled. `NaN` appears only as the result of parsing a handle.
  JavaScript numbers are exact only up to 2^53 - 1, and a template literal
  prints 1e21 and above in exponent form; the model renders every integer
  in plain decimal.
- Strings.IntToDecimal: states the rendering for every integer; it matches
  JavaScript only for safe integers (magnitude at most 2^53 - 1).
- Strings.IntToDecimalDigits: holds in JavaScript only for safe integers,
  for the same reason.
- Strings.ParseIntToDecimal: the round trip holds in JavaScript only for
  safe integers; from 1e21 on, the exponent form parses back as its
  leading digits.
- PriorityQueue.HandleRoundTrip: holds in JavaScript only for priorities
  that are safe integers. A handle of a priority of 1e21 or more reads back
  a different priority in `pop`.
- PriorityQueue.PaddedHandleRoundTrip: holds only for priorities that are
  safe integers, for the same reason.
- JavaScript object-property quirks are not modelled. Fragment names are
  ordinary map keys. A name equal to a queue's own field or to
  `__proto__` is not distinguished.
- In JavaScript, walking past a queue adds a property to the queue object.
  The model records that property as another entry of the path map.
- An option passed explicitly as `undefined` is modelled as "not given".
- The shared default context `{}` is one value (`EmptyObject`), not an
  object that listeners could mutate.
- EventEmitters.EventEmitter.On: the queue the factory would create is
  allocated before the lookup, so the same queue exists whether or not it
  is used. When it is unused, it is unreachable and unobservable.
- The unsubscribe closure returned by `on` is modelled as a `Subscription`
  (the queue and the handle). Calling the closure is `pop(handle)` on that
  queue, with the result discarded.
- EventEmitters.Unregister: covers only a queue that holds one listener, because in general the closure does not remove its own registration. The handle is a position in a bucket (src/PriorityIterable.js:57, 70), and an earlier pop from the same bucket moves later items down, so the handle then names the next item or nothing. PriorityQueue.StaleHandleExample shows this: after pushing `a`, `b` and `c` at 10 and popping `10.0`, `b`'s handle `10.1` removes `c`.
- The iterator's `[Symbol.iterator]` protocol is modelled as `Iterator()`
  plus a loop over `Next()`, and spreading as `ToSeq()`.
- PriorityLists.PriorityList.Add: models the linked list as the sequence
  of its nodes. Node identity and aliasing between nodes are not modelled.
- PriorityLists.AddedInOrder: requires the new priority not to be above
  the head's. Above the head the source misplaces the node; see Findings.
- PriorityLists.ReplayedInOrder: requires the first item added to carry
  the maximum priority, for the same reason.
- The `once`, `off`, `emitAsync` and `listen` functions named in the
  tests' sanity checks have no implementation in the source and are not
  modelled.
- src/PriorityArray_array-like-class-wip.js and
  src/PriorityArray_extends-array.js are not part of this model. They are
  unfinished alternatives that the emitter does not use.

## Findings

| source | as written | input that shows it | evidently intended | confidence | as-written member | corrected member |
|---|---|---|---|---|---|---|
| src/PriorityList.js:135-160 | A new priority above the head's is inserted at index 0 of the priorities array, so `minimumGreater` is the priority itself. It has no change point, so the walk starts at the head. The head's successor already has a lower priority, so the node is linked behind the head. | `add('A', 9)` then `add('B', 12)` iterates as `A`, `B` | `B` becomes the head: `B`, `A` | not executed | PriorityLists.AddedAboveHead, PriorityLists.MisorderedExample | PriorityLists.AddedCorrectedInOrder, PriorityLists.CorrectedExample |
| index.js:34-38 | `emit` resolves the name with a handler that returns `undefined`, and stores that `undefined` at the name. A later `on` for the same name finds the `undefined` instead of creating a queue, and `listeners.push` throws a `TypeError`. | `emit('Namespace:event')` then `on('Namespace:event', f)` throws | emitting a name without listeners leaves the tree as it was, so `on` can register afterwards. The correction covers only this `undefined` case: a name that fails at a later empty fragment, such as `emit('x:')`, still leaves the plain object stored at `x`, in both versions | not executed | EventEmitters.EmitBeforeOn | EventEmitters.EventEmitter.EmitCorrected, EventEmitters.EmitBeforeOnCorrected |
