/** The per-event listener queue of the emitter (src/PriorityIterable.js):
    a map from priority to a bucket of items, a strictly descending index of
    the priorities, and a length counter. Items are handed out with a string
    handle "<priority>.<position in bucket>". */
module PriorityQueue {
  import opened Wrappers
  import opened Strings
  import opened Ordering

  /** `DEFAULT_OPTIONS.defaultPriority`. */
  const DEFAULT_PRIORITY: int := 10

  /** The JavaScript `TypeError` raised when a handle names no bucket. */
  datatype Error = TypeError

  /** `priority || this.options.defaultPriority`, where `None` is `undefined`:
      the falsy priorities `undefined` and `0` fall back to the default. */
  function NormalizePriority(priority: Option<int>, defaultPriority: int): (p: int)
    ensures priority == None || priority == Some(0) ==> p == defaultPriority
    ensures priority.Some? && priority.value != 0 ==> p == priority.value
  {
    match priority
    case None => defaultPriority
    case Some(v) => if v == 0 then defaultPriority else v
  }

  /** The bucket of priority `p`, empty when there is none. */
  function Bucket<T>(data: map<int, seq<T>>, p: int): seq<T> {
    if p in data then data[p] else []
  }

  /** The items of one bucket, each with the bucket's priority. */
  function Tag<T>(items: seq<T>, p: int): (r: seq<Entry<T>>)
    ensures |r| == |items| && forall i :: 0 <= i < |items| ==> r[i] == Entry(items[i], p)
  {
    seq(|items|, i requires 0 <= i < |items| => Entry(items[i], p))
  }

  /** The well-formedness of the queue: the priority index is strictly
      descending and lists exactly the priorities that have a bucket. */
  ghost predicate Indexed<T>(ps: seq<int>, data: map<int, seq<T>>) {
    StrictlyDescending(ps) && Covers(ps, data) && forall p :: p in data ==> p in ps
  }

  /** Every indexed priority has a bucket. */
  predicate Covers<T>(ps: seq<int>, data: map<int, seq<T>>) {
    forall i :: 0 <= i < |ps| ==> ps[i] in data
  }

  /** What iteration visits: the buckets concatenated in index order. */
  function Tagged<T>(ps: seq<int>, data: map<int, seq<T>>): seq<Entry<T>>
    requires Covers(ps, data)
  {
    if ps == [] then [] else Tag(data[ps[0]], ps[0]) + Tagged(ps[1..], data)
  }

  /** The index after `push` with normalised priority `p`. */
  function PushedIndex(ps: seq<int>, p: int): seq<int> {
    if p in ps then ps else InsertDescending(ps, p)
  }

  /** The buckets after `push` of `x` with normalised priority `p`. */
  function PushedData<T>(data: map<int, seq<T>>, p: int, x: T): map<int, seq<T>> {
    data[p := Bucket(data, p) + [x]]
  }

  /** The handle `push` returns: `${priority}.${index}`. */
  function EncodeHandle(p: int, i: nat): string {
    IntToDecimal(p) + "." + NatToDecimal(i)
  }

  /** A handle after `split('.')` and `Number.parseInt` of its first two
      parts; `None` is `NaN`. */
  datatype DecodedHandle = DecodedHandle(priority: Option<int>, index: Option<int>)

  function DecodeHandle(h: string): DecodedHandle {
    var parts := Split(h, ".");
    DecodedHandle(ParseInt(parts[0]), if |parts| > 1 then ParseInt(parts[1]) else None)
  }

  /** Every handle `push` hands out decodes to the priority and position it
      was built from. */
  lemma HandleRoundTrip(p: int, i: nat)
    ensures DecodeHandle(EncodeHandle(p, i)) == DecodedHandle(Some(p), Some(i))
  {
    assert IntToDecimal(i) == NatToDecimal(i);
    SplitOneSeparator(IntToDecimal(p), '.', NatToDecimal(i));
    assert EncodeHandle(p, i) == IntToDecimal(p) + ['.'] + NatToDecimal(i);
    ParseIntToDecimal(p);
    ParseIntToDecimal(i);
  }

  /** `Number.parseInt` skips leading white space, so a handle with white
      space in front still names the item it was built for. */
  lemma PaddedHandleRoundTrip(w: string, p: int, i: nat)
    requires forall k :: 0 <= k < |w| ==> IsJsWhiteSpace(w[k])
    ensures DecodeHandle(w + EncodeHandle(p, i)) == DecodedHandle(Some(p), Some(i))
  {
    var a := w + IntToDecimal(p);
    NoDotAfterWhiteSpace(w, IntToDecimal(p));
    SplitOneSeparator(a, '.', NatToDecimal(i));
    assert w + EncodeHandle(p, i) == a + ['.'] + NatToDecimal(i);
    ParseIntSkipsWhiteSpace(w, IntToDecimal(p));
    ParseIntToDecimal(p);
    assert IntToDecimal(i) == NatToDecimal(i);
    ParseIntToDecimal(i);
  }

  lemma NoDotAfterWhiteSpace(w: string, d: string)
    requires forall k :: 0 <= k < |w| ==> IsJsWhiteSpace(w[k])
    requires '.' !in d
    ensures '.' !in w + d
  {
    forall k | 0 <= k < |w + d| ensures (w + d)[k] != '.' {
      if k < |w| {
        assert IsJsWhiteSpace(w[k]);
      } else {
        assert (w + d)[k] == d[k - |w|];
      }
    }
  }

  /** Where `splice(start, 1)` starts on an array of length `len`
      (`NaN` counts as 0, a negative start counts from the end). */
  function SpliceStart(start: Option<int>, len: nat): (k: nat)
    ensures k <= len
    ensures start.Some? && 0 <= start.value <= len ==> k == start.value
  {
    match start
    case None => 0
    case Some(s) => if s < 0 then (if len + s < 0 then 0 else len + s) else if s < len then s else len
  }

  /** The bucket after `splice(k, 1)` removed the item at position `k`: the
      items after it move down by one. */
  function RemoveAt<T>(b: seq<T>, k: nat): (r: seq<T>)
    requires k < |b|
    ensures |r| == |b| - 1
    ensures forall j :: 0 <= j < k ==> r[j] == b[j]
    ensures forall j :: k <= j < |r| ==> r[j] == b[j + 1]
  {
    b[..k] + b[k + 1..]
  }

  lemma {:induction false} TaggedConcat<T>(a: seq<int>, b: seq<int>, data: map<int, seq<T>>)
    requires Covers(a, data) && Covers(b, data)
    ensures Tagged(a + b, data) == Tagged(a, data) + Tagged(b, data)
    decreases |a|
  {
    if a == [] {
      assert a + b == b;
    } else {
      assert (a + b)[0] == a[0] && (a + b)[1..] == a[1..] + b;
      TaggedConcat(a[1..], b, data);
    }
  }

  lemma {:induction false} TaggedFrame<T>(ps: seq<int>, d1: map<int, seq<T>>, d2: map<int, seq<T>>)
    requires forall i :: 0 <= i < |ps| ==> ps[i] in d1 && ps[i] in d2 && d1[ps[i]] == d2[ps[i]]
    ensures Tagged(ps, d1) == Tagged(ps, d2)
    decreases |ps|
  {
    if ps != [] {
      TaggedFrame(ps[1..], d1, d2);
    }
  }

  /** Changing a bucket the index does not list changes nothing visited. */
  lemma {:induction false} TaggedUpdateFrame<T>(ps: seq<int>, data: map<int, seq<T>>, p: int, b: seq<T>)
    requires Covers(ps, data) && p !in ps
    ensures Tagged(ps, data[p := b]) == Tagged(ps, data)
    decreases |ps|
  {
    if ps != [] {
      assert ps[0] != p;
      assert p !in ps[1..] by { assert forall q :: q in ps[1..] ==> q in ps; }
      TaggedUpdateFrame(ps[1..], data, p, b);
    }
  }

  lemma {:induction false} TaggedPriorities<T>(ps: seq<int>, data: map<int, seq<T>>)
    requires Covers(ps, data)
    ensures forall i :: 0 <= i < |Tagged(ps, data)| ==> Tagged(ps, data)[i].priority in ps
    decreases |ps|
  {
    if ps != [] {
      TaggedPriorities(ps[1..], data);
      var t := Tagged(ps, data);
      var h := Tag(data[ps[0]], ps[0]);
      forall i | 0 <= i < |t| ensures t[i].priority in ps {
        if i >= |h| {
          assert t[i] == Tagged(ps[1..], data)[i - |h|];
          assert t[i].priority in ps[1..];
        }
      }
    }
  }

  lemma TaggedSingle<T>(p: int, data: map<int, seq<T>>)
    requires p in data
    ensures Tagged([p], data) == Tag(data[p], p)
  {
    assert [p][1..] == [];
  }

  /** Splits the index at the insertion point of `p`: everything visited
      before it has priority at least `p`, everything after it less. */
  lemma TaggedSplit<T>(ps: seq<int>, data: map<int, seq<T>>, p: int)
    requires Covers(ps, data) && forall j :: FirstBelow(ps, p) <= j < |ps| ==> ps[j] < p
    ensures var m := FirstBelow(ps, p);
      Tagged(ps, data) == Tagged(ps[..m], data) + Tagged(ps[m..], data)
      && FirstBelow(PrioritiesOf(Tagged(ps, data)), p) == |Tagged(ps[..m], data)|
  {
    var m := FirstBelow(ps, p);
    var lo, hi := ps[..m], ps[m..];
    assert Tagged(ps, data) == Tagged(lo, data) + Tagged(hi, data) by {
      assert ps == lo + hi;
      TaggedConcat(lo, hi, data);
    }
    TaggedAtLeast(lo, data, p);
    TaggedBelow(hi, data, p);
    SplitPoint(Tagged(lo, data), Tagged(hi, data), p);
  }

  /** Buckets of priority at least `p` visit only such items. */
  lemma TaggedAtLeast<T>(lo: seq<int>, data: map<int, seq<T>>, p: int)
    requires Covers(lo, data) && forall i :: 0 <= i < |lo| ==> lo[i] >= p
    ensures forall j :: 0 <= j < |Tagged(lo, data)| ==> Tagged(lo, data)[j].priority >= p
  {
    TaggedPriorities(lo, data);
    var tl := Tagged(lo, data);
    forall j | 0 <= j < |tl| ensures tl[j].priority >= p {
      var i :| 0 <= i < |lo| && lo[i] == tl[j].priority;
    }
  }

  /** Buckets of priority below `p` visit only such items. */
  lemma TaggedBelow<T>(hi: seq<int>, data: map<int, seq<T>>, p: int)
    requires Covers(hi, data) && forall i :: 0 <= i < |hi| ==> hi[i] < p
    ensures forall j :: 0 <= j < |Tagged(hi, data)| ==> Tagged(hi, data)[j].priority < p
  {
    TaggedPriorities(hi, data);
    var th := Tagged(hi, data);
    forall j | 0 <= j < |th| ensures th[j].priority < p {
      var i :| 0 <= i < |hi| && hi[i] == th[j].priority;
    }
  }

  /** A well-formed queue iterates by descending priority: whatever
      sequence of pushes and pops led to it, the strictly descending index
      puts every higher bucket before every lower one. */
  lemma {:induction false} TaggedSorted<T>(ps: seq<int>, data: map<int, seq<T>>)
    requires StrictlyDescending(ps) && Covers(ps, data)
    ensures SortedByPriority(Tagged(ps, data))
    decreases |ps|
  {
    if ps != [] {
      var h, rest := Tag(data[ps[0]], ps[0]), Tagged(ps[1..], data);
      TaggedSorted(ps[1..], data);
      TaggedBelow(ps[1..], data, ps[0]);
      var t := h + rest;
      assert Tagged(ps, data) == t;
      forall i, j | 0 <= i < j < |t| ensures t[i].priority >= t[j].priority {
        if j >= |h| {
          assert t[j] == rest[j - |h|];
          if i >= |h| {
            assert t[i] == rest[i - |h|];
          }
        }
      }
    }
  }

  /** Below the insertion point of `p` the index holds only smaller
      priorities; when `p` is already indexed it sits just before that point. */
  lemma InsertionPoint(ps: seq<int>, p: int)
    requires StrictlyDescending(ps)
    ensures var m := FirstBelow(ps, p);
      (forall j :: m <= j < |ps| ==> ps[j] < p) &&
      p !in ps[m..] && (p in ps ==> m >= 1 && ps[m - 1] == p && p !in ps[..m - 1])
  {
    var m := FirstBelow(ps, p);
    forall j | m <= j < |ps| ensures ps[j] < p {
      assert ps[j] <= ps[m];
    }
    forall j | 0 <= j < m - 1 ensures ps[j] > p {
      assert ps[j] > ps[m - 1];
    }
  }

  lemma PushIndexed<T>(ps: seq<int>, data: map<int, seq<T>>, p: int, x: T)
    requires Indexed(ps, data)
    ensures Indexed(PushedIndex(ps, p), PushedData(data, p, x))
  {
    if p !in ps {
      InsertDescendingSound(ps, p);
    }
  }

  lemma PushExisting<T>(ps: seq<int>, data: map<int, seq<T>>, p: int, x: T, m: nat)
    requires Covers(ps, data)
    requires 1 <= m <= |ps| && ps[m - 1] == p && p !in ps[..m - 1] && p !in ps[m..]
    ensures Tagged(ps, PushedData(data, p, x)) == Tagged(ps[..m], data) + [Entry(x, p)] + Tagged(ps[m..], data)
  {
    var b := data[p];
    ReplacedBucket(ps, data, p, b + [x], m);
    TaggedPrefixStep(ps, data, m - 1);
    TagAppend(b, x, p);
    var lo, hi := Tagged(ps[..m - 1], data), Tagged(ps[m..], data);
    assert lo + ((Tag(b, p) + [Entry(x, p)]) + hi) == (lo + Tag(b, p)) + [Entry(x, p)] + hi;
  }

  /** Appending to a bucket appends to its part of the iteration. */
  lemma TagAppend<T>(b: seq<T>, x: T, p: int)
    ensures Tag(b + [x], p) == Tag(b, p) + [Entry(x, p)]
  {
  }

  /** Replacing the bucket of an indexed priority changes only its part of
      the iteration. */
  lemma ReplacedBucket<T>(ps: seq<int>, data: map<int, seq<T>>, p: int, b: seq<T>, m: nat)
    requires Covers(ps, data)
    requires 1 <= m <= |ps| && ps[m - 1] == p && p !in ps[..m - 1] && p !in ps[m..]
    ensures Covers(ps, data[p := b])
    ensures Tagged(ps, data[p := b]) == Tagged(ps[..m - 1], data) + (Tag(b, p) + Tagged(ps[m..], data))
  {
    var lo1, hi := ps[..m - 1], ps[m..];
    assert ps == lo1 + ([p] + hi);
    FrontBucket(hi, data, p, b);
    TaggedConcatFrame(lo1, [p] + hi, data, data[p := b]);
  }

  lemma PushNew<T>(ps: seq<int>, data: map<int, seq<T>>, p: int, x: T)
    requires Covers(ps, data) && p !in data
    ensures var m := FirstBelow(ps, p);
      Tagged(InsertDescending(ps, p), PushedData(data, p, x)) == Tagged(ps[..m], data) + [Entry(x, p)] + Tagged(ps[m..], data)
  {
    var m := FirstBelow(ps, p);
    InsertedBucket(ps, data, p, [x]);
    PushedNewData(data, p, x);
    assert Tag([x], p) == [Entry(x, p)];
  }

  /** `push` of a new priority gives it a bucket holding just the item. */
  lemma PushedNewData<T>(data: map<int, seq<T>>, p: int, x: T)
    requires p !in data
    ensures PushedData(data, p, x) == data[p := [x]]
  {
    assert Bucket(data, p) + [x] == [x];
  }

  /** A bucket for a new priority, inserted into the index: iteration
      visits it between the priorities above and below. */
  lemma InsertedBucket<T>(ps: seq<int>, data: map<int, seq<T>>, p: int, b: seq<T>)
    requires Covers(ps, data) && p !in data
    ensures var m := FirstBelow(ps, p);
      Covers(InsertDescending(ps, p), data[p := b]) &&
      Tagged(InsertDescending(ps, p), data[p := b]) == Tagged(ps[..m], data) + (Tag(b, p) + Tagged(ps[m..], data))
  {
    var m := FirstBelow(ps, p);
    var lo, hi := ps[..m], ps[m..];
    InsertDescendingSplit(ps, p);
    FrontBucket(hi, data, p, b);
    TaggedConcatFrame(lo, [p] + hi, data, data[p := b]);
  }

  /** Concatenation where the buckets of the first part are the same in
      both maps. */
  lemma TaggedConcatFrame<T>(lo: seq<int>, hi: seq<int>, data: map<int, seq<T>>, data1: map<int, seq<T>>)
    requires Covers(lo, data) && Covers(hi, data1)
    requires forall i :: 0 <= i < |lo| ==> lo[i] in data1 && data1[lo[i]] == data[lo[i]]
    ensures Covers(lo + hi, data1)
    ensures Tagged(lo + hi, data1) == Tagged(lo, data) + Tagged(hi, data1)
  {
    TaggedConcat(lo, hi, data1);
    TaggedFrame(lo, data, data1);
  }

  /** A bucket in front of an index that does not list its priority. */
  lemma FrontBucket<T>(hi: seq<int>, data: map<int, seq<T>>, p: int, b: seq<T>)
    requires Covers(hi, data) && p !in hi
    ensures Covers([p] + hi, data[p := b])
    ensures Tagged([p] + hi, data[p := b]) == Tag(b, p) + Tagged(hi, data)
  {
    assert ([p] + hi)[1..] == hi;
    TaggedUpdateFrame(hi, data, p, b);
  }

  /** `push` keeps the queue well formed, and what iteration visits is the
      old order with the new item inserted stably: after every item of
      priority at least its own, before every item of lower priority. */
  lemma PushTagged<T>(ps: seq<int>, data: map<int, seq<T>>, p: int, x: T)
    requires Indexed(ps, data)
    ensures Indexed(PushedIndex(ps, p), PushedData(data, p, x))
    ensures Tagged(PushedIndex(ps, p), PushedData(data, p, x)) == StableInsert(Tagged(ps, data), Entry(x, p))
  {
    PushIndexed(ps, data, p, x);
    var m := FirstBelow(ps, p);
    InsertionPoint(ps, p);
    TaggedSplit(ps, data, p);
    StableInsertSeam(Tagged(ps[..m], data), Tagged(ps[m..], data), Entry(x, p));
    PushSplit(ps, data, p, x);
  }

  /** `push` stores exactly one more item, so it keeps `length` equal to
      the number of items iteration visits. */
  lemma PushCounted<T>(ps: seq<int>, data: map<int, seq<T>>, p: int, x: T)
    requires Indexed(ps, data)
    ensures |Tagged(PushedIndex(ps, p), PushedData(data, p, x))| == |Tagged(ps, data)| + 1
  {
    PushTagged(ps, data, p, x);
    StableInsertPermutes(Tagged(ps, data), Entry(x, p));
  }

  /** The state `push` leaves behind is well formed, and a counter that
      matched the stored items before matches them after its increment. */
  lemma PushKeepsCount<T>(ps: seq<int>, data: map<int, seq<T>>, n: int, p: int, x: T)
    requires Indexed(ps, data)
    ensures Indexed(PushedIndex(ps, p), PushedData(data, p, x))
    ensures n == |Tagged(ps, data)| ==> n + 1 == |Tagged(PushedIndex(ps, p), PushedData(data, p, x))|
  {
    PushIndexed(ps, data, p, x);
    PushCounted(ps, data, p, x);
  }

  /** After `push`, iteration visits the new item at the insertion point
      of its priority, whether that priority was indexed or not. */
  lemma PushSplit<T>(ps: seq<int>, data: map<int, seq<T>>, p: int, x: T)
    requires Indexed(ps, data)
    ensures var m := FirstBelow(ps, p);
      Covers(PushedIndex(ps, p), PushedData(data, p, x)) &&
      Tagged(PushedIndex(ps, p), PushedData(data, p, x)) == Tagged(ps[..m], data) + [Entry(x, p)] + Tagged(ps[m..], data)
  {
    PushIndexed(ps, data, p, x);
    var m := FirstBelow(ps, p);
    InsertionPoint(ps, p);
    if p in ps {
      PushExisting(ps, data, p, x, m);
    } else {
      PushNew(ps, data, p, x);
    }
  }

  /** Stable insertion at a known seam. */
  lemma StableInsertSeam<T>(lo: seq<Entry<T>>, hi: seq<Entry<T>>, e: Entry<T>)
    requires FirstBelow(PrioritiesOf(lo + hi), e.priority) == |lo|
    ensures StableInsert(lo + hi, e) == lo + [e] + hi
  {
    var s := lo + hi;
    assert s[..|lo|] == lo && s[|lo|..] == hi;
  }

  /** The index and the buckets of a queue. */
  datatype Fields<T> = Fields(ps: seq<int>, data: map<int, seq<T>>)

  /** The fields of a fresh queue after `push` of each entry in turn, each
      entry carrying its normalised priority. */
  function Replayed<T>(es: seq<Entry<T>>): Fields<T>
  {
    if es == [] then Fields([], map[])
    else
      var f := Replayed(es[..|es| - 1]);
      var e := es[|es| - 1];
      Fields(PushedIndex(f.ps, e.priority), PushedData(f.data, e.priority, e.item))
  }

  /** Pushes into a fresh queue leave it well formed, iterating in the
      reference order: the stable sort of the pushes by descending priority. */
  lemma {:induction false} ReplayedQueue<T>(es: seq<Entry<T>>)
    ensures Indexed(Replayed(es).ps, Replayed(es).data)
    ensures Tagged(Replayed(es).ps, Replayed(es).data) == SortByPriority(es)
    decreases |es|
  {
    if es != [] {
      var init, e := es[..|es| - 1], es[|es| - 1];
      ReplayedQueue(init);
      PushTagged(Replayed(init).ps, Replayed(init).data, e.priority, e.item);
    }
  }

  /** What iteration of such a queue visits is sorted by descending
      priority, holds exactly the pushed entries, and keeps push order
      within each priority. */
  lemma ReplayedOrder<T>(es: seq<Entry<T>>)
    ensures var r := Replayed(es);
      Indexed(r.ps, r.data) &&
      var t := Tagged(r.ps, r.data);
      && SortedByPriority(t)
      && multiset(t) == multiset(es)
      && forall q :: WithPriority(t, q) == WithPriority(es, q)
  {
    ReplayedQueue(es);
    SortByPrioritySorted(es);
    SortByPriorityPermutes(es);
    forall q ensures WithPriority(SortByPriority(es), q) == WithPriority(es, q) {
      SortByPriorityStable(es, q);
    }
  }

  lemma PopRestoresNew<T>(ps: seq<int>, data: map<int, seq<T>>, p: int)
    requires Covers(ps, data) && p !in data
    ensures Tagged(InsertDescending(ps, p), data[p := []]) == Tagged(ps, data)
  {
    var m := FirstBelow(ps, p);
    var lo, hi := ps[..m], ps[m..];
    InsertedBucket(ps, data, p, []);
    assert Tag<T>([], p) == [];
    assert Tagged(ps, data) == Tagged(lo, data) + Tagged(hi, data) by {
      assert ps == lo + hi;
      TaggedConcat(lo, hi, data);
    }
  }

  /** Popping the handle of the item just pushed removes that item and
      nothing else: what iteration visits is as before the push. */
  lemma PushThenPop<T>(ps: seq<int>, data: map<int, seq<T>>, p: int, x: T)
    requires Indexed(ps, data)
    ensures var data1 := PushedData(data, p, x);
      var h := DecodeHandle(EncodeHandle(p, |Bucket(data, p)|));
      h.priority == Some(p) && p in data1 &&
      var k := SpliceStart(h.index, |data1[p]|);
      k < |data1[p]| && data1[p][k] == x &&
      var data2 := data1[p := RemoveAt(data1[p], k)];
      Covers(PushedIndex(ps, p), data2) && Tagged(PushedIndex(ps, p), data2) == Tagged(ps, data)
  {
    var b := Bucket(data, p);
    HandleRoundTrip(p, |b|);
    var data1 := PushedData(data, p, x);
    assert data1[p] == b + [x];
    assert RemoveAt(b + [x], |b|) == b;
    PushThenRestore(ps, data, p, x);
  }

  /** Putting back the bucket `push` appended to undoes the push, as far
      as iteration can tell. */
  lemma PushThenRestore<T>(ps: seq<int>, data: map<int, seq<T>>, p: int, x: T)
    requires Indexed(ps, data)
    ensures var data2 := PushedData(data, p, x)[p := Bucket(data, p)];
      Covers(PushedIndex(ps, p), data2) && Tagged(PushedIndex(ps, p), data2) == Tagged(ps, data)
  {
    var b := Bucket(data, p);
    var data2 := PushedData(data, p, x)[p := b];
    if p in ps {
      assert data2 == data;
    } else {
      assert p !in data && b == [];
      assert data2 == data[p := []];
      assert Covers(InsertDescending(ps, p), data2) by {
        InsertDescendingSound(ps, p);
      }
      PopRestoresNew(ps, data, p);
    }
  }

  /** Removing one item of one bucket shortens iteration by exactly one. */
  lemma {:induction false} TaggedRemoveLength<T>(ps: seq<int>, data: map<int, seq<T>>, p: int, k: nat)
    requires StrictlyDescending(ps) && Covers(ps, data)
    requires p in ps && k < |data[p]|
    ensures |Tagged(ps, data[p := RemoveAt(data[p], k)])| == |Tagged(ps, data)| - 1
    decreases |ps|
  {
    var d1 := data[p := RemoveAt(data[p], k)];
    if ps[0] == p {
      assert p !in ps[1..];
      TaggedFrame(ps[1..], data, d1);
    } else {
      TaggedRemoveLength(ps[1..], data, p, k);
    }
  }

  /** The visit order up to index position `k + 1` extends the one up to `k`
      by bucket `k`. */
  lemma TaggedPrefixStep<T>(ps: seq<int>, data: map<int, seq<T>>, k: nat)
    requires k < |ps| && Covers(ps, data)
    ensures Tagged(ps[..k + 1], data) == Tagged(ps[..k], data) + Tag(data[ps[k]], ps[k])
    ensures Tagged(ps, data) == Tagged(ps[..k + 1], data) + Tagged(ps[k + 1..], data)
  {
    assert ps[..k + 1] == ps[..k] + [ps[k]];
    TaggedConcat(ps[..k], [ps[k]], data);
    TaggedSingle(ps[k], data);
    assert ps == ps[..k + 1] + ps[k + 1..];
    TaggedConcat(ps[..k + 1], ps[k + 1..], data);
  }

  /** Where the cursor (bucket `pi`, position `ii`) stands in the visit order;
      a position past the end of its bucket counts as the bucket's end. */
  function Position<T>(ps: seq<int>, data: map<int, seq<T>>, pi: nat, ii: nat): nat
    requires Covers(ps, data) && pi <= |ps|
  {
    if pi == |ps| then |Tagged(ps, data)|
    else
      var size := |data[ps[pi]]|;
      |Tagged(ps[..pi], data)| + (if ii < size then ii else size)
  }

  /** The item under a cursor inside its bucket, and the step past it. */
  lemma CursorItem<T>(ps: seq<int>, data: map<int, seq<T>>, pi: nat, ii: nat)
    requires Covers(ps, data) && pi < |ps| && ii < |data[ps[pi]]|
    ensures Position(ps, data, pi, ii) < |Tagged(ps, data)|
    ensures Tagged(ps, data)[Position(ps, data, pi, ii)] == Entry(data[ps[pi]][ii], ps[pi])
    ensures Position(ps, data, pi, ii + 1) == Position(ps, data, pi, ii) + 1
  {
    TaggedPrefixStep(ps, data, pi);
    var lo, b := Tagged(ps[..pi], data), Tag(data[ps[pi]], ps[pi]);
    assert (lo + b)[|lo| + ii] == b[ii];
  }

  /** A cursor past the end of its bucket stands where the next bucket
      starts. */
  lemma CursorSkip<T>(ps: seq<int>, data: map<int, seq<T>>, pi: nat, ii: nat)
    requires Covers(ps, data) && pi < |ps| && ii >= |data[ps[pi]]|
    ensures Position(ps, data, pi + 1, 0) == Position(ps, data, pi, ii)
  {
    TaggedPrefixStep(ps, data, pi);
    if pi + 1 == |ps| {
      assert ps[..pi + 1] == ps && ps[pi + 1..] == [];
    }
  }

  class PriorityIterable<T> {
    const defaultPriority: int
    var prioritizedData: map<int, seq<T>>
    var priorities: seq<int>
    var length: int

    ghost predicate Valid()
      reads this
    {
      Indexed(priorities, prioritizedData)
    }

    /** The items in the order iteration visits them, with their priorities. */
    ghost function Contents(): seq<Entry<T>>
      reads this
      requires Valid()
    {
      Tagged(priorities, prioritizedData)
    }

    /** The length counter agrees with the number of stored items. */
    ghost predicate Counted()
      reads this
      requires Valid()
    {
      length == |Contents()|
    }

    /** `new PriorityIterable(options)`; `None` leaves `defaultPriority` at 10. */
    constructor(defaultPriority: Option<int>)
      ensures Valid() && Counted() && Contents() == []
      ensures priorities == [] && prioritizedData == map[] && length == 0
      ensures this.defaultPriority == if defaultPriority.Some? then defaultPriority.value else DEFAULT_PRIORITY
    {
      this.defaultPriority := if defaultPriority.Some? then defaultPriority.value else DEFAULT_PRIORITY;
      prioritizedData := map[];
      priorities := [];
      length := 0;
    }

    /** `push(item, priority)`: a new priority is inserted into the index by a
        linear scan; the item is appended to its bucket; the handle names the
        priority and the item's position in the bucket. */
    method Push(item: T, priority: Option<int>) returns (handle: string)
      requires Valid()
      modifies this
      ensures Valid()
      ensures var p := NormalizePriority(priority, defaultPriority);
        && priorities == PushedIndex(old(priorities), p)
        && prioritizedData == PushedData(old(prioritizedData), p, item)
        && length == old(length) + 1
        && handle == EncodeHandle(p, |Bucket(old(prioritizedData), p)|)
      ensures old(Counted()) ==> Counted()
    {
      var p := NormalizePriority(priority, defaultPriority);
      var indexOnPrioritizedData := Store(item, p);
      handle := EncodeHandle(p, indexOnPrioritizedData);
    }

    /** The state change of `push` for normalised priority `p`: index the
        priority when it is new, append the item to its bucket, count it, and
        give back the item's position in the bucket. */
    method Store(item: T, p: int) returns (indexOnPrioritizedData: nat)
      requires Valid()
      modifies this
      ensures Valid()
      ensures priorities == PushedIndex(old(priorities), p)
      ensures prioritizedData == PushedData(old(prioritizedData), p, item)
      ensures length == old(length) + 1
      ensures indexOnPrioritizedData == |Bucket(old(prioritizedData), p)|
      ensures old(Counted()) ==> Counted()
    {
      ghost var ps0, data0, length0 := priorities, prioritizedData, length;
      if p !in priorities {
        assert p !in prioritizedData;
        prioritizedData := prioritizedData[p := []];
        InsertPriority(p);
      }
      assert priorities == PushedIndex(ps0, p);
      assert Bucket(data0, p) == prioritizedData[p];
      var bucket := prioritizedData[p] + [item];
      prioritizedData := prioritizedData[p := bucket];
      indexOnPrioritizedData := |bucket| - 1;
      length := length + 1;
      assert prioritizedData == PushedData(data0, p, item);
      PushKeepsCount(ps0, data0, length0, p, item);
    }

    /** The scan of `push` for a priority not yet in the index: the first
        slot holding a lower priority receives it, and when there is none
        it goes to the end. */
    method InsertPriority(p: int)
      requires p !in priorities
      modifies this
      ensures priorities == PushedIndex(old(priorities), p)
      ensures prioritizedData == old(prioritizedData) && length == old(length)
    {
      ghost var ps0 := priorities;
      var added := false;
      var i := 0;
      while i < |priorities|
        invariant priorities == ps0 && 0 <= i <= |ps0|
        invariant forall j :: 0 <= j < i ==> ps0[j] >= p
      {
        if priorities[i] < p {
          InsertAtScanPoint(ps0, p, i);
          priorities := priorities[..i] + [p] + priorities[i..];
          added := true;
          break;
        }
        i := i + 1;
      }
      if !added {
        InsertAtScanPoint(ps0, p, |ps0|);
        assert ps0[..|ps0|] == ps0 && ps0[|ps0|..] == [];
        priorities := priorities + [p];
      }
    }

    /** `pop(handle)`: splits the handle, parses both parts and splices one
        item out of the named bucket. The counter goes down even when the
        splice removes nothing; the priority stays in the index. */
    method Pop(handle: string) returns (r: Result<Option<T>, Error>)
      requires Valid()
      modifies this
      ensures Valid() && priorities == old(priorities)
      ensures var h := DecodeHandle(handle);
        if h.priority.None? || h.priority.value !in old(prioritizedData) then
          r == Failure(TypeError) && prioritizedData == old(prioritizedData) && length == old(length)
        else
          var b := old(prioritizedData)[h.priority.value];
          var k := SpliceStart(h.index, |b|);
          length == old(length) - 1 &&
          if k < |b| then
            r == Success(Some(b[k])) && prioritizedData == old(prioritizedData)[h.priority.value := RemoveAt(b, k)]
          else
            r == Success(None) && prioritizedData == old(prioritizedData)
      ensures old(Counted()) && r.Success? && r.value.Some? ==> Counted()
    {
      var h := DecodeHandle(handle);
      if h.priority.None? || h.priority.value !in prioritizedData {
        return Failure(TypeError);
      }
      var p := h.priority.value;
      var bucket := prioritizedData[p];
      var k := SpliceStart(h.index, |bucket|);
      if k < |bucket| {
        r := Success(Some(bucket[k]));
        TaggedRemoveLength(priorities, prioritizedData, p, k);
        prioritizedData := prioritizedData[p := RemoveAt(bucket, k)];
      } else {
        r := Success(None);
      }
      length := length - 1;
    }

    /** The `iterator` getter: a fresh cursor at the highest priority. */
    method Iterator() returns (it: PriorityIterator<T>)
      ensures fresh(it) && it.source == this
      ensures it.currentPriorityIndex == 0 && it.currentItemIndex == 0
    {
      it := new PriorityIterator(this);
    }

    /** `[...iterable]`: drains a fresh iterator; the result is every item,
        by descending priority and, within a priority, in push order. */
    method ToSeq() returns (items: seq<T>)
      requires Valid()
      ensures items == ItemsOf(Contents())
    {
      var it := Iterator();
      ghost var ps, data := priorities, prioritizedData;
      ghost var all := ItemsOf(Tagged(ps, data));
      assert Contents() == Tagged(ps, data);
      items := [];
      while true
        invariant it.source == this && it.Valid() && priorities == ps && prioritizedData == data
        invariant |items| <= |all| && it.Pos() == |items| && items == all[..|items|]
        decreases |all| - |items|
      {
        var r := it.Next();
        if r.None? {
          break;
        }
        assert all[..|items| + 1] == items + [r.value];
        items := items + [r.value];
      }
      assert items == all;
    }
  }

  /** The object the `iterator` getter returns: a cursor over the index and
      the current bucket, reading bucket lengths live. */
  class PriorityIterator<T> {
    const source: PriorityIterable<T>
    var currentPriorityIndex: nat
    var currentItemIndex: nat

    constructor(source: PriorityIterable<T>)
      ensures this.source == source && currentPriorityIndex == 0 && currentItemIndex == 0
    {
      this.source := source;
      currentPriorityIndex := 0;
      currentItemIndex := 0;
    }

    ghost predicate Valid()
      reads this, source
    {
      source.Valid() && currentPriorityIndex <= |source.priorities|
    }

    /** How many items of the visit order lie before the cursor. */
    ghost function Pos(): nat
      reads this, source
      requires Valid()
    {
      Position(source.priorities, source.prioritizedData, currentPriorityIndex, currentItemIndex)
    }

    /** `next()`: the item at the cursor, skipping exhausted buckets; at the
        end it reports done (`None`) and rewinds to the first bucket. */
    method Next() returns (r: Option<T>)
      requires Valid()
      modifies this
      decreases |source.priorities| - currentPriorityIndex
      ensures Valid()
      ensures old(Pos()) < |source.Contents()| ==>
        r == Some(source.Contents()[old(Pos())].item) && Pos() == old(Pos()) + 1
      ensures old(Pos()) >= |source.Contents()| ==>
        r == None && currentPriorityIndex == 0 && currentItemIndex == 0
    {
      var ps, data := source.priorities, source.prioritizedData;
      if currentPriorityIndex == |ps| {
        currentPriorityIndex := 0;
        currentItemIndex := 0;
        return None;
      }
      var bucket := data[ps[currentPriorityIndex]];
      var size := |bucket|;
      if currentItemIndex < size {
        CursorItem(ps, data, currentPriorityIndex, currentItemIndex);
        r := Some(bucket[currentItemIndex]);
        currentItemIndex := currentItemIndex + 1;
        return;
      }
      CursorSkip(ps, data, currentPriorityIndex, currentItemIndex);
      currentPriorityIndex := currentPriorityIndex + 1;
      currentItemIndex := 0;
      r := Next();
    }
  }

  /** The index of the example below: 10 first, then 20 in front of it. */
  lemma ExampleIndex()
    ensures PushedIndex([], 10) == [10] && PushedIndex([10], 20) == [20, 10]
  {
    InsertAtScanPoint([], 10, 0);
    InsertAtScanPoint([10], 20, 0);
  }

  /** The buckets of the example below: `first` and `third` share 10. */
  lemma ExampleData()
    ensures PushedData(PushedData(PushedData(map[], 10, "first"), 20, "second"), 10, "third")
      == map[10 := ["first", "third"], 20 := ["second"]]
  {
    assert [] + ["first"] == ["first"] && [] + ["second"] == ["second"];
    assert ["first"] + ["third"] == ["first", "third"];
    var d1 := PushedData(map[], 10, "first");
    assert d1 == map[10 := ["first"]];
    var d2 := PushedData(d1, 20, "second");
    assert d2 == map[10 := ["first"], 20 := ["second"]];
    assert Bucket(d2, 10) == ["first"];
  }

  /** The example's buckets read in index order. */
  lemma ExampleContents()
    ensures Tagged([20, 10], map[10 := ["first", "third"], 20 := ["second"]])
      == [Entry("second", 20), Entry("first", 10), Entry("third", 10)]
  {
    var data := map[10 := ["first", "third"], 20 := ["second"]];
    var t1, t2 := Tag(["first", "third"], 10), Tag(["second"], 20);
    assert t1 == [Entry("first", 10), Entry("third", 10)] by {
      assert t1[0] == Entry("first", 10) && t1[1] == Entry("third", 10);
    }
    assert t2 == [Entry("second", 20)];
    assert Tagged([10], data) == t1 + Tagged([], data);
    assert Tagged([20, 10], data) == t2 + Tagged([10], data);
  }

  /** The queue of the example below, after its three pushes. */
  method ExampleQueue() returns (q: PriorityIterable<string>)
    ensures q.Valid()
    ensures q.Contents() == [Entry("second", 20), Entry("first", 10), Entry("third", 10)]
  {
    q := new PriorityIterable<string>(None);
    var h1 := q.Push("first", Some(10));
    var h2 := q.Push("second", Some(20));
    var h3 := q.Push("third", None);
    ExampleIndex();
    ExampleData();
    ExampleContents();
  }

  /** One push into a fresh queue: its bucket is all iteration visits. */
  lemma SinglePush<T>(x: T, p: int)
    ensures PushedIndex([], p) == [p] && PushedData(map[], p, x) == map[p := [x]]
    ensures Covers([p], map[p := [x]]) && ItemsOf(Tagged([p], map[p := [x]])) == [x]
  {
    InsertAtScanPoint([], p, 0);
    assert Bucket(map[], p) + [x] == [x];
    TaggedSingle(p, map[p := [x]]);
  }

  /** The single-push test: `first` pushed at 10 is all that spreading yields. */
  method SinglePushExample() returns (items: seq<string>)
    ensures items == ["first"]
  {
    var q := new PriorityIterable<string>(None);
    var h := q.Push("first", Some(10));
    SinglePush("first", 10);
    items := q.ToSeq();
  }

  /** `pop(" 10.0")` on a queue holding `first` at 10: the padded handle
      still removes `first`. */
  method PaddedPopExample() returns (r: Result<Option<string>, Error>)
    ensures r == Success(Some("first"))
  {
    var q := new PriorityIterable<string>(None);
    var h := q.Push("first", Some(10));
    SinglePush("first", 10);
    PaddedHandleRoundTrip(" ", 10, 0);
    r := q.Pop(" " + h);
  }

  /** The buckets after pushing `a`, `b` and `c` at 10, and the bucket
      lengths their handles record. */
  lemma SharedBucketData()
    ensures PushedData(map[], 10, "a") == map[10 := ["a"]]
    ensures PushedData(map[10 := ["a"]], 10, "b") == map[10 := ["a", "b"]]
    ensures PushedData(map[10 := ["a", "b"]], 10, "c") == map[10 := ["a", "b", "c"]]
    ensures |Bucket<string>(map[], 10)| == 0 && |Bucket(map[10 := ["a"]], 10)| == 1
  {
    assert [] + ["a"] == ["a"];
    assert ["a"] + ["b"] == ["a", "b"];
    assert ["a", "b"] + ["c"] == ["a", "b", "c"];
  }

  /** `a`, `b` and `c` pushed at 10 share one bucket; the handles of `a`
      and `b` name positions 0 and 1 of it. */
  method SharedBucketQueue() returns (q: PriorityIterable<string>, ha: string, hb: string)
    ensures fresh(q) && q.Valid() && q.priorities == [10] && q.prioritizedData == map[10 := ["a", "b", "c"]]
    ensures ha == EncodeHandle(10, 0) && hb == EncodeHandle(10, 1)
  {
    q := new PriorityIterable<string>(None);
    SinglePush("a", 10);
    SharedBucketData();
    ha := q.Push("a", Some(10));
    hb := q.Push("b", Some(10));
    var hc := q.Push("c", Some(10));
  }

  /** The two `splice(k, 1)` calls of the example below: position 0 of
      `a, b, c`, then position 1 of what is left. */
  lemma StaleHandleRemovals()
    ensures SpliceStart(Some(0), 3) == 0 && RemoveAt(["a", "b", "c"], 0) == ["b", "c"]
    ensures SpliceStart(Some(1), 2) == 1 && RemoveAt(["b", "c"], 1) == ["b"]
  {
  }

  /** A handle names a position in its bucket, not an item: once `a` is
      popped by its handle, `b` and `c` move down, so `b`'s handle removes
      `c` and `b` stays in the queue. */
  method StaleHandleExample() returns (first: Result<Option<string>, Error>, second: Result<Option<string>, Error>, rest: seq<string>)
    ensures first == Success(Some("a")) && second == Success(Some("c")) && rest == ["b"]
  {
    var q, ha, hb := SharedBucketQueue();
    HandleRoundTrip(10, 0);
    HandleRoundTrip(10, 1);
    StaleHandleRemovals();
    first := q.Pop(ha);
    second := q.Pop(hb);
    rest := q.ToSeq();
    TaggedSingle(10, q.prioritizedData);
  }

  /** Pushes `first` at 10, `second` at 20 and `third` at the default
      priority, then spreads the queue: the higher priority comes first and
      the two items of priority 10 keep their push order. */
  method IterationOrderExample() returns (items: seq<string>)
    ensures items == ["second", "first", "third"]
  {
    var q := ExampleQueue();
    items := q.ToSeq();
    assert ItemsOf(q.Contents()) == ["second", "first", "third"];
  }
}
