/** The ordering both listener queues promise: descending priority, and
    registration order among equal priorities. The stable insertion here is
    the reference that the two queue implementations are proved against. */
module Ordering {

  /** An item stored with its priority (a list node without its link). */
  datatype Entry<T> = Entry(item: T, priority: int)

  /** A priority index: strictly descending, hence without duplicates. */
  predicate StrictlyDescending(s: seq<int>) {
    forall i, j :: 0 <= i < j < |s| ==> s[i] > s[j]
  }

  function PrioritiesOf<T>(s: seq<Entry<T>>): (r: seq<int>)
    ensures |r| == |s| && forall i :: 0 <= i < |s| ==> r[i] == s[i].priority
  {
    if s == [] then [] else [s[0].priority] + PrioritiesOf(s[1..])
  }

  function ItemsOf<T>(s: seq<Entry<T>>): (r: seq<T>)
    ensures |r| == |s| && forall i :: 0 <= i < |s| ==> r[i] == s[i].item
  {
    if s == [] then [] else [s[0].item] + ItemsOf(s[1..])
  }

  /** Non-increasing priorities. */
  predicate SortedByPriority<T>(s: seq<Entry<T>>) {
    forall i, j :: 0 <= i < j < |s| ==> s[i].priority >= s[j].priority
  }

  /** The first position whose value is below `p`. */
  function FirstBelow(s: seq<int>, p: int): (k: nat)
    ensures k <= |s|
    ensures forall j :: 0 <= j < k ==> s[j] >= p
    ensures k < |s| ==> s[k] < p
  {
    if s == [] || s[0] < p then 0 else 1 + FirstBelow(s[1..], p)
  }

  /** `FirstBelow` is determined by the properties its contract lists. */
  lemma FirstBelowUnique(s: seq<int>, p: int, k: nat)
    requires k <= |s| && (forall j :: 0 <= j < k ==> s[j] >= p) && (k < |s| ==> s[k] < p)
    ensures FirstBelow(s, p) == k
  {
  }

  /** Inserting a new priority into the index, before the first smaller one. */
  function InsertDescending(s: seq<int>, p: int): seq<int> {
    var k := FirstBelow(s, p);
    s[..k] + [p] + s[k..]
  }

  /** Entries of priority at least `p` followed by entries below it: the
      insertion point of `p` is the seam. */
  lemma SplitPoint<T>(a: seq<Entry<T>>, b: seq<Entry<T>>, p: int)
    requires forall j :: 0 <= j < |a| ==> a[j].priority >= p
    requires forall j :: 0 <= j < |b| ==> b[j].priority < p
    ensures FirstBelow(PrioritiesOf(a + b), p) == |a|
  {
    var t := a + b;
    assert forall j :: 0 <= j < |a| ==> t[j] == a[j];
    assert |a| < |t| ==> t[|a|] == b[0];
    FirstBelowUnique(PrioritiesOf(t), p, |a|);
  }

  /** `InsertDescending` split at its insertion point. */
  lemma InsertDescendingSplit(s: seq<int>, p: int)
    ensures var k := FirstBelow(s, p);
      InsertDescending(s, p) == s[..k] + ([p] + s[k..])
  {
    var k := FirstBelow(s, p);
    assert s[..k] + [p] + s[k..] == s[..k] + ([p] + s[k..]);
  }

  /** A scan that stops at position `i`, the first value below `p`, inserts
      where `InsertDescending` does. */
  lemma InsertAtScanPoint(s: seq<int>, p: int, i: nat)
    requires i <= |s| && (forall j :: 0 <= j < i ==> s[j] >= p) && (i < |s| ==> s[i] < p)
    ensures InsertDescending(s, p) == s[..i] + [p] + s[i..]
  {
    FirstBelowUnique(s, p, i);
  }

  /** The index stays strictly descending and gains exactly `p`. */
  lemma InsertDescendingSound(s: seq<int>, p: int)
    requires StrictlyDescending(s) && p !in s
    ensures var r := InsertDescending(s, p);
      StrictlyDescending(r) && |r| == |s| + 1 && forall x :: x in r <==> x == p || x in s
  {
    var k := FirstBelow(s, p);
    var r := InsertDescending(s, p);
    assert forall x :: x in r <==> x == p || x in s by {
      assert s == s[..k] + s[k..];
    }
    assert StrictlyDescending(r) by {
      InsertDescendingShape(s, p);
      forall i, j | 0 <= i < j < |r| ensures r[i] > r[j] {
        if j < k || i > k {
        } else if i == k {
          assert r[j] == s[j - 1];
        } else {
          assert i < k && r[i] == s[i];
          if j == k { assert s[i] != p; } else { assert r[j] == s[j - 1]; }
        }
      }
    }
  }

  /** Where `InsertDescending` puts `p`, and where the others go. */
  lemma InsertDescendingShape(s: seq<int>, p: int)
    ensures var k, r := FirstBelow(s, p), InsertDescending(s, p);
      && |r| == |s| + 1 && r[k] == p
      && (forall j :: 0 <= j < k ==> r[j] == s[j])
      && (forall j :: k < j < |r| ==> r[j] == s[j - 1])
  {
    InsertAtShape(s, FirstBelow(s, p), p);
  }

  /** Inserting `x` at position `k`: what lands where. */
  lemma InsertAtShape<X>(s: seq<X>, k: nat, x: X)
    requires k <= |s|
    ensures var r := s[..k] + [x] + s[k..];
      && |r| == |s| + 1 && r[k] == x
      && (forall j :: 0 <= j < k ==> r[j] == s[j])
      && (forall j :: k < j < |r| ==> r[j] == s[j - 1])
  {
  }

  /** Taking the inserted element out again gives back the sequence. */
  lemma InsertAtRemove<X>(s: seq<X>, k: nat, x: X)
    requires k <= |s|
    ensures var r := s[..k] + [x] + s[k..]; r[..k] + r[k + 1..] == s
  {
    var r := s[..k] + [x] + s[k..];
    assert r[..k] == s[..k] && r[k + 1..] == s[k..];
    assert s[..k] + s[k..] == s;
  }

  /** Stable insertion: the new entry goes after every entry whose priority
      is at least its own, and before the rest. */
  function StableInsert<T>(s: seq<Entry<T>>, e: Entry<T>): (r: seq<Entry<T>>)
    ensures |r| == |s| + 1
  {
    var k := FirstBelow(PrioritiesOf(s), e.priority);
    s[..k] + [e] + s[k..]
  }

  /** Stable insertion is characterised by its insertion point: after the
      entries of priority at least the new one's, before the rest. */
  lemma StableInsertAt<T>(s: seq<Entry<T>>, e: Entry<T>, k: nat)
    requires k <= |s| && (forall j :: 0 <= j < k ==> s[j].priority >= e.priority)
    requires k < |s| ==> s[k].priority < e.priority
    ensures StableInsert(s, e) == s[..k] + [e] + s[k..]
  {
    FirstBelowUnique(PrioritiesOf(s), e.priority, k);
  }

  /** Inserting adds exactly the one entry. */
  lemma StableInsertPermutes<T>(s: seq<Entry<T>>, e: Entry<T>)
    ensures multiset(StableInsert(s, e)) == multiset(s) + multiset{e}
  {
    var k := FirstBelow(PrioritiesOf(s), e.priority);
    assert s == s[..k] + s[k..];
  }

  /** The reference order for a sequence of registrations: insert them one
      after the other, stably. */
  function SortByPriority<T>(es: seq<Entry<T>>): seq<Entry<T>> {
    if es == [] then [] else StableInsert(SortByPriority(es[..|es| - 1]), es[|es| - 1])
  }

  /** The entries of priority `q`, in order. */
  function WithPriority<T>(s: seq<Entry<T>>, q: int): seq<Entry<T>> {
    if s == [] then []
    else (if s[0].priority == q then [s[0]] else []) + WithPriority(s[1..], q)
  }

  lemma {:induction false} WithPriorityConcat<T>(a: seq<Entry<T>>, b: seq<Entry<T>>, q: int)
    ensures WithPriority(a + b, q) == WithPriority(a, q) + WithPriority(b, q)
    decreases |a|
  {
    if a != [] {
      assert (a + b)[1..] == a[1..] + b;
      WithPriorityConcat(a[1..], b, q);
    } else {
      assert a + b == b;
    }
  }

  lemma {:induction false} WithPriorityNone<T>(s: seq<Entry<T>>, q: int)
    requires forall i :: 0 <= i < |s| ==> s[i].priority != q
    ensures WithPriority(s, q) == []
    decreases |s|
  {
    if s != [] {
      WithPriorityNone(s[1..], q);
    }
  }

  /** Where stable insertion puts the entry, and where the others go. */
  lemma StableInsertShape<T>(s: seq<Entry<T>>, e: Entry<T>)
    ensures var k, r := FirstBelow(PrioritiesOf(s), e.priority), StableInsert(s, e);
      && r[k] == e
      && (forall j :: 0 <= j < k ==> r[j] == s[j])
      && (forall j :: k < j < |r| ==> r[j] == s[j - 1])
  {
    InsertAtShape(s, FirstBelow(PrioritiesOf(s), e.priority), e);
  }

  /** Inserting keeps the order sorted. */
  lemma StableInsertSorted<T>(s: seq<Entry<T>>, e: Entry<T>)
    requires SortedByPriority(s)
    ensures SortedByPriority(StableInsert(s, e))
  {
    var k := FirstBelow(PrioritiesOf(s), e.priority);
    var r := StableInsert(s, e);
    StableInsertShape(s, e);
    forall i, j | 0 <= i < j < |r| ensures r[i].priority >= r[j].priority {
      if j < k || i > k {
        if i > k { assert r[i] == s[i - 1] && r[j] == s[j - 1]; }
      } else if i == k {
        assert r[j] == s[j - 1];
        assert k < |s| && s[k].priority < e.priority;
      } else if j == k {
        assert r[i] == s[i];
      } else {
        assert r[i] == s[i] && r[j] == s[j - 1];
      }
    }
  }

  /** Inserting is stable: among entries of one priority, the new entry comes
      last and the others keep their order. */
  lemma StableInsertWithPriority<T>(s: seq<Entry<T>>, e: Entry<T>, q: int)
    requires SortedByPriority(s)
    ensures WithPriority(StableInsert(s, e), q)
         == WithPriority(s, q) + (if e.priority == q then [e] else [])
  {
    var k := FirstBelow(PrioritiesOf(s), e.priority);
    StableInsertSplit(s, e, q);
    var wa, wb := WithPriority(s[..k], q), WithPriority(s[k..], q);
    if e.priority == q {
      assert wb == [] by {
        TailBelow(s, k, q);
      }
      assert WithPriority([e], q) == [e];
      assert wa + [e] + wb == (wa + wb) + [e];
    } else {
      assert WithPriority([e], q) == [];
      assert wa + [] + wb == wa + wb;
    }
  }

  /** The entries of one priority, before and after the insertion point. */
  lemma StableInsertSplit<T>(s: seq<Entry<T>>, e: Entry<T>, q: int)
    ensures var k := FirstBelow(PrioritiesOf(s), e.priority);
      && WithPriority(s, q) == WithPriority(s[..k], q) + WithPriority(s[k..], q)
      && WithPriority(StableInsert(s, e), q) == WithPriority(s[..k], q) + WithPriority([e], q) + WithPriority(s[k..], q)
  {
    var k := FirstBelow(PrioritiesOf(s), e.priority);
    var a, b := s[..k], s[k..];
    assert WithPriority(s, q) == WithPriority(a, q) + WithPriority(b, q) by {
      assert s == a + b;
      WithPriorityConcat(a, b, q);
    }
    WithPriorityConcat(a + [e], b, q);
    WithPriorityConcat(a, [e], q);
  }

  /** Past the insertion point of priority `q`, no entry has priority `q`. */
  lemma TailBelow<T>(s: seq<Entry<T>>, k: nat, q: int)
    requires SortedByPriority(s) && k <= |s| && (k < |s| ==> s[k].priority < q)
    ensures WithPriority(s[k..], q) == []
  {
    forall i | 0 <= i < |s[k..]| ensures s[k..][i].priority != q {
      assert s[k + i].priority <= s[k].priority;
    }
    WithPriorityNone(s[k..], q);
  }

  /** The reference order is sorted by descending priority. */
  lemma {:induction false} SortByPrioritySorted<T>(es: seq<Entry<T>>)
    ensures SortedByPriority(SortByPriority(es))
    decreases |es|
  {
    if es != [] {
      SortByPrioritySorted(es[..|es| - 1]);
      StableInsertSorted(SortByPriority(es[..|es| - 1]), es[|es| - 1]);
    }
  }

  /** The reference order is a permutation of the registrations. */
  lemma {:induction false} SortByPriorityPermutes<T>(es: seq<Entry<T>>)
    ensures multiset(SortByPriority(es)) == multiset(es)
    decreases |es|
  {
    if es != [] {
      var init, last := es[..|es| - 1], es[|es| - 1];
      SortByPriorityPermutes(init);
      StableInsertPermutes(SortByPriority(init), last);
      assert es == init + [last];
      assert multiset(es) == multiset(init) + multiset{last};
    }
  }

  /** The reference order keeps registration order within each priority. */
  lemma {:induction false} SortByPriorityStable<T>(es: seq<Entry<T>>, q: int)
    ensures WithPriority(SortByPriority(es), q) == WithPriority(es, q)
    decreases |es|
  {
    if es != [] {
      var init, last := es[..|es| - 1], es[|es| - 1];
      var sorted := SortByPriority(init);
      assert SortByPriority(es) == StableInsert(sorted, last);
      SortByPriorityStable(init, q);
      SortByPrioritySorted(init);
      StableInsertWithPriority(sorted, last, q);
      assert es == init + [last];
      WithPriorityConcat(init, [last], q);
      assert WithPriority([last], q) == if last.priority == q then [last] else [];
    }
  }

  /** Priorities that never rise from one entry to the next are sorted. */
  lemma AdjacentSorted<T>(es: seq<Entry<T>>)
    requires forall i :: 0 < i < |es| ==> es[i - 1].priority >= es[i].priority
    ensures SortedByPriority(es)
  {
    forall i, j | 0 <= i < j < |es| ensures es[i].priority >= es[j].priority {
      AdjacentChain(es, i, j);
    }
  }

  lemma {:induction false} AdjacentChain<T>(es: seq<Entry<T>>, i: nat, j: nat)
    requires forall i :: 0 < i < |es| ==> es[i - 1].priority >= es[i].priority
    requires i <= j < |es|
    ensures es[i].priority >= es[j].priority
    decreases j - i
  {
    if i < j {
      AdjacentChain(es, i, j - 1);
    }
  }

  /** Registrations already in descending order are their own reference
      order. */
  lemma {:induction false} SortByPriorityOfSorted<T>(es: seq<Entry<T>>)
    requires SortedByPriority(es)
    ensures SortByPriority(es) == es
    decreases |es|
  {
    if es != [] {
      var init, last := es[..|es| - 1], es[|es| - 1];
      assert SortedByPriority(init) by {
        forall i, j | 0 <= i < j < |init| ensures init[i].priority >= init[j].priority {
          assert init[i] == es[i] && init[j] == es[j];
        }
      }
      SortByPriorityOfSorted(init);
      forall j | 0 <= j < |init| ensures init[j].priority >= last.priority {
        assert init[j] == es[j];
      }
      StableInsertAt(init, last, |init|);
      assert init[..|init|] == init && init[|init|..] == [];
      assert init + [last] == es;
    }
  }

  /** An entry no higher than the first one stays behind it. */
  lemma StableInsertKeepsHead<T>(s: seq<Entry<T>>, e: Entry<T>)
    requires s != [] && e.priority <= s[0].priority
    ensures StableInsert(s, e)[0] == s[0]
  {
    StableInsertShape(s, e);
    assert FirstBelow(PrioritiesOf(s), e.priority) > 0;
  }

  /** When no later registration is above the first one, the first one
      stays in front. */
  lemma {:induction false} SortByPriorityHead<T>(es: seq<Entry<T>>)
    requires es != [] && forall i :: 0 < i < |es| ==> es[i].priority <= es[0].priority
    ensures SortByPriority(es)[0] == es[0]
    decreases |es|
  {
    if |es| > 1 {
      var init := es[..|es| - 1];
      SortByPriorityHead(init);
      StableInsertKeepsHead(SortByPriority(init), es[|es| - 1]);
    }
  }

  /** One step of the reference order, given where the next registration
      lands; `next` is the resulting order, spelled out entry by entry. */
  lemma SortPrefixStep<T>(es: seq<Entry<T>>, n: nat, sorted: seq<Entry<T>>, k: nat, next: seq<Entry<T>>)
    requires n < |es| && SortByPriority(es[..n]) == sorted
    requires k <= |sorted| && (forall j :: 0 <= j < k ==> sorted[j].priority >= es[n].priority)
    requires k < |sorted| ==> sorted[k].priority < es[n].priority
    requires |next| == |sorted| + 1 && next[k] == es[n]
    requires forall j :: 0 <= j < k ==> next[j] == sorted[j]
    requires forall j :: k < j < |next| ==> next[j] == sorted[j - 1]
    ensures SortByPriority(es[..n + 1]) == next
  {
    assert es[..n + 1][..n] == es[..n];
    StableInsertAt(sorted, es[n], k);
    InsertAtShape(sorted, k, es[n]);
    var r := sorted[..k] + [es[n]] + sorted[k..];
    assert forall j :: 0 <= j < |r| ==> next[j] == r[j];
  }
}
