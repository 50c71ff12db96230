/** The linked-list queue: nodes in descending priority, a sorted array of
    the priorities present, and "change points" naming the first node of
    every priority except the head's. The list is modelled as the sequence
    of its nodes from `head` along `next`; a node reference is its position
    in that sequence. */
module PriorityLists {
  import opened Wrappers
  import opened Ordering

  datatype Error = TypeError

  /** The priority argument of `add`: a number, or any other JS value. */
  datatype PriorityArg = Number(value: int) | NotANumber

  /** The first position holding a value not above `v`. */
  function FirstAtMost(s: seq<int>, v: int): (k: nat)
    ensures k <= |s|
    ensures forall j :: 0 <= j < k ==> s[j] > v
    ensures k < |s| ==> s[k] <= v
  {
    if s == [] || s[0] <= v then 0 else 1 + FirstAtMost(s[1..], v)
  }

  /** `findOrInsertAndGetIndex(array, value)`: scans the array for the
      first value not above `value`. A smaller value there receives `value`
      in front of it and its position is returned; an equal value, or no
      such value, leaves the array as long as before the scan, so `value`
      is appended and the old length returned. */
  method FindOrInsertAndGetIndex(values: seq<int>, value: int) returns (result: seq<int>, index: nat)
    ensures (result, index) == FoundOrInserted(values, value)
  {
    var len := |values|;
    result := values;
    var i := 0;
    while i < len
      invariant 0 <= i <= len && result == values
      invariant forall j :: 0 <= j < i ==> values[j] > value
    {
      if result[i] == value {
        break;
      }
      if result[i] < value {
        result := result[..i] + [value] + result[i..];
        break;
      }
      i := i + 1;
    }
    if |result| == len {
      result := result + [value];
      i := len;
    }
    index := i;
  }

  /** The sequence with `e` linked in at position `k`. */
  function Spliced<T>(s: seq<Entry<T>>, k: nat, e: Entry<T>): (r: seq<Entry<T>>)
    requires k <= |s|
    ensures |r| == |s| + 1 && r[k] == e
    ensures forall j :: 0 <= j < k ==> r[j] == s[j]
    ensures forall j :: k < j < |r| ==> r[j] == s[j - 1]
  {
    s[..k] + [e] + s[k..]
  }

  /** Change points after a node is linked in behind position `at`: every
      node further down the list moves one position on. */
  function Shifted(cp: map<int, nat>, at: int): (r: map<int, nat>)
    ensures r.Keys == cp.Keys
    ensures forall q :: q in cp ==> r[q] == if cp[q] > at then cp[q] + 1 else cp[q]
  {
    map q | q in cp :: if cp[q] > at then cp[q] + 1 else cp[q]
  }

  /** Position `c` holds the first node of priority `q` that is not the
      head. */
  predicate FirstOfPriority<T>(nodes: seq<Entry<T>>, q: int, c: int) {
    0 < c < |nodes| && nodes[c].priority == q && nodes[c - 1].priority > q
  }

  /** Every change point names the first node of its priority. */
  ghost predicate ChangePointsFirst<T>(nodes: seq<Entry<T>>, cp: map<int, nat>) {
    forall q :: q in cp ==> FirstOfPriority(nodes, q, cp[q])
  }

  /** Every priority other than the head's has a change point. */
  ghost predicate ChangePointsComplete<T>(nodes: seq<Entry<T>>, cp: map<int, nat>) {
    forall i :: 0 <= i < |nodes| && nodes[i].priority != nodes[0].priority ==> nodes[i].priority in cp
  }

  /** The array of priorities holds exactly the node priorities. */
  ghost predicate SamePriorities<T>(nodes: seq<Entry<T>>, ps: seq<int>) {
    && (forall i :: 0 <= i < |nodes| ==> nodes[i].priority in ps)
    && (forall k :: 0 <= k < |ps| ==> ps[k] in PrioritiesOf(nodes))
  }

  /** The shape the list keeps while every priority added after the first
      node is at most the head's: nodes in descending priority; the array
      of priorities strictly descending and holding exactly the node
      priorities; the head's priority without a change point; and every
      other priority's change point at its first node. */
  ghost predicate WellOrdered<T>(nodes: seq<Entry<T>>, ps: seq<int>, cp: map<int, nat>) {
    && SortedByPriority(nodes)
    && StrictlyDescending(ps)
    && SamePriorities(nodes, ps)
    && (nodes != [] ==> nodes[0].priority !in cp)
    && ChangePointsFirst(nodes, cp)
    && ChangePointsComplete(nodes, cp)
  }

  /** A priority in the array that differs from the head's has a change
      point. */
  lemma NonHeadHasChangePoint<T>(nodes: seq<Entry<T>>, ps: seq<int>, cp: map<int, nat>, q: int)
    requires SamePriorities(nodes, ps) && ChangePointsComplete(nodes, cp)
    requires nodes != [] && q in ps && q != nodes[0].priority
    ensures q in cp
  {
    var k :| 0 <= k < |ps| && ps[k] == q;
    var i :| 0 <= i < |nodes| && PrioritiesOf(nodes)[i] == q;
  }

  /** The highest priority in the array is the head's. */
  lemma HeadIsMaximum<T>(nodes: seq<Entry<T>>, ps: seq<int>)
    requires SortedByPriority(nodes) && StrictlyDescending(ps) && SamePriorities(nodes, ps) && nodes != []
    ensures ps != [] && ps[0] == nodes[0].priority
  {
    assert nodes[0].priority in ps;
    var j :| 0 <= j < |ps| && ps[j] == nodes[0].priority;
    var i :| 0 <= i < |nodes| && PrioritiesOf(nodes)[i] == ps[0];
    assert ps[0] >= ps[j];
  }

  /** A walk that stops at a node of priority at least `e.priority` whose
      successor is lower (or absent) links `e` in where stable insertion
      puts it. */
  lemma WalkEndIsInsertionPoint<T>(nodes: seq<Entry<T>>, e: Entry<T>, at: nat)
    requires SortedByPriority(nodes) && at < |nodes| && nodes[at].priority >= e.priority
    requires at + 1 == |nodes| || nodes[at + 1].priority < e.priority
    ensures StableInsert(nodes, e) == Spliced(nodes, at + 1, e)
  {
    forall j | 0 <= j < at + 1 ensures nodes[j].priority >= e.priority {
      assert nodes[j].priority >= nodes[at].priority;
    }
    StableInsertAt(nodes, e, at + 1);
  }

  /** The priorities of a list after a node is linked in. */
  lemma SplicedPriorities<T>(nodes: seq<Entry<T>>, k: nat, e: Entry<T>)
    requires k <= |nodes|
    ensures forall x :: x in PrioritiesOf(Spliced(nodes, k, e)) <==> x == e.priority || x in PrioritiesOf(nodes)
  {
    var r := Spliced(nodes, k, e);
    var s, t := PrioritiesOf(nodes), PrioritiesOf(r);
    forall x ensures x in t <==> x == e.priority || x in s {
      if x in t {
        var i :| 0 <= i < |t| && t[i] == x;
        if i < k { assert s[i] == x; } else if i > k { assert s[i - 1] == x; }
      }
      if x == e.priority {
        assert t[k] == x;
      } else if x in s {
        var i :| 0 <= i < |s| && s[i] == x;
        if i < k { assert t[i] == x; } else { assert t[i + 1] == x; }
      }
    }
  }

  /** Linking in a node of a priority already in the array keeps the
      array exact. */
  lemma SplicedSamePriorities<T>(nodes: seq<Entry<T>>, ps: seq<int>, e: Entry<T>, k: nat)
    requires SamePriorities(nodes, ps) && e.priority in ps && k <= |nodes|
    ensures SamePriorities(Spliced(nodes, k, e), ps)
  {
    var r := Spliced(nodes, k, e);
    SplicedPriorities(nodes, k, e);
    forall i | 0 <= i < |r| ensures r[i].priority in ps {
      if i > k { assert r[i] == nodes[i - 1]; }
    }
  }

  /** Linking in a node of a new priority, and inserting that priority
      into the array, keeps the array exact. */
  lemma SplicedNewPriority<T>(nodes: seq<Entry<T>>, ps: seq<int>, e: Entry<T>, k: nat)
    requires SamePriorities(nodes, ps) && StrictlyDescending(ps) && e.priority !in ps && k <= |nodes|
    ensures SamePriorities(Spliced(nodes, k, e), InsertDescending(ps, e.priority))
  {
    NodesInNewArray(nodes, ps, e, k);
    NewArrayInNodes(nodes, ps, e, k);
  }

  lemma NodesInNewArray<T>(nodes: seq<Entry<T>>, ps: seq<int>, e: Entry<T>, k: nat)
    requires (forall i :: 0 <= i < |nodes| ==> nodes[i].priority in ps)
    requires StrictlyDescending(ps) && e.priority !in ps && k <= |nodes|
    ensures var r, ps2 := Spliced(nodes, k, e), InsertDescending(ps, e.priority);
      forall i :: 0 <= i < |r| ==> r[i].priority in ps2
  {
    var r, ps2 := Spliced(nodes, k, e), InsertDescending(ps, e.priority);
    InsertDescendingSound(ps, e.priority);
    forall i | 0 <= i < |r| ensures r[i].priority in ps2 {
      if i > k { assert r[i] == nodes[i - 1]; }
    }
  }

  lemma NewArrayInNodes<T>(nodes: seq<Entry<T>>, ps: seq<int>, e: Entry<T>, k: nat)
    requires (forall j :: 0 <= j < |ps| ==> ps[j] in PrioritiesOf(nodes))
    requires StrictlyDescending(ps) && e.priority !in ps && k <= |nodes|
    ensures var r, ps2 := Spliced(nodes, k, e), InsertDescending(ps, e.priority);
      forall j :: 0 <= j < |ps2| ==> ps2[j] in PrioritiesOf(r)
  {
    var r, ps2 := Spliced(nodes, k, e), InsertDescending(ps, e.priority);
    var t := PrioritiesOf(r);
    forall j | 0 <= j < |ps2| ensures ps2[j] in t {
      var x := ps2[j];
      if x == e.priority {
        assert t[k] == x;
      } else {
        assert x in ps by { InsertDescendingSound(ps, e.priority); }
        var m :| 0 <= m < |ps| && ps[m] == x;
        var i :| 0 <= i < |nodes| && PrioritiesOf(nodes)[i] == x;
        if i < k { assert t[i] == x; } else { assert t[i + 1] == x; }
      }
    }
  }

  /** A change point keeps naming the first node of its priority once
      `e` is linked in behind the end of the walk. */
  lemma ChangePointShifted<T>(nodes: seq<Entry<T>>, e: Entry<T>, at: nat, q: int, c: nat)
    requires FirstOfPriority(nodes, q, c)
    requires at < |nodes| && (at + 1 == |nodes| || nodes[at + 1].priority < e.priority)
    ensures FirstOfPriority(Spliced(nodes, at + 1, e), q, if c > at then c + 1 else c)
  {
    var r := Spliced(nodes, at + 1, e);
    if c > at {
      assert r[c + 1] == nodes[c];
      if c > at + 1 { assert r[c] == nodes[c - 1]; }
    } else {
      assert r[c] == nodes[c] && r[c - 1] == nodes[c - 1];
    }
  }

  /** The shifted change points still name first nodes of their
      priorities once `e` is linked in behind the end of the walk. */
  lemma ChangePointsShifted<T>(nodes: seq<Entry<T>>, cp: map<int, nat>, e: Entry<T>, at: nat)
    requires ChangePointsFirst(nodes, cp)
    requires at < |nodes| && (at + 1 == |nodes| || nodes[at + 1].priority < e.priority)
    ensures ChangePointsFirst(Spliced(nodes, at + 1, e), Shifted(cp, at))
  {
    var r, cp2 := Spliced(nodes, at + 1, e), Shifted(cp, at);
    forall q | q in cp2 ensures FirstOfPriority(r, q, cp2[q]) {
      ChangePointShifted(nodes, e, at, q, cp[q]);
    }
  }

  /** After linking in a node of a priority already present, every
      priority other than the head's still has a change point. */
  lemma ChangePointsCompleteExisting<T>(nodes: seq<Entry<T>>, ps: seq<int>, cp: map<int, nat>, e: Entry<T>, k: nat)
    requires SamePriorities(nodes, ps) && ChangePointsComplete(nodes, cp)
    requires e.priority in ps && 0 < k <= |nodes|
    ensures ChangePointsComplete(Spliced(nodes, k, e), Shifted(cp, k - 1))
  {
    var r := Spliced(nodes, k, e);
    forall i | 0 <= i < |r| && r[i].priority != r[0].priority ensures r[i].priority in cp {
      if i == k {
        NonHeadHasChangePoint(nodes, ps, cp, e.priority);
      } else if i > k {
        assert r[i] == nodes[i - 1];
      }
    }
  }

  /** After linking in a node of a new priority and giving it a change
      point, every priority other than the head's has one. */
  lemma ChangePointsCompleteNew<T>(nodes: seq<Entry<T>>, cp: map<int, nat>, e: Entry<T>, k: nat)
    requires ChangePointsComplete(nodes, cp) && 0 < k <= |nodes|
    ensures ChangePointsComplete(Spliced(nodes, k, e), Shifted(cp, k - 1)[e.priority := k])
  {
    var r := Spliced(nodes, k, e);
    forall i | 0 <= i < |r| && r[i].priority != r[0].priority && r[i].priority != e.priority
      ensures r[i].priority in cp
    {
      if i > k { assert r[i] == nodes[i - 1]; }
    }
  }

  /** Linking in a node of a priority already present, behind the end of
      the walk, keeps the list well ordered; the change points past the
      new node move on by one. */
  lemma InsertExisting<T>(nodes: seq<Entry<T>>, ps: seq<int>, cp: map<int, nat>, e: Entry<T>, at: nat)
    requires WellOrdered(nodes, ps, cp) && e.priority in ps
    requires at < |nodes| && nodes[at].priority >= e.priority
    requires at + 1 == |nodes| || nodes[at + 1].priority < e.priority
    ensures WellOrdered(Spliced(nodes, at + 1, e), ps, Shifted(cp, at))
  {
    WalkEndIsInsertionPoint(nodes, e, at);
    StableInsertSorted(nodes, e);
    SplicedSamePriorities(nodes, ps, e, at + 1);
    ChangePointsShifted(nodes, cp, e, at);
    ChangePointsCompleteExisting(nodes, ps, cp, e, at + 1);
  }

  /** Linking in a node of a new priority, behind the end of the walk,
      keeps the list well ordered once the priority is inserted into the
      array and its change point set to the new node. */
  lemma InsertNew<T>(nodes: seq<Entry<T>>, ps: seq<int>, cp: map<int, nat>, e: Entry<T>, at: nat)
    requires WellOrdered(nodes, ps, cp) && e.priority !in ps
    requires at < |nodes| && nodes[at].priority >= e.priority
    requires at + 1 == |nodes| || nodes[at + 1].priority < e.priority
    ensures WellOrdered(Spliced(nodes, at + 1, e), InsertDescending(ps, e.priority), Shifted(cp, at)[e.priority := at + 1])
  {
    var p := e.priority;
    var r, ps2, cp1 := Spliced(nodes, at + 1, e), InsertDescending(ps, p), Shifted(cp, at);
    assert SortedByPriority(r) by {
      WalkEndIsInsertionPoint(nodes, e, at);
      StableInsertSorted(nodes, e);
    }
    assert StrictlyDescending(ps2) by {
      InsertDescendingSound(ps, p);
    }
    assert SamePriorities(r, ps2) by {
      SplicedNewPriority(nodes, ps, e, at + 1);
    }
    assert nodes[at].priority > p by {
      assert nodes[at].priority in ps;
    }
    assert r[0].priority !in cp1[p := at + 1] by {
      assert r[0] == nodes[0] && nodes[0].priority >= nodes[at].priority;
    }
    assert ChangePointsFirst(r, cp1[p := at + 1]) by {
      ChangePointsShifted(nodes, cp, e, at);
      assert FirstOfPriority(r, p, at + 1);
    }
    ChangePointsCompleteNew(nodes, cp, e, at + 1);
  }
  /** A node of a priority above the head's, linked in front of it, makes
      the old head's priority a change point at position 1. */
  lemma InsertHead<T>(nodes: seq<Entry<T>>, ps: seq<int>, cp: map<int, nat>, e: Entry<T>)
    requires WellOrdered(nodes, ps, cp) && nodes != [] && e.priority > nodes[0].priority
    ensures StableInsert(nodes, e) == Spliced(nodes, 0, e)
    ensures WellOrdered(Spliced(nodes, 0, e), InsertDescending(ps, e.priority),
                        Shifted(cp, -1)[nodes[0].priority := 1])
  {
    var p, h := e.priority, nodes[0].priority;
    var r, ps2, cp1 := Spliced(nodes, 0, e), InsertDescending(ps, p), Shifted(cp, -1);
    var cp2 := cp1[h := 1];
    assert p !in ps by {
      HeadIsMaximum(nodes, ps);
    }
    assert StableInsert(nodes, e) == r by {
      FirstBelowUnique(PrioritiesOf(nodes), p, 0);
    }
    assert SortedByPriority(r) by {
      StableInsertSorted(nodes, e);
    }
    assert StrictlyDescending(ps2) by {
      InsertDescendingSound(ps, p);
    }
    SplicedNewPriority(nodes, ps, e, 0);
    InsertHeadChangePoints(nodes, cp, e);
  }

  /** Every priority with a change point lies strictly below the head's. */
  lemma ChangePointsBelowHead<T>(nodes: seq<Entry<T>>, cp: map<int, nat>)
    requires SortedByPriority(nodes) && ChangePointsFirst(nodes, cp) && nodes != []
    ensures forall q :: q in cp ==> q < nodes[0].priority
  {
    forall q | q in cp ensures q < nodes[0].priority {
      assert FirstOfPriority(nodes, q, cp[q]);
      assert nodes[0].priority >= nodes[cp[q] - 1].priority;
    }
  }

  /** The change points after linking a node in front of the head: every
      old one moves one position on, and the old head's priority gets one
      at position 1. */
  lemma InsertHeadChangePoints<T>(nodes: seq<Entry<T>>, cp: map<int, nat>, e: Entry<T>)
    requires SortedByPriority(nodes) && ChangePointsFirst(nodes, cp) && ChangePointsComplete(nodes, cp)
    requires nodes != [] && nodes[0].priority !in cp && e.priority > nodes[0].priority
    ensures var r, cp2 := Spliced(nodes, 0, e), Shifted(cp, -1)[nodes[0].priority := 1];
      && r[0].priority !in cp2 && ChangePointsFirst(r, cp2) && ChangePointsComplete(r, cp2)
  {
    var p, h := e.priority, nodes[0].priority;
    var r, cp2 := Spliced(nodes, 0, e), Shifted(cp, -1)[h := 1];
    assert p !in cp2 by {
      ChangePointsBelowHead(nodes, cp);
    }
    assert ChangePointsFirst(r, cp2) by {
      forall q | q in cp2 ensures FirstOfPriority(r, q, cp2[q]) {
        if q != h {
          var c := cp[q];
          assert r[c + 1] == nodes[c] && r[c] == nodes[c - 1];
        } else {
          assert r[1] == nodes[0];
        }
      }
    }
    assert ChangePointsComplete(r, cp2) by {
      forall i | 0 <= i < |r| && r[i].priority != r[0].priority && r[i].priority != h
        ensures r[i].priority in cp
      {
        assert r[i] == nodes[i - 1];
      }
    }
  }

  /** `add` of a priority already present, under the intended shape: the
      walk from the head or from the priority's change point ends where
      stable insertion puts the node. */
  lemma AddExistingPriority<T>(nodes: seq<Entry<T>>, ps: seq<int>, cp: map<int, nat>, e: Entry<T>, start: nat, at: nat)
    requires WellOrdered(nodes, ps, cp) && nodes != [] && e.priority in ps
    requires start == if e.priority in cp then cp[e.priority] else 0
    requires start <= at < |nodes| && forall j :: start < j <= at ==> nodes[j].priority >= e.priority
    requires at + 1 == |nodes| || nodes[at + 1].priority < e.priority
    ensures e.priority <= nodes[0].priority
    ensures StableInsert(nodes, e) == Spliced(nodes, at + 1, e)
    ensures WellOrdered(Spliced(nodes, at + 1, e), ps, Shifted(cp, at))
  {
    HeadIsMaximum(nodes, ps);
    var j :| 0 <= j < |ps| && ps[j] == e.priority;
    assert ps[0] >= ps[j];
    assert nodes[start].priority >= e.priority by {
      if e.priority in cp { assert FirstOfPriority(nodes, e.priority, start); }
    }
    assert nodes[at].priority >= e.priority;
    WalkEndIsInsertionPoint(nodes, e, at);
    InsertExisting(nodes, ps, cp, e, at);
  }

  /** `add` of a new priority, under the intended shape. The array scan
      returns `k`; the walk starts at the change point of the priority just
      above (or at the head). When the new priority is at most the head's
      the node lands where stable insertion puts it; when it is above, the
      scan returns 0 and the walk stops at once, behind the head. */
  lemma AddNewPriority<T>(nodes: seq<Entry<T>>, ps: seq<int>, cp: map<int, nat>, e: Entry<T>, k: nat, start: nat, at: nat)
    requires WellOrdered(nodes, ps, cp) && nodes != [] && e.priority !in ps
    requires k <= |ps| && InsertDescending(ps, e.priority)[k] == e.priority
    requires start == var mg := if k == 0 then e.priority else InsertDescending(ps, e.priority)[k - 1];
      if mg in cp then cp[mg] else 0
    requires start <= at < |nodes| && forall j :: start < j <= at ==> nodes[j].priority >= e.priority
    requires at + 1 == |nodes| || nodes[at + 1].priority < e.priority
    ensures e.priority <= nodes[0].priority ==>
      && StableInsert(nodes, e) == Spliced(nodes, at + 1, e)
      && WellOrdered(Spliced(nodes, at + 1, e), InsertDescending(ps, e.priority), Shifted(cp, at)[e.priority := at + 1])
    ensures e.priority > nodes[0].priority ==> at == 0
  {
    if e.priority <= nodes[0].priority {
      AddNewBelowHead(nodes, ps, cp, e, k, start, at);
    } else {
      AddNewAboveHead(nodes, ps, cp, e, k, start, at);
    }
  }

  lemma AddNewBelowHead<T>(nodes: seq<Entry<T>>, ps: seq<int>, cp: map<int, nat>, e: Entry<T>, k: nat, start: nat, at: nat)
    requires WellOrdered(nodes, ps, cp) && nodes != [] && e.priority !in ps && e.priority <= nodes[0].priority
    requires k <= |ps| && InsertDescending(ps, e.priority)[k] == e.priority
    requires start == var mg := if k == 0 then e.priority else InsertDescending(ps, e.priority)[k - 1];
      if mg in cp then cp[mg] else 0
    requires start <= at < |nodes| && forall j :: start < j <= at ==> nodes[j].priority >= e.priority
    requires at + 1 == |nodes| || nodes[at + 1].priority < e.priority
    ensures StableInsert(nodes, e) == Spliced(nodes, at + 1, e)
    ensures WellOrdered(Spliced(nodes, at + 1, e), InsertDescending(ps, e.priority), Shifted(cp, at)[e.priority := at + 1])
  {
    var p := e.priority;
    var ps2 := InsertDescending(ps, p);
    assert k > 0 && ps2[k - 1] > p by {
      NewPriorityBelowHead(nodes, ps, p, k);
    }
    assert nodes[start].priority >= p by {
      StartAtLeast(nodes, cp, ps2[k - 1], p, start);
    }
    assert nodes[at].priority >= p;
    WalkEndIsInsertionPoint(nodes, e, at);
    InsertNew(nodes, ps, cp, e, at);
  }

  /** A new priority at most the head's is not inserted at the front of
      the array: the priority just above it exists. */
  lemma NewPriorityBelowHead<T>(nodes: seq<Entry<T>>, ps: seq<int>, p: int, k: nat)
    requires SortedByPriority(nodes) && StrictlyDescending(ps) && SamePriorities(nodes, ps)
    requires nodes != [] && p !in ps && p <= nodes[0].priority
    requires k <= |ps| && InsertDescending(ps, p)[k] == p
    ensures k > 0 && InsertDescending(ps, p)[k - 1] > p
  {
    var h, ps2 := nodes[0].priority, InsertDescending(ps, p);
    HeadIsMaximum(nodes, ps);
    InsertDescendingSound(ps, p);
    assert h in ps2;
    var j :| 0 <= j < |ps2| && ps2[j] == h;
    assert j < k;
  }

  /** The walk for a new priority starts at a node of priority at least
      its own: the change point of a higher priority, or the head. */
  lemma StartAtLeast<T>(nodes: seq<Entry<T>>, cp: map<int, nat>, mg: int, p: int, start: nat)
    requires ChangePointsFirst(nodes, cp) && nodes != [] && mg > p && nodes[0].priority >= p
    requires start == if mg in cp then cp[mg] else 0
    ensures start < |nodes| && nodes[start].priority >= p
  {
    if mg in cp {
      assert FirstOfPriority(nodes, mg, start);
    }
  }

  lemma AddNewAboveHead<T>(nodes: seq<Entry<T>>, ps: seq<int>, cp: map<int, nat>, e: Entry<T>, k: nat, start: nat, at: nat)
    requires WellOrdered(nodes, ps, cp) && nodes != [] && e.priority > nodes[0].priority
    requires k <= |ps| && InsertDescending(ps, e.priority)[k] == e.priority
    requires start == var mg := if k == 0 then e.priority else InsertDescending(ps, e.priority)[k - 1];
      if mg in cp then cp[mg] else 0
    requires start <= at < |nodes| && forall j :: start < j <= at ==> nodes[j].priority >= e.priority
    ensures at == 0
  {
    var p, h := e.priority, nodes[0].priority;
    var ps2 := InsertDescending(ps, p);
    assert k == 0 by {
      HeadIsMaximum(nodes, ps);
      assert forall x :: x in ps ==> x <= h;
      InsertDescendingSound(ps, p);
      assert ps2[0] in ps2;
    }
    assert p !in cp by {
      forall q | q in cp ensures q <= h {
        assert FirstOfPriority(nodes, q, cp[q]);
      }
    }
    assert nodes[at].priority <= h;
  }

  /** The scan of `findOrInsertAndGetIndex` as a function: the array it
      leaves and the index it returns. */
  function FoundOrInserted(values: seq<int>, value: int): (r: (seq<int>, nat))
    ensures |r.0| == |values| + 1 && r.1 < |r.0| && r.0[r.1] == value
  {
    var k := FirstAtMost(values, value);
    if k < |values| && values[k] < value then (values[..k] + [value] + values[k..], k)
    else (values + [value], |values|)
  }

  /** The scan inserts `value` once, at the returned index: before the
      first smaller value, with only greater values in front of it. When
      it returns the old length, the first value not above `value` was
      `value` itself or there was none. */
  lemma FoundOrInsertedPosition(values: seq<int>, value: int)
    ensures var (r, i) := FoundOrInserted(values, value);
      && r[..i] + r[i + 1..] == values
      && (i < |values| ==> values[i] < value && forall j :: 0 <= j < i ==> values[j] > value)
      && (i == |values| ==> var k := FirstAtMost(values, value); k == |values| || values[k] == value)
  {
    var k, n := FirstAtMost(values, value), |values|;
    if k < n && values[k] < value {
      InsertAtRemove(values, k, value);
    } else {
      assert values[..n] == values && values[n..] == [];
      InsertAtRemove(values, n, value);
    }
  }

  /** On a strictly descending array without `value`, the scan is the
      sorted insertion; with `value` already present, it appends a second
      copy. */
  lemma FoundOrInsertedDescending(values: seq<int>, value: int)
    requires StrictlyDescending(values)
    ensures value !in values ==>
      FoundOrInserted(values, value).0 == InsertDescending(values, value)
      && StrictlyDescending(InsertDescending(values, value))
    ensures value in values ==> FoundOrInserted(values, value) == (values + [value], |values|)
  {
    var k := FirstAtMost(values, value);
    if value !in values {
      InsertAtScanPoint(values, value, k);
      if k == |values| {
        assert values[..k] == values && values[k..] == [];
      }
      InsertDescendingSound(values, value);
    } else {
      var m :| 0 <= m < |values| && values[m] == value;
      assert values[k] >= values[m];
    }
  }

  /** The end of the `while` walk of `add` from node `at`: follow `next`
      while the next node's priority is at least `p`. */
  function WalkEnd<T>(nodes: seq<Entry<T>>, at: nat, p: int): (end: nat)
    requires at < |nodes|
    ensures at <= end < |nodes|
    ensures forall j :: at < j <= end ==> nodes[j].priority >= p
    ensures end + 1 == |nodes| || nodes[end + 1].priority < p
    decreases |nodes| - at
  {
    if at + 1 < |nodes| && nodes[at + 1].priority >= p then WalkEnd(nodes, at + 1, p) else at
  }

  /** The three fields `add` changes besides the counter. */
  datatype ListState<T> = ListState(nodes: seq<Entry<T>>, priorities: seq<int>, changePoints: map<int, nat>)

  /** Change points reference nodes of the chain. */
  predicate Anchored<T>(s: ListState<T>) {
    forall q :: q in s.changePoints ==> s.changePoints[q] < |s.nodes|
  }

  ghost predicate InOrder<T>(s: ListState<T>) {
    WellOrdered(s.nodes, s.priorities, s.changePoints)
  }

  /** The state `add(e.item, e.priority)` leaves: the first node becomes the
      head; a node of a known priority is linked in at the end of the walk
      from the priority's change point (or the head); a node of a new
      priority is linked in at the end of the walk from the change point of
      the priority just above it in the array (or the head), and becomes
      its priority's change point. */
  function Added<T>(s: ListState<T>, e: Entry<T>): ListState<T>
    requires Anchored(s)
  {
    var p, cp := e.priority, s.changePoints;
    if s.nodes == [] then
      ListState([e], s.priorities + [p], cp)
    else if p in s.priorities then
      var at := WalkEnd(s.nodes, if p in cp then cp[p] else 0, p);
      ListState(Spliced(s.nodes, at + 1, e), s.priorities, Shifted(cp, at))
    else
      var (ps2, k) := FoundOrInserted(s.priorities, p);
      var minimumGreater := if k == 0 then p else ps2[k - 1];
      var at := WalkEnd(s.nodes, if minimumGreater in cp then cp[minimumGreater] else 0, p);
      ListState(Spliced(s.nodes, at + 1, e), ps2, Shifted(cp, at)[p := at + 1])
  }

  /** `add` as evidently intended: a new priority above every present one
      is linked in front of the head, and the old head's priority gets a
      change point. Otherwise as `Added`. */
  function AddedCorrected<T>(s: ListState<T>, e: Entry<T>): ListState<T>
    requires Anchored(s)
  {
    var p := e.priority;
    if s.nodes != [] && p !in s.priorities && FoundOrInserted(s.priorities, p).1 == 0 then
      ListState(Spliced(s.nodes, 0, e), FoundOrInserted(s.priorities, p).0,
                Shifted(s.changePoints, -1)[s.nodes[0].priority := 1])
    else
      Added(s, e)
  }

  /** Whatever the state, `add` links exactly one node in, behind the head
      when there is one, keeps every other node in order, and leaves the
      change points referencing nodes. */
  lemma AddedLinksOneNode<T>(s: ListState<T>, e: Entry<T>)
    requires Anchored(s)
    ensures var r := Added(s, e);
      && Anchored(r)
      && (s.nodes == [] ==> r.nodes == [e])
      && (s.nodes != [] ==> exists k :: 0 < k <= |s.nodes| && r.nodes == Spliced(s.nodes, k, e))
  {
    if s.nodes != [] {
      var cp, p := s.changePoints, e.priority;
      var at: nat;
      if p in s.priorities {
        at := WalkEnd(s.nodes, if p in cp then cp[p] else 0, p);
        assert Anchored(Added(s, e)) && Added(s, e).nodes == Spliced(s.nodes, at + 1, e) by {
          AddedKnownShape(s, e, at);
          LinkedAnchored(s.nodes, s.priorities, cp, e, at);
        }
      } else {
        var (ps2, k) := FoundOrInserted(s.priorities, p);
        var minimumGreater := if k == 0 then p else ps2[k - 1];
        var start := if minimumGreater in cp then cp[minimumGreater] else 0;
        at := WalkEnd(s.nodes, start, p);
        assert Anchored(Added(s, e)) && Added(s, e).nodes == Spliced(s.nodes, at + 1, e) by {
          AddedNewShape(s, e, start, at);
          LinkedAnchored(s.nodes, ps2, cp, e, at);
        }
      }
    }
  }

  /** Linking a node in behind position `at` keeps change points on the
      chain, whether or not the new node gets one. */
  lemma LinkedAnchored<T>(nodes: seq<Entry<T>>, ps: seq<int>, cp: map<int, nat>, e: Entry<T>, at: nat)
    requires forall q :: q in cp ==> cp[q] < |nodes|
    requires at < |nodes|
    ensures Anchored(ListState(Spliced(nodes, at + 1, e), ps, Shifted(cp, at)))
    ensures Anchored(ListState(Spliced(nodes, at + 1, e), ps, Shifted(cp, at)[e.priority := at + 1]))
  {
  }

  /** A non-empty sequence whose elements all lie in `xs` needs a
      non-empty `xs`. */
  lemma MembersOfNonEmpty(ps: seq<int>, xs: seq<int>)
    requires forall k :: 0 <= k < |ps| ==> ps[k] in xs
    ensures ps != [] ==> xs != []
  {
    if ps != [] {
      assert ps[0] in xs;
    }
  }

  /** The first node of an empty list. */
  lemma AddedToEmpty<T>(s: ListState<T>, e: Entry<T>)
    requires InOrder(s) && s.nodes == []
    ensures Anchored(s)
    ensures InOrder(Added(s, e)) && Added(s, e).nodes == StableInsert(s.nodes, e)
    ensures Added(s, e).priorities == InsertDescending(s.priorities, e.priority)
  {
    assert s.priorities == [] by {
      MembersOfNonEmpty(s.priorities, PrioritiesOf(s.nodes));
    }
    assert forall q :: q !in s.changePoints;
    assert s.changePoints == map[];
    var r := Added(s, e);
    assert PrioritiesOf(r.nodes) == [e.priority];
    assert StableInsert(s.nodes, e) == [e];
    assert FirstBelow([], e.priority) == 0;
  }

  /** A known priority: the node is linked in behind the last node of
      its priority, and the list stays well ordered. */
  lemma AddedKnownInOrder<T>(s: ListState<T>, e: Entry<T>)
    requires Anchored(s) && InOrder(s) && s.nodes != [] && e.priority in s.priorities
    ensures InOrder(Added(s, e)) && Added(s, e).nodes == StableInsert(s.nodes, e)
    ensures Added(s, e).priorities == s.priorities
  {
    var p, cp := e.priority, s.changePoints;
    var start := if p in cp then cp[p] else 0;
    var at := WalkEnd(s.nodes, start, p);
    AddedKnownShape(s, e, at);
    AddExistingPriority(s.nodes, s.priorities, cp, e, start, at);
  }

  /** A new priority at most the head's: the node is linked in behind the
      nodes of the priority just above it, becomes its priority's change
      point, and the list stays well ordered. */
  lemma AddedNewInOrder<T>(s: ListState<T>, e: Entry<T>)
    requires Anchored(s) && InOrder(s) && s.nodes != [] && e.priority !in s.priorities
    requires e.priority <= s.nodes[0].priority
    ensures InOrder(Added(s, e)) && Added(s, e).nodes == StableInsert(s.nodes, e)
    ensures Added(s, e).priorities == InsertDescending(s.priorities, e.priority)
  {
    var p, cp, ps := e.priority, s.changePoints, s.priorities;
    var (ps2, k) := FoundOrInserted(ps, p);
    assert ps2 == InsertDescending(ps, p) by {
      FoundOrInsertedDescending(ps, p);
    }
    var minimumGreater := if k == 0 then p else ps2[k - 1];
    var start := if minimumGreater in cp then cp[minimumGreater] else 0;
    var at := WalkEnd(s.nodes, start, p);
    var cp2 := Shifted(cp, at)[p := at + 1];
    assert Added(s, e) == ListState(Spliced(s.nodes, at + 1, e), ps2, cp2) by {
      AddedNewShape(s, e, start, at);
    }
    assert InOrder(ListState(Spliced(s.nodes, at + 1, e), ps2, cp2))
        && StableInsert(s.nodes, e) == Spliced(s.nodes, at + 1, e) by {
      AddNewBelowHead(s.nodes, ps, cp, e, k, start, at);
    }
  }

  /** `Added` for a known priority, given the end of the walk. */
  lemma AddedKnownShape<T>(s: ListState<T>, e: Entry<T>, at: nat)
    requires Anchored(s) && s.nodes != [] && e.priority in s.priorities
    requires var cp := s.changePoints;
      at == WalkEnd(s.nodes, if e.priority in cp then cp[e.priority] else 0, e.priority)
    ensures Added(s, e) == ListState(Spliced(s.nodes, at + 1, e), s.priorities, Shifted(s.changePoints, at))
  {
  }

  /** `Added` for a new priority, given the start and end of the walk. */
  lemma AddedNewShape<T>(s: ListState<T>, e: Entry<T>, start: nat, at: nat)
    requires Anchored(s) && s.nodes != [] && e.priority !in s.priorities
    requires start == var (ps2, k) := FoundOrInserted(s.priorities, e.priority);
      var mg := if k == 0 then e.priority else ps2[k - 1];
      if mg in s.changePoints then s.changePoints[mg] else 0
    requires start < |s.nodes| && at == WalkEnd(s.nodes, start, e.priority)
    ensures Added(s, e) == ListState(Spliced(s.nodes, at + 1, e), FoundOrInserted(s.priorities, e.priority).0,
                                     Shifted(s.changePoints, at)[e.priority := at + 1])
  {
  }

  /** While every priority added is at most the head's, `add` keeps the
      list well ordered and links the node in where stable insertion puts
      it: after the nodes of priority at least its own, before the rest. */
  lemma AddedInOrder<T>(s: ListState<T>, e: Entry<T>)
    requires Anchored(s) && InOrder(s)
    requires s.nodes == [] || e.priority <= s.nodes[0].priority
    ensures InOrder(Added(s, e)) && Added(s, e).nodes == StableInsert(s.nodes, e)
    ensures Added(s, e).priorities
      == if e.priority in s.priorities then s.priorities else InsertDescending(s.priorities, e.priority)
  {
    if s.nodes == [] {
      AddedToEmpty(s, e);
      assert e.priority !in s.priorities;
    } else if e.priority in s.priorities {
      AddedKnownInOrder(s, e);
    } else {
      AddedNewInOrder(s, e);
    }
  }

  /** The defect: after the first node, a priority above every present one
      is linked in right behind the head, so the chain is no longer in
      descending order. */
  lemma AddedAboveHead<T>(s: ListState<T>, e: Entry<T>)
    requires Anchored(s) && InOrder(s) && s.nodes != [] && e.priority > s.nodes[0].priority
    ensures Added(s, e).nodes == Spliced(s.nodes, 1, e)
    ensures Added(s, e).priorities == InsertDescending(s.priorities, e.priority)
    ensures !SortedByPriority(Added(s, e).nodes)
  {
    var p, cp := e.priority, s.changePoints;
    AboveHeadInsertedFirst(s, e);
    assert p !in cp by {
      ChangePointsBelowHead(s.nodes, cp);
    }
    var at := WalkEnd(s.nodes, 0, p);
    AddedNewShape(s, e, 0, at);
    assert at == 0 by {
      AddNewPriority(s.nodes, s.priorities, cp, e, 0, 0, at);
    }
    var r := Added(s, e).nodes;
    assert r[0] == s.nodes[0] && r[1] == e;
  }

  /** A new priority above the head's is scanned into the front of the
      array. */
  lemma AboveHeadInsertedFirst<T>(s: ListState<T>, e: Entry<T>)
    requires InOrder(s) && s.nodes != [] && e.priority > s.nodes[0].priority
    ensures e.priority !in s.priorities
    ensures FoundOrInserted(s.priorities, e.priority) == (InsertDescending(s.priorities, e.priority), 0)
  {
    var p, ps := e.priority, s.priorities;
    HeadIsMaximum(s.nodes, ps);
    assert p !in ps by {
      assert forall x :: x in ps ==> x <= s.nodes[0].priority;
    }
    FoundOrInsertedDescending(ps, p);
    InsertDescendingSound(ps, p);
    var r := FoundOrInserted(ps, p).0;
    assert r[0] in r;
  }

  /** With the correction, every `add` keeps the list well ordered and
      links the node in where stable insertion puts it. */
  lemma AddedCorrectedInOrder<T>(s: ListState<T>, e: Entry<T>)
    requires Anchored(s) && InOrder(s)
    ensures InOrder(AddedCorrected(s, e)) && AddedCorrected(s, e).nodes == StableInsert(s.nodes, e)
  {
    var p := e.priority;
    if s.nodes != [] && p > s.nodes[0].priority {
      AboveHeadInsertedFirst(s, e);
      InsertHead(s.nodes, s.priorities, s.changePoints, e);
    } else {
      if s.nodes != [] && p !in s.priorities {
        assert FoundOrInserted(s.priorities, p).1 != 0 by {
          HeadIsMaximum(s.nodes, s.priorities);
          FoundOrInsertedDescending(s.priorities, p);
          InsertDescendingSound(s.priorities, p);
          var r := FoundOrInserted(s.priorities, p).0;
          assert s.nodes[0].priority in r;
        }
      }
      AddedInOrder(s, e);
    }
  }

  /** The state a fresh list reaches after `add` of each entry in turn. */
  function Replayed<T>(es: seq<Entry<T>>): (s: ListState<T>)
    ensures Anchored(s)
  {
    if es == [] then ListState([], [], map[])
    else
      var s := Replayed(es[..|es| - 1]);
      AddedLinksOneNode(s, es[|es| - 1]);
      Added(s, es[|es| - 1])
  }

  /** While no entry added after the first is above the first, the list
      holds exactly the reference order: descending priority, and the order
      of the `add` calls within a priority. */
  lemma {:induction false} ReplayedInOrder<T>(es: seq<Entry<T>>)
    requires forall i :: 0 < i < |es| ==> es[i].priority <= es[0].priority
    ensures InOrder(Replayed(es)) && Replayed(es).nodes == SortByPriority(es)
    decreases |es|
  {
    if es != [] {
      var init, last := es[..|es| - 1], es[|es| - 1];
      ReplayedInOrder(init);
      var s := Replayed(init);
      if init != [] {
        SortByPriorityHead(init);
      }
      AddedInOrder(s, last);
    }
  }

  /** The list object. `nodes` is the chain from `head` (empty when `head`
      is null); a change point is the position of the node it references. */
  class PriorityList<T> {
    var nodes: seq<Entry<T>>
    var length: int
    var priorities: seq<int>
    var changePoints: map<int, nat>

    ghost function State(): ListState<T>
      reads this
    {
      ListState(nodes, priorities, changePoints)
    }

    /** What every `add` keeps: the counter matches the chain, and change
        points reference nodes of the chain. */
    ghost predicate Valid()
      reads this
    {
      length == |nodes| && Anchored(State())
    }

    /** The intended shape (see `WellOrdered`). */
    ghost predicate Ordered()
      reads this
    {
      Valid() && InOrder(State())
    }

    constructor()
      ensures Ordered()
      ensures nodes == [] && length == 0 && priorities == [] && changePoints == map[]
    {
      nodes := [];
      length := 0;
      priorities := [];
      changePoints := map[];
    }

    /** The `while` walk of `add`: from `start`, follow `next` while the
        next node's priority is at least `p`. */
    method WalkFrom(start: nat, p: int) returns (at: nat)
      requires start < |nodes|
      ensures at == WalkEnd(nodes, start, p)
    {
      at := start;
      while at + 1 < |nodes| && nodes[at + 1].priority >= p
        invariant start <= at < |nodes|
        invariant WalkEnd(nodes, at, p) == WalkEnd(nodes, start, p)
      {
        at := at + 1;
      }
    }

    /** The branch of `add` for a priority already in the array. */
    method LinkKnown(e: Entry<T>) returns (at: nat)
      requires Valid() && nodes != [] && e.priority in priorities
      modifies this
      ensures State() == Added(old(State()), e)
      ensures Valid() && length == old(length) + 1
    {
      var p := e.priority;
      ghost var s0 := State();
      var start := if p in changePoints then changePoints[p] else 0;
      at := WalkFrom(start, p);
      AddedKnownShape(s0, e, at);
      AddedLinksOneNode(s0, e);
      nodes := Spliced(nodes, at + 1, e);
      changePoints := Shifted(changePoints, at);
      length := length + 1;
    }

    /** The branch of `add` for a priority not yet in the array. */
    method LinkNew(e: Entry<T>) returns (at: nat)
      requires Valid() && nodes != [] && e.priority !in priorities
      modifies this
      ensures State() == Added(old(State()), e)
      ensures Valid() && length == old(length) + 1
    {
      var p := e.priority;
      ghost var s0 := State();
      var insertedAt;
      priorities, insertedAt := FindOrInsertAndGetIndex(priorities, p);
      var minimumGreater := if insertedAt == 0 then p else priorities[insertedAt - 1];
      var start := if minimumGreater in changePoints then changePoints[minimumGreater] else 0;
      at := WalkFrom(start, p);
      AddedNewShape(s0, e, start, at);
      AddedLinksOneNode(s0, e);
      nodes := Spliced(nodes, at + 1, e);
      changePoints := Shifted(changePoints, at)[p := at + 1];
      length := length + 1;
    }

    /** The `iterator` getter: a cursor at the head of the current chain. */
    method Iterator() returns (it: ListIterator<T>)
      ensures fresh(it) && it.chain == nodes && it.current == 0
    {
      it := new ListIterator(nodes);
    }

    /** `[...list]`: drains a fresh iterator; it visits `length` nodes,
        from the head along `next`. */
    method ToSeq() returns (items: seq<T>)
      requires Valid()
      ensures items == ItemsOf(nodes) && |items| == length
    {
      var it := Iterator();
      ghost var all := ItemsOf(nodes);
      items := [];
      while true
        invariant it.chain == nodes && it.current == |items| <= |nodes|
        invariant items == all[..|items|]
        decreases |nodes| - |items|
      {
        var r := it.Next();
        if r.None? {
          break;
        }
        assert all[..|items| + 1] == items + [r.value];
        items := items + [r.value];
      }
      assert items == all;
    }

    /** `add(item, priority)`: a non-number priority throws `TypeError`;
        otherwise one node is linked in, as `Added` describes, and the new
        length is returned. */
    method Add(item: T, priority: PriorityArg) returns (r: Result<int, Error>)
      requires Valid()
      modifies this
      ensures Valid()
      ensures priority.NotANumber? ==> r == Failure(TypeError) && unchanged(this)
      ensures priority.Number? ==>
        && State() == Added(old(State()), Entry(item, priority.value))
        && length == old(length) + 1 && r == Success(length)
    {
      if priority.NotANumber? {
        return Failure(TypeError);
      }
      var p := priority.value;
      var e := Entry(item, p);
      if nodes == [] {
        priorities := priorities + [p];
        nodes := [e];
        length := length + 1;
        return Success(length);
      }
      var at;
      if p in priorities {
        at := LinkKnown(e);
      } else {
        at := LinkNew(e);
      }
      r := Success(length);
    }
  }

  /** The object the `iterator` getter returns. The chain is the one
      reachable from the head when the iterator was made; `current` is the
      position of `currentNode`, and the chain's length stands for null. */
  class ListIterator<T> {
    const chain: seq<Entry<T>>
    var current: nat

    constructor(chain: seq<Entry<T>>)
      ensures this.chain == chain && current == 0
    {
      this.chain := chain;
      current := 0;
    }

    /** `next()`: the value of the current node, moving on to its
        successor; at null it reports done and stays there. */
    method Next() returns (r: Option<T>)
      requires current <= |chain|
      modifies this
      ensures old(current) < |chain| ==> r == Some(chain[old(current)].item) && current == old(current) + 1
      ensures old(current) == |chain| ==> r == None && current == old(current)
    {
      if current == |chain| {
        return None;
      }
      r := Some(chain[current].item);
      current := current + 1;
    }
  }

  /** The priorities of the registrations A9, E7, B9, D7, F7, G7, H5, C9,
      I5, in that order. */
  predicate MixedPriorities<T>(m: seq<Entry<T>>) {
    && |m| == 9 && m[0].priority == 9 && m[1].priority == 7 && m[2].priority == 9
    && m[3].priority == 7 && m[4].priority == 7 && m[5].priority == 7
    && m[6].priority == 5 && m[7].priority == 9 && m[8].priority == 5
  }

  lemma MixedPrefix1<T>(m: seq<Entry<T>>)
    requires MixedPriorities(m)
    ensures SortByPriority(m[..1]) == [m[0]]
  {
    assert m[..0] == [];
    SortPrefixStep(m, 0, [], 0, [m[0]]);
  }

  lemma MixedPrefix2<T>(m: seq<Entry<T>>)
    requires MixedPriorities(m)
    ensures SortByPriority(m[..2]) == [m[0], m[1]]
  {
    MixedPrefix1(m);
    SortPrefixStep(m, 1, [m[0]], 1, [m[0], m[1]]);
  }

  lemma MixedPrefix3<T>(m: seq<Entry<T>>)
    requires MixedPriorities(m)
    ensures SortByPriority(m[..3]) == [m[0], m[2], m[1]]
  {
    MixedPrefix2(m);
    SortPrefixStep(m, 2, [m[0], m[1]], 1, [m[0], m[2], m[1]]);
  }

  lemma MixedPrefix4<T>(m: seq<Entry<T>>)
    requires MixedPriorities(m)
    ensures SortByPriority(m[..4]) == [m[0], m[2], m[1], m[3]]
  {
    MixedPrefix3(m);
    SortPrefixStep(m, 3, [m[0], m[2], m[1]], 3, [m[0], m[2], m[1], m[3]]);
  }

  lemma MixedPrefix5<T>(m: seq<Entry<T>>)
    requires MixedPriorities(m)
    ensures SortByPriority(m[..5]) == [m[0], m[2], m[1], m[3], m[4]]
  {
    MixedPrefix4(m);
    SortPrefixStep(m, 4, [m[0], m[2], m[1], m[3]], 4, [m[0], m[2], m[1], m[3], m[4]]);
  }

  lemma MixedPrefix6<T>(m: seq<Entry<T>>)
    requires MixedPriorities(m)
    ensures SortByPriority(m[..6]) == [m[0], m[2], m[1], m[3], m[4], m[5]]
  {
    MixedPrefix5(m);
    SortPrefixStep(m, 5, [m[0], m[2], m[1], m[3], m[4]], 5, [m[0], m[2], m[1], m[3], m[4], m[5]]);
  }

  lemma MixedPrefix7<T>(m: seq<Entry<T>>)
    requires MixedPriorities(m)
    ensures SortByPriority(m[..7]) == [m[0], m[2], m[1], m[3], m[4], m[5], m[6]]
  {
    MixedPrefix6(m);
    SortPrefixStep(m, 6, [m[0], m[2], m[1], m[3], m[4], m[5]], 6, [m[0], m[2], m[1], m[3], m[4], m[5], m[6]]);
  }

  lemma MixedPrefix8<T>(m: seq<Entry<T>>)
    requires MixedPriorities(m)
    ensures SortByPriority(m[..8]) == [m[0], m[2], m[7], m[1], m[3], m[4], m[5], m[6]]
  {
    MixedPrefix7(m);
    SortPrefixStep(m, 7, [m[0], m[2], m[1], m[3], m[4], m[5], m[6]], 2, [m[0], m[2], m[7], m[1], m[3], m[4], m[5], m[6]]);
  }

  lemma MixedPrefix9<T>(m: seq<Entry<T>>)
    requires MixedPriorities(m)
    ensures SortByPriority(m[..9]) == [m[0], m[2], m[7], m[1], m[3], m[4], m[5], m[6], m[8]]
  {
    MixedPrefix8(m);
    SortPrefixStep(m, 8, [m[0], m[2], m[7], m[1], m[3], m[4], m[5], m[6]], 8, [m[0], m[2], m[7], m[1], m[3], m[4], m[5], m[6], m[8]]);
  }

  /** Adding A9, E7, B9, D7, F7, G7, H5, C9, I5 yields A9, B9, C9, E7, D7,
      F7, G7, H5, I5. */
  lemma MixedOrder<T>(m: seq<Entry<T>>)
    requires MixedPriorities(m)
    ensures var r := Replayed(m);
      InOrder(r) && r.nodes == [m[0], m[2], m[7], m[1], m[3], m[4], m[5], m[6], m[8]]
  {
    assert SortByPriority(m) == [m[0], m[2], m[7], m[1], m[3], m[4], m[5], m[6], m[8]] by {
      MixedPrefix9(m);
      assert m[..9] == m;
    }
    ReplayedInOrder(m);
  }

  /** The priorities of the registrations A9, B9, C9, D7, E7, F7, G7, H5,
      I5, in that order. */
  predicate OrderedPriorities<T>(m: seq<Entry<T>>) {
    && |m| == 9 && m[0].priority == 9 && m[1].priority == 9 && m[2].priority == 9
    && m[3].priority == 7 && m[4].priority == 7 && m[5].priority == 7
    && m[6].priority == 7 && m[7].priority == 5 && m[8].priority == 5
  }

  /** Adds that arrive in descending priority are linked in the order of
      the calls. */
  lemma SortedAdds<T>(es: seq<Entry<T>>)
    requires SortedByPriority(es)
    ensures var r := Replayed(es);
      InOrder(r) && r.nodes == es
  {
    ReplayedInOrder(es);
    SortByPriorityOfSorted(es);
  }

  /** Adding A9, B9, C9, D7, E7, F7, G7, H5, I5 yields them in that order. */
  lemma OrderedAdd<T>(m: seq<Entry<T>>)
    requires OrderedPriorities(m)
    ensures var r := Replayed(m);
      InOrder(r) && r.nodes == m
  {
    AdjacentSorted(m);
    SortedAdds(m);
  }

  /** The state after the first `add` on a fresh list. */
  lemma FirstAdded<T>(a: Entry<T>)
    ensures var s := Added(ListState([], [], map[]), a);
      InOrder(s) && s.nodes == [a]
  {
    AddedInOrder(ListState([], [], map[]), a);
  }

  /** The defect on a concrete list: after A, adding B of a higher priority
      gives A, B (A9 then B12 gives A9, B12). */
  lemma MisorderedExample<T>(a: Entry<T>, b: Entry<T>)
    requires b.priority > a.priority
    ensures var s := Added(ListState([], [], map[]), a);
      Anchored(s) && Added(s, b).nodes == [a, b]
  {
    var s := Added(ListState([], [], map[]), a);
    FirstAdded(a);
    AddedAboveHead(s, b);
  }

  /** With the correction, the same adds give B, A. */
  lemma CorrectedExample<T>(a: Entry<T>, b: Entry<T>)
    requires b.priority > a.priority
    ensures var s := Added(ListState([], [], map[]), a);
      Anchored(s) && AddedCorrected(s, b).nodes == [b, a]
  {
    var s := Added(ListState([], [], map[]), a);
    FirstAdded(a);
    AddedCorrectedInOrder(s, b);
    StableInsertAt(s.nodes, b, 0);
  }

  /** The same two adds on a list object, then iteration. */
  method MisorderedList() returns (items: seq<string>)
    ensures items == ["A", "B"]
  {
    var list := new PriorityList<string>();
    var r1 := list.Add("A", Number(9));
    var r2 := list.Add("B", Number(12));
    MisorderedExample(Entry("A", 9), Entry("B", 12));
    items := list.ToSeq();
  }
}
