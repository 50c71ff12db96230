/** The emitter of index.js. An event name is split on the delimiter into
    fragments that address a tree of plain objects, `_listeners`; the node a
    name reaches holds that event's listener queue. The tree is modelled as a
    map from fragment paths to what the property at that path holds, the
    root object being the empty path. */
module EventEmitters {
  import opened Wrappers
  import opened Strings
  import opened Ordering
  import opened PriorityQueue

  /** `DEFAULT_OPTIONS.delimiter`. */
  const DEFAULT_DELIMITER: string := ":"

  /** The default of `on`'s `priority` parameter. */
  const DEFAULT_LISTENER_PRIORITY: int := 10

  /** What the property at a path of the tree holds. */
  datatype Slot<L> =
    | Branch                              // a plain object `{}`
    | Queue(queue: PriorityIterable<L>)   // a listener queue
    | Undefined                           // `undefined`, stored by `emit`

  type Registry<L> = map<seq<string>, Slot<L>>

  /** The `context` option: the shared default `{}`, or the caller's value. */
  datatype Context<V> = EmptyObject | Supplied(value: V)

  /** What escapes `on` or `emit` as an exception. */
  datatype Thrown<L> =
    | EmptyFragment                // the `Error` for an empty fragment past the first
    | Runtime(error: Error)        // a `TypeError` raised by the language itself
    | ListenerThrew(listener: L)   // what a listener threw, propagated unchanged

  /** What one listener call does, as far as `emit` can tell: return
      anything but `false`, return exactly `false`, or throw. */
  datatype Response = Continue | Stop | Throw

  /** One listener call: the listener and its arguments `(context, ...payload)`. */
  datatype Invocation<L, V> = Invocation(listener: L, context: Context<V>, payload: seq<V>)

  /** The closure `on` returns: calling it pops `handle` from `queue`. */
  datatype Subscription<L> = Subscription(queue: PriorityIterable<L>, handle: string)

  /** The tree after a walk, and the path of the node reached or the error thrown. */
  datatype Walked<L> = Walked(registry: Registry<L>, result: Result<seq<string>, Thrown<L>>)

  /** Every entry of `small` is in `big`, unchanged. */
  ghost predicate Extends<L>(big: Registry<L>, small: Registry<L>) {
    forall k :: k in small ==> k in big && big[k] == small[k]
  }

  /** The loop of `getListenersArray` from fragment `i` on, standing at path
      `at`: an empty fragment is skipped at index 0 and throws elsewhere;
      looking up a property of `undefined` throws a `TypeError`; a missing
      property is created, as `terminal` for the last fragment and as `{}`
      before it. */
  function Walk<L>(reg: Registry<L>, at: seq<string>, fragments: seq<string>, i: nat, terminal: Slot<L>): (w: Walked<L>)
    requires i <= |fragments| && (at == [] || at in reg)
    ensures w.result.Success? ==> w.result.value == [] || w.result.value in w.registry
    decreases |fragments| - i
  {
    if i == |fragments| then Walked(reg, Success(at))
    else if fragments[i] == [] then
      if i != 0 then Walked(reg, Failure(EmptyFragment)) else Walk(reg, at, fragments, i + 1, terminal)
    else if at != [] && reg[at].Undefined? then Walked(reg, Failure(Runtime(TypeError)))
    else
      var next := at + [fragments[i]];
      var reg' := if next in reg then reg else reg[next := if i + 1 == |fragments| then terminal else Branch];
      Walk(reg', next, fragments, i + 1, terminal)
  }

  /** `getListenersArray(eventName, notFoundHandler)` on the whole name. */
  function Resolve<L>(reg: Registry<L>, eventName: string, delimiter: string, terminal: Slot<L>): Walked<L> {
    Walk(reg, [], Split(eventName, delimiter), 0, terminal)
  }

  /** The fragments a name is filed under: all of them but a leading empty one. */
  function EventPath(fragments: seq<string>): seq<string> {
    if fragments != [] && fragments[0] == [] then fragments[1..] else fragments
  }

  /** What the property at `path` holds; the root is a plain object. */
  function SlotAt<L>(reg: Registry<L>, path: seq<string>): Slot<L>
    requires path == [] || path in reg
  {
    if path == [] then Branch else reg[path]
  }

  /** A walk that succeeds has met no empty fragment past the first, and
      reaches the path of the remaining fragments. */
  lemma {:induction false} WalkPath<L>(reg: Registry<L>, at: seq<string>, fragments: seq<string>, i: nat, terminal: Slot<L>)
    requires i <= |fragments| && (at == [] || at in reg)
    requires Walk(reg, at, fragments, i, terminal).result.Success?
    ensures forall j :: i <= j < |fragments| && 0 < j ==> fragments[j] != []
    ensures Walk(reg, at, fragments, i, terminal).result.value == at + (if i == 0 then EventPath(fragments) else fragments[i..])
    decreases |fragments| - i
  {
    if i == |fragments| {
      assert fragments[i..] == [];
    } else if fragments[i] == [] {
      WalkPath(reg, at, fragments, 1, terminal);
    } else {
      var next := at + [fragments[i]];
      var reg' := if next in reg then reg else reg[next := if i + 1 == |fragments| then terminal else Branch];
      var w := Walk(reg', next, fragments, i + 1, terminal);
      assert Walk(reg, at, fragments, i, terminal) == w;
      assert w.result.value == next + fragments[i + 1..] && forall j :: i + 1 <= j < |fragments| ==> fragments[j] != [] by {
        WalkPath(reg', next, fragments, i + 1, terminal);
      }
      assert next + fragments[i + 1..] == at + (if i == 0 then EventPath(fragments) else fragments[i..]) by {
        assert fragments[i..] == [fragments[i]] + fragments[i + 1..];
        assert fragments[0..] == fragments;
      }
    }
  }

  /** A walk that meets no empty fragment past the first does not throw the
      empty-fragment error. */
  lemma {:induction false} WalkNoEmptyFragment<L>(reg: Registry<L>, at: seq<string>, fragments: seq<string>, i: nat, terminal: Slot<L>)
    requires i <= |fragments| && (at == [] || at in reg)
    requires forall j :: i <= j < |fragments| && 0 < j ==> fragments[j] != []
    ensures Walk(reg, at, fragments, i, terminal).result != Failure(EmptyFragment)
    decreases |fragments| - i
  {
    if i == |fragments| {
    } else if fragments[i] == [] {
      WalkNoEmptyFragment(reg, at, fragments, 1, terminal);
    } else if !(at != [] && reg[at].Undefined?) {
      var next := at + [fragments[i]];
      var reg' := if next in reg then reg else reg[next := if i + 1 == |fragments| then terminal else Branch];
      WalkNoEmptyFragment(reg', next, fragments, i + 1, terminal);
    }
  }

  /** The properties a walk creates: the one it ends at holds `terminal`, any
      other holds a plain object `{}`. */
  lemma {:induction false} WalkCreates<L>(reg: Registry<L>, at: seq<string>, fragments: seq<string>, i: nat, terminal: Slot<L>)
    requires i <= |fragments| && (at == [] || at in reg)
    ensures var w := Walk(reg, at, fragments, i, terminal);
      forall k :: k in w.registry && k !in reg ==>
        w.registry[k] == if w.result == Success(k) then terminal else Branch
    decreases |fragments| - i
  {
    if i == |fragments| || fragments[i] == [] {
      if i < |fragments| && i == 0 {
        WalkCreates(reg, at, fragments, 1, terminal);
      }
    } else if at != [] && reg[at].Undefined? {
    } else {
      var next := at + [fragments[i]];
      var reg' := if next in reg then reg else reg[next := if i + 1 == |fragments| then terminal else Branch];
      WalkCreates(reg', next, fragments, i + 1, terminal);
      WalkExtends(reg', next, fragments, i + 1, terminal);
      if next !in reg && i + 1 < |fragments| {
        var w := Walk(reg', next, fragments, i + 1, terminal);
        assert w.result != Success(next) by {
          if w.result.Success? {
            WalkPath(reg', next, fragments, i + 1, terminal);
            assert |w.result.value| == |next| + |fragments[i + 1..]|;
          }
        }
      }
    }
  }

  /** Walking again over a tree that already holds everything a successful
      walk created reaches the same path and creates nothing, whatever the
      terminal: this is why repeated `on` calls reuse one queue, and why an
      `emit` after `on` finds it. */
  lemma {:induction false} WalkAgain<L>(reg: Registry<L>, at: seq<string>, fragments: seq<string>, i: nat, terminal: Slot<L>, big: Registry<L>, terminal': Slot<L>)
    requires i <= |fragments| && (at == [] || at in reg)
    requires Walk(reg, at, fragments, i, terminal).result.Success?
    requires Extends(big, Walk(reg, at, fragments, i, terminal).registry) && (at == [] || at in big)
    ensures Walk(big, at, fragments, i, terminal') == Walked(big, Walk(reg, at, fragments, i, terminal).result)
    decreases |fragments| - i
  {
    if i == |fragments| || fragments[i] == [] {
      if i < |fragments| && i == 0 {
        WalkAgain(reg, at, fragments, i + 1, terminal, big, terminal');
      }
    } else {
      var next := at + [fragments[i]];
      var reg' := if next in reg then reg else reg[next := if i + 1 == |fragments| then terminal else Branch];
      assert Walk(reg, at, fragments, i, terminal) == Walk(reg', next, fragments, i + 1, terminal);
      assert next in big && (at != [] ==> at in reg && big[at] == reg[at]) by {
        assert |next| == |at| + 1;
        WalkExtends(reg', next, fragments, i + 1, terminal);
      }
      assert Walk(big, at, fragments, i, terminal') == Walk(big, next, fragments, i + 1, terminal');
      assert Walk(big, next, fragments, i + 1, terminal') == Walked(big, Walk(reg', next, fragments, i + 1, terminal).result) by {
        WalkAgain(reg', next, fragments, i + 1, terminal, big, terminal');
      }
    }
  }

  /** A walk only adds properties; it never changes one that exists. */
  lemma {:induction false} WalkExtends<L>(reg: Registry<L>, at: seq<string>, fragments: seq<string>, i: nat, terminal: Slot<L>)
    requires i <= |fragments| && (at == [] || at in reg)
    ensures Extends(Walk(reg, at, fragments, i, terminal).registry, reg)
    decreases |fragments| - i
  {
    if i == |fragments| || fragments[i] == [] {
      if i < |fragments| && i == 0 {
        WalkExtends(reg, at, fragments, 1, terminal);
      }
    } else if !(at != [] && reg[at].Undefined?) {
      var next := at + [fragments[i]];
      var reg' := if next in reg then reg else reg[next := if i + 1 == |fragments| then terminal else Branch];
      WalkExtends(reg', next, fragments, i + 1, terminal);
    }
  }

  /** Resolving a name twice: the second walk finds what the first left. */
  lemma ResolveAgain<L>(reg: Registry<L>, eventName: string, delimiter: string, terminal: Slot<L>, terminal': Slot<L>)
    requires Resolve(reg, eventName, delimiter, terminal).result.Success?
    ensures var w := Resolve(reg, eventName, delimiter, terminal);
      Resolve(w.registry, eventName, delimiter, terminal') == w
  {
    WalkAgain(reg, [], Split(eventName, delimiter), 0, terminal, Resolve(reg, eventName, delimiter, terminal).registry, terminal');
  }

  /** Walking with one more leading empty fragment changes nothing, as long as
      the fragments did not already start with an empty one. */
  lemma {:induction false} WalkShifted<L>(reg: Registry<L>, at: seq<string>, fragments: seq<string>, i: nat, terminal: Slot<L>)
    requires i <= |fragments| && (at == [] || at in reg)
    requires i == 0 && fragments != [] ==> fragments[0] != []
    ensures Walk(reg, at, [[]] + fragments, i + 1, terminal) == Walk(reg, at, fragments, i, terminal)
    decreases |fragments| - i
  {
    var shifted := [[]] + fragments;
    assert |shifted| == |fragments| + 1;
    if i < |fragments| {
      assert shifted[i + 1] == fragments[i];
      if fragments[i] != [] && !(at != [] && reg[at].Undefined?) {
        var next := at + [fragments[i]];
        var reg' := if next in reg then reg else reg[next := if i + 1 == |fragments| then terminal else Branch];
        WalkShifted(reg', next, fragments, i + 1, terminal);
      }
    }
  }

  /** A leading delimiter is ignored: `":x"` and `"x"` resolve alike. */
  lemma LeadingDelimiter<L>(reg: Registry<L>, eventName: string, delimiter: string, terminal: Slot<L>)
    requires delimiter != []
    requires Split(eventName, delimiter)[0] != []
    ensures Resolve(reg, delimiter + eventName, delimiter, terminal) == Resolve(reg, eventName, delimiter, terminal)
  {
    SplitLeadingSeparator(eventName, delimiter);
    WalkShifted(reg, [], Split(eventName, delimiter), 0, terminal);
  }

  /** A queue in the tree after a resolution was there before, or is the
      value given for a missing terminal. */
  lemma ResolveQueues<L>(reg: Registry<L>, eventName: string, delimiter: string, terminal: Slot<L>)
    ensures var w := Resolve(reg, eventName, delimiter, terminal);
      forall k :: k in w.registry && w.registry[k].Queue? ==>
        (k in reg && reg[k] == w.registry[k]) || w.registry[k] == terminal
  {
    WalkCreates(reg, [], Split(eventName, delimiter), 0, terminal);
    WalkExtends(reg, [], Split(eventName, delimiter), 0, terminal);
  }

  /** How a dispatch over listeners in order ended. */
  datatype Ending<L> = Exhausted | Stopped | Threw(listener: L)

  /** The listeners a dispatch called, in order, and how it ended. */
  datatype Delivery<L> = Delivery(invoked: seq<L>, ending: Ending<L>)

  /** The loop of `emit`: listeners are called in order until one returns
      `false` or throws. */
  function Delivered<L>(listeners: seq<L>, respond: L -> Response): (d: Delivery<L>)
    ensures |d.invoked| <= |listeners| && d.invoked == listeners[..|d.invoked|]
    ensures forall j :: 0 <= j < |d.invoked| - 1 ==> respond(listeners[j]) == Continue
    ensures d.ending == Exhausted <==> d.invoked == listeners && forall j :: 0 <= j < |listeners| ==> respond(listeners[j]) == Continue
    ensures d.ending == Stopped ==> d.invoked != [] && respond(listeners[|d.invoked| - 1]) == Stop
    ensures d.ending.Threw? ==> d.invoked != [] && d.ending.listener == listeners[|d.invoked| - 1] && respond(d.ending.listener) == Throw
  {
    if listeners == [] then Delivery([], Exhausted)
    else match respond(listeners[0])
      case Stop => Delivery([listeners[0]], Stopped)
      case Throw => Delivery([listeners[0]], Threw(listeners[0]))
      case Continue =>
        var rest := Delivered(listeners[1..], respond);
        Delivery([listeners[0]] + rest.invoked, rest.ending)
  }

  /** The calls made on `listeners`, each with `(context, ...payload)`. */
  function Invocations<L, V>(listeners: seq<L>, context: Context<V>, payload: seq<V>): (calls: seq<Invocation<L, V>>)
    ensures |calls| == |listeners|
    ensures forall j :: 0 <= j < |listeners| ==> calls[j] == Invocation(listeners[j], context, payload)
  {
    seq(|listeners|, j requires 0 <= j < |listeners| => Invocation(listeners[j], context, payload))
  }

  /** One more listener called: one more invocation at the end. */
  lemma InvocationsStep<L, V>(listeners: seq<L>, n: nat, context: Context<V>, payload: seq<V>)
    requires n < |listeners|
    ensures Invocations(listeners[..n + 1], context, payload)
      == Invocations(listeners[..n], context, payload) + [Invocation(listeners[n], context, payload)]
  {
    var a := Invocations(listeners[..n + 1], context, payload);
    var b := Invocations(listeners[..n], context, payload) + [Invocation(listeners[n], context, payload)];
    assert forall j :: 0 <= j < |a| ==> a[j] == b[j];
  }

  /** What `emit` returns or throws once its loop has ended: `!propagationStopped`. */
  function Outcome<L>(ending: Ending<L>): Result<Option<bool>, Thrown<L>> {
    match ending
    case Exhausted => Success(Some(true))
    case Stopped => Success(Some(false))
    case Threw(l) => Failure(ListenerThrew(l))
  }

  /** The first `n` listeners all let the dispatch go on. */
  ghost predicate ContinuedThrough<L>(listeners: seq<L>, respond: L -> Response, n: nat) {
    forall j :: 0 <= j < n && j < |listeners| ==> respond(listeners[j]) == Continue
  }

  lemma ContinuedStep<L>(listeners: seq<L>, respond: L -> Response, n: nat)
    requires n < |listeners| && ContinuedThrough(listeners, respond, n)
    ensures respond(listeners[n]) == Continue ==> ContinuedThrough(listeners, respond, n + 1)
  {
  }

  /** Once the first `n` listeners have let the dispatch go on, the next
      response decides how it ends. */
  lemma {:induction false} DeliveredAfter<L>(listeners: seq<L>, respond: L -> Response, n: nat)
    requires n <= |listeners| && ContinuedThrough(listeners, respond, n)
    ensures n == |listeners| ==> Delivered(listeners, respond) == Delivery(listeners, Exhausted)
    ensures n < |listeners| && respond(listeners[n]) == Stop ==>
      Delivered(listeners, respond) == Delivery(listeners[..n + 1], Stopped)
    ensures n < |listeners| && respond(listeners[n]) == Throw ==>
      Delivered(listeners, respond) == Delivery(listeners[..n + 1], Threw(listeners[n]))
    decreases n
  {
    if n > 0 {
      assert respond(listeners[0]) == Continue;
      var tail := listeners[1..];
      DeliveredAfter(tail, respond, n - 1);
      if n < |listeners| {
        assert listeners[..n + 1] == [listeners[0]] + tail[..n];
      } else {
        assert listeners == [listeners[0]] + tail;
      }
    }
  }

  /** The listeners of one priority queue in dispatch order. */
  ghost function ListenersOf<L>(q: PriorityIterable<L>): seq<L>
    reads q
    requires q.Valid()
  {
    ItemsOf(q.Contents())
  }

  /** The fields of a queue at one moment. */
  datatype QueueState<L> = QueueState(priorities: seq<int>, data: map<int, seq<L>>, length: int)

  class EventEmitter<L, V> {
    const delimiter: string
    const context: Context<V>
    var registry: Registry<L>

    /** The queues the tree holds. */
    ghost function Queues(): set<PriorityIterable<L>>
      reads this
    {
      set k | k in registry && registry[k].Queue? :: registry[k].queue
    }

    /** Every queue in the tree is well formed and was made by `on`. */
    ghost predicate Valid()
      reads this, Queues()
    {
      forall q :: q in Queues() ==> q.Valid() && q.defaultPriority == DEFAULT_PRIORITY
    }

    /** `new EventEmitter(options)`: each option the caller leaves out takes
        its default, `delimiter: ':'` and `context: {}`. */
    constructor(delimiter: Option<string>, context: Option<V>)
      ensures Valid() && registry == map[]
      ensures this.delimiter == if delimiter.Some? then delimiter.value else DEFAULT_DELIMITER
      ensures this.context == if context.Some? then Supplied(context.value) else EmptyObject
    {
      this.delimiter := if delimiter.Some? then delimiter.value else DEFAULT_DELIMITER;
      this.context := if context.Some? then Supplied(context.value) else EmptyObject;
      registry := map[];
    }

    /** `getListenersArray(eventName, notFoundHandler)`, the handler's value
        being `terminal`: walks the tree fragment by fragment, creating what
        is missing, and returns what the last fragment names. */
    method GetListenersArray(eventName: string, terminal: Slot<L>) returns (r: Result<Slot<L>, Thrown<L>>)
      modifies this
      ensures var w := Resolve(old(registry), eventName, delimiter, terminal);
        && registry == w.registry
        && r == if w.result.Success? then Success(SlotAt(registry, w.result.value)) else Failure(w.result.error)
    {
      var fragments := Split(eventName, delimiter);
      var fragmentsCount := |fragments|;
      ghost var w := Resolve(registry, eventName, delimiter, terminal);
      var at: seq<string> := [];
      var i := 0;
      while i < fragmentsCount
        invariant i <= fragmentsCount && (at == [] || at in registry)
        invariant Walk(registry, at, fragments, i, terminal) == w
      {
        var fragment := fragments[i];
        if fragment == [] {
          if i != 0 {
            return Failure(EmptyFragment);
          }
        } else {
          if at != [] && registry[at].Undefined? {
            return Failure(Runtime(TypeError));
          }
          var next := at + [fragment];
          if next !in registry {
            registry := registry[next := if i + 1 == fragmentsCount then terminal else Branch];
          }
          at := next;
        }
        i := i + 1;
      }
      r := Success(SlotAt(registry, at));
    }

    /** The `while` loop of `emit` over one queue: each listener is called
        with `(context, ...payload)` until one returns `false` or throws. */
    method Dispatch(q: PriorityIterable<L>, payload: seq<V>, respond: L -> Response)
      returns (r: Result<Option<bool>, Thrown<L>>, calls: seq<Invocation<L, V>>)
      requires q.Valid()
      ensures var d := Delivered(ListenersOf(q), respond);
        && r == Outcome(d.ending)
        && calls == Invocations(d.invoked, context, payload)
    {
      var it := q.Iterator();
      ghost var ps, data := q.priorities, q.prioritizedData;
      ghost var all := ListenersOf(q);
      ghost var d := Delivered(all, respond);
      assert all == ItemsOf(Tagged(ps, data));
      calls := [];
      assert all[..0] == [];
      var propagationStopped := false;
      while true
        invariant it.source == q && it.Valid() && q.priorities == ps && q.prioritizedData == data
        invariant |calls| <= |all| && it.Pos() == |calls|
        invariant ContinuedThrough(all, respond, |calls|)
        invariant calls == Invocations(all[..|calls|], context, payload)
        decreases |all| - |calls|
      {
        var next := it.Next();
        if next.None? {
          assert d == Delivery(all, Exhausted) by {
            DeliveredAfter(all, respond, |calls|);
          }
          assert all[..|calls|] == all;
          break;
        }
        var listener := next.value;
        ghost var n := |calls|;
        assert listener == all[n];
        DeliveredAfter(all, respond, n);
        InvocationsStep(all, n, context, payload);
        ContinuedStep(all, respond, n);
        var response := respond(listener);
        calls := calls + [Invocation(listener, context, payload)];
        if response == Throw {
          return Failure(ListenerThrew(listener)), calls;
        }
        if response == Stop {
          propagationStopped := true;
          break;
        }
      }
      r := Success(Some(!propagationStopped));
    }

    /** `emit(eventName, ...payload)`: the name is resolved with `undefined`
        for a missing terminal. Nothing there means no call and the result
        `undefined` (`None`); a plain object has no `iterator`, so asking it
        for the next listener throws a `TypeError`; a queue is dispatched. */
    method Emit(eventName: string, payload: seq<V>, respond: L -> Response)
      returns (r: Result<Option<bool>, Thrown<L>>, calls: seq<Invocation<L, V>>)
      requires Valid()
      modifies this
      ensures Valid()
      ensures var w := Resolve(old(registry), eventName, delimiter, Undefined);
        && registry == w.registry
        && (w.result.Failure? ==> r == Failure(w.result.error) && calls == [])
        && (w.result.Success? ==> match SlotAt(registry, w.result.value)
              case Undefined => r == Success(None) && calls == []
              case Branch => r == Failure(Runtime(TypeError)) && calls == []
              case Queue(q) =>
                var d := Delivered(ListenersOf(q), respond);
                && r == Outcome(d.ending)
                && calls == Invocations(d.invoked, context, payload))
    {
      ghost var reg := registry;
      var listeners := GetListenersArray(eventName, Undefined);
      assert Valid() by {
        ResolveQueues(reg, eventName, delimiter, Undefined);
      }
      if listeners.Failure? {
        return Failure(listeners.error), [];
      }
      match listeners.value
      case Undefined =>
        return Success(None), [];
      case Branch =>
        return Failure(Runtime(TypeError)), [];
      case Queue(q) =>
        r, calls := Dispatch(q, payload, respond);
    }

    /** `emit` as evidently intended: the same lookup and dispatch, but a
        name nothing was registered for leaves the tree as it was, instead
        of keeping the `undefined` the lookup stored there. */
    method EmitCorrected(eventName: string, payload: seq<V>, respond: L -> Response)
      returns (r: Result<Option<bool>, Thrown<L>>, calls: seq<Invocation<L, V>>)
      requires Valid()
      modifies this
      ensures Valid()
      ensures var w := Resolve(old(registry), eventName, delimiter, Undefined);
        && (w.result.Failure? ==> r == Failure(w.result.error) && calls == [] && registry == w.registry)
        && (w.result.Success? ==> match SlotAt(w.registry, w.result.value)
              case Undefined => r == Success(None) && calls == [] && registry == old(registry)
              case Branch => r == Failure(Runtime(TypeError)) && calls == [] && registry == w.registry
              case Queue(q) =>
                && registry == w.registry
                && var d := Delivered(ListenersOf(q), respond);
                && r == Outcome(d.ending)
                && calls == Invocations(d.invoked, context, payload))
    {
      var before := registry;
      r, calls := Emit(eventName, payload, respond);
      if r == Success(None) {
        registry := before;
      }
    }

    /** `on(eventName, listener, priority = 10)`: the name is resolved with a
        new queue for a missing terminal, and the listener is pushed into
        whatever is found there (a plain object or `undefined` has no `push`,
        which throws a `TypeError`). The pushed priority is `priority || 10`.
        `created` is the queue the factory would supply, `before` the state
        of the queue pushed into. */
    method On(eventName: string, listener: L, priority: Option<int>)
      returns (r: Result<Subscription<L>, Thrown<L>>, ghost created: PriorityIterable<L>, ghost before: QueueState<L>)
      requires Valid()
      modifies this, Queues()
      ensures Valid() && fresh(created)
      ensures var w := Resolve(old(registry), eventName, delimiter, Queue(created));
        && registry == w.registry
        && (w.result.Failure? ==> r == Failure(w.result.error))
        && (w.result.Success? ==> match SlotAt(registry, w.result.value)
              case Queue(q) => r.Success? && r.value.queue == q
              case _ => r == Failure(Runtime(TypeError)))
      ensures r.Success? ==>
        var q, p := r.value.queue, if priority == None || priority == Some(0) then DEFAULT_PRIORITY else priority.value;
        && q.priorities == PushedIndex(before.priorities, p)
        && q.prioritizedData == PushedData(before.data, p, listener)
        && q.length == before.length + 1
        && r.value.handle == EncodeHandle(p, |Bucket(before.data, p)|)
      ensures r.Success? && r.value.queue == created ==> before == QueueState([], map[], 0)
      ensures r.Success? && r.value.queue != created ==> var q := r.value.queue;
        q in old(Queues()) && before == QueueState(old(q.priorities), old(q.prioritizedData), old(q.length))
      ensures forall q :: q in old(Queues()) && !(r.Success? && r.value.queue == q) ==> unchanged(q)
    {
      var p := if priority.Some? then priority.value else DEFAULT_LISTENER_PRIORITY;
      var factory := new PriorityIterable<L>(None);
      created, before := factory, QueueState([], map[], 0);
      ghost var reg := registry;
      var listeners := GetListenersArray(eventName, Queue(factory));
      ResolveQueues(reg, eventName, delimiter, Queue(factory));
      if listeners.Failure? || !listeners.value.Queue? {
        r := if listeners.Failure? then Failure(listeners.error) else Failure(Runtime(TypeError));
        return;
      }
      var q := listeners.value.queue;
      assert q == factory || q in old(Queues());
      before := QueueState(q.priorities, q.prioritizedData, q.length);
      var handle := PushListener(q, listener, p);
      r := Success(Subscription(q, handle));
    }

    /** `listeners.push(listener, priority)` on a queue of the tree: the
        queue takes the listener and every queue of the tree stays valid. */
    method PushListener(q: PriorityIterable<L>, listener: L, priority: int) returns (handle: string)
      requires Valid() && q in Queues()
      modifies q
      ensures Valid()
      ensures var p := NormalizePriority(Some(priority), DEFAULT_PRIORITY);
        && q.priorities == PushedIndex(old(q.priorities), p)
        && q.prioritizedData == PushedData(old(q.prioritizedData), p, listener)
        && q.length == old(q.length) + 1
        && handle == EncodeHandle(p, |Bucket(old(q.prioritizedData), p)|)
    {
      handle := q.Push(listener, Some(priority));
    }
  }

  /** On an empty tree, a name `a:b` with two non-empty fragments creates a
      plain object for `a` and puts the terminal value under `b`. */
  lemma ResolveTwoFragments<L>(a: string, b: string, terminal: Slot<L>)
    requires a != [] && b != [] && ':' !in a && ':' !in b
    ensures Resolve(map[], a + [':'] + b, DEFAULT_DELIMITER, terminal)
      == Walked(map[[a] := Branch, [a, b] := terminal], Success([a, b]))
  {
    var fragments := [a, b];
    SplitOneSeparator(a, ':', b);
    var empty: Registry<L> := map[];
    var reg1 := empty[[a] := Branch];
    assert [] + [fragments[0]] == [a];
    assert Walk(empty, [], fragments, 0, terminal) == Walk(reg1, [a], fragments, 1, terminal);
    assert [a] + [fragments[1]] == [a, b];
    assert [a, b] !in reg1;
    assert Walk(reg1, [a], fragments, 1, terminal) == Walk(reg1[[a, b] := terminal], [a, b], fragments, 2, terminal);
  }

  /** The name used by the scenarios below. */
  const EVENT: string := "Namespace:event"

  /** On an empty tree, the name creates a plain object for `Namespace` and
      puts the terminal value under `event`. */
  lemma ResolveEvent<L>(terminal: Slot<L>)
    ensures Resolve(map[], EVENT, DEFAULT_DELIMITER, terminal)
      == Walked(map[["Namespace"] := Branch, ["Namespace", "event"] := terminal], Success(["Namespace", "event"]))
  {
    assert EVENT == "Namespace" + [':'] + "event";
    ResolveTwoFragments("Namespace", "event", terminal);
  }

  /** The index after the pushes of the propagation test: 10, 35, 5, 22. */
  lemma RegistrationIndex()
    ensures PushedIndex([], 10) == [10] && PushedIndex([10], 35) == [35, 10]
    ensures PushedIndex([35, 10], 5) == [35, 10, 5] && PushedIndex([35, 10, 5], 22) == [35, 22, 10, 5]
  {
    PushedAt([], 10, 0, [10]);
    PushedAt([10], 35, 0, [35, 10]);
    PushedLow();
    PushedMiddle();
  }

  /** 5 goes after the last entry of `[35, 10]`. */
  lemma PushedLow()
    ensures PushedIndex([35, 10], 5) == [35, 10, 5]
  {
    PushedAt([35, 10], 5, 2, [35, 10, 5]);
  }

  /** 22 goes between 35 and 10. */
  lemma PushedMiddle()
    ensures PushedIndex([35, 10, 5], 22) == [35, 22, 10, 5]
  {
    PushedAt([35, 10, 5], 22, 1, [35, 22, 10, 5]);
  }

  /** A new priority lands at the first index whose priority is below it. */
  lemma PushedAt(ps: seq<int>, p: int, i: nat, r: seq<int>)
    requires i <= |ps| && p !in ps && (forall j :: 0 <= j < i ==> ps[j] >= p) && (i < |ps| ==> ps[i] < p)
    requires r == ps[..i] + [p] + ps[i..]
    ensures PushedIndex(ps, p) == r
  {
    InsertAtScanPoint(ps, p, i);
  }

  /** The buckets after the same pushes: one listener at each priority. */
  lemma RegistrationData<L>(l1: L, l2: L, l3: L, l4: L)
    ensures PushedData(PushedData(PushedData(PushedData(map[], 10, l1), 35, l2), 5, l3), 22, l4)
      == map[10 := [l1], 35 := [l2], 5 := [l3], 22 := [l4]]
  {
    var d1 := PushedData(map[], 10, l1);
    assert Bucket(map[], 10) + [l1] == [l1];
    var d2 := PushedData(d1, 35, l2);
    assert Bucket(d1, 35) + [l2] == [l2];
    var d3 := PushedData(d2, 5, l3);
    assert Bucket(d2, 5) + [l3] == [l3];
    assert Bucket(d3, 22) + [l4] == [l4];
  }

  /** Singleton buckets read in index order. */
  lemma RegistrationContents<L>(l1: L, l2: L, l3: L, l4: L)
    ensures var data := map[10 := [l1], 35 := [l2], 5 := [l3], 22 := [l4]];
      Covers([35, 22, 10, 5], data)
      && ItemsOf(Tagged([35, 22, 10, 5], data)) == [l2, l4, l1, l3]
  {
    var ps := [35, 22, 10, 5];
    var data := map[10 := [l1], 35 := [l2], 5 := [l3], 22 := [l4]];
    assert Tag(data[5], 5) == [Entry(l3, 5)];
    assert Tag(data[10], 10) == [Entry(l1, 10)];
    assert Tag(data[22], 22) == [Entry(l4, 22)];
    assert Tag(data[35], 35) == [Entry(l2, 35)];
    assert ps[1..] == [22, 10, 5] && ps[2..] == [10, 5] && ps[3..] == [5] && ps[4..] == [];
    assert Tagged(ps[3..], data) == [Entry(l3, 5)];
    assert Tagged(ps[2..], data) == [Entry(l1, 10), Entry(l3, 5)];
    assert Tagged(ps[1..], data) == [Entry(l4, 22), Entry(l1, 10), Entry(l3, 5)];
    assert Tagged(ps, data) == [Entry(l2, 35), Entry(l4, 22), Entry(l1, 10), Entry(l3, 5)];
  }

  /** The queue order of the propagation test: `listener1` at the default
      priority, then `listener2` at 35, `listener3` at 5 and `listener4` at
      22 are visited as 2, 4, 1, 3. */
  lemma RegistrationOrder<L>(l1: L, l2: L, l3: L, l4: L)
    ensures var ps := PushedIndex(PushedIndex(PushedIndex(PushedIndex([], 10), 35), 5), 22);
      var data := PushedData(PushedData(PushedData(PushedData(map[], 10, l1), 35, l2), 5, l3), 22, l4);
      Covers(ps, data) && ItemsOf(Tagged(ps, data)) == [l2, l4, l1, l3]
  {
    RegistrationIndex();
    RegistrationData(l1, l2, l3, l4);
    RegistrationContents(l1, l2, l3, l4);
  }

  /** The propagation test: `listener1` returns `false`, so `listener3`,
      queued after it, is never called and `emit` returns `false`. */
  lemma StopPropagation<L>(l1: L, l2: L, l3: L, l4: L, respond: L -> Response)
    requires respond(l2) == Continue && respond(l4) == Continue && respond(l1) == Stop
    ensures Delivered([l2, l4, l1, l3], respond) == Delivery([l2, l4, l1], Stopped)
    ensures Outcome(Delivered([l2, l4, l1, l3], respond).ending) == Success(Some(false))
  {
    var ls := [l2, l4, l1, l3];
    assert ContinuedThrough(ls, respond, 2);
    DeliveredAfter(ls, respond, 2);
    assert ls[..3] == [l2, l4, l1];
  }

  /** Two `on` calls for the same name at the default priority share one
      bucket, which the queue visits in registration order. */
  lemma TwoAtDefault<L>(l1: L, l2: L)
    ensures var ps, data := PushedIndex(PushedIndex([], 10), 10), PushedData(PushedData(map[], 10, l1), 10, l2);
      && ps == [10] && data == map[10 := [l1, l2]]
      && Covers(ps, data) && ItemsOf(Tagged(ps, data)) == [l1, l2]
  {
    SinglePush(l1, 10);
    assert Bucket(map[10 := [l1]], 10) + [l2] == [l1, l2];
    TaggedSingle(10, map[10 := [l1, l2]]);
    var t := Tag([l1, l2], 10);
    assert t == [Entry(l1, 10), Entry(l2, 10)] by {
      assert t[0] == Entry(l1, 10) && t[1] == Entry(l2, 10);
    }
  }

  /** The test with two listeners that both return normally: both are
      called, in registration order, and `emit` returns `true`. */
  lemma BothListenersCalled<L>(l1: L, l2: L, respond: L -> Response)
    requires respond(l1) == Continue && respond(l2) == Continue
    ensures var ps, data := PushedIndex(PushedIndex([], 10), 10), PushedData(PushedData(map[], 10, l1), 10, l2);
      Covers(ps, data) &&
      var d := Delivered(ItemsOf(Tagged(ps, data)), respond);
      d == Delivery([l1, l2], Exhausted) && Outcome(d.ending) == Success(Some(true))
  {
    TwoAtDefault(l1, l2);
    assert ContinuedThrough([l1, l2], respond, 2);
    DeliveredAfter([l1, l2], respond, 2);
  }

  /** The test whose first listener returns `false`: the second one, of the
      same priority, is not called and `emit` returns `false`. */
  lemma FirstListenerStops<L>(l1: L, l2: L, respond: L -> Response)
    requires respond(l1) == Stop
    ensures var ps, data := PushedIndex(PushedIndex([], 10), 10), PushedData(PushedData(map[], 10, l1), 10, l2);
      Covers(ps, data) &&
      var d := Delivered(ItemsOf(Tagged(ps, data)), respond);
      d == Delivery([l1], Stopped) && Outcome(d.ending) == Success(Some(false))
  {
    TwoAtDefault(l1, l2);
    DeliveredAfter([l1, l2], respond, 0);
    assert [l1, l2][..1] == [l1];
  }

  /** `emit` before any `on`: nothing is called and the result is
      `undefined`, but an `undefined` is left at the name, so a later `on`
      for it throws a `TypeError`. */
  method EmitBeforeOn<L, V>(listener: L, respond: L -> Response) returns (r: Result<Option<bool>, Thrown<L>>, calls: seq<Invocation<L, V>>, registered: Result<Subscription<L>, Thrown<L>>)
    ensures r == Success(None) && calls == []
    ensures registered == Failure(Runtime(TypeError))
  {
    var emitter := new EventEmitter<L, V>(None, None);
    ResolveEvent<L>(Undefined);
    r, calls := emitter.Emit(EVENT, [], respond);
    ghost var created, before;
    registered, created, before := emitter.On(EVENT, listener, None);
    ResolveAgain(map[], EVENT, DEFAULT_DELIMITER, Undefined, Queue(created));
  }

  /** With the corrected `emit`, the same sequence registers the listener:
      the first `emit` leaves the tree empty and `on` creates the queue. */
  method EmitBeforeOnCorrected<L, V>(listener: L, respond: L -> Response) returns (r: Result<Option<bool>, Thrown<L>>, calls: seq<Invocation<L, V>>, registered: Result<Subscription<L>, Thrown<L>>)
    ensures r == Success(None) && calls == []
    ensures registered.Success? && registered.value.handle == EncodeHandle(10, 0)
  {
    var emitter := new EventEmitter<L, V>(None, None);
    ResolveEvent<L>(Undefined);
    r, calls := emitter.EmitCorrected(EVENT, [], respond);
    ghost var created, before;
    registered, created, before := emitter.On(EVENT, listener, None);
    ResolveEvent<L>(Queue(created));
  }

  /** The tree `on('Namespace:event', …)` leaves on a fresh emitter. */
  function RegisteredTree<L>(q: PriorityIterable<L>): Registry<L> {
    map[["Namespace"] := Branch, ["Namespace", "event"] := Queue(q)]
  }

  /** Resolving the name again in that tree finds the queue and adds nothing. */
  lemma ResolveRegistered<L>(q: PriorityIterable<L>)
    ensures Resolve(RegisteredTree(q), EVENT, DEFAULT_DELIMITER, Undefined)
      == Walked(RegisteredTree(q), Success(["Namespace", "event"]))
  {
    ResolveEvent<L>(Queue(q));
    ResolveAgain(map[], EVENT, DEFAULT_DELIMITER, Queue(q), Undefined);
  }

  /** `new EventEmitter(options)` followed by `on('Namespace:event', listener)`:
      one queue at the name, holding the listener at the default priority,
      and the handle `10.0`. */
  method RegisteredEmitter<L, V>(context: Option<V>, listener: L) returns (emitter: EventEmitter<L, V>, sub: Subscription<L>)
    ensures fresh(emitter) && fresh(sub.queue) && emitter.Valid() && emitter.delimiter == DEFAULT_DELIMITER
    ensures emitter.context == if context.Some? then Supplied(context.value) else EmptyObject
    ensures emitter.registry == RegisteredTree(sub.queue) && sub.queue in emitter.Queues()
    ensures sub.queue.Valid() && sub.queue.priorities == [10] && sub.queue.prioritizedData == map[10 := [listener]]
    ensures sub.handle == EncodeHandle(10, 0)
  {
    emitter := new EventEmitter<L, V>(None, context);
    ghost var created, before;
    var r;
    r, created, before := emitter.On(EVENT, listener, None);
    ResolveEvent<L>(Queue(created));
    sub := r.value;
    InsertAtScanPoint([], 10, 0);
    assert Bucket(map[], 10) + [listener] == [listener];
    assert sub.queue in emitter.Queues();
  }

  /** One listener in the queue: it is called once, with the context and the
      payload, and what it answers decides the outcome. */
  lemma DeliverOne<L, V>(listener: L, respond: L -> Response, context: Context<V>, payload: seq<V>)
    ensures respond(listener) == Continue ==> Delivered([listener], respond) == Delivery([listener], Exhausted)
    ensures respond(listener) == Throw ==> Delivered([listener], respond) == Delivery([listener], Threw(listener))
    ensures Invocations([listener], context, payload) == [Invocation(listener, context, payload)]
  {
    assert [listener][1..] == [];
  }

  /** The only listener of the registered emitter, in queue order. */
  lemma SingleListener<L>(listener: L)
    ensures Covers([10], map[10 := [listener]]) && ItemsOf(Tagged([10], map[10 := [listener]])) == [listener]
  {
    assert Tag([listener], 10) == [Entry(listener, 10)];
    assert [10][1..] == [];
  }

  /** `emit('Namespace:event', ...payload)` on the registered emitter whose
      queue holds `listener` alone. */
  method EmitRegistered<L, V>(emitter: EventEmitter<L, V>, q: PriorityIterable<L>, listener: L, payload: seq<V>, respond: L -> Response)
    returns (r: Result<Option<bool>, Thrown<L>>, calls: seq<Invocation<L, V>>)
    requires emitter.Valid() && emitter.delimiter == DEFAULT_DELIMITER && emitter.registry == RegisteredTree(q)
    requires q.Valid() && q.priorities == [10] && q.prioritizedData == map[10 := [listener]]
    modifies emitter
    ensures emitter.Valid() && emitter.registry == RegisteredTree(q)
    ensures respond(listener) == Continue ==> r == Success(Some(true))
    ensures respond(listener) == Throw ==> r == Failure(ListenerThrew(listener))
    ensures respond(listener) != Stop ==> calls == [Invocation(listener, emitter.context, payload)]
  {
    ResolveRegistered(q);
    SingleListener(listener);
    DeliverOne(listener, respond, emitter.context, payload);
    r, calls := emitter.Emit(EVENT, payload, respond);
    assert SlotAt(emitter.registry, ["Namespace", "event"]) == Queue(q);
  }

  /** The context and payload tests: the listener is called once with the
      emitter's context and the payload, and `emit` returns `true`. */
  method ContextAndPayload<L, V>(context: Option<V>, listener: L, payload: seq<V>, respond: L -> Response)
    returns (r: Result<Option<bool>, Thrown<L>>, calls: seq<Invocation<L, V>>)
    requires respond(listener) == Continue
    ensures r == Success(Some(true))
    ensures calls == [Invocation(listener, if context.Some? then Supplied(context.value) else EmptyObject, payload)]
  {
    var emitter, sub := RegisteredEmitter<L, V>(context, listener);
    r, calls := EmitRegistered(emitter, sub.queue, listener, payload, respond);
  }

  /** The throwing-listener test: the error leaves `emit` after the one call. */
  method ListenerThrows<L, V>(listener: L, respond: L -> Response)
    returns (r: Result<Option<bool>, Thrown<L>>, calls: seq<Invocation<L, V>>)
    requires respond(listener) == Throw
    ensures r == Failure(ListenerThrew(listener))
    ensures calls == [Invocation(listener, EmptyObject, [])]
  {
    var emitter, sub := RegisteredEmitter<L, V>(None, listener);
    r, calls := EmitRegistered(emitter, sub.queue, listener, [], respond);
  }

  /** Calling the function `on` returned: the handle's item leaves the queue,
      which is then empty to iteration. */
  method Unregister<L>(sub: Subscription<L>, listener: L)
    requires sub.queue.Valid() && sub.queue.priorities == [10] && sub.queue.prioritizedData == map[10 := [listener]]
    requires sub.handle == EncodeHandle(10, 0)
    modifies sub.queue
    ensures sub.queue.Valid() && ListenersOf(sub.queue) == []
  {
    PushThenPop([], map[], 10, listener);
    InsertAtScanPoint([], 10, 0);
    assert PushedIndex([], 10) == [10];
    assert Bucket(map[], 10) + [listener] == [listener];
    assert PushedData(map[], 10, listener) == map[10 := [listener]];
    var removed := sub.queue.Pop(sub.handle);
    assert sub.queue.Contents() == [];
  }

  /** `emit('Namespace:event')` on the registered emitter once its queue is
      empty: nothing is called and the result is `true`. */
  method EmitUnregistered<L, V>(emitter: EventEmitter<L, V>, q: PriorityIterable<L>, respond: L -> Response)
    returns (r: Result<Option<bool>, Thrown<L>>, calls: seq<Invocation<L, V>>)
    requires emitter.Valid() && emitter.delimiter == DEFAULT_DELIMITER && emitter.registry == RegisteredTree(q)
    requires q.Valid() && ListenersOf(q) == []
    modifies emitter
    ensures r == Success(Some(true)) && calls == []
  {
    ResolveRegistered(q);
    r, calls := emitter.Emit(EVENT, [], respond);
    assert SlotAt(emitter.registry, ["Namespace", "event"]) == Queue(q);
  }

  /** The test that unregisters before emitting: nothing is called and
      `emit` returns `true`. */
  method UnregisterBeforeEmit<L, V>(listener: L, respond: L -> Response)
    returns (r: Result<Option<bool>, Thrown<L>>, calls: seq<Invocation<L, V>>)
    ensures r == Success(Some(true)) && calls == []
  {
    var emitter, sub := RegisteredEmitter<L, V>(None, listener);
    Unregister(sub, listener);
    r, calls := EmitUnregistered(emitter, sub.queue, respond);
  }

  /** The test that unregisters after emitting: the first `emit` calls the
      listener once and returns `true`; the second calls nothing. */
  method UnregisterAfterEmit<L, V>(listener: L, respond: L -> Response)
    returns (first: Result<Option<bool>, Thrown<L>>, firstCalls: seq<Invocation<L, V>>,
             second: Result<Option<bool>, Thrown<L>>, secondCalls: seq<Invocation<L, V>>)
    requires respond(listener) == Continue
    ensures first == Success(Some(true)) && firstCalls == [Invocation(listener, EmptyObject, [])]
    ensures second == Success(Some(true)) && secondCalls == []
  {
    var emitter, sub := RegisteredEmitter<L, V>(None, listener);
    first, firstCalls := EmitRegistered(emitter, sub.queue, listener, [], respond);
    Unregister(sub, listener);
    second, secondCalls := EmitUnregistered(emitter, sub.queue, respond);
  }
}
