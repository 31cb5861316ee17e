// EventBus (src/cadgenesis/agents/event_bus.py): publishing into a heap by descending
// priority, and delivering in that order.
module EventBuses {
  import opened Results
  import opened Seqs
  import opened Heaps

  datatype Event = Event(topic: string, sender: string, priority: int, correlationId: string, kind: string)

  type Pending = Entry<Event>

  // Handlers are known by a number; the bus's own handler for responses is 0.
  datatype Subscription = Subscription(topic: string, handler: nat, filter: Option<Event -> bool>)

  // The entry of an event in the heap.
  function Waiting(e: Event, turn: int): Pending {
    Entry(-(e.priority as real), turn, e)
  }

  // The call of the handler of a subscription, given by its position.
  datatype Call = Call(sub: int, event: Pending)

  predicate Wants(s: Subscription, e: Event) {
    (s.topic == "*" || s.topic == e.topic) && (s.filter.Some? ==> s.filter.value(e))
  }

  // The calls that deliver one event: the subscriptions that want it, in order.
  function Calls(subs: seq<Subscription>, e: Pending): (r: seq<Call>)
    ensures forall c :: c in r ==> 0 <= c.sub < |subs| && c.event == e
  {
    if subs == [] then []
    else
      var n := |subs| - 1;
      Calls(subs[..n], e) + if Wants(subs[n], e.item) then [Call(n, e)] else []
  }

  function AllCalls(subs: seq<Subscription>, q: seq<Pending>): (r: seq<Call>)
    ensures forall c :: c in r ==> c.event in q
  {
    if q == [] then [] else Calls(subs, q[0]) + AllCalls(subs, q[1..])
  }

  // The subscription is to the event's topic or to all, and its filter, if any, lets the
  // event through.
  ghost predicate Subscribed(s: Subscription, e: Event) {
    && s.topic in {"*", e.topic}
    && match s.filter case None => true case Some(f) => f(e)
  }

  // An event is delivered once to each subscription that is to receive it, ...
  lemma {:induction false} CalledOnce(subs: seq<Subscription>, e: Pending, i: nat)
    requires i < |subs|
    ensures multiset(Calls(subs, e))[Call(i, e)] == if Subscribed(subs[i], e.item) then 1 else 0
  {
    var n := |subs| - 1;
    var c := Call(i, e);
    if i < n {
      CalledOnce(subs[..n], e, i);
    } else {
      assert c !in Calls(subs[..n], e);
      assert multiset(Calls(subs[..n], e))[c] == 0;
    }
  }

  // ... over a whole queue too, and to no other.
  lemma {:induction false} EachDeliveredOnce(subs: seq<Subscription>, q: seq<Pending>, e: Pending, i: nat)
    requires Ranked(q) && i < |subs|
    ensures multiset(AllCalls(subs, q))[Call(i, e)] == if e in q && Subscribed(subs[i], e.item) then 1 else 0
  {
    if q != [] {
      var c := Call(i, e);
      RankedTail(q);
      EachDeliveredOnce(subs, q[1..], e, i);
      if e == q[0] {
        CalledOnce(subs, e, i);
        assert !Before(e, e);
      } else {
        assert c !in Calls(subs, q[0]);
        assert multiset(Calls(subs, q[0]))[c] == 0;
        assert e in q <==> e in q[1..] by {
          if e in q { HeadOrTail(q, e); }
          if e in q[1..] { TailIn(q, e); }
        }
      }
    }
  }

  // ------------------------------------------------------------------
  // The order of delivery

  predicate MoreUrgent(a: Pending, b: Pending) {
    a.item.priority >= b.item.priority
  }

  ghost predicate ByPriority(es: seq<Pending>) {
    forall i {:trigger es[i]} :: 0 <= i < |es| ==> es[i] == Waiting(es[i].item, es[i].turn)
  }

  lemma {:induction false} InsertSame(e: Pending, s: seq<Pending>)
    requires ByPriority([e]) && ByPriority(s)
    ensures Insert(RankLeq, e, s) == Insert(MoreUrgent, e, s) && ByPriority(Insert(RankLeq, e, s))
  {
    assert [e][0] == e;
    if s != [] && !RankLeq(e, s[0]) {
      InsertSame(e, s[1..]);
    }
  }

  lemma {:induction false} SortSame(es: seq<Pending>)
    requires ByPriority(es)
    ensures Sort(RankLeq, es) == Sort(MoreUrgent, es) && ByPriority(Sort(RankLeq, es))
  {
    if es != [] {
      SortSame(es[1..]);
      InsertSame(es[0], Sort(RankLeq, es[1..]));
    }
  }

  // The queue is a stable sort of what was published, highest priority first.
  lemma {:induction false} QueueByPriority(es: seq<Pending>)
    requires ByPriority(es) && TurnsRise(es)
    ensures Queued(es) == Sort(MoreUrgent, es)
  {
    QueuedIsStableSort(es);
    SortSame(es);
  }

  // In that order higher priorities come first, and equal ones by their turns.
  lemma {:induction false} DeliveredByPriority(es: seq<Pending>, i: nat, j: nat)
    requires ByPriority(es) && TurnsRise(es) && i < j < |Sort(MoreUrgent, es)|
    ensures var a, b := Sort(MoreUrgent, es)[i], Sort(MoreUrgent, es)[j];
      a.item.priority > b.item.priority || (a.item.priority == b.item.priority && a.turn < b.turn)
  {
    var q := Sort(MoreUrgent, es);
    QueueByPriority(es);
    QueuedRanked(es);
    SortSame(es);
    QueuedIsStableSort(es);
    assert InTurn(q, i, j);
    assert q[i] == Waiting(q[i].item, q[i].turn) && q[j] == Waiting(q[j].item, q[j].turn);
  }

  // Events waiting in the order they were published, with turns up to the given one.
  ghost predicate Published(es: seq<Pending>, sequence: nat) {
    && TurnsRise(es) && ByPriority(es)
    && forall i {:trigger es[i]} :: 0 <= i < |es| ==> es[i].turn <= sequence
  }

  lemma {:induction false} OneMorePublished(es: seq<Pending>, sequence: nat, e: Pending)
    requires Published(es, sequence) && e == Waiting(e.item, sequence + 1)
    ensures Published(es + [e], sequence + 1) && NewKey(e, Queued(es))
    ensures Queued(es + [e]) == Insert(Before, e, Queued(es))
  {
    LaterKeyNew(es, Queued(es), e);
    forall i: nat, j: nat | i < j < |es| + 1
      ensures Earlier(es + [e], i, j)
    {
      assert j < |es| ==> Earlier(es, i, j);
    }
    assert (es + [e])[..|es|] == es;
  }

  // The push of the next event keeps the queue that of all waiting events.
  method PushNext(heap: seq<Pending>, e: Pending, ghost es: seq<Pending>, ghost sequence: nat)
      returns (after: seq<Pending>)
    requires Published(es, sequence) && Represents(heap, Queued(es)) && e == Waiting(e.item, sequence + 1)
    ensures Published(es + [e], sequence + 1) && Represents(after, Queued(es + [e]))
  {
    OneMorePublished(es, sequence, e);
    after := Push(heap, e, Queued(es));
  }

  lemma {:induction false} NothingWaits(sequence: nat)
    ensures Published([], sequence) && Represents<Event>([], Queued([]))
  {
  }

  lemma {:induction false} NextCalls(subs: seq<Subscription>, q: seq<Pending>, calls: seq<Call>, all: seq<Call>)
    requires q != [] && calls + AllCalls(subs, q) == all
    ensures (calls + Calls(subs, q[0])) + AllCalls(subs, q[1..]) == all
  {
  }

  // ------------------------------------------------------------------

  class EventBus {
    const autoFlush: bool
    var subs: seq<Subscription>
    var heap: seq<Pending>
    var sequence: nat
    // The calls made so far, and the waiting events in the order they were published.
    var calls: seq<Call>
    ghost var waiting: seq<Pending>

    ghost predicate Valid()
      reads this
    {
      Published(waiting, sequence) && Represents(heap, Queued(waiting))
    }

    constructor (autoFlush: bool)
      ensures Valid() && waiting == [] && calls == [] && this.autoFlush == autoFlush && |subs| == 1
      ensures sequence == 0 && subs[0].handler == 0
      ensures forall e {:trigger Subscribed(subs[0], e)} :: Subscribed(subs[0], e) <==> e.kind == "response"
    {
      this.autoFlush := autoFlush;
      subs := [Subscription("*", 0, Some((e: Event) => e.kind == "response"))];
      heap, sequence, calls, waiting := [], 0, [], [];
    }

    method Subscribe(topic: string, handler: nat, filter: Option<Event -> bool>) returns (r: Result<(), string>)
      requires Valid()
      modifies this`subs
      ensures Valid()
      ensures r.Ok? <==> topic != ""
      ensures r.Err? ==> r.error == "subscription requires a topic"
      ensures subs == if r.Ok? then old(subs) + [Subscription(topic, handler, filter)] else old(subs)
    {
      if topic == "" {
        return Err("subscription requires a topic");
      }
      subs := subs + [Subscription(topic, handler, filter)];
      return Ok(());
    }

    // _deliver; what a handler raises is swallowed.
    method Deliver(e: Pending)
      modifies this`calls
      ensures calls == old(calls) + Calls(subs, e)
    {
      for n := 0 to |subs|
        invariant calls == old(calls) + Calls(subs[..n], e)
      {
        assert subs[..n + 1][..n] == subs[..n];
        if Wants(subs[n], e.item) {
          calls := calls + [Call(n, e)];
        }
      }
      assert subs[..|subs|] == subs;
    }

    // _drain, with handlers that do not publish.
    method Drain(ghost q: seq<Pending>)
      requires Represents(heap, q)
      modifies this`heap, this`calls
      ensures heap == [] && calls == old(calls) + AllCalls(subs, q)
    {
      ghost var left, all := q, calls + AllCalls(subs, q);
      EmptyTogether(heap, left);
      while heap != []
        invariant Represents(heap, left) && |heap| == |left|
        invariant calls + AllCalls(subs, left) == all
        decreases |left|
      {
        var e, rest := Pop(heap, left);
        NextCalls(subs, left, calls, all);
        heap := rest;
        Deliver(e);
        left := left[1..];
        EmptyTogether(heap, left);
      }
    }

    // Every waiting event is delivered, highest priority first, ties in the order
    // they were published.
    method Flush()
      requires Valid()
      modifies this`heap, this`calls, this`waiting
      ensures Valid() && waiting == []
      ensures calls == old(calls) + AllCalls(subs, Sort(MoreUrgent, old(waiting)))
    {
      QueueByPriority(waiting);
      Drain(Queued(waiting));
      waiting := [];
      NothingWaits(sequence);
    }

    // With autoFlush the event and all that wait are delivered at once, otherwise it
    // waits its turn.
    method Publish(topic: string, sender: string, priority: int, correlationId: string, kind: string)
        returns (event: Event)
      requires Valid()
      modifies this`heap, this`calls, this`waiting, this`sequence
      ensures Valid() && sequence == old(sequence) + 1
      ensures event == Event(topic, sender, priority, correlationId, kind)
      ensures var all := old(waiting) + [Waiting(event, sequence)];
        if autoFlush then waiting == [] && calls == old(calls) + AllCalls(subs, Sort(MoreUrgent, all))
        else waiting == all && calls == old(calls)
    {
      event := Event(topic, sender, priority, correlationId, kind);
      Enqueue(event);
      if autoFlush {
        Flush();
      }
    }

    method Enqueue(event: Event)
      requires Valid()
      modifies this`heap, this`waiting, this`sequence
      ensures Valid() && sequence == old(sequence) + 1
      ensures waiting == old(waiting) + [Waiting(event, sequence)]
    {
      var e := Waiting(event, sequence + 1);
      heap := PushNext(heap, e, waiting, sequence);
      sequence := sequence + 1;
      waiting := waiting + [e];
    }
  }
}
