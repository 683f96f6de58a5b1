// src/util/QueuePool.ts: a pool of queues with a first-in first-out overflow.

module QueuePool {
  import opened Strings
  import Q = Queue

  type Ticket = nat
  type Queue = Q.State<Ticket>

  // Where the overflow item that is being processed stands: waiting for any queue to become free,
  // woken by queue i, or placed or rejected (its promise settled).
  datatype Wait = Idle | Waiting | Woken(i: nat) | Resolved

  // A request taken from overflow, and whether it was placed on a queue or rejected.
  datatype Handled = Handled(ticket: Ticket, placed: bool)

  datatype Pool = Pool(
    queues: seq<Queue>,
    overflow: Queue,
    wait: Wait,
    accepted: nat,               // how many requests were accepted; their tickets are the smaller numbers
    handled: seq<Handled>,
    settled: seq<Ticket>)

  // freeQueue: the first queue without items, or the number of queues.
  function FreeQueue(queues: seq<Queue>): (i: nat)
    ensures i <= |queues|
    ensures i < |queues| ==> Q.Size(queues[i]) == 0
    ensures forall k :: 0 <= k < i ==> Q.Size(queues[k]) > 0
  {
    if queues == [] || Q.Size(queues[0]) == 0 then 0 else 1 + FreeQueue(queues[1..])
  }

  function One(b: bool): nat { if b then 1 else 0 }

  // A new ticket for each request that is accepted.
  function EnqueueOn(p: Pool, i: nat, id: string, ticket: Ticket): Pool
    requires i < |p.queues|
  {
    p.(queues := p.queues[i := Q.Enqueue(p.queues[i], id, ticket).0])
  }

  function Enqueue(p: Pool, id: string): Pool {
    var i := FreeQueue(p.queues);
    if i < |p.queues| then
      EnqueueOn(p, i, id, p.accepted).(accepted := p.accepted + 1)
    else
      // a request with the id of one that waits in overflow is not accepted anew
      var isNew := Q.IndexOfId(p.overflow.queue, id) == |p.overflow.queue|;
      p.(overflow := Q.Enqueue(p.overflow, id, p.accepted).0, accepted := p.accepted + One(isNew))
  }

  function WaitOnAll(queues: seq<Queue>): seq<Queue> {
    seq(|queues|, i requires 0 <= i < |queues| => Q.OnceFree(queues[i]))
  }

  // onOverflow, when the overflow queue starts an item.
  function OnOverflow(p: Pool): Pool
    requires p.overflow.processing.Some?
  {
    var req := p.overflow.processing.value;
    var i := FreeQueue(p.queues);
    if i < |p.queues| then
      EnqueueOn(p, i, req.id, req.thing).(wait := Resolved, handled := p.handled + [Handled(req.thing, true)])
    else
      p.(queues := WaitOnAll(p.queues), wait := Waiting)
  }

  // The overflow queue after it has consumed: it may have started an item.
  function Consumed(p: Pool): Pool {
    if p.overflow.processing.Some? then OnOverflow(p) else p.(wait := Idle)
  }

  datatype Event =
    | EEnqueue(id: string)
    | ETick(i: nat)       // a consume call of queue i
    | EFinish(i: nat)     // the item of queue i is done
    | EOverflowTick       // a consume call of the overflow queue
    | EWake               // the callback on the first queue that became free
    | EOverflowDone       // the overflow item's promise has settled

  predicate Enabled(p: Pool, e: Event) {
    match e
    case EEnqueue(_) => true
    case ETick(i) => i < |p.queues| && p.queues[i].ticks > 0
    case EFinish(i) => i < |p.queues| && p.queues[i].processing.Some?
    case EOverflowTick => p.overflow.ticks > 0
    case EWake => p.wait.Woken? && p.wait.i < |p.queues| && p.overflow.processing.Some?
    case EOverflowDone => p.wait.Resolved? && p.overflow.processing.Some?
  }

  // Queue i has run on; if that freed it, whoever waits for any queue is woken.
  function Updated(p: Pool, i: nat, q: Queue): Pool
    requires i < |p.queues|
  {
    p.(queues := p.queues[i := q],
       wait := if p.wait.Waiting? && p.queues[i].onceFree > 0 && q.onceFree == 0 then Woken(i) else p.wait)
  }

  function Step(p: Pool, e: Event): Pool
    requires Enabled(p, e)
  {
    match e
    case EEnqueue(id) => Enqueue(p, id)
    case ETick(i) => Updated(p, i, Q.Tick(p.queues[i], 0))
    case EFinish(i) =>
      Updated(p, i, Q.Finish(p.queues[i], 0)).(settled := p.settled + [p.queues[i].processing.value.thing])
    case EOverflowTick =>
      var p1 := p.(overflow := Q.Tick(p.overflow, 0));
      if p.overflow.processing.Some? then p1 else Consumed(p1)
    case EWake =>
      var req := p.overflow.processing.value;
      if Q.Size(p.queues[p.wait.i]) != 0 then
        // a newcomer is on the queue: starvation
        p.(wait := Resolved, handled := p.handled + [Handled(req.thing, false)], settled := p.settled + [req.thing])
      else
        EnqueueOn(p, p.wait.i, req.id, req.thing).(wait := Resolved, handled := p.handled + [Handled(req.thing, true)])
    case EOverflowDone =>
      Consumed(p.(overflow := Q.Finish(p.overflow, 0)))
  }

  function Tickets(items: seq<Q.Item<Ticket>>): seq<Ticket> {
    seq(|items|, i requires 0 <= i < |items| => items[i].thing)
  }

  // The requests on one queue, and on all of them.
  function On(q: Queue): multiset<Ticket> {
    multiset(Tickets(q.queue)) + (if q.processing.Some? then multiset{q.processing.value.thing} else multiset{})
  }

  function OnAll(queues: seq<Queue>): multiset<Ticket> {
    if queues == [] then multiset{} else On(queues[0]) + OnAll(queues[1..])
  }

  // The overflow item that has not been placed or rejected yet.
  function Pending(p: Pool): seq<Ticket> {
    if p.overflow.processing.Some? && (p.wait.Waiting? || p.wait.Woken?) then [p.overflow.processing.value.thing] else []
  }

  // Each pool queue holds at most one item and loses no wake-up.
  ghost predicate QueuesOk(p: Pool) {
    forall i :: 0 <= i < |p.queues| ==>
                  Q.Size(p.queues[i]) <= 1 && Q.Ordered(p.queues[i]) && Q.NoLostWakeUp(p.queues[i])
  }

  // Whoever waits is registered on every queue, all of which are busy.
  ghost predicate WaitOk(p: Pool) {
    && Q.Ordered(p.overflow) && Q.NoLostWakeUp(p.overflow)
    && (p.wait.Idle? <==> p.overflow.processing.None?)
    && (p.wait.Waiting? ==> forall i :: 0 <= i < |p.queues| ==> Q.Size(p.queues[i]) == 1 && p.queues[i].onceFree > 0)
    && (p.wait.Woken? ==> p.wait.i < |p.queues|)
  }

  // Requests leave overflow in the order they arrived there.
  ghost predicate InOrder(p: Pool) {
    Tickets(p.overflow.started) == HandledTickets(p.handled) + Pending(p)
  }

  function HandledTickets(handled: seq<Handled>): seq<Ticket> {
    seq(|handled|, i requires 0 <= i < |handled| => handled[i].ticket)
  }

  // How often a ticket occurs in overflow, on the queues, and among the settled ones.
  ghost function Places(p: Pool, t: Ticket): nat {
    multiset(Tickets(p.overflow.queue))[t] + multiset(Pending(p))[t] + OnAll(p.queues)[t] + multiset(p.settled)[t]
  }

  // Every accepted request is in exactly one place, once; no other request is anywhere.
  ghost predicate Conserved(p: Pool) {
    forall t: Ticket :: Places(p, t) == One(t < p.accepted)
  }

  ghost predicate Structured(p: Pool) {
    QueuesOk(p) && WaitOk(p) && InOrder(p)
  }

  lemma {:induction false} OnAllSum(queues: seq<Queue>, i: nat, q: Queue)
    requires i < |queues|
    ensures OnAll(queues[i := q]) + On(queues[i]) == OnAll(queues) + On(q)
  {
    hide On;
    if i > 0 {
      OnAllSum(queues[1..], i - 1, q);
      assert queues[i := q][1..] == queues[1..][i - 1 := q];
      Regroup(On(queues[0]), OnAll(queues[1..][i - 1 := q]), On(queues[i]), OnAll(queues[1..]), On(q));
    } else {
      assert queues[i := q][1..] == queues[1..];
    }
  }

  lemma Regroup(first: multiset<Ticket>, a: multiset<Ticket>, x: multiset<Ticket>, b: multiset<Ticket>, y: multiset<Ticket>)
    requires a + x == b + y
    ensures first + a + x == first + b + y
  {
    assert first + a + x == first + (a + x) && first + b + y == first + (b + y);
  }

  lemma Cancel(a: multiset<Ticket>, b: multiset<Ticket>, x: multiset<Ticket>)
    requires a + x == b + x
    ensures a == b
  {
    forall t: Ticket
      ensures a[t] == b[t]
    {
      assert (a + x)[t] == (b + x)[t];
    }
  }

  lemma OnAllUpdate(queues: seq<Queue>, i: nat, q: Queue)
    requires i < |queues|
    ensures OnAll(queues[i := q]) + On(queues[i]) == OnAll(queues) + On(q)
    ensures On(q) == On(queues[i]) ==> OnAll(queues[i := q]) == OnAll(queues)
    ensures On(queues[i]) == multiset{} ==> OnAll(queues[i := q]) == OnAll(queues) + On(q)
    ensures On(q) == multiset{} ==> OnAll(queues[i := q]) + On(queues[i]) == OnAll(queues)
  {
    hide On, OnAll;
    OnAllSum(queues, i, q);
    if On(q) == On(queues[i]) { Cancel(OnAll(queues[i := q]), OnAll(queues), On(q)); }
  }

  lemma {:induction false} OnAllSame(a: seq<Queue>, b: seq<Queue>)
    requires |a| == |b| && forall i :: 0 <= i < |a| ==> On(a[i]) == On(b[i])
    ensures OnAll(a) == OnAll(b)
  {
    hide On;
    if a != [] { OnAllSame(a[1..], b[1..]); }
  }

  lemma TicketsPush(items: seq<Q.Item<Ticket>>, item: Q.Item<Ticket>)
    ensures Tickets(items + [item]) == Tickets(items) + [item.thing]
  {
  }

  // Placing a request on an empty queue.
  lemma EnqueueEmpty(q: Queue, id: string, ticket: Ticket)
    requires Q.Size(q) == 0 && Q.Ordered(q) && Q.NoLostWakeUp(q)
    ensures
      var q' := Q.Enqueue(q, id, ticket).0;
      && Q.Size(q') == 1 && Q.Ordered(q') && Q.NoLostWakeUp(q')
      && On(q') == multiset{ticket} && On(q) == multiset{}
      && q'.onceFree == q.onceFree
  {
  }

  lemma PlaceKeeps(p: Pool, i: nat, id: string, ticket: Ticket)
    requires QueuesOk(p) && i < |p.queues| && Q.Size(p.queues[i]) == 0
    ensures
      var p' := EnqueueOn(p, i, id, ticket);
      QueuesOk(p') && OnAll(p'.queues) == OnAll(p.queues) + multiset{ticket}
  {
    EnqueueEmpty(p.queues[i], id, ticket);
    hide On, OnAll, Q.Enqueue, Q.Ordered, Q.NoLostWakeUp, Q.Size;
    OnAllUpdate(p.queues, i, Q.Enqueue(p.queues[i], id, ticket).0);
  }

  // --- One step at a time ---

  lemma {:induction false} TicketsConcat(a: seq<Q.Item<Ticket>>, b: seq<Q.Item<Ticket>>)
    ensures Tickets(a + b) == Tickets(a) + Tickets(b)
  {
  }

  lemma OverflowKeeps(p: Pool, id: string, ticket: Ticket)
    requires Q.Ordered(p.overflow) && Q.NoLostWakeUp(p.overflow)
    ensures
      var overflow := Q.Enqueue(p.overflow, id, ticket).0;
      && Q.Ordered(overflow) && Q.NoLostWakeUp(overflow)
      && overflow.processing == p.overflow.processing && overflow.started == p.overflow.started
      && (overflow != p.overflow ==>
            multiset(Tickets(overflow.queue)) == multiset(Tickets(p.overflow.queue)) + multiset{ticket})
  {
    Q.StepKeepsOrder(p.overflow, Q.EEnqueue(id, ticket), 0);
    Q.StepKeepsWakeUp(p.overflow, Q.EEnqueue(id, ticket), 0);
    TicketsPush(p.overflow.queue, Q.Item(id, ticket, |p.overflow.accepted|));
  }

  // A consume call of a pool queue moves its item from waiting to running.
  lemma TickQueue(q: Queue)
    requires Q.Size(q) <= 1 && Q.Ordered(q) && Q.NoLostWakeUp(q) && q.ticks > 0
    ensures
      var q' := Q.Tick(q, 0);
      && Q.Size(q') == Q.Size(q) && Q.Ordered(q') && Q.NoLostWakeUp(q') && On(q') == On(q)
      && (Q.Size(q) == 1 ==> q'.onceFree == q.onceFree)
  {
    Q.StepKeepsOrder(q, Q.ETick, 0);
    Q.StepKeepsWakeUp(q, Q.ETick, 0);
    if q.processing.None? && q.queue != [] {
      assert q.queue == [q.queue[0]];
      assert Tickets(q.queue) == [q.queue[0].thing] && Tickets([]) == [];
    }
  }

  // When its item is done, a pool queue is free and wakes whoever waits for it.
  lemma FinishQueue(q: Queue)
    requires Q.Size(q) <= 1 && Q.Ordered(q) && Q.NoLostWakeUp(q) && q.processing.Some?
    ensures
      var q' := Q.Finish(q, 0);
      && Q.Size(q') == 0 && Q.Ordered(q') && Q.NoLostWakeUp(q') && q'.onceFree == 0
      && On(q') == multiset{} && On(q) == multiset{q.processing.value.thing}
  {
  }

  lemma UpdatedKeeps(p: Pool, i: nat, q: Queue)
    requires QueuesOk(p) && WaitOk(p) && InOrder(p) && i < |p.queues|
    requires Q.Size(q) <= 1 && Q.Ordered(q) && Q.NoLostWakeUp(q)
    requires p.wait.Waiting? ==> q.onceFree == 0 || (Q.Size(q) == 1 && q.onceFree > 0)
    ensures
      var p' := Updated(p, i, q);
      QueuesOk(p') && WaitOk(p') && InOrder(p') && Pending(p') == Pending(p)
  {
    hide Q.Ordered, Q.NoLostWakeUp;
  }

  // --- Structure ---

  lemma PlaceNewStructured(p: Pool, i: nat, id: string, ticket: Ticket, accepted: nat)
    requires Structured(p) && i < |p.queues| && Q.Size(p.queues[i]) == 0
    ensures Structured(EnqueueOn(p, i, id, ticket).(accepted := accepted))
  {
    PlaceKeeps(p, i, id, ticket);
    assert !p.wait.Waiting?;
    hide Q.Ordered, Q.NoLostWakeUp, Q.Enqueue, On, OnAll;
  }

  lemma OverflowStructured(p: Pool, id: string, accepted: nat)
    requires Structured(p)
    ensures Structured(p.(overflow := Q.Enqueue(p.overflow, id, p.accepted).0, accepted := accepted))
  {
    OverflowKeeps(p, id, p.accepted);
    hide Q.Enqueue, Q.Ordered, Q.NoLostWakeUp, Tickets;
  }

  // The request that waits is answered, one way or the other.
  lemma AnsweredInOrder(p: Pool, p': Pool, placed: bool)
    requires WaitOk(p) && InOrder(p) && Enabled(p, EWake)
    requires p'.overflow == p.overflow && p'.wait == Resolved
    requires p'.handled == p.handled + [Handled(p.overflow.processing.value.thing, placed)]
    ensures WaitOk(p') && InOrder(p')
  {
  }

  lemma WakePlaces(p: Pool)
    requires Structured(p) && Enabled(p, EWake) && Q.Size(p.queues[p.wait.i]) == 0
    ensures Structured(Step(p, EWake))
  {
    hide QueuesOk, WaitOk, InOrder, OnAll, Q.Enqueue;
    var req := p.overflow.processing.value;
    PlaceKeeps(p, p.wait.i, req.id, req.thing);
    SameQueues(EnqueueOn(p, p.wait.i, req.id, req.thing), Step(p, EWake));
    AnsweredInOrder(p, Step(p, EWake), true);
  }

  lemma WakeRejects(p: Pool)
    requires Structured(p) && Enabled(p, EWake) && Q.Size(p.queues[p.wait.i]) != 0
    ensures Structured(Step(p, EWake))
  {
    hide QueuesOk, WaitOk, InOrder;
    SameQueues(p, Step(p, EWake));
    AnsweredInOrder(p, Step(p, EWake), false);
  }

  // The overflow queue has started an item and finds a free queue.
  lemma OverflowPlaces(p: Pool, i: nat)
    requires QueuesOk(p) && Q.Ordered(p.overflow) && Q.NoLostWakeUp(p.overflow)
    requires p.overflow.processing.Some? && i < |p.queues| && Q.Size(p.queues[i]) == 0
    requires Tickets(p.overflow.started) == HandledTickets(p.handled) + [p.overflow.processing.value.thing]
    ensures
      var req := p.overflow.processing.value;
      Structured(EnqueueOn(p, i, req.id, req.thing).(wait := Resolved, handled := p.handled + [Handled(req.thing, true)]))
  {
  }

  lemma WaitsOn(q: Queue)
    requires Q.Size(q) == 1 && Q.Ordered(q) && Q.NoLostWakeUp(q)
    ensures
      var q' := Q.OnceFree(q);
      Q.Size(q') == 1 && Q.Ordered(q') && Q.NoLostWakeUp(q') && q'.onceFree > 0 && On(q') == On(q)
  {
  }

  // The overflow queue has started an item and every queue is busy.
  lemma OverflowWaits(p: Pool)
    requires QueuesOk(p) && Q.Ordered(p.overflow) && Q.NoLostWakeUp(p.overflow)
    requires p.overflow.processing.Some? && forall k :: 0 <= k < |p.queues| ==> Q.Size(p.queues[k]) > 0
    requires Tickets(p.overflow.started) == HandledTickets(p.handled) + [p.overflow.processing.value.thing]
    ensures Structured(p.(queues := WaitOnAll(p.queues), wait := Waiting))
  {
    var queues := WaitOnAll(p.queues);
    hide Q.Ordered, Q.NoLostWakeUp, On, Q.OnceFree, Q.Size, Tickets, HandledTickets;
    forall i | 0 <= i < |queues|
      ensures Q.Size(queues[i]) == 1 && Q.Ordered(queues[i]) && Q.NoLostWakeUp(queues[i]) && queues[i].onceFree > 0
    {
      WaitsOn(p.queues[i]);
    }
  }

  // The overflow queue has consumed.
  lemma ConsumedStructured(p: Pool)
    requires QueuesOk(p) && Q.Ordered(p.overflow) && Q.NoLostWakeUp(p.overflow)
    requires Tickets(p.overflow.started) == HandledTickets(p.handled) + Tickets(Q.Current(p.overflow))
    ensures Structured(Consumed(p))
  {
    if p.overflow.processing.Some? {
      assert Tickets(Q.Current(p.overflow)) == [p.overflow.processing.value.thing];
      hide QueuesOk, Q.Ordered, Q.NoLostWakeUp, Tickets, HandledTickets, Q.Enqueue, WaitOnAll, Structured;
      var i := FreeQueue(p.queues);
      if i < |p.queues| {
        OverflowPlaces(p, i);
      } else {
        OverflowWaits(p);
      }
    } else {
      assert Tickets([]) == [] && HandledTickets(p.handled) + [] == HandledTickets(p.handled);
      hide Q.Ordered, Q.NoLostWakeUp, HandledTickets;
    }
  }

  // A consume call of the overflow queue: what was started so far has been handled.
  lemma OverflowTickConsumes(p: Pool)
    requires Structured(p) && p.overflow.ticks > 0
    ensures
      var overflow := Q.Tick(p.overflow, 0);
      && Q.Ordered(overflow) && Q.NoLostWakeUp(overflow)
      && (p.overflow.processing.Some? ==> overflow == p.overflow.(ticks := p.overflow.ticks - 1))
      && (p.overflow.processing.None? ==>
            && Tickets(overflow.started) == HandledTickets(p.handled) + Tickets(Q.Current(overflow))
            && p.overflow.queue == Q.Current(overflow) + overflow.queue)
  {
    Q.StepKeepsOrder(p.overflow, Q.ETick, 0);
    Q.StepKeepsWakeUp(p.overflow, Q.ETick, 0);
    if p.overflow.processing.None? {
      OverflowNext(p.overflow.(ticks := p.overflow.ticks - 1));
      assert HandledTickets(p.handled) + Pending(p) == HandledTickets(p.handled);
    }
    hide Q.Ordered, Q.NoLostWakeUp, Tickets, HandledTickets, Q.Consume;
  }

  // Consuming moves the head of the waiting list to the started ones.
  lemma OverflowNext(q: Queue)
    requires q.processing.None?
    ensures
      var q' := Q.Consume(q, 0);
      && q.queue == Q.Current(q') + q'.queue
      && Tickets(q'.started) == Tickets(q.started) + Tickets(Q.Current(q'))
  {
  }

  // The overflow item's promise has settled, and the queue goes on to the next one.
  lemma OverflowDoneConsumes(p: Pool)
    requires Structured(p) && Enabled(p, EOverflowDone)
    ensures
      var overflow := Q.Finish(p.overflow, 0);
      && Q.Ordered(overflow) && Q.NoLostWakeUp(overflow)
      && Tickets(overflow.started) == HandledTickets(p.handled) + Tickets(Q.Current(overflow))
      && p.overflow.queue == Q.Current(overflow) + overflow.queue
  {
    Q.StepKeepsOrder(p.overflow, Q.EFinish, 0);
    Q.StepKeepsWakeUp(p.overflow, Q.EFinish, 0);
    var item := p.overflow.processing.value;
    OverflowNext(p.overflow.(processing := None, settled := p.overflow.settled + [item], endTimes := p.overflow.endTimes + [0]));
    assert HandledTickets(p.handled) + Pending(p) == HandledTickets(p.handled);
    hide Q.Ordered, Q.NoLostWakeUp, Tickets, HandledTickets, Q.Consume;
  }

  lemma StepStructured(p: Pool, e: Event)
    requires Structured(p) && Enabled(p, e)
    ensures Structured(Step(p, e))
  {
    match e
    case EEnqueue(id) =>
      var i := FreeQueue(p.queues);
      hide Structured, Q.Enqueue, EnqueueOn;
      if i < |p.queues| {
        PlaceNewStructured(p, i, id, p.accepted, p.accepted + 1);
      } else {
        OverflowStructured(p, id, Step(p, e).accepted);
      }
    case ETick(i) =>
      var q := Q.Tick(p.queues[i], 0);
      TickQueue(p.queues[i]);
      hide Q.Tick, On, Q.Ordered, Q.NoLostWakeUp;
      UpdatedKeeps(p, i, q);
    case EFinish(i) =>
      FinishStructured(p, i);
    case EOverflowTick =>
      OverflowTickConsumes(p);
      var p1 := p.(overflow := Q.Tick(p.overflow, 0));
      if p.overflow.processing.None? {
        ConsumedStructured(p1);
      } else {
        StaleTick(p, p1);
      }
    case EWake =>
      if Q.Size(p.queues[p.wait.i]) == 0 { WakePlaces(p); } else { WakeRejects(p); }
    case EOverflowDone =>
      OverflowDoneConsumes(p);
      ConsumedStructured(p.(overflow := Q.Finish(p.overflow, 0)));
  }

  lemma StaleTick(p: Pool, p1: Pool)
    requires Structured(p) && p.overflow.processing.Some? && p.overflow.ticks > 0
    requires p1 == p.(overflow := p.overflow.(ticks := p.overflow.ticks - 1))
    ensures Structured(p1)
  {
  }

  lemma FinishStructured(p: Pool, i: nat)
    requires Structured(p) && Enabled(p, EFinish(i))
    ensures Structured(Step(p, EFinish(i)))
  {
    var q := Q.Finish(p.queues[i], 0);
    FinishQueue(p.queues[i]);
    hide Q.Finish, On, Q.Ordered, Q.NoLostWakeUp;
    UpdatedKeeps(p, i, q);
    hide Updated, Tickets, HandledTickets;
  }

  // --- Conservation, one ticket at a time ---

  // A request that is placed on a queue.
  lemma PlacedCount(p: Pool, i: nat, id: string, ticket: Ticket, t: Ticket)
    requires QueuesOk(p) && i < |p.queues| && Q.Size(p.queues[i]) == 0
    ensures OnAll(EnqueueOn(p, i, id, ticket).queues)[t] == OnAll(p.queues)[t] + One(t == ticket)
  {
    PlaceKeeps(p, i, id, ticket);
    hide QueuesOk, OnAll, EnqueueOn;
  }

  lemma EnqueueCount(p: Pool, id: string, t: Ticket)
    requires Structured(p)
    ensures Places(Enqueue(p, id), t) == Places(p, t) + One(p.accepted <= t < Enqueue(p, id).accepted)
  {
    var i := FreeQueue(p.queues);
    if i < |p.queues| {
      PlacedCount(p, i, id, p.accepted, t);
      hide OnAll, Structured, Tickets, Q.Enqueue, FreeQueue;
    } else {
      OverflowCount(p, id, t);
      hide OnAll, Structured, Tickets, Q.Enqueue, FreeQueue;
    }
  }

  lemma OverflowCount(p: Pool, id: string, t: Ticket)
    requires Structured(p)
    ensures
      var overflow := Q.Enqueue(p.overflow, id, p.accepted).0;
      var isNew := Q.IndexOfId(p.overflow.queue, id) == |p.overflow.queue|;
      && multiset(Tickets(overflow.queue))[t] == multiset(Tickets(p.overflow.queue))[t] + One(isNew && t == p.accepted)
      && Pending(p.(overflow := overflow)) == Pending(p)
  {
    OverflowKeeps(p, id, p.accepted);
    var overflow := Q.Enqueue(p.overflow, id, p.accepted).0;
    assert overflow != p.overflow <==> Q.IndexOfId(p.overflow.queue, id) == |p.overflow.queue|;
    hide Structured, Tickets, Q.Enqueue, Q.IndexOfId;
  }

  lemma UpdatedCount(p: Pool, i: nat, q: Queue, t: Ticket)
    requires i < |p.queues|
    ensures OnAll(Updated(p, i, q).queues)[t] + On(p.queues[i])[t] == OnAll(p.queues)[t] + On(q)[t]
    ensures Pending(Updated(p, i, q)) == Pending(p)
  {
    OnAllUpdate(p.queues, i, q);
    assert (OnAll(p.queues[i := q]) + On(p.queues[i]))[t] == (OnAll(p.queues) + On(q))[t];
    hide On, OnAll;
  }

  lemma FinishCount(p: Pool, i: nat, t: Ticket)
    requires Structured(p) && Enabled(p, EFinish(i))
    ensures Places(Step(p, EFinish(i)), t) == Places(p, t)
  {
    var q := Q.Finish(p.queues[i], 0);
    var ticket := p.queues[i].processing.value.thing;
    FinishQueue(p.queues[i]);
    UpdatedCount(p, i, q, t);
    hide Q.Finish, On, OnAll, Tickets, Structured, Q.Ordered, Q.NoLostWakeUp;
    SettledCount(p.settled, ticket, t);
    assert Pending(Step(p, EFinish(i))) == Pending(Updated(p, i, q));
    hide Pending, Updated;
  }

  // What a wake-up does with the request that waits.
  lemma WakeEffect(p: Pool)
    requires Enabled(p, EWake)
    ensures
      var req, p' := p.overflow.processing.value, Step(p, EWake);
      && Pending(p) == [req.thing] && Pending(p') == [] && p'.overflow == p.overflow
      && if Q.Size(p.queues[p.wait.i]) == 0
         then p'.queues == EnqueueOn(p, p.wait.i, req.id, req.thing).queues && p'.settled == p.settled
         else p'.queues == p.queues && p'.settled == p.settled + [req.thing]
  {
  }

  const NO_TICKETS: seq<Ticket> := []

  lemma OneOf(ticket: Ticket, t: Ticket)
    ensures multiset([ticket])[t] == One(t == ticket) && multiset(NO_TICKETS)[t] == 0
  {
  }

  lemma WakeCount(p: Pool, t: Ticket)
    requires Structured(p) && Enabled(p, EWake)
    ensures Places(Step(p, EWake), t) == Places(p, t)
  {
    var req := p.overflow.processing.value;
    hide OnAll, Step, Pending, Tickets, EnqueueOn, QueuesOk, WaitOk, InOrder;
    WakeEffect(p);
    OneOf(req.thing, t);
    if Q.Size(p.queues[p.wait.i]) == 0 {
      PlacedCount(p, p.wait.i, req.id, req.thing, t);
    } else {
      SettledCount(p.settled, req.thing, t);
    }
  }

  lemma SettledCount(settled: seq<Ticket>, ticket: Ticket, t: Ticket)
    ensures multiset(settled + [ticket])[t] == multiset(settled)[t] + One(t == ticket)
  {
  }

  // What an overflow item that has just started finds.
  lemma OnOverflowEffect(p: Pool)
    requires p.overflow.processing.Some?
    ensures
      var req, p', i := p.overflow.processing.value, OnOverflow(p), FreeQueue(p.queues);
      && p'.overflow == p.overflow && p'.settled == p.settled && p'.accepted == p.accepted
      && if i < |p.queues|
         then Pending(p') == [] && p'.queues == EnqueueOn(p, i, req.id, req.thing).queues
         else Pending(p') == [req.thing] && p'.queues == WaitOnAll(p.queues)
  {
  }

  // What the overflow queue starts is either placed or pending.
  lemma OnOverflowCount(p: Pool, t: Ticket)
    requires QueuesOk(p) && p.overflow.processing.Some?
    ensures
      var p' := OnOverflow(p);
      && multiset(Pending(p'))[t] + OnAll(p'.queues)[t]
         == OnAll(p.queues)[t] + One(t == p.overflow.processing.value.thing)
      && p'.overflow == p.overflow && p'.settled == p.settled && p'.accepted == p.accepted
  {
    var req := p.overflow.processing.value;
    var i := FreeQueue(p.queues);
    hide QueuesOk, OnOverflow, Pending, OnAll, EnqueueOn, WaitOnAll, FreeQueue;
    OnOverflowEffect(p);
    OneOf(req.thing, t);
    if i < |p.queues| {
      PlacedCount(p, i, req.id, req.thing, t);
    } else {
      WaitOnAllSame(p.queues);
    }
  }

  lemma WaitOnAllSame(queues: seq<Queue>)
    ensures OnAll(WaitOnAll(queues)) == OnAll(queues)
  {
    forall i | 0 <= i < |queues|
      ensures On(WaitOnAll(queues)[i]) == On(queues[i])
    {
    }
    OnAllSame(queues, WaitOnAll(queues));
  }

  lemma ConsumedCount(p: Pool, before: seq<Q.Item<Ticket>>, t: Ticket)
    requires QueuesOk(p) && before == Q.Current(p.overflow) + p.overflow.queue
    ensures
      var p' := Consumed(p);
      && Places(p', t) == multiset(Tickets(before))[t] + OnAll(p.queues)[t] + multiset(p.settled)[t]
      && p'.accepted == p.accepted
  {
    var now := Q.Current(p.overflow);
    TicketsConcat(now, p.overflow.queue);
    assert multiset(Tickets(before))[t] == multiset(Tickets(now))[t] + multiset(Tickets(p.overflow.queue))[t];
    if p.overflow.processing.Some? {
      OnOverflowCount(p, t);
      assert multiset(Tickets(now))[t] == One(t == p.overflow.processing.value.thing) by {
        assert Tickets(now) == [p.overflow.processing.value.thing];
      }
      hide OnAll, QueuesOk, Tickets, OnOverflow, Pending;
    } else {
      assert Tickets(now) == [] && Pending(p.(wait := Idle)) == [];
      hide OnAll, QueuesOk, Tickets, OnOverflow, Pending;
    }
  }

  lemma TickCount(p: Pool, i: nat, t: Ticket)
    requires Structured(p) && Enabled(p, ETick(i))
    ensures Places(Step(p, ETick(i)), t) == Places(p, t)
  {
    TickQueue(p.queues[i]);
    UpdatedCount(p, i, Q.Tick(p.queues[i], 0), t);
    hide Q.Tick, On, OnAll, Structured, Tickets, Pending;
  }

  lemma NothingPending(p: Pool)
    requires Structured(p) && (p.overflow.processing.None? || p.wait.Resolved?)
    ensures Pending(p) == [] && QueuesOk(p)
  {
  }

  // A consume call of the overflow queue, in terms of what follows it.
  lemma OverflowTickEffect(p: Pool)
    requires Enabled(p, EOverflowTick)
    ensures
      var p1 := p.(overflow := Q.Tick(p.overflow, 0));
      if p.overflow.processing.None?
      then Step(p, EOverflowTick) == Consumed(p1)
      else Step(p, EOverflowTick) == p1 && p1.overflow.queue == p.overflow.queue && Pending(p1) == Pending(p)
  {
  }

  lemma OverflowTickCount(p: Pool, t: Ticket)
    requires Structured(p) && Enabled(p, EOverflowTick)
    ensures Places(Step(p, EOverflowTick), t) == Places(p, t)
    ensures Step(p, EOverflowTick).accepted == p.accepted
  {
    hide Structured, Step, QueuesOk, Q.Tick, OnAll, Tickets, Consumed, Pending;
    OverflowTickConsumes(p);
    OverflowTickEffect(p);
    var p1 := p.(overflow := Q.Tick(p.overflow, 0));
    if p.overflow.processing.None? {
      NothingPending(p);
      SameQueues(p, p1);
      ConsumedCount(p1, p.overflow.queue, t);
      OneOf(t, t);
    }
  }

  lemma SameQueues(p: Pool, p1: Pool)
    requires QueuesOk(p) && p1.queues == p.queues
    ensures QueuesOk(p1)
  {
  }

  lemma OverflowDoneCount(p: Pool, t: Ticket)
    requires Structured(p) && Enabled(p, EOverflowDone)
    ensures Places(Step(p, EOverflowDone), t) == Places(p, t)
    ensures Step(p, EOverflowDone).accepted == p.accepted
  {
    var p1 := p.(overflow := Q.Finish(p.overflow, 0));
    assert Step(p, EOverflowDone) == Consumed(p1);
    hide Structured, Step, QueuesOk, Q.Finish, OnAll, Tickets, Consumed, Pending;
    OverflowDoneConsumes(p);
    NothingPending(p);
    SameQueues(p, p1);
    ConsumedCount(p1, p.overflow.queue, t);
    OneOf(t, t);
  }

  lemma StepCount(p: Pool, e: Event, t: Ticket)
    requires Structured(p) && Enabled(p, e)
    ensures Places(Step(p, e), t) == Places(p, t) + One(p.accepted <= t < Step(p, e).accepted)
  {
    match e
    case EEnqueue(id) =>
      EnqueueCount(p, id, t);
      hide Structured, Places, Enqueue;
    case ETick(i) => TickCount(p, i, t);
    case EFinish(i) => FinishCount(p, i, t);
    case EOverflowTick => OverflowTickCount(p, t);
    case EWake => WakeCount(p, t);
    case EOverflowDone => OverflowDoneCount(p, t);
  }

  // --- Runs ---

  ghost predicate Possible(p: Pool, es: seq<Event>)
    decreases |es|
  {
    es == [] || (Enabled(p, es[0]) && Possible(Step(p, es[0]), es[1..]))
  }

  ghost function After(p: Pool, es: seq<Event>): Pool
    requires Possible(p, es)
    decreases |es|
  {
    if es == [] then p else After(Step(p, es[0]), es[1..])
  }

  function Created(size: nat): Pool {
    Pool(seq(size, i => Q.Created(0, 0)), Q.Created(0, 0), Idle, 0, [], [])
  }

  lemma {:induction false} RunKeeps(p: Pool, es: seq<Event>)
    requires Structured(p) && Conserved(p) && Possible(p, es)
    ensures Structured(After(p, es)) && Conserved(After(p, es))
    decreases |es|
  {
    hide Structured, Step, Enabled, Places;
    if es != [] {
      StepStructured(p, es[0]);
      AcceptedGrows(p, es[0]);
      forall t: Ticket
        ensures Places(Step(p, es[0]), t) == One(t < Step(p, es[0]).accepted)
      {
        StepCount(p, es[0], t);
      }
      RunKeeps(Step(p, es[0]), es[1..]);
    }
  }

  lemma AcceptedGrows(p: Pool, e: Event)
    requires Enabled(p, e)
    ensures p.accepted <= Step(p, e).accepted
  {
  }

  lemma {:induction false} NothingOn(queues: seq<Queue>)
    requires forall i :: 0 <= i < |queues| ==> queues[i] == Q.Created(0, 0)
    ensures OnAll(queues) == multiset{}
  {
    if queues != [] { NothingOn(queues[1..]); }
  }

  lemma CreatedStructured(size: nat)
    ensures Structured(Created(size))
  {
    var p := Created(size);
    NewQueue();
    NothingHandled(p);
    hide Tickets, HandledTickets, Pending, Q.Ordered, Q.NoLostWakeUp, Q.Size;
    assert QueuesOk(p);
    assert WaitOk(p);
  }

  lemma NewQueue()
    ensures
      var q: Queue := Q.Created(0, 0);
      && Q.Size(q) == 0 && Q.Ordered(q) && Q.NoLostWakeUp(q) && q.processing.None? && q.started == []
  {
  }

  lemma NothingHandled(p: Pool)
    requires p.overflow.started == [] && p.handled == [] && p.wait.Idle?
    ensures InOrder(p)
  {
  }

  lemma NothingTicketed(t: Ticket)
    ensures multiset(Tickets([]))[t] == 0
  {
  }

  lemma CreatedConserved(size: nat)
    ensures Conserved(Created(size))
  {
    var p := Created(size);
    NothingOn(p.queues);
    assert Pending(p) == [];
    hide OnAll, Tickets, Pending;
    forall t: Ticket
      ensures Places(p, t) == 0
    {
      NothingTicketed(t);
    }
  }

  // In every state that a pool reaches: at most one item on each queue, requests leave overflow in
  // the order they came, each accepted request is in exactly one place, and whoever waits does so
  // with every queue busy.
  lemma PoolInvariant(size: nat, es: seq<Event>)
    requires Possible(Created(size), es)
    ensures Structured(After(Created(size), es)) && Conserved(After(Created(size), es))
  {
    hide Structured, Conserved, Created, Step, Enabled;
    CreatedStructured(size);
    CreatedConserved(size);
    RunKeeps(Created(size), es);
  }

  function Running(queues: seq<Queue>): nat {
    if queues == [] then 0 else One(queues[0].processing.Some?) + Running(queues[1..])
  }

  lemma {:induction false} RunningBound(queues: seq<Queue>)
    ensures Running(queues) <= |queues|
  {
    if queues != [] { RunningBound(queues[1..]); }
  }

  lemma {:induction false} RunKeepsSize(p: Pool, es: seq<Event>)
    requires Possible(p, es)
    ensures |After(p, es).queues| == |p.queues|
    decreases |es|
  {
    hide Step, Enabled;
    if es != [] {
      StepKeepsSize(p, es[0]);
      RunKeepsSize(Step(p, es[0]), es[1..]);
    }
  }

  lemma StepKeepsSize(p: Pool, e: Event)
    requires Enabled(p, e)
    ensures |Step(p, e).queues| == |p.queues|
  {
    hide FreeQueue, Q.Enqueue, Q.Tick, Q.Finish, Q.OnceFree;
  }

  lemma AloneOnQueue(p: Pool)
    requires Structured(p)
    ensures forall i :: 0 <= i < |p.queues| && p.queues[i].processing.Some? ==> p.queues[i].queue == []
  {
    hide Q.Ordered, Q.NoLostWakeUp;
  }

  // In every state that a pool reaches, at most `size` items run, each alone on its queue.
  lemma AtMostSizeRun(size: nat, es: seq<Event>)
    requires Possible(Created(size), es)
    ensures
      var queues := After(Created(size), es).queues;
      && |queues| == size && Running(queues) <= size
      && forall i :: 0 <= i < |queues| && queues[i].processing.Some? ==> queues[i].queue == []
  {
    PoolInvariant(size, es);
    RunKeepsSize(Created(size), es);
    RunningBound(After(Created(size), es).queues);
    hide Structured, Conserved, After, Possible, Running;
    AloneOnQueue(After(Created(size), es));
  }

  // --- Starvation ---

  // The step that wakes the waiting request.
  predicate Wakes(p: Pool, e: Event)
    requires Enabled(p, e)
  {
    !p.wait.Woken? && Step(p, e).wait.Woken?
  }

  predicate PlacedOn(p: Pool, e: Event, i: nat) {
    e.EEnqueue? && FreeQueue(p.queues) == i
  }

  // Some newcomer is placed on queue i, and the item of queue i is not done after that.
  ghost predicate Taken(p: Pool, es: seq<Event>, i: nat)
    requires Possible(p, es)
    decreases |es|
  {
    es != [] &&
    ((PlacedOn(p, es[0], i) && EFinish(i) !in es[1..]) || Taken(Step(p, es[0]), es[1..], i))
  }

  // Only a finished item wakes: its queue is free then, and all others are busy.
  lemma WakeFrees(p: Pool, e: Event)
    requires Structured(p) && Enabled(p, e) && Wakes(p, e)
    ensures
      var p' := Step(p, e);
      && e == EFinish(p'.wait.i) && p'.wait.i < |p'.queues| && p'.overflow.processing.Some?
      && forall k :: 0 <= k < |p'.queues| ==> Q.Size(p'.queues[k]) == if k == p'.wait.i then 0 else 1
  {
    match e
    case EEnqueue(id) => hide FreeQueue, Q.Enqueue;
    case ETick(i) =>
      TickQueue(p.queues[i]);
      hide Q.Tick, On, Q.Ordered, Q.NoLostWakeUp, InOrder;
    case EFinish(i) =>
      FinishQueue(p.queues[i]);
      hide Q.Finish, On, Q.Ordered, Q.NoLostWakeUp, InOrder;
    case EOverflowTick => hide FreeQueue, Q.Enqueue, Q.Tick, WaitOnAll;
    case EOverflowDone => hide FreeQueue, Q.Enqueue, Q.Finish, WaitOnAll;
    case EWake =>
  }

  // Until it is answered, the woken request stays where it is, and what happens on queue i is this.
  lemma WokenStep(p: Pool, e: Event, i: nat)
    requires Structured(p) && Enabled(p, e) && e != EWake && p.wait == Woken(i) && p.overflow.processing.Some?
    ensures
      var p' := Step(p, e);
      && p'.wait == Woken(i) && p'.overflow.processing == p.overflow.processing && p'.handled == p.handled
      && i < |p'.queues| == |p.queues| && Q.Size(p.queues[i]) <= 1
      && Q.Size(p'.queues[i]) == if PlacedOn(p, e, i) then 1 else if e == EFinish(i) then 0 else Q.Size(p.queues[i])
  {
    hide Q.Ordered, Q.NoLostWakeUp, InOrder, On;
    match e
    case EEnqueue(id) =>
      hide FreeQueue;
      EnqueueSize(p, id, i);
      hide Q.Enqueue;
    case ETick(k) =>
      TickQueue(p.queues[k]);
      hide Q.Tick;
    case EFinish(k) =>
      FinishQueue(p.queues[k]);
      hide Q.Finish;
    case EOverflowTick =>
    case EOverflowDone =>
  }

  lemma EnqueueSize(p: Pool, id: string, i: nat)
    requires QueuesOk(p) && i < |p.queues|
    ensures
      var p' := Enqueue(p, id);
      && |p'.queues| == |p.queues| && p'.overflow.processing == p.overflow.processing
      && Q.Size(p'.queues[i]) == if FreeQueue(p.queues) == i then 1 else Q.Size(p.queues[i])
  {
    var k := FreeQueue(p.queues);
    if k < |p.queues| { EnqueueEmpty(p.queues[k], id, p.accepted); }
    hide FreeQueue, On, Q.Ordered, Q.NoLostWakeUp;
  }

  lemma {:induction false} WokenRun(p: Pool, es: seq<Event>, i: nat)
    requires Structured(p) && Possible(p, es) && EWake !in es
    requires p.wait == Woken(i) && i < |p.queues| && p.overflow.processing.Some?
    ensures
      var p' := After(p, es);
      && Structured(p') && p'.wait == Woken(i) && i < |p'.queues|
      && p'.overflow.processing == p.overflow.processing && p'.handled == p.handled
      && Q.Size(p'.queues[i]) == One(Taken(p, es, i) || (Q.Size(p.queues[i]) > 0 && EFinish(i) !in es))
    decreases |es|
  {
    hide Structured, Step, Enabled, Q.Size;
    if es == [] {
      SizeOfQueue(p, i);
    } else {
      WokenStep(p, es[0], i);
      StepStructured(p, es[0]);
      assert EWake !in es[1..];
      WokenRun(Step(p, es[0]), es[1..], i);
      if PlacedOn(p, es[0], i) { FreeIsEmpty(p, i); }
      assert EFinish(i) !in es <==> es[0] != EFinish(i) && EFinish(i) !in es[1..];
    }
  }

  lemma SizeOfQueue(p: Pool, i: nat)
    requires Structured(p) && i < |p.queues|
    ensures Q.Size(p.queues[i]) == One(Q.Size(p.queues[i]) > 0)
  {
    hide Q.Ordered, Q.NoLostWakeUp, InOrder, WaitOk;
  }

  lemma FreeIsEmpty(p: Pool, i: nat)
    requires i < |p.queues| && FreeQueue(p.queues) == i
    ensures Q.Size(p.queues[i]) == 0
  {
  }

  lemma AnswerOf(p: Pool)
    requires Enabled(p, EWake)
    ensures
      Step(p, EWake).handled
      == p.handled + [Handled(p.overflow.processing.value.thing, Q.Size(p.queues[p.wait.i]) == 0)]
  {
    hide Q.Enqueue;
  }

  // In every run: a request that was woken by queue i is rejected, whatever happens before the
  // answer, if and only if in between a newcomer was placed on queue i and has not finished there.
  lemma StarvedIffTaken(size: nat, before: seq<Event>, wake: Event, es: seq<Event>)
    requires Possible(Created(size), before)
    requires
      var p := After(Created(size), before);
      Enabled(p, wake) && Wakes(p, wake) && Possible(Step(p, wake), es) && EWake !in es
    ensures
      var p1 := Step(After(Created(size), before), wake);
      var p2 := After(p1, es);
      && Enabled(p2, EWake) && p2.overflow.processing == p1.overflow.processing
      && var starved := Taken(p1, es, p1.wait.i);
         Step(p2, EWake).handled == p1.handled + [Handled(p2.overflow.processing.value.thing, !starved)]
  {
    PoolInvariant(size, before);
    hide Structured, Conserved, After, Possible, Taken, Created;
    var p := After(Created(size), before);
    var p1 := Step(p, wake);
    WakeFrees(p, wake);
    StepStructured(p, wake);
    hide Step;
    WokenRun(p1, es, p1.wait.i);
    AnswerOf(After(p1, es));
  }

  // The input: any request that arrives right after the wake-up takes the queue, and the one that
  // has waited is rejected.
  lemma NewcomerStarves(p: Pool, wake: Event, id: string)
    requires Structured(p) && Enabled(p, wake) && Wakes(p, wake)
    ensures
      var p1 := Step(p, wake);
      var p2 := Step(p1, EEnqueue(id));
      && PlacedOn(p1, EEnqueue(id), p1.wait.i)
      && Enabled(p2, EWake)
      && Step(p2, EWake).handled == p1.handled + [Handled(p1.overflow.processing.value.thing, false)]
  {
    var p1 := Step(p, wake);
    WakeFrees(p, wake);
    StepStructured(p, wake);
    hide Structured, Step;
    assert Q.Size(p1.queues[p1.wait.i]) == 0;
    var free := FreeQueue(p1.queues);
    assert free < |p1.queues| ==> Q.Size(p1.queues[free]) == 0;
    hide FreeQueue;
    WokenStep(p1, EEnqueue(id), p1.wait.i);
    AnswerOf(Step(p1, EEnqueue(id)));
  }

  // --- Arrival ---

  predicate IsIdle(q: Queue) {
    q.queue == [] && q.processing.None?
  }

  // A request goes to the first idle queue at once and leaves all else alone; only when all queues
  // are busy it goes to overflow, or is merged with the one that waits there under its id.
  lemma PlacedOnArrival(p: Pool, id: string)
    requires Structured(p)
    ensures
      var p' := Step(p, EEnqueue(id));
      if exists i :: 0 <= i < |p.queues| && IsIdle(p.queues[i]) then
        exists i :: 0 <= i < |p.queues| && IsIdle(p.queues[i]) && (forall k :: 0 <= k < i ==> !IsIdle(p.queues[k]))
                    && Tickets(p'.queues[i].queue) == [p.accepted] && p'.queues == p.queues[i := p'.queues[i]]
                    && p'.overflow == p.overflow && p'.accepted == p.accepted + 1
      else if exists k :: 0 <= k < |p.overflow.queue| && p.overflow.queue[k].id == id then p' == p
      else
        && p'.queues == p.queues && p'.accepted == p.accepted + 1
        && Tickets(p'.overflow.queue) == Tickets(p.overflow.queue) + [p.accepted]
  {
    hide Structured;
    var i := FreeQueue(p.queues);
    forall k | 0 <= k < |p.queues|
      ensures IsIdle(p.queues[k]) <==> Q.Size(p.queues[k]) == 0
    {
    }
    if i < |p.queues| {
      EnqueueIdle(p.queues[i], id, p.accepted);
    } else {
      assert !exists k :: 0 <= k < |p.queues| && IsIdle(p.queues[k]);
      hide IsIdle, Q.Size;
    }
  }

  lemma EnqueueIdle(q: Queue, id: string, ticket: Ticket)
    requires q.queue == []
    ensures Tickets(Q.Enqueue(q, id, ticket).0.queue) == [ticket]
  {
  }
}
