// src/util/Queue.ts: one item at a time in the critical section, with or without an interval.

module Queue {
  import opened Strings

  // A request; `defer` numbers the promise that it settles.
  datatype Item<T> = Item(id: string, thing: T, defer: nat)

  // The fields of the queue, the callbacks that the event loop still has to run, and logs.
  // `interval` 0 stands for no interval: process as soon as possible.
  datatype State<T> = State(
    interval: nat,
    queue: seq<Item<T>>,
    processing: Option<Item<T>>,
    onceFree: nat,               // promises waiting for the queue to be free
    ticks: nat,                  // consume calls scheduled by process.nextTick
    timer: seq<int>,             // when the scheduled retries may fire
    freed: nat,                  // how many onceFree promises have been resolved
    accepted: seq<Item<T>>,
    started: seq<Item<T>>,
    settled: seq<Item<T>>,
    startTimes: seq<int>,
    endTimes: seq<int>)

  function Size<T>(s: State<T>): nat {
    |s.queue| + (if s.processing.Some? then 1 else 0)
  }

  // The first waiting request with this id.
  function IndexOfId<T>(queue: seq<Item<T>>, id: string): (i: nat)
    ensures i <= |queue|
    ensures i < |queue| ==> queue[i].id == id
    ensures forall k :: 0 <= k < i ==> queue[k].id != id
  {
    if queue == [] || queue[0].id == id then 0 else 1 + IndexOfId(queue[1..], id)
  }

  // enqueue: the new state and the promise that is returned.
  function Enqueue<T>(s: State<T>, id: string, thing: T): (State<T>, nat) {
    var i := IndexOfId(s.queue, id);
    if i < |s.queue| then (s, s.queue[i].defer)
    else
      var item := Item(id, thing, |s.accepted|);
      (s.(queue := s.queue + [item], accepted := s.accepted + [item],
          ticks := s.ticks + if s.interval == 0 then 1 else 0),
       item.defer)
  }

  function Retry<T>(s: State<T>, now: int): State<T> {
    if s.interval == 0 then s else s.(timer := s.timer + [now + s.interval])
  }

  function FireOnceFree<T>(s: State<T>): State<T> {
    s.(onceFree := 0, freed := s.freed + s.onceFree)
  }

  // coConsume up to where it waits for the process function.
  function Consume<T>(s: State<T>, now: int): State<T> {
    if s.processing.Some? then s
    else if s.queue == [] then FireOnceFree(Retry(s, now))
    else s.(processing := Some(s.queue[0]), queue := s.queue[1..],
            started := s.started + [s.queue[0]], startTimes := s.startTimes + [now])
  }

  // A scheduled consume call runs; a timer fires no earlier than it was set for.
  function Tick<T>(s: State<T>, now: int): State<T>
    requires s.ticks > 0
  {
    Consume(s.(ticks := s.ticks - 1), now)
  }

  function Fire<T>(s: State<T>, i: nat, now: int): State<T>
    requires i < |s.timer| && s.timer[i] <= now
  {
    Consume(s.(timer := s.timer[..i] + s.timer[i + 1..]), now)
  }

  // The process function is done, well or badly: settle the promise and go on.
  function Finish<T>(s: State<T>, now: int): State<T>
    requires s.processing.Some?
  {
    var s1 := s.(processing := None, settled := s.settled + [s.processing.value], endTimes := s.endTimes + [now]);
    if s.interval == 0 then Consume(s1, now) else Retry(s1, now)
  }

  function OnceFree<T>(s: State<T>): State<T> {
    if Size(s) == 0 then s.(freed := s.freed + 1) else s.(onceFree := s.onceFree + 1)
  }

  // A new queue; with an interval it starts consuming at once.
  function Created<T>(interval: nat, now: int): State<T> {
    var s := State(interval, [], None, 0, 0, [], 0, [], [], [], [], []);
    if interval == 0 then s else Consume(s, now)
  }

  datatype Event<T> =
    | EEnqueue(id: string, thing: T)
    | EOnceFree
    | ETick
    | EFire(i: nat)
    | EFinish

  predicate Enabled<T>(s: State<T>, e: Event<T>, now: int) {
    match e
    case EEnqueue(_, _) => true
    case EOnceFree => true
    case ETick => s.ticks > 0
    case EFire(i) => i < |s.timer| && s.timer[i] <= now
    case EFinish => s.processing.Some?
  }

  function Step<T>(s: State<T>, e: Event<T>, now: int): State<T>
    requires Enabled(s, e, now)
  {
    match e
    case EEnqueue(id, thing) => Enqueue(s, id, thing).0
    case EOnceFree => OnceFree(s)
    case ETick => Tick(s, now)
    case EFire(i) => Fire(s, i, now)
    case EFinish => Finish(s, now)
  }

  function Current<T>(s: State<T>): seq<Item<T>> {
    if s.processing.Some? then [s.processing.value] else []
  }

  // Items start in the order they were accepted, each once, and each is settled once after that.
  ghost predicate Ordered<T>(s: State<T>) {
    && s.accepted == s.started + s.queue
    && s.started == s.settled + Current(s)
    && (forall i :: 0 <= i < |s.accepted| ==> s.accepted[i].defer == i)
    && (forall i, j :: 0 <= i < j < |s.queue| ==> s.queue[i].id != s.queue[j].id)
  }

  // Immediate mode: whatever waits for the queue has a consume call or a running item ahead of it.
  ghost predicate NoLostWakeUp<T>(s: State<T>) {
    && s.interval == 0 && s.timer == []
    && (s.processing.None? && s.queue != [] ==> s.ticks > 0)
    && (s.processing.None? && s.onceFree > 0 ==> s.ticks > 0)
  }

  // Interval mode: either one timer is pending or one item is being processed.
  ghost predicate TimerOrItem<T>(s: State<T>) {
    && s.interval > 0 && s.ticks == 0
    && |s.timer| == (if s.processing.Some? then 0 else 1)
  }

  // Interval mode: an item starts at least the interval after the previous one ended.
  ghost predicate Spaced<T>(s: State<T>) {
    && |s.startTimes| == |s.started| && |s.endTimes| == |s.settled|
    && (forall i :: 0 < i < |s.startTimes| && i - 1 < |s.endTimes| ==> s.startTimes[i] >= s.endTimes[i - 1] + s.interval)
    && (s.processing.None? && |s.endTimes| > 0 && |s.timer| == 1 ==> s.timer[0] >= s.endTimes[|s.endTimes| - 1] + s.interval)
  }

  lemma ConsumeKeepsOrder<T>(s: State<T>, now: int)
    requires Ordered(s)
    ensures Ordered(Consume(s, now))
  {
  }

  lemma StepKeepsOrder<T>(s: State<T>, e: Event<T>, now: int)
    requires Ordered(s) && Enabled(s, e, now)
    ensures Ordered(Step(s, e, now))
  {
    match e
    case EEnqueue(id, thing) =>
      if IndexOfId(s.queue, id) == |s.queue| {
        var item := Item(id, thing, |s.accepted|);
        assert s.started + s.queue + [item] == s.started + (s.queue + [item]);
      }
    case EOnceFree =>
    case ETick => ConsumeKeepsOrder(s.(ticks := s.ticks - 1), now);
    case EFire(i) => ConsumeKeepsOrder(s.(timer := s.timer[..i] + s.timer[i + 1..]), now);
    case EFinish =>
      var s1 := s.(processing := None, settled := s.settled + [s.processing.value], endTimes := s.endTimes + [now]);
      ConsumeKeepsOrder(s1, now);
  }

  lemma StepKeepsWakeUp<T>(s: State<T>, e: Event<T>, now: int)
    requires NoLostWakeUp(s) && Enabled(s, e, now)
    ensures NoLostWakeUp(Step(s, e, now))
  {
  }

  lemma StepKeepsTimer<T>(s: State<T>, e: Event<T>, now: int)
    requires TimerOrItem(s) && Enabled(s, e, now)
    ensures TimerOrItem(Step(s, e, now))
  {
  }

  // Starting an item, or finding none, once the interval has passed.
  lemma ConsumeKeepsSpacing<T>(s: State<T>, now: int)
    requires s.interval > 0 && s.processing.None? && s.timer == [] && Ordered(s) && Spaced(s)
    requires |s.endTimes| > 0 ==> now >= s.endTimes[|s.endTimes| - 1] + s.interval
    ensures Spaced(Consume(s, now))
  {
    hide Ordered;
    assert |s.started| == |s.settled| by { IdleLengths(s); }
  }

  lemma IdleLengths<T>(s: State<T>)
    requires Ordered(s) && s.processing.None?
    ensures |s.started| == |s.settled|
  {
  }

  lemma FireKeepsSpacing<T>(s: State<T>, i: nat, now: int)
    requires TimerOrItem(s) && Ordered(s) && Spaced(s) && i < |s.timer| && s.timer[i] <= now
    ensures Spaced(Fire(s, i, now))
  {
    var s1 := s.(timer := s.timer[..i] + s.timer[i + 1..]);
    assert i == 0 && s1.timer == [];
    hide Consume;
    ConsumeKeepsSpacing(s1, now);
  }

  lemma FinishKeepsSpacing<T>(s: State<T>, now: int)
    requires TimerOrItem(s) && Ordered(s) && Spaced(s) && s.processing.Some?
    ensures Spaced(Finish(s, now))
  {
  }

  lemma StepKeepsSpacing<T>(s: State<T>, e: Event<T>, now: int)
    requires TimerOrItem(s) && Ordered(s) && Spaced(s) && Enabled(s, e, now)
    ensures Spaced(Step(s, e, now))
  {
    hide Ordered, Fire, Finish;
    match e
    case EFire(i) => FireKeepsSpacing(s, i, now);
    case EFinish => FinishKeepsSpacing(s, now);
    case _ =>
  }

  // --- Runs ---

  // Events with the times at which they happen.
  ghost predicate Possible<T>(s: State<T>, es: seq<(Event<T>, int)>)
    decreases |es|
  {
    es == [] || (Enabled(s, es[0].0, es[0].1) && Possible(Step(s, es[0].0, es[0].1), es[1..]))
  }

  ghost function After<T>(s: State<T>, es: seq<(Event<T>, int)>): State<T>
    requires Possible(s, es)
    decreases |es|
  {
    if es == [] then s else After(Step(s, es[0].0, es[0].1), es[1..])
  }

  lemma {:induction false} RunImmediate<T>(s: State<T>, es: seq<(Event<T>, int)>)
    requires Ordered(s) && NoLostWakeUp(s) && Possible(s, es)
    ensures Ordered(After(s, es)) && NoLostWakeUp(After(s, es))
    decreases |es|
  {
    hide Ordered, NoLostWakeUp, Step, Enabled;
    if es != [] {
      StepKeepsOrder(s, es[0].0, es[0].1);
      StepKeepsWakeUp(s, es[0].0, es[0].1);
      RunImmediate(Step(s, es[0].0, es[0].1), es[1..]);
    }
  }

  lemma {:induction false} RunInterval<T>(s: State<T>, es: seq<(Event<T>, int)>)
    requires Ordered(s) && TimerOrItem(s) && Spaced(s) && Possible(s, es)
    ensures Ordered(After(s, es)) && TimerOrItem(After(s, es)) && Spaced(After(s, es))
    decreases |es|
  {
    hide Ordered, TimerOrItem, Spaced, Step, Enabled;
    if es != [] {
      StepKeepsOrder(s, es[0].0, es[0].1);
      StepKeepsTimer(s, es[0].0, es[0].1);
      StepKeepsSpacing(s, es[0].0, es[0].1);
      RunInterval(Step(s, es[0].0, es[0].1), es[1..]);
    }
  }

  // In every state that a queue without interval reaches: items start in the order accepted, one
  // at a time, each settled once; waiting ids differ; no wake-up is lost.
  lemma ImmediateMode<T>(now: int, es: seq<(Event<T>, int)>)
    requires Possible(Created(0, now), es)
    ensures Ordered(After(Created(0, now), es)) && NoLostWakeUp(After(Created(0, now), es))
  {
    RunImmediate(Created(0, now), es);
  }

  // In every state that a queue with an interval reaches: a timer or an item, never both; starts
  // keep the interval from the previous end and follow the order accepted.
  lemma IntervalMode<T>(interval: nat, now: int, es: seq<(Event<T>, int)>)
    requires interval > 0 && Possible(Created(interval, now), es)
    ensures
      var s := After(Created(interval, now), es);
      Ordered(s) && TimerOrItem(s) && Spaced(s)
  {
    RunInterval(Created(interval, now), es);
  }

  // --- Promises ---

  // What enqueue answers: the promise of an item with the id. It is the one that waits, if there is
  // one, and then nothing changes; else a new item with the given thing is accepted last.
  lemma EnqueueAnswers<T>(s: State<T>, id: string, thing: T)
    requires Ordered(s)
    ensures
      var (s', promise) := Enqueue(s, id, thing);
      if exists k :: 0 <= k < |s.queue| && s.queue[k].id == id then
        s' == s && exists k :: 0 <= k < |s.queue| && s.queue[k].id == id && s.queue[k].defer == promise
      else
        && s'.accepted == s.accepted + [Item(id, thing, promise)] && promise == |s.accepted|
        && s'.queue == s.queue + [Item(id, thing, promise)]
  {
  }

  ghost function Asked<T>(es: seq<(Event<T>, int)>): nat {
    if es == [] then 0 else (if es[0].0.EOnceFree? then 1 else 0) + Asked(es[1..])
  }

  // A promise that is asked for when the queue is free is resolved at once, else it waits; no other
  // step asks for one; and promises are resolved all together, and only while the queue is free.
  lemma StepResolves<T>(s: State<T>, e: Event<T>, now: int)
    requires Enabled(s, e, now)
    ensures
      var s' := Step(s, e, now);
      && s'.freed + s'.onceFree == s.freed + s.onceFree + (if e.EOnceFree? then 1 else 0)
      && (e.EOnceFree? && s.queue == [] && s.processing.None? ==> s'.freed == s.freed + 1)
      && (s'.freed != s.freed ==> s'.queue == [] && s'.processing.None?)
      && (!e.EOnceFree? && s'.freed != s.freed ==> s'.onceFree == 0)
  {
  }

  // Over every run: each promise ever asked for is resolved or waits.
  lemma {:induction false} PromisesConserved<T>(s: State<T>, es: seq<(Event<T>, int)>)
    requires Possible(s, es)
    ensures
      var s' := After(s, es);
      s'.freed + s'.onceFree == s.freed + s.onceFree + Asked(es)
    decreases |es|
  {
    if es != [] {
      StepResolves(s, es[0].0, es[0].1);
      hide Step, Enabled;
      PromisesConserved(Step(s, es[0].0, es[0].1), es[1..]);
    }
  }

  function FinishAll<T>(s: State<T>, now: int): State<T>
    requires s.interval == 0
    decreases |s.queue|, if s.processing.Some? then 1 else 0
  {
    if s.processing.None? then s else FinishAll(Finish(s, now), now)
  }

  // Without an interval, once an item runs it is enough that items finish: everything accepted
  // gets settled, and whoever waited for the queue to be free is woken.
  lemma {:induction false} FinishingDrains<T>(s: State<T>, now: int)
    requires Ordered(s) && NoLostWakeUp(s) && s.processing.Some?
    ensures
      var done := FinishAll(s, now);
      && done.settled == done.accepted == s.accepted && Size(done) == 0
      && done.onceFree == 0 && done.freed == s.freed + s.onceFree
    decreases |s.queue|
  {
    var s' := Finish(s, now);
    StepKeepsOrder(s, EFinish, now);
    StepKeepsWakeUp(s, EFinish, now);
    if s.queue != [] {
      FinishingDrains(s', now);
    }
  }

  // --- The class ---

  class Queue<T> {
    const intervalMs: nat
    var queue: seq<Item<T>>
    var processing: Option<Item<T>>
    var onceFreeDefers: nat
    var pendingTicks: nat
    var pendingTimers: seq<int>
    ghost var freed: nat
    var nextDefer: nat
    ghost var accepted: seq<Item<T>>
    ghost var started: seq<Item<T>>
    ghost var settled: seq<Item<T>>
    ghost var startTimes: seq<int>
    ghost var endTimes: seq<int>

    ghost function Value(): State<T>
      reads this
    {
      State(intervalMs, queue, processing, onceFreeDefers, pendingTicks, pendingTimers, freed,
            accepted, started, settled, startTimes, endTimes)
    }

    ghost predicate Valid()
      reads this
    {
      nextDefer == |accepted|
    }

    constructor (intervalMs: nat, now: int)
      ensures Valid() && Value() == Created(intervalMs, now)
    {
      this.intervalMs := intervalMs;
      queue, processing, onceFreeDefers, pendingTicks, pendingTimers, nextDefer := [], None, 0, 0, [], 0;
      accepted, started, settled, startTimes, endTimes, freed := [], [], [], [], [], 0;
      new;
      if intervalMs > 0 {
        // the timer chain starts with the queue
        CoConsume(now);
      }
    }

    method EnqueueItem(id: string, thing: T) returns (defer: nat)
      requires Valid()
      modifies this
      ensures Valid() && (Value(), defer) == Enqueue(old(Value()), id, thing)
    {
      var i := 0;
      while i < |queue|
        invariant 0 <= i <= |queue| && queue == old(queue)
        invariant forall k :: 0 <= k < i ==> queue[k].id != id
        invariant Value() == old(Value())
      {
        if queue[i].id == id {
          FirstId(queue, id, i);
          return queue[i].defer;
        }
        i := i + 1;
      }
      NoId(queue, id);
      defer := nextDefer;
      nextDefer := nextDefer + 1;
      queue := queue + [Item(id, thing, defer)];
      accepted := accepted + [Item(id, thing, defer)];
      if intervalMs == 0 {
        pendingTicks := pendingTicks + 1;
      }
    }

    method RetryLater(now: int)
      requires intervalMs > 0
      modifies this
      ensures Value() == Retry(old(Value()), now) && nextDefer == old(nextDefer)
    {
      pendingTimers := pendingTimers + [now + intervalMs];
    }

    // The consume coroutine up to its yield.
    method CoConsume(now: int)
      modifies this
      ensures Value() == Consume(old(Value()), now) && nextDefer == old(nextDefer)
    {
      if processing.Some? {
        return;
      }
      if queue == [] {
        if intervalMs > 0 {
          RetryLater(now);
        }
        freed := freed + onceFreeDefers;
        onceFreeDefers := 0;
        return;
      }
      started, startTimes := started + [queue[0]], startTimes + [now];
      processing, queue := Some(queue[0]), queue[1..];
    }

    // The rest of the coroutine, when the process function is done.
    method Resume(now: int)
      requires Valid() && processing.Some?
      modifies this
      ensures Valid() && Value() == Finish(old(Value()), now)
    {
      settled, endTimes := settled + [processing.value], endTimes + [now];
      processing := None;
      if intervalMs > 0 {
        RetryLater(now);
      }
      if intervalMs == 0 {
        CoConsume(now);
      }
    }

    method RunTick(now: int)
      requires Valid() && pendingTicks > 0
      modifies this
      ensures Valid() && Value() == Tick(old(Value()), now)
    {
      pendingTicks := pendingTicks - 1;
      CoConsume(now);
    }

    method RunTimer(i: nat, now: int)
      requires Valid() && i < |pendingTimers| && pendingTimers[i] <= now
      modifies this
      ensures Valid() && Value() == Fire(old(Value()), i, now)
    {
      pendingTimers := pendingTimers[..i] + pendingTimers[i + 1..];
      CoConsume(now);
    }

    method WaitUntilFree()
      requires Valid()
      modifies this
      ensures Valid() && Value() == OnceFree(old(Value()))
    {
      if |queue| + (if processing.Some? then 1 else 0) == 0 {
        freed := freed + 1;
        return;
      }
      onceFreeDefers := onceFreeDefers + 1;
    }
  }

  lemma FirstId<T>(queue: seq<Item<T>>, id: string, i: nat)
    requires i < |queue| && queue[i].id == id && forall k :: 0 <= k < i ==> queue[k].id != id
    ensures IndexOfId(queue, id) == i
  {
  }

  lemma NoId<T>(queue: seq<Item<T>>, id: string)
    requires forall k :: 0 <= k < |queue| ==> queue[k].id != id
    ensures IndexOfId(queue, id) == |queue|
  {
  }
}
