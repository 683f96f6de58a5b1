// src/util/QueuePool.ts in place: the pool's own queues are objects, tied to the values of QueuePool.

module QueuePoolClass {
  import opened Strings
  import Q = Queue
  import P = QueuePool

  class QueuePool {
    const queues: seq<Q.Queue<P.Ticket>>
    const overflow: Q.Queue<P.Ticket>
    var wait: P.Wait
    var accepted: nat
    ghost var handled: seq<P.Handled>
    ghost var settled: seq<P.Ticket>

    ghost predicate Valid()
      reads this, queues, overflow
    {
      && overflow !in queues && overflow.Valid()
      && (forall i, j :: 0 <= i < j < |queues| ==> queues[i] != queues[j])
      && (forall i :: 0 <= i < |queues| ==> queues[i].Valid())
    }

    ghost function Values(): (v: seq<P.Queue>)
      reads queues
      ensures |v| == |queues| && forall i :: 0 <= i < |v| ==> v[i] == queues[i].Value()
    {
      seq(|queues|, i requires 0 <= i < |queues| reads queues => queues[i].Value())
    }

    ghost function Value(): P.Pool
      reads this, queues, overflow
    {
      P.Pool(Values(), overflow.Value(), wait, accepted, handled, settled)
    }

    constructor (size: nat)
      requires size >= 1
      ensures Valid() && Value() == P.Created(size)
    {
      var pool: seq<Q.Queue<P.Ticket>> := [];
      while |pool| < size
        invariant |pool| <= size
        invariant forall i :: 0 <= i < |pool| ==>
                                allocated(pool[i]) && pool[i].Valid() && pool[i].Value() == Q.Created(0, 0)
        invariant forall i, j :: 0 <= i < j < |pool| ==> pool[i] != pool[j]
      {
        var q := new Q.Queue<P.Ticket>(0, 0);
        pool := pool + [q];
      }
      queues := pool;
      overflow := new Q.Queue<P.Ticket>(0, 0);
      wait, accepted, handled, settled := P.Idle, 0, [], [];
    }

    // The index of the first queue without items, or the number of queues.
    method FreeQueue() returns (i: nat)
      ensures i == P.FreeQueue(Values())
    {
      i := 0;
      while i < |queues|
        invariant i <= |queues|
        invariant forall k :: 0 <= k < i ==> Q.Size(Values()[k]) > 0
      {
        if |queues[i].queue| + (if queues[i].processing.Some? then 1 else 0) == 0 {
          FirstFree(Values(), i);
          return;
        }
        i := i + 1;
      }
      FirstFree(Values(), i);
    }

    // queue.enqueue on queue i.
    method EnqueueOn(i: nat, id: string, ticket: P.Ticket)
      requires Valid() && i < |queues|
      modifies queues[i]
      ensures Valid() && Value() == P.EnqueueOn(old(Value()), i, id, ticket)
    {
      var _ := queues[i].EnqueueItem(id, ticket);
    }

    // overflow.enqueue; an id that already waits there is not accepted anew.
    method EnqueueOverflow(id: string, ticket: P.Ticket) returns (isNew: bool)
      requires Valid()
      modifies overflow
      ensures Valid() && overflow.Value() == Q.Enqueue(old(overflow.Value()), id, ticket).0
      ensures isNew == (Q.IndexOfId(old(overflow.queue), id) == |old(overflow.queue)|)
      ensures Values() == old(Values())
    {
      var before := |overflow.queue|;
      var _ := overflow.EnqueueItem(id, ticket);
      isNew := |overflow.queue| > before;
    }

    // enqueue without an index.
    method EnqueueItem(id: string)
      requires Valid()
      modifies this, queues, overflow
      ensures Valid() && Value() == P.Enqueue(old(Value()), id)
    {
      hide Values, P.FreeQueue, Q.Enqueue, Q.IndexOfId;
      var i := FreeQueue();
      if i < |queues| {
        EnqueueOn(i, id, accepted);
        accepted := accepted + 1;
      } else {
        var isNew := EnqueueOverflow(id, accepted);
        accepted := accepted + if isNew then 1 else 0;
      }
    }

    // onceFree on every queue.
    method WaitOnAll()
      requires Valid()
      modifies queues
      ensures Valid() && Values() == P.WaitOnAll(old(Values())) && overflow.Value() == old(overflow.Value())
    {
      hide Q.OnceFree;
      var k := 0;
      while k < |queues|
        invariant k <= |queues| && Valid()
        invariant overflow.Value() == old(overflow.Value())
        invariant forall j :: 0 <= j < k ==> queues[j].Value() == Q.OnceFree(old(queues[j].Value()))
        invariant forall j :: k <= j < |queues| ==> queues[j].Value() == old(queues[j].Value())
      {
        queues[k].WaitUntilFree();
        k := k + 1;
      }
    }

    // The overflow queue has started an item.
    method OnOverflow()
      requires Valid() && overflow.processing.Some?
      modifies this, queues
      ensures Valid() && Value() == P.OnOverflow(old(Value()))
    {
      hide Values, P.FreeQueue, Q.Enqueue, P.WaitOnAll;
      var req := overflow.processing.value;
      var i := FreeQueue();
      if i < |queues| {
        EnqueueOn(i, req.id, req.thing);
        wait, handled := P.Resolved, handled + [P.Handled(req.thing, true)];
      } else {
        // the first queue that becomes free continues
        WaitOnAll();
        wait := P.Waiting;
      }
    }

    // The continuation of the promise for any queue.
    method OnFree()
      requires Valid() && P.Enabled(Value(), P.EWake)
      modifies this, queues
      ensures Valid() && Value() == P.Step(old(Value()), P.EWake)
    {
      var req, i := overflow.processing.value, wait.i;
      assert Q.Size(Value().queues[i]) == |queues[i].queue| + if queues[i].processing.Some? then 1 else 0;
      if |queues[i].queue| + (if queues[i].processing.Some? then 1 else 0) != 0 {
        // taken by a newcomer
        wait, handled, settled := P.Resolved, handled + [P.Handled(req.thing, false)], settled + [req.thing];
      } else {
        EnqueueOn(i, req.id, req.thing);
        wait, handled := P.Resolved, handled + [P.Handled(req.thing, true)];
      }
    }

    // --- The event loop ---

    method WakeIfFreed(i: nat, waiters: nat)
      requires Valid() && i < |queues|
      modifies this`wait
      ensures Valid() && wait == if old(wait).Waiting? && waiters > 0 && queues[i].onceFreeDefers == 0 then P.Woken(i) else old(wait)
    {
      if wait.Waiting? && waiters > 0 && queues[i].onceFreeDefers == 0 {
        wait := P.Woken(i);
      }
    }

    method RunTick(i: nat)
      requires Valid() && P.Enabled(Value(), P.ETick(i))
      modifies this, queues
      ensures Valid() && Value() == P.Step(old(Value()), P.ETick(i))
    {
      var waiters := queues[i].onceFreeDefers;
      queues[i].RunTick(0);
      WakeIfFreed(i, waiters);
    }

    method FinishItem(i: nat)
      requires Valid() && P.Enabled(Value(), P.EFinish(i))
      modifies this, queues
      ensures Valid() && Value() == P.Step(old(Value()), P.EFinish(i))
    {
      var waiters := queues[i].onceFreeDefers;
      settled := settled + [queues[i].processing.value.thing];
      queues[i].Resume(0);
      WakeIfFreed(i, waiters);
    }

    method RunOverflowTick()
      requires Valid() && P.Enabled(Value(), P.EOverflowTick)
      modifies this, queues, overflow
      ensures Valid() && Value() == P.Step(old(Value()), P.EOverflowTick)
    {
      var busy := overflow.processing.Some?;
      overflow.RunTick(0);
      if !busy {
        StartNext();
      }
    }

    method FinishOverflow()
      requires Valid() && P.Enabled(Value(), P.EOverflowDone)
      modifies this, queues, overflow
      ensures Valid() && Value() == P.Step(old(Value()), P.EOverflowDone)
    {
      overflow.Resume(0);
      StartNext();
    }

    method StartNext()
      requires Valid()
      modifies this, queues
      ensures Valid() && Value() == P.Consumed(old(Value()))
    {
      if overflow.processing.Some? {
        OnOverflow();
      } else {
        wait := P.Idle;
      }
    }
  }

  lemma {:induction false} FirstFree(queues: seq<P.Queue>, i: nat)
    requires i <= |queues| && (forall k :: 0 <= k < i ==> Q.Size(queues[k]) > 0)
    requires i < |queues| ==> Q.Size(queues[i]) == 0
    ensures P.FreeQueue(queues) == i
  {
    if i > 0 { FirstFree(queues[1..], i - 1); }
  }
}
