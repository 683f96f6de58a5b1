// bufferRequestToChannel of src/irc/IrcEventBroker.ts: requests of one channel one after another,
// unless the one before takes too long.

module ChannelBuffer {
  import opened Strings

  const BUFFER_TIMEOUT_MS := 5000

  // A request: when it arrives, how long it runs (None: for ever), and whether its promise is
  // rejected with a value that has no message to log (null or undefined).
  datatype Request = Request(arrival: int, duration: Option<nat>, rejectsNull: bool)

  // What becomes of the promise that is kept for a channel: when the request runs, when the promise
  // settles, and whether it is rejected with such a value.
  datatype Slot = Slot(start: Option<int>, end: Option<int>, nullRejection: bool)

  predicate SettlesInTime(before: Slot, q: Request) {
    before.end.Some? && before.end.value <= q.arrival + BUFFER_TIMEOUT_MS
  }

  // When the wait for the existing promise is over.
  function Release(before: Slot, q: Request): int {
    if !SettlesInTime(before, q) then q.arrival + BUFFER_TIMEOUT_MS
    else if before.end.value < q.arrival then q.arrival
    else before.end.value
  }

  // A rejection without a message breaks the handler that would log it: the request is not run, and
  // its own promise is rejected with that error.
  function Buffered(before: Slot, q: Request): Slot {
    var release := Release(before, q);
    if SettlesInTime(before, q) && before.nullRejection then Slot(None, Some(release), false)
    else Slot(Some(release), if q.duration.Some? then Some(release + q.duration.value) else None, q.rejectsNull)
  }

  // Promise.resolve(), for a channel without requests.
  function Settled(now: int): Slot {
    Slot(None, Some(now), false)
  }

  type Buffer = map<string, Slot>

  function Existing(buffer: Buffer, channel: string, now: int): Slot {
    if channel in buffer then buffer[channel] else Settled(now)
  }

  // --- One channel ---

  // The slots of the requests of one channel.
  function Timeline(qs: seq<Request>): (slots: seq<Slot>)
    ensures |slots| == |qs|
  {
    if qs == [] then []
    else
      var before := Timeline(qs[..|qs| - 1]);
      var q := qs[|qs| - 1];
      before + [Buffered(if before == [] then Settled(q.arrival) else before[|before| - 1], q)]
  }

  function Before(qs: seq<Request>, i: nat): Slot
    requires i < |qs|
  {
    if i == 0 then Settled(qs[0].arrival) else Timeline(qs)[i - 1]
  }

  lemma {:induction false} TimelineAt(qs: seq<Request>, i: nat)
    requires i < |qs|
    ensures Timeline(qs)[i] == Buffered(Before(qs, i), qs[i])
  {
    var n := |qs| - 1;
    if i < n {
      TimelineAt(qs[..n], i);
      assert qs[..n][i] == qs[i];
    }
  }

  ghost predicate Arriving(qs: seq<Request>) {
    forall i, j :: 0 <= i < j < |qs| ==> qs[i].arrival <= qs[j].arrival
  }

  // A request that is run starts no earlier than it arrives and at most five seconds later.
  lemma {:induction false} StartsInTime(qs: seq<Request>, i: nat)
    requires i < |qs| && Timeline(qs)[i].start.Some?
    ensures qs[i].arrival <= Timeline(qs)[i].start.value <= qs[i].arrival + BUFFER_TIMEOUT_MS
  {
    TimelineAt(qs, i);
  }

  // A request whose channel is free when it arrives starts at once; and one that waits starts when the
  // promise before it settles, if that is within five seconds, and else after five seconds.
  lemma {:induction false} StartsWhenFree(qs: seq<Request>, i: nat)
    requires i < |qs| && Timeline(qs)[i].start.Some?
    ensures
      var (q, start) := (qs[i], Timeline(qs)[i].start.value);
      && (i == 0 ==> start == q.arrival)
      && (i > 0 ==>
            match Timeline(qs)[i - 1].end
            case None => start == q.arrival + 5000
            case Some(end) =>
              && (end <= q.arrival ==> start == q.arrival)
              && (q.arrival < end <= q.arrival + 5000 ==> start == end)
              && (end > q.arrival + 5000 ==> start == q.arrival + 5000))
  {
    TimelineAt(qs, i);
  }

  // It runs for its duration and its promise settles then.
  lemma {:induction false} EndsWhenDone(qs: seq<Request>, i: nat)
    requires i < |qs| && Timeline(qs)[i].start.Some?
    ensures
      var slot := Timeline(qs)[i];
      && (slot.end.Some? <==> qs[i].duration.Some?)
      && (slot.end.Some? ==> slot.end.value - slot.start.value == qs[i].duration.value)
      && slot.nullRejection == qs[i].rejectsNull
  {
    TimelineAt(qs, i);
  }

  // A request is dropped exactly when the one before is rejected without a message before the wait
  // is over.
  lemma DroppedIff(qs: seq<Request>, i: nat)
    requires 0 < i < |qs|
    ensures
      var (before, slot) := (Timeline(qs)[i - 1], Timeline(qs)[i]);
      slot.start.None? <==> before.nullRejection && SettlesInTime(before, qs[i])
    ensures Timeline(qs)[i].start.None? ==> Timeline(qs)[i - 1].start.Some? && qs[i - 1].rejectsNull
  {
  }

  function ReleaseAt(qs: seq<Request>, i: nat): int
    requires i < |qs|
  {
    Release(Before(qs, i), qs[i])
  }

  lemma ReleaseOrder(qs: seq<Request>, i: nat)
    requires Arriving(qs) && i + 1 < |qs|
    ensures ReleaseAt(qs, i) <= ReleaseAt(qs, i + 1)
  {
    TimelineAt(qs, i);
    hide Timeline;
  }

  // Requests start in the order they arrive.
  lemma {:induction false} StartsInOrder(qs: seq<Request>, i: nat, j: nat)
    requires Arriving(qs) && i < j < |qs|
    requires Timeline(qs)[i].start.Some? && Timeline(qs)[j].start.Some?
    ensures Timeline(qs)[i].start.value <= Timeline(qs)[j].start.value
  {
    ReleasesInOrder(qs, i, j);
    TimelineAt(qs, i);
    TimelineAt(qs, j);
  }

  lemma {:induction false} ReleasesInOrder(qs: seq<Request>, i: nat, j: nat)
    requires Arriving(qs) && i <= j < |qs|
    ensures ReleaseAt(qs, i) <= ReleaseAt(qs, j)
  {
    hide ReleaseAt, Arriving;
    if i < j {
      ReleasesInOrder(qs, i, j - 1);
      ReleaseOrder(qs, j - 1);
    }
  }

  predicate Overlaps(before: Slot, slot: Slot) {
    slot.start.Some? && (before.end.None? || slot.start.value < before.end.value)
  }

  // A request starts before the one before it is over exactly when that one was not over five
  // seconds after the request arrived.
  lemma OverlapsIff(qs: seq<Request>, i: nat)
    requires 0 < i < |qs|
    ensures
      var (before, slot) := (Timeline(qs)[i - 1], Timeline(qs)[i]);
      Overlaps(before, slot) <==> !SettlesInTime(before, qs[i])
  {
    TimelineAt(qs, i);
  }

  // Between two requests that overlap, some request waited in vain.
  lemma {:induction false} OverlapNeedsTimeout(qs: seq<Request>, i: nat, j: nat) returns (k: nat)
    requires i < j < |qs| && Overlaps(Timeline(qs)[i], Timeline(qs)[j])
    ensures i < k <= j && !SettlesInTime(Timeline(qs)[k - 1], qs[k])
    decreases j
  {
    TimelineAt(qs, j);
    k := j;
    if SettlesInTime(Timeline(qs)[j - 1], qs[j]) {
      k := SettledAfter(qs, i, j - 1);
    }
  }

  // Without a wait in vain the promises settle in order.
  lemma {:induction false} SettledAfter(qs: seq<Request>, i: nat, j: nat) returns (k: nat)
    requires i <= j < |qs| && Timeline(qs)[j].end.Some?
    requires Timeline(qs)[i].end.None? || Timeline(qs)[j].end.value < Timeline(qs)[i].end.value
    ensures i < k <= j && !SettlesInTime(Timeline(qs)[k - 1], qs[k])
    decreases j
  {
    TimelineAt(qs, j);
    k := j;
    if SettlesInTime(Timeline(qs)[j - 1], qs[j]) {
      k := SettledAfter(qs, i, j - 1);
    }
  }

  // The promise of a request includes its own wait: of three requests that arrive at once and each
  // take less than five seconds, the last two overlap exactly when two of them take more.
  lemma QuickRequestsOverlapIff(q: Request, qs: seq<Request>)
    requires q.duration.Some? && q.duration.value <= BUFFER_TIMEOUT_MS && !q.rejectsNull && qs == [q, q, q]
    ensures Overlaps(Timeline(qs)[1], Timeline(qs)[2]) <==> 2 * q.duration.value > BUFFER_TIMEOUT_MS
  {
    TimelineAt(qs, 0);
    TimelineAt(qs, 1);
    TimelineAt(qs, 2);
  }

  // --- Many channels ---

  function Run(buffer: Buffer, calls: seq<(string, Request)>): Buffer {
    if calls == [] then buffer
    else
      var before := Run(buffer, calls[..|calls| - 1]);
      var (channel, q) := calls[|calls| - 1];
      before[channel := Buffered(Existing(before, channel, q.arrival), q)]
  }

  function OnChannel(calls: seq<(string, Request)>, channel: string): seq<Request> {
    if calls == [] then []
    else
      OnChannel(calls[..|calls| - 1], channel)
      + if calls[|calls| - 1].0 == channel then [calls[|calls| - 1].1] else []
  }

  // Each channel goes by its own requests only.
  lemma {:induction false} ChannelsIndependent(calls: seq<(string, Request)>, channel: string)
    ensures
      var (buffer, slots) := (Run(map[], calls), Timeline(OnChannel(calls, channel)));
      if slots == [] then channel !in buffer else channel in buffer && buffer[channel] == slots[|slots| - 1]
  {
    if calls != [] {
      var n := |calls| - 1;
      ChannelsIndependent(calls[..n], channel);
      var before := OnChannel(calls[..n], channel);
      assert (before + [calls[n].1])[..|before|] == before;
      if calls[n].0 != channel { assert OnChannel(calls, channel) == before; }
    }
  }
}
