// src/pool-service/CommandReader.ts: reading a Redis stream, with resets to '$' and trimming.

module CommandReader {
  import opened Strings

  const TRIM_MAXLEN_COUNT := 100_000

  // A stream entry. Redis hands out increasing ids; here they are numbers.
  datatype Entry = Entry(id: nat, command: string)

  // commandStreamId: '$' or the id of the last entry read.
  datatype Cursor = Head | At(id: nat)

  // The stream, the reader, and logs. `reading` is the id that the blocked XREAD reads from;
  // `point` is the id up to which it is settled whether entries are dispatched or skipped.
  datatype State = State(
    supportsMinId: bool,
    entries: seq<Entry>,
    lastId: nat,
    cursor: Cursor,
    reading: Option<nat>,
    added: seq<Entry>,
    dispatched: seq<Entry>,
    skipped: seq<Entry>,
    point: nat)

  // The index of the first entry with at least this id.
  function Cut(entries: seq<Entry>, id: nat): (n: nat)
    ensures n <= |entries|
    ensures forall i :: 0 <= i < n ==> entries[i].id < id
    ensures n < |entries| ==> entries[n].id >= id
  {
    if entries == [] || entries[0].id >= id then 0 else 1 + Cut(entries[1..], id)
  }

  // The entries of a stream from an id on, and those behind it.
  function From(entries: seq<Entry>, id: nat): seq<Entry> {
    entries[Cut(entries, id)..]
  }

  function Behind(entries: seq<Entry>, id: nat): seq<Entry> {
    entries[Cut(entries, id + 1)..]
  }

  // XTRIM with MINID, or with MAXLEN on servers without it.
  function Trimmed(entries: seq<Entry>, supportsMinId: bool, id: nat): seq<Entry> {
    if supportsMinId then From(entries, id)
    else if |entries| <= TRIM_MAXLEN_COUNT then entries
    else entries[|entries| - TRIM_MAXLEN_COUNT..]
  }

  // The id that an XREAD reads from: '$' stands for the last one.
  function ReadFrom(cursor: Cursor, lastId: nat): nat {
    if cursor.Head? then lastId else cursor.id
  }

  datatype Event =
    | EAdd(entry: Entry)    // someone adds a command
    | ERead                 // readQueue asks for commands
    | EReply                // XREAD answers with all there are
    | ENull                 // XREAD timed out or failed
    | ETrim                 // the trim interval

  predicate Enabled(s: State, e: Event) {
    match e
    case EAdd(entry) => entry.id > s.lastId
    case ERead => s.reading.None?
    case EReply => s.reading.Some? && Behind(s.entries, s.reading.value) != []
    case ENull => s.reading.Some?
    case ETrim => true
  }

  function Step(s: State, e: Event): State
    requires Enabled(s, e)
  {
    match e
    case EAdd(entry) =>
      s.(entries := s.entries + [entry], added := s.added + [entry], lastId := entry.id)
    case ERead =>
      if s.cursor.Head?
      then s.(reading := Some(s.lastId), skipped := s.skipped + Behind(s.entries, s.point), point := s.lastId)
      else s.(reading := Some(s.cursor.id))
    case EReply =>
      var cmds := Behind(s.entries, s.reading.value);
      var last := cmds[|cmds| - 1].id;
      s.(dispatched := s.dispatched + cmds, cursor := At(last), reading := None, point := last)
    case ENull => s.(cursor := Head, reading := None)
    case ETrim =>
      if s.cursor.Head? then s else s.(entries := Trimmed(s.entries, s.supportsMinId, s.cursor.id))
  }

  // --- The classes ---

  class Redis {
    var entries: seq<Entry>
    var lastId: nat

    constructor ()
      ensures entries == [] && lastId == 0
    {
      entries, lastId := [], 0;
    }

    method XTrim(supportsMinId: bool, id: nat)
      modifies this
      ensures entries == Trimmed(old(entries), supportsMinId, id) && lastId == old(lastId)
    {
      entries := Trimmed(entries, supportsMinId, id);
    }
  }

  class RedisCommandReader {
    const redis: Redis
    const supportsMinId: bool
    var commandStreamId: Cursor
    var reading: Option<nat>
    ghost var added: seq<Entry>
    var dispatched: seq<Entry>      // in the order that the callbacks are scheduled
    ghost var skipped: seq<Entry>
    ghost var point: nat

    ghost function Value(): State
      reads this, redis
    {
      State(supportsMinId, redis.entries, redis.lastId, commandStreamId, reading, added, dispatched, skipped, point)
    }

    constructor (redis: Redis, supportsMinId: bool)
      ensures Value() == Created(supportsMinId, redis.entries, redis.lastId)
    {
      this.redis, this.supportsMinId := redis, supportsMinId;
      commandStreamId, reading, added, dispatched, skipped, point := Head, None, redis.entries, [], [], 0;
    }

    method UpdateLastRead(lastRead: nat)
      modifies this`commandStreamId
      ensures commandStreamId == At(lastRead)
    {
      commandStreamId := At(lastRead);
    }

    // readQueue up to where it waits for the answer.
    method BeginRead()
      requires reading.None?
      modifies this
      ensures Value() == Step(old(Value()), ERead)
    {
      reading := Some(ReadFrom(commandStreamId, redis.lastId));
      if commandStreamId.Head? {
        skipped, point := skipped + Behind(redis.entries, point), redis.lastId;
      }
    }

    // Dispatch each command; a crash must not get stuck on it.
    method Dispatch(newCmds: seq<Entry>)
      requires newCmds != []
      modifies this`commandStreamId, this`dispatched
      ensures dispatched == old(dispatched) + newCmds
      ensures commandStreamId == At(newCmds[|newCmds| - 1].id)
    {
      var i := 0;
      while i < |newCmds|
        invariant i <= |newCmds|
        invariant dispatched == old(dispatched) + newCmds[..i]
        invariant i > 0 ==> commandStreamId == At(newCmds[i - 1].id)
      {
        UpdateLastRead(newCmds[i].id);
        assert newCmds[..i + 1] == newCmds[..i] + [newCmds[i]];
        dispatched := dispatched + [newCmds[i]];
        i := i + 1;
      }
      assert newCmds[..i] == newCmds;
    }

    // The answer: nothing, or commands.
    method EndRead(newCmds: Option<seq<Entry>>)
      requires reading.Some?
      requires newCmds.Some? ==> newCmds.value == Behind(redis.entries, reading.value) != []
      modifies this
      ensures Value() == Step(old(Value()), if newCmds.None? then ENull else EReply)
    {
      hide Behind;
      reading := None;
      if newCmds.None? {
        commandStreamId := Head;
        return;
      }
      Dispatch(newCmds.value);
      point := newCmds.value[|newCmds.value| - 1].id;
    }

    method TrimCommandStream()
      modifies redis
      ensures Value() == Step(old(Value()), ETrim)
    {
      if commandStreamId.Head? {
        return;
      }
      redis.XTrim(supportsMinId, commandStreamId.id);
    }
  }

  // --- What every step keeps ---

  ghost predicate Increasing(entries: seq<Entry>) {
    forall i, j :: 0 <= i < j < |entries| ==> entries[i].id < entries[j].id
  }

  ghost predicate UpTo(entries: seq<Entry>, id: nat) {
    forall i :: 0 <= i < |entries| ==> entries[i].id <= id
  }

  ghost predicate Beyond(entries: seq<Entry>, id: nat) {
    forall i :: 0 <= i < |entries| ==> entries[i].id > id
  }

  // Whatever is dispatched next comes after all that was dispatched before.
  ghost predicate Forward(s: State) {
    && Increasing(s.entries) && UpTo(s.entries, s.lastId) && s.point <= s.lastId
    && Increasing(s.dispatched) && UpTo(s.dispatched, s.point)
    && (s.reading.Some? ==> s.reading.value == s.point)
    && (s.cursor.At? ==> s.cursor.id == s.point)
  }

  // A trim cuts off the first entries.
  function TrimCut(entries: seq<Entry>, supportsMinId: bool, id: nat): (n: nat)
    ensures n <= |entries| && Trimmed(entries, supportsMinId, id) == entries[n..]
  {
    if supportsMinId then Cut(entries, id)
    else if |entries| <= TRIM_MAXLEN_COUNT then 0
    else |entries| - TRIM_MAXLEN_COUNT
  }

  lemma SuffixUpTo(entries: seq<Entry>, n: nat, id: nat)
    requires UpTo(entries, id) && n <= |entries|
    ensures UpTo(entries[n..], id)
  {
  }

  lemma SuffixIncreasing(entries: seq<Entry>, n: nat)
    requires Increasing(entries) && n <= |entries|
    ensures Increasing(entries[n..])
  {
  }

  lemma BehindFacts(entries: seq<Entry>, id: nat)
    requires Increasing(entries)
    ensures Increasing(Behind(entries, id)) && Beyond(Behind(entries, id), id)
    ensures Behind(entries, id) != [] ==> Behind(entries, id)[|Behind(entries, id)| - 1] == entries[|entries| - 1]
  {
  }

  lemma IncreasingConcat(a: seq<Entry>, b: seq<Entry>, id: nat)
    requires Increasing(a) && Increasing(b) && UpTo(a, id) && Beyond(b, id)
    ensures Increasing(a + b)
    ensures b != [] ==> UpTo(a + b, b[|b| - 1].id)
  {
  }

  lemma ReplyForward(s: State)
    requires Forward(s) && Enabled(s, EReply)
    ensures Forward(Step(s, EReply))
  {
    var cmds := Behind(s.entries, s.point);
    BehindFacts(s.entries, s.point);
    hide Behind;
    IncreasingConcat(s.dispatched, cmds, s.point);
    assert Step(s, EReply).dispatched == s.dispatched + cmds;
    hide Increasing;
  }

  lemma TrimForward(s: State)
    requires Forward(s)
    ensures Forward(Step(s, ETrim))
  {
    hide Cut;
    if s.cursor.At? {
      var n := TrimCut(s.entries, s.supportsMinId, s.cursor.id);
      SuffixIncreasing(s.entries, n);
      SuffixUpTo(s.entries, n, s.lastId);
      hide Increasing, UpTo, Trimmed;
    }
  }

  lemma StepForward(s: State, e: Event)
    requires Forward(s) && Enabled(s, e)
    ensures Forward(Step(s, e))
  {
    match e
    case EAdd(entry) =>
      IncreasingConcat(s.entries, [entry], s.lastId);
      hide Increasing;
    case ERead =>
    case EReply => ReplyForward(s);
    case ENull =>
    case ETrim => TrimForward(s);
  }

  // --- Nothing is lost but what a read from '$' skips ---

  // A trim takes no entry that is still to be read.
  predicate Harmless(s: State) {
    s.cursor.Head? || s.supportsMinId || |Behind(s.entries, s.cursor.id)| <= TRIM_MAXLEN_COUNT
  }

  // Cutting off n entries keeps the ones behind an id exactly when none of those is cut off.
  lemma BehindCut(entries: seq<Entry>, id: nat, n: nat)
    requires Increasing(entries) && n <= |entries|
    ensures Behind(entries[n..], id) == Behind(entries, id) <==> n <= Cut(entries, id + 1)
  {
    hide Cut;
    var m := Cut(entries, id + 1);
    var k := Cut(entries[n..], id + 1);
    if n <= m {
      assert k == m - n;
      assert entries[n..][k..] == entries[m..];
    } else {
      assert |Behind(entries[n..], id)| <= |entries| - n < |Behind(entries, id)|;
    }
  }

  lemma TrimKeepsUnreadIff(s: State)
    requires Forward(s)
    ensures Behind(Step(s, ETrim).entries, s.point) == Behind(s.entries, s.point) <==> Harmless(s)
  {
    hide Cut, Increasing;
    if s.cursor.At? {
      var n := TrimCut(s.entries, s.supportsMinId, s.point);
      BehindCut(s.entries, s.point, n);
      assert s.supportsMinId ==> n <= Cut(s.entries, s.point + 1);
      assert |Behind(s.entries, s.point)| == |s.entries| - Cut(s.entries, s.point + 1);
      hide Behind, From;
    }
  }

  // Every entry up to the point was either dispatched or skipped, once; the others are still there.
  ghost predicate Complete(s: State) {
    && Increasing(s.added) && UpTo(s.added, s.lastId)
    && Behind(s.entries, s.point) == Behind(s.added, s.point)
    && multiset(s.added) == multiset(s.dispatched) + multiset(s.skipped) + multiset(Behind(s.added, s.point))
  }

  lemma NothingBehindLast(entries: seq<Entry>, id: nat)
    requires UpTo(entries, id)
    ensures Behind(entries, id) == []
  {
  }

  lemma BehindPush(entries: seq<Entry>, entry: Entry, id: nat)
    requires entry.id > id
    ensures Behind(entries + [entry], id) == Behind(entries, id) + [entry]
  {
    hide Cut;
    var m, k := Cut(entries, id + 1), Cut(entries + [entry], id + 1);
    var all := entries + [entry];
    assert all[|entries|] == entry && forall i :: 0 <= i < |entries| ==> all[i] == entries[i];
    assert k == m;
    assert (entries + [entry])[m..] == entries[m..] + [entry];
  }

  lemma AddComplete(s: State, entry: Entry)
    requires Forward(s) && Complete(s) && entry.id > s.lastId
    ensures Complete(Step(s, EAdd(entry)))
  {
    hide Behind;
    IncreasingConcat(s.entries, [entry], s.lastId);
    IncreasingConcat(s.added, [entry], s.lastId);
    hide Increasing;
    BehindPush(s.entries, entry, s.point);
    BehindPush(s.added, entry, s.point);
    PushCount(s.added, entry);
    PushCount(Behind(s.added, s.point), entry);
  }

  lemma PushCount(entries: seq<Entry>, entry: Entry)
    ensures multiset(entries + [entry]) == multiset(entries) + multiset{entry}
  {
  }

  // All that is unread becomes read, and goes to one of the logs.
  lemma AllRead(s: State, s': State, last: nat)
    requires Forward(s) && Complete(s) && UpTo(s.added, last) && UpTo(s.entries, last)
    requires s'.entries == s.entries && s'.added == s.added && s'.lastId == s.lastId && s'.point == last
    requires multiset(s'.dispatched) + multiset(s'.skipped)
          == multiset(s.dispatched) + multiset(s.skipped) + multiset(Behind(s.added, s.point))
    ensures Complete(s')
  {
  }

  lemma LogCount(log: seq<Entry>, more: seq<Entry>)
    ensures multiset(log + more) == multiset(log) + multiset(more)
  {
  }

  // The last unread entry is the last one of the stream.
  lemma LastUnread(s: State)
    requires Forward(s) && Behind(s.entries, s.point) != []
    ensures
      var cmds := Behind(s.entries, s.point);
      UpTo(s.entries, cmds[|cmds| - 1].id)
  {
    BehindFacts(s.entries, s.point);
    hide Behind;
  }

  lemma LastAdded(s: State)
    requires Forward(s) && Complete(s) && Behind(s.entries, s.point) != []
    ensures
      var cmds := Behind(s.entries, s.point);
      UpTo(s.added, cmds[|cmds| - 1].id)
  {
  }

  lemma ReplyComplete(s: State)
    requires Forward(s) && Complete(s) && Enabled(s, EReply)
    ensures Complete(Step(s, EReply))
  {
    var cmds := Behind(s.entries, s.point);
    LastUnread(s);
    LastAdded(s);
    hide Behind, UpTo, Increasing;
    LogCount(s.dispatched, cmds);
    AllRead(s, Step(s, EReply), cmds[|cmds| - 1].id);
  }

  lemma ReadComplete(s: State)
    requires Forward(s) && Complete(s) && Enabled(s, ERead)
    ensures Complete(Step(s, ERead))
  {
    hide Behind, Increasing;
    if s.cursor.Head? {
      var unread := Behind(s.added, s.point);
      LogCount(s.skipped, unread);
      AllRead(s, Step(s, ERead), s.lastId);
    }
  }

  lemma StepComplete(s: State, e: Event)
    requires Forward(s) && Complete(s) && Enabled(s, e) && (e.ETrim? ==> Harmless(s))
    ensures Complete(Step(s, e))
  {
    hide Behind, Increasing, Forward;
    match e
    case EAdd(entry) => AddComplete(s, entry);
    case ERead => ReadComplete(s);
    case EReply => ReplyComplete(s);
    case ENull =>
    case ETrim => TrimKeepsUnreadIff(s);
  }

  // --- Runs ---

  ghost predicate Possible(s: State, es: seq<Event>)
    decreases |es|
  {
    es == [] || (Enabled(s, es[0]) && Possible(Step(s, es[0]), es[1..]))
  }

  ghost function After(s: State, es: seq<Event>): State
    requires Possible(s, es)
    decreases |es|
  {
    if es == [] then s else After(Step(s, es[0]), es[1..])
  }

  // A reader that starts on a stream with these entries.
  function Created(supportsMinId: bool, entries: seq<Entry>, lastId: nat): State {
    State(supportsMinId, entries, lastId, Head, None, entries, [], [], 0)
  }

  lemma {:induction false} RunForward(s: State, es: seq<Event>)
    requires Forward(s) && Possible(s, es)
    ensures Forward(After(s, es))
    decreases |es|
  {
    hide Forward, Step, Enabled;
    if es != [] {
      StepForward(s, es[0]);
      RunForward(Step(s, es[0]), es[1..]);
    }
  }

  // The ids of the dispatched entries increase strictly: nothing is dispatched twice, whatever the
  // resets and trims.
  lemma DispatchedIncreasing(supportsMinId: bool, entries: seq<Entry>, lastId: nat, es: seq<Event>)
    requires Increasing(entries) && UpTo(entries, lastId)
    requires Possible(Created(supportsMinId, entries, lastId), es)
    ensures Increasing(After(Created(supportsMinId, entries, lastId), es).dispatched)
  {
    RunForward(Created(supportsMinId, entries, lastId), es);
  }

  ghost predicate AllHarmless(s: State, es: seq<Event>)
    requires Possible(s, es)
    decreases |es|
  {
    es == [] || ((es[0].ETrim? ==> Harmless(s)) && AllHarmless(Step(s, es[0]), es[1..]))
  }

  lemma {:induction false} RunComplete(s: State, es: seq<Event>)
    requires Forward(s) && Complete(s) && Possible(s, es) && AllHarmless(s, es)
    ensures Complete(After(s, es))
    decreases |es|
  {
    hide Forward, Complete, Step, Enabled, Harmless;
    if es != [] {
      StepForward(s, es[0]);
      StepComplete(s, es[0]);
      RunComplete(Step(s, es[0]), es[1..]);
    }
  }

  // How many entries are neither dispatched, nor skipped by a read from '$', nor still to be read.
  function Lost(s: State): int {
    |s.added| - |s.dispatched| - |s.skipped| - |Behind(s.entries, s.point)|
  }

  // Only a trim that is not harmless loses entries, and nothing brings them back.
  lemma StepLosesIff(s: State, e: Event)
    requires Forward(s) && Enabled(s, e)
    ensures Lost(Step(s, e)) >= Lost(s)
    ensures Lost(Step(s, e)) == Lost(s) <==> (e.ETrim? ==> Harmless(s))
  {
    match e
    case EAdd(entry) =>
      hide Behind, Increasing;
      BehindPush(s.entries, entry, s.point);
    case ERead =>
      NothingUnread(s);
      hide Behind;
    case EReply =>
      LastUnread(s);
      ReplyLosesNothing(s);
    case ENull =>
    case ETrim => TrimLosesIff(s);
  }

  lemma ReplyLosesNothing(s: State)
    requires Forward(s) && Enabled(s, EReply)
    ensures Lost(Step(s, EReply)) == Lost(s)
  {
    var cmds := Behind(s.entries, s.point);
    LastUnread(s);
    NothingBehindLast(s.entries, cmds[|cmds| - 1].id);
    hide Behind, Forward;
    assert s.reading.value == s.point by { ReadsFromPoint(s); }
  }

  lemma TrimLosesIff(s: State)
    requires Forward(s)
    ensures Lost(Step(s, ETrim)) >= Lost(s)
    ensures Lost(Step(s, ETrim)) == Lost(s) <==> Harmless(s)
  {
    hide Cut, Increasing;
    TrimKeepsUnreadIff(s);
    if s.cursor.At? {
      var n := TrimCut(s.entries, s.supportsMinId, s.point);
      BehindSuffix(s.entries, n, s.point);
      hide Behind, From;
    }
  }

  // A suffix of the stream has fewer entries behind an id, or the same ones.
  lemma BehindSuffix(entries: seq<Entry>, n: nat, id: nat)
    requires Increasing(entries) && n <= |entries|
    ensures |Behind(entries[n..], id)| <= |Behind(entries, id)|
    ensures |Behind(entries[n..], id)| == |Behind(entries, id)| ==> Behind(entries[n..], id) == Behind(entries, id)
  {
    BehindCut(entries, id, n);
    hide Cut;
    var m := Cut(entries, id + 1);
    if n > m { assert |Behind(entries[n..], id)| <= |entries| - n; }
  }

  lemma {:induction false} RunLosesIff(s: State, es: seq<Event>)
    requires Forward(s) && Possible(s, es)
    ensures Lost(After(s, es)) >= Lost(s)
    ensures Lost(After(s, es)) == Lost(s) <==> AllHarmless(s, es)
    decreases |es|
  {
    hide Forward, Step, Enabled, Harmless, Lost;
    if es != [] {
      StepForward(s, es[0]);
      StepLosesIff(s, es[0]);
      RunLosesIff(Step(s, es[0]), es[1..]);
    }
  }

  ghost predicate Conserved(s: State) {
    multiset(s.added) == multiset(s.dispatched) + multiset(s.skipped) + multiset(Behind(s.entries, s.point))
  }

  lemma ConservedLosesNothing(s: State)
    requires Conserved(s)
    ensures Lost(s) == 0
  {
    hide Behind;
    var m := multiset(s.dispatched) + multiset(s.skipped) + multiset(Behind(s.entries, s.point));
    assert |multiset(s.added)| == |m|;
  }

  // Each entry ever added is dispatched, skipped by a read from '$', or still to be read, if and only
  // if every trim was harmless.
  lemma EntriesConservedIff(supportsMinId: bool, entries: seq<Entry>, lastId: nat, es: seq<Event>)
    requires Increasing(entries) && UpTo(entries, lastId) && Beyond(entries, 0)
    requires Possible(Created(supportsMinId, entries, lastId), es)
    ensures Conserved(After(Created(supportsMinId, entries, lastId), es))
       <==> AllHarmless(Created(supportsMinId, entries, lastId), es)
  {
    var s := Created(supportsMinId, entries, lastId);
    hide After, AllHarmless, Possible;
    CreatedComplete(supportsMinId, entries, lastId);
    hide Created, Behind, Forward;
    assert Conserved(s);
    ConservedLosesNothing(s);
    RunLosesIff(s, es);
    if AllHarmless(s, es) {
      RunComplete(s, es);
    } else if Conserved(After(s, es)) {
      ConservedLosesNothing(After(s, es));
    }
  }

  // So it is for every run on a server with MINID.
  lemma EntriesConserved(entries: seq<Entry>, lastId: nat, es: seq<Event>)
    requires Increasing(entries) && UpTo(entries, lastId) && Beyond(entries, 0)
    requires Possible(Created(true, entries, lastId), es)
    ensures Conserved(After(Created(true, entries, lastId), es))
  {
    MinIdHarmless(Created(true, entries, lastId), es);
    EntriesConservedIff(true, entries, lastId, es);
  }

  lemma CreatedComplete(supportsMinId: bool, entries: seq<Entry>, lastId: nat)
    requires Increasing(entries) && UpTo(entries, lastId) && Beyond(entries, 0)
    ensures Forward(Created(supportsMinId, entries, lastId)) && Complete(Created(supportsMinId, entries, lastId))
  {
  }

  // --- The reset ---

  // The reader waits: commands are added, and the trim interval passes.
  predicate Waiting(es: seq<Event>) {
    forall i :: 0 <= i < |es| ==> es[i].EAdd? || es[i].ETrim?
  }

  function Additions(es: seq<Event>): seq<Entry> {
    if es == [] then [] else (if es[0].EAdd? then [es[0].entry] else []) + Additions(es[1..])
  }

  // The reader at the head of the stream with these entries unread, and this many skipped.
  ghost predicate AtHead(s: State, skipped: seq<Entry>, unread: seq<Entry>) {
    && Forward(s) && s.cursor.Head? && s.reading.None?
    && s.skipped == skipped && Behind(s.entries, s.point) == unread
  }

  lemma WaitingStep(s: State, e: Event, skipped: seq<Entry>, unread: seq<Entry>)
    requires AtHead(s, skipped, unread) && Enabled(s, e) && (e.EAdd? || e.ETrim?)
    ensures AtHead(Step(s, e), skipped, unread + if e.EAdd? then [e.entry] else [])
  {
    hide Behind, Forward;
    StepForward(s, e);
    ReadsFromPoint(s);
    if e.EAdd? { BehindPush(s.entries, e.entry, s.point); }
  }

  lemma {:induction false} WaitingAdds(s: State, es: seq<Event>, skipped: seq<Entry>, unread: seq<Entry>)
    requires AtHead(s, skipped, unread) && Waiting(es) && Possible(s, es)
    ensures AtHead(After(s, es), skipped, unread + Additions(es))
    decreases |es|
  {
    hide AtHead, Step, Enabled;
    if es == [] {
      assert unread + Additions(es) == unread;
    } else {
      var more := if es[0].EAdd? then [es[0].entry] else [];
      WaitingStep(s, es[0], skipped, unread);
      WaitingAdds(Step(s, es[0]), es[1..], skipped, unread + more);
      assert unread + more + Additions(es[1..]) == unread + Additions(es);
    }
  }

  // After a read that brought nothing, the next read skips exactly what had not been read and what
  // was added until then, and goes on from the end.
  lemma SkippedAfterReset(s: State, es: seq<Event>)
    requires Forward(s) && s.reading.Some? && Waiting(es) && Possible(Step(s, ENull), es)
    ensures
      var s2 := After(Step(s, ENull), es);
      && s2.reading.None?
      && var s3 := Step(s2, ERead);
      && s3.skipped == s.skipped + (Behind(s.entries, s.point) + Additions(es))
      && s3.reading == Some(s2.lastId) && Behind(s3.entries, s3.point) == []
  {
    hide Behind, Forward, After, Possible;
    StepForward(s, ENull);
    WaitingAdds(Step(s, ENull), es, s.skipped, Behind(s.entries, s.point));
    NothingUnread(After(Step(s, ENull), es));
  }

  // After a read that was answered, the next read skips nothing.
  lemma {:induction false} NothingSkippedAfterAnswer(s: State, es: seq<Event>)
    requires s.cursor.At? && s.reading.None? && Waiting(es) && Possible(s, es)
    ensures
      var s2 := After(s, es);
      s2.reading.None? && s2.cursor == s.cursor
      && Step(s2, ERead).skipped == s.skipped && Step(s2, ERead).reading == Some(s.cursor.id)
    decreases |es|
  {
    if es != [] { NothingSkippedAfterAnswer(Step(s, es[0]), es[1..]); }
  }

  // --- Trimming is invisible ---

  function WithoutTrims(es: seq<Event>): seq<Event> {
    if es == [] then [] else (if es[0].ETrim? then [] else [es[0]]) + WithoutTrims(es[1..])
  }

  // The same but for entries that were read already.
  ghost predicate Alike(s: State, t: State) {
    && Forward(s) && Forward(t)
    && t == s.(entries := t.entries)
    && Behind(s.entries, s.point) == Behind(t.entries, s.point)
  }

  lemma StepAlike(s: State, t: State, e: Event)
    requires Alike(s, t) && Enabled(s, e) && !e.ETrim?
    ensures Enabled(t, e) && Alike(Step(s, e), Step(t, e))
  {
    hide Forward, Behind;
    ReadsFromPoint(s);
    assert Enabled(t, e);
    StepForward(s, e);
    StepForward(t, e);
    match e
    case EAdd(entry) =>
      BehindPush(s.entries, entry, s.point);
      BehindPush(t.entries, entry, s.point);
    case ERead =>
      NothingUnread(s);
      NothingUnread(t);
    case EReply =>
      var cmds := Behind(s.entries, s.point);
      LastUnread(s);
      LastUnread(t);
      NothingBehindLast(s.entries, cmds[|cmds| - 1].id);
      NothingBehindLast(t.entries, cmds[|cmds| - 1].id);
    case ENull =>
  }

  lemma ReadsFromPoint(s: State)
    requires Forward(s)
    ensures s.reading.Some? ==> s.reading.value == s.point
    ensures s.cursor.At? ==> s.cursor.id == s.point
    ensures s.point <= s.lastId
  {
  }

  lemma NothingUnread(s: State)
    requires Forward(s)
    ensures Behind(s.entries, s.lastId) == []
  {
  }

  lemma TrimAlike(s: State, t: State)
    requires Alike(s, t) && Harmless(s)
    ensures Alike(Step(s, ETrim), t)
  {
    StepForward(s, ETrim);
    TrimKeepsUnreadIff(s);
    hide Forward, Behind, Harmless, Trimmed;
  }

  lemma {:induction false} RunAlike(s: State, t: State, es: seq<Event>)
    requires Alike(s, t) && Possible(s, es) && AllHarmless(s, es)
    ensures Possible(t, WithoutTrims(es)) && Alike(After(s, es), After(t, WithoutTrims(es)))
    decreases |es|
  {
    hide Alike, Step, Enabled, Harmless;
    if es != [] {
      var rest := WithoutTrims(es[1..]);
      if es[0].ETrim? {
        TrimAlike(s, t);
        RunAlike(Step(s, es[0]), t, es[1..]);
        assert WithoutTrims(es) == rest;
      } else {
        StepAlike(s, t, es[0]);
        RunAlike(Step(s, es[0]), Step(t, es[0]), es[1..]);
        assert ([es[0]] + rest)[1..] == rest;
      }
    }
  }

  // The same entries are dispatched with trims as without them: always with MINID, else when every
  // trim is harmless.
  lemma TrimmingInvisible(supportsMinId: bool, entries: seq<Entry>, lastId: nat, es: seq<Event>)
    requires Increasing(entries) && UpTo(entries, lastId)
    requires Possible(Created(supportsMinId, entries, lastId), es)
    requires supportsMinId || AllHarmless(Created(supportsMinId, entries, lastId), es)
    ensures Possible(Created(supportsMinId, entries, lastId), WithoutTrims(es))
    ensures After(Created(supportsMinId, entries, lastId), WithoutTrims(es)).dispatched
         == After(Created(supportsMinId, entries, lastId), es).dispatched
  {
    var s := Created(supportsMinId, entries, lastId);
    if supportsMinId { MinIdHarmless(s, es); }
    RunAlike(s, s, es);
  }

  // With MINID every trim is harmless.
  lemma {:induction false} MinIdHarmless(s: State, es: seq<Event>)
    requires s.supportsMinId && Possible(s, es)
    ensures AllHarmless(s, es)
    decreases |es|
  {
    if es != [] { MinIdHarmless(Step(s, es[0]), es[1..]); }
  }

  // --- What a trim removes ---

  // By id a trim removes exactly the entries before the cursor, by length all but the last 100000;
  // at the head of the stream nothing.
  lemma TrimRemoves(s: State)
    requires Forward(s)
    ensures
      var entries := Step(s, ETrim).entries;
      && (s.cursor.Head? ==> entries == s.entries)
      && (s.cursor.At? && s.supportsMinId ==>
            forall e :: e in entries <==> e in s.entries && e.id >= s.cursor.id)
      && (s.cursor.At? && !s.supportsMinId ==>
            && |entries| == (if |s.entries| <= 100_000 then |s.entries| else 100_000)
            && entries == s.entries[|s.entries| - |entries|..])
  {
    if s.cursor.At? && s.supportsMinId {
      var n := Cut(s.entries, s.cursor.id);
      var entries := Step(s, ETrim).entries;
      forall i | n <= i < |s.entries|
        ensures s.entries[i].id >= s.cursor.id && s.entries[i] in entries
      {
        assert entries[i - n] == s.entries[i];
      }
      forall e | e in entries
        ensures e in s.entries && e.id >= s.cursor.id
      {
        var k :| 0 <= k < |entries| && entries[k] == e;
        assert s.entries[n + k] == e;
      }
    }
  }
}
