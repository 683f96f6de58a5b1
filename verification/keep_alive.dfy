// The PING safety net of src/pool-service/IrcConnectionPool.ts: if the bridge does not answer a PING
// in time, the connection pool does.

module KeepAlive {
  import opened Strings

  const TIME_TO_WAIT_BEFORE_PONG := 10000

  type Client = string
  type Connection = nat

  // A timer set for a PING, with the connection and text that its callback uses.
  datatype Timer = Timer(client: Client, connection: Connection, due: int, pong: string)

  datatype Write = Write(connection: Connection, at: int, data: string)
  datatype Ping = Ping(client: Client, connection: Connection, at: int)

  // `timers` holds the timers that have neither fired nor been cleared, by timer id.
  datatype State = State(
    now: int,
    connections: map<Client, Connection>,
    timeouts: map<Client, nat>,
    timers: map<nat, Timer>,
    nextTimer: nat,
    pings: seq<Ping>,
    written: seq<Write>)

  // A received buffer: its text, and what the parser makes of its first message.
  datatype Data = Data(text: string, command: string, args: seq<string>)

  predicate Includes(s: string, p: string) {
    exists i :: 0 <= i <= |s| && StartsWith(s[i..], p)
  }

  predicate IsPing(data: Data) {
    Includes(data.text, "PING") && data.command == "PING"
  }

  function PongText(args: seq<string>): string {
    "PONG " + (if args == [] then "undefined" else args[0]) + "\r\n"
  }

  // The data callback of a connection.
  function OnData(s: State, client: Client, connection: Connection, data: Data): State {
    if !IsPing(data) then s
    else
      s.(timers := s.timers[s.nextTimer := Timer(client, connection, s.now + TIME_TO_WAIT_BEFORE_PONG, PongText(data.args))],
         timeouts := s.timeouts[client := s.nextTimer],
         nextTimer := s.nextTimer + 1,
         pings := s.pings + [Ping(client, connection, s.now)])
  }

  // handleWriteCommand
  function OnWrite(s: State, client: Client, text: string): State {
    var s1 := if StartsWith(text, "PONG") && client in s.timeouts then s.(timers := s.timers - {s.timeouts[client]}) else s;
    if client in s.connections then s1.(written := s.written + [Write(s.connections[client], s.now, text)]) else s1
  }

  function OnTimer(s: State, id: nat): State
    requires id in s.timers
  {
    var timer := s.timers[id];
    s.(timers := s.timers - {id}, written := s.written + [Write(timer.connection, s.now, timer.pong)])
  }

  datatype Event =
    | EConnect(client: Client, connection: Connection)
    | EClose(client: Client, connection: Connection)
    | EData(client: Client, connection: Connection, data: Data)
    | EWrite(client: Client, text: string)
    | ETimer(id: nat)
    | EAdvance(now: int)

  // Timers fire when they are due: time does not pass one.
  predicate Enabled(s: State, e: Event) {
    match e
    case ETimer(id) => id in s.timers && s.timers[id].due == s.now
    case EAdvance(now) => now >= s.now && forall id :: id in s.timers ==> s.timers[id].due >= now
    case _ => true
  }

  function Step(s: State, e: Event): State
    requires Enabled(s, e)
  {
    match e
    case EConnect(client, connection) => s.(connections := s.connections[client := connection])
    // whichever connection of the client it is that closes
    case EClose(client, _) => s.(connections := s.connections - {client})
    case EData(client, connection, data) => OnData(s, client, connection, data)
    case EWrite(client, text) => OnWrite(s, client, text)
    case ETimer(id) => OnTimer(s, id)
    case EAdvance(now) => s.(now := now)
  }

  class IrcConnectionPool {
    var connections: map<Client, Connection>
    var connectionPongTimeouts: map<Client, nat>
    var timers: map<nat, Timer>
    var nextTimer: nat
    ghost var now: int
    ghost var pings: seq<Ping>
    ghost var written: seq<Write>

    ghost function Value(): State
      reads this
    {
      State(now, connections, connectionPongTimeouts, timers, nextTimer, pings, written)
    }

    constructor (now: int)
      ensures Value() == State(now, map[], map[], map[], 0, [], [])
    {
      this.now := now;
      connections, connectionPongTimeouts, timers, nextTimer, pings, written := map[], map[], map[], 0, [], [];
    }

    method Connected(client: Client, connection: Connection)
      modifies this`connections
      ensures Value() == Step(old(Value()), EConnect(client, connection))
    {
      connections := connections[client := connection];
    }

    method Closed(client: Client, connection: Connection)
      modifies this`connections
      ensures Value() == Step(old(Value()), EClose(client, connection))
    {
      connections := connections - {client};
    }

    method SetTimeout(now: int, client: Client, connection: Connection, pong: string) returns (id: nat)
      modifies this`timers, this`nextTimer
      ensures id == old(nextTimer) && nextTimer == id + 1
      ensures timers == old(timers)[id := Timer(client, connection, now + TIME_TO_WAIT_BEFORE_PONG, pong)]
    {
      id := nextTimer;
      timers := timers[id := Timer(client, connection, now + TIME_TO_WAIT_BEFORE_PONG, pong)];
      nextTimer := nextTimer + 1;
    }

    method HandleData(now: int, client: Client, connection: Connection, data: Data)
      requires now == this.now
      modifies this`timers, this`nextTimer, this`connectionPongTimeouts, this`pings
      ensures Value() == OnData(old(Value()), client, connection, data)
    {
      if Includes(data.text, "PING") {
        if data.command == "PING" {
          var id := SetTimeout(now, client, connection, PongText(data.args));
          connectionPongTimeouts := connectionPongTimeouts[client := id];
          pings := pings + [Ping(client, connection, now)];
        }
      }
      // handing the data on to the bridge is not modelled
    }

    method HandleWriteCommand(now: int, client: Client, text: string)
      requires now == this.now
      modifies this`timers, this`written
      ensures Value() == OnWrite(old(Value()), client, text)
    {
      if StartsWith(text, "PONG") && client in connectionPongTimeouts {
        timers := timers - {connectionPongTimeouts[client]};
      }
      if client !in connections {
        return;
      }
      written := written + [Write(connections[client], now, text)];
    }

    method FireTimer(now: int, id: nat)
      requires now == this.now && id in timers
      modifies this`timers, this`written
      ensures Value() == OnTimer(old(Value()), id)
    {
      written := written + [Write(timers[id].connection, now, timers[id].pong)];
      timers := timers - {id};
    }
  }

  // --- Every PING is answered ---

  // A PONG went out on the connection within ten seconds of the PING.
  ghost predicate Answered(written: seq<Write>, ping: Ping) {
    exists i :: 0 <= i < |written| && IsAnswer(written[i], ping)
  }

  predicate IsAnswer(w: Write, ping: Ping) {
    && w.connection == ping.connection && StartsWith(w.data, "PONG")
    && ping.at <= w.at <= ping.at + 10_000
  }

  // A timer that still stands for a PING.
  predicate StandsFor(timer: Timer, ping: Ping) {
    && timer.client == ping.client && timer.connection == ping.connection
    && timer.due == ping.at + TIME_TO_WAIT_BEFORE_PONG && StartsWith(timer.pong, "PONG")
  }

  ghost predicate Guarded(s: State, ping: Ping) {
    exists id :: id in s.timers && StandsFor(s.timers[id], ping)
  }

  // The PING is answered, or will be when its timer fires.
  ghost predicate Covered(s: State, ping: Ping) {
    Answered(s.written, ping) || Guarded(s, ping)
  }

  // Timers are told apart, none is overdue, and the entry of a client is a timer of this client.
  ghost predicate TimersOk(s: State) {
    && (forall id :: id in s.timers ==> id < s.nextTimer && s.timers[id].due >= s.now)
    && (forall c :: c in s.timeouts ==> s.timeouts[c] < s.nextTimer)
    && (forall c :: c in s.timeouts && s.timeouts[c] in s.timers ==> s.timers[s.timeouts[c]].client == c)
  }

  lemma StepTimersOk(s: State, e: Event)
    requires TimersOk(s) && Enabled(s, e)
    ensures TimersOk(Step(s, e))
  {
  }

  lemma AnsweredStill(written: seq<Write>, w: Write, ping: Ping)
    requires Answered(written, ping)
    ensures Answered(written + [w], ping)
  {
    var i :| 0 <= i < |written| && IsAnswer(written[i], ping);
    assert (written + [w])[i] == written[i];
  }

  lemma AnsweredNow(written: seq<Write>, w: Write, ping: Ping)
    ensures Answered(written + [w], ping) <==> Answered(written, ping) || IsAnswer(w, ping)
  {
    var all := written + [w];
    assert all[|written|] == w && forall i :: 0 <= i < |written| ==> all[i] == written[i];
    if Answered(written, ping) { AnsweredStill(written, w, ping); }
  }

  lemma PongIsPong(args: seq<string>)
    ensures StartsWith(PongText(args), "PONG")
  {
  }

  // A timer that fires leaves an answer behind.
  lemma FireKeeps(s: State, id: nat, ping: Ping)
    requires id in s.timers && s.timers[id].due == s.now && Covered(s, ping)
    ensures Covered(OnTimer(s, id), ping)
  {
    var w := Write(s.timers[id].connection, s.now, s.timers[id].pong);
    var s' := OnTimer(s, id);
    AnsweredNow(s.written, w, ping);
    if !Answered(s.written, ping) {
      var k :| k in s.timers && StandsFor(s.timers[k], ping);
      if k != id { assert k in s'.timers && StandsFor(s'.timers[k], ping); }
    }
  }

  // The PONG clears the one timer that stands for the PING.
  ghost predicate ClearsLast(s: State, client: Client, text: string, ping: Ping) {
    && StartsWith(text, "PONG") && client in s.timeouts
    && forall id :: id in s.timers && StandsFor(s.timers[id], ping) ==> id == s.timeouts[client]
  }

  // What the bridge writes goes out on the connection of the PING.
  predicate Reaches(s: State, client: Client, ping: Ping) {
    client in s.connections && s.connections[client] == ping.connection
  }

  // A text that the bridge writes keeps a PING covered that has no answer yet, if and only if it
  // clears not the last timer of that PING, or goes out on the connection of the PING.
  lemma WriteKeepsIff(s: State, client: Client, text: string, ping: Ping)
    requires TimersOk(s) && ping.at <= s.now && Guarded(s, ping) && !Answered(s.written, ping)
    ensures Covered(OnWrite(s, client, text), ping) <==> !ClearsLast(s, client, text, ping) || Reaches(s, client, ping)
  {
    var s' := OnWrite(s, client, text);
    var k :| k in s.timers && StandsFor(s.timers[k], ping);
    assert s.timers[k].due >= s.now;
    hide StartsWith;
    if client in s.connections {
      AnsweredNow(s.written, Write(s.connections[client], s.now, text), ping);
    }
    if ClearsLast(s, client, text, ping) {
      assert !Guarded(s', ping);
    } else if k in s'.timers {
      assert StandsFor(s'.timers[k], ping);
    } else {
      var other :| other in s.timers && StandsFor(s.timers[other], ping) && other != s.timeouts[client];
      assert other in s'.timers && StandsFor(s'.timers[other], ping);
    }
  }

  lemma WriteKeeps(s: State, client: Client, text: string, ping: Ping)
    requires TimersOk(s) && ping.at <= s.now && Covered(s, ping)
    requires !Answered(s.written, ping) && ClearsLast(s, client, text, ping) ==> Reaches(s, client, ping)
    ensures Covered(OnWrite(s, client, text), ping)
  {
    if Answered(s.written, ping) {
      hide StartsWith;
      if client in s.connections { AnsweredStill(s.written, Write(s.connections[client], s.now, text), ping); }
    } else {
      hide OnWrite, Answered, Guarded, TimersOk;
      WriteKeepsIff(s, client, text, ping);
    }
  }

  lemma DataKeeps(s: State, client: Client, connection: Connection, data: Data, ping: Ping)
    requires TimersOk(s) && IsPing(data)
    requires Covered(s, ping) || ping == Ping(client, connection, s.now)
    ensures Covered(OnData(s, client, connection, data), ping)
  {
    var s' := OnData(s, client, connection, data);
    PongIsPong(data.args);
    hide StartsWith, Includes, PongText, IsPing;
    assert s'.timers[s.nextTimer].due == s.now + TIME_TO_WAIT_BEFORE_PONG;
    if !Answered(s.written, ping) && Guarded(s, ping) {
      var k :| k in s.timers && StandsFor(s.timers[k], ping);
      assert k in s'.timers && s'.timers[k] == s.timers[k];
    }
  }

  // The one way to lose a PING.
  ghost predicate Loses(s: State, e: Event, ping: Ping) {
    && e.EWrite? && !Answered(s.written, ping)
    && ClearsLast(s, e.client, e.text, ping) && !Reaches(s, e.client, ping)
  }

  lemma StepCoversIff(s: State, e: Event, ping: Ping)
    requires TimersOk(s) && Enabled(s, e) && ping.at <= s.now && Covered(s, ping)
    ensures Covered(Step(s, e), ping) <==> !Loses(s, e, ping)
    ensures ping.at <= Step(s, e).now
  {
    match e
    case EData(c, k, data) =>
      if IsPing(data) { DataKeeps(s, c, k, data, ping); }
    case EWrite(c, text) =>
      hide StartsWith, OnWrite, ClearsLast;
      if Loses(s, e, ping) { WriteKeepsIff(s, c, text, ping); } else { WriteKeeps(s, c, text, ping); }
    case ETimer(id) => FireKeeps(s, id, ping);
    case _ => GuardedStill(s, Step(s, e), ping);
  }

  // Whenever the bridge writes a PONG for the client of the PING, it reaches the PING's connection.
  ghost predicate PongReaches(s: State, e: Event, ping: Ping) {
    e.EWrite? && e.client == ping.client && StartsWith(e.text, "PONG") ==> Reaches(s, e.client, ping)
  }

  lemma ReachingLosesNothing(s: State, e: Event, ping: Ping)
    requires TimersOk(s) && Covered(s, ping) && PongReaches(s, e, ping)
    ensures !Loses(s, e, ping)
  {
    if e.EWrite? && !Answered(s.written, ping) { OwnTimer(s, e.client, e.text, ping); }
    hide Answered, StartsWith;
  }

  // A PONG can only clear timers of its own client.
  lemma OwnTimer(s: State, client: Client, text: string, ping: Ping)
    requires TimersOk(s) && Guarded(s, ping)
    ensures ClearsLast(s, client, text, ping) ==> client == ping.client
  {
    hide StartsWith;
    var k :| k in s.timers && StandsFor(s.timers[k], ping);
  }

  lemma GuardedStill(s: State, s': State, ping: Ping)
    requires s'.timers == s.timers
    ensures Guarded(s, ping) <==> Guarded(s', ping)
  {
  }

  // --- Runs ---

  ghost predicate Possible(s: State, es: seq<Event>)
    decreases |es|
  {
    es == [] || (Enabled(s, es[0]) && Possible(Step(s, es[0]), es[1..]))
  }

  ghost function After(s: State, es: seq<Event>): State
    requires Possible(s, es)
    decreases |es|
  {
    if es == [] then s else After(Step(s, es[0]), es[1..])
  }

  ghost predicate PongsReach(s: State, es: seq<Event>, ping: Ping)
    requires Possible(s, es)
    decreases |es|
  {
    es == [] || (PongReaches(s, es[0], ping) && PongsReach(Step(s, es[0]), es[1..], ping))
  }

  ghost predicate NeverLost(s: State, es: seq<Event>, ping: Ping)
    requires Possible(s, es)
    decreases |es|
  {
    es == [] || (!Loses(s, es[0], ping) && NeverLost(Step(s, es[0]), es[1..], ping))
  }

  ghost predicate CoveredThroughout(s: State, es: seq<Event>, ping: Ping)
    requires Possible(s, es)
    decreases |es|
  {
    Covered(s, ping) && (es == [] || CoveredThroughout(Step(s, es[0]), es[1..], ping))
  }

  // Over every run a PING stays covered if and only if no PONG clears its last timer and goes
  // elsewhere.
  lemma {:induction false} RunCoversIff(s: State, es: seq<Event>, ping: Ping)
    requires TimersOk(s) && Possible(s, es) && ping.at <= s.now && Covered(s, ping)
    ensures CoveredThroughout(s, es, ping) <==> NeverLost(s, es, ping)
    ensures TimersOk(After(s, es)) && (NeverLost(s, es, ping) ==> Covered(After(s, es), ping))
    decreases |es|
  {
    hide TimersOk, Step, Enabled, Covered, Loses;
    if es != [] {
      StepTimersOk(s, es[0]);
      StepCoversIff(s, es[0], ping);
      if Covered(Step(s, es[0]), ping) {
        RunCoversIff(Step(s, es[0]), es[1..], ping);
      } else {
        RunTimersOk(Step(s, es[0]), es[1..]);
      }
    }
  }

  lemma {:induction false} RunTimersOk(s: State, es: seq<Event>)
    requires TimersOk(s) && Possible(s, es)
    ensures TimersOk(After(s, es))
    decreases |es|
  {
    hide TimersOk, Step, Enabled;
    if es != [] {
      StepTimersOk(s, es[0]);
      RunTimersOk(Step(s, es[0]), es[1..]);
    }
  }

  lemma {:induction false} ReachingNeverLost(s: State, es: seq<Event>, ping: Ping)
    requires TimersOk(s) && Possible(s, es) && ping.at <= s.now && Covered(s, ping) && PongsReach(s, es, ping)
    ensures NeverLost(s, es, ping)
    decreases |es|
  {
    hide TimersOk, Step, Enabled, Covered, Loses, PongReaches;
    if es != [] {
      StepTimersOk(s, es[0]);
      ReachingLosesNothing(s, es[0], ping);
      StepCoversIff(s, es[0], ping);
      ReachingNeverLost(Step(s, es[0]), es[1..], ping);
    }
  }

  // A PING comes on a connection; then anything may happen, connects and closes of the client
  // included. More than ten seconds later it has been answered within ten seconds, provided that
  // every PONG that the bridge wrote for the client went out on that connection.
  lemma EveryPingAnswered(s: State, client: Client, connection: Connection, data: Data, es: seq<Event>)
    requires TimersOk(s) && IsPing(data)
    requires
      var s1 := OnData(s, client, connection, data);
      var ping := Ping(client, connection, s.now);
      Possible(s1, es) && PongsReach(s1, es, ping) && After(s1, es).now > ping.at + 10_000
    ensures
      var s1 := OnData(s, client, connection, data);
      Answered(After(s1, es).written, Ping(client, connection, s.now))
  {
    var s1, ping := OnData(s, client, connection, data), Ping(client, connection, s.now);
    StepTimersOk(s, EData(client, connection, data));
    DataKeeps(s, client, connection, data, ping);
    assert s1.now == s.now;
    hide TimersOk, Covered, OnData, PongsReach, After, Possible, IsPing, Answered, Guarded;
    ReachingNeverLost(s1, es, ping);
    RunCoversIff(s1, es, ping);
    NotOverdue(After(s1, es), ping);
  }

  lemma NotOverdue(s: State, ping: Ping)
    requires TimersOk(s) && Covered(s, ping) && s.now > ping.at + TIME_TO_WAIT_BEFORE_PONG
    ensures Answered(s.written, ping)
  {
  }

  // Nothing that happens opens or closes a connection of the client.
  predicate StaysOnly(e: Event, client: Client) {
    match e
    case EConnect(c, _) => c != client
    case EClose(c, _) => c != client
    case _ => true
  }

  lemma {:induction false} OnlyReaches(s: State, es: seq<Event>, ping: Ping)
    requires Possible(s, es) && Reaches(s, ping.client, ping)
    requires forall i :: 0 <= i < |es| ==> StaysOnly(es[i], ping.client)
    ensures PongsReach(s, es, ping)
    decreases |es|
  {
    hide StartsWith, Includes, PongText;
    if es != [] { OnlyReaches(Step(s, es[0]), es[1..], ping); }
  }

  // So it is for a connection that is known as its client's when the PING comes, as long as no
  // connection of the client is opened or closed.
  lemma OnlyConnectionAnswered(s: State, client: Client, connection: Connection, data: Data, es: seq<Event>)
    requires TimersOk(s) && IsPing(data) && client in s.connections && s.connections[client] == connection
    requires
      var s1 := OnData(s, client, connection, data);
      Possible(s1, es) && After(s1, es).now > s.now + TIME_TO_WAIT_BEFORE_PONG
    requires forall i :: 0 <= i < |es| ==> StaysOnly(es[i], client)
    ensures
      var s1 := OnData(s, client, connection, data);
      Answered(After(s1, es).written, Ping(client, connection, s.now))
  {
    var s1, ping := OnData(s, client, connection, data), Ping(client, connection, s.now);
    assert s1.connections == s.connections;
    hide OnData, After, Possible, IsPing, Answered, TimersOk;
    OnlyReaches(s1, es, ping);
    EveryPingAnswered(s, client, connection, data, es);
  }

  // It must be known: when the client has connected anew, a PONG of the bridge clears the timer of
  // the old connection and goes out on the new one.
  lemma SecondConnectionTakesPong(s: State, client: Client, first: Connection, next: Connection, data: Data, text: string)
    requires IsPing(data) && StartsWith(text, "PONG") && first != next && s.written == []
    ensures
      var s1 := OnData(s, client, first, data);
      var s2 := s1.(connections := s1.connections[client := next]);
      var s3 := OnWrite(s2, client, text);
      var ping := Ping(client, first, s.now);
      ping in s3.pings && s3.timers == s.timers - {s.nextTimer} && !Answered(s3.written, ping)
  {
  }

  // And when the replaced connection closes, the client's new connection is forgotten, although it
  // is open: a PING on it loses its timer to the bridge's PONG, which goes nowhere.
  lemma ReplacedCloseForgets(s: State, client: Client, first: Connection, next: Connection, data: Data, text: string)
    requires IsPing(data) && StartsWith(text, "PONG") && first != next && s.timers == map[] && s.written == []
    ensures
      var s1 := Step(Step(s, EConnect(client, first)), EConnect(client, next));
      var s2 := Step(s1, EClose(client, first));
      var s3 := OnWrite(OnData(s2, client, next, data), client, text);
      var ping := Ping(client, next, s.now);
      && ping in s3.pings && s3.timers == map[] && s3.written == []
      && Enabled(s3, EAdvance(s.now + TIME_TO_WAIT_BEFORE_PONG + 1))
      && !Answered(Step(s3, EAdvance(s.now + TIME_TO_WAIT_BEFORE_PONG + 1)).written, ping)
  {
    hide StartsWith, Includes, PongText, IsPing;
    assert map[s.nextTimer := Timer(client, next, s.now + TIME_TO_WAIT_BEFORE_PONG, PongText(data.args))] - {s.nextTimer} == map[];
    assert (s.pings + [Ping(client, next, s.now)])[|s.pings|] == Ping(client, next, s.now);
  }

  // The pool's own answer is a whole line with the first argument of the PING: whatever happens in
  // between, when the timer fires that was set for the PING, this line goes to the PING's connection.
  lemma OwnAnswerIsLine(s: State, client: Client, connection: Connection, data: Data, s': State)
    requires IsPing(data) && data.args != []
    requires
      var id := s.nextTimer;
      id in s'.timers && s'.timers[id] == OnData(s, client, connection, data).timers[id]
    ensures
      var written := OnTimer(s', s.nextTimer).written;
      && written[..|written| - 1] == s'.written
      && var w := written[|written| - 1];
         && w.connection == connection && w.at == s'.now && |w.data| == |data.args[0]| + 7
         && w.data[..5] == "PONG " && w.data[5..|w.data| - 2] == data.args[0] && w.data[|w.data| - 2..] == "\r\n"
  {
    hide IsPing;
    var line := PongText(data.args);
    assert line == "PONG " + (data.args[0] + "\r\n");
  }

  // What the pool writes: a text of the bridge, verbatim, once, to the connection known for the client,
  // or the line of a timer; and nothing on any other event.
  lemma StepWrites(s: State, e: Event)
    requires Enabled(s, e)
    ensures
      var s' := Step(s, e);
      match e
      case EWrite(client, text) =>
        s'.written == s.written + if client in s.connections then [Write(s.connections[client], s.now, text)] else []
      case ETimer(id) => s'.written == s.written + [Write(s.timers[id].connection, s.now, s.timers[id].pong)]
      case _ => s'.written == s.written
  {
    hide StartsWith, Includes, PongText;
  }

  // A PING is noticed wherever in the received text it stands.
  lemma PingNoticed(before: string, after: string, args: seq<string>)
    ensures IsPing(Data(before + ("PING" + after), "PING", args))
  {
    var text := before + ("PING" + after);
    assert text[|before|..] == "PING" + after;
    assert StartsWith(text[|before|..], "PING");
  }
}
