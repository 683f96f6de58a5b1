// src/bridge/QuitDebouncer.ts: holding back quits during a netsplit.

module QuitDebouncer {
  const QUIT_WINDOW_MS := 1000

  // What the debouncer reads from a server's configuration.
  datatype ServerConfig = ServerConfig(domain: string, debounce: bool, quitsPerSecond: nat)

  // The record kept for one server.
  datatype Debouncer = Debouncer(
    quitTimestampsMs: seq<int>,
    splitChannelUsers: map<string, set<string>>,
    existingTimeouts: set<string>)

  const FRESH := Debouncer([], map[], {})

  function Get(m: map<string, set<string>>, channel: string): set<string> {
    if channel in m then m[channel] else {}
  }

  // The nicks whose quit from the channel is held back.
  function Held(d: Debouncer, channel: string): set<string> {
    Get(d.splitChannelUsers, channel)
  }

  // Whether a join is to be processed, the new record, and whether a timer is started.
  function OnJoin(d: Debouncer, nick: string, channel: string): (bool, Debouncer, bool) {
    if nick !in Held(d, channel) then (true, d, false)
    else
      var d' := d.(splitChannelUsers := d.splitChannelUsers[channel := d.splitChannelUsers[channel] - {nick}]);
      if channel in d.existingTimeouts then (false, d', false)
      else (false, d'.(existingTimeouts := d.existingTimeouts + {channel}), true)
  }

  // The timer of a channel: the nicks whose quits are sent now, and the new record.
  function Flush(d: Debouncer, channel: string): (set<string>, Debouncer) {
    (Held(d, channel),
     d.(splitChannelUsers := d.splitChannelUsers - {channel}, existingTimeouts := d.existingTimeouts - {channel}))
  }

  function Later(ts: seq<int>, t: int): seq<int> {
    if ts == [] then [] else (if ts[0] > t then [ts[0]] else []) + Later(ts[1..], t)
  }

  function Recorded(ts: seq<int>, now: int): seq<int> {
    Later(ts + [now], now - QUIT_WINDOW_MS)
  }

  function Hold(m: map<string, set<string>>, nick: string, channels: seq<string>): map<string, set<string>>
    decreases |channels|
  {
    if channels == [] then m
    else Hold(m[channels[0] := Get(m, channels[0]) + {nick}], nick, channels[1..])
  }

  // Whether a leave is to be sent, and the new record.
  function DebounceQuit(d: Debouncer, server: ServerConfig, nick: string, channels: seq<string>, now: int): (bool, Debouncer) {
    if !server.debounce then (true, d)
    else
      var ts := Recorded(d.quitTimestampsMs, now);
      if |ts| <= server.quitsPerSecond then (true, d.(quitTimestampsMs := ts))
      else (false, d.(quitTimestampsMs := ts, splitChannelUsers := Hold(d.splitChannelUsers, nick, channels)))
  }

  class Service {
    var debouncerForServer: map<string, Debouncer>
    var wasSplitOccuring: bool
    // setTimeout calls that have not fired: domain and channel
    var timers: seq<(string, string)>

    constructor (domains: set<string>)
      ensures debouncerForServer == map d | d in domains :: FRESH
      ensures timers == []
    {
      debouncerForServer := map d | d in domains :: FRESH;
      wasSplitOccuring := false;
      timers := [];
    }

    method OnJoinEvent(nick: string, channel: string, domain: string) returns (process: bool)
      modifies this
      ensures domain !in old(debouncerForServer) ==>
                process && debouncerForServer == old(debouncerForServer) && timers == old(timers)
      ensures domain in old(debouncerForServer) ==>
                var (p, d, start) := OnJoin(old(debouncerForServer)[domain], nick, channel);
                && process == p
                && debouncerForServer == old(debouncerForServer)[domain := d]
                && timers == old(timers) + if start then [(domain, channel)] else []
      ensures wasSplitOccuring == old(wasSplitOccuring)
    {
      if domain !in debouncerForServer {
        return true;
      }
      var debouncer := debouncerForServer[domain];
      assert debouncerForServer == debouncerForServer[domain := debouncer];
      if channel !in debouncer.splitChannelUsers {
        // no quit has been held for the channel since its last flush
        return true;
      }
      var nicks := debouncer.splitChannelUsers[channel];
      if nicks == {} {
        return true;
      }
      if nick !in nicks {
        // not a nick whose quit is held
        return true;
      }
      debouncer := debouncer.(splitChannelUsers := debouncer.splitChannelUsers[channel := nicks - {nick}]);
      debouncerForServer := debouncerForServer[domain := debouncer];
      if channel in debouncer.existingTimeouts {
        return false;
      }
      timers := timers + [(domain, channel)];
      debouncer := debouncer.(existingTimeouts := debouncer.existingTimeouts + {channel});
      debouncerForServer := debouncerForServer[domain := debouncer];
      return false;
    }

    // The callback of a timer.
    method Fire(i: nat) returns (nicks: set<string>)
      requires i < |timers| && timers[i].0 in debouncerForServer
      modifies this
      ensures
        var (domain, channel) := old(timers[i]);
        var (sent, d) := Flush(old(debouncerForServer)[domain], channel);
        && nicks == sent
        && debouncerForServer == old(debouncerForServer)[domain := d]
        && timers == old(timers[..i] + timers[i + 1..])
      ensures wasSplitOccuring == old(wasSplitOccuring)
    {
      var (domain, channel) := timers[i];
      timers := timers[..i] + timers[i + 1..];
      var debouncer := debouncerForServer[domain];
      nicks := if channel in debouncer.splitChannelUsers then debouncer.splitChannelUsers[channel] else {};
      debouncer := debouncer.(splitChannelUsers := debouncer.splitChannelUsers - {channel});
      debouncer := debouncer.(existingTimeouts := debouncer.existingTimeouts - {channel});
      debouncerForServer := debouncerForServer[domain := debouncer];
    }

    method DebounceQuitEvent(nick: string, server: ServerConfig, channels: seq<string>, now: int) returns (send: bool)
      requires server.debounce ==> server.domain in debouncerForServer
      modifies this
      ensures timers == old(timers)
      ensures !server.debounce ==> send && debouncerForServer == old(debouncerForServer)
      ensures server.debounce ==>
                var (s, d) := DebounceQuit(old(debouncerForServer)[server.domain], server, nick, channels, now);
                send == s && debouncerForServer == old(debouncerForServer)[server.domain := d]
    {
      if !server.debounce {
        return true;
      }
      var debouncer := debouncerForServer[server.domain];
      debouncer := debouncer.(quitTimestampsMs := debouncer.quitTimestampsMs + [now]);
      var threshold := server.quitsPerSecond;
      // keep the window
      debouncer := debouncer.(quitTimestampsMs := Later(debouncer.quitTimestampsMs, now - QUIT_WINDOW_MS));
      debouncerForServer := debouncerForServer[server.domain := debouncer];
      var isSplitOccuring := |debouncer.quitTimestampsMs| > threshold;
      if !isSplitOccuring {
        wasSplitOccuring := isSplitOccuring;
        return true;
      } else if isSplitOccuring != wasSplitOccuring {
        wasSplitOccuring := true;
      }
      var users := debouncer.splitChannelUsers;
      assert channels[0..] == channels;
      for i := 0 to |channels|
        invariant Hold(users, nick, channels[i..]) == Hold(debouncer.splitChannelUsers, nick, channels)
      {
        assert channels[i..][1..] == channels[i + 1..];
        ghost var before := users;
        if channels[i] !in users {
          users := users[channels[i] := {}];
        }
        users := users[channels[i] := users[channels[i]] + {nick}];
        assert users == before[channels[i] := Get(before, channels[i]) + {nick}];
      }
      debouncer := debouncer.(splitChannelUsers := users);
      debouncerForServer := debouncerForServer[server.domain := debouncer];
      return false;
    }
  }

  // --- Rate of quits ---

  predicate NonDecreasing(ts: seq<int>) {
    forall i, j :: 0 <= i < j < |ts| ==> ts[i] <= ts[j]
  }

  // The timestamps kept after quits at the given times.
  function RecordedRun(ts: seq<int>): seq<int> {
    if ts == [] then [] else Recorded(RecordedRun(ts[..|ts| - 1]), ts[|ts| - 1])
  }

  lemma Regroup(a: seq<int>, b: seq<int>, c: seq<int>)
    ensures a + b + c == a + (b + c)
  {
  }

  lemma {:induction false} LaterConcat(a: seq<int>, b: seq<int>, t: int)
    ensures Later(a + b, t) == Later(a, t) + Later(b, t)
  {
    if a == [] {
      assert a + b == b;
    } else {
      LaterConcat(a[1..], b, t);
      assert (a + b)[1..] == a[1..] + b && (a + b)[0] == a[0];
      Regroup(if a[0] > t then [a[0]] else [], Later(a[1..], t), Later(b, t));
    }
  }

  lemma {:induction false} LaterTwice(ts: seq<int>, t: int, u: int)
    requires t <= u
    ensures Later(Later(ts, t), u) == Later(ts, u)
  {
    if ts != [] {
      LaterTwice(ts[1..], t, u);
      LaterConcat(if ts[0] > t then [ts[0]] else [], Later(ts[1..], t), u);
    }
  }

  // Pruning as it goes keeps what one pass over the whole history would keep.
  lemma {:induction false} PrunedIsWindow(ts: seq<int>)
    requires NonDecreasing(ts)
    ensures RecordedRun(ts) == if ts == [] then [] else Later(ts, ts[|ts| - 1] - QUIT_WINDOW_MS)
  {
    if ts != [] {
      var n := |ts| - 1;
      var front, now := ts[..n], ts[n];
      var t := now - QUIT_WINDOW_MS;
      PrunedIsWindow(front);
      assert ts == front + [now] && RecordedRun(ts) == Later(RecordedRun(front) + [now], t);
      if n > 0 { assert front[n - 1] <= now; }
      hide Later, RecordedRun, NonDecreasing;
      LaterConcat(RecordedRun(front), [now], t);
      LaterConcat(front, [now], t);
      if n > 0 {
        LaterTwice(front, front[n - 1] - QUIT_WINDOW_MS, t);
      }
    }
  }

  // The quits in (s, s + 1000] that are let through, given the times of all quits.
  function LetThrough(ts: seq<int>, threshold: nat, s: int): nat {
    if ts == [] then 0
    else
      var now := ts[|ts| - 1];
      LetThrough(ts[..|ts| - 1], threshold, s)
      + (if s < now <= s + QUIT_WINDOW_MS && |RecordedRun(ts)| <= threshold then 1 else 0)
  }

  lemma {:induction false} LetThroughLater(ts: seq<int>, threshold: nat, s: int, t: int)
    requires t <= s
    ensures LetThrough(ts, threshold, s) <= |Later(ts, t)|
  {
    if ts != [] {
      var n := |ts| - 1;
      LetThroughLater(ts[..n], threshold, s, t);
      LaterConcat(ts[..n], [ts[n]], t);
      assert ts == ts[..n] + [ts[n]];
    }
  }

  // At most `threshold` of them.
  lemma {:induction false} LetThroughBound(ts: seq<int>, threshold: nat, s: int)
    requires NonDecreasing(ts)
    ensures LetThrough(ts, threshold, s) <= threshold
  {
    if ts != [] {
      var n := |ts| - 1;
      LetThroughBound(ts[..n], threshold, s);
      hide RecordedRun, Later, NonDecreasing;
      if s < ts[n] <= s + QUIT_WINDOW_MS && |RecordedRun(ts)| <= threshold {
        PrunedIsWindow(ts);
        LetThroughLater(ts, threshold, s, ts[n] - QUIT_WINDOW_MS);
      }
    }
  }

  // --- Matrix membership refines IRC membership ---

  // One server: who is in each channel on IRC, who is in the bridged room, and the debouncer.
  // `leaves` are the leave messages that flushes have still to send, by channel and nick; `leaving`
  // are the nicks that a flush took and for which no leave has been sent since.
  datatype World = World(
    irc: map<string, set<string>>,
    matrix: map<string, set<string>>,
    d: Debouncer,
    timers: seq<string>,
    leaves: multiset<(string, string)>,
    leaving: map<string, set<string>>)

  datatype Event =
    | Join(nick: string, channel: string)
    | Quit(nick: string, channels: seq<string>, now: int)
    | Part(nick: string, channel: string)
    | Nick(was: string, nick: string, channel: string)
    | Timer(i: nat)
    | LeaveSent(nick: string, channel: string)

  function Add(m: map<string, set<string>>, channel: string, nicks: set<string>): map<string, set<string>> {
    m[channel := Get(m, channel) + nicks]
  }

  function Remove(m: map<string, set<string>>, channel: string, nicks: set<string>): map<string, set<string>> {
    m[channel := Get(m, channel) - nicks]
  }

  function RemoveFrom(m: map<string, set<string>>, channels: seq<string>, nick: string): map<string, set<string>>
    decreases |channels|
  {
    if channels == [] then m else RemoveFrom(Remove(m, channels[0], {nick}), channels[1..], nick)
  }

  function LeavesFor(channel: string, nicks: set<string>): multiset<(string, string)> {
    multiset(set nick | nick in nicks :: (channel, nick))
  }

  // A nick joins a channel it is not in, and leaves channels it is in; only pending timers fire, and
  // only leaves that a flush has to send are sent.
  predicate Enabled(w: World, e: Event) {
    match e
    case Join(nick, channel) => nick !in Get(w.irc, channel)
    case Quit(nick, channels, _) => forall c :: c in channels ==> nick in Get(w.irc, c)
    case Part(nick, channel) => nick in Get(w.irc, channel)
    case Nick(was, nick, channel) => was in Get(w.irc, channel) && nick !in Get(w.irc, channel) && was != nick
    case Timer(i) => i < |w.timers|
    case LeaveSent(nick, channel) => (channel, nick) in w.leaves
  }

  // The join, quit, part and nick hooks of the event broker, the timer, and the leaves that are sent
  // one after the other once the timer has fired.
  function Step(w: World, server: ServerConfig, e: Event): World
    requires Enabled(w, e)
  {
    match e
    case Join(nick, channel) =>
      var (process, d, start) := OnJoin(w.d, nick, channel);
      w.(irc := Add(w.irc, channel, {nick}),
         matrix := if process then Add(w.matrix, channel, {nick}) else w.matrix,
         d := d,
         timers := w.timers + if start then [channel] else [])
    case Quit(nick, channels, now) =>
      var (send, d) := DebounceQuit(w.d, server, nick, channels, now);
      w.(irc := RemoveFrom(w.irc, channels, nick),
         matrix := if send then RemoveFrom(w.matrix, channels, nick) else w.matrix,
         leaving := if send then RemoveFrom(w.leaving, channels, nick) else w.leaving,
         d := d)
    case Part(nick, channel) =>
      w.(irc := Remove(w.irc, channel, {nick}),
         matrix := Remove(w.matrix, channel, {nick}),
         leaving := Remove(w.leaving, channel, {nick}))
    case Nick(was, nick, channel) =>
      w.(irc := Add(Remove(w.irc, channel, {was}), channel, {nick}),
         matrix := Add(Remove(w.matrix, channel, {was}), channel, {nick}),
         leaving := Remove(w.leaving, channel, {was}))
    case Timer(i) =>
      var (nicks, d) := Flush(w.d, w.timers[i]);
      w.(d := d,
         timers := w.timers[..i] + w.timers[i + 1..],
         leaves := w.leaves + LeavesFor(w.timers[i], nicks),
         leaving := Add(w.leaving, w.timers[i], nicks))
    case LeaveSent(nick, channel) =>
      w.(matrix := Remove(w.matrix, channel, {nick}),
         leaves := w.leaves - multiset{(channel, nick)},
         leaving := Remove(w.leaving, channel, {nick}))
  }

  // In every channel the Matrix members are the IRC members, the held nicks, who are not on the
  // channel, and the nicks whose leave is on its way.
  ghost predicate RefinesAt(w: World, c: string) {
    Get(w.matrix, c) == Get(w.irc, c) + Held(w.d, c) + Get(w.leaving, c) && Get(w.irc, c) !! Held(w.d, c)
  }

  ghost predicate Refines(w: World) {
    forall c :: RefinesAt(w, c)
  }

  // Nobody is leaving without a leave to be sent.
  ghost predicate LeavesComing(w: World) {
    forall c, nick :: nick in Get(w.leaving, c) ==> (c, nick) in w.leaves
  }

  // A channel has one pending timer exactly when it is in existingTimeouts, else none.
  ghost predicate OneTimer(w: World) {
    && (forall c :: c in w.timers <==> c in w.d.existingTimeouts)
    && (forall i, j :: 0 <= i < j < |w.timers| ==> w.timers[i] != w.timers[j])
  }

  lemma {:induction false} GetHold(m: map<string, set<string>>, nick: string, channels: seq<string>, c: string)
    ensures Get(Hold(m, nick, channels), c) == if c in channels then Get(m, c) + {nick} else Get(m, c)
    decreases |channels|
  {
    if channels != [] {
      GetHold(m[channels[0] := Get(m, channels[0]) + {nick}], nick, channels[1..], c);
    }
  }

  lemma {:induction false} GetRemoveFrom(m: map<string, set<string>>, channels: seq<string>, nick: string, c: string)
    ensures Get(RemoveFrom(m, channels, nick), c) == if c in channels then Get(m, c) - {nick} else Get(m, c)
    decreases |channels|
  {
    if channels != [] {
      GetRemoveFrom(Remove(m, channels[0], {nick}), channels[1..], nick, c);
    }
  }

  // One channel after a quit.
  lemma QuitAt(w: World, server: ServerConfig, e: Event, c: string)
    requires e.Quit? && Enabled(w, e)
    ensures
      var (send, w') := (DebounceQuit(w.d, server, e.nick, e.channels, e.now).0, Step(w, server, e));
      var gone := if c in e.channels then {e.nick} else {};
      && Get(w'.irc, c) == Get(w.irc, c) - gone
      && Get(w'.matrix, c) == Get(w.matrix, c) - (if send then gone else {})
      && Get(w'.leaving, c) == Get(w.leaving, c) - (if send then gone else {})
      && Held(w'.d, c) == Held(w.d, c) + (if send then {} else gone)
      && w'.timers == w.timers && w'.d.existingTimeouts == w.d.existingTimeouts && w'.leaves == w.leaves
  {
    GetRemoveFrom(w.irc, e.channels, e.nick, c);
    GetRemoveFrom(w.matrix, e.channels, e.nick, c);
    GetRemoveFrom(w.leaving, e.channels, e.nick, c);
    GetHold(w.d.splitChannelUsers, e.nick, e.channels, c);
    hide Hold, RemoveFrom, Recorded;
  }

  // A nick change goes past the debouncer: it keeps the refinement exactly when the new nick is
  // not held in the channel.
  lemma NickChange(w: World, server: ServerConfig, e: Event)
    requires e.Nick? && Enabled(w, e) && Refines(w)
    ensures Refines(Step(w, server, e)) <==> e.nick !in Held(w.d, e.channel)
  {
    var w' := Step(w, server, e);
    assert Get(w'.irc, e.channel) == Get(w.irc, e.channel) - {e.was} + {e.nick};
    assert RefinesAt(w, e.channel);
    forall c | c != e.channel
      ensures RefinesAt(w', c)
    {
      assert RefinesAt(w, c);
    }
    assert RefinesAt(w', e.channel) <==> e.nick !in Held(w.d, e.channel);
  }

  // A leave that is sent late keeps the refinement exactly when its nick has not come back in the
  // meantime, to the channel or to be held again.
  lemma LeaveSentIff(w: World, server: ServerConfig, e: Event)
    requires e.LeaveSent? && Enabled(w, e) && Refines(w)
    ensures Refines(Step(w, server, e)) <==> e.nick !in Get(w.irc, e.channel) && e.nick !in Held(w.d, e.channel)
  {
    var w' := Step(w, server, e);
    assert RefinesAt(w, e.channel);
    forall c | c != e.channel
      ensures RefinesAt(w', c)
    {
      assert RefinesAt(w, c);
    }
    assert RefinesAt(w', e.channel) <==> e.nick !in Get(w.irc, e.channel) && e.nick !in Held(w.d, e.channel);
  }

  // The two ways to go wrong: a change to a held nick, and a leave for a nick that has come back.
  predicate Harmless(w: World, e: Event) {
    && (e.Nick? ==> e.nick !in Held(w.d, e.channel))
    && (e.LeaveSent? ==> e.nick !in Get(w.irc, e.channel) && e.nick !in Held(w.d, e.channel))
  }

  lemma JoinRefinesAt(w: World, server: ServerConfig, e: Event, c: string)
    requires e.Join? && Enabled(w, e) && RefinesAt(w, c)
    ensures RefinesAt(Step(w, server, e), c)
  {
  }

  lemma QuitRefinesAt(w: World, server: ServerConfig, e: Event, c: string)
    requires e.Quit? && Enabled(w, e) && RefinesAt(w, c)
    ensures RefinesAt(Step(w, server, e), c)
  {
    QuitAt(w, server, e, c);
    assert c in e.channels ==> e.nick in Get(w.irc, c) && e.nick !in Held(w.d, c);
    hide Step, Held, DebounceQuit, Get, Enabled;
  }

  lemma TimerRefinesAt(w: World, server: ServerConfig, e: Event, c: string)
    requires e.Timer? && Enabled(w, e) && RefinesAt(w, c)
    ensures RefinesAt(Step(w, server, e), c)
  {
    hide LeavesFor;
  }

  lemma StepRefinesAt(w: World, server: ServerConfig, e: Event, c: string)
    requires Enabled(w, e) && !e.Nick? && !e.LeaveSent? && RefinesAt(w, c)
    ensures RefinesAt(Step(w, server, e), c)
  {
    match e
    case Join(_, _) => JoinRefinesAt(w, server, e, c);
    case Quit(_, _, _) => QuitRefinesAt(w, server, e, c);
    case Timer(_) => TimerRefinesAt(w, server, e, c);
    case Part(_, _) =>
  }

  // Every event keeps the refinement, but for these two, which keep it exactly when harmless.
  lemma StepRefinesIff(w: World, server: ServerConfig, e: Event)
    requires Enabled(w, e) && Refines(w)
    ensures Refines(Step(w, server, e)) <==> Harmless(w, e)
  {
    if e.Nick? {
      NickChange(w, server, e);
    } else if e.LeaveSent? {
      LeaveSentIff(w, server, e);
    } else {
      hide Step, RefinesAt, Enabled, Held;
      forall c
        ensures RefinesAt(Step(w, server, e), c)
      {
        StepRefinesAt(w, server, e, c);
      }
    }
  }

  lemma StepLeavesComing(w: World, server: ServerConfig, e: Event)
    requires Enabled(w, e) && LeavesComing(w)
    ensures LeavesComing(Step(w, server, e))
  {
    var w' := Step(w, server, e);
    forall c, nick | nick in Get(w'.leaving, c)
      ensures (c, nick) in w'.leaves
    {
      if e.Quit? {
        QuitAt(w, server, e, c);
        hide Step;
      } else if e.Timer? {
        LeavesForCount(w.timers[e.i], Flush(w.d, w.timers[e.i]).0, c, nick);
        hide LeavesFor;
      }
    }
  }

  lemma LeavesForCount(channel: string, nicks: set<string>, c: string, nick: string)
    ensures LeavesFor(channel, nicks)[(c, nick)] == One(c == channel && nick in nicks)
  {
  }

  lemma StepOneTimer(w: World, server: ServerConfig, e: Event)
    requires Enabled(w, e) && OneTimer(w)
    ensures OneTimer(Step(w, server, e))
  {
    match e
    case Timer(i) => TimerStep(w, server, e);
    case Quit(nick, channels, _) =>
      QuitAt(w, server, e, "");
      hide Step;
    case _ =>
  }

  lemma TimerStep(w: World, server: ServerConfig, e: Event)
    requires Enabled(w, e) && OneTimer(w) && e.Timer?
    ensures OneTimer(Step(w, server, e))
  {
    hide LeavesFor;
    var w', i := Step(w, server, e), e.i;
    var c := w.timers[i];
    forall x
      ensures x in w'.timers <==> x in w'.d.existingTimeouts
    {
      if x in w.timers && x != c {
        var k :| 0 <= k < |w.timers| && w.timers[k] == x;
        assert w'.timers[if k < i then k else k - 1] == x;
      }
    }
  }

  // A join is swallowed only for a member of the room, and forwarded only for a nick that is not in
  // the room or is about to leave it; leaves are sent only for members of the room, and a flush takes
  // nobody who is on the channel.
  lemma MessagesChangeMembership(w: World, server: ServerConfig, e: Event)
    requires Enabled(w, e) && Refines(w)
    ensures e.Join? ==>
              if OnJoin(w.d, e.nick, e.channel).0
              then e.nick in Get(w.matrix, e.channel) ==> e.nick in Get(w.leaving, e.channel)
              else e.nick in Get(w.matrix, e.channel)
    ensures e.Quit? ==> forall c :: c in e.channels ==> e.nick in Get(w.matrix, c)
    ensures e.Timer? ==>
              var (nicks, c) := (Flush(w.d, w.timers[e.i]).0, w.timers[e.i]);
              nicks <= Get(w.matrix, c) && nicks !! Get(w.irc, c)
  {
    if e.Join? { assert RefinesAt(w, e.channel); }
    if e.Timer? { assert RefinesAt(w, w.timers[e.i]); }
    if e.Quit? {
      forall c | c in e.channels
        ensures e.nick in Get(w.matrix, c)
      {
        assert RefinesAt(w, c);
      }
    }
  }

  // --- Runs ---

  ghost predicate Possible(w: World, server: ServerConfig, es: seq<Event>)
    decreases |es|
  {
    es == [] || (Enabled(w, es[0]) && Possible(Step(w, server, es[0]), server, es[1..]))
  }

  ghost function After(w: World, server: ServerConfig, es: seq<Event>): World
    requires Possible(w, server, es)
    decreases |es|
  {
    if es == [] then w else After(Step(w, server, es[0]), server, es[1..])
  }

  ghost predicate AllHarmless(w: World, server: ServerConfig, es: seq<Event>)
    requires Possible(w, server, es)
    decreases |es|
  {
    es == [] || (Harmless(w, es[0]) && AllHarmless(Step(w, server, es[0]), server, es[1..]))
  }

  ghost predicate RefinesThroughout(w: World, server: ServerConfig, es: seq<Event>)
    requires Possible(w, server, es)
    decreases |es|
  {
    Refines(w) && (es == [] || RefinesThroughout(Step(w, server, es[0]), server, es[1..]))
  }

  // Over every run the room follows the channel if and only if nobody changes to a held nick and no
  // leave of a flush is sent for a nick that has come back.
  lemma {:induction false} RunRefinesIff(w: World, server: ServerConfig, es: seq<Event>)
    requires Refines(w) && Possible(w, server, es)
    ensures RefinesThroughout(w, server, es) <==> AllHarmless(w, server, es)
    decreases |es|
  {
    hide Refines, Step, Enabled, Harmless;
    if es != [] {
      StepRefinesIff(w, server, es[0]);
      if Harmless(w, es[0]) { RunRefinesIff(Step(w, server, es[0]), server, es[1..]); }
    }
  }

  // And no channel ever has two timers, and nobody is ever leaving without a leave to be sent.
  lemma {:induction false} RunRefines(w: World, server: ServerConfig, es: seq<Event>)
    requires Refines(w) && OneTimer(w) && LeavesComing(w) && Possible(w, server, es)
    ensures OneTimer(After(w, server, es)) && LeavesComing(After(w, server, es))
    ensures AllHarmless(w, server, es) ==> Refines(After(w, server, es))
    decreases |es|
  {
    if AllHarmless(w, server, es) {
      hide Refines, OneTimer, LeavesComing, Step, Enabled, Harmless;
      RunRefinesIff(w, server, es);
      RefinesAtEnd(w, server, es);
    }
    RunTimers(w, server, es);
  }

  lemma {:induction false} RefinesAtEnd(w: World, server: ServerConfig, es: seq<Event>)
    requires Possible(w, server, es) && RefinesThroughout(w, server, es)
    ensures Refines(After(w, server, es))
    decreases |es|
  {
    hide Refines, Step, Enabled;
    if es != [] { RefinesAtEnd(Step(w, server, es[0]), server, es[1..]); }
  }

  lemma {:induction false} RunTimers(w: World, server: ServerConfig, es: seq<Event>)
    requires OneTimer(w) && LeavesComing(w) && Possible(w, server, es)
    ensures OneTimer(After(w, server, es)) && LeavesComing(After(w, server, es))
    decreases |es|
  {
    hide OneTimer, LeavesComing, Step, Enabled;
    if es != [] {
      StepOneTimer(w, server, es[0]);
      StepLeavesComing(w, server, es[0]);
      RunTimers(Step(w, server, es[0]), server, es[1..]);
    }
  }

  // When all leaves have been sent, the room is the channel and the held nicks.
  lemma NoLeavesLeft(w: World, c: string)
    requires Refines(w) && LeavesComing(w) && forall nick :: (c, nick) !in w.leaves
    ensures Get(w.matrix, c) == Get(w.irc, c) + Held(w.d, c)
  {
    assert RefinesAt(w, c);
    assert forall nick :: nick !in Get(w.leaving, c);
  }

  // --- A flush with nothing in between ---

  function Leaves(channel: string, nicks: seq<string>): seq<Event> {
    if nicks == [] then [] else [LeaveSent(nicks[0], channel)] + Leaves(channel, nicks[1..])
  }

  lemma LeaveAt(w: World, server: ServerConfig, e: Event)
    requires e.LeaveSent? && Enabled(w, e)
    ensures
      var w' := Step(w, server, e);
      && w'.irc == w.irc && w'.d == w.d && w'.timers == w.timers
      && Get(w'.matrix, e.channel) == Get(w.matrix, e.channel) - {e.nick}
      && Get(w'.leaving, e.channel) == Get(w.leaving, e.channel) - {e.nick}
      && forall n :: n != e.nick && (e.channel, n) in w.leaves ==> (e.channel, n) in w'.leaves
  {
  }

  lemma FirstLeave(c: string, nicks: seq<string>)
    requires nicks != []
    ensures
      var es := Leaves(c, nicks);
      es != [] && es[0] == LeaveSent(nicks[0], c) && es[1..] == Leaves(c, nicks[1..])
    ensures Elements(nicks) == {nicks[0]} + Elements(nicks[1..])
  {
    assert nicks == [nicks[0]] + nicks[1..];
  }

  function Elements(nicks: seq<string>): set<string> {
    set n | n in nicks
  }

  // Leaves that can be sent one after the other, and are harmless.
  predicate Sendable(w: World, c: string, nicks: seq<string>) {
    && (forall i, j :: 0 <= i < j < |nicks| ==> nicks[i] != nicks[j])
    && (forall i :: 0 <= i < |nicks| ==>
                      (c, nicks[i]) in w.leaves && nicks[i] !in Get(w.irc, c) && nicks[i] !in Held(w.d, c))
  }

  lemma SendableNext(w: World, server: ServerConfig, c: string, nicks: seq<string>)
    requires nicks != [] && Sendable(w, c, nicks)
    ensures
      var e := LeaveSent(nicks[0], c);
      Enabled(w, e) && Harmless(w, e) && Sendable(Step(w, server, e), c, nicks[1..])
  {
    var e := LeaveSent(nicks[0], c);
    LeaveAt(w, server, e);
    hide Step, Get, Held;
    var w' := Step(w, server, e);
    forall i | 0 <= i < |nicks[1..]|
      ensures (c, nicks[1..][i]) in w'.leaves && nicks[1..][i] !in Get(w.irc, c) && nicks[1..][i] !in Held(w.d, c)
    {
      assert nicks[1..][i] == nicks[i + 1];
    }
  }

  lemma {:induction false} LeavesRun(w: World, server: ServerConfig, c: string, nicks: seq<string>)
    requires Sendable(w, c, nicks)
    ensures Possible(w, server, Leaves(c, nicks)) && AllHarmless(w, server, Leaves(c, nicks))
    ensures
      var w' := After(w, server, Leaves(c, nicks));
      && w'.irc == w.irc && w'.d == w.d && w'.timers == w.timers
      && Get(w'.matrix, c) == Get(w.matrix, c) - Elements(nicks)
      && Get(w'.leaving, c) == Get(w.leaving, c) - Elements(nicks)
    decreases |nicks|
  {
    if nicks != [] {
      var e := LeaveSent(nicks[0], c);
      FirstLeave(c, nicks);
      SendableNext(w, server, c, nicks);
      LeaveAt(w, server, e);
      hide Step, Enabled, Harmless, Leaves, Get, Held, Sendable, Elements;
      LeavesRun(Step(w, server, e), server, c, nicks[1..]);
    }
  }

  // The timer and all its leaves with nothing in between are harmless, and a flush in one step: the
  // held nicks are gone from the room, and nobody is held or leaving.
  lemma FlushInOneGo(w: World, server: ServerConfig, i: nat, nicks: seq<string>)
    requires Refines(w) && i < |w.timers|
    requires forall j, k :: 0 <= j < k < |nicks| ==> nicks[j] != nicks[k]
    requires Elements(nicks) == Held(w.d, w.timers[i]) && Get(w.leaving, w.timers[i]) == {}
    ensures
      var c, es := w.timers[i], [Timer(i)] + Leaves(w.timers[i], nicks);
      && Possible(w, server, es) && AllHarmless(w, server, es)
      && var w' := After(w, server, es);
         && w'.irc == w.irc && Held(w'.d, c) == {} == Get(w'.leaving, c)
         && Get(w'.matrix, c) == Get(w.matrix, c) - Held(w.d, c) == Get(w.irc, c)
  {
    var c, es := w.timers[i], [Timer(i)] + Leaves(w.timers[i], nicks);
    var w1 := Step(w, server, Timer(i));
    assert es[0] == Timer(i) && es[1..] == Leaves(c, nicks);
    assert RefinesAt(w, c);
    TimerAt(w, server, i);
    assert Enabled(w, Timer(i)) && Harmless(w, Timer(i));
    hide Refines, LeavesFor, Step, Enabled, Harmless, Held, Get;
    forall k | 0 <= k < |nicks|
      ensures (c, nicks[k]) in w1.leaves && nicks[k] !in Get(w1.irc, c) && nicks[k] !in Held(w1.d, c)
    {
      assert nicks[k] in Elements(nicks);
    }
    LeavesRun(w1, server, c, nicks);
  }

  lemma TimerAt(w: World, server: ServerConfig, i: nat)
    requires i < |w.timers|
    ensures
      var c, w' := w.timers[i], Step(w, server, Timer(i));
      && w'.irc == w.irc && w'.matrix == w.matrix && Held(w'.d, c) == {}
      && Get(w'.leaving, c) == Get(w.leaving, c) + Held(w.d, c)
      && forall n :: n in Held(w.d, c) ==> (c, n) in w'.leaves
  {
    var c, w' := w.timers[i], Step(w, server, Timer(i));
    forall n | n in Held(w.d, c)
      ensures (c, n) in w'.leaves
    {
      LeavesForCount(c, Held(w.d, c), c, n);
    }
    hide LeavesFor;
  }

  // A nick that rejoins after the timer fires and before its leave is sent ends up in the channel
  // but not in the room, from every state.
  lemma RejoinDuringFlush(w: World, server: ServerConfig, i: nat, nick: string)
    requires Refines(w) && i < |w.timers| && nick in Held(w.d, w.timers[i])
    ensures
      var c := w.timers[i];
      var w1 := Step(w, server, Timer(i));
      && Enabled(w1, Join(nick, c))
      && var w2 := Step(w1, server, Join(nick, c));
         && Enabled(w2, LeaveSent(nick, c)) && !Harmless(w2, LeaveSent(nick, c))
         && var w3 := Step(w2, server, LeaveSent(nick, c));
            nick in Get(w3.irc, c) && nick !in Get(w3.matrix, c)
  {
    assert RefinesAt(w, w.timers[i]);
    LeavesForCount(w.timers[i], Held(w.d, w.timers[i]), w.timers[i], nick);
    hide LeavesFor;
  }

  // --- Conservation ---

  function One(b: bool): nat { if b then 1 else 0 }

  // What one event does to the quit of nick n from channel c.
  ghost predicate Suppresses(w: World, server: ServerConfig, e: Event, c: string, n: string) {
    e.Quit? && e.nick == n && c in e.channels && !DebounceQuit(w.d, server, n, e.channels, e.now).0
  }

  ghost predicate Cancels(w: World, e: Event, c: string, n: string) {
    e.Join? && e.nick == n && e.channel == c && !OnJoin(w.d, n, c).0
  }

  ghost predicate Takes(w: World, e: Event, c: string, n: string) {
    e.Timer? && e.i < |w.timers| && w.timers[e.i] == c && n in Flush(w.d, c).0
  }

  // How many quits of n from c were suppressed, cancelled by a rejoin, taken by a flush, and how many
  // leaves of flushes were sent.
  datatype Tally = Tally(suppressed: nat, cancelled: nat, taken: nat, sent: nat)

  ghost function Count(w: World, server: ServerConfig, es: seq<Event>, c: string, n: string): Tally
    requires Possible(w, server, es)
    decreases |es|
  {
    if es == [] then Tally(0, 0, 0, 0)
    else
      var rest := Count(Step(w, server, es[0]), server, es[1..], c, n);
      Tally(rest.suppressed + One(Suppresses(w, server, es[0], c, n)),
            rest.cancelled + One(Cancels(w, es[0], c, n)),
            rest.taken + One(Takes(w, es[0], c, n)),
            rest.sent + One(es[0] == LeaveSent(n, c)))
  }

  lemma QuitConserves(w: World, server: ServerConfig, e: Event, c: string, n: string)
    requires e.Quit? && Enabled(w, e) && Get(w.irc, c) !! Held(w.d, c)
    ensures One(n in Held(w.d, c)) + One(Suppresses(w, server, e, c, n)) == One(n in Held(Step(w, server, e).d, c))
    ensures Step(w, server, e).leaves == w.leaves
  {
    QuitAt(w, server, e, c);
    hide Step, DebounceQuit, Held;
  }

  lemma TimerConserves(w: World, server: ServerConfig, e: Event, c: string, n: string)
    requires e.Timer? && Enabled(w, e)
    ensures One(n in Held(w.d, c)) == One(Takes(w, e, c, n)) + One(n in Held(Step(w, server, e).d, c))
    ensures w.leaves[(c, n)] + One(Takes(w, e, c, n)) == Step(w, server, e).leaves[(c, n)]
  {
    LeavesForCount(w.timers[e.i], Held(w.d, w.timers[e.i]), c, n);
    hide LeavesFor;
  }

  lemma JoinConserves(w: World, server: ServerConfig, e: Event, c: string, n: string)
    requires e.Join? && Enabled(w, e)
    ensures One(n in Held(w.d, c)) == One(Cancels(w, e, c, n)) + One(n in Held(Step(w, server, e).d, c))
    ensures w.leaves == Step(w, server, e).leaves
  {
  }

  lemma StepConserves(w: World, server: ServerConfig, e: Event, c: string, n: string)
    requires Enabled(w, e) && Get(w.irc, c) !! Held(w.d, c)
    ensures
      One(n in Held(w.d, c)) + One(Suppresses(w, server, e, c, n))
      == One(Cancels(w, e, c, n)) + One(Takes(w, e, c, n)) + One(n in Held(Step(w, server, e).d, c))
    ensures w.leaves[(c, n)] + One(Takes(w, e, c, n)) == One(e == LeaveSent(n, c)) + Step(w, server, e).leaves[(c, n)]
  {
    match e
    case Quit(_, _, _) =>
      QuitConserves(w, server, e, c, n);
      hide Step, Suppresses;
    case Timer(_) =>
      TimerConserves(w, server, e, c, n);
      hide Step, Takes;
    case Join(_, _) =>
      JoinConserves(w, server, e, c, n);
      hide Step, Cancels;
    case _ =>
  }

  ghost predicate Apart(w: World) {
    forall c :: Get(w.irc, c) !! Held(w.d, c)
  }

  // Members and held nicks stay apart whatever leaves are sent; only nick changes can break this.
  lemma StepApart(w: World, server: ServerConfig, e: Event)
    requires Enabled(w, e) && Apart(w) && (e.Nick? ==> e.nick !in Held(w.d, e.channel))
    ensures Apart(Step(w, server, e))
  {
    forall c
      ensures Get(Step(w, server, e).irc, c) !! Held(Step(w, server, e).d, c)
    {
      assert Get(w.irc, c) !! Held(w.d, c);
      if e.Quit? {
        QuitAt(w, server, e, c);
        hide Step;
      }
    }
  }

  ghost predicate NoChangeToHeld(w: World, server: ServerConfig, es: seq<Event>)
    requires Possible(w, server, es)
    decreases |es|
  {
    es == [] ||
    ((es[0].Nick? ==> es[0].nick !in Held(w.d, es[0].channel)) && NoChangeToHeld(Step(w, server, es[0]), server, es[1..]))
  }

  // Every suppressed quit is exactly one of: still held, cancelled by a rejoin, or taken by a flush;
  // and for each one taken a leave has been sent or has still to be.
  lemma {:induction false} QuitsConserved(w: World, server: ServerConfig, es: seq<Event>, c: string, n: string)
    requires Apart(w) && Possible(w, server, es) && NoChangeToHeld(w, server, es)
    ensures
      var tally, w' := Count(w, server, es, c, n), After(w, server, es);
      && One(n in Held(w.d, c)) + tally.suppressed == tally.cancelled + tally.taken + One(n in Held(w'.d, c))
      && w.leaves[(c, n)] + tally.taken == tally.sent + w'.leaves[(c, n)]
    decreases |es|
  {
    if es != [] {
      assert Get(w.irc, c) !! Held(w.d, c);
      StepApart(w, server, es[0]);
      hide Apart, Step, Enabled, Suppresses, Cancels, Takes, Held;
      StepConserves(w, server, es[0], c, n);
      QuitsConserved(Step(w, server, es[0]), server, es[1..], c, n);
    }
  }

  // --- What starts the timer ---

  // A held nick joins the channel.
  predicate Rejoins(w: World, e: Event, c: string) {
    e.Join? && e.channel == c && e.nick in Held(w.d, c)
  }

  predicate Starts(w: World, e: Event, c: string) {
    e.Join? && e.channel == c && OnJoin(w.d, e.nick, c).2
  }

  ghost predicate SomeRejoin(w: World, server: ServerConfig, es: seq<Event>, c: string)
    requires Possible(w, server, es)
    decreases |es|
  {
    es != [] && (Rejoins(w, es[0], c) || SomeRejoin(Step(w, server, es[0]), server, es[1..], c))
  }

  ghost predicate SomeStart(w: World, server: ServerConfig, es: seq<Event>, c: string)
    requires Possible(w, server, es)
    decreases |es|
  {
    es != [] && (Starts(w, es[0], c) || SomeStart(Step(w, server, es[0]), server, es[1..], c))
  }

  lemma StartsIffRejoins(w: World, server: ServerConfig, e: Event, c: string)
    requires OneTimer(w) && Enabled(w, e) && c !in w.timers
    ensures Starts(w, e, c) <==> Rejoins(w, e, c)
    ensures c in Step(w, server, e).timers <==> Starts(w, e, c)
    ensures !Rejoins(w, e, c) ==> Held(w.d, c) <= Held(Step(w, server, e).d, c)
  {
    if e.Quit? {
      QuitAt(w, server, e, c);
      hide Step;
    }
    hide LeavesFor;
  }

  // From any state in which a channel has no timer, a timer is started in the run if and only if a
  // held nick rejoins the channel in it.
  lemma {:induction false} StartedIffRejoined(w: World, server: ServerConfig, es: seq<Event>, c: string)
    requires OneTimer(w) && Possible(w, server, es) && c !in w.timers
    ensures SomeStart(w, server, es, c) <==> SomeRejoin(w, server, es, c)
    decreases |es|
  {
    if es != [] {
      hide OneTimer, Step, Enabled, Starts, Rejoins;
      StepOneTimer(w, server, es[0]);
      StartsIffRejoins(w, server, es[0], c);
      if !Rejoins(w, es[0], c) { StartedIffRejoined(Step(w, server, es[0]), server, es[1..], c); }
    }
  }

  // Until then held quits stay held, and the nicks stay in the room.
  lemma {:induction false} HeldUntilRejoin(w: World, server: ServerConfig, es: seq<Event>, c: string)
    requires OneTimer(w) && Possible(w, server, es) && c !in w.timers && !SomeRejoin(w, server, es, c)
    ensures
      var w' := After(w, server, es);
      c !in w'.timers && Held(w.d, c) <= Held(w'.d, c) && (Refines(w') ==> Held(w.d, c) <= Get(w'.matrix, c))
    decreases |es|
  {
    if es == [] {
      if Refines(w) { assert RefinesAt(w, c); }
    } else {
      hide Refines, OneTimer, Step, Enabled, Held, Rejoins;
      StepOneTimer(w, server, es[0]);
      StartsIffRejoins(w, server, es[0], c);
      HeldUntilRejoin(Step(w, server, es[0]), server, es[1..], c);
    }
  }

  // The flush then takes exactly the nicks still held: of the quits that were held or suppressed in
  // the run, those that were neither cancelled nor taken before.
  lemma FlushTakesStillHeld(w: World, server: ServerConfig, es: seq<Event>, i: nat, n: string)
    requires Apart(w) && Possible(w, server, es) && NoChangeToHeld(w, server, es) && i < |After(w, server, es).timers|
    ensures
      var w' := After(w, server, es);
      var c := w'.timers[i];
      var tally := Count(w, server, es, c, n);
      Takes(w', Timer(i), c, n) <==> One(n in Held(w.d, c)) + tally.suppressed == tally.cancelled + tally.taken + 1
  {
    hide Apart, Count, After, Possible, NoChangeToHeld;
    QuitsConserved(w, server, es, After(w, server, es).timers[i], n);
  }

  // --- The rate of quits, over runs ---

  // The times of the quits in a run, and of those that are let through in (s, s + 1000].
  function Times(es: seq<Event>): seq<int> {
    if es == [] then [] else (if es[0].Quit? then [es[0].now] else []) + Times(es[1..])
  }

  ghost function Passed(w: World, server: ServerConfig, es: seq<Event>, s: int): nat
    requires Possible(w, server, es)
    decreases |es|
  {
    if es == [] then 0
    else
      One(&& es[0].Quit? && s < es[0].now <= s + QUIT_WINDOW_MS
          && DebounceQuit(w.d, server, es[0].nick, es[0].channels, es[0].now).0)
      + Passed(Step(w, server, es[0]), server, es[1..], s)
  }

  lemma TimestampsStep(w: World, server: ServerConfig, e: Event)
    requires Enabled(w, e) && server.debounce
    ensures
      Step(w, server, e).d.quitTimestampsMs
      == if e.Quit? then Recorded(w.d.quitTimestampsMs, e.now) else w.d.quitTimestampsMs
    ensures e.Quit? ==>
              (DebounceQuit(w.d, server, e.nick, e.channels, e.now).0
               <==> |Recorded(w.d.quitTimestampsMs, e.now)| <= server.quitsPerSecond)
  {
    hide Recorded, Hold, RemoveFrom, LeavesFor;
  }

  lemma RecordedNext(ts: seq<int>, now: int)
    ensures RecordedRun(ts + [now]) == Recorded(RecordedRun(ts), now)
  {
    assert (ts + [now])[..|ts|] == ts;
    hide Recorded;
  }

  lemma LetThroughNext(ts: seq<int>, now: int, threshold: nat, s: int)
    ensures
      LetThrough(ts + [now], threshold, s)
      == LetThrough(ts, threshold, s) + One(s < now <= s + QUIT_WINDOW_MS && |RecordedRun(ts + [now])| <= threshold)
  {
    assert (ts + [now])[..|ts|] == ts;
    hide RecordedRun;
  }

  // The list that the debouncer keeps is the window of all quits of the run, and the quits that it
  // lets through are those counted by the window.
  lemma {:induction false} RunTimestamps(w: World, server: ServerConfig, es: seq<Event>, ts: seq<int>, s: int)
    requires server.debounce && Possible(w, server, es) && w.d.quitTimestampsMs == RecordedRun(ts)
    ensures After(w, server, es).d.quitTimestampsMs == RecordedRun(ts + Times(es))
    ensures
      LetThrough(ts + Times(es), server.quitsPerSecond, s)
      == LetThrough(ts, server.quitsPerSecond, s) + Passed(w, server, es, s)
    decreases |es|
  {
    hide Step, Enabled, RecordedRun, LetThrough, Recorded, DebounceQuit;
    if es == [] {
      assert ts + Times(es) == ts;
    } else {
      var e, rest := es[0], es[1..];
      var ts' := if e.Quit? then ts + [e.now] else ts;
      TimestampsStep(w, server, e);
      assert ts' + Times(rest) == ts + Times(es) by { TimesNext(es, ts); }
      hide Times;
      if e.Quit? {
        RecordedNext(ts, e.now);
        LetThroughNext(ts, e.now, server.quitsPerSecond, s);
      }
      RunTimestamps(Step(w, server, e), server, rest, ts', s);
    }
  }

  lemma TimesNext(es: seq<Event>, ts: seq<int>)
    requires es != []
    ensures ts + Times(es) == (if es[0].Quit? then ts + [es[0].now] else ts) + Times(es[1..])
  {
    var first := if es[0].Quit? then [es[0].now] else [];
    var rest := Times(es[1..]);
    assert Times(es) == first + rest;
    hide Times;
    Regroup(ts, first, rest);
    assert ts + [] == ts;
  }

  // Over every run, with a clock that does not go back: at most quitsPerSecond quits are let through
  // in any window of one second.
  lemma RateBound(w: World, server: ServerConfig, es: seq<Event>, s: int)
    requires server.debounce && Possible(w, server, es) && w.d.quitTimestampsMs == [] && NonDecreasing(Times(es))
    ensures Passed(w, server, es, s) <= server.quitsPerSecond
  {
    RunTimestamps(w, server, es, [], s);
    assert [] + Times(es) == Times(es);
    LetThroughBound(Times(es), server.quitsPerSecond, s);
  }

  // The quits in the second that ends now, by their place in the list of all quits.
  function Recent(ts: seq<int>, now: int): set<int> {
    set i | 0 <= i < |ts| && now - 1000 < ts[i] <= now
  }

  lemma {:induction false} LaterCount(ts: seq<int>, t: int)
    ensures |Later(ts, t)| == |set i | 0 <= i < |ts| && ts[i] > t|
  {
    if ts != [] {
      var n := |ts| - 1;
      LaterCount(ts[..n], t);
      LaterConcat(ts[..n], [ts[n]], t);
      assert ts == ts[..n] + [ts[n]];
      var front := set i | 0 <= i < n && ts[..n][i] > t;
      assert (set i | 0 <= i < |ts| && ts[i] > t) == front + if ts[n] > t then {n} else {};
    }
  }

  // Over every run of a fresh debouncer, with a clock that does not go back: a quit is let through if
  // and only if at most quitsPerSecond quits, itself included, came in the second that ends with it.
  lemma PassesIffFewRecent(w: World, server: ServerConfig, es: seq<Event>, nick: string, channels: seq<string>, now: int)
    requires server.debounce && Possible(w, server, es) && w.d.quitTimestampsMs == []
    requires NonDecreasing(Times(es) + [now])
    ensures
      DebounceQuit(After(w, server, es).d, server, nick, channels, now).0
      <==> |Recent(Times(es) + [now], now)| <= server.quitsPerSecond
  {
    hide After, Possible, Times;
    var all := Times(es) + [now];
    TimestampsOf(w, server, es);
    RecordedCount(all, now);
    RecordedNext(Times(es), now);
    hide RecordedRun, Recorded, Recent, NonDecreasing;
    AnswerByCount(After(w, server, es).d, server, nick, channels, now);
  }

  lemma TimestampsOf(w: World, server: ServerConfig, es: seq<Event>)
    requires server.debounce && Possible(w, server, es) && w.d.quitTimestampsMs == []
    ensures After(w, server, es).d.quitTimestampsMs == RecordedRun(Times(es))
  {
    hide After, Possible, Times, LetThrough;
    RunTimestamps(w, server, es, [], 0);
    assert [] + Times(es) == Times(es);
  }

  lemma RecordedCount(all: seq<int>, now: int)
    requires NonDecreasing(all) && all != [] && all[|all| - 1] == now
    ensures |RecordedRun(all)| == |Recent(all, now)|
  {
    PrunedIsWindow(all);
    hide RecordedRun, Later;
    LaterCount(all, now - QUIT_WINDOW_MS);
    assert Recent(all, now) == set i | 0 <= i < |all| && all[i] > now - QUIT_WINDOW_MS;
  }

  lemma AnswerByCount(d: Debouncer, server: ServerConfig, nick: string, channels: seq<string>, now: int)
    requires server.debounce
    ensures DebounceQuit(d, server, nick, channels, now).0 <==> |Recorded(d.quitTimestampsMs, now)| <= server.quitsPerSecond
  {
  }
}
