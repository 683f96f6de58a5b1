// src/util/ProcessedDict.ts and the claims of src/irc/IrcEventBroker.ts: many clients see the same line and
// one of them passes it on.

module EventClaims {
  import opened Strings

  const CLEANUP_TIME_MS := 1000 * 60 * 10

  // ts is None for NAMES, which are never purged.
  datatype Entry = Entry(nick: string, ts: Option<int>)

  type Hashes = map<string, Entry>
  type Processed = map<string, Hashes>

  function GetClaimer(p: Processed, domain: string, hash: string): Option<string> {
    if domain in p && hash in p[domain] then Some(p[domain][hash].nick) else None
  }

  function Claim(p: Processed, domain: string, hash: string, nick: string, cmd: string, now: int): Processed {
    var hashes := if domain in p then p[domain] else map[];
    p[domain := hashes[hash := Entry(nick, if cmd == "names" then None else Some(now))]]
  }

  // Zero is not a time to the source: such an entry is kept, like one without a time.
  predicate Expired(e: Entry, now: int) {
    e.ts.Some? && e.ts.value != 0 && e.ts.value + CLEANUP_TIME_MS < now
  }

  function Unexpired(hashes: Hashes, now: int): Hashes {
    map hash | hash in hashes && !Expired(hashes[hash], now) :: hashes[hash]
  }

  // One run of the cleaner.
  function Cleaned(p: Processed, now: int): Processed {
    map domain | domain in p :: Unexpired(p[domain], now)
  }

  class ProcessedDict {
    var processed: Processed

    constructor ()
      ensures processed == map[]
    {
      processed := map[];
    }

    method ClaimHash(domain: string, hash: string, nick: string, cmd: string, now: int)
      modifies this
      ensures processed == Claim(old(processed), domain, hash, nick, cmd, now)
    {
      if domain !in processed {
        processed := processed[domain := map[]];
      }
      processed := processed[domain := processed[domain][hash := Entry(nick, if cmd == "names" then None else Some(now))]];
    }

    // The hashes of one domain that have expired.
    method ExpiredHashes(entries: Hashes, now: int) returns (expired: set<string>)
      ensures expired == set h | h in entries && Expired(entries[h], now)
    {
      expired := {};
      var hashes := entries.Keys;
      while hashes != {}
        invariant hashes <= entries.Keys
        invariant expired == set h | h in entries && h !in hashes && Expired(entries[h], now)
        decreases |hashes|
      {
        var h :| h in hashes;
        hashes := hashes - {h};
        if Expired(entries[h], now) {
          expired := expired + {h};
        }
      }
    }

    // The entries older than CLEANUP_TIME_MS.
    method ListExpired(now: int) returns (expiredList: map<string, set<string>>)
      ensures expiredList == map d | d in processed :: set h | h in processed[d] && Expired(processed[d][h], now)
    {
      expiredList := map[];
      var domains := processed.Keys;
      while domains != {}
        invariant domains <= processed.Keys
        invariant expiredList == map d | d in processed && d !in domains :: set h | h in processed[d] && Expired(processed[d][h], now)
        decreases |domains|
      {
        var d :| d in domains;
        domains := domains - {d};
        var expired := ExpiredHashes(processed[d], now);
        expiredList := expiredList[d := expired];
      }
    }

    // The body of the cleaner: list what has expired, then delete it.
    method Clean(now: int)
      modifies this
      ensures processed == Cleaned(old(processed), now)
    {
      var expiredList := ListExpired(now);
      var domains := expiredList.Keys;
      while domains != {}
        invariant domains <= old(processed).Keys
        invariant processed == PartlyCleaned(old(processed), domains, now)
        decreases |domains|
      {
        var d :| d in domains;
        CleanDomain(old(processed), domains, d, now);
        domains := domains - {d};
        processed := processed[d := processed[d] - expiredList[d]];
      }
    }
  }

  // All but these domains are cleaned.
  function PartlyCleaned(p: Processed, domains: set<string>, now: int): Processed {
    map d | d in p :: if d in domains then p[d] else Unexpired(p[d], now)
  }

  lemma CleanDomain(p: Processed, domains: set<string>, d: string, now: int)
    requires d in domains && domains <= p.Keys
    ensures d in PartlyCleaned(p, domains, now) && PartlyCleaned(p, domains, now)[d] == p[d]
    ensures
      PartlyCleaned(p, domains, now)[d := p[d] - (set h | h in p[d] && Expired(p[d][h], now))]
      == PartlyCleaned(p, domains - {d}, now)
  {
    assert p[d] - (set h | h in p[d] && Expired(p[d][h], now)) == Unexpired(p[d], now);
    hide Unexpired, Expired;
  }

  // A line as the client library parses it; args may be missing.
  datatype Message = Message(prefix: string, rawCommand: string, args: Option<seq<string>>)

  function Joined(args: seq<string>): string {
    if args == [] then "" else args[0] + Joined(args[1..])
  }

  function HashOf(m: Message): Option<string> {
    if m.prefix == "" || m.rawCommand == "" || m.args.None? then None
    else Some(m.prefix + m.rawCommand + Joined(m.args.value))
  }

  // Whether the client passes the line on, and the new dictionary. `live` are the nicks of the
  // clients that still have a connection.
  function AttemptClaim(p: Processed, live: set<string>, domain: string, nick: string, m: Message, now: int): (bool, Processed) {
    match HashOf(m)
    case None => (false, p)
    case Some(hash) =>
      var claimed := Claim(p, domain, hash, nick, m.rawCommand, now);
      match GetClaimer(p, domain, hash)
      case None => (true, claimed)
      case Some(owner) =>
        if owner == nick then (true, claimed)
        else if owner != "" && owner !in live then (true, claimed)
        else (false, p)
  }

  // --- Runs of many clients ---

  datatype Event =
    | Receive(domain: string, nick: string, msg: Message, live: set<string>, now: int)
    | Clean(now: int)

  function Step(p: Processed, e: Event): Processed {
    match e
    case Receive(domain, nick, m, live, now) => AttemptClaim(p, live, domain, nick, m, now).1
    case Clean(now) => Cleaned(p, now)
  }

  // The line a run is about.
  predicate About(e: Event, domain: string, hash: string) {
    e.Receive? && e.domain == domain && HashOf(e.msg) == Some(hash)
  }

  predicate Forwards(p: Processed, e: Event) {
    e.Receive? && AttemptClaim(p, e.live, e.domain, e.nick, e.msg, e.now).0
  }

  function Received(es: seq<Event>, domain: string, hash: string, nick: string): nat {
    if es == [] then 0
    else (if About(es[0], domain, hash) && es[0].nick == nick then 1 else 0) + Received(es[1..], domain, hash, nick)
  }

  function Forwarded(p: Processed, es: seq<Event>, domain: string, hash: string, nick: string): nat
    decreases |es|
  {
    if es == [] then 0
    else (if About(es[0], domain, hash) && es[0].nick == nick && Forwards(p, es[0]) then 1 else 0)
         + Forwarded(Step(p, es[0]), es[1..], domain, hash, nick)
  }

  // No cleaner run purges the claim on the line.
  predicate Unpurged(p: Processed, es: seq<Event>, domain: string, hash: string)
    decreases |es|
  {
    es == [] ||
    (&& (es[0].Clean? && domain in p && hash in p[domain] ==> !Expired(p[domain][hash], es[0].now))
     && Unpurged(Step(p, es[0]), es[1..], domain, hash))
  }

  // The owner has a connection whenever some client receives the line.
  predicate OwnerLive(es: seq<Event>, domain: string, hash: string, owner: string) {
    forall i :: 0 <= i < |es| && About(es[i], domain, hash) ==> owner in es[i].live
  }

  // The claim on one line after an event about another line, or a cleaner run, or a claim.
  lemma ClaimAt(p: Processed, e: Event, domain: string, hash: string)
    ensures
      var entry := if domain in p && hash in p[domain] then Some(p[domain][hash]) else None;
      var p' := Step(p, e);
      var entry' := if domain in p' && hash in p'[domain] then Some(p'[domain][hash]) else None;
      if e.Clean? then entry' == (if entry.Some? && !Expired(entry.value, e.now) then entry else None)
      else if About(e, domain, hash) && Forwards(p, e) then
        entry' == Some(Entry(e.nick, if e.msg.rawCommand == "names" then None else Some(e.now)))
      else entry' == entry
  {
  }

  // A claim that is not purged changes hands only when its owner has no connection.
  lemma OwnershipMoves(p: Processed, e: Event, domain: string, hash: string, owner: string)
    requires GetClaimer(p, domain, hash) == Some(owner) && Unpurged(p, [e], domain, hash)
    ensures
      var claimer := GetClaimer(Step(p, e), domain, hash);
      claimer.Some? && (claimer.value != owner ==> About(e, domain, hash) && owner !in e.live && claimer.value == e.nick)
  {
  }

  // While the owner is live and the claim is kept, the owner forwards every copy it receives and
  // no other client forwards any.
  lemma {:induction false} OwnerForwardsAll(p: Processed, es: seq<Event>, domain: string, hash: string, owner: string, nick: string)
    requires GetClaimer(p, domain, hash) == Some(owner)
    requires Unpurged(p, es, domain, hash) && OwnerLive(es, domain, hash, owner)
    ensures Forwarded(p, es, domain, hash, nick) == if nick == owner then Received(es, domain, hash, nick) else 0
    decreases |es|
  {
    if es != [] {
      assert es[0] == es[..1][0];
      ClaimAt(p, es[0], domain, hash);
      OneStep(p, es[0], domain, hash, owner);
      hide Step, Forwards, GetClaimer;
      OwnerForwardsAll(Step(p, es[0]), es[1..], domain, hash, owner, nick);
    }
  }

  lemma OneStep(p: Processed, e: Event, domain: string, hash: string, owner: string)
    requires GetClaimer(p, domain, hash) == Some(owner) && Unpurged(p, [e], domain, hash)
    requires About(e, domain, hash) ==> owner in e.live
    ensures GetClaimer(Step(p, e), domain, hash) == Some(owner)
    ensures About(e, domain, hash) ==> (Forwards(p, e) <==> e.nick == owner)
  {
  }

  // From the first copy on: any number of clients receive copies of a line that nobody has
  // claimed, in any interleaving with other lines and cleaner runs. The client that receives the
  // first copy forwards each of its copies, and nobody else forwards any.
  lemma ExactlyOneForwarder(p: Processed, first: Event, es: seq<Event>, domain: string, hash: string, nick: string)
    requires GetClaimer(p, domain, hash).None? && About(first, domain, hash)
    requires Unpurged(Step(p, first), es, domain, hash) && OwnerLive(es, domain, hash, first.nick)
    ensures
      var all := [first] + es;
      Forwarded(p, all, domain, hash, nick) == if nick == first.nick then Received(all, domain, hash, nick) else 0
  {
    var all := [first] + es;
    assert all[1..] == es;
    ClaimAt(p, first, domain, hash);
    OwnerForwardsAll(Step(p, first), es, domain, hash, first.nick, nick);
  }

  // The condition is needed: if the claim is purged between two clients' copies of the line, both
  // forward it.
  lemma PurgedIsDuplicated(p: Processed, a: Event, clean: Event, b: Event, domain: string, hash: string)
    requires GetClaimer(p, domain, hash).None? && About(a, domain, hash) && About(b, domain, hash)
    requires clean.Clean? && a.msg.rawCommand != "names" && a.now != 0 && a.now + CLEANUP_TIME_MS < clean.now
    requires a.nick != b.nick
    ensures Forwarded(p, [a, clean, b], domain, hash, a.nick) == 1 == Forwarded(p, [a, clean, b], domain, hash, b.nick)
  {
    var p1 := Step(p, a);
    var p2 := Step(p1, clean);
    ClaimAt(p, a, domain, hash);
    ClaimAt(p1, clean, domain, hash);
    hide Step;
    forall nick
      ensures Forwarded(p, [a, clean, b], domain, hash, nick)
              == (if nick == a.nick then 1 else 0) + (if nick == b.nick then 1 else 0)
    {
      assert [a, clean, b][1..] == [clean, b] && [clean, b][1..] == [b] && [b][1..] == [];
      assert Forwarded(Step(p2, b), [], domain, hash, nick) == 0;
      assert Forwarded(p2, [b], domain, hash, nick) == if nick == b.nick then 1 else 0;
      assert Forwarded(p1, [clean, b], domain, hash, nick) == Forwarded(p2, [b], domain, hash, nick);
    }
  }

  // A copy that reaches another client than `owner` finds the claim there, held by `owner`, who has a
  // connection. (No client is looked up for an empty nick.)
  predicate Guarded(p: Processed, e: Event, domain: string, hash: string, owner: string) {
    About(e, domain, hash) && e.nick != owner ==>
      GetClaimer(p, domain, hash) == Some(owner) && (owner == "" || owner in e.live)
  }

  predicate AllGuarded(p: Processed, es: seq<Event>, domain: string, hash: string, owner: string)
    decreases |es|
  {
    es == [] || (Guarded(p, es[0], domain, hash, owner) && AllGuarded(Step(p, es[0]), es[1..], domain, hash, owner))
  }

  // While the claim is held by `owner` or by nobody, another client forwards its copy exactly when
  // the copy is not guarded; otherwise the claim stays with `owner` or is purged.
  lemma GuardedIff(p: Processed, e: Event, domain: string, hash: string, owner: string)
    requires GetClaimer(p, domain, hash) in {None, Some(owner)}
    ensures !Guarded(p, e, domain, hash, owner) <==> About(e, domain, hash) && e.nick != owner && Forwards(p, e)
    ensures Guarded(p, e, domain, hash, owner) ==> GetClaimer(Step(p, e), domain, hash) in {None, Some(owner)}
  {
    ClaimAt(p, e, domain, hash);
    hide Step;
  }

  ghost predicate OthersForwardNone(p: Processed, es: seq<Event>, domain: string, hash: string, owner: string) {
    forall nick :: nick != owner ==> Forwarded(p, es, domain, hash, nick) == 0
  }

  // The exact condition, over every run: for a claim that is held by `owner` (or by nobody, before
  // the first copy), no other client forwards the line if and only if each copy that reaches another
  // client is guarded.
  lemma {:induction false} OthersForwardNoneIff(p: Processed, es: seq<Event>, domain: string, hash: string, owner: string)
    requires GetClaimer(p, domain, hash) in {None, Some(owner)}
    ensures OthersForwardNone(p, es, domain, hash, owner) <==> AllGuarded(p, es, domain, hash, owner)
    decreases |es|
  {
    if es != [] {
      var e, rest := es[0], es[1..];
      GuardedIff(p, e, domain, hash, owner);
      hide Step, Guarded, GetClaimer, Forwards;
      if Guarded(p, e, domain, hash, owner) {
        OthersForwardNoneIff(Step(p, e), rest, domain, hash, owner);
        assert forall nick :: nick != owner ==>
                                Forwarded(p, es, domain, hash, nick) == Forwarded(Step(p, e), rest, domain, hash, nick);
      } else {
        assert Forwarded(p, es, domain, hash, e.nick) > 0;
      }
    }
  }

  // Every line about this hash is a NAMES event.
  predicate NamesOnly(es: seq<Event>, domain: string, hash: string) {
    forall i :: 0 <= i < |es| && About(es[i], domain, hash) ==> es[i].msg.rawCommand == "names"
  }

  // A claim on a NAMES event survives every cleaner run.
  lemma {:induction false} NamesNeverPurged(p: Processed, es: seq<Event>, domain: string, hash: string)
    requires domain in p && hash in p[domain] && p[domain][hash].ts.None?
    requires NamesOnly(es, domain, hash)
    ensures Unpurged(p, es, domain, hash)
    decreases |es|
  {
    if es != [] {
      ClaimAt(p, es[0], domain, hash);
      hide Step;
      NamesNeverPurged(Step(p, es[0]), es[1..], domain, hash);
    }
  }

  // So NAMES are counted exactly whatever the cleaner does.
  lemma NamesExactlyOneForwarder(p: Processed, first: Event, es: seq<Event>, domain: string, hash: string, nick: string)
    requires GetClaimer(p, domain, hash).None? && About(first, domain, hash)
    requires NamesOnly([first] + es, domain, hash) && OwnerLive(es, domain, hash, first.nick)
    ensures
      var all := [first] + es;
      Forwarded(p, all, domain, hash, nick) == if nick == first.nick then Received(all, domain, hash, nick) else 0
  {
    var all := [first] + es;
    assert all[0] == first;
    forall i | 0 <= i < |es| && About(es[i], domain, hash)
      ensures es[i].msg.rawCommand == "names"
    {
      assert all[i + 1] == es[i];
    }
    ClaimAt(p, first, domain, hash);
    NamesNeverPurged(Step(p, first), es, domain, hash);
    ExactlyOneForwarder(p, first, es, domain, hash, nick);
  }

  // --- Which lines share a claim ---

  predicate WellFormed(m: Message) {
    m.prefix != "" && m.rawCommand != "" && m.args.Some?
  }

  // The arguments as one text, from the last one to the first.
  function ArgsText(args: seq<string>): string {
    if args == [] then "" else ArgsText(args[..|args| - 1]) + args[|args| - 1]
  }

  function LineText(m: Message): string
    requires WellFormed(m)
  {
    m.prefix + (m.rawCommand + ArgsText(m.args.value))
  }

  lemma {:induction false} JoinedConcat(a: seq<string>, b: seq<string>)
    ensures Joined(a + b) == Joined(a) + Joined(b)
  {
    if a == [] {
      assert a + b == b;
    } else {
      JoinedConcat(a[1..], b);
      assert (a + b)[1..] == a[1..] + b && (a + b)[0] == a[0];
      Associates(a[0], Joined(a[1..]), Joined(b));
    }
  }

  lemma {:induction false} JoinedIsText(args: seq<string>)
    ensures Joined(args) == ArgsText(args)
  {
    if args != [] {
      var n := |args| - 1;
      JoinedIsText(args[..n]);
      JoinedConcat(args[..n], [args[n]]);
      assert args == args[..n] + [args[n]] && [args[n]][1..] == [];
      assert Joined([args[n]]) == args[n];
    }
  }

  lemma HashIsText(m: Message)
    ensures HashOf(m) == if WellFormed(m) then Some(LineText(m)) else None
  {
    if WellFormed(m) {
      JoinedIsText(m.args.value);
      hide Joined, ArgsText;
      Associates(m.prefix, m.rawCommand, Joined(m.args.value));
    }
  }

  lemma SameStart(start: string, a: string, b: string)
    ensures start + a == start + b <==> a == b
  {
    assert (start + a)[|start|..] == a && (start + b)[|start|..] == b;
  }

  lemma LinesDiffer(a: Message, b: Message)
    requires WellFormed(a) && WellFormed(b) && a.prefix == b.prefix && a.rawCommand == b.rawCommand
    ensures LineText(a) == LineText(b) <==> ArgsText(a.args.value) == ArgsText(b.args.value)
  {
    hide ArgsText;
    SameStart(a.rawCommand, ArgsText(a.args.value), ArgsText(b.args.value));
    SameStart(a.prefix, a.rawCommand + ArgsText(a.args.value), b.rawCommand + ArgsText(b.args.value));
  }

  // A client has just claimed the line `a`, and another client receives `b` while the first one is
  // live. If both lines are the same text the second client is refused; if not, it gets the answer
  // that it would have got without `a`.
  lemma ClaimFoundIff(p: Processed, a: Event, b: Event)
    requires a.Receive? && b.Receive? && WellFormed(a.msg) && WellFormed(b.msg) && a.domain == b.domain
    requires Forwards(p, a) && a.nick != b.nick && a.nick != "" && a.nick in b.live
    ensures LineText(a.msg) == LineText(b.msg) ==> !Forwards(Step(p, a), b)
    ensures LineText(a.msg) != LineText(b.msg) ==> (Forwards(Step(p, a), b) <==> Forwards(p, b))
  {
    HashIsText(a.msg);
    HashIsText(b.msg);
    ClaimAt(p, a, b.domain, LineText(b.msg));
    hide LineText, HashOf, WellFormed;
  }

  // For lines with the same sender and command it is the arguments that decide, as one text.
  lemma SharedIffSameArgs(p: Processed, a: Event, b: Event)
    requires a.Receive? && b.Receive? && WellFormed(a.msg) && WellFormed(b.msg) && a.domain == b.domain
    requires a.msg.prefix == b.msg.prefix && a.msg.rawCommand == b.msg.rawCommand
    requires Forwards(p, a) && a.nick != b.nick && a.nick != "" && a.nick in b.live && Forwards(p, b)
    ensures Forwards(Step(p, a), b) <==> ArgsText(a.msg.args.value) != ArgsText(b.msg.args.value)
  {
    LinesDiffer(a.msg, b.msg);
    ClaimFoundIff(p, a, b);
  }

  function Run(p: Processed, es: seq<Event>): Processed
    decreases |es|
  {
    if es == [] then p else Run(Step(p, es[0]), es[1..])
  }

  predicate SameText(e: Event, domain: string, text: string) {
    e.Receive? && e.domain == domain && WellFormed(e.msg) && LineText(e.msg) == text
  }

  lemma {:induction false} NobodyClaims(p: Processed, es: seq<Event>, domain: string, text: string)
    requires GetClaimer(p, domain, text).None?
    requires forall i :: 0 <= i < |es| ==> !SameText(es[i], domain, text)
    ensures GetClaimer(Run(p, es), domain, text).None?
    decreases |es|
  {
    if es != [] {
      if es[0].Receive? { HashIsText(es[0].msg); }
      ClaimAt(p, es[0], domain, text);
      assert !SameText(es[0], domain, text);
      hide Step, SameText, Forwards;
      NobodyClaims(Step(p, es[0]), es[1..], domain, text);
    }
  }

  // Over every run: a well-formed line whose text is new on its server is forwarded by the client
  // that receives it, whoever has claimed other lines and whatever was cleaned.
  lemma NewLineForwarded(es: seq<Event>, e: Event)
    requires e.Receive? && WellFormed(e.msg)
    requires forall i :: 0 <= i < |es| ==> !SameText(es[i], e.domain, LineText(e.msg))
    ensures Forwards(Run(map[], es), e)
  {
    NobodyClaims(map[], es, e.domain, LineText(e.msg));
    HashIsText(e.msg);
  }

  // --- How long a claim is kept ---

  // The cleaner removes a claim if and only if it is older than ten minutes.
  lemma KeptTenMinutes(p: Processed, now: int, domain: string, hash: string)
    requires domain in p && hash in p[domain]
    ensures
      var ts := p[domain][hash].ts;
      var p' := Step(p, Clean(now));
      && (domain in p' && hash in p'[domain] <==> ts.None? || ts.value == 0 || now - ts.value <= 600_000)
      && (domain in p' && hash in p'[domain] ==> p'[domain][hash] == p[domain][hash])
  {
  }

  // All that happens does so from `start` on, and within ten minutes.
  predicate Within(es: seq<Event>, start: int) {
    forall i :: 0 <= i < |es| ==> start <= es[i].now <= start + 600_000
  }

  lemma {:induction false} WithinUnpurged(p: Processed, es: seq<Event>, domain: string, hash: string, start: int)
    requires domain in p && hash in p[domain] && (p[domain][hash].ts.Some? ==> start <= p[domain][hash].ts.value)
    requires Within(es, start)
    ensures Unpurged(p, es, domain, hash)
    decreases |es|
  {
    if es != [] {
      ClaimAt(p, es[0], domain, hash);
      hide Step;
      WithinUnpurged(Step(p, es[0]), es[1..], domain, hash, start);
    }
  }

  // So copies that come within ten minutes of the first one are forwarded by one client only, as long
  // as that one has a connection.
  lemma OneForwarderForTenMinutes(p: Processed, first: Event, es: seq<Event>, domain: string, hash: string, nick: string)
    requires GetClaimer(p, domain, hash).None? && About(first, domain, hash)
    requires Within(es, first.now) && OwnerLive(es, domain, hash, first.nick)
    ensures
      var all := [first] + es;
      Forwarded(p, all, domain, hash, nick) == if nick == first.nick then Received(all, domain, hash, nick) else 0
  {
    ClaimAt(p, first, domain, hash);
    WithinUnpurged(Step(p, first), es, domain, hash, first.now);
    hide Step, Within;
    ExactlyOneForwarder(p, first, es, domain, hash, nick);
  }
}
