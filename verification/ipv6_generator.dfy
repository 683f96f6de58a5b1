// src/irc/Ipv6Generator.ts: a counter per network or homeserver, printed as an IPv6 suffix.

module Ipv6Generator {
  import opened Strings
  import opened Numerals

  // --- Numbers: doubles ---

  // All integers up to here are numbers.
  const PRECISE: nat := 0x20_0000_0000_0000

  // The distance between numbers of this size.
  function Unit(n: nat): (u: nat)
    ensures u > 0 && (n < PRECISE ==> u == 1) && (n >= PRECISE ==> u >= 2)
  {
    if n < PRECISE then 1 else 2 * Unit(n / 2)
  }

  // The number nearest to an integer; a tie goes to the even side.
  function Number(n: nat): nat {
    var u := Unit(n);
    var q, r := n / u, n % u;
    (q + if 2 * r > u || (2 * r == u && q % 2 == 1) then 1 else 0) * u
  }

  // The number that an address with this count has in a block.
  function Nth(start: nat, count: nat): nat {
    Number(start + count)
  }

  predicate IsNumber(n: nat) {
    n % Unit(n) == 0
  }

  // --- The suffix ---

  // A colon before every group of four digits, counted from the end.
  function Grouped(s: string): string {
    if |s| <= 4 then s else Grouped(s[..|s| - 4]) + ([':'] + s[|s| - 4..])
  }

  function WithoutColons(s: string): string {
    if s == "" then "" else (if s[0] == ':' then "" else [s[0]]) + WithoutColons(s[1..])
  }

  function Suffix(n: nat): string {
    Grouped(Print(n, 16))
  }

  predicate IsHex(c: char) {
    '0' <= c <= '9' || 'a' <= c <= 'f' || 'A' <= c <= 'F'
  }

  // The digits that parseInt reads: up to the first character that is none.
  function HexPrefix(s: string): (d: string)
    ensures forall k :: 0 <= k < |d| ==> IsDigit(d[k])
  {
    if s == "" || !IsHex(s[0]) then ""
    else [if 'A' <= s[0] <= 'F' then (s[0] as int + 32) as char else s[0]] + HexPrefix(s[1..])
  }

  function ParseHex(s: string): nat {
    Number(Read(HexPrefix(s), 16))
  }

  // --- The generator ---

  datatype Block = Block(homeserver: string, startFrom: string)

  // The networks by domain, with their blocks.
  type Config = map<string, seq<Block>>

  function BlockFor(blocks: seq<Block>, homeserver: string): Option<string> {
    if blocks == [] then None
    else if blocks[0].homeserver == homeserver then Some(blocks[0].startFrom)
    else BlockFor(blocks[1..], homeserver)
  }

  // An empty block is as good as none.
  predicate HasBlock(blocks: seq<Block>, homeserver: string) {
    BlockFor(blocks, homeserver).Some? && BlockFor(blocks, homeserver).value != ""
  }

  datatype User = User(userId: string, homeserver: string)

  // A counter in the database: of a network, or of one homeserver on it.
  datatype CounterKey = CounterKey(domain: string, homeserver: Option<string>)

  function CacheKey(key: CounterKey): string {
    match key.homeserver
    case None => key.domain
    case Some(h) => key.domain + ("/" + h)
  }

  function Homeserver(user: Option<User>): string {
    if user.Some? then user.value.homeserver else ""
  }

  // getCounterKey does not ask whether the homeserver is empty; isInBlock does.
  function GetCounterKey(blocks: seq<Block>, domain: string, user: Option<User>): CounterKey {
    if user.Some? && HasBlock(blocks, Homeserver(user)) then CounterKey(domain, Some(Homeserver(user)))
    else CounterKey(domain, None)
  }

  function StoreKey(blocks: seq<Block>, domain: string, user: Option<User>): CounterKey {
    if Homeserver(user) != "" && HasBlock(blocks, Homeserver(user)) then CounterKey(domain, Some(Homeserver(user)))
    else CounterKey(domain, None)
  }

  // The start of the block that a counter counts in.
  function StartOf(blocks: seq<Block>, key: CounterKey): nat {
    if key.homeserver.Some? && HasBlock(blocks, key.homeserver.value)
    then ParseHex(WithoutColons(BlockFor(blocks, key.homeserver.value).value)) else 0
  }

  datatype Issued = Issued(key: CounterKey, count: nat, prefix: string, address: string)

  datatype State = State(
    cache: map<string, nat>,
    counters: map<CounterKey, nat>,
    addresses: map<(string, string), string>,
    issued: seq<Issued>)

  function Stored(counters: map<CounterKey, nat>, key: CounterKey): nat {
    if key in counters then counters[key] else 0
  }

  datatype Request = Request(prefix: string, user: Option<User>, domain: string, configDomain: string)

  function CounterAfter(s: State, blocks: seq<Block>, q: Request): nat {
    var cacheKey := CacheKey(GetCounterKey(blocks, q.domain, q.user));
    1 + if cacheKey in s.cache then s.cache[cacheKey] else Stored(s.counters, StoreKey(blocks, q.domain, q.user))
  }

  function AddressFor(blocks: seq<Block>, q: Request, counter: nat): string {
    q.prefix + Suffix(Nth(StartOf(blocks, StoreKey(blocks, q.domain, q.user)), counter))
  }

  function Process(s: State, blocks: seq<Block>, q: Request): (State, string) {
    var key := StoreKey(blocks, q.domain, q.user);
    var counter := CounterAfter(s, blocks, q);
    var address := AddressFor(blocks, q, counter);
    (State(
       s.cache[CacheKey(GetCounterKey(blocks, q.domain, q.user)) := counter],
       s.counters[key := counter],
       if q.user.Some? then s.addresses[(q.configDomain, q.user.value.userId) := address] else s.addresses,
       s.issued + [Issued(key, counter, q.prefix, address)]),
     address)
  }

  class DataStore {
    var counters: map<CounterKey, nat>
    var addresses: map<(string, string), string>

    constructor ()
      ensures counters == map[] && addresses == map[]
    {
      counters, addresses := map[], map[];
    }
  }

  class Ipv6Generator {
    var counter: map<string, nat>
    const dataStore: DataStore
    ghost var issued: seq<Issued>

    ghost function Value(): State
      reads this, dataStore
    {
      State(counter, dataStore.counters, dataStore.addresses, issued)
    }

    constructor (dataStore: DataStore)
      ensures this.dataStore == dataStore
      ensures Value() == State(map[], dataStore.counters, dataStore.addresses, [])
    {
      this.dataStore := dataStore;
      counter, issued := map[], [];
    }

    method ProcessRequest(blocks: seq<Block>, q: Request) returns (address: string)
      modifies this, dataStore
      ensures (Value(), address) == Process(old(Value()), blocks, q)
    {
      hide Suffix, Number, ParseHex;
      var homeserver := Homeserver(q.user);
      var cacheKey := CacheKey(GetCounterKey(blocks, q.domain, q.user));
      var isInBlock := homeserver != "" && HasBlock(blocks, homeserver);
      var key := CounterKey(q.domain, if isInBlock then Some(homeserver) else None);
      if cacheKey !in counter {
        counter := counter[cacheKey := Stored(dataStore.counters, key)];
      }
      var next := counter[cacheKey] + 1;
      counter := counter[cacheKey := next];
      assert counter == old(counter)[cacheKey := next];
      var suffix := Number(next);
      if isInBlock {
        suffix := Number(next + ParseHex(WithoutColons(BlockFor(blocks, homeserver).value)));
      }
      address := q.prefix + Suffix(suffix);
      // the bot's address is not stored
      if q.user.Some? {
        dataStore.addresses := dataStore.addresses[(q.configDomain, q.user.value.userId) := address];
      }
      dataStore.counters := dataStore.counters[key := next];
      issued := issued + [Issued(key, next, q.prefix, address)];
    }
  }

  // --- The suffix can be read back ---

  lemma {:induction false} StripConcat(a: string, b: string)
    ensures WithoutColons(a + b) == WithoutColons(a) + WithoutColons(b)
  {
    if a == "" {
      assert a + b == b;
    } else {
      StripConcat(a[1..], b);
      assert (a + b)[0] == a[0] && (a + b)[1..] == a[1..] + b;
      Associates(if a[0] == ':' then "" else [a[0]], WithoutColons(a[1..]), WithoutColons(b));
    }
  }

  lemma {:induction false} StripNothing(s: string)
    requires ':' !in s
    ensures WithoutColons(s) == s
  {
    if s != "" { StripNothing(s[1..]); }
  }

  lemma {:induction false} GroupedStripped(s: string)
    requires ':' !in s
    ensures WithoutColons(Grouped(s)) == s
  {
    hide WithoutColons;
    if |s| <= 4 {
      StripNothing(s);
    } else {
      var n := |s| - 4;
      GroupedStripped(s[..n]);
      StripConcat(Grouped(s[..n]), [':'] + s[n..]);
      LastGroup(s[n..]);
      assert s == s[..n] + s[n..];
    }
  }

  lemma LastGroup(s: string)
    requires ':' !in s
    ensures WithoutColons([':'] + s) == s
  {
    assert ([':'] + s)[1..] == s;
    StripNothing(s);
  }

  // The groups between the colons.
  function Groups(s: string): (g: seq<string>)
    ensures |g| > 0
  {
    if s == "" then [""]
    else
      var rest := Groups(s[1..]);
      if s[0] == ':' then [""] + rest else [[s[0]] + rest[0]] + rest[1..]
  }

  lemma {:induction false} GroupsPush(s: string, group: string)
    requires ':' !in group
    ensures Groups(s + ([':'] + group)) == Groups(s) + [group]
  {
    var all := s + ([':'] + group);
    if s == "" {
      assert all == [':'] + group && all[1..] == group;
      OneGroup(group);
    } else {
      GroupsPush(s[1..], group);
      assert all[0] == s[0] && all[1..] == s[1..] + ([':'] + group);
      var rest := Groups(s[1..]);
      assert (rest + [group])[1..] == rest[1..] + [group];
    }
  }

  lemma {:induction false} OneGroup(s: string)
    requires ':' !in s
    ensures Groups(s) == [s]
  {
    if s != "" {
      OneGroup(s[1..]);
      assert [s[0]] + s[1..] == s;
    }
  }

  // Section 2.2 of RFC 4291: one to four hexadecimal digits in the first group, four in the others.
  lemma {:induction false} GroupsOfFour(s: string)
    requires s != "" && ':' !in s
    ensures
      var g := Groups(Grouped(s));
      1 <= |g[0]| <= 4 && forall i :: 0 < i < |g| ==> |g[i]| == 4
  {
    hide Groups;
    if |s| <= 4 {
      OneGroup(s);
    } else {
      var n := |s| - 4;
      GroupsOfFour(s[..n]);
      GroupsPush(Grouped(s[..n]), s[n..]);
    }
  }

  lemma PrintHasNoColon(n: nat)
    ensures ':' !in Print(n, 16)
  {
  }

  // Removing the colons and reading the hexadecimal number gives the number that was printed, and
  // the groups have the form of an IPv6 address.
  lemma SuffixReadBack(n: nat)
    ensures WithoutColons(Suffix(n)) == Print(n, 16) && Read(Print(n, 16), 16) == n
    ensures
      var g := Groups(Suffix(n));
      1 <= |g[0]| <= 4 && forall i :: 0 < i < |g| ==> |g[i]| == 4
  {
    hide WithoutColons, Grouped, Groups, Read, Print;
    PrintHasNoColon(n);
    GroupedStripped(Print(n, 16));
    GroupsOfFour(Print(n, 16));
    ReadPrint(n, 16);
  }

  // --- Where a block starts ---

  function CapitalHex(c: char): char {
    if 'a' <= c <= 'f' then (c as int - 32) as char else c
  }

  // The text with some of its letters as capitals.
  predicate SameDigits(s: string, digits: string) {
    |s| == |digits| && forall k :: 0 <= k < |s| ==> s[k] == digits[k] || s[k] == CapitalHex(digits[k])
  }

  lemma {:induction false} HexPrefixReads(s: string, digits: string, rest: string)
    requires SameDigits(s, digits) && (forall k :: 0 <= k < |digits| ==> IsDigit(digits[k]))
    requires rest != "" ==> !IsHex(rest[0])
    ensures HexPrefix(s + rest) == digits
  {
    if s == "" {
      assert s + rest == rest;
    } else {
      assert (s + rest)[0] == s[0] && (s + rest)[1..] == s[1..] + rest;
      HexPrefixReads(s[1..], digits[1..], rest);
      assert [digits[0]] + digits[1..] == digits;
    }
  }

  // A block given as a hexadecimal number starts at that number, as the runtime rounds it, be it in
  // capitals or not and whatever follows.
  lemma BlockStartsAt(n: nat, s: string, rest: string)
    requires SameDigits(s, Print(n, 16)) && (rest != "" ==> !IsHex(rest[0]))
    ensures ParseHex(s + rest) == Number(n) && (n <= PRECISE ==> ParseHex(s + rest) == n)
  {
    hide Print, HexPrefix, Number, Read, IsHex;
    HexPrefixReads(s, Print(n, 16), rest);
    ReadPrint(n, 16);
    if n <= PRECISE { PreciseIsNumber(n); }
  }

  lemma PreciseIsNumber(n: nat)
    requires n <= PRECISE
    ensures Number(n) == n
  {
    assert Unit(PRECISE) == 2 * Unit(PRECISE / 2);
  }

  // So it does with its colons.
  lemma GroupedBlockStartsAt(n: nat)
    ensures ParseHex(WithoutColons(Suffix(n))) == Number(n)
  {
    SuffixReadBack(n);
    assert Print(n, 16) + "" == Print(n, 16);
    hide Suffix, WithoutColons, Print, ParseHex;
    BlockStartsAt(n, Print(n, 16), "");
  }

  lemma SuffixInjective(m: nat, n: nat)
    requires Suffix(m) == Suffix(n)
    ensures m == n
  {
    hide Suffix, Groups, Read, Print, WithoutColons;
    SuffixReadBack(m);
    SuffixReadBack(n);
  }

  lemma SamePrefix(p: string, a: string, b: string)
    requires p + a == p + b
    ensures a == b
  {
    assert (p + a)[|p|..] == a && (p + b)[|p|..] == b;
  }

  // --- Which integers are numbers ---

  lemma PreciseNumber(n: nat)
    requires n <= PRECISE
    ensures Number(n) == n
  {
  }

  // A multiple of the unit plus less than a unit.
  lemma Offset(q: nat, u: nat, r: nat)
    requires r < u
    ensures (q * u + r) / u == q && (q * u + r) % u == r
  {
    var n := q * u + r;
    assert n == (n / u) * u + n % u;
    if n / u < q { Steps(n / u, q, u); }
    if q < n / u { Steps(q, n / u, u); }
  }

  lemma Steps(a: nat, b: nat, u: nat)
    requires a < b
    ensures a * u + u <= b * u
  {
    assert b * u == a * u + (b - a) * u;
    Times(1, b - a, u);
  }

  lemma HalfQuotient(n: nat, v: nat)
    requires v > 0
    ensures n / (2 * v) == (n / 2) / v
  {
    var h := n / 2;
    assert h == (h / v) * v + h % v;
    assert (h / v) * (2 * v) == 2 * ((h / v) * v);
    Offset(h / v, 2 * v, 2 * (h % v) + n % 2);
  }

  lemma {:induction false} QuotientRange(n: nat)
    requires n >= PRECISE
    ensures PRECISE / 2 <= n / Unit(n) < PRECISE
  {
    HalfQuotient(n, Unit(n / 2));
    if n / 2 >= PRECISE {
      QuotientRange(n / 2);
    }
  }

  lemma TwiceMultiple(x: nat, y: nat)
    requires y > 0 && x % y == 0
    ensures (2 * x) % (2 * y) == 0
  {
    assert x == (x / y) * y;
    assert 2 * x == (x / y) * (2 * y);
    Offset(x / y, 2 * y, 0);
  }

  lemma {:induction false} MultipleIsNumber(q: nat, n: nat)
    requires PRECISE / 2 <= q <= PRECISE
    ensures IsNumber(q * Unit(n))
  {
    if n < PRECISE {
      assert q * Unit(n) == q;
      if q == PRECISE { assert Unit(q / 2) == 1; }
    } else {
      var half := q * Unit(n / 2);
      MultipleIsNumber(q, n / 2);
      assert q * Unit(n) == 2 * half;
      Times(1, Unit(n / 2), q);
      assert Unit(2 * half) == 2 * Unit(half);
      TwiceMultiple(half, Unit(half));
    }
  }

  lemma NumberIsNumber(n: nat)
    ensures IsNumber(Number(n))
  {
    if n < PRECISE {
      PreciseNumber(n);
    } else {
      QuotientRange(n);
      var q, r, u := n / Unit(n), n % Unit(n), Unit(n);
      MultipleIsNumber(q + if 2 * r > u || (2 * r == u && q % 2 == 1) then 1 else 0, n);
    }
  }

  // Beyond the precise numbers, a block repeats an address within its first four.
  lemma RepeatsAbove(start: nat) returns (c: nat)
    requires start >= PRECISE && IsNumber(start)
    ensures 1 <= c <= 3 && Number(start + c) == Number(start + c + 1)
  {
    if start / 2 < PRECISE {
      c := RepeatsByTwo(start);
    } else if start / 4 < PRECISE {
      c := RepeatsByFour(start);
    } else {
      c := RepeatsByMore(start);
    }
  }

  lemma RoundsDown(n: nat, q: nat, u: nat, r: nat)
    requires u == Unit(n) && n == q * u + r && 2 * r < u
    ensures Number(n) == q * u
  {
    Offset(q, u, r);
  }

  lemma RoundsUp(n: nat, q: nat, u: nat, r: nat)
    requires u == Unit(n) && n == q * u + r && r < u && (2 * r > u || (2 * r == u && q % 2 == 1))
    ensures Number(n) == (q + 1) * u
  {
    Offset(q, u, r);
  }

  lemma UnitDoubles(n: nat)
    ensures Unit(n) == if n < PRECISE then 1 else 2 * Unit(n / 2)
  {
  }

  lemma UnitOfTwo(n: nat)
    requires n >= PRECISE && n / 2 < PRECISE
    ensures Unit(n) == 2
  {
  }

  lemma UnitOfFour(n: nat)
    requires n / 2 >= PRECISE && n / 4 < PRECISE
    ensures Unit(n) == 4
  {
  }

  lemma ExactMultiple(n: nat, u: nat)
    requires n % 4 == 0 && u == Unit(n) && (u == 2 || u == 4)
    ensures Number(n) == n
  {
  }

  // The number at the end of a range, or the first one of the next range.
  lemma ExactAtEnd(n: nat)
    requires n % 4 == 0 && n >= PRECISE && n / 4 <= PRECISE / 2
    ensures Number(n) == n
  {
    hide Unit, Number, IsNumber;
    if n / 2 < PRECISE {
      UnitOfTwo(n);
      ExactMultiple(n, 2);
    } else {
      UnitOfFour(n);
      ExactMultiple(n, 4);
    }
  }

  lemma ExactAtNextEnd(n: nat)
    requires n % 4 == 0 && n / 2 >= PRECISE && n / 4 <= PRECISE
    ensures Number(n) == n
  {
    hide Unit, Number, IsNumber;
    if n / 4 < PRECISE {
      UnitOfFour(n);
      ExactMultiple(n, 4);
    } else {
      UnitDoubles(n);
      UnitOfFour(n / 2);
      assert n == 4 * PRECISE;
      EightfoldExact(n);
    }
  }

  lemma EightfoldExact(n: nat)
    requires n == 4 * PRECISE && Unit(n) == 8
    ensures Number(n) == n
  {
  }

  lemma RepeatsByTwo(start: nat) returns (c: nat)
    requires PRECISE <= start && start / 2 < PRECISE && IsNumber(start)
    ensures 1 <= c <= 3 && Number(start + c) == Number(start + c + 1)
  {
    hide Number, Unit;
    UnitOfTwo(start);
    hide IsNumber;
    c := if start % 4 == 0 then 3 else 1;
    var next := start + c + 1;
    UnitOfTwo(start + c);
    RoundsUp(start + c, next / 2 - 1, 2, 1);
    ExactAtEnd(next);
  }

  lemma RepeatsByFour(start: nat) returns (c: nat)
    requires start / 2 >= PRECISE && start / 4 < PRECISE && IsNumber(start)
    ensures 1 <= c <= 3 && Number(start + c) == Number(start + c + 1)
  {
    hide Number, Unit;
    UnitOfFour(start);
    hide IsNumber;
    c := 3;
    UnitOfFour(start + 3);
    RoundsUp(start + 3, start / 4, 4, 3);
    ExactAtNextEnd(start + 4);
  }

  lemma UnitsByMore(start: nat)
    requires start / 4 >= PRECISE && IsNumber(start)
    ensures Unit(start) >= 8 && Unit(start + 1) == Unit(start) == Unit(start + 2)
  {
    hide Number, Unit;
    UnitDoubles(start);
    UnitDoubles(start / 2);
    UnitDoubles(start / 4);
    var v := Unit(start / 4 / 2);
    assert Unit(start) == 8 * v;
    hide IsNumber;
    MultipleOfEight(start, v);
    UnitDoubles(start + 1);
    UnitDoubles(start + 2);
    UnitDoubles(start / 2 + 1);
  }

  lemma MultipleOfEight(n: nat, v: nat)
    requires Unit(n) == 8 * v && IsNumber(n)
    ensures n % 8 == 0
  {
    hide Unit;
    var q := n / (8 * v);
    assert n == q * (8 * v) == 8 * (q * v);
  }

  lemma RepeatsByMore(start: nat) returns (c: nat)
    requires start / 4 >= PRECISE && IsNumber(start)
    ensures 1 <= c <= 3 && Number(start + c) == Number(start + c + 1)
  {
    hide Number;
    UnitsByMore(start);
    var u := Unit(start);
    var q := start / u;
    assert start == q * u + start % u;
    hide Unit;
    RoundsDown(start + 1, q, u, 1);
    RoundsDown(start + 2, q, u, 2);
    c := 1;
  }

  // The first n numbers of a block (at least four of them) are distinct exactly when the last one
  // is precise.
  lemma DistinctIffPrecise(start: nat, n: nat)
    requires IsNumber(start) && n >= 4
    ensures (forall i: nat, j: nat :: 1 <= i < j <= n ==> Nth(start, i) != Nth(start, j)) <==> start + n <= PRECISE
  {
    if start + n <= PRECISE {
      forall i: nat | 1 <= i <= n
        ensures Nth(start, i) == start + i
      {
        PreciseNumber(start + i);
      }
    } else {
      var c: nat;
      if start >= PRECISE {
        c := RepeatsAbove(start);
      } else {
        c := PRECISE - start;
        PreciseNumber(PRECISE);
        assert Unit(PRECISE + 1) == 2 * Unit(PRECISE / 2) == 2;
        assert Number(PRECISE + 1) == PRECISE;
      }
      assert Nth(start, c) == Nth(start, c + 1);
    }
  }

  // So it is for the block of a counter.
  lemma BlockDistinctIffPrecise(blocks: seq<Block>, key: CounterKey, n: nat)
    requires n >= 4
    ensures
      var start := StartOf(blocks, key);
      (forall i: nat, j: nat :: 1 <= i < j <= n ==> Nth(start, i) != Nth(start, j)) <==> start + n <= PRECISE
  {
    hide Nth, Number, Unit;
    assert IsNumber(StartOf(blocks, key)) by {
      assert IsNumber(0) by { Smallest(); }
      if key.homeserver.Some? && HasBlock(blocks, key.homeserver.value) {
        NumberIsNumber(Read(HexPrefix(WithoutColons(BlockFor(blocks, key.homeserver.value).value)), 16));
      }
    }
    hide IsNumber, StartOf;
    DistinctIffPrecise(StartOf(blocks, key), n);
  }

  lemma Smallest()
    ensures IsNumber(0)
  {
  }

  // --- Runs ---

  datatype Event = ERequest(q: Request) | ERestart

  // A restart loses the cached counters.
  function Step(s: State, config: Config, e: Event): State {
    match e
    case ERequest(q) => if q.domain in config then Process(s, config[q.domain], q).0 else s
    case ERestart => s.(cache := map[])
  }

  function Run(s: State, config: Config, es: seq<Event>): State
    decreases |es|
  {
    if es == [] then s else Run(Step(s, config, es[0]), config, es[1..])
  }

  predicate ValidKey(key: CounterKey) {
    '/' !in key.domain
  }

  // Users have a homeserver, and the domain of a network has no slash.
  predicate ValidRequest(e: Event) {
    e.ERequest? ==> '/' !in e.q.domain && (e.q.user.Some? ==> e.q.user.value.homeserver != "")
  }

  // What is cached is what is stored.
  ghost predicate InSync(s: State) {
    forall key: CounterKey :: ValidKey(key) && CacheKey(key) in s.cache ==> s.cache[CacheKey(key)] == Stored(s.counters, key)
  }

  // No count is issued twice for a counter.
  ghost predicate CountedUp(s: State) {
    && (forall i :: 0 <= i < |s.issued| ==> s.issued[i].count <= Stored(s.counters, s.issued[i].key))
    && (forall i, j :: 0 <= i < j < |s.issued| && s.issued[i].key == s.issued[j].key ==> s.issued[i].count < s.issued[j].count)
  }

  ghost predicate Addressed(s: State, config: Config) {
    forall i :: 0 <= i < |s.issued| ==> IsAddressed(s.issued[i], config)
  }

  predicate IsAddressed(x: Issued, config: Config) {
    && x.key.domain in config
    && x.address == x.prefix + Suffix(Nth(StartOf(config[x.key.domain], x.key), x.count))
  }

  lemma CacheKeyInjective(a: CounterKey, b: CounterKey)
    requires ValidKey(a) && ValidKey(b) && CacheKey(a) == CacheKey(b)
    ensures a == b
  {
    FirstSlash(a);
    FirstSlash(b);
    if a.homeserver.Some? && b.homeserver.Some? {
      assert CacheKey(a)[|a.domain| + 1..] == a.homeserver.value;
      assert CacheKey(b)[|b.domain| + 1..] == b.homeserver.value;
    }
  }

  // The counter of a whole network is told apart from all others if and only if its domain has no slash.
  lemma NetworkKeyUniqueIff(domain: string)
    ensures (forall key :: CacheKey(key) == CacheKey(CounterKey(domain, None)) ==> key == CounterKey(domain, None))
       <==> '/' !in domain
  {
    if '/' in domain {
      var i :| 0 <= i < |domain| && domain[i] == '/';
      var key := CounterKey(domain[..i], Some(domain[i + 1..]));
      assert CacheKey(key) == CacheKey(CounterKey(domain, None));
    } else {
      forall key | CacheKey(key) == CacheKey(CounterKey(domain, None))
        ensures key == CounterKey(domain, None)
      {
        SlashInKey(key);
      }
    }
  }

  lemma SlashInKey(key: CounterKey)
    ensures key.homeserver.Some? ==> '/' in CacheKey(key)
  {
    if key.homeserver.Some? { assert CacheKey(key)[|key.domain|] == '/'; }
  }

  // What is at stake: two counters with one cache entry. After a restart, a request for the counter that
  // is behind fills the entry, and the other counter goes back to counts it has issued before.
  lemma SharedEntryRepeats(s: State, blocksA: seq<Block>, a: Request, blocksB: seq<Block>, b: Request)
    requires CacheKey(GetCounterKey(blocksA, a.domain, a.user)) == CacheKey(GetCounterKey(blocksB, b.domain, b.user))
    requires StoreKey(blocksA, a.domain, a.user) != StoreKey(blocksB, b.domain, b.user)
    requires s.cache == map[]
    ensures
      var count := Stored(s.counters, StoreKey(blocksB, b.domain, b.user));
      CounterAfter(Process(s, blocksB, b).0, blocksA, a) == count + 2
  {
    hide GetCounterKey, StoreKey, AddressFor, CacheKey;
  }

  function SlashIn(s: string): nat {
    if s == "" || s[0] == '/' then 0 else 1 + SlashIn(s[1..])
  }

  lemma {:induction false} SlashBehind(d: string, rest: string)
    requires '/' !in d && (rest != "" ==> rest[0] == '/')
    ensures SlashIn(d + rest) == |d|
  {
    if d == "" {
      assert d + rest == rest;
    } else {
      SlashBehind(d[1..], rest);
      assert (d + rest)[0] == d[0] && (d + rest)[1..] == d[1..] + rest;
    }
  }

  lemma FirstSlash(key: CounterKey)
    requires ValidKey(key)
    ensures SlashIn(CacheKey(key)) == |key.domain| && CacheKey(key)[..|key.domain|] == key.domain
    ensures |CacheKey(key)| == |key.domain| <==> key.homeserver.None?
  {
    SlashBehind(key.domain, if key.homeserver.Some? then "/" + key.homeserver.value else "");
    assert key.domain + "" == key.domain;
  }

  lemma SameKeys(blocks: seq<Block>, q: Request)
    requires ValidRequest(ERequest(q))
    ensures GetCounterKey(blocks, q.domain, q.user) == StoreKey(blocks, q.domain, q.user)
    ensures ValidKey(StoreKey(blocks, q.domain, q.user))
  {
  }

  lemma StepInSync(s: State, config: Config, e: Event)
    requires InSync(s) && ValidRequest(e)
    ensures InSync(Step(s, config, e))
  {
    if e.ERequest? && e.q.domain in config {
      var key := StoreKey(config[e.q.domain], e.q.domain, e.q.user);
      SameKeys(config[e.q.domain], e.q);
      hide StoreKey, GetCounterKey, AddressFor, ValidRequest;
      var s' := Step(s, config, e);
      forall k | ValidKey(k) && CacheKey(k) in s'.cache
        ensures s'.cache[CacheKey(k)] == Stored(s'.counters, k)
      {
        if CacheKey(k) == CacheKey(key) { CacheKeyInjective(k, key); }
      }
    }
  }

  // The next count is one more than the stored one, cached or not.
  lemma NextCount(s: State, blocks: seq<Block>, q: Request)
    requires InSync(s) && ValidRequest(ERequest(q))
    ensures CounterAfter(s, blocks, q) == Stored(s.counters, StoreKey(blocks, q.domain, q.user)) + 1
  {
  }

  lemma StepCountedUp(s: State, config: Config, e: Event)
    requires InSync(s) && CountedUp(s) && ValidRequest(e)
    ensures CountedUp(Step(s, config, e))
  {
    if e.ERequest? && e.q.domain in config {
      NextCount(s, config[e.q.domain], e.q);
      hide StoreKey, GetCounterKey, AddressFor, ValidRequest, InSync, CacheKey, CounterAfter;
    }
  }

  lemma StepAddressed(s: State, config: Config, e: Event)
    requires Addressed(s, config)
    ensures Addressed(Step(s, config, e), config)
  {
  }

  lemma {:induction false} RunKeeps(s: State, config: Config, es: seq<Event>)
    requires InSync(s) && CountedUp(s) && Addressed(s, config)
    requires forall i :: 0 <= i < |es| ==> ValidRequest(es[i])
    ensures
      var s' := Run(s, config, es);
      InSync(s') && CountedUp(s') && Addressed(s', config)
    decreases |es|
  {
    hide InSync, CountedUp, Addressed, Step, ValidRequest;
    if es != [] {
      StepInSync(s, config, es[0]);
      StepCountedUp(s, config, es[0]);
      StepAddressed(s, config, es[0]);
      RunKeeps(Step(s, config, es[0]), config, es[1..]);
    }
  }

  // From any stored counters, over any requests and restarts: two addresses of one counter and
  // prefix differ, as long as the later one is a precise number.
  lemma AddressesDiffer(counters: map<CounterKey, nat>, config: Config, es: seq<Event>, i: nat, j: nat)
    requires forall k :: 0 <= k < |es| ==> ValidRequest(es[k])
    requires
      var issued := Run(State(map[], counters, map[], []), config, es).issued;
      && i < j < |issued| && issued[i].key == issued[j].key && issued[i].prefix == issued[j].prefix
      && issued[j].key.domain in config
      && issued[j].count + StartOf(config[issued[j].key.domain], issued[j].key) <= PRECISE
    ensures
      var issued := Run(State(map[], counters, map[], []), config, es).issued;
      issued[i].address != issued[j].address
  {
    var s := State(map[], counters, map[], []);
    RunKeeps(s, config, es);
    hide Run, ValidRequest, InSync, IsAddressed;
    var a, b := Run(s, config, es).issued[i], Run(s, config, es).issued[j];
    assert IsAddressed(a, config) && IsAddressed(b, config) && a.count < b.count;
    TwoAddressesDiffer(config, a, b);
  }

  lemma TwoAddressesDiffer(config: Config, a: Issued, b: Issued)
    requires IsAddressed(a, config) && IsAddressed(b, config) && a.count < b.count
    requires a.key == b.key && a.prefix == b.prefix
    requires b.count + StartOf(config[b.key.domain], b.key) <= PRECISE
    ensures a.address != b.address
  {
    hide StartOf, Suffix, Number;
    var start := StartOf(config[b.key.domain], b.key);
    PreciseNumber(start + a.count);
    PreciseNumber(start + b.count);
    if a.address == b.address {
      SamePrefix(a.prefix, Suffix(start + a.count), Suffix(start + b.count));
      SuffixInjective(start + a.count, start + b.count);
    }
  }

  // The cache equals the database after every request of such a run.
  lemma CacheIsStored(counters: map<CounterKey, nat>, config: Config, es: seq<Event>)
    requires forall k :: 0 <= k < |es| ==> ValidRequest(es[k])
    ensures InSync(Run(State(map[], counters, map[], []), config, es))
  {
    RunKeeps(State(map[], counters, map[], []), config, es);
  }

  // --- What a user is given ---

  // The entries of a block list for one homeserver.
  lemma {:induction false} FirstBlock(before: seq<Block>, block: Block, after: seq<Block>)
    requires forall i :: 0 <= i < |before| ==> before[i].homeserver != block.homeserver
    ensures BlockFor(before + ([block] + after), block.homeserver) == Some(block.startFrom)
  {
    var blocks := before + ([block] + after);
    if before != [] {
      assert blocks[0] == before[0] && blocks[1..] == before[1..] + ([block] + after);
      FirstBlock(before[1..], block, after);
    } else {
      assert blocks[0] == block;
    }
  }

  // A user whose homeserver has a block that starts at n gets the address whose suffix reads as
  // n + count, where count is the next one of that homeserver on the network.
  lemma AddressInBlock(s: State, before: seq<Block>, block: Block, after: seq<Block>, q: Request, n: nat)
    requires InSync(s) && ValidRequest(ERequest(q))
    requires q.user.Some? && q.user.value.homeserver == block.homeserver != ""
    requires forall i :: 0 <= i < |before| ==> before[i].homeserver != block.homeserver
    requires block.startFrom == Suffix(n) && n <= PRECISE
    ensures
      var count := Stored(s.counters, CounterKey(q.domain, Some(block.homeserver))) + 1;
      var address := Process(s, before + ([block] + after), q).1;
      ReadsAs(address, q.prefix, Number(n + count))
  {
    hide InSync, ValidRequest, ReadsAs, Number, StoreKey, StartOf, Process, Stored, Suffix, BlockFor;
    FirstBlock(before, block, after);
    InThisBlock(s, before + ([block] + after), block, q, n);
  }

  lemma InThisBlock(s: State, blocks: seq<Block>, block: Block, q: Request, n: nat)
    requires InSync(s) && ValidRequest(ERequest(q))
    requires q.user.Some? && q.user.value.homeserver == block.homeserver != ""
    requires BlockFor(blocks, block.homeserver) == Some(block.startFrom) && block.startFrom == Suffix(n) && n <= PRECISE
    ensures
      var count := Stored(s.counters, CounterKey(q.domain, Some(block.homeserver))) + 1;
      ReadsAs(Process(s, blocks, q).1, q.prefix, Number(n + count))
  {
    hide InSync, ValidRequest, ReadsAs, Number, StoreKey, StartOf, Process, Stored, Suffix, BlockFor;
    BlockKey(blocks, block, q, n);
    AddressIs(s, blocks, q);
  }

  lemma BlockKey(blocks: seq<Block>, block: Block, q: Request, n: nat)
    requires q.user.Some? && q.user.value.homeserver == block.homeserver != ""
    requires BlockFor(blocks, block.homeserver) == Some(block.startFrom) && block.startFrom == Suffix(n) && n <= PRECISE
    ensures
      var key := CounterKey(q.domain, Some(block.homeserver));
      StoreKey(blocks, q.domain, q.user) == key && StartOf(blocks, key) == n
  {
    SuffixNotEmpty(n);
    GroupedBlockStartsAt(n);
    PreciseIsNumber(n);
    hide BlockFor, Suffix, WithoutColons, Number, ParseHex;
  }

  // Everyone else gets the suffix that reads as the next count of the network.
  lemma AddressOutsideBlocks(s: State, blocks: seq<Block>, q: Request)
    requires InSync(s) && ValidRequest(ERequest(q))
    requires q.user.Some? ==> forall i :: 0 <= i < |blocks| ==> blocks[i].homeserver != q.user.value.homeserver
    ensures
      var count := Stored(s.counters, CounterKey(q.domain, None)) + 1;
      var address := Process(s, blocks, q).1;
      ReadsAs(address, q.prefix, Number(count))
  {
    hide InSync, ValidRequest, ReadsAs, Number, StoreKey, StartOf, Process, Stored, BlockFor;
    NetworkKey(blocks, q);
    AddressIs(s, blocks, q);
  }

  lemma NetworkKey(blocks: seq<Block>, q: Request)
    requires q.user.Some? ==> forall i :: 0 <= i < |blocks| ==> blocks[i].homeserver != q.user.value.homeserver
    ensures
      var key := CounterKey(q.domain, None);
      StoreKey(blocks, q.domain, q.user) == key && StartOf(blocks, key) == 0
  {
    if q.user.Some? { NoBlock(blocks, q.user.value.homeserver); }
    hide BlockFor, ParseHex, WithoutColons;
  }

  lemma {:induction false} NoBlock(blocks: seq<Block>, homeserver: string)
    requires forall i :: 0 <= i < |blocks| ==> blocks[i].homeserver != homeserver
    ensures BlockFor(blocks, homeserver).None?
  {
    if blocks != [] { NoBlock(blocks[1..], homeserver); }
  }

  // An address with this prefix, and a suffix that reads as the number.
  predicate ReadsAs(address: string, prefix: string, number: nat) {
    && |address| >= |prefix| && address[..|prefix|] == prefix
    && var suffix := WithoutColons(address[|prefix|..]);
       (forall k :: 0 <= k < |suffix| ==> IsDigit(suffix[k])) && Read(suffix, 16) == number
  }

  lemma AddressReads(prefix: string, number: nat)
    ensures ReadsAs(prefix + Suffix(number), prefix, number)
  {
    SuffixReadBack(number);
    hide Suffix, WithoutColons, Print, Read;
    assert (prefix + Suffix(number))[|prefix|..] == Suffix(number);
  }

  lemma AddressIs(s: State, blocks: seq<Block>, q: Request)
    requires InSync(s) && ValidRequest(ERequest(q))
    ensures
      var key := StoreKey(blocks, q.domain, q.user);
      ReadsAs(Process(s, blocks, q).1, q.prefix, Number(StartOf(blocks, key) + (Stored(s.counters, key) + 1)))
  {
    hide InSync, ValidRequest, ReadsAs, Number, StoreKey, StartOf, Suffix;
    NextCount(s, blocks, q);
    var key := StoreKey(blocks, q.domain, q.user);
    AddressReads(q.prefix, Number(StartOf(blocks, key) + (Stored(s.counters, key) + 1)));
  }

  lemma SuffixNotEmpty(n: nat)
    ensures Suffix(n) != ""
  {
  }

  // A request stores the count it used and, for a real user, the address it answers; and nothing else.
  lemma RequestStores(s: State, blocks: seq<Block>, q: Request)
    ensures
      var (s', address) := Process(s, blocks, q);
      && s'.counters == s.counters[StoreKey(blocks, q.domain, q.user) := CounterAfter(s, blocks, q)]
      && (forall at :: at in s'.addresses <==> at in s.addresses || (q.user.Some? && at == (q.configDomain, q.user.value.userId)))
      && (forall at :: at in s'.addresses ==>
                         s'.addresses[at] == if q.user.Some? && at == (q.configDomain, q.user.value.userId) then address
                                             else s.addresses[at])
  {
    hide StoreKey, GetCounterKey, CounterAfter, AddressFor;
  }
}
