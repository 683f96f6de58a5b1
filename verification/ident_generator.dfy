// src/irc/IdentGenerator.ts: idents that are distinct on a domain.

module IdentGenerator {
  import opened Strings
  import opened Numerals
  import Q = Queue

  const MAX_USER_NAME_LENGTH := 10
  const MAX_USER_NAME_SUFFIX := 9999
  const USER_NAME_DELIMITER := '_'

  // The username stored for a user on a domain.
  datatype Key = Key(domain: string, userId: string)
  type Store = map<Key, string>

  // toLowerCase. Of the characters outside ASCII only the Kelvin sign and the dotted capital I turn
  // into ASCII ones; all others stay outside, and are dropped next.
  function LowerChar(c: char): string {
    if 'A' <= c <= 'Z' then [(c as int + 32) as char]
    else if c == '\U{212A}' then "k"
    else if c == '\U{0130}' then ['i', '\U{0307}']
    else [c]
  }

  function Lower(s: string): string {
    if s == "" then "" else LowerChar(s[0]) + Lower(s[1..])
  }

  predicate IsLetter(c: char) {
    'A' <= c <= 'Z' || 'a' <= c <= 'z'
  }

  predicate IsLegal(c: char) {
    IsLetter(c) || '0' <= c <= '9' || c in "][^\\{}-`"
  }

  function Legal(s: string): (r: string)
    ensures forall k :: 0 <= k < |r| ==> IsLegal(r[k])
  {
    if s == "" then "" else (if IsLegal(s[0]) then [s[0]] else "") + Legal(s[1..])
  }

  // Only legal characters, hence no delimiter, and a letter first.
  function Sanitised(username: string): (r: string)
    ensures USER_NAME_DELIMITER !in r
    ensures r != "" ==> IsLetter(r[0])
  {
    var legal := Legal(Lower(username));
    if legal != "" && !IsLetter(legal[0]) then "M" + legal else legal
  }

  // substring(0, end)
  function Take(s: string, end: int): (r: string)
    ensures |r| == if end < 0 then 0 else if end < |s| then end else |s|
    ensures forall c :: c in r ==> c in s
  {
    if end < 0 then "" else if end < |s| then s[..end] else s
  }

  // substring(1)
  function DropFirst(s: string): string {
    if s == "" then "" else s[1..]
  }

  function SuffixText(suffix: nat): (t: string)
    ensures |t| > 1
  {
    [USER_NAME_DELIMITER] + Print(suffix, 10)
  }

  // modifyUsername
  function Modified(uname: string, suffix: nat): (bool, string) {
    var text := SuffixText(suffix);
    (suffix <= MAX_USER_NAME_SUFFIX, Take(uname, MAX_USER_NAME_LENGTH - |text|) + text)
  }

  // getSuffixForUsername: `count` is what the store answers for a prefix, None when the query fails.
  function SuffixFor(username: string, count: string -> Option<nat>, suffixLength: nat): (r: Option<nat>)
    ensures r.Some? ==> r.value < MAX_USER_NAME_SUFFIX
    decreases 5 - suffixLength
  {
    assert Power(10, 0) == 1 && Power(10, 1) == 10 && Power(10, 2) == 100 && Power(10, 3) == 1000 && Power(10, 4) == 10000;
    if suffixLength > 4 then None
    else
      var countForPrefix := count(Take(username, |username| - 1 - suffixLength));
      if countForPrefix.None? || countForPrefix.value < Power(10, suffixLength) - 1 then countForPrefix
      else SuffixFor(username, count, suffixLength + 1)
  }

  // The names tried in one call: the name itself, then the suffixes from `start` on.
  function Candidate(uname: string, start: nat, k: nat): string {
    if k == 0 then uname else Modified(uname, start + k - 1).1
  }

  predicate Permitted(start: nat, k: nat) {
    k == 0 || start + k - 1 <= MAX_USER_NAME_SUFFIX
  }

  ghost predicate HeldBy(store: Store, domain: string, userId: string, uname: string) {
    Key(domain, userId) in store && store[Key(domain, userId)] == uname
  }

  ghost predicate HeldByOther(store: Store, domain: string, userId: string, uname: string) {
    exists u: string :: u != userId && HeldBy(store, domain, u, uname)
  }

  ghost predicate HeldByNobody(store: Store, domain: string, uname: string) {
    forall u: string :: !HeldBy(store, domain, u, uname)
  }

  ghost predicate IsFirstFree(store: Store, domain: string, userId: string, base: string, start: nat, uname: string, k: nat) {
    && uname == Candidate(base, start, k) && Permitted(start, k)
    && (HeldByNobody(store, domain, uname) || HeldBy(store, domain, userId, uname))
    && forall j :: 0 <= j < k ==> HeldByOther(store, domain, userId, Candidate(base, start, j))
  }

  ghost predicate AllHeld(store: Store, domain: string, userId: string, base: string, start: nat) {
    forall k: nat :: Permitted(start, k) ==> HeldByOther(store, domain, userId, Candidate(base, start, k))
  }

  // What generateIdentUsername may answer: a short name as it is, else the first candidate that no
  // other user holds, or an error when there is none left.
  ghost predicate Generated(store: Store, domain: string, userId: string, count: string -> Option<nat>, r: Result<string>) {
    var name := Sanitised(DropFirst(userId));
    if |name| < MAX_USER_NAME_LENGTH then r == Ok(name)
    else
      var base := name[..MAX_USER_NAME_LENGTH];
      match SuffixFor(base, count, 1)
      case None => r.Err?
      case Some(start) =>
        if r.Ok? then exists k: nat :: IsFirstFree(store, domain, userId, base, start, r.value, k)
        else AllHeld(store, domain, userId, base, start)
  }

  // --- The classes ---

  class DataStore {
    var usernames: Store

    constructor ()
      ensures usernames == map[]
    {
      usernames := map[];
    }

    // Some user with this username, when there is one.
    method GetMatrixUserByUsername(domain: string, uname: string) returns (usr: Option<string>)
      ensures usr.None? ==> HeldByNobody(usernames, domain, uname)
      ensures usr.Some? ==> HeldBy(usernames, domain, usr.value, uname)
    {
      if exists key :: key in usernames && key.domain == domain && usernames[key] == uname {
        var key :| key in usernames && key.domain == domain && usernames[key] == uname;
        assert key == Key(domain, key.userId);
        usr := Some(key.userId);
      } else {
        usr := None;
      }
    }

    method StoreUsername(domain: string, userId: string, uname: string)
      modifies this
      ensures usernames == old(usernames)[Key(domain, userId) := uname]
    {
      usernames := usernames[Key(domain, userId) := uname];
    }
  }

  class IdentGenerator {
    const dataStore: DataStore

    constructor (dataStore: DataStore)
      ensures this.dataStore == dataStore
    {
      this.dataStore := dataStore;
    }

    method GetSuffixForUsername(username: string, count: string -> Option<nat>) returns (r: Option<nat>)
      ensures r == SuffixFor(username, count, 1)
    {
      var suffixLength := 1;
      while suffixLength <= 4
        invariant 1 <= suffixLength <= 5
        invariant SuffixFor(username, count, 1) == SuffixFor(username, count, suffixLength)
      {
        var prefix := Take(username, |username| - 1 - suffixLength);
        var countForPrefix := count(prefix);
        if countForPrefix.None? {
          return None;
        }
        if countForPrefix.value < Power(10, suffixLength) - 1 {
          return countForPrefix;
        }
        suffixLength := suffixLength + 1;
      }
      r := None;
    }

    method GenerateIdentUsername(domain: string, userId: string, count: string -> Option<nat>) returns (r: Result<string>)
      ensures Generated(dataStore.usernames, domain, userId, count, r)
    {
      hide SuffixFor, Sanitised, Candidate, Modified, HeldBy, HeldByOther, HeldByNobody, IsFirstFree, AllHeld;
      var uname := Sanitised(DropFirst(userId));
      if |uname| < MAX_USER_NAME_LENGTH {
        return Ok(uname);
      }
      uname := uname[..MAX_USER_NAME_LENGTH];
      var originalUname := uname;
      var start := GetSuffixForUsername(uname, count);
      if start.None? {
        return Err("Ran out of entries: " + uname);
      }
      var suffix := start.value;
      ghost var k: nat := 0;
      FirstCandidate(originalUname, start.value);
      while true
        invariant suffix == start.value + k <= MAX_USER_NAME_SUFFIX + 1
        invariant uname == Candidate(originalUname, start.value, k)
        invariant EarlierHeld(dataStore.usernames, domain, userId, originalUname, start.value, k)
        decreases MAX_USER_NAME_SUFFIX + 1 - suffix
      {
        var usr := dataStore.GetMatrixUserByUsername(domain, uname);
        if usr.Some? && usr.value != userId {
          NextCandidate(dataStore.usernames, domain, userId, usr.value, originalUname, start.value, k);
          var res := Modified(originalUname, suffix);
          uname := res.1;
          suffix := suffix + 1;
          k := k + 1;
          if !res.0 {
            NoneLeft(dataStore.usernames, domain, userId, originalUname, start.value, k);
            return Err("Ran out of entries: " + res.1);
          }
        } else {
          Found(dataStore.usernames, domain, userId, originalUname, start.value, uname, k);
          return Ok(uname);
        }
      }
    }

    // Handle one request of the queue.
    method Process(userId: string, domain: string, unique: bool, count: string -> Option<nat>) returns (r: Result<string>)
      modifies dataStore
      ensures Processed(old(dataStore.usernames), Request(domain, userId, unique, count), r, dataStore.usernames)
    {
      if unique {
        r := GenerateIdentUsername(domain, userId, count);
        if r.Err? {
          return;
        }
      } else {
        r := Ok(Take(Sanitised(DropFirst(userId)), MAX_USER_NAME_LENGTH));
      }
      // stored before the queue goes on to the next request
      dataStore.StoreUsername(domain, userId, r.value);
    }
  }

  ghost predicate EarlierHeld(store: Store, domain: string, userId: string, base: string, start: nat, k: nat) {
    forall j :: 0 <= j < k ==> HeldByOther(store, domain, userId, Candidate(base, start, j))
  }

  lemma FirstCandidate(base: string, start: nat)
    ensures Candidate(base, start, 0) == base
  {
  }

  lemma NextCandidate(store: Store, domain: string, userId: string, other: string, base: string, start: nat, k: nat)
    requires other != userId && HeldBy(store, domain, other, Candidate(base, start, k))
    requires EarlierHeld(store, domain, userId, base, start, k)
    ensures EarlierHeld(store, domain, userId, base, start, k + 1)
    ensures Modified(base, start + k) == (Permitted(start, k + 1), Candidate(base, start, k + 1))
  {
  }

  lemma NoneLeft(store: Store, domain: string, userId: string, base: string, start: nat, last: nat)
    requires !Permitted(start, last) && EarlierHeld(store, domain, userId, base, start, last)
    ensures AllHeld(store, domain, userId, base, start)
  {
  }

  lemma Found(store: Store, domain: string, userId: string, base: string, start: nat, uname: string, k: nat)
    requires uname == Candidate(base, start, k) && Permitted(start, k) && EarlierHeld(store, domain, userId, base, start, k)
    requires HeldByNobody(store, domain, uname) || HeldBy(store, domain, userId, uname)
    ensures IsFirstFree(store, domain, userId, base, start, uname, k)
  {
  }

  // --- What sanitising keeps ---

  predicate SmallLetter(c: char) {
    'a' <= c <= 'z'
  }

  predicate Kept(c: char) {
    SmallLetter(c) || '0' <= c <= '9' || c in "][^\\{}-`"
  }

  // What becomes of one character: capitals turn into small letters, and all that is not allowed in
  // an ident goes. (Two characters outside ASCII have an ASCII small letter.)
  function KeptOf(c: char): string {
    if 'A' <= c <= 'Z' then [(c as int + 32) as char]
    else if Kept(c) then [c]
    else if c == '\U{212A}' then "k"
    else if c == '\U{0130}' then "i"
    else ""
  }

  // What is kept of a text, in its order.
  function KeptText(s: string): string {
    if s == "" then "" else KeptText(s[..|s| - 1]) + KeptOf(s[|s| - 1])
  }

  // A letter is put in front unless one is there.
  function LetterFirst(s: string): string {
    if s != "" && !SmallLetter(s[0]) then "M" + s else s
  }

  lemma {:induction false} LowerConcat(a: string, b: string)
    ensures Lower(a + b) == Lower(a) + Lower(b)
  {
    if a == "" {
      assert a + b == b;
    } else {
      LowerConcat(a[1..], b);
      assert (a + b)[1..] == a[1..] + b && (a + b)[0] == a[0];
      hide LowerChar;
      Associates(LowerChar(a[0]), Lower(a[1..]), Lower(b));
    }
  }

  lemma {:induction false} LegalConcat(a: string, b: string)
    ensures Legal(a + b) == Legal(a) + Legal(b)
  {
    if a == "" {
      assert a + b == b;
    } else {
      LegalConcat(a[1..], b);
      assert (a + b)[1..] == a[1..] + b && (a + b)[0] == a[0];
      hide IsLegal;
      Associates(if IsLegal(a[0]) then [a[0]] else "", Legal(a[1..]), Legal(b));
    }
  }

  lemma LowerOne(c: char)
    ensures Lower([c]) == LowerChar(c)
  {
    assert [c][1..] == "";
  }

  lemma LegalOne(c: char)
    ensures Legal([c]) == if IsLegal(c) then [c] else ""
  {
    assert [c][1..] == "";
  }

  lemma LegalIsKept(c: char)
    ensures IsLegal(c) <==> Kept(c) || 'A' <= c <= 'Z'
    ensures IsLegal('k') && IsLegal('i') && !IsLegal('\U{0307}')
  {
  }

  lemma SmallIsKept(c: char)
    requires 'A' <= c <= 'Z'
    ensures IsLegal((c as int + 32) as char)
  {
  }

  lemma KeptIsLegal(c: char)
    ensures Legal(LowerChar(c)) == KeptOf(c)
  {
    LegalIsKept(c);
    if 'A' <= c <= 'Z' {
      SmallIsKept(c);
      hide IsLegal, Kept, Legal;
      LegalOne((c as int + 32) as char);
    } else {
      hide IsLegal, Kept, Legal;
      if c == '\U{0130}' {
        LegalConcat("i", "\U{0307}");
        LegalOne('i');
        LegalOne('\U{0307}');
        assert ['i', '\U{0307}'] == "i" + "\U{0307}";
        assert !Kept(c) by { SpecialNotKept(); }
      } else if c == '\U{212A}' {
        LegalOne('k');
        assert !Kept(c) by { SpecialNotKept(); }
      } else {
        LegalOne(c);
      }
    }
  }

  lemma SpecialNotKept()
    ensures !Kept('\U{0130}') && !Kept('\U{212A}')
  {
  }

  lemma {:induction false} KeptTextIs(s: string)
    ensures Legal(Lower(s)) == KeptText(s)
  {
    if s != "" {
      var n := |s| - 1;
      KeptTextIs(s[..n]);
      assert s == s[..n] + [s[n]];
      hide Legal, Lower, LowerChar, KeptOf;
      LowerConcat(s[..n], [s[n]]);
      LowerOne(s[n]);
      LegalConcat(Lower(s[..n]), LowerChar(s[n]));
      KeptIsLegal(s[n]);
    }
  }

  lemma KeptTextFirst(s: string)
    ensures KeptText(s) != "" ==> (IsLetter(KeptText(s)[0]) <==> SmallLetter(KeptText(s)[0]))
    ensures forall c :: c in KeptText(s) ==> Kept(c)
  {
  }

  // The sanitised form is what is kept of the text, with an M in front if that starts with no letter.
  lemma SanitisedKeeps(s: string)
    ensures Sanitised(s) == LetterFirst(KeptText(s))
  {
    KeptTextIs(s);
    KeptTextFirst(s);
    hide Legal, Lower, KeptText;
  }

  lemma {:induction false} KeptConcat(a: string, b: string)
    ensures KeptText(a + b) == KeptText(a) + KeptText(b)
  {
    if b == "" {
      assert a + b == a;
    } else {
      var n := |b| - 1;
      KeptConcat(a, b[..n]);
      assert (a + b)[..|a + b| - 1] == a + b[..n] && (a + b)[|a + b| - 1] == b[n];
      hide KeptOf;
      Associates(KeptText(a), KeptText(b[..n]), KeptOf(b[n]));
    }
  }

  lemma KeptBetween(a: string, c: char, b: string)
    ensures KeptText(a + ([c] + b)) == KeptText(a) + (KeptOf(c) + KeptText(b))
  {
    assert [c][..0] == "" && KeptText([c]) == KeptOf(c);
    hide KeptText, KeptOf;
    KeptConcat([c], b);
    KeptConcat(a, [c] + b);
  }

  // A text of small letters and other legal characters that starts with a letter is its own form.
  lemma SanitisedItself(s: string)
    requires forall i :: 0 <= i < |s| ==> Kept(s[i])
    requires s == "" || SmallLetter(s[0])
    ensures Sanitised(s) == s
  {
    SanitisedKeeps(s);
    KeptAll(s);
    hide Kept, KeptText;
  }

  lemma {:induction false} KeptAll(s: string)
    requires forall i :: 0 <= i < |s| ==> Kept(s[i])
    ensures KeptText(s) == s
  {
    if s != "" {
      hide Kept, KeptOf;
      var n := |s| - 1;
      KeptAll(s[..n]);
      KeptOne(s[n]);
      assert s == s[..n] + [s[n]];
    }
  }

  lemma KeptOne(c: char)
    requires Kept(c)
    ensures KeptOf(c) == [c]
  {
  }

  // An illegal character anywhere makes no difference, and a capital gives what its small letter gives.
  lemma IllegalDropped(a: string, c: char, b: string)
    requires !Kept(c) && !('A' <= c <= 'Z') && c != '\U{212A}' && c != '\U{0130}'
    ensures Sanitised(a + ([c] + b)) == Sanitised(a + b)
  {
    hide Sanitised, KeptText;
    SanitisedKeeps(a + ([c] + b));
    SanitisedKeeps(a + b);
    KeptBetween(a, c, b);
    KeptConcat(a, b);
    assert "" + KeptText(b) == KeptText(b);
  }

  lemma CapitalIsSmall(a: string, c: char, b: string)
    requires 'A' <= c <= 'Z'
    ensures Sanitised(a + ([c] + b)) == Sanitised(a + ([(c as int + 32) as char] + b))
  {
    var small := (c as int + 32) as char;
    assert KeptOf(c) == KeptOf(small);
    hide Sanitised, KeptText, KeptOf;
    SanitisedKeeps(a + ([c] + b));
    SanitisedKeeps(a + ([small] + b));
    KeptBetween(a, c, b);
    KeptBetween(a, small, b);
  }

  // The ident of a user: the first ten characters of what is kept of the id behind its sigil.
  function IdentOf(userId: string): string {
    var name := LetterFirst(KeptText(if userId == "" then "" else userId[1..]));
    if |name| <= 10 then name else name[..10]
  }

  // When nobody on the domain holds it, that is the answer; and it is always for shorter names.
  lemma FreshIdent(store: Store, domain: string, userId: string, count: string -> Option<nat>, r: Result<string>)
    requires Generated(store, domain, userId, count, r)
    requires |IdentOf(userId)| < 10 || (HeldByNobody(store, domain, IdentOf(userId)) && SuffixFor(IdentOf(userId), count, 1).Some?)
    ensures r == Ok(IdentOf(userId))
  {
    SanitisedKeeps(DropFirst(userId));
    hide Sanitised, KeptText, LetterFirst, SuffixFor, HeldByOther, HeldBy, Modified;
    var ident := IdentOf(userId);
    if |ident| == 10 {
      var start := SuffixFor(ident, count, 1).value;
      var name := LetterFirst(KeptText(DropFirst(userId)));
      assert name[..10] == ident;
      FreeFirst(store, domain, userId, ident, start);
      if r.Ok? {
        var k: nat :| IsFirstFree(store, domain, userId, ident, start, r.value, k);
        assert k == 0;
      }
    }
  }

  // The first candidate is the ident itself.
  lemma FreeFirst(store: Store, domain: string, userId: string, base: string, start: nat)
    requires HeldByNobody(store, domain, base)
    ensures !HeldByOther(store, domain, userId, Candidate(base, start, 0)) && Candidate(base, start, 0) == base
    ensures Permitted(start, 0)
  {
  }

  // On the path that asks for no unique name the ident is the answer in any case.
  lemma SharedIdent(store: Store, q: Request, r: Result<string>, store': Store)
    requires Processed(store, q, r, store') && !q.unique
    ensures r == Ok(IdentOf(q.userId)) && store' == store[Key(q.domain, q.userId) := IdentOf(q.userId)]
  {
    SanitisedKeeps(DropFirst(q.userId));
    hide Sanitised, KeptText, LetterFirst;
  }

  // The later candidates are the front of the name, the delimiter and a number.
  lemma CandidateForm(base: string, start: nat, k: nat)
    requires |base| == 10 && k > 0 && Permitted(start, k)
    ensures
      var number := Print(start + k - 1, 10);
      |number| <= 4 && Candidate(base, start, k) == base[..9 - |number|] + ("_" + number)
  {
    SuffixShort(start + k - 1);
    hide Print;
  }

  // --- The names tried in one call ---

  lemma SuffixShort(suffix: nat)
    requires suffix <= MAX_USER_NAME_SUFFIX
    ensures |SuffixText(suffix)| <= 5
  {
    assert Power(10, 1) == 10 && Power(10, 2) == 100 && Power(10, 3) == 1000 && Power(10, 4) == 10000;
    PrintLength(suffix, 10, 4);
  }

  lemma CandidateLength(base: string, start: nat, k: nat)
    requires |base| == MAX_USER_NAME_LENGTH && Permitted(start, k)
    ensures |Candidate(base, start, k)| == MAX_USER_NAME_LENGTH
  {
    if k > 0 { SuffixShort(start + k - 1); }
  }

  // The text behind the first delimiter.
  function Behind(s: string): Option<string> {
    if s == "" then None
    else if s[0] == USER_NAME_DELIMITER then Some(s[1..])
    else Behind(s[1..])
  }

  lemma {:induction false} BehindNone(s: string)
    requires USER_NAME_DELIMITER !in s
    ensures Behind(s) == None
  {
    if s != "" { BehindNone(s[1..]); }
  }

  lemma {:induction false} BehindText(s: string, x: string)
    requires USER_NAME_DELIMITER !in s
    ensures Behind(s + ([USER_NAME_DELIMITER] + x)) == Some(x)
  {
    var all := s + ([USER_NAME_DELIMITER] + x);
    if s == "" {
      assert all == [USER_NAME_DELIMITER] + x;
    } else {
      BehindText(s[1..], x);
      assert all[0] == s[0] && all[1..] == s[1..] + ([USER_NAME_DELIMITER] + x);
    }
  }

  lemma CandidateBehind(base: string, start: nat, k: nat)
    requires USER_NAME_DELIMITER !in base
    ensures Behind(Candidate(base, start, k)) == if k == 0 then None else Some(Print(start + k - 1, 10))
  {
    hide Behind, Print;
    if k == 0 {
      BehindNone(base);
    } else {
      var suffix := start + k - 1;
      BehindText(Take(base, MAX_USER_NAME_LENGTH - |SuffixText(suffix)|), Print(suffix, 10));
    }
  }

  // All names tried in one call differ.
  lemma CandidatesDiffer(base: string, start: nat, j: nat, k: nat)
    requires USER_NAME_DELIMITER !in base && j < k
    ensures Candidate(base, start, j) != Candidate(base, start, k)
  {
    hide Behind, Print, Candidate, Read;
    CandidateBehind(base, start, j);
    CandidateBehind(base, start, k);
    if j > 0 { ReadPrint(start + j - 1, 10); }
    ReadPrint(start + k - 1, 10);
  }

  // Whoever holds the first n candidates, they are n users.
  lemma {:induction false} Holders(store: Store, domain: string, userId: string, base: string, start: nat, n: nat)
    returns (keys: set<Key>)
    requires USER_NAME_DELIMITER !in base && EarlierHeld(store, domain, userId, base, start, n)
    ensures keys <= store.Keys && |keys| == n
    ensures forall key :: key in keys ==>
                            key.domain == domain && key.userId != userId
                            && exists j :: 0 <= j < n && store[key] == Candidate(base, start, j)
  {
    hide Candidate;
    if n == 0 {
      keys := {};
    } else {
      var before := Holders(store, domain, userId, base, start, n - 1);
      assert HeldByOther(store, domain, userId, Candidate(base, start, n - 1));
      var u: string :| u != userId && HeldBy(store, domain, u, Candidate(base, start, n - 1));
      var key := Key(domain, u);
      forall j | 0 <= j < n - 1
        ensures Candidate(base, start, j) != store[key]
      {
        CandidatesDiffer(base, start, j, n - 1);
      }
      keys := before + {key};
    }
  }

  // The candidates run out only when that many other users of the domain hold them.
  lemma RanOutNeedsUsers(store: Store, domain: string, userId: string, base: string, start: nat) returns (keys: set<Key>)
    requires USER_NAME_DELIMITER !in base && start <= MAX_USER_NAME_SUFFIX && AllHeld(store, domain, userId, base, start)
    ensures keys <= store.Keys && |keys| == 10001 - start
    ensures forall key :: key in keys ==> key.domain == domain && key.userId != userId
  {
    hide HeldByOther, Candidate;
    keys := Holders(store, domain, userId, base, start, MAX_USER_NAME_SUFFIX - start + 2);
  }

  // --- Any sequence of queued requests ---

  datatype Request = Request(domain: string, userId: string, unique: bool, count: string -> Option<nat>)

  ghost predicate Processed(store: Store, q: Request, r: Result<string>, store': Store) {
    && (if q.unique then Generated(store, q.domain, q.userId, q.count, r)
        else r == Ok(Take(Sanitised(DropFirst(q.userId)), MAX_USER_NAME_LENGTH)))
    && store' == if r.Ok? then store[Key(q.domain, q.userId) := r.value] else store
  }

  // The queue handles one request at a time, each on the store that the one before left.
  ghost predicate IsRun(store: Store, qs: seq<Request>, rs: seq<Result<string>>, last: Store)
    decreases |qs|
  {
    if qs == [] then rs == [] && last == store
    else
      rs != [] && exists store' :: Processed(store, qs[0], rs[0], store') && IsRun(store', qs[1..], rs[1..], last)
  }

  predicate IsLong(userId: string) {
    |Sanitised(DropFirst(userId))| >= MAX_USER_NAME_LENGTH
  }

  // Two users of one domain never share a name of full length.
  ghost predicate Distinct(store: Store) {
    forall d, u, v, name | |name| >= MAX_USER_NAME_LENGTH && HeldBy(store, d, u, name) && HeldBy(store, d, v, name) :: u == v
  }

  // Users with a long id have names of full length.
  ghost predicate FullLength(store: Store) {
    forall d, u, name | HeldBy(store, d, u, name) && IsLong(u) :: |name| == MAX_USER_NAME_LENGTH
  }

  lemma GeneratedName(store: Store, domain: string, userId: string, count: string -> Option<nat>, r: Result<string>)
    requires Generated(store, domain, userId, count, r) && r.Ok?
    ensures if IsLong(userId) then |r.value| == MAX_USER_NAME_LENGTH else |r.value| < MAX_USER_NAME_LENGTH
    ensures IsLong(userId) ==> HeldByNobody(store, domain, r.value) || HeldBy(store, domain, userId, r.value)
  {
    hide Candidate, HeldBy, HeldByOther, HeldByNobody, SuffixFor, Sanitised;
    if IsLong(userId) {
      var base := Sanitised(DropFirst(userId))[..MAX_USER_NAME_LENGTH];
      var start := SuffixFor(base, count, 1).value;
      var k: nat :| IsFirstFree(store, domain, userId, base, start, r.value, k);
      CandidateLength(base, start, k);
    }
  }

  lemma ProcessedKeeps(store: Store, q: Request, r: Result<string>, store': Store)
    requires Processed(store, q, r, store') && q.unique && Distinct(store) && FullLength(store)
    ensures Distinct(store') && FullLength(store')
  {
    if r.Ok? {
      hide Generated, HeldByOther, Sanitised;
      GeneratedName(store, q.domain, q.userId, q.count, r);
      hide IsLong;
      forall d, u, name
        ensures HeldBy(store', d, u, name) <==>
                if d == q.domain && u == q.userId then name == r.value else HeldBy(store, d, u, name)
      {
      }
      hide HeldBy;
    }
  }

  lemma {:induction false} RunKeeps(store: Store, qs: seq<Request>, rs: seq<Result<string>>, last: Store)
    requires IsRun(store, qs, rs, last) && (forall i :: 0 <= i < |qs| ==> qs[i].unique)
    requires Distinct(store) && FullLength(store)
    ensures Distinct(last) && FullLength(last)
    decreases |qs|
  {
    hide Distinct, FullLength, Processed;
    if qs != [] {
      var store' :| Processed(store, qs[0], rs[0], store') && IsRun(store', qs[1..], rs[1..], last);
      ProcessedKeeps(store, qs[0], rs[0], store');
      RunKeeps(store', qs[1..], rs[1..], last);
    }
  }

  // After any requests on the unique path, two users of one domain with long ids have different
  // names of exactly ten characters.
  lemma UniqueNames(qs: seq<Request>, rs: seq<Result<string>>, last: Store, domain: string, u: string, v: string)
    requires IsRun(map[], qs, rs, last) && (forall i :: 0 <= i < |qs| ==> qs[i].unique)
    requires u != v && IsLong(u) && IsLong(v) && Key(domain, u) in last && Key(domain, v) in last
    ensures last[Key(domain, u)] != last[Key(domain, v)]
    ensures |last[Key(domain, u)]| == |last[Key(domain, v)]| == MAX_USER_NAME_LENGTH
  {
    RunKeeps(map[], qs, rs, last);
    hide IsRun, IsLong;
    assert HeldBy(last, domain, u, last[Key(domain, u)]) && HeldBy(last, domain, v, last[Key(domain, v)]);
  }

  // On such a store the answer is determined: whatever user the store names for a taken name, the
  // result is the same, and it is an error exactly when every permitted candidate is taken.
  lemma GeneratedOnce(store: Store, domain: string, userId: string, count: string -> Option<nat>, r: Result<string>)
    requires Distinct(store) && Generated(store, domain, userId, count, r) && IsLong(userId)
    ensures
      var base := Sanitised(DropFirst(userId))[..MAX_USER_NAME_LENGTH];
      match SuffixFor(base, count, 1)
      case None => r.Err?
      case Some(start) => r.Err? <==> AllHeld(store, domain, userId, base, start)
    ensures forall r' :: Generated(store, domain, userId, count, r') && r.Ok? ==> r' == r
  {
    hide Candidate, HeldBy, HeldByNobody, SuffixFor, Sanitised;
    var base := Sanitised(DropFirst(userId))[..MAX_USER_NAME_LENGTH];
    if r.Ok? {
      var start := SuffixFor(base, count, 1).value;
      var k: nat :| IsFirstFree(store, domain, userId, base, start, r.value, k);
      NotHeldByOther(store, domain, userId, base, start, r.value, k);
      forall r' | Generated(store, domain, userId, count, r')
        ensures r' == r
      {
        assert r'.Ok?;
        var k': nat :| IsFirstFree(store, domain, userId, base, start, r'.value, k');
        NotHeldByOther(store, domain, userId, base, start, r'.value, k');
        assert k' == k;
      }
    }
  }

  lemma NotHeldByOther(store: Store, domain: string, userId: string, base: string, start: nat, uname: string, k: nat)
    requires Distinct(store) && |base| == MAX_USER_NAME_LENGTH && IsFirstFree(store, domain, userId, base, start, uname, k)
    ensures !HeldByOther(store, domain, userId, Candidate(base, start, k))
  {
  }

  // The queue tells requests apart by their user alone: a request that is made while an earlier one
  // waits is merged with it exactly when both are for the same user, be it for another domain.
  lemma MergedIffSameUser(s: Q.State<Request>, q: Request, q': Request)
    requires Q.IndexOfId(s.queue, q.userId) == |s.queue| == Q.IndexOfId(s.queue, q'.userId)
    ensures
      var (s1, promise) := Q.Enqueue(s, q.userId, q);
      var (s2, promise') := Q.Enqueue(s1, q'.userId, q');
      && (promise' == promise <==> q'.userId == q.userId)
      && (q'.userId == q.userId ==> s2 == s1)
  {
    var queue := s.queue + [Q.Item(q.userId, q, |s.accepted|)];
    assert forall k :: 0 <= k < |s.queue| ==> queue[k] == s.queue[k];
    assert queue[|s.queue|].id == q.userId;
  }

  // --- The first suffix ---

  // The suffix is the number of names with a prefix of the full name: the longest of the prefixes that
  // leave room for a delimiter and one to four digits, and that have numbers of so many digits left.
  lemma SuffixForIs(username: string, count: string -> Option<nat>, n: nat)
    requires |username| == 10
    ensures SuffixFor(username, count, 1) == Some(n) <==> exists digits :: IsFirstRoom(username, count, digits, n)
  {
    SuffixUnfold(username, count, 1);
    SuffixUnfold(username, count, 2);
    SuffixUnfold(username, count, 3);
    SuffixUnfold(username, count, 4);
    NoFifth(username, count);
    RoomIsNotFull(username, count);
    hide SuffixFor, HasRoom, IsFull;
    assert IsFirstRoom(username, count, 1, n) <==> HasRoom(username, count, 1) && count(username[..8]) == Some(n);
    assert IsFirstRoom(username, count, 2, n) ==> IsFull(username, count, 1);
    assert IsFirstRoom(username, count, 3, n) ==> IsFull(username, count, 1) && IsFull(username, count, 2);
    assert IsFirstRoom(username, count, 4, n) ==>
             IsFull(username, count, 1) && IsFull(username, count, 2) && IsFull(username, count, 3);
  }

  lemma RoomIsNotFull(username: string, count: string -> Option<nat>)
    requires |username| == 10
    ensures forall digits :: 1 <= digits <= 4 && HasRoom(username, count, digits) ==> !IsFull(username, count, digits)
  {
  }

  ghost predicate IsFirstRoom(username: string, count: string -> Option<nat>, digits: nat, n: nat)
    requires |username| == 10
  {
    && 1 <= digits <= 4 && HasRoom(username, count, digits) && count(username[..9 - digits]) == Some(n)
    && forall d :: 1 <= d < digits ==> IsFull(username, count, d)
  }

  predicate HasRoom(username: string, count: string -> Option<nat>, digits: nat)
    requires |username| == 10 && 1 <= digits <= 4
  {
    var c := count(username[..9 - digits]);
    c.Some? && c.value < (if digits == 1 then 9 else if digits == 2 then 99 else if digits == 3 then 999 else 9999)
  }

  // All numbers of so many digits may be taken.
  predicate IsFull(username: string, count: string -> Option<nat>, digits: nat)
    requires |username| == 10 && 1 <= digits <= 4
  {
    count(username[..9 - digits]).Some? && !HasRoom(username, count, digits)
  }

  lemma SuffixUnfold(username: string, count: string -> Option<nat>, digits: nat)
    requires |username| == 10 && 1 <= digits <= 4
    ensures
      SuffixFor(username, count, digits)
      == if HasRoom(username, count, digits) then count(username[..9 - digits])
         else if IsFull(username, count, digits) then SuffixFor(username, count, digits + 1)
         else None
  {
    assert Power(10, 1) == 10 && Power(10, 2) == 100 && Power(10, 3) == 1000 && Power(10, 4) == 10000;
  }

  lemma NoFifth(username: string, count: string -> Option<nat>)
    ensures SuffixFor(username, count, 5) == None
  {
  }
}
