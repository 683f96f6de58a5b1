// src/irc/IrcServer.ts and src/util/Template.ts: user ids and aliases from templates, and back.

module Templates {
  import opened Strings
  import opened Regex

  const NICK := "$NICK"
  const CHANNEL := "$CHANNEL"
  const SERVER := "$SERVER"

  // Placeholders and what replaces them.
  type Vars = seq<(string, string)>

  predicate Named(vars: Vars) {
    forall i :: 0 <= i < |vars| ==> vars[i].0 != ""
  }

  // All occurrences of each placeholder, one placeholder after the other.
  function ReplaceVars(s: string, vars: Vars): string
    requires Named(vars)
    decreases |vars|
  {
    if vars == [] then s else ReplaceVars(ReplaceAll(s, vars[0].0, vars[0].1), vars[1..])
  }

  // renderTemplate: the first occurrence of each placeholder.
  function Rendered(s: string, vars: Vars): string
    decreases |vars|
  {
    if vars == [] then s else Rendered(ReplaceFirst(s, vars[0].0, vars[0].1), vars[1..])
  }

  method RenderTemplate(template: string, args: Vars) returns (rendered: string)
    ensures rendered == Rendered(template, args)
  {
    rendered := template;
    for i := 0 to |args|
      invariant Rendered(rendered, args[i..]) == Rendered(template, args)
    {
      assert args[i..][1..] == args[i + 1..];
      rendered := ReplaceFirst(rendered, args[i].0, args[i].1);
    }
  }

  function EscapedNames(vars: Vars): (r: Vars)
    requires Named(vars)
    ensures |r| == |vars| && Named(r)
    ensures forall i :: 0 <= i < |r| ==> r[i] == (Escape(vars[i].0), vars[i].1)
  {
    if vars == [] then [] else [(Escape(vars[0].0), vars[0].1)] + EscapedNames(vars[1..])
  }

  // The text is escaped before the second kind of placeholder is replaced, so these are looked for
  // in their escaped form.
  function RegexText(template: string, literalVars: Vars, regexVars: Vars, suffix: string): string
    requires Named(literalVars) && Named(regexVars)
  {
    ReplaceVars(Escape(ReplaceVars(template, literalVars)), EscapedNames(regexVars)) + suffix
  }

  method TemplateToRegex(template: string, literalVars: Vars, regexVars: Vars, suffix: string) returns (regex: string)
    requires Named(literalVars) && Named(regexVars)
    ensures regex == RegexText(template, literalVars, regexVars, suffix)
  {
    regex := template;
    for i := 0 to |literalVars|
      invariant ReplaceVars(regex, literalVars[i..]) == ReplaceVars(template, literalVars)
    {
      assert literalVars[i..][1..] == literalVars[i + 1..];
      regex := ReplaceAll(regex, literalVars[i].0, literalVars[i].1);
    }
    regex := Escape(regex);
    ghost var escaped := EscapedNames(regexVars);
    for i := 0 to |regexVars|
      invariant ReplaceVars(regex, escaped[i..]) == ReplaceVars(Escape(ReplaceVars(template, literalVars)), escaped)
    {
      assert escaped[i..][1..] == escaped[i + 1..];
      regex := ReplaceAll(regex, Escape(regexVars[i].0), regexVars[i].1);
    }
    regex := regex + suffix;
  }

  // The first group of the first match.
  function FirstGroup(regex: string, text: string): Option<string> {
    match Exec(Parse(regex), text)
    case None => None
    case Some(groups) => if groups == [] then None else Some(groups[0])
  }

  datatype IrcServer = IrcServer(domain: string, homeserverDomain: string, userTemplate: string, aliasTemplate: string) {
    function GetUserIdFromNick(nick: string): string {
      ReplaceAll(ReplaceAll(userTemplate, NICK, nick), SERVER, domain) + (":" + homeserverDomain)
    }

    function GetUserLocalpart(nick: string): string {
      var rendered := Rendered(userTemplate, [(SERVER, domain), (NICK, nick)]);
      if rendered == "" then "" else rendered[1..]
    }

    function UserRegex(kind: Kind): string {
      RegexText(userTemplate, [(SERVER, domain)], [(NICK, GroupText(kind))], ":" + Escape(homeserverDomain))
    }

    predicate ClaimsUserId(userId: string) {
      Exec(Parse(UserRegex(Greedy)), userId).Some?
    }

    function GetNickFromUserId(userId: string): Option<string> {
      FirstGroup(UserRegex(Lazy), userId)
    }

    function GetAliasFromChannel(channel: string): Result<string> {
      if !StartsWith(channel, "#") && !StartsWith(aliasTemplate, "#") then
        Err("Cannot get an alias for a channel not starting with a hash")
      else
        Ok(Rendered(aliasTemplate, [(CHANNEL, channel), (SERVER, domain)]) + (":" + homeserverDomain))
    }

    function GetChannelFromAlias(alias: string): Option<string> {
      FirstGroup(
        RegexText(aliasTemplate, [(SERVER, domain)], [(CHANNEL, GroupText(NotColon))], ":" + Escape(homeserverDomain)),
        alias)
    }
  }

  // --- Templates as parts ---

  // A template: text, the nick or channel, and the server.
  datatype Part = Text(t: string) | Var | Server
  type Parts = seq<Part>

  function Value(part: Part, v: string, s: string): string {
    match part
    case Text(t) => t
    case Var => v
    case Server => s
  }

  // The template with values for its variables; with the placeholders as values it is the template.
  function Fill(parts: Parts, v: string, s: string): string {
    if parts == [] then "" else Value(parts[0], v, s) + Fill(parts[1..], v, s)
  }

  // Text in which the placeholder p does not begin, whatever stands behind the text.
  predicate Settled(t: string, p: string) {
    forall k :: 0 <= k < |t| ==> !StartsWith(t[k..], p) && !StartsWith(p, t[k..])
  }

  predicate Plain(parts: Parts, p: string) {
    forall i :: 0 <= i < |parts| && parts[i].Text? ==> Settled(parts[i].t, p)
  }

  function Count(parts: Parts, part: Part): nat {
    if parts == [] then 0 else (if parts[0] == part then 1 else 0) + Count(parts[1..], part)
  }

  predicate IsName(p: string) {
    p == NICK || p == CHANNEL || p == SERVER
  }

  // Text that a placeholder does not occur in.
  predicate Inert(v: string, p: string) {
    '$' !in v || (IsName(v) && v != p)
  }

  lemma InertClear(v: string, b: string, p: string)
    requires IsName(p) && Inert(v, p)
    ensures Clear(v, b, p)
  {
    if '$' !in v {
      ClearText(v, b, p);
    } else {
      forall k | 0 <= k < |v|
        ensures !StartsWith((v + b)[k..], p)
      {
        var j := if k == 0 then 1 else 0;
        assert (v + b)[k..][j] == v[k + j];
        PrefixAt((v + b)[k..], p, j);
      }
    }
  }

  lemma SettledClear(t: string, b: string, p: string)
    requires Settled(t, p)
    ensures Clear(t, b, p)
  {
    forall k | 0 <= k < |t|
      ensures !StartsWith((t + b)[k..], p)
    {
      assert (t + b)[k..] == t[k..] + b;
      Incomparable(t[k..], b, p);
    }
  }

  // Where two texts differ of which neither begins the other.
  lemma {:induction false} DifferAt(u: string, p: string) returns (j: nat)
    requires !StartsWith(u, p) && !StartsWith(p, u)
    ensures j < |u| && j < |p| && u[j] != p[j]
  {
    if u[0] != p[0] {
      j := 0;
    } else {
      StartsWithTail(u, p);
      StartsWithTail(p, u);
      j := DifferAt(u[1..], p[1..]);
      j := j + 1;
    }
  }

  lemma Incomparable(u: string, b: string, p: string)
    requires !StartsWith(u, p) && !StartsWith(p, u)
    ensures !StartsWith(u + b, p) && !StartsWith(p, u + b)
  {
    var j := DifferAt(u, p);
    assert (u + b)[j] == u[j];
    PrefixAt(u + b, p, j);
    PrefixAt(p, u + b, j);
  }

  lemma SettledConcat(a: string, b: string, p: string)
    requires Settled(a, p) && Settled(b, p)
    ensures Settled(a + b, p)
  {
    hide StartsWith;
    forall k | 0 <= k < |a + b|
      ensures !StartsWith((a + b)[k..], p) && !StartsWith(p, (a + b)[k..])
    {
      if k < |a| {
        assert (a + b)[k..] == a[k..] + b;
        Incomparable(a[k..], b, p);
      } else {
        assert (a + b)[k..] == b[k - |a|..];
      }
    }
  }

  lemma NoDollarSettled(t: string, p: string)
    requires '$' !in t && IsName(p)
    ensures Settled(t, p)
  {
    forall k | 0 <= k < |t|
      ensures !StartsWith(t[k..], p) && !StartsWith(p, t[k..])
    {
      assert t[k..][0] == t[k] && p[0] == '$';
    }
  }

  // What a part is filled with keeps the placeholder p from beginning.
  lemma ValueClear(part: Part, v: string, s: string, b: string, p: string)
    requires IsName(p) && (part.Text? ==> Settled(part.t, p))
    requires (part.Var? ==> Inert(v, p)) && (part.Server? ==> Inert(s, p))
    ensures Clear(Value(part, v, s), b, p)
  {
    if part.Text? { SettledClear(part.t, b, p); } else { InertClear(Value(part, v, s), b, p); }
  }

  lemma {:induction false} FillConcat(a: Parts, b: Parts, v: string, s: string)
    ensures Fill(a + b, v, s) == Fill(a, v, s) + Fill(b, v, s)
  {
    if a == [] {
      assert a + b == b;
    } else {
      FillConcat(a[1..], b, v, s);
      assert (a + b)[0] == a[0] && (a + b)[1..] == a[1..] + b;
      Associates(Value(a[0], v, s), Fill(a[1..], v, s), Fill(b, v, s));
    }
  }

  lemma {:induction false} FillServer(parts: Parts, v: string, domain: string)
    requires Plain(parts, SERVER) && Inert(v, SERVER)
    ensures ReplaceAll(Fill(parts, v, SERVER), SERVER, domain) == Fill(parts, v, domain)
  {
    hide ReplaceAll, Clear, Settled;
    if parts == [] {
      ReplaceAbsent("", SERVER, domain);
    } else {
      var rest := Fill(parts[1..], v, SERVER);
      FillServer(parts[1..], v, domain);
      if parts[0].Server? {
        ReplaceAllHere(SERVER, rest, domain);
      } else {
        ValueClear(parts[0], v, SERVER, rest, SERVER);
        ReplaceAllClear(Value(parts[0], v, SERVER), rest, SERVER, domain);
      }
    }
  }

  lemma {:induction false} FillVar(parts: Parts, name: string, v: string, s: string)
    requires Plain(parts, name) && IsName(name) && Inert(s, name)
    ensures ReplaceAll(Fill(parts, name, s), name, v) == Fill(parts, v, s)
  {
    hide ReplaceAll, Clear, Settled;
    if parts == [] {
      ReplaceAbsent("", name, v);
    } else {
      var rest := Fill(parts[1..], name, s);
      FillVar(parts[1..], name, v, s);
      if parts[0].Var? {
        ReplaceAllHere(name, rest, v);
      } else {
        ValueClear(parts[0], name, s, rest, name);
        ReplaceAllClear(Value(parts[0], name, s), rest, name, v);
      }
    }
  }

  // --- Rendering replaces the first occurrence only ---

  // The parts with the first one of a kind made text.
  function Once(parts: Parts, part: Part, t: string): Parts {
    if parts == [] then []
    else if parts[0] == part then [Text(t)] + parts[1..]
    else [parts[0]] + Once(parts[1..], part, t)
  }

  lemma RenderOnce(parts: Parts, part: Part, name: string, other: string, t: string)
    requires Plain(parts, name) && (part == Var || part == Server)
    requires IsName(name) && IsName(other) && other != name
    ensures
      var v, s := if part == Var then name else other, if part == Var then other else name;
      ReplaceFirst(Fill(parts, v, s), name, t) == Fill(Once(parts, part, t), v, s)
  {
    hide ReplaceFirst, Clear, Fill, Once, FirstOf, Plain;
    var v, s := if part == Var then name else other, if part == Var then other else name;
    var n := FirstOf(parts, part);
    ClearBefore(parts, n, part, name, v, s);
    if n == |parts| {
      assert parts[..n] == parts && parts[n..] == [];
      assert Fill([], v, s) == "" by { FillNothing(v, s); }
      ReplaceFirstAbsent(Fill(parts, v, s), name, t);
      OnceAbsent(parts, part, t);
    } else {
      OnceAt(parts, n, part, t);
      SplitFill(parts, n, part, v, s, t);
      ReplaceFirstHere(Fill(parts[..n], v, s), name, Fill(parts[n + 1..], v, s), t);
    }
  }

  lemma FillNothing(v: string, s: string)
    ensures Fill([], v, s) == ""
  {
  }

  lemma SplitFill(parts: Parts, n: nat, part: Part, v: string, s: string, t: string)
    requires n < |parts| && parts[n] == part
    ensures
      var front, back := Fill(parts[..n], v, s), Fill(parts[n + 1..], v, s);
      && Fill(parts[n..], v, s) == Value(part, v, s) + back
      && Fill(parts, v, s) == front + (Value(part, v, s) + back)
      && Fill(parts[..n] + ([Text(t)] + parts[n + 1..]), v, s) == front + (t + back)
  {
    hide Fill;
    assert parts[n..] == [part] + parts[n + 1..];
    assert parts == parts[..n] + parts[n..];
    FillConcat(parts[..n], parts[n..], v, s);
    FillPush(part, parts[n + 1..], v, s);
    FillPush(Text(t), parts[n + 1..], v, s);
    FillConcat(parts[..n], [Text(t)] + parts[n + 1..], v, s);
  }

  lemma FillPush(part: Part, rest: Parts, v: string, s: string)
    ensures Fill([part] + rest, v, s) == Value(part, v, s) + Fill(rest, v, s)
  {
  }

  function FirstOf(parts: Parts, part: Part): (n: nat)
    ensures n <= |parts| && (n < |parts| ==> parts[n] == part)
    ensures forall i :: 0 <= i < n ==> parts[i] != part
  {
    if parts == [] || parts[0] == part then 0 else 1 + FirstOf(parts[1..], part)
  }

  lemma {:induction false} OnceAbsent(parts: Parts, part: Part, t: string)
    requires forall i :: 0 <= i < |parts| ==> parts[i] != part
    ensures Once(parts, part, t) == parts
  {
    if parts != [] { OnceAbsent(parts[1..], part, t); }
  }

  lemma {:induction false} OnceAt(parts: Parts, n: nat, part: Part, t: string)
    requires n < |parts| && parts[n] == part && forall i :: 0 <= i < n ==> parts[i] != part
    ensures Once(parts, part, t) == parts[..n] + ([Text(t)] + parts[n + 1..])
  {
    if n > 0 {
      OnceAt(parts[1..], n - 1, part, t);
      assert [parts[0]] + (parts[1..][..n - 1] + ([Text(t)] + parts[1..][n..])) == parts[..n] + ([Text(t)] + parts[n + 1..]);
    }
  }

  lemma {:induction false} ClearBefore(parts: Parts, n: nat, part: Part, name: string, v: string, s: string)
    requires n <= |parts| && Plain(parts, name) && IsName(name)
    requires part == Var ==> Inert(s, name)
    requires part == Server ==> Inert(v, name)
    requires part == Var || part == Server
    requires forall i :: 0 <= i < n ==> parts[i] != part
    ensures Clear(Fill(parts[..n], v, s), Fill(parts[n..], v, s), name)
  {
    hide Clear, Settled;
    if n == 0 {
      ClearText("", Fill(parts[n..], v, s), name);
    } else {
      ClearBefore(parts[1..], n - 1, part, name, v, s);
      var a, b, c := Value(parts[0], v, s), Fill(parts[1..][..n - 1], v, s), Fill(parts[1..][n - 1..], v, s);
      ValueClear(parts[0], v, s, b + c, name);
      ClearConcat(a, b, c, name);
      assert parts[..n][1..] == parts[1..][..n - 1] && parts[1..][n - 1..] == parts[n..];
    }
  }

  // With at most one of a kind, replacing the first one replaces all.
  lemma {:induction false} OnceIsAll(parts: Parts, part: Part, t: string, v: string, s: string)
    requires (part == Var && t == v) || (part == Server && t == s)
    requires Count(parts, part) <= 1
    ensures Count(Once(parts, part, t), part) == 0
    ensures Fill(Once(parts, part, t), v, s) == Fill(parts, v, s)
  {
    if parts != [] {
      if parts[0] == part {
        FillPush(Text(t), parts[1..], v, s);
      } else {
        OnceIsAll(parts[1..], part, t, v, s);
        FillPush(parts[0], Once(parts[1..], part, t), v, s);
      }
    }
  }

  lemma {:induction false} FillWithout(parts: Parts, part: Part, v: string, s: string, t: string)
    requires Count(parts, part) == 0
    ensures part == Var ==> Fill(parts, v, s) == Fill(parts, t, s)
    ensures part == Server ==> Fill(parts, v, s) == Fill(parts, v, t)
  {
    if parts != [] { FillWithout(parts[1..], part, v, s, t); }
  }

  lemma {:induction false} OncePlain(parts: Parts, part: Part, t: string, p: string)
    requires Plain(parts, p) && Settled(t, p)
    ensures Plain(Once(parts, part, t), p)
  {
    hide Settled;
    if parts != [] && parts[0] != part { OncePlain(parts[1..], part, t, p); }
  }

  lemma {:induction false} OnceOther(parts: Parts, part: Part, other: Part, t: string)
    requires part != other && !other.Text?
    ensures Count(Once(parts, part, t), other) == Count(parts, other)
    ensures Count(parts, part) > 0 && !part.Text? ==> Count(Once(parts, part, t), part) == Count(parts, part) - 1
  {
    if parts != [] {
      if parts[0] == part {
        assert ([Text(t)] + parts[1..])[1..] == parts[1..];
      } else {
        OnceOther(parts[1..], part, other, t);
        assert ([parts[0]] + Once(parts[1..], part, t))[1..] == Once(parts[1..], part, t);
      }
    }
  }

  // The dollar signs that are left.
  function Dollars(s: string): nat {
    if s == "" then 0 else (if s[0] == '$' then 1 else 0) + Dollars(s[1..])
  }

  function TextDollars(parts: Parts): nat {
    if parts == [] then 0 else (if parts[0].Text? then Dollars(parts[0].t) else 0) + TextDollars(parts[1..])
  }

  lemma {:induction false} DollarsConcat(a: string, b: string)
    ensures Dollars(a + b) == Dollars(a) + Dollars(b)
  {
    if a == "" {
      assert a + b == b;
    } else {
      DollarsConcat(a[1..], b);
      assert (a + b)[0] == a[0] && (a + b)[1..] == a[1..] + b;
    }
  }

  lemma {:induction false} NoDollars(s: string)
    requires '$' !in s
    ensures Dollars(s) == 0
  {
    if s != "" { NoDollars(s[1..]); }
  }

  lemma NameDollars(name: string)
    requires IsName(name)
    ensures Dollars(name) == 1
  {
    NameShape(name);
    DollarsConcat("$", name[1..]);
    NoDollars(name[1..]);
    assert Dollars("$") == 1 by { assert "$"[1..] == ""; }
  }

  lemma {:induction false} FillDollars(parts: Parts, v: string, s: string)
    requires Dollars(v) <= 1 && Dollars(s) <= 1
    ensures
      Dollars(Fill(parts, v, s))
      == TextDollars(parts) + (if Dollars(v) == 1 then Count(parts, Var) else 0)
         + if Dollars(s) == 1 then Count(parts, Server) else 0
  {
    hide Dollars;
    if parts == [] {
      NoDollars("");
    } else {
      FillDollars(parts[1..], v, s);
      DollarsConcat(Value(parts[0], v, s), Fill(parts[1..], v, s));
    }
  }

  lemma {:induction false} OnceDollars(parts: Parts, part: Part, t: string)
    requires !part.Text? && Dollars(t) == 0
    ensures TextDollars(Once(parts, part, t)) == TextDollars(parts)
  {
    hide Dollars;
    if parts != [] {
      if parts[0] == part {
        assert ([Text(t)] + parts[1..])[1..] == parts[1..];
      } else {
        OnceDollars(parts[1..], part, t);
        assert ([parts[0]] + Once(parts[1..], part, t))[1..] == Once(parts[1..], part, t);
      }
    }
  }

  // Rendering both variables, in either order.
  lemma RenderTwo(parts: Parts, first: Part, firstName: string, t: string, second: Part, secondName: string, u: string)
    requires Plain(parts, firstName) && Plain(parts, secondName) && '$' !in t && '$' !in u
    requires IsName(firstName) && IsName(secondName) && firstName != secondName
    requires (first == Var && second == Server) || (first == Server && second == Var)
    ensures
      var v, s := if first == Var then firstName else secondName, if first == Var then secondName else firstName;
      Rendered(Fill(parts, v, s), [(firstName, t), (secondName, u)]) == Fill(Once(Once(parts, first, t), second, u), v, s)
  {
    hide ReplaceFirst, Fill, Once, Plain, Settled;
    var v, s := if first == Var then firstName else secondName, if first == Var then secondName else firstName;
    RenderOnce(parts, first, firstName, secondName, t);
    NoDollarSettled(t, secondName);
    OncePlain(parts, first, t, secondName);
    RenderOnce(Once(parts, first, t), second, secondName, firstName, u);
    RenderedTwice(Fill(parts, v, s), firstName, t, secondName, u);
  }

  lemma RenderedTwice(s: string, name1: string, t: string, name2: string, u: string)
    ensures Rendered(s, [(name1, t), (name2, u)]) == ReplaceFirst(ReplaceFirst(s, name1, t), name2, u)
  {
    var vars := [(name1, t), (name2, u)];
    assert vars[1..] == [(name2, u)] && vars[1..][1..] == [];
    hide ReplaceFirst;
    assert Rendered(ReplaceFirst(s, name1, t), vars[1..]) == ReplaceFirst(ReplaceFirst(s, name1, t), name2, u);
  }

  // The rendered template is the filled one exactly when no variable occurs twice.
  lemma RenderedIffOnce(parts: Parts, first: Part, firstName: string, t: string, second: Part, secondName: string, u: string)
    requires Plain(parts, firstName) && Plain(parts, secondName) && '$' !in t && '$' !in u
    requires IsName(firstName) && IsName(secondName) && firstName != secondName
    requires (first == Var && second == Server) || (first == Server && second == Var)
    ensures
      var v, s := if first == Var then firstName else secondName, if first == Var then secondName else firstName;
      var tv, ts := if first == Var then t else u, if first == Var then u else t;
      Rendered(Fill(parts, v, s), [(firstName, t), (secondName, u)]) == Fill(parts, tv, ts)
      <==> Count(parts, Var) <= 1 && Count(parts, Server) <= 1
  {
    hide Rendered, Fill, Once, Count, Plain;
    RenderTwo(parts, first, firstName, t, second, secondName, u);
    var v, s := if first == Var then firstName else secondName, if first == Var then secondName else firstName;
    var tv, ts := if first == Var then t else u, if first == Var then u else t;
    var once := Once(parts, first, t);
    var twice := Once(once, second, u);
    OnceOther(parts, first, second, t);
    OnceOther(once, second, first, u);
    if Count(parts, first) <= 1 && Count(parts, second) <= 1 {
      OnceIsAll(parts, first, t, tv, ts);
      OnceIsAll(once, second, u, tv, ts);
      FillWithout(twice, Var, v, s, tv);
      FillWithout(twice, Server, tv, s, ts);
    } else {
      hide Dollars, TextDollars, IsName;
      NameDollars(firstName);
      NameDollars(secondName);
      NoDollars(t);
      NoDollars(u);
      OnceDollars(parts, first, t);
      OnceDollars(once, second, u);
      FillDollars(twice, v, s);
      FillDollars(parts, tv, ts);
    }
  }

  // --- The expression of a template ---

  lemma NameShape(name: string)
    requires IsName(name)
    ensures name == "$" + name[1..] && forall i :: 0 <= i < |name[1..]| ==> 'A' <= name[1..][i] <= 'Z'
  {
  }

  lemma EscapedName(name: string)
    requires IsName(name)
    ensures Escape(name) == "\\" + name && name[0] == '$'
  {
    hide Escape;
    NameShape(name);
    hide IsName;
    var letters := name[1..];
    LettersUnescaped(letters);
    EscapeConcat("$", letters);
    OneDollar();
    assert "\\$" + letters == "\\" + ("$" + letters);
  }

  lemma OneDollar()
    ensures Escape("$") == "\\$"
  {
  }

  lemma {:induction false} LettersUnescaped(s: string)
    requires forall i :: 0 <= i < |s| ==> 'A' <= s[i] <= 'Z'
    ensures Escape(s) == s
  {
    if s != "" { LettersUnescaped(s[1..]); }
  }

  lemma EscapeHead(s: string)
    requires s != ""
    ensures Escape(s) != "" && Escape(s)[0] == if IsSpecial(s[0]) then '\\' else s[0]
  {
  }

  // Letters at the start of an escaped text are letters at the start of the text.
  lemma {:induction false} EscapedLetters(s: string, letters: string, b: string)
    requires forall i :: 0 <= i < |letters| ==> 'A' <= letters[i] <= 'Z'
    requires !StartsWith(s, letters) && !StartsWith(letters, s)
    ensures !StartsWith(Escape(s) + b, letters)
  {
    NeitherEmpty(s, letters);
    EscapeHead(s);
    if s[0] == letters[0] {
      EscapeLetter(s, b);
      hide Escape, StartsWith;
      StartsWithTail(s, letters);
      StartsWithTail(letters, s);
      EscapedLetters(s[1..], letters[1..], b);
      StartsWithTail(Escape(s) + b, letters);
    } else {
      hide Escape;
      NotAt(Escape(s) + b, letters, 0);
    }
  }

  lemma NeitherEmpty(s: string, t: string)
    requires !StartsWith(s, t) && !StartsWith(t, s)
    ensures s != "" && t != ""
  {
  }

  lemma EscapeLetter(s: string, b: string)
    requires s != "" && 'A' <= s[0] <= 'Z'
    ensures Escape(s) + b != "" && (Escape(s) + b)[0] == s[0] && (Escape(s) + b)[1..] == Escape(s[1..]) + b
  {
    assert EscapeOf(s[0]) == [s[0]];
    hide EscapeOf;
    assert [s[0]] + Escape(s[1..]) + b == [s[0]] + (Escape(s[1..]) + b);
  }

  // In an escaped text the dollar sign of a placeholder always has its own backslash.
  lemma {:induction false} ClearOfName(a: string, b: string, name: string)
    requires Settled(a, name) && IsName(name) && (b == "" || b[0] != '$')
    ensures Clear(Escape(a), b, Escape(name))
  {
    hide EscapeOf, Clear, IsName, StartsWith;
    if a == "" {
      EscapedName(name);
      ClearText("", b, Escape(name));
    } else {
      SettledTail(a, name);
      ClearOfName(a[1..], b, name);
      OneEscape(a[0], a[1..], b, name);
      ClearConcat(EscapeOf(a[0]), Escape(a[1..]), b, Escape(name));
    }
  }

  lemma SettledTail(a: string, p: string)
    requires a != "" && Settled(a, p)
    ensures Settled(a[1..], p)
    ensures !StartsWith([a[0]] + a[1..], p) && !StartsWith(p, [a[0]] + a[1..])
  {
    hide StartsWith;
    assert a[0..] == a == [a[0]] + a[1..];
    forall k | 0 <= k < |a[1..]|
      ensures !StartsWith(a[1..][k..], p) && !StartsWith(p, a[1..][k..])
    {
      assert a[1..][k..] == a[k + 1..];
    }
  }

  lemma NotAt(text: string, p: string, i: nat)
    requires i < |p| && (i >= |text| || text[i] != p[i])
    ensures !StartsWith(text, p)
  {
    if i < |text| { PrefixAt(text, p, i); }
  }

  lemma DollarThen(r: string, b: string, name: string)
    requires IsName(name) && !StartsWith("$" + r, name) && !StartsWith(name, "$" + r)
    ensures !StartsWith("\\" + ("$" + (Escape(r) + b)), "\\" + name)
  {
    NameShape(name);
    var letters, rest := name[1..], Escape(r) + b;
    hide Escape, IsName;
    assert ("$" + r)[1..] == r && ("$" + rest)[1..] == rest;
    StartsWithTail("$" + r, name);
    StartsWithTail(name, "$" + r);
    EscapedLetters(r, letters, b);
    StartsWithTail("$" + rest, name);
    assert ("\\" + ("$" + rest))[1..] == "$" + rest && ("\\" + name)[1..] == name;
    StartsWithTail("\\" + ("$" + rest), "\\" + name);
  }

  lemma ClearOne(x: char, rest: string, p: string)
    requires !StartsWith([x] + rest, p)
    ensures Clear([x], rest, p)
  {
    hide StartsWith;
    assert ([x] + rest)[0..] == [x] + rest;
  }

  lemma ClearTwo(x: char, y: char, rest: string, p: string)
    requires !StartsWith([x] + ([y] + rest), p) && !StartsWith([y] + rest, p)
    ensures Clear([x, y], rest, p)
  {
    hide StartsWith;
    var all := [x, y] + rest;
    assert all[0..] == [x] + ([y] + rest) && all[1..] == [y] + rest;
    forall k | 0 <= k < |[x, y]|
      ensures !StartsWith(([x, y] + rest)[k..], p)
    {
      assert k == 0 || k == 1;
    }
  }

  // The placeholder does not begin in the escape of one character.
  lemma OneEscape(c: char, r: string, b: string, name: string)
    requires IsName(name) && (b == "" || b[0] != '$')
    requires !StartsWith([c] + r, name) && !StartsWith(name, [c] + r)
    ensures Clear(EscapeOf(c), Escape(r) + b, Escape(name))
  {
    EscapedName(name);
    var rest, p := Escape(r) + b, Escape(name);
    NoBareDollar(r, b);
    assert p == "\\" + name && p[0] == '\\' && p[1] == '$';
    if c == '$' { DollarThen(r, b, name); }
    hide Escape, IsName, StartsWith, Clear;
    if IsSpecial(c) {
      NotAt([c] + rest, p, if c == '\\' then 1 else 0);
      if c != '$' { NotAt(['\\'] + ([c] + rest), p, 1); }
      ClearTwo('\\', c, rest, p);
    } else {
      NotAt([c] + rest, p, 0);
      ClearOne(c, rest, p);
    }
  }

  lemma NoBareDollar(r: string, b: string)
    requires b == "" || b[0] != '$'
    ensures Escape(r) + b == "" || (Escape(r) + b)[0] != '$'
  {
    if r != "" { EscapeHead(r); }
    hide Escape;
  }

  lemma ReplaceName(front: string, back: string, name: string, group: string)
    requires Settled(front, name) && Settled(back, name) && IsName(name)
    ensures ReplaceAll(Escape(front + (name + back)), Escape(name), group) == Escape(front) + (group + Escape(back))
  {
    hide ReplaceAll, Clear, IsName, Settled;
    EscapeConcat(front, name + back);
    EscapeConcat(name, back);
    EscapedName(name);
    hide Escape;
    ClearOfName(front, Escape(name) + Escape(back), name);
    ReplaceAllClear(Escape(front), Escape(name) + Escape(back), Escape(name), group);
    ReplaceAllHere(Escape(name), Escape(back), group);
    ClearOfName(back, "", name);
    ReplaceAllClear(Escape(back), "", Escape(name), group);
    assert Escape(back) + "" == Escape(back);
    ReplaceAbsent("", Escape(name), group);
  }

  // The text around the variable, filled.
  function Front(parts: Parts, domain: string): string {
    Fill(parts[..FirstOf(parts, Var)], "", domain)
  }

  function Back(parts: Parts, domain: string): string {
    var n := FirstOf(parts, Var);
    if n < |parts| then Fill(parts[n + 1..], "", domain) else ""
  }

  lemma {:induction false} CountConcat(a: Parts, b: Parts, part: Part)
    ensures Count(a + b, part) == Count(a, part) + Count(b, part)
  {
    if a == [] {
      assert a + b == b;
    } else {
      CountConcat(a[1..], b, part);
      assert (a + b)[0] == a[0] && (a + b)[1..] == a[1..] + b;
    }
  }

  lemma {:induction false} CountAbsent(parts: Parts, part: Part)
    requires forall i :: 0 <= i < |parts| ==> parts[i] != part
    ensures Count(parts, part) == 0
  {
    if parts != [] { CountAbsent(parts[1..], part); }
  }

  lemma {:induction false} FillSettled(parts: Parts, domain: string, name: string)
    requires Plain(parts, name) && IsName(name) && '$' !in domain
    ensures Settled(Fill(parts, "", domain), name)
  {
    if parts != [] {
      FillSettled(parts[1..], domain, name);
      NoDollarSettled("", name);
      NoDollarSettled(domain, name);
      hide Settled, IsName;
      SettledConcat(Value(parts[0], "", domain), Fill(parts[1..], "", domain), name);
    }
  }

  // With one variable: text, variable, text.
  lemma FrontAndBack(parts: Parts, v: string, domain: string)
    requires Count(parts, Var) == 1
    ensures Fill(parts, v, domain) == Front(parts, domain) + (v + Back(parts, domain))
  {
    var n := FirstOf(parts, Var);
    if n == |parts| { CountAbsent(parts, Var); }
    var a, b := parts[..n], parts[n + 1..];
    assert parts == a + ([Var] + b);
    CountConcat(a, [Var] + b, Var);
    CountConcat([Var], b, Var);
    FillConcat(a, [Var] + b, v, domain);
    FillPush(Var, b, v, domain);
    CountAbsent(a, Var);
    assert Count([Var], Var) == 1 by { assert [Var][1..] == []; }
    FillWithout(a, Var, v, domain, "");
    FillWithout(b, Var, v, domain, "");
  }

  lemma AroundSettled(parts: Parts, name: string, domain: string)
    requires Plain(parts, name) && IsName(name) && '$' !in domain
    ensures Settled(Front(parts, domain), name) && Settled(Back(parts, domain), name)
  {
    var n := FirstOf(parts, Var);
    NoDollarSettled("", name);
    hide Settled, FirstOf, IsName;
    FillSettled(parts[..n], domain, name);
    if n < |parts| { FillSettled(parts[n + 1..], domain, name); }
  }

  // The expression matches the text in front, the group, and the text behind with the homeserver.
  lemma RegexOfTemplate(parts: Parts, name: string, kind: Kind, domain: string, homeserver: string)
    requires Plain(parts, name) && Plain(parts, SERVER) && Count(parts, Var) == 1 && '$' !in domain
    requires IsName(name) && name != SERVER
    ensures
      var regex := RegexText(Fill(parts, name, SERVER), [(SERVER, domain)], [(name, GroupText(kind))], ":" + Escape(homeserver));
      Parse(regex) == Lits(Front(parts, domain)) + ([Group(kind)] + Lits(Back(parts, domain) + (":" + homeserver)))
  {
    hide Parse, Fill, Front, Back, Count, ReplaceAll, GroupText, Plain, Settled;
    AroundSettled(parts, name, domain);
    var front, back := Front(parts, domain), Back(parts, domain);
    FillServer(parts, name, domain);
    FrontAndBack(parts, name, domain);
    ReplaceName(front, back, name, GroupText(kind));
    OneVar(Fill(parts, name, SERVER), SERVER, domain);
    var regexVars := [(name, GroupText(kind))];
    assert EscapedNames(regexVars) == [(Escape(name), GroupText(kind))];
    OneVar(Escape(front + (name + back)), Escape(name), GroupText(kind));
    var regex := Escape(front) + (GroupText(kind) + Escape(back)) + (":" + Escape(homeserver));
    Assembled(front, back, kind, homeserver);
  }

  lemma OneVar(s: string, name: string, value: string)
    requires name != ""
    ensures ReplaceVars(s, [(name, value)]) == ReplaceAll(s, name, value)
  {
  }

  lemma Assembled(front: string, back: string, kind: Kind, homeserver: string)
    ensures
      Parse(Escape(front) + (GroupText(kind) + Escape(back)) + (":" + Escape(homeserver)))
      == Lits(front) + ([Group(kind)] + Lits(back + (":" + homeserver)))
  {
    hide Parse, GroupText;
    EscapeConcat(":", homeserver);
    assert Escape(":") == ":";
    EscapeConcat(back, ":" + homeserver);
    hide Escape;
    var tail := back + (":" + homeserver);
    Associates(Escape(front), GroupText(kind) + Escape(back), ":" + Escape(homeserver));
    Associates(GroupText(kind), Escape(back), ":" + Escape(homeserver));
    ParseEscape(front, GroupText(kind) + Escape(tail));
    ParseGroup(kind, Escape(tail));
    ParseEscape(tail, "");
    assert Escape(tail) + "" == Escape(tail);
    assert Parse("") == [] by { ParseNothing(); }
    assert Lits(tail) + [] == Lits(tail);
  }

  lemma ParseNothing()
    ensures Parse("") == []
  {
  }

  // --- The inverses ---

  // An IRC nick or channel: it has neither colon nor dollar sign, and is on one line.
  predicate IsIrcName(c: string) {
    ':' !in c && '$' !in c && forall i :: 0 <= i < |c| ==> !IsLineTerminator(c[i])
  }

  // What a template is made of, with one variable.
  predicate OneVariable(template: string, name: string, parts: Parts, domain: string) {
    && template == Fill(parts, name, SERVER) && Plain(parts, name) && Plain(parts, SERVER)
    && Count(parts, Var) == 1 && '$' !in domain
  }

  lemma UserIdIs(server: IrcServer, parts: Parts, nick: string)
    requires OneVariable(server.userTemplate, NICK, parts, server.domain) && '$' !in nick
    ensures server.GetUserIdFromNick(nick)
         == Front(parts, server.domain) + (nick + (Back(parts, server.domain) + (":" + server.homeserverDomain)))
  {
    hide Fill, Front, Back, Plain, Count, ReplaceAll;
    FillVar(parts, NICK, nick, SERVER);
    FillServer(parts, nick, server.domain);
    FrontAndBack(parts, nick, server.domain);
    Associates(Front(parts, server.domain), nick + Back(parts, server.domain), ":" + server.homeserverDomain);
    Associates(nick, Back(parts, server.domain), ":" + server.homeserverDomain);
  }

  // A nick can be got back from the user id that is made of it, and the server claims that id.
  lemma NickRoundTrip(server: IrcServer, parts: Parts, nick: string)
    requires OneVariable(server.userTemplate, NICK, parts, server.domain) && IsIrcName(nick)
    ensures server.GetNickFromUserId(server.GetUserIdFromNick(nick)) == Some(nick)
    ensures server.ClaimsUserId(server.GetUserIdFromNick(nick))
  {
    hide Fill, Front, Back, Plain, Count, ReplaceAll, RegexText, Parse, Exec, Lits;
    UserIdIs(server, parts, nick);
    var front, tail := Front(parts, server.domain), Back(parts, server.domain) + (":" + server.homeserverDomain);
    assert tail[|Back(parts, server.domain)|] == ':';
    RegexOfTemplate(parts, NICK, Lazy, server.domain, server.homeserverDomain);
    MatchBetween(Lazy, front, nick, tail);
    RegexOfTemplate(parts, NICK, Greedy, server.domain, server.homeserverDomain);
    MatchBetween(Greedy, front, nick, tail);
  }

  // A user id is claimed only if it holds the text in front of the nick, some name, and the text
  // behind it with the homeserver.
  lemma ClaimedHasForm(server: IrcServer, parts: Parts, userId: string) returns (before: string, nick: string, after: string)
    requires OneVariable(server.userTemplate, NICK, parts, server.domain) && server.ClaimsUserId(userId)
    ensures
      userId
      == before + (Front(parts, server.domain)
                   + (nick + ((Back(parts, server.domain) + (":" + server.homeserverDomain)) + after)))
  {
    hide Fill, Front, Back, Plain, Count, ReplaceAll, RegexText, Parse, Exec, Lits;
    var front, tail := Front(parts, server.domain), Back(parts, server.domain) + (":" + server.homeserverDomain);
    RegexOfTemplate(parts, NICK, Greedy, server.domain, server.homeserverDomain);
    before, nick, after := ExecBetween(Greedy, front, tail, userId);
  }

  // Different nicks have different user ids.
  lemma UserIdsDiffer(server: IrcServer, parts: Parts, m: string, n: string)
    requires OneVariable(server.userTemplate, NICK, parts, server.domain) && IsIrcName(m) && IsIrcName(n)
    requires server.GetUserIdFromNick(m) == server.GetUserIdFromNick(n)
    ensures m == n
  {
    NickRoundTrip(server, parts, m);
    NickRoundTrip(server, parts, n);
  }

  // The two renderings of a user id agree exactly when the template has the server at most once.
  lemma LocalpartAgreesIff(server: IrcServer, parts: Parts, nick: string)
    requires OneVariable(server.userTemplate, NICK, parts, server.domain) && '$' !in nick
    requires StartsWith(Fill(parts, nick, server.domain), "@") && StartsWith(Fill(parts, NICK, SERVER), "@")
    ensures server.GetUserIdFromNick(nick) == "@" + (server.GetUserLocalpart(nick) + (":" + server.homeserverDomain))
            <==> Count(parts, Server) <= 1
  {
    hide Fill, Plain, Count, ReplaceAll, Rendered, StartsWith, Once;
    var full := Fill(parts, nick, server.domain);
    FillVar(parts, NICK, nick, SERVER);
    FillServer(parts, nick, server.domain);
    RenderedIffOnce(parts, Server, SERVER, server.domain, Var, NICK, nick);
    RenderTwo(parts, Server, SERVER, server.domain, Var, NICK, nick);
    var rendered := Rendered(server.userTemplate, [(SERVER, server.domain), (NICK, nick)]);
    PlaceholdersDollar();
    OnceKeepsFirst(parts, Server, server.domain, NICK, SERVER, "@");
    OnceKeepsFirst(Once(parts, Server, server.domain), Var, nick, NICK, SERVER, "@");
    Localparts(full, rendered, ":" + server.homeserverDomain);
  }

  lemma PlaceholdersDollar()
    ensures StartsWith(NICK, "$") && StartsWith(CHANNEL, "$") && StartsWith(SERVER, "$")
  {
  }

  lemma ConcatFirst(a: string, b: string, first: string)
    requires |first| == 1
    ensures StartsWith(a + b, first) <==> if a == "" then StartsWith(b, first) else StartsWith(a, first)
  {
    if a == "" { assert a + b == b; } else { assert (a + b)[0] == a[0]; }
  }

  lemma DollarFirst(part: Part, v: string, s: string, first: string)
    requires !part.Text? && |first| == 1 && first != "$" && StartsWith(v, "$") && StartsWith(s, "$")
    ensures Value(part, v, s) != "" && !StartsWith(Value(part, v, s), first)
  {
  }

  // A first character that is text stays first when a variable is filled in.
  lemma {:induction false} OnceKeepsFirst(parts: Parts, part: Part, t: string, v: string, s: string, first: string)
    requires !part.Text? && |first| == 1 && first != "$" && StartsWith(v, "$") && StartsWith(s, "$")
    requires StartsWith(Fill(parts, v, s), first)
    ensures StartsWith(Fill(Once(parts, part, t), v, s), first)
  {
    hide StartsWith, Value;
    if parts != [] {
      var x := Value(parts[0], v, s);
      ConcatFirst(x, Fill(parts[1..], v, s), first);
      if parts[0] == part {
        DollarFirst(part, v, s, first);
      } else {
        var rest := Once(parts[1..], part, t);
        FillPush(parts[0], rest, v, s);
        hide Fill;
        ConcatFirst(x, Fill(rest, v, s), first);
        if x == "" { OnceKeepsFirst(parts[1..], part, t, v, s, first); }
      }
    }
  }

  lemma Localparts(full: string, rendered: string, suffix: string)
    requires StartsWith(full, "@") && StartsWith(rendered, "@")
    ensures full + suffix == "@" + (rendered[1..] + suffix) <==> full == rendered
  {
    assert "@" + (rendered[1..] + suffix) == rendered + suffix;
    if full + suffix == rendered + suffix {
      assert |full| == |rendered|;
      assert (full + suffix)[..|full|] == full && (rendered + suffix)[..|rendered|] == rendered;
    }
  }

  // A channel can be got back from its alias, if the template has the server at most once.
  lemma ChannelRoundTrip(server: IrcServer, parts: Parts, channel: string)
    requires OneVariable(server.aliasTemplate, CHANNEL, parts, server.domain) && Count(parts, Server) <= 1
    requires IsIrcName(channel)
    ensures
      match server.GetAliasFromChannel(channel)
      case Ok(alias) => server.GetChannelFromAlias(alias) == Some(channel)
      case Err(_) => !StartsWith(channel, "#") && !StartsWith(server.aliasTemplate, "#")
  {
    hide Fill, Front, Back, Plain, Count, ReplaceAll, Rendered, RegexText, Parse, Exec, Lits, StartsWith;
    RenderedIffOnce(parts, Var, CHANNEL, channel, Server, SERVER, server.domain);
    FrontAndBack(parts, channel, server.domain);
    var front, back, suffix := Front(parts, server.domain), Back(parts, server.domain), ":" + server.homeserverDomain;
    Associates(front, channel + back, suffix);
    Associates(channel, back, suffix);
    RegexOfTemplate(parts, CHANNEL, NotColon, server.domain, server.homeserverDomain);
    MatchBetween(NotColon, front, channel, back + suffix);
  }

  // --- Templates that name the server twice ---

  // Text up to the last part of a kind, and what stands behind it.
  lemma {:induction false} LastOf(parts: Parts, part: Part) returns (a: Parts, b: Parts)
    requires Count(parts, part) > 0
    ensures parts == a + ([part] + b) && Count(b, part) == 0
  {
    if Count(parts[1..], part) > 0 {
      var a', b' := LastOf(parts[1..], part);
      a, b := [parts[0]] + a', b';
      assert parts == [parts[0]] + parts[1..];
    } else {
      a, b := [], parts[1..];
      assert parts == [part] + parts[1..];
    }
  }

  function Colons(s: string): nat {
    if s == "" then 0 else (if s[0] == ':' then 1 else 0) + Colons(s[1..])
  }

  lemma {:induction false} ColonsConcat(a: string, b: string)
    ensures Colons(a + b) == Colons(a) + Colons(b)
  {
    if a == "" {
      assert a + b == b;
    } else {
      ColonsConcat(a[1..], b);
      assert (a + b)[0] == a[0] && (a + b)[1..] == a[1..] + b;
    }
  }

  lemma {:induction false} NoColons(s: string)
    ensures Colons(s) == 0 <==> ':' !in s
  {
    if s != "" { NoColons(s[1..]); }
  }

  // How many characters stand behind the last colon.
  function Behind(s: string): nat {
    if s == "" || s[|s| - 1] == ':' then 0 else 1 + Behind(s[..|s| - 1])
  }

  lemma {:induction false} BehindConcat(a: string, b: string)
    ensures ':' in b ==> Behind(a + b) == Behind(b)
    ensures ':' !in b ==> Behind(a + b) == |b| + Behind(a)
  {
    if b == "" {
      assert a + b == a;
    } else {
      var n := |b| - 1;
      BehindConcat(a, b[..n]);
      assert (a + b)[|a + b| - 1] == b[n] && (a + b)[..|a + b| - 1] == a + b[..n];
      assert b == b[..n] + [b[n]];
    }
  }

  lemma {:induction false} FillColons(parts: Parts, v: string, s: string, t: string)
    requires Colons(t) == 0
    ensures Colons(Fill(parts, v, t)) <= Colons(Fill(parts, v, s))
  {
    hide Colons;
    if parts != [] {
      FillColons(parts[1..], v, s, t);
      ColonsConcat(Value(parts[0], v, s), Fill(parts[1..], v, s));
      ColonsConcat(Value(parts[0], v, t), Fill(parts[1..], v, t));
    }
  }

  // If a text with the same end, and no fewer colons, is found in another, it is found at its end.
  lemma FoundAtEnd(text: string, before: string, found: string, after: string, x: string, y: string, end: string)
    requires text == before + (found + after) && text == x + end && found == y + end && ':' in end
    requires Colons(text) <= Colons(found)
    ensures after == ""
  {
    hide Colons, Behind;
    ColonsConcat(before, found + after);
    ColonsConcat(found, after);
    NoColons(after);
    BehindConcat(x, end);
    BehindConcat(y, end);
    BehindConcat(found, after);
    if ':' in found + after { BehindConcat(before, found + after); } else { ColonInFound(y, end, after); }
  }

  lemma ColonInFound(y: string, end: string, after: string)
    requires ':' in end
    ensures ':' in y + end + after
  {
    var k :| 0 <= k < |end| && end[k] == ':';
    assert (y + end + after)[|y| + k] == ':';
  }

  // Nothing that begins with a hash, has no dollar sign and ends like the text behind a placeholder
  // makes up the end of the text with the placeholder.
  lemma NotBehindPlaceholder(left: string, right: string, before: string, found: string, y: string)
    requires found == y + right && y != "" && y[0] == '#' && '$' !in found
    ensures left + (SERVER + right) != before + found
  {
    var text, other := left + (SERVER + right), before + found;
    assert text[|left|] == '$';
    if |text| == |other| {
      if |before| <= |left| {
        assert other[|left|] == found[|left| - |before|];
      } else {
        assert text[|before|] == SERVER[|before| - |left|] && other[|before|] == found[0] == '#';
      }
    }
  }

  lemma {:induction false} KeepsHash(parts: Parts, v: string, s: string, t: string)
    requires StartsWith(Fill(parts, v, s), "#") && v != "" && s != "" && v[0] != '#' && s[0] != '#'
    ensures StartsWith(Fill(parts, v, t), "#")
  {
    if parts != [] {
      if Value(parts[0], v, s) == "" {
        assert Fill(parts, v, s) == Fill(parts[1..], v, s) && Fill(parts, v, t) == Fill(parts[1..], v, t);
        KeepsHash(parts[1..], v, s, t);
      }
    }
  }

  // The alias of a channel, when the server is named more than once: the placeholder that is left last.
  lemma LeftoverSplit(parts: Parts, channel: string, domain: string) returns (left: string, y: string, right: string)
    requires Count(parts, Var) == 1 && Count(parts, Server) >= 2 && TextDollars(parts) == 0
    requires '$' !in channel && '$' !in domain && StartsWith(Fill(parts, CHANNEL, SERVER), "#")
    ensures
      Fill(Once(Once(parts, Var, channel), Server, domain), CHANNEL, SERVER) == left + (SERVER + right)
      && Fill(parts, channel, domain) == y + right && y != "" && y[0] == '#'
      && '$' !in Fill(parts, channel, domain)
      && Colons(left + (SERVER + right)) <= Colons(y + right)
  {
    var once := Once(parts, Var, channel);
    var twice := Once(once, Server, domain);
    OnceOther(parts, Var, Server, channel);
    OnceOther(once, Server, Var, domain);
    OnceIsAll(parts, Var, channel, channel, domain);
    hide Once, Fill, Colons, StartsWith, TextDollars;
    var a, b := LastOf(twice, Server);
    CountConcat(a, [Server] + b, Var);
    CountConcat([Server], b, Var);
    FilledTwice(parts, once, twice, channel, domain);
    SplitAtServer(twice, a, b, SERVER);
    SplitAtServer(twice, a, b, domain);
    FillWithout(b, Server, CHANNEL, SERVER, domain);
    left, y, right := Fill(a, CHANNEL, SERVER), Fill(a, CHANNEL, domain) + domain, Fill(b, CHANNEL, SERVER);
    Associates(Fill(a, CHANNEL, domain), domain, right);
    PlaceholdersDollar();
    OnceKeepsFirst(parts, Var, channel, CHANNEL, SERVER, "#");
    OnceKeepsFirst(once, Server, domain, CHANNEL, SERVER, "#");
    HashInFront(left, SERVER + right);
    KeepsHash(a, CHANNEL, SERVER, domain);
    HashFirst(Fill(a, CHANNEL, domain), domain);
    NoDollarsLeft(parts, channel, domain);
    NoColons(SERVER);
    FillColons(twice, CHANNEL, domain, SERVER);
  }

  lemma FilledTwice(parts: Parts, once: Parts, twice: Parts, channel: string, domain: string)
    requires once == Once(parts, Var, channel) && twice == Once(once, Server, domain)
    requires Count(parts, Var) == 1 && Count(once, Var) == 0
    ensures Fill(twice, CHANNEL, domain) == Fill(parts, channel, domain)
  {
    OnceIsAll(parts, Var, channel, channel, domain);
    OnceFilled(once, Server, domain, CHANNEL);
    FillWithout(once, Var, CHANNEL, domain, channel);
  }

  // Making a variable the text that it is filled with changes nothing.
  lemma {:induction false} OnceFilled(parts: Parts, part: Part, s: string, v: string)
    requires part == Server
    ensures Fill(Once(parts, part, s), v, s) == Fill(parts, v, s)
  {
    if parts != [] {
      if parts[0] == part {
        FillPush(Text(s), parts[1..], v, s);
      } else {
        OnceFilled(parts[1..], part, s, v);
        FillPush(parts[0], Once(parts[1..], part, s), v, s);
      }
    }
  }

  lemma SplitAtServer(parts: Parts, a: Parts, b: Parts, s: string)
    requires parts == a + ([Server] + b)
    ensures Fill(parts, CHANNEL, s) == Fill(a, CHANNEL, s) + (s + Fill(b, CHANNEL, s))
  {
    hide Fill;
    FillConcat(a, [Server] + b, CHANNEL, s);
    FillPush(Server, b, CHANNEL, s);
  }

  lemma HashInFront(left: string, rest: string)
    requires StartsWith(left + rest, "#") && rest != "" && rest[0] == '$'
    ensures StartsWith(left, "#")
  {
    assert left != "" ==> (left + rest)[0] == left[0];
    assert left == "" ==> left + rest == rest;
    PrefixAt(left + rest, "#", 0);
  }

  lemma HashFirst(a: string, b: string)
    requires StartsWith(a, "#")
    ensures a + b != "" && (a + b)[0] == '#'
  {
  }

  lemma NoDollarsLeft(parts: Parts, channel: string, domain: string)
    requires TextDollars(parts) == 0 && '$' !in channel && '$' !in domain
    ensures '$' !in Fill(parts, channel, domain)
  {
    NoDollars(channel);
    NoDollars(domain);
    FillDollars(parts, channel, domain);
    hide Fill;
    SomeDollar(Fill(parts, channel, domain));
  }

  lemma {:induction false} SomeDollar(s: string)
    requires Dollars(s) == 0
    ensures '$' !in s
  {
    if s != "" { SomeDollar(s[1..]); }
  }

  lemma AliasIs(server: IrcServer, parts: Parts, channel: string)
    requires OneVariable(server.aliasTemplate, CHANNEL, parts, server.domain) && '$' !in channel
    requires StartsWith(server.aliasTemplate, "#")
    ensures server.GetAliasFromChannel(channel)
         == Ok(Fill(Once(Once(parts, Var, channel), Server, server.domain), CHANNEL, SERVER) + (":" + server.homeserverDomain))
  {
    hide Fill, Plain, Count, Once, Rendered, StartsWith;
    RenderTwo(parts, Var, CHANNEL, channel, Server, SERVER, server.domain);
  }

  // If the template names the server more than once, the alias keeps a placeholder, and no channel can
  // be got back from its alias.
  lemma TwoServersLoseChannel(server: IrcServer, parts: Parts, channel: string)
    requires OneVariable(server.aliasTemplate, CHANNEL, parts, server.domain) && IsIrcName(channel)
    requires TextDollars(parts) == 0 && '$' !in server.homeserverDomain && StartsWith(server.aliasTemplate, "#")
    requires Count(parts, Server) >= 2
    ensures
      match server.GetAliasFromChannel(channel)
      case Ok(alias) => server.GetChannelFromAlias(alias) != Some(channel)
      case Err(_) => false
  {
    hide Fill, Front, Back, Plain, Count, Once, TextDollars, RegexText, Parse, Exec, Lits, StartsWith, Colons;
    AliasIs(server, parts, channel);
    RegexOfTemplate(parts, CHANNEL, NotColon, server.domain, server.homeserverDomain);
    NoChannelInAlias(server, parts, channel, server.GetAliasFromChannel(channel).value);
  }

  lemma NoChannelInAlias(server: IrcServer, parts: Parts, channel: string, alias: string)
    requires Count(parts, Var) == 1 && IsIrcName(channel) && '$' !in server.domain
    requires TextDollars(parts) == 0 && '$' !in server.homeserverDomain && StartsWith(Fill(parts, CHANNEL, SERVER), "#")
    requires Count(parts, Server) >= 2
    requires alias == Fill(Once(Once(parts, Var, channel), Server, server.domain), CHANNEL, SERVER) + (":" + server.homeserverDomain)
    ensures
      var front, tail := Front(parts, server.domain), Back(parts, server.domain) + (":" + server.homeserverDomain);
      match Exec(Lits(front) + ([Group(NotColon)] + Lits(tail)), alias)
      case None => true
      case Some(groups) => groups != [] && groups[0] != channel
  {
    hide Fill, Front, Back, Count, Once, TextDollars, Exec, Lits, StartsWith, Colons;
    var front, back, end := Front(parts, server.domain), Back(parts, server.domain), ":" + server.homeserverDomain;
    if Exec(Lits(front) + ([Group(NotColon)] + Lits(back + end)), alias).Some? {
      var before, group, after := ExecBetween(NotColon, front, back + end, alias);
      if group == channel {
        ElsewhereInAlias(server, parts, channel, alias, before, after);
      }
    }
  }

  // The channel with the filled template around it is nowhere in the alias.
  lemma ElsewhereInAlias(server: IrcServer, parts: Parts, channel: string, alias: string, before: string, after: string)
    requires Count(parts, Var) == 1 && IsIrcName(channel) && '$' !in server.domain
    requires TextDollars(parts) == 0 && '$' !in server.homeserverDomain && StartsWith(Fill(parts, CHANNEL, SERVER), "#")
    requires Count(parts, Server) >= 2
    requires alias == Fill(Once(Once(parts, Var, channel), Server, server.domain), CHANNEL, SERVER) + (":" + server.homeserverDomain)
    ensures
      var front, tail := Front(parts, server.domain), Back(parts, server.domain) + (":" + server.homeserverDomain);
      alias != before + (front + (channel + (tail + after)))
  {
    hide Fill, Front, Back, Count, Once, TextDollars, StartsWith, Colons;
    var front, back, end := Front(parts, server.domain), Back(parts, server.domain), ":" + server.homeserverDomain;
    if alias == before + (front + (channel + (back + end + after))) {
      var left, y, right := LeftoverSplit(parts, channel, server.domain);
      FrontAndBack(parts, channel, server.domain);
      var full := Fill(parts, channel, server.domain);
      var found := full + end;
      Regrouped(before, front, channel, back, end, after);
      ColonsConcat(left + (SERVER + right), end);
      ColonsConcat(full, end);
      FoundAtEnd(alias, before, found, after, left + (SERVER + right), full, end);
      Associates(left, SERVER + right, end);
      Associates(SERVER, right, end);
      Associates(y, right, end);
      assert found + "" == found;
      NotBehindPlaceholder(left, right + end, before, found, y);
    }
  }

  lemma Regrouped(before: string, front: string, group: string, back: string, end: string, after: string)
    ensures before + (front + (group + (back + end + after))) == before + (front + (group + back) + end + after)
  {
  }

  // A channel is got back from its alias exactly when the template names the server at most once.
  lemma ChannelRoundTripIff(server: IrcServer, parts: Parts, channel: string)
    requires OneVariable(server.aliasTemplate, CHANNEL, parts, server.domain) && IsIrcName(channel)
    requires TextDollars(parts) == 0 && '$' !in server.homeserverDomain && StartsWith(server.aliasTemplate, "#")
    ensures
      match server.GetAliasFromChannel(channel)
      case Ok(alias) => server.GetChannelFromAlias(alias) == Some(channel) <==> Count(parts, Server) <= 1
      case Err(_) => false
  {
    hide OneVariable, Count, StartsWith, Fill;
    if Count(parts, Server) <= 1 {
      ChannelRoundTrip(server, parts, channel);
    } else {
      TwoServersLoseChannel(server, parts, channel);
    }
  }
}
