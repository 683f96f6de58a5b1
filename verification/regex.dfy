// The regular expressions that src/irc/IrcServer.ts builds: literal characters and groups.

module Regex {
  import opened Strings

  // A group: `.` as few times as possible, `.` as often as possible, or anything but a colon.
  datatype Kind = Lazy | Greedy | NotColon

  datatype Node = Lit(c: char) | Group(kind: Kind)

  function GroupText(kind: Kind): string {
    match kind
    case Lazy => "(.*?)"
    case Greedy => "(.*)"
    case NotColon => "([^:]*)"
  }

  predicate IsSpecial(c: char) {
    c in ".*+?^${}()|[]\\"
  }

  function EscapeOf(c: char): string {
    if IsSpecial(c) then ['\\', c] else [c]
  }

  // escapeRegExp
  function Escape(s: string): string {
    if s == "" then "" else EscapeOf(s[0]) + Escape(s[1..])
  }

  // Reading the text of an expression.
  function Parse(r: string): seq<Node> {
    if r == "" then []
    else if r[0] == '\\' && |r| > 1 then [Lit(r[1])] + Parse(r[2..])
    else if StartsWith(r, GroupText(Lazy)) then [Group(Lazy)] + Parse(r[|GroupText(Lazy)|..])
    else if StartsWith(r, GroupText(Greedy)) then [Group(Greedy)] + Parse(r[|GroupText(Greedy)|..])
    else if StartsWith(r, GroupText(NotColon)) then [Group(NotColon)] + Parse(r[|GroupText(NotColon)|..])
    else [Lit(r[0])] + Parse(r[1..])
  }

  predicate IsLineTerminator(c: char) {
    c == '\n' || c == '\r' || c == '\U{2028}' || c == '\U{2029}'
  }

  predicate Allowed(kind: Kind, c: char) {
    if kind.NotColon? then c != ':' else !IsLineTerminator(c)
  }

  // Backtracking search at the start of the text: the groups of the first match.
  function Match(nodes: seq<Node>, text: string): Option<seq<string>>
    decreases |nodes|, |text| + 1
  {
    if nodes == [] then Some([])
    else
      match nodes[0]
      case Lit(c) => if text != "" && text[0] == c then Match(nodes[1..], text[1..]) else None
      case Group(kind) => MatchGroup(kind, nodes, text, 0)
  }

  // The group has taken k characters.
  function MatchGroup(kind: Kind, nodes: seq<Node>, text: string, k: nat): Option<seq<string>>
    requires nodes != [] && k <= |text|
    decreases |nodes|, |text| - k
  {
    var here := match Match(nodes[1..], text[k..])
      case None => None
      case Some(groups) => Some([text[..k]] + groups);
    var more := if k < |text| && Allowed(kind, text[k]) then MatchGroup(kind, nodes, text, k + 1) else None;
    if kind.Lazy? then (if here.Some? then here else more)
    else if more.Some? then more else here
  }

  // exec: the match furthest to the left.
  function Exec(nodes: seq<Node>, text: string): Option<seq<string>>
    decreases |text|
  {
    var here := Match(nodes, text);
    if here.Some? || text == "" then here else Exec(nodes, text[1..])
  }

  function Lits(s: string): (nodes: seq<Node>)
    ensures |nodes| == |s|
  {
    if s == "" then [] else [Lit(s[0])] + Lits(s[1..])
  }

  // --- Escaping ---

  lemma {:induction false} EscapeConcat(a: string, b: string)
    ensures Escape(a + b) == Escape(a) + Escape(b)
  {
    if a == "" {
      assert a + b == b;
    } else {
      EscapeConcat(a[1..], b);
      assert (a + b)[0] == a[0] && (a + b)[1..] == a[1..] + b;
      Associates(EscapeOf(a[0]), Escape(a[1..]), Escape(b));
    }
  }

  lemma EscapedChar(c: char, rest: string)
    ensures Parse(EscapeOf(c) + rest) == [Lit(c)] + Parse(rest)
  {
  }

  // An escaped text stands for itself.
  lemma {:induction false} ParseEscape(s: string, rest: string)
    ensures Parse(Escape(s) + rest) == Lits(s) + Parse(rest)
  {
    hide Parse, EscapeOf;
    if s == "" {
      assert Escape(s) + rest == rest;
    } else {
      Associates(EscapeOf(s[0]), Escape(s[1..]), rest);
      EscapedChar(s[0], Escape(s[1..]) + rest);
      ParseEscape(s[1..], rest);
      assert [Lit(s[0])] + (Lits(s[1..]) + Parse(rest)) == [Lit(s[0])] + Lits(s[1..]) + Parse(rest);
    }
  }

  lemma ParseGroup(kind: Kind, rest: string)
    ensures Parse(GroupText(kind) + rest) == [Group(kind)] + Parse(rest)
  {
    var r := GroupText(kind) + rest;
    StartsWithConcat(GroupText(kind), rest);
    assert r[0] == '(';
    if kind.Greedy? { assert r[3] == ')' && GroupText(Lazy)[3] == '?'; OtherGroup(r, Lazy, 3); }
    if kind.NotColon? { assert r[1] == '['; OtherGroup(r, Lazy, 1); OtherGroup(r, Greedy, 1); }
    hide StartsWith, GroupText;
  }

  lemma OtherGroup(r: string, kind: Kind, i: nat)
    requires i < |GroupText(kind)| && i < |r| && r[i] != GroupText(kind)[i]
    ensures !StartsWith(r, GroupText(kind))
  {
  }

  // --- Matching ---

  lemma MatchLit(c: char, nodes: seq<Node>, text: string)
    ensures Match([Lit(c)] + nodes, [c] + text) == Match(nodes, text)
  {
  }

  lemma {:induction false} MatchLits(s: string, rest: seq<Node>, text: string)
    ensures Match(Lits(s) + rest, s + text) == Match(rest, text)
  {
    hide Match;
    if s == "" {
      assert Lits(s) + rest == rest && s + text == text;
    } else {
      MatchLits(s[1..], rest, text);
      MatchLit(s[0], Lits(s[1..]) + rest, s[1..] + text);
      assert Lits(s) + rest == [Lit(s[0])] + (Lits(s[1..]) + rest);
      assert s + text == [s[0]] + (s[1..] + text);
    }
  }

  lemma {:induction false} MatchLiteral(s: string, text: string)
    ensures Match(Lits(s), text) == if StartsWith(text, s) then Some([]) else None
  {
    if s != "" {
      assert Lits(s)[1..] == Lits(s[1..]);
      if text != "" && text[0] == s[0] {
        MatchLiteral(s[1..], text[1..]);
        StartsWithTail(text, s);
      }
    }
  }

  lemma StartsWithTail(text: string, s: string)
    requires text != "" && s != "" && text[0] == s[0]
    ensures StartsWith(text, s) <==> StartsWith(text[1..], s[1..])
  {
  }

  // A tail with a colon cannot start inside a text without one.
  lemma NoEarlierTail(c: string, tail: string, k: nat)
    requires ':' !in c && ':' in tail && k < |c|
    ensures !StartsWith((c + tail)[k..], tail)
  {
    var f := FirstColon(tail);
    var text := c + tail;
    assert text[k..][f] == text[k + f];
    assert text[k + f] != ':' by {
      if k + f >= |c| { assert text[k + f] == tail[k + f - |c|]; }
    }
    PrefixAt(text[k..], tail, f);
  }

  function FirstColon(s: string): (f: nat)
    requires ':' in s
    ensures f < |s| && s[f] == ':' && forall k :: 0 <= k < f ==> s[k] != ':'
  {
    if s[0] == ':' then 0 else 1 + FirstColon(s[1..])
  }

  lemma GroupHere(kind: Kind, tail: string, text: string, k: nat)
    requires k <= |text|
    ensures
      var nodes := [Group(kind)] + Lits(tail);
      var here := if StartsWith(text[k..], tail) then Some([text[..k]]) else None;
      var more := if k < |text| && Allowed(kind, text[k]) then MatchGroup(kind, nodes, text, k + 1) else None;
      MatchGroup(kind, nodes, text, k) ==
      if kind.Lazy? then (if here.Some? then here else more) else if more.Some? then more else here
  {
    var nodes := [Group(kind)] + Lits(tail);
    assert nodes[1..] == Lits(tail);
    MatchLiteral(tail, text[k..]);
    var none: seq<string> := [];
    assert [text[..k]] + none == [text[..k]];
    hide Match, StartsWith, Allowed;
  }

  // Beyond the right length a group finds nothing: the tail does not fit.
  lemma {:induction false} TooLong(kind: Kind, c: string, tail: string, k: nat)
    requires |c| < k <= |c + tail|
    ensures MatchGroup(kind, [Group(kind)] + Lits(tail), c + tail, k) == None
    decreases |c + tail| - k
  {
    var text := c + tail;
    GroupHere(kind, tail, text, k);
    if k < |text| { TooLong(kind, c, tail, k + 1); }
    assert |text[k..]| < |tail|;
    hide MatchGroup, Allowed;
  }

  lemma {:induction false} GroupTakes(kind: Kind, c: string, tail: string, k: nat)
    requires k <= |c| && forall i :: 0 <= i < |c| ==> Allowed(kind, c[i])
    requires kind.Lazy? ==> ':' !in c && ':' in tail
    ensures MatchGroup(kind, [Group(kind)] + Lits(tail), c + tail, k) == Some([c])
    decreases |c| - k
  {
    hide MatchGroup, Allowed;
    var text := c + tail;
    GroupHere(kind, tail, text, k);
    if k < |c| {
      assert text[k] == c[k];
      GroupTakes(kind, c, tail, k + 1);
      if kind.Lazy? { NoEarlierTail(c, tail, k); }
    } else {
      assert text[k..] == tail && text[..k] == c;
      assert StartsWith(tail, tail);
      if k < |text| { TooLong(kind, c, tail, k + 1); }
    }
  }

  // Text, one group, text: the group takes what lies between.
  lemma MatchBetween(kind: Kind, front: string, c: string, tail: string)
    requires forall i :: 0 <= i < |c| ==> Allowed(kind, c[i])
    requires kind.Lazy? ==> ':' !in c && ':' in tail
    ensures Exec(Lits(front) + ([Group(kind)] + Lits(tail)), front + (c + tail)) == Some([c])
  {
    var nodes := [Group(kind)] + Lits(tail);
    GroupTakes(kind, c, tail, 0);
    assert Match(nodes, c + tail) == MatchGroup(kind, nodes, c + tail, 0);
    hide Match, MatchGroup, Allowed;
    MatchLits(front, nodes, c + tail);
  }

  // --- What a match says about the text ---

  lemma {:induction false} MatchLitsFound(s: string, rest: seq<Node>, text: string)
    requires Match(Lits(s) + rest, text).Some?
    ensures StartsWith(text, s) && Match(Lits(s) + rest, text) == Match(rest, text[|s|..])
  {
    if s == "" {
      assert Lits(s) + rest == rest && text[0..] == text;
    } else {
      var nodes := Lits(s) + rest;
      assert nodes[0] == Lit(s[0]) && nodes[1..] == Lits(s[1..]) + rest;
      MatchLitsFound(s[1..], rest, text[1..]);
      StartsWithTail(text, s);
      assert text[1..][|s| - 1..] == text[|s|..];
    }
  }

  lemma {:induction false} GroupFound(kind: Kind, tail: string, text: string, k: nat) returns (j: nat)
    requires k <= |text| && MatchGroup(kind, [Group(kind)] + Lits(tail), text, k).Some?
    ensures j <= |text| && StartsWith(text[j..], tail)
    ensures MatchGroup(kind, [Group(kind)] + Lits(tail), text, k) == Some([text[..j]])
    decreases |text| - k
  {
    hide Match, MatchGroup, StartsWith, Allowed;
    GroupHere(kind, tail, text, k);
    var nodes := [Group(kind)] + Lits(tail);
    j := k;
    if k < |text| && MatchGroup(kind, nodes, text, k + 1).Some? {
      var more := GroupFound(kind, tail, text, k + 1);
      if MatchGroup(kind, nodes, text, k) == MatchGroup(kind, nodes, text, k + 1) { j := more; }
    }
  }

  lemma {:induction false} ExecFound(nodes: seq<Node>, text: string) returns (i: nat)
    requires Exec(nodes, text).Some?
    ensures i <= |text| && Match(nodes, text[i..]) == Exec(nodes, text)
    decreases |text|
  {
    hide Match;
    i := 0;
    assert text[0..] == text;
    if Match(nodes, text).None? {
      var rest := ExecFound(nodes, text[1..]);
      i := rest + 1;
      assert text[1..][rest..] == text[i..];
    }
  }

  lemma SplitAt(text: string, s: string)
    requires StartsWith(text, s)
    ensures text == s + text[|s|..]
  {
  }

  // Whatever matches is somewhere in the text: text, group, text.
  lemma ExecBetween(kind: Kind, front: string, tail: string, text: string) returns (before: string, group: string, after: string)
    requires Exec(Lits(front) + ([Group(kind)] + Lits(tail)), text).Some?
    ensures Exec(Lits(front) + ([Group(kind)] + Lits(tail)), text) == Some([group])
    ensures text == before + (front + (group + (tail + after)))
  {
    var nodes := [Group(kind)] + Lits(tail);
    var i := ExecFound(Lits(front) + nodes, text);
    MatchLitsFound(front, nodes, text[i..]);
    var rest := text[i..][|front|..];
    assert Match(nodes, rest) == MatchGroup(kind, nodes, rest, 0);
    hide Match, MatchGroup, Exec;
    var j := GroupFound(kind, tail, rest, 0);
    before, group, after := text[..i], rest[..j], rest[j..][|tail|..];
    SplitAt(text[i..], front);
    SplitAt(rest[j..], tail);
    hide StartsWith;
    assert rest == group + (tail + after) && text == before + text[i..];
  }
}
