// src/irc/formatting.ts: htmlTag and ircToHtml as functions on a stack of tags.

module IrcToHtmlSpec {
  import opened Strings
  import opened IrcCodes
  import opened Html

  // The stack of open tags and the colour registers.
  datatype State = State(hist: seq<Tag>, colours: Colours)

  const INITIAL := State([], PLAIN)

  function ElementOf(t: Tag, colours: Colours): Element {
    Element(t, if t.Font? then colours else PLAIN)
  }

  function Elements(hist: seq<Tag>, colours: Colours): (r: seq<Element>)
    ensures |r| == |hist|
    ensures forall k :: 0 <= k < |hist| ==> r[k] == ElementOf(hist[k], colours)
  {
    seq(|hist|, k requires 0 <= k < |hist| => ElementOf(hist[k], colours))
  }

  function Opens(tags: seq<Tag>, colours: Colours): seq<Piece> {
    if tags == [] then []
    else [Open(ElementOf(tags[0], colours))] + Opens(tags[1..], colours)
  }

  // Closing a suffix of the stack, innermost first.
  function Closes(tags: seq<Tag>): seq<Piece> {
    if tags == [] then [] else [Close(tags[|tags| - 1])] + Closes(tags[..|tags| - 1])
  }

  // Array.prototype.lastIndexOf, searching down from position n.
  function LastIndexBelow(hist: seq<Tag>, t: Tag, n: nat): (i: int)
    requires n <= |hist|
    ensures -1 <= i < n
    ensures i >= 0 ==> hist[i] == t
    ensures forall k :: i < k < n ==> hist[k] != t
  {
    if n == 0 then -1 else if hist[n - 1] == t then n - 1 else LastIndexBelow(hist, t, n - 1)
  }

  // Where `history.splice(lastIndexOf(t))` cuts: index -1 counts from the end, so an absent tag
  // cuts off the last entry.
  function CutIndex(hist: seq<Tag>, t: Tag): (i: nat)
    ensures i <= |hist|
    ensures t in hist ==> i < |hist| && hist[i] == t
    ensures t !in hist ==> i == if hist == [] then 0 else |hist| - 1
  {
    var index := LastIndexBelow(hist, t, |hist|);
    if index >= 0 then index else if hist == [] then 0 else |hist| - 1
  }

  function DropLast<T>(s: seq<T>): seq<T> {
    if s == [] then [] else s[..|s| - 1]
  }

  function OpenTag(s: State, t: Tag): (seq<Piece>, State) {
    ([Open(ElementOf(t, s.colours))], s.(hist := s.hist + [t]))
  }

  function CloseTag(s: State, t: Tag): (r: (seq<Piece>, State))
    ensures r.1.colours == s.colours
  {
    var index := CutIndex(s.hist, t);
    var again := DropLast(Reversed(s.hist[index..]));
    (Closes(s.hist[index..]) + Opens(again, s.colours), s.(hist := s.hist[..index] + again))
  }

  function CloseAll(s: State): (seq<Piece>, State) {
    (Closes(s.hist), s.(hist := []))
  }

  function ToggleTag(s: State, t: Tag): (seq<Piece>, State) {
    if t in s.hist then CloseTag(s, t) else OpenTag(s, t)
  }

  // REVERSE_CODE: swap the colours, then close and re-open the font tag.
  function OnReverse(s: State): (seq<Piece>, State) {
    var (closing, s1) := CloseTag(s.(colours := s.colours.Swapped()), Font);
    var (opening, s2) := OpenTag(s1, Font);
    (closing + opening, s2)
  }

  // STYLE_COLOR: close the font if a colour was set, and open one if a colour is set now.
  function OnColour(s: State, fg: string, bg: string): (seq<Piece>, State) {
    var (closing, s1) := if s.colours.Any() then CloseTag(s, Font) else ([], s);
    var s2 := s1.(colours := s.colours.Updated(fg, bg));
    var (opening, s3) := if s2.colours.Any() then OpenTag(s2, Font) else ([], s2);
    (closing + opening, s3)
  }

  // The callback of ircToHtml for one match.
  function Step(s: State, t: Token): (seq<Piece>, State) {
    match t
    case Ch(c) => ([Text(c)], s)
    case Toggle(style) => ToggleTag(s, Simple(style))
    case Reverse => OnReverse(s)
    case Reset => (CloseAll(s).0, INITIAL)
    case Colour(fg, bg) => OnColour(s, fg, bg)
  }

  function Translate(ts: seq<Token>, s: State): seq<Piece> {
    if ts == [] then []
    else
      var (ps, s') := Step(s, ts[0]);
      ps + Translate(ts[1..], s')
  }

  function After(ts: seq<Token>, s: State): State {
    if ts == [] then s else After(ts[1..], Step(s, ts[0]).1)
  }

  // ircToHtml on tokens: a reset is added to close all tags at the end.
  function Pieces(ts: seq<Token>): seq<Piece> {
    Translate(ts + [Reset], INITIAL)
  }

  // --- Nesting ---

  lemma {:induction false} OpensRun(tags: seq<Tag>, colours: Colours, st: seq<Element>)
    ensures NoText(Opens(tags, colours)) && |Opens(tags, colours)| == |tags|
    ensures Run(Opens(tags, colours), st) == Some(st + Elements(tags, colours))
  {
    if tags == [] {
      assert st + Elements(tags, colours) == st;
    } else {
      OpensRun(tags[1..], colours, st + [ElementOf(tags[0], colours)]);
      assert st + [ElementOf(tags[0], colours)] + Elements(tags[1..], colours) == st + Elements(tags, colours);
    }
  }

  lemma {:induction false} ClosesRun(tags: seq<Tag>, st: seq<Element>, elems: seq<Element>)
    requires Names(elems) == tags
    ensures NoText(Closes(tags)) && |Closes(tags)| == |tags|
    ensures Run(Closes(tags), st + elems) == Some(st)
  {
    if tags == [] {
      assert st + elems == st;
    } else {
      var n := |tags| - 1;
      ClosesRun(tags[..n], st, elems[..n]);
      assert Names(elems)[n] == tags[n];
      assert (st + elems)[..|st + elems| - 1] == st + elems[..n];
    }
  }

  lemma NamesOfElements(st: seq<Element>, hist: seq<Tag>, colours: Colours)
    ensures Names(st + Elements(hist, colours)) == Names(st) + hist
  {
  }

  // Tags that take the open elements st to elements named hist.
  ghost predicate Nests(ps: seq<Piece>, st: seq<Element>, hist: seq<Tag>) {
    NoText(ps) && Run(ps, st).Some? && Names(Run(ps, st).value) == hist
  }

  lemma CloseReopen(st: seq<Element>, index: nat, again: seq<Tag>, colours: Colours)
    requires index <= |st|
    ensures
      var ps := Closes(Names(st)[index..]) + Opens(again, colours);
      && Nests(ps, st, Names(st)[..index] + again)
      && Run(ps, st).value == st[..index] + Elements(again, colours)
  {
    var cut, kept := st[index..], st[..index];
    assert kept + cut == st;
    assert Names(cut) == Names(st)[index..];
    ClosesRun(Names(cut), kept, cut);
    OpensRun(again, colours, kept);
    RunConcat(Closes(Names(cut)), Opens(again, colours), st);
    NamesOfElements(kept, again, colours);
    assert Names(kept) == Names(st)[..index];
  }

  // Closing a tag pops the suffix from it and pushes the rest of the suffix again, reversed,
  // with the current colours.
  lemma CloseTagRuns(s: State, t: Tag, st: seq<Element>)
    requires Names(st) == s.hist
    ensures Nests(CloseTag(s, t).0, st, CloseTag(s, t).1.hist)
    ensures forall e :: e in Run(CloseTag(s, t).0, st).value ==>
                          e in st[..CutIndex(s.hist, t)] || e == ElementOf(e.tag, s.colours)
  {
    var index := CutIndex(s.hist, t);
    var again := DropLast(Reversed(s.hist[index..]));
    CloseReopen(st, index, again, s.colours);
  }

  lemma OpenTagRuns(s: State, t: Tag, st: seq<Element>)
    requires Names(st) == s.hist
    ensures Nests(OpenTag(s, t).0, st, OpenTag(s, t).1.hist)
    ensures Run(OpenTag(s, t).0, st).value == st + [ElementOf(t, s.colours)]
  {
  }

  lemma CloseThenOpen(s: State, next: Colours, st: seq<Element>)
    requires Names(st) == s.hist
    ensures
      var (closing, s1) := CloseTag(s, Font);
      var (opening, s2) := OpenTag(s1.(colours := next), Font);
      && Nests(closing, st, s1.hist)
      && Nests(closing + opening, st, s2.hist)
      && Run(closing + opening, st).value == Run(closing, st).value + [ElementOf(Font, next)]
  {
    var (closing, s1) := CloseTag(s, Font);
    CloseTagRuns(s, Font, st);
    OpenTagRuns(s1.(colours := next), Font, Run(closing, st).value);
    RunConcat(closing, OpenTag(s1.(colours := next), Font).0, st);
  }

  lemma ColourNests(s: State, fg: string, bg: string, st: seq<Element>)
    requires Names(st) == s.hist
    ensures Nests(OnColour(s, fg, bg).0, st, OnColour(s, fg, bg).1.hist)
  {
    var next := s.colours.Updated(fg, bg);
    if s.colours.Any() && next.Any() {
      CloseThenOpen(s, next, st);
    } else if s.colours.Any() {
      CloseTagRuns(s, Font, st);
      assert OnColour(s, fg, bg).0 == CloseTag(s, Font).0;
    } else if next.Any() {
      OpenTagRuns(s.(colours := next), Font, st);
      assert OnColour(s, fg, bg).0 == OpenTag(s.(colours := next), Font).0;
    } else {
      assert OnColour(s, fg, bg).0 == [];
    }
  }

  // One code keeps the output nested: its tags take the open elements to the new stack.
  lemma StepNests(s: State, t: Token, st: seq<Element>)
    requires Names(st) == s.hist && !t.Ch?
    ensures Nests(Step(s, t).0, st, Step(s, t).1.hist)
  {
    match t
    case Toggle(style) =>
      if Simple(style) in s.hist {
        CloseTagRuns(s, Simple(style), st);
      } else {
        OpenTagRuns(s, Simple(style), st);
      }
    case Reverse =>
      CloseThenOpen(s.(colours := s.colours.Swapped()), s.colours.Swapped(), st);
    case Reset =>
      ClosesRun(s.hist, [], st);
      assert [] + st == st;
    case Colour(fg, bg) =>
      ColourNests(s, fg, bg, st);
  }

  lemma {:induction false} TranslateNests(ts: seq<Token>, s: State, st: seq<Element>)
    requires Names(st) == s.hist
    ensures Run(Translate(ts, s), st).Some? && Names(Run(Translate(ts, s), st).value) == After(ts, s).hist
  {
    if ts != [] {
      var (ps, s') := Step(s, ts[0]);
      if ts[0].Ch? {
        assert ps[1..] == [] && Run(ps[1..], st) == Some(st);
      } else {
        StepNests(s, ts[0], st);
      }
      TranslateNests(ts[1..], s', Run(ps, st).value);
      RunConcat(ps, Translate(ts[1..], s'), st);
    }
  }

  lemma {:induction false} AfterReset(ts: seq<Token>, s: State)
    ensures After(ts + [Reset], s) == INITIAL
  {
    if ts == [] {
      assert (ts + [Reset])[1..] == [];
      assert After([], INITIAL) == INITIAL;
    } else {
      AfterReset(ts[1..], Step(s, ts[0]).1);
      assert (ts + [Reset])[1..] == ts[1..] + [Reset];
    }
  }

  // The output is well nested for every text, including \x16 and the splice(-1) case.
  lemma OutputBalanced(ts: seq<Token>)
    ensures Balanced(Pieces(ts))
  {
    TranslateNests(ts + [Reset], INITIAL, []);
    AfterReset(ts, INITIAL);
    assert |Run(Pieces(ts), []).value| == 0;
  }
}
