// What the markup made from a line of IRC text means, and how large its tag stack gets.

module IrcToHtmlProofs {
  import opened Strings
  import opened IrcCodes
  import opened Html
  import opened IrcToHtmlSpec

  // --- Meaning ---

  ghost predicate NoDuplicates(hist: seq<Tag>) {
    forall t :: multiset(hist)[t] <= 1
  }

  // Stacks of texts that reverse only while coloured: a font is open exactly when a colour is set.
  ghost predicate Tidy(s: State) {
    NoDuplicates(s.hist) && (Font in s.hist <==> s.colours.Any())
  }

  function StateMode(s: State): Mode {
    Mode((set style: Style | Simple(style) in s.hist), s.colours)
  }

  // Every open font in the output has the current colours as its attributes.
  ghost predicate FontsCarry(st: seq<Element>, colours: Colours) {
    forall e :: e in st && e.tag.Font? ==> e.attrs == colours
  }

  // The elements st are those open in the output when the translator is in state s.
  ghost predicate Matches(st: seq<Element>, s: State) {
    Names(st) == s.hist && FontsCarry(st, s.colours)
  }

  lemma {:induction false} InnerFontOf(st: seq<Element>, colours: Colours)
    requires FontsCarry(st, colours)
    ensures InnerFont(st) == if Font in Names(st) then colours else PLAIN
  {
    if st != [] {
      var n := |st| - 1;
      assert Names(st) == Names(st[..n]) + [st[n].tag];
      InnerFontOf(st[..n], colours);
    }
  }

  lemma TidyMode(st: seq<Element>, s: State)
    requires Tidy(s) && Matches(st, s)
    ensures ModeOf(st) == StateMode(s)
  {
    InnerFontOf(st, s.colours);
  }

  lemma {:induction false} ReversedContents(h: seq<Tag>)
    ensures multiset(Reversed(h)) == multiset(h)
  {
    if h != [] {
      ReversedContents(h[1..]);
      assert h == [h[0]] + h[1..];
    }
  }

  lemma CutContents(h: seq<Tag>, i: nat)
    requires i < |h|
    ensures
      var left := h[..i] + DropLast(Reversed(h[i..]));
      |left| == |h| - 1 && multiset(left) == multiset(h) - multiset{h[i]}
  {
    var kept, cut := h[..i], h[i..];
    var again := Reversed(cut);
    ReversedContents(cut);
    assert h == kept + cut && again == DropLast(again) + [h[i]];
    hide Reversed, DropLast;
    assert multiset(again) == multiset(DropLast(again)) + multiset{h[i]};
    assert multiset(kept + cut) == multiset(kept) + multiset(again);
    assert multiset(kept + DropLast(again)) == multiset(kept) + multiset(DropLast(again));
  }

  // Closing drops one entry, the one where the stack is cut, and keeps all others.
  lemma CloseTagContents(s: State, t: Tag)
    ensures s.hist == [] ==> CloseTag(s, t).1.hist == []
    ensures
      var i := CutIndex(s.hist, t);
      s.hist != [] ==>
        && i < |s.hist| && (t in s.hist ==> s.hist[i] == t)
        && |CloseTag(s, t).1.hist| == |s.hist| - 1
        && multiset(CloseTag(s, t).1.hist) == multiset(s.hist) - multiset{s.hist[i]}
  {
    if s.hist != [] {
      CutContents(s.hist, CutIndex(s.hist, t));
    }
  }

  lemma DuplicateFree(h: seq<Tag>, i: nat)
    requires NoDuplicates(h) && i < |h|
    ensures h[i] !in h[..i] && h[i] !in h[i + 1..]
  {
    var x := h[i];
    assert h == h[..i] + [x] + h[i + 1..];
    assert multiset(h) == multiset(h[..i]) + multiset{x} + multiset(h[i + 1..]);
    assert multiset(h)[x] <= 1;
    assert multiset(h[..i])[x] == 0 && multiset(h[i + 1..])[x] == 0;
  }

  // Closing an open tag removes exactly that tag from the stack.
  lemma CloseTagRemoves(s: State, t: Tag)
    requires NoDuplicates(s.hist) && t in s.hist
    ensures
      var hist := CloseTag(s, t).1.hist;
      NoDuplicates(hist) && forall x :: x in hist <==> x in s.hist && x != t
  {
    CloseTagContents(s, t);
    hide CloseTag, CutIndex;
    RemovedOnce(s.hist, CloseTag(s, t).1.hist, t);
  }

  lemma RemovedOnce(h: seq<Tag>, left: seq<Tag>, t: Tag)
    requires NoDuplicates(h) && t in h && multiset(left) == multiset(h) - multiset{t}
    ensures NoDuplicates(left) && forall x :: x in left <==> x in h && x != t
  {
    assert forall x :: x in left <==> x in multiset(left);
    assert forall x :: x in h <==> x in multiset(h);
  }

  // The markup for closing a tag leaves the elements of the new stack open. A font that is
  // closed may have carried other colours.
  lemma CloseTagMatches(st: seq<Element>, s: State, t: Tag)
    requires NoDuplicates(s.hist) && t in s.hist && Names(st) == s.hist
    requires t.Font? || FontsCarry(st, s.colours)
    ensures NoText(CloseTag(s, t).0) && Run(CloseTag(s, t).0, st).Some?
    ensures Matches(Run(CloseTag(s, t).0, st).value, CloseTag(s, t).1)
  {
    var i := CutIndex(s.hist, t);
    CloseTagRuns(s, t, st);
    DuplicateFree(s.hist, i);
    hide CloseTag, NoDuplicates, CutIndex;
    forall e | e in st[..i] && e.tag.Font?
      ensures e.attrs == s.colours
    {
      var k :| 0 <= k < i && st[k] == e;
      assert s.hist[..i][k] == e.tag;
    }
  }

  // The tags of one code take elements that match s to elements that match the next state, and
  // that state reads as an IRC client would.
  ghost predicate Simulates(st: seq<Element>, s: State, ps: seq<Piece>, s': State, m: Mode) {
    && NoText(ps)
    && Run(ps, st).Some?
    && Matches(Run(ps, st).value, s')
    && Tidy(s')
    && StateMode(s') == m
  }

  lemma CloseTagSimulates(st: seq<Element>, s: State, style: Style)
    requires Tidy(s) && Matches(st, s) && Simple(style) in s.hist
    ensures
      var (ps, s') := CloseTag(s, Simple(style));
      Simulates(st, s, ps, s', Mode(StateMode(s).styles - {style}, s.colours))
  {
    hide CloseTag, Matches, NoDuplicates;
    assert NoDuplicates(s.hist) && Names(st) == s.hist && FontsCarry(st, s.colours) by { TidyFacts(st, s); }
    CloseTagRemoves(s, Simple(style));
    CloseTagMatches(st, s, Simple(style));
  }

  lemma TidyFacts(st: seq<Element>, s: State)
    requires Tidy(s) && Matches(st, s)
    ensures NoDuplicates(s.hist) && Names(st) == s.hist && FontsCarry(st, s.colours)
  {
  }

  lemma OpenTagSimulates(st: seq<Element>, s: State, t: Tag)
    requires NoDuplicates(s.hist) && t !in s.hist && Matches(st, s)
    requires Font in s.hist || t.Font? <==> s.colours.Any()
    ensures
      var styles := StateMode(s).styles;
      var (ps, s') := OpenTag(s, t);
      Simulates(st, s, ps, s', Mode(if t.Simple? then styles + {t.style} else styles, s.colours))
  {
    var s' := OpenTag(s, t).1;
    OpenTagRuns(s, t, st);
    assert forall x :: x in s'.hist <==> x in s.hist || x == t;
    assert multiset(s'.hist) == multiset(s.hist) + multiset{t};
    assert t !in multiset(s.hist);
  }

  // Closing the font and opening one for the new colours.
  lemma RecolourSimulates(st: seq<Element>, s: State, reopenWith: Colours, next: Colours)
    requires Tidy(s) && Matches(st, s) && s.colours.Any() && next.Any()
    ensures
      var (closing, s1) := CloseTag(s.(colours := reopenWith), Font);
      var (opening, s2) := OpenTag(s1.(colours := next), Font);
      Simulates(st, s, closing + opening, s2, Mode(StateMode(s).styles, next))
  {
    hide CloseTag, NoDuplicates;
    var before := s.(colours := reopenWith);
    var (closing, s1) := CloseTag(before, Font);
    var (opening, s2) := OpenTag(s1.(colours := next), Font);
    CloseTagRemoves(before, Font);
    CloseTagMatches(st, before, Font);
    var st1 := Run(closing, st).value;
    FontlessMatches(st1, s1, next);
    OpenTagSimulates(st1, s1.(colours := next), Font);
    RunConcat(closing, opening, st);
    assert StateMode(s1).styles == StateMode(s).styles;
  }

  lemma FontlessMatches(st: seq<Element>, s: State, next: Colours)
    requires Matches(st, s) && Font !in s.hist
    ensures Matches(st, s.(colours := next))
  {
  }

  lemma ColourSimulates(st: seq<Element>, s: State, fg: string, bg: string)
    requires Tidy(s) && Matches(st, s)
    ensures
      var (ps, s') := OnColour(s, fg, bg);
      Simulates(st, s, ps, s', IrcStep(StateMode(s), Colour(fg, bg)))
  {
    hide CloseTag, HexOf, NoDuplicates;
    var next := s.colours.Updated(fg, bg);
    var (ps, s') := OnColour(s, fg, bg);
    if s.colours.Any() && next.Any() {
      RecolourSimulates(st, s, s.colours, next);
    } else if s.colours.Any() {
      CloseTagRemoves(s, Font);
      CloseTagMatches(st, s, Font);
      var (closing, s1) := CloseTag(s, Font);
      assert ps == closing + [] == closing;
      FontlessMatches(Run(closing, st).value, s1, next);
      assert StateMode(s').styles == StateMode(s).styles;
    } else if next.Any() {
      FontlessMatches(st, s, next);
      OpenTagSimulates(st, s.(colours := next), Font);
      assert ps == [] + OpenTag(s.(colours := next), Font).0 == OpenTag(s.(colours := next), Font).0;
    } else {
      FontlessMatches(st, s, next);
      assert ps == [];
      assert StateMode(s') == IrcStep(StateMode(s), Colour(fg, bg));
    }
  }

  lemma ToggleSimulates(st: seq<Element>, s: State, style: Style)
    requires Tidy(s) && Matches(st, s)
    ensures
      var (ps, s') := ToggleTag(s, Simple(style));
      Simulates(st, s, ps, s', IrcStep(StateMode(s), Toggle(style)))
  {
    if Simple(style) in s.hist {
      hide CloseTag, Matches, NoDuplicates, Simulates;
      CloseTagSimulates(st, s, style);
    } else {
      hide CloseTag, Simulates, OpenTag;
      OpenTagSimulates(st, s, Simple(style));
    }
  }

  lemma ResetSimulates(st: seq<Element>, s: State)
    requires Matches(st, s)
    ensures Simulates(st, s, CloseAll(s).0, INITIAL, DEFAULT_MODE)
  {
    ClosesRun(s.hist, [], st);
    assert [] + st == st;
    InitialState();
  }

  lemma StepSimulates(st: seq<Element>, s: State, t: Token)
    requires Tidy(s) && Matches(st, s) && !t.Ch?
    requires t.Reverse? ==> s.colours.Any()
    ensures Simulates(st, s, Step(s, t).0, Step(s, t).1, IrcStep(StateMode(s), t))
  {
    hide CloseTag, OnColour, ToggleTag, CloseAll, NoDuplicates, Matches, Simulates;
    match t
    case Toggle(style) => ToggleSimulates(st, s, style);
    case Reverse => RecolourSimulates(st, s, s.colours.Swapped(), s.colours.Swapped());
    case Reset => ResetSimulates(st, s);
    case Colour(fg, bg) => ColourSimulates(st, s, fg, bg);
  }

  lemma InitialState()
    ensures Tidy(INITIAL) && Matches([], INITIAL) && StateMode(INITIAL) == DEFAULT_MODE
  {
  }

  // --- A plain font at the bottom of the stack ---

  // A reverse while nothing is on opens a font without colours. It stays at the bottom of the stack.
  function OnBase(base: bool, s: State): State {
    if base then s.(hist := [Font] + s.hist) else s
  }

  function BaseElements(base: bool): seq<Element> {
    if base then [Element(Font, PLAIN)] else []
  }

  lemma CutOnBase(h: seq<Tag>, t: Tag)
    requires t in h
    ensures CutIndex([Font] + h, t) == 1 + CutIndex(h, t)
  {
    var i, j := LastIndexBelow(h, t, |h|), LastIndexBelow([Font] + h, t, |h| + 1);
    assert i >= 0 && ([Font] + h)[i + 1] == t;
    assert j >= 1 ==> h[j - 1] == t;
  }

  lemma CloseOnBase(s: State, t: Tag)
    requires t in s.hist
    ensures CloseTag(OnBase(true, s), t) == (CloseTag(s, t).0, OnBase(true, CloseTag(s, t).1))
  {
    CutOnBase(s.hist, t);
    var i := CutIndex(s.hist, t);
    hide CutIndex;
    assert ([Font] + s.hist)[i + 1..] == s.hist[i..];
    assert ([Font] + s.hist)[..i + 1] == [Font] + s.hist[..i];
    var again := DropLast(Reversed(s.hist[i..]));
    assert [Font] + s.hist[..i] + again == [Font] + (s.hist[..i] + again);
  }

  lemma OpenOnBase(s: State, t: Tag)
    ensures OpenTag(OnBase(true, s), t) == (OpenTag(s, t).0, OnBase(true, OpenTag(s, t).1))
  {
    assert [Font] + s.hist + [t] == [Font] + (s.hist + [t]);
  }

  lemma ReverseOnBase(s: State)
    requires Font in s.hist
    ensures OnReverse(OnBase(true, s)) == (OnReverse(s).0, OnBase(true, OnReverse(s).1))
  {
    var swapped := s.(colours := s.colours.Swapped());
    CloseOnBase(swapped, Font);
    OpenOnBase(CloseTag(swapped, Font).1, Font);
    hide CloseTag, OpenTag;
    assert OnBase(true, s).(colours := s.colours.Swapped()) == OnBase(true, swapped);
  }

  lemma ColourOnBase(s: State, fg: string, bg: string)
    requires s.colours.Any() ==> Font in s.hist
    ensures OnColour(OnBase(true, s), fg, bg) == (OnColour(s, fg, bg).0, OnBase(true, OnColour(s, fg, bg).1))
  {
    hide CloseTag, OpenTag, HexOf;
    var next := s.colours.Updated(fg, bg);
    var s1 := s;
    if s.colours.Any() {
      CloseOnBase(s, Font);
      s1 := CloseTag(s, Font).1;
    }
    OpenOnBase(s1.(colours := next), Font);
    assert OnBase(true, s1).(colours := next) == OnBase(true, s1.(colours := next));
  }

  // Codes do not touch the bottom of the stack: they emit the same tags with and without it.
  lemma StepOnBase(s: State, t: Token)
    requires Tidy(s) && !t.Ch? && !t.Reset? && (t.Reverse? ==> s.colours.Any())
    ensures Step(OnBase(true, s), t) == (Step(s, t).0, OnBase(true, Step(s, t).1))
  {
    hide OnReverse, OnColour, NoDuplicates;
    match t
    case Toggle(style) =>
      assert Simple(style) in [Font] + s.hist <==> Simple(style) in s.hist;
      if Simple(style) in s.hist { CloseOnBase(s, Simple(style)); } else { OpenOnBase(s, Simple(style)); }
      hide CloseTag, OpenTag;
    case Reverse => ReverseOnBase(s);
    case Colour(fg, bg) => ColourOnBase(s, fg, bg);
  }

  lemma {:induction false} RunOnBase(ps: seq<Piece>, base: seq<Element>, st: seq<Element>)
    requires Run(ps, st).Some?
    ensures Run(ps, base + st) == Some(base + Run(ps, st).value)
  {
    if ps != [] {
      match ps[0]
      case Text(_) => RunOnBase(ps[1..], base, st);
      case Open(e) =>
        RunOnBase(ps[1..], base, st + [e]);
        assert base + st + [e] == base + (st + [e]);
      case Close(t) =>
        RunOnBase(ps[1..], base, st[..|st| - 1]);
        assert (base + st)[..|base + st| - 1] == base + st[..|st| - 1];
    }
  }

  lemma {:induction false} InnerFontOnBase(st: seq<Element>)
    ensures InnerFont([Element(Font, PLAIN)] + st) == InnerFont(st)
  {
    var all := [Element(Font, PLAIN)] + st;
    if st == [] {
      assert all == [Element(Font, PLAIN)];
    } else {
      InnerFontOnBase(st[..|st| - 1]);
      assert all[..|all| - 1] == [Element(Font, PLAIN)] + st[..|st| - 1];
    }
  }

  // A plain font around everything makes no difference to the reader.
  lemma ModeOnBase(base: bool, st: seq<Element>)
    ensures ModeOf(BaseElements(base) + st) == ModeOf(st)
  {
    if base {
      InnerFontOnBase(st);
      var all := [Element(Font, PLAIN)] + st;
      assert Names(all) == [Font] + Names(st);
      assert forall style :: Simple(style) in Names(all) <==> Simple(style) in Names(st);
    } else {
      assert BaseElements(base) + st == st;
    }
  }

  // --- Texts ---

  // Every reverse code comes while a colour is set, or while no style is on. Texts without \x16
  // satisfy this.
  predicate ReversesHarmless(ts: seq<Token>, m: Mode) {
    ts == [] ||
    ((ts[0].Reverse? ==> m.colours.Any() || m.styles == {}) && ReversesHarmless(ts[1..], IrcStep(m, ts[0])))
  }

  // What one code does to the elements open in the output, with or without a plain font at the bottom.
  ghost predicate Follows(base: bool, st: seq<Element>, s: State, t: Token, base': bool, st': seq<Element>, s': State) {
    && Step(OnBase(base, s), t).1 == OnBase(base', s')
    && NoText(Step(OnBase(base, s), t).0)
    && Run(Step(OnBase(base, s), t).0, BaseElements(base) + st) == Some(BaseElements(base') + st')
    && Tidy(s') && Matches(st', s') && StateMode(s') == IrcStep(StateMode(s), t)
  }

  lemma NamesOnBase(base: bool, st: seq<Element>, s: State)
    requires Names(st) == s.hist
    ensures Names(BaseElements(base) + st) == OnBase(base, s).hist
  {
    if !base { assert BaseElements(base) + st == st; }
  }

  lemma ResetFollows(base: bool, st: seq<Element>, s: State)
    requires Matches(st, s)
    ensures Follows(base, st, s, Reset, false, [], INITIAL)
  {
    var all := BaseElements(base) + st;
    NamesOnBase(base, st, s);
    var before := OnBase(base, s);
    ResetStep(before, StateMode(s));
    hide Step, IrcStep, OnBase, BaseElements, Run, Closes, StateMode, Tidy, NoText;
    assert all == [] + all;
    ClosesRun(before.hist, [], all);
    InitialState();
    NoBase();
  }

  lemma ResetStep(s: State, m: Mode)
    ensures Step(s, Reset) == (Closes(s.hist), INITIAL) && IrcStep(m, Reset) == DEFAULT_MODE
  {
  }

  lemma NoBase()
    ensures OnBase(false, INITIAL) == INITIAL && BaseElements(false) + [] == []
  {
  }

  // Closing the font on a stack of at most one leaves nothing.
  lemma CloseAtMostOne(s: State)
    requires |s.hist| <= 1
    ensures CloseTag(s, Font).1 == s.(hist := [])
  {
    CloseTagContents(s, Font);
    hide CloseTag, CutIndex;
  }

  // Nothing is on: the reverse leaves a plain font and nothing else.
  lemma BareReverseRun(base: bool)
    ensures
      var ps := OnReverse(OnBase(base, INITIAL)).0;
      && NoText(ps) && Run(ps, BaseElements(base)) == Some([Element(Font, PLAIN)])
      && OnReverse(OnBase(base, INITIAL)).1 == OnBase(true, INITIAL)
  {
    var all, st := OnBase(base, INITIAL), BaseElements(base);
    assert all.colours.Swapped() == PLAIN && all.(colours := PLAIN) == all && Names(st) == all.hist;
    CloseAtMostOne(all);
    CloseThenOpen(all, PLAIN, st);
    hide CloseTag, Run;
    var (closing, s1) := CloseTag(all, Font);
    assert s1.(colours := PLAIN) == s1 && s1.hist == [];
    assert Run(closing, st).value == [];
    assert [] + [Element(Font, PLAIN)] == [Element(Font, PLAIN)] && [] + [Font] == [Font] + [];
  }

  lemma BareReverseFollows(base: bool, st: seq<Element>, s: State)
    requires Tidy(s) && Matches(st, s) && !s.colours.Any() && StateMode(s).styles == {}
    ensures Follows(base, st, s, Reverse, true, [], INITIAL)
  {
    NothingOpen(s);
    assert st == [] && BaseElements(base) + st == BaseElements(base);
    assert BaseElements(true) + [] == [Element(Font, PLAIN)];
    InitialState();
    assert IrcStep(DEFAULT_MODE, Reverse) == DEFAULT_MODE;
    hide OnReverse, OnBase, BaseElements, Tidy, Matches, StateMode, Run;
    BareReverseRun(base);
  }

  lemma NothingOpen(s: State)
    requires Tidy(s) && !s.colours.Any() && StateMode(s).styles == {}
    ensures s == INITIAL
  {
    forall t
      ensures t !in s.hist
    {
      if t.Simple? { assert t.style in StateMode(s).styles <==> t in s.hist; }
    }
    HeadIn(s.hist);
  }

  lemma HeadIn(h: seq<Tag>)
    ensures h == [] || h[0] in h
  {
  }

  lemma CodeFollows(base: bool, st: seq<Element>, s: State, t: Token)
    requires Tidy(s) && Matches(st, s) && !t.Ch? && !t.Reset? && (t.Reverse? ==> s.colours.Any())
    ensures Run(Step(s, t).0, st).Some?
    ensures Follows(base, st, s, t, base, Run(Step(s, t).0, st).value, Step(s, t).1)
  {
    StepSimulates(st, s, t);
    StepOnBase(s, t);
    hide Step, Tidy, Matches, StateMode;
    RunOnBase(Step(s, t).0, BaseElements(base), st);
  }

  lemma StepFollows(base: bool, st: seq<Element>, s: State, t: Token) returns (base': bool, st': seq<Element>, s': State)
    requires Tidy(s) && Matches(st, s) && !t.Ch?
    requires t.Reverse? ==> StateMode(s).colours.Any() || StateMode(s).styles == {}
    ensures Follows(base, st, s, t, base', st', s')
  {
    StateColours(s);
    hide Tidy, Matches, StateMode, Follows, Step, Run, OnBase;
    if t.Reset? {
      base', st', s' := false, [], INITIAL;
      ResetFollows(base, st, s);
    } else if t.Reverse? && !s.colours.Any() {
      base', st', s' := true, [], INITIAL;
      BareReverseFollows(base, st, s);
    } else {
      CodeFollows(base, st, s, t);
      base', st', s' := base, Run(Step(s, t).0, st).value, Step(s, t).1;
    }
  }

  // One code before a text, in the output and for the reader.
  lemma TranslateCode(t: Token, rest: seq<Token>, s: State, st: seq<Element>)
    requires !t.Ch? && NoText(Step(s, t).0) && Run(Step(s, t).0, st).Some?
    ensures
      var (ps, s') := Step(s, t);
      HtmlMeaning(Translate([t] + rest, s), st) == HtmlMeaning(Translate(rest, s'), Run(ps, st).value)
  {
    hide Step, Run, HtmlMeaning, NoText;
    assert ([t] + rest)[1..] == rest;
    MeaningOfTags(Step(s, t).0, Translate(rest, Step(s, t).1), st);
  }

  lemma ReadCode(t: Token, rest: seq<Token>, m: Mode)
    requires !t.Ch?
    ensures IrcMeaning([t] + rest, m) == IrcMeaning(rest, IrcStep(m, t))
  {
    hide IrcStep;
    assert ([t] + rest)[1..] == rest;
  }

  // One character, likewise.
  lemma TranslateChar(c: char, rest: seq<Token>, s: State, st: seq<Element>, m: Mode)
    ensures HtmlMeaning(Translate([Ch(c)] + rest, s), st) == [Glyph(c, ModeOf(st))] + HtmlMeaning(Translate(rest, s), st)
    ensures IrcMeaning([Ch(c)] + rest, m) == [Glyph(c, m)] + IrcMeaning(rest, m)
  {
    hide ModeOf;
    assert ([Ch(c)] + rest)[1..] == rest;
    assert ([Text(c)] + Translate(rest, s))[1..] == Translate(rest, s);
  }

  lemma {:induction false} TranslateMeaning(ts: seq<Token>, base: bool, s: State, st: seq<Element>)
    requires Tidy(s) && Matches(st, s) && ReversesHarmless(ts, StateMode(s))
    ensures HtmlMeaning(Translate(ts, OnBase(base, s)), BaseElements(base) + st) == IrcMeaning(ts, StateMode(s))
  {
    if ts != [] {
      hide Tidy, Matches, StateMode, OnBase, BaseElements, ModeOf, HtmlMeaning, Translate, IrcMeaning, Step, Run;
      var t, rest := ts[0], ts[1..];
      assert ts == [t] + rest;
      if t.Ch? {
        TranslateMeaning(rest, base, s, st);
        TranslateChar(t.c, rest, OnBase(base, s), BaseElements(base) + st, StateMode(s));
        TidyMode(st, s);
        ModeOnBase(base, st);
      } else {
        var base', st', s' := StepFollows(base, st, s, t);
        TranslateMeaning(rest, base', s', st');
        TranslateCode(t, rest, OnBase(base, s), BaseElements(base) + st);
        ReadCode(t, rest, StateMode(s));
      }
    }
  }

  lemma StateColours(s: State)
    ensures StateMode(s).colours == s.colours
  {
  }

  lemma {:induction false} MeaningOfFinalReset(ts: seq<Token>, m: Mode)
    ensures IrcMeaning(ts + [Reset], m) == IrcMeaning(ts, m)
    ensures ReversesHarmless(ts, m) ==> ReversesHarmless(ts + [Reset], m)
  {
    if ts == [] {
      assert (ts + [Reset])[1..] == [];
    } else {
      assert (ts + [Reset])[1..] == ts[1..] + [Reset];
      MeaningOfFinalReset(ts[1..], IrcStep(m, ts[0]));
    }
  }

  // ircToHtml preserves meaning.
  lemma MeaningPreserved(ts: seq<Token>)
    requires ReversesHarmless(ts, DEFAULT_MODE)
    ensures HtmlMeaning(Pieces(ts), []) == IrcMeaning(ts, DEFAULT_MODE)
  {
    MeaningOfFinalReset(ts, DEFAULT_MODE);
    InitialState();
    TranslateMeaning(ts + [Reset], false, INITIAL, []);
    assert BaseElements(false) + [] == [];
  }

  // The stack that a reverse without colour leaves: with a font open, or nothing open, it has the
  // same styles; else the last style is gone.
  lemma ReverseTags(s: State)
    requires NoDuplicates(s.hist) && s.colours == PLAIN
    ensures
      var hist := OnReverse(s).1.hist;
      SameStyles(hist, s.hist) <==> s.hist == [] || Font in s.hist
  {
    assert s.(colours := PLAIN.Swapped()) == s;
    CloseTagContents(s, Font);
    hide CloseTag, NoDuplicates, CutIndex;
    var left := CloseTag(s, Font).1.hist;
    assert OnReverse(s).1.hist == left + [Font];
    hide OnReverse;
    if s.hist == [] {
    } else if Font in s.hist {
      SameTags(left, s.hist);
    } else {
      LostStyle(s, left);
    }
  }

  ghost predicate SameStyles(a: seq<Tag>, b: seq<Tag>) {
    forall style :: Simple(style) in a <==> Simple(style) in b
  }

  lemma StylesByTags(st: seq<Element>, s: State)
    ensures ModeOf(st).styles == StateMode(s).styles <==> SameStyles(Names(st), s.hist)
  {
    forall style
      ensures style in ModeOf(st).styles <==> Simple(style) in Names(st)
      ensures style in StateMode(s).styles <==> Simple(style) in s.hist
    {
    }
    if SameStyles(Names(st), s.hist) { assert ModeOf(st).styles == StateMode(s).styles; }
    hide ModeOf, StateMode;
  }

  lemma ReverseIs(s: State)
    requires s.colours == PLAIN
    ensures
      var (closing, s1) := CloseTag(s, Font);
      var (opening, s2) := OpenTag(s1.(colours := PLAIN), Font);
      OnReverse(s) == (closing + opening, s2)
  {
    assert s.(colours := PLAIN.Swapped()) == s;
    hide CloseTag, OpenTag;
  }

  lemma TopFont(st: seq<Element>, e: Element)
    requires e == Element(Font, PLAIN)
    ensures InnerFont(st + [e]) == PLAIN
  {
  }

  lemma ReverseNests(st: seq<Element>, s: State)
    requires Names(st) == s.hist && s.colours == PLAIN
    ensures
      var after := Run(OnReverse(s).0, st);
      && NoText(OnReverse(s).0) && after.Some? && Names(after.value) == OnReverse(s).1.hist
      && InnerFont(after.value) == PLAIN
  {
    hide CloseTag, OpenTag, Run, OnReverse, InnerFont, NoText;
    ReverseIs(s);
    CloseThenOpen(s, PLAIN, st);
    TopFont(Run(CloseTag(s, Font).0, st).value, ElementOf(Font, PLAIN));
  }

  // In every state without colour in which no tag is open twice: a reverse keeps the styles exactly
  // when nothing is open or a font is. Otherwise it closes the innermost style for good.
  lemma ReverseUncoloured(st: seq<Element>, s: State)
    requires NoDuplicates(s.hist) && Names(st) == s.hist && !s.colours.Any()
    ensures
      var after := Run(OnReverse(s).0, st);
      && NoText(OnReverse(s).0) && after.Some? && ModeOf(after.value).colours == PLAIN
      && (ModeOf(after.value).styles == StateMode(s).styles <==> s.hist == [] || Font in s.hist)
  {
    assert s.colours == PLAIN;
    hide OnReverse, NoDuplicates, SameStyles, Run, InnerFont;
    ReverseNests(st, s);
    ReverseTags(s);
    StylesByTags(Run(OnReverse(s).0, st).value, s);
  }

  lemma SameTags(left: seq<Tag>, h: seq<Tag>)
    requires Font in h && multiset(left) == multiset(h) - multiset{Font}
    ensures forall t :: t in left + [Font] <==> t in h
  {
    assert forall t :: t in h <==> t in multiset(h);
    assert forall t :: t in left <==> t in multiset(left);
  }

  lemma LostStyle(s: State, left: seq<Tag>)
    requires NoDuplicates(s.hist) && Font !in s.hist && s.hist != []
    requires multiset(left) == multiset(s.hist) - multiset{s.hist[|s.hist| - 1]}
    ensures exists style :: Simple(style) in s.hist && Simple(style) !in left + [Font]
  {
    var lost := s.hist[|s.hist| - 1];
    assert lost in s.hist && lost in multiset(s.hist) && lost !in multiset(left);
    assert Simple(lost.style) in s.hist && Simple(lost.style) !in left + [Font];
  }

  // Any style followed by a reverse is lost: the meanings differ.
  lemma ReverseLosesStyle(style: Style, c: char)
    ensures
      var ts := [Toggle(style), Reverse, Ch(c)];
      HtmlMeaning(Pieces(ts), []) != IrcMeaning(ts, DEFAULT_MODE)
  {
    hide Pieces, HtmlMeaning, IrcMeaning;
    ReadReversed(style, c);
    var mode := TranslateReversed(style, c);
  }

  lemma ReadReversed(style: Style, c: char)
    ensures IrcMeaning([Toggle(style), Reverse, Ch(c)], DEFAULT_MODE) == [Glyph(c, OneMode(style))] + IrcMeaning([], OneMode(style))
  {
    var ts := [Toggle(style), Reverse, Ch(c)];
    assert ts == [Toggle(style)] + ([Reverse] + ([Ch(c)] + []));
    assert {} + {style} == {style} && IrcStep(OneMode(style), Reverse) == OneMode(style);
    hide IrcMeaning, Translate, HtmlMeaning;
    ReadCode(Toggle(style), [Reverse] + ([Ch(c)] + []), DEFAULT_MODE);
    ReadCode(Reverse, [Ch(c)] + [], OneMode(style));
    TranslateChar(c, [], INITIAL, [], OneMode(style));
  }

  lemma StylesLost(style: Style) returns (st: seq<Element>)
    ensures
      var s := OneStyle(style);
      var elems := [ElementOf(Simple(style), PLAIN)];
      && NoText(OnReverse(s).0) && Run(OnReverse(s).0, elems) == Some(st)
      && ModeOf(st).styles != {style}
  {
    var s := OneStyle(style);
    var elems := [ElementOf(Simple(style), PLAIN)];
    assert Names(elems) == s.hist && Simple(style) in s.hist && Font !in s.hist && NoDuplicates(s.hist);
    OneStyleMode(style);
    hide OnReverse, ModeOf, StateMode, Run, NoText, NoDuplicates;
    ReverseUncoloured(elems, s);
    st := Run(OnReverse(s).0, elems).value;
  }

  lemma TranslateReversed(style: Style, c: char) returns (mode: Mode)
    ensures mode.styles != {style}
    ensures
      var glyphs := HtmlMeaning(Pieces([Toggle(style), Reverse, Ch(c)]), []);
      |glyphs| > 0 && glyphs[0] == Glyph(c, mode)
  {
    hide HtmlMeaning, Translate, ModeOf, OnReverse, IrcMeaning, Run, NoText, ElementOf;
    var rest := [Ch(c)] + [Reset];
    var st := StylesLost(style);
    mode := ModeOf(st);
    assert [Toggle(style), Reverse, Ch(c)] + [Reset] == [Toggle(style)] + ([Reverse] + rest);
    ToggleOnly(style, [Reverse] + rest);
    assert Step(OneStyle(style), Reverse) == OnReverse(OneStyle(style));
    TranslateCode(Reverse, rest, OneStyle(style), [ElementOf(Simple(style), PLAIN)]);
    hide Step;
    TranslateChar(c, [Reset], OnReverse(OneStyle(style)).1, st, DEFAULT_MODE);
  }

  function OneStyle(style: Style): State {
    State([Simple(style)], PLAIN)
  }

  function OneMode(style: Style): Mode {
    Mode({style}, PLAIN)
  }

  lemma OneStyleMode(style: Style)
    ensures StateMode(OneStyle(style)) == OneMode(style)
  {
  }

  lemma ToggleOnly(style: Style, rest: seq<Token>)
    ensures
      HtmlMeaning(Translate([Toggle(style)] + rest, INITIAL), [])
      == HtmlMeaning(Translate(rest, OneStyle(style)), [ElementOf(Simple(style), PLAIN)])
  {
    var e := ElementOf(Simple(style), PLAIN);
    assert INITIAL.hist + [Simple(style)] == [Simple(style)];
    assert Step(INITIAL, Toggle(style)) == ([Open(e)], OneStyle(style));
    OpenTagRuns(INITIAL, Simple(style), []);
    assert [] + [e] == [e];
    hide HtmlMeaning, Translate, Step;
    TranslateCode(Toggle(style), rest, INITIAL, []);
  }

  // --- Size ---

  // Each simple tag is open at most once; at most one font is open while no colour is set, and
  // one or two while a colour is set.
  ghost predicate BoundedTags(m: multiset<Tag>, coloured: bool) {
    && (forall style :: m[Simple(style)] <= 1)
    && m[Font] <= (if coloured then 2 else 1)
    && (coloured ==> m[Font] >= 1)
  }

  ghost predicate Bounded(s: State) {
    BoundedTags(multiset(s.hist), s.colours.Any())
  }

  lemma {:induction false} SizeByTag(h: seq<Tag>)
    ensures
      var m := multiset(h);
      |h| == m[Simple(Bold)] + m[Simple(Monospace)] + m[Simple(Italics)] + m[Simple(Strike)]
             + m[Simple(Underline)] + m[Font]
  {
    if h != [] {
      SizeByTag(h[1..]);
      assert h == [h[0]] + h[1..];
      assert multiset(h) == multiset{h[0]} + multiset(h[1..]);
      if h[0].Simple? { match h[0].style { case Bold => case Monospace => case Italics => case Strike => case Underline => } }
    }
  }

  lemma AtMostSeven(s: State)
    requires Bounded(s)
    ensures |s.hist| <= 7
  {
    SizeByTag(s.hist);
  }

  lemma CloseTagSize(s: State, t: Tag)
    ensures |CloseTag(s, t).0| <= if s.hist == [] then 0 else 2 * |s.hist| - 1
    ensures s.hist != [] ==> |CloseTag(s, t).1.hist| == |s.hist| - 1
  {
    var i := CutIndex(s.hist, t);
    var cut := s.hist[i..];
    var again := DropLast(Reversed(cut));
    assert Names(Elements(cut, PLAIN)) == cut;
    ClosesRun(cut, [], Elements(cut, PLAIN));
    OpensRun(again, s.colours, []);
  }

  lemma Pushed(h: seq<Tag>, t: Tag)
    ensures multiset(h + [t]) == multiset(h) + multiset{t}
  {
  }

  lemma ToggleKeepsBounded(s: State, style: Style)
    requires Bounded(s)
    ensures Bounded(ToggleTag(s, Simple(style)).1)
  {
    assert Simple(style) in s.hist <==> Simple(style) in multiset(s.hist);
    CloseTagContents(s, Simple(style));
    hide CloseTag, CutIndex;
    Pushed(s.hist, Simple(style));
  }

  lemma ReverseKeepsBounded(s: State)
    requires Bounded(s)
    ensures Bounded(OnReverse(s).1)
  {
    var before := s.(colours := s.colours.Swapped());
    var left := CloseTag(before, Font).1.hist;
    CloseTagContents(before, Font);
    hide CloseTag, CutIndex;
    assert OnReverse(s).1 == State(left + [Font], before.colours);
    hide OnReverse;
    Pushed(left, Font);
    FontInside(s.hist);
  }

  lemma FontInside(h: seq<Tag>)
    ensures Font in h <==> multiset(h)[Font] > 0
    ensures h == [] <==> multiset(h) == multiset{}
  {
    assert h != [] ==> h[0] in multiset(h);
  }

  // The stack once a colour code has closed the font, if it does.
  function FontClosed(s: State): seq<Tag> {
    if s.colours.Any() then CloseTag(s, Font).1.hist else s.hist
  }

  lemma FontClosedBounded(s: State)
    requires Bounded(s)
    ensures BoundedTags(multiset(FontClosed(s)), false)
  {
    assert Font in s.hist <==> Font in multiset(s.hist);
    CloseTagContents(s, Font);
    hide CloseTag, CutIndex;
  }

  lemma ColourKeepsBounded(s: State, fg: string, bg: string)
    requires Bounded(s)
    ensures Bounded(OnColour(s, fg, bg).1)
  {
    FontClosedBounded(s);
    Pushed(FontClosed(s), Font);
    hide CloseTag, HexOf;
    var next := s.colours.Updated(fg, bg);
    assert OnColour(s, fg, bg).1 == State(if next.Any() then FontClosed(s) + [Font] else FontClosed(s), next);
    hide OnColour, FontClosed;
  }

  lemma StepKeepsBounded(s: State, t: Token)
    requires Bounded(s)
    ensures Bounded(Step(s, t).1)
  {
    hide ToggleTag, OnReverse, OnColour;
    match t
    case Ch(_) =>
    case Reset =>
    case Toggle(style) => ToggleKeepsBounded(s, style);
    case Reverse => ReverseKeepsBounded(s);
    case Colour(fg, bg) => ColourKeepsBounded(s, fg, bg);
  }

  lemma ReverseSize(s: State)
    requires |s.hist| <= 7
    ensures |OnReverse(s).0| <= 14
  {
    CloseTagSize(s.(colours := s.colours.Swapped()), Font);
    hide CloseTag;
  }

  lemma ColourSize(s: State, fg: string, bg: string)
    requires |s.hist| <= 7
    ensures |OnColour(s, fg, bg).0| <= 14
  {
    CloseTagSize(s, Font);
    hide CloseTag, HexOf;
  }

  lemma StepSize(s: State, t: Token)
    requires |s.hist| <= 7 && !t.Ch?
    ensures |Step(s, t).0| <= 14
  {
    hide CloseTag, OnColour, OnReverse;
    match t
    case Toggle(style) => CloseTagSize(s, Simple(style));
    case Reverse => ReverseSize(s);
    case Reset =>
      assert Names(Elements(s.hist, PLAIN)) == s.hist;
      ClosesRun(s.hist, [], Elements(s.hist, PLAIN));
    case Colour(fg, bg) => ColourSize(s, fg, bg);
  }

  // In every state a text can lead to, at most 7 tags are open and the next code emits at most 14.
  lemma {:induction false} StackBound(ts: seq<Token>, s: State, next: Token)
    requires Bounded(s)
    ensures Bounded(After(ts, s)) && |After(ts, s).hist| <= 7
    ensures !next.Ch? ==> |Step(After(ts, s), next).0| <= 14
    decreases |ts|
  {
    if ts == [] {
      AtMostSeven(s);
      if !next.Ch? { StepSize(s, next); }
    } else {
      StepKeepsBounded(s, ts[0]);
      StackBound(ts[1..], Step(s, ts[0]).1, next);
    }
  }

  lemma BoundedUncoloured(s: State)
    requires Bounded(s) && !s.colours.Any()
    ensures NoDuplicates(s.hist)
  {
    forall t
      ensures multiset(s.hist)[t] <= 1
    {
      if t.Simple? { assert multiset(s.hist)[Simple(t.style)] <= 1; }
    }
  }

  // After every text: a reverse while no colour is set keeps the styles exactly when no tag is open
  // or a font is.
  lemma ReverseAfterText(ts: seq<Token>)
    requires !After(ts, INITIAL).colours.Any()
    ensures
      var s, before := After(ts, INITIAL), Run(Translate(ts, INITIAL), []);
      && before.Some?
      && var after := Run(OnReverse(s).0, before.value);
         && after.Some? && ModeOf(after.value).colours == PLAIN
         && (ModeOf(after.value).styles == ModeOf(before.value).styles <==> s.hist == [] || Font in s.hist)
  {
    var s := After(ts, INITIAL);
    TranslateNests(ts, INITIAL, []);
    assert Bounded(INITIAL);
    StackBound(ts, INITIAL, Reset);
    hide Translate, After, OnReverse, Run, ModeOf, Step, StateMode, Bounded, NoDuplicates;
    BoundedUncoloured(s);
    var st := Run(Translate(ts, INITIAL), []).value;
    ReverseUncoloured(st, s);
    StylesByTags(st, s);
    assert SameStyles(Names(st), s.hist);
  }

  // --- Content ---

  lemma StepHasNoText(s: State, t: Token)
    requires !t.Ch?
    ensures NoText(Step(s, t).0)
  {
    var st := Elements(s.hist, s.colours);
    assert Names(st) == s.hist;
    StepNests(s, t, st);
  }

  lemma TextOfStep(t: Token, ps: seq<Piece>, s: State)
    ensures TextOf(Step(s, t).0 + ps) == (if t.Ch? then [t.c] else "") + TextOf(ps)
  {
    if t.Ch? {
      assert ([Text(t.c)] + ps)[1..] == ps;
    } else {
      hide Step, NoText, TextOf;
      StepHasNoText(s, t);
      TextOfTags(Step(s, t).0, ps);
    }
  }

  lemma {:induction false} TranslateText(ts: seq<Token>, s: State)
    ensures TextOf(Translate(ts, s)) == Visible(ts)
  {
    if ts != [] {
      hide Step, TextOf;
      var s' := Step(s, ts[0]).1;
      TranslateText(ts[1..], s');
      TextOfStep(ts[0], Translate(ts[1..], s'), s);
    } else {
      hide Step;
    }
  }
}
