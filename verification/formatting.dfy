// src/irc/formatting.ts: ircToHtml with its mutable state, and what it guarantees on strings.

module Formatting {
  import opened Strings
  import opened IrcCodes
  import opened Html
  import opened HtmlText
  import opened IrcToHtmlSpec
  import opened IrcToHtmlProofs

  // What ircToHtml returns for a text.
  function HtmlOf(text: string): string {
    Render(Pieces(Tokenize(text)))
  }

  // The array of open tags. Object.assign copies the reference, so every call shares one array.
  class History {
    var tags: seq<Tag>

    constructor ()
      ensures tags == []
    {
      tags := [];
    }
  }

  class StyleState {
    var color: Option<string>
    var bcolor: Option<string>
    const history: History

    constructor (color: Option<string>, bcolor: Option<string>, history: History)
      ensures this.color == color && this.bcolor == bcolor && this.history == history
    {
      this.color := color;
      this.bcolor := bcolor;
      this.history := history;
    }

    function Value(): State
      reads this, history
    {
      State(history.tags, Colours(color, bcolor))
    }
  }

  // A tag name as htmlTag takes it; 'all' stands for every open tag.
  datatype Name = Named(tag: Tag) | All

  // The pieces and state that htmlTag produces. With 'all' the source never opens.
  function TagStep(s: State, name: Name, open: Option<bool>): (seq<Piece>, State) {
    match name
    case All => CloseAll(s)
    case Named(t) =>
      if (if open.Some? then open.value else t !in s.hist) then OpenTag(s, t) else CloseTag(s, t)
  }

  lemma RenderNextClose(tags: seq<Tag>)
    requires tags != []
    ensures Render(Closes(tags)) == "</" + TagName(tags[|tags| - 1]) + ">" + Render(Closes(tags[..|tags| - 1]))
  {
  }

  method LastIndexOf(tags: seq<Tag>, t: Tag) returns (i: int)
    ensures i == LastIndexBelow(tags, t, |tags|)
  {
    i := |tags| - 1;
    while i >= 0 && tags[i] != t
      invariant -1 <= i < |tags|
      invariant LastIndexBelow(tags, t, |tags|) == LastIndexBelow(tags, t, i + 1)
    {
      i := i - 1;
    }
  }

  lemma OpeningTagText(tag: Tag, colours: Colours)
    ensures
      Render([Open(ElementOf(tag, colours))])
      == if tag == Font then "<font" + AttrText(colours) + ">" else "<" + TagName(tag) + ">"
  {
  }

  // The text of an opening tag.
  method OpeningText(state: StyleState, tag: Tag) returns (text: string)
    ensures text == Render([Open(ElementOf(tag, state.Value().colours))])
  {
    OpeningTagText(tag, state.Value().colours);
    hide Render, TagName, ElementOf;
    if tag == Font {
      // the attributes of a font are the colours that are set
      var style := "";
      if state.color.Some? {
        style := style + " color=\"" + state.color.value + "\"";
      }
      if state.bcolor.Some? {
        style := style + " data-mx-bg-color=\"" + state.bcolor.value + "\"";
      }
      text := "<font" + style + ">";
    } else {
      text := "<" + TagName(tag) + ">";
    }
  }

  lemma ClosingStep(text: string, left: seq<Tag>)
    requires left != []
    ensures
      text + ("</" + TagName(left[|left| - 1]) + ">") + Render(Closes(left[..|left| - 1]))
      == text + Render(Closes(left))
  {
    RenderNextClose(left);
    hide Render, Closes, TagName;
    Associates(text, "</" + TagName(left[|left| - 1]) + ">", Render(Closes(left[..|left| - 1])));
  }

  // The text that closes tags, given innermost first.
  method ClosingText(tags: seq<Tag>, ghost removed: seq<Tag>) returns (text: string)
    requires tags == Reversed(removed)
    ensures text == Render(Closes(removed))
  {
    text := "";
    var i := 0;
    ghost var left := removed;
    hide Render, Closes, TagName, Reversed;
    while i < |tags|
      invariant 0 <= i <= |tags| == |removed|
      invariant left == removed[..|removed| - i]
      invariant text + Render(Closes(left)) == Render(Closes(removed))
    {
      ClosingStep(text, left);
      text := text + ("</" + TagName(tags[i]) + ">");
      left := left[..|left| - 1];
      i := i + 1;
    }
    NothingLeft(text, left, [], PLAIN);
  }

  lemma NothingLeft(text: string, left: seq<Tag>, again: seq<Tag>, colours: Colours)
    requires left == [] && again == []
    ensures text + Render(Closes(left)) == text && text + Render(Opens(again, colours)) == text
  {
  }

  lemma ReopenStep(text: string, tags: seq<Tag>, i: nat, colours: Colours)
    requires i < |tags|
    ensures
      text + Render(OpenTag(State([], colours), tags[i]).0) + Render(Opens(tags[i + 1..], colours))
      == text + Render(Opens(tags[i..], colours))
    ensures tags[..i + 1] == tags[..i] + [tags[i]]
  {
    var tag, rest := Open(ElementOf(tags[i], colours)), Opens(tags[i + 1..], colours);
    assert Opens(tags[i..], colours) == [tag] + rest by { OpensHead(tags[i..], colours); }
    assert OpenTag(State([], colours), tags[i]).0 == [tag];
    hide Render, Opens, OpenTag;
    RenderConcat([tag], rest);
    Associates(text, Render([tag]), Render(rest));
  }

  lemma OpensHead(tags: seq<Tag>, colours: Colours)
    requires tags != []
    ensures Opens(tags, colours) == [Open(ElementOf(tags[0], colours))] + Opens(tags[1..], colours)
  {
  }

  method Reopen(state: StyleState, tags: seq<Tag>) returns (text: string)
    modifies state.history
    ensures text == Render(Opens(tags, old(state.Value().colours)))
    ensures state.history.tags == old(state.history.tags) + tags
    decreases 1
  {
    ghost var kept, colours := state.history.tags, state.Value().colours;
    text := "";
    var i := 0;
    assert tags[..0] == [] && tags[0..] == tags && tags[..|tags|] == tags;
    hide Render, Opens;
    while i < |tags|
      invariant 0 <= i <= |tags|
      invariant state.Value() == State(kept + tags[..i], colours)
      invariant text + Render(Opens(tags[i..], colours)) == Render(Opens(tags, colours))
    {
      ReopenStep(text, tags, i, colours);
      var reopened := HtmlTag(state, Named(tags[i]), Some(true));
      text := text + reopened;
      i := i + 1;
    }
    NothingLeft(text, [], tags[i..], colours);
  }

  method HtmlTag(state: StyleState, name: Name, open: Option<bool>) returns (text: string)
    requires name.All? ==> open == Some(false)
    modifies state.history
    ensures text == Render(TagStep(old(state.Value()), name, open).0)
    ensures state.Value() == TagStep(old(state.Value()), name, open).1
    decreases if open == Some(true) then 0 else 2
  {
    hide Render, Closes, Opens, Reversed, ElementOf;
    var opening := if open.Some? then open.value else name.Named? && name.tag !in state.history.tags;
    if opening {
      state.history.tags := state.history.tags + [name.tag];
      text := OpeningText(state, name.tag);
    } else {
      // cut the stack at the tag
      var index := 0;
      if name.Named? {
        var last := LastIndexOf(state.history.tags, name.tag);
        index := if last >= 0 then last else if state.history.tags == [] then 0 else |state.history.tags| - 1;
      }
      ghost var before := state.Value();
      var removed := state.history.tags[index..];
      state.history.tags := state.history.tags[..index];
      // innermost first
      var tags := Reversed(removed);
      text := ClosingText(tags, removed);
      // all but the tag itself come back
      if name.Named? {
        var reopened := Reopen(state, DropLast(tags));
        RenderConcat(Closes(removed), Opens(DropLast(tags), before.colours));
        text := text + reopened;
      }
    }
  }

  // The text of a colour or reverse code is that of its two htmlTag calls.
  lemma ReverseText(s: State)
    ensures
      var (closing, s1) := CloseTag(s.(colours := s.colours.Swapped()), Font);
      Render(OnReverse(s).0) == Render(closing) + Render(OpenTag(s1, Font).0)
  {
    hide CloseTag, Render, OpenTag;
    var (closing, s1) := CloseTag(s.(colours := s.colours.Swapped()), Font);
    RenderConcat(closing, OpenTag(s1, Font).0);
  }

  lemma RenderNothing()
    ensures Render([]) == ""
  {
  }

  lemma ColourText(s: State, fg: string, bg: string)
    ensures
      var (closing, s1) := if s.colours.Any() then CloseTag(s, Font) else ([], s);
      var s2 := s1.(colours := s.colours.Updated(fg, bg));
      var (opening, s3) := if s2.colours.Any() then OpenTag(s2, Font) else ([], s2);
      Render(OnColour(s, fg, bg).0) == Render(closing) + Render(opening)
  {
    hide CloseTag, Render, OpenTag, HexOf;
    var (closing, s1) := if s.colours.Any() then CloseTag(s, Font) else ([], s);
    var s2 := s1.(colours := s.colours.Updated(fg, bg));
    RenderConcat(closing, if s2.colours.Any() then OpenTag(s2, Font).0 else []);
  }

  // The formatter module: its constant default state, and the functions that use it.
  class Formatter {
    const defaults: StyleState

    ghost predicate Colourless()
      reads this, defaults
    {
      defaults.color == defaults.bcolor == None
    }

    // Between calls the shared array is empty.
    ghost predicate Valid()
      reads this, defaults, defaults.history
    {
      Colourless() && defaults.history.tags == []
    }

    constructor ()
      ensures Valid() && fresh(defaults) && fresh(defaults.history)
    {
      var history := new History();
      defaults := new StyleState(None, None, history);
    }

    // One match of the colour regex.
    method OnMatch(state: StyleState, t: Token) returns (tags: string, next: StyleState)
      requires Colourless() && !t.Ch? && state != defaults && state.history == defaults.history
      modifies state, state.history
      ensures next.history == defaults.history && (next == state || fresh(next)) && next != defaults
      ensures unchanged(defaults)
      ensures tags == Render(Step(old(state.Value()), t).0)
      ensures next.Value() == Step(old(state.Value()), t).1
    {
      hide CloseTag, OpenTag, HexOf, Render, Closes;
      tags, next := "", state;
      ghost var before := state.Value();
      match t {
        case Toggle(style) =>
          tags := HtmlTag(state, Named(Simple(style)), None);
        case Reverse =>
          ReverseText(before);
          state.color, state.bcolor := state.bcolor, state.color;
          var closing := HtmlTag(state, Named(Font), Some(false));
          var opening := HtmlTag(state, Named(Font), Some(true));
          tags := closing + opening;
        case Reset =>
          tags := HtmlTag(state, All, Some(false));
          next := new StyleState(defaults.color, defaults.bcolor, defaults.history);
        case Colour(fg, bg) =>
          ColourText(before, fg, bg);
          RenderNothing();
          if state.color.Some? || state.bcolor.Some? {
            tags := HtmlTag(state, Named(Font), Some(false));
          }
          if fg != "" {
            state.color := HexOf(fg);
          }
          if bg != "" {
            state.bcolor := HexOf(bg);
          }
          if fg == "" && bg == "" {
            state.color, state.bcolor := None, None;
          }
          if state.color.Some? || state.bcolor.Some? {
            var opening := HtmlTag(state, Named(Font), Some(true));
            tags := tags + opening;
          }
      }
    }

    // The result depends on the text alone, and the shared array is empty again.
    method IrcToHtml(text: string) returns (html: string)
      requires Valid()
      modifies defaults.history
      ensures Valid()
      ensures html == HtmlOf(text)
    {
      var escaped := EscapeHtmlChars(text) + END;
      ghost var all := RenderRaw(Translate(Tokenize(escaped), INITIAL));
      hide EscapeHtmlChars, NextToken, Tokenize, Step, Translate, RenderRaw, Render, After;
      var state := new StyleState(defaults.color, defaults.bcolor, defaults.history);
      html := "";
      var pos := 0;
      assert escaped[0..] == escaped && html + all == all;
      while pos < |escaped|
        invariant 0 <= pos <= |escaped|
        invariant fresh(state) && state.history == defaults.history && state != defaults
        invariant Colourless()
        invariant html + RenderRaw(Translate(Tokenize(escaped[pos..]), state.Value())) == all
        invariant After(Tokenize(escaped[pos..]), state.Value()) == After(Tokenize(escaped), INITIAL)
      {
        var (t, n) := NextToken(escaped[pos..]);
        MatchStep(html, escaped, pos, state.Value());
        if t.Ch? {
          html := html + [t.c];
        } else {
          var tags;
          tags, state := OnMatch(state, t);
          html := html + tags;
        }
        pos := pos + n;
      }
      EndOfText(text);
      assert escaped[pos..] == "";
      NothingTranslated(html, state.Value());
    }
  }

  // The part of the translation from pos on, after one match.
  lemma MatchStep(html: string, escaped: string, pos: nat, s: State)
    requires pos < |escaped|
    ensures
      var (t, n) := NextToken(escaped[pos..]);
      var ts, rest := Tokenize(escaped[pos..]), Tokenize(escaped[pos + n..]);
      var (ps, s') := Step(s, t);
      && html + (if t.Ch? then [t.c] else Render(ps)) + RenderRaw(Translate(rest, s')) == html + RenderRaw(Translate(ts, s))
      && After(rest, s') == After(ts, s)
      && (t.Ch? ==> s' == s)
  {
    hide NextToken, Tokenize, Step, Translate, RenderRaw, Render, After;
    var (t, n) := NextToken(escaped[pos..]);
    TokenizeUnfold(escaped[pos..]);
    assert escaped[pos..][n..] == escaped[pos + n..];
    var rest := Tokenize(escaped[pos + n..]);
    TranslateUnfold(t, rest, s);
    CopiedOrTags(t, s);
    Associates(html, RenderRaw(Step(s, t).0), RenderRaw(Translate(rest, Step(s, t).1)));
  }

  lemma CopiedOrTags(t: Token, s: State)
    ensures RenderRaw(Step(s, t).0) == if t.Ch? then [t.c] else Render(Step(s, t).0)
    ensures t.Ch? ==> Step(s, t).1 == s
  {
    if t.Ch? {
      RenderRawText(s, t.c);
    } else {
      StepHasNoText(s, t);
      RenderTags(Step(s, t).0);
    }
  }

  lemma NothingTranslated(html: string, s: State)
    ensures html + RenderRaw(Translate(Tokenize(""), s)) == html && After(Tokenize(""), s) == s
  {
  }

  lemma TranslateUnfold(t: Token, ts: seq<Token>, s: State)
    ensures Translate([t] + ts, s) == Step(s, t).0 + Translate(ts, Step(s, t).1)
    ensures After([t] + ts, s) == After(ts, Step(s, t).1)
    ensures RenderRaw(Translate([t] + ts, s)) == RenderRaw(Step(s, t).0) + RenderRaw(Translate(ts, Step(s, t).1))
    ensures t.Ch? ==> RenderRaw(Step(s, t).0) == [t.c]
  {
    hide Step;
    assert ([t] + ts)[1..] == ts;
    RenderRawConcat(Step(s, t).0, Translate(ts, Step(s, t).1));
    if t.Ch? { RenderRawText(s, t.c); }
  }

  lemma RenderRawText(s: State, c: char)
    ensures RenderRaw(Step(s, Ch(c)).0) == [c]
  {
  }

  lemma {:induction false} TranslateChars(p: string, ts: seq<Token>, s: State)
    ensures RenderRaw(Translate(Chars(p) + ts, s)) == p + RenderRaw(Translate(ts, s))
  {
    hide Translate, RenderRaw;
    if p == "" {
      assert Chars(p) + ts == ts;
    } else {
      TranslateChars(p[1..], ts, s);
      assert Chars(p) + ts == [Ch(p[0])] + (Chars(p[1..]) + ts);
      TranslateUnfold(Ch(p[0]), Chars(p[1..]) + ts, s);
      assert [p[0]] + (p[1..] + RenderRaw(Translate(ts, s))) == p + RenderRaw(Translate(ts, s));
    }
  }

  lemma ResetText(s: State)
    ensures RenderRaw(Translate([Reset], s)) == Render(Translate([Reset], s))
  {
    StepHasNoText(s, Reset);
    assert [Reset][1..] == [];
    hide Step;
    assert Translate([Reset], s) == Step(s, Reset).0 + [] == Step(s, Reset).0;
    RenderTags(Translate([Reset], s));
  }

  lemma EscapedUnfold(t: Token, rest: seq<Token>)
    ensures
      EscapedTokens([t] + rest) + [Reset]
      == (if t.Ch? then Chars(Esc(t.c)) else [t]) + (EscapedTokens(rest) + [Reset])
  {
  }

  // Translating the escaped text and copying its characters is rendering the translated text.
  lemma {:induction false} TranslateEscaped(ts: seq<Token>, s: State)
    ensures RenderRaw(Translate(EscapedTokens(ts) + [Reset], s)) == Render(Translate(ts + [Reset], s))
  {
    hide Esc, Step, RenderRaw, Render, Translate;
    if ts == [] {
      assert EscapedTokens(ts) + [Reset] == [Reset] && ts + [Reset] == [Reset];
      ResetText(s);
    } else {
      var t, rest := ts[0], ts[1..];
      TranslateEscaped(rest, Step(s, t).1);
      hide EscapedTokens;
      assert ts == [t] + rest;
      assert ts + [Reset] == [t] + (rest + [Reset]);
      EscapedUnfold(t, rest);
      TranslateUnfold(t, rest + [Reset], s);
      RenderConcat(Step(s, t).0, Translate(rest + [Reset], Step(s, t).1));
      if t.Ch? {
        TranslateChars(Esc(t.c), EscapedTokens(rest) + [Reset], s);
        StepOfChar(s, t.c);
      } else {
        TranslateUnfold(t, EscapedTokens(rest) + [Reset], s);
        StepHasNoText(s, t);
        RenderTags(Step(s, t).0);
      }
    }
  }

  lemma StepOfChar(s: State, c: char)
    ensures Step(s, Ch(c)) == ([Text(c)], s) && Render([Text(c)]) == Esc(c)
  {
  }

  lemma EndOfText(text: string)
    ensures
      var ts := Tokenize(EscapeHtmlChars(text) + END);
      RenderRaw(Translate(ts, INITIAL)) == HtmlOf(text) && After(ts, INITIAL) == INITIAL
  {
    EscapeIsMap(text);
    TokenizeEscaped(text);
    hide EscapeHtmlChars, EscapeAll, Tokenize;
    TranslateEscaped(Tokenize(text), INITIAL);
    AfterReset(EscapedTokens(Tokenize(text)), INITIAL);
  }

  // --- What ircToHtml guarantees ---

  lemma OpensClean(tags: seq<Tag>, colours: Colours)
    requires CleanColours(colours)
    ensures Clean(Opens(tags, colours))
  {
  }

  lemma {:induction false} ClosesClean(tags: seq<Tag>)
    ensures Clean(Closes(tags))
  {
    if tags != [] { ClosesClean(tags[..|tags| - 1]); }
  }

  lemma CloseTagClean(s: State, t: Tag)
    requires CleanColours(s.colours)
    ensures Clean(CloseTag(s, t).0)
  {
    var i := CutIndex(s.hist, t);
    ClosesClean(s.hist[i..]);
    OpensClean(DropLast(Reversed(s.hist[i..])), s.colours);
    hide Opens, Closes, CleanPiece;
  }

  lemma OpenFontClean(colours: Colours)
    requires CleanColours(colours)
    ensures Clean([Open(ElementOf(Font, colours))])
  {
  }

  lemma UpdatedClean(colours: Colours, fg: string, bg: string)
    requires CleanColours(colours)
    ensures CleanColours(colours.Updated(fg, bg))
  {
  }

  lemma ColourClean(s: State, fg: string, bg: string)
    requires CleanColours(s.colours)
    ensures Clean(OnColour(s, fg, bg).0) && CleanColours(OnColour(s, fg, bg).1.colours)
  {
    CloseTagClean(s, Font);
    var next := s.colours.Updated(fg, bg);
    UpdatedClean(s.colours, fg, bg);
    OpenFontClean(next);
    hide CloseTag, HexOf, CleanPiece, CleanColours;
    var closing := if s.colours.Any() then CloseTag(s, Font).0 else [];
    var opening := if next.Any() then [Open(ElementOf(Font, next))] else [];
    assert OnColour(s, fg, bg).0 == closing + opening;
    hide OnColour;
    assert Clean(closing) && Clean(opening);
  }

  lemma ReverseClean(s: State)
    requires CleanColours(s.colours)
    ensures Clean(OnReverse(s).0) && CleanColours(OnReverse(s).1.colours)
  {
    CloseTagClean(s.(colours := s.colours.Swapped()), Font);
    hide CloseTag;
  }

  lemma StepClean(s: State, t: Token)
    requires CleanColours(s.colours)
    ensures Clean(Step(s, t).0) && CleanColours(Step(s, t).1.colours)
  {
    hide CloseTag, OnColour, OnReverse, Closes;
    match t
    case Ch(_) =>
    case Toggle(style) => CloseTagClean(s, Simple(style));
    case Reverse => ReverseClean(s);
    case Reset => ClosesClean(s.hist);
    case Colour(fg, bg) => ColourClean(s, fg, bg);
  }

  lemma {:induction false} TranslateClean(ts: seq<Token>, s: State)
    requires CleanColours(s.colours)
    ensures Clean(Translate(ts, s))
  {
    if ts != [] {
      StepClean(s, ts[0]);
      TranslateClean(ts[1..], Step(s, ts[0]).1);
      hide Step, CleanPiece;
    }
  }

  // The HTML string reads as the translated pieces.
  lemma ReadHtmlOf(text: string)
    ensures Read(HtmlOf(text)) == Pieces(Tokenize(text))
  {
    TranslateClean(Tokenize(text) + [Reset], INITIAL);
    ReadRender(Pieces(Tokenize(text)));
  }

  // Meaning preservation on strings: each visible character is enclosed by exactly the styles
  // that are on, and its font carries exactly the colours that are set.
  lemma IrcToHtmlMeaning(text: string)
    requires ReversesHarmless(Tokenize(text), DEFAULT_MODE)
    ensures HtmlMeaning(Read(HtmlOf(text)), []) == IrcMeaning(Tokenize(text), DEFAULT_MODE)
  {
    ReadHtmlOf(text);
    MeaningPreserved(Tokenize(text));
  }

  // For every text the output is well nested and keeps the visible characters.
  lemma IrcToHtmlContent(text: string)
    ensures Balanced(Read(HtmlOf(text)))
    ensures TextOf(Read(HtmlOf(text))) == Visible(Tokenize(text))
  {
    ReadHtmlOf(text);
    OutputBalanced(Tokenize(text));
    TranslateText(Tokenize(text) + [Reset], INITIAL);
    VisibleReset(Tokenize(text));
  }

  lemma {:induction false} VisibleReset(ts: seq<Token>)
    ensures Visible(ts + [Reset]) == Visible(ts)
  {
    if ts == [] {
      assert (ts + [Reset])[1..] == [];
    } else {
      VisibleReset(ts[1..]);
      assert (ts + [Reset])[1..] == ts[1..] + [Reset];
    }
  }

  function Texts(text: string): seq<Piece> {
    if text == "" then [] else [Text(text[0])] + Texts(text[1..])
  }

  // escapeHtmlChars has a left inverse: a browser shows the text that was escaped.
  lemma {:induction false} EscapeReadBack(text: string)
    ensures Read(EscapeHtmlChars(text)) == Texts(text) && TextOf(Texts(text)) == text
  {
    EscapeIsMap(text);
    hide EscapeHtmlChars;
    RenderTexts(text);
    ReadRender(Texts(text));
  }

  lemma {:induction false} RenderTexts(text: string)
    ensures Render(Texts(text)) == EscapeAll(text) && Clean(Texts(text)) && TextOf(Texts(text)) == text
  {
    hide Esc;
    if text != "" {
      RenderTexts(text[1..]);
      assert Texts(text)[1..] == Texts(text[1..]);
    }
  }

  // --- stripIrcFormatting ---

  // The regex `\x03\d{0,2}(,\d{0,2})?`, replaced by nothing.
  function StripColours(s: string): string
    decreases |s|
  {
    if s == "" then ""
    else if s[0] == STYLE_COLOR then
      var rest := s[1 + |TakeDigits(s[1..])|..];
      if rest != "" && rest[0] == ',' then StripColours(rest[1 + |TakeDigits(rest[1..])|..])
      else StripColours(rest)
    else [s[0]] + StripColours(s[1..])
  }

  // The codes that are replaced by nothing: all but the colour code and strikethrough.
  predicate IsStripped(c: char) {
    IsControl(c) && c != STYLE_COLOR && c != STYLE_STRIKE
  }

  function StripStyles(s: string): string {
    if s == "" then ""
    else (if IsStripped(s[0]) then "" else [s[0]]) + StripStyles(s[1..])
  }

  function StripIrcFormatting(text: string): string {
    StripStyles(StripColours(text))
  }

  // A colour code directly followed by a comma that starts no background colour.
  predicate DanglingComma(s: string)
    decreases |s|
  {
    s != "" &&
    (|| (s[0] == STYLE_COLOR &&
         var rest := s[1 + |TakeDigits(s[1..])|..];
         rest != "" && rest[0] == ',' && !HasBackground(rest))
     || DanglingComma(s[NextToken(s).1..]))
  }

  lemma StripHead(s: string)
    requires s != "" && s[0] != STYLE_COLOR && s[0] != STYLE_STRIKE
    ensures StripIrcFormatting(s) == (if IsControl(s[0]) then "" else [s[0]]) + StripIrcFormatting(s[1..])
    ensures NextToken(s).1 == 1 && (DanglingComma(s) <==> DanglingComma(s[1..]))
  {
  }

  lemma VisibleHead(s: string)
    requires s != ""
    ensures
      Visible(Tokenize(s))
      == (if IsControl(s[0]) then "" else [s[0]]) + Visible(Tokenize(s[NextToken(s).1..]))
  {
  }

  // At a colour code: either both skip the same arguments, or a comma dangles.
  lemma StripColour(s: string)
    requires s != "" && s[0] == STYLE_COLOR
    ensures
      var rest := s[NextToken(s).1..];
      || (StripIrcFormatting(s) == StripIrcFormatting(rest) && (DanglingComma(s) <==> DanglingComma(rest)))
      || (DanglingComma(s) && rest != "" && rest[0] == ',' && StripIrcFormatting(s) == StripIrcFormatting(rest[1..]))
  {
  }

  // Without strikethrough, stripIrcFormatting keeps the characters that ircToHtml shows, unless a
  // comma dangles: then it drops the comma too.
  lemma {:induction false} StripWithoutStrike(s: string)
    requires NoStrike(s)
    ensures StripIrcFormatting(s) == Visible(Tokenize(s)) <==> !DanglingComma(s)
    ensures |StripIrcFormatting(s)| <= |Visible(Tokenize(s))|
    ensures DanglingComma(s) ==> |StripIrcFormatting(s)| < |Visible(Tokenize(s))|
    decreases |s|
  {
    if s != "" {
      var rest := s[NextToken(s).1..];
      assert s[0] != STYLE_STRIKE && NoStrike(rest) && (rest != "" ==> NoStrike(rest[1..]));
      hide NoStrike;
      StripWithoutStrike(rest);
      VisibleHead(s);
      if s[0] != STYLE_COLOR {
        StripHead(s);
        hide StripIrcFormatting, Visible, Tokenize, DanglingComma, NextToken;
      } else {
        StripColour(s);
        ColourInvisible();
        if rest != "" && rest[0] == ',' {
          StripWithoutStrike(rest[1..]);
          CommaVisible(rest);
        }
        hide StripIrcFormatting, Visible, Tokenize, NextToken, DanglingComma, IsControl;
      }
    }
  }

  lemma ColourInvisible()
    ensures IsControl(STYLE_COLOR)
  {
  }

  lemma CommaVisible(s: string)
    requires s != "" && s[0] == ','
    ensures Visible(Tokenize(s)) == "," + Visible(Tokenize(s[1..]))
  {
    VisibleHead(s);
    hide Visible, Tokenize;
  }

  predicate NoStrike(s: string) {
    STYLE_STRIKE !in s
  }

  lemma DigitsFirst(s: string)
    ensures NoStrike(TakeDigits(s)) && s == TakeDigits(s) + s[|TakeDigits(s)|..]
  {
  }

  // A strikethrough code is in neither pattern.
  lemma {:induction false} StrikeStays(s: string)
    requires !NoStrike(s)
    ensures !NoStrike(StripColours(s))
    decreases |s|
  {
    if s[0] == STYLE_COLOR {
      var rest := s[1 + |TakeDigits(s[1..])|..];
      DigitsFirst(s[1..]);
      assert s[1..][|TakeDigits(s[1..])|..] == rest;
      if rest != "" && rest[0] == ',' {
        var more := rest[1 + |TakeDigits(rest[1..])|..];
        DigitsFirst(rest[1..]);
        assert rest[1..][|TakeDigits(rest[1..])|..] == more;
        StrikeStays(more);
      } else {
        StrikeStays(rest);
      }
    } else if s[0] != STYLE_STRIKE {
      StrikeStays(s[1..]);
    }
  }

  lemma {:induction false} StrikeKept(s: string)
    requires STYLE_STRIKE in s
    ensures STYLE_STRIKE in StripStyles(s)
  {
    if s[0] != STYLE_STRIKE { StrikeKept(s[1..]); }
  }

  lemma {:induction false} VisibleHasNoCodes(s: string)
    ensures forall c :: c in Visible(Tokenize(s)) ==> !IsControl(c)
    decreases |s|
  {
    hide IsControl;
    if s != "" {
      VisibleHead(s);
      VisibleHasNoCodes(s[NextToken(s).1..]);
      hide Tokenize, Visible, NextToken;
    }
  }

  // stripIrcFormatting keeps exactly the characters that ircToHtml shows if and only if no comma
  // dangles behind a colour code and there is no strikethrough code, which it leaves in the text.
  lemma StripKeepsVisibleIff(s: string)
    ensures StripIrcFormatting(s) == Visible(Tokenize(s)) <==> !DanglingComma(s) && STYLE_STRIKE !in s
  {
    hide StripStyles, StripColours, Visible, Tokenize, DanglingComma;
    if STYLE_STRIKE in s {
      StrikeStays(s);
      StrikeKept(StripColours(s));
      VisibleHasNoCodes(s);
      assert IsControl(STYLE_STRIKE);
    } else {
      StripWithoutStrike(s);
    }
  }

  // --- One code in front of a text, as strings ---

  lemma {:induction false} PlainTranslated(p: string, s: State)
    ensures Render(Translate(Chars(p) + [Reset], s)) == EscapeAll(p) + Render(Closes(s.hist))
  {
    if p == "" {
      assert Chars(p) + [Reset] == [Reset] + [];
      TranslateUnfold(Reset, [], s);
      assert Closes(s.hist) + [] == Closes(s.hist);
    } else {
      PlainTranslated(p[1..], s);
      var rest := Chars(p[1..]) + [Reset];
      assert Chars(p) + [Reset] == [Ch(p[0])] + rest;
      hide Render, Translate, EscapeAll;
      TranslateUnfold(Ch(p[0]), rest, s);
      StepOfChar(s, p[0]);
      RenderConcat([Text(p[0])], Translate(rest, s));
      EscapeAllHead(p);
      Associates(Esc(p[0]), EscapeAll(p[1..]), Render(Closes(s.hist)));
    }
  }

  lemma EscapeAllHead(p: string)
    requires p != ""
    ensures EscapeAll(p) == Esc(p[0]) + EscapeAll(p[1..])
  {
  }

  lemma OneCode(code: string, t: Token, p: string)
    requires Tokenize(code + p) == [t] + Tokenize(p) && NoControls(p)
    ensures
      var (tags, s) := Step(INITIAL, t);
      HtmlOf(code + p) == Render(tags) + (EscapeHtmlChars(p) + Render(Closes(s.hist)))
  {
    hide Step, Tokenize, Render, Translate, Closes;
    TokenizePlain(p, "");
    EmptyTokens();
    assert p + "" == p && Chars(p) + [] == Chars(p);
    assert [t] + Chars(p) + [Reset] == [t] + (Chars(p) + [Reset]);
    TranslateUnfold(t, Chars(p) + [Reset], INITIAL);
    var (tags, s) := Step(INITIAL, t);
    RenderConcat(tags, Translate(Chars(p) + [Reset], s));
    PlainTranslated(p, s);
    EscapeIsMap(p);
  }

  // A text behind a style code is put in an element.
  lemma StyledText(code: char, p: string)
    requires code in "\U{02}\U{11}\U{1d}\U{1e}\U{1f}" && NoControls(p)
    ensures
      var name := if code == '\U{02}' then "b" else if code == '\U{11}' then "code"
                  else if code == '\U{1d}' then "i" else if code == '\U{1e}' then "del" else "u";
      HtmlOf([code] + p) == ("<" + name + ">") + (EscapeHtmlChars(p) + ("</" + name + ">"))
  {
    hide Tokenize, EscapeHtmlChars, HtmlOf, Step;
    SimpleCodeRead(code, p);
    OneCode([code], SimpleToken(code), p);
    ToggledTags(SimpleToken(code).style);
    hide SimpleToken;
  }

  lemma ToggledTags(style: Style)
    ensures
      var (tags, s) := Step(INITIAL, Toggle(style));
      && Render(tags) == "<" + TagName(Simple(style)) + ">"
      && Render(Closes(s.hist)) == "</" + TagName(Simple(style)) + ">"
  {
    var tag := Simple(style);
    var (tags, s) := Step(INITIAL, Toggle(style));
    assert tags == [Open(ElementOf(tag, PLAIN))] && s.hist == [tag];
    OneTag(tags[0]);
    assert [tag][..0] == [];
    assert Closes([tag]) == [Close(tag)];
    OneTag(Close(tag));
  }

  lemma OneTag(p: Piece)
    requires !p.Text?
    ensures Render([p]) == TagText(p)
  {
    assert [p][1..] == [];
    RenderNothing();
    assert TagText(p) + "" == TagText(p);
  }

  // A text behind a colour code is put in a font with the colours of its numbers.
  lemma ColouredText(fg: string, bg: string, p: string)
    requires Digits(fg) && Digits(bg) && |fg| <= 2 && |bg| <= 2 && NoControls(p)
    requires fg != "" && Shade(fg).Some? && EndsAt(if bg == "" then fg else bg, p)
    requires if bg == "" then !CommaDigit(p) else Shade(bg).Some?
    ensures
      var args := if bg == "" then fg else fg + ("," + bg);
      var style := " color=\"" + Shade(fg).value + "\""
                   + if bg == "" then "" else " data-mx-bg-color=\"" + Shade(bg).value + "\"";
      HtmlOf((['\U{03}'] + args) + p) == ("<font" + style + ">") + (EscapeHtmlChars(p) + "</font>")
  {
    hide Tokenize, EscapeHtmlChars, HtmlOf, Step, Shade, Render, AttrText;
    var t := Colour(fg, bg);
    var args := if bg == "" then fg else fg + ("," + bg);
    if bg == "" {
      ForegroundRead(fg, p);
    } else {
      BackgroundRead(fg, bg, p);
      assert fg + ("," + (bg + p)) == args + p;
    }
    assert (['\U{03}'] + args) + p == ['\U{03}'] + (args + p);
    OneCode(['\U{03}'] + args, t, p);
    ColouredTags(fg, bg);
  }

  lemma ColouredTags(fg: string, bg: string)
    requires Digits(fg) && Digits(bg) && 1 <= |fg| <= 2 && |bg| <= 2
    requires Shade(fg).Some? && (bg != "" ==> Shade(bg).Some?)
    ensures
      var (tags, s) := Step(INITIAL, Colour(fg, bg));
      var style := " color=\"" + Shade(fg).value + "\""
                   + if bg == "" then "" else " data-mx-bg-color=\"" + Shade(bg).value + "\"";
      && Render(tags) == "<font" + style + ">"
      && Render(Closes(s.hist)) == "</font>"
  {
    hide HexOf, Shade, Render;
    HexIsShade(fg);
    if bg != "" { HexIsShade(bg); }
    var colours := Colours(Shade(fg), if bg == "" then None else Shade(bg));
    var (tags, s) := Step(INITIAL, Colour(fg, bg));
    assert tags == [] + [Open(Element(Font, colours))] && s.hist == [] + [Font];
    assert tags == [Open(Element(Font, colours))] && s.hist == [Font];
    OneTag(tags[0]);
    assert [Font][..0] == [];
    assert Closes([Font]) == [Close(Font)];
    OneTag(Close(Font));
    StyleTextIs(colours);
  }

  lemma StyleTextIs(colours: Colours)
    requires colours.fg.Some?
    ensures
      AttrText(colours)
      == " color=\"" + colours.fg.value + "\""
         + if colours.bg.None? then "" else " data-mx-bg-color=\"" + colours.bg.value + "\""
  {
    AttrTextIs(colours);
  }
}
