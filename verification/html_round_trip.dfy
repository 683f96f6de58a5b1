// What htmlToIrc makes of well-nested style markup, and back again through ircToHtml.

module HtmlRoundTrip {
  import opened Strings
  import opened IrcCodes
  import opened HtmlToIrc
  import Html
  import HtmlText
  import Formatting
  import IrcToHtmlProofs

  // The sixteen colours that have a name.
  type Hue = i: nat | i < 16

  // Style and font markup as its tags and characters.
  datatype Item = Text(c: char) | Open(name: HtmlName) | Close(name: HtmlName) | Font(hue: Hue) | CloseFont

  // The elements that enclose an item, outermost first (None is a font); None if the tags are not
  // well nested.
  function Nesting(items: seq<Item>, stack: seq<Option<HtmlName>>): Option<seq<Option<HtmlName>>> {
    if items == [] then Some(stack)
    else match items[0]
      case Text(_) => Nesting(items[1..], stack)
      case Open(n) => Nesting(items[1..], stack + [Some(n)])
      case Font(_) => Nesting(items[1..], stack + [None])
      case Close(n) =>
        if Closes(stack, Some(n)) then Nesting(items[1..], stack[..|stack| - 1]) else None
      case CloseFont =>
        if Closes(stack, None) then Nesting(items[1..], stack[..|stack| - 1]) else None
  }

  predicate Closes(stack: seq<Option<HtmlName>>, top: Option<HtmlName>) {
    stack != [] && stack[|stack| - 1] == top
  }

  predicate WellNested(items: seq<Item>) {
    Nesting(items, []) == Some([])
  }

  // Text without markup and without control codes.
  predicate PlainText(items: seq<Item>) {
    forall i :: 0 <= i < |items| && items[i].Text? ==> items[i].c != '<' && !IsControl(items[i].c)
  }

  function ColourCode(hue: Hue): string {
    [STYLE_COLOR] + COLOUR_NUMBERS[hue]
  }

  // The HTML string when the opening tags in `done` and the first `fonts` colours have been replaced
  // by their codes.
  function ItemText(t: Item, done: set<HtmlName>, fonts: nat): string {
    match t
    case Text(c) => [c]
    case Open(n) => if n in done then [StyleChar(StyleOf(n))] else OpenText(n)
    case Close(n) => CloseText(n)
    case Font(hue) => if hue < fonts then ColourCode(hue) else FontText(COLOUR_NAMES[hue])
    case CloseFont => CLOSE_FONT
  }

  function Markup(items: seq<Item>, done: set<HtmlName>, fonts: nat): string {
    if items == [] then "" else ItemText(items[0], done, fonts) + Markup(items[1..], done, fonts)
  }

  function HtmlString(items: seq<Item>): string {
    Markup(items, {}, 0)
  }

  // --- Odd and even ---

  // How many of the elements around a character give it this style.
  function Depth(st: seq<Html.Element>, s: Style): nat {
    multiset(Html.Names(st))[Html.Simple(s)]
  }

  // A toggle language can only tell odd from even.
  function OddStyles(st: seq<Html.Element>): set<Style> {
    set s: Style | Depth(st, s) % 2 == 1
  }

  // The value of a colour, which may be given by its name: the bridge's values for the names.
  function HueOf(colour: Option<string>): Option<string> {
    if colour == Some("white") then Some("#FFFFFF") else if colour == Some("black") then Some("#000000")
    else if colour == Some("navy") then Some("#00007F") else if colour == Some("green") then Some("#009300")
    else if colour == Some("red") then Some("#FF0000") else if colour == Some("maroon") then Some("#7F0000")
    else if colour == Some("purple") then Some("#9C009C") else if colour == Some("orange") then Some("#FC7F00")
    else if colour == Some("yellow") then Some("#FFFF00") else if colour == Some("lime") then Some("#00FC00")
    else if colour == Some("teal") then Some("#009393") else if colour == Some("aqua") then Some("#00FFFF")
    else if colour == Some("blue") then Some("#0000FC") else if colour == Some("fuchsia") then Some("#FF00FF")
    else if colour == Some("gray") then Some("#7F7F7F") else if colour == Some("lightgrey") then Some("#D2D2D2")
    else colour
  }

  // What a browser shows: each character with its styles and the values of its colours.
  function Hued(m: Mode): Mode {
    m.(colours := Colours(HueOf(m.colours.fg), HueOf(m.colours.bg)))
  }

  function AllHued(glyphs: seq<Glyph>): (r: seq<Glyph>)
    ensures |r| == |glyphs|
  {
    if glyphs == [] then [] else [Glyph(glyphs[0].c, Hued(glyphs[0].mode))] + AllHued(glyphs[1..])
  }

  function Shown(html: string): seq<Glyph> {
    AllHued(Html.HtmlMeaning(HtmlText.Read(html), []))
  }

  // What the codes make of markup: each character has the styles that an odd number of elements give
  // it, and the colour of the font opened last, unless an element has been closed since.
  function CodeMeaning(ps: seq<Html.Piece>, st: seq<Html.Element>, fg: Option<string>): seq<Glyph> {
    if ps == [] then []
    else match ps[0]
      case Text(c) => [Glyph(c, Mode(OddStyles(st), Colours(fg, None)))] + CodeMeaning(ps[1..], st, fg)
      case Open(e) => CodeMeaning(ps[1..], st + [e], if e.tag.Font? then HueOf(e.attrs.fg) else fg)
      case Close(_) => CodeMeaning(ps[1..], if st == [] then [] else st[..|st| - 1], None)
  }

  predicate NoEvenDepth(st: seq<Html.Element>) {
    forall s: Style :: Depth(st, s) == 0 || Depth(st, s) % 2 == 1
  }

  // No visible character is inside an even, non-zero number of elements of one style, and each has
  // the colour of its innermost font: no element of a font is closed in front of it.
  predicate Expressible(ps: seq<Html.Piece>, st: seq<Html.Element>, fg: Option<string>) {
    ps == [] ||
    (match ps[0]
     case Text(_) => NoEvenDepth(st) && fg == HueOf(Html.InnerFont(st).fg) && Expressible(ps[1..], st, fg)
     case Open(e) => Expressible(ps[1..], st + [e], if e.tag.Font? then HueOf(e.attrs.fg) else fg)
     case Close(_) => Expressible(ps[1..], if st == [] then [] else st[..|st| - 1], None))
  }

  predicate IsFont(p: Html.Piece) {
    p.Open? && p.elem.tag.Font?
  }

  // The text of no font begins with a comma and a digit, which would be read as a background.
  predicate FontsEnd(ps: seq<Html.Piece>) {
    ps == [] || ((IsFont(ps[0]) ==> !CommaDigitNext(ps[1..])) && FontsEnd(ps[1..]))
  }

  predicate CommaDigitNext(ps: seq<Html.Piece>) {
    |ps| >= 2 && ps[0] == Html.Text(',') && ps[1].Text? && '0' <= ps[1].c <= '9'
  }

  // --- Replacing the opening tags ---

  predicate TagBody(b: string) {
    '<' !in b && '>' !in b
  }

  lemma NameFacts(n: HtmlName)
    ensures TagBody(NameText(n)) && NameText(n) != "" && NameText(n)[0] != '/'
  {
  }

  lemma NamesDiffer(m: HtmlName, n: HtmlName)
    requires m != n
    ensures NameText(m) != NameText(n)
  {
  }

  // A tag starts with another tag only if they are the same.
  lemma TagPrefix(b: string, p: string, rest: string)
    requires TagBody(b) && TagBody(p)
    ensures StartsWith("<" + b + ">" + rest, "<" + p + ">") <==> b == p
  {
    var s := "<" + b + ">" + rest;
    var tag := "<" + p + ">";
    HtmlText.SpanToConcat("<" + b, '>', rest);
    assert s == ("<" + b) + ['>'] + rest;
    if StartsWith(s, tag) {
      var rest' := s[|tag|..];
      assert s == ("<" + p) + ['>'] + rest';
      HtmlText.SpanToConcat("<" + p, '>', rest');
      assert b == s[1..|b| + 1] == tag[1..|p| + 1] == p;
    } else {
      assert s[..|"<" + b + ">"|] == "<" + b + ">";
    }
  }

  lemma ReplaceOtherTag(b: string, p: string, rest: string, rep: string)
    requires TagBody(b) && TagBody(p) && b != p
    ensures ReplaceAll("<" + b + ">" + rest, "<" + p + ">", rep) == "<" + b + ">" + ReplaceAll(rest, "<" + p + ">", rep)
  {
    var s := "<" + b + ">" + rest;
    var tag := "<" + p + ">";
    TagPrefix(b, p, rest);
    assert s[1..] == (b + ">") + rest;
    assert tag[0] == '<' && '<' !in b + ">";
    ReplaceSkips(b + ">", rest, tag, rep);
    assert ReplaceAll(s, tag, rep) == [s[0]] + ReplaceAll(s[1..], tag, rep);
    hide ReplaceAll;
    assert [s[0]] + ((b + ">") + ReplaceAll(rest, tag, rep)) == "<" + b + ">" + ReplaceAll(rest, tag, rep);
  }

  lemma ReplaceThisTag(p: string, rest: string, rep: string)
    ensures ReplaceAll("<" + p + ">" + rest, "<" + p + ">", rep) == rep + ReplaceAll(rest, "<" + p + ">", rep)
  {
  }

  // Replacing the opening tag of one element rewrites exactly the items that open it.
  lemma {:induction false} ReplaceOpen(items: seq<Item>, done: set<HtmlName>, n: HtmlName)
    requires PlainText(items) && n !in done
    ensures
      ReplaceAll(Markup(items, done, 0), OpenText(n), [StyleChar(StyleOf(n))]) == Markup(items, done + {n}, 0)
  {
    if items != [] {
      var t, rest := items[0], items[1..];
      ReplaceOpen(rest, done, n);
      hide ReplaceAll;
      ReplaceItem(t, Markup(rest, done, 0), done, n);
    }
  }

  lemma ReplaceItem(t: Item, rest: string, done: set<HtmlName>, n: HtmlName)
    requires (t.Text? ==> t.c != '<') && n !in done
    ensures
      ReplaceAll(ItemText(t, done, 0) + rest, OpenText(n), [StyleChar(StyleOf(n))])
      == ItemText(t, done + {n}, 0) + ReplaceAll(rest, OpenText(n), [StyleChar(StyleOf(n))])
  {
    var code := [StyleChar(StyleOf(n))];
    NameFacts(n);
    match t
    case Text(c) =>
      OpenTextHead(n);
      ReplaceSkips([c], rest, OpenText(n), code);
    case Close(m) =>
      CloseBody(m);
      hide NameText;
      assert "/" + NameText(m) != NameText(n) by { assert ("/" + NameText(m))[0] == '/'; }
      ReplaceOtherTag("/" + NameText(m), NameText(n), rest, code);
    case Open(m) =>
      if m in done {
        OpenTextHead(n);
        StyleCharHead(StyleOf(m));
        ReplaceSkips([StyleChar(StyleOf(m))], rest, OpenText(n), code);
      } else if m == n {
        hide NameText;
        ReplaceThisTag(NameText(n), rest, code);
      } else {
        NameFacts(m);
        NamesDiffer(m, n);
        hide NameText;
        ReplaceOtherTag(NameText(m), NameText(n), rest, code);
      }
    case Font(hue) =>
      ColourFacts(hue);
      FontShape(COLOUR_NAMES[hue]);
      NoEquals(n);
      hide NameText, FontText;
      ReplaceOtherTag(FontBody(COLOUR_NAMES[hue]), NameText(n), rest, code);
    case CloseFont =>
      hide NameText;
      assert "/font"[0] == '/' && CLOSE_FONT == "<" + "/font" + ">";
      ReplaceOtherTag("/font", NameText(n), rest, code);
  }

  lemma CloseBody(n: HtmlName)
    ensures CloseText(n) == "<" + ("/" + NameText(n)) + ">" && TagBody("/" + NameText(n)) && '=' !in "/" + NameText(n)
  {
  }

  lemma OpenTextHead(n: HtmlName)
    ensures OpenText(n) != "" && OpenText(n)[0] == '<'
  {
  }

  lemma CloseTextShape(n: HtmlName)
    ensures CloseText(n) == "<" + ("/" + NameText(n)) + ">"
  {
  }

  lemma StyleCharHead(s: Style)
    ensures StyleChar(s) != '<'
  {
  }

  function Names(order: seq<HtmlName>): set<HtmlName> {
    set n | n in order
  }

  lemma ApplyFirst(s: string, r: Replacement, more: seq<Replacement>)
    requires r.pattern != ""
    ensures ApplyAll(s, [r] + more) == ApplyAll(ReplaceAll(s, r.pattern, r.text), more)
  {
    hide ReplaceAll;
    assert ([r] + more)[1..] == more;
  }

  lemma FirstStyle(order: seq<HtmlName>, more: seq<Replacement>)
    requires order != []
    ensures
      StyleReplacements(order) + more
      == [Replacement(OpenText(order[0]), [StyleChar(StyleOf(order[0]))])] + (StyleReplacements(order[1..]) + more)
    ensures Names(order) == {order[0]} + Names(order[1..])
  {
    hide OpenText, StyleOf, StyleChar;
    assert order == [order[0]] + order[1..];
  }

  lemma {:induction false} ReplaceStyles(items: seq<Item>, done: set<HtmlName>, order: seq<HtmlName>, more: seq<Replacement>)
    requires PlainText(items)
    requires forall i, j :: 0 <= i < j < |order| ==> order[i] != order[j]
    requires forall i :: 0 <= i < |order| ==> order[i] !in done
    ensures
      ApplyAll(Markup(items, done, 0), StyleReplacements(order) + more)
      == ApplyAll(Markup(items, done + Names(order), 0), more)
    decreases |order|
  {
    if order == [] {
      assert StyleReplacements(order) + more == more;
      assert done + Names(order) == done;
    } else {
      hide ReplaceAll, Markup, OpenText, ApplyAll, Names, StyleReplacements, PlainText;
      var n := order[0];
      OpenTextHead(n);
      FirstStyle(order, more);
      ApplyFirst(Markup(items, done, 0), Replacement(OpenText(n), [StyleChar(StyleOf(n))]), StyleReplacements(order[1..]) + more);
      ReplaceOpen(items, done, n);
      ReplaceStyles(items, done + {n}, order[1..], more);
      assert done + {n} + Names(order[1..]) == done + ({n} + Names(order[1..]));
    }
  }

  lemma NoEquals(n: HtmlName)
    ensures '=' !in NameText(n)
  {
  }

  function FontBody(name: string): string {
    "font color=\"" + name + "\""
  }

  lemma FontShape(name: string)
    requires TagBody(name)
    ensures FontText(name) == "<" + FontBody(name) + ">" && TagBody(FontBody(name)) && '=' in FontBody(name)
  {
  }

  lemma ColourFacts(hue: Hue)
    ensures TagBody(COLOUR_NAMES[hue]) && '"' !in COLOUR_NAMES[hue]
    ensures Digits(COLOUR_NUMBERS[hue]) && |COLOUR_NUMBERS[hue]| == 2
  {
  }

  lemma ColoursDiffer(i: Hue, j: Hue)
    requires i != j
    ensures COLOUR_NAMES[i] != COLOUR_NAMES[j]
  {
  }

  lemma FontsDiffer(i: Hue, j: Hue)
    requires i != j
    ensures FontBody(COLOUR_NAMES[i]) != FontBody(COLOUR_NAMES[j])
  {
    ColoursDiffer(i, j);
    var a, b := FontBody(COLOUR_NAMES[i]), FontBody(COLOUR_NAMES[j]);
    assert a[12..|a| - 1] == COLOUR_NAMES[i] && b[12..|b| - 1] == COLOUR_NAMES[j];
  }

  lemma ColourCodeHead(hue: Hue)
    ensures '<' !in ColourCode(hue)
  {
    ColourFacts(hue);
  }

  // Replacing the tag of one colour rewrites exactly the fonts of that colour.
  lemma {:induction false} ReplaceFont(items: seq<Item>, hue: Hue)
    requires PlainText(items)
    ensures
      ReplaceAll(Markup(items, ALL, hue), FontText(COLOUR_NAMES[hue]), ColourCode(hue)) == Markup(items, ALL, hue + 1)
  {
    if items != [] {
      ReplaceFont(items[1..], hue);
      hide ReplaceAll, ItemText;
      ReplaceFontItem(items[0], Markup(items[1..], ALL, hue), hue);
    }
  }

  lemma ReplaceFontItem(t: Item, rest: string, hue: Hue)
    requires t.Text? ==> t.c != '<'
    ensures
      ReplaceAll(ItemText(t, ALL, hue) + rest, FontText(COLOUR_NAMES[hue]), ColourCode(hue))
      == ItemText(t, ALL, hue + 1) + ReplaceAll(rest, FontText(COLOUR_NAMES[hue]), ColourCode(hue))
  {
    var body, code := FontBody(COLOUR_NAMES[hue]), ColourCode(hue);
    ColourFacts(hue);
    FontShape(COLOUR_NAMES[hue]);
    hide FontText, FontBody, ColourCode;
    match t
    case Text(c) => ReplaceSkips([c], rest, "<" + body + ">", code);
    case Close(n) =>
      CloseBody(n);
      hide NameText;
      ReplaceOtherTag("/" + NameText(n), body, rest, code);
    case Open(n) =>
      AllNames(n);
      StyleCharHead(StyleOf(n));
      ReplaceSkips([StyleChar(StyleOf(n))], rest, "<" + body + ">", code);
    case Font(i) =>
      if i < hue {
        ColourCodeHead(i);
        ReplaceSkips(ColourCode(i), rest, "<" + body + ">", code);
      } else if i == hue {
        ReplaceThisTag(body, rest, code);
      } else {
        ColourFacts(i);
        FontShape(COLOUR_NAMES[i]);
        FontsDiffer(i, hue);
        ReplaceOtherTag(FontBody(COLOUR_NAMES[i]), body, rest, code);
      }
    case CloseFont =>
      assert CLOSE_FONT == "<" + "/font" + ">";
      ReplaceOtherTag("/font", body, rest, code);
  }

  lemma {:induction false} ReplaceFonts(items: seq<Item>, hue: nat)
    requires PlainText(items) && hue <= 16
    ensures
      ApplyAll(Markup(items, ALL, hue), FontReplacements(COLOUR_NAMES[hue..], COLOUR_NUMBERS[hue..])) == Markup(items, ALL, 16)
    decreases 16 - hue
  {
    hide ReplaceAll, FontText, Markup, ApplyAll, FontReplacements, PlainText, ColourCode;
    if hue < 16 {
      ReplaceFont(items, hue);
      ReplaceFonts(items, hue + 1);
      FontTextHead(COLOUR_NAMES[hue]);
      FirstFont(COLOUR_NAMES, COLOUR_NUMBERS, hue);
      CodeOfHue(hue);
      var r := Replacement(FontText(COLOUR_NAMES[hue]), ColourCode(hue));
      ApplyFirst(Markup(items, ALL, hue), r, FontReplacements(COLOUR_NAMES[hue + 1..], COLOUR_NUMBERS[hue + 1..]));
    } else {
      NoFontLeft(Markup(items, ALL, hue));
    }
  }

  lemma CodeOfHue(hue: Hue)
    ensures ColourCode(hue) == [STYLE_COLOR] + COLOUR_NUMBERS[hue]
  {
  }

  lemma FirstFont(names: seq<string>, numbers: seq<string>, k: nat)
    requires k < |names| == |numbers|
    ensures
      FontReplacements(names[k..], numbers[k..])
      == [Replacement(FontText(names[k]), [STYLE_COLOR] + numbers[k])] + FontReplacements(names[k + 1..], numbers[k + 1..])
  {
    assert names[k..][0] == names[k] && names[k..][1..] == names[k + 1..];
    assert numbers[k..][0] == numbers[k] && numbers[k..][1..] == numbers[k + 1..];
  }

  lemma NoFontLeft(s: string)
    ensures ApplyAll(s, FontReplacements(COLOUR_NAMES[16..], COLOUR_NUMBERS[16..])) == s
  {
  }

  lemma FontTextHead(name: string)
    ensures FontText(name) != ""
  {
  }

  const ALL := Names(OPEN_ORDER)

  lemma AllNames(n: HtmlName)
    ensures n in ALL
  {
  }

  lemma OpenOrderDistinct()
    ensures forall i, j :: 0 <= i < j < |OPEN_ORDER| ==> OPEN_ORDER[i] != OPEN_ORDER[j]
  {
  }

  lemma ReplacedMarkup(items: seq<Item>)
    requires PlainText(items)
    ensures ApplyAll(HtmlString(items), Replacements()) == Markup(items, ALL, 16)
  {
    hide ApplyAll, StyleReplacements, FontReplacements, Markup, Names;
    var fonts := FontReplacements(COLOUR_NAMES, COLOUR_NUMBERS);
    OpenOrderDistinct();
    ReplaceStyles(items, {}, OPEN_ORDER, fonts);
    assert {} + ALL == ALL;
    assert COLOUR_NAMES[0..] == COLOUR_NAMES && COLOUR_NUMBERS[0..] == COLOUR_NUMBERS;
    ReplaceFonts(items, 0);
  }

  // --- Fixing up the closing tags ---

  // The code string: each element's code, and a restart at each closing tag.
  function IrcText(items: seq<Item>, open: seq<Style>): string {
    if items == [] then ""
    else match items[0]
      case Text(c) => [c] + IrcText(items[1..], open)
      case Open(n) => [StyleChar(StyleOf(n))] + IrcText(items[1..], open + [StyleOf(n)])
      case Close(n) =>
        var open' := RemoveCode(open, StyleOf(n));
        Restart(open') + IrcText(items[1..], open')
      case Font(hue) => ColourCode(hue) + IrcText(items[1..], open)
      case CloseFont => Restart(open) + IrcText(items[1..], open)
  }

  lemma StyleCharRoundTrip(s: Style)
    ensures StyleOfChar(StyleChar(s)) == Some(s)
  {
  }

  lemma CloseTextPrefix(m: HtmlName, n: HtmlName, rest: string)
    ensures StartsWith(CloseText(m) + rest, CloseText(n)) <==> m == n
  {
    NameFacts(m);
    NameFacts(n);
    CloseTextShape(m);
    CloseTextShape(n);
    if m != n { NamesDiffer(m, n); }
    hide NameText;
    TagPrefix("/" + NameText(m), "/" + NameText(n), rest);
    assert ("/" + NameText(m))[1..] == NameText(m) && ("/" + NameText(n))[1..] == NameText(n);
  }

  lemma NotCloseFont(n: HtmlName, rest: string)
    ensures !StartsWith(CloseText(n) + rest, CLOSE_FONT)
  {
    NameFacts(n);
    CloseTextShape(n);
    var b := "/" + NameText(n);
    assert CLOSE_FONT == "<" + "/font" + ">";
    TagPrefix(b, "/font", rest);
    assert b[1..] == NameText(n) && "/font"[1..] == "font";
    NotFont(n);
    hide NameText;
  }

  lemma NotFont(n: HtmlName)
    ensures NameText(n) != "font"
  {
  }

  lemma {:induction false} ClosingAtIs(n: HtmlName, rest: string, order: seq<HtmlName>)
    requires n in order
    ensures ClosingAt(CloseText(n) + rest, order) == Some(n)
  {
    hide CloseText;
    CloseTextPrefix(n, order[0], rest);
    if order[0] != n { ClosingAtIs(n, rest, order[1..]); }
  }

  lemma {:induction false} FixesMarkup(items: seq<Item>, open: seq<Style>)
    requires PlainText(items)
    ensures FixCloses(open, Markup(items, ALL, 16)) == IrcText(items, open)
  {
    if items != [] {
      var rest := items[1..];
      var tail := Markup(rest, ALL, 16);
      match items[0]
      case Text(c) =>
        FixesMarkup(rest, open);
        FixesText(open, c, tail);
      case Open(n) =>
        FixesMarkup(rest, open + [StyleOf(n)]);
        AllNames(n);
        FixesCode(open, StyleOf(n), tail);
      case Close(n) =>
        FixesMarkup(rest, RemoveCode(open, StyleOf(n)));
        FixesClose(open, n, tail);
      case Font(hue) =>
        FixesMarkup(rest, open);
        FixesColour(open, hue, tail);
      case CloseFont =>
        FixesMarkup(rest, open);
        FixesCloseFont(open, tail);
    }
  }

  lemma FixesColour(open: seq<Style>, hue: Hue, tail: string)
    ensures FixCloses(open, ColourCode(hue) + tail) == ColourCode(hue) + FixCloses(open, tail)
  {
    var a, b := COLOUR_NUMBERS[hue][0], COLOUR_NUMBERS[hue][1];
    ColourCodeChars(hue);
    hide FixCloses, StyleOfChar, ColourCode;
    FixesText(open, b, tail);
    FixesText(open, a, [b] + tail);
    FixesText(open, STYLE_COLOR, [a] + ([b] + tail));
    Unfolded(STYLE_COLOR, a, b, tail);
    Unfolded(STYLE_COLOR, a, b, FixCloses(open, tail));
  }

  lemma Unfolded(x: char, y: char, z: char, tail: string)
    ensures [x, y, z] + tail == [x] + ([y] + ([z] + tail))
  {
  }

  lemma ColourCodeChars(hue: Hue)
    ensures |COLOUR_NUMBERS[hue]| == 2
    ensures
      var a, b := COLOUR_NUMBERS[hue][0], COLOUR_NUMBERS[hue][1];
      && ColourCode(hue) == [STYLE_COLOR, a, b] && a != '<' && b != '<'
      && StyleOfChar(STYLE_COLOR).None? && StyleOfChar(a).None? && StyleOfChar(b).None?
  {
    ColourFacts(hue);
    NoStyleChars(COLOUR_NUMBERS[hue][0], COLOUR_NUMBERS[hue][1]);
  }

  lemma NoStyleChars(a: char, b: char)
    requires '0' <= a <= '9' && '0' <= b <= '9'
    ensures StyleOfChar(STYLE_COLOR).None? && StyleOfChar(a).None? && StyleOfChar(b).None?
  {
  }

  lemma FixesCloseFont(open: seq<Style>, tail: string)
    ensures FixCloses(open, CLOSE_FONT + tail) == Restart(open) + FixCloses(open, tail)
  {
    StartsWithConcat(CLOSE_FONT, tail);
    hide StartsWith, ClosingAt, Restart, RemoveCode;
  }

  lemma FixesText(open: seq<Style>, c: char, tail: string)
    requires c != '<' && StyleOfChar(c).None?
    ensures FixCloses(open, [c] + tail) == [c] + FixCloses(open, tail)
  {
  }

  lemma FixesCode(open: seq<Style>, s: Style, tail: string)
    ensures FixCloses(open, [StyleChar(s)] + tail) == [StyleChar(s)] + FixCloses(open + [s], tail)
  {
    StyleCharRoundTrip(s);
    assert ([StyleChar(s)] + tail)[1..] == tail;
  }

  lemma FixesClose(open: seq<Style>, n: HtmlName, tail: string)
    ensures
      var open' := RemoveCode(open, StyleOf(n));
      FixCloses(open, CloseText(n) + tail) == Restart(open') + FixCloses(open', tail)
  {
    hide CloseText, FixCloses, RemoveCode, Restart;
    AllClosingTags(n);
    NotCloseFont(n, tail);
    ClosingAtIs(n, tail, CLOSE_ORDER);
    ClosingTagStarts(n);
    StartsWithConcat(CloseText(n), tail);
    FixClosesTag(open, CloseText(n) + tail, n);
  }

  // --- Nothing is left for the last two passes ---

  lemma {:induction false} NothingToStrip(s: string)
    requires '<' !in s
    ensures StripTags(s) == s
  {
    if s != "" { NothingToStrip(s[1..]); }
  }

  lemma RestartHasNoTag(open: seq<Style>)
    ensures forall k :: 0 <= k < |Restart(open)| ==> Restart(open)[k] != '<'
  {
  }

  lemma {:induction false} IrcTextHasNoTag(items: seq<Item>, open: seq<Style>)
    requires PlainText(items)
    ensures '<' !in IrcText(items, open)
  {
    if items != [] {
      match items[0]
      case Text(c) => IrcTextHasNoTag(items[1..], open);
      case Open(n) =>
        StyleCharHead(StyleOf(n));
        IrcTextHasNoTag(items[1..], open + [StyleOf(n)]);
      case Close(n) =>
        var open' := RemoveCode(open, StyleOf(n));
        RestartHasNoTag(open');
        IrcTextHasNoTag(items[1..], open');
        hide RemoveCode, Restart;
      case Font(hue) =>
        ColourCodeHead(hue);
        IrcTextHasNoTag(items[1..], open);
        hide ColourCode;
      case CloseFont =>
        RestartHasNoTag(open);
        IrcTextHasNoTag(items[1..], open);
        hide Restart;
    }
  }

  // p starts nowhere in s.
  predicate Absent(s: string, p: string) {
    s == "" || (!StartsWith(s, p) && Absent(s[1..], p))
  }

  // None of the entities that are unescaped at the end.
  predicate NoEscapes(html: string) {
    Absent(html, "&gt;") && Absent(html, "&lt;") && Absent(html, "&quot;") && Absent(html, "&amp;")
  }

  // Sanitised HTML that decodes to itself holds no entities at all.
  predicate NoEntities(html: string) {
    NoEscapes(html) && Absent(html, "&apos;") && Absent(html, "&ZeroWidthSpace;")
  }

  lemma {:induction false} ReplaceAbsentPattern(s: string, p: string, rep: string)
    requires p != "" && Absent(s, p)
    ensures ReplaceAll(s, p, rep) == s
  {
    if s != "" { ReplaceAbsentPattern(s[1..], p, rep); }
  }

  lemma {:induction false} AbsentSuffix(a: string, b: string, p: string)
    requires Absent(a + b, p)
    ensures Absent(b, p)
  {
    if a == "" {
      assert a + b == b;
    } else {
      assert (a + b)[1..] == a[1..] + b;
      AbsentSuffix(a[1..], b, p);
    }
  }

  lemma {:induction false} AbsentPrefixed(a: string, b: string, p: string)
    requires p != "" && p[0] !in a && Absent(b, p)
    ensures Absent(a + b, p)
  {
    if a == "" {
      assert a + b == b;
    } else {
      assert (a + b)[1..] == a[1..] + b && (a + b)[0] == a[0];
      AbsentPrefixed(a[1..], b, p);
    }
  }

  lemma StartsWithHead(c: char, s: string, p: string)
    requires p != ""
    ensures StartsWith([c] + s, p) <==> p[0] == c && StartsWith(s, p[1..])
  {
  }

  predicate Harmless(p: string) {
    '<' !in p && NoControls(p)
  }

  // A run of plain characters in the code string is a run in the HTML.
  lemma {:induction false} RunInMarkup(items: seq<Item>, open: seq<Style>, p: string)
    requires Harmless(p) && StartsWith(IrcText(items, open), p)
    ensures StartsWith(HtmlString(items), p)
    decreases |p|
  {
    if p != "" {
      assert items != [];
      match items[0]
      case Text(c) =>
        var rest := items[1..];
        StartsWithHead(c, IrcText(rest, open), p);
        assert Harmless(p[1..]);
        RunInMarkup(rest, open, p[1..]);
        StartsWithHead(c, HtmlString(rest), p);
      case Open(n) =>
        StyleIsControl(StyleOf(n));
      case _ =>
    }
  }

  lemma StyleIsControl(s: Style)
    ensures IsControl(StyleChar(s))
  {
  }

  lemma {:induction false} AbsentInIrcText(items: seq<Item>, open: seq<Style>, p: string)
    requires Harmless(p) && p != "" && p[0] == '&' && Absent(HtmlString(items), p)
    ensures Absent(IrcText(items, open), p)
  {
    hide StyleChar, IsControl, RemoveCode, Restart, OpenText, CloseText, FontText, ColourCode, StartsWith, Harmless;
    if items != [] {
      var rest := items[1..];
      AbsentSuffix(ItemText(items[0], {}, 0), HtmlString(rest), p);
      match items[0]
      case Text(c) =>
        AbsentInIrcText(rest, open, p);
        if StartsWith(IrcText(items, open), p) { RunInMarkup(items, open, p); }
        assert ([c] + IrcText(rest, open))[1..] == IrcText(rest, open);
      case Open(n) =>
        AbsentInIrcText(rest, open + [StyleOf(n)], p);
        StyleIsControl(StyleOf(n));
        ControlsApart([StyleChar(StyleOf(n))], p);
        AbsentPrefixed([StyleChar(StyleOf(n))], IrcText(rest, open + [StyleOf(n)]), p);
      case Close(n) =>
        var open' := RemoveCode(open, StyleOf(n));
        AbsentInIrcText(rest, open', p);
        RestartShape(open');
        ControlsApart(Restart(open'), p);
        AbsentPrefixed(Restart(open'), IrcText(rest, open'), p);
      case Font(hue) =>
        AbsentInIrcText(rest, open, p);
        NoAmpersand(hue);
        AbsentPrefixed(ColourCode(hue), IrcText(rest, open), p);
      case CloseFont =>
        AbsentInIrcText(rest, open, p);
        RestartShape(open);
        ControlsApart(Restart(open), p);
        AbsentPrefixed(Restart(open), IrcText(rest, open), p);
    }
  }

  lemma NoAmpersand(hue: Hue)
    ensures '&' !in ColourCode(hue)
  {
    ColourFacts(hue);
  }

  lemma ControlsApart(codes: string, p: string)
    requires AllControl(codes) && Harmless(p) && p != ""
    ensures p[0] !in codes
  {
  }

  lemma NothingToUnescape(items: seq<Item>, open: seq<Style>)
    requires NoEscapes(HtmlString(items))
    ensures ApplyAll(IrcText(items, open), UNESCAPES) == IrcText(items, open)
  {
    var s := IrcText(items, open);
    hide IrcText, ReplaceAll, Absent;
    AbsentInIrcText(items, open, "&gt;");
    AbsentInIrcText(items, open, "&lt;");
    AbsentInIrcText(items, open, "&quot;");
    AbsentInIrcText(items, open, "&amp;");
    ReplaceAbsentPattern(s, "&gt;", ">");
    ReplaceAbsentPattern(s, "&lt;", "<");
    ReplaceAbsentPattern(s, "&quot;", "\"");
    ReplaceAbsentPattern(s, "&amp;", "&");
    assert UNESCAPES[1..] == [Replacement("&lt;", "<"), Replacement("&quot;", "\""), Replacement("&amp;", "&")];
    assert UNESCAPES[1..][1..] == [Replacement("&quot;", "\""), Replacement("&amp;", "&")];
    assert UNESCAPES[1..][1..][1..] == [Replacement("&amp;", "&")];
    assert UNESCAPES[1..][1..][1..][1..] == [];
  }

  // htmlToIrc on sanitised style markup.
  lemma IrcOfMarkup(items: seq<Item>)
    requires PlainText(items) && NoEscapes(HtmlString(items))
    ensures IrcOf(HtmlString(items)) == IrcText(items, [])
  {
    hide ApplyAll, FixCloses, StripTags, NoEscapes, IrcText, Markup;
    ReplacedMarkup(items);
    FixesMarkup(items, []);
    IrcTextHasNoTag(items, []);
    NothingToStrip(IrcText(items, []));
    NothingToUnescape(items, []);
  }

  // --- How an IRC client reads the result ---

  function Toggles(open: seq<Style>): seq<Token> {
    if open == [] then [] else [Toggle(open[0])] + Toggles(open[1..])
  }

  function IrcTokens(items: seq<Item>, open: seq<Style>): seq<Token> {
    if items == [] then []
    else match items[0]
      case Text(c) => [Ch(c)] + IrcTokens(items[1..], open)
      case Open(n) => [Toggle(StyleOf(n))] + IrcTokens(items[1..], open + [StyleOf(n)])
      case Close(n) =>
        var open' := RemoveCode(open, StyleOf(n));
        [Reset] + (Toggles(open') + IrcTokens(items[1..], open'))
      case Font(hue) => [Colour(COLOUR_NUMBERS[hue], "")] + IrcTokens(items[1..], open)
      case CloseFont => [Reset] + (Toggles(open) + IrcTokens(items[1..], open))
  }

  lemma TokenizeHead(c: char, rest: string)
    requires c != STYLE_COLOR
    ensures
      var t := if StyleOfChar(c).Some? then Toggle(StyleOfChar(c).value)
               else if c == RESET_CODE then Reset else if c == REVERSE_CODE then Reverse else Ch(c);
      Tokenize([c] + rest) == [t] + Tokenize(rest)
  {
  }

  lemma StyleCharFacts(s: Style)
    ensures StyleChar(s) != STYLE_COLOR && StyleOfChar(StyleChar(s)) == Some(s)
  {
  }

  lemma TokenizeStyle(s: Style, rest: string)
    ensures Tokenize([StyleChar(s)] + rest) == [Toggle(s)] + Tokenize(rest)
  {
    hide Tokenize, StyleChar, StyleOfChar;
    StyleCharFacts(s);
    TokenizeHead(StyleChar(s), rest);
  }

  lemma {:induction false} TokenizeCodes(open: seq<Style>, rest: string)
    ensures Tokenize(Codes(open) + rest) == Toggles(open) + Tokenize(rest)
  {
    hide Tokenize, StyleChar;
    if open == [] {
      assert Codes(open) + rest == rest;
    } else {
      TokenizeCodes(open[1..], rest);
      assert Codes(open) == [StyleChar(open[0])] + Codes(open[1..]);
      Associates([StyleChar(open[0])], Codes(open[1..]), rest);
      TokenizeStyle(open[0], Codes(open[1..]) + rest);
    }
  }

  lemma TokenizeRestart(open: seq<Style>, rest: string)
    ensures Tokenize(Restart(open) + rest) == [Reset] + (Toggles(open) + Tokenize(rest))
  {
    hide Tokenize, Toggles;
    Associates([RESET_CODE], Codes(open), rest);
    TokenizeHead(RESET_CODE, Codes(open) + rest);
    TokenizeCodes(open, rest);
  }

  // The code string begins with a comma and a digit exactly where the text does.
  lemma CommaInText(items: seq<Item>, open: seq<Style>)
    requires PlainText(items)
    ensures CommaDigit(IrcText(items, open)) <==> CommaDigitNext(Pieces(items))
  {
    FirstChar(items, open);
    if items != [] && items[0] == Text(',') {
      FirstChar(items[1..], open);
      assert Pieces(items)[1..] == Pieces(items[1..]);
      assert IrcText(items, open)[1..] == IrcText(items[1..], open);
    }
  }

  lemma FirstChar(items: seq<Item>, open: seq<Style>)
    requires PlainText(items)
    ensures
      var s := IrcText(items, open);
      if items != [] && items[0].Text? then s != "" && s[0] == items[0].c && Pieces(items)[0] == Html.Text(s[0])
      else
        && (items != [] ==> !Pieces(items)[0].Text?)
        && (s != "" ==> s[0] != ',' && !('0' <= s[0] <= '9'))
  {
    if items != [] && items[0].Open? { StyleCharHead(StyleOf(items[0].name)); }
    hide RemoveCode, StyleOf, Codes;
  }

  lemma TokenizeFont(hue: Hue, rest: string)
    requires !CommaDigit(rest)
    ensures Tokenize(ColourCode(hue) + rest) == [Colour(COLOUR_NUMBERS[hue], "")] + Tokenize(rest)
  {
    ColourFacts(hue);
    var number := COLOUR_NUMBERS[hue];
    hide Tokenize;
    Associates([STYLE_COLOR], number, rest);
    ForegroundRead(number, rest);
  }

  lemma {:induction false} TokenizeIrcText(items: seq<Item>, open: seq<Style>)
    requires PlainText(items) && FontsEnd(Pieces(items))
    ensures Tokenize(IrcText(items, open)) == IrcTokens(items, open)
  {
    hide Tokenize, Restart, RemoveCode, StyleChar, Toggles, ColourCode, StyleOf;
    if items == [] {
      EmptyTokens();
    } else {
      var rest := items[1..];
      assert Pieces(items)[0] == PieceOf(items[0]) && Pieces(items)[1..] == Pieces(rest);
      match items[0]
      case Text(c) =>
        TokenizeIrcText(rest, open);
        PlainToken(c, IrcText(rest, open));
      case Open(n) =>
        var open' := open + [StyleOf(n)];
        TokenizeIrcText(rest, open');
        TokenizeStyle(StyleOf(n), IrcText(rest, open'));
      case Close(n) =>
        var open' := RemoveCode(open, StyleOf(n));
        TokenizeIrcText(rest, open');
        TokenizeRestart(open', IrcText(rest, open'));
      case Font(hue) =>
        TokenizeIrcText(rest, open);
        CommaInText(rest, open);
        TokenizeFont(hue, IrcText(rest, open));
      case CloseFont =>
        TokenizeIrcText(rest, open);
        TokenizeRestart(open, IrcText(rest, open));
    }
  }

  lemma PlainToken(c: char, rest: string)
    requires !IsControl(c)
    ensures Tokenize([c] + rest) == [Ch(c)] + Tokenize(rest)
  {
    TokenizeHead(c, rest);
    hide Tokenize;
  }

  function OddOpen(open: seq<Style>): set<Style> {
    set s: Style | multiset(open)[s] % 2 == 1
  }

  lemma PushOdd(open: seq<Style>, s: Style, colours: Colours)
    ensures IrcStep(Mode(OddOpen(open), colours), Toggle(s)) == Mode(OddOpen(open + [s]), colours)
  {
  }

  lemma {:induction false} ReadToggles(pre: seq<Style>, open: seq<Style>, rest: seq<Token>)
    ensures
      IrcMeaning(Toggles(open) + rest, Mode(OddOpen(pre), PLAIN))
      == IrcMeaning(rest, Mode(OddOpen(pre + open), PLAIN))
    decreases |open|
  {
    hide OddOpen, IrcStep;
    if open == [] {
      assert Toggles(open) + rest == rest && pre + open == pre;
    } else {
      var ts := Toggles(open) + rest;
      assert ts[0] == Toggle(open[0]) && ts[1..] == Toggles(open[1..]) + rest;
      PushOdd(pre, open[0], PLAIN);
      ReadToggles(pre + [open[0]], open[1..], rest);
      assert pre + [open[0]] + open[1..] == pre + open;
      MeaningSkips(ts, Mode(OddOpen(pre), PLAIN));
    }
  }

  lemma MeaningSkips(ts: seq<Token>, m: Mode)
    requires ts != [] && !ts[0].Ch?
    ensures IrcMeaning(ts, m) == IrcMeaning(ts[1..], IrcStep(m, ts[0]))
  {
  }

  lemma ReadRestart(open: seq<Style>, rest: seq<Token>, m: Mode)
    ensures IrcMeaning([Reset] + (Toggles(open) + rest), m) == IrcMeaning(rest, Mode(OddOpen(open), PLAIN))
  {
    hide Toggles;
    var ts := [Reset] + (Toggles(open) + rest);
    assert ts[1..] == Toggles(open) + rest;
    MeaningSkips(ts, m);
    ReadToggles([], open, rest);
    assert [] + open == open;
    assert OddOpen([]) == {};
  }

  // --- How a browser reads the markup ---

  function PieceOf(t: Item): Html.Piece {
    match t
    case Text(c) => Html.Text(c)
    case Open(n) => Html.Open(Html.Element(Html.Simple(StyleOf(n)), PLAIN))
    case Close(n) => Html.Close(Html.Simple(StyleOf(n)))
    case Font(hue) => Html.Open(Html.Element(Html.Font, Colours(Some(COLOUR_NAMES[hue]), None)))
    case CloseFont => Html.Close(Html.Font)
  }

  function Pieces(items: seq<Item>): seq<Html.Piece> {
    if items == [] then [] else [PieceOf(items[0])] + Pieces(items[1..])
  }

  // The elements are the ones that a browser knows by these names.
  lemma StyleOfName(n: HtmlName)
    ensures HtmlText.TagOfName(NameText(n)) == Some(Html.Simple(StyleOf(n)))
    ensures '>' !in NameText(n) && ' ' !in NameText(n) && NameText(n) != "" && NameText(n)[0] != '/'
  {
  }

  lemma NoAttrs()
    ensures HtmlText.ReadAttr("", " color=\"") == (None, "")
    ensures HtmlText.ReadAttr("", " data-mx-bg-color=\"") == (None, "")
  {
  }

  lemma ReadOpen(n: HtmlName, rest: string)
    ensures HtmlText.ReadPiece(OpenText(n) + rest) == (PieceOf(Open(n)), |OpenText(n)|)
  {
    var name := NameText(n);
    StyleOfName(n);
    HtmlText.SpanToAll(name, ' ');
    assert name[..|name|] == name && name[|name|..] == "";
    NoAttrs();
    assert HtmlText.ReadTag(name) == Some(PieceOf(Open(n)));
    assert OpenText(n) + rest == ['<'] + name + ['>'] + rest;
    hide HtmlText.ReadPiece, HtmlText.ReadTag, NameText;
    HtmlText.ReadBody(name, rest);
  }

  lemma ReadClose(n: HtmlName, rest: string)
    ensures HtmlText.ReadPiece(CloseText(n) + rest) == (PieceOf(Close(n)), |CloseText(n)|)
  {
    var body := "/" + NameText(n);
    StyleOfName(n);
    assert body[0] == '/' && body[1..] == NameText(n);
    assert HtmlText.ReadTag(body) == Some(PieceOf(Close(n)));
    assert CloseText(n) + rest == ['<'] + body + ['>'] + rest;
    hide HtmlText.ReadPiece, HtmlText.ReadTag, NameText;
    HtmlText.ReadBody(body, rest);
  }

  lemma FontName()
    ensures HtmlText.TagOfName("font") == Some(Html.Font)
  {
  }

  lemma FontBodySplit(name: string)
    ensures
      var body := FontBody(name);
      && HtmlText.SpanTo(body, ' ') == 4 && body[..4] == "font" && body[0] != '/'
      && body[4..] == " color=\"" + name + "\"" + ""
  {
    var attrs := "color=\"" + name + "\"";
    assert FontBody(name) == "font" + [' '] + attrs;
    HtmlText.SpanToConcat("font", ' ', attrs);
  }

  lemma ReadFontBody(name: string)
    requires '"' !in name
    ensures HtmlText.ReadTag(FontBody(name)) == Some(Html.Open(Html.Element(Html.Font, Colours(Some(name), None))))
  {
    FontBodySplit(name);
    FontName();
    HtmlText.ReadAttrOf(" color=\"", name, "");
    NoAttrs();
    hide HtmlText.ReadAttr, HtmlText.TagOfName, HtmlText.SpanTo, FontBody;
  }

  lemma ReadFont(hue: Hue, rest: string)
    ensures HtmlText.ReadPiece(FontText(COLOUR_NAMES[hue]) + rest) == (PieceOf(Font(hue)), |FontText(COLOUR_NAMES[hue])|)
  {
    var name := COLOUR_NAMES[hue];
    var body := FontBody(name);
    ColourFacts(hue);
    FontShape(name);
    ReadFontBody(name);
    hide HtmlText.ReadPiece, HtmlText.ReadTag, FontBody, FontText;
    assert FontText(name) + rest == ['<'] + body + ['>'] + rest;
    HtmlText.ReadBody(body, rest);
  }

  lemma ReadCloseFont(rest: string)
    ensures HtmlText.ReadPiece(CLOSE_FONT + rest) == (PieceOf(CloseFont), |CLOSE_FONT|)
  {
    FontName();
    assert "/font"[1..] == "font";
    assert CLOSE_FONT + rest == ['<'] + "/font" + ['>'] + rest;
    hide HtmlText.TagOfName;
    assert HtmlText.ReadTag("/font") == Some(PieceOf(CloseFont));
    hide HtmlText.ReadPiece, HtmlText.ReadTag;
    HtmlText.ReadBody("/font", rest);
  }

  // An entity that is read is there.
  lemma NoEntityRead(name: string, rest: string)
    requires NoEntities(name + rest)
    ensures HtmlText.EntityChar(name).None?
  {
    hide Absent;
    EntitiesAbsent(name + rest);
    assert StartsWith(name + rest, name);
  }

  lemma EntitiesAbsent(s: string)
    requires NoEntities(s)
    ensures !StartsWith(s, "&gt;") && !StartsWith(s, "&lt;") && !StartsWith(s, "&quot;") && !StartsWith(s, "&amp;")
    ensures !StartsWith(s, "&apos;") && !StartsWith(s, "&ZeroWidthSpace;")
  {
  }

  lemma ReadText(c: char, rest: string)
    requires c != '<' && NoEntities([c] + rest)
    ensures HtmlText.ReadPiece([c] + rest) == (PieceOf(Text(c)), 1)
  {
    var s := [c] + rest;
    var n := HtmlText.SpanTo(s, ';');
    if n < |s| {
      assert s == s[..n + 1] + s[n + 1..];
      NoEntityRead(s[..n + 1], s[n + 1..]);
    }
    hide NoEntities, HtmlText.EntityChar, HtmlText.ReadTag;
  }

  lemma EntitiesSuffix(a: string, b: string)
    requires NoEntities(a + b)
    ensures NoEntities(b)
  {
    hide Absent;
    AbsentSuffix(a, b, "&gt;");
    AbsentSuffix(a, b, "&lt;");
    AbsentSuffix(a, b, "&quot;");
    AbsentSuffix(a, b, "&amp;");
    AbsentSuffix(a, b, "&apos;");
    AbsentSuffix(a, b, "&ZeroWidthSpace;");
  }

  lemma {:induction false} ReadMarkup(items: seq<Item>)
    requires PlainText(items) && NoEntities(HtmlString(items))
    ensures HtmlText.Read(HtmlString(items)) == Pieces(items)
  {
    if items == [] {
      HtmlText.ReadNothing();
    } else {
      hide HtmlText.Read, HtmlText.ReadPiece, NoEntities, OpenText, CloseText, FontText, StyleOf, StyleChar, ColourCode;
      var text, rest := ItemText(items[0], {}, 0), HtmlString(items[1..]);
      EntitiesSuffix(text, rest);
      ReadMarkup(items[1..]);
      match items[0] {
        case Text(c) => ReadText(c, rest);
        case Open(n) => ReadOpen(n, rest);
        case Close(n) => ReadClose(n, rest);
        case Font(hue) => ReadFont(hue, rest);
        case CloseFont => ReadCloseFont(rest);
      }
      TextNotEmpty(items[0]);
      HtmlText.ReadUnfold(text, rest);
    }
  }

  lemma TextNotEmpty(t: Item)
    ensures ItemText(t, {}, 0) != ""
  {
  }

  function TagOf(n: Option<HtmlName>): Html.Tag {
    if n.Some? then Html.Simple(StyleOf(n.value)) else Html.Font
  }

  // What is well nested by name is well nested for the reader.
  lemma {:induction false} NestingRuns(items: seq<Item>, stack: seq<Option<HtmlName>>, st: seq<Html.Element>)
    requires Nesting(items, stack).Some? && |st| == |stack|
    requires forall i :: 0 <= i < |st| ==> st[i].tag == TagOf(stack[i])
    ensures Html.Run(Pieces(items), st).Some?
  {
    if items != [] {
      hide StyleOf;
      var rest := items[1..];
      assert Pieces(items)[0] == PieceOf(items[0]) && Pieces(items)[1..] == Pieces(rest);
      match items[0]
      case Text(_) => NestingRuns(rest, stack, st);
      case Open(n) => NestingRuns(rest, stack + [Some(n)], st + [PieceOf(items[0]).elem]);
      case Font(_) => NestingRuns(rest, stack + [None], st + [PieceOf(items[0]).elem]);
      case _ => NestingRuns(rest, stack[..|stack| - 1], st[..|st| - 1]);
    }
  }

  // --- The code string against the markup ---

  // The list of open codes counts, for each style, the elements that have it.
  ghost predicate Counts(open: seq<Style>, st: seq<Html.Element>) {
    forall s: Style :: multiset(open)[s] == Depth(st, s)
  }

  lemma NamesPush(st: seq<Html.Element>, e: Html.Element)
    ensures Html.Names(st + [e]) == Html.Names(st) + [e.tag]
  {
  }

  lemma CountsOpen(open: seq<Style>, st: seq<Html.Element>, e: Html.Element, s: Style)
    requires Counts(open, st) && e.tag == Html.Simple(s)
    ensures Counts(open + [s], st + [e])
  {
    NamesPush(st, e);
    hide Html.Names;
  }

  lemma RemovedOne(open: seq<Style>, s: Style)
    requires s in open
    ensures multiset(RemoveCode(open, s)) == multiset(open) - multiset{s}
  {
    var i := FirstIndex(open, s);
    assert open == open[..i] + [s] + open[i + 1..];
    assert multiset(open) == multiset(open[..i]) + multiset{s} + multiset(open[i + 1..]);
    assert RemoveCode(open, s) == open[..i] + open[i + 1..];
  }

  lemma DepthBelow(st: seq<Html.Element>, s: Style)
    requires st != [] && st[|st| - 1].tag == Html.Simple(s)
    ensures forall x: Style :: Depth(st, x) == Depth(st[..|st| - 1], x) + if x == s then 1 else 0
  {
    var below, e := st[..|st| - 1], st[|st| - 1];
    assert st == below + [e];
    NamesPush(below, e);
    hide Html.Names;
  }

  lemma CountsClose(open: seq<Style>, st: seq<Html.Element>, s: Style)
    requires Counts(open, st) && st != [] && st[|st| - 1].tag == Html.Simple(s)
    ensures Counts(RemoveCode(open, s), st[..|st| - 1])
  {
    DepthBelow(st, s);
    hide Depth, RemoveCode;
    assert multiset(open)[s] == Depth(st, s) > 0;
    RemovedOne(open, s);
    assert forall x: Style :: multiset(open)[x] == Depth(st, x);
  }

  // Fonts do not count.
  lemma CountsFont(open: seq<Style>, st: seq<Html.Element>, e: Html.Element)
    requires e.tag.Font?
    ensures Counts(open, st + [e]) <==> Counts(open, st)
  {
    NamesPush(st, e);
    hide Html.Names;
    assert forall x: Style :: Depth(st + [e], x) == Depth(st, x);
  }

  lemma HexIsHue(hue: Hue)
    ensures HexOf(COLOUR_NUMBERS[hue]) == HueOf(Some(COLOUR_NAMES[hue]))
  {
  }

  // A font sets the foreground.
  lemma FontStep(m: Mode, hue: Hue)
    requires m.colours.bg == None
    ensures IrcStep(m, Colour(COLOUR_NUMBERS[hue], "")) == m.(colours := Colours(HueOf(Some(COLOUR_NAMES[hue])), None))
  {
    ColourFacts(hue);
    HexIsHue(hue);
    hide HexOf, HueOf;
  }

  lemma CountsOdd(open: seq<Style>, st: seq<Html.Element>)
    requires Counts(open, st)
    ensures OddOpen(open) == OddStyles(st)
  {
  }

  lemma {:induction false} ReadTokens(items: seq<Item>, open: seq<Style>, st: seq<Html.Element>, fg: Option<string>)
    requires Counts(open, st) && Html.Run(Pieces(items), st).Some?
    ensures
      IrcMeaning(IrcTokens(items, open), Mode(OddOpen(open), Colours(fg, None))) == CodeMeaning(Pieces(items), st, fg)
  {
    hide Counts, OddOpen, OddStyles, RemoveCode, Toggles, StyleOf, HueOf;
    if items != [] {
      var rest := items[1..];
      var ts := IrcTokens(items, open);
      var m := Mode(OddOpen(open), Colours(fg, None));
      assert Pieces(items)[0] == PieceOf(items[0]) && Pieces(items)[1..] == Pieces(rest);
      match items[0]
      case Text(c) =>
        ReadTokens(rest, open, st, fg);
        CountsOdd(open, st);
        assert ts[1..] == IrcTokens(rest, open);
      case Open(n) =>
        var e := PieceOf(Open(n)).elem;
        CountsOpen(open, st, e, StyleOf(n));
        ReadTokens(rest, open + [StyleOf(n)], st + [e], fg);
        PushOdd(open, StyleOf(n), m.colours);
        assert ts[1..] == IrcTokens(rest, open + [StyleOf(n)]);
        MeaningSkips(ts, m);
      case Close(n) =>
        var open' := RemoveCode(open, StyleOf(n));
        CountsClose(open, st, StyleOf(n));
        ReadTokens(rest, open', st[..|st| - 1], None);
        ReadRestart(open', IrcTokens(rest, open'), m);
      case Font(hue) =>
        var e := PieceOf(items[0]).elem;
        CountsFont(open, st, e);
        ReadTokens(rest, open, st + [e], HueOf(e.attrs.fg));
        FontStep(m, hue);
        assert ts[1..] == IrcTokens(rest, open);
        MeaningSkips(ts, m);
      case CloseFont =>
        var below := st[..|st| - 1];
        assert st == below + [st[|st| - 1]];
        CountsFont(open, below, st[|st| - 1]);
        ReadTokens(rest, open, below, None);
        ReadRestart(open, IrcTokens(rest, open), m);
    }
  }

  // There are no reverse codes.
  lemma {:induction false} NoReverseToken(s: string)
    requires REVERSE_CODE !in s
    ensures forall i :: 0 <= i < |Tokenize(s)| ==> !Tokenize(s)[i].Reverse?
    decreases |s|
  {
    if s != "" {
      assert s[0] != REVERSE_CODE;
      NextIsNoReverse(s);
      hide NextToken, Tokenize;
      NoReverseToken(s[NextToken(s).1..]);
      TokenizeUnfold(s);
    }
  }

  lemma NextIsNoReverse(s: string)
    requires s != "" && s[0] != REVERSE_CODE
    ensures !NextToken(s).0.Reverse?
  {
  }

  lemma {:induction false} IrcTextHasNoReverse(items: seq<Item>, open: seq<Style>)
    requires PlainText(items)
    ensures REVERSE_CODE !in IrcText(items, open)
  {
    hide RemoveCode, Restart, ColourCode, StyleOf, StyleChar, IsControl;
    if items != [] {
      ReverseIsControl();
      match items[0]
      case Text(c) => IrcTextHasNoReverse(items[1..], open);
      case Open(n) =>
        NoReverseCodes(StyleOf(n), open, 0);
        IrcTextHasNoReverse(items[1..], open + [StyleOf(n)]);
      case Close(n) =>
        var open' := RemoveCode(open, StyleOf(n));
        NoReverseCodes(StyleOf(n), open', 0);
        IrcTextHasNoReverse(items[1..], open');
      case Font(hue) =>
        NoReverseCodes(Bold, open, hue);
        IrcTextHasNoReverse(items[1..], open);
      case CloseFont =>
        NoReverseCodes(Bold, open, 0);
        IrcTextHasNoReverse(items[1..], open);
    }
  }

  lemma ReverseIsControl()
    ensures IsControl(REVERSE_CODE)
  {
  }

  lemma NoReverseCodes(s: Style, open: seq<Style>, hue: Hue)
    ensures StyleChar(s) != REVERSE_CODE && REVERSE_CODE !in Restart(open) && REVERSE_CODE !in ColourCode(hue)
  {
    ColourFacts(hue);
  }

  lemma {:induction false} WithoutReverse(ts: seq<Token>, m: Mode)
    requires forall i :: 0 <= i < |ts| ==> !ts[i].Reverse?
    ensures IrcToHtmlProofs.ReversesHarmless(ts, m)
  {
    if ts != [] { WithoutReverse(ts[1..], IrcStep(m, ts[0])); }
  }

  // --- The round trip ---

  // An IRC client shows each character with the styles that an odd number of the elements around it,
  // as a browser reads the HTML, give it, and with the colour of the last font, unless an element has
  // been closed since.
  lemma HtmlToIrcMeaning(items: seq<Item>)
    requires WellNested(items) && PlainText(items) && NoEntities(HtmlString(items))
    requires FontsEnd(HtmlText.Read(HtmlString(items)))
    ensures
      var html := HtmlString(items);
      IrcMeaning(Tokenize(IrcOf(html)), DEFAULT_MODE) == CodeMeaning(HtmlText.Read(html), [], None)
  {
    assert OddOpen([]) == {};
    CountsNothing();
    NestingRuns(items, [], []);
    hide PlainText, NoEntities, HtmlString, IrcOf, Tokenize, IrcMeaning, CodeMeaning, OddOpen, IrcTokens, Counts, FontsEnd;
    ReadMarkup(items);
    IrcOfMarkup(items);
    TokenizeIrcText(items, []);
    ReadTokens(items, [], [], None);
  }

  lemma CountsNothing()
    ensures Counts([], [])
  {
    assert Html.Names([]) == [];
  }

  // Markup as it is read: only fonts have a colour, and no background.
  ghost predicate NoBackground(st: seq<Html.Element>) {
    forall i :: 0 <= i < |st| ==> st[i].attrs.bg == None
  }

  lemma {:induction false} FontHasNoBackground(st: seq<Html.Element>)
    requires NoBackground(st)
    ensures Html.InnerFont(st).bg == None
  {
    if st != [] { FontHasNoBackground(st[..|st| - 1]); }
  }

  lemma OddIsStyles(st: seq<Html.Element>)
    ensures OddStyles(st) == Html.ModeOf(st).styles <==> NoEvenDepth(st)
  {
    var all := Html.ModeOf(st).styles;
    assert forall s: Style :: s in all <==> Depth(st, s) > 0;
    hide Depth, Html.ModeOf;
    if NoEvenDepth(st) {
      assert OddStyles(st) == all;
    } else {
      var s: Style :| !(Depth(st, s) == 0 || Depth(st, s) % 2 == 1);
      assert s in all && s !in OddStyles(st);
    }
  }

  // One character is shown as the codes have it.
  lemma SameMode(st: seq<Html.Element>, fg: Option<string>)
    requires NoBackground(st)
    ensures
      Mode(OddStyles(st), Colours(fg, None)) == Hued(Html.ModeOf(st))
      <==> NoEvenDepth(st) && fg == HueOf(Html.InnerFont(st).fg)
  {
    OddIsStyles(st);
    FontHasNoBackground(st);
    var m := Html.ModeOf(st);
    assert m.colours == Html.InnerFont(st) && HueOf(None) == None;
    hide OddStyles, NoEvenDepth, Html.ModeOf, Html.InnerFont, HueOf;
  }

  lemma {:induction false} CodeIsMeaning(ps: seq<Html.Piece>, st: seq<Html.Element>, fg: Option<string>)
    requires NoBackground(st) && forall i :: 0 <= i < |ps| && ps[i].Open? ==> ps[i].elem.attrs.bg == None
    ensures |CodeMeaning(ps, st, fg)| == |Html.HtmlMeaning(ps, st)|
    ensures CodeMeaning(ps, st, fg) == AllHued(Html.HtmlMeaning(ps, st)) <==> Expressible(ps, st, fg)
  {
    if ps != [] {
      match ps[0]
      case Text(c) =>
        CodeIsMeaning(ps[1..], st, fg);
        SameMode(st, fg);
        hide OddStyles, Html.ModeOf, Html.InnerFont, NoEvenDepth, HueOf, Hued, NoBackground;
        var code, all := CodeMeaning(ps, st, fg), AllHued(Html.HtmlMeaning(ps, st));
        assert code == [Glyph(c, Mode(OddStyles(st), Colours(fg, None)))] + CodeMeaning(ps[1..], st, fg);
        assert all == [Glyph(c, Hued(Html.ModeOf(st)))] + AllHued(Html.HtmlMeaning(ps[1..], st));
        SameHead(code[0], CodeMeaning(ps[1..], st, fg), all[0], AllHued(Html.HtmlMeaning(ps[1..], st)));
      case Open(e) => CodeIsMeaning(ps[1..], st + [e], if e.tag.Font? then HueOf(e.attrs.fg) else fg);
      case Close(_) => CodeIsMeaning(ps[1..], if st == [] then [] else st[..|st| - 1], None);
    }
  }

  lemma SameHead(x: Glyph, xs: seq<Glyph>, y: Glyph, ys: seq<Glyph>)
    ensures [x] + xs == [y] + ys <==> x == y && xs == ys
  {
    assert ([x] + xs)[1..] == xs && ([y] + ys)[1..] == ys;
  }

  lemma {:induction false} PiecesNoBackground(items: seq<Item>)
    ensures forall i :: 0 <= i < |Pieces(items)| && Pieces(items)[i].Open? ==> Pieces(items)[i].elem.attrs.bg == None
  {
    if items != [] { PiecesNoBackground(items[1..]); }
  }

  // --- Fonts whose text begins with a comma and a digit ---

  function Texts(items: seq<Item>): nat {
    if items == [] then 0 else (if items[0].Text? then 1 else 0) + Texts(items[1..])
  }

  lemma VisiblePush(t: Token, ts: seq<Token>)
    ensures Visible([t] + ts) == (if t.Ch? then [t.c] else "") + Visible(ts)
  {
    assert ([t] + ts)[1..] == ts;
  }

  lemma {:induction false} VisibleToggles(open: seq<Style>, ts: seq<Token>)
    ensures Visible(Toggles(open) + ts) == Visible(ts)
  {
    if open == [] {
      assert Toggles(open) + ts == ts;
    } else {
      VisibleToggles(open[1..], ts);
      assert Toggles(open) + ts == [Toggle(open[0])] + (Toggles(open[1..]) + ts);
      hide Toggles, Visible;
      VisiblePush(Toggle(open[0]), Toggles(open[1..]) + ts);
    }
  }

  lemma VisibleRestart(open: seq<Style>, rest: string)
    ensures Visible(Tokenize(Restart(open) + rest)) == Visible(Tokenize(rest))
  {
    hide Visible, Tokenize, Restart, Toggles;
    TokenizeRestart(open, rest);
    VisiblePush(Reset, Toggles(open) + Tokenize(rest));
    VisibleToggles(open, Tokenize(rest));
  }

  lemma VisibleHead(t: Token, s: string, rest: string)
    requires Tokenize(s) == [t] + Tokenize(rest)
    ensures |Visible(Tokenize(s))| == (if t.Ch? then 1 else 0) + |Visible(Tokenize(rest))|
  {
    hide Tokenize, Visible;
    VisiblePush(t, Tokenize(rest));
  }

  // The comma and one or two digits are taken for a background.
  lemma Swallowed(items: seq<Item>, open: seq<Style>) returns (bg: string, after: seq<Item>)
    requires PlainText(items) && CommaDigitNext(Pieces(items))
    ensures |after| < |items| && PlainText(after) && Texts(after) < Texts(items)
    ensures IrcText(items, open) == "," + (bg + IrcText(after, open))
    ensures Digits(bg) && 1 <= |bg| <= 2 && EndsAt(bg, IrcText(after, open))
  {
    var rest := items[1..];
    assert items[0] == Text(',') && Pieces(items)[1..] == Pieces(rest);
    bg, after := [rest[0].c], rest[1..];
    assert Pieces(rest)[0] == Html.Text(rest[0].c);
    var behind := IrcText(after, open);
    assert IrcText(rest, open) == bg + behind;
    FirstChar(after, open);
    assert PlainText(rest) && PlainText(after);
    assert Texts(items) == 1 + Texts(rest) && Texts(rest) == 1 + Texts(after);
    if after != [] && after[0].Text? && '0' <= after[0].c <= '9' {
      assert Texts(after) == 1 + Texts(after[1..]);
      bg := bg + [after[0].c];
      assert IrcText(rest, open) == bg + IrcText(after[1..], open);
      after := after[1..];
    }
  }

  lemma SwallowedText(hue: Hue, items: seq<Item>, open: seq<Style>) returns (after: seq<Item>)
    requires PlainText(items) && CommaDigitNext(Pieces(items))
    ensures |after| < |items| && PlainText(after) && Texts(after) < Texts(items)
    ensures Visible(Tokenize(ColourCode(hue) + IrcText(items, open))) == Visible(Tokenize(IrcText(after, open)))
  {
    hide IrcText, Tokenize, Visible, PlainText, Pieces, CommaDigitNext, Texts, Digits, EndsAt;
    var bg;
    bg, after := Swallowed(items, open);
    ColourFacts(hue);
    Associates([STYLE_COLOR], COLOUR_NUMBERS[hue], IrcText(items, open));
    BackgroundRead(COLOUR_NUMBERS[hue], bg, IrcText(after, open));
    VisiblePush(Colour(COLOUR_NUMBERS[hue], bg), Tokenize(IrcText(after, open)));
  }

  lemma {:induction false} VisibleAtMost(items: seq<Item>, open: seq<Style>)
    requires PlainText(items)
    ensures |Visible(Tokenize(IrcText(items, open)))| <= Texts(items)
    ensures !FontsEnd(Pieces(items)) ==> |Visible(Tokenize(IrcText(items, open)))| < Texts(items)
    decreases |items|
  {
    hide Tokenize, Visible, Restart, RemoveCode, StyleChar, ColourCode, StyleOf, CommaDigitNext;
    if items == [] {
      EmptyTokens();
      NothingVisible();
    } else {
      var rest, s := items[1..], IrcText(items, open);
      assert Pieces(items)[0] == PieceOf(items[0]) && Pieces(items)[1..] == Pieces(rest);
      match items[0]
      case Text(c) =>
        VisibleAtMost(rest, open);
        PlainToken(c, IrcText(rest, open));
        VisibleHead(Ch(c), s, IrcText(rest, open));
      case Open(n) =>
        var open' := open + [StyleOf(n)];
        VisibleAtMost(rest, open');
        TokenizeStyle(StyleOf(n), IrcText(rest, open'));
        VisibleHead(Toggle(StyleOf(n)), s, IrcText(rest, open'));
      case Close(n) =>
        var open' := RemoveCode(open, StyleOf(n));
        VisibleAtMost(rest, open');
        VisibleRestart(open', IrcText(rest, open'));
      case CloseFont =>
        VisibleAtMost(rest, open);
        VisibleRestart(open, IrcText(rest, open));
      case Font(hue) =>
        CommaInText(rest, open);
        if CommaDigitNext(Pieces(rest)) {
          var after := SwallowedText(hue, rest, open);
          VisibleAtMost(after, open);
        } else {
          VisibleAtMost(rest, open);
          TokenizeFont(hue, IrcText(rest, open));
          VisibleHead(Colour(COLOUR_NUMBERS[hue], ""), s, IrcText(rest, open));
        }
    }
  }

  lemma NothingVisible()
    ensures Visible([]) == ""
  {
  }

  lemma {:induction false} MeaningLength(ts: seq<Token>, m: Mode)
    ensures |IrcMeaning(ts, m)| == |Visible(ts)|
  {
    if ts != [] { MeaningLength(ts[1..], IrcStep(m, ts[0])); }
  }

  lemma {:induction false} PiecesLength(items: seq<Item>, st: seq<Html.Element>)
    ensures |Html.HtmlMeaning(Pieces(items), st)| == Texts(items)
  {
    if items != [] {
      assert Pieces(items)[0] == PieceOf(items[0]) && Pieces(items)[1..] == Pieces(items[1..]);
      PiecesLength(items[1..], match PieceOf(items[0])
                               case Text(_) => st
                               case Open(e) => st + [e]
                               case Close(_) => if st == [] then [] else st[..|st| - 1]);
    }
  }

  // --- The laws ---

  // htmlToIrc keeps what a browser shows exactly when no visible character lies inside an even,
  // non-zero number of elements of one style, each has the colour of its innermost font, and no
  // font's text begins with a comma and a digit.
  lemma HtmlToIrcKeepsMeaning(items: seq<Item>)
    requires WellNested(items) && PlainText(items) && NoEntities(HtmlString(items))
    ensures
      var html := HtmlString(items);
      IrcMeaning(Tokenize(IrcOf(html)), DEFAULT_MODE) == Shown(html)
      <==> FontsEnd(HtmlText.Read(html)) && Expressible(HtmlText.Read(html), [], None)
  {
    ReadMarkup(items);
    if FontsEnd(Pieces(items)) {
      HtmlToIrcMeaning(items);
      PiecesNoBackground(items);
      hide IrcMeaning, Tokenize, IrcOf, HtmlString, FontsEnd;
      CodeIsMeaning(Pieces(items), [], None);
    } else {
      SomethingSwallowed(items);
    }
  }

  lemma SomethingSwallowed(items: seq<Item>)
    requires PlainText(items) && NoEntities(HtmlString(items)) && !FontsEnd(Pieces(items))
    ensures |IrcMeaning(Tokenize(IrcOf(HtmlString(items))), DEFAULT_MODE)| < |Shown(HtmlString(items))|
  {
    hide IrcMeaning, Tokenize, IrcOf, HtmlString, PlainText, Pieces, FontsEnd, IrcText, Visible;
    ReadMarkup(items);
    IrcOfMarkup(items);
    VisibleAtMost(items, []);
    MeaningLength(Tokenize(IrcText(items, [])), DEFAULT_MODE);
    PiecesLength(items, []);
  }

  // The values of colours are no names.
  lemma {:induction false} IrcIsHued(ts: seq<Token>, m: Mode)
    requires Hued(m) == m
    ensures AllHued(IrcMeaning(ts, m)) == IrcMeaning(ts, m)
  {
    if ts != [] {
      StepIsHued(m, ts[0]);
      IrcIsHued(ts[1..], IrcStep(m, ts[0]));
      hide IrcStep, Hued;
      var head := if ts[0].Ch? then [Glyph(ts[0].c, m)] else [];
      var rest := IrcMeaning(ts[1..], IrcStep(m, ts[0]));
      assert (head + rest)[|head|..] == rest;
    }
  }

  lemma StepIsHued(m: Mode, t: Token)
    requires Hued(m) == m
    ensures Hued(IrcStep(m, t)) == IrcStep(m, t)
  {
    if t.Colour? {
      HexIsHued(t.fg);
      HexIsHued(t.bg);
    }
    hide HexOf, HueOf;
    assert HueOf(None) == None by { NoHue(); }
  }

  lemma NoHue()
    ensures HueOf(None) == None
  {
  }

  lemma HexIsHued(code: string)
    ensures HueOf(HexOf(code)) == HexOf(code)
  {
    if HexOf(code).Some? {
      HexStarts(code);
      hide HexOf;
    }
  }

  lemma HexStarts(code: string)
    ensures HexOf(code).Some? ==> HexOf(code).value != "" && HexOf(code).value[0] == '#'
  {
  }

  // HTML to IRC and back: a browser shows the HTML that ircToHtml makes as it shows the original,
  // under exactly the same condition.
  lemma RoundTrip(items: seq<Item>)
    requires WellNested(items) && PlainText(items) && NoEntities(HtmlString(items))
    ensures
      var html := HtmlString(items);
      Shown(Formatting.HtmlOf(IrcOf(html))) == Shown(html)
      <==> FontsEnd(HtmlText.Read(html)) && Expressible(HtmlText.Read(html), [], None)
  {
    hide FontsEnd, Expressible, PlainText, HtmlString, IrcOf, Tokenize, IrcMeaning, IrcText;
    HtmlToIrcKeepsMeaning(items);
    IrcOfMarkup(items);
    IrcTextHasNoReverse(items, []);
    var irc := IrcOf(HtmlString(items));
    NoReverseToken(irc);
    WithoutReverse(Tokenize(irc), DEFAULT_MODE);
    Formatting.IrcToHtmlMeaning(irc);
    NoHue();
    IrcIsHued(Tokenize(irc), DEFAULT_MODE);
  }

  // --- Text with raw angle brackets ---

  // No tag that htmlToIrc knows starts s.
  ghost predicate UnknownAt(s: string) {
    && (forall n: HtmlName :: !StartsWith(s, OpenText(n)) && !StartsWith(s, CloseText(n)))
    && (forall hue: Hue :: !StartsWith(s, FontText(COLOUR_NAMES[hue])))
    && !StartsWith(s, CLOSE_FONT)
  }

  ghost predicate NoKnownTags(s: string) {
    s == "" || (UnknownAt(s) && NoKnownTags(s[1..]))
  }

  // An opening bracket that some character other than a closing one follows, and later a closing one.
  predicate TagAt(s: string, i: nat) {
    i + 1 < |s| && s[i] == '<' && s[i + 1] != '>' && '>' in s[i + 1..]
  }

  ghost predicate TagFree(s: string) {
    forall i: nat :: !TagAt(s, i)
  }

  lemma {:induction false} TagsAbsent(s: string)
    requires NoKnownTags(s)
    ensures forall n: HtmlName :: Absent(s, OpenText(n))
    ensures forall hue: Hue :: Absent(s, FontText(COLOUR_NAMES[hue]))
  {
    hide OpenText, CloseText, FontText, StartsWith;
    if s != "" { TagsAbsent(s[1..]); }
  }

  lemma {:induction false} ApplyAbsent(s: string, reps: seq<Replacement>)
    requires forall i :: 0 <= i < |reps| ==> reps[i].pattern != "" && Absent(s, reps[i].pattern)
    ensures ApplyAll(s, reps) == s
    decreases |reps|
  {
    if reps != [] {
      ReplaceAbsentPattern(s, reps[0].pattern, reps[0].text);
      hide ReplaceAll, Absent;
      ApplyAbsent(s, reps[1..]);
    }
  }

  ghost predicate IsTagPattern(p: string) {
    (exists n: HtmlName :: p == OpenText(n)) || (exists hue: Hue :: p == FontText(COLOUR_NAMES[hue]))
  }

  ghost predicate TagPatterns(reps: seq<Replacement>) {
    forall i :: 0 <= i < |reps| ==> IsTagPattern(reps[i].pattern)
  }

  lemma {:induction false} StylePatterns(order: seq<HtmlName>)
    ensures TagPatterns(StyleReplacements(order))
  {
    hide OpenText, FontText;
    if order != [] { StylePatterns(order[1..]); }
  }

  lemma {:induction false} FontPatterns(names: seq<string>, numbers: seq<string>)
    requires |names| == |numbers| && forall i :: 0 <= i < |names| ==> IsTagPattern(FontText(names[i]))
    ensures TagPatterns(FontReplacements(names, numbers))
  {
    hide FontText, IsTagPattern;
    if names != [] { FontPatterns(names[1..], numbers[1..]); }
  }

  lemma FontIsPattern(hue: Hue)
    ensures IsTagPattern(FontText(COLOUR_NAMES[hue]))
  {
  }

  lemma AllFontsArePatterns()
    ensures |COLOUR_NAMES| == 16 == |COLOUR_NUMBERS|
    ensures forall i :: 0 <= i < 16 ==> IsTagPattern(FontText(COLOUR_NAMES[i]))
  {
    hide FontText, IsTagPattern;
    forall i: Hue
      ensures IsTagPattern(FontText(COLOUR_NAMES[i]))
    {
      FontIsPattern(i);
    }
  }

  lemma PatternAbsent(s: string, p: string)
    requires NoKnownTags(s) && IsTagPattern(p)
    ensures p != "" && Absent(s, p)
  {
    TagsAbsent(s);
    hide Absent, NoKnownTags;
  }

  lemma PatternsConcat(a: seq<Replacement>, b: seq<Replacement>)
    requires TagPatterns(a) && TagPatterns(b)
    ensures TagPatterns(a + b)
  {
    hide IsTagPattern;
  }

  lemma TagsOnly()
    ensures TagPatterns(Replacements())
  {
    hide StyleReplacements, FontReplacements, IsTagPattern, TagPatterns, FontText;
    StylePatterns(OPEN_ORDER);
    AllFontsArePatterns();
    FontPatterns(COLOUR_NAMES, COLOUR_NUMBERS);
    PatternsConcat(StyleReplacements(OPEN_ORDER), FontReplacements(COLOUR_NAMES, COLOUR_NUMBERS));
  }

  lemma PatternsAbsent(s: string, reps: seq<Replacement>)
    requires NoKnownTags(s) && TagPatterns(reps)
    ensures ApplyAll(s, reps) == s
  {
    hide IsTagPattern, NoKnownTags, Absent, ApplyAll;
    forall i | 0 <= i < |reps|
      ensures reps[i].pattern != "" && Absent(s, reps[i].pattern)
    {
      PatternAbsent(s, reps[i].pattern);
    }
    ApplyAbsent(s, reps);
  }

  lemma NothingReplaced(s: string)
    requires NoKnownTags(s)
    ensures ApplyAll(s, Replacements()) == s
  {
    hide NoKnownTags, TagPatterns, ApplyAll, Replacements;
    TagsOnly();
    PatternsAbsent(s, Replacements());
  }

  lemma {:induction false} NothingFixed(s: string)
    requires NoControls(s) && NoKnownTags(s)
    ensures FixCloses([], s) == s
  {
    hide CloseText, OpenText, FontText, StyleOfChar, StartsWith, Restart, RemoveCode;
    if s != "" {
      NothingFixed(s[1..]);
      assert StyleOfChar(s[0]).None? by { PlainIsNoStyle(s[0]); }
      if ClosingAt(s, CLOSE_ORDER).Some? { ClosingAtMatches(s, CLOSE_ORDER); }
      hide ClosingAt;
      assert s == [s[0]] + s[1..];
    }
  }

  lemma PlainIsNoStyle(c: char)
    requires !IsControl(c)
    ensures StyleOfChar(c).None?
  {
  }

  lemma {:induction false} TagEndIs(s: string)
    ensures TagEnd(s) < |s| <==> '>' in s
    ensures s != "" ==> (TagEnd(s) == 0 <==> s[0] == '>')
  {
    if s != "" {
      TagEndIs(s[1..]);
      assert s == [s[0]] + s[1..];
    }
  }

  lemma {:induction false} StripLoses(s: string)
    ensures |StripTags(s)| <= |s|
    ensures StripTags(s) == s <==> TagFree(s)
    ensures StripTags(s) != s ==> |StripTags(s)| < |s|
    decreases |s|
  {
    if s != "" {
      StripUnfold(s);
      assert TagFree(s) ==> !TagAt(s, 0);
      hide StripTags, TagEnd, TagAt, TagFree;
      if TagAt(s, 0) {
        StripLoses(s[TagEnd(s) + 1..]);
      } else {
        StripLoses(s[1..]);
        TagsBehind(s);
        assert s == [s[0]] + s[1..];
      }
    } else {
      assert TagFree(s);
    }
  }

  lemma StripUnfold(s: string)
    requires s != ""
    ensures
      if TagAt(s, 0) then TagEnd(s) < |s| && StripTags(s) == StripTags(s[TagEnd(s) + 1..])
      else StripTags(s) == [s[0]] + StripTags(s[1..])
  {
    StripsHere(s);
    hide TagAt, TagEnd;
  }

  // A tag is stripped exactly where one stands.
  lemma StripsHere(s: string)
    requires s != ""
    ensures s[0] == '<' && TagEnd(s) < |s| && TagEnd(s) >= 2 <==> TagAt(s, 0)
  {
    TagEndIs(s);
    if s[0] == '<' {
      TagEndIs(s[1..]);
      assert TagEnd(s) == 1 + TagEnd(s[1..]);
    }
  }

  lemma TagsBehind(s: string)
    requires s != "" && !TagAt(s, 0)
    ensures TagFree(s) <==> TagFree(s[1..])
  {
    forall i: nat
      ensures TagAt(s, i + 1) <==> TagAt(s[1..], i)
    {
      if i + 2 < |s| { assert s[1..][i + 1..] == s[i + 2..]; }
    }
    hide TagAt;
    if !TagFree(s) {
      var i: nat :| TagAt(s, i);
      assert TagAt(s, (i - 1) + 1) && TagAt(s[1..], i - 1);
    }
  }

  lemma {:induction false} ReplaceShortens(s: string, p: string, rep: string)
    requires |rep| <= |p| && p != ""
    ensures |ReplaceAll(s, p, rep)| <= |s|
    decreases |s|
  {
    if s != "" {
      if StartsWith(s, p) { ReplaceShortens(s[|p|..], p, rep); } else { ReplaceShortens(s[1..], p, rep); }
    }
  }

  lemma UnescapeShortens(s: string)
    ensures |ApplyAll(s, UNESCAPES)| <= |s|
    ensures NoEscapes(s) ==> ApplyAll(s, UNESCAPES) == s
  {
    var u := UNESCAPES;
    assert u[1..] == [u[1], u[2], u[3]] && u[1..][1..] == [u[2], u[3]] && u[1..][1..][1..] == [u[3]]
           && u[1..][1..][1..][1..] == [];
    hide ReplaceAll, Absent;
    var s1 := ReplaceAll(s, "&gt;", ">");
    var s2 := ReplaceAll(s1, "&lt;", "<");
    var s3 := ReplaceAll(s2, "&quot;", "\"");
    ReplaceShortens(s, "&gt;", ">");
    ReplaceShortens(s1, "&lt;", "<");
    ReplaceShortens(s2, "&quot;", "\"");
    ReplaceShortens(s3, "&amp;", "&");
    if NoEscapes(s) {
      ReplaceAbsentPattern(s, "&gt;", ">");
      ReplaceAbsentPattern(s, "&lt;", "<");
      ReplaceAbsentPattern(s, "&quot;", "\"");
      ReplaceAbsentPattern(s, "&amp;", "&");
    }
  }

  // Text that holds no tag the conversion knows is kept exactly when nothing in it looks like a tag:
  // "1 < 2 and 3 > 2" passes the sanitiser and loses what stands between the brackets.
  lemma RawTextKeptIff(s: string)
    requires NoControls(s) && NoEscapes(s) && NoKnownTags(s)
    ensures IrcOf(s) == s <==> TagFree(s)
  {
    hide ApplyAll, FixCloses, StripTags, TagFree, NoEscapes, NoKnownTags, Replacements;
    NothingReplaced(s);
    NothingFixed(s);
    StripLoses(s);
    UnescapeShortens(StripTags(s));
  }
}
