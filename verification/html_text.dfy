// The string form of markup: escaping, rendering, and reading it back.

module HtmlText {
  import opened Strings
  import opened IrcCodes
  import opened Html

  const ZERO_WIDTH_SPACE := '\U{200B}'

  // escapeHtmlChars: six replacements, one after the other.
  function EscapeHtmlChars(text: string): string {
    var t1 := ReplaceAll(text, "&", "&amp;");
    var t2 := ReplaceAll(t1, "<", "&lt;");
    var t3 := ReplaceAll(t2, ">", "&gt;");
    var t4 := ReplaceAll(t3, "\"", "&quot;");
    var t5 := ReplaceAll(t4, [ZERO_WIDTH_SPACE], "&ZeroWidthSpace;");
    ReplaceAll(t5, "'", "&apos;")
  }

  // The escape of one character.
  function Esc(c: char): string {
    if c == '&' then "&amp;"
    else if c == '<' then "&lt;"
    else if c == '>' then "&gt;"
    else if c == '"' then "&quot;"
    else if c == ZERO_WIDTH_SPACE then "&ZeroWidthSpace;"
    else if c == '\'' then "&apos;"
    else [c]
  }

  function EscapeAll(text: string): string {
    if text == "" then "" else Esc(text[0]) + EscapeAll(text[1..])
  }

  lemma ReplaceHead(c: char, rest: string, p: char, rep: string)
    ensures ReplaceAll([c] + rest, [p], rep) == (if c == p then rep else [c]) + ReplaceAll(rest, [p], rep)
  {
  }

  lemma {:induction false} ReplaceChar(a: string, b: string, p: char, rep: string)
    ensures ReplaceAll(a + b, [p], rep) == ReplaceAll(a, [p], rep) + ReplaceAll(b, [p], rep)
  {
    if a == "" {
      assert a + b == b;
    } else {
      ReplaceChar(a[1..], b, p, rep);
      hide ReplaceAll;
      assert a == [a[0]] + a[1..];
      assert a + b == [a[0]] + (a[1..] + b);
      ReplaceHead(a[0], a[1..], p, rep);
      ReplaceHead(a[0], a[1..] + b, p, rep);
      var head := if a[0] == p then rep else [a[0]];
      Associates(head, ReplaceAll(a[1..], [p], rep), ReplaceAll(b, [p], rep));
    }
  }

  lemma EscapeConcat(a: string, b: string)
    ensures EscapeHtmlChars(a + b) == EscapeHtmlChars(a) + EscapeHtmlChars(b)
  {
    var a1, b1 := ReplaceAll(a, "&", "&amp;"), ReplaceAll(b, "&", "&amp;");
    var a2, b2 := ReplaceAll(a1, "<", "&lt;"), ReplaceAll(b1, "<", "&lt;");
    var a3, b3 := ReplaceAll(a2, ">", "&gt;"), ReplaceAll(b2, ">", "&gt;");
    var a4, b4 := ReplaceAll(a3, "\"", "&quot;"), ReplaceAll(b3, "\"", "&quot;");
    var zwsp := [ZERO_WIDTH_SPACE];
    var a5, b5 := ReplaceAll(a4, zwsp, "&ZeroWidthSpace;"), ReplaceAll(b4, zwsp, "&ZeroWidthSpace;");
    hide ReplaceAll;
    ReplaceChar(a, b, '&', "&amp;");
    ReplaceChar(a1, b1, '<', "&lt;");
    ReplaceChar(a2, b2, '>', "&gt;");
    ReplaceChar(a3, b3, '"', "&quot;");
    ReplaceChar(a4, b4, ZERO_WIDTH_SPACE, "&ZeroWidthSpace;");
    ReplaceChar(a5, b5, '\'', "&apos;");
  }

  lemma ReplaceOne(c: char, p: char, rep: string)
    ensures ReplaceAll([c], [p], rep) == if c == p then rep else [c]
  {
  }

  lemma EscapeOne(c: char)
    ensures EscapeHtmlChars([c]) == Esc(c)
  {
    var t1 := if c == '&' then "&amp;" else [c];
    var t2 := if c == '<' then "&lt;" else t1;
    var t3 := if c == '>' then "&gt;" else t2;
    var t4 := if c == '"' then "&quot;" else t3;
    var t5 := if c == ZERO_WIDTH_SPACE then "&ZeroWidthSpace;" else t4;
    hide ReplaceAll;
    ReplaceOne(c, '&', "&amp;");
    assert ReplaceAll(t1, "<", "&lt;") == t2 by { ReplaceStage(c, t1, '<', "&lt;"); }
    assert ReplaceAll(t2, ">", "&gt;") == t3 by { ReplaceStage(c, t2, '>', "&gt;"); }
    assert ReplaceAll(t3, "\"", "&quot;") == t4 by { ReplaceStage(c, t3, '"', "&quot;"); }
    assert ReplaceAll(t4, [ZERO_WIDTH_SPACE], "&ZeroWidthSpace;") == t5 by {
      ReplaceStage(c, t4, ZERO_WIDTH_SPACE, "&ZeroWidthSpace;");
    }
    ReplaceStage(c, t5, '\'', "&apos;");
  }

  lemma ReplaceStage(c: char, t: string, p: char, rep: string)
    requires t == [c] || (p !in t && c != p)
    ensures ReplaceAll(t, [p], rep) == if c == p then rep else t
  {
  }

  // escapeHtmlChars is a one-pass character map.
  lemma {:induction false} EscapeIsMap(text: string)
    ensures EscapeHtmlChars(text) == EscapeAll(text)
  {
    hide EscapeHtmlChars, Esc;
    if text == "" {
      EscapeEmpty();
    } else {
      assert text == [text[0]] + text[1..];
      EscapeConcat([text[0]], text[1..]);
      EscapeOne(text[0]);
      EscapeIsMap(text[1..]);
    }
  }

  lemma EscapeEmpty()
    ensures EscapeHtmlChars("") == ""
  {
  }

  lemma {:induction false} EscapeAllConcat(a: string, b: string)
    ensures EscapeAll(a + b) == EscapeAll(a) + EscapeAll(b)
  {
    hide Esc;
    if a == "" {
      assert a + b == b;
    } else {
      EscapeAllConcat(a[1..], b);
      assert (a + b)[1..] == a[1..] + b;
      assert Esc(a[0]) + (EscapeAll(a[1..]) + EscapeAll(b)) == EscapeAll(a) + EscapeAll(b);
    }
  }

  // --- Escaping commutes with reading control codes ---

  // Escaping replaces the visible characters and keeps the codes.
  function EscapedTokens(ts: seq<Token>): seq<Token> {
    if ts == [] then []
    else (if ts[0].Ch? then Chars(Esc(ts[0].c)) else [ts[0]]) + EscapedTokens(ts[1..])
  }

  predicate Unescaped(c: char) {
    Esc(c) == [c]
  }

  lemma EscFacts(c: char)
    ensures |Esc(c)| > 0
    ensures IsControl(c) || IsDigit(c) || c == ',' ==> Esc(c) == [c]
    ensures !IsDigit(c) && c != ',' ==> !IsDigit(Esc(c)[0]) && Esc(c)[0] != ','
    ensures !IsControl(c) ==> NoControls(Esc(c))
  {
    if !Unescaped(c) && !IsControl(c) {
      assert Esc(c)[0] == '&';
      EscOfSpecial(c);
    }
  }

  lemma EscOfSpecial(c: char)
    requires !Unescaped(c)
    ensures NoControls(Esc(c))
  {
  }

  const END := [RESET_CODE]

  // What the regex sees at the start of the escaped text is what it sees at the start of the text.
  lemma EscapedHead(s: string)
    requires s != ""
    ensures
      var e := EscapeAll(s) + END;
      && e != ""
      && (Unescaped(s[0]) ==> e[0] == s[0] && e[1..] == EscapeAll(s[1..]) + END)
      && (IsDigit(e[0]) <==> IsDigit(s[0])) && (e[0] == ',' <==> s[0] == ',')
  {
    EscFacts(s[0]);
    hide Esc;
    var e := EscapeAll(s) + END;
    assert e == Esc(s[0]) + (EscapeAll(s[1..]) + END);
    assert e[0] == Esc(s[0])[0];
  }

  lemma EscapedDigits(s: string)
    ensures
      var d := TakeDigits(s);
      && TakeDigits(EscapeAll(s) + END) == d
      && (EscapeAll(s) + END)[|d|..] == EscapeAll(s[|d|..]) + END
  {
    hide EscapeAll;
    var e := EscapeAll(s) + END;
    if s == "" {
      EscapedEnd();
    } else {
      EscapedHead(s);
      EscFacts(s[0]);
      if IsDigit(s[0]) {
        if |s| == 1 {
          EscapedEnd();
          assert s[1..] == "";
        } else {
          EscapedHead(s[1..]);
          EscFacts(s[1]);
          assert e[1..][0] == e[1] && e[1..][1..] == e[2..] && s[1..][1..] == s[2..];
        }
      }
    }
  }

  lemma EscapedEnd()
    ensures EscapeAll("") + END == END && !IsDigit(END[0]) && END[0] != ','
  {
  }

  lemma EscapedBackground(s: string)
    ensures HasBackground(EscapeAll(s) + END) == HasBackground(s)
    ensures HasBackground(s) ==> (EscapeAll(s) + END)[1..] == EscapeAll(s[1..]) + END
  {
    hide EscapeAll;
    var e := EscapeAll(s) + END;
    if s == "" {
      EscapedEnd();
    } else {
      EscapedHead(s);
      EscFacts(s[0]);
      if s[0] == ',' {
        if |s| == 1 {
          EscapedEnd();
          assert s[1..] == "" && e[1..][0] == e[1];
        } else {
          EscapedHead(s[1..]);
          assert e[1..][0] == e[1] && s[1..][0] == s[1];
        }
      }
    }
  }

  lemma EscapedColour(s: string)
    ensures
      var e := EscapeAll(s) + END;
      ColourArgs(e) == ColourArgs(s) && e[ColourArgs(s).2..] == EscapeAll(s[ColourArgs(s).2..]) + END
  {
    hide EscapeAll, TakeDigits;
    var e := EscapeAll(s) + END;
    var fg := TakeDigits(s);
    var rest := s[|fg|..];
    EscapedDigits(s);
    EscapedBackground(rest);
    if HasBackground(rest) {
      var bg := TakeDigits(rest[1..]);
      EscapedDigits(rest[1..]);
      assert rest[1..][|bg|..] == s[|fg| + 1 + |bg|..];
      assert e[|fg|..][1..][|bg|..] == e[|fg| + 1 + |bg|..];
    }
  }

  lemma {:induction false} TokenizeEscaped(s: string)
    ensures Tokenize(EscapeAll(s) + END) == EscapedTokens(Tokenize(s)) + [Reset]
    decreases |s|
  {
    hide EscapeAll, NextToken, EscapedTokens, Tokenize;
    if s == "" {
      TokenizeEnd();
    } else {
      var (t, n) := NextToken(s);
      var rest := Tokenize(s[n..]);
      TokenizeEscaped(s[n..]);
      EscapedStep(s);
      TokenizeUnfold(s);
      EscapedTokensUnfold(t, rest);
      var head := if t.Ch? then Chars(Esc(t.c)) else [t];
      assert head + (EscapedTokens(rest) + [Reset]) == (head + EscapedTokens(rest)) + [Reset];
    }
  }

  lemma TokenizeEnd()
    ensures Tokenize(EscapeAll("") + END) == EscapedTokens(Tokenize("")) + [Reset]
  {
  }

  lemma EscapedTokensUnfold(t: Token, ts: seq<Token>)
    ensures EscapedTokens([t] + ts) == (if t.Ch? then Chars(Esc(t.c)) else [t]) + EscapedTokens(ts)
  {
  }

  lemma EscapedCode(s: string)
    requires s != "" && IsControl(s[0])
    ensures
      var (t, n) := NextToken(s);
      var e := EscapeAll(s) + END;
      e != "" && NextToken(e) == (t, n) && e[n..] == EscapeAll(s[n..]) + END
  {
    var e := EscapeAll(s) + END;
    EscFacts(s[0]);
    EscapedHead(s);
    hide EscapeAll, ColourArgs;
    if s[0] == STYLE_COLOR {
      EscapedColour(s[1..]);
      var k := ColourArgs(s[1..]).2;
      assert e[1..][k..] == e[1 + k..] && s[1..][k..] == s[1 + k..];
    }
  }

  lemma EscapedStep(s: string)
    requires s != ""
    ensures
      var (t, n) := NextToken(s);
      Tokenize(EscapeAll(s) + END)
      == (if t.Ch? then Chars(Esc(t.c)) else [t]) + Tokenize(EscapeAll(s[n..]) + END)
  {
    var e := EscapeAll(s) + END;
    EscFacts(s[0]);
    if IsControl(s[0]) {
      EscapedCode(s);
      hide EscapeAll, Tokenize, NextToken;
      TokenizeUnfold(e);
    } else {
      assert e == Esc(s[0]) + (EscapeAll(s[1..]) + END);
      hide EscapeAll, Esc, Tokenize;
      TokenizePlain(Esc(s[0]), EscapeAll(s[1..]) + END);
    }
  }

  // --- Rendering and reading back ---

  function AttrText(colours: Colours): string {
    var none := "";
    var style := if colours.fg.Some? then none + " color=\"" + colours.fg.value + "\"" else none;
    if colours.bg.Some? then style + " data-mx-bg-color=\"" + colours.bg.value + "\"" else style
  }

  function TagText(p: Piece): string
    requires !p.Text?
  {
    match p
    case Open(e) => if e.tag.Font? then "<font" + AttrText(e.attrs) + ">" else "<" + TagName(e.tag) + ">"
    case Close(t) => "</" + TagName(t) + ">"
  }

  function PieceText(p: Piece): string {
    if p.Text? then Esc(p.c) else TagText(p)
  }

  // The same, for text that has been escaped already.
  function RawText(p: Piece): string {
    if p.Text? then [p.c] else TagText(p)
  }

  // The HTML string of a list of pieces.
  function Render(ps: seq<Piece>): string {
    if ps == [] then "" else PieceText(ps[0]) + Render(ps[1..])
  }

  function RenderRaw(ps: seq<Piece>): string {
    if ps == [] then "" else RawText(ps[0]) + RenderRaw(ps[1..])
  }

  // The length of the part of s before the first c.
  function SpanTo(s: string, c: char): (n: nat)
    ensures n <= |s|
    ensures n < |s| ==> s[n] == c
  {
    if s == "" || s[0] == c then 0 else 1 + SpanTo(s[1..], c)
  }

  function EntityChar(name: string): Option<char> {
    if name == "&amp;" then Some('&')
    else if name == "&lt;" then Some('<')
    else if name == "&gt;" then Some('>')
    else if name == "&quot;" then Some('"')
    else if name == "&ZeroWidthSpace;" then Some(ZERO_WIDTH_SPACE)
    else if name == "&apos;" then Some('\'')
    else None
  }

  function TagOfName(name: string): Option<Tag> {
    if name == "b" then Some(Simple(Bold))
    else if name == "code" then Some(Simple(Monospace))
    else if name == "i" then Some(Simple(Italics))
    else if name == "del" then Some(Simple(Strike))
    else if name == "u" then Some(Simple(Underline))
    else if name == "strong" then Some(Simple(Bold))
    else if name == "em" then Some(Simple(Italics))
    else if name == "font" then Some(Font)
    else None
  }

  // An optional attribute at the start of s: its value and what follows it.
  function ReadAttr(s: string, key: string): (Option<string>, string) {
    if StartsWith(s, key) then
      var v := s[|key|..];
      var n := SpanTo(v, '"');
      if n < |v| then (Some(v[..n]), v[n + 1..]) else (None, s)
    else (None, s)
  }

  function ReadTag(body: string): Option<Piece> {
    if body != "" && body[0] == '/' then
      match TagOfName(body[1..])
      case Some(t) => Some(Close(t))
      case None => None
    else
      var n := SpanTo(body, ' ');
      match TagOfName(body[..n])
      case Some(t) =>
        var (fg, rest) := ReadAttr(body[n..], " color=\"");
        var (bg, end) := ReadAttr(rest, " data-mx-bg-color=\"");
        if end == "" then Some(Open(Element(t, Colours(fg, bg)))) else None
      case None => None
  }

  // The first piece of an HTML string, with its length: a tag, an entity or one character.
  function ReadPiece(s: string): (r: (Piece, nat))
    requires s != ""
    ensures 1 <= r.1 <= |s|
  {
    var tagEnd := SpanTo(s, '>');
    var entityEnd := SpanTo(s, ';');
    if s[0] == '<' && tagEnd < |s| && ReadTag(s[1..tagEnd]).Some? then
      (ReadTag(s[1..tagEnd]).value, tagEnd + 1)
    else if s[0] == '&' && entityEnd < |s| && EntityChar(s[..entityEnd + 1]).Some? then
      (Text(EntityChar(s[..entityEnd + 1]).value), entityEnd + 1)
    else
      (Text(s[0]), 1)
  }

  // How a browser reads the string.
  function Read(s: string): seq<Piece>
    decreases |s|
  {
    if s == "" then []
    else
      var (p, n) := ReadPiece(s);
      [p] + Read(s[n..])
  }

  predicate CleanValue(v: Option<string>) {
    v.Some? ==> '"' !in v.value && '>' !in v.value
  }

  predicate CleanColours(colours: Colours) {
    CleanValue(colours.fg) && CleanValue(colours.bg)
  }

  // Only fonts carry attributes, and these do not end the attribute or the tag.
  ghost predicate CleanPiece(p: Piece) {
    p.Open? ==> CleanColours(p.elem.attrs) && (p.elem.tag.Simple? ==> p.elem.attrs == PLAIN)
  }

  ghost predicate Clean(ps: seq<Piece>) {
    forall i :: 0 <= i < |ps| ==> CleanPiece(ps[i])
  }

  lemma {:induction false} SpanToConcat(a: string, c: char, b: string)
    requires c !in a
    ensures SpanTo(a + [c] + b, c) == |a|
  {
    var s := a + [c] + b;
    if a != "" {
      SpanToConcat(a[1..], c, b);
      assert s[1..] == a[1..] + [c] + b;
    }
  }

  lemma {:induction false} SpanToAll(a: string, c: char)
    requires c !in a
    ensures SpanTo(a, c) == |a|
  {
    if a != "" {
      SpanToAll(a[1..], c);
    }
  }

  lemma ReadEscaped(c: char, rest: string)
    ensures
      var s := Esc(c) + rest;
      s != "" && ReadPiece(s) == (Text(c), |Esc(c)|)
  {
    var s := Esc(c) + rest;
    if Unescaped(c) {
      assert s[0] == c && c != '<' && c != '&';
    } else {
      var name := Esc(c)[..|Esc(c)| - 1];
      EntityShape(c);
      SpanToConcat(name, ';', rest);
      assert s == name + [';'] + rest;
      assert s[..|name| + 1] == Esc(c);
    }
  }

  lemma EntityShape(c: char)
    requires !Unescaped(c)
    ensures |Esc(c)| >= 2 && Esc(c)[0] == '&'
    ensures ';' !in Esc(c)[..|Esc(c)| - 1] && Esc(c)[|Esc(c)| - 1] == ';'
    ensures EntityChar(Esc(c)) == Some(c)
  {
  }

  lemma TagNameFacts(t: Tag)
    ensures TagName(t) != "" && TagOfName(TagName(t)) == Some(t) && TagName(t)[0] != '/'
    ensures '>' !in TagName(t) && ' ' !in TagName(t)
  {
  }

  lemma ReadAttrOf(key: string, value: string, rest: string)
    requires '"' !in value
    ensures ReadAttr(key + value + "\"" + rest, key) == (Some(value), rest)
  {
    var s := key + value + "\"" + rest;
    assert s[|key|..] == value + ['"'] + rest;
    assert s[..|key|] == key;
    SpanToConcat(value, '"', rest);
    assert (value + ['"'] + rest)[..|value|] == value;
    assert (value + ['"'] + rest)[|value| + 1..] == rest;
  }

  lemma AttrTextShape(colours: Colours)
    ensures AttrText(colours) == "" || AttrText(colours)[0] == ' '
    ensures CleanColours(colours) ==> '>' !in AttrText(colours)
  {
  }

  const FG_KEY := " color=\""
  const BG_KEY := " data-mx-bg-color=\""

  function BgText(bg: Option<string>): string {
    if bg.Some? then BG_KEY + bg.value + "\"" else ""
  }

  lemma AttrTextIs(colours: Colours)
    ensures
      AttrText(colours)
      == if colours.fg.Some? then FG_KEY + colours.fg.value + "\"" + BgText(colours.bg) else BgText(colours.bg)
  {
    if colours.bg.Some? && colours.fg.Some? {
      var fg := FG_KEY + colours.fg.value + "\"";
      var none := "";
      assert none + FG_KEY == FG_KEY;
      Associates(fg + BG_KEY, colours.bg.value, "\"");
      Associates(fg, BG_KEY, colours.bg.value + "\"");
      Associates(BG_KEY, colours.bg.value, "\"");
    }
  }

  lemma ReadBg(bg: Option<string>)
    requires CleanValue(bg)
    ensures ReadAttr(BgText(bg), BG_KEY) == (bg, "")
  {
    if bg.Some? {
      ReadAttrOf(BG_KEY, bg.value, "");
      hide ReadAttr;
      assert BgText(bg) == BG_KEY + bg.value + "\"" + "";
    }
  }

  lemma NoFgInBg(bg: Option<string>)
    ensures ReadAttr(BgText(bg), FG_KEY) == (None, BgText(bg))
  {
    if bg.Some? {
      assert BgText(bg)[..|BG_KEY|] == BG_KEY;
    }
    NotColorKey(BgText(bg));
  }

  lemma ReadAttrs(colours: Colours)
    requires CleanColours(colours)
    ensures
      var (fg, rest) := ReadAttr(AttrText(colours), " color=\"");
      ReadAttr(rest, " data-mx-bg-color=\"") == (colours.bg, "") && fg == colours.fg
  {
    hide AttrText, ReadAttr, BgText;
    AttrTextIs(colours);
    ReadBg(colours.bg);
    if colours.fg.Some? {
      ReadAttrOf(FG_KEY, colours.fg.value, BgText(colours.bg));
    } else {
      NoFgInBg(colours.bg);
    }
  }

  lemma NotColorKey(s: string)
    requires s == "" || StartsWith(s, " data-mx-bg-color=\"")
    ensures !StartsWith(s, " color=\"")
  {
    if s != "" {
      assert s[1] == s[..|" data-mx-bg-color=\""|][1] == 'd';
    }
  }

  function TagBody(p: Piece): string
    requires !p.Text?
  {
    match p
    case Open(e) => TagName(e.tag) + (if e.tag.Font? then AttrText(e.attrs) else "")
    case Close(t) => "/" + TagName(t)
  }

  lemma ReadOpenTag(e: Element)
    requires CleanPiece(Open(e))
    ensures
      var body := TagBody(Open(e));
      '>' !in body && ReadTag(body) == Some(Open(e))
  {
    var name := TagName(e.tag);
    var attrs := AttrText(e.attrs);
    assert TagBody(Open(e)) == name + attrs;
    TagNameFacts(e.tag);
    AttrTextShape(e.attrs);
    ReadAttrs(e.attrs);
    hide TagName, TagOfName, AttrText, TagBody, ReadAttr;
    if attrs == "" {
      SpanToAll(name, ' ');
      assert name + attrs == name;
    } else {
      SpanToConcat(name, ' ', attrs[1..]);
      assert name + attrs == name + [' '] + attrs[1..];
    }
    assert (name + attrs)[..|name|] == name && (name + attrs)[|name|..] == attrs;
  }

  lemma ReadCloseTag(t: Tag)
    ensures
      var body := TagBody(Close(t));
      '>' !in body && ReadTag(body) == Some(Close(t))
  {
    var body := TagBody(Close(t));
    TagNameFacts(t);
    hide TagName, TagOfName, TagBody;
    assert body == "/" + TagName(t) && body[0] == '/' && body[1..] == TagName(t);
  }

  lemma TagShape(p: Piece)
    requires !p.Text?
    ensures TagText(p) == ['<'] + TagBody(p) + ['>']
  {
  }

  lemma ReadBody(body: string, rest: string)
    requires '>' !in body && ReadTag(body).Some?
    ensures ReadPiece(['<'] + body + ['>'] + rest) == (ReadTag(body).value, |body| + 2)
  {
    hide ReadTag;
    var s := ['<'] + body + ['>'] + rest;
    SpanToConcat(['<'] + body, '>', rest);
    assert s[1..|body| + 1] == body;
  }

  lemma ReadPieceOf(p: Piece, rest: string)
    requires CleanPiece(p)
    ensures PieceText(p) + rest != "" && ReadPiece(PieceText(p) + rest) == (p, |PieceText(p)|)
  {
    hide ReadPiece, ReadTag, TagText, TagBody, Esc;
    match p
    case Text(c) => ReadEscaped(c, rest);
    case Open(e) =>
      TagShape(p);
      ReadOpenTag(e);
      ReadBody(TagBody(p), rest);
    case Close(t) =>
      TagShape(p);
      ReadCloseTag(t);
      ReadBody(TagBody(p), rest);
  }

  lemma ReadUnfold(text: string, rest: string)
    requires text != "" && ReadPiece(text + rest).1 == |text|
    ensures Read(text + rest) == [ReadPiece(text + rest).0] + Read(rest)
  {
    hide ReadPiece;
    assert (text + rest)[|text|..] == rest;
  }

  lemma RenderUnfold(ps: seq<Piece>)
    requires ps != []
    ensures Render(ps) == PieceText(ps[0]) + Render(ps[1..])
  {
  }

  lemma ReadNothing()
    ensures Render([]) == "" && Read("") == []
  {
  }

  // A browser reads back exactly the pieces that were written.
  lemma {:induction false} ReadRender(ps: seq<Piece>)
    requires Clean(ps)
    ensures Read(Render(ps)) == ps
  {
    hide ReadPiece, PieceText, Read, Render, CleanPiece;
    if ps == [] {
      ReadNothing();
    } else {
      var text, rest := PieceText(ps[0]), Render(ps[1..]);
      ReadRender(ps[1..]);
      RenderUnfold(ps);
      ReadPieceOf(ps[0], rest);
      ReadPieceLength(text, rest);
      ReadUnfold(text, rest);
      assert ps == [ps[0]] + ps[1..];
    }
  }

  // A piece is never empty.
  lemma ReadPieceLength(text: string, rest: string)
    requires text + rest != "" && ReadPiece(text + rest).1 == |text|
    ensures text != ""
  {
    hide ReadPiece;
  }

  lemma {:induction false} RenderConcat(a: seq<Piece>, b: seq<Piece>)
    ensures Render(a + b) == Render(a) + Render(b)
  {
    hide PieceText;
    if a == [] {
      assert a + b == b;
    } else {
      RenderConcat(a[1..], b);
      assert (a + b)[1..] == a[1..] + b && (a + b)[0] == a[0];
      assert PieceText(a[0]) + (Render(a[1..]) + Render(b)) == Render(a) + Render(b);
    }
  }

  lemma {:induction false} RenderRawConcat(a: seq<Piece>, b: seq<Piece>)
    ensures RenderRaw(a + b) == RenderRaw(a) + RenderRaw(b)
  {
    hide RawText;
    if a == [] {
      assert a + b == b;
    } else {
      RenderRawConcat(a[1..], b);
      assert (a + b)[1..] == a[1..] + b && (a + b)[0] == a[0];
      assert RawText(a[0]) + (RenderRaw(a[1..]) + RenderRaw(b)) == RenderRaw(a) + RenderRaw(b);
    }
  }

  lemma {:induction false} RenderTags(ps: seq<Piece>)
    requires NoText(ps)
    ensures Render(ps) == RenderRaw(ps)
  {
    if ps != [] {
      RenderTags(ps[1..]);
    }
  }
}
