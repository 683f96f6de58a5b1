// The mIRC control codes and how a client reads a line that uses them.

module IrcCodes {
  import opened Strings

  datatype Style = Bold | Monospace | Italics | Strike | Underline

  const STYLE_COLOR := '\U{03}'
  const STYLE_BOLD := '\U{02}'
  const STYLE_MONOSPACE := '\U{11}'
  const STYLE_ITALICS := '\U{1d}'
  const STYLE_STRIKE := '\U{1e}'
  const STYLE_UNDERLINE := '\U{1f}'
  const RESET_CODE := '\U{0f}'
  const REVERSE_CODE := '\U{16}'

  function StyleChar(s: Style): char {
    match s
    case Bold => STYLE_BOLD
    case Monospace => STYLE_MONOSPACE
    case Italics => STYLE_ITALICS
    case Strike => STYLE_STRIKE
    case Underline => STYLE_UNDERLINE
  }

  function StyleOfChar(c: char): (r: Option<Style>)
    ensures r.Some? ==> StyleChar(r.value) == c
    ensures r.None? ==> forall s :: StyleChar(s) != c
  {
    if c == STYLE_BOLD then Some(Bold)
    else if c == STYLE_MONOSPACE then Some(Monospace)
    else if c == STYLE_ITALICS then Some(Italics)
    else if c == STYLE_STRIKE then Some(Strike)
    else if c == STYLE_UNDERLINE then Some(Underline)
    else None
  }

  predicate IsControl(c: char) {
    StyleOfChar(c).Some? || c == RESET_CODE || c == REVERSE_CODE || c == STYLE_COLOR
  }

  predicate IsDigit(c: char) { '0' <= c <= '9' }

  // A colour code carries the digits that follow it; "" is an absent argument.
  datatype Token =
    | Ch(c: char)
    | Toggle(style: Style)
    | Reset
    | Reverse
    | Colour(fg: string, bg: string)

  // The regex `\d{0,2}` at the start of s.
  function TakeDigits(s: string): (d: string)
    ensures |d| <= |s| && d == s[..|d|]
  {
    if s == "" || !IsDigit(s[0]) then ""
    else if |s| == 1 || !IsDigit(s[1]) then s[..1]
    else s[..2]
  }

  // The regex `,\d` at the start of s.
  predicate HasBackground(s: string) {
    |s| >= 2 && s[0] == ',' && IsDigit(s[1])
  }

  // The arguments that follow a colour code, with their length: `(\d{0,2})(?:,(\d{1,2}))?`.
  function ColourArgs(s: string): (r: (string, string, nat))
    ensures r.2 <= |s|
  {
    var fg := TakeDigits(s);
    var rest := s[|fg|..];
    if HasBackground(rest) then
      var bg := TakeDigits(rest[1..]);
      (fg, bg, |fg| + 1 + |bg|)
    else
      (fg, "", |fg|)
  }

  // One leftmost match of the colour regex, or one plain character, with its length.
  function NextToken(s: string): (r: (Token, nat))
    requires s != ""
    ensures 1 <= r.1 <= |s|
    ensures !IsControl(s[0]) ==> r == (Ch(s[0]), 1)
    ensures r.0.Ch? <==> !IsControl(s[0])
  {
    var c := s[0];
    if c == STYLE_COLOR then
      var (fg, bg, n) := ColourArgs(s[1..]);
      (Colour(fg, bg), 1 + n)
    else
      ((match StyleOfChar(c)
        case Some(style) => Toggle(style)
        case None =>
          if c == RESET_CODE then Reset else if c == REVERSE_CODE then Reverse else Ch(c)), 1)
  }

  function Tokenize(s: string): seq<Token>
    decreases |s|
  {
    if s == "" then []
    else
      var (t, n) := NextToken(s);
      [t] + Tokenize(s[n..])
  }

  // The mIRC palette, in the order of its numbers.
  function PaletteHex(n: nat): (hex: string)
    requires n < 16
    ensures '"' !in hex && '>' !in hex
  {
    if n == 0 then "#FFFFFF" else if n == 1 then "#000000" else if n == 2 then "#00007F"
    else if n == 3 then "#009300" else if n == 4 then "#FF0000" else if n == 5 then "#7F0000"
    else if n == 6 then "#9C009C" else if n == 7 then "#FC7F00" else if n == 8 then "#FFFF00"
    else if n == 9 then "#00FC00" else if n == 10 then "#009393" else if n == 11 then "#00FFFF"
    else if n == 12 then "#0000FC" else if n == 13 then "#FF00FF" else if n == 14 then "#7F7F7F"
    else "#D2D2D2"
  }

  // colorCodesToHtmlNames: '0'-'9', '00'-'09' and '10'-'15' are known. An unknown number reads
  // as `undefined`, which behaves like no colour.
  function HexOf(code: string): (r: Option<string>)
    ensures r.Some? ==> '"' !in r.value && '>' !in r.value
  {
    if |code| == 1 && IsDigit(code[0]) then Some(PaletteHex((code[0] - '0') as nat))
    else if |code| == 2 && code[0] == '0' && IsDigit(code[1]) then Some(PaletteHex((code[1] - '0') as nat))
    else if |code| == 2 && code[0] == '1' && '0' <= code[1] <= '5' then Some(PaletteHex((code[1] - '0') as nat + 10))
    else None
  }

  // The foreground and background registers.
  datatype Colours = Colours(fg: Option<string>, bg: Option<string>) {
    predicate Any() { fg.Some? || bg.Some? }
    function Swapped(): Colours { Colours(bg, fg) }
    function Updated(newFg: string, newBg: string): Colours {
      if newFg == "" && newBg == "" then Colours(None, None)
      else Colours(if newFg == "" then fg else HexOf(newFg), if newBg == "" then bg else HexOf(newBg))
    }
  }

  const PLAIN := Colours(None, None)

  // What a reader sees: every visible character with its styles and colours.
  datatype Mode = Mode(styles: set<Style>, colours: Colours)
  datatype Glyph = Glyph(c: char, mode: Mode)

  const DEFAULT_MODE := Mode({}, PLAIN)

  function IrcStep(m: Mode, t: Token): Mode {
    match t
    case Ch(_) => m
    case Toggle(s) => m.(styles := if s in m.styles then m.styles - {s} else m.styles + {s})
    case Reset => DEFAULT_MODE
    case Reverse => m.(colours := m.colours.Swapped())
    case Colour(fg, bg) => m.(colours := m.colours.Updated(fg, bg))
  }

  // The denotation of a line of IRC text.
  function IrcMeaning(ts: seq<Token>, m: Mode): seq<Glyph> {
    if ts == [] then []
    else
      (if ts[0].Ch? then [Glyph(ts[0].c, m)] else []) + IrcMeaning(ts[1..], IrcStep(m, ts[0]))
  }

  // The visible text of a line: its codes removed.
  function Visible(ts: seq<Token>): string {
    if ts == [] then "" else (if ts[0].Ch? then [ts[0].c] else "") + Visible(ts[1..])
  }

  // Characters that are copied verbatim.
  function Chars(p: string): (r: seq<Token>)
    ensures |r| == |p|
  {
    if p == "" then [] else [Ch(p[0])] + Chars(p[1..])
  }

  predicate NoControls(p: string) {
    forall i :: 0 <= i < |p| ==> !IsControl(p[i])
  }

  lemma TokenizeUnfold(s: string)
    requires s != ""
    ensures Tokenize(s) == [NextToken(s).0] + Tokenize(s[NextToken(s).1..])
  {
  }

  lemma EmptyTokens()
    ensures Tokenize("") == []
  {
  }

  lemma {:induction false} TokenizePlain(p: string, rest: string)
    requires NoControls(p)
    ensures Tokenize(p + rest) == Chars(p) + Tokenize(rest)
  {
    hide NextToken, IsControl, Tokenize;
    if p == "" {
      assert p + rest == rest;
    } else {
      var s := p + rest;
      TokenizePlain(p[1..], rest);
      assert s[0] == p[0] && s[1..] == p[1..] + rest;
      TokenizeUnfold(s);
      assert [Ch(p[0])] + (Chars(p[1..]) + Tokenize(rest)) == Chars(p) + Tokenize(rest);
    }
  }

  // --- What the codes are, character by character ---

  predicate Digits(s: string) {
    forall i :: 0 <= i < |s| ==> '0' <= s[i] <= '9'
  }

  // The digits d end where they have to: there are two of them, or no digit follows.
  predicate EndsAt(d: string, rest: string) {
    |d| == 2 || (|d| < 2 && !(rest != "" && '0' <= rest[0] <= '9'))
  }

  predicate CommaDigit(s: string) {
    |s| >= 2 && s[0] == ',' && '0' <= s[1] <= '9'
  }

  lemma TakeDigitsIs(d: string, rest: string)
    requires Digits(d) && EndsAt(d, rest)
    ensures TakeDigits(d + rest) == d && (d + rest)[|d|..] == rest
  {
    var s := d + rest;
    assert forall i :: 0 <= i < |d| ==> s[i] == d[i];
    assert rest != "" ==> s[|d|] == rest[0];
    assert s[..|d|] == d;
  }

  lemma ColourToken(args: string)
    ensures
      var (fg, bg, n) := ColourArgs(args);
      Tokenize(['\U{03}'] + args) == [Colour(fg, bg)] + Tokenize(args[n..])
  {
    var s := ['\U{03}'] + args;
    var (fg, bg, n) := ColourArgs(args);
    assert s[1..] == args && s[1 + n..] == args[n..];
    hide ColourArgs, Tokenize;
    TokenizeUnfold(s);
  }

  // A colour code with up to two digits, which no background follows.
  lemma ForegroundRead(fg: string, rest: string)
    requires Digits(fg) && EndsAt(fg, rest) && !CommaDigit(rest)
    ensures Tokenize(['\U{03}'] + (fg + rest)) == [Colour(fg, "")] + Tokenize(rest)
  {
    TakeDigitsIs(fg, rest);
    hide TakeDigits, Tokenize;
    ColourToken(fg + rest);
  }

  // A colour code with up to two digits, a comma, and one or two digits.
  lemma BackgroundRead(fg: string, bg: string, rest: string)
    requires Digits(fg) && |fg| <= 2 && Digits(bg) && bg != "" && EndsAt(bg, rest)
    ensures Tokenize(['\U{03}'] + (fg + ("," + (bg + rest)))) == [Colour(fg, bg)] + Tokenize(rest)
  {
    var behind := "," + (bg + rest);
    TakeDigitsIs(fg, behind);
    TakeDigitsIs(bg, rest);
    assert behind[1..] == bg + rest && (bg + rest)[0] == bg[0];
    hide TakeDigits, Tokenize;
    ColourToken(fg + behind);
    assert (fg + behind)[|fg| + 1 + |bg|..] == rest;
  }

  // There are no other cases: every text behind a colour code has one of these two forms.
  lemma ColourForms(s: string) returns (fg: string, bg: string, rest: string)
    ensures Digits(fg) && |fg| <= 2 && Digits(bg) && |bg| <= 2
    ensures bg == "" ==> s == fg + rest && EndsAt(fg, rest) && !CommaDigit(rest)
    ensures bg != "" ==> s == fg + ("," + (bg + rest)) && EndsAt(bg, rest)
  {
    fg := TakeDigits(s);
    rest := s[|fg|..];
    bg := "";
    DigitsTaken(s);
    if CommaDigit(rest) {
      var behind := rest[1..];
      bg := TakeDigits(behind);
      DigitsTaken(behind);
      hide TakeDigits, Digits, EndsAt;
      assert rest == "," + behind;
      rest := behind[|bg|..];
    }
  }

  lemma DigitsTaken(s: string)
    ensures
      var d, rest := TakeDigits(s), s[|TakeDigits(s)|..];
      s == d + rest && Digits(d) && |d| <= 2 && EndsAt(d, rest)
    ensures s != "" && '0' <= s[0] <= '9' ==> TakeDigits(s) != ""
  {
  }

  // The other codes, and all other characters.
  function SimpleToken(c: char): Token {
    if c == '\U{02}' then Toggle(Bold)
    else if c == '\U{11}' then Toggle(Monospace)
    else if c == '\U{1d}' then Toggle(Italics)
    else if c == '\U{1e}' then Toggle(Strike)
    else if c == '\U{1f}' then Toggle(Underline)
    else if c == '\U{0f}' then Reset
    else if c == '\U{16}' then Reverse
    else Ch(c)
  }

  lemma SimpleCodeRead(c: char, rest: string)
    requires c != '\U{03}'
    ensures Tokenize([c] + rest) == [SimpleToken(c)] + Tokenize(rest)
  {
    var s := [c] + rest;
    assert NextToken(s) == (SimpleToken(c), 1) by { NextSimple(s); }
    assert s[1..] == rest;
    hide NextToken, SimpleToken, Tokenize;
    TokenizeUnfold(s);
  }

  lemma NextSimple(s: string)
    requires s != "" && s[0] != '\U{03}'
    ensures NextToken(s) == (SimpleToken(s[0]), 1)
  {
  }

  // The number that one or two digits stand for.
  function ColourNumber(d: string): nat
    requires Digits(d) && 1 <= |d| <= 2
  {
    if |d| == 1 then d[0] as int - '0' as int
    else 10 * (d[0] as int - '0' as int) + (d[1] as int - '0' as int)
  }

  // The sixteen mIRC colours; a number beyond them sets no colour.
  function Shade(d: string): Option<string>
    requires Digits(d) && 1 <= |d| <= 2
  {
    var mirc := ["#FFFFFF", "#000000", "#00007F", "#009300", "#FF0000", "#7F0000", "#9C009C", "#FC7F00",
                 "#FFFF00", "#00FC00", "#009393", "#00FFFF", "#0000FC", "#FF00FF", "#7F7F7F", "#D2D2D2"];
    if ColourNumber(d) < 16 then Some(mirc[ColourNumber(d)]) else None
  }

  lemma HexIsShade(d: string)
    requires Digits(d) && 1 <= |d| <= 2
    ensures HexOf(d) == Shade(d)
  {
    var n := ColourNumber(d);
    if |d| == 2 && d[0] == '0' { assert n == d[1] as int - '0' as int; }
    if |d| == 2 && d[0] == '1' { assert n == 10 + (d[1] as int - '0' as int); }
    if |d| == 2 && d[0] > '1' { assert n >= 20; }
  }

  // What foreground and background are after a colour code, a reverse and a reset. Digits that are
  // absent leave their colour as it is, and without any digits both are cleared.
  lemma ColoursRead(m: Mode, fg: string, bg: string)
    requires Digits(fg) && |fg| <= 2 && Digits(bg) && |bg| <= 2
    ensures
      var m' := IrcStep(m, Colour(fg, bg));
      && m'.styles == m.styles
      && m'.colours.fg == (if fg != "" then Shade(fg) else if bg != "" then m.colours.fg else None)
      && m'.colours.bg == (if bg != "" then Shade(bg) else if fg != "" then m.colours.bg else None)
    ensures
      var m' := IrcStep(m, Reverse);
      m'.styles == m.styles && m'.colours.fg == m.colours.bg && m'.colours.bg == m.colours.fg
    ensures
      var m' := IrcStep(m, Reset);
      m'.styles == {} && m'.colours.fg == None && m'.colours.bg == None
  {
    hide HexOf, Shade;
    if fg != "" { HexIsShade(fg); }
    if bg != "" { HexIsShade(bg); }
  }
}
