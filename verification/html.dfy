// The HTML the bridge sends: markup pieces, nesting, meaning, and the string form.

module Html {
  import opened Strings
  import opened IrcCodes

  datatype Tag = Simple(style: Style) | Font

  // An open element; only `font` carries attributes.
  datatype Element = Element(tag: Tag, attrs: Colours)

  datatype Piece = Text(c: char) | Open(elem: Element) | Close(tag: Tag)

  function TagName(t: Tag): string {
    match t
    case Simple(Bold) => "b"
    case Simple(Monospace) => "code"
    case Simple(Italics) => "i"
    case Simple(Strike) => "del"
    case Simple(Underline) => "u"
    case Font => "font"
  }

  function Names(st: seq<Element>): (r: seq<Tag>)
    ensures |r| == |st|
    ensures forall k :: 0 <= k < |st| ==> r[k] == st[k].tag
  {
    seq(|st|, k requires 0 <= k < |st| => st[k].tag)
  }

  // The elements still open after a piece list; None if a closing tag does not match.
  function Run(ps: seq<Piece>, st: seq<Element>): Option<seq<Element>> {
    if ps == [] then Some(st)
    else match ps[0]
      case Text(_) => Run(ps[1..], st)
      case Open(e) => Run(ps[1..], st + [e])
      case Close(t) =>
        if st != [] && st[|st| - 1].tag == t then Run(ps[1..], st[..|st| - 1]) else None
  }

  predicate Balanced(ps: seq<Piece>) {
    Run(ps, []) == Some([])
  }

  predicate NoText(ps: seq<Piece>) {
    forall i :: 0 <= i < |ps| ==> !ps[i].Text?
  }

  // The attributes of the innermost open font.
  function InnerFont(st: seq<Element>): Colours {
    if st == [] then PLAIN
    else if st[|st| - 1].tag.Font? then st[|st| - 1].attrs
    else InnerFont(st[..|st| - 1])
  }

  function ModeOf(st: seq<Element>): Mode {
    Mode((set s: Style | Simple(s) in Names(st)), InnerFont(st))
  }

  // The denotation of markup: every character with the styles and font that enclose it.
  function HtmlMeaning(ps: seq<Piece>, st: seq<Element>): seq<Glyph> {
    if ps == [] then []
    else match ps[0]
      case Text(c) => [Glyph(c, ModeOf(st))] + HtmlMeaning(ps[1..], st)
      case Open(e) => HtmlMeaning(ps[1..], st + [e])
      case Close(_) => HtmlMeaning(ps[1..], if st == [] then [] else st[..|st| - 1])
  }

  function TextOf(ps: seq<Piece>): string {
    if ps == [] then "" else (if ps[0].Text? then [ps[0].c] else "") + TextOf(ps[1..])
  }

  lemma {:induction false} RunConcat(a: seq<Piece>, b: seq<Piece>, st: seq<Element>)
    requires Run(a, st).Some?
    ensures Run(a + b, st) == Run(b, Run(a, st).value)
  {
    if a == [] {
      assert a + b == b;
    } else {
      var st' := match a[0]
        case Text(_) => st
        case Open(e) => st + [e]
        case Close(t) => st[..|st| - 1];
      RunConcat(a[1..], b, st');
      assert (a + b)[1..] == a[1..] + b;
    }
  }

  // Tags between two characters only change the elements that enclose the second one.
  lemma {:induction false} MeaningOfTags(a: seq<Piece>, b: seq<Piece>, st: seq<Element>)
    requires NoText(a) && Run(a, st).Some?
    ensures HtmlMeaning(a + b, st) == HtmlMeaning(b, Run(a, st).value)
  {
    if a == [] {
      assert a + b == b;
    } else {
      var st' := match a[0]
        case Text(_) => st
        case Open(e) => st + [e]
        case Close(t) => st[..|st| - 1];
      MeaningOfTags(a[1..], b, st');
      assert (a + b)[1..] == a[1..] + b;
    }
  }

  lemma {:induction false} TextOfTags(a: seq<Piece>, b: seq<Piece>)
    requires NoText(a)
    ensures TextOf(a + b) == TextOf(b)
  {
    if a == [] {
      assert a + b == b;
    } else {
      TextOfTags(a[1..], b);
      assert (a + b)[1..] == a[1..] + b;
    }
  }
}
