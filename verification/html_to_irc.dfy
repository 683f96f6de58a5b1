// src/irc/formatting.ts: htmlToIrc, which rewrites a string while it walks along it.

module HtmlToIrc {
  import opened Strings
  import opened IrcCodes

  // The style elements that htmlToIrc understands.
  datatype HtmlName = B | U | I | Strong | Em | Del | Code

  function StyleOf(n: HtmlName): Style {
    match n
    case B => Bold
    case Strong => Bold
    case I => Italics
    case Em => Italics
    case U => Underline
    case Del => Strike
    case Code => Monospace
  }

  function NameText(n: HtmlName): string {
    match n
    case B => "b"
    case U => "u"
    case I => "i"
    case Strong => "strong"
    case Em => "em"
    case Del => "del"
    case Code => "code"
  }

  function OpenText(n: HtmlName): string { "<" + NameText(n) + ">" }

  function CloseText(n: HtmlName): string { "</" + NameText(n) + ">" }

  const CLOSE_FONT := "</font>"

  // The order in which opening tags are replaced, and that in which closing tags are looked up.
  const OPEN_ORDER := [B, U, I, Strong, Em, Del, Code]
  const CLOSE_ORDER := [B, Del, Code, U, I, Em, Strong]

  const COLOUR_NAMES := ["white", "black", "navy", "green", "red", "maroon", "purple", "orange",
    "yellow", "lime", "teal", "aqua", "blue", "fuchsia", "gray", "lightgrey"]
  const COLOUR_NUMBERS := ["00", "01", "02", "03", "04", "05", "06", "07",
    "08", "09", "10", "11", "12", "13", "14", "15"]

  // A list of literal global replacements.
  datatype Replacement = Replacement(pattern: string, text: string)

  function StyleReplacements(order: seq<HtmlName>): seq<Replacement> {
    if order == [] then []
    else [Replacement(OpenText(order[0]), [StyleChar(StyleOf(order[0]))])] + StyleReplacements(order[1..])
  }

  function FontText(name: string): string { "<font color=\"" + name + "\">" }

  function FontReplacements(names: seq<string>, numbers: seq<string>): seq<Replacement>
    requires |names| == |numbers|
  {
    if names == [] then []
    else [Replacement(FontText(names[0]), [STYLE_COLOR] + numbers[0])] + FontReplacements(names[1..], numbers[1..])
  }

  function ApplyAll(s: string, reps: seq<Replacement>): string
    decreases |reps|
  {
    if reps == [] then s
    else if reps[0].pattern == "" then ApplyAll(s, reps[1..])
    else ApplyAll(ReplaceAll(s, reps[0].pattern, reps[0].text), reps[1..])
  }

  function Replacements(): seq<Replacement> {
    StyleReplacements(OPEN_ORDER) + FontReplacements(COLOUR_NAMES, COLOUR_NUMBERS)
  }

  // openStyleCodes.join("")
  function Codes(open: seq<Style>): (r: string)
    ensures |r| == |open|
    ensures forall k :: 0 <= k < |r| ==> r[k] == StyleChar(open[k])
  {
    seq(|open|, k requires 0 <= k < |open| => StyleChar(open[k]))
  }

  function FirstIndex(open: seq<Style>, s: Style): (i: nat)
    ensures i <= |open|
    ensures i < |open| ==> open[i] == s
    ensures i == |open| ==> s !in open
  {
    if open == [] || open[0] == s then 0 else 1 + FirstIndex(open[1..], s)
  }

  // openStyleCodes.splice(openStyleCodes.indexOf(s), 1): an absent code removes the last one.
  function RemoveCode(open: seq<Style>, s: Style): seq<Style> {
    var i := FirstIndex(open, s);
    if i < |open| then open[..i] + open[i + 1..]
    else if open == [] then []
    else open[..|open| - 1]
  }

  // The closing tag at the start of s, looked up in the order of closeTags.
  function ClosingAt(s: string, order: seq<HtmlName>): Option<HtmlName> {
    if order == [] then None
    else if StartsWith(s, CloseText(order[0])) then Some(order[0])
    else ClosingAt(s, order[1..])
  }

  // The text that replaces a closing tag: a reset, then the codes that stay open.
  function Restart(open: seq<Style>): string {
    [RESET_CODE] + Codes(open)
  }

  // The single pass that fixes up closing tags, on the rest of the string.
  function FixCloses(open: seq<Style>, s: string): string
    decreases |s|
  {
    if s == "" then ""
    else if StyleOfChar(s[0]).Some? then
      [s[0]] + FixCloses(open + [StyleOfChar(s[0]).value], s[1..])
    else if s[0] == '<' && StartsWith(s, CLOSE_FONT) then
      Restart(open) + FixCloses(open, s[|CLOSE_FONT|..])
    else if s[0] == '<' && ClosingAt(s, CLOSE_ORDER).Some? then
      var n := ClosingAt(s, CLOSE_ORDER).value;
      var open' := RemoveCode(open, StyleOf(n));
      assert StartsWith(s, CloseText(n)) by { ClosingAtMatches(s, CLOSE_ORDER); }
      Restart(open') + FixCloses(open', s[|CloseText(n)|..])
    else
      [s[0]] + FixCloses(open, s[1..])
  }

  lemma {:induction false} ClosingAtMatches(s: string, order: seq<HtmlName>)
    requires ClosingAt(s, order).Some?
    ensures StartsWith(s, CloseText(ClosingAt(s, order).value))
  {
    if !StartsWith(s, CloseText(order[0])) {
      ClosingAtMatches(s, order[1..]);
    }
  }

  // The regex `<[^>]+>`, replaced by nothing.
  function StripTags(s: string): string
    decreases |s|
  {
    if s == "" then ""
    else
      var n := TagEnd(s);
      if s[0] == '<' && n < |s| && n >= 2 then StripTags(s[n + 1..]) else [s[0]] + StripTags(s[1..])
  }

  function TagEnd(s: string): (n: nat)
    ensures n <= |s|
  {
    if s == "" || s[0] == '>' then 0 else 1 + TagEnd(s[1..])
  }

  const UNESCAPES := [Replacement("&gt;", ">"), Replacement("&lt;", "<"),
    Replacement("&quot;", "\""), Replacement("&amp;", "&")]

  // What htmlToIrc makes of HTML that sanitising leaves unchanged.
  function IrcOf(html: string): string {
    ApplyAll(StripTags(FixCloses([], ApplyAll(html, Replacements()))), UNESCAPES)
  }

  // --- The loop that rewrites the string it is indexing ---

  // No closing tag starts before position i.
  ghost predicate NoneBefore(s: string, i: nat) {
    forall k, p :: 0 <= k < i <= |s| && IsClosing(p) ==> !StartsWith(s[k..], p)
  }

  ghost predicate IsClosing(p: string) {
    p == CLOSE_FONT || exists n :: p == CloseText(n)
  }

  lemma ClosingShape(p: string)
    requires IsClosing(p)
    ensures p != "" && p[0] == '<' && NoControls(p)
  {
    if p != CLOSE_FONT {
      hide CloseText, NoControls;
      var n :| p == CloseText(n);
      CloseTextHead(n);
    }
  }

  lemma CloseTextHead(n: HtmlName)
    ensures CloseText(n) != "" && CloseText(n)[0] == '<' && NoControls(CloseText(n))
  {
  }

  // The first occurrence is the one at position i.
  lemma ReplaceHitsHere(s: string, i: nat, p: string, rep: string)
    requires i <= |s| && NoneBefore(s, i) && IsClosing(p) && StartsWith(s[i..], p)
    ensures i + |p| <= |s| && ReplaceFirst(s, p, rep) == Splice(s, i, |p|, rep)
  {
    ClosingShape(p);
    assert forall k :: 0 <= k < i ==> !StartsWith(s[k..], p);
    hide IsClosing, NoneBefore;
    IndexOfFirst(s, p, 0, i);
  }

  predicate AllControl(s: string) {
    forall k :: 0 <= k < |s| ==> IsControl(s[k])
  }

  lemma RestartShape(open: seq<Style>)
    ensures |Restart(open)| >= 1 && AllControl(Restart(open))
  {
  }

  // Rewriting at position i makes no closing tag start before the end of the new text.
  lemma NoneBeforeReplacement(s: string, i: nat, len: nat, rep: string)
    requires i + len <= |s| && NoneBefore(s, i)
    requires rep != "" && AllControl(rep)
    ensures NoneBefore(Splice(s, i, len, rep), i + |rep|)
  {
    var s' := Splice(s, i, len, rep);
    forall k, p | 0 <= k < i + |rep| && IsClosing(p)
      ensures !StartsWith(s'[k..], p)
    {
      ClosingShape(p);
      if k >= i {
        assert s'[k] == rep[k - i];
      } else if k + |p| > i {
        assert s'[k..][i - k] == rep[0];
        PrefixAt(s'[k..], p, i - k);
      } else {
        assert s[k..][..|p|] == s'[k..][..|p|];
        assert !StartsWith(s[k..], p);
      }
    }
  }

  lemma NoneAt(s: string, i: nat)
    requires i < |s| && NoneBefore(s, i)
    requires s[i] != '<' || (!StartsWith(s[i..], CLOSE_FONT) && forall n :: !StartsWith(s[i..], CloseText(n)))
    ensures NoneBefore(s, i + 1)
  {
  }

  lemma {:induction false} NoClosingAt(s: string, order: seq<HtmlName>, n: HtmlName)
    requires ClosingAt(s, order).None? && n in order
    ensures !StartsWith(s, CloseText(n))
  {
    if order[0] != n { NoClosingAt(s, order[1..], n); }
  }

  // What is already rewritten, followed by what the pass makes of the rest.
  function Progress(s: string, i: nat, open: seq<Style>): string
    requires i <= |s|
  {
    s[..i] + FixCloses(open, s[i..])
  }

  lemma AllClosingTags(n: HtmlName)
    ensures n in CLOSE_ORDER
  {
  }

  // A character that is no closing tag is kept.
  lemma PassStep(s: string, i: nat, open: seq<Style>)
    requires i < |s| && NoneBefore(s, i)
    requires s[i] == '<' ==> !StartsWith(s[i..], CLOSE_FONT) && ClosingAt(s[i..], CLOSE_ORDER).None?
    ensures
      var open' := if StyleOfChar(s[i]).Some? then open + [StyleOfChar(s[i]).value] else open;
      Rewrites(s, i, open, s, i + 1, open')
  {
    if s[i] == '<' {
      forall n: HtmlName
        ensures !StartsWith(s[i..], CloseText(n))
      {
        assert n in CLOSE_ORDER by { AllClosingTags(n); }
        NoClosingAt(s[i..], CLOSE_ORDER, n);
      }
    }
    NoneAt(s, i);
    assert s[i..][1..] == s[i + 1..];
    hide NoneBefore, ClosingAt, StartsWith;
    assert s[..i + 1] == s[..i] + [s[i]];
    var open' := if StyleOfChar(s[i]).Some? then open + [StyleOfChar(s[i]).value] else open;
    assert FixCloses(open, s[i..]) == [s[i]] + FixCloses(open', s[i + 1..]);
    hide FixCloses;
    Associates(s[..i], [s[i]], FixCloses(open', s[i + 1..]));
  }

  // The state after a rewriting step is at least as far, and stands for the same result.
  ghost predicate Rewrites(s: string, i: nat, open: seq<Style>, s': string, i': nat, open': seq<Style>)
    requires i <= |s|
  {
    && i' <= |s'| && NoneBefore(s', i') && |s'| - i' < |s| - i
    && Progress(s', i', open') == Progress(s, i, open)
  }

  // A closing tag at position i is replaced there, and the pass goes on after the new text.
  lemma ReplaceStep(s: string, i: nat, p: string, open: seq<Style>, open': seq<Style>)
    requires i <= |s| && NoneBefore(s, i) && IsClosing(p) && StartsWith(s[i..], p)
    requires FixCloses(open, s[i..]) == Restart(open') + FixCloses(open', s[i + |p|..])
    ensures
      var rep := Restart(open');
      var s' := ReplaceFirst(s, p, rep);
      && 1 <= |rep| && i + |rep| <= |s'| && s'[i + |rep| - 1] != '<'
      && Rewrites(s, i, open, s', i + |rep|, open')
  {
    hide NoneBefore, IsClosing, ReplaceFirst, StartsWith, FixCloses, Restart, AllControl, Splice, Progress;
    var rep := Restart(open');
    RestartShape(open');
    ClosingShape(p);
    ReplaceHitsHere(s, i, p, rep);
    NoneBeforeReplacement(s, i, |p|, rep);
    SpliceProgress(s, i, |p|, rep, open, open');
    NotControl(rep);
  }

  lemma NotControl(rep: string)
    requires AllControl(rep) && rep != ""
    ensures rep[|rep| - 1] != '<'
  {
  }

  lemma SpliceProgress(s: string, i: nat, len: nat, rep: string, open: seq<Style>, open': seq<Style>)
    requires i + len <= |s| && rep != ""
    requires FixCloses(open, s[i..]) == rep + FixCloses(open', s[i + len..])
    ensures
      var s' := Splice(s, i, len, rep);
      s'[i + |rep| - 1] == rep[|rep| - 1] && Progress(s', i + |rep|, open') == Progress(s, i, open)
  {
  }

  lemma FontStep(s: string, i: nat, open: seq<Style>)
    requires i < |s| && s[i] == '<' && StartsWith(s[i..], CLOSE_FONT)
    ensures FixCloses(open, s[i..]) == Restart(open) + FixCloses(open, s[i + |CLOSE_FONT|..])
    ensures IsClosing(CLOSE_FONT)
  {
  }

  lemma FixClosesTag(open: seq<Style>, s: string, n: HtmlName)
    requires s != "" && s[0] == '<' && !StartsWith(s, CLOSE_FONT) && ClosingAt(s, CLOSE_ORDER) == Some(n)
    requires StartsWith(s, CloseText(n))
    ensures
      var open' := RemoveCode(open, StyleOf(n));
      FixCloses(open, s) == Restart(open') + FixCloses(open', s[|CloseText(n)|..])
  {
    hide CloseText, RemoveCode, Restart, ClosingAt, StartsWith;
  }

  lemma TagStep(s: string, i: nat, open: seq<Style>, n: HtmlName)
    requires i < |s| && s[i] == '<' && !StartsWith(s[i..], CLOSE_FONT)
    requires ClosingAt(s[i..], CLOSE_ORDER) == Some(n)
    ensures StartsWith(s[i..], CloseText(n)) && IsClosing(CloseText(n))
    ensures
      var open' := RemoveCode(open, StyleOf(n));
      FixCloses(open, s[i..]) == Restart(open') + FixCloses(open', s[i + |CloseText(n)|..])
  {
    hide CloseText, RemoveCode, Restart, ClosingAt;
    ClosingAtMatches(s[i..], CLOSE_ORDER);
    var len := |CloseText(n)|;
    assert s[i..][len..] == s[i + len..];
    FixClosesTag(open, s[i..], n);
  }

  lemma ClosingAtNext(s: string, order: seq<HtmlName>, k: nat)
    requires k < |order|
    ensures
      ClosingAt(s, order[k..])
      == if StartsWith(s, CloseText(order[k])) then Some(order[k]) else ClosingAt(s, order[k + 1..])
  {
  }

  // cleanHtml.replace(closeTag, replacement), and the step to the last new character.
  method ReplaceTag(s: string, start: nat, p: string, ghost open: seq<Style>, openStyleCodes: seq<Style>)
    returns (cleanHtml: string, i: nat)
    requires start <= |s| && NoneBefore(s, start) && IsClosing(p) && StartsWith(s[start..], p)
    requires FixCloses(open, s[start..]) == Restart(openStyleCodes) + FixCloses(openStyleCodes, s[start + |p|..])
    ensures i < |cleanHtml| && cleanHtml[i] != '<' && Rewrites(s, start, open, cleanHtml, i + 1, openStyleCodes)
  {
    hide Rewrites, NoneBefore, IsClosing, FixCloses, StartsWith, ReplaceFirst, Restart, Splice, IndexOf;
    ReplaceStep(s, start, p, open, openStyleCodes);
    var replacement := Restart(openStyleCodes);
    cleanHtml := ReplaceFirst(s, p, replacement);
    i := start + |replacement| - 1;
  }

  // The inner loop over closeTags. It goes on after a match, from the last new character.
  method TryCloseTags(s: string, start: nat, open: seq<Style>)
    returns (cleanHtml: string, i: nat, openStyleCodes: seq<Style>)
    requires start < |s| && s[start] == '<' && !StartsWith(s[start..], CLOSE_FONT) && NoneBefore(s, start)
    ensures i < |cleanHtml| && Rewrites(s, start, open, cleanHtml, i + 1, openStyleCodes)
  {
    cleanHtml, i, openStyleCodes := s, start, open;
    ghost var replaced := false;
    hide FixCloses, NoneBefore, Rewrites, Restart, StyleOf, CloseText, RemoveCode, ClosingAt, IsClosing;
    var closeTags := CLOSE_ORDER;
    assert closeTags[0..] == closeTags;
    for index := 0 to |closeTags|
      invariant i < |cleanHtml|
      invariant !replaced ==> cleanHtml == s && i == start && openStyleCodes == open
      invariant !replaced ==> ClosingAt(s[start..], CLOSE_ORDER) == ClosingAt(s[start..], closeTags[index..])
      invariant replaced ==> cleanHtml[i] != '<' && Rewrites(s, start, open, cleanHtml, i + 1, openStyleCodes)
    {
      var closeTag := CloseText(closeTags[index]);
      ClosingAtNext(s[start..], closeTags, index);
      ClosingTagStarts(closeTags[index]);
      if IndexOf(cleanHtml, closeTag, i) == i {
        assert !replaced by { StartsAt(cleanHtml, i, closeTag); }
        TagStep(s, start, open, closeTags[index]);
        openStyleCodes := RemoveCode(open, StyleOf(closeTags[index]));
        cleanHtml, i := ReplaceTag(s, start, closeTag, open, openStyleCodes);
        replaced := true;
      }
    }
    if !replaced {
      NoTagAt(s, start);
      PassStep(s, start, open);
    }
  }

  lemma NoTagAt(s: string, i: nat)
    requires i < |s| && s[i] == '<'
    ensures StyleOfChar(s[i]).None?
    ensures ClosingAt(s[i..], CLOSE_ORDER[|CLOSE_ORDER|..]).None?
  {
  }

  lemma ClosingTagStarts(n: HtmlName)
    ensures CloseText(n) != "" && CloseText(n)[0] == '<'
  {
  }

  lemma StartsAt(s: string, i: nat, p: string)
    requires i < |s| && p != "" && StartsWith(s[i..], p)
    ensures s[i] == p[0]
  {
  }

  // One turn of the loop over the string, up to `i++`.
  method FixUpAt(s: string, start: nat, open: seq<Style>)
    returns (cleanHtml: string, i: nat, openStyleCodes: seq<Style>)
    requires start < |s| && NoneBefore(s, start)
    ensures i < |cleanHtml| && Rewrites(s, start, open, cleanHtml, i + 1, openStyleCodes)
  {
    hide NoneBefore, Rewrites, FixCloses, StartsWith, ClosingAt, IsClosing, IndexOf;
    cleanHtml, i, openStyleCodes := s, start, open;
    var ch := s[start];
    if StyleOfChar(ch).Some? {
      StyleIsNoTag(ch);
      PassStep(s, start, open);
      openStyleCodes := open + [StyleOfChar(ch).value];
    } else if ch == '<' {
      if IndexOf(s, CLOSE_FONT, start) == start {
        FontStep(s, start, open);
        cleanHtml, i := ReplaceTag(s, start, CLOSE_FONT, open, open);
      } else {
        cleanHtml, i, openStyleCodes := TryCloseTags(s, start, open);
      }
    } else {
      PassStep(s, start, open);
    }
  }

  lemma StyleIsNoTag(c: char)
    requires StyleOfChar(c).Some?
    ensures c != '<'
  {
  }

  // The whole loop, for every string: it ends, and rewrites as the one-pass function does.
  method FixUpCloses(start: string) returns (cleanHtml: string)
    ensures cleanHtml == FixCloses([], start)
  {
    cleanHtml := start;
    var openStyleCodes: seq<Style> := [];
    var i := 0;
    assert start[0..] == start && Progress(start, 0, []) == FixCloses([], start);
    NoneBeforeStart(start);
    hide NoneBefore, Progress, FixCloses;
    while i < |cleanHtml|
      invariant 0 <= i <= |cleanHtml|
      invariant NoneBefore(cleanHtml, i)
      invariant Progress(cleanHtml, i, openStyleCodes) == FixCloses([], start)
      decreases |cleanHtml| - i
    {
      cleanHtml, i, openStyleCodes := FixUpAt(cleanHtml, i, openStyleCodes);
      i := i + 1;
    }
    AtEnd(cleanHtml, openStyleCodes);
  }

  lemma NoneBeforeStart(s: string)
    ensures NoneBefore(s, 0)
  {
  }

  lemma AtEnd(s: string, open: seq<Style>)
    ensures Progress(s, |s|, open) == s
  {
  }

  // --- The function as it is called ---

  // `sanitised` is what decoding and sanitising make of the input.
  method Convert(html: Option<string>, sanitised: string) returns (irc: Option<string>)
    ensures irc == match html
            case None => None
            case Some(text) => if text == "" || sanitised != text then None else Some(IrcOf(text))
  {
    if html.None? || html.value == "" {
      return None;
    }
    if sanitised != html.value {
      // the caller falls back to plain text
      return None;
    }
    hide StripTags, FixCloses, ReplaceAll;
    var cleanHtml := ReplaceEach(sanitised, Replacements());
    cleanHtml := FixUpCloses(cleanHtml);
    cleanHtml := ReplaceEach(StripTags(cleanHtml), UNESCAPES);
    irc := Some(cleanHtml);
  }

  method ReplaceEach(s: string, reps: seq<Replacement>) returns (r: string)
    ensures r == ApplyAll(s, reps)
  {
    r := s;
    assert reps[0..] == reps;
    for i := 0 to |reps|
      invariant ApplyAll(r, reps[i..]) == ApplyAll(s, reps)
    {
      assert reps[i..][1..] == reps[i + 1..];
      if reps[i].pattern != "" {
        r := ReplaceAll(r, reps[i].pattern, reps[i].text);
      }
    }
  }
}
