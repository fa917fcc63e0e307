/** What a reader sees: the text of an element, unescaped, is the report's own line with its
    citations renumbered, and no character of the report is taken for markup. */
module SiteText {
  import opened Markers
  import opened Numerals
  import opened SiteReport
  import opened SiteLoop
  import opened SiteHtml

  predicate Starts(s: string, prefix: string) {
    prefix <= s
  }

  // ----- escaping

  /** Reads the five named and numbered characters back. */
  function Unescape(s: string): string
    decreases |s|
  {
    if s == "" then ""
    else if Starts(s, "&amp;") then "&" + Unescape(s[5..])
    else if Starts(s, "&lt;") then "<" + Unescape(s[4..])
    else if Starts(s, "&gt;") then ">" + Unescape(s[4..])
    else if Starts(s, "&quot;") then "\"" + Unescape(s[6..])
    else if Starts(s, "&#x27;") then "'" + Unescape(s[6..])
    else [s[0]] + Unescape(s[1..])
  }

  predicate EntityAt(s: string) {
    Starts(s, "&amp;") || Starts(s, "&lt;") || Starts(s, "&gt;") || Starts(s, "&quot;") || Starts(s, "&#x27;")
  }

  /** No tag or attribute value can begin or end inside `s`, and each ampersand is one of ours. */
  predicate Safe(s: string) {
    forall i :: 0 <= i < |s| ==> s[i] !in "<>\"'" && (s[i] == '&' ==> EntityAt(s[i..]))
  }

  lemma UnescapeChar(c: char, rest: string)
    ensures Unescape(HtmlChar(c) + rest) == [c] + Unescape(rest)
  {
    var e := HtmlChar(c);
    assert (e + rest)[|e|..] == rest;
    if e != [c] {
      assert (e + rest)[..|e|] == e;
      assert (e + rest)[1] == e[1];
    } else {
      assert !EntityAt(e + rest);
    }
  }

  /** Unescaping gives every text back. */
  lemma {:induction false} EscapingIsInverted(s: string)
    ensures Unescape(HtmlEscape(s)) == s
  {
    if s == "" {
    } else {
      EscapingIsInverted(s[1..]);
      UnescapeChar(s[0], HtmlEscape(s[1..]));
    }
  }

  lemma EntityGoesOn(s: string, rest: string)
    requires EntityAt(s)
    ensures EntityAt(s + rest)
  {
  }

  lemma SafeConcat(x: string, y: string)
    requires Safe(x) && Safe(y)
    ensures Safe(x + y)
  {
    forall i | 0 <= i < |x + y|
      ensures (x + y)[i] !in "<>\"'" && ((x + y)[i] == '&' ==> EntityAt((x + y)[i..]))
    {
      if i < |x| {
        assert (x + y)[i] == x[i] && (x + y)[i..] == x[i..] + y;
        if x[i] == '&' {
          EntityGoesOn(x[i..], y);
        }
      } else {
        assert (x + y)[i] == y[i - |x|] && (x + y)[i..] == y[i - |x|..];
      }
    }
  }

  lemma EntityIsSafe(e: string)
    requires EntityAt(e) && e[0] == '&' && forall i :: 0 < i < |e| ==> e[i] !in "&<>\"'"
    ensures Safe(e)
  {
    assert e[0..] == e;
  }

  lemma SafeChar(c: char)
    ensures Safe(HtmlChar(c))
  {
    if c == '&' {
      EntityIsSafe("&amp;");
    } else if c == '<' {
      EntityIsSafe("&lt;");
    } else if c == '>' {
      EntityIsSafe("&gt;");
    } else if c == '"' {
      EntityIsSafe("&quot;");
    } else if c == '\'' {
      EntityIsSafe("&#x27;");
    }
  }

  /** No text can break out of the element it stands in. */
  lemma {:induction false} EscapedIsSafe(s: string)
    ensures Safe(HtmlEscape(s))
  {
    if s == "" {
    } else {
      EscapedIsSafe(s[1..]);
      SafeChar(s[0]);
      SafeConcat(HtmlChar(s[0]), HtmlEscape(s[1..]));
    }
  }

  // ----- renumbered text

  /** `shown` is `source` with each citation's identifier replaced by its number. */
  ghost predicate Renumbered(source: seq<Token>, shown: seq<Token>, oldToNew: map<string, nat>) {
    && |shown| == |source|
    && forall k :: 0 <= k < |source| ==>
         match source[k]
         case Lit(_) => shown[k] == source[k]
         case Cite(id) => id in oldToNew && shown[k] == Cite(Decimal(oldToNew[id]))
  }

  lemma {:induction false} ExpectedIsRenumbered(tokens: seq<Token>, oldToNew: map<string, nat>)
    requires forall id :: id in Cites(tokens) ==> id in oldToNew
    ensures Renumbered(tokens, Expected(tokens, Remapping(oldToNew)), oldToNew)
  {
    if tokens == [] {
    } else {
      var r := Remapping(oldToNew);
      ExpectedIsRenumbered(tokens[1..], oldToNew);
      if tokens[0].Lit? {
        assert Lits([tokens[0].c]) == [tokens[0]];
      }
      assert Expected(tokens, r)[1..] == Expected(tokens[1..], r);
    }
  }

  lemma RemappedText(text: string, oldToNew: map<string, nat>)
    requires RemapCitations(text, oldToNew).Ok?
    ensures Renumbered(Scan(text), Scan(RemapCitations(text, oldToNew).value), oldToNew)
  {
    RemappingIsHarmless(oldToNew);
    RewritingIsStable(text, Remapping(oldToNew));
    assert forall id :: id in Cites(Scan(text)) ==> id in oldToNew;
    ExpectedIsRenumbered(Scan(text), oldToNew);
  }

  // ----- lines

  /** What a line of each kind begins with in the report. */
  function Sign(level: Level): string {
    match level
    case Item => "- "
    case H1 => "# "
    case H2 => "## "
    case H3 => "### "
    case P => ""
  }

  /** A text line as it stands in the report. */
  function Written(l: Line): string
    requires HasText(l)
  {
    match l
    case Bullet(text) => "- " + text
    case Heading1(text) => "# " + text
    case Heading2(text) => "## " + text
    case Heading3(text) => "### " + text
    case Paragraph(text) => text
  }

  /** An element as a reader would write it down. */
  function ReadBack(e: Ready): string
    requires e.Text?
  {
    Sign(e.level) + Unescape(Flatten(e.inline))
  }

  lemma {:induction false} LitsAreRenumbered(prefix: string, source: seq<Token>, shown: seq<Token>, oldToNew: map<string, nat>)
    requires Renumbered(source, shown, oldToNew)
    ensures Renumbered(Lits(prefix) + source, Lits(prefix) + shown, oldToNew)
  {
    if prefix == "" {
      assert [] + source == source && [] + shown == shown;
    } else {
      LitsAreRenumbered(prefix[1..], source, shown, oldToNew);
      assert Lits(prefix) + source == [Lit(prefix[0])] + (Lits(prefix[1..]) + source);
      assert Lits(prefix) + shown == [Lit(prefix[0])] + (Lits(prefix[1..]) + shown);
    }
  }

  /** What is shown for one line. */
  ghost predicate Shows(e: Ready, l: Line, oldToNew: map<string, nat>)
    requires HasText(l)
  {
    e.Text? && Safe(Flatten(e.inline)) && Renumbered(Scan(Written(l)), Scan(ReadBack(e)), oldToNew)
  }

  /** Escaped, scanned, read back: nothing happened to the text. */
  lemma InlineReadsBack(text: string)
    ensures Safe(Flatten(Inline(text))) && Unescape(Flatten(Inline(text))) == text
  {
    ScanReads(HtmlEscape(text));
    EscapingIsInverted(text);
    EscapedIsSafe(text);
  }

  lemma SignStays(sign: string, text: string, oldToNew: map<string, nat>)
    requires '[' !in sign && RemapCitations(text, oldToNew).Ok?
    ensures Renumbered(Scan(sign + text), Scan(sign + RemapCitations(text, oldToNew).value), oldToNew)
  {
    var t := RemapCitations(text, oldToNew).value;
    RemappedText(text, oldToNew);
    LitsScan(sign, text);
    LitsScan(sign, t);
    LitsAreRenumbered(sign, Scan(text), Scan(t), oldToNew);
  }

  lemma ProseIsShown(level: Level, text: string, l: Line, oldToNew: map<string, nat>)
    requires HasText(l) && Written(l) == Sign(level) + text && '[' !in Sign(level)
    requires Prepare(l, oldToNew) == Prose(level, text, oldToNew) && Prose(level, text, oldToNew).Text?
    ensures Shows(Prepare(l, oldToNew), l, oldToNew)
  {
    InlineReadsBack(RemapCitations(text, oldToNew).value);
    SignStays(Sign(level), text, oldToNew);
  }

  lemma LineIsShown(l: Line, oldToNew: map<string, nat>)
    requires HasText(l) && Prepare(l, oldToNew).Text?
    ensures Shows(Prepare(l, oldToNew), l, oldToNew)
  {
    match l
    case Bullet(text) => ProseIsShown(Item, text, l, oldToNew);
    case Heading1(text) => ProseIsShown(H1, text, l, oldToNew);
    case Heading2(text) => ProseIsShown(H2, text, l, oldToNew);
    case Heading3(text) => ProseIsShown(H3, text, l, oldToNew);
    case Paragraph(text) =>
      assert "" + text == text;
      ProseIsShown(P, text, l, oldToNew);
  }

  /** The page spells the report: element by element it reads as the report's visible lines do, with
      the citations renumbered, and nothing in it can be taken for markup. */
  lemma PageSpellsTheReport(lines: seq<Line>, i: nat)
    requires SiteHtml.Page(lines).Rendered? && i < |VisibleLines(lines)|
    ensures HasText(VisibleLines(lines)[i]) && |Contents(SiteHtml.Page(lines).value)| == |VisibleLines(lines)|
    ensures Shows(Contents(SiteHtml.Page(lines).value)[i], VisibleLines(lines)[i], Read(lines).oldToNew)
  {
    RenderedExactlyWhenCited(lines);
    VisibleLinesHaveText(lines);
    assert VisibleLines(lines)[i] in VisibleLines(lines);
    LinkableLine(lines, i);
    LineIsShown(VisibleLines(lines)[i], Read(lines).oldToNew);
  }

  lemma LinkableLine(lines: seq<Line>, i: nat)
    requires SiteHtml.Page(lines).Rendered? && i < |VisibleLines(lines)| && HasText(VisibleLines(lines)[i])
    ensures Prepare(VisibleLines(lines)[i], Read(lines).oldToNew).Text?
  {
    RenderedExactlyWhenCited(lines);
    var l := VisibleLines(lines)[i];
    assert l in VisibleLines(lines);
    forall id | id in Cites(Scan(l.text))
      ensures id in Read(lines).oldToNew
    {
      BookFollowsLastDefinition(lines, id);
    }
    PreparedResolves(l, Read(lines).oldToNew);
  }
}
