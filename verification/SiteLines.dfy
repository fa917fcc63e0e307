/** From the stripped lines of a report to the kinds the renderer treats them as, and what the
    page says about the lines themselves. */
module SiteLines {
  import opened Collections
  import opened Markers
  import opened Numerals
  import opened SiteReport
  import opened SiteLoop
  import opened SiteHtml
  import opened SiteText

  /** The searches inside a line that are given: the date of the data, and the URL and the title
      in the description of a reference. */
  datatype Reader = Reader(isDate: string -> bool, url: string -> Option<Url>, title: string -> string)

  const REFERENCES := "## 参考来源"

  /** A marker and a colon: a definition, for the book and for the body alike. */
  predicate DefinitionAt(line: string) {
    MarkerAt(line) && var n := DigitRun(line[2..]); 3 + n < |line| && line[3 + n] == ':'
  }

  function Classify(line: string, r: Reader): Line {
    if Starts(line, REFERENCES) then ReferenceHeading
    else if DefinitionAt(line) then
      var n := DigitRun(line[2..]);
      Definition(line[2..2 + n], r.url(line[4 + n..]), r.title(line[4 + n..]))
    else if r.isDate(line) then DataAsOf
    else if line == "" then Blank
    else if Starts(line, "### ") then Heading3(line[4..])
    else if Starts(line, "## ") then Heading2(line[3..])
    else if Starts(line, "# ") then Heading1(line[2..])
    else if Starts(line, "- ") then Bullet(line[2..])
    else Paragraph(line)
  }

  function ClassifyAll(lines: seq<string>, r: Reader): (ls: seq<Line>)
    ensures |ls| == |lines| && forall i :: 0 <= i < |lines| ==> ls[i] == Classify(lines[i], r)
  {
    seq(|lines|, i requires 0 <= i < |lines| => Classify(lines[i], r))
  }

  /** The level whose sign the line begins with, the longest such sign. */
  ghost predicate AsksFor(line: string, level: Level) {
    && Starts(line, Sign(level))
    && forall other :: Starts(line, Sign(other)) ==> |Sign(other)| <= |Sign(level)|
  }

  ghost predicate IsText(line: string, r: Reader) {
    line != "" && !Starts(line, "## 参考来源") && !SpellsDefinition(line) && !r.isDate(line)
  }

  /** A numeric marker, a colon and anything. */
  ghost predicate SpellsDefinition(line: string) {
    exists id, rest :: AllDigits(id) && id != "" && line == Marker(id) + ":" + rest
  }

  lemma DefinitionSplits(line: string, id: string, rest: string)
    requires AllDigits(id) && id != "" && line == Marker(id) + ":" + rest
    ensures DefinitionAt(line) && line[2..2 + DigitRun(line[2..])] == id && line[4 + DigitRun(line[2..])..] == rest
  {
    assert line[2..] == id + "]" + (":" + rest) && line[1..][1..] == line[2..];
    DigitRunOf(id, ":" + rest);
    assert line[2..2 + |id|] == id;
  }

  lemma DefinitionExactly(line: string)
    ensures DefinitionAt(line) <==> SpellsDefinition(line)
  {
    if DefinitionAt(line) {
      var n := DigitRun(line[2..]);
      assert line[2..][..n] == line[2..2 + n];
      assert line == Marker(line[2..2 + n]) + ":" + line[4 + n..];
    } else if SpellsDefinition(line) {
      var id, rest :| AllDigits(id) && id != "" && line == Marker(id) + ":" + rest;
      DefinitionSplits(line, id, rest);
    }
  }

  /** No definition hides behind another kind of line, and text keeps its sign. */
  lemma ClassifiedLine(line: string, r: Reader)
    ensures HasText(Classify(line, r)) <==> IsText(line, r)
    ensures Classify(line, r).Definition? <==> SpellsDefinition(line)
    ensures forall id, rest :: AllDigits(id) && id != "" && line == Marker(id) + ":" + rest ==>
              Classify(line, r) == Definition(id, r.url(rest), r.title(rest))
    ensures HasText(Classify(line, r)) ==> Written(Classify(line, r)) == line
  {
    DefinitionExactly(line);
    if Starts(line, REFERENCES) {
      assert line[0] == REFERENCES[0];
    }
    forall id, rest | AllDigits(id) && id != "" && line == Marker(id) + ":" + rest
      ensures Classify(line, r) == Definition(id, r.url(rest), r.title(rest))
    {
      DefinitionSplits(line, id, rest);
    }
    SignSplits(line, "### ");
    SignSplits(line, "## ");
    SignSplits(line, "# ");
    SignSplits(line, "- ");
  }

  lemma SignSplits(line: string, sign: string)
    ensures Starts(line, sign) ==> line == sign + line[|sign|..]
  {
  }

  /** The lines a reader of the report sees as its text, before the reference heading. */
  ghost function TextLines(lines: seq<string>, r: Reader): seq<string> {
    if lines == [] then []
    else
      var k := |lines| - 1;
      TextLines(lines[..k], r) + (if IsText(lines[k], r) && !Closed(lines[..k]) then [lines[k]] else [])
  }

  predicate Closed(lines: seq<string>) {
    exists i :: 0 <= i < |lines| && Starts(lines[i], "## 参考来源")
  }

  lemma ClosedExactly(lines: seq<string>, r: Reader)
    ensures BodyEnded(ClassifyAll(lines, r)) <==> Closed(lines)
  {
    forall i | 0 <= i < |lines|
      ensures ClassifyAll(lines, r)[i].ReferenceHeading? <==> Starts(lines[i], "## 参考来源")
    {
    }
  }

  lemma {:induction false} TextLinesAreVisible(lines: seq<string>, r: Reader)
    ensures VisibleLines(ClassifyAll(lines, r)) == ClassifyAll(TextLines(lines, r), r)
  {
    if lines == [] {
    } else {
      var k := |lines| - 1;
      TextLinesAreVisible(lines[..k], r);
      ClosedExactly(lines[..k], r);
      ClassifiedLine(lines[k], r);
      assert ClassifyAll(lines, r)[..k] == ClassifyAll(lines[..k], r);
    }
  }

  lemma {:induction false} TextLinesAreText(lines: seq<string>, r: Reader)
    ensures forall l :: l in TextLines(lines, r) ==> IsText(l, r)
  {
    if lines == [] {
    } else {
      TextLinesAreText(lines[..|lines| - 1], r);
    }
  }

  lemma PreparedSign(l: Line, oldToNew: map<string, nat>)
    requires HasText(l) && Prepare(l, oldToNew).Text?
    ensures Written(l) == Sign(Prepare(l, oldToNew).level) + l.text
    ensures Prepare(l, oldToNew).level.P? <==> l.Paragraph?
  {
  }

  /** Signs that begin the same line are told apart by their length. */
  lemma OneSign(line: string, level: Level, other: Level)
    requires Starts(line, Sign(level)) && Starts(line, Sign(other)) && level != P && other != P
    ensures level == other
  {
    assert line[0] == Sign(level)[0] == Sign(other)[0];
    assert line[|Sign(level)| - 1] == ' ' && line[|Sign(other)| - 1] == ' ';
    assert |Sign(level)| == |Sign(other)|;
  }

  lemma LongestSign(line: string, r: Reader, oldToNew: map<string, nat>)
    requires IsText(line, r) && Prepare(Classify(line, r), oldToNew).Text?
    ensures AsksFor(line, Prepare(Classify(line, r), oldToNew).level)
  {
    ClassifiedLine(line, r);
    PreparedSign(Classify(line, r), oldToNew);
    var level := Prepare(Classify(line, r), oldToNew).level;
    forall other | Starts(line, Sign(other))
      ensures |Sign(other)| <= |Sign(level)|
    {
      if level == P {
        ParagraphsHaveNoSign(line, r, other);
      } else if other != P {
        OneSign(line, level, other);
      }
    }
  }

  lemma ParagraphsHaveNoSign(line: string, r: Reader, level: Level)
    requires Classify(line, r).Paragraph?
    ensures Starts(line, Sign(level)) ==> level == P
  {
  }

  /** The `i`th element of a page is the `i`th text line of the report: read back it is that line
      with its citations renumbered, and its level is what the longest sign of the line asks for. */
  lemma PageReadsAsTheReport(lines: seq<string>, r: Reader, i: nat)
    requires SiteHtml.Page(ClassifyAll(lines, r)).Rendered? && i < |TextLines(lines, r)|
    ensures var shown := Contents(SiteHtml.Page(ClassifyAll(lines, r)).value);
            |shown| == |TextLines(lines, r)| && ShownAs(shown[i], TextLines(lines, r)[i], Read(ClassifyAll(lines, r)).oldToNew)
  {
    TextLinesAreVisible(lines, r);
    TextLinesAreText(lines, r);
    assert TextLines(lines, r)[i] in TextLines(lines, r);
    ClassifiedLine(TextLines(lines, r)[i], r);
    PageSpellsTheReport(ClassifyAll(lines, r), i);
    RenderedExactlyWhenCited(ClassifyAll(lines, r));
    LongestSign(TextLines(lines, r)[i], r, Read(ClassifyAll(lines, r)).oldToNew);
  }

  // ----- the renderer

  /** What a reader is shown for a text line: its level is what the line's longest sign asks for, read
      back it is the line with its citations renumbered, and nothing in it is taken for markup. */
  ghost predicate ShownAs(e: Ready, line: string, oldToNew: map<string, nat>) {
    && e.Text? && AsksFor(line, e.level)
    && Safe(Flatten(e.inline)) && Renumbered(Scan(line), Scan(ReadBack(e)), oldToNew)
  }

  /** Every text line is shown, in order. */
  ghost predicate AllShown(shown: seq<Ready>, lines: seq<string>, oldToNew: map<string, nat>) {
    |shown| == |lines| && forall i :: 0 <= i < |lines| ==> ShownAs(shown[i], lines[i], oldToNew)
  }

  lemma EveryLineIsShown(lines: seq<string>, r: Reader)
    requires SiteHtml.Page(ClassifyAll(lines, r)).Rendered?
    ensures AllShown(Contents(SiteHtml.Page(ClassifyAll(lines, r)).value), TextLines(lines, r), Read(ClassifyAll(lines, r)).oldToNew)
  {
    RenderedExactlyWhenCited(ClassifyAll(lines, r));
    TextLinesAreVisible(lines, r);
    forall i | 0 <= i < |TextLines(lines, r)|
      ensures ShownAs(Contents(SiteHtml.Page(ClassifyAll(lines, r)).value)[i], TextLines(lines, r)[i], Read(ClassifyAll(lines, r)).oldToNew)
    {
      PageReadsAsTheReport(lines, r, i);
    }
  }

  /** The renderer: each line is classified and made ready as the loop comes to it. */
  method MarkdownToHtml(lines: seq<string>, reader: Reader) returns (r: SiteLoop.Page<seq<Tag>>)
    ensures r == SiteHtml.Page(ClassifyAll(lines, reader))
    ensures r.Rendered? <==>
              && HasDefinition(ClassifyAll(lines, reader)) && AllHaveUrls(ClassifyAll(lines, reader))
              && AllCited(ClassifyAll(lines, reader))
    ensures r.Rendered? ==>
              && AllShown(Contents(r.value), TextLines(lines, reader), Read(ClassifyAll(lines, reader)).oldToNew)
              && Depth(r.value) == 0
              && r.value != [] && r.value[|r.value| - 1] == References(Read(ClassifyAll(lines, reader)).references)
  {
    ghost var classified := ClassifyAll(lines, reader);
    RenderedExactlyWhenCited(classified);
    if SiteHtml.Page(classified).Rendered? {
      EveryLineIsShown(lines, reader);
      PageEndsWithAnchors(classified);
    }
    r := RenderLines(lines, reader);
  }

  method RenderLines(lines: seq<string>, reader: Reader) returns (r: SiteLoop.Page<seq<Tag>>)
    ensures r == SiteHtml.Page(ClassifyAll(lines, reader))
  {
    var prepared := DeduplicatedReferences(ClassifyAll(lines, reader));
    if prepared.Err? {
      return Refused(prepared.error);
    }
    var oldToNew, references := prepared.value.0, prepared.value.1;
    var body: seq<Tag> := [];
    var inList := false;
    var inReferences := false;
    ghost var ready := PrepareAll(ClassifyAll(lines, reader), oldToNew);
    var i := 0;
    while i < |lines|
      invariant i <= |lines|
      invariant Steps(ready[..i]) == Rendered(State(body, inList, inReferences))
    {
      StepsNext(ready, i);
      var line := Prepare(Classify(lines[i], reader), oldToNew);
      i := i + 1;
      if line.EndOfBody? {
        inReferences := true;
        continue;
      }
      if inReferences || line.Ignored? {
        continue;
      }
      if line.Gap? {
        if inList {
          body := body + [CloseList];
          inList := false;
        }
        continue;
      }
      if line.Broken? {
        RefusalSpreads(ready, i);
        return Refused(line.error);
      }
      if line.level.Item? {
        if !inList {
          body := body + [OpenList];
          inList := true;
        }
      } else if !line.level.H1? {
        if inList {
          body := body + [CloseList];
          inList := false;
        }
      }
      body := body + [Element(line.level, line.inline)];
    }
    assert ready[..i] == ready;
    if inList {
      body := body + [CloseList];
    }
    return Rendered(body + [References(references)]);
  }
}
