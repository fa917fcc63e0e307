/** The report renderer: lines are made ready with the renumbered footnotes and run through the
    loop; the links of the resulting page lead where the report's citations pointed. */
module SiteHtml {
  import opened Markers
  import opened Numerals
  import opened SiteReport
  import opened SiteLoop

  function Prose(level: Level, text: string, oldToNew: map<string, nat>): Ready {
    match RemapCitations(text, oldToNew)
    case Ok(remapped) => Text(level, Inline(remapped))
    case Err(error) => Broken(error)
  }

  function Prepare(l: Line, oldToNew: map<string, nat>): Ready {
    match l
    case ReferenceHeading => EndOfBody
    case Definition(_, _, _) => Ignored
    case DataAsOf => Ignored
    case Blank => Gap
    case Heading3(text) => Prose(H3, text, oldToNew)
    case Heading2(text) => Prose(H2, text, oldToNew)
    case Heading1(text) => Prose(H1, text, oldToNew)
    case Bullet(text) => Prose(Item, text, oldToNew)
    case Paragraph(text) => Prose(P, text, oldToNew)
  }

  function PrepareAll(lines: seq<Line>, oldToNew: map<string, nat>): (ready: seq<Ready>)
    ensures |ready| == |lines|
    ensures forall i :: 0 <= i < |lines| ==> ready[i] == Prepare(lines[i], oldToNew)
  {
    seq(|lines|, i requires 0 <= i < |lines| => Prepare(lines[i], oldToNew))
  }

  /** The whole page as a function of the report. */
  function Page(lines: seq<Line>): SiteLoop.Page<seq<Tag>> {
    match DefinitionError(lines)
    case Some(error) => Refused(error)
    case None =>
      var b := Read(lines);
      match Steps(PrepareAll(lines, b.oldToNew))
      case Refused(error) => Refused(error)
      case Rendered(s) => Rendered(Finish(s, b.references))
  }

  /** The report's own visible lines: text before the reference heading. */
  function VisibleLines(lines: seq<Line>): seq<Line> {
    if lines == [] then []
    else
      var k := |lines| - 1;
      VisibleLines(lines[..k]) + (if HasText(lines[k]) && !BodyEnded(lines[..k]) then [lines[k]] else [])
  }

  predicate HasText(l: Line) {
    l.Heading3? || l.Heading2? || l.Heading1? || l.Bullet? || l.Paragraph?
  }

  predicate BodyEnded(lines: seq<Line>) {
    exists i :: 0 <= i < |lines| && lines[i].ReferenceHeading?
  }

  lemma PreparedNext(lines: seq<Line>, l: Line, oldToNew: map<string, nat>)
    ensures PrepareAll(lines + [l], oldToNew) == PrepareAll(lines, oldToNew) + [Prepare(l, oldToNew)]
  {
  }

  lemma PreparedText(l: Line, oldToNew: map<string, nat>)
    ensures HasText(l) <==> Prepare(l, oldToNew).Text? || Prepare(l, oldToNew).Broken?
  {
  }

  lemma {:induction false} VisibleIsPrepared(lines: seq<Line>, oldToNew: map<string, nat>)
    ensures Visible(PrepareAll(lines, oldToNew)) == PrepareAll(VisibleLines(lines), oldToNew)
  {
    if lines == [] {
    } else {
      var k := |lines| - 1;
      var ready := PrepareAll(lines, oldToNew);
      assert ready[..k] == PrepareAll(lines[..k], oldToNew);
      VisibleIsPrepared(lines[..k], oldToNew);
      EndIsPrepared(lines[..k], oldToNew);
      PreparedText(lines[k], oldToNew);
      PreparedNext(VisibleLines(lines[..k]), lines[k], oldToNew);
      assert VisibleLines(lines[..k]) + [] == VisibleLines(lines[..k]);
    }
  }

  lemma EndIsPrepared(lines: seq<Line>, oldToNew: map<string, nat>)
    ensures Ended(PrepareAll(lines, oldToNew)) <==> BodyEnded(lines)
  {
    var ready := PrepareAll(lines, oldToNew);
    forall i | 0 <= i < |lines|
      ensures ready[i].EndOfBody? <==> lines[i].ReferenceHeading?
    {
    }
  }

  lemma {:induction false} VisibleLinesHaveText(lines: seq<Line>)
    ensures forall l :: l in VisibleLines(lines) ==> HasText(l)
  {
    if lines == [] {
    } else {
      VisibleLinesHaveText(lines[..|lines| - 1]);
    }
  }

  /** Every citation in a visible line has a definition somewhere in the report. */
  ghost predicate AllCited(lines: seq<Line>) {
    forall l, id :: l in VisibleLines(lines) && HasText(l) && id in Cites(Scan(l.text)) ==> Defines(lines, id)
  }

  lemma ProseResolves(level: Level, text: string, oldToNew: map<string, nat>)
    ensures Prose(level, text, oldToNew).Text? <==> forall id :: id in Cites(Scan(text)) ==> id in oldToNew
  {
    var ids := Cites(Scan(text));
    assert AllIn(ids, oldToNew) <==> forall id :: id in ids ==> id in oldToNew;
  }

  lemma PreparedResolves(l: Line, oldToNew: map<string, nat>)
    requires HasText(l)
    ensures Prepare(l, oldToNew).Text? <==> forall id :: id in Cites(Scan(l.text)) ==> id in oldToNew
  {
    ProseResolves(H1, l.text, oldToNew);
  }

  /** A report is rendered exactly when it has a definition, every definition has a URL and every
      visible citation is defined; the page then shows every visible line once, in order, outside or inside a list
      as its kind demands, and ends with the anchors. */
  lemma RenderedExactlyWhenCited(lines: seq<Line>)
    ensures Page(lines).Rendered? <==> HasDefinition(lines) && AllHaveUrls(lines) && AllCited(lines)
    ensures Page(lines).Rendered? ==>
              && Contents(Page(lines).value) == PrepareAll(VisibleLines(lines), Read(lines).oldToNew)
              && Depth(Page(lines).value) == 0
  {
    if DefinitionError(lines).None? {
      RenderedWithDefinitions(lines);
    }
  }

  lemma RenderedWithDefinitions(lines: seq<Line>)
    requires DefinitionError(lines).None?
    ensures Page(lines).Rendered? <==> AllCited(lines)
    ensures Page(lines).Rendered? ==>
              && Contents(Page(lines).value) == PrepareAll(VisibleLines(lines), Read(lines).oldToNew)
              && Depth(Page(lines).value) == 0
  {
    var b := Read(lines);
    var ready := PrepareAll(lines, b.oldToNew);
    var shown := VisibleLines(lines);
    PageShowsVisibleLines(ready);
    VisibleIsPrepared(lines, b.oldToNew);
    VisibleLinesHaveText(lines);
    forall l | l in shown
      ensures Prepare(l, b.oldToNew).Text? <==> forall id :: id in Cites(Scan(l.text)) ==> Defines(lines, id)
    {
      PreparedResolves(l, b.oldToNew);
      forall id | id in Cites(Scan(l.text))
        ensures id in b.oldToNew <==> Defines(lines, id)
      {
        BookFollowsLastDefinition(lines, id);
      }
    }
    TextExactlyWhenPrepared(shown, b.oldToNew);
    if Steps(ready).Rendered? {
      FinishedContents(Steps(ready).value, b.references);
      PagesAreBalanced(ready, b.references);
    }
  }

  lemma TextExactlyWhenPrepared(shown: seq<Line>, oldToNew: map<string, nat>)
    ensures (forall r :: r in PrepareAll(shown, oldToNew) ==> r.Text?) <==> forall l :: l in shown ==> Prepare(l, oldToNew).Text?
  {
    var ready := PrepareAll(shown, oldToNew);
    forall l | l in shown
      ensures Prepare(l, oldToNew) in ready
    {
      var i :| 0 <= i < |shown| && shown[i] == l;
      assert ready[i] == Prepare(l, oldToNew);
    }
  }

  /** The anchors stand at the end of a page and nowhere else. */
  lemma PageEndsWithAnchors(lines: seq<Line>)
    requires Page(lines).Rendered?
    ensures var page := Page(lines).value;
            && page != [] && page[|page| - 1] == References(Read(lines).references)
            && forall i :: 0 <= i < |page| - 1 ==> !page[i].References?
  {
    NoAnchorsInside(PrepareAll(lines, Read(lines).oldToNew));
  }

  lemma {:induction false} NoAnchorsInside(ready: seq<Ready>)
    requires Steps(ready).Rendered?
    ensures forall t :: t in Steps(ready).value.body ==> !t.References?
  {
    if ready == [] {
    } else {
      NoAnchorsInside(ready[..|ready| - 1]);
    }
  }

  /** Every link of a page leads to an anchor of that page, and the anchor carries the URL the
      cited identifier was last defined with: citation `c` of visible line `i` is link `c` of
      element `i`. */
  lemma LinksLeadToTheirSources(lines: seq<Line>, i: nat, c: nat)
    requires AllHaveUrls(lines) && AllCited(lines)
    requires i < |VisibleLines(lines)| && HasText(VisibleLines(lines)[i])
    requires c < |Cites(Scan(VisibleLines(lines)[i].text))|
    ensures Page(lines).Rendered? && i < |Contents(Page(lines).value)| && Contents(Page(lines).value)[i].Text?
    ensures var ids := Cites(Scan(VisibleLines(lines)[i].text));
            var links := Cites(Contents(Page(lines).value)[i].inline);
            && |links| == |ids|
            && ids[c] in Read(lines).oldToNew
            && links[c] == Decimal(Read(lines).oldToNew[ids[c]])
            && LeadsTo(Read(lines), Read(lines).oldToNew[ids[c]], UrlOf(lines, ids[c]))
  {
    var b, l := Read(lines), VisibleLines(lines)[i];
    var ids := Cites(Scan(l.text));
    assert l in VisibleLines(lines) && ids[c] in ids;
    assert Defines(lines, ids[c]);
    assert HasDefinition(lines);
    RenderedExactlyWhenCited(lines);
    forall id | id in ids
      ensures id in b.oldToNew
    {
      BookFollowsLastDefinition(lines, id);
    }
    PreparedResolves(l, b.oldToNew);
    LinkOf(l, b.oldToNew, c);
    NewNumberKeepsUrl(lines, ids[c]);
  }

  /** Two links of a page are equal exactly when their citations mean the same source. */
  lemma EqualLinksExactly(lines: seq<Line>, i: nat, c: nat, j: nat, d: nat)
    requires AllHaveUrls(lines) && AllCited(lines)
    requires i < |VisibleLines(lines)| && HasText(VisibleLines(lines)[i]) && c < |Cites(Scan(VisibleLines(lines)[i].text))|
    requires j < |VisibleLines(lines)| && HasText(VisibleLines(lines)[j]) && d < |Cites(Scan(VisibleLines(lines)[j].text))|
    ensures Page(lines).Rendered?
    ensures var shown, seen := Contents(Page(lines).value), VisibleLines(lines);
            && i < |shown| && shown[i].Text? && c < |Cites(shown[i].inline)|
            && j < |shown| && shown[j].Text? && d < |Cites(shown[j].inline)|
            && (Cites(shown[i].inline)[c] == Cites(shown[j].inline)[d] <==>
                  UrlOf(lines, Cites(Scan(seen[i].text))[c]) == UrlOf(lines, Cites(Scan(seen[j].text))[d]))
  {
    LinksLeadToTheirSources(lines, i, c);
    LinksLeadToTheirSources(lines, j, d);
    var x, y := Cites(Scan(VisibleLines(lines)[i].text))[c], Cites(Scan(VisibleLines(lines)[j].text))[d];
    SameNumberText(lines, x, y);
  }

  lemma SameNumberText(lines: seq<Line>, x: string, y: string)
    requires AllHaveUrls(lines) && x in Read(lines).oldToNew && y in Read(lines).oldToNew
    ensures Decimal(Read(lines).oldToNew[x]) == Decimal(Read(lines).oldToNew[y]) <==> UrlOf(lines, x) == UrlOf(lines, y)
  {
    BookFollowsLastDefinition(lines, x);
    BookFollowsLastDefinition(lines, y);
    SharedNumberExactlyForSameUrl(lines, x, y);
    if Decimal(Read(lines).oldToNew[x]) == Decimal(Read(lines).oldToNew[y]) {
      DecimalsDiffer(Read(lines).oldToNew[x], Read(lines).oldToNew[y]);
    }
  }

  lemma LinkOf(l: Line, oldToNew: map<string, nat>, c: nat)
    requires HasText(l) && Prepare(l, oldToNew).Text? && c < |Cites(Scan(l.text))|
    requires Cites(Scan(l.text))[c] in oldToNew
    ensures var links := Cites(Prepare(l, oldToNew).inline);
            |links| == |Cites(Scan(l.text))| && links[c] == Decimal(oldToNew[Cites(Scan(l.text))[c]])
  {
    LinksAreRenumberedCitations(l.text, oldToNew);
    MapIdsAt(Cites(Scan(l.text)), Remapping(oldToNew), c);
  }
}
