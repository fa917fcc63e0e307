/** The line loop of the report renderer, once the inline text of each line is known: which
    lines become elements, and when the list of bullets opens and closes. */
module SiteLoop {
  import opened Markers
  import opened SiteReport

  datatype Level = Item | H1 | H2 | H3 | P

  datatype Tag =
    | OpenList
    | CloseList
    | Element(level: Level, inline: seq<Token>)
    | References(references: seq<Reference>)

  /** A line as the loop treats it: the heading that ends the body, a line that is passed over,
      an empty line, or text, whose citations may turn out to be undefined. */
  datatype Ready =
    | EndOfBody
    | Ignored
    | Gap
    | Text(level: Level, inline: seq<Token>)
    | Broken(error: RenderError)

  datatype Page<+T> = Rendered(value: T) | Refused(error: RenderError)

  datatype State = State(body: seq<Tag>, inList: bool, inReferences: bool)

  const EMPTY_PAGE := State([], false, false)

  function Close(s: State): State {
    if s.inList then s.(body := s.body + [CloseList], inList := false) else s
  }

  function Open(s: State): State {
    if s.inList then s else s.(body := s.body + [OpenList], inList := true)
  }

  function Emit(s: State, t: Tag): State {
    s.(body := s.body + [t])
  }

  /** Headings of level two and three and paragraphs close the list, bullets open it, and
      level-one headings leave it as it is. */
  function Place(s: State, level: Level, inline: seq<Token>): State {
    var t := Element(level, inline);
    match level
    case Item => Emit(Open(s), t)
    case H1 => Emit(s, t)
    case _ => Emit(Close(s), t)
  }

  function StepLine(s: State, l: Ready): Page<State> {
    match l
    case EndOfBody => Rendered(s.(inReferences := true))
    case Ignored => Rendered(s)
    case Gap => Rendered(if s.inReferences then s else Close(s))
    case Text(level, inline) => Rendered(if s.inReferences then s else Place(s, level, inline))
    case Broken(error) => if s.inReferences then Rendered(s) else Refused(error)
  }

  function Steps(lines: seq<Ready>): Page<State> {
    if lines == [] then Rendered(EMPTY_PAGE)
    else
      var k := |lines| - 1;
      match Steps(lines[..k])
      case Refused(error) => Refused(error)
      case Rendered(s) => StepLine(s, lines[k])
  }

  function Finish(s: State, references: seq<Reference>): seq<Tag> {
    Close(s).body + [References(references)]
  }

  lemma StepsNext(lines: seq<Ready>, i: nat)
    requires i < |lines| && Steps(lines[..i]).Rendered?
    ensures Steps(lines[..i + 1]) == StepLine(Steps(lines[..i]).value, lines[i])
  {
    assert lines[..i + 1][..i] == lines[..i];
  }

  lemma {:induction false} RefusalSpreads(lines: seq<Ready>, i: nat)
    requires i <= |lines| && Steps(lines[..i]).Refused?
    ensures Steps(lines) == Steps(lines[..i])
  {
    if i == |lines| {
      assert lines[..i] == lines;
    } else {
      var k := |lines| - 1;
      assert lines[..k][..i] == lines[..i];
      RefusalSpreads(lines[..k], i);
    }
  }

  // ----- list discipline

  /** The depth after one more tag, or -1 once a tag stands where it may not: lists do not nest,
      items stand in a list, and everything but a level-one heading stands outside. */
  function Deeper(d: int, t: Tag): int {
    match t
    case OpenList => if d == 0 then 1 else -1
    case CloseList => if d == 1 then 0 else -1
    case Element(Item, _) => if d == 1 then 1 else -1
    case Element(H1, _) => d
    case _ => if d == 0 then 0 else -1
  }

  function Depth(tags: seq<Tag>): int {
    if tags == [] then 0 else Deeper(Depth(tags[..|tags| - 1]), tags[|tags| - 1])
  }

  lemma DepthOfMore(tags: seq<Tag>, t: Tag)
    ensures Depth(tags + [t]) == Deeper(Depth(tags), t)
  {
    assert (tags + [t])[..|tags|] == tags;
  }

  ghost predicate FlagRight(s: State) {
    Depth(s.body) == if s.inList then 1 else 0
  }

  lemma PlacingKeepsFlag(s: State, level: Level, inline: seq<Token>)
    requires FlagRight(s)
    ensures FlagRight(Place(s, level, inline)) && FlagRight(Close(s))
  {
    var t := Element(level, inline);
    DepthOfMore(s.body, CloseList);
    DepthOfMore(s.body, OpenList);
    DepthOfMore(s.body, t);
    DepthOfMore(Close(s).body, t);
    DepthOfMore(Open(s).body, t);
  }

  lemma StepKeepsFlag(s: State, l: Ready)
    requires FlagRight(s) && StepLine(s, l).Rendered?
    ensures FlagRight(StepLine(s, l).value)
  {
    match l {
      case Text(level, inline) => PlacingKeepsFlag(s, level, inline);
      case Gap => PlacingKeepsFlag(s, P, []);
      case _ =>
    }
  }

  /** Across every kind of line, passed over or not, the flag is the depth of the list. */
  lemma {:induction false} FlagIsDepth(lines: seq<Ready>)
    requires Steps(lines).Rendered?
    ensures FlagRight(Steps(lines).value)
  {
    if lines == [] {
    } else {
      var k := |lines| - 1;
      FlagIsDepth(lines[..k]);
      StepKeepsFlag(Steps(lines[..k]).value, lines[k]);
    }
  }

  /** Every page is balanced: it ends outside any list, and no tag stood where it may not, the
      reference block included. */
  lemma PagesAreBalanced(lines: seq<Ready>, references: seq<Reference>)
    requires Steps(lines).Rendered?
    ensures Depth(Finish(Steps(lines).value, references)) == 0
  {
    FlagIsDepth(lines);
    var s := Steps(lines).value;
    DepthOfMore(s.body, CloseList);
    DepthOfMore(Close(s).body, References(references));
  }

  /** What a non-negative depth says about each tag of a page. */
  lemma {:induction false} WellPlaced(tags: seq<Tag>, i: nat)
    requires Depth(tags) >= 0 && i < |tags|
    ensures 0 <= Depth(tags[..i]) <= 1
    ensures tags[i].OpenList? || tags[i].References? ==> Depth(tags[..i]) == 0
    ensures tags[i].CloseList? ==> Depth(tags[..i]) == 1
    ensures tags[i].Element? ==>
              && (tags[i].level.Item? ==> Depth(tags[..i]) == 1)
              && (!tags[i].level.Item? && !tags[i].level.H1? ==> Depth(tags[..i]) == 0)
  {
    var k := |tags| - 1;
    DepthIsSmall(tags[..k]);
    if i < k {
      WellPlaced(tags[..k], i);
      assert tags[..k][..i] == tags[..i];
    }
  }

  lemma {:induction false} DepthIsSmall(tags: seq<Tag>)
    ensures -1 <= Depth(tags) <= 1
  {
    if tags == [] {
    } else {
      DepthIsSmall(tags[..|tags| - 1]);
    }
  }

  /** A level-one heading alone leaves the list open: after a bullet it stands inside it. */
  lemma HeadingOneStaysInList(lines: seq<Ready>, inline: seq<Token>)
    requires Steps(lines).Rendered? && Steps(lines).value.inList && !Steps(lines).value.inReferences
    ensures var page := Steps(lines + [Text(H1, inline)]);
            && page.Rendered? && page.value.inList
            && page.value.body == Steps(lines).value.body + [Element(H1, inline)]
            && Depth(page.value.body) == Depth(Steps(lines).value.body) == 1
  {
    assert (lines + [Text(H1, inline)])[..|lines|] == lines;
    FlagIsDepth(lines);
    FlagIsDepth(lines + [Text(H1, inline)]);
  }

  // ----- content

  /** The text lines before the end of the body. */
  function Visible(lines: seq<Ready>): seq<Ready> {
    if lines == [] then []
    else
      var k := |lines| - 1;
      Visible(lines[..k]) + (if !Ended(lines[..k]) && (lines[k].Text? || lines[k].Broken?) then [lines[k]] else [])
  }

  predicate Ended(lines: seq<Ready>) {
    exists i :: 0 <= i < |lines| && lines[i].EndOfBody?
  }

  /** The elements of a page, without the list tags. */
  function Contents(tags: seq<Tag>): seq<Ready> {
    if tags == [] then []
    else
      var t := tags[|tags| - 1];
      Contents(tags[..|tags| - 1]) + (if t.Element? then [Text(t.level, t.inline)] else [])
  }

  lemma ContentsOfMore(tags: seq<Tag>, t: Tag)
    ensures Contents(tags + [t]) == Contents(tags) + (if t.Element? then [Text(t.level, t.inline)] else [])
  {
    assert (tags + [t])[..|tags|] == tags;
  }

  lemma ListTagsAreNoContent(s: State)
    ensures Contents(Close(s).body) == Contents(s.body) && Contents(Open(s).body) == Contents(s.body)
  {
    ContentsOfMore(s.body, CloseList);
    ContentsOfMore(s.body, OpenList);
  }

  lemma PlacedContents(s: State, level: Level, inline: seq<Token>)
    ensures Contents(Place(s, level, inline).body) == Contents(s.body) + [Text(level, inline)]
  {
    var t := Element(level, inline);
    ListTagsAreNoContent(s);
    ContentsOfMore(s.body, t);
    ContentsOfMore(Close(s).body, t);
    ContentsOfMore(Open(s).body, t);
  }

  lemma EndedNext(lines: seq<Ready>)
    requires lines != []
    ensures Ended(lines) <==> Ended(lines[..|lines| - 1]) || lines[|lines| - 1].EndOfBody?
  {
    assert forall i :: 0 <= i < |lines| - 1 ==> lines[..|lines| - 1][i] == lines[i];
  }

  predicate IsShown(s: State, l: Ready) {
    !s.inReferences && (l.Text? || l.Broken?)
  }

  /** What one more line adds to the contents. */
  ghost predicate Adds(s: State, l: Ready, page: Page<State>) {
    && (page.Refused? <==> IsShown(s, l) && l.Broken?)
    && (page.Rendered? ==>
          && page.value.inReferences == (s.inReferences || l.EndOfBody?)
          && (IsShown(s, l) ==> Contents(page.value.body) == Contents(s.body) + [l])
          && (!IsShown(s, l) ==> Contents(page.value.body) == Contents(s.body)))
  }

  lemma TextAdds(s: State, l: Ready)
    requires l.Text? && !s.inReferences
    ensures Adds(s, l, StepLine(s, l))
  {
    PlacedContents(s, l.level, l.inline);
  }

  lemma GapAdds(s: State, l: Ready)
    requires l.Gap?
    ensures Adds(s, l, StepLine(s, l))
  {
    ListTagsAreNoContent(s);
  }

  lemma OtherAdds(s: State, l: Ready)
    requires !l.Gap? && (l.Text? ==> s.inReferences)
    ensures Adds(s, l, StepLine(s, l))
  {
  }

  lemma StepShows(s: State, l: Ready)
    ensures Adds(s, l, StepLine(s, l))
  {
    if l.Gap? {
      GapAdds(s, l);
    } else if l.Text? && !s.inReferences {
      TextAdds(s, l);
    } else {
      OtherAdds(s, l);
    }
  }

  /** Rendering succeeds exactly when no visible line is broken, and then the page holds one
      element for every visible line, in order, and nothing else. */
  lemma {:induction false} PageShowsVisibleLines(lines: seq<Ready>)
    ensures Steps(lines).Rendered? <==> forall l :: l in Visible(lines) ==> l.Text?
    ensures Steps(lines).Rendered? ==>
              Contents(Steps(lines).value.body) == Visible(lines) && Steps(lines).value.inReferences == Ended(lines)
  {
    if lines == [] {
    } else {
      var k := |lines| - 1;
      PageShowsVisibleLines(lines[..k]);
      EndedNext(lines);
      VisibleMembers(lines);
      if Steps(lines[..k]).Rendered? {
        StepShows(Steps(lines[..k]).value, lines[k]);
      }
    }
  }

  lemma VisibleMembers(lines: seq<Ready>)
    requires lines != []
    ensures var k := |lines| - 1;
            var shown := !Ended(lines[..k]) && (lines[k].Text? || lines[k].Broken?);
            && Visible(lines) == Visible(lines[..k]) + (if shown then [lines[k]] else [])
            && forall l :: l in Visible(lines) <==> l in Visible(lines[..k]) || (shown && l == lines[k])
  {
  }

  /** The closing list tag and the reference block add no element. */
  lemma FinishedContents(s: State, references: seq<Reference>)
    ensures Contents(Finish(s, references)) == Contents(s.body)
  {
    ListTagsAreNoContent(s);
    ContentsOfMore(Close(s).body, References(references));
  }
}
