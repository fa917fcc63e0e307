/** The references of a published report: the book of definitions with repeated sources merged,
    and the renumbering and escaping of a line. */
module SiteReport {
  import opened Collections
  import opened Markers
  import opened Numerals

  datatype Url = Url(text: string)

  /** A report line, classified by the tests the renderer applies to it in turn. */
  datatype Line =
    | ReferenceHeading
    | Definition(id: string, url: Option<Url>, title: string)
    | DataAsOf
    | Blank
    | Heading3(text: string)
    | Heading2(text: string)
    | Heading1(text: string)
    | Bullet(text: string)
    | Paragraph(text: string)

  datatype Reference = Reference(id: nat, url: Url, title: string)

  datatype RenderError =
    | NoUrl(id: string)
    | NoReferences
    | UndefinedCitation(id: string)

  datatype Result<+T> = Ok(value: T) | Err(error: RenderError)

  // ----- deduplicated references

  /** The two dictionaries and the list built while reading the definitions. */
  datatype Book = Book(oldToNew: map<string, nat>, urlToNew: map<Url, nat>, references: seq<Reference>)

  const EMPTY_BOOK := Book(map[], map[], [])

  function Enter(b: Book, id: string, url: Url, title: string): Book {
    if url in b.urlToNew then b.(oldToNew := b.oldToNew[id := b.urlToNew[url]])
    else
      var n := |b.urlToNew| + 1;
      Book(b.oldToNew[id := n], b.urlToNew[url := n], b.references + [Reference(n, url, title)])
  }

  predicate AllHaveUrls(lines: seq<Line>) {
    forall i :: 0 <= i < |lines| && lines[i].Definition? ==> lines[i].url.Some?
  }

  function Read(lines: seq<Line>): Book {
    if lines == [] then EMPTY_BOOK
    else
      var k := |lines| - 1;
      var b := Read(lines[..k]);
      if lines[k].Definition? && lines[k].url.Some? then Enter(b, lines[k].id, lines[k].url.value, lines[k].title) else b
  }

  predicate Defines(lines: seq<Line>, id: string) {
    exists i :: 0 <= i < |lines| && lines[i].Definition? && lines[i].id == id
  }

  /** The URL an identifier stands for: that of its last definition. */
  function UrlOf(lines: seq<Line>, id: string): Option<Url> {
    if lines == [] then None
    else
      var k := |lines| - 1;
      if lines[k].Definition? && lines[k].id == id then lines[k].url else UrlOf(lines[..k], id)
  }

  lemma ReadNext(lines: seq<Line>, i: nat)
    requires i < |lines|
    ensures Read(lines[..i + 1]) ==
            if lines[i].Definition? && lines[i].url.Some? then Enter(Read(lines[..i]), lines[i].id, lines[i].url.value, lines[i].title)
            else Read(lines[..i])
    ensures HasDefinition(lines[..i + 1]) <==> HasDefinition(lines[..i]) || lines[i].Definition?
    ensures AllHaveUrls(lines[..i + 1]) <==> AllHaveUrls(lines[..i]) && (lines[i].Definition? ==> lines[i].url.Some?)
  {
    var now := lines[..i + 1];
    assert now[..i] == lines[..i] && now[i] == lines[i];
    assert forall j :: 0 <= j < i ==> now[j] == lines[..i][j];
  }

  predicate HasDefinition(lines: seq<Line>) {
    exists i :: 0 <= i < |lines| && lines[i].Definition?
  }

  /** The first definition without a URL is what a refusal names. */
  ghost predicate LacksUrlAt(lines: seq<Line>, id: string, i: nat) {
    i < |lines| && lines[i].Definition? && lines[i].id == id && lines[i].url.None? && AllHaveUrls(lines[..i])
  }

  function FirstWithoutUrl(lines: seq<Line>): (id: Option<string>)
    ensures id.None? <==> AllHaveUrls(lines)
  {
    if lines == [] then None
    else if lines[0].Definition? && lines[0].url.None? then Some(lines[0].id)
    else
      assert forall i :: 1 <= i < |lines| ==> lines[i] == lines[1..][i - 1];
      FirstWithoutUrl(lines[1..])
  }

  lemma {:induction false} FirstWithoutUrlAt(lines: seq<Line>, i: nat)
    requires i < |lines| && lines[i].Definition? && lines[i].url.None? && AllHaveUrls(lines[..i])
    ensures FirstWithoutUrl(lines) == Some(lines[i].id) && LacksUrlAt(lines, lines[i].id, i)
  {
    if i == 0 {
    } else {
      assert lines[..i][0] == lines[0];
      assert lines[1..][..i - 1] == lines[..i][1..];
      FirstWithoutUrlAt(lines[1..], i - 1);
    }
  }

  /** What is wrong with the definitions of a report, if anything is. */
  function DefinitionError(lines: seq<Line>): Option<RenderError> {
    match FirstWithoutUrl(lines)
    case Some(id) => Some(NoUrl(id))
    case None => if HasDefinition(lines) then None else Some(NoReferences)
  }

  /** One definition: its URL's number, or the next one and a new list item. */
  method EnterReference(oldToNew0: map<string, nat>, urlToNew0: map<Url, nat>, references0: seq<Reference>, id: string, url: Url, title: string)
    returns (oldToNew: map<string, nat>, urlToNew: map<Url, nat>, references: seq<Reference>)
    ensures Book(oldToNew, urlToNew, references) == Enter(Book(oldToNew0, urlToNew0, references0), id, url, title)
    ensures url !in urlToNew0 || references0 != [] ==> references != []
  {
    oldToNew, urlToNew, references := oldToNew0, urlToNew0, references0;
    if url in urlToNew {
      oldToNew := oldToNew[id := urlToNew[url]];
    } else {
      var n := |urlToNew| + 1;
      urlToNew := urlToNew[url := n];
      references := references + [Reference(n, url, title)];
      oldToNew := oldToNew[id := n];
    }
  }

  method DeduplicatedReferences(lines: seq<Line>) returns (r: Result<(map<string, nat>, seq<Reference>)>)
    ensures r.Ok? <==> AllHaveUrls(lines) && HasDefinition(lines)
    ensures r.Ok? ==> r.value == (Read(lines).oldToNew, Read(lines).references)
    ensures r.Err? ==> Some(r.error) == DefinitionError(lines)
    ensures r.Err? && r.error.NoUrl? ==> exists i :: LacksUrlAt(lines, r.error.id, i)
  {
    var oldToNew: map<string, nat> := map[];
    var urlToNew: map<Url, nat> := map[];
    var references: seq<Reference> := [];
    var i := 0;
    while i < |lines|
      invariant i <= |lines|
      invariant AllHaveUrls(lines[..i])
      invariant Book(oldToNew, urlToNew, references) == Read(lines[..i])
      invariant references == [] <==> !HasDefinition(lines[..i])
    {
      ReadNext(lines, i);
      if lines[i].Definition? {
        if lines[i].url.None? {
          FirstWithoutUrlAt(lines, i);
          return Err(NoUrl(lines[i].id));
        }
        if lines[i].url.value in urlToNew {
          KnownUrlHasReference(lines[..i], lines[i].url.value);
        }
        oldToNew, urlToNew, references := EnterReference(oldToNew, urlToNew, references, lines[i].id, lines[i].url.value, lines[i].title);
      }
      i := i + 1;
    }
    assert lines[..i] == lines;
    if references == [] {
      return Err(NoReferences);
    }
    return Ok((oldToNew, references));
  }

  lemma KnownUrlHasReference(lines: seq<Line>, url: Url)
    requires url in Read(lines).urlToNew
    ensures Read(lines).references != []
  {
    BookInvariant(lines);
  }

  /** References are numbered 1 to k in order, and each URL's number is that of its reference. */
  ghost predicate Numbered(refs: seq<Reference>, index: map<Url, nat>) {
    |refs| == |index| && InOrder(refs, index) && Indexed(refs, index)
  }

  ghost predicate InOrder(refs: seq<Reference>, index: map<Url, nat>) {
    forall i :: 0 <= i < |refs| ==> refs[i].id == i + 1 && refs[i].url in index && index[refs[i].url] == i + 1
  }

  ghost predicate Indexed(refs: seq<Reference>, index: map<Url, nat>) {
    forall url :: url in index ==> 1 <= index[url] <= |refs| && refs[index[url] - 1].url == url
  }

  lemma NewUrlKeepsNumbers(refs: seq<Reference>, index: map<Url, nat>, url: Url, title: string)
    requires Numbered(refs, index) && url !in index
    ensures Numbered(refs + [Reference(|index| + 1, url, title)], index[url := |index| + 1])
  {
    assert index[url := |index| + 1].Keys == index.Keys + {url};
    NewUrlKeepsOrder(refs, index, url, title);
    NewUrlKeepsIndex(refs, index, url, title);
  }

  lemma NewUrlKeepsOrder(refs: seq<Reference>, index: map<Url, nat>, url: Url, title: string)
    requires |refs| == |index| && InOrder(refs, index) && url !in index
    ensures InOrder(refs + [Reference(|index| + 1, url, title)], index[url := |index| + 1])
  {
    var refs', index' := refs + [Reference(|index| + 1, url, title)], index[url := |index| + 1];
    forall i | 0 <= i < |refs'|
      ensures refs'[i].id == i + 1 && refs'[i].url in index' && index'[refs'[i].url] == i + 1
    {
      if i < |refs| {
        assert refs'[i] == refs[i];
      }
    }
  }

  lemma NewUrlKeepsIndex(refs: seq<Reference>, index: map<Url, nat>, url: Url, title: string)
    requires |refs| == |index| && Indexed(refs, index) && url !in index
    ensures Indexed(refs + [Reference(|index| + 1, url, title)], index[url := |index| + 1])
  {
    var refs', index' := refs + [Reference(|index| + 1, url, title)], index[url := |index| + 1];
    forall u | u in index'
      ensures 1 <= index'[u] <= |refs'| && refs'[index'[u] - 1].url == u
    {
      if u != url {
        assert u in index && index'[u] == index[u] && refs'[index[u] - 1] == refs[index[u] - 1];
      }
    }
  }

  lemma {:induction false} BookInvariant(lines: seq<Line>)
    ensures Numbered(Read(lines).references, Read(lines).urlToNew)
  {
    if lines == [] {
    } else {
      var k := |lines| - 1;
      BookInvariant(lines[..k]);
      if lines[k].Definition? && lines[k].url.Some? {
        var b := Read(lines[..k]);
        if lines[k].url.value !in b.urlToNew {
          NewUrlKeepsNumbers(b.references, b.urlToNew, lines[k].url.value, lines[k].title);
        }
      }
    }
  }

  lemma {:induction false} BookFollowsLastDefinition(lines: seq<Line>, id: string)
    requires AllHaveUrls(lines)
    ensures var b := Read(lines);
            && (id in b.oldToNew <==> Defines(lines, id))
            && (id in b.oldToNew ==>
                  && UrlOf(lines, id).Some? && UrlOf(lines, id).value in b.urlToNew
                  && b.oldToNew[id] == b.urlToNew[UrlOf(lines, id).value])
  {
    if lines == [] {
    } else {
      var k := |lines| - 1;
      BookFollowsLastDefinition(lines[..k], id);
      assert forall i :: 0 <= i < k ==> lines[..k][i] == lines[i];
      if Defines(lines[..k], id) {
        assert Defines(lines, id);
      }
    }
  }

  /** Renumbering preserves meaning: the anchor an identifier is sent to carries the URL of the
      identifier's last definition. */
  lemma NewNumberKeepsUrl(lines: seq<Line>, id: string)
    requires AllHaveUrls(lines) && Defines(lines, id)
    ensures id in Read(lines).oldToNew
    ensures LeadsTo(Read(lines), Read(lines).oldToNew[id], UrlOf(lines, id))
  {
    BookFollowsLastDefinition(lines, id);
    BookInvariant(lines);
    NumberLeadsToUrl(Read(lines), UrlOf(lines, id).value);
  }

  /** Number `n` is the number of an anchor, and that anchor carries `url`. */
  predicate LeadsTo(b: Book, n: nat, url: Option<Url>) {
    1 <= n <= |b.references| && b.references[n - 1].id == n && Some(b.references[n - 1].url) == url
  }

  lemma NumberLeadsToUrl(b: Book, url: Url)
    requires Numbered(b.references, b.urlToNew) && url in b.urlToNew
    ensures LeadsTo(b, b.urlToNew[url], Some(url))
  {
  }

  /** Two identifiers share a number exactly when they mean the same URL. */
  lemma SharedNumberExactlyForSameUrl(lines: seq<Line>, x: string, y: string)
    requires AllHaveUrls(lines) && Defines(lines, x) && Defines(lines, y)
    ensures var b := Read(lines);
            x in b.oldToNew && y in b.oldToNew && (b.oldToNew[x] == b.oldToNew[y] <==> UrlOf(lines, x) == UrlOf(lines, y))
  {
    NewNumberKeepsUrl(lines, x);
    NewNumberKeepsUrl(lines, y);
    BookFollowsLastDefinition(lines, x);
    BookFollowsLastDefinition(lines, y);
  }

  /** The anchors are 1 to k, each once, and no URL has two. */
  lemma AnchorsAreDistinct(lines: seq<Line>, i: nat, j: nat)
    requires i < j < |Read(lines).references|
    ensures var refs := Read(lines).references;
            refs[i].id == i + 1 && refs[j].id == j + 1 && refs[i].url != refs[j].url
  {
    BookInvariant(lines);
  }

  // ----- the list of anchors

  /** Line `k` defines something with this URL, and no earlier line does. */
  predicate FirstSourceAt(lines: seq<Line>, k: nat, url: Url) {
    && k < |lines| && IsSource(lines[k], url)
    && forall j :: 0 <= j < k ==> !IsSource(lines[j], url)
  }

  predicate IsSource(l: Line, url: Url) {
    l.Definition? && l.url == Some(url)
  }

  lemma {:induction false} KnownUrls(lines: seq<Line>, url: Url)
    ensures url in Read(lines).urlToNew <==> exists k :: 0 <= k < |lines| && IsSource(lines[k], url)
  {
    if lines == [] {
    } else {
      var k := |lines| - 1;
      KnownUrls(lines[..k], url);
      assert forall j :: 0 <= j < k ==> lines[..k][j] == lines[j];
    }
  }

  /** `at` are the lines the anchors come from. */
  ghost predicate ComeFrom(refs: seq<Reference>, lines: seq<Line>, at: seq<nat>) {
    && |at| == |refs|
    && (forall i :: 0 <= i < |at| ==> FirstSourceAt(lines, at[i], refs[i].url) && lines[at[i]].title == refs[i].title)
    && (forall i, j :: 0 <= i < j < |at| ==> at[i] < at[j])
  }

  lemma MoreLines(refs: seq<Reference>, lines: seq<Line>, at: seq<nat>)
    requires lines != [] && ComeFrom(refs, lines[..|lines| - 1], at)
    ensures ComeFrom(refs, lines, at)
  {
    var k := |lines| - 1;
    forall i | 0 <= i < |at|
      ensures FirstSourceAt(lines, at[i], refs[i].url) && lines[at[i]].title == refs[i].title
    {
      assert FirstSourceAt(lines[..k], at[i], refs[i].url);
      assert forall j :: 0 <= j <= at[i] ==> lines[..k][j] == lines[j];
    }
  }

  lemma NewSource(refs: seq<Reference>, lines: seq<Line>, at: seq<nat>, n: nat)
    requires lines != [] && ComeFrom(refs, lines, at) && (forall i :: 0 <= i < |at| ==> at[i] < |lines| - 1)
    requires var l := lines[|lines| - 1]; l.Definition? && l.url.Some? && FirstSourceAt(lines, |lines| - 1, l.url.value)
    ensures var l := lines[|lines| - 1];
            ComeFrom(refs + [Reference(n, l.url.value, l.title)], lines, at + [|lines| - 1])
  {
  }

  /** An anchor shows the title its URL was first defined with, and the anchors stand in the order
      of those definitions. */
  lemma {:induction false} AnchorsAreFirstDefinitions(lines: seq<Line>) returns (at: seq<nat>)
    ensures ComeFrom(Read(lines).references, lines, at)
  {
    if lines == [] {
      at := [];
    } else {
      var k := |lines| - 1;
      var b := Read(lines[..k]);
      at := AnchorsAreFirstDefinitions(lines[..k]);
      assert forall i :: 0 <= i < |at| ==> FirstSourceAt(lines[..k], at[i], b.references[i].url);
      MoreLines(b.references, lines, at);
      if lines[k].Definition? && lines[k].url.Some? && lines[k].url.value !in b.urlToNew {
        KnownUrls(lines[..k], lines[k].url.value);
        assert forall j :: 0 <= j < k ==> lines[..k][j] == lines[j];
        NewSource(b.references, lines, at, |b.urlToNew| + 1);
        at := at + [k];
      }
    }
  }

  // ----- citations in text

  function Cites(tokens: seq<Token>): seq<string> {
    if tokens == [] then []
    else (if tokens[0].Cite? then [tokens[0].id] else []) + Cites(tokens[1..])
  }

  function NewId(oldToNew: map<string, nat>, id: string): string {
    if id in oldToNew then Decimal(oldToNew[id]) else id
  }

  function Same(c: char): string {
    [c]
  }

  function Remapping(oldToNew: map<string, nat>): Rewriting {
    Rewriting(id => NewId(oldToNew, id), Same)
  }

  function HtmlChar(c: char): string {
    if c == '&' then "&amp;"
    else if c == '<' then "&lt;"
    else if c == '>' then "&gt;"
    else if c == '"' then "&quot;"
    else if c == '\'' then "&#x27;"
    else [c]
  }

  function HtmlEscape(s: string): string {
    if s == "" then "" else HtmlChar(s[0]) + HtmlEscape(s[1..])
  }

  const ESCAPING := Rewriting((id: string) => id, HtmlChar)

  predicate AllIn(ids: seq<string>, oldToNew: map<string, nat>) {
    forall i :: 0 <= i < |ids| ==> ids[i] in oldToNew
  }

  /** Substitute every citation marker, or report the first that has no definition. */
  function RemapCitations(text: string, oldToNew: map<string, nat>): Result<string> {
    var ids := Cites(Scan(text));
    if AllIn(ids, oldToNew) then Ok(Rewrite(Scan(text), Remapping(oldToNew)))
    else Err(UndefinedCitation(FirstMissing(ids, oldToNew)))
  }

  function FirstMissing(ids: seq<string>, oldToNew: map<string, nat>): string
    requires !AllIn(ids, oldToNew)
  {
    if ids[0] !in oldToNew then ids[0]
    else
      assert !AllIn(ids[1..], oldToNew) by {
        var i :| 0 <= i < |ids| && ids[i] !in oldToNew;
        assert ids[1..][i - 1] == ids[i];
      }
      FirstMissing(ids[1..], oldToNew)
  }

  /** The inline rendering of a text: its characters escaped, its markers turned into links. */
  function Inline(text: string): seq<Token> {
    Scan(HtmlEscape(text))
  }

  lemma {:induction false} EscapeIsRewriting(s: string)
    ensures HtmlEscape(s) == Rewrite(Scan(s), ESCAPING)
    decreases |s|
  {
    if s == "" {
    } else if MarkerAt(s) {
      var n := DigitRun(s[2..]);
      EscapeIsRewriting(s[3 + n..]);
      MarkerRewrites(s, ESCAPING);
      MarkerSplits(s);
      EscapeKeepsMarker(s[2..2 + n], s[3 + n..]);
    } else {
      assert Scan(s)[1..] == Scan(s[1..]);
      EscapeIsRewriting(s[1..]);
    }
  }

  lemma MarkerSplits(s: string)
    requires MarkerAt(s)
    ensures var n := DigitRun(s[2..]);
            s == Marker(s[2..2 + n]) + s[3 + n..] && AllDigits(s[2..2 + n])
  {
    var n := DigitRun(s[2..]);
    assert s[2..][..n] == s[2..2 + n];
  }

  lemma MarkerRewrites(s: string, r: Rewriting)
    requires MarkerAt(s)
    ensures var n := DigitRun(s[2..]);
            Rewrite(Scan(s), r) == Marker(r.ids(s[2..2 + n])) + Rewrite(Scan(s[3 + n..]), r)
  {
    assert Scan(s)[1..] == Scan(s[3 + DigitRun(s[2..])..]);
  }

  lemma {:induction false} EscapeConcat(x: string, y: string)
    ensures HtmlEscape(x + y) == HtmlEscape(x) + HtmlEscape(y)
  {
    if x == "" {
      assert x + y == y;
    } else {
      assert (x + y)[1..] == x[1..] + y;
      EscapeConcat(x[1..], y);
    }
  }

  lemma {:induction false} DigitsAreKept(id: string)
    requires AllDigits(id)
    ensures HtmlEscape(id) == id
  {
    if id == "" {
    } else {
      DigitsAreKept(id[1..]);
      assert HtmlChar(id[0]) == [id[0]];
    }
  }

  lemma EscapeKeepsMarker(id: string, rest: string)
    requires AllDigits(id)
    ensures HtmlEscape(Marker(id) + rest) == Marker(id) + HtmlEscape(rest)
  {
    EscapeConcat(Marker(id), rest);
    EscapeConcat("[^" + id, "]");
    EscapeConcat("[^", id);
    DigitsAreKept(id);
    PlainSigns();
  }

  lemma PlainSigns()
    ensures HtmlEscape("[^") == "[^" && HtmlEscape("]") == "]"
  {
    EscapeConcat("[", "^");
    assert HtmlEscape("[") == "[" && HtmlEscape("^") == "^";
  }

  lemma EscapingIsHarmless()
    ensures Harmless(ESCAPING)
  {
  }

  lemma RemappingIsHarmless(oldToNew: map<string, nat>)
    ensures Harmless(Remapping(oldToNew))
  {
  }

  function MapIds(ids: seq<string>, r: Rewriting): seq<string> {
    if ids == [] then [] else [r.ids(ids[0])] + MapIds(ids[1..], r)
  }

  lemma {:induction false} CitesConcat(x: seq<Token>, y: seq<Token>)
    ensures Cites(x + y) == Cites(x) + Cites(y)
  {
    if x == [] {
      assert x + y == y;
    } else {
      assert (x + y)[1..] == x[1..] + y;
      CitesConcat(x[1..], y);
    }
  }

  lemma {:induction false} LitsCiteNothing(s: string)
    ensures Cites(Lits(s)) == []
  {
    if s == "" {
    } else {
      assert Lits(s)[1..] == Lits(s[1..]);
      LitsCiteNothing(s[1..]);
    }
  }

  lemma {:induction false} CitesExpected(tokens: seq<Token>, r: Rewriting)
    ensures Cites(Expected(tokens, r)) == MapIds(Cites(tokens), r)
  {
    if tokens == [] {
    } else {
      CitesExpected(tokens[1..], r);
      match tokens[0] {
        case Lit(c) =>
          CitesConcat(Lits(r.chars(c)), Expected(tokens[1..], r));
          LitsCiteNothing(r.chars(c));
          assert [] + Cites(tokens[1..]) == Cites(tokens[1..]);
          assert [] + MapIds(Cites(tokens[1..]), r) == MapIds(Cites(tokens[1..]), r);
        case Cite(id) =>
          CitesConcat([Cite(r.ids(id))], Expected(tokens[1..], r));
          assert [Cite(r.ids(id))][1..] == [];
          assert Cites(tokens)[1..] == Cites(tokens[1..]);
      }
    }
  }

  /** The links of a rendered text are its citations, renumbered one by one: neither the
      renumbering nor the escaping creates, loses or reorders a citation. */
  lemma LinksAreRenumberedCitations(text: string, oldToNew: map<string, nat>)
    requires RemapCitations(text, oldToNew).Ok?
    ensures Cites(Inline(RemapCitations(text, oldToNew).value)) == MapIds(Cites(Scan(text)), Remapping(oldToNew))
  {
    var r := Remapping(oldToNew);
    var t := RemapCitations(text, oldToNew).value;
    RemappingIsHarmless(oldToNew);
    EscapingIsHarmless();
    RewritingIsStable(text, r);
    EscapeIsRewriting(t);
    RewritingIsStable(t, ESCAPING);
    CitesExpected(Scan(text), r);
    CitesExpected(Scan(t), ESCAPING);
    MapIdsSame(Cites(Scan(t)));
  }

  lemma {:induction false} MapIdsSame(ids: seq<string>)
    ensures MapIds(ids, ESCAPING) == ids
  {
    if ids == [] {
    } else {
      MapIdsSame(ids[1..]);
    }
  }

  lemma {:induction false} MapIdsAt(ids: seq<string>, r: Rewriting, i: nat)
    requires i < |ids|
    ensures |MapIds(ids, r)| == |ids| && MapIds(ids, r)[i] == r.ids(ids[i])
  {
    MapIdsLength(ids, r);
    if i > 0 {
      MapIdsAt(ids[1..], r, i - 1);
    }
  }

  lemma {:induction false} MapIdsLength(ids: seq<string>, r: Rewriting)
    ensures |MapIds(ids, r)| == |ids|
  {
    if ids == [] {
    } else {
      MapIdsLength(ids[1..], r);
    }
  }
}
