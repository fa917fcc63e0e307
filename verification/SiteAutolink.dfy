/** The last substitution of the inline renderer: bare URLs become links of their own. It runs over
    the text into which the citations have already been written as links, and a URL that runs
    into one of those swallows it. */
module SiteAutolink {
  import opened Collections
  import opened Markers
  import opened Numerals
  import opened SiteReport
  import opened SiteLoop
  import opened SiteHtml
  import opened SiteText

  // ----- the text it runs over

  function Anchor(id: string): string {
    "<a class=\"citation\" href=\"#ref-" + id + "\">[" + id + "]</a>"
  }

  function Html(tokens: seq<Token>): string {
    if tokens == [] then ""
    else (match tokens[0]
          case Lit(c) => [c]
          case Cite(id) => Anchor(id)) + Html(tokens[1..])
  }

  // ----- the substitution

  /** White space, as the pattern's `\s` understands it. */
  predicate IsSpace(c: char) {
    || '\t' <= c <= '\r' || '\U{1c}' <= c <= ' ' || c == '\U{85}' || c == '\U{a0}' || c == '\U{1680}'
    || '\U{2000}' <= c <= '\U{200a}' || c == '\U{2028}' || c == '\U{2029}' || c == '\U{202f}' || c == '\U{205f}' || c == '\U{3000}'
  }

  /** A character a URL goes on with. */
  predicate Linkable(c: char) {
    !IsSpace(c) && c != ')'
  }

  function Scheme(s: string): (n: nat)
    ensures n <= |s|
  {
    if Starts(s, "http://") then 7
    else if Starts(s, "https://") then 8
    else if Starts(s, "akshare://") then 10
    else 0
  }

  function LinkRun(s: string): (n: nat)
    ensures n <= |s|
  {
    if s == "" || !Linkable(s[0]) then 0 else 1 + LinkRun(s[1..])
  }

  /** The length of the URL that starts here, if one does. */
  function UrlLength(s: string): (n: nat)
    ensures n <= |s|
  {
    var scheme := Scheme(s);
    if scheme == 0 || LinkRun(s[scheme..]) == 0 then 0 else scheme + LinkRun(s[scheme..])
  }

  datatype Piece = Char(c: char) | Link(url: string)

  /** What the left-to-right substitution makes of a text. */
  function Split(s: string): seq<Piece>
    decreases |s|
  {
    if s == "" then []
    else
      var n := UrlLength(s);
      if n > 0 then [Link(s[..n])] + Split(s[n..]) else [Char(s[0])] + Split(s[1..])
  }

  // ----- when a URL runs into a citation

  /** Nothing but characters of a URL stands before the next citation. */
  predicate ReachesCite(tokens: seq<Token>) {
    tokens != [] && (tokens[0].Cite? || (Linkable(tokens[0].c) && ReachesCite(tokens[1..])))
  }

  predicate LeadsWith(tokens: seq<Token>, s: string) {
    s == "" || (tokens != [] && tokens[0] == Lit(s[0]) && LeadsWith(tokens[1..], s[1..]))
  }

  predicate SchemeLeads(tokens: seq<Token>) {
    LeadsWith(tokens, "http://") || LeadsWith(tokens, "https://") || LeadsWith(tokens, "akshare://")
  }

  /** Somewhere a URL is followed by a citation with no space or closing parenthesis between. */
  predicate Swallows(tokens: seq<Token>) {
    tokens != [] && ((SchemeLeads(tokens) && ReachesCite(tokens)) || Swallows(tokens[1..]))
  }

  /** Some link's address holds the beginning of a tag. */
  predicate Broken(pieces: seq<Piece>) {
    exists i :: 0 <= i < |pieces| && pieces[i].Link? && '<' in pieces[i].url
  }

  // ----- citations pass unchanged

  function Chars(s: string): seq<Piece> {
    if s == "" then [] else [Char(s[0])] + Chars(s[1..])
  }

  /** No URL can begin in `s`, whatever follows it. */
  predicate Calm(s: string) {
    forall i :: 0 <= i < |s| ==> CalmAt(s, i)
  }

  predicate CalmAt(s: string, i: nat)
    requires i < |s|
  {
    && (s[i] == 'h' ==> i + 1 < |s| && s[i + 1] != 't')
    && (s[i] == 'a' ==> i + 1 < |s| && s[i + 1] != 'k')
  }

  lemma CalmConcat(x: string, y: string)
    requires Calm(x) && Calm(y)
    ensures Calm(x + y)
  {
    forall i | 0 <= i < |x + y|
      ensures CalmAt(x + y, i)
    {
      if i < |x| {
        assert CalmAt(x, i);
      } else {
        assert CalmAt(y, i - |x|);
      }
    }
  }

  lemma StartsOtherwise(s: string, prefix: string)
    requires s != "" && |prefix| > 1 && (s[0] == prefix[0] ==> |s| > 1 && s[1] != prefix[1])
    ensures !Starts(s, prefix)
  {
  }

  lemma CalmStart(s: string, prefix: string)
    requires s != "" && CalmAt(s, 0) && |prefix| > 1
    requires (prefix[0] == 'h' && prefix[1] == 't') || (prefix[0] == 'a' && prefix[1] == 'k')
    ensures !Starts(s, prefix)
  {
    StartsOtherwise(s, prefix);
  }

  lemma NoScheme(s: string)
    requires s != "" && CalmAt(s, 0)
    ensures Scheme(s) == 0
  {
    CalmStart(s, "http://");
    CalmStart(s, "https://");
    CalmStart(s, "akshare://");
  }

  lemma NoSchemeHere(s: string)
    requires s != "" && CalmAt(s, 0)
    ensures Split(s) == [Char(s[0])] + Split(s[1..])
  {
    NoScheme(s);
  }

  lemma {:induction false} CalmSplits(s: string, rest: string)
    requires Calm(s)
    ensures Split(s + rest) == Chars(s) + Split(rest)
  {
    if s == "" {
      assert s + rest == rest;
    } else {
      CalmTail(s);
      CalmSplits(s[1..], rest);
      CalmHead(s, rest);
      OneCharMore(s[0], s, Split(rest));
    }
  }

  lemma CalmHead(s: string, rest: string)
    requires Calm(s) && s != ""
    ensures Split(s + rest) == [Char(s[0])] + Split(s[1..] + rest)
  {
    assert CalmAt(s, 0) && CalmAt(s + rest, 0);
    assert (s + rest)[1..] == s[1..] + rest;
    NoSchemeHere(s + rest);
  }

  lemma OneCharMore(c: char, s: string, rest: seq<Piece>)
    requires s != "" && s[0] == c
    ensures [Char(c)] + (Chars(s[1..]) + rest) == Chars(s) + rest
  {
  }

  lemma CalmTail(s: string)
    requires Calm(s) && s != ""
    ensures Calm(s[1..])
  {
    forall i | 0 <= i < |s| - 1
      ensures CalmAt(s[1..], i)
    {
      assert CalmAt(s, i + 1);
    }
  }

  lemma DigitsAreCalm(id: string)
    requires AllDigits(id)
    ensures Calm(id)
  {
  }

  lemma AnchorIsCalm(id: string)
    requires AllDigits(id)
    ensures Calm(Anchor(id))
  {
    var x, y, z := "<a class=\"citation\" href=\"#ref-", "\">[", "]</a>";
    assert Calm(x) && Calm(y) && Calm(z);
    DigitsAreCalm(id);
    CalmConcat(x, id);
    CalmConcat(x + id, y);
    CalmConcat(x + id + y, id);
    CalmConcat(x + id + y + id, z);
  }

  // ----- where it goes wrong

  /** What the passes before leave: literals without markup and numeric citations. */
  ghost predicate Clean(tokens: seq<Token>) {
    forall i :: 0 <= i < |tokens| ==>
      match tokens[i]
      case Lit(c) => c != '<'
      case Cite(id) => AllDigits(id)
  }

  /** How many literals a URL beginning here takes before the next citation. */
  function RunTokens(tokens: seq<Token>): (n: nat)
    ensures n <= |tokens| && forall i :: 0 <= i < n ==> tokens[i].Lit?
  {
    if tokens == [] || tokens[0].Cite? || !Linkable(tokens[0].c) then 0 else 1 + RunTokens(tokens[1..])
  }

  function Spelled(tokens: seq<Token>, n: nat): string
    requires n <= |tokens| && forall i :: 0 <= i < n ==> tokens[i].Lit?
  {
    if n == 0 then "" else [tokens[0].c] + Spelled(tokens[1..], n - 1)
  }

  lemma {:induction false} HtmlSplits(tokens: seq<Token>, n: nat)
    requires n <= |tokens| && forall i :: 0 <= i < n ==> tokens[i].Lit?
    ensures Html(tokens) == Spelled(tokens, n) + Html(tokens[n..]) && |Spelled(tokens, n)| == n
  {
    if n == 0 {
      assert tokens[0..] == tokens && "" + Html(tokens) == Html(tokens);
    } else {
      HtmlSplits(tokens[1..], n - 1);
      assert tokens[1..][n - 1..] == tokens[n..];
      Associative([tokens[0].c], Spelled(tokens[1..], n - 1), Html(tokens[n..]));
    }
  }

  lemma CleanTail(tokens: seq<Token>, n: nat)
    requires Clean(tokens) && n <= |tokens|
    ensures Clean(tokens[n..])
  {
    assert forall i :: 0 <= i < |tokens| - n ==> tokens[n..][i] == tokens[i + n];
  }

  lemma {:induction false} SpelledIsClean(tokens: seq<Token>, n: nat)
    requires Clean(tokens) && n <= |tokens| && forall i :: 0 <= i < n ==> tokens[i].Lit?
    ensures '<' !in Spelled(tokens, n)
  {
    if n > 0 {
      CleanTail(tokens, 1);
      SpelledIsClean(tokens[1..], n - 1);
    }
  }

  /** The run goes past the literals exactly when a citation follows them. */
  lemma {:induction false} RunIs(tokens: seq<Token>)
    requires Clean(tokens)
    ensures var n := RunTokens(tokens);
            && (ReachesCite(tokens) <==> n < |tokens| && tokens[n].Cite?)
            && (ReachesCite(tokens) ==> LinkRun(Html(tokens)) >= n + 2 && Html(tokens)[n] == '<')
            && (!ReachesCite(tokens) ==> LinkRun(Html(tokens)) == n)
  {
    if tokens == [] {
    } else if tokens[0].Cite? {
      CiteRuns(tokens);
    } else if Linkable(tokens[0].c) {
      RunIs(tokens[1..]);
      assert Html(tokens)[1..] == Html(tokens[1..]);
    }
  }

  lemma CiteRuns(tokens: seq<Token>)
    requires tokens != [] && tokens[0].Cite?
    ensures LinkRun(Html(tokens)) >= 2 && Html(tokens)[0] == '<'
  {
    var s := Html(tokens);
    assert Starts(Anchor(tokens[0].id), "<a");
    assert s[0] == '<' && s[1] == 'a' && s[1..][0] == 'a';
  }

  lemma {:induction false} LeadsExactly(tokens: seq<Token>, s: string)
    requires Clean(tokens) && '<' !in s
    ensures LeadsWith(tokens, s) <==> Starts(Html(tokens), s)
  {
    if s != "" && tokens != [] {
      assert s[0] in s;
      if tokens[0].Cite? {
        CiteRuns(tokens);
      } else {
        LeadsExactly(tokens[1..], s[1..]);
        assert Html(tokens)[1..] == Html(tokens[1..]);
      }
    }
  }

  lemma {:induction false} RunTail(s: string, k: nat)
    requires k <= |s| && forall i :: 0 <= i < k ==> Linkable(s[i])
    ensures LinkRun(s) == k + LinkRun(s[k..])
  {
    if k == 0 {
      assert s[0..] == s;
    } else {
      assert forall i :: 0 <= i < k - 1 ==> s[1..][i] == s[i + 1];
      RunTail(s[1..], k - 1);
      assert s[1..][k - 1..] == s[k..];
    }
  }

  /** A URL takes its scheme and all that can follow, at least one character. */
  lemma UrlIsRun(s: string)
    ensures UrlLength(s) == if Scheme(s) > 0 && LinkRun(s) > Scheme(s) then LinkRun(s) else 0
  {
    var n := Scheme(s);
    var scheme := if n == 7 then "http://" else if n == 8 then "https://" else if n == 10 then "akshare://" else "";
    assert s[..n] == scheme;
    assert forall i :: 0 <= i < n ==> s[i] == scheme[i];
    RunTail(s, n);
  }

  lemma SchemeExactly(tokens: seq<Token>)
    requires Clean(tokens)
    ensures SchemeLeads(tokens) <==> Scheme(Html(tokens)) > 0
  {
    LeadsExactly(tokens, "http://");
    LeadsExactly(tokens, "https://");
    LeadsExactly(tokens, "akshare://");
  }

  lemma {:induction false} SkipRun(tokens: seq<Token>, n: nat)
    requires !ReachesCite(tokens) && n <= RunTokens(tokens)
    ensures Swallows(tokens) <==> Swallows(tokens[n..])
  {
    if n == 0 {
      assert tokens[0..] == tokens;
    } else {
      SkipRun(tokens[1..], n - 1);
      assert tokens[1..][n - 1..] == tokens[n..];
    }
  }

  lemma BrokenHead(x: Piece, rest: seq<Piece>)
    ensures Broken([x] + rest) <==> (x.Link? && '<' in x.url) || Broken(rest)
  {
    var all := [x] + rest;
    assert all[0] == x && forall i :: 0 <= i < |rest| ==> all[i + 1] == rest[i];
    if Broken(rest) {
      var i :| 0 <= i < |rest| && rest[i].Link? && '<' in rest[i].url;
      assert all[i + 1].Link?;
    }
  }

  lemma {:induction false} BrokenChars(s: string, rest: seq<Piece>)
    ensures Broken(Chars(s) + rest) <==> Broken(rest)
  {
    if s == "" {
      assert Chars(s) + rest == rest;
    } else {
      BrokenChars(s[1..], rest);
      OneCharMore(s[0], s, rest);
      BrokenHead(Char(s[0]), Chars(s[1..]) + rest);
    }
  }

  lemma CiteSplits(tokens: seq<Token>)
    requires Clean(tokens) && tokens != [] && tokens[0].Cite?
    ensures Split(Html(tokens)) == Chars(Anchor(tokens[0].id)) + Split(Html(tokens[1..]))
    ensures Swallows(tokens) <==> Swallows(tokens[1..])
  {
    AnchorIsCalm(tokens[0].id);
    CalmSplits(Anchor(tokens[0].id), Html(tokens[1..]));
  }

  /** A URL that does not reach a citation takes the literals of its run. */
  lemma UrlSplits(tokens: seq<Token>)
    requires Clean(tokens) && UrlLength(Html(tokens)) > 0 && !ReachesCite(tokens)
    ensures var n := RunTokens(tokens);
            && n > 0 && '<' !in Spelled(tokens, n)
            && Split(Html(tokens)) == [Link(Spelled(tokens, n))] + Split(Html(tokens[n..]))
  {
    var n := RunTokens(tokens);
    RunIs(tokens);
    UrlIsRun(Html(tokens));
    HtmlSplits(tokens, n);
    SpelledIsClean(tokens, n);
    assert Html(tokens)[..n] == Spelled(tokens, n) && Html(tokens)[n..] == Html(tokens[n..]);
  }

  lemma SwallowedLink(tokens: seq<Token>)
    requires Clean(tokens) && tokens != [] && SchemeLeads(tokens) && ReachesCite(tokens)
    ensures Broken(Split(Html(tokens)))
  {
    var s := Html(tokens);
    RunIs(tokens);
    SchemeExactly(tokens);
    UrlIsRun(s);
    SchemeInRun(tokens);
    var n := UrlLength(s);
    assert s[..n][RunTokens(tokens)] == '<';
    BrokenHead(Link(s[..n]), Split(s[n..]));
  }

  lemma TagComesAfter(s: string, prefix: string, n: nat)
    requires Starts(s, prefix) && '<' !in prefix && n < |s| && s[n] == '<'
    ensures |prefix| <= n
  {
    assert forall i :: 0 <= i < |prefix| ==> s[i] == prefix[i] && prefix[i] in prefix;
  }

  /** The scheme itself stands before the citation. */
  lemma SchemeInRun(tokens: seq<Token>)
    requires Clean(tokens) && ReachesCite(tokens)
    ensures Scheme(Html(tokens)) <= RunTokens(tokens)
  {
    var s, n := Html(tokens), RunTokens(tokens);
    RunIs(tokens);
    assert n < |s|;
    if Starts(s, "http://") {
      TagComesAfter(s, "http://", n);
    } else if Starts(s, "https://") {
      TagComesAfter(s, "https://", n);
    } else if Starts(s, "akshare://") {
      TagComesAfter(s, "akshare://", n);
    }
  }

  lemma LiteralSplits(tokens: seq<Token>)
    requires Clean(tokens) && tokens != [] && tokens[0].Lit? && UrlLength(Html(tokens)) == 0
    ensures Split(Html(tokens)) == [Char(tokens[0].c)] + Split(Html(tokens[1..]))
    ensures Swallows(tokens) <==> Swallows(tokens[1..])
  {
    assert Html(tokens)[1..] == Html(tokens[1..]);
    if SchemeLeads(tokens) && ReachesCite(tokens) {
      RunIs(tokens);
      SchemeExactly(tokens);
      UrlIsRun(Html(tokens));
      SchemeInRun(tokens);
    }
  }

  /** A link's address runs into markup exactly when a URL is followed by a citation with nothing in
      between that ends it. */
  lemma {:induction false} BrokenExactlyWhenSwallowed(tokens: seq<Token>)
    requires Clean(tokens)
    ensures Broken(Split(Html(tokens))) <==> Swallows(tokens)
    decreases |tokens|
  {
    if tokens == [] {
    } else if tokens[0].Cite? {
      CleanTail(tokens, 1);
      CiteSplits(tokens);
      BrokenExactlyWhenSwallowed(tokens[1..]);
      BrokenChars(Anchor(tokens[0].id), Split(Html(tokens[1..])));
    } else if UrlLength(Html(tokens)) == 0 {
      CleanTail(tokens, 1);
      LiteralSplits(tokens);
      BrokenExactlyWhenSwallowed(tokens[1..]);
      BrokenHead(Char(tokens[0].c), Split(Html(tokens[1..])));
    } else {
      SchemeExactly(tokens);
      UrlIsRun(Html(tokens));
      if ReachesCite(tokens) {
        SwallowedLink(tokens);
      } else {
        var n := RunTokens(tokens);
        UrlSplits(tokens);
        CleanTail(tokens, n);
        BrokenExactlyWhenSwallowed(tokens[n..]);
        SkipRun(tokens, n);
        BrokenHead(Link(Spelled(tokens, n)), Split(Html(tokens[n..])));
      }
    }
  }

  // ----- where it goes right

  lemma {:induction false} LeadsInPrefix(tokens: seq<Token>, i: nat, s: string)
    requires i < |tokens| && tokens[i].Cite?
    ensures LeadsWith(tokens[..i], s) <==> LeadsWith(tokens, s)
  {
    if s != "" && i > 0 {
      assert tokens[..i][1..] == tokens[1..][..i - 1];
      LeadsInPrefix(tokens[1..], i - 1, s[1..]);
    }
  }

  lemma {:induction false} RunInPrefix(tokens: seq<Token>, i: nat)
    requires i < |tokens| && tokens[i].Cite? && !ReachesCite(tokens)
    ensures !ReachesCite(tokens[..i]) && RunTokens(tokens[..i]) == RunTokens(tokens) < i
  {
    if i > 0 && tokens[0].Lit? && Linkable(tokens[0].c) {
      assert tokens[..i][1..] == tokens[1..][..i - 1];
      RunInPrefix(tokens[1..], i - 1);
    }
  }

  /** Before a citation that is not swallowed, URLs are found as if the text ended there. */
  lemma UrlInPrefix(tokens: seq<Token>, i: nat)
    requires Clean(tokens) && i < |tokens| && tokens[i].Cite? && !Swallows(tokens) && tokens[0].Lit?
    ensures Clean(tokens[..i]) && (UrlLength(Html(tokens[..i])) > 0 <==> UrlLength(Html(tokens)) > 0)
    ensures UrlLength(Html(tokens)) > 0 ==> !ReachesCite(tokens)
  {
    var pre := tokens[..i];
    assert Clean(pre);
    SchemeExactly(tokens);
    SchemeExactly(pre);
    LeadsInPrefix(tokens, i, "http://");
    LeadsInPrefix(tokens, i, "https://");
    LeadsInPrefix(tokens, i, "akshare://");
    UrlIsRun(Html(tokens));
    UrlIsRun(Html(pre));
    if SchemeLeads(tokens) {
      RunInPrefix(tokens, i);
      RunIs(tokens);
      RunIs(pre);
      SameScheme(tokens, pre);
    }
  }

  lemma SameScheme(x: seq<Token>, y: seq<Token>)
    requires Clean(x) && Clean(y)
    requires LeadsWith(x, "http://") <==> LeadsWith(y, "http://")
    requires LeadsWith(x, "https://") <==> LeadsWith(y, "https://")
    requires LeadsWith(x, "akshare://") <==> LeadsWith(y, "akshare://")
    ensures Scheme(Html(x)) == Scheme(Html(y))
  {
    LeadsExactly(x, "http://");
    LeadsExactly(y, "http://");
    LeadsExactly(x, "https://");
    LeadsExactly(y, "https://");
    LeadsExactly(x, "akshare://");
    LeadsExactly(y, "akshare://");
  }

  /** Citation `i` comes through as it was written, and what stands before and after it is linked as
      if it stood alone. */
  ghost predicate Stands(tokens: seq<Token>, i: nat)
    requires i < |tokens| && tokens[i].Cite?
  {
    Split(Html(tokens)) == Split(Html(tokens[..i])) + Chars(Anchor(tokens[i].id)) + Split(Html(tokens[i + 1..]))
  }

  lemma PiecesBefore(x: seq<Piece>, a: seq<Piece>, b: seq<Piece>, c: seq<Piece>)
    ensures x + (a + b + c) == (x + a) + b + c
  {
  }

  /** Without its first `n` tokens, of which `head` is made, the rest of a text and the text before
      citation `i` are split as they are with them. */
  ghost predicate HeadSplits(tokens: seq<Token>, i: nat, n: nat, head: seq<Piece>)
    requires n <= i <= |tokens|
  {
    && Split(Html(tokens)) == head + Split(Html(tokens[n..]))
    && Split(Html(tokens[..i])) == head + Split(Html(tokens[n..i]))
  }

  lemma StandsAfter(tokens: seq<Token>, i: nat, n: nat, head: seq<Piece>, rest: seq<Token>)
    requires 0 < n <= i < |tokens| && tokens[i].Cite? && rest == tokens[n..]
    requires HeadSplits(tokens, i, n, head) && Stands(rest, i - n)
    ensures Stands(tokens, i)
  {
    assert rest[..i - n] == tokens[n..i];
    assert rest[i - n + 1..] == tokens[i + 1..];
    PiecesBefore(head, Split(Html(rest[..i - n])), Chars(Anchor(tokens[i].id)), Split(Html(rest[i - n + 1..])));
  }

  /** A citation no URL runs into comes through. */
  lemma {:induction false} CitationStands(tokens: seq<Token>, i: nat)
    requires Clean(tokens) && !Swallows(tokens) && i < |tokens| && tokens[i].Cite?
    ensures Stands(tokens, i)
    decreases |tokens|
  {
    if i == 0 {
      FirstStands(tokens);
    } else {
      var rest, k := ShorterText(tokens, i);
      CitationStands(rest, k);
    }
  }

  /** It does if it does in the text without the first piece. */
  lemma ShorterText(tokens: seq<Token>, i: nat) returns (rest: seq<Token>, k: nat)
    requires Clean(tokens) && !Swallows(tokens) && 0 < i < |tokens| && tokens[i].Cite?
    ensures |rest| < |tokens| && k < |rest| && rest[k].Cite? && Clean(rest) && !Swallows(rest)
    ensures Stands(rest, k) ==> Stands(tokens, i)
  {
    var n, head;
    n, head, rest := NextPiece(tokens, i);
    k := i - n;
    if Stands(rest, k) {
      StandsAfter(tokens, i, n, head, rest);
    }
  }

  lemma FirstStands(tokens: seq<Token>)
    requires Clean(tokens) && tokens != [] && tokens[0].Cite?
    ensures Stands(tokens, 0)
  {
    CiteSplits(tokens);
    assert tokens[..0] == [] && Split(Html(tokens[..0])) == [];
    NothingBefore(Chars(Anchor(tokens[0].id)), Split(Html(tokens[1..])));
  }

  lemma NothingBefore(a: seq<Piece>, b: seq<Piece>)
    ensures [] + a + b == a + b
  {
  }

  /** The first citation, character or link comes first, with and without what follows citation `i`. */
  lemma NextPiece(tokens: seq<Token>, i: nat) returns (n: nat, head: seq<Piece>, rest: seq<Token>)
    requires Clean(tokens) && !Swallows(tokens) && 0 < i < |tokens| && tokens[i].Cite?
    ensures 0 < n <= i && HeadSplits(tokens, i, n, head)
    ensures rest == tokens[n..] && |rest| == |tokens| - n && rest[i - n] == tokens[i] && Clean(rest) && !Swallows(rest)
  {
    n := 1;
    if tokens[0].Cite? {
      head := Chars(Anchor(tokens[0].id));
      CiteFirst(tokens, i);
    } else {
      UrlInPrefix(tokens, i);
      if UrlLength(Html(tokens)) == 0 {
        head := [Char(tokens[0].c)];
        LiteralFirst(tokens, i);
      } else {
        n := RunTokens(tokens);
        head := [Link(Spelled(tokens, n))];
        LinkFirst(tokens, i);
      }
    }
    CleanTail(tokens, n);
    rest := tokens[n..];
  }

  lemma CiteFirst(tokens: seq<Token>, i: nat)
    requires Clean(tokens) && 0 < i < |tokens| && tokens[0].Cite?
    ensures HeadSplits(tokens, i, 1, Chars(Anchor(tokens[0].id)))
    ensures Swallows(tokens) <==> Swallows(tokens[1..])
  {
    CiteSplits(tokens);
    assert Clean(tokens[..i]);
    CiteSplits(tokens[..i]);
    assert tokens[..i][1..] == tokens[1..i];
  }

  lemma LiteralFirst(tokens: seq<Token>, i: nat)
    requires Clean(tokens) && 0 < i < |tokens| && tokens[0].Lit? && Clean(tokens[..i])
    requires UrlLength(Html(tokens)) == 0 && UrlLength(Html(tokens[..i])) == 0
    ensures HeadSplits(tokens, i, 1, [Char(tokens[0].c)])
    ensures Swallows(tokens) <==> Swallows(tokens[1..])
  {
    LiteralSplits(tokens);
    LiteralSplits(tokens[..i]);
    assert tokens[..i][1..] == tokens[1..i];
  }

  lemma LinkFirst(tokens: seq<Token>, i: nat)
    requires Clean(tokens) && !Swallows(tokens) && 0 < i < |tokens| && tokens[i].Cite? && !ReachesCite(tokens) && Clean(tokens[..i])
    requires UrlLength(Html(tokens)) > 0 && UrlLength(Html(tokens[..i])) > 0
    ensures var n := RunTokens(tokens);
            0 < n <= i && HeadSplits(tokens, i, n, [Link(Spelled(tokens, n))]) && !Swallows(tokens[n..])
  {
    var n := RunTokens(tokens);
    RunInPrefix(tokens, i);
    UrlSplits(tokens);
    UrlSplits(tokens[..i]);
    SameSpelling(tokens, i, n);
    SkipRun(tokens, n);
    assert tokens[..i][n..] == tokens[n..i];
  }

  lemma {:induction false} SameSpelling(tokens: seq<Token>, i: nat, n: nat)
    requires n <= i <= |tokens| && forall k :: 0 <= k < n ==> tokens[k].Lit?
    ensures (forall k :: 0 <= k < n ==> tokens[..i][k].Lit?) && Spelled(tokens[..i], n) == Spelled(tokens, n)
  {
    if n > 0 {
      assert tokens[..i][1..] == tokens[1..][..i - 1];
      SameSpelling(tokens[1..], i - 1, n - 1);
    }
  }

  // ----- told from the report's own line

  /** Rewriting that leaves URLs and what ends them as they are. */
  ghost predicate Transparent(r: Rewriting) {
    forall c :: r.chars(c) == [c] || Neutral(c, r.chars(c))
  }

  predicate InScheme(c: char) {
    c in "https://akshare"
  }

  predicate Neutral(c: char, s: string) {
    && !InScheme(c) && Linkable(c)
    && s != "" && !InScheme(s[0]) && Calm(s) && forall i :: 0 <= i < |s| ==> Linkable(s[i])
  }

  lemma {:induction false} LitsReach(s: string, rest: seq<Token>)
    requires forall i :: 0 <= i < |s| ==> Linkable(s[i])
    ensures ReachesCite(Lits(s) + rest) <==> ReachesCite(rest)
  {
    if s == "" {
      assert Lits(s) + rest == rest;
    } else {
      LitsReach(s[1..], rest);
      assert (Lits(s) + rest)[1..] == Lits(s[1..]) + rest;
    }
  }

  lemma {:induction false} ReachRewritten(tokens: seq<Token>, r: Rewriting)
    requires Transparent(r)
    ensures ReachesCite(Expected(tokens, r)) <==> ReachesCite(tokens)
  {
    if tokens != [] && tokens[0].Lit? {
      var c := tokens[0].c;
      ReachRewritten(tokens[1..], r);
      assert r.chars(c) == [c] || Neutral(c, r.chars(c));
      if Linkable(c) {
        LitsReach(r.chars(c), Expected(tokens[1..], r));
      } else {
        assert Expected(tokens, r)[0] == Lit(c);
      }
    }
  }

  lemma OneLiteral(tokens: seq<Token>, r: Rewriting)
    requires tokens != [] && tokens[0].Lit? && r.chars(tokens[0].c) == [tokens[0].c]
    ensures Expected(tokens, r) == [tokens[0]] + Expected(tokens[1..], r)
  {
    assert Lits([tokens[0].c]) == [tokens[0]];
  }

  lemma {:induction false} LeadsRewritten(tokens: seq<Token>, r: Rewriting, s: string)
    requires Transparent(r) && forall i :: 0 <= i < |s| ==> InScheme(s[i])
    ensures LeadsWith(Expected(tokens, r), s) <==> LeadsWith(tokens, s)
  {
    if s != "" && tokens != [] {
      match tokens[0]
      case Cite(id) => assert Expected(tokens, r)[0] == Cite(r.ids(id));
      case Lit(c) =>
        assert InScheme(s[0]);
        assert r.chars(c) == [c] || Neutral(c, r.chars(c));
        assert Expected(tokens, r)[0] == Lit(r.chars(c)[0]);
        if r.chars(c) == [c] {
          LeadsRewritten(tokens[1..], r, s[1..]);
          OneLiteral(tokens, r);
        }
    }
  }

  lemma {:induction false} CalmSwallows(s: string, rest: seq<Token>)
    requires Calm(s)
    ensures Swallows(Lits(s) + rest) <==> Swallows(rest)
  {
    if s == "" {
      assert Lits(s) + rest == rest;
    } else {
      CalmTail(s);
      CalmSwallows(s[1..], rest);
      CalmFirst(s, rest);
    }
  }

  lemma CalmFirst(s: string, rest: seq<Token>)
    requires s != "" && Calm(s)
    ensures Swallows(Lits(s) + rest) <==> Swallows(Lits(s[1..]) + rest)
  {
    assert CalmAt(s, 0);
    CalmLeads(s, rest);
    assert (Lits(s) + rest)[1..] == Lits(s[1..]) + rest;
  }

  lemma FirstTwo(tokens: seq<Token>, s: string)
    requires |s| > 1 && LeadsWith(tokens, s)
    ensures |tokens| > 1 && tokens[0] == Lit(s[0]) && tokens[1] == Lit(s[1])
  {
    assert LeadsWith(tokens[1..], s[1..]);
  }

  lemma CalmLeads(s: string, rest: seq<Token>)
    requires s != "" && CalmAt(s, 0)
    ensures !SchemeLeads(Lits(s) + rest)
  {
    var tokens := Lits(s) + rest;
    assert tokens[0] == Lit(s[0]);
    if |s| > 1 {
      assert Lits(s)[1..] == Lits(s[1..]) && Lits(s[1..])[0] == Lit(s[1]);
      assert tokens[1] == Lit(s[1]);
    }
    if LeadsWith(tokens, "http://") {
      FirstTwo(tokens, "http://");
    } else if LeadsWith(tokens, "https://") {
      FirstTwo(tokens, "https://");
    } else if LeadsWith(tokens, "akshare://") {
      FirstTwo(tokens, "akshare://");
    }
  }

  lemma {:induction false} SwallowsRewritten(tokens: seq<Token>, r: Rewriting)
    requires Transparent(r)
    ensures Swallows(Expected(tokens, r)) <==> Swallows(tokens)
  {
    if tokens == [] {
    } else {
      SwallowsRewritten(tokens[1..], r);
      var after := Expected(tokens, r);
      match tokens[0]
      case Cite(id) =>
        assert after[0] == Cite(r.ids(id)) && after[1..] == Expected(tokens[1..], r);
      case Lit(c) =>
        assert r.chars(c) == [c] || Neutral(c, r.chars(c));
        if r.chars(c) == [c] {
          OneLiteral(tokens, r);
          ReachRewritten(tokens, r);
          LeadsRewritten(tokens, r, "http://");
          LeadsRewritten(tokens, r, "https://");
          LeadsRewritten(tokens, r, "akshare://");
        } else {
          CalmSwallows(r.chars(c), Expected(tokens[1..], r));
        }
    }
  }

  lemma EscapingIsTransparent()
    ensures Transparent(ESCAPING)
  {
    forall c
      ensures ESCAPING.chars(c) == [c] || Neutral(c, ESCAPING.chars(c))
    {
      EntityIsNeutral(c);
    }
  }

  lemma EntityIsNeutral(c: char)
    ensures HtmlChar(c) == [c] || Neutral(c, HtmlChar(c))
  {
  }

  lemma {:induction false} ScannedIdsAreDigits(s: string)
    ensures forall i :: 0 <= i < |Scan(s)| && Scan(s)[i].Cite? ==> AllDigits(Scan(s)[i].id)
    decreases |s|
  {
    if s == "" {
    } else if MarkerAt(s) {
      var n := DigitRun(s[2..]);
      MarkerSplits(s);
      ScannedIdsAreDigits(s[3 + n..]);
      assert Scan(s) == [Cite(s[2..2 + n])] + Scan(s[3 + n..]);
    } else {
      ScannedIdsAreDigits(s[1..]);
      assert Scan(s) == [Lit(s[0])] + Scan(s[1..]);
    }
  }

  lemma {:induction false} LiteralInText(tokens: seq<Token>, i: nat)
    requires i < |tokens| && tokens[i].Lit?
    ensures tokens[i].c in Flatten(tokens)
  {
    if i > 0 {
      LiteralInText(tokens[1..], i - 1);
    }
  }

  lemma InlineIsClean(text: string)
    ensures Clean(Inline(text))
  {
    var tokens := Inline(text);
    InlineReadsBack(text);
    ScannedIdsAreDigits(HtmlEscape(text));
    forall i | 0 <= i < |tokens| && tokens[i].Lit?
      ensures tokens[i].c != '<'
    {
      LiteralInText(tokens, i);
    }
  }

  lemma InlineSwallows(text: string, oldToNew: map<string, nat>)
    requires RemapCitations(text, oldToNew).Ok?
    ensures Swallows(Inline(RemapCitations(text, oldToNew).value)) <==> Swallows(Scan(text))
  {
    var t := RemapCitations(text, oldToNew).value;
    RemappingIsHarmless(oldToNew);
    EscapingIsHarmless();
    EscapingIsTransparent();
    RewritingIsStable(text, Remapping(oldToNew));
    EscapeIsRewriting(t);
    RewritingIsStable(t, ESCAPING);
    SwallowsRewritten(Scan(text), Remapping(oldToNew));
    SwallowsRewritten(Scan(t), ESCAPING);
  }

  lemma PreparedSwallows(l: Line, oldToNew: map<string, nat>)
    requires HasText(l) && Prepare(l, oldToNew).Text?
    ensures Clean(Prepare(l, oldToNew).inline)
    ensures Swallows(Prepare(l, oldToNew).inline) <==> Swallows(Scan(l.text))
  {
    InlineIsClean(RemapCitations(l.text, oldToNew).value);
    InlineSwallows(l.text, oldToNew);
  }

  /** The links of a page are written as they should be exactly on the lines where no citation
      follows a URL without a space or a closing parenthesis in between; there every citation
      comes through. */
  lemma LinksComeThroughExactly(lines: seq<Line>, i: nat)
    requires SiteHtml.Page(lines).Rendered? && i < |VisibleLines(lines)|
    ensures HasText(VisibleLines(lines)[i]) && |Contents(SiteHtml.Page(lines).value)| == |VisibleLines(lines)|
    ensures var e, l := Contents(SiteHtml.Page(lines).value)[i], VisibleLines(lines)[i];
            && e.Text?
            && (Broken(Split(Html(e.inline))) <==> Swallows(Scan(l.text)))
            && (!Swallows(Scan(l.text)) ==> forall k :: 0 <= k < |e.inline| && e.inline[k].Cite? ==> Stands(e.inline, k))
  {
    RenderedExactlyWhenCited(lines);
    VisibleLinesHaveText(lines);
    var l := VisibleLines(lines)[i];
    assert l in VisibleLines(lines);
    LinkableLine(lines, i);
    var e := Prepare(l, Read(lines).oldToNew);
    PreparedSwallows(l, Read(lines).oldToNew);
    BrokenExactlyWhenSwallowed(e.inline);
    if !Swallows(Scan(l.text)) {
      forall k | 0 <= k < |e.inline| && e.inline[k].Cite?
        ensures Stands(e.inline, k)
      {
        CitationStands(e.inline, k);
      }
    }
  }

  lemma {:induction false} LitsLead(s: string, prefix: string, rest: seq<Token>)
    requires Starts(s, prefix)
    ensures LeadsWith(Lits(s) + rest, prefix)
  {
    if prefix != "" {
      LitsLead(s[1..], prefix[1..], rest);
      assert (Lits(s) + rest)[1..] == Lits(s[1..]) + rest;
    }
  }

  /** A citation right behind a URL is lost, whatever the URL is. */
  lemma CitationBehindUrlIsLost(url: string, id: string, rest: string)
    requires Scheme(url) > 0 && '[' !in url && forall i :: 0 <= i < |url| ==> Linkable(url[i])
    requires id != "" && AllDigits(id)
    ensures Swallows(Scan(url + Marker(id) + rest))
  {
    assert url + Marker(id) + rest == url + (Marker(id) + rest);
    LitsScan(url, Marker(id) + rest);
    MarkerScans(id, rest);
    var tokens := Lits(url) + Scan(Marker(id) + rest);
    LitsReach(url, Scan(Marker(id) + rest));
    if Starts(url, "http://") {
      LitsLead(url, "http://", Scan(Marker(id) + rest));
    } else if Starts(url, "https://") {
      LitsLead(url, "https://", Scan(Marker(id) + rest));
    } else {
      LitsLead(url, "akshare://", Scan(Marker(id) + rest));
    }
    assert tokens != [];
  }
}
