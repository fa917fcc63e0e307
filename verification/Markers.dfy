/** Citation markers `[^n]` in running text: finding them, renumbering them, and finding them
    again in the rewritten text, character by character. */
module Markers {
  import opened Numerals

  /** The length of the longest run of digits at the front. */
  function DigitRun(s: string): (n: nat)
    ensures n <= |s| && AllDigits(s[..n])
    ensures n < |s| ==> !IsDigit(s[n])
  {
    if s == "" || !IsDigit(s[0]) then 0
    else
      var n := 1 + DigitRun(s[1..]);
      assert s[..n] == [s[0]] + s[1..][..n - 1];
      n
  }

  /** Digits, at least one, then a closing bracket. */
  predicate Closes(s: string) {
    0 < DigitRun(s) < |s| && s[DigitRun(s)] == ']'
  }

  predicate Carets(s: string) {
    s != "" && s[0] == '^' && Closes(s[1..])
  }

  /** A marker starts here. */
  predicate MarkerAt(s: string) {
    s != "" && s[0] == '[' && Carets(s[1..])
  }

  datatype Token = Lit(c: char) | Cite(id: string)

  /** The left-to-right scan of a substitution that matches every marker. */
  function Scan(s: string): seq<Token>
    decreases |s|
  {
    if s == "" then []
    else if MarkerAt(s) then
      var n := DigitRun(s[2..]);
      [Cite(s[2..2 + n])] + Scan(s[3 + n..])
    else [Lit(s[0])] + Scan(s[1..])
  }

  function Marker(id: string): string {
    "[^" + id + "]"
  }

  function Flatten(tokens: seq<Token>): string {
    if tokens == [] then ""
    else (match tokens[0]
          case Lit(c) => [c]
          case Cite(id) => Marker(id)) + Flatten(tokens[1..])
  }

  /** The scan loses nothing. */
  lemma {:induction false} ScanReads(s: string)
    ensures Flatten(Scan(s)) == s
    decreases |s|
  {
    if s == "" {
    } else if MarkerAt(s) {
      var n := DigitRun(s[2..]);
      assert s == Marker(s[2..2 + n]) + s[3 + n..];
      ScanReads(s[3 + n..]);
      assert Scan(s)[1..] == Scan(s[3 + n..]);
    } else {
      ScanReads(s[1..]);
      assert Scan(s)[1..] == Scan(s[1..]);
      assert s == [s[0]] + s[1..];
    }
  }

  /** A token begins with a marker exactly when the text spells one, of at least one digit: the scan
      passes over no marker and takes nothing else for one. */
  lemma MarkersAreFound(s: string)
    requires s != ""
    ensures Scan(s)[0].Cite? <==> exists id :: id != "" && AllDigits(id) && Marker(id) <= s
    ensures forall id :: id != "" && AllDigits(id) && Marker(id) <= s ==> Scan(s) == [Cite(id)] + Scan(s[|id| + 3..])
  {
    if MarkerAt(s) {
      var n := DigitRun(s[2..]);
      assert s[2..][..n] == s[2..2 + n];
      assert s[..3 + n] == Marker(s[2..2 + n]);
    }
    forall id | id != "" && AllDigits(id) && Marker(id) <= s
      ensures Scan(s) == [Cite(id)] + Scan(s[|id| + 3..])
    {
      assert s == Marker(id) + s[|id| + 3..];
      MarkerScans(id, s[|id| + 3..]);
    }
  }

  /** A replacement for the identifiers, and one for the other characters. */
  datatype Rewriting = Rewriting(ids: string -> string, chars: char -> string)

  /** Replacements keep identifiers numeric, leave the characters markers are made of alone,
      and put no opening bracket, digit, caret or closing bracket in front of anything. */
  ghost predicate Harmless(r: Rewriting) {
    && (forall id :: AllDigits(id) && id != "" ==> AllDigits(r.ids(id)) && r.ids(id) != "")
    && (forall c :: r.chars(c) == [c] || (Plain(c) && |r.chars(c)| > 0 && Plain(r.chars(c)[0]) && '[' !in r.chars(c)))
  }

  predicate Plain(c: char) {
    c != '[' && c != '^' && c != ']' && !IsDigit(c)
  }

  function Rewrite(tokens: seq<Token>, r: Rewriting): string {
    if tokens == [] then ""
    else (match tokens[0]
          case Lit(c) => r.chars(c)
          case Cite(id) => Marker(r.ids(id))) + Rewrite(tokens[1..], r)
  }

  function Lits(s: string): seq<Token> {
    if s == "" then [] else [Lit(s[0])] + Lits(s[1..])
  }

  /** The tokens one expects to find in the rewritten text. */
  function Expected(tokens: seq<Token>, r: Rewriting): seq<Token> {
    if tokens == [] then []
    else (match tokens[0]
          case Lit(c) => Lits(r.chars(c))
          case Cite(id) => [Cite(r.ids(id))]) + Expected(tokens[1..], r)
  }

  lemma DigitRunOf(id: string, rest: string)
    requires AllDigits(id)
    ensures DigitRun(id + "]" + rest) == |id|
  {
    if id != "" {
      assert (id + "]" + rest)[1..] == id[1..] + "]" + rest;
      DigitRunOf(id[1..], rest);
    }
  }

  lemma MarkerScans(id: string, rest: string)
    requires AllDigits(id) && id != ""
    ensures Scan(Marker(id) + rest) == [Cite(id)] + Scan(rest)
  {
    var s := Marker(id) + rest;
    assert s[1..][1..] == s[2..] == id + "]" + rest;
    DigitRunOf(id, rest);
    assert s[2..2 + |id|] == id && s[3 + |id|..] == rest;
  }

  lemma {:induction false} LitsScan(prefix: string, rest: string)
    requires '[' !in prefix
    ensures Scan(prefix + rest) == Lits(prefix) + Scan(rest)
  {
    if prefix == "" {
      assert prefix + rest == rest;
    } else {
      assert prefix[0] in prefix;
      assert (prefix + rest)[1..] == prefix[1..] + rest;
      LitsScan(prefix[1..], rest);
    }
  }

  /** Rewriting keeps the first character, or turns one that matters to no marker into another
      such character. */
  lemma FrontKept(s: string, r: Rewriting)
    requires Harmless(r)
    ensures var t := Rewrite(Scan(s), r);
            && (s == "" <==> t == "")
            && (s != "" ==> t[0] == s[0] || (Plain(s[0]) && Plain(t[0])))
  {
    if s != "" {
      if MarkerAt(s) {
        assert Scan(s)[0] == Cite(s[2..2 + DigitRun(s[2..])]);
      } else {
        assert Scan(s)[0] == Lit(s[0]);
        assert r.chars(s[0]) == [s[0]] || Plain(s[0]);
      }
    }
  }

  lemma LiteralStep(s: string, r: Rewriting)
    requires Harmless(r) && s != "" && !MarkerAt(s) && !Plain(s[0])
    ensures Rewrite(Scan(s), r) == [s[0]] + Rewrite(Scan(s[1..]), r)
  {
    assert Scan(s)[1..] == Scan(s[1..]);
    assert r.chars(s[0]) == [s[0]];
  }

  lemma {:induction false} ClosesKept(s: string, r: Rewriting)
    requires Harmless(r)
    ensures var t := Rewrite(Scan(s), r);
            && DigitRun(t) == DigitRun(s)
            && (DigitRun(s) < |s| <==> DigitRun(t) < |t|)
            && (DigitRun(s) < |s| ==> (s[DigitRun(s)] == ']' <==> t[DigitRun(t)] == ']'))
  {
    FrontKept(s, r);
    if s != "" && IsDigit(s[0]) {
      LiteralStep(s, r);
      ClosesKept(s[1..], r);
      assert Rewrite(Scan(s), r)[1..] == Rewrite(Scan(s[1..]), r);
    }
  }

  lemma CaretsKept(s: string, r: Rewriting)
    requires Harmless(r)
    ensures Carets(Rewrite(Scan(s), r)) <==> Carets(s)
  {
    FrontKept(s, r);
    if s != "" && s[0] == '^' {
      LiteralStep(s, r);
      ClosesKept(s[1..], r);
      assert Rewrite(Scan(s), r)[1..] == Rewrite(Scan(s[1..]), r);
    }
  }

  /** Scanning the rewritten text finds exactly the rewritten tokens: a substitution never
      creates, merges or destroys a marker. */
  lemma {:induction false} RewritingIsStable(s: string, r: Rewriting)
    requires Harmless(r)
    ensures Scan(Rewrite(Scan(s), r)) == Expected(Scan(s), r)
    decreases |s|
  {
    if s == "" {
    } else if MarkerAt(s) {
      var n := DigitRun(s[2..]);
      var id := s[2..2 + n];
      assert id == s[2..][..n];
      RewritingIsStable(s[3 + n..], r);
      assert Scan(s)[1..] == Scan(s[3 + n..]);
      MarkerScans(r.ids(id), Rewrite(Scan(s[3 + n..]), r));
    } else {
      RewritingIsStable(s[1..], r);
      assert Scan(s)[1..] == Scan(s[1..]);
      var t := Rewrite(Scan(s[1..]), r);
      if s[0] == '[' {
        LiteralStep(s, r);
        CaretsKept(s[1..], r);
        assert ([s[0]] + t)[1..] == t;
        assert !MarkerAt([s[0]] + t);
        assert Lits([s[0]]) == [Lit(s[0])];
      } else {
        LitsScan(r.chars(s[0]), t);
      }
    }
  }
}
