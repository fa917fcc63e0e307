/** Where the walker's promise stops: for each of its shortcuts, the exact local condition or
    a schema on which it fails. */
module SchemaLimits {
  import opened Collections
  import opened JsonText
  import opened SchemaWalker
  import opened SchemaExtent
  import opened SchemaTight
  import opened SchemaDomination
  import opened SchemaGuards

  // ----- exact conditions, node by node

  /** A length bound on the node is the worst case exactly when everything else the node
      admits is no longer than the bounded string. */
  lemma CapExact(fuel: nat, mode: Mode, n: Schema, defs: Defs)
    requires WellShaped(n) && WellShapedDefs(defs) && n.ref.None? && Capped(n)
    requires Survey(fuel, mode, EscapeFree, n, defs, None).Some?
    ensures Walk(fuel, n, defs) == Ok(Str(Repeat(WIDE, n.maxLength.value)))
    ensures Dominates(mode, EscapeFree, Walk(fuel, n, defs).value, n, defs)
            <==> Covered(Survey(fuel, mode, EscapeFree, n, defs, None).value.Whole(), CapCost(mode, n.maxLength.value))
  {
    WideTextCost(mode, n.maxLength.value);
    DominatesExactlyWhenCovered(fuel, mode, EscapeFree, n, defs, Walk(fuel, n, defs).value);
  }

  function TextNode(m: nat): Schema {
    EMPTY.(kind := Some(StringKind), maxLength := Some(m))
  }

  /** With characters that need escapes the bounded string is no worst case, unless empty. */
  lemma EscapesExact(mode: Mode, m: nat, defs: Defs)
    requires WellShapedDefs(defs)
    ensures Walk(1, TextNode(m), defs) == Ok(Str(Repeat(WIDE, m)))
    ensures Dominates(mode, AnyChar, Str(Repeat(WIDE, m)), TextNode(m), defs) <==> m == 0
  {
    var n := TextNode(m);
    WideTextCost(mode, m);
    SurveyOfText(mode, m, defs);
    DominatesExactlyWhenCovered(1, mode, AnyChar, n, defs, Str(Repeat(WIDE, m)));
    var k := CharCost(mode, WIDE);
    assert k <= 4;
    if m > 0 {
      assert k * m <= 4 * m < 6 * m;
    }
  }

  lemma SurveyOfText(mode: Mode, m: nat, defs: Defs)
    ensures Survey(1, mode, AnyChar, TextNode(m), defs, None) == Some(Reach(AtMost(6 * m + 2), Absent))
    ensures WellShaped(TextNode(m))
  {
  }

  /** No value at all dominates an open object. */
  lemma OpenObjectHasNoWorstCase(mode: Mode, a: Alphabet, n: Schema, defs: Defs, w: Json)
    requires OneShape(n) && Free(n) && n.kind == Some(ObjectKind) && !n.closed
    ensures !Dominates(mode, a, w, n, defs)
  {
    var v := OpenObjectReached(mode, a, n, defs, DumpCost(mode, w) + 1);
    assert PermittedAt(1, a, v, n, defs);
  }

  // ----- schemas on which a shortcut fails

  const NUMBER := EMPTY.(kind := Some(NumberKind))

  /** `str` counts a string without its quotes, so another value can hide a wider string: exactly
      when it has one character more, or as many and comes first. */
  lemma MixedEnumExact(text: Json, other: Json, a: Alphabet, defs: Defs)
    requires text.Str? && !other.Str? && ProperMember(Length, text) && ProperMember(Length, other)
    ensures Dominates(Length, a, EnumPick([text, other]), EnumNode([text, other]), defs) <==> StrLength(other) != StrLength(text) + 1
    ensures Dominates(Length, a, EnumPick([other, text]), EnumNode([other, text]), defs) <==>
              !(StrLength(text) <= StrLength(other) <= StrLength(text) + 1)
  {
    MixedPair(text, other);
    MixedPair(other, text);
    EnumExact(Length, a, [text, other], defs);
    EnumExact(Length, a, [other, text], defs);
  }

  lemma MixedPair(x: Json, y: Json)
    requires x.Str? != y.Str?
    ensures Longest([x, y], x.Str?) == Some(StrLength(x)) && Longest([x, y], y.Str?) == Some(StrLength(y))
    ensures StrLength(x) == StrLength(y) ==> (TextComesFirst([x, y], StrLength(x)) <==> x.Str?)
  {
    var values := [x, y];
    assert values[1..] == [y] && [y][1..] == [];
    assert Longest([y], y.Str?) == Some(StrLength(y)) && Longest([y], x.Str?) == None;
    assert values[0] == x && values[1] == y;
  }

  function CappedNumber(m: nat): Schema {
    EMPTY.(maxLength := Some(m), anyOf := AnyOf([NUMBER]))
  }

  /** A length bound on a union with a number branch covers the number exactly from
      twenty-two characters on. */
  lemma CappedNumberExact(m: nat, defs: Defs)
    requires WellShapedDefs(defs)
    ensures Walk(2, CappedNumber(m), defs).Ok?
    ensures Dominates(Length, EscapeFree, Walk(2, CappedNumber(m), defs).value, CappedNumber(m), defs) <==> m >= 22
  {
    var n := CappedNumber(m);
    ShapeOfCappedNumber(m);
    SurveyOfNumber(m, defs);
    CapExact(2, Length, n, defs);
  }

  lemma ShapeOfCappedNumber(m: nat)
    ensures WellShaped(CappedNumber(m)) && Capped(CappedNumber(m)) && CappedNumber(m).ref.None?
  {
    assert NUMBER in CappedNumber(m).anyOf.branches;
    assert forall b :: b in CappedNumber(m).anyOf.branches ==> b == NUMBER;
    assert WellShaped(NUMBER);
  }

  lemma SurveyOfNumber(m: nat, defs: Defs)
    ensures Survey(2, Length, EscapeFree, CappedNumber(m), defs, None) == Some(Reach(Absent, AtMost(24)))
  {
    var none: seq<Schema> := [];
    assert Survey(1, Length, EscapeFree, NUMBER, defs, Some(m)) == Some(Reach(Absent, AtMost(24)));
    assert [NUMBER][1..] == none;
    assert SurveyBranches(1, Length, EscapeFree, none, defs, Some(m)) == Some(NOTHING);
    assert SurveyBranches(1, Length, EscapeFree, [NUMBER], defs, Some(m)) == Some(Reach(Absent, AtMost(24)));
  }

  function NumberOrText(m: nat): Schema {
    EMPTY.(anyOf := AnyOf([NUMBER, TextNode(m)]))
  }

  function NumberOrTextAnswer(m: nat): Json {
    if m <= 24 then Str(Repeat('9', NUMERIC_WORST_CASE_CHARS)) else Str(Repeat(WIDE, m))
  }

  /** Unions are chosen by text length, so up to twenty-four CJK characters lose to one number,
      although more than six of them take more tokens: the token worst case of the union is
      right exactly up to six characters and from twenty-five on. */
  lemma WidestBranchExact(m: nat, defs: Defs)
    requires WellShapedDefs(defs)
    ensures Walk(2, NumberOrText(m), defs) == Ok(NumberOrTextAnswer(m))
    ensures Dominates(Length, EscapeFree, NumberOrTextAnswer(m), NumberOrText(m), defs)
    ensures Dominates(Tokens, EscapeFree, NumberOrTextAnswer(m), NumberOrText(m), defs) <==> m <= 6 || m >= 25
  {
    NumberOrTextIs(m, defs);
    NumberOrTextExact(Length, m, defs);
    NumberOrTextExact(Tokens, m, defs);
    CapCosts(Length, m);
    CapCosts(Tokens, m);
  }

  lemma CapCosts(mode: Mode, m: nat)
    ensures CapCost(mode, m) == if mode.Length? then m + 2 else 4 * m + 2
  {
  }

  lemma NumberOrTextExact(mode: Mode, m: nat, defs: Defs)
    requires WellShapedDefs(defs)
    ensures Dominates(mode, EscapeFree, NumberOrTextAnswer(m), NumberOrText(m), defs) <==> m >= 25 || CapCost(mode, m) <= 26
  {
    var cost := if m <= 24 then 26 else CapCost(mode, m);
    NumberOrTextCost(mode, m);
    NumberOrTextFits(mode, m, defs);
    BothFit(mode, m, defs, cost);
    CapCosts(mode, m);
  }

  lemma NumberOrTextFits(mode: Mode, m: nat, defs: Defs)
    requires WellShapedDefs(defs)
    ensures Dominates(mode, EscapeFree, NumberOrTextAnswer(m), NumberOrText(m), defs) <==>
              forall b :: b in NumberOrText(m).anyOf.branches ==> BranchFits(1, mode, EscapeFree, b, defs, DumpCost(mode, NumberOrTextAnswer(m)))
  {
    NumberOrTextWalk(m, defs);
    NumberOrTextSurvey(mode, m, defs);
    UnionExact(2, mode, NumberOrText(m), defs, [Str(Repeat('9', NUMERIC_WORST_CASE_CHARS)), Str(Repeat(WIDE, m))]);
  }

  lemma NumberOrTextIs(m: nat, defs: Defs)
    ensures Walk(2, NumberOrText(m), defs) == Ok(NumberOrTextAnswer(m))
  {
    NumberOrTextWalk(m, defs);
  }

  lemma NumberOrTextCost(mode: Mode, m: nat)
    ensures DumpCost(mode, NumberOrTextAnswer(m)) == if m <= 24 then 26 else CapCost(mode, m)
  {
    NineCost(mode);
    WideTextCost(mode, m);
  }

  lemma BothFit(mode: Mode, m: nat, defs: Defs, cost: nat)
    ensures (forall b :: b in NumberOrText(m).anyOf.branches ==> BranchFits(1, mode, EscapeFree, b, defs, cost))
            <==> NUMERIC_WORST_CASE_CHARS <= cost && CapCost(mode, m) <= cost
  {
    NumberOrTextSurvey(mode, m, defs);
    assert BranchFits(1, mode, EscapeFree, NUMBER, defs, cost) <==> NUMERIC_WORST_CASE_CHARS <= cost;
    assert BranchFits(1, mode, EscapeFree, TextNode(m), defs, cost) <==> CapCost(mode, m) <= cost;
  }

  lemma NumberOrTextSurvey(mode: Mode, m: nat, defs: Defs)
    ensures WellShaped(NumberOrText(m)) && Survey(2, mode, EscapeFree, NumberOrText(m), defs, None).Some?
    ensures Survey(1, mode, EscapeFree, NUMBER, defs, None) == Some(Reach(Absent, AtMost(24)))
    ensures Survey(1, mode, EscapeFree, TextNode(m), defs, None) == Some(Reach(AtMost(CapCost(mode, m)), Absent))
    ensures forall b :: b in NumberOrText(m).anyOf.branches <==> b == NUMBER || b == TextNode(m)
  {
    var branches := NumberOrText(m).anyOf.branches;
    assert branches[0] == NUMBER && branches[1] == TextNode(m);
    assert branches[1..] == [TextNode(m)];
    var none: seq<Schema> := [];
    assert branches[1..][1..] == none;
    assert SurveyBranches(1, mode, EscapeFree, none, defs, None) == Some(NOTHING);
    assert SurveyBranches(1, mode, EscapeFree, [TextNode(m)], defs, None).Some?;
    assert SurveyBranches(1, mode, EscapeFree, branches, defs, None).Some?;
  }

  lemma NumberOrTextWalk(m: nat, defs: Defs)
    ensures var nines, text := Str(Repeat('9', NUMERIC_WORST_CASE_CHARS)), Str(Repeat(WIDE, m));
            && WalkBranches(1, NumberOrText(m).anyOf.branches, 0, defs) == Ok([nines, text])
            && WidestPick([nines, text]) == NumberOrTextAnswer(m)
  {
    var nines, text := Str(Repeat('9', NUMERIC_WORST_CASE_CHARS)), Str(Repeat(WIDE, m));
    WalkOfTwo(1, NUMBER, TextNode(m), nines, text, defs);
    NineLength();
    WideTextLength(m);
    PairWidest(nines, text);
  }

  lemma NineLength()
    ensures |Dump(Str(Repeat('9', NUMERIC_WORST_CASE_CHARS)))| == 26
  {
    NineCost(Length);
    CostOfLength(Dump(Str(Repeat('9', NUMERIC_WORST_CASE_CHARS))));
  }

  lemma WideTextLength(m: nat)
    ensures |Dump(Str(Repeat(WIDE, m)))| == m + 2
  {
    WideTextCost(Length, m);
    CostOfLength(Dump(Str(Repeat(WIDE, m))));
  }

  lemma PairWidest(x: Json, y: Json)
    ensures WidestPick([x, y]) == if |Dump(x)| >= |Dump(y)| then x else y
  {
    var values := [x, y];
    var sizes := seq(|values|, i requires 0 <= i < |values| => |Dump(values[i])|);
    assert sizes == [|Dump(x)|, |Dump(y)|];
  }

  lemma WalkOfTwo(fuel: nat, x: Schema, y: Schema, vx: Json, vy: Json, defs: Defs)
    requires Walk(fuel, x, defs) == Ok(vx) && Walk(fuel, y, defs) == Ok(vy)
    ensures WalkBranches(fuel, [x, y], 0, defs) == Ok([vx, vy])
  {
    var none: seq<Schema> := [];
    assert [x, y][1..] == [y] && [y][1..] == none;
    var nothing: seq<Json> := [];
    assert WalkBranches(fuel, none, 2, defs) == Ok(nothing);
    assert [vy] + nothing == [vy] && [vx] + [vy] == [vx, vy];
    assert WalkBranches(fuel, [y], 1, defs) == Ok([vy]);
  }

  const CONTRADICTORY := EMPTY.(kind := Some(NumberKind), enumeration := Some([Bool(false)]))

  /** One shape for each node is needed: an enumeration that contradicts its own type permits
      nothing, so anything dominates it, but its extent is that of its members. */
  lemma ContradictoryNode(mode: Mode, a: Alphabet, defs: Defs)
    ensures !OneShape(CONTRADICTORY) && Dominates(mode, a, Null, CONTRADICTORY, defs)
    ensures Survey(1, mode, a, CONTRADICTORY, defs, None) == Some(Reach(Absent, AtMost(5)))
    ensures DumpCost(mode, Null) < 5
  {
    var values := CONTRADICTORY.enumeration.value;
    assert values[0] in values && !OfKind(values[0], CONTRADICTORY.kind);
    ContradictorySurvey(mode, a, defs);
    WordCosts(mode);
  }

  lemma ContradictorySurvey(mode: Mode, a: Alphabet, defs: Defs)
    ensures Survey(1, mode, a, CONTRADICTORY, defs, None) == Some(Reach(Absent, AtMost(5)))
  {
    WordCosts(mode);
    OneMember(mode, Bool(false));
  }

  lemma OneMember(mode: Mode, v: Json)
    requires !v.Str?
    ensures ListedReach(mode, [v], None) == Reach(Absent, AtMost(DumpCost(mode, v)))
  {
    assert [v][1..] == [];
    assert ListedReach(mode, [v][1..], None) == NOTHING;
  }
}
