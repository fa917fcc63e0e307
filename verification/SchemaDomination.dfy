/** What the walker's answer is worth: when the returned instance is at least as expensive as
    every instance the schema permits. */
module SchemaDomination {
  import opened Collections
  import opened JsonText
  import opened SchemaWalker
  import opened SchemaExtent
  import opened SchemaTight
  import opened Truncation

  /** The promise of the worst case: nothing permitted costs more than `w`. */
  ghost predicate Dominates(mode: Mode, a: Alphabet, w: Json, n: Schema, defs: Defs) {
    forall d: nat, v :: PermittedAt(d, a, v, n, defs) ==> DumpCost(mode, v) <= DumpCost(mode, w)
  }

  predicate Covered(e: Extent, cost: nat) {
    e.Absent? || (e.AtMost? && e.cost <= cost)
  }

  /** Exactly when the promise holds: the surveyed extent fits under the returned instance. */
  lemma DominatesExactlyWhenCovered(fuel: nat, mode: Mode, a: Alphabet, n: Schema, defs: Defs, w: Json)
    requires WellShaped(n) && WellShapedDefs(defs)
    requires Survey(fuel, mode, a, n, defs, None).Some?
    ensures Dominates(mode, a, w, n, defs)
            <==> Covered(Survey(fuel, mode, a, n, defs, None).value.Whole(), DumpCost(mode, w))
  {
    var whole := Survey(fuel, mode, a, n, defs, None).value.Whole();
    if Covered(whole, DumpCost(mode, w)) {
      CoveredDominates(fuel, mode, a, n, defs, w);
    } else {
      var d, v := WholeReached(fuel, mode, a, n, defs, DumpCost(mode, w) + 1);
      assert PermittedAt(d, a, v, n, defs);
    }
  }

  /** The sufficient half needs no assumption on the shape of the schema. */
  lemma CoveredDominates(fuel: nat, mode: Mode, a: Alphabet, n: Schema, defs: Defs, w: Json)
    requires Survey(fuel, mode, a, n, defs, None).Some?
    requires Covered(Survey(fuel, mode, a, n, defs, None).value.Whole(), DumpCost(mode, w))
    ensures Dominates(mode, a, w, n, defs)
  {
    forall d: nat, v | PermittedAt(d, a, v, n, defs)
      ensures DumpCost(mode, v) <= DumpCost(mode, w)
    {
      SurveyBoundsPermitted(fuel, mode, a, d, v, n, defs, None);
    }
  }

  // ----- the walker's own choices

  /** What the walker charges for a string bounded by `m`. */
  function CapCost(mode: Mode, m: nat): nat {
    CharCost(mode, WIDE) * m + 2
  }

  /** The guards under which each of the walker's shortcuts is safe, node by node: a bound on
      the node covers everything the node admits, the enumerated value picked by `str` length
      is the most expensive, so is the union branch picked by text length, and objects take
      no undeclared keys. */
  predicate Guarded(fuel: nat, mode: Mode, node: Schema, defs: Defs)
    decreases fuel, 0
  {
    && fuel > 0
    && Resolve(node, defs, {}).Ok?
    && var n := Resolve(node, defs, {}).value;
       if Capped(n) then
         var r := Survey(fuel, mode, EscapeFree, n, defs, None);
         r.Some? && Covered(r.value.Whole(), CapCost(mode, n.maxLength.value))
       else if n.constant.Some? then true
       else if n.enumeration.Some? then
         forall v :: v in n.enumeration.value ==> DumpCost(mode, v) <= DumpCost(mode, EnumPick(n.enumeration.value))
       else if n.anyOf.AnyOf? then
         && (forall b :: b in n.anyOf.branches ==> Guarded(fuel - 1, mode, b, defs))
         && var ws := WalkBranches(fuel - 1, n.anyOf.branches, 0, defs);
            ws.Ok? && ws.value != [] ==>
              forall w :: w in ws.value ==> DumpCost(mode, w) <= DumpCost(mode, WidestPick(ws.value))
       else if n.kind == Some(ObjectKind) then
         && n.closed
         && forall p :: p in n.properties ==> Guarded(fuel - 1, mode, p.schema, defs)
       else if n.kind == Some(ArrayKind) then
         n.maxItems.Some? && n.maxItems.value > 0 ==> Guarded(fuel - 1, mode, ItemsOf(n), defs)
       else true
  }

  // ----- a bound further out only shrinks the survey

  predicate Tighter(x: Option<nat>, y: Option<nat>) {
    y.None? || (x.Some? && x.value <= y.value)
  }

  predicate Below(x: Extent, y: Extent) {
    x.Absent? || y.Endless? || (x.AtMost? && y.AtMost? && x.cost <= y.cost)
  }

  predicate ReachBelow(x: Reach, y: Reach) {
    Below(x.text, y.text) && Below(x.other, y.other)
  }

  lemma {:induction false} ListedShrinks(mode: Mode, values: seq<Json>, x: Option<nat>, y: Option<nat>)
    requires Tighter(x, y)
    ensures ReachBelow(ListedReach(mode, values, x), ListedReach(mode, values, y))
  {
    if values == [] {
    } else {
      ListedShrinks(mode, values[1..], x, y);
    }
  }

  lemma {:induction false} CapShrinks(fuel: nat, mode: Mode, a: Alphabet, node: Schema, defs: Defs, x: Option<nat>, y: Option<nat>)
    requires Tighter(x, y)
    requires Survey(fuel, mode, a, node, defs, y).Some?
    ensures Survey(fuel, mode, a, node, defs, x).Some?
    ensures ReachBelow(Survey(fuel, mode, a, node, defs, x).value, Survey(fuel, mode, a, node, defs, y).value)
    decreases fuel, 0
  {
    var n := Resolve(node, defs, {}).value;
    var cx, cy := MinCap(x, n.maxLength), MinCap(y, n.maxLength);
    if n.constant.Some? {
      ListedShrinks(mode, [n.constant.value], cx, cy);
    } else if n.enumeration.Some? {
      ListedShrinks(mode, n.enumeration.value, cx, cy);
    } else if n.anyOf.AnyOf? {
      CapShrinksBranches(fuel - 1, mode, a, n.anyOf.branches, defs, cx, cy);
    } else if cx.Some? && cy.Some? {
      assert CharPeak(mode, a) * cx.value <= CharPeak(mode, a) * cy.value;
    }
  }

  lemma {:induction false} CapShrinksBranches(fuel: nat, mode: Mode, a: Alphabet, branches: seq<Schema>, defs: Defs, x: Option<nat>, y: Option<nat>)
    requires Tighter(x, y)
    requires SurveyBranches(fuel, mode, a, branches, defs, y).Some?
    ensures SurveyBranches(fuel, mode, a, branches, defs, x).Some?
    ensures ReachBelow(SurveyBranches(fuel, mode, a, branches, defs, x).value, SurveyBranches(fuel, mode, a, branches, defs, y).value)
    decreases fuel, 1 + |branches|
  {
    if branches == [] {
    } else {
      CapShrinks(fuel, mode, a, branches[0], defs, x, y);
      CapShrinksBranches(fuel, mode, a, branches[1..], defs, x, y);
      JoinShrinks(Survey(fuel, mode, a, branches[0], defs, x).value, SurveyBranches(fuel, mode, a, branches[1..], defs, x).value,
                  Survey(fuel, mode, a, branches[0], defs, y).value, SurveyBranches(fuel, mode, a, branches[1..], defs, y).value);
    }
  }

  lemma JoinShrinks(p: Reach, q: Reach, r: Reach, s: Reach)
    requires ReachBelow(p, r) && ReachBelow(q, s)
    ensures ReachBelow(JoinReach(p, q), JoinReach(r, s))
  {
  }

  // ----- guarded answers cover the survey

  lemma {:induction false} WideTextCost(mode: Mode, m: nat)
    ensures DumpCost(mode, Str(Repeat(WIDE, m))) == CapCost(mode, m)
  {
    PeakTextCost(mode, EscapeFree, m);
    QuotedCost(mode, Repeat(WIDE, m));
  }

  lemma NineCost(mode: Mode)
    ensures DumpCost(mode, Str(Repeat('9', NUMERIC_WORST_CASE_CHARS))) == NUMERIC_WORST_CASE_CHARS + 2
  {
    var s := Repeat('9', NUMERIC_WORST_CASE_CHARS);
    QuotedCost(mode, s);
    NothingToEscape(s);
    PlainCost(mode, s);
  }

  lemma {:induction false} NothingToEscape(s: string)
    requires forall i :: 0 <= i < |s| ==> !NeedsEscape(s[i])
    ensures Escape(s) == s
  {
    if s == "" {
    } else {
      NothingToEscape(s[1..]);
    }
  }

  lemma {:induction false} ListedCovered(mode: Mode, values: seq<Json>, cap: Option<nat>, cost: nat)
    requires forall v :: v in values ==> DumpCost(mode, v) <= cost
    ensures Covered(ListedReach(mode, values, cap).Whole(), cost)
  {
    if values == [] {
    } else {
      ListedCovered(mode, values[1..], cap, cost);
    }
  }

  /** What the walker returns covers everything the schema admits, if its choices are guarded. */
  lemma {:induction false} WalkerCovers(fuel: nat, mode: Mode, node: Schema, defs: Defs, cap: Option<nat>)
    requires Walk(fuel, node, defs).Ok? && Guarded(fuel, mode, node, defs)
    ensures Survey(fuel, mode, EscapeFree, node, defs, cap).Some?
    ensures Covered(Survey(fuel, mode, EscapeFree, node, defs, cap).value.Whole(), DumpCost(mode, Walk(fuel, node, defs).value))
    decreases fuel, 0, 1
  {
    var n := Resolve(node, defs, {}).value;
    if Capped(n) {
      CappedCovers(fuel, mode, node, defs, cap);
    } else if n.constant.Some? || n.enumeration.Some? {
      ListCovers(fuel, mode, node, defs, cap);
    } else if n.anyOf.AnyOf? {
      UnionCovers(fuel, mode, node, defs, cap);
    } else if n.kind == Some(ObjectKind) {
      ObjectCovers(fuel, mode, node, defs, cap);
    } else if n.kind == Some(ArrayKind) {
      ArrayCovers(fuel, mode, node, defs, cap);
    } else if n.kind.Some? && n.kind != Some(StringKind) {
      ScalarCovers(fuel, mode, node, defs, cap);
    }
  }

  lemma {:induction false} UnionCovers(fuel: nat, mode: Mode, node: Schema, defs: Defs, cap: Option<nat>)
    requires Walk(fuel, node, defs).Ok? && Guarded(fuel, mode, node, defs)
    requires var n := Resolve(node, defs, {}).value;
             !Capped(n) && n.constant.None? && n.enumeration.None? && n.anyOf.AnyOf?
    ensures Survey(fuel, mode, EscapeFree, node, defs, cap).Some?
    ensures Covered(Survey(fuel, mode, EscapeFree, node, defs, cap).value.Whole(), DumpCost(mode, Walk(fuel, node, defs).value))
    decreases fuel, 0, 0
  {
    var n := Resolve(node, defs, {}).value;
    var w := Walk(fuel, node, defs).value;
    BranchesCovered(fuel - 1, mode, n.anyOf.branches, 0, defs, MinCap(cap, n.maxLength), DumpCost(mode, w));
  }

  lemma {:induction false} ObjectCovers(fuel: nat, mode: Mode, node: Schema, defs: Defs, cap: Option<nat>)
    requires Walk(fuel, node, defs).Ok? && Guarded(fuel, mode, node, defs)
    requires var n := Resolve(node, defs, {}).value;
             !Capped(n) && n.constant.None? && n.enumeration.None? && n.anyOf.NoUnion? && n.kind == Some(ObjectKind)
    ensures Survey(fuel, mode, EscapeFree, node, defs, cap).Some?
    ensures Covered(Survey(fuel, mode, EscapeFree, node, defs, cap).value.Whole(), DumpCost(mode, Walk(fuel, node, defs).value))
    decreases fuel, 0, 0
  {
    var n := Resolve(node, defs, {}).value;
    FieldsCovered(fuel - 1, mode, n.properties, defs);
    ObjectCovered(mode, SurveyProperties(fuel - 1, mode, EscapeFree, n.properties, defs).value,
                  WalkProperties(fuel - 1, n.properties, defs).value);
  }

  lemma {:induction false} ArrayCovers(fuel: nat, mode: Mode, node: Schema, defs: Defs, cap: Option<nat>)
    requires Walk(fuel, node, defs).Ok? && Guarded(fuel, mode, node, defs)
    requires var n := Resolve(node, defs, {}).value;
             !Capped(n) && n.constant.None? && n.enumeration.None? && n.anyOf.NoUnion? && n.kind == Some(ArrayKind)
    ensures Survey(fuel, mode, EscapeFree, node, defs, cap).Some?
    ensures Covered(Survey(fuel, mode, EscapeFree, node, defs, cap).value.Whole(), DumpCost(mode, Walk(fuel, node, defs).value))
    decreases fuel, 0, 0
  {
    var n := Resolve(node, defs, {}).value;
    if n.maxItems.value > 0 {
      WalkerCovers(fuel - 1, mode, ItemsOf(n), defs, None);
      ArrayCovered(mode, Walk(fuel - 1, ItemsOf(n), defs).value, n.maxItems.value,
                   Survey(fuel - 1, mode, EscapeFree, ItemsOf(n), defs, None).value.Whole());
    } else {
      ArrayCost(mode, []);
    }
  }

  lemma CappedCovers(fuel: nat, mode: Mode, node: Schema, defs: Defs, cap: Option<nat>)
    requires Walk(fuel, node, defs).Ok? && Guarded(fuel, mode, node, defs)
    requires Capped(Resolve(node, defs, {}).value)
    ensures Survey(fuel, mode, EscapeFree, node, defs, cap).Some?
    ensures Covered(Survey(fuel, mode, EscapeFree, node, defs, cap).value.Whole(), DumpCost(mode, Walk(fuel, node, defs).value))
  {
    var n := Resolve(node, defs, {}).value;
    CapShrinks(fuel, mode, EscapeFree, n, defs, cap, None);
    WideTextCost(mode, n.maxLength.value);
  }

  lemma ListCovers(fuel: nat, mode: Mode, node: Schema, defs: Defs, cap: Option<nat>)
    requires Walk(fuel, node, defs).Ok? && Guarded(fuel, mode, node, defs)
    requires var n := Resolve(node, defs, {}).value;
             !Capped(n) && (n.constant.Some? || n.enumeration.Some?)
    ensures Survey(fuel, mode, EscapeFree, node, defs, cap).Some?
    ensures Covered(Survey(fuel, mode, EscapeFree, node, defs, cap).value.Whole(), DumpCost(mode, Walk(fuel, node, defs).value))
  {
    var n := Resolve(node, defs, {}).value;
    var w := Walk(fuel, node, defs).value;
    if n.constant.Some? {
      ListedCovered(mode, [n.constant.value], MinCap(cap, n.maxLength), DumpCost(mode, w));
    } else {
      ListedCovered(mode, n.enumeration.value, MinCap(cap, n.maxLength), DumpCost(mode, w));
    }
  }

  lemma ScalarCovers(fuel: nat, mode: Mode, node: Schema, defs: Defs, cap: Option<nat>)
    requires Walk(fuel, node, defs).Ok?
    requires var n := Resolve(node, defs, {}).value;
             !Capped(n) && Free(n) && n.kind.Some? && !n.kind.value.ObjectKind? && !n.kind.value.ArrayKind?
    ensures Survey(fuel, mode, EscapeFree, node, defs, cap).Some?
    ensures Covered(Survey(fuel, mode, EscapeFree, node, defs, cap).value.Whole(), DumpCost(mode, Walk(fuel, node, defs).value))
  {
    NineCost(mode);
    WordCosts(mode);
  }

  lemma ObjectCovered(mode: Mode, t: Total, fields: seq<Field>)
    requires !t.endless && t.count <= |fields| && t.sum <= FieldsCost(mode, fields)
    ensures 2 + Joined(t.count, t.sum) <= DumpCost(mode, Obj(fields))
  {
    ObjectCost(mode, fields);
    JoinedMonotone(t.count, |fields|, t.sum, FieldsCost(mode, fields));
  }

  lemma ArrayCovered(mode: Mode, v: Json, k: nat, item: Extent)
    requires Covered(item, DumpCost(mode, v))
    ensures Covered(ArrayExtent(Some(k), item), DumpCost(mode, Arr(Copies(v, k))))
  {
    CopiesArrayCost(mode, v, k);
    if item.AtMost? {
      TimesMonotone(k, item.cost, DumpCost(mode, v));
    }
  }

  lemma TimesMonotone(k: nat, x: nat, y: nat)
    requires x <= y
    ensures k * x <= k * y
  {
  }

  lemma WholeOfJoin(x: Reach, y: Reach, cost: nat)
    ensures Covered(JoinReach(x, y).Whole(), cost) <==> Covered(x.Whole(), cost) && Covered(y.Whole(), cost)
  {
  }

  lemma {:induction false} BranchesCovered(fuel: nat, mode: Mode, branches: seq<Schema>, index: nat, defs: Defs, cap: Option<nat>, cost: nat)
    requires WalkBranches(fuel, branches, index, defs).Ok?
    requires forall b :: b in branches ==> Guarded(fuel, mode, b, defs)
    requires forall w :: w in WalkBranches(fuel, branches, index, defs).value ==> DumpCost(mode, w) <= cost
    ensures SurveyBranches(fuel, mode, EscapeFree, branches, defs, cap).Some?
    ensures Covered(SurveyBranches(fuel, mode, EscapeFree, branches, defs, cap).value.Whole(), cost)
    decreases fuel, 1, 1 + |branches|
  {
    if branches == [] {
    } else {
      AnswersSplit(fuel, branches, index, defs);
      var ws := WalkBranches(fuel, branches, index, defs).value;
      assert ws[0] in ws && forall w :: w in ws[1..] ==> w in ws;
      WalkerCovers(fuel, mode, branches[0], defs, cap);
      BranchesCovered(fuel, mode, branches[1..], index + 1, defs, cap, cost);
      var first := Survey(fuel, mode, EscapeFree, branches[0], defs, cap).value;
      var rest := SurveyBranches(fuel, mode, EscapeFree, branches[1..], defs, cap).value;
      assert SurveyBranches(fuel, mode, EscapeFree, branches, defs, cap) == Some(JoinReach(first, rest));
      WholeOfJoin(first, rest, cost);
    }
  }

  lemma AnswersSplit(fuel: nat, branches: seq<Schema>, index: nat, defs: Defs)
    requires branches != [] && WalkBranches(fuel, branches, index, defs).Ok?
    ensures Walk(fuel, branches[0], defs).Ok? && WalkBranches(fuel, branches[1..], index + 1, defs).Ok?
    ensures var ws := WalkBranches(fuel, branches, index, defs).value;
            ws[0] == Walk(fuel, branches[0], defs).value && ws[1..] == WalkBranches(fuel, branches[1..], index + 1, defs).value
  {
  }

  lemma {:induction false} FieldsCovered(fuel: nat, mode: Mode, properties: seq<Property>, defs: Defs)
    requires WalkProperties(fuel, properties, defs).Ok?
    requires forall p :: p in properties ==> Guarded(fuel, mode, p.schema, defs)
    ensures SurveyProperties(fuel, mode, EscapeFree, properties, defs).Some?
    ensures var t := SurveyProperties(fuel, mode, EscapeFree, properties, defs).value;
            var fields := WalkProperties(fuel, properties, defs).value;
            !t.endless && t.count <= |fields| && t.sum <= FieldsCost(mode, fields)
    decreases fuel, 1, 1 + |properties|
  {
    if properties == [] {
    } else {
      WalkerCovers(fuel, mode, properties[0].schema, defs, None);
      FieldsCovered(fuel, mode, properties[1..], defs);
      var fields := WalkProperties(fuel, properties, defs).value;
      assert fields[1..] == WalkProperties(fuel, properties[1..], defs).value;
    }
  }

  /** Worst-case domination, for every schema: a guarded answer of the walker is at least as
      expensive as every permitted instance whose free text needs no escapes, whatever subset
      of the declared properties it carries and in whatever order. */
  lemma WorstCaseDominates(fuel: nat, mode: Mode, n: Schema, defs: Defs)
    requires Walk(fuel, n, defs).Ok? && Guarded(fuel, mode, n, defs)
    ensures Dominates(mode, EscapeFree, Walk(fuel, n, defs).value, n, defs)
  {
    WalkerCovers(fuel, mode, n, defs, None);
    CoveredDominates(fuel, mode, EscapeFree, n, defs, Walk(fuel, n, defs).value);
  }

  /** The gate built on it: a worst case under the cap means no permitted response is cut. */
  lemma FittingSchemaIsNeverCut(fuel: nat, n: Schema, defs: Defs, cap: nat, d: nat, v: Json)
    requires Walk(fuel, n, defs).Ok? && Guarded(fuel, Tokens, n, defs)
    requires EstimateTokens(WorstCasePayload(fuel, n, defs).value) < cap
    requires PermittedAt(d, EscapeFree, v, n, defs)
    ensures EstimateTokens(Dump(v)) < cap
    ensures LongestFit(Dump(v), cap, |Dump(v)|)
  {
    WorstCaseDominates(fuel, Tokens, n, defs);
    EstimateIsRoundedWeight(Dump(v));
    EstimateIsRoundedWeight(WorstCasePayload(fuel, n, defs).value);
    assert Dump(v)[..|Dump(v)|] == Dump(v);
  }
}
