/** When the walker's choices are right, in terms a reader of the schema can check: for an
    enumeration and for a union. */
module SchemaGuards {
  import opened Collections
  import opened JsonText
  import opened SchemaWalker
  import opened SchemaExtent
  import opened SchemaTight
  import opened SchemaDomination

  // ----- enumerations

  function EnumNode(values: seq<Json>): Schema {
    EMPTY.(enumeration := Some(values))
  }

  /** `v` is charged one for each character. */
  predicate Narrow(mode: Mode, v: Json) {
    mode.Length? || forall i :: 0 <= i < |Dump(v)| ==> !IsCjk(Dump(v)[i])
  }

  lemma NarrowCost(mode: Mode, v: Json)
    requires Narrow(mode, v)
    ensures DumpCost(mode, v) == |Dump(v)|
  {
    if mode.Length? {
      CostOfLength(Dump(v));
    } else {
      PlainCost(mode, Dump(v));
    }
  }

  /** A string is written with two characters more than `str` counts, anything else with none. */
  lemma WrittenLength(v: Json)
    requires v.Str? ==> Escape(v.s) == v.s
    ensures |Dump(v)| == StrLength(v) + if v.Str? then 2 else 0
  {
  }

  predicate ProperMember(mode: Mode, v: Json) {
    Narrow(mode, v) && (v.Str? ==> Escape(v.s) == v.s) && (v.Obj? ==> DistinctKeys(v.fields))
  }

  /** The longest string, or the longest other member, as `str` counts. */
  function Longest(values: seq<Json>, isText: bool): (r: Option<nat>)
    ensures r.None? ==> forall v :: v in values ==> v.Str? != isText
    ensures r.Some? ==> exists v :: v in values && v.Str? == isText && StrLength(v) == r.value
    ensures r.Some? ==> forall v :: v in values && v.Str? == isText ==> StrLength(v) <= r.value
  {
    if values == [] then None
    else
      var rest := Longest(values[1..], isText);
      if values[0].Str? != isText then rest
      else if rest.Some? && rest.value > StrLength(values[0]) then rest
      else Some(StrLength(values[0]))
  }

  /** A string is the first of the members that `str` makes `n` characters of. */
  predicate TextComesFirst(values: seq<Json>, n: nat) {
    exists i :: 0 <= i < |values| && values[i].Str? && StrLength(values[i]) == n && forall j :: 0 <= j < i ==> StrLength(values[j]) != n
  }

  /** The longest string is longer than everything else, or so much shorter that its quotes do not
      matter, or as long as something else and listed before it. */
  predicate QuotesDoNotMatter(values: seq<Json>) {
    match (Longest(values, true), Longest(values, false))
    case (Some(s), Some(t)) => s > t || s + 2 <= t || (s == t && TextComesFirst(values, s))
    case _ => true
  }

  lemma MembersArePermitted(mode: Mode, a: Alphabet, values: seq<Json>, defs: Defs)
    requires values != [] && forall v :: v in values ==> ProperMember(mode, v)
    ensures Walk(1, EnumNode(values), defs) == Ok(EnumPick(values))
    ensures Dominates(mode, a, EnumPick(values), EnumNode(values), defs)
            <==> forall v :: v in values ==> DumpCost(mode, v) <= DumpCost(mode, EnumPick(values))
  {
    forall v | v in values
      ensures PermittedAt(1, a, v, EnumNode(values), defs)
    {
      assert ProperMember(mode, v);
    }
  }

  lemma FirstPicked(values: seq<Json>)
    requires values != []
    ensures EnumPick(values).Str? <==> TextComesFirst(values, StrLength(EnumPick(values)))
  {
    var sizes := StrLengths(values);
    var best := FirstMax(sizes);
    assert forall j :: 0 <= j < best ==> sizes[j] < sizes[best];
    if TextComesFirst(values, StrLength(EnumPick(values))) {
      var i :| 0 <= i < |values| && values[i].Str? && StrLength(values[i]) == sizes[best] && forall j :: 0 <= j < i ==> StrLength(values[j]) != sizes[best];
      assert i == best;
    }
  }

  /** The member picked by the length of its `str` is the worst case exactly when the quotes that
      `str` does not count cannot matter. */
  lemma EnumExact(mode: Mode, a: Alphabet, values: seq<Json>, defs: Defs)
    requires values != [] && forall v :: v in values ==> ProperMember(mode, v)
    ensures Walk(1, EnumNode(values), defs) == Ok(EnumPick(values))
    ensures Dominates(mode, a, EnumPick(values), EnumNode(values), defs) <==> QuotesDoNotMatter(values)
  {
    MembersArePermitted(mode, a, values, defs);
    forall v | v in values
      ensures DumpCost(mode, v) == StrLength(v) + if v.Str? then 2 else 0
    {
      assert ProperMember(mode, v);
      NarrowCost(mode, v);
      WrittenLength(v);
    }
    FirstPicked(values);
    CheapestQuotes(mode, values);
  }

  lemma CheapestQuotes(mode: Mode, values: seq<Json>)
    requires values != []
    requires forall v :: v in values ==> DumpCost(mode, v) == StrLength(v) + if v.Str? then 2 else 0
    requires EnumPick(values).Str? <==> TextComesFirst(values, StrLength(EnumPick(values)))
    ensures (forall v :: v in values ==> DumpCost(mode, v) <= DumpCost(mode, EnumPick(values))) <==> QuotesDoNotMatter(values)
  {
    var p := EnumPick(values);
    var s, t := Longest(values, true), Longest(values, false);
    if s.Some? && t.Some? {
      assert StrLength(p) == if s.value >= t.value then s.value else t.value;
    }
  }

  // ----- unions

  /** The extent of one branch fits under `cost`. */
  predicate BranchFits(fuel: nat, mode: Mode, a: Alphabet, b: Schema, defs: Defs, cost: nat) {
    var r := Survey(fuel, mode, a, b, defs, None);
    r.Some? && Covered(r.value.Whole(), cost)
  }

  lemma {:induction false} BranchesFit(fuel: nat, mode: Mode, a: Alphabet, branches: seq<Schema>, defs: Defs, cost: nat)
    requires SurveyBranches(fuel, mode, a, branches, defs, None).Some?
    ensures Covered(SurveyBranches(fuel, mode, a, branches, defs, None).value.Whole(), cost)
            <==> forall b :: b in branches ==> BranchFits(fuel, mode, a, b, defs, cost)
  {
    if branches == [] {
    } else {
      BranchesFit(fuel, mode, a, branches[1..], defs, cost);
      var first := Survey(fuel, mode, a, branches[0], defs, None).value;
      var rest := SurveyBranches(fuel, mode, a, branches[1..], defs, None).value;
      assert SurveyBranches(fuel, mode, a, branches, defs, None) == Some(JoinReach(first, rest));
      WholeOfJoin(first, rest, cost);
      assert BranchFits(fuel, mode, a, branches[0], defs, cost) <==> Covered(first.Whole(), cost);
      assert forall b :: b in branches <==> b == branches[0] || b in branches[1..];
    }
  }

  lemma SurveyOfUnion(fuel: nat, mode: Mode, n: Schema, defs: Defs)
    requires fuel > 0 && OneShape(n) && n.ref.None? && n.anyOf.AnyOf? && n.maxLength.None?
    ensures Survey(fuel, mode, EscapeFree, n, defs, None) == SurveyBranches(fuel - 1, mode, EscapeFree, n.anyOf.branches, defs, None)
  {
  }

  /** The branch answer picked by text length is the worst case of a union exactly when the extent
      of every branch fits under it. */
  lemma UnionExact(fuel: nat, mode: Mode, n: Schema, defs: Defs, values: seq<Json>)
    requires WellShaped(n) && WellShapedDefs(defs) && n.ref.None? && n.anyOf.AnyOf? && n.maxLength.None?
    requires fuel > 0 && WalkBranches(fuel - 1, n.anyOf.branches, 0, defs) == Ok(values)
    requires Survey(fuel, mode, EscapeFree, n, defs, None).Some?
    ensures values != [] && Walk(fuel, n, defs) == Ok(WidestPick(values))
    ensures Dominates(mode, EscapeFree, WidestPick(values), n, defs) <==>
              forall b :: b in n.anyOf.branches ==> BranchFits(fuel - 1, mode, EscapeFree, b, defs, DumpCost(mode, WidestPick(values)))
  {
    WalkOfUnion(fuel, n, defs, values);
    UnionDominates(fuel, mode, n, defs, WidestPick(values));
  }

  lemma WalkOfUnion(fuel: nat, n: Schema, defs: Defs, values: seq<Json>)
    requires OneShape(n) && n.ref.None? && n.anyOf.AnyOf? && n.maxLength.None?
    requires fuel > 0 && WalkBranches(fuel - 1, n.anyOf.branches, 0, defs) == Ok(values)
    ensures values != [] && Walk(fuel, n, defs) == Ok(WidestPick(values))
  {
    assert |values| == |n.anyOf.branches|;
  }

  lemma UnionDominates(fuel: nat, mode: Mode, n: Schema, defs: Defs, w: Json)
    requires WellShaped(n) && WellShapedDefs(defs) && n.ref.None? && n.anyOf.AnyOf? && n.maxLength.None?
    requires fuel > 0 && Survey(fuel, mode, EscapeFree, n, defs, None).Some?
    ensures Dominates(mode, EscapeFree, w, n, defs) <==>
              forall b :: b in n.anyOf.branches ==> BranchFits(fuel - 1, mode, EscapeFree, b, defs, DumpCost(mode, w))
  {
    SurveyOfUnion(fuel, mode, n, defs);
    DominatesExactlyWhenCovered(fuel, mode, EscapeFree, n, defs, w);
    BranchesFit(fuel - 1, mode, EscapeFree, n.anyOf.branches, defs, DumpCost(mode, w));
  }
}
