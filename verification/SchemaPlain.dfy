/** Plain schemas: a condition on the keywords alone under which everything the walker promises
    holds. Its answer is the worst case, and it answers exactly the bounded ones. */
module SchemaPlain {
  import opened Collections
  import opened JsonText
  import opened SchemaWalker
  import opened SchemaExtent
  import opened SchemaTight
  import opened SchemaDomination
  import opened SchemaDecision
  import opened SchemaGuards
  import opened SchemaRefusal
  import opened Truncation

  // ----- keywords the walker gets right

  /** A branch whose text is a bounded string or at most a number. */
  predicate ScalarNode(b: Schema) {
    Free(b) && b.kind.Some? && !b.kind.value.ObjectKind? && !b.kind.value.ArrayKind?
  }

  /** A length bound stands on a string, or on a union of scalars where it leaves room for a
      number. */
  predicate PlainBound(mode: Mode, n: Schema) {
    || (Free(n) && n.kind == Some(StringKind))
    || (&& n.constant.None? && n.enumeration.None? && n.anyOf.AnyOf? && (forall b :: b in n.anyOf.branches ==> ScalarNode(b))
        && n.maxLength.Some? && CapCost(mode, n.maxLength.value) >= NUMERIC_WORST_CASE_CHARS)
  }

  /** All strings, or no string. */
  predicate PlainChoice(mode: Mode, values: seq<Json>) {
    && (forall v :: v in values ==> Narrow(mode, v))
    && ((forall v :: v in values ==> v.Str? && Escape(v.s) == v.s) || forall v :: v in values ==> !v.Str?)
  }

  /** A node whose answer is charged one for each character: a literal without CJK text, or a
      scalar that is not a string. */
  predicate NarrowNode(n: Schema) {
    && !Capped(n)
    && if n.constant.Some? then Narrow(Tokens, n.constant.value)
       else if n.enumeration.Some? then forall v :: v in n.enumeration.value ==> Narrow(Tokens, v)
       else ScalarNode(n) && n.kind.value != StringKind
  }

  /** The length of that answer. */
  function NarrowLength(n: Schema): nat {
    if n.constant.Some? then |Dump(n.constant.value)|
    else if n.enumeration.Some? then (if n.enumeration.value == [] then 0 else |Dump(EnumPick(n.enumeration.value))|)
    else
      match n.kind
      case Some(NullKind) => 4
      case Some(BooleanKind) => 5
      case _ => NUMERIC_WORST_CASE_CHARS + 2
  }

  /** A length that every answer for the node has at least. */
  function LeastLength(n: Schema): nat {
    if Capped(n) then n.maxLength.value + 2
    else if n.constant.Some? then |Dump(n.constant.value)|
    else if Free(n) && n.kind == Some(ObjectKind) then 2 + 4 * |n.properties|
    else 0
  }

  /** The node a branch stands for. */
  function Meant(b: Schema, defs: Defs): Schema {
    match Resolve(b, defs, {})
    case Ok(n) => n
    case Err(_) => EMPTY
  }

  /** At most one branch may answer with CJK text, and that answer is longer than those listed before
      it and no shorter than those after: a nullable field, for one. */
  predicate PlainUnion(branches: seq<Schema>, defs: Defs) {
    forall i, j :: 0 <= i < |branches| && 0 <= j < |branches| && i != j && !NarrowNode(Meant(branches[i], defs)) ==>
      && NarrowNode(Meant(branches[j], defs))
      && NarrowLength(Meant(branches[j], defs)) + (if j < i then 1 else 0) <= LeastLength(Meant(branches[i], defs))
  }

  predicate PlainNode(mode: Mode, n: Schema, defs: Defs)
    requires n.ref.None?
  {
    && (Capped(n) ==> PlainBound(mode, n))
    && (!Capped(n) && n.enumeration.Some? ==> PlainChoice(mode, n.enumeration.value))
    && (!Capped(n) && mode.Tokens? && n.anyOf.AnyOf? ==> PlainUnion(n.anyOf.branches, defs))
    && (n.kind == Some(ObjectKind) ==> n.closed)
  }

  /** No keyword of `n` or of anything below it is one the walker may get wrong. */
  predicate Plain(mode: Mode, n: Schema, defs: Defs)
    decreases n
  {
    && (n.ref.None? ==> PlainNode(mode, n, defs))
    && (forall p :: p in n.properties ==> Plain(mode, p.schema, defs))
    && (n.anyOf.AnyOf? ==> forall b :: b in n.anyOf.branches ==> Plain(mode, b, defs))
    && (n.items.Some? ==> Plain(mode, n.items.value, defs))
  }

  ghost predicate PlainDefs(mode: Mode, defs: Defs) {
    forall name :: name in defs ==> Plain(mode, defs[name], defs)
  }

  lemma {:induction false} ResolvedPlain(mode: Mode, node: Schema, defs: Defs, seen: set<Name>)
    requires Plain(mode, node, defs) && PlainDefs(mode, defs)
    ensures Resolve(node, defs, seen).Ok? ==> Plain(mode, Resolve(node, defs, seen).value, defs)
    decreases |defs.Keys - seen|
  {
    if node.ref.Some? && node.ref.value !in seen && node.ref.value in defs {
      var name := node.ref.value;
      assert defs.Keys - (seen + {name}) < defs.Keys - seen;
      SubsetSize(defs.Keys - (seen + {name}), defs.Keys - seen);
      ResolvedPlain(mode, defs[name], defs, seen + {name});
    }
  }

  lemma ScalarCovered(fuel: nat, mode: Mode, b: Schema, defs: Defs, m: nat)
    requires ScalarNode(b) && fuel > 0 && CapCost(mode, m) >= NUMERIC_WORST_CASE_CHARS
    ensures Survey(fuel, mode, EscapeFree, b, defs, Some(m)).Some?
    ensures Covered(Survey(fuel, mode, EscapeFree, b, defs, Some(m)).value.Whole(), CapCost(mode, m))
  {
    var c := MinCap(Some(m), b.maxLength);
    TimesMonotone(CharCost(mode, WIDE), c.value, m);
  }

  lemma {:induction false} ScalarsCovered(fuel: nat, mode: Mode, branches: seq<Schema>, defs: Defs, m: nat)
    requires fuel > 0 && CapCost(mode, m) >= NUMERIC_WORST_CASE_CHARS && forall b :: b in branches ==> ScalarNode(b)
    ensures SurveyBranches(fuel, mode, EscapeFree, branches, defs, Some(m)).Some?
    ensures Covered(SurveyBranches(fuel, mode, EscapeFree, branches, defs, Some(m)).value.Whole(), CapCost(mode, m))
  {
    if branches == [] {
    } else {
      ScalarsCovered(fuel, mode, branches[1..], defs, m);
      ScalarCovered(fuel, mode, branches[0], defs, m);
      WholeOfJoin(Survey(fuel, mode, EscapeFree, branches[0], defs, Some(m)).value,
                  SurveyBranches(fuel, mode, EscapeFree, branches[1..], defs, Some(m)).value, CapCost(mode, m));
    }
  }

  lemma PlainChoiceIsRight(mode: Mode, values: seq<Json>)
    requires PlainChoice(mode, values) && values != []
    ensures forall v :: v in values ==> DumpCost(mode, v) <= DumpCost(mode, EnumPick(values))
  {
    var p := EnumPick(values);
    NarrowCost(mode, p);
    WrittenLength(p);
    forall v | v in values
      ensures DumpCost(mode, v) <= DumpCost(mode, p)
    {
      NarrowCost(mode, v);
      WrittenLength(v);
    }
  }

  lemma WidestIsLongest(values: seq<Json>)
    requires values != []
    ensures forall w :: w in values ==> DumpCost(Length, w) <= DumpCost(Length, WidestPick(values))
  {
    CostOfLength(Dump(WidestPick(values)));
    forall w | w in values
      ensures DumpCost(Length, w) <= DumpCost(Length, WidestPick(values))
    {
      CostOfLength(Dump(w));
    }
  }

  // ----- unions, in tokens

  lemma {:induction false} AnswerAt(fuel: nat, branches: seq<Schema>, index: nat, defs: Defs, i: nat)
    requires WalkBranches(fuel, branches, index, defs).Ok? && i < |branches|
    ensures Walk(fuel, branches[i], defs) == Ok(WalkBranches(fuel, branches, index, defs).value[i])
    decreases |branches|
  {
    AnswersSplit(fuel, branches, index, defs);
    if i == 0 {
    } else {
      AnswerAt(fuel, branches[1..], index + 1, defs, i - 1);
    }
  }

  lemma NinesAreNarrow()
    ensures var v := Str(Repeat('9', NUMERIC_WORST_CASE_CHARS));
            Narrow(Tokens, v) && |Dump(v)| == NUMERIC_WORST_CASE_CHARS + 2
  {
    var s := Repeat('9', NUMERIC_WORST_CASE_CHARS);
    NothingToEscape(s);
  }

  lemma NarrowAnswer(fuel: nat, b: Schema, defs: Defs)
    requires Walk(fuel, b, defs).Ok? && NarrowNode(Meant(b, defs))
    ensures Narrow(Tokens, Walk(fuel, b, defs).value)
    ensures |Dump(Walk(fuel, b, defs).value)| == NarrowLength(Meant(b, defs))
  {
    NinesAreNarrow();
  }

  lemma {:induction false} FieldsAreWide(fields: seq<Field>)
    ensures FieldsCost(Length, fields) >= 4 * |fields|
  {
    if fields == [] {
    } else {
      FieldsAreWide(fields[1..]);
      QuotedCost(Length, fields[0].key);
    }
  }

  lemma ObjectIsWide(fields: seq<Field>)
    ensures |Dump(Obj(fields))| >= 2 + 4 * |fields|
  {
    FieldsAreWide(fields);
    ObjectCost(Length, fields);
    CostOfLength(Dump(Obj(fields)));
  }

  lemma LeastAnswer(fuel: nat, b: Schema, defs: Defs)
    requires Walk(fuel, b, defs).Ok?
    ensures |Dump(Walk(fuel, b, defs).value)| >= LeastLength(Meant(b, defs))
  {
    var n := Meant(b, defs);
    if Capped(n) {
      WideTextCost(Length, n.maxLength.value);
      CostOfLength(Dump(Str(Repeat(WIDE, n.maxLength.value))));
    } else if n.constant.None? && Free(n) && n.kind == Some(ObjectKind) {
      ObjectIsWide(WalkProperties(fuel - 1, n.properties, defs).value);
    }
  }

  lemma FirstWidest(values: seq<Json>) returns (best: nat)
    requires values != []
    ensures best < |values| && values[best] == WidestPick(values)
    ensures forall i :: 0 <= i < |values| ==> |Dump(values[i])| <= |Dump(values[best])|
    ensures forall i :: 0 <= i < best ==> |Dump(values[i])| < |Dump(values[best])|
  {
    var sizes := seq(|values|, i requires 0 <= i < |values| => |Dump(values[i])|);
    best := FirstMax(sizes);
    assert forall i :: 0 <= i < |values| ==> sizes[i] == |Dump(values[i])|;
  }

  lemma HeaviestOfTwo(fuel: nat, branches: seq<Schema>, values: seq<Json>, defs: Defs, best: nat, i: nat)
    requires PlainUnion(branches, defs) && WalkBranches(fuel, branches, 0, defs) == Ok(values)
    requires best < |values| && i < |values| && i != best
    requires |Dump(values[i])| <= |Dump(values[best])| && (i < best ==> |Dump(values[i])| < |Dump(values[best])|)
    ensures DumpCost(Tokens, values[i]) <= DumpCost(Tokens, values[best])
  {
    AnswerAt(fuel, branches, 0, defs, i);
    AnswerAt(fuel, branches, 0, defs, best);
    if NarrowNode(Meant(branches[i], defs)) {
      NarrowAnswer(fuel, branches[i], defs);
      NarrowCost(Tokens, values[i]);
      CostAtLeastLength(Tokens, Dump(values[best]));
    } else {
      NarrowAnswer(fuel, branches[best], defs);
      LeastAnswer(fuel, branches[i], defs);
    }
  }

  /** In a plain union the longest answer is also the heaviest. */
  lemma PlainUnionIsRight(fuel: nat, branches: seq<Schema>, values: seq<Json>, defs: Defs)
    requires PlainUnion(branches, defs) && WalkBranches(fuel, branches, 0, defs) == Ok(values) && values != []
    ensures forall w :: w in values ==> DumpCost(Tokens, w) <= DumpCost(Tokens, WidestPick(values))
  {
    var best := FirstWidest(values);
    forall i | 0 <= i < |values|
      ensures DumpCost(Tokens, values[i]) <= DumpCost(Tokens, values[best])
    {
      if i != best {
        HeaviestOfTwo(fuel, branches, values, defs, best, i);
      }
    }
  }

  // ----- every choice is guarded

  /** On a plain schema every choice of the walker is guarded. */
  lemma {:induction false} PlainIsGuarded(fuel: nat, mode: Mode, node: Schema, defs: Defs)
    requires Plain(mode, node, defs) && PlainDefs(mode, defs) && Walk(fuel, node, defs).Ok?
    ensures Guarded(fuel + 1, mode, node, defs)
    decreases fuel, 0, 1
  {
    ResolvedPlain(mode, node, defs, {});
    var n := Resolve(node, defs, {}).value;
    if Capped(n) {
      PlainBoundIsGuarded(fuel, mode, n, defs);
    } else if n.constant.Some? {
    } else if n.enumeration.Some? {
      PlainChoiceIsRight(mode, n.enumeration.value);
    } else if n.anyOf.AnyOf? {
      PlainUnionIsGuarded(fuel, mode, n, defs);
    } else if n.kind == Some(ObjectKind) {
      PlainObjectIsGuarded(fuel, mode, node, n, defs);
    } else if n.kind == Some(ArrayKind) && n.maxItems.value > 0 {
      PlainArrayIsGuarded(fuel, mode, node, n, defs);
    }
  }

  lemma {:induction false} PlainObjectIsGuarded(fuel: nat, mode: Mode, node: Schema, n: Schema, defs: Defs)
    requires PlainDefs(mode, defs) && Resolve(node, defs, {}) == Ok(n)
    requires !Capped(n) && Free(n) && n.kind == Some(ObjectKind) && n.closed
    requires forall p :: p in n.properties ==> Plain(mode, p.schema, defs)
    requires fuel > 0 && WalkProperties(fuel - 1, n.properties, defs).Ok?
    ensures Guarded(fuel + 1, mode, node, defs)
    decreases fuel, 0, 0
  {
    PlainPropertiesAreGuarded(fuel - 1, fuel, mode, n.properties, defs);
    GuardedObject(fuel, mode, node, n, defs);
  }

  lemma GuardedObject(fuel: nat, mode: Mode, node: Schema, n: Schema, defs: Defs)
    requires Resolve(node, defs, {}) == Ok(n) && !Capped(n) && Free(n) && n.kind == Some(ObjectKind) && n.closed
    requires forall p :: p in n.properties ==> Guarded(fuel, mode, p.schema, defs)
    ensures Guarded(fuel + 1, mode, node, defs)
  {
  }

  lemma {:induction false} PlainArrayIsGuarded(fuel: nat, mode: Mode, node: Schema, n: Schema, defs: Defs)
    requires PlainDefs(mode, defs) && Resolve(node, defs, {}) == Ok(n)
    requires Plain(mode, n, defs) && !Capped(n) && Free(n) && n.kind == Some(ArrayKind)
    requires fuel > 0 && n.maxItems.Some? && n.maxItems.value > 0 && Walk(fuel - 1, ItemsOf(n), defs).Ok?
    ensures Guarded(fuel + 1, mode, node, defs)
    decreases fuel, 0, 0
  {
    PlainItems(mode, n, defs);
    PlainIsGuarded(fuel - 1, mode, ItemsOf(n), defs);
  }

  lemma PlainItems(mode: Mode, n: Schema, defs: Defs)
    requires Plain(mode, n, defs)
    ensures Plain(mode, ItemsOf(n), defs)
  {
    assert Plain(mode, EMPTY, defs);
  }

  lemma PlainBoundIsGuarded(fuel: nat, mode: Mode, n: Schema, defs: Defs)
    requires fuel > 0 && n.ref.None? && Capped(n) && PlainBound(mode, n)
    ensures var r := Survey(fuel + 1, mode, EscapeFree, n, defs, None);
            r.Some? && Covered(r.value.Whole(), CapCost(mode, n.maxLength.value))
  {
    if n.anyOf.AnyOf? {
      ScalarsCovered(fuel, mode, n.anyOf.branches, defs, n.maxLength.value);
    }
  }

  lemma {:induction false} PlainUnionIsGuarded(fuel: nat, mode: Mode, n: Schema, defs: Defs)
    requires fuel > 0 && PlainDefs(mode, defs) && n.ref.None? && !Capped(n) && n.anyOf.AnyOf?
    requires forall b :: b in n.anyOf.branches ==> Plain(mode, b, defs)
    requires mode.Tokens? ==> PlainUnion(n.anyOf.branches, defs)
    requires WalkBranches(fuel - 1, n.anyOf.branches, 0, defs).Ok?
    ensures forall b :: b in n.anyOf.branches ==> Guarded(fuel, mode, b, defs)
    ensures var ws := WalkBranches(fuel, n.anyOf.branches, 0, defs);
            ws.Ok? && ws.value != [] ==> forall w :: w in ws.value ==> DumpCost(mode, w) <= DumpCost(mode, WidestPick(ws.value))
    decreases fuel, 0, 0
  {
    PlainBranchesAreGuarded(fuel - 1, fuel, mode, n.anyOf.branches, 0, defs);
    if WalkBranches(fuel, n.anyOf.branches, 0, defs).Ok? && WalkBranches(fuel, n.anyOf.branches, 0, defs).value != [] {
      PickIsRight(fuel, mode, n.anyOf.branches, WalkBranches(fuel, n.anyOf.branches, 0, defs).value, defs);
    }
  }

  lemma PickIsRight(fuel: nat, mode: Mode, branches: seq<Schema>, values: seq<Json>, defs: Defs)
    requires mode.Tokens? ==> PlainUnion(branches, defs)
    requires WalkBranches(fuel, branches, 0, defs) == Ok(values) && values != []
    ensures forall w :: w in values ==> DumpCost(mode, w) <= DumpCost(mode, WidestPick(values))
  {
    if mode.Length? {
      WidestIsLongest(values);
    } else {
      PlainUnionIsRight(fuel, branches, values, defs);
    }
  }

  lemma {:induction false} PlainBranchesAreGuarded(fuel: nat, more: nat, mode: Mode, branches: seq<Schema>, index: nat, defs: Defs)
    requires PlainDefs(mode, defs) && forall b :: b in branches ==> Plain(mode, b, defs)
    requires more == fuel + 1 && WalkBranches(fuel, branches, index, defs).Ok?
    ensures forall b :: b in branches ==> Guarded(more, mode, b, defs)
    decreases fuel, 1 + |branches|, 0
  {
    if branches == [] {
    } else {
      PlainIsGuarded(fuel, mode, branches[0], defs);
      PlainBranchesAreGuarded(fuel, more, mode, branches[1..], index + 1, defs);
      assert forall b :: b in branches <==> b == branches[0] || b in branches[1..];
    }
  }

  lemma {:induction false} PlainPropertiesAreGuarded(fuel: nat, more: nat, mode: Mode, properties: seq<Property>, defs: Defs)
    requires PlainDefs(mode, defs) && forall p :: p in properties ==> Plain(mode, p.schema, defs)
    requires more == fuel + 1 && WalkProperties(fuel, properties, defs).Ok?
    ensures forall p :: p in properties ==> Guarded(more, mode, p.schema, defs)
    decreases fuel, 1 + |properties|, 0
  {
    if properties == [] {
    } else {
      PlainIsGuarded(fuel, mode, properties[0].schema, defs);
      PlainPropertiesAreGuarded(fuel, more, mode, properties[1..], defs);
      assert forall p :: p in properties <==> p == properties[0] || p in properties[1..];
    }
  }

  /** Worst-case domination without looking at any answer: whatever the walker returns for a plain
      schema is the worst case. */
  lemma PlainSchemasAreDominated(fuel: nat, mode: Mode, n: Schema, defs: Defs)
    requires Plain(mode, n, defs) && PlainDefs(mode, defs) && Walk(fuel, n, defs).Ok?
    ensures Dominates(mode, EscapeFree, Walk(fuel, n, defs).value, n, defs)
  {
    PlainIsGuarded(fuel, mode, n, defs);
    MoreStackSameAnswer(fuel, fuel + 1, n, defs);
    WorstCaseDominates(fuel + 1, mode, n, defs);
  }

  /** A plain schema whose worst case is under the cap never has a permitted response cut. */
  lemma FittingPlainSchemaIsNeverCut(fuel: nat, n: Schema, defs: Defs, cap: nat, d: nat, v: Json)
    requires Plain(Tokens, n, defs) && PlainDefs(Tokens, defs) && Walk(fuel, n, defs).Ok?
    requires EstimateTokens(WorstCasePayload(fuel, n, defs).value) < cap
    requires PermittedAt(d, EscapeFree, v, n, defs)
    ensures LongestFit(Dump(v), cap, |Dump(v)|)
  {
    PlainIsGuarded(fuel, Tokens, n, defs);
    MoreStackSameAnswer(fuel, fuel + 1, n, defs);
    FittingSchemaIsNeverCut(fuel + 1, n, defs, cap, d, v);
  }

  // ----- plain schemas are decided

  /** Where its choices are guarded, the walker passes nothing endless over. */
  lemma {:induction false} GuardedHidesNothing(fuel: nat, mode: Mode, node: Schema, defs: Defs)
    requires Guarded(fuel, mode, node, defs)
    ensures NothingHidden(fuel, mode, EscapeFree, node, defs)
    decreases fuel
  {
    var n := Resolve(node, defs, {}).value;
    if Capped(n) {
      SurveyOfResolved(fuel, mode, EscapeFree, node, defs, None);
    } else if n.constant.Some? || n.enumeration.Some? {
    } else if n.anyOf.AnyOf? {
      forall b | b in n.anyOf.branches
        ensures NothingHidden(fuel - 1, mode, EscapeFree, b, defs)
      {
        GuardedHidesNothing(fuel - 1, mode, b, defs);
      }
    } else if n.kind == Some(ObjectKind) {
      forall p | p in n.properties
        ensures NothingHidden(fuel - 1, mode, EscapeFree, p.schema, defs)
      {
        GuardedHidesNothing(fuel - 1, mode, p.schema, defs);
      }
    } else if n.kind == Some(ArrayKind) && n.maxItems.Some? && n.maxItems.value > 0 {
      GuardedHidesNothing(fuel - 1, mode, ItemsOf(n), defs);
    }
  }

  /** A plain schema is answered exactly when its instances are bounded. */
  lemma PlainSchemasAreDecided(fuel: nat, mode: Mode, n: Schema, defs: Defs)
    requires WellShaped(n) && WellShapedDefs(defs) && Plain(mode, n, defs) && PlainDefs(mode, defs)
    requires Survey(fuel, mode, EscapeFree, n, defs, None).Some?
    ensures Bounded(mode, EscapeFree, n, defs) <==> Walk(fuel, n, defs).Ok?
  {
    WalkerDecidesBoundedness(fuel, mode, EscapeFree, n, defs);
    if Walk(fuel, n, defs).Ok? {
      PlainIsGuarded(fuel, mode, n, defs);
      GuardedHidesNothing(fuel + 1, mode, n, defs);
      MoreStackSameAnswer(fuel, fuel + 1, n, defs);
      MoreFuelSurveys(fuel, fuel + 1, mode, EscapeFree, n, defs, None);
      WalkerDecidesBoundedness(fuel + 1, mode, EscapeFree, n, defs);
    }
  }

  ghost predicate PlainlyDecided(fuel: nat, mode: Mode, n: Schema, defs: Defs) {
    && (Bounded(mode, EscapeFree, n, defs) <==> Walk(fuel, n, defs).Ok?)
    && (Bounded(mode, EscapeFree, n, defs) <==> !HasGap(n, defs))
  }

  /** With acyclic definitions, from some stack depth on, a plain schema is answered exactly when
      its instances are bounded, and that is when no visited node lacks a bound. */
  lemma AcyclicPlainSchemasAreDecided(mode: Mode, n: Schema, defs: Defs, rank: map<Name, nat>, r: nat) returns (enough: nat)
    requires WellShaped(n) && WellShapedDefs(defs) && Plain(mode, n, defs) && PlainDefs(mode, defs)
    requires Acyclic(defs, rank) && RefsBelow(n, defs, rank, r)
    ensures forall fuel: nat :: fuel >= enough ==> PlainlyDecided(fuel, mode, n, defs)
  {
    enough := EnoughFuel(mode, EscapeFree, n, defs, rank, r, None);
    forall fuel: nat | fuel >= enough
      ensures PlainlyDecided(fuel, mode, n, defs)
    {
      MoreFuelSurveys(enough, fuel, mode, EscapeFree, n, defs, None);
      PlainSchemasAreDecided(fuel, mode, n, defs);
      WalkerDecidesBoundedness(fuel, mode, EscapeFree, n, defs);
      RaisesExactlyAtGaps(fuel, n, defs);
    }
  }
}
