/** The walker as a decision procedure: on acyclic schemas it answers exactly when the
    permitted instances have a bounded text, except where a length bound hides a part of the
    node that it does not constrain, or an object is left open. */
module SchemaDecision {
  import opened Collections
  import opened JsonText
  import opened SchemaWalker
  import opened SchemaExtent
  import opened SchemaTight

  ghost predicate Bounded(mode: Mode, a: Alphabet, n: Schema, defs: Defs) {
    exists bound: nat :: BoundedBy(mode, a, n, defs, bound)
  }

  ghost predicate BoundedBy(mode: Mode, a: Alphabet, n: Schema, defs: Defs, bound: nat) {
    forall d: nat, v :: PermittedAt(d, a, v, n, defs) ==> DumpCost(mode, v) <= bound
  }

  lemma BoundedExactlyWhenNotEndless(fuel: nat, mode: Mode, a: Alphabet, n: Schema, defs: Defs)
    requires WellShaped(n) && WellShapedDefs(defs)
    requires Survey(fuel, mode, a, n, defs, None).Some?
    ensures Bounded(mode, a, n, defs) <==> !Survey(fuel, mode, a, n, defs, None).value.Whole().Endless?
  {
    var whole := Survey(fuel, mode, a, n, defs, None).value.Whole();
    if whole.Endless? {
      forall bound: nat
        ensures !BoundedBy(mode, a, n, defs, bound)
      {
        var d, v := WholeReached(fuel, mode, a, n, defs, bound + 1);
        assert PermittedAt(d, a, v, n, defs);
      }
    } else {
      var bound := if whole.AtMost? then whole.cost else 0;
      forall d: nat, v | PermittedAt(d, a, v, n, defs)
        ensures DumpCost(mode, v) <= bound
      {
        SurveyBoundsPermitted(fuel, mode, a, d, v, n, defs, None);
      }
      assert BoundedBy(mode, a, n, defs, bound);
    }
  }

  /** Nothing the walker passes over without looking is endless. */
  predicate NothingHidden(fuel: nat, mode: Mode, a: Alphabet, node: Schema, defs: Defs)
    decreases fuel
  {
    && fuel > 0
    && Resolve(node, defs, {}).Ok?
    && var n := Resolve(node, defs, {}).value;
       if Capped(n) then
         var r := Survey(fuel, mode, a, node, defs, None);
         r.Some? && !r.value.Whole().Endless?
       else if n.constant.Some? || n.enumeration.Some? then true
       else if n.anyOf.AnyOf? then forall b :: b in n.anyOf.branches ==> NothingHidden(fuel - 1, mode, a, b, defs)
       else if n.kind == Some(ObjectKind) then
         n.closed && forall p :: p in n.properties ==> NothingHidden(fuel - 1, mode, a, p.schema, defs)
       else if n.kind == Some(ArrayKind) then
         n.maxItems.Some? && n.maxItems.value > 0 ==> NothingHidden(fuel - 1, mode, a, ItemsOf(n), defs)
       else true
  }

  // ----- every well-shaped schema has an instance

  lemma {:induction false} ListedIsFinite(mode: Mode, values: seq<Json>, cap: Option<nat>)
    ensures !ListedReach(mode, values, cap).Whole().Endless?
    ensures values != [] && cap.None? ==> !ListedReach(mode, values, cap).Whole().Absent?
  {
    if values == [] {
    } else {
      ListedIsFinite(mode, values[1..], cap);
    }
  }

  lemma FreeIsPresent(fuel: nat, mode: Mode, a: Alphabet, n: Schema, defs: Defs, cap: Option<nat>)
    requires Free(n) && OneShape(n) && Survey(fuel, mode, a, n, defs, cap).Some?
    ensures !Survey(fuel, mode, a, n, defs, cap).value.Whole().Absent?
  {
  }

  lemma {:induction false} MemberIsPresent(fuel: nat, mode: Mode, a: Alphabet, branches: seq<Schema>, b: Schema, defs: Defs, cap: Option<nat>)
    requires b in branches && SurveyBranches(fuel, mode, a, branches, defs, cap).Some?
    requires Survey(fuel, mode, a, b, defs, cap).Some? ==> !Survey(fuel, mode, a, b, defs, cap).value.Whole().Absent?
    ensures !SurveyBranches(fuel, mode, a, branches, defs, cap).value.Whole().Absent?
  {
    if b != branches[0] {
      MemberIsPresent(fuel, mode, a, branches[1..], b, defs, cap);
    }
  }

  lemma {:induction false} SchemaIsPresent(fuel: nat, mode: Mode, a: Alphabet, node: Schema, defs: Defs)
    requires WellShaped(node) && WellShapedDefs(defs) && Survey(fuel, mode, a, node, defs, None).Some?
    ensures !Survey(fuel, mode, a, node, defs, None).value.Whole().Absent?
    decreases fuel
  {
    ResolvedWellShaped(node, defs, {});
    var n := Resolve(node, defs, {}).value;
    if n.constant.Some? {
      ListedIsFinite(mode, [n.constant.value], None);
    } else if n.enumeration.Some? {
      ListedIsFinite(mode, n.enumeration.value, None);
    } else if n.anyOf.AnyOf? {
      assert n.anyOf.branches[0] in n.anyOf.branches;
      var b :| b in n.anyOf.branches && (n.maxLength.Some? ==> Free(b));
      if Survey(fuel - 1, mode, a, b, defs, n.maxLength).Some? {
        if n.maxLength.Some? {
          FreeIsPresent(fuel - 1, mode, a, b, defs, n.maxLength);
        } else {
          SchemaIsPresent(fuel - 1, mode, a, b, defs);
        }
      }
      MemberIsPresent(fuel - 1, mode, a, n.anyOf.branches, b, defs, n.maxLength);
    }
  }

  // ----- the decision

  ghost predicate Decided(fuel: nat, mode: Mode, a: Alphabet, node: Schema, defs: Defs, r: Option<Reach>) {
    && r.Some?
    && (!r.value.Whole().Endless? <==> Walk(fuel, node, defs).Ok? && NothingHidden(fuel, mode, a, node, defs))
    && (Walk(fuel, node, defs).Err? ==> Walk(fuel, node, defs).error.Unbounded?)
  }

  lemma {:induction false} WalkerDecidesSurvey(fuel: nat, mode: Mode, a: Alphabet, node: Schema, defs: Defs)
    requires WellShaped(node) && WellShapedDefs(defs) && Survey(fuel, mode, a, node, defs, None).Some?
    ensures Decided(fuel, mode, a, node, defs, Survey(fuel, mode, a, node, defs, None))
    decreases fuel, 0, 1
  {
    ResolvedWellShaped(node, defs, {});
    var n := Resolve(node, defs, {}).value;
    if Capped(n) {
    } else if n.constant.Some? || n.enumeration.Some? {
      ListDecided(fuel, mode, a, node, defs);
    } else if n.anyOf.AnyOf? {
      UnionDecided(fuel, mode, a, node, defs);
    } else if n.kind == Some(ObjectKind) {
      ObjectDecided(fuel, mode, a, node, defs);
    } else if n.kind == Some(ArrayKind) {
      ArrayDecided(fuel, mode, a, node, defs);
    }
  }

  lemma {:induction false} UnionDecided(fuel: nat, mode: Mode, a: Alphabet, node: Schema, defs: Defs)
    requires WellShapedDefs(defs) && Survey(fuel, mode, a, node, defs, None).Some?
    requires var n := Resolve(node, defs, {}).value;
             WellShaped(n) && !Capped(n) && n.anyOf.AnyOf? && n.constant.None? && n.enumeration.None?
    ensures Decided(fuel, mode, a, node, defs, Survey(fuel, mode, a, node, defs, None))
    decreases fuel, 0, 0
  {
    var n := Resolve(node, defs, {}).value;
    BranchesDecided(fuel - 1, mode, a, n.anyOf.branches, 0, defs);
  }

  lemma {:induction false} ObjectDecided(fuel: nat, mode: Mode, a: Alphabet, node: Schema, defs: Defs)
    requires WellShapedDefs(defs) && Survey(fuel, mode, a, node, defs, None).Some?
    requires var n := Resolve(node, defs, {}).value;
             WellShaped(n) && Free(n) && n.kind == Some(ObjectKind)
    ensures Decided(fuel, mode, a, node, defs, Survey(fuel, mode, a, node, defs, None))
    decreases fuel, 0, 0
  {
    var n := Resolve(node, defs, {}).value;
    PropertiesDecided(fuel - 1, mode, a, n.properties, defs);
  }

  lemma ListDecided(fuel: nat, mode: Mode, a: Alphabet, node: Schema, defs: Defs)
    requires Survey(fuel, mode, a, node, defs, None).Some?
    requires var n := Resolve(node, defs, {}).value;
             OneShape(n) && !Capped(n) && (n.constant.Some? || n.enumeration.Some?)
    ensures Decided(fuel, mode, a, node, defs, Survey(fuel, mode, a, node, defs, None))
  {
    var n := Resolve(node, defs, {}).value;
    if n.constant.Some? {
      ListedIsFinite(mode, [n.constant.value], n.maxLength);
    } else {
      ListedIsFinite(mode, n.enumeration.value, n.maxLength);
    }
  }

  lemma {:induction false} ArrayDecided(fuel: nat, mode: Mode, a: Alphabet, node: Schema, defs: Defs)
    requires WellShapedDefs(defs) && Survey(fuel, mode, a, node, defs, None).Some?
    requires var n := Resolve(node, defs, {}).value;
             Free(n) && n.kind == Some(ArrayKind) && WellShaped(ItemsOf(n))
    ensures Decided(fuel, mode, a, node, defs, Survey(fuel, mode, a, node, defs, None))
    decreases fuel, 0, 0
  {
    var n := Resolve(node, defs, {}).value;
    if n.maxItems != Some(0) {
      SchemaIsPresent(fuel - 1, mode, a, ItemsOf(n), defs);
      WalkerDecidesSurvey(fuel - 1, mode, a, ItemsOf(n), defs);
    }
  }

  predicate AllBranchesOpen(fuel: nat, mode: Mode, a: Alphabet, branches: seq<Schema>, defs: Defs) {
    forall b :: b in branches ==> NothingHidden(fuel, mode, a, b, defs)
  }

  lemma OneMoreBranch(fuel: nat, mode: Mode, a: Alphabet, branches: seq<Schema>, defs: Defs)
    requires branches != []
    ensures AllBranchesOpen(fuel, mode, a, branches, defs)
            <==> NothingHidden(fuel, mode, a, branches[0], defs) && AllBranchesOpen(fuel, mode, a, branches[1..], defs)
  {
    assert forall b :: b in branches <==> b == branches[0] || b in branches[1..];
  }

  lemma {:induction false} BranchesDecided(fuel: nat, mode: Mode, a: Alphabet, branches: seq<Schema>, index: nat, defs: Defs)
    requires WellShapedDefs(defs) && forall b :: b in branches ==> WellShaped(b)
    requires SurveyBranches(fuel, mode, a, branches, defs, None).Some?
    ensures !SurveyBranches(fuel, mode, a, branches, defs, None).value.Whole().Endless?
            <==> WalkBranches(fuel, branches, index, defs).Ok? && AllBranchesOpen(fuel, mode, a, branches, defs)
    ensures WalkBranches(fuel, branches, index, defs).Err? ==> WalkBranches(fuel, branches, index, defs).error.Unbounded?
    decreases fuel, 1, |branches|
  {
    if branches == [] {
    } else {
      WalkerDecidesSurvey(fuel, mode, a, branches[0], defs);
      BranchesDecided(fuel, mode, a, branches[1..], index + 1, defs);
      var first := Survey(fuel, mode, a, branches[0], defs, None).value;
      var rest := SurveyBranches(fuel, mode, a, branches[1..], defs, None).value;
      JoinedEndless(first, rest);
      assert SurveyBranches(fuel, mode, a, branches, defs, None) == Some(JoinReach(first, rest));
      OneMoreBranch(fuel, mode, a, branches, defs);
    }
  }

  lemma JoinedEndless(x: Reach, y: Reach)
    ensures JoinReach(x, y).Whole().Endless? <==> x.Whole().Endless? || y.Whole().Endless?
  {
  }

  lemma {:induction false} PropertiesDecided(fuel: nat, mode: Mode, a: Alphabet, properties: seq<Property>, defs: Defs)
    requires WellShapedDefs(defs) && forall p :: p in properties ==> WellShaped(p.schema)
    requires SurveyProperties(fuel, mode, a, properties, defs).Some?
    ensures !SurveyProperties(fuel, mode, a, properties, defs).value.endless
            <==> WalkProperties(fuel, properties, defs).Ok?
                 && forall p :: p in properties ==> NothingHidden(fuel, mode, a, p.schema, defs)
    ensures WalkProperties(fuel, properties, defs).Err? ==> WalkProperties(fuel, properties, defs).error.Unbounded?
    decreases fuel, 1, |properties|
  {
    if properties == [] {
    } else {
      WalkerDecidesSurvey(fuel, mode, a, properties[0].schema, defs);
      PropertiesDecided(fuel, mode, a, properties[1..], defs);
      assert forall p :: p in properties <==> p == properties[0] || p in properties[1..];
    }
  }

  /** A surveyed schema is answered exactly when its instances are bounded and nothing endless
      was passed over; every refusal is the walker's own, and is deserved. */
  lemma WalkerDecidesBoundedness(fuel: nat, mode: Mode, a: Alphabet, n: Schema, defs: Defs)
    requires WellShaped(n) && WellShapedDefs(defs) && Survey(fuel, mode, a, n, defs, None).Some?
    ensures Bounded(mode, a, n, defs) <==> Walk(fuel, n, defs).Ok? && NothingHidden(fuel, mode, a, n, defs)
    ensures Walk(fuel, n, defs).Err? ==> Walk(fuel, n, defs).error.Unbounded? && !Bounded(mode, a, n, defs)
  {
    WalkerDecidesSurvey(fuel, mode, a, n, defs);
    BoundedExactlyWhenNotEndless(fuel, mode, a, n, defs);
  }

  // ----- acyclic definitions are surveyed with enough stack

  /** Every reference below `n` names a definition of rank less than `r`. */
  predicate RefsBelow(n: Schema, defs: Defs, rank: map<Name, nat>, r: nat)
    decreases n
  {
    && (n.ref.Some? ==> n.ref.value in defs && n.ref.value in rank && rank[n.ref.value] < r)
    && (forall p :: p in n.properties ==> RefsBelow(p.schema, defs, rank, r))
    && (n.anyOf.AnyOf? ==> forall b :: b in n.anyOf.branches ==> RefsBelow(b, defs, rank, r))
    && (n.items.Some? ==> RefsBelow(n.items.value, defs, rank, r))
  }

  /** Definitions that only refer to definitions of smaller rank. */
  ghost predicate Acyclic(defs: Defs, rank: map<Name, nat>) {
    forall name :: name in defs ==> name in rank && RefsBelow(defs[name], defs, rank, rank[name])
  }

  lemma {:induction false} RankedResolves(node: Schema, defs: Defs, rank: map<Name, nat>, r: nat, seen: set<Name>) returns (s: nat)
    requires Acyclic(defs, rank) && RefsBelow(node, defs, rank, r)
    requires forall name :: name in seen && name in rank ==> rank[name] >= r
    ensures Resolve(node, defs, seen).Ok?
    ensures s <= r && RefsBelow(Resolve(node, defs, seen).value, defs, rank, s)
    ensures if node.ref.None? then s == r && Resolve(node, defs, seen).value == node else s < r
    decreases r
  {
    if node.ref.None? {
      s := r;
    } else {
      var name := node.ref.value;
      s := RankedResolves(defs[name], defs, rank, rank[name], seen + {name});
    }
  }

  lemma {:induction false} MoreFuelSurveys(fuel: nat, more: nat, mode: Mode, a: Alphabet, node: Schema, defs: Defs, cap: Option<nat>)
    requires fuel <= more && Survey(fuel, mode, a, node, defs, cap).Some?
    ensures Survey(more, mode, a, node, defs, cap) == Survey(fuel, mode, a, node, defs, cap)
    decreases fuel, 0
  {
    var n := Resolve(node, defs, {}).value;
    if n.constant.Some? || n.enumeration.Some? {
    } else if n.anyOf.AnyOf? {
      MoreFuelBranches(fuel - 1, more - 1, mode, a, n.anyOf.branches, defs, MinCap(cap, n.maxLength));
    } else if n.kind == Some(ObjectKind) {
      MoreFuelProperties(fuel - 1, more - 1, mode, a, n.properties, defs);
    } else if n.kind == Some(ArrayKind) && n.maxItems != Some(0) {
      MoreFuelSurveys(fuel - 1, more - 1, mode, a, ItemsOf(n), defs, None);
    }
  }

  lemma {:induction false} MoreFuelBranches(fuel: nat, more: nat, mode: Mode, a: Alphabet, branches: seq<Schema>, defs: Defs, cap: Option<nat>)
    requires fuel <= more && SurveyBranches(fuel, mode, a, branches, defs, cap).Some?
    ensures SurveyBranches(more, mode, a, branches, defs, cap) == SurveyBranches(fuel, mode, a, branches, defs, cap)
    decreases fuel, 1 + |branches|
  {
    if branches == [] {
    } else {
      MoreFuelSurveys(fuel, more, mode, a, branches[0], defs, cap);
      MoreFuelBranches(fuel, more, mode, a, branches[1..], defs, cap);
    }
  }

  lemma {:induction false} MoreFuelProperties(fuel: nat, more: nat, mode: Mode, a: Alphabet, properties: seq<Property>, defs: Defs)
    requires fuel <= more && SurveyProperties(fuel, mode, a, properties, defs).Some?
    ensures SurveyProperties(more, mode, a, properties, defs) == SurveyProperties(fuel, mode, a, properties, defs)
    decreases fuel, 1 + |properties|
  {
    if properties == [] {
    } else {
      MoreFuelSurveys(fuel, more, mode, a, properties[0].schema, defs, None);
      MoreFuelProperties(fuel, more, mode, a, properties[1..], defs);
    }
  }

  lemma {:induction false} EnoughFuel(mode: Mode, a: Alphabet, node: Schema, defs: Defs, rank: map<Name, nat>, r: nat, cap: Option<nat>)
    returns (fuel: nat)
    requires Acyclic(defs, rank) && RefsBelow(node, defs, rank, r)
    ensures Survey(fuel, mode, a, node, defs, cap).Some?
    decreases r, node, 1
  {
    var s := RankedResolves(node, defs, rank, r, {});
    var n := Resolve(node, defs, {}).value;
    fuel := 0;
    if n.constant.Some? || n.enumeration.Some? {
    } else if n.anyOf.AnyOf? {
      fuel := EnoughForBranches(mode, a, n, n.anyOf.branches, defs, rank, s, MinCap(cap, n.maxLength));
    } else if n.kind == Some(ObjectKind) {
      fuel := EnoughForProperties(mode, a, n, n.properties, defs, rank, s);
    } else if n.kind == Some(ArrayKind) && n.maxItems != Some(0) {
      fuel := EnoughForItems(mode, a, n, defs, rank, s);
    }
    PartsSuffice(fuel, mode, a, node, defs, cap);
    fuel := fuel + 1;
  }

  /** A node is surveyed one level above its parts. */
  lemma PartsSuffice(fuel: nat, mode: Mode, a: Alphabet, node: Schema, defs: Defs, cap: Option<nat>)
    requires Resolve(node, defs, {}).Ok?
    requires var n := Resolve(node, defs, {}).value;
             || n.constant.Some?
             || n.enumeration.Some?
             || if n.anyOf.AnyOf? then SurveyBranches(fuel, mode, a, n.anyOf.branches, defs, MinCap(cap, n.maxLength)).Some?
                else if n.kind == Some(ObjectKind) then SurveyProperties(fuel, mode, a, n.properties, defs).Some?
                else n.kind == Some(ArrayKind) && n.maxItems != Some(0) ==> Survey(fuel, mode, a, ItemsOf(n), defs, None).Some?
    ensures Survey(fuel + 1, mode, a, node, defs, cap).Some?
  {
  }

  lemma {:induction false} EnoughForItems(mode: Mode, a: Alphabet, n: Schema, defs: Defs, rank: map<Name, nat>, r: nat) returns (fuel: nat)
    requires Acyclic(defs, rank) && RefsBelow(n, defs, rank, r)
    ensures Survey(fuel, mode, a, ItemsOf(n), defs, None).Some?
    decreases r, n, 0, 0
  {
    if n.items.Some? {
      assert n.items.value < n;
      fuel := EnoughFuel(mode, a, n.items.value, defs, rank, r, None);
    } else {
      fuel := 1;
    }
  }

  lemma {:induction false} EnoughForBranches(mode: Mode, a: Alphabet, n: Schema, branches: seq<Schema>, defs: Defs, rank: map<Name, nat>, r: nat, cap: Option<nat>)
    returns (fuel: nat)
    requires Acyclic(defs, rank) && forall b :: b in branches ==> RefsBelow(b, defs, rank, r)
    requires forall i :: 0 <= i < |branches| ==> branches[i] < n
    ensures SurveyBranches(fuel, mode, a, branches, defs, cap).Some?
    decreases r, n, 0, |branches|
  {
    fuel := 0;
    if branches != [] {
      var x := EnoughFuel(mode, a, branches[0], defs, rank, r, cap);
      var y := EnoughForBranches(mode, a, n, branches[1..], defs, rank, r, cap);
      fuel := if x >= y then x else y;
      MoreFuelSurveys(x, fuel, mode, a, branches[0], defs, cap);
      MoreFuelBranches(y, fuel, mode, a, branches[1..], defs, cap);
    }
  }

  lemma {:induction false} EnoughForProperties(mode: Mode, a: Alphabet, n: Schema, properties: seq<Property>, defs: Defs, rank: map<Name, nat>, r: nat)
    returns (fuel: nat)
    requires Acyclic(defs, rank) && forall p :: p in properties ==> p.schema < n && RefsBelow(p.schema, defs, rank, r)
    ensures SurveyProperties(fuel, mode, a, properties, defs).Some?
    decreases r, n, 0, |properties|
  {
    fuel := 0;
    if properties != [] {
      var x := EnoughFuel(mode, a, properties[0].schema, defs, rank, r, None);
      var y := EnoughForProperties(mode, a, n, properties[1..], defs, rank, r);
      fuel := if x >= y then x else y;
      MoreFuelSurveys(x, fuel, mode, a, properties[0].schema, defs, None);
      MoreFuelProperties(y, fuel, mode, a, properties[1..], defs);
    }
  }

  /** On acyclic definitions, from some stack depth on, the walker decides boundedness. */
  lemma AcyclicSchemasAreDecided(mode: Mode, a: Alphabet, n: Schema, defs: Defs, rank: map<Name, nat>, r: nat) returns (enough: nat)
    requires WellShaped(n) && WellShapedDefs(defs)
    requires Acyclic(defs, rank) && RefsBelow(n, defs, rank, r)
    ensures forall fuel: nat :: fuel >= enough ==>
              && (Bounded(mode, a, n, defs) <==> Walk(fuel, n, defs).Ok? && NothingHidden(fuel, mode, a, n, defs))
              && (Walk(fuel, n, defs).Err? ==> Walk(fuel, n, defs).error.Unbounded? && !Bounded(mode, a, n, defs))
  {
    enough := EnoughFuel(mode, a, n, defs, rank, r, None);
    forall fuel: nat | fuel >= enough
      ensures Bounded(mode, a, n, defs) <==> Walk(fuel, n, defs).Ok? && NothingHidden(fuel, mode, a, n, defs)
      ensures Walk(fuel, n, defs).Err? ==> Walk(fuel, n, defs).error.Unbounded? && !Bounded(mode, a, n, defs)
    {
      MoreFuelSurveys(enough, fuel, mode, a, n, defs, None);
      WalkerDecidesBoundedness(fuel, mode, a, n, defs);
    }
  }
}
