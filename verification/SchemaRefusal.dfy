/** What a refusal says: the walker raises exactly when it visits a node without a bound, its
    path leads to that node, and a schema that visits itself is never answered. */
module SchemaRefusal {
  import opened Collections
  import opened JsonText
  import opened SchemaWalker
  import opened SchemaExtent
  import opened SchemaTight
  import opened SchemaDecision

  // ----- the nodes the walker visits

  /** The walker looks below `n`: no length bound, constant or enumeration answers for it. */
  predicate Opened(n: Schema) {
    !Capped(n) && n.constant.None? && n.enumeration.None?
  }

  /** From the resolved node `n` the walker goes on to `sub`. The items of an array that may
      hold none are not visited. */
  predicate Enters(n: Schema, step: Step, sub: Schema) {
    && Opened(n)
    && match step
       case Branch(i) => n.anyOf.AnyOf? && i < |n.anyOf.branches| && sub == n.anyOf.branches[i]
       case Member(name) => n.anyOf.NoUnion? && n.kind == Some(ObjectKind) && Property(name, sub) in n.properties
       case Item => n.anyOf.NoUnion? && n.kind == Some(ArrayKind) && n.maxItems.Some? && n.maxItems.value > 0 && sub == ItemsOf(n)
  }

  /** The walker, following `path` from `node`, arrives at `end`. */
  ghost predicate Leads(node: Schema, path: seq<Step>, defs: Defs, end: Schema)
    decreases |path|
  {
    if path == [] then end == node
    else
      && Resolve(node, defs, {}).Ok?
      && exists sub :: Enters(Resolve(node, defs, {}).value, path[0], sub) && Leads(sub, path[1..], defs, end)
  }

  /** `node` is a string, an array or an untyped node, and nothing bounds it. */
  predicate Gaping(node: Schema, defs: Defs, gap: Gap) {
    && Resolve(node, defs, {}).Ok?
    && var n := Resolve(node, defs, {}).value;
       && Opened(n) && n.anyOf.NoUnion?
       && match gap
          case NoMaxLength => n.kind == Some(StringKind)
          case NoMaxItems => n.kind == Some(ArrayKind) && n.maxItems.None?
          case NoType => n.kind.None? || n.kind.value.OtherKind?
  }

  ghost predicate Visits(node: Schema, path: seq<Step>, defs: Defs, gap: Gap) {
    exists end :: Leads(node, path, defs, end) && Gaping(end, defs, gap)
  }

  lemma OneStepFurther(node: Schema, step: Step, sub: Schema, rest: seq<Step>, defs: Defs, gap: Gap)
    requires Resolve(node, defs, {}).Ok? && Enters(Resolve(node, defs, {}).value, step, sub)
    requires Visits(sub, rest, defs, gap)
    ensures Visits(node, [step] + rest, defs, gap)
  {
    var end :| Leads(sub, rest, defs, end) && Gaping(end, defs, gap);
    assert ([step] + rest)[1..] == rest;
    assert Leads(node, [step] + rest, defs, end);
  }

  /** Every refusal names a node the walker visits, and nothing bounds that node. */
  lemma {:induction false} RefusalNamesTheGap(fuel: nat, node: Schema, defs: Defs, gap: Gap, path: seq<Step>)
    requires Walk(fuel, node, defs) == Err(Unbounded(gap, path))
    ensures Visits(node, path, defs, gap) && |path| < fuel
    decreases fuel, 0
  {
    assert Resolve(node, defs, {}).Ok?;
    var n := Resolve(node, defs, {}).value;
    assert Opened(n);
    if n.anyOf.AnyOf? {
      var i, rest := BranchRefusal(fuel - 1, n.anyOf.branches, 0, defs, gap, path);
      OneStepFurther(node, path[0], n.anyOf.branches[i], rest, defs, gap);
    } else if n.kind == Some(ObjectKind) {
      var p, rest := PropertyRefusal(fuel - 1, n.properties, defs, gap, path);
      OneStepFurther(node, path[0], p.schema, rest, defs, gap);
    } else if n.kind == Some(ArrayKind) && n.maxItems.Some? {
      var inner := Walk(fuel - 1, ItemsOf(n), defs);
      var rest := inner.error.path;
      RefusalNamesTheGap(fuel - 1, ItemsOf(n), defs, gap, rest);
      OneStepFurther(node, Item, ItemsOf(n), rest, defs, gap);
    } else {
      assert Leads(node, path, defs, node) && Gaping(node, defs, gap);
    }
  }

  lemma {:induction false} BranchRefusal(fuel: nat, branches: seq<Schema>, index: nat, defs: Defs, gap: Gap, path: seq<Step>)
    returns (i: nat, rest: seq<Step>)
    requires WalkBranches(fuel, branches, index, defs) == Err(Unbounded(gap, path))
    ensures i < |branches| && path == [Branch(index + i)] + rest
    ensures Visits(branches[i], rest, defs, gap) && |rest| < fuel
    decreases fuel, 1 + |branches|
  {
    var first := Walk(fuel, branches[0], defs);
    if first.Err? {
      i, rest := 0, first.error.path;
      RefusalNamesTheGap(fuel, branches[0], defs, gap, rest);
    } else {
      i, rest := BranchRefusal(fuel, branches[1..], index + 1, defs, gap, path);
      i := i + 1;
    }
  }

  lemma {:induction false} PropertyRefusal(fuel: nat, properties: seq<Property>, defs: Defs, gap: Gap, path: seq<Step>)
    returns (p: Property, rest: seq<Step>)
    requires WalkProperties(fuel, properties, defs) == Err(Unbounded(gap, path))
    ensures p in properties && path == [Member(p.name)] + rest
    ensures Visits(p.schema, rest, defs, gap) && |rest| < fuel
    decreases fuel, 1 + |properties|
  {
    var first := Walk(fuel, properties[0].schema, defs);
    if first.Err? {
      p, rest := properties[0], first.error.path;
      RefusalNamesTheGap(fuel, p.schema, defs, gap, rest);
    } else {
      p, rest := PropertyRefusal(fuel, properties[1..], defs, gap, path);
    }
  }

  // ----- and no gap it visits is answered

  lemma {:induction false} AnsweredBranches(fuel: nat, branches: seq<Schema>, index: nat, defs: Defs, i: nat)
    requires WalkBranches(fuel, branches, index, defs).Ok? && i < |branches|
    ensures Walk(fuel, branches[i], defs).Ok?
    decreases |branches|
  {
    if i == 0 {
    } else {
      AnsweredBranches(fuel, branches[1..], index + 1, defs, i - 1);
    }
  }

  lemma {:induction false} AnsweredProperties(fuel: nat, properties: seq<Property>, defs: Defs, p: Property)
    requires WalkProperties(fuel, properties, defs).Ok? && p in properties
    ensures Walk(fuel, p.schema, defs).Ok?
    decreases |properties|
  {
    if p == properties[0] {
    } else {
      AnsweredProperties(fuel, properties[1..], defs, p);
    }
  }

  lemma AnsweredStep(fuel: nat, node: Schema, defs: Defs, step: Step, sub: Schema)
    requires Walk(fuel, node, defs).Ok? && Enters(Resolve(node, defs, {}).value, step, sub)
    ensures fuel > 0 && Walk(fuel - 1, sub, defs).Ok?
  {
    var n := Resolve(node, defs, {}).value;
    match step {
      case Branch(i) => AnsweredBranches(fuel - 1, n.anyOf.branches, 0, defs, i);
      case Member(name) => AnsweredProperties(fuel - 1, n.properties, defs, Property(name, sub));
      case Item =>
    }
  }

  /** An answer for a node holds an answer for everything the walker visits below it. */
  lemma {:induction false} AnsweredBelow(fuel: nat, node: Schema, path: seq<Step>, defs: Defs, end: Schema)
    requires Walk(fuel, node, defs).Ok? && Leads(node, path, defs, end)
    ensures |path| < fuel && Walk(fuel - |path|, end, defs).Ok?
    decreases |path|
  {
    if path == [] {
    } else {
      var sub :| Enters(Resolve(node, defs, {}).value, path[0], sub) && Leads(sub, path[1..], defs, end);
      AnsweredStep(fuel, node, defs, path[0], sub);
      AnsweredBelow(fuel - 1, sub, path[1..], defs, end);
    }
  }

  /** A visited gap is never answered, whatever room the stack has. */
  lemma GapIsRefused(fuel: nat, node: Schema, path: seq<Step>, defs: Defs, gap: Gap)
    requires Visits(node, path, defs, gap)
    ensures Walk(fuel, node, defs).Err?
  {
    if Walk(fuel, node, defs).Ok? {
      var end :| Leads(node, path, defs, end) && Gaping(end, defs, gap);
      AnsweredBelow(fuel, node, path, defs, end);
    }
  }

  ghost predicate HasGap(node: Schema, defs: Defs) {
    exists path, gap :: Visits(node, path, defs, gap)
  }

  /** Barring loops, missing definitions, empty choices and an exhausted stack, the walker raises
      exactly when it visits an unbounded string, array or untyped node. */
  lemma RaisesExactlyAtGaps(fuel: nat, node: Schema, defs: Defs)
    requires Walk(fuel, node, defs).Err? ==> Walk(fuel, node, defs).error.Unbounded?
    ensures Walk(fuel, node, defs).Err? <==> HasGap(node, defs)
  {
    if Walk(fuel, node, defs).Err? {
      var gap, path := Walk(fuel, node, defs).error.gap, Walk(fuel, node, defs).error.path;
      RefusalNamesTheGap(fuel, node, defs, gap, path);
      assert Visits(node, path, defs, gap);
    } else if HasGap(node, defs) {
      var path, gap :| Visits(node, path, defs, gap);
      GapIsRefused(fuel, node, path, defs, gap);
    }
  }

  ghost predicate RefusedAtGaps(fuel: nat, mode: Mode, a: Alphabet, n: Schema, defs: Defs) {
    && (Walk(fuel, n, defs).Err? <==> HasGap(n, defs))
    && (Bounded(mode, a, n, defs) <==> !HasGap(n, defs) && NothingHidden(fuel, mode, a, n, defs))
  }

  /** With acyclic definitions, from some stack depth on: it raises exactly when a visited node has
      no bound, and instances are bounded exactly when there is none and nothing is hidden. */
  lemma AcyclicSchemasAreRefusedAtGaps(mode: Mode, a: Alphabet, n: Schema, defs: Defs, rank: map<Name, nat>, r: nat) returns (enough: nat)
    requires WellShaped(n) && WellShapedDefs(defs)
    requires Acyclic(defs, rank) && RefsBelow(n, defs, rank, r)
    ensures forall fuel: nat :: fuel >= enough ==>
              RefusedAtGaps(fuel, mode, a, n, defs)
  {
    enough := AcyclicSchemasAreDecided(mode, a, n, defs, rank, r);
    forall fuel: nat | fuel >= enough
      ensures RefusedAtGaps(fuel, mode, a, n, defs)
    {
      assert Bounded(mode, a, n, defs) <==> Walk(fuel, n, defs).Ok? && NothingHidden(fuel, mode, a, n, defs);
      RaisesExactlyAtGaps(fuel, n, defs);
    }
  }

  // ----- everything else that can go wrong

  /** The walker cannot answer for `node` itself: a dead reference, a choice among nothing, or
      no bound. */
  predicate Troubled(node: Schema, defs: Defs) {
    || Resolve(node, defs, {}).Err?
    || var n := Resolve(node, defs, {}).value;
       || (!Capped(n) && n.constant.None? && n.enumeration == Some([]))
       || (Opened(n) && n.anyOf == AnyOf([]))
       || Gaping(node, defs, NoMaxLength) || Gaping(node, defs, NoMaxItems) || Gaping(node, defs, NoType)
  }

  /** The walker visits no trouble. */
  ghost predicate Sound(node: Schema, defs: Defs) {
    forall path, end :: Leads(node, path, defs, end) ==> !Troubled(end, defs)
  }

  lemma TroubleFurther(node: Schema, step: Step, sub: Schema, rest: seq<Step>, defs: Defs, end: Schema) returns (path: seq<Step>)
    requires Resolve(node, defs, {}).Ok? && Enters(Resolve(node, defs, {}).value, step, sub)
    requires Leads(sub, rest, defs, end)
    ensures Leads(node, path, defs, end)
  {
    path := [step] + rest;
    assert path[1..] == rest;
  }

  /** Whatever fails but for lack of stack, fails at some trouble the walker visits. */
  lemma {:induction false} FailureNamesTrouble(fuel: nat, node: Schema, defs: Defs) returns (path: seq<Step>, end: Schema)
    requires Walk(fuel, node, defs).Err? && !Walk(fuel, node, defs).error.StackExhausted?
    ensures Leads(node, path, defs, end) && Troubled(end, defs)
    decreases fuel, 0
  {
    if Troubled(node, defs) {
      path, end := [], node;
    } else {
      var n := Resolve(node, defs, {}).value;
      if n.anyOf.AnyOf? {
        var i, rest;
        i, rest, end := BranchTrouble(fuel - 1, n.anyOf.branches, 0, defs);
        path := TroubleFurther(node, Branch(i), n.anyOf.branches[i], rest, defs, end);
      } else if n.kind == Some(ObjectKind) {
        var p, rest;
        p, rest, end := PropertyTrouble(fuel - 1, n.properties, defs);
        path := TroubleFurther(node, Member(p.name), p.schema, rest, defs, end);
      } else {
        var rest;
        rest, end := FailureNamesTrouble(fuel - 1, ItemsOf(n), defs);
        path := TroubleFurther(node, Item, ItemsOf(n), rest, defs, end);
      }
    }
  }

  lemma {:induction false} BranchTrouble(fuel: nat, branches: seq<Schema>, index: nat, defs: Defs) returns (i: nat, rest: seq<Step>, end: Schema)
    requires WalkBranches(fuel, branches, index, defs).Err? && !WalkBranches(fuel, branches, index, defs).error.StackExhausted?
    ensures i < |branches| && Leads(branches[i], rest, defs, end) && Troubled(end, defs)
    decreases fuel, 1 + |branches|
  {
    if Walk(fuel, branches[0], defs).Err? {
      i := 0;
      rest, end := FailureNamesTrouble(fuel, branches[0], defs);
    } else {
      i, rest, end := BranchTrouble(fuel, branches[1..], index + 1, defs);
      i := i + 1;
    }
  }

  lemma {:induction false} PropertyTrouble(fuel: nat, properties: seq<Property>, defs: Defs) returns (p: Property, rest: seq<Step>, end: Schema)
    requires WalkProperties(fuel, properties, defs).Err? && !WalkProperties(fuel, properties, defs).error.StackExhausted?
    ensures p in properties && Leads(p.schema, rest, defs, end) && Troubled(end, defs)
    decreases fuel, 1 + |properties|
  {
    if Walk(fuel, properties[0].schema, defs).Err? {
      p := properties[0];
      rest, end := FailureNamesTrouble(fuel, p.schema, defs);
    } else {
      p, rest, end := PropertyTrouble(fuel, properties[1..], defs);
    }
  }

  /** Unless the stack runs out, the walker answers exactly the schemas in which it visits no
      trouble. */
  lemma AnswersExactlyWhenSound(fuel: nat, node: Schema, defs: Defs)
    requires Walk(fuel, node, defs) != Err(StackExhausted)
    ensures Walk(fuel, node, defs).Ok? <==> Sound(node, defs)
  {
    if Walk(fuel, node, defs).Ok? {
      forall path, end | Leads(node, path, defs, end)
        ensures !Troubled(end, defs)
      {
        AnsweredBelow(fuel, node, path, defs, end);
      }
    } else {
      var path, end := FailureNamesTrouble(fuel, node, defs);
      assert Leads(node, path, defs, end);
    }
  }

  lemma SoundIsQuiet(fuel: nat, node: Schema, defs: Defs)
    requires Sound(node, defs)
    ensures Quiet(Walk(fuel, node, defs))
  {
    if Walk(fuel, node, defs) != Err(StackExhausted) {
      AnswersExactlyWhenSound(fuel, node, defs);
    }
  }

  predicate Quiet(r: Result<Json>) {
    r.Err? ==> r.error.StackExhausted?
  }

  // ----- recursion the loop check does not see

  /** A node the walker visits below itself is never answered, whatever room the stack has. */
  lemma {:induction false} RecursionIsNeverAnswered(fuel: nat, node: Schema, path: seq<Step>, defs: Defs, end: Schema)
    requires Leads(node, path, defs, end) && path != []
    requires Resolve(end, defs, {}) == Resolve(node, defs, {})
    ensures Walk(fuel, node, defs).Err?
    decreases fuel
  {
    if Walk(fuel, node, defs).Ok? {
      AnsweredBelow(fuel, node, path, defs, end);
      assert Walk(fuel - |path|, end, defs) == Walk(fuel - |path|, node, defs);
      RecursionIsNeverAnswered(fuel - |path|, node, path, defs, end);
    }
  }

  /** Whatever the walker looks at before `step` is free of trouble. */
  ghost predicate SoundBefore(n: Schema, step: Step, defs: Defs) {
    match step
    case Branch(i) => forall j :: 0 <= j < i && n.anyOf.AnyOf? && j < |n.anyOf.branches| ==> Sound(n.anyOf.branches[j], defs)
    case Member(name) =>
      forall j :: 0 <= j < |n.properties| && (forall k :: 0 <= k <= j ==> n.properties[k].name != name) ==> Sound(n.properties[j].schema, defs)
    case Item => true
  }

  /** `Leads`, with nothing before the path that could be refused for another reason. */
  ghost predicate LeadsSoundly(node: Schema, path: seq<Step>, defs: Defs, end: Schema)
    decreases |path|
  {
    if path == [] then end == node
    else
      && Resolve(node, defs, {}).Ok?
      && var n := Resolve(node, defs, {}).value;
         && DistinctNames(n.properties) && SoundBefore(n, path[0], defs)
         && exists sub :: Enters(n, path[0], sub) && LeadsSoundly(sub, path[1..], defs, end)
  }

  lemma {:induction false} ExhaustedBranches(fuel: nat, branches: seq<Schema>, index: nat, defs: Defs, i: nat)
    requires i < |branches| && Walk(fuel, branches[i], defs) == Err(StackExhausted)
    requires forall j :: 0 <= j < i ==> Quiet(Walk(fuel, branches[j], defs))
    ensures WalkBranches(fuel, branches, index, defs) == Err(StackExhausted)
    decreases i
  {
    assert Quiet(Walk(fuel, branches[0], defs));
    if i == 0 {
    } else {
      ExhaustedBranches(fuel, branches[1..], index + 1, defs, i - 1);
    }
  }

  lemma {:induction false} ExhaustedProperties(fuel: nat, properties: seq<Property>, defs: Defs, i: nat)
    requires i < |properties| && Walk(fuel, properties[i].schema, defs) == Err(StackExhausted)
    requires forall j :: 0 <= j < i ==> Quiet(Walk(fuel, properties[j].schema, defs))
    ensures WalkProperties(fuel, properties, defs) == Err(StackExhausted)
    decreases i
  {
    assert Quiet(Walk(fuel, properties[0].schema, defs));
    if i == 0 {
    } else {
      ExhaustedProperties(fuel, properties[1..], defs, i - 1);
    }
  }

  lemma ExhaustedStep(fuel: nat, node: Schema, defs: Defs, step: Step, sub: Schema)
    requires fuel > 0 && Resolve(node, defs, {}).Ok?
    requires var n := Resolve(node, defs, {}).value;
             Enters(n, step, sub) && DistinctNames(n.properties) && SoundBefore(n, step, defs)
    requires Walk(fuel - 1, sub, defs) == Err(StackExhausted)
    ensures Walk(fuel, node, defs) == Err(StackExhausted)
  {
    var n := Resolve(node, defs, {}).value;
    match step {
      case Branch(i) =>
        forall j | 0 <= j < i
          ensures Quiet(Walk(fuel - 1, n.anyOf.branches[j], defs))
        {
          SoundIsQuiet(fuel - 1, n.anyOf.branches[j], defs);
        }
        ExhaustedBranches(fuel - 1, n.anyOf.branches, 0, defs, i);
      case Member(name) =>
        var i :| 0 <= i < |n.properties| && n.properties[i] == Property(name, sub);
        forall j | 0 <= j < i
          ensures Quiet(Walk(fuel - 1, n.properties[j].schema, defs))
        {
          assert forall k :: 0 <= k <= j ==> n.properties[k].name != name;
          SoundIsQuiet(fuel - 1, n.properties[j].schema, defs);
        }
        ExhaustedProperties(fuel - 1, n.properties, defs, i);
      case Item =>
    }
  }

  lemma {:induction false} ExhaustedAbove(fuel: nat, node: Schema, path: seq<Step>, defs: Defs, end: Schema)
    requires LeadsSoundly(node, path, defs, end)
    requires fuel <= |path| || Walk(fuel - |path|, end, defs) == Err(StackExhausted)
    ensures Walk(fuel, node, defs) == Err(StackExhausted)
    decreases |path|
  {
    if path == [] || fuel == 0 {
    } else {
      var n := Resolve(node, defs, {}).value;
      var sub :| Enters(n, path[0], sub) && LeadsSoundly(sub, path[1..], defs, end);
      ExhaustedAbove(fuel - 1, sub, path[1..], defs, end);
      ExhaustedStep(fuel, node, defs, path[0], sub);
    }
  }

  /** The loop check sees direct chains of references only: a schema that visits itself through
      an object, an array or a union, with nothing refused before, exhausts every stack. */
  lemma {:induction false} RecursionExhausts(fuel: nat, node: Schema, path: seq<Step>, defs: Defs, end: Schema)
    requires LeadsSoundly(node, path, defs, end) && path != []
    requires Resolve(end, defs, {}) == Resolve(node, defs, {})
    ensures Walk(fuel, node, defs) == Err(StackExhausted)
    decreases fuel
  {
    if fuel > |path| {
      RecursionExhausts(fuel - |path|, node, path, defs, end);
      assert Walk(fuel - |path|, end, defs) == Walk(fuel - |path|, node, defs);
    }
    ExhaustedAbove(fuel, node, path, defs, end);
  }

  /** For one: a definition that refers to itself from inside an object. */
  lemma SelfReferenceExhausts(fuel: nat)
    ensures var link := EMPTY.(ref := Some("Node"));
            var node := EMPTY.(kind := Some(ObjectKind), closed := true, properties := [Property("next", link)]);
            && Resolve(link, map["Node" := node], {}) == Ok(node)
            && Walk(fuel, node, map["Node" := node]) == Err(StackExhausted)
  {
    var link := EMPTY.(ref := Some("Node"));
    var node := EMPTY.(kind := Some(ObjectKind), closed := true, properties := [Property("next", link)]);
    var defs := map["Node" := node];
    LinkResolves(link, "Node", node, defs);
    assert node.properties[0] == Property("next", link);
    var none: seq<Step> := [];
    assert [Member("next")][1..] == none;
    assert Enters(node, Member("next"), link) && LeadsSoundly(link, none, defs, link);
    assert LeadsSoundly(node, [Member("next")], defs, link);
    RecursionExhausts(fuel, node, [Member("next")], defs, link);
  }

  lemma LinkResolves(link: Schema, name: Name, node: Schema, defs: Defs)
    requires link.ref == Some(name) && name in defs && defs[name] == node && node.ref.None?
    ensures Resolve(link, defs, {}) == Ok(node) && Resolve(node, defs, {}) == Ok(node)
  {
    assert Resolve(node, defs, {} + {name}) == Ok(node);
  }
}
