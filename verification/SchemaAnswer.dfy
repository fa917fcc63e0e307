/** The walker's answer is no larger than the schema allows: it is itself a permitted instance, up
    to the two quotes it puts around each number. Together with domination this makes the worst
    case the largest permitted instance, and not just an upper bound. */
module SchemaAnswer {
  import opened Collections
  import opened JsonText
  import opened SchemaWalker
  import opened SchemaExtent
  import opened SchemaTight
  import opened SchemaDomination
  import opened SchemaPlain

  // ----- reading an answer

  const NINES := Repeat('9', NUMERIC_WORST_CASE_CHARS)

  /** `v` is the answer `w`, where some numbers stand without the quotes of the answer. */
  predicate Reads(v: Json, w: Json)
    decreases w
  {
    match w
    case Arr(items) =>
      v.Arr? && |v.items| == |items| && forall i :: 0 <= i < |items| ==> Reads(v.items[i], items[i])
    case Obj(fields) =>
      && v.Obj? && |v.fields| == |fields|
      && forall i :: 0 <= i < |fields| ==> v.fields[i].key == fields[i].key && Reads(v.fields[i].value, fields[i].value)
    case _ => v == w || (w == Str(NINES) && v == Num(NINES))
  }

  lemma {:induction false} ReadsItself(v: Json)
    ensures Reads(v, v)
  {
    match v
    case Arr(items) =>
      forall i | 0 <= i < |items|
        ensures Reads(items[i], items[i])
      {
        ReadsItself(items[i]);
      }
    case Obj(fields) =>
      forall i | 0 <= i < |fields|
        ensures Reads(fields[i].value, fields[i].value)
      {
        ReadsItself(fields[i].value);
      }
    case _ =>
  }

  /** How many numbers lost their quotes. */
  function Charged(v: Json, w: Json): nat
    decreases w, 0
  {
    match (v, w)
    case (Arr(xs), Arr(ys)) => ChargedItems(xs, ys)
    case (Obj(xs), Obj(ys)) => ChargedFields(xs, ys)
    case _ => if v == w then 0 else 1
  }

  function ChargedItems(xs: seq<Json>, ys: seq<Json>): nat
    decreases ys, 0
  {
    if xs == [] || ys == [] then 0 else Charged(xs[0], ys[0]) + ChargedItems(xs[1..], ys[1..])
  }

  function ChargedFields(xs: seq<Field>, ys: seq<Field>): nat
    decreases ys, 0
  {
    if xs == [] || ys == [] then 0 else Charged(xs[0].value, ys[0].value) + ChargedFields(xs[1..], ys[1..])
  }

  /** Each of them makes the answer two characters longer. */
  lemma {:induction false} ReadingCost(mode: Mode, v: Json, w: Json)
    requires Reads(v, w)
    ensures DumpCost(mode, w) == DumpCost(mode, v) + 2 * Charged(v, w)
    decreases w, 0
  {
    match w
    case Arr(items) =>
      ReadItemsCost(mode, v.items, items);
      ArrayCost(mode, v.items);
      ArrayCost(mode, items);
    case Obj(fields) =>
      ReadFieldsCost(mode, v.fields, fields);
      ObjectCost(mode, v.fields);
      ObjectCost(mode, fields);
    case _ =>
      NineCost(mode);
      PlainCost(mode, NINES);
  }

  lemma {:induction false} ReadItemsCost(mode: Mode, xs: seq<Json>, ys: seq<Json>)
    requires |xs| == |ys| && forall i :: 0 <= i < |ys| ==> Reads(xs[i], ys[i])
    ensures ItemsCost(mode, ys) == ItemsCost(mode, xs) + 2 * ChargedItems(xs, ys)
    decreases ys, 0
  {
    if ys == [] {
    } else {
      ReadingCost(mode, xs[0], ys[0]);
      ReadItemsCost(mode, xs[1..], ys[1..]);
    }
  }

  lemma {:induction false} ReadFieldsCost(mode: Mode, xs: seq<Field>, ys: seq<Field>)
    requires |xs| == |ys| && forall i :: 0 <= i < |ys| ==> xs[i].key == ys[i].key && Reads(xs[i].value, ys[i].value)
    ensures FieldsCost(mode, ys) == FieldsCost(mode, xs) + 2 * ChargedFields(xs, ys)
    decreases ys, 0
  {
    if ys == [] {
    } else {
      ReadingCost(mode, xs[0].value, ys[0].value);
      ReadFieldsCost(mode, xs[1..], ys[1..]);
    }
  }

  // ----- schemas whose answers stand

  /** A freely written string of `m` characters may stand at `n`. */
  predicate RoomFor(n: Schema, m: nat) {
    && Free(n) && (n.kind.None? || n.kind.value.StringKind?)
    && (n.maxLength.Some? ==> m <= n.maxLength.value)
  }

  /** A length bound is used up by the node itself or by a branch, through its references. */
  predicate BoundStands(n: Schema, defs: Defs)
    requires n.maxLength.Some?
  {
    || RoomFor(n, n.maxLength.value)
    || (&& n.anyOf.AnyOf?
        && exists b :: b in n.anyOf.branches && Resolve(b, defs, {}).Ok? && RoomFor(Resolve(b, defs, {}).value, n.maxLength.value))
  }

  predicate NumberNode(n: Schema) {
    Free(n) && n.kind.Some? && (n.kind.value.NumberKind? || n.kind.value.IntegerKind?)
  }

  /** Every length bound the walker may use stands; without `numbers` it meets no number either. */
  predicate Stands(numbers: bool, n: Schema, defs: Defs)
    decreases n
  {
    if n.ref.None? && Capped(n) then BoundStands(n, defs)
    else
      && (!numbers ==> !NumberNode(n))
      && (forall p :: p in n.properties ==> Stands(numbers, p.schema, defs))
      && (n.anyOf.AnyOf? ==> forall b :: b in n.anyOf.branches ==> Stands(numbers, b, defs))
      && (n.items.Some? ==> Stands(numbers, n.items.value, defs))
  }

  ghost predicate StandsDefs(numbers: bool, defs: Defs) {
    forall name :: name in defs ==> Stands(numbers, defs[name], defs)
  }

  lemma {:induction false} ResolvedStands(numbers: bool, node: Schema, defs: Defs, seen: set<Name>)
    requires Stands(numbers, node, defs) && StandsDefs(numbers, defs)
    ensures Resolve(node, defs, seen).Ok? ==> Stands(numbers, Resolve(node, defs, seen).value, defs)
    decreases |defs.Keys - seen|
  {
    if node.ref.Some? && node.ref.value !in seen && node.ref.value in defs {
      var name := node.ref.value;
      assert defs.Keys - (seen + {name}) < defs.Keys - seen;
      SubsetSize(defs.Keys - (seen + {name}), defs.Keys - seen);
      ResolvedStands(numbers, defs[name], defs, seen + {name});
    }
  }

  /** `v` is what the walker's answer `w` stands for. */
  predicate StandsFor(numbers: bool, v: Json, w: Json) {
    Reads(v, w) && (!numbers ==> v == w)
  }

  // ----- the answer is permitted

  ghost predicate IsPermitted(v: Json, n: Schema, defs: Defs) {
    exists d: nat :: PermittedAt(d, EscapeFree, v, n, defs)
  }

  lemma BoundReached(n: Schema, defs: Defs) returns (d: nat)
    requires WellShaped(n) && WellShapedDefs(defs) && n.ref.None? && Capped(n) && BoundStands(n, defs)
    ensures PermittedAt(d, EscapeFree, Str(Repeat(WIDE, n.maxLength.value)), n, defs)
  {
    var m := n.maxLength.value;
    var v := Str(Repeat(WIDE, m));
    if RoomFor(n, m) {
      d := 1;
    } else {
      var b :| b in n.anyOf.branches && Resolve(b, defs, {}).Ok? && RoomFor(Resolve(b, defs, {}).value, m);
      assert PermittedAt(1, EscapeFree, v, Resolve(b, defs, {}).value, defs);
      d := PermitsThroughRefs(1, EscapeFree, v, b, defs, {});
      d := d + 1;
    }
  }

  /** On a string and on a union of scalars that is exactly when the filler string is permitted. */
  lemma BoundStandsExactly(n: Schema, defs: Defs)
    requires WellShaped(n) && WellShapedDefs(defs) && n.ref.None? && Capped(n)
    requires n.anyOf.AnyOf? ==> forall b :: b in n.anyOf.branches ==> ScalarNode(b)
    ensures BoundStands(n, defs) <==> IsPermitted(Str(Repeat(WIDE, n.maxLength.value)), n, defs)
  {
    var v := Str(Repeat(WIDE, n.maxLength.value));
    if BoundStands(n, defs) {
      var d := BoundReached(n, defs);
      assert PermittedAt(d, EscapeFree, v, n, defs);
    } else if IsPermitted(v, n, defs) {
      var d: nat :| PermittedAt(d, EscapeFree, v, n, defs);
      var b :| b in n.anyOf.branches && PermittedAt(d - 1, EscapeFree, v, b, defs);
      assert Resolve(b, defs, {}) == Ok(b) && RoomFor(b, n.maxLength.value);
    }
  }

  lemma ListAnswer(fuel: nat, numbers: bool, n: Schema, defs: Defs)
    requires OneShape(n) && n.ref.None? && (n.constant.Some? || n.enumeration.Some?) && Walk(fuel, n, defs).Ok?
    ensures PermittedAt(1, EscapeFree, Walk(fuel, n, defs).value, n, defs)
    ensures StandsFor(numbers, Walk(fuel, n, defs).value, Walk(fuel, n, defs).value)
  {
    ReadsItself(Walk(fuel, n, defs).value);
  }

  /** The answer is a permitted instance, up to the quotes around its numbers. */
  lemma {:induction false} AnswerIsPermitted(fuel: nat, numbers: bool, node: Schema, defs: Defs) returns (d: nat, v: Json)
    requires WellShaped(node) && WellShapedDefs(defs) && Stands(numbers, node, defs) && StandsDefs(numbers, defs)
    requires Walk(fuel, node, defs).Ok?
    ensures PermittedAt(d, EscapeFree, v, node, defs) && StandsFor(numbers, v, Walk(fuel, node, defs).value)
    decreases fuel, 0, 1
  {
    ResolvedWellShaped(node, defs, {});
    ResolvedStands(numbers, node, defs, {});
    var n := Resolve(node, defs, {}).value;
    var e;
    if Capped(n) {
      e := BoundReached(n, defs);
      v := Str(Repeat(WIDE, n.maxLength.value));
    } else if n.constant.Some? || n.enumeration.Some? {
      e, v := 1, Walk(fuel, node, defs).value;
      ListAnswer(fuel, numbers, n, defs);
    } else if n.anyOf.AnyOf? {
      e, v := UnionAnswer(fuel, numbers, n, defs);
    } else {
      e, v := KindAnswer(fuel, numbers, n, defs);
    }
    d := PermitsThroughRefs(e, EscapeFree, v, node, defs, {});
  }

  lemma BranchPermits(d: nat, v: Json, b: Schema, n: Schema, defs: Defs)
    requires OneShape(n) && n.ref.None? && !Capped(n) && n.constant.None? && n.enumeration.None? && n.anyOf.AnyOf?
    requires b in n.anyOf.branches && PermittedAt(d, EscapeFree, v, b, defs)
    ensures PermittedAt(d + 1, EscapeFree, v, n, defs)
  {
  }

  lemma {:induction false} UnionAnswer(fuel: nat, numbers: bool, n: Schema, defs: Defs) returns (d: nat, v: Json)
    requires WellShaped(n) && WellShapedDefs(defs) && Stands(numbers, n, defs) && StandsDefs(numbers, defs)
    requires n.ref.None? && !Capped(n) && n.constant.None? && n.enumeration.None? && n.anyOf.AnyOf? && Walk(fuel, n, defs).Ok?
    ensures PermittedAt(d, EscapeFree, v, n, defs) && StandsFor(numbers, v, Walk(fuel, n, defs).value)
    decreases fuel, 0, 0
  {
    var values := WalkBranches(fuel - 1, n.anyOf.branches, 0, defs).value;
    var i :| 0 <= i < |values| && values[i] == WidestPick(values);
    AnswerAt(fuel - 1, n.anyOf.branches, 0, defs, i);
    d, v := AnswerIsPermitted(fuel - 1, numbers, n.anyOf.branches[i], defs);
    BranchPermits(d, v, n.anyOf.branches[i], n, defs);
    d := d + 1;
  }

  lemma {:induction false} KindAnswer(fuel: nat, numbers: bool, n: Schema, defs: Defs) returns (d: nat, v: Json)
    requires WellShaped(n) && WellShapedDefs(defs) && Stands(numbers, n, defs) && StandsDefs(numbers, defs)
    requires Free(n) && !Capped(n) && Walk(fuel, n, defs).Ok?
    ensures PermittedAt(d, EscapeFree, v, n, defs) && StandsFor(numbers, v, Walk(fuel, n, defs).value)
    decreases fuel, 0, 0, 1
  {
    match n.kind.value
    case ObjectKind => d, v := ObjectAnswer(fuel, numbers, n, defs);
    case ArrayKind => d, v := ArrayAnswer(fuel, numbers, n, defs);
    case BooleanKind => d, v := 1, Bool(false);
    case NullKind => d, v := 1, Null;
    case _ => d, v := 1, Num(NINES);
  }

  lemma CopiesPermitted(numbers: bool, d: nat, x: Json, y: Json, n: Schema, defs: Defs)
    requires OneShape(n) && Free(n) && n.kind == Some(ArrayKind) && n.maxItems.Some?
    requires n.maxItems.value > 0 ==> PermittedAt(d, EscapeFree, x, ItemsOf(n), defs) && StandsFor(numbers, x, y)
    ensures PermittedAt(d + 1, EscapeFree, Arr(Copies(x, n.maxItems.value)), n, defs)
    ensures StandsFor(numbers, Arr(Copies(x, n.maxItems.value)), Arr(Copies(y, n.maxItems.value)))
  {
  }

  lemma {:induction false} ArrayAnswer(fuel: nat, numbers: bool, n: Schema, defs: Defs) returns (d: nat, v: Json)
    requires WellShaped(n) && WellShapedDefs(defs) && Stands(numbers, n, defs) && StandsDefs(numbers, defs)
    requires Free(n) && n.kind == Some(ArrayKind) && Walk(fuel, n, defs).Ok?
    ensures PermittedAt(d, EscapeFree, v, n, defs) && StandsFor(numbers, v, Walk(fuel, n, defs).value)
    decreases fuel, 0, 0, 0
  {
    var x, y := Null, Null;
    d := 0;
    if n.maxItems.value > 0 {
      ItemsStand(numbers, n, defs);
      d, x := AnswerIsPermitted(fuel - 1, numbers, ItemsOf(n), defs);
      y := Walk(fuel - 1, ItemsOf(n), defs).value;
    }
    CopiesPermitted(numbers, d, x, y, n, defs);
    d, v := d + 1, Arr(Copies(x, n.maxItems.value));
    assert Walk(fuel, n, defs).value == Arr(Copies(y, n.maxItems.value));
  }

  lemma ItemsStand(numbers: bool, n: Schema, defs: Defs)
    requires WellShaped(n) && Stands(numbers, n, defs) && !Capped(n)
    ensures WellShaped(ItemsOf(n)) && Stands(numbers, ItemsOf(n), defs)
  {
    assert WellShaped(EMPTY) && Stands(numbers, EMPTY, defs);
  }

  lemma {:induction false} ObjectAnswer(fuel: nat, numbers: bool, n: Schema, defs: Defs) returns (d: nat, v: Json)
    requires WellShaped(n) && WellShapedDefs(defs) && Stands(numbers, n, defs) && StandsDefs(numbers, defs)
    requires Free(n) && n.kind == Some(ObjectKind) && Walk(fuel, n, defs).Ok?
    ensures PermittedAt(d, EscapeFree, v, n, defs) && StandsFor(numbers, v, Walk(fuel, n, defs).value)
    decreases fuel, 0, 0, 0
  {
    var fields;
    d, fields := FieldsAnswer(fuel - 1, numbers, n.properties, WalkProperties(fuel - 1, n.properties, defs).value, defs);
    d, v := d + 1, Obj(fields);
  }

  lemma AnswersOfRest(fuel: nat, properties: seq<Property>, answers: seq<Field>, defs: Defs) returns (y: Json)
    requires properties != [] && WalkProperties(fuel, properties, defs) == Ok(answers)
    ensures Walk(fuel, properties[0].schema, defs) == Ok(y)
    ensures answers != [] && answers[0] == Field(properties[0].name, y)
    ensures WalkProperties(fuel, properties[1..], defs) == Ok(answers[1..])
  {
    y := Walk(fuel, properties[0].schema, defs).value;
  }

  lemma FieldStandsFor(numbers: bool, name: string, x: Json, y: Json, xs: seq<Field>, ys: seq<Field>)
    requires ys != [] && ys[0] == Field(name, y)
    requires StandsFor(numbers, x, y) && StandsFor(numbers, Obj(xs), Obj(ys[1..]))
    ensures StandsFor(numbers, Obj([Field(name, x)] + xs), Obj(ys))
  {
    assert ys == [ys[0]] + ys[1..];
    forall i | 0 <= i < |ys|
      ensures ([Field(name, x)] + xs)[i].key == ys[i].key && Reads(([Field(name, x)] + xs)[i].value, ys[i].value)
    {
      if i > 0 {
        assert ys[i] == ys[1..][i - 1];
      }
    }
  }

  lemma FieldsPermittedWith(d0: nat, d1: nat, x: Json, rest: seq<Field>, properties: seq<Property>, defs: Defs) returns (d: nat)
    requires properties != [] && DistinctNames(properties)
    requires FieldsPermitted(d0, EscapeFree, rest, properties[1..], true, defs)
    requires PermittedAt(d1, EscapeFree, x, properties[0].schema, defs)
    ensures FieldsPermitted(d, EscapeFree, [Field(properties[0].name, x)] + rest, properties, true, defs)
  {
    NamesOfRest(properties, rest);
    d := if d0 >= d1 then d0 else d1;
    DeeperPermits(d1, d, EscapeFree, x, properties[0].schema, defs);
    DeeperFields(d0, d, EscapeFree, rest, properties[1..], true, defs);
    FieldPrepended(d, EscapeFree, properties[0], x, rest, properties, defs);
  }

  lemma {:induction false} FieldsAnswer(fuel: nat, numbers: bool, properties: seq<Property>, answers: seq<Field>, defs: Defs)
    returns (d: nat, fields: seq<Field>)
    requires WellShapedDefs(defs) && StandsDefs(numbers, defs) && DistinctNames(properties)
    requires forall p :: p in properties ==> WellShaped(p.schema) && Stands(numbers, p.schema, defs)
    requires WalkProperties(fuel, properties, defs) == Ok(answers)
    ensures FieldsPermitted(d, EscapeFree, fields, properties, true, defs) && StandsFor(numbers, Obj(fields), Obj(answers))
    decreases fuel, 1, |properties|
  {
    if properties == [] {
      d, fields := 0, [];
    } else {
      var y := AnswersOfRest(fuel, properties, answers, defs);
      var d0, rest := FieldsAnswer(fuel, numbers, properties[1..], answers[1..], defs);
      var d1, x := AnswerIsPermitted(fuel, numbers, properties[0].schema, defs);
      fields := [Field(properties[0].name, x)] + rest;
      d := FieldsPermittedWith(d0, d1, x, rest, properties, defs);
      FieldStandsFor(numbers, properties[0].name, x, y, rest, answers);
    }
  }

  // ----- the answer is the largest permitted instance

  /** A plain schema whose bounds stand has its worst case among its instances, up to two
      characters for each number. */
  lemma WorstCaseIsReached(fuel: nat, mode: Mode, n: Schema, defs: Defs) returns (d: nat, v: Json)
    requires WellShaped(n) && WellShapedDefs(defs) && Stands(true, n, defs) && StandsDefs(true, defs)
    requires Walk(fuel, n, defs).Ok?
    ensures PermittedAt(d, EscapeFree, v, n, defs) && Reads(v, Walk(fuel, n, defs).value)
    ensures DumpCost(mode, Walk(fuel, n, defs).value) == DumpCost(mode, v) + 2 * Charged(v, Walk(fuel, n, defs).value)
  {
    d, v := AnswerIsPermitted(fuel, true, n, defs);
    ReadingCost(mode, v, Walk(fuel, n, defs).value);
  }

  /** Nothing permitted costs more than `w`, and `w` is permitted. */
  ghost predicate IsLargest(mode: Mode, w: Json, n: Schema, defs: Defs) {
    Dominates(mode, EscapeFree, w, n, defs) && IsPermitted(w, n, defs)
  }

  /** Without numbers a guarded answer is the largest permitted instance, and costs what the survey
      says. */
  lemma GuardedAnswerIsLargest(fuel: nat, mode: Mode, n: Schema, defs: Defs)
    requires WellShaped(n) && WellShapedDefs(defs) && Stands(false, n, defs) && StandsDefs(false, defs)
    requires Walk(fuel, n, defs).Ok? && Guarded(fuel, mode, n, defs)
    ensures IsLargest(mode, Walk(fuel, n, defs).value, n, defs)
    ensures Survey(fuel, mode, EscapeFree, n, defs, None).Some?
    ensures Survey(fuel, mode, EscapeFree, n, defs, None).value.Whole() == AtMost(DumpCost(mode, Walk(fuel, n, defs).value))
  {
    var d, v := AnswerIsPermitted(fuel, false, n, defs);
    WalkerCovers(fuel, mode, n, defs, None);
    WorstCaseDominates(fuel, mode, n, defs);
    SurveyBoundsPermitted(fuel, mode, EscapeFree, d, v, n, defs, None);
  }

  /** So is every answer for a plain schema. */
  lemma PlainAnswerIsLargest(fuel: nat, mode: Mode, n: Schema, defs: Defs)
    requires WellShaped(n) && WellShapedDefs(defs) && Stands(false, n, defs) && StandsDefs(false, defs)
    requires Plain(mode, n, defs) && PlainDefs(mode, defs) && Walk(fuel, n, defs).Ok?
    ensures IsLargest(mode, Walk(fuel, n, defs).value, n, defs)
  {
    PlainIsGuarded(fuel, mode, n, defs);
    MoreStackSameAnswer(fuel, fuel + 1, n, defs);
    GuardedAnswerIsLargest(fuel + 1, mode, n, defs);
  }
}
