/** The survey is exact: on schemas whose nodes each say one thing, every finite extent is
    reached by a permitted instance and an endless one is overrun by arbitrarily long ones. */
module SchemaTight {
  import opened Collections
  import opened JsonText
  import opened SchemaWalker
  import opened SchemaExtent

  /** No keyword that would constrain containers. */
  predicate Bare(n: Schema) {
    n.properties == [] && !n.closed && n.maxItems.None? && n.items.None?
  }

  predicate OfKind(v: Json, kind: Option<Kind>) {
    && (kind.Some? ==> HasKind(v, kind.value))
    && (v.Obj? ==> DistinctKeys(v.fields))
  }

  /** Each node has one shape, as the schemas a model class generates have: a reference, a
      constant, an enumeration, a union or a type, with nothing beside it that could
      contradict it. */
  predicate OneShape(n: Schema) {
    && (n.ref.Some? ==> Bare(n) && n.maxLength.None? && n.constant.None? && n.enumeration.None? && n.anyOf.NoUnion? && n.kind.None?)
    && (n.constant.Some? ==>
          Bare(n) && n.maxLength.None? && n.enumeration.None? && n.anyOf.NoUnion? && OfKind(n.constant.value, n.kind))
    && (n.enumeration.Some? ==>
          && Bare(n) && n.maxLength.None? && n.anyOf.NoUnion? && n.enumeration.value != []
          && forall v :: v in n.enumeration.value ==> OfKind(v, n.kind))
    && (n.anyOf.AnyOf? ==>
          && Bare(n) && n.kind.None? && n.anyOf.branches != []
          && (n.maxLength.Some? ==> exists b :: b in n.anyOf.branches && Free(b)))
    && (n.kind.None? ==> Bare(n))
    && (n.kind.Some? ==> !n.kind.value.OtherKind?)
    && DistinctNames(n.properties)
  }

  predicate WellShaped(n: Schema)
    decreases n
  {
    && OneShape(n)
    && (forall p :: p in n.properties ==> WellShaped(p.schema))
    && (n.anyOf.AnyOf? ==> forall b :: b in n.anyOf.branches ==> WellShaped(b))
    && (n.items.Some? ==> WellShaped(n.items.value))
  }

  ghost predicate WellShapedDefs(defs: Defs) {
    forall name :: name in defs ==> WellShaped(defs[name])
  }

  lemma {:induction false} ResolvedWellShaped(node: Schema, defs: Defs, seen: set<Name>)
    requires WellShaped(node) && WellShapedDefs(defs)
    ensures Resolve(node, defs, seen).Ok? ==> WellShaped(Resolve(node, defs, seen).value)
    decreases |defs.Keys - seen|
  {
    if node.ref.Some? && node.ref.value !in seen && node.ref.value in defs {
      var name := node.ref.value;
      assert defs.Keys - (seen + {name}) < defs.Keys - seen;
      SubsetSize(defs.Keys - (seen + {name}), defs.Keys - seen);
      ResolvedWellShaped(defs[name], defs, seen + {name});
    }
  }

  /** A value permitted where a chain of references ends is permitted where it starts. */
  lemma {:induction false} PermitsThroughRefs(e: nat, a: Alphabet, v: Json, node: Schema, defs: Defs, seen: set<Name>)
    returns (d: nat)
    requires WellShaped(node) && WellShapedDefs(defs)
    requires Resolve(node, defs, seen).Ok? && PermittedAt(e, a, v, Resolve(node, defs, seen).value, defs)
    ensures PermittedAt(d, a, v, node, defs)
    decreases |defs.Keys - seen|
  {
    if node.ref.None? {
      d := e;
    } else {
      var name := node.ref.value;
      assert defs.Keys - (seen + {name}) < defs.Keys - seen;
      SubsetSize(defs.Keys - (seen + {name}), defs.Keys - seen);
      d := PermitsThroughRefs(e, a, v, defs[name], defs, seen + {name});
      d := d + 1;
    }
  }

  // ----- witnesses

  predicate Attains(cost: nat, e: Extent, floor: nat) {
    match e
    case Absent => false
    case AtMost(c) => cost == c
    case Endless => cost >= floor
  }

  lemma {:induction false} ListedAttained(mode: Mode, values: seq<Json>, cap: Option<nat>, isText: bool) returns (v: Json)
    requires ListedReach(mode, values, cap).Of(isText) != Absent
    ensures v in values && v.Str? == isText && Fits(v, cap)
    ensures ListedReach(mode, values, cap).Of(isText) == AtMost(DumpCost(mode, v))
  {
    var first := values[0];
    var rest := ListedReach(mode, values[1..], cap).Of(isText);
    if Fits(first, cap) && first.Str? == isText && (rest.AtMost? ==> DumpCost(mode, first) >= rest.cost) {
      v := first;
      if rest != Absent {
        var w := ListedAttained(mode, values[1..], cap, isText);
      }
    } else {
      v := ListedAttained(mode, values[1..], cap, isText);
    }
  }

  function PeakChar(a: Alphabet): char {
    if a.EscapeFree? then WIDE else BELL
  }

  lemma {:induction false} PeakTextCost(mode: Mode, a: Alphabet, k: nat)
    ensures Cost(mode, Escape(Repeat(PeakChar(a), k))) == CharPeak(mode, a) * k
  {
    if k == 0 {
    } else {
      var c := PeakChar(a);
      PeakTextCost(mode, a, k - 1);
      assert Repeat(c, k)[1..] == Repeat(c, k - 1);
      assert Cost(mode, EscapeChar(c)) == CharPeak(mode, a) by {
        if a.AnyChar? {
          assert EscapeChar(c) == "\\u0007";
          PlainCost(mode, EscapeChar(c));
        } else {
          EscapeCharCost(mode, c);
        }
      }
      CostConcat(mode, EscapeChar(c), Escape(Repeat(c, k - 1)));
      assert CharPeak(mode, a) * k == CharPeak(mode, a) + CharPeak(mode, a) * (k - 1);
    }
  }

  /** The longest string a bound allows, or one past any floor. */
  lemma TextReached(mode: Mode, a: Alphabet, cap: Option<nat>, floor: nat) returns (s: string)
    ensures Writable(a, s) && (cap.Some? ==> |s| <= cap.value)
    ensures Attains(DumpCost(mode, Str(s)), FreeText(mode, a, cap), floor)
  {
    var k := if cap.Some? then cap.value else floor;
    s := Repeat(PeakChar(a), k);
    PeakTextCost(mode, a, k);
    QuotedCost(mode, s);
    assert CharPeak(mode, a) * k >= k;
  }

  const NUMERAL := "-1.7976931348623157e+308"

  lemma NumeralReached(mode: Mode)
    ensures IsNumeral(NUMERAL) && DumpCost(mode, Num(NUMERAL)) == NUMERIC_WORST_CASE_CHARS
  {
    NumeralCost(mode, NUMERAL);
  }

  function Times(n: nat, x: nat): nat {
    n * x
  }

  lemma TimesStep(n: nat, x: nat)
    requires n > 0
    ensures Times(n, x) == x + Times(n - 1, x)
  {
    assert n * x == x + (n - 1) * x;
  }

  lemma {:induction false} CopiesCost(mode: Mode, v: Json, n: nat)
    ensures ItemsCost(mode, Copies(v, n)) == Times(n, DumpCost(mode, v))
  {
    if n == 0 {
    } else {
      assert Copies(v, n)[1..] == Copies(v, n - 1);
      CopiesCost(mode, v, n - 1);
      TimesStep(n, DumpCost(mode, v));
    }
  }

  lemma CopiesArrayCost(mode: Mode, v: Json, n: nat)
    ensures DumpCost(mode, Arr(Copies(v, n))) == 2 + Joined(n, Times(n, DumpCost(mode, v)))
    ensures DumpCost(mode, Arr(Copies(v, n))) >= n
  {
    ArrayCost(mode, Copies(v, n));
    CopiesCost(mode, v, n);
  }

  lemma {:induction false} LongestName(properties: seq<Property>) returns (n: nat)
    ensures forall p :: p in properties ==> |p.name| <= n
  {
    n := 0;
    for i := 0 to |properties|
      invariant forall j :: 0 <= j < i ==> |properties[j].name| <= n
    {
      n := if |properties[i].name| > n then |properties[i].name| else n;
    }
  }

  lemma {:induction false} CostAtLeastLength(mode: Mode, text: string)
    ensures Cost(mode, text) >= |text|
  {
    if text == "" {
    } else {
      CostAtLeastLength(mode, text[1..]);
    }
  }

  lemma {:induction false} EscapeNoShorter(s: string)
    ensures |Escape(s)| >= |s|
  {
    if s == "" {
    } else {
      EscapeNoShorter(s[1..]);
    }
  }

  /** An open object takes a key nobody declared, as long as one likes. */
  lemma OpenObjectReached(mode: Mode, a: Alphabet, n: Schema, defs: Defs, floor: nat) returns (v: Json)
    requires n.kind == Some(ObjectKind) && OneShape(n) && n.ref.None? && n.constant.None? && n.enumeration.None? && n.anyOf.NoUnion?
    requires !n.closed
    ensures v.Obj? && PermittedAt(1, a, v, n, defs) && DumpCost(mode, v) >= floor
  {
    var longest := LongestName(n.properties);
    var f := Field(Repeat('k', longest + 1 + floor), Null);
    v := Obj([f]);
    ObjectCost(mode, [f]);
    assert [f][1..] == [];
    QuotedCost(mode, f.key);
    EscapeNoShorter(f.key);
    CostAtLeastLength(mode, Escape(f.key));
  }

  // ----- every extent is reached

  /** An instance of the given sort that costs all its extent allows. */
  lemma {:induction false} ExtentReached(fuel: nat, mode: Mode, a: Alphabet, node: Schema, defs: Defs, cap: Option<nat>, isText: bool, floor: nat)
    returns (d: nat, v: Json)
    requires WellShaped(node) && WellShapedDefs(defs)
    requires Survey(fuel, mode, a, node, defs, cap).Some?
    requires Survey(fuel, mode, a, node, defs, cap).value.Of(isText) != Absent
    ensures PermittedAt(d, a, v, node, defs) && v.Str? == isText && Fits(v, cap)
    ensures Attains(DumpCost(mode, v), Survey(fuel, mode, a, node, defs, cap).value.Of(isText), floor)
    decreases fuel, 0, 1
  {
    ResolvedWellShaped(node, defs, {});
    var n := Resolve(node, defs, {}).value;
    SurveyOfResolved(fuel, mode, a, node, defs, cap);
    var e;
    if n.constant.Some? || n.enumeration.Some? {
      v := ListReached(fuel, mode, a, n, defs, cap, isText);
      e := 1;
    } else if n.anyOf.AnyOf? {
      e, v := UnionReached(fuel, mode, a, n, defs, cap, isText, floor);
    } else if isText {
      v := FreeTextReached(fuel, mode, a, n, defs, cap, floor);
      e := 1;
    } else {
      e, v := OtherReached(fuel, mode, a, n, defs, cap, floor);
    }
    d := PermitsThroughRefs(e, a, v, node, defs, {});
  }

  lemma SurveyOfResolved(fuel: nat, mode: Mode, a: Alphabet, node: Schema, defs: Defs, cap: Option<nat>)
    requires Resolve(node, defs, {}).Ok?
    ensures Survey(fuel, mode, a, node, defs, cap) == Survey(fuel, mode, a, Resolve(node, defs, {}).value, defs, cap)
  {
  }

  lemma {:induction false} OtherReached(fuel: nat, mode: Mode, a: Alphabet, n: Schema, defs: Defs, cap: Option<nat>, floor: nat)
    returns (d: nat, v: Json)
    requires fuel > 0 && Free(n) && WellShaped(n) && WellShapedDefs(defs)
    requires Survey(fuel, mode, a, n, defs, cap).Some?
    requires Survey(fuel, mode, a, n, defs, cap).value.other != Absent
    ensures PermittedAt(d, a, v, n, defs) && !v.Str?
    ensures Attains(DumpCost(mode, v), Survey(fuel, mode, a, n, defs, cap).value.other, floor)
    decreases fuel, 0, 0, 1
  {
    if n.kind.None? {
      v := UntypedReached(mode, a, n, defs, floor);
      d := 1;
    } else {
      d, v := KindReached(fuel, mode, a, n, defs, floor);
    }
  }

  lemma UntypedReached(mode: Mode, a: Alphabet, n: Schema, defs: Defs, floor: nat) returns (v: Json)
    requires Bare(n) && Free(n) && n.kind.None?
    ensures PermittedAt(1, a, v, n, defs) && v.Arr? && DumpCost(mode, v) >= floor
  {
    v := Arr(Copies(Null, floor));
    CopiesArrayCost(mode, Null, floor);
  }

  lemma {:induction false} UnionReached(fuel: nat, mode: Mode, a: Alphabet, n: Schema, defs: Defs, cap: Option<nat>, isText: bool, floor: nat)
    returns (d: nat, v: Json)
    requires fuel > 0 && n.anyOf.AnyOf? && n.ref.None? && WellShaped(n) && WellShapedDefs(defs)
    requires Survey(fuel, mode, a, n, defs, cap).Some?
    requires Survey(fuel, mode, a, n, defs, cap).value.Of(isText) != Absent
    ensures PermittedAt(d, a, v, n, defs) && v.Str? == isText && Fits(v, cap)
    ensures Attains(DumpCost(mode, v), Survey(fuel, mode, a, n, defs, cap).value.Of(isText), floor)
    decreases fuel, 0, 0
  {
    var b;
    d, v, b := BranchesReached(fuel - 1, mode, a, n.anyOf.branches, defs, MinCap(cap, n.maxLength), isText, floor);
    d := d + 1;
  }

  lemma ListReached(fuel: nat, mode: Mode, a: Alphabet, n: Schema, defs: Defs, cap: Option<nat>, isText: bool) returns (v: Json)
    requires OneShape(n) && n.ref.None? && (n.constant.Some? || n.enumeration.Some?)
    requires Survey(fuel, mode, a, n, defs, cap).Some? && Survey(fuel, mode, a, n, defs, cap).value.Of(isText) != Absent
    ensures PermittedAt(1, a, v, n, defs) && v.Str? == isText && Fits(v, cap)
    ensures Survey(fuel, mode, a, n, defs, cap).value.Of(isText) == AtMost(DumpCost(mode, v))
  {
    if n.constant.Some? {
      v := ListedAttained(mode, [n.constant.value], cap, isText);
    } else {
      v := ListedAttained(mode, n.enumeration.value, cap, isText);
    }
  }

  lemma FreeTextReached(fuel: nat, mode: Mode, a: Alphabet, n: Schema, defs: Defs, cap: Option<nat>, floor: nat) returns (v: Json)
    requires OneShape(n) && Free(n) && Survey(fuel, mode, a, n, defs, cap).Some?
    requires Survey(fuel, mode, a, n, defs, cap).value.text != Absent
    ensures PermittedAt(1, a, v, n, defs) && v.Str? && Fits(v, cap)
    ensures Attains(DumpCost(mode, v), Survey(fuel, mode, a, n, defs, cap).value.text, floor)
  {
    var s := TextReached(mode, a, MinCap(cap, n.maxLength), floor);
    v := Str(s);
  }

  ghost predicate Resolved(n: Schema) {
    Free(n) && n.kind.Some? && WellShaped(n)
  }

  lemma {:induction false} KindReached(fuel: nat, mode: Mode, a: Alphabet, n: Schema, defs: Defs, floor: nat)
    returns (d: nat, v: Json)
    requires fuel > 0 && Resolved(n) && WellShapedDefs(defs) && n.kind != Some(StringKind)
    requires Survey(fuel, mode, a, n, defs, None).Some?
    ensures PermittedAt(d, a, v, n, defs) && !v.Str?
    ensures Attains(DumpCost(mode, v), Survey(fuel, mode, a, n, defs, None).value.other, floor)
    decreases fuel, 0, 0, 0
  {
    d := 1;
    match n.kind.value
    case ObjectKind =>
      if n.closed {
        d, v := ObjectReached(fuel - 1, mode, a, n, defs, floor);
      } else {
        v := OpenObjectReached(mode, a, n, defs, floor);
      }
    case ArrayKind =>
      if n.maxItems == Some(0) {
        v := Arr([]);
        ArrayCost(mode, []);
      } else {
        d, v := ArrayReached(fuel - 1, mode, a, n, defs, floor);
      }
    case _ => v := ScalarReached(fuel, mode, a, n, defs);
  }

  lemma ScalarReached(fuel: nat, mode: Mode, a: Alphabet, n: Schema, defs: Defs) returns (v: Json)
    requires fuel > 0 && Resolved(n) && Survey(fuel, mode, a, n, defs, None).Some?
    requires !n.kind.value.ObjectKind? && !n.kind.value.ArrayKind? && !n.kind.value.StringKind?
    ensures PermittedAt(1, a, v, n, defs) && !v.Str?
    ensures Survey(fuel, mode, a, n, defs, None).value.other == AtMost(DumpCost(mode, v))
  {
    NumeralReached(mode);
    WordCosts(mode);
    v := match n.kind.value
         case NullKind => Null
         case BooleanKind => Bool(false)
         case _ => Num(NUMERAL);
  }

  lemma {:induction false} WholeReached(fuel: nat, mode: Mode, a: Alphabet, node: Schema, defs: Defs, floor: nat)
    returns (d: nat, v: Json)
    requires WellShaped(node) && WellShapedDefs(defs)
    requires Survey(fuel, mode, a, node, defs, None).Some?
    requires Survey(fuel, mode, a, node, defs, None).value.Whole() != Absent
    ensures PermittedAt(d, a, v, node, defs)
    ensures Attains(DumpCost(mode, v), Survey(fuel, mode, a, node, defs, None).value.Whole(), floor)
    decreases fuel, 0, 2
  {
    var r := Survey(fuel, mode, a, node, defs, None).value;
    d, v := ExtentReached(fuel, mode, a, node, defs, None, r.text == r.Whole(), floor);
  }

  lemma {:induction false} BranchesReached(fuel: nat, mode: Mode, a: Alphabet, branches: seq<Schema>, defs: Defs, cap: Option<nat>, isText: bool, floor: nat)
    returns (d: nat, v: Json, b: Schema)
    requires WellShapedDefs(defs) && forall b :: b in branches ==> WellShaped(b)
    requires SurveyBranches(fuel, mode, a, branches, defs, cap).Some?
    requires SurveyBranches(fuel, mode, a, branches, defs, cap).value.Of(isText) != Absent
    ensures b in branches && PermittedAt(d, a, v, b, defs) && v.Str? == isText && Fits(v, cap)
    ensures Attains(DumpCost(mode, v), SurveyBranches(fuel, mode, a, branches, defs, cap).value.Of(isText), floor)
    decreases fuel, 1, |branches|
  {
    var whole := SurveyBranches(fuel, mode, a, branches, defs, cap).value.Of(isText);
    var first := Survey(fuel, mode, a, branches[0], defs, cap).value.Of(isText);
    if first == whole {
      b := branches[0];
      d, v := ExtentReached(fuel, mode, a, b, defs, cap, isText, floor);
    } else {
      d, v, b := BranchesReached(fuel, mode, a, branches[1..], defs, cap, isText, floor);
    }
  }

  lemma {:induction false} ArrayReached(fuel: nat, mode: Mode, a: Alphabet, n: Schema, defs: Defs, floor: nat)
    returns (d: nat, v: Json)
    requires Resolved(n) && WellShapedDefs(defs) && n.kind == Some(ArrayKind) && n.maxItems != Some(0)
    requires Survey(fuel, mode, a, ItemsOf(n), defs, None).Some?
    ensures PermittedAt(d, a, v, n, defs) && v.Arr?
    ensures Attains(DumpCost(mode, v), ArrayExtent(n.maxItems, Survey(fuel, mode, a, ItemsOf(n), defs, None).value.Whole()), floor)
    decreases fuel, 1, 0
  {
    var item := Survey(fuel, mode, a, ItemsOf(n), defs, None).value.Whole();
    if item.Absent? {
      d, v := 1, Arr([]);
      ArrayCost(mode, []);
    } else {
      var x;
      d, x := WholeReached(fuel, mode, a, ItemsOf(n), defs, floor);
      var k := if item.Endless? then 1 else if n.maxItems.Some? then n.maxItems.value else floor;
      d, v := d + 1, Arr(Copies(x, k));
      CopiesArrayCost(mode, x, k);
      if item.AtMost? {
        assert DumpCost(mode, x) == item.cost;
      }
    }
  }

  lemma {:induction false} ObjectReached(fuel: nat, mode: Mode, a: Alphabet, n: Schema, defs: Defs, floor: nat)
    returns (d: nat, v: Json)
    requires Resolved(n) && WellShapedDefs(defs) && n.kind == Some(ObjectKind) && n.closed
    requires SurveyProperties(fuel, mode, a, n.properties, defs).Some?
    ensures PermittedAt(d, a, v, n, defs) && v.Obj?
    ensures var t := SurveyProperties(fuel, mode, a, n.properties, defs).value;
            Attains(DumpCost(mode, v), ObjectExtent(true, t), floor)
    decreases fuel, 1, |n.properties| + 1
  {
    var fields;
    d, fields := FieldsReached(fuel, mode, a, n.properties, defs, floor);
    d, v := d + 1, Obj(fields);
    ObjectCost(mode, fields);
  }

  lemma {:induction false} FieldsReached(fuel: nat, mode: Mode, a: Alphabet, properties: seq<Property>, defs: Defs, floor: nat)
    returns (d: nat, fields: seq<Field>)
    requires WellShapedDefs(defs) && DistinctNames(properties) && forall p :: p in properties ==> WellShaped(p.schema)
    requires SurveyProperties(fuel, mode, a, properties, defs).Some?
    ensures FieldsPermitted(d, a, fields, properties, true, defs)
    ensures var t := SurveyProperties(fuel, mode, a, properties, defs).value;
            if t.endless then FieldsCost(mode, fields) >= floor
            else |fields| == t.count && FieldsCost(mode, fields) == t.sum
    decreases fuel, 1, |properties|
  {
    if properties == [] {
      d, fields := 0, [];
    } else {
      var p := properties[0];
      var d0, rest := FieldsReached(fuel, mode, a, properties[1..], defs, floor);
      NamesOfRest(properties, rest);
      if Survey(fuel, mode, a, p.schema, defs, None).value.Whole().Absent? {
        d, fields := d0, rest;
      } else {
        var d1, x := WholeReached(fuel, mode, a, p.schema, defs, floor);
        d := if d0 >= d1 then d0 else d1;
        fields := [Field(p.name, x)] + rest;
        DeeperPermits(d1, d, a, x, p.schema, defs);
        DeeperFields(d0, d, a, rest, properties[1..], true, defs);
        assert fields[1..] == rest;
        FieldPrepended(d, a, p, x, rest, properties, defs);
      }
    }
  }

  lemma NamesOfRest(properties: seq<Property>, rest: seq<Field>)
    requires properties != [] && DistinctNames(properties)
    requires forall f :: f in rest ==> Declared(f.key, properties[1..])
    ensures forall f :: f in rest ==> f.key != properties[0].name && Declared(f.key, properties)
  {
    forall f | f in rest
      ensures f.key != properties[0].name && Declared(f.key, properties)
    {
      var p :| p in properties[1..] && p.name == f.key;
      assert p in properties;
      var i :| 0 <= i < |properties[1..]| && properties[1..][i] == p;
      assert properties[i + 1] == p;
    }
  }

  lemma FieldPrepended(d: nat, a: Alphabet, p: Property, x: Json, rest: seq<Field>, properties: seq<Property>, defs: Defs)
    requires properties != [] && properties[0] == p && DistinctNames(properties)
    requires PermittedAt(d, a, x, p.schema, defs)
    requires FieldsPermitted(d, a, rest, properties[1..], true, defs)
    requires forall f :: f in rest ==> f.key != p.name && Declared(f.key, properties)
    ensures FieldsPermitted(d, a, [Field(p.name, x)] + rest, properties, true, defs)
  {
    var fields := [Field(p.name, x)] + rest;
    assert p in properties;
    forall f, q | f in fields && q in properties && q.name == f.key
      ensures PermittedAt(d, a, f.value, q.schema, defs)
    {
      if q == p {
        assert f == fields[0] || f in rest;
      } else {
        assert q in properties[1..];
        var i :| 0 <= i < |properties[1..]| && properties[1..][i] == q;
        assert properties[i + 1] == q;
      }
    }
  }
}
