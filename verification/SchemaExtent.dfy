/** What a schema permits, read as JSON Schema reads it, and how much text the permitted
    instances can take. `Survey` is the reference the walker is measured against: it knows
    that `maxLength` constrains strings only and that objects may be open. */
module SchemaExtent {
  import opened Collections
  import opened JsonText
  import opened SchemaWalker

  /** Which characters a freely written string may hold. */
  datatype Alphabet = EscapeFree | AnyChar

  predicate Writable(a: Alphabet, s: string) {
    a.EscapeFree? ==> forall i :: 0 <= i < |s| ==> !NeedsEscape(s[i])
  }

  // ----- permitted instances

  predicate IsNumeral(text: string) {
    && 1 <= |text| <= NUMERIC_WORST_CASE_CHARS
    && forall i :: 0 <= i < |text| ==> text[i] in "0123456789+-.eE"
  }

  predicate HasKind(v: Json, kind: Kind) {
    match kind
    case ObjectKind => v.Obj?
    case ArrayKind => v.Arr?
    case StringKind => v.Str?
    case NumberKind => v.Num? && IsNumeral(v.text)
    case IntegerKind => v.Num? && IsNumeral(v.text)
    case BooleanKind => v.Bool?
    case NullKind => v.Null?
    case OtherKind(_) => false
  }

  /** Nothing but the string rules decides what text may stand here. */
  predicate Free(n: Schema) {
    n.ref.None? && n.constant.None? && n.enumeration.None? && n.anyOf.NoUnion?
  }

  predicate DistinctKeys(fields: seq<Field>) {
    forall i, j :: 0 <= i < j < |fields| ==> fields[i].key != fields[j].key
  }

  predicate Declared(key: string, properties: seq<Property>) {
    exists p :: p in properties && p.name == key
  }

  /** `v` satisfies every keyword of `n`, by a derivation at most `d` steps deep. */
  ghost predicate PermittedAt(d: nat, a: Alphabet, v: Json, n: Schema, defs: Defs)
    decreases d, 0
  {
    && d > 0
    && (n.ref.Some? ==> n.ref.value in defs && PermittedAt(d - 1, a, v, defs[n.ref.value], defs))
    && (n.maxLength.Some? && v.Str? ==> |v.s| <= n.maxLength.value)
    && (n.constant.Some? ==> v == n.constant.value)
    && (n.enumeration.Some? ==> v in n.enumeration.value)
    && (n.anyOf.AnyOf? ==> exists b :: b in n.anyOf.branches && PermittedAt(d - 1, a, v, b, defs))
    && (n.kind.Some? ==> HasKind(v, n.kind.value))
    && (Free(n) && v.Str? ==> Writable(a, v.s))
    && (v.Arr? ==>
          && (n.maxItems.Some? ==> |v.items| <= n.maxItems.value)
          && (n.items.Some? ==> forall x :: x in v.items ==> PermittedAt(d - 1, a, x, n.items.value, defs)))
    && (v.Obj? ==> FieldsPermitted(d - 1, a, v.fields, n.properties, n.closed, defs))
  }

  ghost predicate FieldsPermitted(d: nat, a: Alphabet, fields: seq<Field>, properties: seq<Property>, closed: bool, defs: Defs)
    decreases d, 1
  {
    && DistinctKeys(fields)
    && (forall f, p :: f in fields && p in properties && p.name == f.key ==> PermittedAt(d, a, f.value, p.schema, defs))
    && (closed ==> forall f :: f in fields ==> Declared(f.key, properties))
  }

  lemma {:induction false} DeeperPermits(d: nat, e: nat, a: Alphabet, v: Json, n: Schema, defs: Defs)
    requires d <= e && PermittedAt(d, a, v, n, defs)
    ensures PermittedAt(e, a, v, n, defs)
    decreases d, 0
  {
    if n.ref.Some? {
      DeeperPermits(d - 1, e - 1, a, v, defs[n.ref.value], defs);
    }
    if n.anyOf.AnyOf? {
      var b :| b in n.anyOf.branches && PermittedAt(d - 1, a, v, b, defs);
      DeeperPermits(d - 1, e - 1, a, v, b, defs);
    }
    if v.Arr? && n.items.Some? {
      forall x | x in v.items
        ensures PermittedAt(e - 1, a, x, n.items.value, defs)
      {
        DeeperPermits(d - 1, e - 1, a, x, n.items.value, defs);
      }
    }
    if v.Obj? {
      DeeperFields(d - 1, e - 1, a, v.fields, n.properties, n.closed, defs);
    }
  }

  lemma {:induction false} DeeperFields(d: nat, e: nat, a: Alphabet, fields: seq<Field>, properties: seq<Property>, closed: bool, defs: Defs)
    requires d <= e && FieldsPermitted(d, a, fields, properties, closed, defs)
    ensures FieldsPermitted(e, a, fields, properties, closed, defs)
    decreases d, 1
  {
    forall f, p | f in fields && p in properties && p.name == f.key
      ensures PermittedAt(e, a, f.value, p.schema, defs)
    {
      DeeperPermits(d, e, a, f.value, p.schema, defs);
    }
  }

  lemma {:induction false} ResolvedPermits(d: nat, a: Alphabet, v: Json, node: Schema, defs: Defs, seen: set<Name>)
    returns (e: nat)
    requires PermittedAt(d, a, v, node, defs) && Resolve(node, defs, seen).Ok?
    ensures PermittedAt(e, a, v, Resolve(node, defs, seen).value, defs)
    decreases d
  {
    if node.ref.None? {
      e := d;
    } else {
      e := ResolvedPermits(d - 1, a, v, defs[node.ref.value], defs, seen + {node.ref.value});
    }
  }

  // ----- extents

  /** How much the instances of one sort can cost. */
  datatype Extent = Absent | AtMost(cost: nat) | Endless

  function Join(x: Extent, y: Extent): Extent {
    if x.Endless? || y.Endless? then Endless
    else if x.Absent? then y
    else if y.Absent? then x
    else AtMost(if x.cost >= y.cost then x.cost else y.cost)
  }

  predicate Within(cost: nat, e: Extent) {
    e.Endless? || (e.AtMost? && cost <= e.cost)
  }

  /** Strings are kept apart: a `maxLength` further out still shortens them. */
  datatype Reach = Reach(text: Extent, other: Extent) {
    function Whole(): Extent { Join(text, other) }
    function Of(isText: bool): Extent { if isText then text else other }
  }

  function JoinReach(x: Reach, y: Reach): Reach {
    Reach(Join(x.text, y.text), Join(x.other, y.other))
  }

  const NOTHING := Reach(Absent, Absent)

  function MinCap(x: Option<nat>, y: Option<nat>): Option<nat> {
    match (x, y)
    case (None, _) => y
    case (_, None) => x
    case (Some(m), Some(k)) => Some(if m <= k then m else k)
  }

  predicate Fits(v: Json, cap: Option<nat>) {
    v.Str? && cap.Some? ==> |v.s| <= cap.value
  }

  /** The most one freely written character costs. */
  function CharPeak(mode: Mode, a: Alphabet): nat {
    match a
    case EscapeFree => CharCost(mode, WIDE)
    case AnyChar => 6
  }

  function FreeText(mode: Mode, a: Alphabet, cap: Option<nat>): Extent {
    if cap.None? then Endless else AtMost(CharPeak(mode, a) * cap.value + 2)
  }

  function ListedReach(mode: Mode, values: seq<Json>, cap: Option<nat>): Reach {
    if values == [] then NOTHING
    else
      var rest := ListedReach(mode, values[1..], cap);
      var v := values[0];
      if !Fits(v, cap) then rest
      else if v.Str? then Reach(Join(AtMost(DumpCost(mode, v)), rest.text), rest.other)
      else Reach(rest.text, Join(AtMost(DumpCost(mode, v)), rest.other))
  }

  datatype Total = Total(count: nat, sum: nat, endless: bool)

  /** Total reach of the fields an object may carry: absent ones count for nothing. */
  function AddField(mode: Mode, name: string, e: Extent, t: Total): Total {
    match e
    case Absent => t
    case Endless => t.(endless := true)
    case AtMost(cost) => Total(t.count + 1, KeyCost(mode, name) + 2 + cost + t.sum, t.endless)
  }

  function ArrayExtent(maxItems: Option<nat>, item: Extent): Extent {
    if item.Absent? then AtMost(2)
    else if maxItems.None? || item.Endless? then Endless
    else AtMost(2 + Joined(maxItems.value, maxItems.value * item.cost))
  }

  /** An open object takes undeclared keys of any size. */
  function ObjectExtent(closed: bool, t: Total): Extent {
    if !closed || t.endless then Endless else AtMost(2 + Joined(t.count, t.sum))
  }

  /** The reach of a schema under a length bound `cap` from further out; None when a
      reference cannot be followed or `fuel` does not suffice. */
  function Survey(fuel: nat, mode: Mode, a: Alphabet, node: Schema, defs: Defs, cap: Option<nat>): Option<Reach>
    decreases fuel, 0
  {
    if fuel == 0 || Resolve(node, defs, {}).Err? then None
    else
      var n := Resolve(node, defs, {}).value;
      var c := MinCap(cap, n.maxLength);
      if n.constant.Some? then Some(ListedReach(mode, [n.constant.value], c))
      else if n.enumeration.Some? then Some(ListedReach(mode, n.enumeration.value, c))
      else if n.anyOf.AnyOf? then SurveyBranches(fuel - 1, mode, a, n.anyOf.branches, defs, c)
      else if n.kind.None? then Some(Reach(FreeText(mode, a, c), Endless))
      else
        match n.kind.value
        case ObjectKind =>
          (match SurveyProperties(fuel - 1, mode, a, n.properties, defs)
           case None => None
           case Some(t) => Some(Reach(Absent, ObjectExtent(n.closed, t))))
        case ArrayKind =>
          if n.maxItems == Some(0) then Some(Reach(Absent, AtMost(2)))
          else
            (match Survey(fuel - 1, mode, a, ItemsOf(n), defs, None)
             case None => None
             case Some(item) => Some(Reach(Absent, ArrayExtent(n.maxItems, item.Whole()))))
        case StringKind => Some(Reach(FreeText(mode, a, c), Absent))
        case NumberKind => Some(Reach(Absent, AtMost(NUMERIC_WORST_CASE_CHARS)))
        case IntegerKind => Some(Reach(Absent, AtMost(NUMERIC_WORST_CASE_CHARS)))
        case BooleanKind => Some(Reach(Absent, AtMost(5)))
        case NullKind => Some(Reach(Absent, AtMost(4)))
        case OtherKind(_) => Some(NOTHING)
  }

  function SurveyBranches(fuel: nat, mode: Mode, a: Alphabet, branches: seq<Schema>, defs: Defs, cap: Option<nat>): Option<Reach>
    decreases fuel, 1 + |branches|
  {
    if branches == [] then Some(NOTHING)
    else
      match (Survey(fuel, mode, a, branches[0], defs, cap), SurveyBranches(fuel, mode, a, branches[1..], defs, cap))
      case (Some(x), Some(y)) => Some(JoinReach(x, y))
      case _ => None
  }

  function SurveyProperties(fuel: nat, mode: Mode, a: Alphabet, properties: seq<Property>, defs: Defs): Option<Total>
    decreases fuel, 1 + |properties|
  {
    if properties == [] then Some(Total(0, 0, false))
    else
      match (Survey(fuel, mode, a, properties[0].schema, defs, None), SurveyProperties(fuel, mode, a, properties[1..], defs))
      case (Some(x), Some(t)) => Some(AddField(mode, properties[0].name, x.Whole(), t))
      case _ => None
  }

  // ----- the survey bounds every permitted instance

  lemma {:induction false} TextCost(mode: Mode, a: Alphabet, s: string)
    requires Writable(a, s)
    ensures Cost(mode, Escape(s)) <= CharPeak(mode, a) * |s|
  {
    if s == "" {
    } else {
      var peak := CharPeak(mode, a);
      assert Cost(mode, EscapeChar(s[0])) <= peak by {
        EscapeCharCost(mode, s[0]);
      }
      assert Cost(mode, Escape(s[1..])) <= peak * (|s| - 1) by {
        TextCost(mode, a, s[1..]);
      }
      CostConcat(mode, EscapeChar(s[0]), Escape(s[1..]));
      assert peak * |s| == peak + peak * (|s| - 1);
    }
  }

  lemma {:induction false} ListedSound(mode: Mode, values: seq<Json>, cap: Option<nat>, v: Json)
    requires v in values && Fits(v, cap)
    ensures Within(DumpCost(mode, v), ListedReach(mode, values, cap).Of(v.Str?))
  {
    var first := AtMost(DumpCost(mode, values[0]));
    var rest := ListedReach(mode, values[1..], cap);
    if v == values[0] {
      JoinKeeps(DumpCost(mode, v), first, rest.Of(v.Str?));
    } else {
      assert v in values[1..];
      ListedSound(mode, values[1..], cap, v);
      JoinKeeps(DumpCost(mode, v), first, rest.Of(v.Str?));
    }
  }

  lemma JoinKeeps(cost: nat, e: Extent, f: Extent)
    requires Within(cost, e) || Within(cost, f)
    ensures Within(cost, Join(e, f))
  {
  }

  lemma {:induction false} NumeralCost(mode: Mode, text: string)
    requires IsNumeral(text)
    ensures Cost(mode, text) == |text|
  {
    PlainCost(mode, text);
  }

  lemma {:induction false} ItemsBound(mode: Mode, items: seq<Json>, peak: nat)
    requires forall x :: x in items ==> DumpCost(mode, x) <= peak
    ensures ItemsCost(mode, items) <= |items| * peak
  {
    if items == [] {
    } else {
      ItemsBound(mode, items[1..], peak);
      OneMoreItem(|items[1..]|, DumpCost(mode, items[0]), ItemsCost(mode, items[1..]), peak);
    }
  }

  lemma OneMoreItem(n: nat, head: nat, rest: nat, peak: nat)
    requires head <= peak && rest <= n * peak
    ensures head + rest <= (n + 1) * peak
  {
    assert (n + 1) * peak == n * peak + peak;
  }

  lemma JoinedMonotone(n: nat, m: nat, x: nat, y: nat)
    requires n <= m && x <= y
    ensures Joined(n, x) <= Joined(m, y)
  {
  }

  lemma MoreItems(n: nat, m: nat, peak: nat)
    requires n <= m
    ensures n * peak <= m * peak
  {
  }

  lemma {:induction false} SurveyBoundsPermitted(fuel: nat, mode: Mode, a: Alphabet, d: nat, v: Json, node: Schema, defs: Defs, cap: Option<nat>)
    requires PermittedAt(d, a, v, node, defs) && Fits(v, cap)
    requires Survey(fuel, mode, a, node, defs, cap).Some?
    ensures Within(DumpCost(mode, v), Survey(fuel, mode, a, node, defs, cap).value.Of(v.Str?))
    decreases fuel, 0
  {
    var n := Resolve(node, defs, {}).value;
    var e := ResolvedPermits(d, a, v, node, defs, {});
    var c := MinCap(cap, n.maxLength);
    if n.constant.Some? {
      ListedSound(mode, [n.constant.value], c, v);
    } else if n.enumeration.Some? {
      ListedSound(mode, n.enumeration.value, c, v);
    } else if n.anyOf.AnyOf? {
      var b :| b in n.anyOf.branches && PermittedAt(e - 1, a, v, b, defs);
      BranchesBound(fuel - 1, mode, a, e - 1, v, n.anyOf.branches, b, defs, c);
    } else if v.Str? {
      FreeTextBounds(mode, a, v.s, c, n);
    } else if n.kind.Some? {
      KindBounds(fuel, mode, a, e, v, n, defs, c);
    }
  }

  lemma FreeTextBounds(mode: Mode, a: Alphabet, s: string, c: Option<nat>, n: Schema)
    requires c.Some? ==> |s| <= c.value
    requires Writable(a, s)
    ensures Within(DumpCost(mode, Str(s)), FreeText(mode, a, c))
  {
    if c.Some? {
      TextCost(mode, a, s);
      QuotedCost(mode, s);
      MoreItems(|s|, c.value, CharPeak(mode, a));
    }
  }

  lemma WordCosts(mode: Mode)
    ensures DumpCost(mode, Null) == 4 && DumpCost(mode, Bool(true)) == 4 && DumpCost(mode, Bool(false)) == 5
  {
    PlainCost(mode, "null");
    PlainCost(mode, "true");
    PlainCost(mode, "false");
  }

  lemma {:induction false} KindBounds(fuel: nat, mode: Mode, a: Alphabet, d: nat, v: Json, n: Schema, defs: Defs, cap: Option<nat>)
    requires fuel > 0 && Free(n) && n.kind.Some? && !v.Str?
    requires PermittedAt(d, a, v, n, defs)
    requires Survey(fuel, mode, a, n, defs, cap).Some?
    ensures Within(DumpCost(mode, v), Survey(fuel, mode, a, n, defs, cap).value.other)
    decreases fuel, 0, 1
  {
    match v
    case Null => WordCosts(mode);
    case Bool(_) => WordCosts(mode);
    case Num(text) => NumeralCost(mode, text);
    case Str(_) =>
    case Arr(items) => ArrayBounds(fuel, mode, a, d, items, n, defs);
    case Obj(fields) =>
      if n.closed {
        ObjectBounds(fuel, mode, a, d, fields, n.properties, defs);
      }
  }

  lemma {:induction false} ObjectBounds(fuel: nat, mode: Mode, a: Alphabet, d: nat, fields: seq<Field>, properties: seq<Property>, defs: Defs)
    requires fuel > 0 && d > 0
    requires FieldsPermitted(d - 1, a, fields, properties, true, defs)
    requires SurveyProperties(fuel - 1, mode, a, properties, defs).Some?
    ensures var t := SurveyProperties(fuel - 1, mode, a, properties, defs).value;
            t.endless || DumpCost(mode, Obj(fields)) <= 2 + Joined(t.count, t.sum)
    decreases fuel, 0, 0
  {
    ObjectCost(mode, fields);
    FieldsBounded(fuel - 1, mode, a, d - 1, fields, properties, defs);
    var t := SurveyProperties(fuel - 1, mode, a, properties, defs).value;
    if !t.endless {
      JoinedMonotone(|fields|, t.count, FieldsCost(mode, fields), t.sum);
    }
  }

  lemma {:induction false} ArrayBounds(fuel: nat, mode: Mode, a: Alphabet, d: nat, items: seq<Json>, n: Schema, defs: Defs)
    requires fuel > 0 && d > 0
    requires n.maxItems.Some? ==> |items| <= n.maxItems.value
    requires n.items.Some? ==> forall x :: x in items ==> PermittedAt(d - 1, a, x, n.items.value, defs)
    requires n.maxItems != Some(0) ==> Survey(fuel - 1, mode, a, ItemsOf(n), defs, None).Some?
    ensures n.maxItems == Some(0) ==> DumpCost(mode, Arr(items)) == 2
    ensures n.maxItems != Some(0) ==>
              var item := Survey(fuel - 1, mode, a, ItemsOf(n), defs, None).value.Whole();
              Within(DumpCost(mode, Arr(items)), ArrayExtent(n.maxItems, item))
    decreases fuel, 0, 0
  {
    ArrayCost(mode, items);
    if items != [] {
      var item := Survey(fuel - 1, mode, a, ItemsOf(n), defs, None).value.Whole();
      if n.items.Some? {
        ItemsBounded(fuel - 1, mode, a, d - 1, items, n.items.value, defs);
        assert items[0] in items;
        if item.AtMost? && n.maxItems.Some? {
          ItemsBound(mode, items, item.cost);
          MoreItems(|items|, n.maxItems.value, item.cost);
          JoinedMonotone(|items|, n.maxItems.value, ItemsCost(mode, items), n.maxItems.value * item.cost);
        }
      }
    }
  }

  lemma {:induction false} ItemsBounded(fuel: nat, mode: Mode, a: Alphabet, d: nat, items: seq<Json>, n: Schema, defs: Defs)
    requires forall x :: x in items ==> PermittedAt(d, a, x, n, defs)
    requires Survey(fuel, mode, a, n, defs, None).Some?
    ensures forall x :: x in items ==> Within(DumpCost(mode, x), Survey(fuel, mode, a, n, defs, None).value.Whole())
    decreases fuel, 1, |items|
  {
    forall x | x in items
      ensures Within(DumpCost(mode, x), Survey(fuel, mode, a, n, defs, None).value.Whole())
    {
      SurveyBoundsPermitted(fuel, mode, a, d, x, n, defs, None);
    }
  }

  lemma {:induction false} BranchesBound(fuel: nat, mode: Mode, a: Alphabet, d: nat, v: Json, branches: seq<Schema>, b: Schema, defs: Defs, cap: Option<nat>)
    requires b in branches && PermittedAt(d, a, v, b, defs) && Fits(v, cap)
    requires SurveyBranches(fuel, mode, a, branches, defs, cap).Some?
    ensures Within(DumpCost(mode, v), SurveyBranches(fuel, mode, a, branches, defs, cap).value.Of(v.Str?))
    decreases fuel, 1, |branches|
  {
    if b == branches[0] {
      SurveyBoundsPermitted(fuel, mode, a, d, v, b, defs, cap);
    } else {
      assert b in branches[1..];
      BranchesBound(fuel, mode, a, d, v, branches[1..], b, defs, cap);
    }
  }

  lemma {:induction false} FieldsCostWithout(mode: Mode, fields: seq<Field>, i: nat)
    requires i < |fields|
    ensures FieldsCost(mode, fields) == FieldCost(mode, fields[i]) + FieldsCost(mode, fields[..i] + fields[i + 1..])
  {
    var rest := fields[..i] + fields[i + 1..];
    if i == 0 {
      assert rest == fields[1..];
    } else {
      FieldsCostWithout(mode, fields[1..], i - 1);
      assert rest[1..] == fields[1..][..i - 1] + fields[1..][i..];
    }
  }

  predicate Covers(t: Total, count: nat, sum: nat) {
    t.endless || (count <= t.count && sum <= t.sum)
  }

  lemma AddCovers(mode: Mode, name: string, e: Extent, t: Total, count: nat, sum: nat, cost: nat)
    requires Covers(t, count, sum) && Within(cost, e)
    ensures Covers(AddField(mode, name, e, t), count + 1, KeyCost(mode, name) + 2 + cost + sum)
  {
  }

  /** Whatever the order of its keys, an object costs no more than all declared fields do. */
  lemma {:induction false} FieldsBounded(fuel: nat, mode: Mode, a: Alphabet, d: nat, fields: seq<Field>, properties: seq<Property>, defs: Defs)
    requires FieldsPermitted(d, a, fields, properties, true, defs)
    requires SurveyProperties(fuel, mode, a, properties, defs).Some?
    ensures var t := SurveyProperties(fuel, mode, a, properties, defs).value;
            Covers(t, |fields|, FieldsCost(mode, fields))
    decreases fuel, 1, |properties|
  {
    if properties == [] {
    } else {
      var i := KeyIndex(fields, properties[0].name);
      if i < |fields| {
        OneFieldBounded(fuel, mode, a, d, fields, i, properties, defs);
      } else {
        RestPermitted(d, a, fields, fields, properties, defs);
        FieldsBounded(fuel, mode, a, d, fields, properties[1..], defs);
      }
    }
  }

  function KeyIndex(fields: seq<Field>, key: string): (i: nat)
    ensures i <= |fields|
    ensures i < |fields| ==> fields[i].key == key
    ensures i == |fields| ==> forall f :: f in fields ==> f.key != key
  {
    if fields == [] then 0
    else if fields[0].key == key then 0
    else 1 + KeyIndex(fields[1..], key)
  }

  lemma {:induction false} OneFieldBounded(fuel: nat, mode: Mode, a: Alphabet, d: nat, fields: seq<Field>, i: nat, properties: seq<Property>, defs: Defs)
    requires properties != [] && i < |fields| && fields[i].key == properties[0].name
    requires FieldsPermitted(d, a, fields, properties, true, defs)
    requires SurveyProperties(fuel, mode, a, properties, defs).Some?
    ensures var t := SurveyProperties(fuel, mode, a, properties, defs).value;
            Covers(t, |fields|, FieldsCost(mode, fields))
    decreases fuel, 1, |properties|, 0
  {
    var p := properties[0];
    var rest := fields[..i] + fields[i + 1..];
    assert fields[i] in fields && p in properties;
    var cost := DumpCost(mode, fields[i].value);
    var e := Survey(fuel, mode, a, p.schema, defs, None).value.Whole();
    var t := SurveyProperties(fuel, mode, a, properties[1..], defs).value;
    assert Within(cost, e) by {
      SurveyBoundsPermitted(fuel, mode, a, d, fields[i].value, p.schema, defs, None);
    }
    assert FieldsPermitted(d, a, rest, properties[1..], true, defs) by {
      FieldRemoved(fields, i);
      RestPermitted(d, a, fields, rest, properties, defs);
    }
    FieldsBounded(fuel, mode, a, d, rest, properties[1..], defs);
    FieldsCostWithout(mode, fields, i);
    AddCovers(mode, p.name, e, t, |rest|, FieldsCost(mode, rest), cost);
  }

  lemma FieldRemoved(fields: seq<Field>, i: nat)
    requires i < |fields| && DistinctKeys(fields)
    ensures var rest := fields[..i] + fields[i + 1..];
            DistinctKeys(rest) && forall f :: f in rest ==> f in fields && f.key != fields[i].key
  {
  }

  lemma RestPermitted(d: nat, a: Alphabet, fields: seq<Field>, rest: seq<Field>, properties: seq<Property>, defs: Defs)
    requires properties != [] && FieldsPermitted(d, a, fields, properties, true, defs)
    requires DistinctKeys(rest)
    requires forall f :: f in rest ==> f in fields && f.key != properties[0].name
    ensures FieldsPermitted(d, a, rest, properties[1..], true, defs)
  {
    forall f | f in rest
      ensures Declared(f.key, properties[1..])
    {
      var p :| p in properties && p.name == f.key;
      assert p in properties[1..];
    }
  }
}
