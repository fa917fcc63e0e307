/** The walker that builds the largest instance a JSON Schema permits, or refuses.

    A schema node keeps the keywords the walker reads, each of them optional. `fuel` is the
    number of nested calls the interpreter's stack still has room for. */
module SchemaWalker {
  import opened Collections
  import opened JsonText

  type Name = string

  datatype Kind =
    | ObjectKind | ArrayKind | StringKind | NumberKind | IntegerKind | BooleanKind | NullKind
    | OtherKind(name: string)

  datatype Schema = Schema(
    ref: Option<Name>,
    maxLength: Option<nat>,
    constant: Option<Json>,
    enumeration: Option<seq<Json>>,
    anyOf: Union,
    kind: Option<Kind>,
    properties: seq<Property>,
    closed: bool,                  // additionalProperties is false
    maxItems: Option<nat>,
    items: Option<Schema>)

  datatype Union = NoUnion | AnyOf(branches: seq<Schema>)

  datatype Property = Property(name: string, schema: Schema)

  type Defs = map<Name, Schema>

  const EMPTY := Schema(None, None, None, None, NoUnion, None, [], false, None, None)

  /** One step from a node to the sub-schema the walker visits next. */
  datatype Step = Branch(index: nat) | Member(name: string) | Item

  datatype Gap = NoMaxLength | NoMaxItems | NoType

  datatype WalkError =
    | Unbounded(gap: Gap, path: seq<Step>)         // the schema refused, and where
    | RecursiveRef(name: Name)                     // refused: a chain of references loops
    | MissingDefinition(name: Name)                // a lookup error
    | EmptyChoice                                  // the maximum of nothing
    | StackExhausted

  datatype Result<+T> = Ok(value: T) | Err(error: WalkError)

  function At<T>(step: Step, r: Result<T>): Result<T> {
    match r
    case Err(Unbounded(gap, path)) => Err(Unbounded(gap, [step] + path))
    case _ => r
  }

  // ----- references

  function Resolve(node: Schema, defs: Defs, seen: set<Name>): (r: Result<Schema>)
    ensures r.Err? ==> r.error.RecursiveRef? || r.error.MissingDefinition?
    ensures r.Ok? ==> r.value.ref.None?
    decreases |defs.Keys - seen|
  {
    if node.ref.None? then Ok(node)
    else
      var name := node.ref.value;
      if name in seen then Err(RecursiveRef(name))
      else if name !in defs then Err(MissingDefinition(name))
      else
        assert defs.Keys - (seen + {name}) < defs.Keys - seen;
        SubsetSize(defs.Keys - (seen + {name}), defs.Keys - seen);
        Resolve(defs[name], defs, seen + {name})
  }

  /** The loop the walker runs: `seen` grows and the node is replaced by its target. */
  method ResolveRef(start: Schema, defs: Defs) returns (r: Result<Schema>)
    ensures r == Resolve(start, defs, {})
  {
    var node := start;
    var seen: set<Name> := {};
    while node.ref.Some?
      invariant Resolve(start, defs, {}) == Resolve(node, defs, seen)
      decreases |defs.Keys - seen|
    {
      var name := node.ref.value;
      if name in seen {
        return Err(RecursiveRef(name));
      }
      if name !in defs {
        return Err(MissingDefinition(name));
      }
      assert defs.Keys - (seen + {name}) < defs.Keys - seen;
      SubsetSize(defs.Keys - (seen + {name}), defs.Keys - seen);
      seen := seen + {name};
      node := defs[name];
    }
    return Ok(node);
  }

  /** Following references from `node` stops after exactly `steps` of them. */
  ghost predicate StopsAfter(node: Schema, defs: Defs, steps: nat)
    decreases steps
  {
    if node.ref.None? || node.ref.value !in defs then steps == 0
    else steps > 0 && StopsAfter(defs[node.ref.value], defs, steps - 1)
  }

  lemma {:induction false} StopsOnce(node: Schema, defs: Defs, s: nat, t: nat)
    requires StopsAfter(node, defs, s) && StopsAfter(node, defs, t)
    ensures s == t
    decreases s
  {
    if s == 0 {
    } else {
      StopsOnce(defs[node.ref.value], defs, s - 1, t - 1);
    }
  }

  predicate Loops(r: Result<Schema>) {
    r.Err? && r.error.RecursiveRef?
  }

  lemma {:induction false} StoppingIsNotRefused(node: Schema, defs: Defs, seen: set<Name>, steps: nat)
    requires StopsAfter(node, defs, steps)
    requires forall s :: s in seen ==> s in defs
    requires forall s, t: nat :: s in seen && t < steps ==> !StopsAfter(defs[s], defs, t)
    ensures !Loops(Resolve(node, defs, seen))
    decreases steps
  {
    if steps == 0 {
    } else {
      var name := node.ref.value;
      var next := seen + {name};
      forall s, t: nat | s in next && t < steps - 1
        ensures !StopsAfter(defs[s], defs, t)
      {
        if s == name && StopsAfter(defs[s], defs, t) {
          StopsOnce(defs[name], defs, t, steps - 1);
        }
      }
      StoppingIsNotRefused(defs[name], defs, next, steps - 1);
    }
  }

  lemma {:induction false} AnsweredStops(node: Schema, defs: Defs, seen: set<Name>) returns (steps: nat)
    requires !Loops(Resolve(node, defs, seen))
    ensures StopsAfter(node, defs, steps)
    decreases |defs.Keys - seen|
  {
    if node.ref.None? || node.ref.value !in defs {
      steps := 0;
    } else {
      var name := node.ref.value;
      assert defs.Keys - (seen + {name}) < defs.Keys - seen;
      SubsetSize(defs.Keys - (seen + {name}), defs.Keys - seen);
      steps := AnsweredStops(defs[name], defs, seen + {name});
      steps := steps + 1;
    }
  }

  ghost predicate NeverStops(node: Schema, defs: Defs) {
    forall steps: nat :: !StopsAfter(node, defs, steps)
  }

  /** The loop check refuses exactly the chains of references that never end. */
  lemma RefusedExactlyOnLoops(node: Schema, defs: Defs)
    ensures Loops(Resolve(node, defs, {})) <==> NeverStops(node, defs)
  {
    if Loops(Resolve(node, defs, {})) {
      forall steps: nat
        ensures !StopsAfter(node, defs, steps)
      {
        if StopsAfter(node, defs, steps) {
          StoppingIsNotRefused(node, defs, {}, steps);
        }
      }
    } else {
      var steps := AnsweredStops(node, defs, {});
      assert StopsAfter(node, defs, steps);
    }
  }

  // ----- the walk

  /** The first position holding the largest number, as Python's `max` picks it. */
  function FirstMax(sizes: seq<nat>): (best: nat)
    requires sizes != []
    ensures best < |sizes|
    ensures forall i :: 0 <= i < |sizes| ==> sizes[i] <= sizes[best]
    ensures forall i :: 0 <= i < best ==> sizes[i] < sizes[best]
  {
    if |sizes| == 1 then 0
    else
      var rest := FirstMax(sizes[1..]);
      assert forall i :: 1 <= i < |sizes| ==> sizes[i] == sizes[1..][i - 1];
      if sizes[0] >= sizes[1..][rest] then 0 else rest + 1
  }

  /** `len(str(value))`: a string counts its own characters, other scalars their text. */
  function StrLength(v: Json): nat {
    if v.Str? then |v.s| else |Dump(v)|
  }

  function StrLengths(values: seq<Json>): (sizes: seq<nat>)
    ensures |sizes| == |values| && forall i :: 0 <= i < |values| ==> sizes[i] == StrLength(values[i])
  {
    seq(|values|, i requires 0 <= i < |values| => StrLength(values[i]))
  }

  function EnumPick(values: seq<Json>): (pick: Json)
    requires values != []
    ensures pick in values
    ensures forall v :: v in values ==> StrLength(v) <= StrLength(pick)
  {
    values[FirstMax(StrLengths(values))]
  }

  function WidestPick(values: seq<Json>): (pick: Json)
    requires values != []
    ensures pick in values
    ensures forall v :: v in values ==> |Dump(v)| <= |Dump(pick)|
  {
    var sizes := seq(|values|, i requires 0 <= i < |values| => |Dump(values[i])|);
    assert forall i :: 0 <= i < |values| ==> sizes[i] == |Dump(values[i])|;
    values[FirstMax(sizes)]
  }

  const NUMERIC_WORST_CASE_CHARS: nat := 24

  /** A length bound on the node itself answers before anything else is read. */
  predicate Capped(n: Schema) {
    n.maxLength.Some? && (n.kind.None? || n.kind.value.StringKind?)
  }

  function ItemsOf(n: Schema): Schema {
    if n.items.Some? then n.items.value else EMPTY
  }

  function Copies(v: Json, n: nat): (vs: seq<Json>)
    ensures |vs| == n && forall i :: 0 <= i < n ==> vs[i] == v
  {
    seq(n, _ => v)
  }

  function Walk(fuel: nat, node: Schema, defs: Defs): Result<Json>
    decreases fuel, 0
  {
    if fuel == 0 then Err(StackExhausted)
    else
      match Resolve(node, defs, {})
      case Err(error) => Err(error)
      case Ok(n) =>
        if Capped(n) then Ok(Str(Repeat(WIDE, n.maxLength.value)))
        else if n.constant.Some? then Ok(n.constant.value)
        else if n.enumeration.Some? then
          (if n.enumeration.value == [] then Err(EmptyChoice) else Ok(EnumPick(n.enumeration.value)))
        else if n.anyOf.AnyOf? then
          (match WalkBranches(fuel - 1, n.anyOf.branches, 0, defs)
           case Err(error) => Err(error)
           case Ok(values) => if values == [] then Err(EmptyChoice) else Ok(WidestPick(values)))
        else if n.kind.None? then Err(Unbounded(NoType, []))
        else
          match n.kind.value
          case ObjectKind =>
            (match WalkProperties(fuel - 1, n.properties, defs)
             case Err(error) => Err(error)
             case Ok(fields) => Ok(Obj(fields)))
          case ArrayKind =>
            if n.maxItems.None? then Err(Unbounded(NoMaxItems, []))
            else if n.maxItems.value == 0 then Ok(Arr([]))
            else
              (match At(Item, Walk(fuel - 1, ItemsOf(n), defs))
               case Err(error) => Err(error)
               case Ok(v) => Ok(Arr(Copies(v, n.maxItems.value))))
          case StringKind => Err(Unbounded(NoMaxLength, []))
          case NumberKind => Ok(Str(Repeat('9', NUMERIC_WORST_CASE_CHARS)))
          case IntegerKind => Ok(Str(Repeat('9', NUMERIC_WORST_CASE_CHARS)))
          case BooleanKind => Ok(Bool(false))
          case NullKind => Ok(Null)
          case OtherKind(_) => Err(Unbounded(NoType, []))
  }

  function WalkBranches(fuel: nat, branches: seq<Schema>, index: nat, defs: Defs): (r: Result<seq<Json>>)
    ensures r.Ok? ==> |r.value| == |branches|
    decreases fuel, 1 + |branches|
  {
    if branches == [] then Ok([])
    else
      match At(Branch(index), Walk(fuel, branches[0], defs))
      case Err(error) => Err(error)
      case Ok(v) =>
        match WalkBranches(fuel, branches[1..], index + 1, defs)
        case Err(error) => Err(error)
        case Ok(vs) => Ok([v] + vs)
  }

  function WalkProperties(fuel: nat, properties: seq<Property>, defs: Defs): (r: Result<seq<Field>>)
    ensures r.Ok? ==> |r.value| == |properties|
    decreases fuel, 1 + |properties|
  {
    if properties == [] then Ok([])
    else
      match At(Member(properties[0].name), Walk(fuel, properties[0].schema, defs))
      case Err(error) => Err(error)
      case Ok(v) =>
        match WalkProperties(fuel, properties[1..], defs)
        case Err(error) => Err(error)
        case Ok(fields) => Ok([Field(properties[0].name, v)] + fields)
  }

  /** The worst-case response of a schema, as the text a provider would have to send. */
  function WorstCasePayload(fuel: nat, schema: Schema, defs: Defs): Result<string> {
    match Walk(fuel, schema, defs)
    case Err(error) => Err(error)
    case Ok(v) => Ok(Dump(v))
  }

  /** Property names never repeat: a schema node is a JSON object. */
  predicate DistinctNames(properties: seq<Property>) {
    forall i, j :: 0 <= i < j < |properties| ==> properties[i].name != properties[j].name
  }

  // ----- the stack

  /** Whether the walker ever runs out of stack: more room never changes a finished answer. */
  lemma {:induction false} MoreStackSameAnswer(fuel: nat, more: nat, node: Schema, defs: Defs)
    requires fuel <= more
    ensures Walk(fuel, node, defs) != Err(StackExhausted) ==> Walk(more, node, defs) == Walk(fuel, node, defs)
    decreases fuel, 0
  {
    if fuel == 0 || Resolve(node, defs, {}).Err? {
    } else {
      var n := Resolve(node, defs, {}).value;
      if n.anyOf.AnyOf? {
        MoreStackSameBranches(fuel - 1, more - 1, n.anyOf.branches, 0, defs);
      } else if n.kind == Some(ObjectKind) {
        MoreStackSameProperties(fuel - 1, more - 1, n.properties, defs);
      } else {
        MoreStackSameAnswer(fuel - 1, more - 1, ItemsOf(n), defs);
      }
    }
  }

  lemma {:induction false} MoreStackSameBranches(fuel: nat, more: nat, branches: seq<Schema>, index: nat, defs: Defs)
    requires fuel <= more
    ensures var r := WalkBranches(fuel, branches, index, defs);
            r != Err(StackExhausted) ==> WalkBranches(more, branches, index, defs) == r
    decreases fuel, 1 + |branches|
  {
    if branches == [] {
    } else {
      MoreStackSameAnswer(fuel, more, branches[0], defs);
      MoreStackSameBranches(fuel, more, branches[1..], index + 1, defs);
    }
  }

  lemma {:induction false} MoreStackSameProperties(fuel: nat, more: nat, properties: seq<Property>, defs: Defs)
    requires fuel <= more
    ensures var r := WalkProperties(fuel, properties, defs);
            r != Err(StackExhausted) ==> WalkProperties(more, properties, defs) == r
    decreases fuel, 1 + |properties|
  {
    if properties == [] {
    } else {
      MoreStackSameAnswer(fuel, more, properties[0].schema, defs);
      MoreStackSameProperties(fuel, more, properties[1..], defs);
    }
  }
}
