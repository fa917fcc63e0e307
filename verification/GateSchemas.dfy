/** The two response schemas the token gate looks at, as their model classes declare them: both
    are plain, so passing the gate means that no permitted response is cut. */
module GateSchemas {
  import opened Collections
  import opened JsonText
  import opened SchemaWalker
  import opened SchemaExtent
  import opened SchemaTight
  import opened SchemaGuards
  import opened SchemaLimits
  import opened SchemaPlain
  import opened SchemaAnswer
  import opened Truncation

  const NULL := EMPTY.(kind := Some(NullKind))

  function Ref(name: Name): Schema {
    EMPTY.(ref := Some(name))
  }

  function Nullable(s: Schema): Schema {
    EMPTY.(anyOf := AnyOf([s, NULL]))
  }

  function ListOf(s: Schema, m: nat): Schema {
    EMPTY.(kind := Some(ArrayKind), maxItems := Some(m), items := Some(s))
  }

  function Record(properties: seq<Property>): Schema {
    EMPTY.(kind := Some(ObjectKind), closed := true, properties := properties)
  }

  function Record1(a: Property): Schema {
    Record([a])
  }

  function Record2(a: Property, b: Property): Schema {
    Record([a, b])
  }

  function Record3(a: Property, b: Property, c: Property): Schema {
    Record([a, b, c])
  }

  function Record5(a: Property, b: Property, c: Property, d: Property, e: Property): Schema {
    Record([a, b, c, d, e])
  }

  function Record6(a: Property, b: Property, c: Property, d: Property, e: Property, f: Property): Schema {
    Record([a, b, c, d, e, f])
  }

  // ----- the extractor's answer

  /** A decimal is written as a number or as text; the bound stands on the field itself. */
  const DECIMAL := EMPTY.(maxLength := Some(32), anyOf := AnyOf([NUMBER, EMPTY.(kind := Some(StringKind)), NULL]))

  const NUMERIC_FIELDS := Record6(
    Property("entity", Nullable(TextNode(32))),
    Property("metric_name", Nullable(TextNode(32))),
    Property("period", Nullable(TextNode(32))),
    Property("dimension", TextNode(32)),
    Property("value", DECIMAL),
    Property("unit", Nullable(TextNode(32))))

  const CLAIM_TYPE := Words("fact", "opinion", "data", "projection")

  const EXTRACTED_CLAIM := Record6(
    Property("claim", TextNode(160)),
    Property("claim_type", CLAIM_TYPE),
    Property("source_url", TextNode(256)),
    Property("extract_text", TextNode(300)),
    Property("confidence", NUMBER),
    Property("numeric_fields", Nullable(Ref("NumericFields"))))

  const EXTRACTED_CLAIMS := Record1(Property("claims", ListOf(Ref("ExtractedClaim"), 8)))

  const CLAIM_DEFS: Defs := map["NumericFields" := NUMERIC_FIELDS, "ExtractedClaim" := EXTRACTED_CLAIM]

  // ----- the reporter's answer

  const REPORT_CLAIM := Record2(
    Property("text", TextNode(140)),
    Property("evidence_ids", ListOf(TextNode(40), 3)))

  const REPORT_SECTION := Record3(
    Property("sub_question_id", TextNode(64)),
    Property("heading", TextNode(60)),
    Property("claims", ListOf(Ref("ReportClaim"), 3)))

  const REPORT_DRAFT := Record5(
    Property("summary", TextNode(320)),
    Property("detailed_analysis", ListOf(Ref("ReportSection"), 4)),
    Property("risks", ListOf(TextNode(140), 6)),
    Property("unverified_assumptions", ListOf(Ref("ReportClaim"), 3)),
    Property("key_findings", ListOf(Ref("ReportClaim"), 6)))


  const REPORT_DEFS: Defs := map["ReportClaim" := REPORT_CLAIM, "ReportSection" := REPORT_SECTION]

  // ----- building blocks are plain

  lemma PlainText(mode: Mode, m: nat, defs: Defs)
    ensures Plain(mode, TextNode(m), defs)
  {
  }

  lemma PlainRef(mode: Mode, name: Name, defs: Defs)
    ensures Plain(mode, Ref(name), defs)
  {
  }

  lemma PlainList(mode: Mode, s: Schema, m: nat, defs: Defs)
    requires Plain(mode, s, defs)
    ensures Plain(mode, ListOf(s, m), defs)
  {
  }

  lemma PlainRecord(mode: Mode, properties: seq<Property>, defs: Defs)
    requires forall i :: 0 <= i < |properties| ==> Plain(mode, properties[i].schema, defs)
    ensures Plain(mode, Record(properties), defs)
  {
  }

  lemma PlainRecord1(mode: Mode, a: Property, defs: Defs)
    requires Plain(mode, a.schema, defs)
    ensures Plain(mode, Record1(a), defs)
  {
    PlainRecord(mode, [a], defs);
  }

  lemma PlainRecord2(mode: Mode, a: Property, b: Property, defs: Defs)
    requires Plain(mode, a.schema, defs) && Plain(mode, b.schema, defs)
    ensures Plain(mode, Record2(a, b), defs)
  {
    PlainRecord(mode, [a, b], defs);
  }

  lemma PlainRecord3(mode: Mode, a: Property, b: Property, c: Property, defs: Defs)
    requires Plain(mode, a.schema, defs) && Plain(mode, b.schema, defs) && Plain(mode, c.schema, defs)
    ensures Plain(mode, Record3(a, b, c), defs)
  {
    PlainRecord(mode, [a, b, c], defs);
  }

  lemma PlainRecord5(mode: Mode, a: Property, b: Property, c: Property, d: Property, e: Property, defs: Defs)
    requires Plain(mode, a.schema, defs) && Plain(mode, b.schema, defs) && Plain(mode, c.schema, defs) && Plain(mode, d.schema, defs) && Plain(mode, e.schema, defs)
    ensures Plain(mode, Record5(a, b, c, d, e), defs)
  {
    PlainRecord(mode, [a, b, c, d, e], defs);
  }

  lemma PlainRecord6(mode: Mode, a: Property, b: Property, c: Property, d: Property, e: Property, f: Property, defs: Defs)
    requires Plain(mode, a.schema, defs) && Plain(mode, b.schema, defs) && Plain(mode, c.schema, defs) && Plain(mode, d.schema, defs) && Plain(mode, e.schema, defs) && Plain(mode, f.schema, defs)
    ensures Plain(mode, Record6(a, b, c, d, e, f), defs)
  {
    PlainRecord(mode, [a, b, c, d, e, f], defs);
  }

  /** Null does not outgrow anything of four characters or more. */
  lemma PlainNullable(mode: Mode, s: Schema, defs: Defs)
    requires Plain(mode, s, defs) && LeastLength(Meant(s, defs)) >= 4
    ensures Plain(mode, Nullable(s), defs)
  {
    var n := Nullable(s);
    var branches := n.anyOf.branches;
    assert branches[0] == s && branches[1] == NULL;
    assert Meant(NULL, defs) == NULL;
    assert forall b :: b in branches <==> b == s || b == NULL;
    assert Plain(mode, NULL, defs);
    assert PlainUnion(branches, defs);
  }

  lemma PlainDecimal(mode: Mode, defs: Defs)
    ensures Plain(mode, DECIMAL, defs)
  {
    var branches := DECIMAL.anyOf.branches;
    assert branches[0] == NUMBER && branches[1] == EMPTY.(kind := Some(StringKind)) && branches[2] == NULL;
    assert forall b :: b in branches <==> b == branches[0] || b == branches[1] || b == branches[2];
  }

  lemma PlainClaimType(mode: Mode, defs: Defs)
    ensures Plain(mode, CLAIM_TYPE, defs)
  {
    Fact();
    Opinion();
    Data();
    Projection();
    PlainWords(mode, "fact", "opinion", "data", "projection", defs);
  }

  function Words(a: string, b: string, c: string, d: string): Schema {
    EMPTY.(kind := Some(StringKind), enumeration := Some([Str(a), Str(b), Str(c), Str(d)]))
  }

  lemma PlainWords(mode: Mode, a: string, b: string, c: string, d: string, defs: Defs)
    requires Lower(a) && Lower(b) && Lower(c) && Lower(d)
    ensures Plain(mode, Words(a, b, c, d), defs)
  {
    PlainWord(a);
    PlainWord(b);
    PlainWord(c);
    PlainWord(d);
    var values := [Str(a), Str(b), Str(c), Str(d)];
    assert forall v :: v in values ==> v == Str(a) || v == Str(b) || v == Str(c) || v == Str(d);
    assert PlainChoice(mode, values);
  }

  predicate Lower(s: string) {
    forall i :: 0 <= i < |s| ==> 'a' <= s[i] <= 'z'
  }

  lemma Fact()
    ensures Lower("fact")
  {
  }

  lemma Opinion()
    ensures Lower("opinion")
  {
  }

  lemma Data()
    ensures Lower("data")
  {
  }

  lemma Projection()
    ensures Lower("projection")
  {
  }

  lemma PlainWord(s: string)
    requires Lower(s)
    ensures Escape(s) == s && Narrow(Tokens, Str(s))
  {
    SchemaDomination.NothingToEscape(s);
  }

  lemma PlainDefinitions(mode: Mode)
    ensures PlainDefs(mode, CLAIM_DEFS) && PlainDefs(mode, REPORT_DEFS)
  {
    PlainNumericFields(mode);
    PlainExtractedClaim(mode);
    PlainReportClaim(mode);
    PlainReportSection(mode);
  }

  lemma PlainNumericFields(mode: Mode)
    ensures Plain(mode, NUMERIC_FIELDS, CLAIM_DEFS)
  {
    PlainText(mode, 32, CLAIM_DEFS);
    PlainNullable(mode, TextNode(32), CLAIM_DEFS);
    PlainDecimal(mode, CLAIM_DEFS);
    PlainRecord6(mode,
      Property("entity", Nullable(TextNode(32))),
      Property("metric_name", Nullable(TextNode(32))),
      Property("period", Nullable(TextNode(32))),
      Property("dimension", TextNode(32)),
      Property("value", DECIMAL),
      Property("unit", Nullable(TextNode(32))), CLAIM_DEFS);
  }

  lemma PlainExtractedClaim(mode: Mode)
    ensures Plain(mode, EXTRACTED_CLAIM, CLAIM_DEFS)
  {
    PlainText(mode, 160, CLAIM_DEFS);
    PlainText(mode, 256, CLAIM_DEFS);
    PlainText(mode, 300, CLAIM_DEFS);
    PlainClaimType(mode, CLAIM_DEFS);
    assert Plain(mode, NUMBER, CLAIM_DEFS);
    PlainRef(mode, "NumericFields", CLAIM_DEFS);
    NumericFieldsAreMeant();
    PlainNullable(mode, Ref("NumericFields"), CLAIM_DEFS);
    PlainRecord6(mode,
      Property("claim", TextNode(160)),
      Property("claim_type", CLAIM_TYPE),
      Property("source_url", TextNode(256)),
      Property("extract_text", TextNode(300)),
      Property("confidence", NUMBER),
      Property("numeric_fields", Nullable(Ref("NumericFields"))), CLAIM_DEFS);
  }

  lemma NumericFieldsAreMeant()
    ensures Meant(Ref("NumericFields"), CLAIM_DEFS) == NUMERIC_FIELDS && LeastLength(NUMERIC_FIELDS) >= 4
  {
    SchemaRefusal.LinkResolves(Ref("NumericFields"), "NumericFields", NUMERIC_FIELDS, CLAIM_DEFS);
  }

  lemma PlainReportClaim(mode: Mode)
    ensures Plain(mode, REPORT_CLAIM, REPORT_DEFS)
  {
    PlainText(mode, 140, REPORT_DEFS);
    PlainText(mode, 40, REPORT_DEFS);
    PlainList(mode, TextNode(40), 3, REPORT_DEFS);
    PlainRecord2(mode,
      Property("text", TextNode(140)),
      Property("evidence_ids", ListOf(TextNode(40), 3)), REPORT_DEFS);
  }

  lemma PlainReportSection(mode: Mode)
    ensures Plain(mode, REPORT_SECTION, REPORT_DEFS)
  {
    PlainText(mode, 64, REPORT_DEFS);
    PlainText(mode, 60, REPORT_DEFS);
    PlainRef(mode, "ReportClaim", REPORT_DEFS);
    PlainList(mode, Ref("ReportClaim"), 3, REPORT_DEFS);
    PlainRecord3(mode,
      Property("sub_question_id", TextNode(64)),
      Property("heading", TextNode(60)),
      Property("claims", ListOf(Ref("ReportClaim"), 3)), REPORT_DEFS);
  }

  lemma PlainExtractedClaims(mode: Mode)
    ensures Plain(mode, EXTRACTED_CLAIMS, CLAIM_DEFS)
  {
    PlainRef(mode, "ExtractedClaim", CLAIM_DEFS);
    PlainList(mode, Ref("ExtractedClaim"), 8, CLAIM_DEFS);
    PlainRecord1(mode, Property("claims", ListOf(Ref("ExtractedClaim"), 8)), CLAIM_DEFS);
  }

  lemma PlainReportDraft(mode: Mode)
    ensures Plain(mode, REPORT_DRAFT, REPORT_DEFS)
  {
    PlainText(mode, 320, REPORT_DEFS);
    PlainText(mode, 140, REPORT_DEFS);
    PlainRef(mode, "ReportSection", REPORT_DEFS);
    PlainRef(mode, "ReportClaim", REPORT_DEFS);
    PlainList(mode, Ref("ReportSection"), 4, REPORT_DEFS);
    PlainList(mode, TextNode(140), 6, REPORT_DEFS);
    PlainList(mode, Ref("ReportClaim"), 3, REPORT_DEFS);
    PlainList(mode, Ref("ReportClaim"), 6, REPORT_DEFS);
    PlainRecord5(mode,
      Property("summary", TextNode(320)),
      Property("detailed_analysis", ListOf(Ref("ReportSection"), 4)),
      Property("risks", ListOf(TextNode(140), 6)),
      Property("unverified_assumptions", ListOf(Ref("ReportClaim"), 3)),
      Property("key_findings", ListOf(Ref("ReportClaim"), 6)), REPORT_DEFS);
  }

  // ----- the schemas are answered, and their bounds stand

  /** With `need` nested calls the walker answers `n`, and its answer stands for an instance. */
  ghost predicate Proper(numbers: bool, need: nat, n: Schema, defs: Defs) {
    WellShaped(n) && Stands(numbers, n, defs) && Answered(need, n, defs)
  }

  ghost predicate Answered(need: nat, n: Schema, defs: Defs) {
    forall fuel: nat :: fuel >= need ==> Walk(fuel, n, defs).Ok?
  }

  lemma ProperText(numbers: bool, m: nat, defs: Defs)
    ensures Proper(numbers, 1, TextNode(m), defs) && Proper(numbers, 2, Nullable(TextNode(m)), defs)
  {
    ProperNullable(numbers, 1, TextNode(m), defs);
  }

  /** A reference needs what its target needs. */
  lemma ProperRef(numbers: bool, need: nat, name: Name, target: Schema, defs: Defs)
    requires name in defs && defs[name] == target && target.ref.None? && Answered(need, target, defs)
    ensures Proper(numbers, need, Ref(name), defs)
  {
    SchemaRefusal.LinkResolves(Ref(name), name, target, defs);
    assert Resolve(target, defs, {}) == Ok(target);
    forall fuel: nat | fuel >= need
      ensures Walk(fuel, Ref(name), defs) == Walk(fuel, target, defs)
    {
    }
  }

  lemma ProperNullable(numbers: bool, need: nat, s: Schema, defs: Defs)
    requires need > 0 && Proper(numbers, need, s, defs)
    ensures Proper(numbers, need + 1, Nullable(s), defs)
  {
    var n := Nullable(s);
    assert n.anyOf.branches == [s, NULL];
    assert forall b :: b in n.anyOf.branches ==> b == s || b == NULL;
    forall fuel: nat | fuel >= need + 1
      ensures Walk(fuel, n, defs).Ok?
    {
      WalkOfTwo(fuel - 1, s, NULL, Walk(fuel - 1, s, defs).value, Null, defs);
    }
  }

  lemma ProperList(numbers: bool, need: nat, s: Schema, m: nat, defs: Defs)
    requires Proper(numbers, need, s, defs)
    ensures Proper(numbers, need + 1, ListOf(s, m), defs)
  {
  }

  lemma {:induction false} AllAnswered(fuel: nat, properties: seq<Property>, defs: Defs)
    requires forall p :: p in properties ==> Walk(fuel, p.schema, defs).Ok?
    ensures WalkProperties(fuel, properties, defs).Ok?
  {
    if properties == [] {
    } else {
      AllAnswered(fuel, properties[1..], defs);
    }
  }

  lemma ProperRecord(numbers: bool, need: nat, properties: seq<Property>, defs: Defs)
    requires DistinctNames(properties)
    requires forall i :: 0 <= i < |properties| ==> Proper(numbers, need, properties[i].schema, defs)
    ensures Proper(numbers, need + 1, Record(properties), defs)
  {
    forall fuel: nat | fuel >= need + 1
      ensures Walk(fuel, Record(properties), defs).Ok?
    {
      AllAnswered(fuel - 1, properties, defs);
    }
  }

  lemma ProperRecord1(numbers: bool, need: nat, a: Property, defs: Defs)
    requires Proper(numbers, need, a.schema, defs)
    ensures Proper(numbers, need + 1, Record1(a), defs)
  {
    ProperRecord(numbers, need, [a], defs);
  }

  lemma ProperRecord2(numbers: bool, need: nat, a: Property, b: Property, defs: Defs)
    requires a.name != b.name
    requires Proper(numbers, need, a.schema, defs) && Proper(numbers, need, b.schema, defs)
    ensures Proper(numbers, need + 1, Record2(a, b), defs)
  {
    ProperRecord(numbers, need, [a, b], defs);
  }

  lemma ProperRecord3(numbers: bool, need: nat, a: Property, b: Property, c: Property, defs: Defs)
    requires a.name != b.name && a.name != c.name && b.name != c.name
    requires Proper(numbers, need, a.schema, defs) && Proper(numbers, need, b.schema, defs) && Proper(numbers, need, c.schema, defs)
    ensures Proper(numbers, need + 1, Record3(a, b, c), defs)
  {
    ProperRecord(numbers, need, [a, b, c], defs);
  }

  lemma ProperRecord5(numbers: bool, need: nat, a: Property, b: Property, c: Property, d: Property, e: Property, defs: Defs)
    requires a.name != b.name && a.name != c.name && a.name != d.name && a.name != e.name && b.name != c.name && b.name != d.name && b.name != e.name && c.name != d.name && c.name != e.name && d.name != e.name
    requires Proper(numbers, need, a.schema, defs) && Proper(numbers, need, b.schema, defs) && Proper(numbers, need, c.schema, defs) && Proper(numbers, need, d.schema, defs) && Proper(numbers, need, e.schema, defs)
    ensures Proper(numbers, need + 1, Record5(a, b, c, d, e), defs)
  {
    ProperRecord(numbers, need, [a, b, c, d, e], defs);
  }

  lemma ProperRecord6(numbers: bool, need: nat, a: Property, b: Property, c: Property, d: Property, e: Property, f: Property, defs: Defs)
    requires a.name != b.name && a.name != c.name && a.name != d.name && a.name != e.name && a.name != f.name && b.name != c.name && b.name != d.name && b.name != e.name && b.name != f.name && c.name != d.name && c.name != e.name && c.name != f.name && d.name != e.name && d.name != f.name && e.name != f.name
    requires Proper(numbers, need, a.schema, defs) && Proper(numbers, need, b.schema, defs) && Proper(numbers, need, c.schema, defs) && Proper(numbers, need, d.schema, defs) && Proper(numbers, need, e.schema, defs) && Proper(numbers, need, f.schema, defs)
    ensures Proper(numbers, need + 1, Record6(a, b, c, d, e, f), defs)
  {
    ProperRecord(numbers, need, [a, b, c, d, e, f], defs);
  }

  lemma ProperDecimal(numbers: bool, defs: Defs)
    ensures Proper(numbers, 1, DECIMAL, defs)
  {
    var text := EMPTY.(kind := Some(StringKind));
    var branches := DECIMAL.anyOf.branches;
    assert branches[0] == NUMBER && branches[1] == text && branches[2] == NULL;
    assert forall b :: b in branches <==> b == NUMBER || b == text || b == NULL;
    assert Resolve(text, defs, {}) == Ok(text) && RoomFor(text, 32);
  }

  lemma ProperClaimType(numbers: bool, defs: Defs)
    ensures Proper(numbers, 1, CLAIM_TYPE, defs)
  {
  }

  lemma ProperNumericFields()
    ensures Proper(true, 3, NUMERIC_FIELDS, CLAIM_DEFS)
  {
    ProperText(true, 32, CLAIM_DEFS);
    ProperDecimal(true, CLAIM_DEFS);
    ProperRecord6(true, 2,
      Property("entity", Nullable(TextNode(32))),
      Property("metric_name", Nullable(TextNode(32))),
      Property("period", Nullable(TextNode(32))),
      Property("dimension", TextNode(32)),
      Property("value", DECIMAL),
      Property("unit", Nullable(TextNode(32))), CLAIM_DEFS);
  }

  lemma ProperNumericField()
    ensures Proper(true, 4, Nullable(Ref("NumericFields")), CLAIM_DEFS)
  {
    ProperNumericFields();
    ProperRef(true, 3, "NumericFields", NUMERIC_FIELDS, CLAIM_DEFS);
    ProperNullable(true, 3, Ref("NumericFields"), CLAIM_DEFS);
  }

  lemma ProperNumber(defs: Defs)
    ensures Proper(true, 1, NUMBER, defs)
  {
  }

  lemma ProperExtractedClaim()
    ensures Proper(true, 5, EXTRACTED_CLAIM, CLAIM_DEFS)
  {
    ProperText(true, 160, CLAIM_DEFS);
    ProperText(true, 256, CLAIM_DEFS);
    ProperText(true, 300, CLAIM_DEFS);
    ProperClaimType(true, CLAIM_DEFS);
    ProperNumber(CLAIM_DEFS);
    ProperNumericField();
    ProperRecord6(true, 4,
      Property("claim", TextNode(160)),
      Property("claim_type", CLAIM_TYPE),
      Property("source_url", TextNode(256)),
      Property("extract_text", TextNode(300)),
      Property("confidence", NUMBER),
      Property("numeric_fields", Nullable(Ref("NumericFields"))), CLAIM_DEFS);
  }

  lemma ProperExtractedClaims()
    ensures Proper(true, 7, EXTRACTED_CLAIMS, CLAIM_DEFS) && WellShapedDefs(CLAIM_DEFS) && StandsDefs(true, CLAIM_DEFS)
  {
    ProperNumericFields();
    ProperExtractedClaim();
    ProperRef(true, 5, "ExtractedClaim", EXTRACTED_CLAIM, CLAIM_DEFS);
    ProperList(true, 5, Ref("ExtractedClaim"), 8, CLAIM_DEFS);
    ProperRecord1(true, 6, Property("claims", ListOf(Ref("ExtractedClaim"), 8)), CLAIM_DEFS);
  }

  lemma ProperReportClaim()
    ensures Proper(false, 3, REPORT_CLAIM, REPORT_DEFS)
  {
    ProperText(false, 140, REPORT_DEFS);
    ProperText(false, 40, REPORT_DEFS);
    ProperList(false, 1, TextNode(40), 3, REPORT_DEFS);
    ProperRecord2(false, 2,
      Property("text", TextNode(140)),
      Property("evidence_ids", ListOf(TextNode(40), 3)), REPORT_DEFS);
  }

  lemma ProperReportSection()
    ensures Proper(false, 5, REPORT_SECTION, REPORT_DEFS)
  {
    ProperText(false, 64, REPORT_DEFS);
    ProperText(false, 60, REPORT_DEFS);
    ProperReportClaim();
    ProperRef(false, 3, "ReportClaim", REPORT_CLAIM, REPORT_DEFS);
    ProperList(false, 3, Ref("ReportClaim"), 3, REPORT_DEFS);
    ProperRecord3(false, 4,
      Property("sub_question_id", TextNode(64)),
      Property("heading", TextNode(60)),
      Property("claims", ListOf(Ref("ReportClaim"), 3)), REPORT_DEFS);
  }

  lemma ProperReportDraft()
    ensures Proper(false, 7, REPORT_DRAFT, REPORT_DEFS) && WellShapedDefs(REPORT_DEFS) && StandsDefs(false, REPORT_DEFS)
  {
    ProperText(false, 320, REPORT_DEFS);
    ProperText(false, 140, REPORT_DEFS);
    ProperReportClaim();
    ProperReportSection();
    ProperRef(false, 5, "ReportSection", REPORT_SECTION, REPORT_DEFS);
    ProperRef(false, 3, "ReportClaim", REPORT_CLAIM, REPORT_DEFS);
    ProperList(false, 5, Ref("ReportSection"), 4, REPORT_DEFS);
    ProperList(false, 1, TextNode(140), 6, REPORT_DEFS);
    ProperList(false, 3, Ref("ReportClaim"), 3, REPORT_DEFS);
    ProperList(false, 3, Ref("ReportClaim"), 6, REPORT_DEFS);
    ProperRecord5(false, 6,
      Property("summary", TextNode(320)),
      Property("detailed_analysis", ListOf(Ref("ReportSection"), 4)),
      Property("risks", ListOf(TextNode(140), 6)),
      Property("unverified_assumptions", ListOf(Ref("ReportClaim"), 3)),
      Property("key_findings", ListOf(Ref("ReportClaim"), 6)), REPORT_DEFS);
  }

  // ----- the gate

  /** If the gate finds a role's worst case under its cap, no permitted response of that role is
      ever cut. */
  lemma GateIsSound(schema: Schema, defs: Defs, fuel: nat, cap: nat, d: nat, v: Json)
    requires (schema == EXTRACTED_CLAIMS && defs == CLAIM_DEFS) || (schema == REPORT_DRAFT && defs == REPORT_DEFS)
    requires Walk(fuel, schema, defs).Ok? && EstimateTokens(WorstCasePayload(fuel, schema, defs).value) < cap
    requires PermittedAt(d, EscapeFree, v, schema, defs)
    ensures LongestFit(Dump(v), cap, |Dump(v)|)
  {
    PlainDefinitions(Tokens);
    PlainExtractedClaims(Tokens);
    PlainReportDraft(Tokens);
    FittingPlainSchemaIsNeverCut(fuel, schema, defs, cap, d, v);
  }

  /** Seven nested calls answer both schemas, so neither has a gap. */
  lemma GateIsAnswered(fuel: nat)
    requires fuel >= 7
    ensures Walk(fuel, EXTRACTED_CLAIMS, CLAIM_DEFS).Ok? && Walk(fuel, REPORT_DRAFT, REPORT_DEFS).Ok?
  {
    ProperExtractedClaims();
    ProperReportDraft();
  }

  ghost predicate AllUnder(cap: int, n: Schema, defs: Defs) {
    forall d: nat, v :: PermittedAt(d, EscapeFree, v, n, defs) ==> EstimateTokens(Dump(v)) < cap
  }

  lemma CheaperEstimate(v: Json, w: Json)
    requires DumpCost(Tokens, v) <= DumpCost(Tokens, w)
    ensures EstimateTokens(Dump(v)) <= EstimateTokens(Dump(w))
  {
    EstimateIsRoundedWeight(Dump(v));
    EstimateIsRoundedWeight(Dump(w));
  }

  /** The reporter's role passes the gate exactly when every permitted report stays under its cap. */
  lemma ReporterGateIsExact(fuel: nat, cap: int)
    requires Walk(fuel, REPORT_DRAFT, REPORT_DEFS).Ok?
    ensures EstimateTokens(WorstCasePayload(fuel, REPORT_DRAFT, REPORT_DEFS).value) < cap <==> AllUnder(cap, REPORT_DRAFT, REPORT_DEFS)
  {
    var w := Walk(fuel, REPORT_DRAFT, REPORT_DEFS).value;
    PlainDefinitions(Tokens);
    PlainReportDraft(Tokens);
    ProperReportDraft();
    PlainAnswerIsLargest(fuel, Tokens, REPORT_DRAFT, REPORT_DEFS);
    forall d: nat, v | PermittedAt(d, EscapeFree, v, REPORT_DRAFT, REPORT_DEFS)
      ensures EstimateTokens(Dump(v)) <= EstimateTokens(Dump(w))
    {
      CheaperEstimate(v, w);
    }
  }

  /** The extractor's role fails the gate only for some permitted answer that reaches the cap once
      half a token is added for each of its numbers. */
  lemma ExtractorRefusalIsEarned(fuel: nat, cap: nat) returns (d: nat, v: Json)
    requires Walk(fuel, EXTRACTED_CLAIMS, CLAIM_DEFS).Ok?
    requires EstimateTokens(WorstCasePayload(fuel, EXTRACTED_CLAIMS, CLAIM_DEFS).value) >= cap
    ensures PermittedAt(d, EscapeFree, v, EXTRACTED_CLAIMS, CLAIM_DEFS) && Reads(v, Walk(fuel, EXTRACTED_CLAIMS, CLAIM_DEFS).value)
    ensures EstimateTokens(Dump(v)) + (Charged(v, Walk(fuel, EXTRACTED_CLAIMS, CLAIM_DEFS).value) + 1) / 2 >= cap
  {
    ProperExtractedClaims();
    d, v := WorstCaseIsReached(fuel, Tokens, EXTRACTED_CLAIMS, CLAIM_DEFS);
    EstimateIsRoundedWeight(Dump(v));
    EstimateIsRoundedWeight(WorstCasePayload(fuel, EXTRACTED_CLAIMS, CLAIM_DEFS).value);
  }
}
