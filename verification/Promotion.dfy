/** The A/B comparison of capabilities: shapes measured from rendered reports, the promotion
    rule over them, and the count of outcomes. */
module Promotion {
  import opened Collections

  // ----- measuring a report

  /** A non-blank reader line, with the tests the probe applies to it. `text` is stripped. */
  datatype ReaderLine = ReaderLine(text: string, heading: bool, tableRule: bool)

  /** A report whose lines have been sorted into the sections the probe looks at. */
  datatype Report = Report(
    reader: seq<ReaderLine>,
    coverage: seq<bool>,          // the bullets of the coverage section: is the gap explained?
    annualOutdated: nat,          // stale-source warnings about filings
    disclaimers: nat,             // disclaimers among the assumptions
    auditHeadings: nat,
    derived: nat)                 // derived metrics with two citations

  datatype Key =
    | NoiseLines | BoilerplateLines | AuditSections | MetricsRequested | MetricsAnswered | MetricsExplainedGap
    | DerivedMetrics | FalsePositives | DuplicateLines

  type Shape = Key -> int

  function CountTrue(flags: seq<bool>): (n: nat)
    ensures n <= |flags|
  {
    if flags == [] then 0 else (if flags[0] then 1 else 0) + CountTrue(flags[1..])
  }

  function Boilerplate(reader: seq<ReaderLine>): nat {
    if reader == [] then 0
    else
      var k := |reader| - 1;
      Boilerplate(reader[..k]) + (if !reader[k].heading && !reader[k].tableRule && |reader[k].text| <= 6 then 1 else 0)
  }

  function Bullets(reader: seq<ReaderLine>): seq<string> {
    if reader == [] then []
    else
      var k := |reader| - 1;
      Bullets(reader[..k]) + (if "- " <= reader[k].text then [reader[k].text] else [])
  }

  function Distinct(texts: seq<string>): set<string> {
    set t | t in texts
  }

  lemma {:induction false} NoMoreThanAll(texts: seq<string>)
    ensures |Distinct(texts)| <= |texts|
  {
    if texts == [] {
    } else {
      NoMoreThanAll(texts[1..]);
      assert Distinct(texts) == {texts[0]} + Distinct(texts[1..]);
    }
  }

  function Duplicates(reader: seq<ReaderLine>): nat {
    NoMoreThanAll(Bullets(reader));
    |Bullets(reader)| - |Distinct(Bullets(reader))|
  }

  function Measure(r: Report): Shape {
    var explained := CountTrue(r.coverage);
    var falsePositives := r.annualOutdated + r.disclaimers;
    (key: Key) =>
      match key
      case NoiseLines => Boilerplate(r.reader) + falsePositives + Duplicates(r.reader)
      case BoilerplateLines => Boilerplate(r.reader)
      case AuditSections => r.auditHeadings
      case MetricsRequested => |r.coverage|
      case MetricsAnswered => |r.coverage| - explained
      case MetricsExplainedGap => explained
      case DerivedMetrics => r.derived
      case FalsePositives => falsePositives
      case DuplicateLines => Duplicates(r.reader)
  }

  // ----- what the columns count

  lemma {:induction false} TrueOnes(flags: seq<bool>)
    ensures CountTrue(flags) == multiset(flags)[true] && |flags| - CountTrue(flags) == multiset(flags)[false]
  {
    if flags == [] {
    } else {
      TrueOnes(flags[1..]);
      assert flags == [flags[0]] + flags[1..];
    }
  }

  /** The short lines that are neither a heading nor the rule of a table. */
  function ShortLines(reader: seq<ReaderLine>): set<nat> {
    set i | 0 <= i < |reader| && !reader[i].heading && !reader[i].tableRule && |reader[i].text| <= 6
  }

  function BulletLines(reader: seq<ReaderLine>): set<nat> {
    set i | 0 <= i < |reader| && "- " <= reader[i].text
  }

  function BulletTexts(reader: seq<ReaderLine>): set<string> {
    set i | i in BulletLines(reader) :: reader[i].text
  }

  lemma {:induction false} BoilerplateIsShort(reader: seq<ReaderLine>)
    ensures Boilerplate(reader) == |ShortLines(reader)|
  {
    if reader == [] {
    } else {
      var k := |reader| - 1;
      BoilerplateIsShort(reader[..k]);
      assert ShortLines(reader) == ShortLines(reader[..k]) + (if k in ShortLines(reader) then {k} else {});
    }
  }

  lemma {:induction false} BulletsAreCollected(reader: seq<ReaderLine>)
    ensures |Bullets(reader)| == |BulletLines(reader)| && Distinct(Bullets(reader)) == BulletTexts(reader)
  {
    if reader == [] {
    } else {
      var k := |reader| - 1;
      var before := reader[..k];
      BulletsAreCollected(before);
      assert BulletLines(reader) == BulletLines(before) + (if k in BulletLines(reader) then {k} else {});
      assert forall i :: i in BulletLines(before) ==> before[i] == reader[i];
      assert BulletTexts(reader) == BulletTexts(before) + (if k in BulletLines(reader) then {reader[k].text} else {});
    }
  }

  /** Two bullet lines read the same. */
  predicate Repeats(reader: seq<ReaderLine>) {
    exists i, j :: 0 <= i < j < |reader| && i in BulletLines(reader) && j in BulletLines(reader) && reader[i].text == reader[j].text
  }

  lemma {:induction false} RepeatsExactly(reader: seq<ReaderLine>)
    ensures |BulletTexts(reader)| <= |BulletLines(reader)|
    ensures |BulletTexts(reader)| < |BulletLines(reader)| <==> Repeats(reader)
  {
    if reader == [] {
      assert BulletLines(reader) == {} && BulletTexts(reader) == {};
    } else {
      var k := |reader| - 1;
      var before := reader[..k];
      RepeatsExactly(before);
      OneMoreLine(reader);
    }
  }

  lemma OneMoreLine(reader: seq<ReaderLine>)
    requires reader != []
    ensures var k := |reader| - 1;
            var before := reader[..k];
            && BulletLines(reader) == BulletLines(before) + (if k in BulletLines(reader) then {k} else {})
            && BulletTexts(reader) == BulletTexts(before) + (if k in BulletLines(reader) then {reader[k].text} else {})
            && (Repeats(reader) <==> Repeats(before) || (k in BulletLines(reader) && reader[k].text in BulletTexts(before)))
  {
    var k := |reader| - 1;
    var before := reader[..k];
    assert BulletLines(reader) == BulletLines(before) + (if k in BulletLines(reader) then {k} else {});
    assert forall i :: i in BulletLines(before) ==> before[i] == reader[i];
    if Repeats(before) {
      var i, j :| 0 <= i < j < |before| && i in BulletLines(before) && j in BulletLines(before) && before[i].text == before[j].text;
      assert i in BulletLines(reader) && j in BulletLines(reader);
    }
    if k in BulletLines(reader) && reader[k].text in BulletTexts(before) {
      var i :| i in BulletLines(before) && before[i].text == reader[k].text;
      assert i in BulletLines(reader);
    }
  }

  /** Every column, told from the report: an explained bullet is a gap and any other an answer, short
      lines are boilerplate, and the bullets that repeat another are duplicates. */
  lemma ColumnsCount(r: Report)
    ensures var s := Measure(r);
            && s(MetricsExplainedGap) == multiset(r.coverage)[true] && s(MetricsAnswered) == multiset(r.coverage)[false]
            && s(MetricsRequested) == |r.coverage|
            && s(BoilerplateLines) == |ShortLines(r.reader)|
            && s(DuplicateLines) == |BulletLines(r.reader)| - |BulletTexts(r.reader)|
            && (s(BoilerplateLines) == 0 <==> forall l :: l in r.reader && !l.heading && !l.tableRule ==> |l.text| > 6)
            && (s(DuplicateLines) == 0 <==> !Repeats(r.reader))
            && s(FalsePositives) == r.annualOutdated + r.disclaimers
            && s(NoiseLines) == s(BoilerplateLines) + s(FalsePositives) + s(DuplicateLines)
            && s(AuditSections) == r.auditHeadings && s(DerivedMetrics) == r.derived
  {
    TrueOnes(r.coverage);
    BoilerplateIsShort(r.reader);
    BulletsAreCollected(r.reader);
    RepeatsExactly(r.reader);
    if ShortLines(r.reader) == {} {
      forall l | l in r.reader && !l.heading && !l.tableRule
        ensures |l.text| > 6
      {
        var i :| 0 <= i < |r.reader| && r.reader[i] == l;
        assert i !in ShortLines(r.reader);
      }
    }
  }

  // ----- the rule

  const LOWER_IS_BETTER := [NoiseLines, BoilerplateLines, AuditSections, MetricsExplainedGap, FalsePositives]
  const HIGHER_IS_BETTER := [MetricsAnswered, DerivedMetrics]

  predicate ShapeValid(s: Shape) {
    && s(NoiseLines) == 0
    && s(AuditSections) == 0
    && s(MetricsAnswered) + s(MetricsExplainedGap) == s(MetricsRequested)
    && s(DerivedMetrics) >= 1
    && s(FalsePositives) == 0
  }

  datatype Fidelity = Fidelity(footnoteMisrefs: nat, magnitudeMismatches: nat)

  datatype Side = Side(shape: Shape, fidelity: Fidelity)

  predicate Faithful(f: Fidelity) {
    f.footnoteMisrefs == 0 && f.magnitudeMismatches == 0
  }

  predicate Improves(off: Shape, on: Shape) {
    || (exists k :: k in LOWER_IS_BETTER && on(k) < off(k))
    || (exists k :: k in HIGHER_IS_BETTER && on(k) > off(k))
  }

  predicate Regresses(off: Shape, on: Shape) {
    || (exists k :: k in LOWER_IS_BETTER && on(k) > off(k))
    || (exists k :: k in HIGHER_IS_BETTER && on(k) < off(k))
  }

  predicate Promoted(off: Side, on: Side) {
    && off.shape(MetricsRequested) == on.shape(MetricsRequested)
    && Improves(off.shape, on.shape)
    && !Regresses(off.shape, on.shape)
    && ShapeValid(off.shape) && ShapeValid(on.shape)
    && Faithful(off.fidelity) && Faithful(on.fidelity)
  }

  ghost predicate Measured(s: Side) {
    exists r: Report :: s.shape == Measure(r)
  }

  /** For a measured report the accounting test is vacuous, and a valid shape has no boilerplate,
      no duplicates, no audit section and no false positive left to compare. */
  lemma ValidShapesAreClean(r: Report)
    ensures var s := Measure(r);
            && s(MetricsAnswered) + s(MetricsExplainedGap) == s(MetricsRequested)
            && (ShapeValid(s) <==> s(BoilerplateLines) == s(DuplicateLines) == s(FalsePositives) == s(AuditSections) == 0 && s(DerivedMetrics) >= 1)
            && (ShapeValid(s) <==>
                  && ShortLines(r.reader) == {} && !Repeats(r.reader) && r.auditHeadings == 0
                  && r.annualOutdated + r.disclaimers == 0 && r.derived >= 1)
  {
    ColumnsCount(r);
  }

  /** Better on one of the two remaining axes and no worse on the other. */
  predicate ParetoImproves(off: Shape, on: Shape) {
    && on(MetricsAnswered) >= off(MetricsAnswered) && on(DerivedMetrics) >= off(DerivedMetrics)
    && (on(MetricsAnswered) > off(MetricsAnswered) || on(DerivedMetrics) > off(DerivedMetrics))
  }

  /** The seven-column rule is a two-axis rule: among valid, faithful reports that were asked for
      equally many metrics, promotion is strict improvement in answered and derived metrics. */
  lemma PromotionIsTwoAxes(off: Side, on: Side)
    requires Measured(off) && Measured(on)
    ensures Promoted(off, on) <==>
              && ShapeValid(off.shape) && ShapeValid(on.shape)
              && off.fidelity == on.fidelity == Fidelity(0, 0)
              && off.shape(MetricsRequested) == on.shape(MetricsRequested)
              && ParetoImproves(off.shape, on.shape)
  {
    if ShapeValid(off.shape) && ShapeValid(on.shape) && off.shape(MetricsRequested) == on.shape(MetricsRequested) {
      MeasuredIsClean(off);
      MeasuredIsClean(on);
      ColumnsCollapse(off.shape, on.shape);
    }
  }

  lemma MeasuredIsClean(s: Side)
    requires Measured(s) && ShapeValid(s.shape)
    ensures s.shape(BoilerplateLines) == 0
  {
    var r: Report :| s.shape == Measure(r);
    ValidShapesAreClean(r);
  }

  lemma ColumnsCollapse(off: Shape, on: Shape)
    requires ShapeValid(off) && ShapeValid(on) && off(BoilerplateLines) == on(BoilerplateLines) == 0
    requires off(MetricsRequested) == on(MetricsRequested)
    ensures Improves(off, on) && !Regresses(off, on) <==> ParetoImproves(off, on)
  {
    assert MetricsAnswered in HIGHER_IS_BETTER && DerivedMetrics in HIGHER_IS_BETTER;
    forall k | k in LOWER_IS_BETTER && k != MetricsExplainedGap
      ensures off(k) == on(k)
    {
      assert k in {NoiseLines, BoilerplateLines, AuditSections, FalsePositives};
    }
    forall k | k in HIGHER_IS_BETTER
      ensures k == MetricsAnswered || k == DerivedMetrics
    {
    }
    assert on(MetricsAnswered) - off(MetricsAnswered) == off(MetricsExplainedGap) - on(MetricsExplainedGap);
  }

  /** Promotion is a strict partial order: nothing is promoted over itself, and promotions
      compose. */
  lemma PromotionIsStrictOrder(a: Side, b: Side, c: Side)
    requires Measured(a) && Measured(b) && Measured(c)
    ensures !Promoted(a, a)
    ensures Promoted(a, b) && Promoted(b, c) ==> Promoted(a, c)
    ensures Promoted(a, b) ==> !Promoted(b, a)
  {
    PromotionIsTwoAxes(a, a);
    PromotionIsTwoAxes(a, b);
    PromotionIsTwoAxes(b, a);
    PromotionIsTwoAxes(b, c);
    PromotionIsTwoAxes(a, c);
  }

  // ----- one flag

  datatype Flag = Null | True | False | Other(text: string)

  datatype Package = Package(side: Side, request: string, mode: Option<string>, indexVersion: Option<string>, domain: Option<string>, flags: Option<map<string, Flag>>)

  function Get(flags: map<string, Flag>, key: string): Flag {
    if key in flags then flags[key] else Null
  }

  function Differing(off: map<string, Flag>, on: map<string, Flag>): set<string> {
    set key | key in off.Keys + on.Keys && Get(off, key) != Get(on, key)
  }

  function Expected(capability: string): string {
    capability + "_ENABLED"
  }

  predicate SingleFlag(capability: string, off: Package, on: Package, offCommit: Option<string>, onCommit: Option<string>) {
    && offCommit == onCommit && offCommit.Some? && offCommit.value != ""
    && off.request == on.request
    && off.mode == on.mode && off.indexVersion == on.indexVersion && off.domain == on.domain
    && off.flags.Some? && on.flags.Some?
    && Differing(off.flags.value, on.flags.value) == {Expected(capability)}
    && Get(off.flags.value, Expected(capability)) == False
    && Get(on.flags.value, Expected(capability)) == True
  }

  /** What a flag is set to; one that is missing counts as null. */
  predicate Reads(flags: map<string, Flag>, key: string, value: Flag) {
    if key in flags then flags[key] == value else value == Null
  }

  /** An accepted pair differs in nothing but the switch being thrown, and every such pair is
      accepted: each flag of the second run reads as in the first with one entry set, a missing
      flag reading as null. */
  lemma OneSwitchThrown(capability: string, off: Package, on: Package, offCommit: Option<string>, onCommit: Option<string>)
    ensures SingleFlag(capability, off, on, offCommit, onCommit) <==>
              && offCommit == onCommit && offCommit.Some? && offCommit.value != ""
              && on.(side := off.side, flags := off.flags) == off
              && off.flags.Some? && on.flags.Some?
              && Reads(off.flags.value, capability + "_ENABLED", False)
              && forall key, value :: Reads(on.flags.value, key, value) <==> Reads(off.flags.value[capability + "_ENABLED" := True], key, value)
  {
    if off.flags.Some? && on.flags.Some? && Get(off.flags.value, Expected(capability)) == False {
      DifferingExactly(off.flags.value, on.flags.value, Expected(capability));
      SameReading(on.flags.value, off.flags.value[Expected(capability) := True]);
    }
  }

  lemma SameReading(x: map<string, Flag>, y: map<string, Flag>)
    ensures (forall key :: Get(x, key) == Get(y, key)) <==> (forall key, value :: Reads(x, key, value) <==> Reads(y, key, value))
  {
    forall key, value
      ensures Reads(x, key, value) <==> Get(x, key) == value
      ensures Reads(y, key, value) <==> Get(y, key) == value
    {
    }
    if forall key, value :: Reads(x, key, value) <==> Reads(y, key, value) {
      forall key
        ensures Get(x, key) == Get(y, key)
      {
        assert Reads(x, key, Get(x, key)) <==> Reads(y, key, Get(x, key));
      }
    }
  }

  lemma DifferingExactly(x: map<string, Flag>, y: map<string, Flag>, e: string)
    requires Get(x, e) == False
    ensures Differing(x, y) == {e} && Get(y, e) == True <==> forall key :: Get(y, key) == Get(x[e := True], key)
  {
    if forall key :: Get(y, key) == Get(x[e := True], key) {
      assert Get(y, e) == Get(x[e := True], e) == True;
      assert e in y && e in Differing(x, y);
      forall key | key in Differing(x, y)
        ensures key == e
      {
        assert Get(y, key) == Get(x[e := True], key);
      }
    }
    if Differing(x, y) == {e} && Get(y, e) == True {
      forall key
        ensures Get(y, key) == Get(x[e := True], key)
      {
        if key != e {
          assert key !in Differing(x, y);
        }
      }
    }
  }

  // ----- counting outcomes

  datatype Decision = PromotedOn | KeptOff | Undeclared

  /** A registered pair; `packages` is None when a package record cannot be read. */
  datatype Pair = Pair(packages: Option<(Package, Package)>, offCommit: Option<string>, onCommit: Option<string>, declared: Decision)

  /** An entry of the results: a pair for a capability, or something that names none. */
  datatype Item = Nameless | Named(capability: string, pair: Pair)

  /** The dictionary built from the entries: a later one for a capability replaces an earlier. */
  function ByCapability(items: seq<Item>): map<string, Pair> {
    if items == [] then map[]
    else
      var k := |items| - 1;
      var before := ByCapability(items[..k]);
      if items[k].Named? then before[items[k].capability := items[k].pair] else before
  }

  predicate Lists(items: seq<Item>, capability: string) {
    exists i :: 0 <= i < |items| && items[i].Named? && items[i].capability == capability
  }

  datatype Outcome = OutPromoted | OutKept | OutUndecided

  function OutcomeOf(capability: string, pairs: map<string, Pair>): Outcome {
    if capability !in pairs || pairs[capability].packages.None? then OutUndecided
    else
      var p := pairs[capability];
      var (off, on) := p.packages.value;
      if !SingleFlag(capability, off, on, p.offCommit, p.onCommit) then OutUndecided
      else if Promoted(off.side, on.side) then (if p.declared == PromotedOn then OutPromoted else OutUndecided)
      else (if p.declared == KeptOff then OutKept else OutUndecided)
  }

  function CountOutcome(capabilities: seq<string>, pairs: map<string, Pair>, o: Outcome): nat {
    if capabilities == [] then 0
    else
      var k := |capabilities| - 1;
      CountOutcome(capabilities[..k], pairs, o) + (if OutcomeOf(capabilities[k], pairs) == o then 1 else 0)
  }

  predicate Violates(capability: string, pairs: map<string, Pair>) {
    && capability in pairs && pairs[capability].packages.Some?
    && var p := pairs[capability];
       !SingleFlag(capability, p.packages.value.0, p.packages.value.1, p.offCommit, p.onCommit)
  }

  function CountViolations(capabilities: seq<string>, pairs: map<string, Pair>): nat {
    if capabilities == [] then 0
    else
      var k := |capabilities| - 1;
      CountViolations(capabilities[..k], pairs) + (if Violates(capabilities[k], pairs) then 1 else 0)
  }

  function Failures(capabilities: seq<string>, items: seq<Item>): nat {
    CountOutcome(capabilities, ByCapability(items), OutUndecided) + if |ByCapability(items)| != |capabilities| then 1 else 0
  }

  lemma CountsNext(capabilities: seq<string>, pairs: map<string, Pair>, i: nat)
    requires i < |capabilities|
    ensures var before, after, c := capabilities[..i], capabilities[..i + 1], capabilities[i];
            && CountViolations(after, pairs) == CountViolations(before, pairs) + (if Violates(c, pairs) then 1 else 0)
            && forall o :: CountOutcome(after, pairs, o) == CountOutcome(before, pairs, o) + (if OutcomeOf(c, pairs) == o then 1 else 0)
  {
    assert capabilities[..i + 1][..i] == capabilities[..i];
  }

  method Validate(capabilities: seq<string>, items: seq<Item>)
    returns (promoted: nat, keptOff: nat, undecided: nat, violations: nat, failures: nat)
    ensures promoted + keptOff + undecided == |capabilities|
    ensures promoted == CountOutcome(capabilities, ByCapability(items), OutPromoted)
    ensures keptOff == CountOutcome(capabilities, ByCapability(items), OutKept)
    ensures undecided == CountOutcome(capabilities, ByCapability(items), OutUndecided)
    ensures violations == CountViolations(capabilities, ByCapability(items)) <= undecided
    ensures failures == Failures(capabilities, items)
  {
    var pairs := ByCapability(items);
    promoted, keptOff, undecided, violations, failures := 0, 0, 0, 0, 0;
    var i := 0;
    while i < |capabilities|
      invariant i <= |capabilities| && promoted + keptOff + undecided == i
      invariant promoted == CountOutcome(capabilities[..i], pairs, OutPromoted)
      invariant keptOff == CountOutcome(capabilities[..i], pairs, OutKept)
      invariant undecided == CountOutcome(capabilities[..i], pairs, OutUndecided)
      invariant violations == CountViolations(capabilities[..i], pairs) <= undecided == failures
    {
      var capability := capabilities[i];
      CountsNext(capabilities, pairs, i);
      i := i + 1;
      if capability !in pairs || pairs[capability].packages.None? {
        failures, undecided := failures + 1, undecided + 1;
        continue;
      }
      var p := pairs[capability];
      var (off, on) := p.packages.value;
      if !SingleFlag(capability, off, on, p.offCommit, p.onCommit) {
        violations, failures, undecided := violations + 1, failures + 1, undecided + 1;
        continue;
      }
      var observed := if Promoted(off.side, on.side) then PromotedOn else KeptOff;
      if p.declared != observed {
        failures, undecided := failures + 1, undecided + 1;
        continue;
      }
      if observed == PromotedOn {
        promoted := promoted + 1;
      } else {
        keptOff := keptOff + 1;
      }
    }
    assert capabilities[..i] == capabilities;
    if |pairs| != |capabilities| {
      failures := failures + 1;
    }
  }

  // ----- capabilities listed twice

  lemma {:induction false} ByCapabilityKeys(items: seq<Item>, capability: string)
    ensures capability in ByCapability(items) <==> Lists(items, capability)
  {
    if items == [] {
    } else {
      var k := |items| - 1;
      ByCapabilityKeys(items[..k], capability);
      assert forall i :: 0 <= i < k ==> items[..k][i] == items[i];
      if items[k].Named? && items[k].capability == capability {
        assert Lists(items, capability);
      } else {
        assert Lists(items, capability) <==> Lists(items[..k], capability);
      }
    }
  }

  /** An entry for a capability that is listed again later makes no difference at all. */
  lemma {:induction false} EarlierEntryIsIgnored(items: seq<Item>, i: nat, j: nat)
    requires i < j < |items| && items[i].Named? && items[j].Named? && items[i].capability == items[j].capability
    ensures ByCapability(Removed(items, i)) == ByCapability(items)
    decreases |items|
  {
    var k := |items| - 1;
    var rest := Removed(items, i);
    assert rest[..k - 1] == Removed(items[..k], i) && rest[k - 1] == items[k];
    if j < k {
      EarlierEntryIsIgnored(items[..k], i, j);
    } else {
      OverwrittenEntry(items[..k], i, items[k].pair);
    }
  }

  lemma {:induction false} OverwrittenEntry(items: seq<Item>, i: nat, pair: Pair)
    requires i < |items| && items[i].Named?
    ensures ByCapability(Removed(items, i))[items[i].capability := pair] == ByCapability(items)[items[i].capability := pair]
    decreases |items|
  {
    var k := |items| - 1;
    if i == k {
      assert Removed(items, i) == items[..k];
    } else {
      var rest := Removed(items, i);
      assert rest[..k - 1] == Removed(items[..k], i) && rest[k - 1] == items[k];
      OverwrittenEntry(items[..k], i, pair);
      if items[k].Named? {
        SameAfterwards(ByCapability(Removed(items[..k], i)), ByCapability(items[..k]), items[i].capability, pair, items[k].capability, items[k].pair);
      }
    }
  }

  lemma SameAfterwards(m: map<string, Pair>, n: map<string, Pair>, c: string, p: Pair, d: string, q: Pair)
    requires m[c := p] == n[c := p]
    ensures m[d := q][c := p] == n[d := q][c := p]
  {
    forall key
      ensures key != c ==> (key in m <==> key in n) && (key in m ==> m[key] == n[key])
    {
      assert key != c ==> (key in m[c := p] <==> key in n[c := p]);
      assert key != c && key in m ==> m[c := p][key] == n[c := p][key];
    }
  }

  /** The entry that counts for a capability is the last one. */
  predicate LastEntry(items: seq<Item>, capability: string, i: nat) {
    && i < |items| && items[i].Named? && items[i].capability == capability
    && forall j :: i < j < |items| && items[j].Named? ==> items[j].capability != capability
  }

  lemma {:induction false} LastEntryCounts(items: seq<Item>, capability: string, i: nat)
    requires LastEntry(items, capability, i)
    ensures capability in ByCapability(items) && ByCapability(items)[capability] == items[i].pair
  {
    var k := |items| - 1;
    if i < k {
      LastEntryCounts(items[..k], capability, i);
    }
  }

  lemma {:induction false} ListedHasLast(items: seq<Item>, capability: string) returns (i: nat)
    requires capability in ByCapability(items)
    ensures LastEntry(items, capability, i)
  {
    var k := |items| - 1;
    if items[k].Named? && items[k].capability == capability {
      i := k;
    } else {
      i := ListedHasLast(items[..k], capability);
    }
  }

  /** The pair can be read, throws one switch, and is declared what the rule makes of it. */
  predicate Agrees(capability: string, p: Pair, d: Decision) {
    && p.packages.Some? && p.declared == d
    && SingleFlag(capability, p.packages.value.0, p.packages.value.1, p.offCommit, p.onCommit)
    && d == if Promoted(p.packages.value.0.side, p.packages.value.1.side) then PromotedOn else KeptOff
  }

  ghost predicate DecidedAs(items: seq<Item>, capability: string, d: Decision) {
    exists i: nat :: LastEntry(items, capability, i) && Agrees(capability, items[i].pair, d)
  }

  /** An outcome other than undecided is a declaration that the rule confirms. */
  lemma OutcomesAreConfirmed(items: seq<Item>, capability: string)
    ensures OutcomeOf(capability, ByCapability(items)) == OutPromoted <==> DecidedAs(items, capability, PromotedOn)
    ensures OutcomeOf(capability, ByCapability(items)) == OutKept <==> DecidedAs(items, capability, KeptOff)
  {
    if capability in ByCapability(items) {
      var i := ListedHasLast(items, capability);
      LastEntryCounts(items, capability, i);
      forall j: nat | LastEntry(items, capability, j)
        ensures j == i
      {
      }
    } else {
      forall j: nat
        ensures !LastEntry(items, capability, j)
      {
        if LastEntry(items, capability, j) {
          LastEntryCounts(items, capability, j);
        }
      }
    }
  }

  /** The counts of a validation are numbers of registered capabilities. */
  function Having(capabilities: seq<string>, pairs: map<string, Pair>, o: Outcome): set<nat> {
    set i | 0 <= i < |capabilities| && OutcomeOf(capabilities[i], pairs) == o
  }

  lemma {:induction false} CountOutcomeIs(capabilities: seq<string>, pairs: map<string, Pair>, o: Outcome)
    ensures CountOutcome(capabilities, pairs, o) == |Having(capabilities, pairs, o)|
  {
    if capabilities == [] {
    } else {
      var k := |capabilities| - 1;
      CountOutcomeIs(capabilities[..k], pairs, o);
      HavingNext(capabilities, pairs, o, OutcomeOf(capabilities[k], pairs) == o);
    }
  }

  lemma HavingNext(capabilities: seq<string>, pairs: map<string, Pair>, o: Outcome, one: bool)
    requires capabilities != [] && one == (OutcomeOf(capabilities[|capabilities| - 1], pairs) == o)
    ensures var k := |capabilities| - 1;
            |Having(capabilities, pairs, o)| == |Having(capabilities[..k], pairs, o)| + if one then 1 else 0
  {
    var k := |capabilities| - 1;
    var before := Having(capabilities[..k], pairs, o);
    forall i
      ensures i in Having(capabilities, pairs, o) <==> i in before || (one && i == k)
    {
      if 0 <= i < k {
        assert capabilities[..k][i] == capabilities[i];
      }
    }
    assert Having(capabilities, pairs, o) == before + if one then {k} else {};
  }

  ghost function ConfirmedAs(capabilities: seq<string>, items: seq<Item>, d: Decision): set<nat> {
    set i | 0 <= i < |capabilities| && DecidedAs(items, capabilities[i], d)
  }

  /** A validation counts the capabilities whose last entry the rule confirms. */
  lemma CountsAreConfirmed(capabilities: seq<string>, items: seq<Item>)
    ensures CountOutcome(capabilities, ByCapability(items), OutPromoted) == |ConfirmedAs(capabilities, items, PromotedOn)|
    ensures CountOutcome(capabilities, ByCapability(items), OutKept) == |ConfirmedAs(capabilities, items, KeptOff)|
  {
    var pairs := ByCapability(items);
    CountOutcomeIs(capabilities, pairs, OutPromoted);
    CountOutcomeIs(capabilities, pairs, OutKept);
    forall i | 0 <= i < |capabilities|
      ensures i in Having(capabilities, pairs, OutPromoted) <==> i in ConfirmedAs(capabilities, items, PromotedOn)
      ensures i in Having(capabilities, pairs, OutKept) <==> i in ConfirmedAs(capabilities, items, KeptOff)
    {
      OutcomesAreConfirmed(items, capabilities[i]);
    }
    assert Having(capabilities, pairs, OutPromoted) == ConfirmedAs(capabilities, items, PromotedOn);
    assert Having(capabilities, pairs, OutKept) == ConfirmedAs(capabilities, items, KeptOff);
  }

  lemma {:induction false} AllDecided(capabilities: seq<string>, pairs: map<string, Pair>)
    ensures CountOutcome(capabilities, pairs, OutUndecided) == 0 <==>
              forall i :: 0 <= i < |capabilities| ==> OutcomeOf(capabilities[i], pairs) != OutUndecided
  {
    if capabilities == [] {
    } else {
      var k := |capabilities| - 1;
      AllDecided(capabilities[..k], pairs);
      assert forall i :: 0 <= i < k ==> capabilities[..k][i] == capabilities[i];
    }
  }

  /** Nothing is reported exactly when every registered capability is decided by its last entry and
      no other capability is listed: an entry given twice is never reported as such. */
  lemma SilentExactlyWhenDecided(capabilities: seq<string>, items: seq<Item>)
    requires NoRepeats(capabilities)
    ensures Failures(capabilities, items) == 0 <==>
              && (forall i :: 0 <= i < |capabilities| ==> DecidedAs(items, capabilities[i], PromotedOn) || DecidedAs(items, capabilities[i], KeptOff))
              && (forall capability :: Lists(items, capability) ==> capability in capabilities)
  {
    forall i | 0 <= i < |capabilities|
      ensures OutcomeOf(capabilities[i], ByCapability(items)) != OutUndecided <==>
                DecidedAs(items, capabilities[i], PromotedOn) || DecidedAs(items, capabilities[i], KeptOff)
    {
      OutcomesAreConfirmed(items, capabilities[i]);
    }
    AllDecided(capabilities, ByCapability(items));
    if CountOutcome(capabilities, ByCapability(items), OutUndecided) == 0 {
      forall i | 0 <= i < |capabilities|
        ensures capabilities[i] in ByCapability(items)
      {
        assert OutcomeOf(capabilities[i], ByCapability(items)) != OutUndecided;
      }
      SameNumber(capabilities, ByCapability(items).Keys);
      OnlyRegistered(capabilities, items);
    }
  }

  lemma SameNumber(capabilities: seq<string>, keys: set<string>)
    requires NoRepeats(capabilities) && forall i :: 0 <= i < |capabilities| ==> capabilities[i] in keys
    ensures |keys| == |capabilities| <==> forall key :: key in keys ==> key in capabilities
  {
    SizeOfDistinct(capabilities);
    SubsetSize(Elements(capabilities), keys);
    if forall key :: key in keys ==> key in capabilities {
      assert keys == Elements(capabilities);
    }
  }

  lemma OnlyRegistered(capabilities: seq<string>, items: seq<Item>)
    ensures (forall key :: key in ByCapability(items).Keys ==> key in capabilities) <==>
            (forall capability :: Lists(items, capability) ==> capability in capabilities)
  {
    forall key
      ensures key in ByCapability(items).Keys <==> Lists(items, key)
    {
      ByCapabilityKeys(items, key);
    }
  }
}
