/** The cost ledger: which question a row is charged to, and the fuse that keeps a round within
    its budget. Costs are exact numbers. */
module Ledger {
  import opened Collections


  /** A parsed ledger line; a line that is not JSON counts for nothing. */
  datatype Line = Unreadable | Row(runId: string, cost: real)

  predicate NonNegative(lines: seq<Line>) {
    forall i :: 0 <= i < |lines| && lines[i].Row? ==> lines[i].cost >= 0.0
  }

  function Charge(l: Line): real {
    if l.Row? then l.cost else 0.0
  }

  function Total(lines: seq<Line>): real {
    if lines == [] then 0.0 else Total(lines[..|lines| - 1]) + Charge(lines[|lines| - 1])
  }

  predicate HasPrefix(l: Line, prefix: string) {
    l.Row? && prefix <= l.runId
  }

  function TotalFor(lines: seq<Line>, prefix: string): real {
    if lines == [] then 0.0
    else TotalFor(lines[..|lines| - 1], prefix) + (if HasPrefix(lines[|lines| - 1], prefix) then Charge(lines[|lines| - 1]) else 0.0)
  }

  method LedgerCost(lines: seq<Line>) returns (total: real)
    ensures total == Total(lines)
  {
    total := 0.0;
    var i := 0;
    while i < |lines|
      invariant i <= |lines| && total == Total(lines[..i])
    {
      assert lines[..i + 1][..i] == lines[..i];
      if lines[i].Row? {
        total := total + lines[i].cost;
      }
      i := i + 1;
    }
    assert lines[..i] == lines;
  }

  method LedgerCostForPrefix(lines: seq<Line>, prefix: string) returns (total: real)
    ensures total == TotalFor(lines, prefix)
  {
    total := 0.0;
    var i := 0;
    while i < |lines|
      invariant i <= |lines| && total == TotalFor(lines[..i], prefix)
    {
      assert lines[..i + 1][..i] == lines[..i];
      if lines[i].Row? && prefix <= lines[i].runId {
        total := total + lines[i].cost;
      }
      i := i + 1;
    }
    assert lines[..i] == lines;
  }

  // ----- attribution

  /** Every run id of a question starts like this. */
  function Prefix(round: string, qid: string): string {
    round + "-" + qid + "-"
  }

  lemma PrefixesOfOne(x: string, y: string, s: string)
    requires x <= s && y <= s
    ensures x <= y || y <= x
  {
    if |x| <= |y| {
      assert x == s[..|x|] == y[..|x|];
    } else {
      assert y == s[..|y|] == x[..|y|];
    }
  }

  /** Two questions can be charged for one row exactly when one's id, closed by a dash, begins
      the other's. */
  lemma SharedRowExactly(round: string, x: string, y: string)
    ensures (exists l :: HasPrefix(l, Prefix(round, x)) && HasPrefix(l, Prefix(round, y))) <==>
              x + "-" <= y + "-" || y + "-" <= x + "-"
  {
    var head := round + "-";
    PrefixSplits(round, x);
    PrefixSplits(round, y);
    if exists l :: HasPrefix(l, Prefix(round, x)) && HasPrefix(l, Prefix(round, y)) {
      var l :| HasPrefix(l, Prefix(round, x)) && HasPrefix(l, Prefix(round, y));
      PrefixesOfOne(Prefix(round, x), Prefix(round, y), l.runId);
      SamePrefix(head, x + "-", y + "-");
      SamePrefix(head, y + "-", x + "-");
    }
    if x + "-" <= y + "-" {
      SamePrefix(head, x + "-", y + "-");
      assert HasPrefix(Row(Prefix(round, y), 0.0), Prefix(round, x));
    }
    if y + "-" <= x + "-" {
      SamePrefix(head, y + "-", x + "-");
      assert HasPrefix(Row(Prefix(round, x), 0.0), Prefix(round, y));
    }
  }

  lemma PrefixSplits(round: string, qid: string)
    ensures Prefix(round, qid) == (round + "-") + (qid + "-")
  {
  }

  lemma SamePrefix(head: string, a: string, b: string)
    ensures head + a <= head + b <==> a <= b
  {
    if head + a <= head + b {
      assert forall i :: 0 <= i < |a| ==> a[i] == (head + a)[|head| + i] == (head + b)[|head| + i] == b[i];
    }
    if a <= b {
      assert head + b == head + a + b[|a|..];
    }
  }

  /** Ids without a dash never share a row. */
  lemma DashlessIdsApart(x: string, y: string)
    requires '-' !in x && '-' !in y && x + "-" <= y + "-"
    ensures x == y
  {
    var shorter, longer := x + "-", y + "-";
    assert shorter[|x|] == '-' && longer[|x|] == '-';
    assert forall i :: 0 <= i < |y| ==> longer[i] == y[i] && y[i] in y;
    assert x == shorter[..|x|] == longer[..|x|] == y;
  }

  ghost predicate Exclusive(round: string, qids: seq<string>) {
    forall i, j, l :: 0 <= i < j < |qids| && HasPrefix(l, Prefix(round, qids[i])) ==> !HasPrefix(l, Prefix(round, qids[j]))
  }

  lemma DashlessIdsAreExclusive(round: string, qids: seq<string>)
    requires forall i, j :: 0 <= i < j < |qids| ==> qids[i] != qids[j]
    requires forall q :: q in qids ==> '-' !in q
    ensures Exclusive(round, qids)
  {
    forall i, j, l | 0 <= i < j < |qids| && HasPrefix(l, Prefix(round, qids[i]))
      ensures !HasPrefix(l, Prefix(round, qids[j]))
    {
      if HasPrefix(l, Prefix(round, qids[j])) {
        SharedRowExactly(round, qids[i], qids[j]);
        if qids[i] + "-" <= qids[j] + "-" {
          DashlessIdsApart(qids[i], qids[j]);
        } else {
          DashlessIdsApart(qids[j], qids[i]);
        }
      }
    }
  }

  function SumOver(lines: seq<Line>, round: string, qids: seq<string>): real {
    if qids == [] then 0.0 else SumOver(lines, round, qids[..|qids| - 1]) + TotalFor(lines, Prefix(round, qids[|qids| - 1]))
  }

  function ChargedOnce(l: Line, round: string, qids: seq<string>): real {
    if qids == [] then 0.0
    else ChargedOnce(l, round, qids[..|qids| - 1]) + (if HasPrefix(l, Prefix(round, qids[|qids| - 1])) then Charge(l) else 0.0)
  }

  lemma {:induction false} SumOverNoLines(round: string, qids: seq<string>)
    ensures SumOver([], round, qids) == 0.0
  {
    if qids == [] {
    } else {
      SumOverNoLines(round, qids[..|qids| - 1]);
    }
  }

  lemma {:induction false} SumOverOneMoreLine(lines: seq<Line>, round: string, qids: seq<string>)
    requires lines != []
    ensures SumOver(lines, round, qids) == SumOver(lines[..|lines| - 1], round, qids) + ChargedOnce(lines[|lines| - 1], round, qids)
  {
    if qids == [] {
    } else {
      SumOverOneMoreLine(lines, round, qids[..|qids| - 1]);
    }
  }

  /** The row is charged to one of the questions. */
  predicate Belongs(l: Line, round: string, qids: seq<string>) {
    exists i :: 0 <= i < |qids| && HasPrefix(l, Prefix(round, qids[i]))
  }

  lemma {:induction false} ChargedExactlyOnce(l: Line, round: string, qids: seq<string>)
    requires Exclusive(round, qids)
    ensures ChargedOnce(l, round, qids) == if Belongs(l, round, qids) then Charge(l) else 0.0
  {
    if qids == [] {
    } else {
      var k := |qids| - 1;
      assert forall i :: 0 <= i < k ==> qids[..k][i] == qids[i];
      ChargedExactlyOnce(l, round, qids[..k]);
      if HasPrefix(l, Prefix(round, qids[k])) {
        assert Belongs(l, round, qids) && !Belongs(l, round, qids[..k]);
      } else {
        assert Belongs(l, round, qids) <==> Belongs(l, round, qids[..k]);
      }
    }
  }

  /** The cost of the rows charged to no question. */
  function Uncharged(lines: seq<Line>, round: string, qids: seq<string>): real {
    if lines == [] then 0.0
    else
      var k := |lines| - 1;
      Uncharged(lines[..k], round, qids) + (if Belongs(lines[k], round, qids) then 0.0 else Charge(lines[k]))
  }

  /** The ledger is the questions' own costs and what is charged to none. */
  lemma {:induction false} TotalSplits(lines: seq<Line>, round: string, qids: seq<string>)
    requires Exclusive(round, qids)
    ensures Total(lines) == SumOver(lines, round, qids) + Uncharged(lines, round, qids)
    ensures NonNegative(lines) ==> Uncharged(lines, round, qids) >= 0.0
  {
    if lines == [] {
      SumOverNoLines(round, qids);
    } else {
      var k := |lines| - 1;
      TotalSplits(lines[..k], round, qids);
      SumOverOneMoreLine(lines, round, qids);
      ChargedExactlyOnce(lines[k], round, qids);
    }
  }

  /** The questions' own costs never add up to more than the ledger. */
  lemma QuestionCostsWithinTotal(lines: seq<Line>, round: string, qids: seq<string>)
    requires NonNegative(lines) && Exclusive(round, qids)
    ensures SumOver(lines, round, qids) <= Total(lines)
  {
    TotalSplits(lines, round, qids);
  }

  lemma {:induction false} SumOverConcat(x: seq<Line>, y: seq<Line>, round: string, qids: seq<string>)
    ensures SumOver(x + y, round, qids) == SumOver(x, round, qids) + SumOver(y, round, qids)
  {
    if y == [] {
      assert x + y == x;
      SumOverNoLines(round, qids);
    } else {
      var k := |y| - 1;
      assert (x + y)[..|x| + k] == x + y[..k];
      SumOverConcat(x, y[..k], round, qids);
      SumOverOneMoreLine(x + y, round, qids);
      SumOverOneMoreLine(y, round, qids);
    }
  }

  /** The two totals printed for a round, the questions' costs and what the ledger grew by: the
      first stays within the second exactly when what earlier runs of the round were charged is
      covered by what this one spent on no question. */
  lemma RoundTotalsExactly(before: seq<Line>, grown: seq<Line>, round: string, qids: seq<string>)
    requires Exclusive(round, qids)
    ensures SumOver(before + grown, round, qids) <= Total(grown) <==> SumOver(before, round, qids) <= Uncharged(grown, round, qids)
  {
    SumOverConcat(before, grown, round, qids);
    TotalSplits(grown, round, qids);
  }

  // ----- the fuse

  lemma {:induction false} TotalConcat(a: seq<Line>, b: seq<Line>)
    ensures Total(a + b) == Total(a) + Total(b)
  {
    if b == [] {
      assert a + b == a;
    } else {
      assert (a + b)[..|a + b| - 1] == a + b[..|b| - 1];
      TotalConcat(a, b[..|b| - 1]);
    }
  }

  /** What a guarded unit of work adds to the ledger, and whether it fails, which it may do after
      having been paid. */
  datatype Work = Work(rows: seq<Line>, fails: bool)

  predicate Refuses(lines: seq<Line>, budget: real, reserve: real) {
    budget > 0.0 && Total(lines) + reserve > budget
  }

  /** The ledger after a golden round: a case whose reserve does not fit is skipped. */
  function Spent(lines: seq<Line>, cases: seq<Work>, budget: real, reserve: real): seq<Line> {
    if cases == [] then lines
    else
      var before := Spent(lines, cases[..|cases| - 1], budget, reserve);
      if Refuses(before, budget, reserve) then before else before + cases[|cases| - 1].rows
  }

  /** Cases that were refused or failed. */
  function Failures(lines: seq<Line>, cases: seq<Work>, budget: real, reserve: real): nat {
    if cases == [] then 0
    else
      var k := |cases| - 1;
      var counts := Refuses(Spent(lines, cases[..k], budget, reserve), budget, reserve) || cases[k].fails;
      Failures(lines, cases[..k], budget, reserve) + if counts then 1 else 0
  }

  function Max(a: real, b: real): real {
    if a >= b then a else b
  }

  /** However the cases go, a positive budget is exceeded by no more than a case costs above its
      reserve: not at all if none does. */
  lemma {:induction false} RoundStaysWithinBudget(lines: seq<Line>, cases: seq<Work>, budget: real, reserve: real, cost: real)
    requires budget > 0.0
    requires forall i :: 0 <= i < |cases| ==> Total(cases[i].rows) <= cost
    ensures Total(Spent(lines, cases, budget, reserve)) <= Max(Total(lines), budget + cost - reserve)
  {
    if cases == [] {
    } else {
      var k := |cases| - 1;
      RoundStaysWithinBudget(lines, cases[..k], budget, reserve, cost);
      TotalConcat(Spent(lines, cases[..k], budget, reserve), cases[k].rows);
    }
  }

  /** A case keeps every in-budget ledger in budget exactly when its reserve covers it, or when the
      reserve is more than the whole budget, and so no case is ever paid. */
  lemma ReserveMustCover(w: Work, budget: real, reserve: real)
    requires budget > 0.0
    ensures (forall lines :: NonNegative(lines) && Total(lines) <= budget ==> Total(Spent(lines, [w], budget, reserve)) <= budget) <==>
            Total(w.rows) <= Max(reserve, 0.0) || reserve > budget
  {
    assert [w][..0] == [];
    if Total(w.rows) <= Max(reserve, 0.0) || reserve > budget {
      forall lines | NonNegative(lines) && Total(lines) <= budget
        ensures Total(Spent(lines, [w], budget, reserve)) <= budget
      {
        TotalNonNegative(lines);
        TotalConcat(lines, w.rows);
      }
    } else {
      var full := [Row("", budget - Max(reserve, 0.0))];
      assert Total(full) == budget - Max(reserve, 0.0) by {
        assert full[..0] == [];
      }
      assert NonNegative(full) && Total(full) <= budget;
      assert Spent(full, [w], budget, reserve) == full + w.rows;
      TotalConcat(full, w.rows);
    }
  }

  lemma {:induction false} TotalNonNegative(lines: seq<Line>)
    requires NonNegative(lines)
    ensures Total(lines) >= 0.0
  {
    if lines == [] {
    } else {
      TotalNonNegative(lines[..|lines| - 1]);
    }
  }

  function AllRows(cases: seq<Work>): seq<Line> {
    if cases == [] then [] else AllRows(cases[..|cases| - 1]) + cases[|cases| - 1].rows
  }

  /** Where a round stops paying. */
  function PaidCases(lines: seq<Line>, cases: seq<Work>, budget: real, reserve: real): (n: nat)
    ensures n <= |cases|
  {
    if cases == [] then 0
    else
      var k := |cases| - 1;
      PaidCases(lines, cases[..k], budget, reserve) +
      if Refuses(Spent(lines, cases[..k], budget, reserve), budget, reserve) then 0 else 1
  }

  /** The cost of the first `n` cases comes on top of what the ledger holds. */
  predicate FitsAfter(lines: seq<Line>, cases: seq<Work>, n: nat, budget: real, reserve: real)
    requires n <= |cases|
  {
    budget <= 0.0 || Total(lines) + Total(AllRows(cases[..n])) + reserve <= budget
  }

  lemma RefusedUnlessFits(lines: seq<Line>, cases: seq<Work>, n: nat, budget: real, reserve: real)
    requires n <= |cases|
    ensures Refuses(lines + AllRows(cases[..n]), budget, reserve) <==> !FitsAfter(lines, cases, n, budget, reserve)
  {
    TotalConcat(lines, AllRows(cases[..n]));
  }

  /** Cases are paid for as long as the next reserve fits, and not one longer. */
  lemma {:induction false} PaidWhileItFits(lines: seq<Line>, cases: seq<Work>, budget: real, reserve: real)
    ensures var n := PaidCases(lines, cases, budget, reserve);
            && (forall i :: 0 <= i < n ==> FitsAfter(lines, cases, i, budget, reserve))
            && (n < |cases| ==> !FitsAfter(lines, cases, n, budget, reserve))
  {
    RefusalIsFinal(lines, cases, budget, reserve);
    var n := PaidCases(lines, cases, budget, reserve);
    RefusedUnlessFits(lines, cases, n, budget, reserve);
    if cases != [] {
      var earlier := cases[..|cases| - 1];
      PaidWhileItFits(lines, earlier, budget, reserve);
      RefusalIsFinal(lines, earlier, budget, reserve);
      var m := PaidCases(lines, earlier, budget, reserve);
      forall i | 0 <= i < n
        ensures FitsAfter(lines, cases, i, budget, reserve)
      {
        assert earlier[..i] == cases[..i];
        if i < m {
          assert FitsAfter(lines, earlier, i, budget, reserve);
        } else {
          RefusedUnlessFits(lines, cases, i, budget, reserve);
        }
      }
    }
  }

  function FailedOnes(cases: seq<Work>, n: nat): set<nat>
    requires n <= |cases|
  {
    set i | 0 <= i < n && cases[i].fails
  }

  /** Failures are the refused cases and the paid ones that failed. */
  lemma {:induction false} FailuresCount(lines: seq<Line>, cases: seq<Work>, budget: real, reserve: real)
    ensures var n := PaidCases(lines, cases, budget, reserve);
            Failures(lines, cases, budget, reserve) == |cases| - n + |FailedOnes(cases, n)|
  {
    if cases == [] {
      assert FailedOnes(cases, 0) == {};
    } else {
      var k := |cases| - 1;
      var m := PaidCases(lines, cases[..k], budget, reserve);
      FailuresCount(lines, cases[..k], budget, reserve);
      RefusalIsFinal(lines, cases[..k], budget, reserve);
      assert FailedOnes(cases[..k], m) == FailedOnes(cases, m);
      if m == k {
        FailedNext(cases, k);
      }
    }
  }

  lemma FailedNext(cases: seq<Work>, k: nat)
    requires k < |cases|
    ensures |FailedOnes(cases, k + 1)| == |FailedOnes(cases, k)| + if cases[k].fails then 1 else 0
  {
    assert FailedOnes(cases, k + 1) == FailedOnes(cases, k) + (if cases[k].fails then {k} else {});
  }

  /** The first refusal is final: the paid cases are the first ones, and the ledger grows by all
      their rows and nothing else. */
  lemma {:induction false} RefusalIsFinal(lines: seq<Line>, cases: seq<Work>, budget: real, reserve: real)
    ensures var n := PaidCases(lines, cases, budget, reserve);
            && Spent(lines, cases, budget, reserve) == lines + AllRows(cases[..n])
            && (n < |cases| ==> Refuses(Spent(lines, cases, budget, reserve), budget, reserve))
  {
    if cases == [] {
      assert lines + AllRows([]) == lines;
    } else {
      var earlier := cases[..|cases| - 1];
      RefusalIsFinal(lines, earlier, budget, reserve);
      var m := PaidCases(lines, earlier, budget, reserve);
      if Refuses(Spent(lines, earlier, budget, reserve), budget, reserve) {
        assert earlier[..m] == cases[..m];
      } else {
        assert earlier[..m] == earlier && cases[..m + 1] == cases;
        AllRowsAppends(lines, cases);
      }
    }
  }

  lemma AllRowsAppends(lines: seq<Line>, cases: seq<Work>)
    requires cases != []
    ensures lines + AllRows(cases) == lines + AllRows(cases[..|cases| - 1]) + cases[|cases| - 1].rows
  {
    Associative(lines, AllRows(cases[..|cases| - 1]), cases[|cases| - 1].rows);
  }

  class Ledger {
    var lines: seq<Line>
    // questions whose citation verdicts are on file
    var filed: seq<string>

    constructor (lines: seq<Line>, filed: seq<string>)
      ensures this.lines == lines && this.filed == filed
    {
      this.lines := lines;
      this.filed := filed;
    }

    /** The golden runner over its cases. */
    method GoldenRound(cases: seq<Work>, combinedBudget: real, reserve: real) returns (failures: nat)
      modifies this`lines
      ensures lines == Spent(old(lines), cases, combinedBudget, reserve)
      ensures failures == Failures(old(lines), cases, combinedBudget, reserve)
    {
      failures := 0;
      var i := 0;
      while i < |cases|
        invariant i <= |cases|
        invariant lines == Spent(old(lines), cases[..i], combinedBudget, reserve)
        invariant failures == Failures(old(lines), cases[..i], combinedBudget, reserve)
      {
        assert cases[..i + 1][..i] == cases[..i];
        var spent := LedgerCost(lines);
        if combinedBudget > 0.0 && spent + reserve > combinedBudget {
          failures := failures + 1;
        } else {
          lines := lines + cases[i].rows;
          if cases[i].fails {
            failures := failures + 1;
          }
        }
        i := i + 1;
      }
      assert cases[..i] == cases;
    }

    /** The three samples of one question. */
    method AskThrice(qid: string, run: Run, budget: real, reserve: real) returns (samples: nat, halted: bool)
      modifies this`lines
      ensures samples <= 3 && lines == old(lines) + SampleRows(run, qid, samples)
      ensures run.WithinReserve(reserve) && Total(old(lines)) <= budget ==> Total(lines) <= budget
      ensures halted ==> Unreadable in lines || Total(lines) + reserve > budget || exists s: nat :: s < 3 && run.calls(qid, s).fails
      ensures !halted ==> samples == 3 && forall s: nat :: s < 3 ==> !run.calls(qid, s).fails
    {
      samples := 0;
      while samples < 3
        invariant samples <= 3 && lines == old(lines) + SampleRows(run, qid, samples)
        invariant run.WithinReserve(reserve) && Total(old(lines)) <= budget ==> Total(lines) <= budget
        invariant forall s: nat :: s < samples ==> !run.calls(qid, s).fails
      {
        if !Readable(lines) || Total(lines) + reserve > budget {
          return samples, true;
        }
        var call := run.calls(qid, samples);
        OneCallMore(run, qid, samples, old(lines), lines);
        lines := lines + call.rows;
        samples := samples + 1;
        if call.fails {
          return samples, true;
        }
      }
      halted := false;
    }

    /** One question of a run: resumed if it is on file, else asked three times and then filed; an
        interruption, an unreadable ledger, a refusal or a failure ends the run here. */
    method NextQuestion(questions: seq<string>, run: Run, budget: real, reserve: real, existing: seq<string>, results: seq<string>, paid0: nat,
                        ghost before: seq<Line>)
      returns (paid: nat, stopped: bool)
      requires |results| < |questions| && results == questions[..|results|]
      requires Midrun(run, questions, existing, before, |results|, lines, filed, paid0)
      modifies this
      ensures run.WithinReserve(reserve) && Total(old(lines)) <= budget ==> Total(lines) <= budget
      ensures stopped ==> RunLeaves(run, questions, existing, before, budget, reserve, |results|, true, lines, filed, paid)
      ensures !stopped ==>
                && Midrun(run, questions, existing, before, |results| + 1, lines, filed, paid)
                && questions[..|results| + 1] == results + [questions[|results|]]
    {
      var qid := questions[|results|];
      StopsUnasked(run, questions, existing, before, budget, reserve, |results|, lines, filed, paid0);
      if run.interrupted(|results|) {
        return paid0, true;
      }
      if qid in existing {
        Resumed(run, questions, existing, before, |results|, lines, filed, paid0);
        return paid0, false;
      }
      if !Readable(lines) || Total(lines) + reserve > budget || !run.loads(qid) {
        return paid0, true;
      }
      ghost var ledger := lines;
      var samples, halted := AskThrice(qid, run, budget, reserve);
      if halted {
        StopsHere(run, questions, existing, before, budget, reserve, |results|, ledger, filed, paid0, samples);
        return paid0 + samples, true;
      }
      Asked(run, questions, existing, before, |results|, ledger, filed, paid0);
      filed := results + [qid];
      return paid0 + samples, false;
    }

    /** One run of the citation verifier, over the questions in their order, up to question `stop`. */
    method CitationSupport(questions: seq<string>, run: Run, budget: real, reserve: real) returns (paid: nat, ghost stop: nat, stopped: bool)
      modifies this
      ensures run.WithinReserve(reserve) && Total(old(lines)) <= budget ==> Total(lines) <= budget
      ensures RunLeaves(run, questions, old(filed), old(lines), budget, reserve, stop, stopped, lines, filed, paid)
    {
      paid, stopped, stop := 0, false, 0;
      ghost var before := lines;
      var existing := filed;
      var results := [];
      RunBegins(run, questions, existing, before);
      while |results| < |questions|
        invariant stop == |results| <= |questions| && results == questions[..stop]
        invariant run.WithinReserve(reserve) && Total(before) <= budget ==> Total(lines) <= budget
        invariant Midrun(run, questions, existing, before, stop, lines, filed, paid)
        decreases |questions| - |results|
      {
        paid, stopped := NextQuestion(questions, run, budget, reserve, existing, results, paid, before);
        if stopped {
          return;
        }
        results := results + [questions[|results|]];
        stop := stop + 1;
      }
      RunEnds(run, questions, existing, before, budget, reserve, stop, lines, filed, paid);
      if run.interrupted(|results|) {
        return paid, stop, true;
      }
      filed := results;
    }

    /** Any sequence of runs, over whatever questions each is given, keeps an in-budget ledger in
        budget. */
    method AnyRuns(lists: seq<seq<string>>, runs: seq<Run>, budget: real, reserve: real)
      requires |lists| == |runs|
      modifies this
      ensures AllWithinReserve(runs, reserve) && Total(old(lines)) <= budget ==> Total(lines) <= budget
      ensures old(lines) <= lines
    {
      for i := 0 to |runs|
        invariant AllWithinReserve(runs, reserve) && Total(old(lines)) <= budget ==> Total(lines) <= budget
        invariant old(lines) <= lines
      {
        var _, _, _ := CitationSupport(lists[i], runs[i], budget, reserve);
      }
    }

    /** Starting the citation verifier again and again over the same questions, all those on file
        among them and listed before the others: nothing on file is lost or paid for again, every
        interruption wastes at most three calls, and the ledger stays in budget. */
    method ResumedRuns(questions: seq<string>, runs: seq<Run>, budget: real, reserve: real) returns (paid: nat, interrupted: nat)
      requires NoRepeats(questions) && Resumable(questions, filed)
      modifies this
      ensures AllWithinReserve(runs, reserve) && Total(old(lines)) <= budget ==> Total(lines) <= budget
      ensures Kept(old(filed), filed) && Resumable(questions, filed) && interrupted <= |runs|
      ensures interrupted < |runs| ==> Fresh(questions, filed) == []
      ensures var asked := |Fresh(questions, old(filed))| - |Fresh(questions, filed)|;
              3 * asked <= paid <= 3 * asked + 3 * interrupted
    {
      paid, interrupted := 0, 0;
      var i := 0;
      while i < |runs|
        invariant i <= |runs| && interrupted <= i
        invariant AllWithinReserve(runs, reserve) && Total(old(lines)) <= budget ==> Total(lines) <= budget
        invariant Kept(old(filed), filed) && Resumable(questions, filed)
        invariant interrupted < i ==> Fresh(questions, filed) == []
        invariant var asked := |Fresh(questions, old(filed))| - |Fresh(questions, filed)|;
                  3 * asked <= paid <= 3 * asked + 3 * interrupted
      {
        ghost var before := filed;
        var more, stop, stopped := CitationSupport(questions, runs[i], budget, reserve);
        RunProgress(questions, before, filed, stop, stopped);
        paid := paid + more;
        if stopped {
          interrupted := interrupted + 1;
        }
        i := i + 1;
      }
    }
  }

  ghost predicate AllWithinReserve(runs: seq<Run>, reserve: real) {
    forall i :: 0 <= i < |runs| ==> runs[i].WithinReserve(reserve)
  }

  predicate Readable(lines: seq<Line>) {
    Unreadable !in lines
  }

  /** What the calls of one run turn out to do; `loads` says whether a saved state can be read, and
      `interrupted` whether the process is ended before it comes to a question, or to the end. */
  datatype Run = Run(loads: string -> bool, calls: (string, nat) -> Work, interrupted: nat -> bool) {
    ghost predicate WithinReserve(reserve: real) {
      forall qid, sample :: Total(calls(qid, sample).rows) <= reserve
    }
  }

  // ----- what a run pays for

  /** The rows of the first samples of a question. */
  function SampleRows(run: Run, qid: string, samples: nat): seq<Line> {
    if samples == 0 then [] else SampleRows(run, qid, samples - 1) + run.calls(qid, samples - 1).rows
  }

  lemma OneCallMore(run: Run, qid: string, samples: nat, before: seq<Line>, lines: seq<Line>)
    requires lines == before + SampleRows(run, qid, samples)
    ensures lines + run.calls(qid, samples).rows == before + SampleRows(run, qid, samples + 1)
    ensures Total(lines + run.calls(qid, samples).rows) == Total(lines) + Total(run.calls(qid, samples).rows)
  {
    Associative(before, SampleRows(run, qid, samples), run.calls(qid, samples).rows);
    TotalConcat(lines, run.calls(qid, samples).rows);
  }

  function AskedRows(run: Run, asked: seq<string>): seq<Line> {
    if asked == [] then [] else AskedRows(run, asked[..|asked| - 1]) + SampleRows(run, asked[|asked| - 1], 3)
  }

  /** Three samples for each question asked before `stop`, and some for the one it stopped at. */
  function PaidRows(run: Run, questions: seq<string>, filed: seq<string>, stop: nat, samples: nat): seq<Line>
    requires stop <= |questions|
  {
    AskedRows(run, Fresh(questions[..stop], filed)) + if stop < |questions| then SampleRows(run, questions[stop], samples) else []
  }

  /** Nothing ended the run before question `stop`. */
  ghost predicate WentWell(run: Run, questions: seq<string>, filed: seq<string>, stop: nat)
    requires stop <= |questions|
  {
    forall k :: 0 <= k < stop ==>
      && !run.interrupted(k)
      && (questions[k] !in filed ==> run.loads(questions[k]) && forall s: nat :: s < 3 ==> !run.calls(questions[k], s).fails)
  }

  /** Something ends it there, with this ledger. */
  ghost predicate Halts(run: Run, questions: seq<string>, filed: seq<string>, stop: nat, lines: seq<Line>, budget: real, reserve: real) {
    || run.interrupted(stop)
    || (&& stop < |questions| && questions[stop] !in filed
        && (|| Unreadable in lines || Total(lines) + reserve > budget || !run.loads(questions[stop])
            || exists s: nat :: s < 3 && run.calls(questions[stop], s).fails))
  }

  /** The state before question `stop`. */
  ghost predicate Midrun(run: Run, questions: seq<string>, existing: seq<string>, before: seq<Line>, stop: nat, lines: seq<Line>, filed: seq<string>, paid: nat) {
    && stop <= |questions|
    && filed == Written(questions, existing, stop)
    && paid == 3 * |Fresh(questions[..stop], existing)|
    && lines == before + AskedRows(run, Fresh(questions[..stop], existing))
    && WentWell(run, questions, existing, stop)
  }

  /** What a run leaves: the ledger has grown by the calls it paid for, three for each question it
      asked and up to three more where it stopped; the file is what it last wrote; and it stopped
      exactly where something halted it, and nothing had before. */
  ghost predicate RunLeaves(run: Run, questions: seq<string>, existing: seq<string>, before: seq<Line>, budget: real, reserve: real,
                            stop: nat, stopped: bool, lines: seq<Line>, filed: seq<string>, paid: nat) {
    && stop <= |questions| && (!stopped ==> stop == |questions|)
    && filed == FileAfter(questions, existing, stop, stopped)
    && var asked := |Fresh(questions[..stop], existing)|;
       && 3 * asked <= paid <= 3 * asked + (if stopped then 3 else 0)
       && lines == before + PaidRows(run, questions, existing, stop, paid - 3 * asked)
       && WentWell(run, questions, existing, stop)
       && (stopped <==> Halts(run, questions, existing, stop, lines, budget, reserve))
  }

  lemma RunBegins(run: Run, questions: seq<string>, existing: seq<string>, before: seq<Line>)
    ensures Midrun(run, questions, existing, before, 0, before, existing, 0)
  {
    assert before + [] == before;
  }

  lemma NextWentWell(run: Run, questions: seq<string>, existing: seq<string>, stop: nat)
    requires stop < |questions| && WentWell(run, questions, existing, stop) && !run.interrupted(stop)
    requires questions[stop] in existing || (run.loads(questions[stop]) && forall s: nat :: s < 3 ==> !run.calls(questions[stop], s).fails)
    ensures WentWell(run, questions, existing, stop + 1)
  {
  }

  lemma Resumed(run: Run, questions: seq<string>, existing: seq<string>, before: seq<Line>, stop: nat, lines: seq<Line>, filed: seq<string>, paid: nat)
    requires Midrun(run, questions, existing, before, stop, lines, filed, paid)
    requires stop < |questions| && questions[stop] in existing && !run.interrupted(stop)
    ensures Midrun(run, questions, existing, before, stop + 1, lines, filed, paid)
    ensures questions[..stop + 1] == questions[..stop] + [questions[stop]]
  {
    FreshNext(questions, existing, stop);
    assert Fresh(questions[..stop], existing) + [] == Fresh(questions[..stop], existing);
    NextWentWell(run, questions, existing, stop);
  }

  lemma Asked(run: Run, questions: seq<string>, existing: seq<string>, before: seq<Line>, stop: nat, lines: seq<Line>, filed: seq<string>, paid: nat)
    requires Midrun(run, questions, existing, before, stop, lines, filed, paid)
    requires stop < |questions| && questions[stop] !in existing && !run.interrupted(stop) && run.loads(questions[stop])
    requires forall s: nat :: s < 3 ==> !run.calls(questions[stop], s).fails
    ensures Midrun(run, questions, existing, before, stop + 1, lines + SampleRows(run, questions[stop], 3), questions[..stop + 1], paid + 3)
    ensures questions[..stop + 1] == questions[..stop] + [questions[stop]]
  {
    FreshNext(questions, existing, stop);
    NextWentWell(run, questions, existing, stop);
    AskedNext(run, Fresh(questions[..stop], existing), questions[stop]);
    Associative(before, AskedRows(run, Fresh(questions[..stop], existing)), SampleRows(run, questions[stop], 3));
  }

  lemma AskedNext(run: Run, asked: seq<string>, qid: string)
    ensures AskedRows(run, asked + [qid]) == AskedRows(run, asked) + SampleRows(run, qid, 3)
  {
    assert (asked + [qid])[..|asked|] == asked;
  }

  lemma RowsUpTo(run: Run, questions: seq<string>, existing: seq<string>, before: seq<Line>, stop: nat, lines: seq<Line>, samples: nat)
    requires stop < |questions| && lines == before + AskedRows(run, Fresh(questions[..stop], existing))
    ensures lines + SampleRows(run, questions[stop], samples) == before + PaidRows(run, questions, existing, stop, samples)
  {
    Associative(before, AskedRows(run, Fresh(questions[..stop], existing)), SampleRows(run, questions[stop], samples));
  }

  lemma StopsHere(run: Run, questions: seq<string>, existing: seq<string>, before: seq<Line>, budget: real, reserve: real,
                  stop: nat, lines: seq<Line>, filed: seq<string>, paid: nat, samples: nat)
    requires Midrun(run, questions, existing, before, stop, lines, filed, paid) && stop < |questions| && samples <= 3
    requires Halts(run, questions, existing, stop, lines + SampleRows(run, questions[stop], samples), budget, reserve)
    ensures RunLeaves(run, questions, existing, before, budget, reserve, stop, true, lines + SampleRows(run, questions[stop], samples), filed, paid + samples)
  {
    RowsUpTo(run, questions, existing, before, stop, lines, samples);
    assert paid + samples - 3 * |Fresh(questions[..stop], existing)| == samples;
  }

  lemma StopsUnasked(run: Run, questions: seq<string>, existing: seq<string>, before: seq<Line>, budget: real, reserve: real,
                     stop: nat, lines: seq<Line>, filed: seq<string>, paid: nat)
    requires Midrun(run, questions, existing, before, stop, lines, filed, paid) && stop < |questions|
    ensures Halts(run, questions, existing, stop, lines, budget, reserve) ==>
              RunLeaves(run, questions, existing, before, budget, reserve, stop, true, lines, filed, paid)
  {
    assert lines + SampleRows(run, questions[stop], 0) == lines;
    if Halts(run, questions, existing, stop, lines, budget, reserve) {
      StopsHere(run, questions, existing, before, budget, reserve, stop, lines, filed, paid, 0);
    }
  }

  lemma RunEnds(run: Run, questions: seq<string>, existing: seq<string>, before: seq<Line>, budget: real, reserve: real,
                stop: nat, lines: seq<Line>, filed: seq<string>, paid: nat)
    requires Midrun(run, questions, existing, before, stop, lines, filed, paid) && stop == |questions|
    ensures questions[..stop] == questions
    ensures run.interrupted(stop) ==> RunLeaves(run, questions, existing, before, budget, reserve, stop, true, lines, filed, paid)
    ensures !run.interrupted(stop) ==> RunLeaves(run, questions, existing, before, budget, reserve, stop, false, lines, questions, paid)
  {
    var rows := AskedRows(run, Fresh(questions[..stop], existing));
    assert rows + [] == rows;
  }

  // ----- what an interrupted run leaves on file

  /** The questions that have to be asked. */
  function Fresh(questions: seq<string>, filed: seq<string>): seq<string> {
    if questions == [] then []
    else
      var k := |questions| - 1;
      Fresh(questions[..k], filed) + if questions[k] in filed then [] else [questions[k]]
  }

  /** The file of a run that ends before question `stop`: it was last written after the last
      question that was asked, with the results up to there. */
  function Written(questions: seq<string>, filed: seq<string>, stop: nat): seq<string>
    requires stop <= |questions|
  {
    if stop == 0 then filed
    else if questions[stop - 1] in filed then Written(questions, filed, stop - 1)
    else questions[..stop]
  }

  /** The file after a run. */
  function FileAfter(questions: seq<string>, filed: seq<string>, stop: nat, stopped: bool): seq<string>
    requires stop <= |questions|
  {
    if stopped then Written(questions, filed, stop) else questions
  }

  /** Nothing that was on file is missing. */
  predicate Kept(before: seq<string>, after: seq<string>) {
    forall q :: q in before ==> q in after
  }

  /** Every question on file is listed before the first one that is not. */
  predicate FiledFirst(questions: seq<string>, filed: seq<string>) {
    forall i, j :: 0 <= i < j < |questions| && questions[i] !in filed && questions[j] in filed ==> questions[j] in questions[..i]
  }

  /** A run over these questions can be ended anywhere: all on file are listed, and listed first. */
  predicate Resumable(questions: seq<string>, filed: seq<string>) {
    Kept(filed, questions) && FiledFirst(questions, filed)
  }

  lemma FreshNext(questions: seq<string>, filed: seq<string>, i: nat)
    requires i < |questions|
    ensures Fresh(questions[..i + 1], filed) == Fresh(questions[..i], filed) + if questions[i] in filed then [] else [questions[i]]
    ensures questions[..i + 1] == questions[..i] + [questions[i]]
  {
    assert questions[..i + 1][..i] == questions[..i];
  }

  lemma {:induction false} WrittenIs(questions: seq<string>, filed: seq<string>, stop: nat) returns (i: nat)
    requires stop <= |questions|
    ensures i <= stop && (forall k :: i <= k < stop ==> questions[k] in filed)
    ensures i == 0 ==> Written(questions, filed, stop) == filed
    ensures i > 0 ==> Written(questions, filed, stop) == questions[..i] && questions[i - 1] !in filed
  {
    if stop == 0 || questions[stop - 1] !in filed {
      i := stop;
    } else {
      i := WrittenIs(questions, filed, stop - 1);
    }
  }

  /** Neither finishing a run nor ending it anywhere loses a verdict on file, exactly when all
      questions on file are listed and come before the others. */
  lemma NothingLostExactly(questions: seq<string>, filed: seq<string>)
    ensures (forall stop, stopped :: 0 <= stop <= |questions| ==> Kept(filed, FileAfter(questions, filed, stop, stopped))) <==>
            Resumable(questions, filed)
  {
    if Resumable(questions, filed) {
      forall stop, stopped | 0 <= stop <= |questions|
        ensures Kept(filed, FileAfter(questions, filed, stop, stopped))
      {
        ResumableKeeps(questions, filed, stop);
      }
    } else if !Kept(filed, questions) {
      assert FileAfter(questions, filed, 0, false) == questions;
    } else {
      var i, j :| 0 <= i < j < |questions| && questions[i] !in filed && questions[j] in filed && questions[j] !in questions[..i];
      assert FileAfter(questions, filed, i + 1, true) == questions[..i + 1];
      assert questions[..i + 1] == questions[..i] + [questions[i]];
      assert !Kept(filed, FileAfter(questions, filed, i + 1, true));
    }
  }

  lemma ResumableKeeps(questions: seq<string>, filed: seq<string>, stop: nat)
    requires Resumable(questions, filed) && stop <= |questions|
    ensures Kept(filed, Written(questions, filed, stop))
  {
    var i := WrittenIs(questions, filed, stop);
    if i > 0 {
      forall q | q in filed
        ensures q in questions[..i]
      {
        var j :| 0 <= j < |questions| && questions[j] == q;
        if j < i {
          assert questions[..i][j] == q;
        } else {
          assert q in questions[..i - 1];
          assert questions[..i] == questions[..i - 1] + [questions[i - 1]];
        }
      }
    }
  }

  /** A list narrowed for one run, and the whole list after it: the verdict on file is gone once
      the question before it is filed, and will be paid for again. */
  lemma NarrowedListLoses(a: string, b: string, c: string)
    requires a != b && b != c && a != c
    ensures !FiledFirst([a, b, c], [b])
    ensures Written([a, b, c], [b], 2) == [a]
  {
    var questions, filed := [a, b, c], [b];
    assert questions[0] == a && questions[1] == b && questions[1] in filed;
    assert questions[..0] == [];
    assert Written(questions, filed, 1) == questions[..1] == [a];
  }

  /** The narrowed run itself: it asks nothing, and what is on file for the other questions is gone
      when it ends. */
  lemma NarrowedListDrops(a: string, b: string, c: string)
    requires a != b && b != c && a != c
    ensures FiledFirst([b], [a, b, c]) && Fresh([b], [a, b, c]) == []
    ensures FileAfter([b], [a, b, c], 1, false) == [b] && !Kept([a, b, c], [b])
  {
    assert [b][0] in [a, b, c];
    NoneFresh([b], [a, b, c]);
    assert a in [a, b, c] && a !in [b];
  }

  // ----- runs over one list

  lemma {:induction false} NoneFresh(questions: seq<string>, filed: seq<string>)
    requires forall i :: 0 <= i < |questions| ==> questions[i] in filed
    ensures Fresh(questions, filed) == []
  {
    if questions == [] {
    } else {
      NoneFresh(questions[..|questions| - 1], filed);
    }
  }

  lemma {:induction false} FreshSplits(questions: seq<string>, i: nat, filed: seq<string>)
    requires i <= |questions|
    ensures |Fresh(questions, filed)| == |Fresh(questions[..i], filed)| + |Fresh(questions[i..], filed)|
    decreases |questions| - i
  {
    if i == |questions| {
      assert questions[..i] == questions && questions[i..] == [];
    } else {
      var k := |questions| - 1;
      FreshSplits(questions[..k], i, filed);
      assert questions[..k][..i] == questions[..i] && questions[i..][..k - i] == questions[..k][i..];
      assert questions[i..][k - i] == questions[k];
    }
  }

  lemma {:induction false} FreshSame(questions: seq<string>, x: seq<string>, y: seq<string>)
    requires forall q :: q in questions ==> (q in x <==> q in y)
    ensures Fresh(questions, x) == Fresh(questions, y)
  {
    if questions == [] {
    } else {
      var k := |questions| - 1;
      assert forall q :: q in questions[..k] ==> q in questions;
      FreshSame(questions[..k], x, y);
      assert questions[k] in questions;
    }
  }

  lemma PrefixFiledFirst(questions: seq<string>, i: nat)
    requires i <= |questions|
    ensures FiledFirst(questions, questions[..i])
  {
    forall m, n | 0 <= m < n < |questions| && questions[m] !in questions[..i] && questions[n] in questions[..i]
      ensures questions[n] in questions[..m]
    {
      assert i <= m by {
        assert forall x :: 0 <= x < i ==> questions[..i][x] == questions[x];
      }
      var k :| 0 <= k < i && questions[..i][k] == questions[n];
      assert questions[..m][k] == questions[n];
    }
  }

  /** One more run over the list: nothing on file is lost, and what is newly on file was asked. */
  lemma RunProgress(questions: seq<string>, before: seq<string>, after: seq<string>, stop: nat, stopped: bool)
    requires NoRepeats(questions) && Resumable(questions, before) && stop <= |questions|
    requires after == FileAfter(questions, before, stop, stopped)
    requires !stopped ==> stop == |questions|
    ensures Kept(before, after) && Resumable(questions, after)
    ensures !stopped ==> Fresh(questions, after) == []
    ensures |Fresh(questions, before)| - |Fresh(questions, after)| == |Fresh(questions[..stop], before)|
  {
    var i := if stopped then 0 else |questions|;
    if stopped {
      i := WrittenIs(questions, before, stop);
      ResumableKeeps(questions, before, stop);
    }
    if stopped && i == 0 {
      NoneFresh(questions[..stop], before);
    } else {
      assert after == questions[..i] by {
        assert questions[..|questions|] == questions;
      }
      PrefixFiledFirst(questions, i);
      PrefixProgress(questions, before, i, stop);
      if !stopped {
        NoneFresh(questions, after);
      }
    }
  }

  lemma PrefixProgress(questions: seq<string>, before: seq<string>, i: nat, stop: nat)
    requires NoRepeats(questions) && i <= stop <= |questions|
    requires forall k :: i <= k < stop ==> questions[k] in before
    requires Kept(before, questions[..i])
    ensures |Fresh(questions, before)| - |Fresh(questions, questions[..i])| == |Fresh(questions[..stop], before)|
  {
    var after := questions[..i];
    if i < stop {
      NotBefore(questions, i, i);
    }
    assert i == stop;
    FreshSplits(questions, stop, before);
    FreshSplits(questions, stop, after);
    NoneFresh(questions[..stop], after);
    forall q | q in questions[stop..]
      ensures q !in before && q !in after
    {
      var k :| 0 <= k < |questions| - stop && questions[stop..][k] == q;
      NotBefore(questions, i, stop + k);
    }
    FreshSame(questions[stop..], before, after);
  }

  lemma NotBefore(questions: seq<string>, i: nat, k: nat)
    requires NoRepeats(questions) && i <= k < |questions|
    ensures questions[k] in questions && questions[k] !in questions[..i]
  {
    assert forall m :: 0 <= m < i ==> questions[..i][m] == questions[m];
  }
}
