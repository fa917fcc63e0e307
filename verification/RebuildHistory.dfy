/** Whole histories of the rebuild command: any number of starts against a fixed store, each
    ending wherever it ended, with the next one finding what the last one left. */
module RebuildHistory {
  import opened Collections
  import opened RebuildIndex

  datatype Run = Run(exposure: nat, finished: bool)

  /** `states[i]` is what run `i` finds and `states[i + 1]` what it leaves. */
  ghost predicate History(states: seq<Durable>, runs: seq<Run>, chunks: seq<Id>, version: string) {
    && |states| == |runs| + 1
    && forall i :: 0 <= i < |runs| ==> RunEffect(states[i], states[i + 1], chunks, version, runs[i].exposure, runs[i].finished)
  }

  /** Everything the file lists is in the index. */
  ghost predicate Safe(s: Durable) {
    Recorded(s.checkpoint) <= s.index
  }

  lemma RunKeepsSafe(pre: Durable, post: Durable, chunks: seq<Id>, version: string, exposure: nat, finished: bool)
    requires Safe(pre) && RunEffect(pre, post, chunks, version, exposure, finished)
    ensures Safe(post)
  {
    var credited :| RunCredits(pre, post, chunks, version, exposure, finished, credited);
  }

  /** Crash safety: whatever the runs went through, the checkpoint never claims a chunk the
      index does not hold. */
  lemma {:induction false} CheckpointIsAlwaysIndexed(states: seq<Durable>, runs: seq<Run>, chunks: seq<Id>, version: string, i: nat)
    requires History(states, runs, chunks, version) && Safe(states[0]) && i < |states|
    ensures Safe(states[i])
  {
    if i == 0 {
    } else {
      CheckpointIsAlwaysIndexed(states, runs, chunks, version, i - 1);
      RunKeepsSafe(states[i - 1], states[i], chunks, version, runs[i - 1].exposure, runs[i - 1].finished);
    }
  }

  /** A finished run leaves every ready chunk both indexed and checkpointed. */
  lemma FinishedMeansComplete(states: seq<Durable>, runs: seq<Run>, chunks: seq<Id>, version: string, i: nat)
    requires History(states, runs, chunks, version) && Safe(states[0])
    requires i < |runs| && runs[i].finished
    ensures Elements(chunks) <= Recorded(states[i + 1].checkpoint)
    ensures Elements(chunks) <= states[i + 1].index
  {
    CheckpointIsAlwaysIndexed(states, runs, chunks, version, i + 1);
    var credited :| RunCredits(states[i], states[i + 1], chunks, version, runs[i].exposure, runs[i].finished, credited);
  }

  // ----- nothing recorded is paid for again

  /** What the file lists stays listed, or the file is unreadable for good. */
  lemma {:induction false} RecordsPersist(states: seq<Durable>, runs: seq<Run>, chunks: seq<Id>, version: string, i: nat, j: nat)
    requires History(states, runs, chunks, version) && i <= j < |states|
    ensures Recorded(states[i].checkpoint) <= Recorded(states[j].checkpoint) || states[j].checkpoint.Torn?
    ensures states[i].checkpoint.Torn? ==> states[j] == states[i]
  {
    if i < j {
      RecordsPersist(states, runs, chunks, version, i, j - 1);
      assert RunEffect(states[j - 1], states[j], chunks, version, runs[j - 1].exposure, runs[j - 1].finished);
      var credited :| RunCredits(states[j - 1], states[j], chunks, version, runs[j - 1].exposure, runs[j - 1].finished, credited);
    }
  }

  lemma {:induction false} LogGrows(states: seq<Durable>, runs: seq<Run>, chunks: seq<Id>, version: string, i: nat, j: nat)
    requires History(states, runs, chunks, version) && i <= j < |states|
    ensures states[i].log <= states[j].log
  {
    if i < j {
      LogGrows(states, runs, chunks, version, i, j - 1);
      assert RunEffect(states[j - 1], states[j], chunks, version, runs[j - 1].exposure, runs[j - 1].finished);
    }
  }

  lemma RunPaysForPending(pre: Durable, post: Durable, chunks: seq<Id>, version: string, exposure: nat, finished: bool)
    requires RunEffect(pre, post, chunks, version, exposure, finished)
    ensures pre.log <= post.log
    ensures forall id :: id in post.log[|pre.log|..] ==> id in chunks && id !in Recorded(pre.checkpoint)
    ensures pre.checkpoint.Torn? ==> post.log == pre.log
  {
    var pending := Pending(chunks, Recorded(pre.checkpoint));
    PendingMembers(chunks, Recorded(pre.checkpoint));
    var paid := |post.log| - |pre.log|;
    assert post.log[|pre.log|..] == pending[..paid];
  }

  /** A chunk the checkpoint lists is never embedded again, in any later run. */
  lemma {:induction false} CheckpointedIsNeverPaidAgain(states: seq<Durable>, runs: seq<Run>, chunks: seq<Id>, version: string, i: nat, j: nat, id: Id)
    requires History(states, runs, chunks, version) && i <= j < |states|
    requires id in Recorded(states[i].checkpoint)
    ensures states[i].log <= states[j].log
    ensures id !in states[j].log[|states[i].log|..]
  {
    LogGrows(states, runs, chunks, version, i, j);
    if i < j {
      CheckpointedIsNeverPaidAgain(states, runs, chunks, version, i, j - 1, id);
      RecordsPersist(states, runs, chunks, version, i, j - 1);
      RunSkips(states[j - 1], states[j], chunks, version, runs[j - 1], id);
      SuffixSplits(states[i].log, states[j - 1].log, states[j].log, id);
    }
  }

  lemma RunSkips(pre: Durable, post: Durable, chunks: seq<Id>, version: string, run: Run, id: Id)
    requires RunEffect(pre, post, chunks, version, run.exposure, run.finished)
    requires id in Recorded(pre.checkpoint) || pre.checkpoint.Torn?
    ensures pre.log <= post.log && id !in post.log[|pre.log|..]
  {
    RunPaysForPending(pre, post, chunks, version, run.exposure, run.finished);
  }

  lemma SuffixSplits(a: seq<Id>, b: seq<Id>, c: seq<Id>, id: Id)
    requires a <= b <= c
    ensures id in c[|a|..] ==> id in b[|a|..] || id in c[|b|..]
  {
    assert c[|a|..] == b[|a|..] + c[|b|..];
  }

  // ----- the bill

  /** Total exposure of the runs that did not finish. */
  function Wasted(runs: seq<Run>): nat {
    if runs == [] then 0
    else Wasted(runs[..|runs| - 1]) + (if runs[|runs| - 1].finished then 0 else runs[|runs| - 1].exposure)
  }

  function Interruptions(runs: seq<Run>): nat {
    if runs == [] then 0
    else Interruptions(runs[..|runs| - 1]) + (if runs[|runs| - 1].finished then 0 else 1)
  }

  /** All chunks credited so far; every embedding beyond them was wasted by an interruption. */
  lemma {:induction false} CreditedSoFar(states: seq<Durable>, runs: seq<Run>, chunks: seq<Id>, version: string) returns (credited: set<Id>)
    requires History(states, runs, chunks, version)
    ensures credited <= Elements(chunks)
    ensures var last := states[|runs|];
            && (!last.checkpoint.Torn? ==> credited <= Recorded(last.checkpoint))
            && |states[0].log| <= |last.log| <= |states[0].log| + |credited| + Wasted(runs)
    decreases |runs|
  {
    if runs == [] {
      credited := {};
    } else {
      var k := |runs| - 1;
      var before := CreditedSoFar(states[..k + 1], runs[..k], chunks, version);
      var pre, post := states[k], states[k + 1];
      assert RunEffect(pre, post, chunks, version, runs[k].exposure, runs[k].finished);
      if pre.checkpoint.Torn? {
        credited := before;
      } else {
        var now :| RunCredits(pre, post, chunks, version, runs[k].exposure, runs[k].finished, now);
        credited := before + now;
        DisjointSize(before, now);
      }
    }
  }

  lemma {:induction false} WastedBound(runs: seq<Run>, exposure: nat)
    requires forall r :: r in runs ==> r.exposure <= exposure
    ensures Wasted(runs) <= Interruptions(runs) * exposure
  {
    if runs == [] {
    } else {
      var k := |runs| - 1;
      assert runs[k] in runs;
      WastedBound(runs[..k], exposure);
      assert (Interruptions(runs[..k]) + 1) * exposure == Interruptions(runs[..k]) * exposure + exposure;
    }
  }

  /** The bill of a whole history: at most one embedding per ready chunk, plus at most one
      window for every run that did not finish. */
  lemma EmbeddingsAreBounded(states: seq<Durable>, runs: seq<Run>, chunks: seq<Id>, version: string, chunksPerBatch: nat, concurrency: nat)
    requires History(states, runs, chunks, version) && NoRepeats(chunks)
    requires forall r :: r in runs ==> r.exposure <= chunksPerBatch * concurrency
    ensures |states[|runs|].log| - |states[0].log| <= |chunks| + Interruptions(runs) * (chunksPerBatch * concurrency)
  {
    var credited := CreditedSoFar(states, runs, chunks, version);
    SizeOfDistinct(chunks);
    SubsetSize(credited, Elements(chunks));
    WastedBound(runs, chunksPerBatch * concurrency);
  }
}
