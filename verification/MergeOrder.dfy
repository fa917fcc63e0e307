/** When the order in which a merge meets the entries matters: for each question, and for the round. */
module MergeOrder {
  import opened Collections
  import opened MergeShards

  // ----- counting a question's entries

  function Errors(w: seq<Scored>): nat {
    if w == [] then 0 else (if IsError(w[0].entry) then 1 else 0) + Errors(w[1..])
  }

  function Successes(w: seq<Scored>): nat {
    if w == [] then 0 else (if IsError(w[0].entry) then 0 else 1) + Successes(w[1..])
  }

  lemma {:induction false} EveryEntryCounts(w: seq<Scored>)
    ensures Errors(w) + Successes(w) == |w|
  {
    if w == [] {
    } else {
      EveryEntryCounts(w[1..]);
    }
  }

  lemma {:induction false} CountsWithout(w: seq<Scored>, i: nat)
    requires i < |w|
    ensures Errors(w) == Errors(Removed(w, i)) + if IsError(w[i].entry) then 1 else 0
    ensures Successes(w) == Successes(Removed(w, i)) + if IsError(w[i].entry) then 0 else 1
  {
    var rest := Removed(w, i);
    if i == 0 {
      assert rest == w[1..];
    } else {
      CountsWithout(w[1..], i - 1);
      assert rest[0] == w[0] && rest[1..] == Removed(w[1..], i - 1);
    }
  }

  lemma {:induction false} CountsOfPermuted(v: seq<Scored>, w: seq<Scored>)
    requires multiset(v) == multiset(w)
    ensures Errors(v) == Errors(w) && Successes(v) == Successes(w)
    decreases |v|
  {
    PermutedSize(v, w);
    if v == [] {
      assert w == [];
    } else {
      assert v[0] in multiset(w);
      var j :| 0 <= j < |w| && w[j] == v[0];
      RestsPermuted(v, w, 0, j);
      CountsOfPermuted(Removed(v, 0), Removed(w, j));
      CountsWithout(v, 0);
      CountsWithout(w, j);
    }
  }

  lemma {:induction false} NoSuccesses(w: seq<Scored>)
    ensures Successes(w) == 0 <==> AllErrors(w)
  {
    if w == [] {
    } else {
      NoSuccesses(w[1..]);
      assert forall i :: 0 < i < |w| ==> w[i] == w[1..][i - 1];
      assert AllErrors(w) <==> IsError(w[0].entry) && AllErrors(w[1..]);
    }
  }

  lemma TailSuccesses(w: seq<Scored>)
    ensures |w| >= 1 ==> (AllErrors(w[1..]) <==> Successes(w) == if IsError(w[0].entry) then 0 else 1)
    ensures |w| >= 2 && IsError(w[0].entry) ==> (AllErrors(w[2..]) <==> Successes(w) == if IsError(w[1].entry) then 0 else 1)
  {
    if |w| >= 1 {
      NoSuccesses(w[1..]);
    }
    if |w| >= 2 {
      assert w[1..][1..] == w[2..] && w[1..][0] == w[1];
      NoSuccesses(w[2..]);
    }
  }

  /** An accepted word has one success, or a single error and nothing else. */
  lemma AcceptedCounts(w: seq<Scored>)
    requires Accepted(w, true)
    ensures Successes(w) == 1 || (Successes(w) == 0 && Errors(w) == 1)
  {
    EveryEntryCounts(w);
    TailSuccesses(w);
    NoSuccesses(w);
  }

  /** At most one error and one success are accepted in either order. */
  lemma FewAreAccepted(w: seq<Scored>)
    requires Errors(w) <= 1 && Successes(w) <= 1 && w != []
    ensures Accepted(w, true)
  {
    EveryEntryCounts(w);
    TailSuccesses(w);
    NoSuccesses(w);
    if |w| == 2 {
      assert w[2..] == [];
    }
  }

  // ----- one question

  /** One success among several errors: where it stands decides. */
  predicate Contested(w: seq<Scored>) {
    Successes(w) == 1 && Errors(w) >= 2
  }

  predicate Alike(v: seq<Scored>, w: seq<Scored>, allow: bool)
    requires v != [] && w != []
  {
    && (Accepted(v, allow) <==> Accepted(w, allow))
    && (Accepted(w, allow) ==> Kept(v) == Kept(w))
  }

  ghost predicate OrderFree(w: seq<Scored>, allow: bool)
    requires w != []
  {
    forall v :: v != [] && multiset(v) == multiset(w) ==> Alike(v, w, allow)
  }

  lemma {:induction false} OneSuccess(w: seq<Scored>, x: Scored, y: Scored)
    requires Successes(w) <= 1 && x in w && y in w && !IsError(x.entry) && !IsError(y.entry)
    ensures x == y
  {
    assert forall z :: z in w ==> z == w[0] || z in w[1..];
    if IsError(w[0].entry) {
      OneSuccess(w[1..], x, y);
    } else {
      NoSuccesses(w[1..]);
      assert forall z :: z in w[1..] ==> IsError(z.entry);
    }
  }

  lemma KeptSuccess(w: seq<Scored>) returns (x: Scored)
    requires Accepted(w, true) && Successes(w) == 1
    ensures x in w && !IsError(x.entry) && x.entry == Kept(w)
  {
    if |w| >= 2 {
      KeptIsScored(w);
      x := if IsError(w[0].entry) then w[1] else w[0];
    } else {
      x := w[0];
      assert w[1..] == [];
    }
  }

  lemma AcceptedAlike(v: seq<Scored>, w: seq<Scored>)
    requires multiset(v) == multiset(w) && Accepted(v, true) && Accepted(w, true)
    ensures Kept(v) == Kept(w)
  {
    PermutedSize(v, w);
    CountsOfPermuted(v, w);
    AcceptedCounts(w);
    if Successes(w) == 1 {
      var x := KeptSuccess(v);
      var y := KeptSuccess(w);
      assert x in multiset(w);
      OneSuccess(w, x, y);
    } else {
      EveryEntryCounts(w);
      assert v == [v[0]] && w == [w[0]];
      assert v[0] in multiset(w);
    }
  }

  lemma UncontestedAlike(v: seq<Scored>, w: seq<Scored>, allow: bool)
    requires v != [] && w != [] && multiset(v) == multiset(w) && !(allow && Contested(w))
    ensures Alike(v, w, allow)
  {
    PermutedSize(v, w);
    CountsOfPermuted(v, w);
    if !allow {
      if |w| == 1 {
        assert v == [v[0]] && w == [w[0]] && v[0] in multiset(w);
      }
    } else {
      if Accepted(v, true) || Accepted(w, true) {
        EitherAccepted(v, w);
        AcceptedAlike(v, w);
      }
    }
  }

  lemma EitherAccepted(v: seq<Scored>, w: seq<Scored>)
    requires v != [] && w != [] && Errors(v) == Errors(w) && Successes(v) == Successes(w) && !Contested(w)
    requires Accepted(v, true) || Accepted(w, true)
    ensures Accepted(v, true) && Accepted(w, true)
  {
    if Accepted(v, true) {
      AcceptedCounts(v);
    } else {
      AcceptedCounts(w);
    }
    FewAreAccepted(v);
    FewAreAccepted(w);
  }

  lemma {:induction false} SuccessPosition(w: seq<Scored>) returns (i: nat)
    requires Successes(w) > 0
    ensures i < |w| && !IsError(w[i].entry)
  {
    if !IsError(w[0].entry) {
      i := 0;
    } else {
      i := SuccessPosition(w[1..]);
      i := i + 1;
    }
  }

  /** A contested word has an order that is accepted and one that is not. */
  lemma ContestedBothWays(w: seq<Scored>) returns (first: seq<Scored>, last: seq<Scored>)
    requires Contested(w)
    ensures multiset(first) == multiset(w) == multiset(last)
    ensures Accepted(first, true) && !Accepted(last, true)
  {
    var i := SuccessPosition(w);
    var rest := Removed(w, i);
    CountsWithout(w, i);
    NoSuccesses(rest);
    EveryEntryCounts(rest);
    RemovedCounts(w, i);
    first, last := [w[i]] + rest, rest + [w[i]];
    assert first[1..] == rest;
    assert last[0] == rest[0] && last[1] == rest[1];
  }

  /** The order of a question's entries matters exactly under supersession, when one success
      stands among two or more errors. */
  lemma OrderMattersExactly(w: seq<Scored>, allow: bool)
    requires w != []
    ensures OrderFree(w, allow) <==> !(allow && Contested(w))
  {
    if allow && Contested(w) {
      var first, last := ContestedBothWays(w);
      PermutedSize(first, w);
      PermutedSize(last, w);
      assert !Alike(first, w, allow) || !Alike(last, w, allow);
    } else {
      forall v | v != [] && multiset(v) == multiset(w)
        ensures Alike(v, w, allow)
      {
        UncontestedAlike(v, w, allow);
      }
    }
  }

  // ----- the round

  lemma {:induction false} WordCounts(scored: seq<Scored>, id: string, x: Scored)
    ensures multiset(Word(scored, id))[x] == if x.entry.id == id then multiset(scored)[x] else 0
  {
    if scored == [] {
    } else {
      var k := |scored| - 1;
      WordCounts(scored[..k], id, x);
      assert scored == scored[..k] + [scored[k]];
    }
  }

  lemma WordsPermuted(p: seq<Scored>, q: seq<Scored>, id: string)
    requires multiset(p) == multiset(q)
    ensures multiset(Word(p, id)) == multiset(Word(q, id))
  {
    forall x: Scored
      ensures multiset(Word(p, id))[x] == multiset(Word(q, id))[x]
    {
      WordCounts(p, id, x);
      WordCounts(q, id, x);
    }
  }

  /** The same questions are refused, and if none is the same results are kept. */
  predicate SameMerge(p: seq<Scored>, q: seq<Scored>, allow: bool) {
    && Run(p, allow).duplicates == Run(q, allow).duplicates
    && (Run(q, allow).duplicates == {} ==> Run(p, allow).merged == Run(q, allow).merged)
  }

  ghost predicate RoundOrderFree(scored: seq<Scored>, allow: bool) {
    forall p :: multiset(p) == multiset(scored) ==> SameMerge(p, scored, allow)
  }

  lemma UncontestedMerge(p: seq<Scored>, q: seq<Scored>, allow: bool)
    requires multiset(p) == multiset(q) && forall id :: !(allow && Contested(Word(q, id)))
    ensures SameMerge(p, q, allow)
  {
    forall id
      ensures id in Run(p, allow).duplicates <==> id in Run(q, allow).duplicates
      ensures id in Run(p, allow).merged <==> id in Run(q, allow).merged
      ensures id in Run(q, allow).merged && id !in Run(q, allow).duplicates ==> Run(p, allow).merged[id] == Run(q, allow).merged[id]
    {
      UncontestedQuestion(p, q, allow, id);
    }
  }

  lemma UncontestedQuestion(p: seq<Scored>, q: seq<Scored>, allow: bool, id: string)
    requires multiset(p) == multiset(q) && !(allow && Contested(Word(q, id)))
    ensures id in Run(p, allow).duplicates <==> id in Run(q, allow).duplicates
    ensures id in Run(p, allow).merged <==> id in Run(q, allow).merged
    ensures id in Run(q, allow).merged && id !in Run(q, allow).duplicates ==> Run(p, allow).merged[id] == Run(q, allow).merged[id]
  {
    FoldReadsTheWord(p, allow, id);
    FoldReadsTheWord(q, allow, id);
    WordsPermuted(p, q, id);
    PermutedSize(Word(p, id), Word(q, id));
    if Word(q, id) != [] {
      UncontestedAlike(Word(p, id), Word(q, id), allow);
    }
  }

  /** The entries of the other questions. */
  function Others(scored: seq<Scored>, id: string): seq<Scored> {
    if scored == [] then []
    else
      var k := |scored| - 1;
      Others(scored[..k], id) + (if scored[k].entry.id == id then [] else [scored[k]])
  }

  lemma {:induction false} OthersCounts(scored: seq<Scored>, id: string, x: Scored)
    ensures multiset(Others(scored, id))[x] == if x.entry.id == id then 0 else multiset(scored)[x]
  {
    if scored == [] {
    } else {
      var k := |scored| - 1;
      OthersCounts(scored[..k], id, x);
      assert scored == scored[..k] + [scored[k]];
    }
  }

  lemma WordAndOthers(scored: seq<Scored>, id: string)
    ensures multiset(scored) == multiset(Word(scored, id)) + multiset(Others(scored, id))
  {
    forall x: Scored
      ensures multiset(scored)[x] == (multiset(Word(scored, id)) + multiset(Others(scored, id)))[x]
    {
      WordCounts(scored, id, x);
      OthersCounts(scored, id, x);
    }
  }

  predicate AllOf(w: seq<Scored>, id: string) {
    forall i :: 0 <= i < |w| ==> w[i].entry.id == id
  }

  predicate NoneOf(w: seq<Scored>, id: string) {
    forall i :: 0 <= i < |w| ==> w[i].entry.id != id
  }

  lemma {:induction false} WordIsOfOne(scored: seq<Scored>, id: string)
    ensures AllOf(Word(scored, id), id) && NoneOf(Others(scored, id), id)
  {
    if scored == [] {
    } else {
      WordIsOfOne(scored[..|scored| - 1], id);
    }
  }

  lemma {:induction false} WordOfItself(w: seq<Scored>, id: string)
    requires AllOf(w, id)
    ensures Word(w, id) == w
  {
    if w == [] {
    } else {
      var k := |w| - 1;
      WordOfItself(w[..k], id);
      assert w == w[..k] + [w[k]];
    }
  }

  lemma {:induction false} WordOfJoined(w: seq<Scored>, rest: seq<Scored>, id: string)
    requires AllOf(w, id) && NoneOf(rest, id)
    ensures Word(w + rest, id) == w
    decreases |rest|
  {
    var all := w + rest;
    if rest == [] {
      assert all == w;
      WordOfItself(w, id);
    } else {
      var k := |rest| - 1;
      assert all[..|all| - 1] == w + rest[..k] && all[|all| - 1] == rest[k];
      WordOfJoined(w, rest[..k], id);
      assert w + [] == w;
    }
  }

  lemma Rearranged(scored: seq<Scored>, id: string, w: seq<Scored>)
    requires multiset(w) == multiset(Word(scored, id))
    ensures multiset(w + Others(scored, id)) == multiset(scored) && Word(w + Others(scored, id), id) == w
  {
    WordAndOthers(scored, id);
    WordIsOfOne(scored, id);
    forall i | 0 <= i < |w|
      ensures w[i].entry.id == id
    {
      assert w[i] in multiset(Word(scored, id));
    }
    WordOfJoined(w, Others(scored, id), id);
  }

  lemma ContestedMerge(scored: seq<Scored>, allow: bool, id: string)
    requires allow && Contested(Word(scored, id))
    ensures !RoundOrderFree(scored, allow)
  {
    var first, last := ContestedBothWays(Word(scored, id));
    Rearranged(scored, id, first);
    Rearranged(scored, id, last);
    PermutedSize(last, Word(scored, id));
    var p, q := first + Others(scored, id), last + Others(scored, id);
    FoldReadsTheWord(p, allow, id);
    FoldReadsTheWord(q, allow, id);
    assert !(SameMerge(p, scored, allow) && SameMerge(q, scored, allow));
  }

  ghost predicate SomeContested(scored: seq<Scored>) {
    exists id :: Contested(Word(scored, id))
  }

  /** The order in which single entries are met matters to a merge exactly under supersession, when
      some question has one success among two or more errors. */
  lemma RoundOrderMattersExactly(scored: seq<Scored>, allow: bool)
    ensures RoundOrderFree(scored, allow) <==> !(allow && SomeContested(scored))
  {
    if allow && SomeContested(scored) {
      var id :| Contested(Word(scored, id));
      ContestedMerge(scored, allow, id);
    } else {
      forall p | multiset(p) == multiset(scored)
        ensures SameMerge(p, scored, allow)
      {
        UncontestedMerge(p, scored, allow);
      }
    }
  }

  /** For one: the same three entries are merged in one order and refused in another. */
  lemma SupersessionDependsOnOrder(e: Scored, d: Scored)
    requires e.entry.id == d.entry.id && IsError(e.entry) && !IsError(d.entry)
    ensures Run([e, d, e], true).duplicates == {}
    ensures Run([e, e, d], true).duplicates == {d.entry.id}
  {
    assert [e, d, e][..2] == [e, d] && [e, d][..1] == [e] && [e][..0] == [];
    assert [e, e, d][..2] == [e, e] && [e, e][..1] == [e];
    assert Run([e], true) == Step(START, e.entry, e.source, true);
    assert Run([e, d], true) == Step(Run([e], true), d.entry, d.source, true);
    assert Run([e, e], true) == Step(Run([e], true), e.entry, e.source, true);
  }
}
