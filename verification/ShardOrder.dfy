/** When the order of whole shards matters: a merge meets each shard's entries together, so only
    the place of the shard that scored a question can move. */
module ShardOrder {
  import opened Collections
  import opened MergeShards
  import opened MergeOrder

  // ----- words of joined shards

  lemma {:induction false} WordConcat(x: seq<Scored>, y: seq<Scored>, id: string)
    ensures Word(x + y, id) == Word(x, id) + Word(y, id)
  {
    if y == [] {
      assert x + y == x;
    } else {
      var k := |y| - 1;
      assert (x + y)[..|x| + k] == x + y[..k];
      WordConcat(x, y[..k], id);
    }
  }

  lemma {:induction false} AllScoredConcat(x: seq<Shard>, y: seq<Shard>)
    ensures AllScored(x + y) == AllScored(x) + AllScored(y)
  {
    if y == [] {
      assert x + y == x;
    } else {
      var k := |y| - 1;
      assert (x + y)[..|x| + k] == x + y[..k];
      AllScoredConcat(x, y[..k]);
      assert (x + y)[|x| + k] == y[k];
      Associative(AllScored(x), AllScored(y[..k]), Tag(y[k]));
    }
  }

  lemma AllScoredAround(before: seq<Shard>, s: Shard, after: seq<Shard>)
    ensures AllScored(before + [s] + after) == AllScored(before) + Tag(s) + AllScored(after)
  {
    AllScoredConcat(before + [s], after);
    assert (before + [s])[..|before|] == before;
  }

  lemma {:induction false} CountsConcat(v: seq<Scored>, w: seq<Scored>)
    ensures Errors(v + w) == Errors(v) + Errors(w) && Successes(v + w) == Successes(v) + Successes(w)
  {
    if v == [] {
      assert v + w == w;
    } else {
      assert (v + w)[1..] == v[1..] + w;
      CountsConcat(v[1..], w);
    }
  }

  /** The errors met before the first success. */
  function ErrorsBefore(w: seq<Scored>): nat {
    if w == [] || !IsError(w[0].entry) then 0 else 1 + ErrorsBefore(w[1..])
  }

  lemma {:induction false} ErrorsBeforeConcat(v: seq<Scored>, w: seq<Scored>)
    ensures ErrorsBefore(v + w) == if Successes(v) > 0 then ErrorsBefore(v) else Errors(v) + ErrorsBefore(w)
  {
    if v == [] {
      assert v + w == w;
    } else {
      assert (v + w)[1..] == v[1..] + w;
      ErrorsBeforeConcat(v[1..], w);
    }
  }

  lemma {:induction false} ErrorsBeforeAtMost(w: seq<Scored>)
    ensures ErrorsBefore(w) <= Errors(w)
  {
    if w == [] {
    } else {
      ErrorsBeforeAtMost(w[1..]);
    }
  }

  /** With one success, a word is accepted exactly when at most one error precedes it. */
  lemma OneSuccessAccepted(w: seq<Scored>)
    requires Successes(w) == 1
    ensures Accepted(w, true) <==> ErrorsBefore(w) <= 1
  {
    EveryEntryCounts(w);
    TailSuccesses(w);
    NoSuccesses(w);
    if |w| >= 2 {
      assert w[1..][0] == w[1];
    }
  }

  /** The word of one question in one shard. */
  function WordIn(s: Shard, id: string): seq<Scored> {
    Word(Tag(s), id)
  }

  lemma WordAround(before: seq<Shard>, s: Shard, after: seq<Shard>, id: string)
    ensures Word(AllScored(before + [s] + after), id) == Word(AllScored(before), id) + WordIn(s, id) + Word(AllScored(after), id)
  {
    AllScoredAround(before, s, after);
    WordConcat(AllScored(before) + Tag(s), AllScored(after), id);
    WordConcat(AllScored(before), Tag(s), id);
  }

  // ----- one question

  /** The errors of a question in the shards other than `s`. */
  function Elsewhere(shards: seq<Shard>, s: Shard, id: string): int {
    Errors(Word(AllScored(shards), id)) - Errors(WordIn(s, id))
  }

  /** The only success of a question is in `s`, at most one error of `s` precedes it, and with the
      other shards' errors in front there would be two. */
  predicate ContestedAt(shards: seq<Shard>, s: Shard, id: string) {
    && s in shards && Successes(WordIn(s, id)) == 1 == Successes(Word(AllScored(shards), id))
    && ErrorsBefore(WordIn(s, id)) <= 1
    && ErrorsBefore(WordIn(s, id)) + Elsewhere(shards, s, id) >= 2
  }

  lemma SuccessAround(before: seq<Shard>, s: Shard, after: seq<Shard>, id: string)
    requires var w := Word(AllScored(before + [s] + after), id);
             Successes(w) == 1 == Successes(WordIn(s, id))
    ensures var w := Word(AllScored(before + [s] + after), id);
            ErrorsBefore(w) == Errors(Word(AllScored(before), id)) + ErrorsBefore(WordIn(s, id))
    ensures Errors(Word(AllScored(before), id)) + Errors(Word(AllScored(after), id)) == Elsewhere(before + [s] + after, s, id)
  {
    var x, y, z := Word(AllScored(before), id), WordIn(s, id), Word(AllScored(after), id);
    WordAround(before, s, after, id);
    CountsConcat(x + y, z);
    CountsConcat(x, y);
    ErrorsBeforeConcat(x + y, z);
    ErrorsBeforeConcat(x, y);
  }

  lemma {:induction false} SuccessInAShard(shards: seq<Shard>, id: string) returns (k: nat)
    requires Successes(Word(AllScored(shards), id)) == 1
    ensures k < |shards| && Successes(WordIn(shards[k], id)) == 1
    decreases |shards|
  {
    if shards == [] {
      assert false;
    } else {
      var m := |shards| - 1;
      WordConcat(AllScored(shards[..m]), Tag(shards[m]), id);
      CountsConcat(Word(AllScored(shards[..m]), id), WordIn(shards[m], id));
      if Successes(WordIn(shards[m], id)) == 1 {
        k := m;
      } else {
        k := SuccessInAShard(shards[..m], id);
      }
    }
  }

  // ----- permuted shards

  lemma {:induction false} AllScoredPermuted(p: seq<Shard>, q: seq<Shard>)
    requires multiset(p) == multiset(q)
    ensures multiset(AllScored(p)) == multiset(AllScored(q))
    decreases |p|
  {
    PermutedSize(p, q);
    if p == [] {
      assert q == [];
    } else {
      assert p[0] in multiset(q);
      var j :| 0 <= j < |q| && q[j] == p[0];
      RestsPermuted(p, q, 0, j);
      AllScoredPermuted(Removed(p, 0), Removed(q, j));
      AllScoredWithout(p, 0);
      AllScoredWithout(q, j);
    }
  }

  lemma AllScoredWithout(p: seq<Shard>, i: nat)
    requires i < |p|
    ensures multiset(AllScored(p)) == multiset(AllScored(Removed(p, i))) + multiset(Tag(p[i]))
  {
    var before, after := Around(p, i);
    CountsAround(before, p[i], after);
  }

  lemma Around(p: seq<Shard>, i: nat) returns (before: seq<Shard>, after: seq<Shard>)
    requires i < |p|
    ensures p == before + [p[i]] + after && Removed(p, i) == before + after
  {
    before, after := p[..i], p[i + 1..];
  }

  lemma CountsAround(before: seq<Shard>, s: Shard, after: seq<Shard>)
    ensures multiset(AllScored(before + [s] + after)) == multiset(AllScored(before + after)) + multiset(Tag(s))
  {
    AllScoredAround(before, s, after);
    AllScoredConcat(before, after);
  }

  lemma WordsOfPermuted(p: seq<Shard>, q: seq<Shard>, id: string)
    requires multiset(p) == multiset(q)
    ensures var v, w := Word(AllScored(p), id), Word(AllScored(q), id);
            multiset(v) == multiset(w) && |v| == |w| && Errors(v) == Errors(w) && Successes(v) == Successes(w)
  {
    AllScoredPermuted(p, q);
    WordsPermuted(AllScored(p), AllScored(q), id);
    PermutedSize(Word(AllScored(p), id), Word(AllScored(q), id));
    CountsOfPermuted(Word(AllScored(p), id), Word(AllScored(q), id));
  }

  lemma ErrorsAround(before: seq<Shard>, s: Shard, after: seq<Shard>, q: seq<Shard>, id: string)
    requires multiset(before + [s] + after) == multiset(q)
    requires Successes(WordIn(s, id)) == 1 == Successes(Word(AllScored(q), id))
    ensures var errors := ErrorsBefore(Word(AllScored(before + [s] + after), id));
            && errors == Errors(Word(AllScored(before), id)) + ErrorsBefore(WordIn(s, id))
            && ErrorsBefore(WordIn(s, id)) <= errors <= ErrorsBefore(WordIn(s, id)) + Elsewhere(q, s, id)
            && errors + Errors(Word(AllScored(after), id)) == ErrorsBefore(WordIn(s, id)) + Elsewhere(q, s, id)
  {
    WordsOfPermuted(before + [s] + after, q, id);
    SuccessAround(before, s, after, id);
  }

  /** In every order of the shards, the errors before the only success are its own shard's and
      some of the others'. */
  lemma ErrorsInAnyOrder(p: seq<Shard>, q: seq<Shard>, s: Shard, id: string)
    requires multiset(p) == multiset(q) && s in q
    requires Successes(WordIn(s, id)) == 1 == Successes(Word(AllScored(q), id))
    ensures ErrorsBefore(WordIn(s, id)) <= ErrorsBefore(Word(AllScored(p), id)) <= ErrorsBefore(WordIn(s, id)) + Elsewhere(q, s, id)
  {
    var before, after := SplitAt(p, q, s);
    ErrorsAround(before, s, after, q, id);
  }

  lemma SplitAt(p: seq<Shard>, q: seq<Shard>, s: Shard) returns (before: seq<Shard>, after: seq<Shard>)
    requires multiset(p) == multiset(q) && s in q
    ensures p == before + [s] + after
  {
    assert s in multiset(p);
    var i :| 0 <= i < |p| && p[i] == s;
    before, after := Around(p, i);
  }

  lemma QuietQuestion(p: seq<Shard>, q: seq<Shard>, allow: bool, id: string)
    requires multiset(p) == multiset(q) && (allow ==> forall s :: s in q ==> !ContestedAt(q, s, id))
    requires Word(AllScored(q), id) != []
    ensures Word(AllScored(p), id) != [] && Alike(Word(AllScored(p), id), Word(AllScored(q), id), allow)
  {
    var v, w := Word(AllScored(p), id), Word(AllScored(q), id);
    WordsOfPermuted(p, q, id);
    if allow && Contested(w) {
      var k := SuccessInAShard(q, id);
      var s := q[k];
      assert !ContestedAt(q, s, id);
      ErrorsInAnyOrder(p, q, s, id);
      ErrorsInAnyOrder(q, q, s, id);
      OneSuccessAccepted(v);
      OneSuccessAccepted(w);
      if Accepted(w, true) {
        AcceptedAlike(v, w);
      }
    } else {
      UncontestedAlike(v, w, allow);
    }
  }

  ghost predicate ShardOrderFree(shards: seq<Shard>, allow: bool) {
    forall p :: multiset(p) == multiset(shards) ==> SameMerge(AllScored(p), AllScored(shards), allow)
  }

  ghost predicate SomeContestedShard(shards: seq<Shard>) {
    exists s, id :: ContestedAt(shards, s, id)
  }

  lemma QuietMerge(p: seq<Shard>, q: seq<Shard>, allow: bool)
    requires multiset(p) == multiset(q) && !(allow && SomeContestedShard(q))
    ensures SameMerge(AllScored(p), AllScored(q), allow)
  {
    var f, g := Run(AllScored(p), allow), Run(AllScored(q), allow);
    forall id
      ensures id in f.duplicates <==> id in g.duplicates
      ensures id in f.merged <==> id in g.merged
      ensures id in g.merged && id !in g.duplicates ==> f.merged[id] == g.merged[id]
    {
      FoldReadsTheWord(AllScored(p), allow, id);
      FoldReadsTheWord(AllScored(q), allow, id);
      WordsOfPermuted(p, q, id);
      if Word(AllScored(q), id) != [] {
        QuietQuestion(p, q, allow, id);
      }
    }
  }

  /** Putting the shard with the success first, or last, decides a contested question. */
  lemma ContestedShardBothWays(shards: seq<Shard>, s: Shard, id: string) returns (first: seq<Shard>, last: seq<Shard>)
    requires ContestedAt(shards, s, id)
    ensures multiset(first) == multiset(shards) == multiset(last)
    ensures Accepted(Word(AllScored(first), id), true) && !Accepted(Word(AllScored(last), id), true)
    ensures Word(AllScored(last), id) != []
  {
    var i :| 0 <= i < |shards| && shards[i] == s;
    var rest := Removed(shards, i);
    RemovedCounts(shards, i);
    first, last := [] + [s] + rest, rest + [s] + [];
    FirstAccepts(rest, shards, s, id);
    LastRefuses(rest, shards, s, id);
  }

  lemma FirstAccepts(rest: seq<Shard>, shards: seq<Shard>, s: Shard, id: string)
    requires ContestedAt(shards, s, id) && multiset([] + [s] + rest) == multiset(shards)
    ensures Accepted(Word(AllScored([] + [s] + rest), id), true)
  {
    ErrorsAround([], s, rest, shards, id);
    WordsOfPermuted([] + [s] + rest, shards, id);
    OneSuccessAccepted(Word(AllScored([] + [s] + rest), id));
  }

  lemma LastRefuses(rest: seq<Shard>, shards: seq<Shard>, s: Shard, id: string)
    requires ContestedAt(shards, s, id) && multiset(rest + [s] + []) == multiset(shards)
    ensures Word(AllScored(rest + [s] + []), id) != [] && !Accepted(Word(AllScored(rest + [s] + []), id), true)
  {
    ErrorsAround(rest, s, [], shards, id);
    WordsOfPermuted(rest + [s] + [], shards, id);
    OneSuccessAccepted(Word(AllScored(rest + [s] + []), id));
  }

  lemma ContestedShardMerge(shards: seq<Shard>, allow: bool, s: Shard, id: string)
    requires allow && ContestedAt(shards, s, id)
    ensures !ShardOrderFree(shards, allow)
  {
    var first, last := ContestedShardBothWays(shards, s, id);
    FoldReadsTheWord(AllScored(first), allow, id);
    FoldReadsTheWord(AllScored(last), allow, id);
    assert !(SameMerge(AllScored(first), AllScored(shards), allow) && SameMerge(AllScored(last), AllScored(shards), allow));
  }

  /** The order of the shards matters to a merge exactly under supersession, when some question's
      only success has at most one error before it in its own shard, and two or more with the errors
      of the other shards. */
  lemma ShardOrderMattersExactly(shards: seq<Shard>, allow: bool)
    ensures ShardOrderFree(shards, allow) <==> !(allow && SomeContestedShard(shards))
  {
    if allow && SomeContestedShard(shards) {
      var s, id :| ContestedAt(shards, s, id);
      ContestedShardMerge(shards, allow, s, id);
    } else {
      forall p | multiset(p) == multiset(shards)
        ensures SameMerge(AllScored(p), AllScored(shards), allow)
      {
        QuietMerge(p, shards, allow);
      }
    }
  }

  /** If no shard names a question twice, that is one success among two or more errors. */
  lemma OnceInEachShard(shards: seq<Shard>)
    requires forall s, id :: s in shards ==> |WordIn(s, id)| <= 1
    ensures SomeContestedShard(shards) <==> SomeContested(AllScored(shards))
  {
    if SomeContestedShard(shards) {
      var s, id :| ContestedAt(shards, s, id);
      ErrorsBeforeAtMost(WordIn(s, id));
      assert Contested(Word(AllScored(shards), id));
    }
    if SomeContested(AllScored(shards)) {
      var id :| Contested(Word(AllScored(shards), id));
      var k := SuccessInAShard(shards, id);
      EveryEntryCounts(WordIn(shards[k], id));
      ErrorsBeforeAtMost(WordIn(shards[k], id));
      assert ContestedAt(shards, shards[k], id);
    }
  }

  /** A shard that holds all of a question's entries keeps their order. */
  lemma OneShardIsOrderFree(s: Shard, allow: bool)
    ensures ShardOrderFree([s], allow)
  {
    forall p | multiset(p) == multiset([s])
      ensures SameMerge(AllScored(p), AllScored([s]), allow)
    {
      PermutedSize(p, [s]);
      assert p[0] in multiset([s]);
      assert p == [s];
    }
  }
}
