/** Merging the shards of a golden round under the two duplicate policies. */
module MergeShards {
  import opened Collections

  /** One scored question. Whatever else the runner wrote about it is `body`. */
  datatype Entry = Entry(id: string, status: string, errorType: string, error: string, body: string)

  /** The fields that all shards of one round must agree on. */
  datatype Metadata = Metadata(
    generation: Option<string>, goldVersion: Option<string>, evaluationAsOf: Option<string>,
    judgeSamples: Option<int>, statePathMap: Option<string>, providerFidelity: Option<string>)

  datatype Shard = Shard(name: string, metadata: Metadata, results: seq<Entry>)

  datatype Superseded = Superseded(id: string, status: string, errorType: string, error: string, source: string)

  datatype MergeError =
    | MetadataMismatch(shard: nat)          // position of the first shard that drifted
    | NoShards
    | ScoredMoreThanOnce(ids: set<string>)

  datatype Merged = Merged(metadata: Metadata, results: map<string, Entry>, superseded: seq<Superseded>)

  datatype Result<+T> = Ok(value: T) | Err(error: MergeError)

  predicate IsError(e: Entry) {
    e.status == "error"
  }

  function Cut(s: string): string {
    if |s| <= 200 then s else s[..200]
  }

  function Record(e: Entry, source: string): Superseded {
    Superseded(e.id, e.status, e.errorType, Cut(e.error), source)
  }

  // ----- one entry at a time

  datatype Fold = Fold(merged: map<string, Entry>, duplicates: set<string>, superseded: seq<Superseded>)

  const START := Fold(map[], {}, [])

  /** What the loop does with the next entry. */
  function Step(f: Fold, e: Entry, source: string, allow: bool): Fold {
    if e.id !in f.merged then f.(merged := f.merged[e.id := e])
    else
      var existing := f.merged[e.id];
      if !allow then f.(duplicates := f.duplicates + {e.id})
      else if IsError(existing) && !IsError(e) then
        f.(merged := f.merged[e.id := e], superseded := f.superseded + [Record(existing, source)])
      else if IsError(e) && !IsError(existing) then
        f.(superseded := f.superseded + [Record(e, source)])
      else f.(duplicates := f.duplicates + {e.id})
  }

  /** An entry and the shard it came from. */
  datatype Scored = Scored(entry: Entry, source: string)

  function Run(scored: seq<Scored>, allow: bool): Fold {
    if scored == [] then START
    else
      var k := |scored| - 1;
      Step(Run(scored[..k], allow), scored[k].entry, scored[k].source, allow)
  }

  function Tag(s: Shard): (scored: seq<Scored>)
    ensures |scored| == |s.results|
    ensures forall i :: 0 <= i < |scored| ==> scored[i] == Scored(s.results[i], s.name)
  {
    seq(|s.results|, i requires 0 <= i < |s.results| => Scored(s.results[i], s.name))
  }

  /** All entries in the order the loop meets them; shards are in sorted path order. */
  function AllScored(shards: seq<Shard>): seq<Scored> {
    if shards == [] then [] else AllScored(shards[..|shards| - 1]) + Tag(shards[|shards| - 1])
  }

  lemma NextEntry(before: seq<Scored>, tagged: seq<Scored>, i: nat, allow: bool)
    requires i < |tagged|
    ensures Run(before + tagged[..i + 1], allow) == Step(Run(before + tagged[..i], allow), tagged[i].entry, tagged[i].source, allow)
  {
    assert (before + tagged[..i + 1])[..|before| + i] == before + tagged[..i];
  }

  lemma NextShard(shards: seq<Shard>, s: nat)
    requires s < |shards|
    ensures AllScored(shards[..s + 1]) == AllScored(shards[..s]) + Tag(shards[s])
  {
    assert shards[..s + 1][..s] == shards[..s];
  }

  predicate Agree(shards: seq<Shard>) {
    forall i :: 0 <= i < |shards| ==> shards[i].metadata == shards[0].metadata
  }

  /** The inner loop, over the results of one shard. */
  method MergeResults(shard: Shard, allow: bool, merged0: map<string, Entry>, duplicates0: set<string>, superseded0: seq<Superseded>,
                      ghost before: seq<Scored>)
    returns (merged: map<string, Entry>, duplicates: set<string>, superseded: seq<Superseded>)
    requires Fold(merged0, duplicates0, superseded0) == Run(before, allow)
    ensures Fold(merged, duplicates, superseded) == Run(before + Tag(shard), allow)
  {
    merged, duplicates, superseded := merged0, duplicates0, superseded0;
    ghost var tagged := Tag(shard);
    assert before + tagged[..0] == before;
    var i := 0;
    while i < |shard.results|
      invariant i <= |shard.results|
      invariant Fold(merged, duplicates, superseded) == Run(before + tagged[..i], allow)
    {
      var result := shard.results[i];
      NextEntry(before, tagged, i, allow);
      i := i + 1;
      if result.id !in merged {
        merged := merged[result.id := result];
        continue;
      }
      var existing := merged[result.id];
      if !allow {
        duplicates := duplicates + {result.id};
      } else if IsError(existing) && !IsError(result) {
        superseded := superseded + [Record(existing, shard.name)];
        merged := merged[result.id := result];
      } else if IsError(result) && !IsError(existing) {
        superseded := superseded + [Record(result, shard.name)];
      } else {
        duplicates := duplicates + {result.id};
      }
    }
    assert tagged[..i] == tagged;
  }

  method Merge(shards: seq<Shard>, allow: bool) returns (r: Result<Merged>)
    ensures shards == [] ==> r == Err(NoShards)
    ensures !Agree(shards) ==>
              && r.Err? && r.error.MetadataMismatch? && 0 < r.error.shard < |shards|
              && shards[r.error.shard].metadata != shards[0].metadata
              && Agree(shards[..r.error.shard])
    ensures shards != [] && Agree(shards) ==>
              var f := Run(AllScored(shards), allow);
              r == if f.duplicates != {} then Err(ScoredMoreThanOnce(f.duplicates))
                   else Ok(Merged(shards[0].metadata, f.merged, f.superseded))
  {
    var merged: map<string, Entry> := map[];
    var duplicates: set<string> := {};
    var superseded: seq<Superseded> := [];
    var base: Option<Metadata> := None;
    var s := 0;
    while s < |shards|
      invariant s <= |shards| && Agree(shards[..s])
      invariant base == if s == 0 then None else Some(shards[0].metadata)
      invariant Fold(merged, duplicates, superseded) == Run(AllScored(shards[..s]), allow)
    {
      var shard := shards[s];
      if base.None? {
        base := Some(shard.metadata);
      } else if shard.metadata != base.value {
        return Err(MetadataMismatch(s));
      }
      NextShard(shards, s);
      merged, duplicates, superseded := MergeResults(shard, allow, merged, duplicates, superseded, AllScored(shards[..s]));
      s := s + 1;
    }
    assert shards[..s] == shards;
    if base.None? {
      return Err(NoShards);
    }
    if duplicates != {} {
      return Err(ScoredMoreThanOnce(duplicates));
    }
    return Ok(Merged(base.value, merged, superseded));
  }

  // ----- the language of accepted questions

  /** The entries one question received, in the order they were met. */
  function Word(scored: seq<Scored>, id: string): seq<Scored> {
    if scored == [] then []
    else
      var k := |scored| - 1;
      Word(scored[..k], id) + (if scored[k].entry.id == id then [scored[k]] else [])
  }

  predicate AllErrors(w: seq<Scored>) {
    forall i :: 0 <= i < |w| ==> IsError(w[i].entry)
  }

  /** E, or at most one E, then a D, then any number of E, where E is an errored entry and D
      is one that was scored; under the strict policy, a single entry. */
  predicate Accepted(w: seq<Scored>, allow: bool) {
    if !allow then |w| == 1
    else
      || (|w| == 1 && IsError(w[0].entry))
      || (|w| >= 1 && !IsError(w[0].entry) && AllErrors(w[1..]))
      || (|w| >= 2 && IsError(w[0].entry) && !IsError(w[1].entry) && AllErrors(w[2..]))
  }

  /** The entry kept for an accepted word: its scored entry, or its only, errored one. */
  function Kept(w: seq<Scored>): Entry
    requires w != []
  {
    if |w| >= 2 && IsError(w[0].entry) then w[1].entry else w[0].entry
  }

  lemma {:induction false} OneMoreLetter(w: seq<Scored>, x: Scored, allow: bool)
    requires w != []
    ensures Accepted(w + [x], allow) <==>
              allow && Accepted(w, allow) && (IsError(Kept(w)) != IsError(x.entry))
    ensures Accepted(w + [x], allow) ==>
              Kept(w + [x]) == if IsError(Kept(w)) then x.entry else Kept(w)
  {
    var v := w + [x];
    assert v[|w|] == x && forall i :: 0 <= i < |w| ==> v[i] == w[i];
    if |w| == 1 {
      assert v[1..] == [x] && v[2..] == [];
    } else {
      assert v[1..] == w[1..] + [x] && v[2..] == w[2..] + [x];
      assert v[1..][|w| - 1] == x && v[2..][|w| - 2] == x;
      assert forall i :: 0 <= i < |w| - 1 ==> v[1..][i] == w[1..][i];
      assert forall i :: 0 <= i < |w| - 2 ==> v[2..][i] == w[2..][i];
      if Accepted(w, true) {
        KeptIsScored(w);
      }
    }
  }

  /** Only a word of length one keeps an error. */
  lemma KeptIsScored(w: seq<Scored>)
    requires |w| >= 2 && Accepted(w, true)
    ensures !IsError(Kept(w))
  {
    if IsError(w[0].entry) {
      assert IsError(w[0].entry) && !IsError(w[1].entry);
    }
  }

  /** What the fold knows about one question is what its own word says. */
  lemma {:induction false} FoldReadsTheWord(scored: seq<Scored>, allow: bool, id: string)
    ensures var f, w := Run(scored, allow), Word(scored, id);
            && (id in f.merged <==> w != [])
            && (id in f.duplicates <==> w != [] && !Accepted(w, allow))
            && (w != [] && Accepted(w, allow) ==> f.merged[id] == Kept(w))
  {
    if scored == [] {
    } else {
      var k := |scored| - 1;
      FoldReadsTheWord(scored[..k], allow, id);
      var w, x := Word(scored[..k], id), scored[k];
      if x.entry.id == id {
        if w == [] {
          assert w + [x] == [x] && [x][1..] == [];
        } else {
          OneMoreLetter(w, x, allow);
        }
      } else {
        assert Word(scored, id) == w;
      }
    }
  }

  /** The merge is accepted exactly when every question's word is, and a refusal names exactly
      the questions whose word is not. */
  lemma MergeAcceptsExactly(scored: seq<Scored>, allow: bool)
    ensures Run(scored, allow).duplicates == {} <==>
              forall id :: Word(scored, id) != [] ==> Accepted(Word(scored, id), allow)
    ensures forall id :: id in Run(scored, allow).duplicates <==>
              Word(scored, id) != [] && !Accepted(Word(scored, id), allow)
    ensures forall id :: id in Run(scored, allow).merged <==> Word(scored, id) != []
  {
    forall id
      ensures id in Run(scored, allow).duplicates <==> Word(scored, id) != [] && !Accepted(Word(scored, id), allow)
      ensures id in Run(scored, allow).merged <==> Word(scored, id) != []
    {
      FoldReadsTheWord(scored, allow, id);
    }
    if Run(scored, allow).duplicates != {} {
      var id :| id in Run(scored, allow).duplicates;
      assert Word(scored, id) != [] && !Accepted(Word(scored, id), allow);
    }
  }

  // ----- nothing is hidden

  /** What was put aside: errored entries only, one for every entry that is neither kept nor
      a refused duplicate. */
  lemma {:induction false} MergeConserves(scored: seq<Scored>, allow: bool)
    requires Run(scored, allow).duplicates == {}
    ensures |Run(scored, allow).merged| + |Run(scored, allow).superseded| == |scored|
    ensures forall s :: s in Run(scored, allow).superseded ==> s.status == "error"
  {
    if scored == [] {
    } else {
      var k := |scored| - 1;
      StepConserves(Run(scored[..k], allow), scored[k].entry, scored[k].source, allow);
      MergeConserves(scored[..k], allow);
    }
  }

  lemma StepConserves(f: Fold, e: Entry, source: string, allow: bool)
    requires Step(f, e, source, allow).duplicates == {}
    ensures f.duplicates == {}
    ensures var g := Step(f, e, source, allow);
            |g.merged| + |g.superseded| == |f.merged| + |f.superseded| + 1
    ensures forall s :: s in Step(f, e, source, allow).superseded ==> s in f.superseded || s.status == "error"
  {
    KeyAdded(f.merged, e.id, e);
  }

  lemma KeyAdded(m: map<string, Entry>, id: string, e: Entry)
    ensures |m[id := e]| == |m| + if id in m then 0 else 1
  {
    assert m[id := e].Keys == m.Keys + {id};
    if id in m {
      assert m.Keys + {id} == m.Keys;
    }
  }

  /** The superseded records of one question. */
  function PutAside(superseded: seq<Superseded>, id: string): seq<Superseded> {
    if superseded == [] then []
    else
      var k := |superseded| - 1;
      PutAside(superseded[..k], id) + (if superseded[k].id == id then [superseded[k]] else [])
  }

  /** Every entry of an accepted question but the kept one leaves a record. */
  lemma {:induction false} EveryOtherEntryIsRecorded(scored: seq<Scored>, allow: bool, id: string)
    requires var w := Word(scored, id); w != [] ==> Accepted(w, allow)
    ensures |PutAside(Run(scored, allow).superseded, id)| == if Word(scored, id) == [] then 0 else |Word(scored, id)| - 1
  {
    if scored == [] {
    } else {
      var k := |scored| - 1;
      var x, w := scored[k], Word(scored[..k], id);
      FoldReadsTheWord(scored[..k], allow, id);
      FoldIdsMatch(scored[..k], allow);
      if x.entry.id == id && w != [] {
        OneMoreLetter(w, x, allow);
      } else {
        assert w == [] || Word(scored, id) == w;
      }
      EveryOtherEntryIsRecorded(scored[..k], allow, id);
      StepRecords(Run(scored[..k], allow), x.entry, x.source, allow, id);
    }
  }

  /** Which entry of its word the `k`th one put aside is: the first if it was replaced, then those
      after the kept one. */
  function Loser(w: seq<Scored>, k: nat): nat
    requires w != []
  {
    if k == 0 && w[0].entry.status == "error" then 0 else k + 1
  }

  /** The record of an entry put aside in favour of another one, or met after it. */
  predicate Tells(r: Superseded, w: seq<Scored>, j: nat)
    requires 1 < |w| && j < |w|
  {
    var e := w[j].entry;
    && r.id == e.id && r.status == e.status && r.errorType == e.errorType
    && r.error <= e.error && |r.error| == (if |e.error| > 200 then 200 else |e.error|)
    && r.source == w[if j == 0 then 1 else j].source
  }

  ghost predicate AllTold(records: seq<Superseded>, w: seq<Scored>) {
    && (w == [] ==> records == [])
    && (w != [] ==> |records| == |w| - 1 && forall k :: 0 <= k < |records| ==> Tells(records[k], w, Loser(w, k)))
  }

  /** The records of an accepted question, one by one: what was put aside, its error, and the shard
      whose arrival put it aside. */
  lemma {:induction false} RecordsTellTheWord(scored: seq<Scored>, allow: bool, id: string)
    requires var w := Word(scored, id); w != [] ==> Accepted(w, allow)
    ensures AllTold(PutAside(Run(scored, allow).superseded, id), Word(scored, id))
  {
    if scored == [] {
    } else {
      var k := |scored| - 1;
      var x, w, f := scored[k], Word(scored[..k], id), Run(scored[..k], allow);
      FoldReadsTheWord(scored[..k], allow, id);
      FoldIdsMatch(scored[..k], allow);
      WordIds(scored[..k], id);
      if x.entry.id == id && w != [] {
        OneMoreLetter(w, x, allow);
        RecordsTellTheWord(scored[..k], allow, id);
        StepRecord(f, x, allow, w);
        OneMoreTold(PutAside(f.superseded, id), w, x, allow);
      } else {
        assert x.entry.id != id ==> Word(scored, id) == w;
        RecordsTellTheWord(scored[..k], allow, id);
        OtherRecords(f, x.entry, x.source, allow, id);
      }
    }
  }

  lemma {:induction false} WordIds(scored: seq<Scored>, id: string)
    ensures forall x :: x in Word(scored, id) ==> x.entry.id == id
  {
    if scored == [] {
    } else {
      WordIds(scored[..|scored| - 1], id);
    }
  }

  /** The record made when an accepted word stays accepted. */
  lemma StepRecord(f: Fold, x: Scored, allow: bool, w: seq<Scored>)
    requires w != [] && Accepted(w, allow) && Accepted(w + [x], allow)
    requires x.entry.id in f.merged && f.merged[x.entry.id] == Kept(w) && Kept(w).id == x.entry.id
    ensures var lost := if IsError(Kept(w)) then Kept(w) else x.entry;
            PutAside(Step(f, x.entry, x.source, allow).superseded, x.entry.id) == PutAside(f.superseded, x.entry.id) + [Record(lost, x.source)]
  {
    OneMoreLetter(w, x, allow);
    PutAsideAppends(f.superseded, Record(Kept(w), x.source), x.entry.id);
    PutAsideAppends(f.superseded, Record(x.entry, x.source), x.entry.id);
  }

  lemma OtherRecords(f: Fold, e: Entry, source: string, allow: bool, id: string)
    requires forall i :: i in f.merged ==> f.merged[i].id == i
    requires e.id != id || id !in f.merged
    ensures PutAside(Step(f, e, source, allow).superseded, id) == PutAside(f.superseded, id)
  {
    PutAsideAppends(f.superseded, Record(e, source), id);
    if e.id in f.merged {
      PutAsideAppends(f.superseded, Record(f.merged[e.id], source), id);
    }
  }

  lemma OneMoreTold(records: seq<Superseded>, w: seq<Scored>, x: Scored, allow: bool)
    requires w != [] && Accepted(w, allow) && Accepted(w + [x], allow) && AllTold(records, w)
    ensures var lost := if IsError(Kept(w)) then Kept(w) else x.entry;
            AllTold(records + [Record(lost, x.source)], w + [x])
  {
    OneMoreLetter(w, x, allow);
    var v, lost := w + [x], if IsError(Kept(w)) then Kept(w) else x.entry;
    var more := records + [Record(lost, x.source)];
    forall k | 0 <= k < |more|
      ensures Tells(more[k], v, Loser(v, k))
    {
      if k < |records| {
        assert Tells(records[k], w, Loser(w, k));
      } else if |w| > 1 {
        KeptIsScored(w);
      }
    }
  }

  lemma StepRecords(f: Fold, e: Entry, source: string, allow: bool, id: string)
    requires forall i :: i in f.merged ==> f.merged[i].id == i
    ensures var replaced := e.id == id && id in f.merged && allow && IsError(f.merged[id]) != IsError(e);
            |PutAside(Step(f, e, source, allow).superseded, id)| == |PutAside(f.superseded, id)| + if replaced then 1 else 0
  {
    PutAsideAppends(f.superseded, Record(e, source), id);
    if e.id in f.merged {
      PutAsideAppends(f.superseded, Record(f.merged[e.id], source), id);
    }
  }

  lemma PutAsideAppends(superseded: seq<Superseded>, s: Superseded, id: string)
    ensures PutAside(superseded + [s], id) == PutAside(superseded, id) + (if s.id == id then [s] else [])
  {
    assert (superseded + [s])[..|superseded|] == superseded;
  }

  lemma {:induction false} FoldIdsMatch(scored: seq<Scored>, allow: bool)
    ensures forall id :: id in Run(scored, allow).merged ==> Run(scored, allow).merged[id].id == id
  {
    if scored == [] {
    } else {
      FoldIdsMatch(scored[..|scored| - 1], allow);
    }
  }

  lemma {:induction false} WordHolds(scored: seq<Scored>, i: nat)
    requires i < |scored|
    ensures scored[i] in Word(scored, scored[i].entry.id)
  {
    var k := |scored| - 1;
    if i < k {
      WordHolds(scored[..k], i);
      assert scored[..k][i] == scored[i];
    }
  }

  /** No scored result is ever replaced or dropped by an accepted merge. */
  lemma ScoredResultsSurvive(scored: seq<Scored>, allow: bool, i: nat)
    requires Run(scored, allow).duplicates == {}
    requires i < |scored| && !IsError(scored[i].entry)
    ensures scored[i].entry.id in Run(scored, allow).merged
    ensures Run(scored, allow).merged[scored[i].entry.id] == scored[i].entry
  {
    var id := scored[i].entry.id;
    var w := Word(scored, id);
    WordHolds(scored, i);
    FoldReadsTheWord(scored, allow, id);
    var j :| 0 <= j < |w| && w[j] == scored[i];
    assert forall m :: 1 <= m < |w| ==> w[m] == w[1..][m - 1];
    assert forall m :: 2 <= m < |w| ==> w[m] == w[2..][m - 2];
  }
}
