/** The checkpointed rebuild of the vector index: windows of concurrent embedding calls that
    complete in any order, an upsert and a checkpoint write for each, and a process that may
    die between any two of these steps and be started again. */
module RebuildIndex {
  import opened Collections

  type Id = string

  /** The checkpoint file, as the next run finds it. */
  datatype Checkpoint = NoFile | Saved(version: string, ids: set<Id>) | Torn

  datatype Refusal = BadBatchSize | BadConcurrency | VersionDiffers | Unreadable

  datatype Failure = Refused(why: Refusal) | Interrupted

  datatype Result<+T> = Ok(value: T) | Err(error: Failure)

  datatype Report = Report(active: nat, indexed: nat, skipped: nat, embeddingCalls: nat)

  /** What happens to one batch once its embedding call has been paid for. */
  datatype Fate =
    | Settles                          // vectors arrive, upsert and save succeed
    | EmbeddingFails                   // the call raises, or the process dies while waiting
    | IncompleteVectors                // fewer vectors than chunks
    | UpsertStops(written: set<Id>)    // the upsert dies after some points were written
    | DiesBeforeSave                   // points are in the index, the file was not touched
    | SaveTears                        // the process dies while the file is being rewritten

  /** The fate of the `n`th completion of a run; those not told settle. */
  function FateOf(fates: seq<Fate>, n: nat): Fate {
    if n < |fates| then fates[n] else Settles
  }

  /** The completions numbered `lo` to `hi` all settle. */
  predicate AllSettle(fates: seq<Fate>, lo: nat, hi: nat) {
    forall n :: lo <= n < hi && n < |fates| ==> fates[n].Settles?
  }

  lemma NextSettles(fates: seq<Fate>, lo: nat, n: nat, hi: nat)
    requires lo <= n < hi && AllSettle(fates, lo, n)
    ensures FateOf(fates, n).Settles? ==> AllSettle(fates, lo, n + 1)
    ensures !FateOf(fates, n).Settles? ==> !AllSettle(fates, lo, hi)
  {
  }

  lemma SettleOn(fates: seq<Fate>, lo: nat, mid: nat, hi: nat)
    requires lo <= mid <= hi
    ensures AllSettle(fates, lo, hi) ==> AllSettle(fates, mid, hi) && AllSettle(fates, lo, mid)
    ensures AllSettle(fates, lo, mid) && AllSettle(fates, mid, hi) ==> AllSettle(fates, lo, hi)
  {
  }

  /** What outlives a process. `log` lists every chunk whose embedding was paid for. */
  datatype Durable = Durable(index: set<Id>, checkpoint: Checkpoint, log: seq<Id>)

  function Load(checkpoint: Checkpoint, version: string): Result<set<Id>> {
    match checkpoint
    case NoFile => Ok({})
    case Torn => Err(Refused(Unreadable))
    case Saved(v, ids) => if v != version then Err(Refused(VersionDiffers)) else Ok(ids)
  }

  /** A file the run may continue from: there is none, or it was written for this version. */
  predicate Continues(checkpoint: Checkpoint, version: string) {
    !checkpoint.Torn? && (checkpoint.Saved? ==> checkpoint.version == version)
  }

  function Recorded(checkpoint: Checkpoint): set<Id> {
    if checkpoint.Saved? then checkpoint.ids else {}
  }

  // ----- batches

  function Batches(items: seq<Id>, size: nat): (batches: seq<seq<Id>>)
    requires size > 0
    ensures forall b :: b in batches ==> 1 <= |b| <= size
    decreases |items|
  {
    if items == [] then []
    else if |items| <= size then [items]
    else [items[..size]] + Batches(items[size..], size)
  }

  function Flat(batches: seq<seq<Id>>): seq<Id> {
    if batches == [] then [] else batches[0] + Flat(batches[1..])
  }

  lemma {:induction false} FlatConcat(x: seq<seq<Id>>, y: seq<seq<Id>>)
    ensures Flat(x + y) == Flat(x) + Flat(y)
  {
    if x == [] {
      assert x + y == y;
    } else {
      assert (x + y)[1..] == x[1..] + y;
      FlatConcat(x[1..], y);
    }
  }

  lemma {:induction false} FlatBounded(batches: seq<seq<Id>>, size: nat)
    requires forall b :: b in batches ==> |b| <= size
    ensures |Flat(batches)| <= |batches| * size
  {
    if batches == [] {
    } else {
      FlatBounded(batches[1..], size);
      assert |batches| * size == size + (|batches| - 1) * size;
    }
  }

  lemma {:induction false} FlatMembers(batches: seq<seq<Id>>, id: Id)
    ensures id in Flat(batches) <==> exists b :: b in batches && id in b
  {
    if batches == [] {
    } else {
      FlatMembers(batches[1..], id);
      assert forall b :: b in batches <==> b == batches[0] || b in batches[1..];
    }
  }

  lemma QuotientIs(a: nat, d: nat, q: nat, r: nat)
    requires d > 0 && a == q * d + r && r < d
    ensures a / d == q
  {
    var p := a / d;
    assert p * d - q * d == (p - q) * d;
    assert q * d - p * d == (q - p) * d;
    assert p * d - q * d == r - a % d;
    if p > q {
      AtLeastOne(p - q, d);
    } else if p < q {
      AtLeastOne(q - p, d);
    }
  }

  lemma AtLeastOne(k: nat, d: nat)
    requires k > 0
    ensures k * d >= d
  {
  }

  /** The batches cut the pending list into consecutive pieces of at most `size` chunks. */
  lemma {:induction false} BatchesCut(items: seq<Id>, size: nat)
    requires size > 0
    ensures Flat(Batches(items, size)) == items
    decreases |items|
  {
    if |items| > size {
      BatchesCut(items[size..], size);
      FirstBatch(items, size, Batches(items[size..], size));
    } else if items != [] {
      FlatOfOne(items);
      assert Batches(items, size) == [items];
    } else {
      assert Batches(items, size) == [];
    }
  }

  lemma FirstBatch(items: seq<Id>, size: nat, others: seq<seq<Id>>)
    requires size <= |items| && Flat(others) == items[size..]
    ensures Flat([items[..size]] + others) == items
  {
    FlatCons(items[..size], others);
    assert items == items[..size] + items[size..];
  }

  lemma FlatOfOne(items: seq<Id>)
    ensures Flat([items]) == items
  {
    FlatCons(items, []);
    assert [items] + [] == [items];
  }

  lemma FlatCons(first: seq<Id>, rest: seq<seq<Id>>)
    ensures Flat([first] + rest) == first + Flat(rest)
  {
    assert ([first] + rest)[1..] == rest;
  }

  /** All batches but the last are full. */
  lemma {:induction false} BatchSpan(items: seq<Id>, size: nat)
    requires size > 0
    ensures |items| <= |Batches(items, size)| * size < |items| + size
    decreases |items|
  {
    if |items| > size {
      BatchSpan(items[size..], size);
      var k := |Batches(items[size..], size)|;
      OneBatchMore(k, size);
    }
  }

  lemma OneBatchMore(k: nat, size: nat)
    ensures (k + 1) * size == k * size + size
  {
  }

  /** There are as many batches as the report counts embedding calls. */
  lemma BatchCount(items: seq<Id>, size: nat)
    requires size > 0
    ensures |Batches(items, size)| == (|items| + size - 1) / size
  {
    BatchSpan(items, size);
    var k := |Batches(items, size)|;
    QuotientIs(|items| + size - 1, size, k, |items| + size - 1 - k * size);
  }

  function Pending(chunks: seq<Id>, completed: set<Id>): seq<Id> {
    if chunks == [] then []
    else (if chunks[0] in completed then [] else [chunks[0]]) + Pending(chunks[1..], completed)
  }

  lemma {:induction false} PendingMembers(chunks: seq<Id>, completed: set<Id>)
    ensures forall id :: id in Pending(chunks, completed) <==> id in chunks && id !in completed
    ensures NoRepeats(chunks) ==> NoRepeats(Pending(chunks, completed))
    ensures |Pending(chunks, completed)| <= |chunks|
  {
    if chunks == [] {
    } else {
      PendingMembers(chunks[1..], completed);
    }
  }

  /** `part` is what stands in `whole` at the increasing positions `at`. */
  predicate StandsAt(part: seq<Id>, whole: seq<Id>, at: seq<nat>) {
    && |at| == |part|
    && (forall i :: 0 <= i < |at| ==> at[i] < |whole| && whole[at[i]] == part[i])
    && (forall i, j :: 0 <= i < j < |at| ==> at[i] < at[j])
  }

  function Shifted(at: seq<nat>): (later: seq<nat>)
    ensures |later| == |at| && forall i :: 0 <= i < |at| ==> later[i] == at[i] + 1
  {
    seq(|at|, i requires 0 <= i < |at| => at[i] + 1)
  }

  lemma StandsAfter(part: seq<Id>, whole: seq<Id>, at: seq<nat>)
    requires whole != [] && StandsAt(part, whole[1..], at)
    ensures StandsAt(part, whole, Shifted(at)) && StandsAt([whole[0]] + part, whole, [0] + Shifted(at))
  {
    forall i | 0 <= i < |at|
      ensures Shifted(at)[i] < |whole| && whole[Shifted(at)[i]] == part[i]
    {
      assert whole[1..][at[i]] == part[i];
    }
  }

  /** What is pending stands in the order of the store. */
  lemma {:induction false} PendingKeepsOrder(chunks: seq<Id>, completed: set<Id>) returns (at: seq<nat>)
    ensures StandsAt(Pending(chunks, completed), chunks, at)
  {
    if chunks == [] {
      at := [];
    } else {
      at := PendingKeepsOrder(chunks[1..], completed);
      StandsAfter(Pending(chunks[1..], completed), chunks, at);
      at := (if chunks[0] in completed then [] else [0]) + Shifted(at);
      assert [] + Pending(chunks[1..], completed) == Pending(chunks[1..], completed);
      assert [] + at == at;
    }
  }

  // ----- one run

  /** The chunks the run recorded: they were pending before and are in the file now, unless
      the last write tore it. */
  ghost predicate Credits(pre: Durable, post: Durable, ready: set<Id>, version: string, credited: set<Id>) {
    && credited !! Recorded(pre.checkpoint)
    && credited <= ready
    && credited <= post.index
    && (|| (post.checkpoint == pre.checkpoint && credited == {})
        || post.checkpoint == Saved(version, Recorded(pre.checkpoint) + credited)
        || post.checkpoint == Torn)
  }

  /** Everything a run promises, however it ends: the index only grows, by ready chunks; what
      was paid for is a prefix of the pending list; and what was paid for in vain fits into one
      window. A finished run paid for nothing in vain and recorded every ready chunk. */
  ghost predicate RunEffect(pre: Durable, post: Durable, chunks: seq<Id>, version: string, exposure: nat, finished: bool) {
    && Grows(pre, post, chunks)
    && (!Continues(pre.checkpoint, version) ==> post == pre && !finished)
    && exists credited :: RunCredits(pre, post, chunks, version, exposure, finished, credited)
  }

  ghost predicate Grows(pre: Durable, post: Durable, chunks: seq<Id>) {
    && pre.index <= post.index <= pre.index + Elements(chunks)
    && var paid := |post.log| - |pre.log|;
       0 <= paid <= |Pending(chunks, Recorded(pre.checkpoint))|
       && post.log == pre.log + Pending(chunks, Recorded(pre.checkpoint))[..paid]
  }

  ghost predicate RunCredits(pre: Durable, post: Durable, chunks: seq<Id>, version: string, exposure: nat, finished: bool, credited: set<Id>) {
    && Credits(pre, post, Elements(chunks), version, credited)
    && |post.log| - |pre.log| <= |credited| + exposure
    && (finished ==>
          && |post.log| - |pre.log| == |credited|
          && !post.checkpoint.Torn?
          && Elements(chunks) <= Recorded(post.checkpoint))
  }

  // ----- inside a run

  function Range(lo: nat, hi: nat): (r: set<nat>)
    ensures forall j: nat :: j in r <==> lo <= j < hi
    decreases hi - lo
  {
    if lo >= hi then {} else {lo} + Range(lo + 1, hi)
  }

  lemma {:induction false} RangeSize(lo: nat, hi: nat)
    requires lo <= hi
    ensures |Range(lo, hi)| == hi - lo
    decreases hi - lo
  {
    if lo < hi {
      RangeSize(lo + 1, hi);
    }
  }

  /** The chunks of the batches whose save has succeeded. */
  function Settled(batches: seq<seq<Id>>, done: set<nat>): set<Id> {
    set j, id | j in done && j < |batches| && id in batches[j] :: id
  }

  /** The batches before `hi` that are no longer outstanding. */
  function Done(hi: nat, outstanding: set<nat>): set<nat> {
    Range(0, hi) - outstanding
  }

  lemma OneLess(lo: nat, hi: nat, outstanding: set<nat>, j: nat)
    requires j in outstanding && outstanding <= Range(lo, hi)
    ensures j < hi && j !in Done(hi, outstanding)
    ensures Done(hi, outstanding - {j}) == Done(hi, outstanding) + {j}
  {
  }

  lemma NoneLeft(lo: nat, hi: nat)
    requires lo <= hi
    ensures Done(hi, Range(lo, hi)) == Range(0, lo) && Done(hi, {}) == Range(0, hi)
  {
  }

  /** What a run works from: the state it found, the chunks the file does not list and the
      batches they are cut into. */
  datatype Plan = Plan(pre: Durable, pending: seq<Id>, batches: seq<seq<Id>>, version: string, size: nat, width: nat)

  /** The most one interrupted window can waste. */
  function Exposure(p: Plan): nat {
    p.size * p.width
  }

  ghost predicate Sound(p: Plan) {
    && NoRepeats(p.pending)
    && Flat(p.batches) == p.pending
    && (forall b :: b in p.batches ==> |b| <= p.size)
  }

  /** The state between two completions inside the window of batches `lo` to `hi`: that window
      has been paid for, everything before it has settled, and the batches in `done` are in
      the index and in the file. */
  ghost predicate Midway(p: Plan, now: Durable, completed: set<Id>, done: set<nat>, lo: nat, hi: nat) {
    && lo <= hi <= |p.batches| && hi <= lo + p.width
    && (forall j: nat :: j < lo ==> j in done)
    && completed == Recorded(p.pre.checkpoint) + Settled(p.batches, done)
    && p.pre.index + Settled(p.batches, done) <= now.index <= p.pre.index + Elements(p.pending)
    && now.log == p.pre.log + Flat(p.batches[..hi])
    && now.checkpoint == if done == {} then p.pre.checkpoint else Saved(p.version, completed)
  }

  lemma SettledPrefix(batches: seq<seq<Id>>, done: set<nat>, lo: nat)
    requires lo <= |batches| && forall j: nat :: j < lo ==> j in done
    ensures Elements(Flat(batches[..lo])) <= Settled(batches, done)
  {
    forall id | id in Flat(batches[..lo])
      ensures id in Settled(batches, done)
    {
      FlatMembers(batches[..lo], id);
      var b :| b in batches[..lo] && id in b;
      var j :| 0 <= j < lo && batches[j] == b;
      assert j in done;
    }
  }

  lemma SettledPending(batches: seq<seq<Id>>, done: set<nat>)
    ensures Settled(batches, done) <= Elements(Flat(batches))
  {
    forall id | id in Settled(batches, done)
      ensures id in Flat(batches)
    {
      var j :| j in done && j < |batches| && id in batches[j];
      assert batches[j] in batches;
      FlatMembers(batches, id);
    }
  }

  lemma FlatPrefix(batches: seq<seq<Id>>, lo: nat, hi: nat)
    requires lo <= hi <= |batches|
    ensures Flat(batches[..hi]) == Flat(batches[..lo]) + Flat(batches[lo..hi])
    ensures |Flat(batches[..hi])| <= |Flat(batches)|
    ensures Flat(batches[..hi]) == Flat(batches)[..|Flat(batches[..hi])|]
  {
    assert batches[..hi] == batches[..lo] + batches[lo..hi];
    FlatConcat(batches[..lo], batches[lo..hi]);
    assert batches == batches[..hi] + batches[hi..];
    FlatConcat(batches[..hi], batches[hi..]);
  }

  lemma {:induction false} BatchesApart(batches: seq<seq<Id>>, i: nat, j: nat, id: Id)
    requires i < j < |batches| && NoRepeats(Flat(batches))
    requires id in batches[i]
    ensures id !in batches[j]
  {
    FlatPrefix(batches, i, i + 1);
    assert batches[i..i + 1] == [batches[i]];
    assert Flat([batches[i]]) == batches[i];
    assert batches == batches[..i + 1] + batches[i + 1..];
    FlatConcat(batches[..i + 1], batches[i + 1..]);
    assert id in Flat(batches[..i + 1]);
    if id in batches[j] {
      assert batches[j] == batches[i + 1..][j - i - 1];
      FlatMembers(batches[i + 1..], id);
    }
  }

  /** One more settled batch adds exactly its own chunks. */
  lemma OneMoreSettled(batches: seq<seq<Id>>, done: set<nat>, j: nat)
    requires j < |batches| && j !in done && NoRepeats(Flat(batches))
    ensures Settled(batches, done + {j}) == Settled(batches, done) + Elements(batches[j])
    ensures |Settled(batches, done + {j})| == |Settled(batches, done)| + |batches[j]|
  {
    SettledAdds(batches, done, j);
    SettledApart(batches, done, j);
    PieceDistinct(batches, j);
    SizeOfDistinct(batches[j]);
  }

  lemma SettledAdds(batches: seq<seq<Id>>, done: set<nat>, j: nat)
    requires j < |batches|
    ensures Settled(batches, done + {j}) == Settled(batches, done) + Elements(batches[j])
  {
  }

  lemma SettledApart(batches: seq<seq<Id>>, done: set<nat>, j: nat)
    requires j < |batches| && j !in done && NoRepeats(Flat(batches))
    ensures Settled(batches, done) !! Elements(batches[j])
  {
    forall id | id in Settled(batches, done)
      ensures id !in batches[j]
    {
      var i :| i in done && i < |batches| && id in batches[i];
      if i < j {
        BatchesApart(batches, i, j, id);
      } else if id in batches[j] {
        BatchesApart(batches, j, i, id);
      }
    }
  }

  lemma DistinctTail(whole: seq<Id>, before: seq<Id>, piece: seq<Id>)
    requires NoRepeats(whole) && before + piece <= whole
    ensures NoRepeats(piece)
  {
    assert forall k :: 0 <= k < |piece| ==> piece[k] == (before + piece)[|before| + k] == whole[|before| + k];
  }

  lemma PieceDistinct(batches: seq<seq<Id>>, j: nat)
    requires j < |batches| && NoRepeats(Flat(batches))
    ensures NoRepeats(batches[j])
  {
    FlatPrefix(batches, j, j + 1);
    assert batches[j..j + 1] == [batches[j]];
    assert Flat([batches[j]]) == batches[j];
    FlatPrefix(batches, j + 1, j + 1);
    DistinctTail(Flat(batches), Flat(batches[..j]), batches[j]);
  }

  /** Paying for a window ahead costs at most that window more than has been recorded. */
  lemma WindowExposure(p: Plan, done: set<nat>, lo: nat, hi: nat)
    requires Sound(p)
    requires lo <= hi <= |p.batches| && hi <= lo + p.width && forall j: nat :: j < lo ==> j in done
    ensures |Flat(p.batches[..hi])| <= |Settled(p.batches, done)| + Exposure(p)
    ensures |Flat(p.batches[..hi])| <= |p.pending| && Flat(p.batches[..hi]) == p.pending[..|Flat(p.batches[..hi])|]
  {
    FlatPrefix(p.batches, lo, hi);
    FlatPrefix(p.batches, lo, lo);
    SettledPrefix(p.batches, done, lo);
    SizeOfDistinct(Flat(p.batches[..lo]));
    SubsetSize(Elements(Flat(p.batches[..lo])), Settled(p.batches, done));
    FlatBounded(p.batches[lo..hi], p.size);
    Scaled(hi - lo, p.width, p.size);
  }

  lemma Scaled(x: nat, y: nat, z: nat)
    requires x <= y
    ensures x * z <= z * y
  {
  }

  /** The trace an interrupted completion may leave. */
  ghost predicate DiedOn(mid: Durable, post: Durable, batch: seq<Id>) {
    && post.log == mid.log
    && mid.index <= post.index <= mid.index + Elements(batch)
    && (post.checkpoint == mid.checkpoint || post.checkpoint == Torn)
  }

  lemma BatchWithin(batches: seq<seq<Id>>, j: nat)
    requires j < |batches|
    ensures Elements(batches[j]) <= Elements(Flat(batches))
  {
    forall id | id in batches[j]
      ensures id in Flat(batches)
    {
      FlatMembers(batches, id);
    }
  }

  lemma NothingSettled(batches: seq<seq<Id>>)
    ensures Settled(batches, {}) == {}
  {
  }

  /** What stands once the process is gone, in the terms of the run's plan. */
  ghost predicate Stopped(p: Plan, post: Durable, credited: set<Id>, exposure: nat) {
    && p.pre.index + credited <= post.index <= p.pre.index + Elements(p.pending)
    && credited <= Elements(p.pending)
    && |p.pre.log| <= |post.log| <= |p.pre.log| + |p.pending|
    && post.log == p.pre.log + p.pending[..|post.log| - |p.pre.log|]
    && |post.log| - |p.pre.log| <= |credited| + exposure
    && (|| (post.checkpoint == p.pre.checkpoint && credited == {})
        || post.checkpoint == Saved(p.version, Recorded(p.pre.checkpoint) + credited)
        || post.checkpoint == Torn)
  }

  /** Stopping anywhere inside a window loses no more than that window. */
  lemma StoppedInside(p: Plan, mid: Durable, post: Durable, completed: set<Id>, done: set<nat>, lo: nat, hi: nat, j: nat)
    requires Sound(p) && Midway(p, mid, completed, done, lo, hi)
    requires j < |p.batches| && DiedOn(mid, post, p.batches[j])
    ensures Stopped(p, post, Settled(p.batches, done), Exposure(p))
  {
    BatchWithin(p.batches, j);
    WindowExposure(p, done, lo, hi);
    SettledPending(p.batches, done);
    NothingSettled(p.batches);
  }

  /** Submitting a window pays for all of it. */
  lemma WindowOpens(p: Plan, now: Durable, completed: set<Id>, done: set<nat>, lo: nat, hi: nat)
    requires Midway(p, now, completed, done, lo, lo) && lo <= hi <= |p.batches| && hi <= lo + p.width
    ensures Midway(p, now.(log := now.log + Flat(p.batches[lo..hi])), completed, done, lo, hi)
  {
    FlatPrefix(p.batches, lo, hi);
  }

  /** A batch that settles keeps the run inside its window, one batch further. */
  lemma BatchSettles(p: Plan, mid: Durable, completed: set<Id>, done: set<nat>, lo: nat, hi: nat, j: nat)
    requires Sound(p) && Midway(p, mid, completed, done, lo, hi) && j < hi && j !in done
    ensures var batch := p.batches[j];
            var now := Durable(mid.index + Elements(batch), Saved(p.version, completed + Elements(batch)), mid.log);
            Midway(p, now, completed + Elements(batch), done + {j}, lo, hi)
    ensures |Settled(p.batches, done + {j})| == |Settled(p.batches, done)| + |p.batches[j]|
  {
    OneMoreSettled(p.batches, done, j);
    BatchWithin(p.batches, j);
  }

  /** After the last window everything pending is credited and nothing was paid for in vain. */
  lemma RanThrough(p: Plan, post: Durable, completed: set<Id>)
    requires Sound(p) && Midway(p, post, completed, Range(0, |p.batches|), |p.batches|, |p.batches|)
    ensures Settled(p.batches, Range(0, |p.batches|)) == Elements(p.pending)
    ensures |Elements(p.pending)| == |p.pending| == |post.log| - |p.pre.log|
    ensures Stopped(p, post, Elements(p.pending), Exposure(p))
    ensures !p.pre.checkpoint.Torn? ==> !post.checkpoint.Torn?
  {
    var done := Range(0, |p.batches|);
    assert p.batches[..|p.batches|] == p.batches;
    SettledPrefix(p.batches, done, |p.batches|);
    SettledPending(p.batches, done);
    SizeOfDistinct(p.pending);
    NothingSettled(p.batches);
    assert p.pending[..|p.pending|] == p.pending;
  }

  /** The plan's account of a run is the promised effect. */
  lemma EffectOfStopping(p: Plan, post: Durable, chunks: seq<Id>, credited: set<Id>, exposure: nat, finished: bool)
    requires Load(p.pre.checkpoint, p.version).Ok?
    requires p.pending == Pending(chunks, Recorded(p.pre.checkpoint))
    requires Stopped(p, post, credited, exposure)
    requires finished ==> credited == Elements(p.pending) && |post.log| - |p.pre.log| == |credited| && !post.checkpoint.Torn?
    ensures RunEffect(p.pre, post, chunks, p.version, exposure, finished)
  {
    PendingMembers(chunks, Recorded(p.pre.checkpoint));
    if finished {
      forall id | id in chunks
        ensures id in Recorded(post.checkpoint)
      {
        if id !in Recorded(p.pre.checkpoint) {
          assert id in credited;
        }
      }
    }
    assert RunCredits(p.pre, post, chunks, p.version, exposure, finished, credited);
  }

  lemma StopsShort(p: Plan, post: Durable, chunks: seq<Id>)
    requires Load(p.pre.checkpoint, p.version).Ok?
    requires p.pending == Pending(chunks, Recorded(p.pre.checkpoint))
    requires exists credited :: Stopped(p, post, credited, Exposure(p))
    ensures RunEffect(p.pre, post, chunks, p.version, Exposure(p), false)
  {
    var credited :| Stopped(p, post, credited, Exposure(p));
    EffectOfStopping(p, post, chunks, credited, Exposure(p), false);
  }

  lemma Finishes(p: Plan, post: Durable, chunks: seq<Id>)
    requires Load(p.pre.checkpoint, p.version).Ok?
    requires p.pending == Pending(chunks, Recorded(p.pre.checkpoint))
    requires Sound(p) && exists completed :: Midway(p, post, completed, Range(0, |p.batches|), |p.batches|, |p.batches|)
    ensures RunEffect(p.pre, post, chunks, p.version, Exposure(p), true)
    ensures |Settled(p.batches, Range(0, |p.batches|))| == |p.pending| == |post.log| - |p.pre.log|
  {
    var completed :| Midway(p, post, completed, Range(0, |p.batches|), |p.batches|, |p.batches|);
    RanThrough(p, post, completed);
    EffectOfStopping(p, post, chunks, Elements(p.pending), Exposure(p), true);
  }

  /** A file that cannot be loaded ends the run before it does anything. */
  lemma NothingDone(pre: Durable, chunks: seq<Id>, version: string, exposure: nat)
    requires Load(pre.checkpoint, version).Err?
    ensures RunEffect(pre, pre, chunks, version, exposure, false)
  {
    assert RunCredits(pre, pre, chunks, version, exposure, false, {});
  }

  /** A run starts with nothing settled and nothing paid for. */
  lemma RunStarts(p: Plan, chunks: seq<Id>)
    requires NoRepeats(chunks) && p.size > 0 && Load(p.pre.checkpoint, p.version).Ok?
    requires p.pending == Pending(chunks, Load(p.pre.checkpoint, p.version).value)
    requires p.batches == Batches(p.pending, p.size)
    ensures Sound(p) && Midway(p, p.pre, Load(p.pre.checkpoint, p.version).value, {}, 0, 0)
    ensures |p.pending| <= |chunks|
  {
    PendingMembers(chunks, Load(p.pre.checkpoint, p.version).value);
    BatchesCut(p.pending, p.size);
    NothingPaid(p);
  }

  lemma NothingPaid(p: Plan)
    requires Load(p.pre.checkpoint, p.version).Ok?
    ensures Midway(p, p.pre, Load(p.pre.checkpoint, p.version).value, {}, 0, 0)
  {
    NothingSettled(p.batches);
    assert p.batches[..0] == [];
    assert Flat(p.batches[..0]) == [];
    assert p.pre.log + [] == p.pre.log;
  }

  class Rebuilder {
    var index: set<Id>
    var checkpoint: Checkpoint
    var log: seq<Id>

    constructor ()
      ensures State() == Durable({}, NoFile, [])
    {
      index := {};
      checkpoint := NoFile;
      log := [];
    }

    function State(): Durable
      reads this
    {
      Durable(index, checkpoint, log)
    }

    /** What is left behind once the embedding call of one batch returns: an upsert, then the
        checkpoint of everything completed so far, unless the process dies on the way. */
    method CompleteBatch(batch: seq<Id>, version: string, completed: set<Id>, fate: Fate) returns (settled: bool)
      modifies this
      ensures settled <==> fate.Settles?
      ensures log == old(log)
      ensures fate.EmbeddingFails? || fate.IncompleteVectors? ==> State() == old(State())
      ensures fate.UpsertStops? ==> index == old(index) + fate.written * Elements(batch)
      ensures fate.DiesBeforeSave? || fate.SaveTears? || settled ==> index == old(index) + Elements(batch)
      ensures !fate.SaveTears? && !settled ==> checkpoint == old(checkpoint)
      ensures fate.SaveTears? ==> checkpoint == Torn
      ensures settled ==> checkpoint == Saved(version, completed + Elements(batch))
      ensures !settled ==> DiedOn(old(State()), State(), batch)
    {
      if fate.EmbeddingFails? || fate.IncompleteVectors? {
        return false;
      }
      if fate.UpsertStops? {
        index := index + (fate.written * Elements(batch));
        return false;
      }
      index := index + Elements(batch);
      if fate.DiesBeforeSave? {
        return false;
      }
      if fate.SaveTears? {
        checkpoint := Torn;
        return false;
      }
      checkpoint := Saved(version, completed + Elements(batch));
      return true;
    }

    /** The completions of one window, in whatever order they arrive. */
    method DrainWindow(ghost p: Plan, batches: seq<seq<Id>>, version: string, lo: nat, hi: nat, loaded: set<Id>, fates: seq<Fate>)
      returns (settled: bool, completed: set<Id>, embedded: nat)
      requires Sound(p) && p.batches == batches && p.version == version
      requires Midway(p, State(), loaded, Range(0, lo), lo, hi)
      modifies this
      ensures settled ==> Midway(p, State(), completed, Range(0, hi), hi, hi)
      ensures settled ==> |Settled(batches, Range(0, lo))| + embedded == |Settled(batches, Range(0, hi))|
      ensures !settled ==> exists credited :: Stopped(p, State(), credited, Exposure(p))
      ensures settled <==> AllSettle(fates, lo, hi)
    {
      completed, embedded := loaded, 0;
      var outstanding := Range(lo, hi);
      var completions := lo;
      NoneLeft(lo, hi);
      RangeSize(lo, hi);
      while outstanding != {}
        invariant outstanding <= Range(lo, hi)
        invariant Midway(p, State(), completed, Done(hi, outstanding), lo, hi)
        invariant |Settled(batches, Range(0, lo))| + embedded == |Settled(batches, Done(hi, outstanding))|
        invariant lo <= completions && completions + |outstanding| == hi
        invariant AllSettle(fates, lo, completions)
      {
        var j :| j in outstanding;
        var fate := FateOf(fates, completions);
        NextSettles(fates, lo, completions, hi);
        OneLess(lo, hi, outstanding, j);
        ghost var mid := State();
        BatchSettles(p, mid, completed, Done(hi, outstanding), lo, hi, j);
        settled := CompleteBatch(batches[j], version, completed, fate);
        if !settled {
          StoppedInside(p, mid, State(), completed, Done(hi, outstanding), lo, hi, j);
          return;
        }
        completed := completed + Elements(batches[j]);
        embedded := embedded + |batches[j]|;
        outstanding := outstanding - {j};
        completions := completions + 1;
      }
      settled := true;
    }

    /** All batches of a window are embedded at once. */
    method SubmitWindow(ghost p: Plan, batches: seq<seq<Id>>, lo: nat, hi: nat, ghost completed: set<Id>)
      requires p.batches == batches && lo <= hi <= |batches| && hi <= lo + p.width
      requires Midway(p, State(), completed, Range(0, lo), lo, lo)
      modifies this`log
      ensures Midway(p, State(), completed, Range(0, lo), lo, hi)
    {
      WindowOpens(p, State(), completed, Range(0, lo), lo, hi);
      log := log + Flat(batches[lo..hi]);
    }

    /** The loop over windows: submit one, drain it, move on. */
    method RunWindows(ghost p: Plan, batches: seq<seq<Id>>, version: string, width: nat, loaded: set<Id>, fates: seq<Fate>)
      returns (settled: bool, embedded: nat)
      requires Sound(p) && p.batches == batches && p.version == version && p.width == width > 0
      requires Midway(p, State(), loaded, {}, 0, 0)
      modifies this
      ensures settled ==> exists completed :: Midway(p, State(), completed, Range(0, |batches|), |batches|, |batches|)
      ensures settled ==> embedded == |Settled(batches, Range(0, |batches|))|
      ensures !settled ==> exists credited :: Stopped(p, State(), credited, Exposure(p))
      ensures settled <==> AllSettle(fates, 0, |batches|)
    {
      var completed := loaded;
      var offset := 0;
      embedded := 0;
      NothingSettled(batches);
      while offset < |batches|
        invariant offset <= |batches|
        invariant Midway(p, State(), completed, Range(0, offset), offset, offset)
        invariant embedded == |Settled(batches, Range(0, offset))|
        invariant AllSettle(fates, 0, offset)
      {
        var hi := if offset + width <= |batches| then offset + width else |batches|;
        SettleOn(fates, 0, offset, hi);
        SettleOn(fates, 0, hi, |batches|);
        SubmitWindow(p, batches, offset, hi, completed);
        var count;
        settled, completed, count := DrainWindow(p, batches, version, offset, hi, completed, fates);
        if !settled {
          return;
        }
        embedded := embedded + count;
        offset := hi;
      }
      settled := true;
    }

    /** One start of the command. `fates` decides, completion by completion, what becomes of the
        batches; which outstanding batch completes next is left open. */
    method Rebuild(chunks: seq<Id>, version: string, chunksPerBatch: int, concurrency: int, fates: seq<Fate>)
      returns (r: Result<Report>)
      requires NoRepeats(chunks)
      modifies this
      ensures r == Err(Refused(BadBatchSize)) <==> !(1 <= chunksPerBatch <= 10)
      ensures r == Err(Refused(BadConcurrency)) <==> 1 <= chunksPerBatch <= 10 && concurrency < 1
      ensures 1 <= chunksPerBatch <= 10 && 1 <= concurrency ==>
                RunEffect(old(State()), State(), chunks, version, chunksPerBatch * concurrency, r.Ok?)
      ensures r.Ok? ==>
                && r.value.active == |chunks|
                && r.value.indexed + r.value.skipped == r.value.active
                && r.value.indexed == |log| - old(|log|)
                && r.value.skipped == |chunks| - |Pending(chunks, Recorded(old(checkpoint)))|
                && r.value.embeddingCalls == |Batches(Pending(chunks, Recorded(old(checkpoint))), chunksPerBatch)|
      ensures 1 <= chunksPerBatch <= 10 && 1 <= concurrency ==>
                && (r == Err(Refused(VersionDiffers)) <==> old(checkpoint).Saved? && old(checkpoint).version != version)
                && (r == Err(Refused(Unreadable)) <==> old(checkpoint).Torn?)
      ensures r.Err? && r.error.Refused? ==> State() == old(State())
      ensures r.Ok? <==>
                && 1 <= chunksPerBatch <= 10 && 1 <= concurrency && !old(checkpoint).Torn?
                && (old(checkpoint).Saved? ==> old(checkpoint).version == version)
                && AllSettle(fates, 0, |Batches(Pending(chunks, Recorded(old(checkpoint))), chunksPerBatch)|)
    {
      if chunksPerBatch < 1 || chunksPerBatch > 10 {
        return Err(Refused(BadBatchSize));
      }
      if concurrency < 1 {
        return Err(Refused(BadConcurrency));
      }
      ghost var pre := State();
      var loaded := Load(checkpoint, version);
      if loaded.Err? {
        NothingDone(pre, chunks, version, chunksPerBatch * concurrency);
        return Err(loaded.error);
      }
      var pending := Pending(chunks, loaded.value);
      var batches := Batches(pending, chunksPerBatch);
      ghost var p := Plan(pre, pending, batches, version, chunksPerBatch, concurrency);
      RunStarts(p, chunks);
      var settled, embedded := RunWindows(p, batches, version, concurrency, loaded.value, fates);
      if !settled {
        StopsShort(p, State(), chunks);
        return Err(Interrupted);
      }
      Finishes(p, State(), chunks);
      BatchCount(pending, chunksPerBatch);
      r := Ok(Report(|chunks|, embedded, |chunks| - |pending|, (|pending| + chunksPerBatch - 1) / chunksPerBatch));
    }
  }
}
