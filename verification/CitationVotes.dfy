/** Three verifier samples per report: aligning each sample's verdicts with the report's claims
    and taking the majority claim by claim. */
module CitationVotes {
  import opened Collections

  datatype Status = Supported | PartiallySupported | Unsupported

  /** The value of a status, in halves. */
  function Points(s: Status): (p: nat)
    ensures p <= 2
  {
    match s
    case Supported => 2
    case PartiallySupported => 1
    case Unsupported => 0
  }

  datatype Verdict = Verdict(claim: string, status: Status, reason: string)

  datatype Error = NotThreeSamples | CountMismatch | DuplicateVerdict | UnknownClaim

  datatype Result<+T> = Ok(value: T) | Err(error: Error)

  /** How the claims' text is normalized before it is compared. */
  type Normalizer = string -> string

  // ----- three votes

  function Votes(statuses: seq<Status>, s: Status): nat {
    if statuses == [] then 0 else (if statuses[0] == s then 1 else 0) + Votes(statuses[1..], s)
  }

  /** The status that occurs most often, the first such in order of appearance. */
  function MostCommon(statuses: seq<Status>): (s: Status)
    requires statuses != []
  {
    var best := MostCommonIn(statuses, statuses);
    best
  }

  function MostCommonIn(left: seq<Status>, statuses: seq<Status>): Status
    requires left != []
  {
    if |left| == 1 then left[0]
    else
      var rest := MostCommonIn(left[1..], statuses);
      if Votes(statuses, left[0]) >= Votes(statuses, rest) then left[0] else rest
  }

  function Insert(s: Status, sorted: seq<Status>): seq<Status> {
    if sorted == [] || Points(s) < Points(sorted[0]) then [s] + sorted else [sorted[0]] + Insert(s, sorted[1..])
  }

  function Sorted(statuses: seq<Status>): (r: seq<Status>)
    ensures |r| == |statuses|
  {
    if statuses == [] then []
    else
      var k := |statuses| - 1;
      InsertLength(statuses[k], Sorted(statuses[..k]));
      Insert(statuses[k], Sorted(statuses[..k]))
  }

  lemma {:induction false} InsertLength(s: Status, sorted: seq<Status>)
    ensures |Insert(s, sorted)| == |sorted| + 1
  {
    if sorted == [] {
    } else {
      InsertLength(s, sorted[1..]);
    }
  }

  function MajorityStatus(statuses: seq<Status>): Option<Status> {
    if |statuses| != 3 then None
    else
      var s := MostCommon(statuses);
      if Votes(statuses, s) >= 2 then Some(s) else Some(Sorted(statuses)[1])
  }

  /** At least two of the three votes are no better, and at least two no worse. */
  predicate IsMedian(s: Status, a: Status, b: Status, c: Status) {
    var p := Points(s);
    && s in {a, b, c}
    && (if Points(a) <= p then 1 else 0) + (if Points(b) <= p then 1 else 0) + (if Points(c) <= p then 1 else 0) >= 2
    && (if Points(a) >= p then 1 else 0) + (if Points(b) >= p then 1 else 0) + (if Points(c) >= p then 1 else 0) >= 2
  }

  lemma ThreeVotes(a: Status, b: Status, c: Status, s: Status)
    ensures Votes([a, b, c], s) == (if a == s then 1 else 0) + (if b == s then 1 else 0) + (if c == s then 1 else 0)
  {
    assert [a, b, c][1..] == [b, c] && [b, c][1..] == [c] && [c][1..] == [];
    assert Votes([c], s) == if c == s then 1 else 0;
    assert Votes([b, c], s) == (if b == s then 1 else 0) + Votes([c], s);
  }

  lemma MostCommonOfThree(a: Status, b: Status, c: Status)
    ensures MostCommon([a, b, c]) == if a == b || a == c then a else if b == c then b else a
  {
    var votes := [a, b, c];
    assert votes[1..] == [b, c] && [b, c][1..] == [c];
    ThreeVotes(a, b, c, a);
    ThreeVotes(a, b, c, b);
    ThreeVotes(a, b, c, c);
    assert MostCommonIn([c], votes) == c;
    assert MostCommonIn([b, c], votes) == if Votes(votes, b) >= Votes(votes, c) then b else c;
  }

  lemma SortedMiddle(a: Status, b: Status, c: Status)
    requires a != b && b != c && a != c
    ensures Sorted([a, b, c])[1] == PartiallySupported
  {
    assert [a, b, c][..2] == [a, b] && [a, b][..1] == [a] && [a][..0] == [];
    assert Sorted([a]) == [a];
    assert Insert(b, [a]) == if Points(b) < Points(a) then [b, a] else [a, b];
    assert Sorted([a, b]) == Insert(b, [a]);
    var low, high := Sorted([a, b])[0], Sorted([a, b])[1];
    assert [low, high][1..] == [high] && [high][1..] == [];
    assert Insert(c, [high]) == if Points(c) < Points(high) then [c, high] else [high, c];
  }

  /** The majority of three votes, ties included, is their ordinal median. */
  lemma MajorityIsMedian(a: Status, b: Status, c: Status)
    ensures MajorityStatus([a, b, c]).Some?
    ensures forall s :: MajorityStatus([a, b, c]) == Some(s) <==> IsMedian(s, a, b, c)
  {
    MostCommonOfThree(a, b, c);
    ThreeVotes(a, b, c, MostCommon([a, b, c]));
    if a != b && b != c && a != c {
      SortedMiddle(a, b, c);
    }
  }

  // ----- aligning one sample

  predicate KeysDistinct(texts: seq<string>, norm: Normalizer) {
    forall i, j :: 0 <= i < j < |texts| ==> norm(texts[i]) != norm(texts[j])
  }

  function Claims(sample: seq<Verdict>): seq<string> {
    seq(|sample|, i requires 0 <= i < |sample| => sample[i].claim)
  }

  /** `v` is the sample's verdict on `claim`. */
  predicate Judges(v: Verdict, claim: string, norm: Normalizer) {
    norm(v.claim) == norm(claim)
  }

  ghost predicate Aligned(aligned: seq<Verdict>, claims: seq<string>, sample: seq<Verdict>, norm: Normalizer) {
    && |aligned| == |claims|
    && forall i :: 0 <= i < |claims| ==> aligned[i] in sample && Judges(aligned[i], claims[i], norm)
  }

  lemma OneMoreKey(sample: seq<Verdict>, i: nat, norm: Normalizer)
    requires i < |sample| && KeysDistinct(Claims(sample[..i]), norm)
    requires forall j :: 0 <= j < i ==> norm(sample[j].claim) != norm(sample[i].claim)
    ensures KeysDistinct(Claims(sample[..i + 1]), norm)
  {
    var now, before := Claims(sample[..i + 1]), Claims(sample[..i]);
    assert forall j :: 0 <= j < i ==> now[j] == before[j] == sample[j].claim;
    assert now[i] == sample[i].claim;
  }

  /** The verdicts judge different texts, every claim's among them. */
  ghost predicate Alignable(claims: seq<string>, sample: seq<Verdict>, norm: Normalizer) {
    && KeysDistinct(Claims(sample), norm)
    && forall c :: c in claims ==> exists v :: v in sample && Judges(v, c, norm)
  }

  lemma KeyTaken(sample: seq<Verdict>, i: nat, v: Verdict, norm: Normalizer)
    requires i < |sample| && v in sample[..i] && norm(v.claim) == norm(sample[i].claim)
    ensures !KeysDistinct(Claims(sample), norm)
  {
    var j :| 0 <= j < i && sample[j] == v;
    assert norm(Claims(sample)[j]) == norm(Claims(sample)[i]);
  }

  method AlignSample(claims: seq<string>, sample: seq<Verdict>, norm: Normalizer) returns (r: Result<seq<Verdict>>)
    ensures r.Ok? <==> Alignable(claims, sample, norm)
    ensures r.Ok? ==> Aligned(r.value, claims, sample, norm)
    ensures r == Err(DuplicateVerdict) <==> !KeysDistinct(Claims(sample), norm)
    ensures r.Err? ==> r.error.DuplicateVerdict? || r.error.UnknownClaim?
  {
    var byClaim: map<string, Verdict> := map[];
    var i := 0;
    while i < |sample|
      invariant i <= |sample|
      invariant forall j :: 0 <= j < i ==> norm(sample[j].claim) in byClaim && byClaim[norm(sample[j].claim)] == sample[j]
      invariant forall key :: key in byClaim ==> byClaim[key] in sample[..i] && norm(byClaim[key].claim) == key
      invariant KeysDistinct(Claims(sample[..i]), norm)
    {
      var key := norm(sample[i].claim);
      if key in byClaim {
        KeyTaken(sample, i, byClaim[key], norm);
        return Err(DuplicateVerdict);
      }
      byClaim := byClaim[key := sample[i]];
      OneMoreKey(sample, i, norm);
      i := i + 1;
    }
    assert sample[..i] == sample;
    var aligned: seq<Verdict> := [];
    i := 0;
    while i < |claims|
      invariant i <= |claims| && |aligned| == i
      invariant forall j :: 0 <= j < i ==> aligned[j] in sample && Judges(aligned[j], claims[j], norm)
    {
      if norm(claims[i]) !in byClaim {
        assert claims[i] in claims;
        return Err(UnknownClaim);
      }
      aligned := aligned + [byClaim[norm(claims[i])]];
      i := i + 1;
    }
    return Ok(aligned);
  }

  lemma OneVerdictPerKey(sample: seq<Verdict>, v: Verdict, w: Verdict, norm: Normalizer)
    requires KeysDistinct(Claims(sample), norm) && v in sample && w in sample && norm(v.claim) == norm(w.claim)
    ensures v == w
  {
    var i :| 0 <= i < |sample| && sample[i] == v;
    var j :| 0 <= j < |sample| && sample[j] == w;
    assert Claims(sample)[i] == v.claim && Claims(sample)[j] == w.claim;
  }

  /** An alignment depends neither on the order of the verdicts nor on anything else. */
  lemma AlignmentIsUnique(x: seq<Verdict>, y: seq<Verdict>, claims: seq<string>, sample: seq<Verdict>, permuted: seq<Verdict>, norm: Normalizer)
    requires KeysDistinct(Claims(sample), norm) && multiset(sample) == multiset(permuted)
    requires Aligned(x, claims, sample, norm) && Aligned(y, claims, permuted, norm)
    ensures x == y
  {
    forall i | 0 <= i < |claims|
      ensures x[i] == y[i]
    {
      assert y[i] in multiset(sample);
      OneVerdictPerKey(sample, x[i], y[i], norm);
    }
  }

  /** As many verdicts as claims, all aligned: every verdict is used exactly once, exactly when
      no two claims have the same normalized text. */
  lemma VerdictsUsedOnce(aligned: seq<Verdict>, claims: seq<string>, sample: seq<Verdict>, norm: Normalizer)
    requires KeysDistinct(Claims(sample), norm) && |sample| == |claims| && Aligned(aligned, claims, sample, norm)
    ensures multiset(aligned) == multiset(sample) <==> KeysDistinct(claims, norm)
  {
    SampleHasNoRepeats(sample, norm);
    if KeysDistinct(claims, norm) {
      assert NoRepeats(aligned) by {
        forall i, j | 0 <= i < j < |aligned|
          ensures aligned[i] != aligned[j]
        {
          assert Judges(aligned[i], claims[i], norm) && Judges(aligned[j], claims[j], norm);
        }
      }
      SizeOfDistinct(aligned);
      SizeOfDistinct(sample);
      var used, given := Elements(aligned), Elements(sample);
      SubsetSize(used, given);
      forall v: Verdict
        ensures multiset(aligned)[v] == multiset(sample)[v]
      {
        CountOfDistinct(aligned, v);
        CountOfDistinct(sample, v);
        assert v in aligned <==> v in used;
        assert v in sample <==> v in given;
      }
      assert multiset(aligned) == multiset(sample);
    } else {
      var i, j :| 0 <= i < j < |claims| && norm(claims[i]) == norm(claims[j]);
      OneVerdictPerKey(sample, aligned[i], aligned[j], norm);
      TwoCopies(aligned, i, j);
      CountOfDistinct(sample, aligned[i]);
    }
  }

  /** A report that makes a claim twice uses the claim's verdict twice, and another one never. */
  lemma RepeatedClaimWastesVerdict(first: Verdict, other: Verdict, norm: Normalizer)
    requires norm(first.claim) != norm(other.claim)
    ensures var claims, sample := [first.claim, first.claim], [first, other];
            && Alignable(claims, sample, norm)
            && Aligned([first, first], claims, sample, norm)
            && multiset([first, first])[first] == 2 && other !in [first, first]
  {
    var claims, sample := [first.claim, first.claim], [first, other];
    assert Claims(sample) == [first.claim, other.claim];
    assert first in sample && Judges(first, first.claim, norm);
    forall c | c in claims
      ensures exists v :: v in sample && Judges(v, c, norm)
    {
    }
  }

  lemma SampleHasNoRepeats(sample: seq<Verdict>, norm: Normalizer)
    requires KeysDistinct(Claims(sample), norm)
    ensures NoRepeats(sample)
  {
    forall i, j | 0 <= i < j < |sample|
      ensures sample[i] != sample[j]
    {
      assert norm(Claims(sample)[i]) != norm(Claims(sample)[j]);
    }
  }

  // ----- one case

  /** What a case must bring to be aggregated. */
  ghost predicate Aggregable(claims: seq<string>, samples: seq<seq<Verdict>>, norm: Normalizer) {
    |samples| == 3 && forall k :: 0 <= k < 3 ==> |samples[k]| == |claims| && Alignable(claims, samples[k], norm)
  }

  /** The aligned samples and the median of every claim. */
  ghost predicate Aggregated(majority: seq<Status>, aligned: seq<seq<Verdict>>, claims: seq<string>, samples: seq<seq<Verdict>>, norm: Normalizer) {
    && |samples| == |aligned| == 3 && |majority| == |claims|
    && (forall k :: 0 <= k < 3 ==>
          |samples[k]| == |claims| && KeysDistinct(Claims(samples[k]), norm) && Aligned(aligned[k], claims, samples[k], norm))
    && forall i :: 0 <= i < |claims| ==> IsMedian(majority[i], aligned[0][i].status, aligned[1][i].status, aligned[2][i].status)
  }

  ghost predicate FirstUnaligned(claims: seq<string>, samples: seq<seq<Verdict>>, norm: Normalizer, k: nat) {
    && k < |samples| && !Alignable(claims, samples[k], norm)
    && forall m :: 0 <= m < k ==> Alignable(claims, samples[m], norm)
  }

  method AggregateCase(claims: seq<string>, samples: seq<seq<Verdict>>, norm: Normalizer)
    returns (r: Result<(seq<Status>, seq<seq<Verdict>>)>)
    ensures |samples| != 3 <==> r == Err(NotThreeSamples)
    ensures r == Err(CountMismatch) <==> |samples| == 3 && exists s :: s in samples && |s| != |claims|
    ensures r.Ok? <==> Aggregable(claims, samples, norm)
    ensures r.Err? && |samples| == 3 && (forall s :: s in samples ==> |s| == |claims|) ==>
              exists k :: 0 <= k < 3 && FirstUnaligned(claims, samples, norm, k)
                && r.error == if KeysDistinct(Claims(samples[k]), norm) then UnknownClaim else DuplicateVerdict
    ensures r.Ok? ==> Aggregated(r.value.0, r.value.1, claims, samples, norm)
  {
    if |samples| != 3 {
      return Err(NotThreeSamples);
    }
    if exists s :: s in samples && |s| != |claims| {
      return Err(CountMismatch);
    }
    assert samples[0] in samples && samples[1] in samples && samples[2] in samples;
    var aligned: seq<seq<Verdict>> := [];
    for k := 0 to 3
      invariant |aligned| == k
      invariant forall m :: 0 <= m < k ==> KeysDistinct(Claims(samples[m]), norm) && Aligned(aligned[m], claims, samples[m], norm)
      invariant forall m :: 0 <= m < k ==> Alignable(claims, samples[m], norm)
    {
      var one := AlignSample(claims, samples[k], norm);
      if one.Err? {
        assert FirstUnaligned(claims, samples, norm, k);
        return Err(one.error);
      }
      aligned := aligned + [one.value];
    }
    var majority := MajorityClaims(|claims|, aligned);
    return Ok((majority, aligned));
  }

  /** The vote over each claim. */
  method MajorityClaims(n: nat, aligned: seq<seq<Verdict>>) returns (majority: seq<Status>)
    requires |aligned| == 3 && |aligned[0]| == |aligned[1]| == |aligned[2]| == n
    ensures |majority| == n
    ensures forall i :: 0 <= i < n ==> IsMedian(majority[i], aligned[0][i].status, aligned[1][i].status, aligned[2][i].status)
  {
    majority := [];
    for i := 0 to n
      invariant |majority| == i
      invariant forall m :: 0 <= m < i ==> IsMedian(majority[m], aligned[0][m].status, aligned[1][m].status, aligned[2][m].status)
    {
      var a, b, c := aligned[0][i].status, aligned[1][i].status, aligned[2][i].status;
      MajorityIsMedian(a, b, c);
      majority := majority + [MajorityStatus([a, b, c]).value];
    }
  }

  /** The order of the samples does not matter. */
  lemma VoteIgnoresOrder(a: Status, b: Status, c: Status, u: Status, v: Status, w: Status)
    requires multiset{a, b, c} == multiset{u, v, w}
    ensures MajorityStatus([a, b, c]) == MajorityStatus([u, v, w])
  {
    ThreePermuted(a, b, c, u, v, w);
    MajorityIsMedian(a, b, c);
    MajorityIsMedian(u, v, w);
    MedianIsSymmetric(MajorityStatus([a, b, c]).value, a, b, c);
  }

  lemma MedianIsSymmetric(s: Status, a: Status, b: Status, c: Status)
    requires IsMedian(s, a, b, c)
    ensures IsMedian(s, a, c, b) && IsMedian(s, b, a, c) && IsMedian(s, b, c, a) && IsMedian(s, c, a, b) && IsMedian(s, c, b, a)
  {
  }

  /** Permuting the verdicts of a sample does not change whether it aligns. */
  lemma AlignableIgnoresOrder(claims: seq<string>, x: seq<Verdict>, y: seq<Verdict>, norm: Normalizer)
    requires multiset(x) == multiset(y) && Alignable(claims, x, norm)
    ensures Alignable(claims, y, norm)
  {
    SampleHasNoRepeats(x, norm);
    forall i, j | 0 <= i < j < |y|
      ensures norm(Claims(y)[i]) != norm(Claims(y)[j])
    {
      assert y[i] in multiset(x) && y[j] in multiset(x);
      if norm(y[i].claim) == norm(y[j].claim) {
        OneVerdictPerKey(x, y[i], y[j], norm);
        TwoCopies(y, i, j);
        CountOfDistinct(x, y[i]);
        assert false;
      }
    }
    forall c | c in claims
      ensures exists v :: v in y && Judges(v, c, norm)
    {
      var v :| v in x && Judges(v, c, norm);
      assert v in multiset(y);
    }
  }

  /** The samples of `y` are those of `x`, in another order and with their verdicts reordered. */
  ghost predicate Reordered(x: seq<seq<Verdict>>, y: seq<seq<Verdict>>) {
    && |x| == |y| == 3
    && multiset{multiset(x[0]), multiset(x[1]), multiset(x[2])} == multiset{multiset(y[0]), multiset(y[1]), multiset(y[2])}
  }

  lemma MatchingSample(x: seq<seq<Verdict>>, y: seq<seq<Verdict>>, k: nat)
    requires Reordered(x, y) && k < 3
    ensures exists m :: 0 <= m < 3 && multiset(x[m]) == multiset(y[k])
  {
    ThreePermuted(multiset(x[0]), multiset(x[1]), multiset(x[2]), multiset(y[0]), multiset(y[1]), multiset(y[2]));
    assert k == 0 || k == 1 || k == 2;
  }

  /** Reordered samples are accepted alike... */
  lemma AggregationIgnoresOrder(claims: seq<string>, x: seq<seq<Verdict>>, y: seq<seq<Verdict>>, norm: Normalizer)
    requires Reordered(x, y) && Aggregable(claims, x, norm)
    ensures Aggregable(claims, y, norm)
  {
    forall k | 0 <= k < 3
      ensures |y[k]| == |claims| && Alignable(claims, y[k], norm)
    {
      MatchingSample(x, y, k);
      var m :| 0 <= m < 3 && multiset(x[m]) == multiset(y[k]);
      PermutedSize(x[m], y[k]);
      AlignableIgnoresOrder(claims, x[m], y[k], norm);
    }
  }

  /** ...and every claim gets the same status. */
  lemma StatusesIgnoreOrder(m: seq<Status>, u: seq<seq<Verdict>>, x: seq<seq<Verdict>>, n: seq<Status>, v: seq<seq<Verdict>>, y: seq<seq<Verdict>>,
                            claims: seq<string>, norm: Normalizer)
    requires Aggregated(m, u, claims, x, norm) && Aggregated(n, v, claims, y, norm) && Reordered(x, y)
    ensures m == n
  {
    forall j, k | 0 <= j < 3 && 0 <= k < 3 && multiset(x[j]) == multiset(y[k])
      ensures u[j] == v[k]
    {
      AlignmentIsUnique(u[j], v[k], claims, x[j], y[k], norm);
    }
    ThreePermuted(multiset(x[0]), multiset(x[1]), multiset(x[2]), multiset(y[0]), multiset(y[1]), multiset(y[2]));
    forall i | 0 <= i < |claims|
      ensures m[i] == n[i]
    {
      SameMedian(m[i], n[i], u[0][i].status, u[1][i].status, u[2][i].status, v[0][i].status, v[1][i].status, v[2][i].status);
    }
  }

  lemma SameMedian(s: Status, t: Status, a: Status, b: Status, c: Status, u: Status, v: Status, w: Status)
    requires IsMedian(s, a, b, c) && IsMedian(t, u, v, w)
    requires (u == a && PairIs(b, c, v, w)) || (u == b && PairIs(a, c, v, w)) || (u == c && PairIs(a, b, v, w))
    ensures s == t
  {
    MedianIsSymmetric(s, a, b, c);
    MajorityIsMedian(u, v, w);
  }

  // ----- rates

  function Total(statuses: seq<Status>): nat {
    if statuses == [] then 0 else Points(statuses[0]) + Total(statuses[1..])
  }

  function StatusesOf(verdicts: seq<Verdict>): seq<Status> {
    seq(|verdicts|, i requires 0 <= i < |verdicts| => verdicts[i].status)
  }

  /** The unrounded support rate. */
  function Rate(statuses: seq<Status>): real {
    if statuses == [] then 0.0 else (Total(statuses) as real) / (2 * |statuses|) as real
  }

  lemma {:induction false} TotalCounts(statuses: seq<Status>)
    ensures Total(statuses) == 2 * multiset(statuses)[Supported] + multiset(statuses)[PartiallySupported]
  {
    if statuses == [] {
    } else {
      assert statuses == [statuses[0]] + statuses[1..];
      TotalCounts(statuses[1..]);
    }
  }

  /** A supported claim counts in full, a partially supported one half and an unsupported one not at
      all: the rate is their share of the claims. */
  lemma RateIsShareOfClaims(statuses: seq<Status>)
    requires statuses != []
    ensures Rate(statuses) * |statuses| as real
            == multiset(statuses)[Supported] as real + multiset(statuses)[PartiallySupported] as real / 2.0
  {
    TotalCounts(statuses);
    HalfOfQuotient(Total(statuses) as real, |statuses| as real);
  }

  lemma HalfOfQuotient(t: real, n: real)
    requires n > 0.0
    ensures t / (2.0 * n) * n == t / 2.0
  {
    assert t / (2.0 * n) * (2.0 * n) == t;
  }

  lemma {:induction false} TotalWithout(statuses: seq<Status>, i: nat)
    requires i < |statuses|
    ensures Total(statuses) == Points(statuses[i]) + Total(Removed(statuses, i))
  {
    var rest := Removed(statuses, i);
    if i == 0 {
      assert rest == statuses[1..];
    } else {
      TotalWithout(statuses[1..], i - 1);
      assert rest[1..] == Removed(statuses[1..], i - 1);
    }
  }

  lemma {:induction false} TotalOfPermuted(x: seq<Status>, y: seq<Status>)
    requires multiset(x) == multiset(y)
    ensures Total(x) == Total(y)
    decreases |x|
  {
    PermutedSize(x, y);
    if x == [] {
      assert y == [];
    } else {
      assert x[0] in multiset(y);
      var j :| 0 <= j < |y| && y[j] == x[0];
      RestsPermuted(x, y, 0, j);
      assert Removed(x, 0) == x[1..];
      TotalOfPermuted(x[1..], Removed(y, j));
      TotalWithout(y, j);
    }
  }

  lemma {:induction false} StatusesPermuted(x: seq<Verdict>, y: seq<Verdict>)
    requires multiset(x) == multiset(y)
    ensures multiset(StatusesOf(x)) == multiset(StatusesOf(y))
    decreases |x|
  {
    PermutedSize(x, y);
    if x == [] {
      assert y == [];
    } else {
      assert x[0] in multiset(y);
      var j :| 0 <= j < |y| && y[j] == x[0];
      RestsPermuted(x, y, 0, j);
      assert Removed(x, 0) == x[1..];
      StatusesPermuted(x[1..], Removed(y, j));
      StatusesWithout(x, 0);
      StatusesWithout(y, j);
    }
  }

  lemma StatusesWithout(x: seq<Verdict>, i: nat)
    requires i < |x|
    ensures multiset(StatusesOf(x)) == multiset(StatusesOf(Removed(x, i))) + multiset{x[i].status}
  {
    assert StatusesOf(Removed(x, i)) == Removed(StatusesOf(x), i);
    RemovedCounts(StatusesOf(x), i);
  }

  lemma {:induction false} MedianTotals(m: seq<Status>, a: seq<Status>, b: seq<Status>, c: seq<Status>)
    requires |m| == |a| == |b| == |c|
    requires forall i :: 0 <= i < |m| ==> IsMedian(m[i], a[i], b[i], c[i])
    ensures Total(a) + Total(b) + Total(c) <= 2 * Total(m) + 2 * |m|
    ensures 2 * Total(m) <= Total(a) + Total(b) + Total(c)
  {
    if m == [] {
    } else {
      MedianTotals(m[1..], a[1..], b[1..], c[1..]);
      assert IsMedian(m[0], a[0], b[0], c[0]);
    }
  }

  /** With S the sum of the three samples' rates, the majority rate R lies between (S - 1) / 2
      and S / 2: three samples never move the result further than half a point per claim. */
  lemma MajorityRateIsBounded(majority: seq<Status>, aligned: seq<seq<Verdict>>, claims: seq<string>, samples: seq<seq<Verdict>>, norm: Normalizer)
    requires claims != [] && KeysDistinct(claims, norm)
    requires Aggregated(majority, aligned, claims, samples, norm)
    ensures var s := Rate(StatusesOf(samples[0])) + Rate(StatusesOf(samples[1])) + Rate(StatusesOf(samples[2]));
            (s - 1.0) / 2.0 <= Rate(majority) <= s / 2.0
  {
    forall k | 0 <= k < 3
      ensures Total(StatusesOf(aligned[k])) == Total(StatusesOf(samples[k]))
    {
      VerdictsUsedOnce(aligned[k], claims, samples[k], norm);
      StatusesPermuted(aligned[k], samples[k]);
      TotalOfPermuted(StatusesOf(aligned[k]), StatusesOf(samples[k]));
    }
    MedianTotals(majority, StatusesOf(aligned[0]), StatusesOf(aligned[1]), StatusesOf(aligned[2]));
    RatesFromTotals(Total(majority), Total(StatusesOf(samples[0])), Total(StatusesOf(samples[1])), Total(StatusesOf(samples[2])), |claims|);
  }

  lemma RatesFromTotals(m: nat, a: nat, b: nat, c: nat, n: nat)
    requires n > 0 && a + b + c <= 2 * m + 2 * n && 2 * m <= a + b + c
    ensures var d := (2 * n) as real;
            var s := (a as real) / d + (b as real) / d + (c as real) / d;
            (s - 1.0) / 2.0 <= (m as real) / d <= s / 2.0
  {
    Quotients(m as real, a as real, b as real, c as real, (2 * n) as real);
  }

  lemma Quotients(m: real, a: real, b: real, c: real, d: real)
    requires d > 0.0 && a + b + c <= 2.0 * m + d && 2.0 * m <= a + b + c
    ensures (a / d + b / d + c / d - 1.0) / 2.0 <= m / d <= (a / d + b / d + c / d) / 2.0
  {
    SumOfQuotients(a, b, c, d);
    DividedMonotone(2.0 * m, a + b + c, d);
    DividedMonotone(a + b + c, 2.0 * m + d, d);
    Added(m, m, d);
    Added(2.0 * m, d, d);
  }

  lemma SumOfQuotients(a: real, b: real, c: real, d: real)
    requires d > 0.0
    ensures a / d + b / d + c / d == (a + b + c) / d
  {
    Added(a, b, d);
    Added(a + b, c, d);
  }

  lemma Added(x: real, y: real, d: real)
    requires d > 0.0
    ensures x / d + y / d == (x + y) / d
  {
  }

  lemma DividedMonotone(x: real, y: real, d: real)
    requires x <= y && d > 0.0
    ensures x / d <= y / d
  {
  }
}
