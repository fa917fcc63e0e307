/** Downloading the originals a corpus manifest lists, under one request budget that all
    documents share and a retry limit for each of them. */
module Downloads {
  import opened Collections

  type Bytes = seq<bv8>

  /** What one request comes back with. */
  datatype Response =
    | Status(code: int)                                    // an answer other than 200
    | Body(data: Bytes, declared: Option<int>, usable: bool)
    | HttpError(code: int)
    | NetworkFailure

  datatype Reason =
    | RequestBudgetExhausted | HttpStatus(code: int) | TruncatedResponse | NotOriginal | NetworkError | Unreachable

  datatype Fetched = Data(data: Bytes) | Failed(reason: Reason)

  /** `path` is the resolved target; `bytes` and `sha256` are what the manifest recorded. */
  datatype Document = Document(path: string, url: string, bytes: nat, sha256: string)

  /** The network answers request number `n`, for some URL, as it likes. */
  type Network = (nat, string) -> Response

  predicate Matches(data: Bytes, d: Document, digest: Bytes -> string) {
    |data| == d.bytes && digest(data) == d.sha256
  }

  predicate Truncated(r: Response) {
    r.Body? && r.declared.Some? && r.declared.value != |r.data|
  }

  predicate Good(r: Response) {
    r.Body? && r.usable && !Truncated(r)
  }

  /** What is reported for a response that ends the attempts for a document. */
  function Refusal(r: Response): Reason {
    match r
    case Status(code) => HttpStatus(code)
    case HttpError(code) => HttpStatus(code)
    case NetworkFailure => NetworkError
    case Body(_, _, _) => if Truncated(r) then TruncatedResponse else NotOriginal
  }

  /** The network always answers with the bytes the manifest recorded. */
  ghost predicate Serves(net: Network, d: Document, digest: Bytes -> string) {
    forall n :: Good(net(n, d.url)) && Matches(net(n, d.url).data, d, digest)
  }

  /** A response after which the same document may be asked for again. */
  predicate Retryable(r: Response) {
    r.NetworkFailure? || (r.HttpError? && r.code >= 500)
  }

  class Downloader {
    var budget: int
    var asked: seq<nat>                 // for every request sent, the document it was for
    var files: map<string, Bytes>

    constructor (requestBudget: int, onDisk: map<string, Bytes>)
      ensures budget == requestBudget && asked == [] && files == onDisk
    {
      budget, asked, files := requestBudget, [], onDisk;
    }

    /** The requests for one document. */
    method Download(url: string, document: nat, retries: int, net: Network) returns (r: Fetched)
      modifies this`budget, this`asked
      // how many requests were sent, and for whom
      ensures exists sent: nat :: Sent(old(asked), asked, document, sent, retries) && budget == old(budget) - sent
      ensures old(budget) >= 0 ==> budget >= 0
      ensures old(budget) <= 0 ==> asked == old(asked)
      // all requests but the last were worth repeating
      ensures forall n :: |old(asked)| <= n < |asked| - 1 ==> Retryable(net(n, url))
      ensures r.Data? ==> |asked| > |old(asked)| && Good(net(|asked| - 1, url)) && net(|asked| - 1, url).data == r.data
      // giving up names the last response, which was final or the last one allowed
      ensures r.Failed? && !r.reason.Unreachable? && !r.reason.RequestBudgetExhausted? ==>
                && |asked| > |old(asked)| && !Good(net(|asked| - 1, url)) && r.reason == Refusal(net(|asked| - 1, url))
                && (!Retryable(net(|asked| - 1, url)) || |asked| == |old(asked)| + retries + 1)
      // the fall-through is taken only by a negative retry count
      ensures r == Failed(Unreachable) <==> retries < 0
      ensures r == Failed(RequestBudgetExhausted) ==>
                && budget <= 0 && |asked| <= |old(asked)| + retries
                && forall n :: |old(asked)| <= n < |asked| ==> Retryable(net(n, url))
    {
      var attempt := 0;
      ghost var sent: nat := 0;
      assert asked == old(asked) + Repeated(document, 0);
      while attempt < retries + 1
        invariant 0 <= attempt && (retries >= 0 ==> attempt <= retries + 1) && (retries < 0 ==> attempt == 0)
        invariant sent == attempt
        invariant asked == old(asked) + Repeated(document, sent)
        invariant budget == old(budget) - sent
        invariant old(budget) >= 0 ==> budget >= 0
        invariant old(budget) <= 0 ==> sent == 0
        invariant forall n :: |old(asked)| <= n < |asked| ==> Retryable(net(n, url))
        invariant attempt == retries + 1 ==> retries < 0
      {
        assert Sent(old(asked), asked, document, sent, retries);
        if budget <= 0 {
          return Failed(RequestBudgetExhausted);
        }
        budget := budget - 1;
        var response := net(|asked|, url);
        RepeatedOnce(document, sent);
        asked := asked + [document];
        sent := sent + 1;
        assert Sent(old(asked), asked, document, sent, retries);
        match response {
          case Status(code) =>
            return Failed(HttpStatus(code));
          case Body(data, declared, usable) =>
            if declared.Some? && |data| != declared.value {
              return Failed(TruncatedResponse);
            }
            if !usable {
              return Failed(NotOriginal);
            }
            return Data(data);
          case HttpError(code) =>
            if code < 500 || attempt == retries {
              return Failed(HttpStatus(code));
            }
          case NetworkFailure =>
            if attempt == retries {
              return Failed(NetworkError);
            }
        }
        attempt := attempt + 1;
      }
      assert Sent(old(asked), asked, document, sent, retries);
      return Failed(Unreachable);
    }

    /** One document: kept if it is on disk already, otherwise fetched, verified and written. */
    method ObtainDocument(d: Document, i: nat, retries: int, net: Network, digest: Bytes -> string) returns (outcome: Outcome)
      modifies this
      ensures exists sent: nat :: Sent(old(asked), asked, i, sent, retries) && budget == old(budget) - sent && (outcome.Skipped? ==> sent == 0)
      ensures old(budget) >= 0 ==> budget >= 0
      ensures old(budget) <= 0 ==> asked == old(asked)
      ensures outcome == Downloaded || files == old(files)
      ensures outcome == Downloaded ==> d.path in files && files == old(files)[d.path := files[d.path]]
      ensures outcome != Failure ==> OnDisk(files, d, digest)
      ensures outcome == Skipped <==> OnDisk(old(files), d, digest)
      ensures Serves(net, d, digest) && retries >= 0 && old(budget) > 0 ==> outcome != Failure && |asked| <= |old(asked)| + 1
    {
      if d.path in files && |files[d.path]| == d.bytes && digest(files[d.path]) == d.sha256 {
        assert Sent(old(asked), asked, i, 0, retries) by {
          assert old(asked) + Repeated(i, 0) == asked;
        }
        return Skipped;
      }
      var fetched := Download(d.url, i, retries, net);
      ghost var sent: nat :| Sent(old(asked), asked, i, sent, retries) && budget == old(budget) - sent;
      if Serves(net, d, digest) {
        assert Good(net(|old(asked)|, d.url));
        assert |asked| > 0 ==> Good(net(|asked| - 1, d.url));
        assert |asked| > 0 ==> Matches(net(|asked| - 1, d.url).data, d, digest);
      }
      if fetched.Failed? || |fetched.data| != d.bytes || digest(fetched.data) != d.sha256 {
        return Failure;
      }
      files := files[d.path := fetched.data];
      assert Sent(old(asked), asked, i, sent, retries);
      return Downloaded;
    }

    ghost function Now(): Store
      reads this
    {
      Store(budget, asked, files)
    }

    /** One step of the loop over the manifest. */
    method NextDocument(documents: seq<Document>, i: nat, retries: int, net: Network, digest: Bytes -> string) returns (outcome: Outcome)
      requires i < |documents|
      modifies this
      ensures Stepped(old(Now()), Now(), outcome, documents[i], i, retries, net, digest)
    {
      outcome := ObtainDocument(documents[i], i, retries, net, digest);
      ghost var sent: nat :| Sent(old(asked), asked, i, sent, retries) && budget == old(budget) - sent && (outcome.Skipped? ==> sent == 0);
      assert SentOne(old(Now()), Now(), outcome, i, retries, sent);
    }

    /** The whole manifest. The result is the exit code with the three counters. */
    method DownloadManifest(documents: seq<Document>, retries: int, net: Network, digest: Bytes -> string)
      returns (exitCode: int, downloaded: nat, skipped: nat, failures: nat)
      requires asked == []
      modifies this
      ensures downloaded + skipped + failures == |documents|
      ensures exitCode == 0 <==> failures == 0
      // one budget for all, one retry limit for each
      ensures old(budget) - budget == |asked| && (old(budget) >= 0 ==> |asked| <= old(budget)) && (old(budget) < 0 ==> asked == [])
      ensures Rationed(asked, |documents|, |documents|, retries)
      // and none spent on a document that was skipped
      ensures WithinLimit(|asked|, downloaded + failures, retries)
      // files change only to bytes the manifest recorded for their path
      ensures OnlyRecorded(old(files), files, documents, |documents|, digest)
      // exit code 0: the last document recorded for each path is what is on disk
      ensures exitCode == 0 ==> Held(files, documents, |documents|, digest)
      // one request a document is enough when the network serves what was recorded
      ensures retries >= 0 && old(budget) >= |documents| && AllServed(net, documents, digest) ==> exitCode == 0
      // and a second run has nothing to do
      ensures AllOnDisk(old(files), documents, digest) ==> skipped == |documents| && asked == [] && files == old(files)
    {
      downloaded, skipped, failures := 0, 0, 0;
      var i := 0;
      while i < |documents|
        invariant i <= |documents|
        invariant Progress(old(Now()), Now(), Tally(downloaded, skipped, failures), documents, i, retries, net, digest)
      {
        ghost var before := Now();
        ghost var tally := Tally(downloaded, skipped, failures);
        var outcome := NextDocument(documents, i, retries, net, digest);
        MoreProgress(old(Now()), before, Now(), tally, outcome, documents, i, retries, net, digest);
        match outcome {
          case Skipped => skipped := skipped + 1;
          case Downloaded => downloaded := downloaded + 1;
          case Failure => failures := failures + 1;
        }
        i := i + 1;
      }
      exitCode := if failures > 0 then 1 else 0;
    }
  }

  ghost predicate AllServed(net: Network, documents: seq<Document>, digest: Bytes -> string) {
    forall i :: 0 <= i < |documents| ==> Serves(net, documents[i], digest)
  }

  ghost predicate AllOnDisk(files: map<string, Bytes>, documents: seq<Document>, digest: Bytes -> string) {
    forall i :: 0 <= i < |documents| ==> OnDisk(files, documents[i], digest)
  }

  /** As many requests as `n` documents may need. */
  predicate WithinLimit(sent: nat, n: nat, retries: int) {
    retries >= 0 ==> sent <= n * (retries + 1)
  }

  lemma OneMoreLimit(sent: nat, n: nat, more: nat, retries: int)
    requires WithinLimit(sent, n, retries) && (retries >= 0 ==> more <= retries + 1)
    ensures WithinLimit(sent + more, n + 1, retries)
  {
    assert (n + 1) * (retries + 1) == n * (retries + 1) + (retries + 1);
  }

  datatype Outcome = Skipped | Downloaded | Failure

  // ----- the loop over the manifest

  /** The budget left, the requests sent and the files on disk. */
  datatype Store = Store(budget: int, asked: seq<nat>, files: map<string, Bytes>)

  datatype Tally = Tally(downloaded: nat, skipped: nat, failures: nat) {
    function Count(outcome: Outcome): Tally {
      match outcome
      case Skipped => this.(skipped := skipped + 1)
      case Downloaded => this.(downloaded := downloaded + 1)
      case Failure => this.(failures := failures + 1)
    }
  }

  ghost predicate SentOne(before: Store, after: Store, outcome: Outcome, i: nat, retries: int, sent: nat) {
    && Sent(before.asked, after.asked, i, sent, retries) && after.budget == before.budget - sent
    && (outcome.Skipped? ==> sent == 0)
  }

  /** What obtaining document `i` may have done. */
  ghost predicate Stepped(before: Store, after: Store, outcome: Outcome, d: Document, i: nat, retries: int, net: Network, digest: Bytes -> string) {
    && (exists sent: nat :: SentOne(before, after, outcome, i, retries, sent))
    && (before.budget >= 0 ==> after.budget >= 0)
    && (before.budget <= 0 ==> after.asked == before.asked)
    && (outcome != Downloaded ==> after.files == before.files)
    && (outcome == Downloaded ==> WroteAt(before.files, after.files, d, digest))
    && (outcome != Failure ==> OnDisk(after.files, d, digest))
    && (outcome == Skipped <==> OnDisk(before.files, d, digest))
    && (Serves(net, d, digest) && retries >= 0 && before.budget > 0 ==> outcome != Failure && |after.asked| <= |before.asked| + 1)
  }

  /** The account of a run after the first `i` documents. */
  ghost predicate Progress(start: Store, now: Store, t: Tally, documents: seq<Document>, i: nat, retries: int, net: Network, digest: Bytes -> string)
    requires i <= |documents|
  {
    && t.downloaded + t.skipped + t.failures == i
    && Spending(start, now, t, |documents|, i, retries)
    && OnlyRecorded(start.files, now.files, documents, i, digest)
    && (t.failures == 0 ==> Held(now.files, documents, i, digest))
    && (retries >= 0 && start.budget >= |documents| && AllServed(net, documents, digest) ==> t.failures == 0 && |now.asked| <= i)
    && (AllOnDisk(start.files, documents, digest) ==> t.skipped == i && now.asked == [] && now.files == start.files)
  }

  ghost predicate Spending(start: Store, now: Store, t: Tally, n: nat, i: nat, retries: int) {
    && start.budget - now.budget == |now.asked|
    && (start.budget >= 0 ==> now.budget >= 0)
    && (start.budget < 0 ==> now.asked == [])
    && Rationed(now.asked, n, i, retries)
    && WithinLimit(|now.asked|, t.downloaded + t.failures, retries)
  }

  lemma MoreProgress(start: Store, before: Store, after: Store, t: Tally, outcome: Outcome, documents: seq<Document>, i: nat, retries: int,
                     net: Network, digest: Bytes -> string)
    requires i < |documents| && Progress(start, before, t, documents, i, retries, net, digest)
    requires Stepped(before, after, outcome, documents[i], i, retries, net, digest)
    ensures Progress(start, after, t.Count(outcome), documents, i + 1, retries, net, digest)
  {
    MoreSpending(start, before, after, t, outcome, documents, i, retries, net, digest);
    StillRecorded(start.files, before.files, after.files, documents, i, digest);
    if outcome != Failure && t.failures == 0 {
      StillHeld(before.files, after.files, documents, i, digest);
    }
  }

  lemma MoreSpending(start: Store, before: Store, after: Store, t: Tally, outcome: Outcome, documents: seq<Document>, i: nat, retries: int,
                     net: Network, digest: Bytes -> string)
    requires i < |documents| && Spending(start, before, t, |documents|, i, retries)
    requires Stepped(before, after, outcome, documents[i], i, retries, net, digest)
    ensures Spending(start, after, t.Count(outcome), |documents|, i + 1, retries)
    ensures outcome == Skipped ==> after.asked == before.asked
  {
    var sent: nat :| SentOne(before, after, outcome, i, retries, sent);
    StillRationed(before.asked, after.asked, |documents|, i, sent, retries);
    if sent == 0 {
      assert before.asked + Repeated(i, 0) == before.asked;
    }
    OneMoreLimit(|before.asked|, t.downloaded + t.failures, sent, retries);
  }

  /** `sent` requests were sent for document `i`, within its retry limit. */
  ghost predicate Sent(before: seq<nat>, after: seq<nat>, i: nat, sent: nat, retries: int) {
    after == before + Repeated(i, sent) && (sent == 0 || sent <= retries + 1)
  }

  /** No document before `i` had more requests than its limit, no later one had any. */
  ghost predicate Rationed(asked: seq<nat>, n: nat, i: nat, retries: int) {
    forall k :: 0 <= k < n ==> Count(asked, k) <= if k < i && retries >= 0 then retries + 1 else 0
  }

  lemma StillRationed(before: seq<nat>, after: seq<nat>, n: nat, i: nat, sent: nat, retries: int)
    requires Rationed(before, n, i, retries) && i < n && Sent(before, after, i, sent, retries)
    ensures Rationed(after, n, i + 1, retries)
  {
    CountAll(before, i, sent, n);
  }

  /** A file that changed holds what one of the first `n` documents recorded for its path. */
  ghost predicate OnlyRecorded(before: map<string, Bytes>, after: map<string, Bytes>, documents: seq<Document>, n: nat, digest: Bytes -> string)
    requires n <= |documents|
  {
    && before.Keys <= after.Keys
    && forall path :: path in after ==>
         || (path in before && after[path] == before[path])
         || exists i :: 0 <= i < n && documents[i].path == path && Matches(after[path], documents[i], digest)
  }

  /** Of the first `n` documents, the last one recorded for each path is on disk. */
  ghost predicate Held(files: map<string, Bytes>, documents: seq<Document>, n: nat, digest: Bytes -> string)
    requires n <= |documents|
  {
    forall i :: 0 <= i < n && LastForPath(documents, i, n) ==> OnDisk(files, documents[i], digest)
  }

  predicate OnDisk(files: map<string, Bytes>, d: Document, digest: Bytes -> string) {
    d.path in files && Matches(files[d.path], d, digest)
  }

  /** The only path an obtained document may have changed now holds its recorded bytes. */
  ghost predicate WroteAt(before: map<string, Bytes>, after: map<string, Bytes>, d: Document, digest: Bytes -> string) {
    || after == before
    || (d.path in after && after == before[d.path := after[d.path]] && Matches(after[d.path], d, digest))
  }

  lemma StillRecorded(start: map<string, Bytes>, before: map<string, Bytes>, after: map<string, Bytes>, documents: seq<Document>, i: nat, digest: Bytes -> string)
    requires i < |documents| && WroteAt(before, after, documents[i], digest)
    requires OnlyRecorded(start, before, documents, i, digest)
    ensures OnlyRecorded(start, after, documents, i + 1, digest)
  {
  }

  lemma StillHeld(before: map<string, Bytes>, after: map<string, Bytes>, documents: seq<Document>, i: nat, digest: Bytes -> string)
    requires i < |documents| && WroteAt(before, after, documents[i], digest)
    requires OnDisk(after, documents[i], digest)
    requires Held(before, documents, i, digest)
    ensures Held(after, documents, i + 1, digest)
  {
    forall k | 0 <= k < i && LastForPath(documents, k, i + 1)
      ensures OnDisk(after, documents[k], digest)
    {
      assert LastForPath(documents, k, i);
      assert documents[k].path != documents[i].path;
    }
  }

  function Repeated(document: nat, times: nat): (s: seq<nat>)
    ensures |s| == times
  {
    if times == 0 then [] else Repeated(document, times - 1) + [document]
  }

  lemma RepeatedOnce(document: nat, times: nat)
    ensures Repeated(document, times + 1) == Repeated(document, times) + [document]
  {
  }

  function Count(asked: seq<nat>, document: nat): nat {
    if asked == [] then 0
    else Count(asked[..|asked| - 1], document) + (if asked[|asked| - 1] == document then 1 else 0)
  }

  lemma {:induction false} CountAfter(before: seq<nat>, document: nat, times: nat, other: nat)
    ensures Count(before + Repeated(document, times), other) == Count(before, other) + (if other == document then times else 0)
  {
    if times == 0 {
      assert before + Repeated(document, 0) == before;
    } else {
      CountAfter(before, document, times - 1, other);
      var s := before + Repeated(document, times);
      assert s[..|s| - 1] == before + Repeated(document, times - 1);
    }
  }

  lemma CountAll(before: seq<nat>, document: nat, times: nat, n: nat)
    ensures forall k :: 0 <= k < n ==>
              Count(before + Repeated(document, times), k) == Count(before, k) + (if k == document then times else 0)
  {
    forall k | 0 <= k < n
      ensures Count(before + Repeated(document, times), k) == Count(before, k) + (if k == document then times else 0)
    {
      CountAfter(before, document, times, k);
    }
  }

  /** None of the first `n` documents after `i` is stored under its path. */
  predicate LastForPath(documents: seq<Document>, i: nat, n: nat)
    requires i < n <= |documents|
  {
    forall j :: i < j < n ==> documents[j].path != documents[i].path
  }

  predicate PathsAgree(documents: seq<Document>) {
    forall i, j :: 0 <= i < |documents| && 0 <= j < |documents| && documents[i].path == documents[j].path ==>
      documents[i].bytes == documents[j].bytes && documents[i].sha256 == documents[j].sha256
  }

  function LastIndex(documents: seq<Document>, n: nat, path: string): (i: nat)
    requires n <= |documents| && exists j :: 0 <= j < n && documents[j].path == path
    ensures i < n && documents[i].path == path && forall j :: i < j < n ==> documents[j].path != path
  {
    if documents[n - 1].path == path then n - 1 else LastIndex(documents, n - 1, path)
  }

  /** After exit code 0 every recorded document is on disk, exactly when the entries that share
      a path record the same bytes. */
  lemma EveryDocumentOnDisk(documents: seq<Document>, files: map<string, Bytes>, digest: Bytes -> string)
    requires Held(files, documents, |documents|, digest)
    ensures AllOnDisk(files, documents, digest) <==> PathsAgree(documents)
  {
    if PathsAgree(documents) {
      forall k | 0 <= k < |documents|
        ensures OnDisk(files, documents[k], digest)
      {
        var i := LastIndex(documents, |documents|, documents[k].path);
        assert LastForPath(documents, i, |documents|);
        assert OnDisk(files, documents[i], digest);
      }
    }
    if AllOnDisk(files, documents, digest) {
      forall i, j | 0 <= i < |documents| && 0 <= j < |documents| && documents[i].path == documents[j].path
        ensures documents[i].bytes == documents[j].bytes && documents[i].sha256 == documents[j].sha256
      {
        assert OnDisk(files, documents[i], digest) && OnDisk(files, documents[j], digest);
      }
    }
  }

  /** Two entries for one path that record different bytes: a run that ends well leaves the first
      of them missing. */
  lemma SharedPathMissesOne(first: Document, second: Document, files: map<string, Bytes>, digest: Bytes -> string)
    requires first.path == second.path && (first.bytes != second.bytes || first.sha256 != second.sha256)
    requires Held(files, [first, second], 2, digest)
    ensures first.path in files && Matches(files[first.path], second, digest) && !Matches(files[first.path], first, digest)
  {
    var documents := [first, second];
    assert LastForPath(documents, 1, 2) && documents[1] == second;
    assert OnDisk(files, documents[1], digest);
  }
}
