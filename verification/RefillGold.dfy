/** Applying a refill manifest to the golden questions: authorization, one gated rewrite per
    slot on a private copy, cross-slot consistency, and nothing else. */
module RefillGold {
  import opened Collections
  import opened Numerals

  datatype Value = Value(text: string)

  type Slot = map<string, Value>

  /** `header` is everything about a question but its slots; the gate reads nothing else. */
  datatype Question = Question(header: Value, slots: seq<Slot>)

  type Questions = map<string, Question>

  datatype Key = Key(qid: string, slot: int)

  datatype Change = Change(key: Key, oldValue: Option<Value>, newValue: Option<Value>, removeFields: seq<string>, newFields: Option<Slot>)

  /** Slots are named by their keys, as text. */
  datatype Group = Group(slots: seq<string>, fields: seq<string>)

  datatype Manifest = Manifest(fromVersion: Value, authorized: seq<string>, changes: seq<Change>, groups: seq<Group>, metaUpdates: map<string, Value>)

  datatype Payload = Payload(meta: map<string, Value>, questions: Questions)

  datatype Error =
    | WrongVersion | InvalidKey | NothingAuthorized | NotAsAuthorized
    | DuplicateChange(key: Key) | UnknownSlot(key: Key) | StaleOldValue(key: Key) | NewFieldsNotObject(key: Key)
    | NewValueMismatch(key: Key) | GateRejected(key: Key) | ChangeSetMismatch | BadGroup

  datatype Result<+T> = Ok(value: T) | Err(error: Error)

  type Gate = (Value, Slot, int) -> bool

  // ----- slot keys

  function FirstS(s: string): (n: nat)
    ensures n <= |s| && 's' !in s[..n] && (n < |s| ==> s[n] == 's')
  {
    if s == "" || s[0] == 's' then 0
    else
      var n := 1 + FirstS(s[1..]);
      assert s[..n] == [s[0]] + s[1..][..n - 1];
      n
  }

  /** Everything before the first `s` names the question, everything after it is the slot. */
  function ParseSlotKey(value: string): Option<Key> {
    var n := FirstS(value);
    if n == |value| || n == 0 || value[n + 1..] == "" || !AllDigits(value[n + 1..]) then None
    else Some(Key(value[..n], Number(value[n + 1..])))
  }

  /** A key can be spelled exactly when the question's name is not empty and has no `s`. */
  lemma KeysThatCanBeSpelled(qid: string, digits: string)
    requires digits != "" && AllDigits(digits)
    ensures ParseSlotKey(qid + "s" + digits) == Some(Key(qid, Number(digits))) <==> qid != "" && 's' !in qid
  {
    var value := qid + "s" + digits;
    if 's' !in qid {
      FirstSAfter(qid, digits);
      assert value[..|qid|] == qid && value[|qid| + 1..] == digits;
    }
  }

  /** What parses is a name without `s`, an `s` and digits, and nothing else does. */
  lemma ParsedIsSpelled(value: string) returns (digits: string)
    ensures ParseSlotKey(value).Some? ==>
              var k := ParseSlotKey(value).value;
              && k.qid != "" && 's' !in k.qid && digits != "" && AllDigits(digits)
              && value == k.qid + "s" + digits && k.slot == Number(digits)
  {
    var n := FirstS(value);
    digits := "";
    if n < |value| {
      digits := value[n + 1..];
      assert value == value[..n] + "s" + digits;
    }
  }

  function Parsed(keys: seq<string>): (parsed: seq<Option<Key>>)
    ensures |parsed| == |keys| && forall i :: 0 <= i < |keys| ==> parsed[i] == ParseSlotKey(keys[i])
  {
    seq(|keys|, i requires 0 <= i < |keys| => ParseSlotKey(keys[i]))
  }

  lemma {:induction false} FirstSAfter(qid: string, rest: string)
    requires 's' !in qid
    ensures FirstS(qid + "s" + rest) == |qid|
  {
    if qid == "" {
    } else {
      assert qid[0] in qid && (qid + "s" + rest)[1..] == qid[1..] + "s" + rest;
      FirstSAfter(qid[1..], rest);
    }
  }

  // ----- one change

  /** Python indexing: positions below zero count from the end. */
  function At(slots: seq<Slot>, slot: int): Option<nat> {
    var i := if slot - 1 < 0 then slot - 1 + |slots| else slot - 1;
    if 0 <= i < |slots| then Some(i) else None
  }

  function Field(s: Slot, name: string): Option<Value> {
    if name in s then Some(s[name]) else None
  }

  function Without(s: Slot, fields: seq<string>): Slot {
    map name | name in s && name !in fields :: s[name]
  }

  /** The rewritten slot: fields removed, then new fields written over what is left. */
  function Candidate(s: Slot, c: Change): Slot
    requires c.newFields.Some?
  {
    Without(s, c.removeFields) + c.newFields.value
  }

  datatype Place = Place(qid: string, index: nat)

  function PlaceOf(questions: Questions, c: Change): Option<Place> {
    if c.key.qid !in questions then None
    else match At(questions[c.key.qid].slots, c.key.slot)
         case None => None
         case Some(i) => Some(Place(c.key.qid, i))
  }

  function SlotAt(questions: Questions, p: Place): Slot
    requires p.qid in questions && p.index < |questions[p.qid].slots|
  {
    questions[p.qid].slots[p.index]
  }

  function Put(questions: Questions, p: Place, s: Slot): Questions
    requires p.qid in questions && p.index < |questions[p.qid].slots|
  {
    var q := questions[p.qid];
    questions[p.qid := q.(slots := q.slots[p.index := s])]
  }

  /** The tests one change must pass against the slot it finds. */
  function Check(questions: Questions, c: Change, gate: Gate): Result<Slot> {
    match PlaceOf(questions, c)
    case None => Err(UnknownSlot(c.key))
    case Some(p) =>
      var current := SlotAt(questions, p);
      if Field(current, "value") != c.oldValue then Err(StaleOldValue(c.key))
      else if c.newFields.None? then Err(NewFieldsNotObject(c.key))
      else if Field(c.newFields.value, "value") != c.newValue then Err(NewValueMismatch(c.key))
      else if !gate(questions[p.qid].header, Candidate(current, c), c.key.slot) then Err(GateRejected(c.key))
      else Ok(Candidate(current, c))
  }

  function ApplyOne(questions: Questions, c: Change, gate: Gate): Result<Questions> {
    match Check(questions, c, gate)
    case Err(error) => Err(error)
    case Ok(s) => Ok(Put(questions, PlaceOf(questions, c).value, s))
  }

  function ApplyAll(questions: Questions, changes: seq<Change>, seen: set<Key>, gate: Gate): Result<Questions> {
    if changes == [] then Ok(questions)
    else if changes[0].key in seen then Err(DuplicateChange(changes[0].key))
    else match ApplyOne(questions, changes[0], gate)
         case Err(error) => Err(error)
         case Ok(next) => ApplyAll(next, changes[1..], seen + {changes[0].key}, gate)
  }

  // ----- cross-slot consistency

  predicate GroupHolds(questions: Questions, g: Group) {
    var slots := Parsed(g.slots);
    && |slots| >= 2
    && (forall k :: k in slots ==> Resolves(questions, k))
    && forall i, f :: 0 <= i < |slots| && f in g.fields ==> GroupField(questions, slots[i], f) == GroupField(questions, slots[0], f)
  }

  function GroupField(questions: Questions, k: Option<Key>, f: string): Option<Value> {
    if Resolves(questions, k)
    then Field(questions[k.value.qid].slots[At(questions[k.value.qid].slots, k.value.slot).value], f)
    else None
  }

  function Keys(changes: seq<Change>): set<Key> {
    set c | c in changes :: c.key
  }

  function Authorized(keys: seq<string>): set<Key> {
    set k | k in Parsed(keys) && k.Some? :: k.value
  }

  predicate Resolves(questions: Questions, k: Option<Key>) {
    k.Some? && k.value.qid in questions && At(questions[k.value.qid].slots, k.value.slot).Some?
  }

  /** The loop over one group: every slot is looked up, then every field is compared with the
      first slot's. */
  method EnforceGroup(questions: Questions, g: Group) returns (ok: bool)
    ensures ok <==> GroupHolds(questions, g)
  {
    var slots := Parsed(g.slots);
    if |slots| < 2 {
      return false;
    }
    var i := 0;
    while i < |slots|
      invariant i <= |slots|
      invariant forall j :: 0 <= j < i ==> Resolves(questions, slots[j])
    {
      if !Resolves(questions, slots[i]) {
        return false;
      }
      i := i + 1;
    }
    var f := 0;
    while f < |g.fields|
      invariant f <= |g.fields|
      invariant forall i, k :: 0 <= i < |slots| && 0 <= k < f ==> GroupField(questions, slots[i], g.fields[k]) == GroupField(questions, slots[0], g.fields[k])
    {
      if exists i :: 0 <= i < |slots| && GroupField(questions, slots[i], g.fields[f]) != GroupField(questions, slots[0], g.fields[f]) {
        return false;
      }
      f := f + 1;
    }
    return true;
  }

  method EnforceGroups(questions: Questions, groups: seq<Group>) returns (ok: bool)
    ensures ok <==> forall g :: g in groups ==> GroupHolds(questions, g)
  {
    var i := 0;
    while i < |groups|
      invariant i <= |groups|
      invariant forall j :: 0 <= j < i ==> GroupHolds(questions, groups[j])
    {
      ok := EnforceGroup(questions, groups[i]);
      if !ok {
        return;
      }
      i := i + 1;
    }
    return true;
  }

  predicate VersionFits(payload: Payload, manifest: Manifest) {
    "version" in payload.meta && payload.meta["version"] == manifest.fromVersion
  }

  /** The changes are those authorized, at least one, and every authorization can be read. */
  predicate AsAuthorized(manifest: Manifest) {
    && None !in Parsed(manifest.authorized)
    && manifest.changes != []
    && (forall c :: c in manifest.changes ==> Some(c.key) in Parsed(manifest.authorized))
    && (forall k :: k in Parsed(manifest.authorized) && k.Some? ==> exists c :: c in manifest.changes && c.key == k.value)
  }

  lemma AuthorizedExactly(manifest: Manifest)
    requires None !in Parsed(manifest.authorized)
    ensures AsAuthorized(manifest) <==> Authorized(manifest.authorized) != {} && Keys(manifest.changes) == Authorized(manifest.authorized)
  {
    var authorized := Authorized(manifest.authorized);
    if manifest.changes != [] {
      assert manifest.changes[0].key in Keys(manifest.changes);
    }
    if Keys(manifest.changes) == authorized {
      forall c | c in manifest.changes
        ensures Some(c.key) in Parsed(manifest.authorized)
      {
        assert c.key in Keys(manifest.changes);
      }
      forall k | k in Parsed(manifest.authorized) && k.Some?
        ensures exists c :: c in manifest.changes && c.key == k.value
      {
        assert k.value in authorized;
      }
    }
  }

  /** The loop over the changes, each of them marked as seen. */
  method ApplyChanges(questions0: Questions, changes: seq<Change>, gate: Gate) returns (r: Result<Questions>, seen: set<Key>)
    ensures r == ApplyAll(questions0, changes, {}, gate)
    ensures r.Ok? ==> seen == Keys(changes)
  {
    var questions := questions0;
    seen := {};
    var i := 0;
    while i < |changes|
      invariant i <= |changes|
      invariant seen == Keys(changes[..i])
      invariant ApplyAll(questions0, changes, {}, gate) == ApplyAll(questions, changes[i..], seen, gate)
    {
      var change := changes[i];
      assert changes[i..][1..] == changes[i + 1..];
      assert changes[..i + 1] == changes[..i] + [change];
      if change.key in seen {
        return Err(DuplicateChange(change.key)), seen;
      }
      seen := seen + {change.key};
      var checked := Check(questions, change, gate);
      if checked.Err? {
        return Err(checked.error), seen;
      }
      questions := Put(questions, PlaceOf(questions, change).value, checked.value);
      i := i + 1;
    }
    assert changes[..i] == changes;
    return Ok(questions), seen;
  }

  /** The whole application, on a copy of the payload. */
  method ApplyManifest(payload: Payload, manifest: Manifest, gate: Gate) returns (r: Result<Payload>)
    // the last test of the change loop can never fire
    ensures r != Err(ChangeSetMismatch)
    ensures !VersionFits(payload, manifest) ==> r == Err(WrongVersion)
    ensures VersionFits(payload, manifest) && None in Parsed(manifest.authorized) ==> r == Err(InvalidKey)
    ensures VersionFits(payload, manifest) && manifest.authorized == [] ==> r == Err(NothingAuthorized)
    ensures VersionFits(payload, manifest) && None !in Parsed(manifest.authorized) && manifest.authorized != [] && !AsAuthorized(manifest) ==>
              r == Err(NotAsAuthorized)
    ensures VersionFits(payload, manifest) && AsAuthorized(manifest) ==>
              var applied := ApplyAll(payload.questions, manifest.changes, {}, gate);
              && (applied.Err? ==> r == Err(applied.error))
              && (applied.Ok? && (forall g :: g in manifest.groups ==> GroupHolds(applied.value, g)) ==>
                    r == Ok(Payload(payload.meta + manifest.metaUpdates, applied.value)))
              && (applied.Ok? && (exists g :: g in manifest.groups && !GroupHolds(applied.value, g)) ==> r == Err(BadGroup))
  {
    if Field(payload.meta, "version") != Some(manifest.fromVersion) {
      return Err(WrongVersion);
    }
    var questions := payload.questions;
    if None in Parsed(manifest.authorized) {
      return Err(InvalidKey);
    }
    var authorized, declared := Authorized(manifest.authorized), Keys(manifest.changes);
    AuthorizedExactly(manifest);
    if authorized == {} {
      NothingToAuthorize(manifest.authorized);
      return Err(NothingAuthorized);
    }
    if declared != authorized {
      return Err(NotAsAuthorized);
    }
    var applied, seen := ApplyChanges(questions, manifest.changes, gate);
    NoMismatch(questions, manifest.changes, {}, gate);
    if applied.Err? {
      return Err(applied.error);
    }
    questions := applied.value;
    // never taken
    if seen != declared {
      return Err(ChangeSetMismatch);
    }
    var consistent := EnforceGroups(questions, manifest.groups);
    if !consistent {
      return Err(BadGroup);
    }
    return Ok(Payload(payload.meta + manifest.metaUpdates, questions));
  }

  lemma {:induction false} NoMismatch(questions: Questions, changes: seq<Change>, seen: set<Key>, gate: Gate)
    ensures ApplyAll(questions, changes, seen, gate) != Err(ChangeSetMismatch)
    decreases |changes|
  {
    if changes != [] && ApplyOne(questions, changes[0], gate).Ok? {
      NoMismatch(ApplyOne(questions, changes[0], gate).value, changes[1..], seen + {changes[0].key}, gate);
    }
  }

  lemma NothingToAuthorize(authorized: seq<string>)
    requires None !in Parsed(authorized)
    ensures Authorized(authorized) == {} <==> authorized == []
  {
    if authorized != [] {
      assert Parsed(authorized)[0] in Parsed(authorized);
      assert Parsed(authorized)[0].value in Authorized(authorized);
    }
  }

  // ----- what an application does

  predicate KeysDistinct(changes: seq<Change>) {
    forall i, j :: 0 <= i < j < |changes| ==> changes[i].key != changes[j].key
  }

  /** No two changes end up at the same slot. */
  predicate Apart(questions: Questions, changes: seq<Change>) {
    forall i, j :: 0 <= i < j < |changes| && PlaceOf(questions, changes[i]).Some? ==>
      PlaceOf(questions, changes[i]) != PlaceOf(questions, changes[j])
  }

  predicate Exists(questions: Questions, p: Place) {
    p.qid in questions && p.index < |questions[p.qid].slots|
  }

  predicate Touched(questions: Questions, changes: seq<Change>, p: Place) {
    exists c :: c in changes && PlaceOf(questions, c) == Some(p)
  }

  predicate SameFrame(before: Questions, after: Questions) {
    && after.Keys == before.Keys
    && forall qid :: qid in before ==>
         after[qid].header == before[qid].header && |after[qid].slots| == |before[qid].slots|
  }

  /** Exactly the changed slots differ, and each of them is the candidate built from the slot
      as it was before any change. */
  ghost predicate Rewritten(before: Questions, after: Questions, changes: seq<Change>) {
    && SameFrame(before, after)
    && (forall p :: Exists(before, p) && !Touched(before, changes, p) ==> SlotAt(after, p) == SlotAt(before, p))
    && (forall c :: c in changes ==>
          && PlaceOf(before, c).Some? && c.newFields.Some?
          && SlotAt(after, PlaceOf(before, c).value) == Candidate(SlotAt(before, PlaceOf(before, c).value), c))
  }

  lemma PutFrame(questions: Questions, p: Place, s: Slot)
    requires Exists(questions, p)
    ensures var after := Put(questions, p, s);
            && SameFrame(questions, after) && SlotAt(after, p) == s
            && forall q :: Exists(questions, q) && q != p ==> SlotAt(after, q) == SlotAt(questions, q)
  {
  }

  lemma FrameKeepsPlaces(before: Questions, after: Questions, c: Change)
    requires SameFrame(before, after)
    ensures PlaceOf(after, c) == PlaceOf(before, c)
  {
  }

  lemma ElsewhereUnaffected(questions: Questions, p: Place, s: Slot, c: Change, gate: Gate)
    requires Exists(questions, p) && PlaceOf(questions, c) != Some(p)
    ensures Check(Put(questions, p, s), c, gate) == Check(questions, c, gate)
  {
    PutFrame(questions, p, s);
    FrameKeepsPlaces(questions, Put(questions, p, s), c);
  }

  lemma {:induction false} DuplicatesAreRefused(questions: Questions, changes: seq<Change>, seen: set<Key>, gate: Gate)
    requires ApplyAll(questions, changes, seen, gate).Ok?
    ensures KeysDistinct(changes) && forall c :: c in changes ==> c.key !in seen
    decreases |changes|
  {
    if changes == [] {
    } else {
      var next := ApplyOne(questions, changes[0], gate).value;
      DuplicatesAreRefused(next, changes[1..], seen + {changes[0].key}, gate);
      forall i, j | 0 <= i < j < |changes|
        ensures changes[i].key != changes[j].key
      {
        assert changes[j] in changes[1..];
        if i > 0 {
          assert changes[i] == changes[1..][i - 1] && changes[j] == changes[1..][j - 1];
        }
      }
    }
  }

  ghost predicate AllCheck(questions: Questions, changes: seq<Change>, gate: Gate) {
    forall c :: c in changes ==> Check(questions, c, gate).Ok?
  }

  /** Changes to different slots do not see each other: the application succeeds exactly when
      every change passes against the original, and rewrites each of its slots once. */
  lemma {:induction false} ApplicationIsPointwise(questions: Questions, changes: seq<Change>, seen: set<Key>, gate: Gate)
    requires KeysDistinct(changes) && Apart(questions, changes) && forall c :: c in changes ==> c.key !in seen
    ensures ApplyAll(questions, changes, seen, gate).Ok? <==> AllCheck(questions, changes, gate)
    ensures ApplyAll(questions, changes, seen, gate).Ok? ==> Rewritten(questions, ApplyAll(questions, changes, seen, gate).value, changes)
    decreases |changes|
  {
    if changes == [] {
    } else {
      var c, rest := changes[0], changes[1..];
      assert c in changes;
      if Check(questions, c, gate).Ok? {
        var p, s := PlaceOf(questions, c).value, Check(questions, c, gate).value;
        var next := Put(questions, p, s);
        RestIsElsewhere(questions, changes, p, s, gate);
        ApplicationIsPointwise(next, rest, seen + {c.key}, gate);
        assert AllCheck(questions, changes, gate) <==> AllCheck(next, rest, gate) by {
          assert forall x :: x in changes <==> x == c || x in rest;
        }
        if ApplyAll(next, rest, seen + {c.key}, gate).Ok? {
          OneMoreRewritten(questions, next, ApplyAll(next, rest, seen + {c.key}, gate).value, changes, gate);
        }
      }
    }
  }

  lemma RestIsElsewhere(questions: Questions, changes: seq<Change>, p: Place, s: Slot, gate: Gate)
    requires changes != [] && KeysDistinct(changes) && Apart(questions, changes) && PlaceOf(questions, changes[0]) == Some(p)
    ensures Exists(questions, p)
    ensures var next, rest := Put(questions, p, s), changes[1..];
            && KeysDistinct(rest) && Apart(next, rest)
            && (forall c :: c in rest ==> c.key != changes[0].key && PlaceOf(questions, c) != Some(p))
            && forall c :: c in rest ==> Check(next, c, gate) == Check(questions, c, gate) && PlaceOf(next, c) == PlaceOf(questions, c)
  {
    var next, rest := Put(questions, p, s), changes[1..];
    forall c | c in rest
      ensures c.key != changes[0].key && PlaceOf(questions, c) != Some(p)
      ensures Check(next, c, gate) == Check(questions, c, gate) && PlaceOf(next, c) == PlaceOf(questions, c)
    {
      var i :| 0 <= i < |rest| && rest[i] == c;
      assert changes[i + 1] == c;
      ElsewhereUnaffected(questions, p, s, c, gate);
      PutFrame(questions, p, s);
      FrameKeepsPlaces(questions, next, c);
    }
    forall i, j | 0 <= i < j < |rest|
      ensures rest[i].key != rest[j].key
      ensures PlaceOf(next, rest[i]).Some? ==> PlaceOf(next, rest[i]) != PlaceOf(next, rest[j])
    {
      assert rest[i] == changes[i + 1] && rest[j] == changes[j + 1];
      assert rest[i] in rest && rest[j] in rest;
    }
  }

  lemma OneMoreRewritten(before: Questions, next: Questions, after: Questions, changes: seq<Change>, gate: Gate)
    requires changes != [] && Check(before, changes[0], gate).Ok?
    requires next == Put(before, PlaceOf(before, changes[0]).value, Check(before, changes[0], gate).value)
    requires forall c :: c in changes[1..] ==>
               PlaceOf(next, c) == PlaceOf(before, c) && PlaceOf(before, c) != PlaceOf(before, changes[0])
    requires Rewritten(next, after, changes[1..])
    ensures Rewritten(before, after, changes)
  {
    var c0, p0 := changes[0], PlaceOf(before, changes[0]).value;
    PutFrame(before, p0, Check(before, c0, gate).value);
    forall c | c in changes
      ensures PlaceOf(before, c).Some? && c.newFields.Some?
      ensures SlotAt(after, PlaceOf(before, c).value) == Candidate(SlotAt(before, PlaceOf(before, c).value), c)
    {
      if c in changes[1..] {
        assert PlaceOf(next, c).Some?;
      } else {
        assert c == c0;
        assert !Touched(next, changes[1..], p0);
      }
    }
    forall p | Exists(before, p) && !Touched(before, changes, p)
      ensures SlotAt(after, p) == SlotAt(before, p)
    {
      assert c0 in changes && p != p0;
      assert !Touched(next, changes[1..], p) by {
        assert forall c :: c in changes[1..] ==> c in changes;
      }
    }
  }

  // ----- what a change must be, and what it leaves

  /** The key means position `i`: counted from one, or from the end downwards from zero. */
  predicate NamesSlot(questions: Questions, k: Key, i: nat) {
    && k.qid in questions && i < |questions[k.qid].slots|
    && (k.slot == i + 1 || k.slot == i + 1 - |questions[k.qid].slots|)
  }

  /** Field by field, what `s` is once `c` has been applied to `was`. */
  ghost predicate Merged(was: Slot, c: Change, s: Slot)
    requires c.newFields.Some?
  {
    forall name ::
      && (name in c.newFields.value ==> name in s && s[name] == c.newFields.value[name])
      && (name !in c.newFields.value && name in c.removeFields ==> name !in s)
      && (name !in c.newFields.value && name !in c.removeFields ==> Field(s, name) == Field(was, name))
  }

  lemma MergedExactly(was: Slot, c: Change, s: Slot)
    requires c.newFields.Some?
    ensures Merged(was, c, s) <==> s == Candidate(was, c)
  {
    var x := Candidate(was, c);
    if Merged(was, c, s) {
      forall name
        ensures Field(s, name) == Field(x, name)
      {
      }
      SameFields(s, x);
    }
  }

  lemma SameFields(s: Slot, x: Slot)
    requires forall name :: Field(s, name) == Field(x, name)
    ensures s == x
  {
    assert forall name :: name in s <==> Field(s, name).Some?;
    assert forall name :: name in x <==> Field(x, name).Some?;
    forall name | name in s
      ensures name in x && s[name] == x[name]
    {
      assert Field(s, name) == Field(x, name);
    }
    forall name | name in x
      ensures name in s
    {
      assert Field(s, name) == Field(x, name);
    }
  }

  lemma NamesExactly(questions: Questions, c: Change, i: nat)
    ensures NamesSlot(questions, c.key, i) <==> PlaceOf(questions, c) == Some(Place(c.key.qid, i))
  {
  }

  /** The slot exists, held the old value, the new fields carry the new value, and the gate accepts
      what will stand there. */
  ghost predicate Welcome(questions: Questions, c: Change, gate: Gate) {
    exists i: nat, s: Slot ::
      && NamesSlot(questions, c.key, i)
      && Field(questions[c.key.qid].slots[i], "value") == c.oldValue
      && c.newFields.Some? && Field(c.newFields.value, "value") == c.newValue
      && Merged(questions[c.key.qid].slots[i], c, s)
      && gate(questions[c.key.qid].header, s, c.key.slot)
  }

  /** What is wrong with a change that is not. */
  ghost predicate Complaint(questions: Questions, c: Change, gate: Gate, e: Error) {
    if forall i: nat :: !NamesSlot(questions, c.key, i) then e == UnknownSlot(c.key)
    else exists i: nat ::
      && NamesSlot(questions, c.key, i)
      && var was := questions[c.key.qid].slots[i];
         if Field(was, "value") != c.oldValue then e == StaleOldValue(c.key)
         else if c.newFields.None? then e == NewFieldsNotObject(c.key)
         else if Field(c.newFields.value, "value") != c.newValue then e == NewValueMismatch(c.key)
         else e == GateRejected(c.key) && forall s :: Merged(was, c, s) ==> !gate(questions[c.key.qid].header, s, c.key.slot)
  }

  lemma CheckedExactly(questions: Questions, c: Change, gate: Gate)
    ensures Check(questions, c, gate).Ok? <==> Welcome(questions, c, gate)
    ensures Check(questions, c, gate).Err? ==> Complaint(questions, c, gate, Check(questions, c, gate).error)
  {
    forall i: nat
      ensures NamesSlot(questions, c.key, i) <==> PlaceOf(questions, c) == Some(Place(c.key.qid, i))
    {
      NamesExactly(questions, c, i);
    }
    if PlaceOf(questions, c).Some? {
      var p := PlaceOf(questions, c).value;
      assert NamesSlot(questions, c.key, p.index);
      if c.newFields.Some? {
        forall s
          ensures Merged(SlotAt(questions, p), c, s) <==> s == Candidate(SlotAt(questions, p), c)
        {
          MergedExactly(SlotAt(questions, p), c, s);
        }
      }
    }
  }

  /** The slots the changes name read as the changes say, every other slot as before. */
  ghost predicate AppliedTo(before: Questions, after: Questions, changes: seq<Change>) {
    && SameFrame(before, after)
    && (forall c, i: nat :: c in changes && NamesSlot(before, c.key, i) ==>
          c.newFields.Some? && Merged(before[c.key.qid].slots[i], c, after[c.key.qid].slots[i]))
    && (forall qid, i :: qid in before && 0 <= i < |before[qid].slots| && (forall c :: c in changes && c.key.qid == qid ==> !NamesSlot(before, c.key, i)) ==>
          after[qid].slots[i] == before[qid].slots[i])
  }

  /** Changes to different slots are applied exactly when each of them is welcome where it stands. */
  lemma AppliedExactlyWhenWelcome(questions: Questions, changes: seq<Change>, gate: Gate)
    requires KeysDistinct(changes) && Apart(questions, changes)
    ensures ApplyAll(questions, changes, {}, gate).Ok? <==> forall c :: c in changes ==> Welcome(questions, c, gate)
    ensures ApplyAll(questions, changes, {}, gate).Ok? ==> AppliedTo(questions, ApplyAll(questions, changes, {}, gate).value, changes)
  {
    ApplicationIsPointwise(questions, changes, {}, gate);
    forall c | c in changes
      ensures Check(questions, c, gate).Ok? <==> Welcome(questions, c, gate)
    {
      CheckedExactly(questions, c, gate);
    }
    if ApplyAll(questions, changes, {}, gate).Ok? {
      RewrittenIsApplied(questions, ApplyAll(questions, changes, {}, gate).value, changes);
    }
  }

  lemma RewrittenIsApplied(before: Questions, after: Questions, changes: seq<Change>)
    requires Rewritten(before, after, changes)
    ensures AppliedTo(before, after, changes)
  {
    forall c, i: nat | c in changes && NamesSlot(before, c.key, i)
      ensures c.newFields.Some? && Merged(before[c.key.qid].slots[i], c, after[c.key.qid].slots[i])
    {
      NamesExactly(before, c, i);
      MergedExactly(before[c.key.qid].slots[i], c, SlotAt(after, Place(c.key.qid, i)));
    }
    forall qid, i | qid in before && 0 <= i < |before[qid].slots| && (forall c :: c in changes && c.key.qid == qid ==> !NamesSlot(before, c.key, i))
      ensures after[qid].slots[i] == before[qid].slots[i]
    {
      var p := Place(qid, i);
      if Touched(before, changes, p) {
        var c :| c in changes && PlaceOf(before, c) == Some(p);
        NamesExactly(before, c, i);
      }
      assert SlotAt(after, p) == SlotAt(before, p);
    }
  }

  lemma {:induction false} FirstRefused(questions: Questions, changes: seq<Change>, seen: set<Key>, gate: Gate) returns (j: nat)
    requires KeysDistinct(changes) && Apart(questions, changes) && forall c :: c in changes ==> c.key !in seen
    requires ApplyAll(questions, changes, seen, gate).Err?
    ensures j < |changes| && Check(questions, changes[j], gate) == Err(ApplyAll(questions, changes, seen, gate).error)
    ensures forall i :: 0 <= i < j ==> Check(questions, changes[i], gate).Ok?
    decreases |changes|
  {
    var c := changes[0];
    assert c in changes;
    if Check(questions, c, gate).Err? {
      j := 0;
    } else {
      var p, s := PlaceOf(questions, c).value, Check(questions, c, gate).value;
      var rest := changes[1..];
      RestIsElsewhere(questions, changes, p, s, gate);
      j := FirstRefused(Put(questions, p, s), rest, seen + {c.key}, gate);
      forall i | 0 <= i < |rest|
        ensures Check(Put(questions, p, s), rest[i], gate) == Check(questions, changes[i + 1], gate)
      {
        assert rest[i] in rest;
      }
      j := j + 1;
    }
  }

  /** A refusal names the first change that is not welcome, and what is wrong with it. */
  lemma RefusalNamesTheFirst(questions: Questions, changes: seq<Change>, gate: Gate) returns (j: nat)
    requires KeysDistinct(changes) && Apart(questions, changes) && ApplyAll(questions, changes, {}, gate).Err?
    ensures j < |changes| && Complaint(questions, changes[j], gate, ApplyAll(questions, changes, {}, gate).error)
    ensures forall i :: 0 <= i < j ==> Welcome(questions, changes[i], gate)
  {
    j := FirstRefused(questions, changes, {}, gate);
    CheckedExactly(questions, changes[j], gate);
    forall i | 0 <= i < j
      ensures Welcome(questions, changes[i], gate)
    {
      CheckedExactly(questions, changes[i], gate);
    }
  }

  // ----- the order of the changes does not matter

  lemma RewrittenIsUnique(before: Questions, x: Questions, y: Questions, changes: seq<Change>, permuted: seq<Change>)
    requires Rewritten(before, x, changes) && Rewritten(before, y, permuted)
    requires forall c :: c in changes <==> c in permuted
    ensures x == y
  {
    forall qid | qid in before
      ensures x[qid] == y[qid]
    {
      forall i | 0 <= i < |before[qid].slots|
        ensures x[qid].slots[i] == y[qid].slots[i]
      {
        var p := Place(qid, i);
        if Touched(before, changes, p) {
          var c :| c in changes && PlaceOf(before, c) == Some(p);
          assert SlotAt(x, p) == SlotAt(y, p);
        } else {
          assert !Touched(before, permuted, p);
          assert SlotAt(x, p) == SlotAt(y, p);
        }
      }
      assert x[qid].slots == y[qid].slots;
    }
  }

  lemma PermutedStaysApart(questions: Questions, changes: seq<Change>, permuted: seq<Change>)
    requires KeysDistinct(changes) && Apart(questions, changes) && multiset(changes) == multiset(permuted)
    ensures KeysDistinct(permuted) && Apart(questions, permuted)
  {
    forall i, j | 0 <= i < j < |permuted|
      ensures permuted[i].key != permuted[j].key
      ensures PlaceOf(questions, permuted[i]).Some? ==> PlaceOf(questions, permuted[i]) != PlaceOf(questions, permuted[j])
    {
      assert permuted[i] in multiset(changes) && permuted[j] in multiset(changes);
      var k :| 0 <= k < |changes| && changes[k] == permuted[i];
      var m :| 0 <= m < |changes| && changes[m] == permuted[j];
      if k == m {
        TwoCopies(permuted, i, j);
        CountOfDistinct(changes, changes[k]);
      }
    }
  }

  /** Listing the changes in another order gives the same questions, or refuses as well. */
  lemma OrderDoesNotMatter(questions: Questions, changes: seq<Change>, permuted: seq<Change>, gate: Gate)
    requires KeysDistinct(changes) && Apart(questions, changes) && multiset(changes) == multiset(permuted)
    ensures ApplyAll(questions, changes, {}, gate).Ok? <==> ApplyAll(questions, permuted, {}, gate).Ok?
    ensures ApplyAll(questions, changes, {}, gate).Ok? ==>
              ApplyAll(questions, changes, {}, gate).value == ApplyAll(questions, permuted, {}, gate).value
  {
    PermutedStaysApart(questions, changes, permuted);
    ApplicationIsPointwise(questions, changes, {}, gate);
    ApplicationIsPointwise(questions, permuted, {}, gate);
    forall c
      ensures c in changes <==> c in permuted
    {
      assert c in multiset(changes) <==> c in multiset(permuted);
    }
    if ApplyAll(questions, changes, {}, gate).Ok? {
      RewrittenIsUnique(questions, ApplyAll(questions, changes, {}, gate).value, ApplyAll(questions, permuted, {}, gate).value, changes, permuted);
    }
  }

  // ----- the slot that has two names

  predicate Aliased(questions: Questions, changes: seq<Change>, qid: string) {
    && qid in questions && |questions[qid].slots| > 0
    && Key(qid, 0) in Keys(changes) && Key(qid, |questions[qid].slots|) in Keys(changes)
  }

  lemma SamePlaceTwoNames(questions: Questions, c: Change, e: Change)
    requires c.key != e.key && c.key.slot >= 0 && e.key.slot >= 0
    requires PlaceOf(questions, c).Some? && PlaceOf(questions, c) == PlaceOf(questions, e)
    ensures c.key.qid == e.key.qid && c.key.qid in questions
    ensures var n := |questions[c.key.qid].slots|;
            n > 0 && ((c.key.slot == 0 && e.key.slot == n) || (c.key.slot == n && e.key.slot == 0))
  {
  }

  lemma AliasedMeans(questions: Questions, changes: seq<Change>, qid: string)
    requires Aliased(questions, changes, qid)
    ensures !Apart(questions, changes)
  {
    var c :| c in changes && c.key == Key(qid, 0);
    var e :| e in changes && e.key == Key(qid, |questions[qid].slots|);
    assert PlaceOf(questions, c) == PlaceOf(questions, e) == Some(Place(qid, |questions[qid].slots| - 1));
    var i :| 0 <= i < |changes| && changes[i] == c;
    var j :| 0 <= j < |changes| && changes[j] == e;
    if i < j {
      assert PlaceOf(questions, changes[i]) == PlaceOf(questions, changes[j]);
    } else {
      assert PlaceOf(questions, changes[j]) == PlaceOf(questions, changes[i]);
    }
  }

  /** Slot keys are never negative; then two differently named changes meet in one slot exactly
      when some question is changed at slot 0 and at its last slot. */
  lemma AliasExactly(questions: Questions, changes: seq<Change>)
    requires KeysDistinct(changes) && forall c :: c in changes ==> c.key.slot >= 0
    ensures !Apart(questions, changes) <==> exists qid :: Aliased(questions, changes, qid)
  {
    if !Apart(questions, changes) {
      var i, j :| 0 <= i < j < |changes| && PlaceOf(questions, changes[i]).Some?
                  && PlaceOf(questions, changes[i]) == PlaceOf(questions, changes[j]);
      SamePlaceTwoNames(questions, changes[i], changes[j]);
      assert changes[i] in changes && changes[j] in changes;
      assert changes[i].key in Keys(changes) && changes[j].key in Keys(changes);
      assert Aliased(questions, changes, changes[i].key.qid);
    }
    forall qid | Aliased(questions, changes, qid)
      ensures !Apart(questions, changes)
    {
      AliasedMeans(questions, changes, qid);
    }
  }

  /** What an applied manifest did, told from its keys alone: if no question is changed both at
      slot 0 and at its last slot, each named slot is rewritten once and nothing else changes. */
  lemma AppliedManifest(questions: Questions, authorized: seq<string>, changes: seq<Change>, gate: Gate)
    requires Keys(changes) == Authorized(authorized) && ApplyAll(questions, changes, {}, gate).Ok?
    ensures KeysDistinct(changes) && forall c :: c in changes ==> c.key.slot >= 0
    ensures (forall qid :: !Aliased(questions, changes, qid)) ==>
              && Rewritten(questions, ApplyAll(questions, changes, {}, gate).value, changes)
              && AppliedTo(questions, ApplyAll(questions, changes, {}, gate).value, changes)
              && forall c :: c in changes ==> Welcome(questions, c, gate)
  {
    DuplicatesAreRefused(questions, changes, {}, gate);
    forall c | c in changes
      ensures c.key.slot >= 0
    {
      assert c.key in Keys(changes);
      var i :| 0 <= i < |authorized| && Parsed(authorized)[i] == Some(c.key);
      var digits := ParsedIsSpelled(authorized[i]);
    }
    AliasExactly(questions, changes);
    if forall qid :: !Aliased(questions, changes, qid) {
      ApplicationIsPointwise(questions, changes, {}, gate);
      AppliedExactlyWhenWelcome(questions, changes, gate);
    }
  }

  /** With both names in use a slot is rewritten twice, and the order decides the outcome. */
  lemma AliasedSlotIsRewrittenTwice(questions: Questions, slot: Slot, a: Value, b: Value, c: Value, gate: Gate)
    requires a != b && b != c && a != c
    requires slot == map["value" := a] && "Q" in questions && questions["Q"].slots == [slot]
    requires forall h, s, i :: gate(h, s, i)
    ensures var first := Change(Key("Q", 0), Some(a), Some(b), [], Some(map["value" := b]));
            var second := Change(Key("Q", 1), Some(b), Some(c), [], Some(map["value" := c]));
            && ApplyAll(questions, [first, second], {}, gate).Ok?
            && ApplyAll(questions, [second, first], {}, gate) == Err(StaleOldValue(Key("Q", 1)))
  {
    var first := Change(Key("Q", 0), Some(a), Some(b), [], Some(map["value" := b]));
    var second := Change(Key("Q", 1), Some(b), Some(c), [], Some(map["value" := c]));
    var next := Put(questions, Place("Q", 0), Candidate(slot, first));
    var last := Put(next, Place("Q", 0), Candidate(Candidate(slot, first), second));
    assert ApplyOne(questions, first, gate) == Ok(next);
    assert ApplyOne(next, second, gate) == Ok(last);
    var none: seq<Change> := [];
    assert [first, second][1..] == [second] && [second][1..] == none;
    assert ApplyAll(last, none, {first.key, second.key}, gate) == Ok(last);
    assert {} + {first.key} + {second.key} == {first.key, second.key};
    assert ApplyAll(next, [second], {} + {first.key}, gate) == Ok(last);
  }
}
