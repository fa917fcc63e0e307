/** The wiring check: a guard must be reachable from something that runs, and everything a
    runner names must be on disk. */
module GuardWiring {
  import opened Collections

  type Script = string

  // ----- resolving a reference

  type Segments = seq<string>

  /** `k` is the length of the longest non-empty prefix of `parts` that names a script. */
  predicate LongestKnown(parts: Segments, known: set<Segments>, k: nat) {
    && 0 < k <= |parts| && parts[..k] in known
    && forall j :: k < j <= |parts| ==> parts[..j] !in known
  }

  method Resolve(parts: Segments, known: set<Segments>) returns (r: Segments)
    requires parts != []
    ensures r <= parts && r != []
    ensures r in known ==> LongestKnown(parts, known, |r|)
    ensures r !in known ==> r == parts && forall j :: 0 < j <= |parts| ==> parts[..j] !in known
    ensures r == Resolved(parts, known)
  {
    assert parts[..|parts|] == parts;
    var end: nat := |parts|;
    while end > 0
      invariant end <= |parts|
      invariant forall j :: end < j <= |parts| ==> parts[..j] !in known
      invariant Resolved(parts, known) == ResolvedBelow(parts, known, end)
    {
      if parts[..end] in known {
        return parts[..end];
      }
      end := end - 1;
    }
    return parts;
  }

  function ResolvedBelow(parts: Segments, known: set<Segments>, end: nat): Segments
    requires end <= |parts|
  {
    if end == 0 then parts
    else if parts[..end] in known then parts[..end]
    else ResolvedBelow(parts, known, end - 1)
  }

  function Resolved(parts: Segments, known: set<Segments>): Segments {
    ResolvedBelow(parts, known, |parts|)
  }

  lemma {:induction false} ResolvedBelowPicks(parts: Segments, known: set<Segments>, end: nat)
    requires end <= |parts| && forall j :: end < j <= |parts| ==> parts[..j] !in known
    ensures var r := ResolvedBelow(parts, known, end);
            && r <= parts
            && (r in known && r != [] ==> LongestKnown(parts, known, |r|))
            && (r !in known || r == [] ==> r == parts)
  {
    assert parts[..|parts|] == parts;
    if end > 0 && parts[..end] !in known {
      ResolvedBelowPicks(parts, known, end - 1);
    }
  }

  /** Resolving twice is resolving once. */
  lemma ResolveIsIdempotent(parts: Segments, known: set<Segments>)
    ensures Resolved(Resolved(parts, known), known) == Resolved(parts, known)
  {
    ResolvedBelowPicks(parts, known, |parts|);
    var r := Resolved(parts, known);
    assert r[..|r|] == r;
  }

  // ----- reachability

  function Imports(imports: map<Script, set<Script>>, name: Script): set<Script> {
    if name in imports then imports[name] else {}
  }

  /** Everything some runner names. */
  function Named(surfaces: map<string, set<Script>>): set<Script> {
    set surface, name | surface in surfaces && name in surfaces[surface] :: name
  }

  /** A set that holds everything the runners name and everything its members import. */
  ghost predicate Covers(s: set<Script>, roots: set<Script>, imports: map<Script, set<Script>>) {
    roots <= s && forall name :: name in s ==> Imports(imports, name) <= s
  }

  /** The least such set. */
  ghost predicate Least(s: set<Script>, roots: set<Script>, imports: map<Script, set<Script>>) {
    Covers(s, roots, imports) && forall t :: Covers(t, roots, imports) ==> s <= t
  }

  /** A chain of imports from a runner to `name`: every link is imported by the one before. */
  ghost predicate Chain(path: seq<Script>, roots: set<Script>, imports: map<Script, set<Script>>, name: Script) {
    && path != [] && path[0] in roots && path[|path| - 1] == name
    && forall i :: 0 < i < |path| ==> path[i] in Imports(imports, path[i - 1])
  }

  ghost predicate Reached(roots: set<Script>, imports: map<Script, set<Script>>, name: Script) {
    exists path :: Chain(path, roots, imports, name)
  }

  function AllNames(roots: set<Script>, imports: map<Script, set<Script>>): set<Script> {
    roots + (set importer, name | importer in imports && name in imports[importer] :: name)
  }

  /** The worklist: pop a name, skip it if it was seen, otherwise queue what it imports. */
  method Reachable(surfaces: map<string, set<Script>>, imports: map<Script, set<Script>>) returns (seen: set<Script>)
    ensures Least(seen, Named(surfaces), imports)
  {
    var roots := Named(surfaces);
    var frontier := roots;
    ghost var universe := AllNames(roots, imports);
    seen := {};
    while frontier != {}
      invariant frontier <= universe && seen <= universe
      invariant roots <= seen + frontier
      invariant forall name :: name in seen ==> Imports(imports, name) <= seen + frontier
      invariant forall t :: Covers(t, roots, imports) ==> seen + frontier <= t
      decreases universe - seen, frontier
    {
      var name :| name in frontier;
      frontier := frontier - {name};
      if name in seen {
        continue;
      }
      seen := seen + {name};
      frontier := frontier + (Imports(imports, name) - seen);
    }
  }

  lemma {:induction false} ChainStaysInside(path: seq<Script>, roots: set<Script>, imports: map<Script, set<Script>>, name: Script, s: set<Script>)
    requires Chain(path, roots, imports, name) && Covers(s, roots, imports)
    ensures name in s
    decreases |path|
  {
    var k := |path| - 1;
    if k > 0 {
      ChainStaysInside(path[..k], roots, imports, path[k - 1], s);
    }
  }

  /** The least covering set is exactly what chains of imports reach. */
  lemma LeastIsReached(s: set<Script>, roots: set<Script>, imports: map<Script, set<Script>>)
    requires Least(s, roots, imports)
    ensures forall name :: name in s <==> Reached(roots, imports, name)
  {
    var reached := set name | name in s && Reached(roots, imports, name);
    forall name | name in roots
      ensures name in reached
    {
      assert Chain([name], roots, imports, name);
    }
    forall name, next | name in reached && next in Imports(imports, name)
      ensures next in reached
    {
      var path :| Chain(path, roots, imports, name);
      assert Chain(path + [next], roots, imports, next);
    }
    assert Covers(reached, roots, imports);
    forall name | Reached(roots, imports, name)
      ensures name in s
    {
      var path :| Chain(path, roots, imports, name);
      ChainStaysInside(path, roots, imports, name, s);
    }
  }

  predicate ImportedBy(name: Script, importer: Script, imports: map<Script, set<Script>>) {
    importer in imports && name in imports[importer]
  }

  /** A runner names the first script of `path`, each script imports the next, and the last one is
      `name`. */
  ghost predicate Wires(path: seq<Script>, surfaces: map<string, set<Script>>, imports: map<Script, set<Script>>, name: Script) {
    && path != [] && path[|path| - 1] == name
    && (exists surface :: surface in surfaces && path[0] in surfaces[surface])
    && forall i :: 0 < i < |path| ==> ImportedBy(path[i], path[i - 1], imports)
  }

  ghost predicate Wired(surfaces: map<string, set<Script>>, imports: map<Script, set<Script>>, name: Script) {
    exists path :: Wires(path, surfaces, imports, name)
  }

  lemma ReachedIsWired(surfaces: map<string, set<Script>>, imports: map<Script, set<Script>>, name: Script)
    ensures Reached(Named(surfaces), imports, name) <==> Wired(surfaces, imports, name)
  {
    forall path
      ensures Chain(path, Named(surfaces), imports, name) <==> Wires(path, surfaces, imports, name)
    {
      forall i | 0 < i < |path|
        ensures path[i] in Imports(imports, path[i - 1]) <==> ImportedBy(path[i], path[i - 1], imports)
      {
      }
    }
  }

  // ----- the two directions

  datatype Failure = Unwired(guard: Script) | Dangling(surface: string, name: Script)

  /** The failures the check must report: guards nothing reaches and names not on disk. */
  ghost predicate IsFailure(f: Failure, guards: set<Script>, surfaces: map<string, set<Script>>, imports: map<Script, set<Script>>, known: set<Script>) {
    match f
    case Unwired(guard) => guard in guards && !Wired(surfaces, imports, guard)
    case Dangling(surface, name) => surface in surfaces && name in surfaces[surface] && name !in known
  }

  method Evaluate(guards: set<Script>, surfaces: map<string, set<Script>>, imports: map<Script, set<Script>>, onDisk: Option<set<Script>>)
    returns (failures: seq<Failure>)
    ensures var known := if onDisk.None? then imports.Keys else onDisk.value;
            forall f :: f in failures <==> IsFailure(f, guards, surfaces, imports, known)
    ensures NoRepeats(failures)
  {
    failures := [];
    var reachable := Reachable(surfaces, imports);
    LeastIsReached(reachable, Named(surfaces), imports);
    forall name
      ensures name in reachable <==> Wired(surfaces, imports, name)
    {
      ReachedIsWired(surfaces, imports, name);
    }
    var unwired := guards - reachable;
    ghost var reported: set<Script> := {};
    while unwired != {}
      invariant unwired !! reported && unwired + reported == guards - reachable
      invariant forall f :: f in failures <==> f.Unwired? && f.guard in reported
      invariant NoRepeats(failures)
      decreases unwired
    {
      var guard :| guard in unwired;
      failures := failures + [Unwired(guard)];
      unwired, reported := unwired - {guard}, reported + {guard};
    }
    var known := if onDisk.None? then imports.Keys else onDisk.value;
    var left := surfaces.Keys;
    while left != {}
      invariant left <= surfaces.Keys
      invariant forall f :: f in failures <==>
                  (f.Unwired? && f.guard in guards - reachable)
                  || (f.Dangling? && f.surface in surfaces.Keys - left && f.name in surfaces[f.surface] - known)
      invariant NoRepeats(failures)
      decreases left
    {
      var surface :| surface in left;
      left := left - {surface};
      var dangling := surfaces[surface] - known;
      ghost var before, named := failures, {};
      while dangling != {}
        invariant dangling !! named && dangling + named == surfaces[surface] - known
        invariant forall f :: f in failures <==> f in before || (f.Dangling? && f.surface == surface && f.name in named)
        invariant NoRepeats(failures)
        decreases dangling
      {
        var name :| name in dangling;
        failures := failures + [Dangling(surface, name)];
        dangling, named := dangling - {name}, named + {name};
      }
    }
  }

  /** The check is silent exactly when every guard is reached by a chain of imports from a
      runner and every name a runner uses is on disk. */
  lemma SilentExactlyWhenWired(failures: seq<Failure>, guards: set<Script>, surfaces: map<string, set<Script>>, imports: map<Script, set<Script>>, known: set<Script>)
    requires forall f :: f in failures <==> IsFailure(f, guards, surfaces, imports, known)
    ensures failures == [] <==>
              && (forall g :: g in guards ==> Wired(surfaces, imports, g))
              && (forall surface, name :: surface in surfaces && name in surfaces[surface] ==> name in known)
  {
    if failures == [] {
      forall g | g in guards
        ensures Wired(surfaces, imports, g)
      {
        assert Unwired(g) !in failures;
      }
      forall surface, name | surface in surfaces && name in surfaces[surface]
        ensures name in known
      {
        assert Dangling(surface, name) !in failures;
      }
    } else {
      assert failures[0] in failures;
    }
  }
}
