/** Giving stored filings the disclosure dates the registry knows, and taking away the ones that
    were only a copy of the reporting period's end. */
module Backfill {
  import opened Collections

  /** A date as stored; the empty text stands for an unknown one. */
  datatype Date = Date(text: string)

  const UNKNOWN := Date("")

  datatype Version = Version(url: string, filingDate: Date, effectiveDate: Date, ready: bool)

  datatype Chunk = Chunk(version: string, publishedAt: Date)

  /** What the registry answers for a URL; the same for every run. */
  type Provider = string -> Option<Date>

  predicate BackDated(v: Version) {
    v.filingDate != UNKNOWN && v.filingDate == v.effectiveDate
  }

  /** A row the migration looks at: ready, and undated or dated with its period end. */
  predicate Suspect(v: Version) {
    v.ready && (v.filingDate == UNKNOWN || v.filingDate == v.effectiveDate)
  }

  type Versions = map<string, Version>
  type Chunks = map<string, Chunk>

  /** The updates the registry's answers call for. */
  function Updates(versions: Versions, provider: Provider): map<string, Date> {
    map id | id in versions && Suspect(versions[id]) && provider(versions[id].url).Some? :: provider(versions[id].url).value
  }

  predicate AnyReady(versions: Versions) {
    exists id :: id in versions && versions[id].ready
  }

  // ----- the four table updates

  function Dated(versions: Versions, updates: map<string, Date>): Versions {
    map id | id in versions :: if id in updates then versions[id].(filingDate := updates[id]) else versions[id]
  }

  function DatedChunks(chunks: Chunks, updates: map<string, Date>): Chunks {
    map id | id in chunks ::
      if chunks[id].version in updates then chunks[id].(publishedAt := updates[chunks[id].version]) else chunks[id]
  }

  function Cleared(versions: Versions): Versions {
    map id | id in versions ::
      if versions[id].filingDate == versions[id].effectiveDate then versions[id].(filingDate := UNKNOWN) else versions[id]
  }

  function ClearedChunks(chunks: Chunks, versions: Versions): Chunks {
    map id | id in chunks ::
      if chunks[id].version in versions && versions[chunks[id].version].filingDate == UNKNOWN
      then chunks[id].(publishedAt := UNKNOWN)
      else chunks[id]
  }

  function Migrated(versions: Versions, chunks: Chunks, provider: Provider): (Versions, Chunks) {
    var updates := Updates(versions, provider);
    var vs := Cleared(Dated(versions, updates));
    (vs, ClearedChunks(DatedChunks(chunks, updates), vs))
  }

  class Database {
    var versions: Versions
    var chunks: Chunks

    constructor (versions: Versions, chunks: Chunks)
      ensures this.versions == versions && this.chunks == chunks
    {
      this.versions := versions;
      this.chunks := chunks;
    }

    /** The migration: four table updates, one after the other. */
    method Migrate(dryRun: bool, provider: Provider)
      modifies this
      ensures dryRun || !AnyReady(old(versions)) ==> versions == old(versions) && chunks == old(chunks)
      ensures !dryRun && AnyReady(old(versions)) ==> (versions, chunks) == Migrated(old(versions), old(chunks), provider)
    {
      if !AnyReady(versions) {
        return;
      }
      var updates := Updates(versions, provider);
      if dryRun {
        return;
      }
      versions := Dated(versions, updates);
      chunks := DatedChunks(chunks, updates);
      versions := Cleared(versions);
      chunks := ClearedChunks(chunks, versions);
    }
  }

  // ----- row by row

  /** The date a version ends up with. */
  function FinalDate(v: Version, provider: Provider): Date {
    var answered := if Suspect(v) && provider(v.url).Some? then provider(v.url).value else v.filingDate;
    if answered == v.effectiveDate then UNKNOWN else answered
  }

  /** The date a chunk ends up with, given its version's row. */
  function FinalChunkDate(c: Chunk, versions: Versions, provider: Provider): Date {
    if c.version !in versions then c.publishedAt
    else
      var v := versions[c.version];
      if FinalDate(v, provider) == UNKNOWN then UNKNOWN
      else if Suspect(v) && provider(v.url).Some? then provider(v.url).value
      else c.publishedAt
  }

  /** The four updates together give every row its final date and change nothing else. */
  lemma MigratedRowByRow(versions: Versions, chunks: Chunks, provider: Provider)
    ensures var (vs, cs) := Migrated(versions, chunks, provider);
            && vs.Keys == versions.Keys && cs.Keys == chunks.Keys
            && (forall id :: id in vs ==> vs[id] == versions[id].(filingDate := FinalDate(versions[id], provider)))
            && (forall id :: id in cs ==> cs[id] == chunks[id].(publishedAt := FinalChunkDate(chunks[id], versions, provider)))
  {
    var (vs, cs) := Migrated(versions, chunks, provider);
    forall id | id in versions
      ensures vs[id] == versions[id].(filingDate := FinalDate(versions[id], provider))
    {
    }
    forall id | id in cs
      ensures cs[id] == chunks[id].(publishedAt := FinalChunkDate(chunks[id], versions, provider))
    {
    }
  }

  // ----- what the migration is for

  /** No row keeps a period end as its filing date, ready or not, and no chunk of an undated
      version keeps a date. */
  lemma NothingBackDatedRemains(versions: Versions, chunks: Chunks, provider: Provider)
    ensures var (vs, cs) := Migrated(versions, chunks, provider);
            && (forall id :: id in vs ==> !BackDated(vs[id]))
            && forall id :: id in cs && cs[id].version in vs && vs[cs[id].version].filingDate == UNKNOWN ==> cs[id].publishedAt == UNKNOWN
  {
    MigratedRowByRow(versions, chunks, provider);
  }

  /** Rows that were dated otherwise, and their chunks, are left as they were. */
  lemma GenuineDatesSurvive(versions: Versions, chunks: Chunks, provider: Provider, id: string)
    requires id in versions && versions[id].filingDate != UNKNOWN && !BackDated(versions[id])
    ensures var (vs, cs) := Migrated(versions, chunks, provider);
            && vs[id] == versions[id]
            && forall c :: c in chunks && chunks[c].version == id ==> cs[c] == chunks[c]
  {
    MigratedRowByRow(versions, chunks, provider);
  }

  /** A date is written only where the registry gave it, and only if it is not the period end. */
  lemma NewDatesComeFromRegistry(versions: Versions, chunks: Chunks, provider: Provider, id: string)
    requires id in versions
    ensures var (vs, _) := Migrated(versions, chunks, provider);
            vs[id].filingDate != versions[id].filingDate && vs[id].filingDate != UNKNOWN ==>
              Suspect(versions[id]) && provider(versions[id].url) == Some(vs[id].filingDate) && vs[id].filingDate != versions[id].effectiveDate
  {
    MigratedRowByRow(versions, chunks, provider);
  }

  /** A ready row without a disclosure date of its own. */
  predicate Undisclosed(v: Version) {
    v.ready && (v.filingDate == Date("") || v.filingDate == v.effectiveDate)
  }

  /** All a row and its chunks can come to: the registry's date where it is asked for and gives one
      other than the period end; no date where it is asked and gives none, and where a row that is
      not ready keeps a period end; and otherwise what they had. */
  lemma EveryRowsFate(versions: Versions, chunks: Chunks, provider: Provider, id: string, c: string)
    requires id in versions && c in chunks && chunks[c].version == id
    ensures var (vs, cs) := Migrated(versions, chunks, provider);
            var v, answer := versions[id], provider(versions[id].url);
            && id in vs && c in cs && cs[c].version == id
            && (Undisclosed(v) && answer.Some? && answer.value != v.effectiveDate ==>
                  vs[id].filingDate == cs[c].publishedAt == answer.value)
            && (Undisclosed(v) && (answer.None? || answer.value == v.effectiveDate) ==>
                  vs[id].filingDate == cs[c].publishedAt == Date(""))
            && (!v.ready && (v.filingDate == v.effectiveDate || v.filingDate == Date("")) ==>
                  vs[id].filingDate == cs[c].publishedAt == Date(""))
            && (v.filingDate != v.effectiveDate && v.filingDate != Date("") ==>
                  vs[id].filingDate == v.filingDate && cs[c] == chunks[c])
  {
    MigratedRowByRow(versions, chunks, provider);
  }

  /** A second migration with the same answers changes nothing. */
  lemma MigrationIsIdempotent(versions: Versions, chunks: Chunks, provider: Provider)
    ensures var (vs, cs) := Migrated(versions, chunks, provider);
            Migrated(vs, cs, provider) == (vs, cs)
  {
    var (vs, cs) := Migrated(versions, chunks, provider);
    var (vs2, cs2) := Migrated(vs, cs, provider);
    MigratedRowByRow(versions, chunks, provider);
    MigratedRowByRow(vs, cs, provider);
    forall id | id in vs
      ensures vs2[id] == vs[id]
    {
      DateIsStable(versions[id], provider);
    }
    assert vs2 == vs;
    forall id | id in cs
      ensures cs2[id] == cs[id]
    {
      ChunkDateIsStable(chunks[id], versions, vs, provider);
    }
    assert cs2 == cs;
  }

  lemma DateIsStable(v: Version, provider: Provider)
    ensures var w := v.(filingDate := FinalDate(v, provider));
            FinalDate(w, provider) == w.filingDate
  {
  }

  lemma ChunkDateIsStable(c: Chunk, versions: Versions, vs: Versions, provider: Provider)
    requires vs.Keys == versions.Keys
    requires forall id :: id in vs ==> vs[id] == versions[id].(filingDate := FinalDate(versions[id], provider))
    ensures var d := c.(publishedAt := FinalChunkDate(c, versions, provider));
            FinalChunkDate(d, vs, provider) == d.publishedAt
  {
    if c.version in versions {
      DateIsStable(versions[c.version], provider);
    }
  }

  /** Without a single ready row nothing happens, so a back-dated row can only survive there. */
  lemma BackDatedSurvivesOnlyUnready(versions: Versions, chunks: Chunks, provider: Provider)
    ensures var after := if AnyReady(versions) then Migrated(versions, chunks, provider).0 else versions;
            (exists id :: id in after && BackDated(after[id])) <==>
            !AnyReady(versions) && exists id :: id in versions && BackDated(versions[id])
  {
    NothingBackDatedRemains(versions, chunks, provider);
  }
}
