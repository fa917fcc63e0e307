# Verification of the research agent's maintenance scripts

The repository's `scripts/` directory holds the programs that decide whether a model's answer can fit
its token cap, rebuild the search index, merge evaluation shards, publish reports, and keep score. This
project models those programs in Dafny and proves what they are relied on for. `dafny verify
dfyconfig.toml` checks all of it.

The files follow the scripts.

| files | script | subject |
|---|---|---|
| `JsonText`, `Truncation`, `SchemaWalker`, `SchemaExtent`, `SchemaTight`, `SchemaDomination`, `SchemaGuards`, `SchemaLimits`, `SchemaDecision`, `SchemaRefusal`, `SchemaPlain`, `SchemaAnswer`, `GateSchemas` | `check_llm_agent_liveness.py` | the worst case a JSON Schema permits, the token estimate, the truncating provider |
| `RebuildIndex`, `RebuildHistory` | `rebuild_rag_index.py` | a checkpointed rebuild that may die anywhere and be started again |
| `MergeShards`, `MergeOrder`, `ShardOrder` | `merge_golden_shards.py` | which histories of a question a merge accepts, and when the order of the shards matters |
| `Markers`, `SiteReport`, `SiteLoop`, `SiteHtml`, `SiteText`, `SiteLines`, `SiteAutolink` | `build_site.py` | reports as pages: renumbered footnotes, balanced lists, escaped text, links |
| `GuardWiring` | `check_guard_wiring.py` | reachability of the guards |
| `RefillGold` | `refill_gold.py` | applying a change manifest |
| `Downloads` | `download_corpus_finance_v1.py` | downloads under one request budget |
| `CitationVotes` | `run_citation_support_3s.py` | aligning and voting over three verdict samples |
| `Promotion` | `check_087_capability_ab.py`, `check_087_report_shape.py` | promoting a capability |
| `Backfill` | `backfill_disclosure_dates.py` | replacing back-dated filing dates |
| `Ledger` | `run_golden_round.py`, `run_citation_support_3s.py` | attributing costs, keeping to a budget, resuming |
| `Collections`, `Numerals` | | shared facts about sequences, sets, multisets and decimal numbers |

## How the models are built

**Schemas.** A schema is a record of optional keywords; `SchemaWalker.Walk` is `schema_worst_case` with
its branches in its order. Recursion depth is an explicit amount of stack, and running out of it is an
answer of its own; `MoreStackSameAnswer` shows that the amount never changes any other answer.
Independently of the walker, `SchemaExtent.PermittedAt` says which JSON values a schema admits: every
keyword constrains on its own, `maxLength` constrains strings only (section 6.3.1 of JSON Schema
Validation 2020-12), and an open object takes undeclared keys. `SchemaExtent.Survey` computes how much
text those values can take, separately for strings and for everything else. All costs come in two
modes: characters, and token weight (4 for a CJK character, 1 for another). The chain of results is:
the survey bounds everything permitted (`SurveyBoundsPermitted`); what it reports is reached by a
permitted value (`ExtentReached`); so a value dominates a schema exactly when the survey fits under
it (`DominatesExactlyWhenCovered`); and the walker's value does, if its choices are guarded
(`WorstCaseDominates`). The guards are conditions on the nodes the walker visits, and that they hold
can be read off the schema: `SchemaPlain.Plain` asks for closed objects, enumerations of strings only or
of other values only, and `maxLength` only on strings or on unions of scalars it leaves room for; when
tokens are counted, enumerations hold no CJK text, and a union has at most one branch that may answer
with such text, long enough for the others, as every nullable field of four characters or more. On such
schemas whatever the walker returns is the worst case (`PlainSchemasAreDominated`), and it returns
exactly for bounded ones (`AcyclicPlainSchemasAreDecided`). The answer is no larger than it must be
either: up to the two quotes around each number it is itself permitted
(`SchemaAnswer.AnswerIsPermitted`), so without numbers it is the largest permitted instance
(`PlainAnswerIsLargest`). Both schemas the gate looks at are plain; it passes the reporter's exactly
when every permitted report stays under the cap (`GateSchemas.ReporterGateIsExact`). Beyond them `EnumExact`, `UnionExact` and `CapExact` say for an
enumeration, a union and a bounded node exactly when the walker's choice is right, and `SchemaLimits`
follows the failing cases in detail. `SchemaRefusal` says which nodes the walker visits and that it
raises exactly when one of them has no bound.

**The rebuild.** A run is a method over three durable things: the index, the checkpoint file and the log
of embedded chunks. Which outstanding batch of a window completes next is left open, and an oracle says
of each completion whether it settles or where the process dies: before or after the upsert, or while
the file is being written. What a run may leave behind is `RebuildIndex.RunEffect`, and
`RebuildHistory` reasons about arbitrary sequences of such runs.

**The merge.** The two nested loops are a fold over all entries in shard order; each question reads its
own word of error and non-error entries, and the fold accepts exactly when every word is accepted.

**The site.** Footnote markers are found character by character, the way the two regular expressions
find them, and `SiteLines.Classify` sorts the lines by the renderer's tests in their order. The page
is a sequence of tags, and its list depth is counted independently of the loop's flag. Read back,
that is unescaped by `SiteText.Unescape` and with the sign of its level in front, each element is a
line of the report with its citations renumbered (`SiteLines.MarkdownToHtml`). `SiteAutolink` follows
the last substitution, which turns bare URLs into links.

The remaining scripts are modelled as methods, each tied to a specification that is then reasoned about.

## What turned out not to hold

These are properties the scripts or their comments suggest, with the exact condition under which they do hold.

- *The returned instance is the largest the schema permits.* Not for an enumeration of mixed types
  (`SchemaGuards.EnumExact`, `SchemaLimits.MixedEnumExact`), nor for `maxLength` beside a number branch
  (`SchemaLimits.CappedNumberExact`), nor for open objects (`SchemaLimits.OpenObjectHasNoWorstCase`),
  nor once strings hold characters that need escapes (`SchemaLimits.EscapesExact`), nor in tokens when
  a union's longest branch is not its heaviest (`SchemaGuards.UnionExact`; for a number or `m` CJK
  characters it is right up to 6 and from 25 on, `SchemaLimits.WidestBranchExact`).
- *A recursive schema is refused by name.* Only a chain of direct references is
  (`SchemaWalker.RefusedExactlyOnLoops`); a schema that visits itself through an object, an
  array or a union exhausts the stack (`SchemaRefusal.RecursionExhausts`).
- *Each slot is changed once.* Slot 0 is accepted and means the last slot, so a question changed at both
  names is changed twice (`RefillGold.AliasExactly`, `RefillGold.AliasedSlotIsRewrittenTwice`).
- *After exit code 0 every document is on disk.* Exactly when entries that share a path record the
  same bytes (`Downloads.EveryDocumentOnDisk`).
- *Every verdict is used once.* Exactly when no two claims normalize to the same text
  (`CitationVotes.VerdictsUsedOnce`).
- *A question's cost is its own.* Exactly when no identifier, closed by a dash, begins another
  (`Ledger.SharedRowExactly`).
- *Every citation becomes a link.* Exactly on lines where no citation follows a URL without a space or a
  closing parenthesis in between (`SiteAutolink.LinksComeThroughExactly`); there the URL's own link
  runs into the citation's tag (`SiteAutolink.CitationBehindUrlIsLost`).
- *A level-one heading closes the list before it.* It does not (`SiteLoop.HeadingOneStaysInList`).
- *Merging does not depend on the order of the shards.* It does exactly under supersession when some
  question's only success has at most one error before it in its own shard, and two or more with the
  errors of the other shards (`ShardOrder.ShardOrderMattersExactly`). If no shard names a question
  twice, that is one success among two or more errors (`ShardOrder.OnceInEachShard`), the condition
  under which the order of single entries matters (`MergeOrder.RoundOrderMattersExactly`);
  `MergeOrder.SupersessionDependsOnOrder` is such a question.
- *A run, finished or interrupted, loses no verdict on file.* Exactly when all questions on file are
  among those of the run and listed before the others (`Ledger.NothingLostExactly`). A run over a
  narrower list drops the rest (`Ledger.NarrowedListDrops`), and a run over the whole list after it may
  lose more (`Ledger.NarrowedListLoses`).
- *The questions' costs of a round are within what the ledger grew by.* Exactly when what earlier runs
  of the round were charged is covered by what this one spent on no question
  (`Ledger.RoundTotalsExactly`).
- *Each capability must be listed exactly once.* A repeated entry replaces the earlier one and is never
  reported; silence means that every registered capability is decided by its last entry and no other
  is listed (`Promotion.SilentExactlyWhenDecided`).
- *A case's reserve keeps the round in budget.* Exactly when it covers the case or exceeds the whole
  budget (`Ledger.ReserveMustCover`).
- *No back-dated row survives the migration.* Exactly unless no row is ready
  (`Backfill.BackDatedSurvivesOnlyUnready`).

## Model

| member | source | states |
|---|---|---|
| JsonText.ArrayCost | scripts/check_llm_agent_liveness.py:393-401 | the text of an array costs its items' costs, a two-character separator between each, and its brackets |
| JsonText.ObjectCost | scripts/check_llm_agent_liveness.py:393-401 | the same for objects, keys and colons included, so costs can be reasoned about without the text |
| JsonText.EscapeReadsBack | scripts/check_llm_agent_liveness.py:393-401 | a string's text, read as JSON reads it, is the string |
| Truncation.EstimateIsRoundedWeight | scripts/check_llm_agent_liveness.py:59-68 | the token estimate is a weight of 4 per CJK and 1 per other character, which adds over concatenation, divided by 4 and rounded up |
| Truncation.EstimateSteps | scripts/check_llm_agent_liveness.py:59-68 | one more character never lowers the estimate and raises it by at most one |
| Truncation.CutSpendsTheCap | scripts/check_llm_agent_liveness.py:71-81 | the longest prefix within the cap, if it drops anything, costs exactly the cap |
| Truncation.TruncateToTokens | scripts/check_llm_agent_liveness.py:71-81 | the binary search returns the longest prefix whose estimate is within the cap, and the empty text for a negative cap |
| Truncation.ProviderAnswer | scripts/check_llm_agent_liveness.py:84-107 | the provider reports a cut exactly when the payload's estimate exceeds a positive cap, and then reports exactly the cap as used |
| SchemaWalker.ResolveRef | scripts/check_llm_agent_liveness.py:320-331 | the loop over `seen` computes the reference resolution the walker is specified with, and ends |
| SchemaWalker.RefusedExactlyOnLoops | scripts/check_llm_agent_liveness.py:320-331 | a chain of direct references is refused as recursive exactly when following it never ends |
| SchemaWalker.FirstMax | scripts/check_llm_agent_liveness.py:354-366 | the choice among enumeration members and among branches is the first of the largest |
| SchemaRefusal.RefusalNamesTheGap | scripts/check_llm_agent_liveness.py:304-390 | the path in every refusal is one the walker follows, past no length bound, constant, enumeration or empty array, to a string, array or untyped node without a bound |
| SchemaRefusal.GapIsRefused | scripts/check_llm_agent_liveness.py:334-390 | conversely a schema in which the walker visits such a node is never answered |
| SchemaRefusal.RaisesExactlyAtGaps | scripts/check_llm_agent_liveness.py:334-390 | where no reference, empty choice or full stack is in the way, the walker raises if and only if it visits a node without a bound |
| SchemaRefusal.AcyclicSchemasAreRefusedAtGaps | scripts/check_llm_agent_liveness.py:320-390 | with acyclic definitions and enough stack that is so, and instances are bounded exactly when no gap is visited and none is hidden |
| SchemaRefusal.AnswersExactlyWhenSound | scripts/check_llm_agent_liveness.py:320-390 | unless the stack runs out, the walker answers if and only if it visits no dead reference, no choice among nothing and no node without a bound |
| SchemaRefusal.RecursionIsNeverAnswered | scripts/check_llm_agent_liveness.py:320-390 | a schema that visits itself below itself is never answered |
| SchemaRefusal.RecursionExhausts | scripts/check_llm_agent_liveness.py:320-390 | and if everything visited before is free of trouble, it runs out of any stack instead of being refused by name |
| SchemaRefusal.SelfReferenceExhausts | scripts/check_llm_agent_liveness.py:320-331 | for one, a definition that refers to itself from inside an object |
| SchemaWalker.MoreStackSameAnswer | scripts/check_llm_agent_liveness.py:334-390 | any answer but running out of stack is the answer with any larger stack |
| SchemaExtent.SurveyBoundsPermitted | scripts/check_llm_agent_liveness.py:334-390 | for every schema, no permitted instance costs more than its surveyed extent |
| SchemaTight.ExtentReached | scripts/check_llm_agent_liveness.py:334-390 | for every schema whose nodes have one shape, a permitted instance costs exactly its extent, or more than any number when it is endless |
| SchemaDomination.DominatesExactlyWhenCovered | scripts/check_llm_agent_liveness.py:334-335 | a value dominates every permitted instance if and only if the surveyed extent fits under it |
| SchemaDomination.CoveredDominates | scripts/check_llm_agent_liveness.py:334-335 | the sufficient half, for schemas of any shape |
| SchemaDomination.WalkerCovers | scripts/check_llm_agent_liveness.py:334-390 | under the guards the walker's value covers the survey of the schema, through objects, arrays, unions, enumerations and references |
| SchemaDomination.WorstCaseDominates | scripts/check_llm_agent_liveness.py:334-401 | every permitted escape-free instance, with any subset of the declared properties in any order, is written no longer (and, in token mode, no heavier) than the returned value; that the value is no larger than that is `SchemaAnswer.GuardedAnswerIsLargest` |
| SchemaPlain.PlainIsGuarded | scripts/check_llm_agent_liveness.py:334-390 | plain schemas, a condition on their keywords alone, meet every guard |
| SchemaPlain.PlainSchemasAreDominated | scripts/check_llm_agent_liveness.py:334-401 | for a plain schema no permitted escape-free instance is larger than what the walker returns; that it is no larger than it must be is `SchemaAnswer.PlainAnswerIsLargest` |
| SchemaPlain.FittingPlainSchemaIsNeverCut | scripts/check_llm_agent_liveness.py:452-473 | a plain schema whose worst case is under the cap never has a permitted response cut |
| SchemaPlain.PlainUnionIsRight | scripts/check_llm_agent_liveness.py:358-366 | in a plain union, a nullable field for one, the longest branch answer is also the heaviest |
| SchemaPlain.GuardedHidesNothing | scripts/check_llm_agent_liveness.py:334-390 | where its choices are guarded the walker passes nothing endless over |
| SchemaPlain.PlainSchemasAreDecided | scripts/check_llm_agent_liveness.py:334-390 | a plain schema is answered if and only if its instances are bounded |
| SchemaPlain.AcyclicPlainSchemasAreDecided | scripts/check_llm_agent_liveness.py:320-390 | with acyclic definitions and enough stack that needs nothing else, and is so exactly when no visited node lacks a bound |
| SchemaAnswer.AnswerIsPermitted | scripts/check_llm_agent_liveness.py:334-390 | the walker's answer is a permitted instance, or is one once some numbers lose their quotes: arrays are no longer than `maxItems`, strings no longer than `maxLength`, members and branches are the schema's own |
| SchemaAnswer.WorstCaseIsReached | scripts/check_llm_agent_liveness.py:334-401 | so some permitted instance costs exactly what the answer does, less two for each such number |
| SchemaAnswer.GuardedAnswerIsLargest | scripts/check_llm_agent_liveness.py:334-401 | without numbers a guarded answer is the largest permitted instance and costs the surveyed extent |
| SchemaAnswer.PlainAnswerIsLargest | scripts/check_llm_agent_liveness.py:334-401 | so is every answer for a plain schema |
| SchemaAnswer.BoundStandsExactly | scripts/check_llm_agent_liveness.py:348-352 | on a string or a union of scalars the filler string is permitted if and only if the node or a branch is a string with no smaller bound |
| GateSchemas.PlainNumericFields | src/deepresearch_agent/schemas.py:175-187 | the numeric fields of a claim, four of them nullable texts and one a bounded decimal, are plain |
| GateSchemas.PlainExtractedClaim | src/deepresearch_agent/schemas.py:256-262 | so is an extracted claim, with its nullable numeric fields |
| GateSchemas.PlainReportDraft | src/deepresearch_agent/schemas.py:294-332 | and the reporter's draft |
| GateSchemas.GateIsSound | scripts/check_llm_agent_liveness.py:452-473 | if the gate finds the worst case of the extractor's or the reporter's schema under the cap, no permitted escape-free response of that role is cut |
| GateSchemas.GateIsAnswered | scripts/check_llm_agent_liveness.py:455-460 | the walker answers both schemas: neither has a gap |
| GateSchemas.ReporterGateIsExact | scripts/check_llm_agent_liveness.py:452-473 | the reporter's role passes the gate if and only if every permitted escape-free report is estimated under its cap |
| GateSchemas.ExtractorRefusalIsEarned | scripts/check_llm_agent_liveness.py:452-473 | the extractor's role fails it only for a permitted answer that reaches the cap once half a token is added for each of its numbers |
| SchemaDomination.FittingSchemaIsNeverCut | scripts/check_llm_agent_liveness.py:452-473 | a role whose worst case is under its cap never has a permitted response cut |
| SchemaDecision.BoundedExactlyWhenNotEndless | scripts/check_llm_agent_liveness.py:334-345 | permitted instances have bounded length if and only if the survey is not endless |
| SchemaDecision.WalkerDecidesBoundedness | scripts/check_llm_agent_liveness.py:334-390 | the walker returns exactly when instances are bounded, provided that no `maxLength` hides an endless part of its node and objects are closed; every refusal is deserved |
| SchemaDecision.AcyclicSchemasAreDecided | scripts/check_llm_agent_liveness.py:320-390 | with acyclic definitions there is a stack depth from which on this decision is made |
| SchemaGuards.EnumExact | scripts/check_llm_agent_liveness.py:356-357 | the member chosen by the length of its `str` is the worst case if and only if the longest string is longer than all other members, or at least two characters shorter than the longest of them, or as long and listed before it |
| SchemaGuards.UnionExact | scripts/check_llm_agent_liveness.py:358-366 | the branch answer chosen by text length is the worst case of the union if and only if every branch's extent fits under it |
| SchemaLimits.MixedEnumExact | scripts/check_llm_agent_liveness.py:356-357 | for one string and one other value it is wrong exactly when the other has one character more, or as many and comes first |
| SchemaLimits.CapExact | scripts/check_llm_agent_liveness.py:348-352 | a bounded string stands for its node if and only if nothing else the node admits is longer |
| SchemaLimits.CappedNumberExact | scripts/check_llm_agent_liveness.py:348-352 | beside a number branch that is from 22 characters on |
| SchemaLimits.EscapesExact | scripts/check_llm_agent_liveness.py:348-352 | if characters may need escapes, the bounded string is the worst case only when it is empty |
| SchemaLimits.OpenObjectHasNoWorstCase | scripts/check_llm_agent_liveness.py:369-373 | no value dominates an object that admits undeclared keys |
| SchemaLimits.WidestBranchExact | scripts/check_llm_agent_liveness.py:358-366 | for a number or m CJK characters the answer is always the longest instance, and the heaviest exactly for m up to 6 and from 25 on |
| SchemaLimits.ContradictoryNode | scripts/check_llm_agent_liveness.py:334-390 | a node that contradicts itself permits nothing although it has an extent, so exactness needs nodes of one shape |
| RebuildIndex.BatchesCut | scripts/rebuild_rag_index.py:64-65 | the batches, joined, are the pending list |
| RebuildIndex.BatchCount | scripts/rebuild_rag_index.py:64-65 | there are as many batches as the report's formula for embedding calls says |
| RebuildIndex.PendingKeepsOrder | scripts/rebuild_rag_index.py:92 | the pending chunks stand in the order of the store |
| RebuildIndex.Rebuilder.CompleteBatch | scripts/rebuild_rag_index.py:127-155 | what each outcome leaves: a settled batch is upserted and the completed set saved, and every other end stops at the step it names |
| RebuildIndex.Rebuilder.DrainWindow | scripts/rebuild_rag_index.py:124-155 | whatever the completion order, a window ends with all its batches settled, exactly when each completion settles, or the run stopped with no more than a window unrecorded |
| RebuildIndex.Rebuilder.Rebuild | scripts/rebuild_rag_index.py:39-167 | which parameters and files are refused, and that a refused run leaves everything as it was: a file of another version, an unreadable one; the effect of a run whether finished or not; indexed + skipped = active, calls = number of batches; success if and only if nothing is refused and every batch settles |
| RebuildHistory.CheckpointIsAlwaysIndexed | scripts/rebuild_rag_index.py:88-155 | after any sequence of runs, crashes and restarts, everything the checkpoint lists is in the index |
| RebuildHistory.FinishedMeansComplete | scripts/rebuild_rag_index.py:88-155 | a finished run leaves every ready chunk indexed and checkpointed |
| RebuildHistory.RecordsPersist | scripts/rebuild_rag_index.py:39-61 | later runs never drop a record, unless a crash tore the file, after which nothing changes any more |
| RebuildHistory.CheckpointedIsNeverPaidAgain | scripts/rebuild_rag_index.py:91-92 | no chunk the checkpoint lists is embedded in any later run |
| RebuildHistory.EmbeddingsAreBounded | scripts/rebuild_rag_index.py:117-164 | over a whole history the embedded chunks number at most the ready chunks plus one window for each interrupted run |
| MergeShards.Merge | scripts/merge_golden_shards.py:22-93 | the two loops compute the fold; no shards, the first mismatching shard and the duplicated questions are what is refused |
| MergeShards.OneMoreLetter | scripts/merge_golden_shards.py:54-86 | a longer word is accepted only under supersession, and exactly when the kept entry and the new one differ in being an error; the non-error is kept |
| MergeShards.FoldReadsTheWord | scripts/merge_golden_shards.py:54-86 | what the fold holds of a question depends on that question's word alone: kept entry, duplicate or absent |
| MergeShards.MergeAcceptsExactly | scripts/merge_golden_shards.py:41-93 | a merge is accepted if and only if every question occurs once or, under supersession, spells E or E?DE*; a refusal names exactly the others |
| MergeShards.MergeConserves | scripts/merge_golden_shards.py:41-95 | kept and superseded entries together are as many as the entries read, and only errors are superseded |
| MergeShards.EveryOtherEntryIsRecorded | scripts/merge_golden_shards.py:64-84 | for each question every entry but the kept one leaves exactly one record |
| MergeShards.RecordsTellTheWord | scripts/merge_golden_shards.py:64-84 | record by record: the entry put aside, its status and error type, the first 200 characters of its error, and the shard whose arrival put it aside |
| MergeShards.ScoredResultsSurvive | scripts/merge_golden_shards.py:59-86 | an accepted merge keeps every non-error entry unchanged |
| MergeOrder.OrderMattersExactly | scripts/merge_golden_shards.py:54-86 | permuting a question's entries changes its acceptance or its kept entry if and only if supersession is allowed and one success stands among two or more errors |
| MergeOrder.RoundOrderMattersExactly | scripts/merge_golden_shards.py:53-95 | meeting the entries in another order changes the refused questions or the kept results for some order if and only if supersession is allowed and some question is like that |
| ShardOrder.ShardOrderMattersExactly | scripts/merge_golden_shards.py:41-95 | reordering the shards does so if and only if supersession is allowed and some question's only success has at most one error before it in its shard, and two or more with the errors of the other shards |
| ShardOrder.OnceInEachShard | scripts/merge_golden_shards.py:41-95 | if no shard names a question twice, that is one success among two or more errors |
| ShardOrder.OneShardIsOrderFree | scripts/merge_golden_shards.py:41-95 | a single shard has one order, whatever it holds |
| MergeOrder.SupersessionDependsOnOrder | scripts/merge_golden_shards.py:64-86 | E, D, E is accepted and E, E, D is refused |
| Markers.ScanReads | scripts/build_site.py:607-613 | finding markers loses no character of the line |
| Markers.MarkersAreFound | scripts/build_site.py:607-618 | a token is a citation exactly where the text spells a marker of at least one digit |
| Markers.RewritingIsStable | scripts/build_site.py:607-619 | a substitution that keeps markers well formed never creates, joins or destroys one elsewhere in the line |
| SiteReport.DeduplicatedReferences | scripts/build_site.py:582-604 | the loop computes the reference book; it fails exactly for a definition without URL, naming the first one, or for no definition at all |
| SiteReport.BookFollowsLastDefinition | scripts/build_site.py:582-604 | an identifier is known exactly when it is defined, and carries the number of its last definition's URL |
| SiteReport.NewNumberKeepsUrl | scripts/build_site.py:582-613 | the anchor an identifier is renumbered to carries the URL that identifier was last defined with |
| SiteReport.SharedNumberExactlyForSameUrl | scripts/build_site.py:595-601 | two identifiers share a number if and only if they mean the same URL |
| SiteReport.AnchorsAreDistinct | scripts/build_site.py:595-601 | the anchors are 1 to k in order, and no two have the same URL |
| SiteReport.AnchorsAreFirstDefinitions | scripts/build_site.py:586-601 | each anchor has the URL and title of the first definition of that URL, and the anchors stand in the order of those definitions |
| SiteReport.LinksAreRenumberedCitations | scripts/build_site.py:607-618 | after renumbering and escaping, the links of a line are its citations, renumbered one by one and in order |
| SiteLoop.FlagIsDepth | scripts/build_site.py:536-577 | across every kind of line, skipped ones included, the `in_list` flag is the list depth of what was written |
| SiteLoop.PagesAreBalanced | scripts/build_site.py:536-579 | every page ends at depth 0, the reference block included, with no tag misplaced |
| SiteLoop.WellPlaced | scripts/build_site.py:537-578 | on such a page depth is at most 1, every `li` is at depth 1 and every `h2`, `h3`, `p` and the reference block at depth 0 |
| SiteLoop.HeadingOneStaysInList | scripts/build_site.py:564-565 | a level-one heading after a bullet stands inside the list |
| SiteLoop.PageShowsVisibleLines | scripts/build_site.py:539-575 | the page holds one element for each line that is not skipped, in order, and nothing else |
| SiteHtml.RenderedExactlyWhenCited | scripts/build_site.py:534-613 | rendering succeeds if and only if there is a definition, every definition has a URL and every citation in a visible line is defined; the elements are then the visible lines made ready, in order, and what they read as is `SiteText.PageSpellsTheReport` |
| SiteHtml.PageEndsWithAnchors | scripts/build_site.py:577-579 | the anchors stand at the end of a page and nowhere else |
| SiteText.EscapingIsInverted | scripts/build_site.py:617 | every escaped text reads back as the text it was |
| SiteText.EscapedIsSafe | scripts/build_site.py:617 | it holds no `<`, `>` or quote, and every `&` in it begins one of the five entities |
| SiteText.PageSpellsTheReport | scripts/build_site.py:534-617 | element by element a page is safe in that sense, and read back it is the visible line, its sign included, with each citation's identifier replaced by its number and no other character changed |
| SiteLines.ClassifiedLine | scripts/build_site.py:541-575 | a line is a definition exactly when it spells a numeric marker and a colon, and defines that identifier; it is text exactly when it is none of that, no date line, not empty and not the reference heading; text keeps its sign |
| SiteLines.MarkdownToHtml | scripts/build_site.py:534-613 | the loop over the stripped lines renders if and only if there is a definition, every definition has a URL and every visible citation is defined; then each text line before the reference heading is shown once, in order, at the level its longest sign asks for, reading as that line renumbered, and the page is balanced and ends with the anchors |
| SiteAutolink.BrokenExactlyWhenSwallowed | scripts/build_site.py:618-619 | the substitution of bare URLs makes a link whose address runs into a tag if and only if a URL is followed by a citation with nothing between that ends it |
| SiteAutolink.CitationStands | scripts/build_site.py:618-619 | otherwise every citation's link comes through unchanged, and the text on both sides is linked as if it stood alone |
| SiteAutolink.LinksComeThroughExactly | scripts/build_site.py:534-619 | for the elements of a page that is decided by the report's own line |
| SiteAutolink.CitationBehindUrlIsLost | scripts/build_site.py:616-619 | a citation right behind any URL is such a case |
| SiteHtml.LinksLeadToTheirSources | scripts/build_site.py:534-619 | the c-th link of the i-th element is the c-th citation of the i-th visible line, and its anchor carries that citation's URL |
| SiteHtml.EqualLinksExactly | scripts/build_site.py:582-619 | two links of a page are equal if and only if their citations mean the same URL |
| GuardWiring.Resolve | scripts/check_guard_wiring.py:52-66 | the longest known prefix, or the whole reference when no prefix is known |
| GuardWiring.ResolveIsIdempotent | scripts/check_guard_wiring.py:52-66 | resolving twice is resolving once |
| GuardWiring.Reachable | scripts/check_guard_wiring.py:109-120 | the worklist ends with the least set that holds every surface reference and is closed under imports |
| GuardWiring.LeastIsReached | scripts/check_guard_wiring.py:109-120 | that set is exactly what chains of imports from a surface reach |
| GuardWiring.Evaluate | scripts/check_guard_wiring.py:123-147 | the failures listed are the unreached guards and the dangling references, each once |
| GuardWiring.SilentExactlyWhenWired | scripts/check_guard_wiring.py:123-147 | there is no failure if and only if every guard is reached by a chain and every surface reference is on disk |
| RefillGold.KeysThatCanBeSpelled | scripts/refill_gold.py:66-70 | a slot key can be authorized exactly when its question's name is not empty and holds no `s` |
| RefillGold.ParsedIsSpelled | scripts/refill_gold.py:66-70 | a key that parses is a name without `s`, an `s` and digits, and means that question and number |
| RefillGold.EnforceGroup | scripts/refill_gold.py:73-91 | a group of slots passes if and only if it names at least two existing slots that agree on each of its fields |
| RefillGold.ApplyManifest | scripts/refill_gold.py:13-63 | which refusal is given and when: version, unreadable or missing authorization, changes that are not those authorized, a refused change, an inconsistent group; else the payload with the changes and the meta updates; the closing mismatch test never fires |
| RefillGold.DuplicatesAreRefused | scripts/refill_gold.py:34-41 | an applied manifest names every key once |
| RefillGold.ApplicationIsPointwise | scripts/refill_gold.py:35-57 | changes to different slots succeed exactly when each passes against the original, rewrite their slots and leave every other slot and field alone |
| RefillGold.AppliedExactlyWhenWelcome | scripts/refill_gold.py:35-57 | such changes are applied if and only if each names an existing slot, its old value is the one that slot held, its new fields exist and carry the new value, and the gate accepts what will stand there; field by field a new field reads as given, a removed one is absent and any other is as before |
| RefillGold.RefusalNamesTheFirst | scripts/refill_gold.py:35-57 | a refusal names the first change that is not so, and what is wrong with it |
| RefillGold.OrderDoesNotMatter | scripts/refill_gold.py:35-57 | a permuted change list is refused alike or gives the same questions |
| RefillGold.AliasExactly | scripts/refill_gold.py:36-44 | two changes meet in one slot if and only if some question is changed both at slot 0 and at its last slot |
| RefillGold.AppliedManifest | scripts/refill_gold.py:24-59 | an applied manifest names each key once and no negative slot; if no question is changed at slot 0 and at its last slot, each change was welcome, each named slot reads as its change says and nothing else changes |
| RefillGold.AliasedSlotIsRewrittenTwice | scripts/refill_gold.py:36-57 | with both names in use a slot is rewritten twice and the order of the list decides the outcome |
| Downloads.Downloader.Download | scripts/download_corpus_finance_v1.py:36-61 | at most retries + 1 requests, never beyond the budget, all but the last worth repeating; giving up names a final response, the last allowed one or the empty budget; the final return is reached only with negative retries |
| Downloads.Downloader.DownloadManifest | scripts/download_corpus_finance_v1.py:64-98 | the counters add up to the documents, one budget bounds all requests and one limit each document's, none is spent on a skipped one, files change only to recorded bytes; exit code 0 when the network serves what was recorded and the budget covers one request a document, and no request at all when everything is on disk |
| Downloads.EveryDocumentOnDisk | scripts/download_corpus_finance_v1.py:64-98 | after exit code 0 every recorded document is on disk if and only if entries sharing a path agree |
| Downloads.SharedPathMissesOne | scripts/download_corpus_finance_v1.py:71-95 | two entries with one path and different bytes: after exit code 0 the second is on disk and the first is not |
| CitationVotes.MajorityIsMedian | scripts/run_citation_support_3s.py:153-159 | the majority of three votes, three-way ties included, is their ordinal median |
| CitationVotes.VoteIgnoresOrder | scripts/run_citation_support_3s.py:153-159 | permuting three votes does not change their majority, although `Counter` breaks ties by order |
| CitationVotes.AlignSample | scripts/run_citation_support_3s.py:131-146 | alignment succeeds exactly when the verdicts' texts are distinct and every claim has one, and then gives each claim its verdict |
| CitationVotes.AlignmentIsUnique | scripts/run_citation_support_3s.py:131-146 | listing the verdicts in another order gives the same alignment |
| CitationVotes.VerdictsUsedOnce | scripts/run_citation_support_3s.py:97-146 | with as many verdicts as claims each is used exactly once if and only if the claims' texts are distinct |
| CitationVotes.RepeatedClaimWastesVerdict | scripts/run_citation_support_3s.py:97-146 | a claim made twice uses one verdict twice and another never |
| CitationVotes.AggregateCase | scripts/run_citation_support_3s.py:90-128 | success exactly for three samples of the right size that each align, and then the median status of every claim; a refusal names the number of samples, a wrong size, or what is wrong with the first sample that does not align |
| CitationVotes.AggregationIgnoresOrder | scripts/run_citation_support_3s.py:90-128 | permuting the samples and the verdicts in them does not change whether a case is aggregated |
| CitationVotes.StatusesIgnoreOrder | scripts/run_citation_support_3s.py:90-128 | nor the status of any claim |
| CitationVotes.MajorityRateIsBounded | scripts/run_citation_support_3s.py:113-121 | with S the sum of the samples' own rates, the majority rate is between (S - 1) / 2 and S / 2 |
| CitationVotes.RateIsShareOfClaims | scripts/run_citation_support_3s.py:113-121 | a supported claim counts in full, a partially supported one half, an unsupported one not at all |
| Promotion.ValidShapesAreClean | scripts/check_087_report_shape.py:26-89 | for a measured report the accounting test always holds, and it is valid if and only if it has no short line, no repeated bullet, no audit section, no false positive and at least one derived metric |
| Promotion.ColumnsCount | scripts/check_087_report_shape.py:26-89 | what every column counts: explained coverage bullets are gaps and the others answers, short lines that are neither heading nor table rule are boilerplate, bullets beyond the distinct ones are duplicates |
| Promotion.PromotionIsTwoAxes | scripts/check_087_capability_ab.py:67-106 | among valid, faithful reports with equal requests, promotion is strict Pareto improvement in answered and derived metrics |
| Promotion.PromotionIsStrictOrder | scripts/check_087_capability_ab.py:78-106 | promotion is irreflexive, asymmetric and transitive |
| Promotion.OneSwitchThrown | scripts/check_087_capability_ab.py:109-135 | a pair is accepted if and only if the runs agree on commit, request and manifest and the second one's flags read as the first one's with the one switch set, a missing flag reading as null |
| Promotion.Validate | scripts/check_087_capability_ab.py:138-194 | the three outcomes and the flag violations count the capabilities they should, each once, and the failures are the undecided ones and a wrong number of pairs |
| Promotion.OutcomesAreConfirmed | scripts/check_087_capability_ab.py:149-186 | a capability counts as promoted, or as kept off, exactly when its last entry can be read, throws its one switch and declares that outcome, and the rule confirms it |
| Promotion.CountsAreConfirmed | scripts/check_087_capability_ab.py:149-186 | the counts are the numbers of such capabilities |
| Promotion.EarlierEntryIsIgnored | scripts/check_087_capability_ab.py:143-147 | an entry for a capability that is listed again later makes no difference |
| Promotion.SilentExactlyWhenDecided | scripts/check_087_capability_ab.py:138-194 | nothing is reported if and only if the last entry of every registered capability can be read, throws its one switch and declares what the rule makes of it, and no other capability is listed |
| Backfill.Database.Migrate | scripts/backfill_disclosure_dates.py:47-101 | the four table updates in order, and nothing for a dry run or without a ready row |
| Backfill.MigratedRowByRow | scripts/backfill_disclosure_dates.py:78-91 | the four updates together give each row and each chunk its final date and touch nothing else |
| Backfill.EveryRowsFate | scripts/backfill_disclosure_dates.py:55-91 | every row and its chunks: the registry's date where it is asked for and gives one other than the period end, no date where it is asked and gives none, and otherwise what they had |
| Backfill.NothingBackDatedRemains | scripts/backfill_disclosure_dates.py:84-91 | no row keeps its period end as filing date, and no chunk of an undated version keeps a date |
| Backfill.GenuineDatesSurvive | scripts/backfill_disclosure_dates.py:55-83 | rows dated otherwise, and their chunks, are unchanged |
| Backfill.NewDatesComeFromRegistry | scripts/backfill_disclosure_dates.py:62-83 | a date is written only if the registry gave it and it is not the period end |
| Backfill.MigrationIsIdempotent | scripts/backfill_disclosure_dates.py:47-101 | a second run with the same answers changes nothing |
| Backfill.BackDatedSurvivesOnlyUnready | scripts/backfill_disclosure_dates.py:50-53 | a back-dated row survives if and only if there was one and no row was ready |
| Ledger.LedgerCostForPrefix | scripts/run_golden_round.py:615-628 | the sum over the readable rows whose run id starts with the prefix |
| Ledger.SharedRowExactly | scripts/run_golden_round.py:196-199 | two questions can be charged for one row if and only if one identifier, closed by a dash, begins the other |
| Ledger.DashlessIdsAreExclusive | scripts/run_golden_round.py:196-199 | distinct identifiers without a dash never share a row |
| Ledger.QuestionCostsWithinTotal | scripts/run_golden_round.py:364-369 | then the questions' costs add up to at most the ledger |
| Ledger.TotalSplits | scripts/run_golden_round.py:601-628 | for such questions the ledger is their own costs and the rows charged to none |
| Ledger.RoundTotalsExactly | scripts/run_golden_round.py:364-369 | the questions' costs are within what the ledger grew by if and only if the earlier rows charged to them are covered by the new rows charged to none |
| Ledger.RoundStaysWithinBudget | scripts/run_golden_round.py:153-164 | a positive budget is exceeded by no more than a case costs above its reserve |
| Ledger.ReserveMustCover | scripts/run_golden_round.py:153-164 | a case keeps every in-budget ledger in budget if and only if its cost is within its reserve (or not positive), or the reserve exceeds the budget |
| Ledger.RefusalIsFinal | scripts/run_golden_round.py:147-209 | the paid cases are the first ones: after one refusal every later case is refused |
| Ledger.PaidWhileItFits | scripts/run_golden_round.py:147-164 | cases are paid for as long as the next reserve fits on top of those before, and not one longer |
| Ledger.FailuresCount | scripts/run_golden_round.py:147-209 | the failures are the refused cases and the paid ones that failed |
| Ledger.Ledger.GoldenRound | scripts/run_golden_round.py:145-209 | the loop leaves the ledger and the failure count so specified |
| Ledger.Ledger.CitationSupport | scripts/run_citation_support_3s.py:60-87 | the ledger grows by exactly the calls of the questions asked, three each, and up to three of the one the run stopped at; it stops exactly where something halts it; the file is what was last written; an in-budget ledger stays in budget if the calls stay within the reserve |
| Ledger.Ledger.AnyRuns | scripts/run_citation_support_3s.py:60-87 | any runs over any lists keep an in-budget ledger in budget |
| Ledger.NothingLostExactly | scripts/run_citation_support_3s.py:46-87 | no end of a run, finished or interrupted, loses a question on file if and only if all of them are in the list and come first |
| Ledger.NarrowedListDrops | scripts/run_citation_support_3s.py:36-42 | a run over b alone, with a, b and c on file, asks nothing and leaves only b |
| Ledger.NarrowedListLoses | scripts/run_citation_support_3s.py:36-42 | with b on file, a run over a, b, c that stops before c leaves only a |
| Ledger.Ledger.ResumedRuns | scripts/run_citation_support_3s.py:46-87 | over any number of runs of one list that has the filed questions first, nothing on file is lost or paid for again and each interruption wastes at most three calls |

## Left out

- Domination, decision and tightness: `minLength`, `minimum`, `pattern`, `format`, `uniqueItems` and further keywords the walker does not read are absent, so a schema stands for the largest set it could mean.
- SchemaExtent.PermittedAt: a number is a numeral of at most 24 characters, the width the walker charges, and integers take the same numerals; a list of types, and a negative `maxLength` or `maxItems`, are not modelled.
- SchemaDomination.WorstCaseDominates: instances are free of characters that JSON escapes; with them the statement is false, as `SchemaLimits.EscapesExact` shows.
- SchemaDomination.DominatesExactlyWhenCovered: needs nodes of one shape (a reference, a constant, an enumeration, a union or a type, not combined), since keywords that contradict each other leave an extent without instances (`SchemaLimits.ContradictoryNode`); `SchemaDomination.CoveredDominates` covers the rest in one direction.
- SchemaTight.ExtentReached: the same restriction, for the same reason.
- SchemaDecision.BoundedExactlyWhenNotEndless: the same restriction, for the same reason.
- SchemaDecision.WalkerDecidesBoundedness: the same restriction, for the same reason.
- SchemaDecision.AcyclicSchemasAreDecided: the same restriction, for the same reason.
- SchemaRefusal.AcyclicSchemasAreRefusedAtGaps: the same restriction, for the same reason; `SchemaRefusal.RaisesExactlyAtGaps` has none.
- SchemaPlain.PlainIsGuarded: in token mode, unions with several branches that may hold CJK text are not plain; `SchemaGuards.UnionExact` decides them.
- SchemaGuards.EnumExact: in token mode the members hold no CJK text.
- SchemaPlain.PlainSchemasAreDecided: needs nodes of one shape, and speaks of escape-free instances.
- SchemaPlain.AcyclicPlainSchemasAreDecided: the same.
- GateSchemas.GateIsSound: the generated JSON Schemas are written down from the model classes; keywords the walker does not read are dropped.
- SchemaWalker.EnumPick: array and object members are compared by the length of their JSON text, not of Python's `str`.
- SchemaWalker.Walk: the interpreter's stack is a parameter.
- SchemaAnswer.AnswerIsPermitted: needs nodes of one shape, and length bounds on strings or on unions with a string branch that has no smaller one; elsewhere the filler string need not be permitted (`SchemaAnswer.BoundStandsExactly`).
- GateSchemas.ExtractorRefusalIsEarned: up to half a token for each number, since the walker writes numbers as strings.
- Provider stubs other than the truncating one, the role probes and the package measurements of `check_llm_agent_liveness.py`.
- RebuildIndex.Rebuilder.Rebuild: the embedding cache, configuration values, the cost ledger and elapsed time; the upsert is an idempotent set insertion, and a checkpoint torn by a crash stays unreadable.
- MergeShards.Merge: the shards come in sorted path order, every entry has an identifier, and the sorting and counting of the merged results in the final report is not modelled.
- SiteLines.MarkdownToHtml: lines come stripped; the tests for a date line and the search for URL and title in a definition are given; digits are ASCII; reference titles contain no markers, and only text lines are followed through the linking of URLs.
- GuardWiring.Evaluate: finding references in the text of the runners, and the order of the messages.
- RefillGold.ApplyManifest: the acceptance gate is a function of the question's other fields, the candidate and the slot number; question identifiers are distinct, every question has its slots, and digits are ASCII.
- Downloads.Downloader.DownloadManifest: path containment, content checks (one flag of a response), waiting, exceptions that end the program, and SHA-256, which is a parameter.
- CitationVotes.AggregateCase: rounding, statuses outside the three, and the normalization of claims, which is a parameter.
- Promotion.Validate: the classification of report lines and the fidelity measurement are given.
- Backfill.Database.Migrate: SQL, NULL dates and transactions; the registry answers each URL the same way every time.
- Ledger.Ledger.GoldenRound: floating-point rounding (costs are exact), the workflow run and the scoring of a case; a case is the rows it adds and whether it fails.
- Ledger.Ledger.CitationSupport: the verdicts themselves.
- Everything imported from `deepresearch_agent`, command lines, printing, networking, threads and file formats.
- The frozen-proof validators, probes, benchmarks, page layout and style sheets: field-by-field comparisons and constants.
