# Seedgraph: a verified model

Seedgraph keeps a research project's works, their citations, converted full texts and the answers drawn from
them. This project models its stateful core in Dafny and proves what its operations promise, over every
input, every history or every interleaving. `dafny verify dfyconfig.toml` checks all of it.

| part | modules |
|---|---|
| parsed-bibliography lifecycle over the citation tables | `CitationTables`, `StatementLaws`, `ParsedBib`, `ParsedBibLaws`, `ReparseLaws`, `CitationHistory`, `HistoryLaws`, `EdgeViews` |
| offline provider edges and their cache keys | `ProviderCache`, `ProviderEdges` |
| content-addressed conversion cache and access classes | `Access`, `ContentCache`, `CacheHistory`, `CacheLaws`, `ConversionLaws` |
| breadth-first searches, proved against shortest paths | `GraphDistance`, `CorpusWalk`, `CorpusWalkLaws`, `Neighborhood`, `NeighborhoodLaws` |
| answers: prompt, citations, guard, trace | `Compose`, `PromptLaws`, `Citations`, `CitationLaws`, `Guard`, `GuardLaws`, `AnswerHarness`, `AnswerLaws`, `OutcomeLaws` |
| tighten-only settings | `ConfigMerge`, `ConfigClamp`, `ConfigLoad`, `CeilingLaws`, `WriteLaws` |
| run events, manifests, crash sweep | `RunLog`, `RunThreads` |
| paged reading and segmentation | `WorkRead`, `ReadLaws`, `Segment`, `Text` |
| reference text and the CLAUDE.md block | `BibParser`, `BibLaws`, `ClaudeBlock` |

`Prelude` and `Lists` hold shared vocabulary. Objects that the program updates in place are classes
(`ProjectDb`, `Cache`, `Envelope`, `Runs`, `File`); each method's contract gives the new state as a function of
the old one, and the lemmas are about those functions. `ProjectDb` logs the tables after every statement. Each
method's contract says that the log grows by single statements (`Steps`), or by those of a transaction that a
rollback may end (`Transaction`), and that its last table is the current one. A single statement is one that SQLite
accepts (`Accepted`) and that is issued with what its callers have established (`Careful`); that such statements
keep every table valid is then a lemma about the log alone. The modules ending in `Laws` state what the operations
do in terms of their inputs and outputs alone.

## How things are modelled

- Ids, hashes of files, runs, phases and words are numbers or constructors; only equality and order are used.
  A hash is a constructor applied to what was hashed, so it is injective.
- The parser, the resolver, `identity.upsert_work`, the conversion backend, the collapse-split pattern and the
  field patterns are arbitrary functions, given as parameters. An exception is an explicit outcome.
- A SQL statement is a method that fails exactly when SQLite with foreign keys on would raise. A rename or a
  flushed log line is one atomic step. Times are only the order of runs and cached rows.
- Scores and confidences are reals; the "mostly increasing" test of enumerators and the coverage share are
  exact fractions.
- A prompt is the list of its evidence blocks, each with the text that decides its tokens; the template around
  them is not part of this model.
- In `ClaudeBlock` the two markers are single tokens. A marker has "<" only as its first and ">" only as its
  last character, so marker occurrences neither overlap nor arise where texts are joined.

## Where the code is narrower than its comments

- Once a reference is approved by hand, its manual-override edge names the entry that a reparse has to delete,
  so every later reparse of that work raises and rolls back (`ReparseBlockedIffOverridden`,
  `ApprovalBlocksReparse`, `NoReparseAfterApproval`). The comment at `src/seedgraph/citation/parsed_bib.py:304` considers parsed edges only.
- `edges_written` counts resolved entries (`EdgesWrittenCountsRowsIff`, `TwoReferencesOneEdge`).
- A work without entries is re-parsed at every call (`SecondCallChangesNothingIff`, `LateReferencesAreAdded`).
- A cap of zero admits one work (`FrontierSize`), since the check follows the append.
- A producer tightened by a later ingest is not reflected in the shared markdown row (`IngestKeepsCoverageIff`,
  `TightenedProducerIsNotReflected`).
- Coverage can exceed one when a flagged citation edge leaves the works (`CoverageIff`), which the function does not
  exclude for a graph it is given. `src/seedgraph/semantic/graph_build.py:179-193` flags citation edges only between
  works, so no graph built there reaches that side. The projection and the traversal also differ on edges without
  the flag, which the projection keeps and the traversal ignores.
- After a failed dispatch the answer cites all candidates, the trace shows the prompt's cut
  (`FailedDispatchIff`, `UnshownIsCitedAfterFailure`). A negative candidate limit slices from the end but marks
  every row as cut by rank (`TraceMatchesPromptIff`, `NegativeLimitHidesThePrompt`).
- A leakage-suppressed answer with enough citations is re-graded by a second guard pass (`SecondTimeIff`,
  `LeakingAnswerIsRegraded`).
- The permission rule takes every nonempty string for true, the schema reads a quoted "no" as false
  (`RuleTightensIff`, `QuotedNoOpensTheGate`): a quoted "no" in the global file closes no gate (`QuotedNoIsLoaded`).
- The numeric rule passes a NaN and every leaf that is not a number, the list rule every leaf that is not a list
  (`RuleTightensIff`); so a NaN `usd_limit` in a project file lifts the global cap (`NaNIsLoaded`).
- Merging is not associative (`MergeIsAssociativeIff`, `ScalarBetweenMappings`); a malformed global profile registry
  is removed at load (`StripIsIdleIff`, `NullRegistryIsRemoved`), though no write passes with one (`WrittenIsLoaded`).
- A cached reference list is lost to sight when a preferred id is filled in (`KeyStableIff`, `FilledInIdMovesTheKey`,
  `FetchedListIsReadIff`, `LostListChangesNothing`).
- Stray markers make the fenced write unstable (`WritingTwiceIff`), and carriage returns outside the fence come back
  as newlines (`OutsideIsPreserved`).

## Model

| member | source | states |
|---|---|---|
| `CitationTables.ProjectDb.DeleteParsedEdges` | src/seedgraph/citation/parsed_bib.py:306-310 | removes exactly the work's parsed edges, in all runs; every foreign key and the live-edge property still hold afterwards |
| `CitationTables.ProjectDb.DeleteEntries` | src/seedgraph/citation/parsed_bib.py:311-314 | fails, changing nothing, exactly when some remaining edge names an entry of the work (the foreign key); otherwise removes exactly the work's entries |
| `CitationTables.ProjectDb.InsertEntry` | src/seedgraph/citation/parsed_bib.py:334-349 | adds one unresolved entry under a new id, nothing else; fails exactly when the citing work is missing |
| `CitationTables.ProjectDb.EnsureMember` | src/seedgraph/citation/parsed_bib.py:102-125 | adds a metadata-only membership row unless there is one; fails exactly when the work is missing |
| `CitationTables.ProjectDb.UpsertWork` | src/seedgraph/citation/parsed_bib.py:102-125 | a target becomes a work with a membership row; an existing membership row is kept |
| `CitationTables.ProjectDb.UpdateEntry` | src/seedgraph/citation/parsed_bib.py:357-382 | any entry: a missing row is no error, a missing target work is; the invariant survives if no parsed edge can name the row and it is resolved exactly if it has a target |
| `CitationTables.ProjectDb.EnqueueReview` | src/seedgraph/citation/parsed_bib.py:425-457 | opens a review, with no foreign key; the invariant survives if it is for an ambiguous or suspect entry of that work |
| `CitationTables.ProjectDb.WriteEdge` | src/seedgraph/citation/edges.py:65-98 | insert-or-ignore on the unique key, for any reference; fails, changing nothing, exactly when an endpoint or the named entry is missing and the key is not already there; the invariant survives if a new parsed edge names a decided entry that backs it and a new approved edge an entry of its source |
| `CitationTables.ProjectDb.Rollback` | src/seedgraph/citation/parsed_bib.py:409-411 | the tables are again those of the start of the transaction, and the log says so |
| `CitationTables.StepAt` | src/seedgraph/citation/parsed_bib.py:306-397 | in a run of statements every logged table comes from the one before it by a single statement, accepted and issued with care |
| `StatementLaws.RefusedIffDangling` | src/seedgraph/db/schema/project/0004_citation_graph.sql:38-68 | a statement is refused if and only if its effect would break a foreign key |
| `CitationTables.StatementKeeps` | src/seedgraph/citation/parsed_bib.py:306-397 | every statement that SQLite accepts and that is issued with what its callers establish keeps the foreign keys and the live edges |
| `CitationTables.TransactionKeeps` | src/seedgraph/citation/parsed_bib.py:279-411 | if a transaction starts from valid tables, every table in it is valid, committed or rolled back |
| `ParsedBib.StageA` | src/seedgraph/citation/parsed_bib.py:300-383 | succeeds exactly when no manual-override edge pins an entry, sections, text and parser give a result, the resolver answers and every resolved target upserts; then the tables are those of clear, insert all, resolve all; the log grows by single statements from the cleared edges on, and unless an entry is pinned the cleared entries come next |
| `ParsedBib.StageB` | src/seedgraph/citation/parsed_bib.py:385-397 | adds to the run the parsed edges of exactly the resolved entries' targets, each naming such an entry and carrying its confidence, nothing else, and reports the number of resolved entries |
| `ParsedBib.BuildParsedEdges` | src/seedgraph/citation/parsed_bib.py:253-411 | no markdown, and an exception of the section reader, the text reader, the parser, the resolver, an upsert or the delete, leave the tables as they were; a successful call is Stage A (if the hash guard or force asks for it) followed by Stage B, with the four status counts of the result; the log grows by single statements, starting with both deletes if Stage A ran, and ends in a rollback if the call raised |
| `ParsedBib.AppliedAllElsewhere` | src/seedgraph/citation/parsed_bib.py:356-383 | resolving a batch touches no entry outside the batch |
| `ParsedBib.AppliedAllAt` | src/seedgraph/citation/parsed_bib.py:356-383 | each entry of the batch ends up with its own resolution, whatever the others do |
| `ParsedBib.StageAEntry` | src/seedgraph/citation/parsed_bib.py:304-383 | after Stage A an entry is another work's, untouched, or one of the freshly parsed ones with its resolution |
| `ParsedBib.StageASettled` | src/seedgraph/citation/parsed_bib.py:294-298 | after Stage A all entries of a work carry one hash, so one stored hash decides the guard for all of them |
| `ParsedBib.ProjectedTargets` | src/seedgraph/citation/parsed_bib.py:385-397 | edges of the run and resolved targets correspond, both ways |
| `ParsedBibLaws.CallTouchesOnlyItsWork` | src/seedgraph/citation/parsed_bib.py:300-397 | a successful call leaves every other work's entries and all other edges as they were |
| `ParsedBibLaws.CallProjectsResolvedTargets` | src/seedgraph/citation/parsed_bib.py:294-397 | whether Stage A ran or not, the targets of the work's parsed edges in the run are exactly the targets of its resolved entries; a reparse leaves no parsed edge in any other run; otherwise all entries and edges are kept |
| `ParsedBibLaws.ReparseKeepsEveryReference` | src/seedgraph/citation/parsed_bib.py:330-383 | after a reparse the work's entries are exactly the parsed references, in order, each with its own resolution and the current hash |
| `ParsedBibLaws.SecondCallChangesNothing` | src/seedgraph/citation/parsed_bib.py:294-411 | a second unforced call for the same work and run at an unchanged hash and parse changes nothing at all |
| `ParsedBibLaws.SecondCallChangesNothingIff` | src/seedgraph/citation/parsed_bib.py:294-411 | a second unforced call at an unchanged hash changes nothing if and only if the work has entries or the parser still finds none |
| `ParsedBibLaws.LateReferencesAreAdded` | src/seedgraph/citation/parsed_bib.py:294-332 | a concrete work without entries for which a second unforced call at the same hash adds an entry |
| `ParsedBibLaws.EmptyReparseChangesNothing` | src/seedgraph/citation/parsed_bib.py:294-332 | a work without references is re-parsed on every call, and that changes nothing |
| `ParsedBibLaws.ReparseBlockedIffOverridden` | src/seedgraph/citation/parsed_bib.py:304-314 | the delete of entries is refused exactly when a manual-override edge names one of them |
| `ParsedBibLaws.RunScopedClearIsRefused` | src/seedgraph/citation/parsed_bib.py:304-314 | clearing the parsed edges of only one run would leave the delete refused as soon as another run has one |
| `ParsedBibLaws.EdgesWrittenCountsRowsIff` | src/seedgraph/citation/parsed_bib.py:389-397 | `edges_written` equals the rows inserted if and only if the resolved targets are distinct and none was an edge of the run before; it is never smaller |
| `ParsedBibLaws.TwoReferencesOneEdge` | src/seedgraph/citation/parsed_bib.py:389-397 | two references to one work: `edges_written` is two, one row is inserted |
| `ParsedBib.ParsesIff` | src/seedgraph/citation/parsed_bib.py:294-299 | Stage A runs exactly if the call is forced, the work has no entry, or some entry of it carries another hash |
| `ReparseLaws.UnchangedMarkdownKeepsEntries` | src/seedgraph/citation/parsed_bib.py:294-299 | an unforced call for a work whose entries all carry the current hash keeps works, members, entries and reviews |
| `ReparseLaws.ReadsSections` | src/seedgraph/citation/parsed_bib.py:315-332 | the stored reference sections are parsed, or without any the ranges the fallback finds; none at all means no references |
| `ReparseLaws.GoesThroughIff` | src/seedgraph/citation/parsed_bib.py:300-383 | Stage A goes through exactly if no manual-override edge names an entry of the work, reading and resolving give a result, and each resolved reference that is paired with an entry could be upserted |
| `ReparseLaws.ReparsedEntries` | src/seedgraph/citation/parsed_bib.py:304-349 | after a forced call, or a first one, or one at another hash, the entries of the work are exactly the rows of the parsed references, and all other entries stay |
| `ReparseLaws.ReparsedRow` | src/seedgraph/citation/parsed_bib.py:334-383 | column by column: such a row carries the work, the raw text, the hash, and the status, target and confidence of its own resolution; ambiguous and suspect ones are under review and no others |
| `ReparseLaws.EdgesAfter` | src/seedgraph/citation/parsed_bib.py:304-397 | the edges after a call: those before, without the work's parsed ones if it was parsed anew, and in the run one parsed edge to each target of a resolved entry, naming such an entry and carrying its confidence or zero |
| `ReparseLaws.ReportCounts` | src/seedgraph/citation/parsed_bib.py:385-411 | the reported counts are the sizes of the sets of entries with each status |
| `CitationHistory.ApproveItem` | src/seedgraph/project/review.py:545-640 | goes through exactly if the item is open and scoped to a run, the choice names an existing work or a usable candidate, and the foreign key to the entry holds; then it adds the candidate as a work, writes a manual-override edge, decides the entry and closes the item; otherwise nothing changes |
| `CitationHistory.ApprovalBlocksReparse` | src/seedgraph/project/review.py:615-640 | after any approval that goes through, whatever the markdown, parser and resolver, the work's bibliography can no longer be re-parsed: an override edge names an entry Stage A has to delete |
| `CitationHistory.OneApprovalBlocks` | src/seedgraph/project/review.py:615-640 | concrete tables with one ambiguous reference whose approval blocks every later reparse |
| `CitationHistory.BlockedForever` | src/seedgraph/citation/parsed_bib.py:304-314 | none of the five kinds of call in a history ever unblocks a work |
| `CitationHistory.NoReparseAfterApproval` | src/seedgraph/citation/parsed_bib.py:294-411 | in every history of those calls, after an approval for a work that went through, a call that has to re-parse it leaves the tables as they are |
| `CitationHistory.RunHistory` | src/seedgraph/citation/parsed_bib.py:253-411 | every history of adding works, provider edges, calls, approvals and rejections divides into one transaction for each call: single statements, or all undone; each call has the effect it promises; in every table of the log, from the empty ones at the start to the current ones, each parsed edge names a live entry of its source that is resolved to its target, and every foreign key holds |
| `CitationHistory.EveryStatementKeepsEdgesLive` | src/seedgraph/citation/parsed_bib.py:253-411 | the same for any log that divides into such transactions: derived from the single statements, each accepted by SQLite and issued with what its callers establish, and from the effects of the calls before it |
| `CitationHistory.HistorySettles` | src/seedgraph/citation/parsed_bib.py:294-298 | between the calls of a history all entries of a work carry one hash, and no entry under review is resolved |
| `HistoryLaws.ApprovalRefusedIff` | src/seedgraph/project/review.py:580-635 | exactly when an approval is refused: no open item, no run, no usable choice, an unknown work, or an entry that is gone while the edge is not there |
| `HistoryLaws.ApprovedEntries` | src/seedgraph/project/review.py:636-641 | the entry is resolved to the chosen work with full confidence, its text and hash and all other entries stay |
| `HistoryLaws.ApprovedEdges` | src/seedgraph/project/review.py:627-635 | one manual-override edge of full confidence that names the entry is added, unless it was there; no edge changes |
| `HistoryLaws.ApprovedWorks` | src/seedgraph/project/review.py:593-624 | the item is closed, and only a chosen candidate becomes a work and, unless it was a member, a metadata-only one |
| `HistoryLaws.NewWorkAdds` | src/seedgraph/citation/parsed_bib.py:102-125 | a new work is added with a metadata-only membership unless it had one, and nothing else changes |
| `HistoryLaws.ProjectionAdds` | src/seedgraph/citation/project_edges.py:142-209 | a projection of provider edges only adds provider edges of its run |
| `HistoryLaws.ParseIs` | src/seedgraph/citation/parsed_bib.py:279-314 | when a call changes nothing: no work, no markdown, or a parse that is due and does not go through; every other call goes through |
| `HistoryLaws.DecisionIs` | src/seedgraph/project/review.py:545-640 | a rejection only closes the item, a refused approval changes nothing |
| `EdgeViews.AuthoritativeEdges` | src/seedgraph/citation/edges.py:101-127 | one row per cited pair of the run, of maximal authority |
| `EdgeViews.EdgeDisagreements` | src/seedgraph/citation/edges.py:155-178 | exactly the pairs with two or more provenances, with all of them and a strongest one as winner |
| `EdgeViews.AuthoritativeIsUnique` | src/seedgraph/citation/edges.py:101-127 | the authoritative edge of a pair is unique |
| `EdgeViews.ViewsAgree` | src/seedgraph/citation/edges.py:115-178 | on a disputed pair the winner of the disagreement is the authoritative provenance |
| `EdgeViews.AuthorityLadder` | src/seedgraph/citation/edges.py:101-127 | which provenance is authoritative, read off which rows are stored |
| `ProviderCache.KeyStableIff` | src/seedgraph/cache/provider_cache.py:94-118 | filling in empty fields of a record moves its request key if and only if a preferred id has arrived (an arXiv alias of a known arXiv id excepted) |
| `ProviderCache.FilledInIdMovesTheKey` | src/seedgraph/cache/provider_cache.py:94-118 | a concrete record known by its DOI whose key moves when an OpenAlex id arrives |
| `ProviderCache.StoredListFoundIff` | src/seedgraph/cache/provider_cache.py:134-141 | a list stored under a record's key is read back through the filled-in record, until its lifetime has passed, if no preferred id arrived; otherwise the read gives what the other slot held |
| `ProviderEdges.CachedReferencesAreNewest` | src/seedgraph/citation/project_edges.py:117-139 | the newest fresh row that holds a list is the one read |
| `ProviderEdges.FetchedListIsReadIff` | src/seedgraph/citation/project_edges.py:182-183 | a list fetched for a record is the one the projection reads for the filled-in work, while fresh, if and only if no preferred id has arrived; otherwise the projection reads what it read before |
| `ProviderEdges.LostListChangesNothing` | src/seedgraph/citation/project_edges.py:182-183 | a list whose key no work has any more changes no projection |
| `ProviderEdges.BuildResolver` | src/seedgraph/citation/project_edges.py:82-100 | every strong id is mapped to its owner, and no other id is mapped |
| `ProviderEdges.OwnerIff` | src/seedgraph/citation/project_edges.py:82-100 | the owner of an id is the first work with it in a column, or else the work of the first identifiers row with it |
| `ProviderEdges.ResolveTarget` | src/seedgraph/citation/project_edges.py:103-114 | the target of a reference under that resolver |
| `ProviderEdges.TargetIff` | src/seedgraph/citation/project_edges.py:103-114 | the target is the owner of the first id of the reference that has one; none exactly if no id has one |
| `ProviderEdges.ProjectProviderEdges` | src/seedgraph/citation/project_edges.py:142-209 | no work is created; edges, counter and diagnostic are those the cached references ask for, the diagnostic in order of first occurrence |
| `ProviderEdges.ProjectedEdgesAre` | src/seedgraph/citation/project_edges.py:180-209 | the edges after a projection: those before and, with confidence one and no entry, in the run one provider edge from each work to the owner of the first known id of each reference cached for it; the counter is the number of new rows |
| `ProviderEdges.UnresolvedAre` | src/seedgraph/citation/project_edges.py:188-197 | the diagnostic lists the request id of each reference without a target, once |
| `ProviderEdges.EveryReferenceAccounted` | src/seedgraph/citation/project_edges.py:170-205 | every cached reference has its edge among those asked for, or its id in the diagnostic |
| `ProviderEdges.OnlyReferencesWanted` | src/seedgraph/citation/project_edges.py:170-205 | every edge asked for comes from a cached reference with that target |
| `ProviderEdges.RepeatAddsNothing` | src/seedgraph/citation/project_edges.py:170-209 | projecting the same cache and works into the same run again adds no row and gives the same diagnostic |
| `ProviderEdges.ProjectTwice` | src/seedgraph/citation/project_edges.py:170-209 | the same for two calls: the first counter is the number of new rows, the second is zero |
| `Access.Stricter` | src/seedgraph/vocab.py:32-60 | the result is one of the two classes and at least as restrictive as both |
| `Access.MostRestrictive` | src/seedgraph/vocab.py:32-60 | the strictest class present; an unknown value, or none at all, is private |
| `Access.Reconcile` | src/seedgraph/cache/ingest.py:65-76 | reconciling two classes through that gives the stricter one |
| `ContentCache.Cache.IngestFile` | src/seedgraph/cache/ingest.py:79-203 | one row per content; a repeated ingest only tightens its class |
| `ContentCache.Cache.StoreMarkdownDocument` | src/seedgraph/cache/convert.py:238-323 | the blob is written; the shared row is inserted, or re-pointed to a strictly more restrictive source, else left alone |
| `ContentCache.Cache.ConvertSourceFile` | src/seedgraph/cache/convert.py:426-625 | refused before any run is minted, or answered from the newest recorded success, or one pending run, one backend call, and a success or failure recorded on it; the backend is called exactly when a run is minted |
| `ContentCache.Cache.FindHit` | src/seedgraph/cache/convert.py:486-513 | the newest success of this file and fingerprint whose markdown row exists |
| `ContentCache.Cache.ImportExternalMarkdown` | src/seedgraph/cache/convert.py:328-423 | a success run under a fingerprint of its own output, and the shared row |
| `ContentCache.RankSeparates` | src/seedgraph/cache/convert.py:297-315 | the re-point condition is: strictly more restrictive |
| `ConversionLaws.ClassesAreOrdered` | src/seedgraph/vocab.py:62-68 | the order of the classes, from private down to open access, and what reconciling two gives |
| `ConversionLaws.IncomingIs` | src/seedgraph/cache/ingest.py:55-110 | a file fetched openly comes in with the class asked for, every other one is private |
| `ConversionLaws.IngestIs` | src/seedgraph/cache/ingest.py:79-203 | an ingest adds one row under the hash of the bytes or reconciles the class of the one there, and touches nothing else |
| `ConversionLaws.RefusedIff` | src/seedgraph/cache/convert.py:453-482 | each refusal exactly by its arguments: unknown source; HTML; a private PDF that a language model outside the machine, or none named, would read without leave; a refusal changes nothing and mints no run |
| `ConversionLaws.ReusedIff` | src/seedgraph/cache/convert.py:486-513 | an unforced call that may convert gives the newest recorded success of that file and identity and changes nothing; without one it is a forced call |
| `ConversionLaws.ConvertedAfresh` | src/seedgraph/cache/convert.py:515-623 | a forced call runs the backend on the bytes: valid text is recorded as a success with its blob and shared row, anything else as a failed run, and nothing else changes |
| `ConversionLaws.ImportedIs` | src/seedgraph/cache/convert.py:328-423 | an import records a success under an identity of its own text |
| `CacheHistory.HistoryKeepsInvariant` | src/seedgraph/cache/convert.py:173-235 | over every sequential history of ingests, conversions, imports and crashes: a success run has its markdown row and blob and records what the backend gives; pending and failed runs have no output; every row points at a successful run that produced it |
| `CacheLaws.HitIff` | src/seedgraph/cache/convert.py:486-513 | a lookup hits exactly when a success is recorded for that file hash and fingerprint, and then gives the backend's own output |
| `CacheLaws.CacheAgreesWithFresh` | src/seedgraph/cache/convert.py:486-623 | over every history an unforced conversion gives the same hash or the same refusal as converting afresh |
| `CacheLaws.RecordedSuccessIsReused` | src/seedgraph/cache/convert.py:486-513 | once a success is recorded, an unforced conversion mints no run, calls no backend and changes nothing |
| `CacheLaws.ConversionIsRecorded` | src/seedgraph/cache/convert.py:590-623 | a conversion that went through leaves a recorded success |
| `CacheLaws.SuccessIsForever` | src/seedgraph/cache/convert.py:173-235 | a recorded success stays recorded whatever happens later |
| `CacheLaws.SourceClassIsStrictestIngested` | src/seedgraph/cache/ingest.py:106-151 | a source's class is the strictest of all classes its bytes were ever ingested with |
| `CacheLaws.StrictestIsAnUpperBound` | src/seedgraph/cache/ingest.py:65-76 | that class came in with some ingest of the bytes, and no ingest of them came in with a stricter one |
| `CacheLaws.SourcesNeverLoosen` | src/seedgraph/cache/ingest.py:106-151 | no history makes a source's class less restrictive |
| `CacheLaws.StoreTightens` | src/seedgraph/cache/convert.py:277-315 | just after a store the row is at least as restrictive as the storing source and as before |
| `CacheLaws.StepTightensDocuments` | src/seedgraph/cache/read.py:65-83 | no operation makes the class read through an existing markdown row less restrictive |
| `CacheLaws.DocumentsNeverLoosen` | src/seedgraph/cache/read.py:65-83 | the same over every history |
| `CacheLaws.CrashLeaves` | src/seedgraph/cache/convert.py:515-560 | a process that dies inside a conversion leaves one pending run and perhaps a blob, and nothing else |
| `CacheLaws.SuccessKeepsCoverage` | src/seedgraph/cache/convert.py:277-315 | a store keeps every row at least as restrictive as all sources that produced its markdown |
| `CacheLaws.IngestKeepsCoverageIff` | src/seedgraph/cache/convert.py:304-315 | an ingest keeps that if and only if the ingested file did not produce the markdown, owns its row, or stays within the row's class |
| `CacheLaws.TightenedProducerIsNotReflected` | src/seedgraph/cache/convert.py:304-315 | a concrete history: a producer tightened after its conversion is not reflected in the shared row, a reuse does not repair it, a forced conversion does |
| `CorpusWalk.ExpandReferences` | src/seedgraph/acquisition/walk.py:136-245 | the cited works of a source without duplicates, in order of first occurrence |
| `CorpusWalk.CountGeneration` | src/seedgraph/acquisition/walk.py:307-316 | each cited work's count is the number of frontier works that cite it, self-citations left out |
| `CorpusWalk.Accumulate` | src/seedgraph/acquisition/walk.py:322-329 | accumulated counts are the numbers of citing works among all expanded ones |
| `CorpusWalk.NextFrontier` | src/seedgraph/acquisition/walk.py:335-343 | the best-ranked part of the unseen cited works: as many as the limit allows, sorted by count and id, each better than every work left out; `MoreCitedComesFirst` and `MoreCitedIsTaken` say what that means |
| `CorpusWalk.FrontierIsNew` | src/seedgraph/acquisition/walk.py:300-350 | no work is in two frontiers or twice in one, so no work is expanded twice |
| `CorpusWalk.WalkCorpus` | src/seedgraph/acquisition/walk.py:295-350 | the frontiers form such a walk of at most the asked depth (shorter only after an empty frontier), the seen set is the seeds and all cited works, `discovered` its size minus the seeds, each citation count the number of other expanded works citing it |
| `CorpusWalkLaws.FrontierSize` | src/seedgraph/acquisition/walk.py:335-343 | a later frontier has at most max(1, cap) works; a cap of zero or less admits exactly one if there is one |
| `CorpusWalkLaws.BestRankedIsUnique` | src/seedgraph/acquisition/walk.py:335-343 | ranking and cap determine the next frontier |
| `CorpusWalkLaws.WalkIsDetermined` | src/seedgraph/acquisition/walk.py:295-350 | two walks of one length from the same seeds, graph and cap are the same |
| `CorpusWalkLaws.SeenIsWithin` | src/seedgraph/acquisition/walk.py:295-350 | whatever the cap, all that is seen after g generations is within citation distance g |
| `CorpusWalkLaws.ExactDistancesIff` | src/seedgraph/acquisition/walk.py:295-350 | the frontiers are exactly the spheres of distance 0, 1, 2, ... if and only if no sphere is larger than the cap allows; the seen set is then the ball |
| `CorpusWalkLaws.UncappedWalkIsBreadthFirst` | src/seedgraph/acquisition/walk.py:295-350 | the same in terms of shortest citation paths |
| `CorpusWalkLaws.StoppedWalkSawEverything` | src/seedgraph/acquisition/walk.py:302-304 | an uncapped walk that stops on an empty frontier has seen every reachable work |
| `CorpusWalkLaws.CitesIff` | src/seedgraph/acquisition/walk.py:307-316 | a work cites what its stored references resolve to, apart from itself |
| `CorpusWalkLaws.MoreCitedComesFirst` | src/seedgraph/acquisition/walk.py:335-343 | within a later frontier, more works of the frontier before cite the earlier one, or equally many and its id is smaller |
| `CorpusWalkLaws.MoreCitedIsTaken` | src/seedgraph/acquisition/walk.py:335-343 | a new cited work that is left out is cited by fewer works of the frontier than each one taken, or equally many with the greater id |
| `CorpusWalkLaws.OnlyTheCapLeavesOut` | src/seedgraph/acquisition/walk.py:335-343 | a work is left out only if the frontier is full |
| `CorpusWalkLaws.FrontierIsCited` | src/seedgraph/acquisition/walk.py:335-343 | a later frontier holds only works cited by the one before and not seen before, at most the cap or one |
| `CorpusWalkLaws.StateIs` | src/seedgraph/acquisition/walk.py:295-350 | what has been seen are the seeds and what the expanded works cite; the count of a work is the number of expanded works citing it |
| `CorpusWalkLaws.ExpandedIff` | src/seedgraph/acquisition/walk.py:295-350 | the expanded works are those of the frontiers before the last |
| `Neighborhood.CitesOf` | src/seedgraph/answer/traverse.py:18-32 | strictly sorted, exactly the targets of the work's flagged citation edges |
| `Neighborhood.CitedBy` | src/seedgraph/answer/traverse.py:35-48 | strictly sorted, exactly the sources of flagged citation edges to the work |
| `Neighborhood.FindCited` | src/seedgraph/answer/traverse.py:18-32 | the same, and empty for a missing graph or unknown work |
| `Neighborhood.FindCiting` | src/seedgraph/answer/traverse.py:35-48 | the same, and empty for a missing graph or unknown work |
| `Neighborhood.Neighborhood` | src/seedgraph/answer/traverse.py:51-115 | nodes in discovery order up to max(0, depth) hops, exactly the induced edges of the projection, sorted and each once, known and unknown seeds, coverage and the engulfed flag |
| `NeighborhoodLaws.NeighborhoodIsWithin` | src/seedgraph/answer/traverse.py:73-99 | the nodes are exactly the works within that many undirected citation hops of a seed, each level exactly those at that distance |
| `NeighborhoodLaws.ReachedIsDistinct` | src/seedgraph/answer/traverse.py:88-99 | no node twice |
| `NeighborhoodLaws.KnownIsDistinct` | src/seedgraph/answer/traverse.py:73-86 | the known seeds are distinct, so the above applies |
| `NeighborhoodLaws.DeeperAppends` | src/seedgraph/answer/traverse.py:88-99 | the result at a depth is a prefix of the result at a greater depth |
| `NeighborhoodLaws.NondecreasingDistance` | src/seedgraph/answer/traverse.py:88-99 | nodes come in nondecreasing distance |
| `NeighborhoodLaws.EdgeIsReported` | src/seedgraph/answer/traverse.py:100-103 | a pair is reported exactly if some edge that is not flagged as no citation joins its two works in this direction and both were met |
| `NeighborhoodLaws.CoverageIs` | src/seedgraph/answer/traverse.py:104-106 | the coverage is the number of nodes over the number of works, and zero without works |
| `NeighborhoodLaws.CoverageIff` | src/seedgraph/answer/traverse.py:104-106 | coverage never exceeds one, for any seeds and depth, if and only if no flagged citation edge joins a work and another kind of node |
| `Compose.Quote` | src/seedgraph/answer/compose.py:164-167 | at most the limit of characters and an ellipsis, a prefix of the text |
| `Compose.BuildPrompt` | src/seedgraph/answer/compose.py:149-215 | the shown evidence is the longest affordable prefix of the candidates (always at least the first), the index and the allowed set are those of exactly the shown candidates |
| `Compose.CutIsLongest` | src/seedgraph/answer/compose.py:156-177 | the loop's break point is the longest affordable prefix: every prefix up to it is affordable, none beyond |
| `Compose.IndexAt` | src/seedgraph/answer/compose.py:178-180 | the index has exactly the numbers 1 to the number of shown blocks, each naming its candidate |
| `PromptLaws.BlockIs` | src/seedgraph/answer/compose.py:164-175 | a block shows its candidate under its number with the text cut at the limit, and costs a quarter of the characters of its text in the prompt, at least one token |
| `PromptLaws.DecimalReads` | src/seedgraph/answer/compose.py:167 | block numbers are written in decimal |
| `PromptLaws.PromptIsWithinBudget` | src/seedgraph/answer/compose.py:149-177 | two or more blocks together never exceed the evidence limit, nor with overhead and reserve the context window |
| `PromptLaws.CutBreaksTheBudget` | src/seedgraph/answer/compose.py:174-177 | the first candidate is always shown, and the block of the first one that was cut would have broken one of these bounds |
| `PromptLaws.IndexIs` | src/seedgraph/answer/compose.py:178-180 | each number stands for the work and the span of its candidate |
| `PromptLaws.AllowedIs` | src/seedgraph/answer/compose.py:196-211 | exactly the works and spans of the shown candidates may be cited, each listed once, works first |
| `Citations.MaterializeCitations` | src/seedgraph/answer/compose.py:331-371 | one citation a work in order of first mention, spans united; title and year are the work's, quote, section, epistemic type and status those of the first span; every marker that names no shown block is dropped with a warning |
| `Citations.CiteAll` | src/seedgraph/answer/compose.py:496-528 | the retrieval-only citations: one a work over all candidates, epistemic type and status falling back to the first candidate's |
| `Citations.CitedWorks` | src/seedgraph/answer/compose.py:346-371 | a work is cited at most once, and only if evidence names it |
| `Citations.CitedSpans` | src/seedgraph/answer/compose.py:346-371 | a citation carries exactly the spans named for its work, once each |
| `Citations.MarkersCiteOnlyShown` | src/seedgraph/answer/compose.py:346-371 | for any list of markers, each cited work is that of a shown candidate and each span belongs to a shown candidate of that very work |
| `Citations.GroundedIsAllowed` | src/seedgraph/answer/compose.py:207-211 | what is grounded in the shown candidates is in the allowed set |
| `CitationLaws.WorkColumns` | src/seedgraph/answer/compose.py:262-268 | title and year are those of the work, if it is known |
| `CitationLaws.QuoteColumns` | src/seedgraph/answer/compose.py:271-296 | quote and section are those of the first span; without a span, or with one that is not stored, there is none |
| `CitationLaws.ProvenanceColumns` | src/seedgraph/answer/compose.py:299-328 | epistemic type and status are those of the first span's claim, where it says something, else the candidate's, else deterministic and unknown |
| `CitationLaws.FallsBackToFirst` | src/seedgraph/answer/compose.py:503-515 | the provenance a citation falls back to is that of the first candidate of its work |
| `CitationLaws.MoreEvidenceAppends` | src/seedgraph/answer/compose.py:346-371 | works and spans stand in the order of their first mention: further evidence only appends |
| `CitationLaws.NamedIs` | src/seedgraph/answer/compose.py:340-352 | a marker names the block of its number; any other one names nothing |
| `CitationLaws.InventedIs` | src/seedgraph/answer/compose.py:340-352 | markers that name no shown block are reported in their order |
| `CitationLaws.EvidenceAt` | src/seedgraph/answer/compose.py:503-515 | the evidence cited without a model is that of each candidate, in order |
| `Guard.Envelope.RecomputeCitedIds` | src/seedgraph/answer/guard.py:78-88 | cited ids are the duplicate-free projections of the citations |
| `Guard.GatherSupport` | src/seedgraph/answer/guard.py:101-111 | the loop gathers the works of the citations with spans and whether one of those is stated |
| `Guard.Envelope.Reconcile` | src/seedgraph/answer/guard.py:91-111 | only the category changes, to the one the gathered support allows |
| `Guard.Envelope.KeepMembers` | src/seedgraph/answer/guard.py:170-189 | drops and strips citations in place, one warning each, in order |
| `Guard.Envelope.DropExcluded` | src/seedgraph/answer/guard.py:114-144 | keeps exactly the citations of included or metadata-only works |
| `Guard.Envelope.Enforce` | src/seedgraph/answer/guard.py:147-244 | the whole new envelope: citations checked, leakage suppressed, grounding graded |
| `GuardLaws.SurvivesIff` | src/seedgraph/answer/guard.py:170-195 | a citation is in the final answer if and only if it is an original one cut down to its allowed spans, its work is allowed and citable, and it kept a span if it had one |
| `GuardLaws.OnlyAllowedIsCited` | src/seedgraph/answer/guard.py:170-195 | every work and span left is allowed, every work citable |
| `GuardLaws.CitedIdsMatch` | src/seedgraph/answer/guard.py:78-88 | cited ids are exactly the works and spans of the citations, without duplicates |
| `GuardLaws.InsufficientIff` | src/seedgraph/answer/guard.py:216-240 | outside the exempt cases: insufficient if and only if survivors are below the floor; then unresolved and only blank or not-found text; otherwise the text is untouched and the category follows from the evidence |
| `GuardLaws.CategoryMeans` | src/seedgraph/answer/guard.py:91-111 | synthesis means spans of two works and none stated; graph inference means citations but no spans |
| `GuardLaws.ProjectOnlyStaysInside` | src/seedgraph/answer/guard.py:201-210 | in a closed project no answer rests outside the corpus; one that tried is blank, unresolved and insufficient |
| `GuardLaws.WarningsGrow` | src/seedgraph/answer/guard.py:166-168 | warnings are only added |
| `GuardLaws.MembershipIsIdentity` | src/seedgraph/answer/guard.py:170-189 | citations of allowed works and spans pass the membership step unchanged and without a warning |
| `GuardLaws.SecondTimeIff` | src/seedgraph/answer/guard.py:204-234 | applying the guard again changes nothing but warnings if and only if the answer was not leakage-suppressed with enough citations |
| `GuardLaws.SuppressedIsRegraded` | src/seedgraph/answer/guard.py:204-234 | such an answer is insufficient the first time and not the second |
| `GuardLaws.LeakingAnswerIsRegraded` | src/seedgraph/answer/guard.py:204-234 | a concrete answer of this kind |
| `GuardLaws.ExemptIsKept` | src/seedgraph/answer/guard.py:206-226 | an answer without a model, and one that openly rests outside the corpus of an open project, keep category, text and flag |
| `GuardLaws.BannerIff` | src/seedgraph/answer/guard.py:233-240 | below the floor the not-found message replaces the text exactly if there was any |
| `GuardLaws.GuardWarns` | src/seedgraph/answer/guard.py:166-243 | all warnings in order: those before, one for each corrected citation, one for each excluded work, and the verdict's |
| `GuardLaws.MembershipJoins` | src/seedgraph/answer/guard.py:170-189 | citations are judged one by one, in their order |
| `GuardLaws.JudgedAlone` | src/seedgraph/answer/guard.py:170-189 | what becomes of one citation and what is warned: dropped with its work, dropped with its last span, cut down to its allowed spans, or kept as it is |
| `GuardLaws.ExcludedAlone` | src/seedgraph/answer/guard.py:114-144 | a citation is dropped as excluded exactly if there is a connection and its work has no membership row, or one that is neither included nor metadata only |
| `AnswerHarness.TraceCandidates` | src/seedgraph/answer/harness.py:328-363 | one disposition for each ranked candidate, in order |
| `AnswerHarness.ShortCircuit` | src/seedgraph/answer/guard.py:53-75 | stops exactly if no score is above the absent floor; warns exactly if none reaches the weak floor |
| `AnswerHarness.Generate` | src/seedgraph/answer/compose.py:585-787 | without a prompt or after a failed dispatch every candidate is cited and may be; after a reply only the shown prefix is, through its markers; the trace carries the prompt's cut |
| `AnswerHarness.AnswerQuestion` | src/seedgraph/answer/harness.py:516-606 | a gap-finding question abstains before retrieval; otherwise slice, short circuit, compose, guard, trace: an abstention cites nothing, every other answer is the guarded form of such a draft, and the graph's warnings are passed on |
| `AnswerLaws.MembershipStepIsIdle` | src/seedgraph/answer/guard.py:175-189 | end to end, for any markers: the guard's membership step has nothing to correct |
| `AnswerLaws.DispositionsAreThreeRuns` | src/seedgraph/answer/harness.py:299-363 | over the full ranked list: shown, then cut by budget, then cut by rank, with exactly as many shown as the prompt has blocks, block by block the same candidates |
| `AnswerLaws.PromptIsDetermined` | src/seedgraph/answer/compose.py:149-215 | a prompt is built exactly if the route allows one and there are candidates, and its cut is the longest affordable prefix |
| `AnswerLaws.TraceMatchesPromptIff` | src/seedgraph/answer/harness.py:299-325 | the trace marks exactly the prompt's blocks as shown if and only if the candidate limit is not negative |
| `AnswerLaws.NegativeLimitHidesThePrompt` | src/seedgraph/answer/harness.py:299-325 | two candidates and a limit of minus one: one block is shown, both rows are marked as cut by rank |
| `AnswerLaws.CitedWasShown` | src/seedgraph/answer/harness.py:565-606 | unless a dispatched prompt failed, every cited work and span is that of a candidate the trace marks as shown |
| `AnswerLaws.CutByRankIsNotCited` | src/seedgraph/answer/harness.py:522-526 | nothing cut by the rank limit is ever cited |
| `AnswerLaws.FailedDispatchIff` | src/seedgraph/answer/compose.py:734-755 | after a failed dispatch cited means shown if and only if every citable candidate beyond the longest affordable prefix repeats a work and span of that prefix |
| `AnswerLaws.UnshownIsCitedAfterFailure` | src/seedgraph/answer/compose.py:734-755 | two works and a budget for one block: the second is cited though not shown |
| `OutcomeLaws.SliceKeeps` | src/seedgraph/answer/harness.py:522-526 | the first candidates up to the limit are kept, or with a negative limit all but so many from the end |
| `OutcomeLaws.AbstainsIff` | src/seedgraph/answer/harness.py:536-548 | the question is answered by abstaining if and only if no kept candidate scores above the absent floor |
| `OutcomeLaws.AbstentionIs` | src/seedgraph/answer/harness.py:263-288 | an abstention has no text and no citations, is unresolved and marked as resting on too little |
| `OutcomeLaws.WarnsOfWeakEvidence` | src/seedgraph/answer/guard.py:66-75 | weak evidence is warned of exactly if no kept candidate reaches the weak floor; the graph's warnings follow |
| `OutcomeLaws.WithoutReply` | src/seedgraph/answer/compose.py:523-545 | without a reply there is no text and no flag, and the draft is grounded exactly if a citation names a span; the route's reasons or the failure are warned of |
| `OutcomeLaws.WithReply` | src/seedgraph/answer/compose.py:757-783 | a reply's category, text and flag are taken over, and each marker that names no shown block is warned of |
| `OutcomeLaws.AnswerWithoutReply` | src/seedgraph/answer/harness.py:554-588 | end to end: an answer without a reply says nothing, keeps its draft's category and adds only warnings of excluded works |
| `OutcomeLaws.AnswerWithReply` | src/seedgraph/answer/harness.py:554-588 | end to end: the reply's text is given exactly if enough is cited, or it openly rests outside an open project; otherwise the not-found message or nothing, marked insufficient |
| `ConfigMerge.MergeIsAssociativeIff` | src/seedgraph/config/loader.py:63-71 | the grouping of three layers does not matter if and only if no scalar sits between two mappings, unless the last mapping covers the first |
| `ConfigMerge.ScalarBetweenMappings` | src/seedgraph/config/loader.py:63-71 | a concrete triple of layers for which the grouping matters |
| `ConfigClamp.RuleTightensIff` | src/seedgraph/config/loader.py:109-136 | the clamped leaf is at least as restrictive, as the schema reads the leaves, if and only if the two leaves are clampable: for a gate, a project leaf that is not truthy or a global one that is not a truthy value the schema does not read as true; for a cap both numbers (booleans are 1 and 0) and not NaN; for an allow-set a list; null in the project standing for the ceiling |
| `ConfigClamp.NaNLiftsTheCap` | src/seedgraph/config/loader.py:117-125 | a NaN passes through a cap of five unchanged |
| `ConfigClamp.QuotedNoOpensTheGate` | src/seedgraph/config/loader.py:111-116 | a quoted "no" in the global file, which the schema reads as false, does not close a permission gate |
| `ConfigClamp.RuleKeepsTightIff` | src/seedgraph/config/loader.py:109-136 | the clamped leaf is at most as loose as the project's own if and only if that is a gate the schema reads as the clamp does or the global gate is closed, a cap that can be compared or none, or any allow-set |
| `ConfigClamp.QuotedNoBecomesYes` | src/seedgraph/config/loader.py:111-116 | a quoted "no" in the project file becomes a permission under an open gate |
| `ConfigClamp.RuleTwice` | src/seedgraph/config/loader.py:109-136 | every rule is idempotent |
| `ConfigClamp.RuleOnItself` | src/seedgraph/config/loader.py:139-159 | a section shared with the global tree is written back unchanged, so clamping in place does not disturb the global tree |
| `ConfigClamp.ClampSelected` | src/seedgraph/config/loader.py:78-106 | a selected leaf becomes its clamped value, a missing one stays missing |
| `ConfigClamp.ClampElsewhere` | src/seedgraph/config/loader.py:78-106 | all other scalars and the key sets of all other mappings stay as the merge gave them |
| `ConfigClamp.ClampTargets` | src/seedgraph/config/loader.py:78-106 | the loop assigns exactly the leaves the path selects, each its clamped value |
| `ConfigClamp.ClampProjectCeiling` | src/seedgraph/config/loader.py:139-159 | applies every ceiling of the table |
| `ConfigClamp.CeilingLeaf` | src/seedgraph/config/loader.py:139-159 | with several ceilings, each leaf is what its own rule makes of the global and the merged leaf |
| `ConfigClamp.CeilingHolds` | src/seedgraph/config/loader.py:139-159 | every ceiling leaf after the clamp is at least as restrictive as the global one if and only if the two leaves are clampable |
| `ConfigClamp.FreeLeafUnchanged` | src/seedgraph/config/loader.py:139-159 | leaves without a ceiling are exactly what the merge gave |
| `ConfigClamp.ClampAllTwice` | src/seedgraph/config/loader.py:139-159 | clamping is idempotent |
| `ConfigClamp.OrderDoesNotMatter` | src/seedgraph/config/loader.py:154-159 | any order of the ceilings gives the same tree |
| `ConfigClamp.CeilingSpecIsIndependent` | src/seedgraph/config/models.py:406-422 | the program's ceilings touch different leaves, so all of this applies to them |
| `ConfigLoad.LoadProject` | src/seedgraph/config/loader.py:171-190 | defaults, global and project merged, clamped, profiles put back |
| `ConfigLoad.LoadedCeilingHolds` | src/seedgraph/config/loader.py:171-190 | for all global and project trees the loaded settings have exactly the ceiling leaves of the merge, and a leaf is at least as restrictive as the global one if and only if the two are clampable |
| `ConfigLoad.MissingIff` | src/seedgraph/config/loader.py:63-71 | a global leaf is missing from the merge if and only if the project puts something other than a mapping above it |
| `ConfigLoad.NaNIsLoaded` | src/seedgraph/config/loader.py:171-190 | a project file with a NaN `usd_limit` loads without the global cap of five |
| `ConfigLoad.QuotedNoIsLoaded` | src/seedgraph/config/loader.py:171-190 | with a quoted "no" in the global file and true in the project's, the external model is allowed |
| `ConfigLoad.ProfilesAreGlobal` | src/seedgraph/config/loader.py:285-309 | whatever the project file holds, the loaded profiles are the global ones or there are none |
| `ConfigLoad.StripIsIdleIff` | src/seedgraph/config/loader.py:285-309 | for a project that passed the write-time scan, putting the profiles back changes nothing if and only if the global registry is not malformed |
| `ConfigLoad.NullRegistryIsRemoved` | src/seedgraph/config/loader.py:285-309 | a global registry that is null is removed at load |
| `CeilingLaws.GateIsConjunction` | src/seedgraph/config/models.py:406-422 | each of the five named permission gates is loaded as the conjunction of the two files' values, or as the global one where the project says nothing |
| `CeilingLaws.OpenUnless` | src/seedgraph/config/loader.py:111-116 | under an open ceiling a gate stays open unless its leaf is null, false, zero or empty; under a closed one it closes |
| `CeilingLaws.CapIsSmaller` | src/seedgraph/config/models.py:406-422 | each of the five named caps is loaded as the smaller of the two numbers, as the global one where the project has none, and as the project's where there is no global one |
| `CeilingLaws.RouteIsNarrowed` | src/seedgraph/config/models.py:406-422 | for every route the loaded allowed access classes are exactly those in both lists, and the global list where the project has none |
| `CeilingLaws.CapTakesTheSmaller` | src/seedgraph/config/loader.py:117-125 | of two numbers, true and false counting as one and zero, a cap takes the smaller leaf; infinities are above and below every number |
| `CeilingLaws.CapIsOneOfTheTwo` | src/seedgraph/config/loader.py:117-125 | a clamped cap is always one of the two leaves |
| `CeilingLaws.OthersAreMerged` | src/seedgraph/config/loader.py:139-190 | every other setting of a section is loaded as the merge has it, the profiles aside |
| `CeilingLaws.MergedAt` | src/seedgraph/config/loader.py:63-71 | a value of the project that is no mapping replaces the global one; where the project says nothing the global one stays |
| `ConfigLoad.WrittenIsLoaded` | src/seedgraph/config/loader.py:384-403 | what a successful write validated is exactly what loading yields: since the schema refuses a registry that is no mapping, the strip is idle after every write |
| `WriteLaws.ChecksFindAll` | src/seedgraph/config/loader.py:237-282 | the two scans find a forbidden field name at any depth, also inside lists, and nothing else |
| `WriteLaws.SavedIff` | src/seedgraph/config/loader.py:359-408 | a write is saved exactly if the patch is a mapping, neither it nor the result holds a secret or redirects a profile, and the effective settings are valid; it saves the patch over what there was |
| `WriteLaws.RefusedBecause` | src/seedgraph/config/loader.py:377-405 | exactly when each of the four refusals is given |
| `RunLog.Runs.EnsureRun` | src/seedgraph/run.py:105-122 | a missing manifest becomes an empty one, an existing one is kept as it was, and events and all other runs stay |
| `RunLog.Runs.AppendEvent` | src/seedgraph/run.py:193-229 | one more line, numbered by the lines before it |
| `RunLog.Runs.ReadEvents` | src/seedgraph/run.py:232-257 | exactly the events numbered above the given one, in order |
| `RunLog.Runs.UpdateManifest` | src/seedgraph/run.py:125-154 | refused, writing nothing, exactly if a section is already present; otherwise adds exactly the given sections |
| `RunLog.Runs.MarkInterruptedRuns` | src/seedgraph/run.py:276-317 | stamps exactly the runs that end without a terminal event and have no external host, returned in order; all others are untouched |
| `RunLog.AfterIsSuffix` | src/seedgraph/run.py:232-257 | on a numbered log, reading after a number is reading from the next line on |
| `RunLog.SweepSettles` | src/seedgraph/run.py:276-317 | after a sweep no run without an external host is running, and a second sweep changes nothing |
| `RunLog.SweptIs` | src/seedgraph/run.py:259-317 | by name: a run that is empty, that an outside host drives, or that ended in finished, failed, interrupted, paused or awaiting-host is left alone; every other one gets one line, interrupted, in the phase of its last line |
| `RunLog.EnsuredIs` | src/seedgraph/run.py:105-122 | ensuring a run writes an empty manifest exactly where there is none |
| `RunLog.UpdatedIs` | src/seedgraph/run.py:125-154 | sections are added to those there, or none is if one of them is there or the manifest is unreadable |
| `RunLog.HistoryKeeps` | src/seedgraph/run.py:125-154 | over any sequence of these calls a section keeps its first value, and the log only grows and stays numbered |
| `RunThreads.InvAlways` | src/seedgraph/run.py:172-229 | over every interleaving: one lock per run, a thread inside holds it and its line count is right, logs are numbered, pollers have a prefix |
| `RunThreads.LinesAreNumbered` | src/seedgraph/run.py:193-229 | in every interleaving line i of a log carries number i |
| `RunThreads.OneWriterPerRun` | src/seedgraph/run.py:172-179 | two threads are never inside the critical section of one run, though locks are created on demand |
| `RunThreads.PollReceives` | src/seedgraph/run.py:232-257 | a poll that sees some first lines of the log brings the poller up to exactly those, whatever it had received |
| `RunThreads.AppendGoesThrough` | src/seedgraph/run.py:193-229 | while nobody holds the run's lock, a thread's steps add one numbered line to the run's log and to no other and free the lock |
| `RunThreads.WaitsForTheLock` | src/seedgraph/run.py:172-179 | while another thread holds it, a waiting one changes nothing |
| `RunThreads.WrittenLineStays` | src/seedgraph/run.py:217-229 | the number an append reports is that of the line it wrote, which no later step changes |
| `RunThreads.PollerMissesNothing` | src/seedgraph/run.py:232-257 | a poller passing its last number has received the first events of the log, each once and in order |
| `RunThreads.FullPollCatchesUp` | src/seedgraph/run.py:232-257 | a poll that sees the whole log leaves nothing unread |
| `WorkRead.SubtreeEnd` | src/seedgraph/work_read.py:245-257 | scans the sections as the source does |
| `WorkRead.SubtreeEndsWithItsLast` | src/seedgraph/work_read.py:245-257 | in document order a subtree selection ends where its last deeper section ends |
| `WorkRead.PageFacts` | src/seedgraph/work_read.py:258-282 | a delivered page is text of the document with the pinned hash, continues at the cursor, and hands on a cursor for the same document and selection unless complete |
| `WorkRead.PinnedOrNothing` | src/seedgraph/work_read.py:135-188 | whatever changes between requests, a page of a session shows the document pinned by the first page or no text at all |
| `WorkRead.ContinuationServedIff` | src/seedgraph/work_read.py:135-282 | a continuation is served if and only if the request is the same and well-formed, the lineage still holds, the pinned document is there and intact, nothing is withheld, the anchor is right and the selection is where it was |
| `WorkRead.PagesJoinToSelection` | src/seedgraph/work_read.py:258-282 | pages of any sizes join to exactly the selected slice of the pinned document |
| `WorkRead.SessionTerminates` | src/seedgraph/work_read.py:258-282 | every continuation makes progress; a session has no more pages than the selection has characters |
| `WorkRead.ContinuationServedAgain` | src/seedgraph/work_read.py:258-282 | in an unchanged world every continuation is served, with any page size |
| `WorkRead.FollowingReadsEverything` | src/seedgraph/work_read.py:258-282 | in an unchanged world following the continuations reaches the last page, and the pages join to exactly the selected slice |
| `WorkRead.SectionsListedOnce` | src/seedgraph/work_read.py:271-275 | following the next offsets with any limits lists the sections in order, each once, and all of them with as many requests as there are sections |
| `ReadLaws.FirstPageIff` | src/seedgraph/work_read.py:133-283 | a first page is served exactly if the request is sound, its source is there, readable and proven, policy does not withhold it, the anchor holds and the section exists; it shows the selection from its start, as much as was asked for |
| `ReadLaws.ReasonIs` | src/seedgraph/work_read.py:133-225 | without text, the reason is the first of these obstacles in the source's order |
| `ReadLaws.ContinuationReasonIs` | src/seedgraph/work_read.py:133-225 | the same for a continuation: a changed source whose lineage lacks the pinned text comes first |
| `ReadLaws.SelectionIs` | src/seedgraph/work_read.py:240-257 | the whole document without a section, else the first section with that id from its start to its end, and nothing for an unknown id |
| `ReadLaws.SubtreeSelectionIs` | src/seedgraph/work_read.py:246-257 | with its subtree a section reaches to the end of the last of the deeper sections that follow it |
| `ReadLaws.SectionsAre` | src/seedgraph/work_read.py:236-244 | the stored sections count only if each is one of this very document |
| `Segment.LineBegins` | src/seedgraph/segment.py:40-46 | a line begins after each of ten breaks, but not inside a CR LF pair |
| `Segment.FindBlocks` | src/seedgraph/segment.py:40-53 | blocks of whole nonblank lines, a blank line after each, covering everything that is not whitespace |
| `Segment.Tighten` | src/seedgraph/segment.py:57-63 | strips exactly the trimmed characters at both ends; never empties a block |
| `Segment.Paragraphs` | src/seedgraph/segment.py:32-64 | nonempty intervals in order and disjoint, end points not trimmed characters, none holding a blank line, a blank line between any two, every character that is not whitespace covered |
| `Segment.InOneParagraph` | src/seedgraph/segment.py:32-64 | no character is in two paragraphs |
| `Segment.PageAt` | src/seedgraph/segment.py:85-93 | for ordered boundaries, the page of the last boundary at or before the offset |
| `Segment.PageForRange` | src/seedgraph/segment.py:96-108 | the pages of the first and last character of the range |
| `Segment.PagesFollowOffsets` | src/seedgraph/segment.py:96-108 | where page numbers do not decrease, a range does not end on an earlier page than it starts |
| `BibParser.GroupLines` | src/seedgraph/citation/bib_parser.py:456-497 | every kept line is in exactly one entry, in order; entries break exactly at start lines |
| `BibParser.KeptFrom` | src/seedgraph/citation/bib_parser.py:484-492 | in a numbered list only the preamble before the first start line is dropped |
| `BibParser.KeptAll` | src/seedgraph/citation/bib_parser.py:484-497 | without a start line nothing is dropped |
| `BibParser.GroupingIsUnique` | src/seedgraph/citation/bib_parser.py:481-497 | kept lines and start lines determine the grouping |
| `BibParser.Reflow` | src/seedgraph/citation/bib_parser.py:439-513 | the entries of that grouping, split further only in plain name-year sections |
| `BibParser.ReflowKeepsWords` | src/seedgraph/citation/bib_parser.py:456-513 | no word of a kept line is lost, duplicated or moved, through joining and splitting |
| `BibParser.PiecesKeepWords` | src/seedgraph/citation/bib_parser.py:507-513 | the collapse split loses no word and yields no empty piece |
| `BibParser.ParseRange` | src/seedgraph/citation/bib_parser.py:564-580 | loop over the entries of a range, carrying the previous author |
| `BibParser.EntryAt` | src/seedgraph/citation/bib_parser.py:516-540 | ordinals run from one; an author-less repeated-author entry takes the nearest earlier author of its range |
| `BibParser.NearestIsNearest` | src/seedgraph/citation/bib_parser.py:564-580 | that author is the one of the last earlier entry that names any |
| `BibParser.ParseReferences` | src/seedgraph/citation/bib_parser.py:542-581 | all ranges in order |
| `BibParser.ParseConcat` | src/seedgraph/citation/bib_parser.py:542-581 | parsing a list of ranges is the concatenation of parsing its parts: no author crosses a range |
| `BibLaws.EnumeratedIff` | src/seedgraph/citation/bib_parser.py:116-133 | a list counts as numbered exactly if it has three enumerators and at least four fifths of the steps between them go up, or in a discrete sub-list if it has one |
| `BibLaws.EntriesBeginAt` | src/seedgraph/citation/bib_parser.py:481-497 | in a numbered list an entry begins at an enumerator or dash and nowhere else; elsewhere also at an author and year that does not continue a line |
| `BibLaws.KeptIs` | src/seedgraph/citation/bib_parser.py:484-492 | what a numbered list loses are the lines before its first enumerator or dash |
| `BibLaws.ReflowedIs` | src/seedgraph/citation/bib_parser.py:498-513 | only a plain list without numbers is split further |
| `BibLaws.PiecesEndAtCuts` | src/seedgraph/citation/bib_parser.py:507-513 | the pieces of an entry end exactly where the pattern cuts |
| `BibLaws.ParsedIs` | src/seedgraph/citation/bib_parser.py:564-580 | one range gives the entries of its texts |
| `ClaudeBlock.Search` | src/seedgraph/agent_setup/__init__.py:58-59 | the first place of a marker, or -1 |
| `ClaudeBlock.FenceWithoutNewlines` | src/seedgraph/agent_setup/__init__.py:62 | stripping newlines off a fence takes only its last one |
| `ClaudeBlock.File.WriteBlock` | src/seedgraph/agent_setup/__init__.py:39-67 | reading with universal newlines, searching, slicing and stripping give the file's whole new text: the fence, or the text around the old region with the new fence, or the old text with padding and the fence |
| `ClaudeBlock.OutsideIsPreserved` | src/seedgraph/agent_setup/__init__.py:56-67 | the text around the fenced region is preserved as it reads, and character by character if and only if it has no carriage return; without a region the old text as it reads is kept whole, followed only by newlines and the fence |
| `ClaudeBlock.BlockIsThere` | src/seedgraph/agent_setup/__init__.py:36-67 | the block without the white space at its end stands between the two markers: in a new file, in place of the old region, or after the old text and an empty line |
| `ClaudeBlock.RegionIs` | src/seedgraph/agent_setup/__init__.py:58-62 | the region runs from the first begin marker to the first end marker, if that comes later |
| `ClaudeBlock.RegionInRead` | src/seedgraph/agent_setup/__init__.py:57-60 | reading moves no marker past another: a file has a fenced region exactly if its text has one, with the same text around it |
| `ClaudeBlock.WritingTwiceIff` | src/seedgraph/agent_setup/__init__.py:39-67 | writing a block free of markers and carriage returns twice equals writing it once if and only if there is no file, the file has no markers, or its first begin marker is before its first end marker |
| `ClaudeBlock.StrayEndIsUnstable` | src/seedgraph/agent_setup/__init__.py:58-65 | a stray end marker makes every write append another block |
| `ClaudeBlock.StrayBeginIsUnstable` | src/seedgraph/agent_setup/__init__.py:58-65 | a stray begin marker makes the second write swallow text |

## Left out

- ConfigClamp.RuleTightensIff: a global allow-set that is neither null nor a list, which the program iterates or rejects with an exception, and Python's equality of list members of different types (1, 1.0 and True); a quoted number, which the schema reads as one, counts as no number.
- ConfigLoad.WrittenIsLoaded: letter-case variants of forbidden key names, which the scans also refuse, and the final `slug` entry are not modelled; the schema validation is an arbitrary predicate that refuses a profile registry that is no mapping.
- ConfigClamp.ClampProjectCeiling: loops over a local copy, so sharing of sub-mappings with the global tree is not modelled; `RuleOnItself` shows why it is harmless.
- Neighborhood.Neighborhood: floating-point rounding of the coverage.
- CorpusWalk.WalkCorpus: the graph is fixed during a walk; provider calls, enrichment, membership rows and progress are left out, and so are merges of works while it runs.
- AnswerHarness.AnswerQuestion: recommendations, retrieval, ranking and the graph search are left out; the graph's warnings are given, and route, access gate and pricing gate are one given decision.
- Guard.Envelope.KeepMembers: citations are values, so a citation object shared with another holder is not modelled; the program recomputes the cited ids up to three times, the model once.
- RunThreads.InvAlways: locks are process-local as in the program; several processes and torn lines are left out.
- RunLog.Runs.AppendEvent: timestamps, levels, messages and event data.
- WorkRead.PageFacts: the unknown-work error, cursor encoding, display metadata, bounded headings and the newer-version notice; the policy decision and schema checks are given booleans, and the parser of sections is arbitrary.
- Segment.PageAt: recognising page delimiters is a regular expression; ordered boundaries are given.
- ClaudeBlock.File.WriteBlock: writing on a system whose line ends are not LF.
- BibParser.Reflow: cleaning, debris and start patterns are given facts of a line; text is compared up to whitespace.
- ContentCache.Cache.ConvertSourceFile: the manifest file, block JSON output, provenance events and backend exceptions other than failure.
- ProviderCache.KeyStableIff: stripping and lower-casing of ids, and negative caching.
- CitationHistory.RunHistory: merging and splitting of works, and other kinds of review items.
- CitationHistory.BlockedForever: merging works deletes citation edges (`src/seedgraph/project/merge.py:113`) and can unblock one; merges are not among the calls.
- CitationHistory.ApproveItem: how a candidate is looked up in the item's payload; the choice is given, a failed lookup is `Unusable`.
- Checks on confidence ranges, resolution sources and other columns nobody reads back.
- Command line, web routes, MCP tools, network access, acquisition of PDFs, extraction, semantic graph building, evaluation and export.
