# Verification of the RAG backend's core

A Dafny model of the hand-written algorithms and protocols of the backend, with proofs of what they promise.
`dafny verify dfyconfig.toml` checks all of it. Code that works by changing things is modelled by classes and
methods with loops, each proved against a function or a step relation; the properties are lemmas about those.

- **Chunker** (`text`, `lines`, `trackers`, `tracked`, `splitter`, `chunker`, `regions`, `document_tables`): the three
  trackers, the line loop with its three flushes, sections, merging and folds. Proved: atomic regions, conservation,
  the ceiling, agreement of section-local and document-wide fences, and fenced blocks and tables whole from
  document to chunk.
- **Ingestion** (`repository`, `ingestion`, `lease`, `ingestion_runs`, `ingestion_service`): every SQL statement is one
  step on the rows and stamps its row; any number of runs, each at a program point, interleave with heartbeats,
  crashes and deletes.
- **Version and answer cache** (`corpus_version`, `cache_keys`, `ask_cache`, `ask_race`, `ask_ingestion`,
  `ask_service`): requests at a program point, a cache map and the same database writes as one transition system.
  States are numbered by the writes before them. The class `AskService.Service` keeps a ghost run of that system
  beside its real fields, so what is proved of every run holds of it.
- **Stream router** (`router`), **rate limiter** (`throttler`), **rank fusion** (`rrf`), **log serializer**
  (`json_logger`), **placeholders, table converter and cleaner** (`placeholders`, `patterns`, `leftmost`,
  `html_cell`, `crossed_link`, `entities`, `cell_parts`, `html_table`, `table_parts`, `markdown_cleaner`,
  `decoration`), **chain parser** (`llm_chain`), **batched embeddings** (`embeddings`), and the sort they and the
  fusion share (`stable_sort`).

What cannot be seen from the code is a parameter: the token count, SHA-256 (no two inputs collide, no colon in its
hex), the rendering of stamps (distinct, never `none`) and of numbers (distinct, no colon), the two search queries,
the fusion cut and the citations, what a provider streams, what other clients write between two awaits.

Stamps are assumed to increase strictly in commit order, which the comment at
`src/ingestion/ingestion.repository.ts:24-39` names as the limit of the mechanism. Numbers in scores are exact reals.

Where the code and its comments differ, the code is modelled:

- `src/ask/ask.service.ts:276-279` says the key always reflects the corpus retrieval ran against. It reflects the
  corpus at the version read; `AskRace.NewerAnswerFiledUnderOlderVersion` is a run in which retrieval sees a newer
  one, and `AskCache.HitIsCurrentIff` says exactly when the two agree.
- `src/common/cache/cache.keys.ts:88-96` fears that a re-ingested source may leave the version unchanged. With
  strictly increasing stamps it never does (`CorpusVersion.VersionIdentifiesCorpus`).
- `src/common/throttling/redis-throttler.storage.ts:194-197` calls the fallback for a remaining time of zero
  unreachable. It is reached exactly if Redis still shows a key at its deadline (`Throttler.NoTimeLeftIff`).
- `src/ingestion/markdown-cleaner.ts:36-39` says a surviving placeholder always resolves to its own content. It does,
  but an inline span around a fence resolves to content that itself holds a placeholder
  (`MarkdownCleaner.RoundTripIff`, `MarkdownCleaner.SpanAroundFence`).
- `src/common/cache/cache.keys.ts:57-61` says changing any part of the configuration changes the fingerprint. It does
  exactly where no other segment can be taken for the distance (`CacheKeys.FingerprintIff`,
  `CacheKeys.AcceptedChainsCollide`).
- `src/ingestion/html-table.ts:57-59` says a table with `<th>` keeps its header. Only its first header row is kept:
  `HtmlTable.ConvertedShape` counts the lines, `HtmlTable.SecondHeaderIsLost` is a table that loses a row.
- `src/ingestion/ingestion.service.ts:150-158` makes the claim the place that refuses a duplicate run. It lets one
  through while a run that was told, wrongly, that marking its source ready failed is about to mark it failed;
  `Ingestion.SafeThroughoutIff` says exactly when that does harm, and `IngestionRuns.StrayClaimHappens` is a run
  in which it does.

## Model

| member | source | states |
|---|---|---|
| `Lines.FenceIsNeverPipeRow` | src/ingestion/chunker.ts:30-31 | no line is both a fence marker and a pipe-table row, tested character by character |
| `Lines.HeadingShape` | src/ingestion/chunker.ts:25-31 | a page or section heading is unquoted, no fence marker, and never both kinds of heading |
| `Lines.LineShape` | src/ingestion/chunker.ts:30-41 | quote depth, fence markers and pipe rows by the line's shape: each quote mark behind white space is a level, any other first character decides |
| `Lines.TitlesReadBack` | src/ingestion/chunker.ts:25-26 | hashes, white space, any trimmed title, white space: that title is read, and as the right kind of heading |
| `Lines.OddTitles` | src/ingestion/chunker.ts:25-26 | what is read behind hashes with only white space after them, and that a title over several lines is none |
| `Lines.NoTitle` | src/ingestion/chunker.ts:25-26 | without white space behind the hashes there is no title |
| `Lines.TagsAnywhere` | src/ingestion/html-table.ts:6-7 | table tags are found anywhere in a line and in any case |
| `Trackers.FenceTracker.Consume` | src/ingestion/chunker.ts:82-110 | the fence closure: quote end, marker, opening, closing at the same quote depth |
| `Trackers.TableTracker.Consume` | src/ingestion/chunker.ts:136-182 | the HTML-table closure with its quote and token bounds |
| `Trackers.PipeTableTracker.Consume` | src/ingestion/chunker.ts:211-243 | the pipe-table closure with its token bound |
| `Trackers.TableBound` | src/ingestion/chunker.ts:154-181 | an HTML table as tracked holds, before its last line, no more tokens than the bound, and the counter is their exact sum |
| `Trackers.PipeBound` | src/ingestion/chunker.ts:220-242 | the same for pipe tables |
| `Trackers.PipeRunHolds` | src/ingestion/chunker.ts:220-242 | a run of pipe rows that starts a table stays one table while its running total is within the bound |
| `Tracked.InsideFenceIff` | src/ingestion/chunker.ts:82-110 | after any lines the tracker is inside a fence if and only if some line opened one and no line since is in a shallower quote or a marker at its depth |
| `Tracked.InsideTableIff` | src/ingestion/chunker.ts:136-182 | it is inside an HTML table if and only if some line opened one and none since closed it, left its quote or came when it was over the bound |
| `Tracked.InsidePipeIff` | src/ingestion/chunker.ts:211-243 | the same for pipe tables |
| `Tracked.OpeningIff` | src/ingestion/chunker.ts:483-505 | where tables open: not in fences, nor in one another but for an HTML table on a line that ends a pipe table |
| `Tracked.AtomicIff` | src/ingestion/chunker.ts:498-556 | which lines no flush touches |
| `Splitter.SplitAtSafeBoundaries` | src/ingestion/chunker.ts:459-575 | the line loop with its three flushes emits exactly the bodies of the partition that the lemmas below are about |
| `Splitter.PlaceLine` | src/ingestion/chunker.ts:525-569 | what happens to a line once the trackers have seen it |
| `Splitter.Flush` | src/ingestion/chunker.ts:471-477 | a blank buffer is dropped, any other becomes a body |
| `Splitter.SplitOversizedSection` | src/ingestion/chunker.ts:442-457 | whole section, or split and trailing fold |
| `Splitter.PartsCover` | src/ingestion/chunker.ts:479-572 | the parts are the lines of the section: nothing lost, moved or empty |
| `Splitter.SeamsOfSplit` | src/ingestion/chunker.ts:499-569 | no boundary falls inside an HTML or pipe table; one falls inside a fence only where the closing line would itself open a table and the buffer is full |
| `Splitter.FenceIsCut` | src/ingestion/chunker.ts:499-516 | and there the fence really is cut |
| `Splitter.FencesWholeIff` | src/ingestion/chunker.ts:499-516 | fences stay whole under all limits if and only if no fence-closing line opens a table |
| `Splitter.AtomicRegions` | src/ingestion/chunker.ts:479-570 | a stretch of lines each continuing a fence, an HTML table or a pipe table, however nested or abutting, lies in one part |
| `Splitter.NoNeedlessCut` | src/ingestion/chunker.ts:507-569 | every part but the last ends for one of three reasons: at the target, after a blank line in no region or before a line that opens one; or because its next line, in no region, would have taken it over the maximum |
| `Splitter.NoMissedCut` | src/ingestion/chunker.ts:525-569 | no part runs on past a paragraph break outside every region at which it had reached the target |
| `Splitter.NoMissedOpening` | src/ingestion/chunker.ts:499-516 | no part runs on past a line that opens a table at which it had reached the target |
| `Splitter.BodiesAre` | src/ingestion/chunker.ts:471-477 | the bodies are the parts that are not blank, in order |
| `Splitter.ShortTailIsFolded` | src/ingestion/chunker.ts:442-606 | a section within the maximum is one body; otherwise a last body short of the minimum is folded exactly if the two fit the maximum |
| `Splitter.Ceiling` | src/ingestion/chunker.ts:442-606 | every body, before and after the trailing fold, is within the ceiling, a single line, or ends on a fence or table line |
| `Splitter.SectionKeepsLines` | src/ingestion/chunker.ts:442-606 | the non-blank lines of a section are those of its bodies, each once and in order |
| `Chunker.SplitIntoSections` | src/ingestion/chunker.ts:287-336 | the section loop computes the sections the lemmas speak of |
| `Chunker.GroupByMinimum` | src/ingestion/chunker.ts:373-403 | forward merging |
| `Chunker.MergeUndersizedSections` | src/ingestion/chunker.ts:356-440 | merging, backward fold and dominant heading |
| `Chunker.PushBodies` | src/ingestion/chunker.ts:262-282 | trimming, dropping blank bodies, numbering |
| `Chunker.ChunkMarkdown` | src/ingestion/chunker.ts:251-285 | the whole chunker computes the chunks the lemmas speak of |
| `Chunker.Conservation` | src/ingestion/chunker.ts:251-336 | the non-blank lines of all chunks in ordinal order are exactly those of the input minus the headings consumed as structure, each once and in order |
| `Chunker.ChunksAreNumbered` | src/ingestion/chunker.ts:269-281 | ordinals are 0 to n-1, no chunk is empty, contents are trimmed and measured |
| `Chunker.MergedKeepsLines` | src/ingestion/chunker.ts:356-430 | merging moves section borders and nothing else |
| `Chunker.MergedAreRanges` | src/ingestion/chunker.ts:356-440 | merging partitions the sections into consecutive ranges, each with exactly its lines, headed by the earliest of its heaviest sections, and each ending at the first section with which it reaches the minimum; only the last takes in a rest that falls short |
| `Chunker.MergedReachMinimum` | src/ingestion/chunker.ts:373-430 | every merged section reaches the minimum unless there is only one, if more lines never count for less |
| `Chunker.BigSectionsStayApart` | src/ingestion/chunker.ts:373-440 | sections that all reach the minimum are left as they are |
| `Chunker.SectionsAreNotBlank` | src/ingestion/chunker.ts:287-336 | no section is blank |
| `Chunker.GroupsReachMinimum` | src/ingestion/chunker.ts:373-403 | only the last group can fall short of the minimum |
| `Chunker.HeaviestSectionHeads` | src/ingestion/chunker.ts:432-440 | a merged section is headed by the earliest of its heaviest sections |
| `Regions.SectionsSpan` | src/ingestion/chunker.ts:287-336 | each section is a stretch of the document between consumed headings, under the titles above it, and every other non-blank line is in one |
| `Regions.SmallDocumentIsOneChunk` | src/ingestion/chunker.ts:251-285 | a document without headings that fits the maximum is one chunk, its trimmed text |
| `Regions.ChunksAreHeaded` | src/ingestion/chunker.ts:251-440 | every chunk is a trimmed body of a merged section, which is a range of the document's sections, and is headed by the titles the document has above the earliest of the heaviest sections of that range |
| `Regions.SectionSimulates` | src/ingestion/chunker.ts:82-110 | a fresh fence tracker over one section passes through the states of the document-wide one |
| `Regions.MergeSimulatesIff` | src/ingestion/chunker.ts:373-394 | merging keeps the fences of the second text exactly if the first ends outside a fence |
| `Regions.MergingKeepsFences` | src/ingestion/chunker.ts:373-430 | every section keeps its fences through merging when each section but the last ends outside a fence |
| `Regions.HeldStretchInOneChunk` | src/ingestion/chunker.ts:251-606 | a fence or table of a merged section reaches one chunk, end to end |
| `Regions.FencedBlocksStayWhole` | src/ingestion/chunker.ts:251-606 | a fenced block of the document comes out whole in one chunk, whatever the limits, if no heading consumed as structure ends an unclosed quoted fence, and no line that closes a fence within the block would open a table |
| `Regions.MergedQuotedFenceGoesOn` | src/ingestion/chunker.ts:378-388 | a concrete document whose quoted text lies outside any fence and, for every count and minimum that merge its two sections, inside one in the merged section |
| `Regions.FenceEndOpeningTableIsCut` | src/ingestion/chunker.ts:499-516 | a closing line that opens a table is cut off its fence: a concrete document |
| `DocumentTables.TablesStayWhole` | src/ingestion/chunker.ts:251-606 | an HTML or pipe table of the document within the bound comes out whole in one chunk, whatever the limits, if none of its lines is consumed as a heading, its section's trackers are outside every region at its first line, and every section but the last ends outside every region |
| `DocumentTables.OneSectionIff` | src/ingestion/chunker.ts:287-336 | a stretch of the document that starts with a non-blank line stays in one section if and only if none of its lines is consumed as a heading |
| `DocumentTables.HtmlTableHolds` | src/ingestion/chunker.ts:154-181 | the converse of the bound: the lines from one that opens a table to the first that closes it, quoted deep enough and within the bound, are tracked as one table |
| `DocumentTables.HeadingCutsTable` | src/ingestion/chunker.ts:287-336 | a concrete document whose table is cut by a heading line inside it |
| `Repository.IngestionRepository.CreateSource` | src/ingestion/ingestion.repository.ts:44-52 | insert, refused when the URI is taken |
| `Repository.IngestionRepository.FindSourceByUri` | src/ingestion/ingestion.repository.ts:54-60 | finds the row of a URI exactly when there is one |
| `Repository.IngestionRepository.DeleteSource` | src/ingestion/ingestion.repository.ts:78-80 | deletes the row with its content |
| `Repository.IngestionRepository.DeleteSourceContent` | src/ingestion/ingestion.repository.ts:87-99 | content and counters cleared in one step |
| `Repository.IngestionRepository.MarkSourceProcessing` | src/ingestion/ingestion.repository.ts:101-112 | status, commit and error set, stamped |
| `Repository.IngestionRepository.DatabaseNow` | src/ingestion/ingestion.repository.ts:122-133 | the clock that also writes the stamps |
| `Repository.IngestionRepository.ClaimForProcessing` | src/ingestion/ingestion.repository.ts:146-160 | one conditional update: claimed exactly when the row is not running or its stamp is older than the threshold |
| `Repository.IngestionRepository.TouchProcessing` | src/ingestion/ingestion.repository.ts:169-176 | renews only a row that is processing |
| `Repository.IngestionRepository.MarkSourceReady` | src/ingestion/ingestion.repository.ts:178-184 | status ready, stamped |
| `Repository.IngestionRepository.MarkSourceFailed` | src/ingestion/ingestion.repository.ts:186-192 | status failed with its error, stamped |
| `Repository.IngestionRepository.RecordSkippedDocuments` | src/ingestion/ingestion.repository.ts:194-200 | skipped count, stamped |
| `Repository.IngestionRepository.InsertDocumentWithChunks` | src/ingestion/ingestion.repository.ts:207-250 | a document with all its chunks and both counters, or nothing |
| `Repository.ApplyValid` | src/ingestion/ingestion.repository.ts:44-250 | every single write keeps counters exact, URIs unique and stamps in the past |
| `Repository.WriteStamps` | src/ingestion/ingestion.repository.ts:24-250 | exactly the row a write finds in the state it asks for carries the time of the write; no other row is touched |
| `Repository.ColumnsWritten` | src/ingestion/ingestion.repository.ts:87-250 | column by column, which write changes it and to what |
| `Repository.HeartbeatRenews` | src/ingestion/ingestion.repository.ts:162-176 | a heartbeat keeps a running source from every claim whose threshold was read by then, and changes nothing else |
| `Repository.ClaimsExclude` | src/ingestion/ingestion.repository.ts:136-192 | after a claim none with an earlier threshold succeeds; once the source is marked ready or failed any does |
| `Repository.UrisAreOwned` | src/ingestion/ingestion.repository.ts:44-80 | a URI belongs to one source until it is deleted |
| `Repository.InsertedIff` | src/ingestion/ingestion.repository.ts:202-250 | an insertion goes through exactly if the source is there and its documents and the chunks of each would still be told apart; otherwise no row is changed |
| `Repository.DistinctAlways` | src/ingestion/ingestion.repository.ts:202-250 | they are told apart in every state of every run of writes |
| `Repository.CountersAlwaysExact` | src/ingestion/ingestion.repository.ts:87-250 | document_count and chunk_count are the stored numbers in every state of every run, with no hypothesis |
| `Repository.RunOldOrNewer` | src/ingestion/ingestion.repository.ts:78-250 | a row not found as it was carries a later stamp |
| `Ingestion.NextKeepsInv` | src/ingestion/ingestion.service.ts:123-301 | every step of the protocol keeps exclusion, run consistency and whole generations while the lease is kept |
| `Ingestion.AtMostOneLiveRun` | src/ingestion/ingestion.service.ts:123-201 | at most one live run per source in every reachable state, if live runs restamp within the lease and no claim catches a stray run |
| `Ingestion.TakeoverIff` | src/ingestion/ingestion.repository.ts:146-160 | a claim takes a source from a live run if and only if that run's stamp is older than the claimer's threshold or its call that marked the source ready was reported as failed |
| `Ingestion.SafeThroughoutIff` | src/ingestion/ingestion.service.ts:169-301 | with the lease kept, exclusion and whole generations hold throughout a run, lost replies included, if and only if no claim catches a source whose run lost the reply to marking it ready |
| `IngestionRuns.StrayClaimHappens` | src/ingestion/ingestion.service.ts:169-301 | that happens: for every lease a run of eleven steps that keeps it throughout, loses one reply and ends with two live runs on one source |
| `Ingestion.ReadyIsWhole` | src/ingestion/ingestion.service.ts:209-301 | under the same hypotheses a ready source stores exactly the non-skipped documents of the run that marked it ready |
| `Ingestion.EventIsWrite` | src/ingestion/ingestion.service.ts:123-301 | each step is at most one of the repository's writes |
| `Ingestion.ProtocolIsRun` | src/ingestion/ingestion.service.ts:123-301 | the database of any protocol run is that of its writes |
| `Ingestion.CountersExact` | src/ingestion/ingestion.service.ts:209-301 | counters are exact in every state of the protocol, lease kept or not |
| `Ingestion.ChosenAre` | src/ingestion/ingestion.service.ts:235-285 | the documents stored for a plan are those of its files that come to one, in order; the others are counted as skipped |
| `Lease.LeaseKeptIff` | src/ingestion/ingestion.service.ts:209-301 | the lease is kept throughout a run if and only if, in every state, every live run's row was written by a call or a heartbeat within it |
| `Lease.ReclaimedIff` | src/ingestion/ingestion.service.ts:169-201 | a run takes over the source it found exactly if that is ready, failed, or was not written for longer than the lease |
| `Lease.FailureIsRecorded` | src/ingestion/ingestion.service.ts:283-301 | an error in the pipeline leaves the source failed with its error and open to any claim |
| `Lease.LeftAloneItFinishes` | src/ingestion/ingestion.service.ts:209-301 | a run left to itself with every call answered ends with its source ready and holding the whole plan |
| `Lease.FoundOrCreated` | src/ingestion/ingestion.service.ts:123-150 | a source nobody has is created and worked on; one that is there is the one found |
| `IngestionService.Service.Reuse` | src/ingestion/ingestion.service.ts:169-201 | threshold first, claim later: exactly what a reuse does with any writes in between |
| `IngestionService.Service.ClaimSource` | src/ingestion/ingestion.service.ts:123-150 | a claimed source is running and empty whichever way it was claimed; a refusal changes no row |
| `IngestionService.Service.RunPipeline` | src/ingestion/ingestion.service.ts:209-301 | whatever becomes of each of its calls (answered, refused, or done with the reply lost), with heartbeats, a removal and work on other sources between them: success leaves a source still there ready with all chosen documents and the skipped count, after every call was answered; an error leaves it failed with the error if the last call was carried out, and in any case with the documents of some first files; left to itself it changes no other row |
| `IngestionService.UriStays` | src/ingestion/ingestion.service.ts:135-149 | a row found before other writes is still about the same URI |
| `CorpusVersion.Aggregate` | src/common/cache/corpus-version.ts:33-41 | count of ready rows and their newest stamp |
| `CorpusVersion.VersionIdentifiesCorpus` | src/common/cache/corpus-version.ts:33-44 | over any run of writes two states have the same version exactly if they have the same ready sources, documents and chunks |
| `CorpusVersion.RenderInjective` | src/common/cache/corpus-version.ts:43-44 | the rendered string determines count and stamp |
| `CorpusVersion.HeartbeatKeepsCorpus` | src/ingestion/ingestion.repository.ts:162-176 | a heartbeat changes neither corpus nor version |
| `CacheKeys.NormalisedWords` | src/common/cache/cache.keys.ts:14-16 | normalising keeps the words and puts one space between them |
| `CacheKeys.SameQuestionIff` | src/common/cache/cache.keys.ts:14-16 | two questions share a normal form exactly if they have the same words in the same case |
| `CacheKeys.AnswerKeyIff` | src/common/cache/cache.keys.ts:112-118 | two answer keys are equal exactly if version, fingerprint and normalised question agree |
| `CacheKeys.FingerprintIff` | src/common/cache/cache.keys.ts:77-81 | a configuration shares its fingerprint with no other if and only if no segment of its chain after the first colon and none of its embedding model before the last is a rendered number |
| `CacheKeys.AcceptedChainsCollide` | src/common/cache/cache.keys.ts:77-81 | two different configurations with one fingerprint, both with a chain the parser accepts |
| `AskCache.InvAlways` | src/ask/ask.service.ts:106-302 | in every interleaving of requests, writes and evictions each cache entry is filed under the version its request read first |
| `AskCache.AnsweredIffNear` | src/ask/ask.service.ts:84-104 | answered exactly if the nearest distance is a number no greater than the bound, on the numbers themselves; nothing found, NaN on either side and a bound of minus infinity refuse |
| `AskCache.HigherBoundKeepsAnswers` | src/ask/ask.service.ts:97-104 | raising the bound never turns an answer into a refusal |
| `AskCache.VersionsAgree` | src/common/cache/corpus-version.ts:33-44 | two states of one run render the same version exactly if they have the same corpus |
| `AskCache.HitNeverOlder` | src/ask/ask.service.ts:106-172 | a hit was answered for the same words, and the same configuration where its fingerprint is its own, by a request that read its version on the corpus this one read its version on and retrieved only afterwards; that is still the corpus at the lookup exactly if the version still holds |
| `AskCache.HitIsCurrentIff` | src/ask/ask.service.ts:166-172 | the answer rests on the corpus the hit read its version on if and only if that version held when each of the answer's two queries ran |
| `AskCache.HitIsFresh` | src/ask/ask.service.ts:97-172 | and then refusal or citations are what retrieval comes to on that corpus |
| `AskRace.NewerAnswerFiledUnderOlderVersion` | src/ask/ask.service.ts:97-172 | a run in which that fails: an answer from a newer corpus, served when the older version returns although nothing is stored any more |
| `AskRace.RaceIsIngestion` | src/ingestion/ingestion.service.ts:123-301 | and its writes are those of one whole ingestion run and a removal, the lease kept and no stray claim |
| `AskIngestion.HitRestsOnWholeSources` | src/ask/ask.service.ts:106-172 | with ingestion itself as the writer, every source behind a served answer, where its queries saw it and where it is served, holds exactly what the run that had marked it ready in that very state of the protocol chose to store |
| `AskService.Service.CachedLookup` | src/ask/ask.service.ts:166-172 | reads the version once and looks up its key; a hit is a hit of the protocol |
| `AskService.Service.RetrieveGrounded` | src/ask/ask.service.ts:97-104 | the two queries run in either order, each on the rows of its moment; grounded exactly if the nearest distance is within the bound; NaN refuses |
| `AskService.Service.Record` | src/ask/ask.repository.ts:51-101 | query, answer, citations and ledger row together or not at all |
| `AskService.Service.Persist` | src/ask/ask.service.ts:403-423 | stored once, without citations only if they do not resolve; failures stay inside |
| `AskService.Service.WriteCache` | src/ask/ask.service.ts:286-302 | writes under the version it is handed and nothing else |
| `AskService.Service.AnswerMiss` | src/ask/ask.service.ts:119-152 | a miss answers from what its queries found and files the answer under the version handed to it |
| `AskService.Service.Ask` | src/ask/ask.service.ts:106-153 | without a version the request fails and leaves no trace; a failing search leaves no answer and no entry; a hit changes no cache entry and costs nothing; a miss is filed under the version of the state the request started from, whatever was written since |
| `AskService.HitsAreFree` | src/ask/ask.service.ts:314-329 | recording hits leaves the total spent unchanged and stores no citation that does not resolve |
| `AskService.WhatIsRecorded` | src/ask/ask.service.ts:314-369 | a refusal is stored ungrounded, without model and ledger row; an answer with provider, model and reason each in its column, its text unless empty, and at a hit a ledger row of no cost |
| `AskService.MissComesTo` | src/ask/ask.service.ts:106-153 | a miss by the nearest distance: too far or nothing found refuses at no cost whatever the model would say; otherwise the model's answer and its cost, or none if every provider failed |
| `Router.Stream.CallNext` | src/llm/llm.router.ts:100-153 | one next() on the generator |
| `Router.Stream.Start` | src/llm/llm.router.ts:103-124 | the loop over the links up to the first delta |
| `Router.Stream.CallReturn` | src/llm/llm.router.ts:138-150 | return() closes the link in use; before the start it opens nothing |
| `Router.Complete` | src/llm/llm.router.ts:62-75 | first success with its reason, or one error joining all |
| `Router.NeverSplicesAlwaysCloses` | src/llm/llm.router.ts:92-179 | over every run of next and return calls: a prefix of the first answering link's output, links opened in order and at most once, every opened link closed exactly once at the end, "primary" exactly for the first link, and otherwise the failure of the link before as the reason |
| `Router.WholeAnswer` | src/llm/llm.router.ts:103-152 | pulled to the end, the caller gets the whole answer with the peeked delta once, then that link's own ending, never a retry |
| `Router.EveryProviderFailed` | src/llm/llm.router.ts:103-155 | if every peek fails, one error names all failures and every link was closed |
| `Router.OpeningThrows` | src/llm/llm.router.ts:103-110 | an error in opening a link reaches the caller as it is; no later link is opened and every opened one was closed |
| `Router.OverStaysOver` | src/llm/llm.router.ts:103-152 | once the generator is over no call opens, closes or gives anything |
| `Router.ReturnEnds` | src/llm/llm.router.ts:138-150 | a return ends it and gives nothing |
| `Throttler.Storage.ThrottleIncrement` | src/common/throttling/redis-throttler.storage.ts:116-124 | the Lua script: count, remaining time, expiry set only when missing |
| `Throttler.Storage.Increment` | src/common/throttling/redis-throttler.storage.ts:177-214 | the record, or the open record when no answer comes back; the wait is the fewest whole seconds that cover the time left, never zero |
| `Throttler.ExpiryRules` | src/common/throttling/redis-throttler.storage.ts:116-124 | a live expiry is never moved; a counter without one regains it at its next hit; an expired one starts again |
| `Throttler.NoTimeLeftIff` | src/common/throttling/redis-throttler.storage.ts:192-198 | after any hits of a window the next one is answered with no time left exactly if it comes at the instant the window ends and a key is still shown then |
| `Throttler.FixedWindowBound` | src/common/throttling/redis-throttler.storage.ts:116-200 | in any interval as long as the window at most 2·limit − 1 requests for a key are let through, whatever happens on it and other keys before |
| `Throttler.BoundIsMet` | src/common/throttling/redis-throttler.storage.ts:116-200 | and that many can be |
| `Throttler.WindowNumbersHits` | src/common/throttling/redis-throttler.storage.ts:116-200 | within one window exactly the first limit hits on the key are let through |
| `Rrf.FuseByRrf` | src/retrieval/rrf.ts:17-48 | the nested loops and the sort compute the fusion the lemmas are about |
| `Rrf.AddArm` | src/retrieval/rrf.ts:24-35 | one arm added to the score and payload maps |
| `Rrf.AddOne` | src/retrieval/rrf.ts:25-34 | one chunk added: sum, order of first report, first payload |
| `StableSort.SortShape` | src/retrieval/rrf.ts:45-47 | sorting different items gives each once, by the comparator and, where it does not decide, in their old order |
| `Rrf.FusedShape` | src/retrieval/rrf.ts:24-47 | each id once, exact sum, first payload, by falling score and first report among equals |
| `Rrf.DominantFirst` | src/retrieval/rrf.ts:17-48 | a chunk ahead of another in every arm listing that other comes out ahead |
| `Rrf.EmptyArmKeepsOrder` | src/retrieval/rrf.ts:11-14 | an empty arm leaves the other arm as it is |
| `Rrf.BothFirstIff` | src/retrieval/rrf.ts:17-48 | for arms of m and n chunks, chunks of both always precede chunks of one if and only if two last ranks outweigh one first rank |
| `Rrf.ShortArmsAreFine` | src/retrieval/rrf.ts:17-48 | that holds up to k+1 chunks in each arm and fails at k+2 |
| `JsonLogger.Replacer.Replace` | src/common/logging/json.logger.ts:355-373 | popping above the holder leaves exactly the current path; cut exactly if the target is on it |
| `JsonLogger.Serialize` | src/common/logging/json.logger.ts:316-318 | the walk with one mutable stack writes what the walk by explicit path writes, and terminates |
| `JsonLogger.SerializeFields` | src/common/logging/json.logger.ts:350-374 | the same for the fields of an object, in order |
| `JsonLogger.SafeStringify` | src/common/logging/json.logger.ts:316-328 | every record gives a line: the record as walked, or the fallback with its time stamp, context, request and the first error met |
| `JsonLogger.MarkerIffCycle` | src/common/logging/json.logger.ts:330-374 | the marker appears exactly if a cycle is reachable; otherwise, if nothing throws, every reference, shared or not, is written out in full |
| `JsonLogger.FallbackIff` | src/common/logging/json.logger.ts:316-328 | the fallback line appears exactly if a value that throws is reachable, in a cycle or not |
| `JsonLogger.WalkSpells` | src/common/logging/json.logger.ts:330-374 | what is written is everything, cut exactly at references to objects on their own path |
| `JsonLogger.FirstErrorIsFirst` | src/common/logging/json.logger.ts:316-328 | the error reported is that of the first field that has one |
| `JsonLogger.IntTextReads` | src/common/logging/json.logger.ts:350-354 | a big integer can be read back from what is written |
| `Placeholders.LiftAll` | src/ingestion/markdown-cleaner.ts:159-168 | replacing every match by an index token while pushing it |
| `Placeholders.LiftIsClean` | src/ingestion/markdown-cleaner.ts:157-168 | putting every lifted span back gives the text |
| `Placeholders.RestoreFlat` | src/ingestion/markdown-cleaner.ts:175-180 | restoring replaces every token by its own body and touches nothing else |
| `Placeholders.SafeCut` | src/ingestion/html-table.ts:23-32 | a cut beside a character no token contains never falls inside a token |
| `Placeholders.PlaceholderIdentity` | src/ingestion/html-table.ts:139-169 | after any edits at such places each surviving token becomes the body of the span that created it |
| `Placeholders.DeletionsKeepTheRest` | src/ingestion/markdown-cleaner.ts:171-180 | after deletions with angle-bracket edges the items that show what is left are some of the old ones, in order, every token as its own body |
| `Placeholders.FlatInjective` | src/ingestion/html-table.ts:139-169 | a text shows at most one list of characters and tokens, so what survives in it is determined |
| `Leftmost.LiftIs` | src/ingestion/markdown-cleaner.ts:159-169 | lifting takes out all the matches in order: whole, one behind the other, and nothing that is kept starts one |
| `Leftmost.RewriteIs` | src/ingestion/html-table.ts:147-159 | a global replace puts something in for exactly these matches |
| `Leftmost.MatchesAreDetermined` | src/ingestion/markdown-cleaner.ts:159-173 | a text has one such list of matches only |
| `MarkdownCleaner.StripDecorativeMarkup` | src/ingestion/markdown-cleaner.ts:152-181 | fences lifted, inline code lifted, figures and components deleted, spans restored |
| `MarkdownCleaner.LiftInline` | src/ingestion/markdown-cleaner.ts:168-169 | inline spans are found between the fence tokens as on the flat text |
| `MarkdownCleaner.RoundTripIff` | src/ingestion/markdown-cleaner.ts:152-181 | restoring what was lifted gives the text back if and only if no inline span encloses a fence |
| `MarkdownCleaner.SpanAroundFence` | src/ingestion/markdown-cleaner.ts:152-181 | a text with such a span, which does not come back |
| `MarkdownCleaner.UndecoratedIsCuts` | src/ingestion/markdown-cleaner.ts:171-173 | deleting figures and components is a row of deletions with angle-bracket edges |
| `MarkdownCleaner.DeletionsKeepCode` | src/ingestion/markdown-cleaner.ts:152-181 | once figures and components are deleted, the code in the text that is left stands in order as itself; no placeholder is left if no inline span encloses a fence |
| `Decoration.FigureIff` | src/ingestion/markdown-cleaner.ts:12 | a figure is what lies from its opening tag to the first closing tag |
| `Decoration.ComponentIff` | src/ingestion/markdown-cleaner.ts:11 | a component is a name behind its opening and what lies up to the first closing tag or slash and bracket |
| `Decoration.FenceIff` | src/ingestion/markdown-cleaner.ts:17 | a fence runs to the next three backticks |
| `Decoration.InlineIff` | src/ingestion/markdown-cleaner.ts:18 | an inline span runs to the next backtick of its line |
| `Decoration.DecorationIs` | src/ingestion/markdown-cleaner.ts:171-173 | all the figures go, then all the components there are then, and nothing else |
| `Decoration.PlainTextStays` | src/ingestion/markdown-cleaner.ts:152-181 | text that starts neither markup nor code is kept |
| `Decoration.FigureGoes` | src/ingestion/markdown-cleaner.ts:152-181 | a figure goes with what is in it, whatever follows |
| `Decoration.ComponentGoes` | src/ingestion/markdown-cleaner.ts:152-181 | so does a component with a closing tag |
| `Decoration.ClosedComponentGoes` | src/ingestion/markdown-cleaner.ts:152-181 | and one that closes itself |
| `Decoration.NothingToStrip` | src/ingestion/markdown-cleaner.ts:152-181 | a text with neither outside code comes out as it was if and only if no inline span encloses a fence |
| `Decoration.CodeStays` | src/ingestion/markdown-cleaner.ts:152-181 | a code span or fence is kept whatever it holds |
| `HtmlCell.LinkShape` | src/ingestion/html-table.ts:42-45 | a link as found: its text and its address lie inside the match, the address before the text, both between characters no placeholder contains |
| `HtmlCell.RewriteItems` | src/ingestion/html-table.ts:149-169 | a replacement that keeps one stretch of each match between such characters leaves placeholders whole, some of them, in order |
| `HtmlCell.LinkItems` | src/ingestion/html-table.ts:149 | rewriting links duplicates and breaks no placeholder, and keeps their order if and only if no link has one in its address and one in its text |
| `HtmlCell.CellFits` | src/ingestion/html-table.ts:127-170 | a rendered cell has no line break and every pipe in it is escaped, whatever the cell held |
| `HtmlCell.EscapedPipe` | src/ingestion/html-table.ts:159 | one backslash before every pipe and nothing else |
| `HtmlCell.CellKeepsCode` | src/ingestion/html-table.ts:127-170 | the text just before the lookup has one reading as characters and placeholders, the lookup spells that reading with each placeholder as its own code span, no span comes out twice, and only a link with spans in address and text puts two out of order |
| `HtmlCell.CellKeepsOrder` | src/ingestion/html-table.ts:127-170 | without such a link the surviving spans stand in their old order; with one, later steps may still drop a span of it, so only the link step has an exact condition |
| `Entities.EntitiesDecode` | src/ingestion/html-table.ts:186-195 | what becomes of each entity, of a stray ampersand and of other text, from the front of any text |
| `Entities.DecodedOnceIff` | src/ingestion/html-table.ts:186-195 | every entity is decoded once if and only if no `&amp;` stands before `quot;` |
| `CellParts.RenderedByParts` | src/ingestion/html-table.ts:127-184 | a cell of any words, emphasis, breaks, links, code, entities and other tags is rendered part by part, every pipe escaped, if that leaves single spaces only |
| `CrossedLink.AddressIs` | src/ingestion/html-table.ts:44 | the address behind `href`, in either kind of quotes or bare, with white space around the sign |
| `CrossedLink.LongerNameIsNoLink` | src/ingestion/html-table.ts:42 | a tag whose name goes on after the a is no link |
| `CrossedLink.NoAddressNoLink` | src/ingestion/html-table.ts:172-179 | an anchor without an address is its text |
| `CrossedLink.SpansSwap` | src/ingestion/html-table.ts:127-184 | for any two lower-case words a cell with such a link, rendered with its two spans swapped |
| `HtmlTable.ParseRows` | src/ingestion/html-table.ts:91-125 | rows with at least one cell as the two patterns find them, header if any cell is one |
| `TableParts.TableIsRead` | src/ingestion/html-table.ts:91-125 | from any rows and cells, whatever their attributes, whether cells are closed or not and whatever stands between rows: one row for each that has cells, in order, its cells rendered, a header if any cell is one |
| `TableParts.UnreadableStays` | src/ingestion/html-table.ts:63-74 | what holds no row is returned as it is |
| `HtmlTable.ListShape` | src/ingestion/html-table.ts:76-80 | without a header row one line per row, in order, its cells joined by dashes |
| `HtmlTable.ConvertedShape` | src/ingestion/html-table.ts:69-89 | with one, the first header row, the dashes and then every row that is no header, in order, each a newline-free pipe row; a line for every row and one for the dashes exactly if there is just one header row |
| `HtmlTable.SecondHeaderIsLost` | src/ingestion/html-table.ts:76-88 | a table whose second header row leaves no trace, whatever it holds |
| `HtmlTable.RowReadsBack` | src/ingestion/html-table.ts:80-88 | cutting the converted lines at unescaped pipes gives back exactly the cells of those rows, and the dashes |
| `HtmlTable.ConvertedTableStaysWhole` | src/ingestion/chunker.ts:498-538 | a converted table that starts a run is never cut by the chunker while its total stays within the bound |
| `LlmChain.ParseLlmChain` | src/llm/llm-chain.ts:8-56 | the checks in order and the seen-set loop |
| `LlmChain.LinkOfSegment` | src/llm/llm-chain.ts:26-45 | a segment reads as a link exactly if it says that valid link, white space aside |
| `LlmChain.ParseIff` | src/llm/llm-chain.ts:8-56 | accepted exactly are the comma-separated texts of distinct valid links, and as those links |
| `LlmChain.RoundTrip` | src/llm/llm-chain.ts:8-56 | parsing the rendering of a valid list returns it, colons in models included |
| `LlmChain.RenderIsFixedPoint` | src/llm/llm-chain.ts:8-56 | rendering and reparsing a successful parse changes nothing |
| `LlmChain.EntryReads` | src/llm/llm-chain.ts:26-45 | what one entry comes to, by the text before and behind its first colon, the two providers by name |
| `LlmChain.ErrorIs` | src/llm/llm-chain.ts:8-56 | which error is reported for every text that is refused, and for which entry |
| `Embeddings.Embed` | src/embeddings/openai-embeddings.provider.ts:21-50 | the batch loop, stopping at the first failed or incomplete response |
| `Embeddings.Push` | src/embeddings/openai-embeddings.provider.ts:45-47 | the inner loop |
| `Embeddings.FirstProblem` | src/embeddings/openai-embeddings.provider.ts:33-37 | the first batch that goes wrong decides the error |
| `Embeddings.EmbedsInOrder` | src/embeddings/openai-embeddings.provider.ts:21-50 | for any number of texts and any order within each response result i is the vector of text i |
| `Embeddings.BatchesOfHundred` | src/embeddings/openai-embeddings.provider.ts:24-25 | the batches are the texts in order, a hundred each but for the last |
| `Embeddings.AllOrNothing` | src/embeddings/openai-embeddings.provider.ts:21-50 | vectors come back exactly if every call succeeds with as many as it was given texts; otherwise the first batch that goes wrong says how |

## Left out

- Strings are sequences of code points; what JavaScript does with lone surrogates and UTF-16 lengths is not modelled.
- Ingestion.AtMostOneLiveRun: rests on the hypothesis that every live run's row is written within the lease (`Lease.LeaseKeptIff`); the timers that are to ensure it, and the time before the first heartbeat while a source is being fetched, are not modelled.
- Ingestion.ReadyIsWhole: rests on the same hypothesis.
- CorpusVersion.VersionIdentifiesCorpus: stamps are whole numbers; that a JavaScript date keeps only milliseconds of a stamp is not modelled, two commits within one millisecond are taken to render differently.
- AskCache.HitIsFresh: the embedding is the one the entry was made with, because the embedding cache may hold the vector of a differently spaced question; and the search limits are those of every process, as the fingerprint does not cover them.
- AskService.Service.Ask: prices of fresh answers are a parameter.
- AskService.Service.AnswerMiss: the streaming path, which does the same steps in the same order around a different transport, is not written out separately.
- IngestionService.Service.RunPipeline: that no other run writes to the same row meanwhile is what `ingestion` proves under its lease, and a hypothesis here.
- Router.NeverSplicesAlwaysCloses: a close that fails or times out counts as a close; `throw()` on the generator, which no caller uses, is not modelled.
- Throttler.FixedWindowBound: counts requests the limiter answered; requests let through unanswered are outside any bound, and eviction of a counter is not modelled.
- Rrf.FusedShape: exact reals; rounding of the sums is not modelled.
- JsonLogger.SafeStringify: a `toJSON` that returns is modelled by what it returns.
- The line loop of `cleanMarkdown` with its filename and switch directives, and the order of text when a fence sits inside an open table.
- Cost calculation, prompts, error descriptions, configuration loading, controllers, health checks, fetching and globbing of sources, vector encodings, SQL text and search ranking.
