# Verified model of the PDF ingestion layer

This project models the parts of the ingestion service that decide what a document's data is and who may work on
it, and proves what they promise. It is plain Dafny 4.11; `dafny verify dfyconfig.toml` checks all of it.

- **Learning templates.** `Templates`, `TemplateSynthesis`, `TemplateStore` and `Router` follow one document
  through header scoring, field and table extraction, template synthesis with self-verification, the per-tenant
  store and the lookup under a theme. `LearnLock` is the layout signature and the lock table. `HerdProtocol` puts
  them together: any number of runs, interleaved step by step, over one store and one lock table.
- **Durable job queue.** `JobQueue` is the two tables with one transaction a step, the claim statement and the
  worker's decision about a job. `QueueProtocol` runs any number of workers over it, with crashes and time.
- **Windowed extraction.** `ChunkedExtractor` and `WindowedExtraction` compare overlapping windows and their
  deduplicating merge with a single pass. `TargetPages` is the choice of pages for missing fields. `LlmExtractor`
  is the three-page windows of whole-document extraction and the merge of their tables by header.
- **Check digits and balances.** `CheckDigits` (IBAN: ISO 13616, MOD 97-10 of ISO/IEC 7064), `Luhn` (ISO/IEC
  7812-1 Annex B, and ISIN on it) and `Balances` (running balance and reconciliation).
- **Document assembly.** `ReadingOrder` (recursive XY-cut), `TableMerging` (stitching and continuation merging),
  `Segmenter` (sections and their text slices) and `AccountMerge` (deduplicating accounts).
- **Alerts and breakers.** `AlertEngine` (rule states against the alert history, with requests running in between)
  and `CircuitBreaker` (every run of a breaker, the OCR client's cache, the language model's two attempts).

Code that updates state step by step is a class or a method with loops, proved equal to a function of its inputs
or old state; the properties are lemmas about those functions. The three protocols (herd, queue, alerts) are state
machines whose steps are those same functions, and their theorems are about every run.

## Where the code and its own description differ

The model follows the code. Each difference is a lemma with its exact condition or with an input that shows it.

- A verified table anchor extracts rows if and only if the first best-scoring table has a row that is a list
  (`VerifiedTableHasRowsIff`). Verification asks only for a row of any kind in any table whose header is close
  enough, so rows that are no lists (`RowThatIsNoListIsLost`) and an empty table scoring as well as a later one
  (`EmptyTableHidesRows`) are verified and extract nothing.
- Two documents have one layout signature if and only if their themes and their joint lists of header lines and
  texts agree (`SharedSignatureIff`): where the headers end is not part of it (`HeadersAndTextConflated`), nor where
  a cell ends (`ColumnsConflated`). With equally many header rows and no cell separator in a cell, structure is told
  apart (`SameStructureIff`).
- `max_attempts` is only consulted when a pipeline raises: in a timely run a job is executed more often if and only
  if it was claimed after one of its executions crashed on the last permitted attempt or later
  (`ExecutionsExceedIff`), and that can go on without limit (`CrashesAreUnbounded`).
- Outcomes carry no claim token: a finished row is final if and only if no live execution holds its job
  (`FinalIff`). So a worker that outlasts the stale limit can reopen a job that is complete and has lost its payload
  (`OverrunReopensCompletedJob`).
- The window merge is the single pass exactly when no non-zero key repeats and no zero amount lies in an overlap,
  or at most one window succeeded (`WindowingRefinesSinglePass`); otherwise an amount can be doubled or lost
  (`SharedZeroIsDoubled`, `RepeatedKeyIsLost`).
- An unknown field on a one-page document is sent to pages the document does not have (`TargetsComplete`).
- A clean running-balance chain from the opening to the closing balance is sure to pass the reconciliation check
  only for a single transaction (`CleanChainSurelyReconcilesIff`): the tolerance adds up along the chain.
- Stitching measures every later part against the first: tables become one if and only if all the others have the
  first one's headers and stand on the page after it (`StitchedIntoOneIff`). A table continued over n pages stays in
  (n + 1) / 2 pieces (`LongTablesNeedContinuation`), which the continuation pass puts together.
- The continuation pass after the header merge fuses neighbours whose header cells are all empty, and changes
  nothing else (`ContinuationIsNoOpIff`, `BlankHeadersAreFused`).
- A change of statement type starts a new section if and only if the two pages are neighbours and both score above
  0.02 (`TypeChangeSplitsIff`); unknown pages between them hide it, and so does a faint page on either side.
- An account without identifier shares its key with another input exactly when some input is literally numbered so
  (`UnidentifiedSharesIff`, `LiteralNameTakesItIn`).
- The first value of an account's field survives the merge if and only if it is truthy, or no entry of the account has
  a truthy one and the last that is not null is the same (`FirstValueKeptIff`). So an opening or closing balance of
  zero is replaced by a later one, be it an empty string (`ZeroBalanceIsReplaced`).
- A page in one column is read from top to bottom if and only if every cut the recursion makes agrees with that order
  (`OneColumnIsPlainSortIff`). A list of two or three coordinates can break it: it is cut at the origin and sorted by
  what it says (`ShortListIsMisplaced`).
- A disabled polled rule still changes state if and only if the engine was waiting for its job counts and these say so
  (`DisabledRuleMovesIff`).
- A breaker rule can fire again while firing (`CircuitRuleFiresWhileFiring`), and a recovery can be recorded before
  the firing it ends (`OverlapLeavesEntry`). A rule never has two unresolved entries if and only if no firing
  follows a firing without a recovery between them (`AtMostOneIff`). A breaker rule's history agrees with its state if
  and only if the most that any ending of its recorded events fires beyond recovering is one when the last event
  tripped it, and none otherwise (`BreakerHistoryMatchesStateIff`).
- The language model's breaker is closed if and only if the failures recorded since the last answer are below the
  threshold (`ClientBreakerClosedIff`). A client that cannot be built raises again in the `except` clause, so its
  failures are not recorded and never open the breaker (`UnbuildableClientNeverOpens`).
- `half_open` admits any number of calls until one of them reports (`HalfOpenAdmitsAll`).
- An IBAN whose digit string is longer than 4300 digits is refused whatever its check digits: Python 3.11 does not
  convert such a string (`ExactlyOneCheckPair` states the condition).

## Model

| member | source | states |
|---|---|---|
| Templates.HeaderMatchScore | pdf_ingestion/pipeline/schemas/base.py:398-419 | the extractor's nested loops give, on every input, the score the template extractor computes separately by comprehension |
| Templates.HeadersCloseIff | pdf_ingestion/pipeline/schemas/template_extractor.py:25-32 | two headers are close if and only if, without case and outer blanks, one occurs in the other |
| Text.StripMeaning | pdf_ingestion/pipeline/schemas/template_extractor.py:29-30 | stripping takes the blanks off both ends and no more |
| Text.LowerMeaning | pdf_ingestion/pipeline/schemas/template_extractor.py:29-30 | lowering changes the capitals and nothing else |
| Templates.AcceptedIff | pdf_ingestion/pipeline/schemas/template_extractor.py:25-47 | a table is accepted if and only if it has headers and at least three in five of the expected ones are close to one of them |
| Templates.StitchTableRows | pdf_ingestion/pipeline/schemas/template_extractor.py:35-47 | stitching returns the rows of exactly the tables scoring at least 0.6, in document order |
| Templates.StitchedRowsSource | pdf_ingestion/pipeline/schemas/template_extractor.py:35-47 | stitching finds a row if and only if some accepted table has one |
| Templates.StitchedInOrder | pdf_ingestion/pipeline/schemas/template_extractor.py:35-47 | the rows of earlier tables come before those of later ones |
| Templates.ExtractTableByHeader | pdf_ingestion/pipeline/schemas/base.py:191-272 | the best-score loop returns the first table with the highest score when it reaches 0.6, and abstains otherwise |
| Templates.BestMatchIsMaximal | pdf_ingestion/pipeline/schemas/base.py:214-240 | the table chosen is in the document, has headers, and no table scores higher |
| Templates.LookupAgreesWithStitch | pdf_ingestion/pipeline/schemas/template_extractor.py:25-47 | the lookup finds a table if and only if stitching with the same signature accepts one |
| Templates.FoundTableMeaning | pdf_ingestion/pipeline/schemas/base.py:214-262 | a found table has the headers, the kept rows and the id of the first of the tables with most close headers |
| Templates.MissingTableMeaning | pdf_ingestion/pipeline/schemas/base.py:264-272 | without an accepted table the abstention names the table type |
| Templates.KeptRowsMeaning | pdf_ingestion/pipeline/schemas/base.py:248-251 | rows that are lists are kept in order, others dropped |
| Templates.AnchorMeaning | pdf_ingestion/pipeline/schemas/base.py:126-190 | one anchor finds its value pattern, grouped after its label pattern, on the first line it matches: text, normalised value and page are that line's; it abstains if and only if no line matches |
| Templates.Extract | pdf_ingestion/pipeline/schemas/template_extractor.py:133-154 | extraction runs all field anchors, then all table anchors, collecting fields, tables and abstentions; a normaliser that raises, a pattern that does not compile and a group that took no part escape |
| Templates.UnderscoredMeaning | pdf_ingestion/pipeline/schemas/template_extractor.py:81-86 | the parts of a fingerprint are lowered, stripped, and have underscores for blanks |
| Templates.FieldsOfBoth | pdf_ingestion/pipeline/schemas/template_extractor.py:133-143 | more anchors only add: abstentions in anchor order, fields by name, the later anchor winning |
| Templates.FieldOfOne | pdf_ingestion/pipeline/schemas/template_extractor.py:133-143 | one field anchor gives its field, its abstention or an exception |
| Templates.TablesAfterFields | pdf_ingestion/pipeline/schemas/template_extractor.py:145-152 | tables come in anchor order, and table abstentions after those of fields |
| TemplateSynthesis.SolveField | pdf_ingestion/pipeline/discovery/template_synthesis.py:110-129 | the candidate loop keeps the first candidate whose one-anchor probe gives the VLM's value |
| TemplateSynthesis.TriedIff | pdf_ingestion/pipeline/discovery/template_synthesis.py:60-73 | a field is tried if and only if the VLM gave it a value that stands on some line |
| TemplateSynthesis.LabelMeaning | pdf_ingestion/pipeline/discovery/template_synthesis.py:60-76 | its label is the last four words before the value on the first line that holds it |
| TemplateSynthesis.LabelPatternOfTwo | pdf_ingestion/pipeline/discovery/template_synthesis.py:79-84 | a label is matched word by word with any blanks between, an empty one at the start of the line |
| TemplateSynthesis.ShapesTried | pdf_ingestion/pipeline/discovery/template_synthesis.py:41-57 | IBAN, amount, date and currency are tried when the value has that shape, in this order, and any text at the end |
| TemplateSynthesis.CandidateMeaning | pdf_ingestion/pipeline/discovery/template_synthesis.py:104-118 | each candidate is required, for this field, after the value's label |
| TemplateSynthesis.FirstSolidWins | pdf_ingestion/pipeline/discovery/template_synthesis.py:110-129 | the anchor kept is the first candidate that reproduces the value |
| TemplateSynthesis.KeptAnchorReproduces | pdf_ingestion/pipeline/discovery/template_synthesis.py:110-129 | a kept anchor reproduces the VLM's value on its own; none is kept only if no candidate does |
| TemplateSynthesis.VerifyTables | pdf_ingestion/pipeline/discovery/template_synthesis.py:131-149 | a table anchor is kept exactly for VLM tables with headers whose signature stitches a row |
| TemplateSynthesis.SynthesiseTemplate | pdf_ingestion/pipeline/discovery/template_synthesis.py:87-161 | a returned template extracts from its own document with no abstention, at least one field or table, and fields equal to the VLM's |
| TemplateSynthesis.SynthesisIsFaithful | pdf_ingestion/pipeline/discovery/template_synthesis.py:1-29 | self-verification is sound: the same, for every text engine, document and VLM result |
| TemplateSynthesis.NothingLearnedIff | pdf_ingestion/pipeline/discovery/template_synthesis.py:151-153 | nothing is learned if and only if no field has a candidate that reproduces and no reported table stitches a row |
| TemplateSynthesis.LearnedSays | pdf_ingestion/pipeline/discovery/template_synthesis.py:131-161 | the template names theme, type, institution and fingerprint, is marked discovered, and keeps type, headers and amount column of reported tables |
| TemplateSynthesis.TablesInOrder | pdf_ingestion/pipeline/discovery/template_synthesis.py:131-149 | table anchors come in the order of the reported tables |
| TemplateSynthesis.VerifiedTableHasRowsIff | pdf_ingestion/pipeline/discovery/template_synthesis.py:148-149 | a verified table anchor finds a table, and extracts rows if and only if the first best-scoring table has a row that is a list |
| TemplateSynthesis.RowThatIsNoListIsLost | pdf_ingestion/pipeline/schemas/base.py:242-272 | one table whose only row is no list is verified and extracted without rows |
| TemplateSynthesis.EmptyTableHidesRows | pdf_ingestion/pipeline/schemas/base.py:214-240 | an empty table before one with the same header and a row is verified and extracted without rows |
| TemplateStore.TemplateStore.Save | pdf_ingestion/pipeline/schemas/template_store.py:90-103 | a save overwrites in place with the version bumped, or appends; it lifts the key's quarantine |
| TemplateStore.TemplateStore.Quarantine | pdf_ingestion/pipeline/schemas/template_store.py:84-88 | a quarantine adds the tenant's key and changes no entry |
| TemplateStore.TemplateStore.FindInTheme | pdf_ingestion/pipeline/schemas/template_store.py:76-82 | the lookup returns the visible templates in store order |
| TemplateStore.InThemeMembers | pdf_ingestion/pipeline/schemas/template_store.py:76-82 | a template is returned if and only if it is the tenant's or global, of the theme, and not quarantined for the tenant |
| TemplateStore.LookupIff | pdf_ingestion/pipeline/schemas/template_store.py:76-82 | the same in full: this theme, the tenant's or global, and not quarantined by the tenant |
| TemplateStore.LookupInOrder | pdf_ingestion/pipeline/schemas/template_store.py:76-82 | in store order |
| TemplateStore.SaveMeaning | pdf_ingestion/pipeline/schemas/template_store.py:90-103 | the first save of a key adds the template at the end, a further one replaces it in place one version up; no other entry or quarantine changes |
| TemplateStore.QuarantineMeaning | pdf_ingestion/pipeline/schemas/template_store.py:84-88 | a quarantine adds this tenant and key and nothing else |
| TemplateStore.SavedIsVisible | pdf_ingestion/pipeline/schemas/template_store.py:90-103 | a template is visible to its tenant right after its save, whatever was quarantined |
| TemplateStore.ForeignSaveUnseen | pdf_ingestion/pipeline/schemas/template_store.py:76-103 | a tenant's save, unless global, changes no other tenant's lookup |
| TemplateStore.ForeignQuarantineUnseen | pdf_ingestion/pipeline/schemas/template_store.py:76-88 | a quarantine changes no other tenant's lookup |
| Router.TryThemeTemplates | pdf_ingestion/pipeline/schemas/router.py:538-561 | the loop returns the first best clean extraction among the theme's templates, and lets an exception escape |
| Router.AttemptMeaning | pdf_ingestion/pipeline/schemas/router.py:544-549 | a hit is clean and unbeaten; a miss means no template extracts cleanly; a crash means some template raises |
| Router.FirstBestWins | pdf_ingestion/pipeline/schemas/router.py:551-561 | of templates that extract equally much the first wins |
| LearnLock.ComputeLayoutSignature | pdf_ingestion/pipeline/schemas/learn_lock.py:38-63 | the signature hashes the theme, the table headers and the first forty non-blank block texts, in order |
| LearnLock.SharedSignatureIff | pdf_ingestion/pipeline/schemas/learn_lock.py:38-63 | for an injective hash and parts free of the separator, signatures agree if and only if themes agree and header lines followed by texts do |
| LearnLock.SameStructureIff | pdf_ingestion/pipeline/schemas/learn_lock.py:41-44 | with equally many header rows and no cell separator in a cell, they agree if and only if theme, header rows and texts do |
| LearnLock.HeadersAndTextConflated | pdf_ingestion/pipeline/schemas/learn_lock.py:41-44 | the first condition is needed: a one-column table and a text line with its wording collide under every hash |
| LearnLock.ColumnsConflated | pdf_ingestion/pipeline/schemas/learn_lock.py:47-50 | the second is needed: one column and two columns collide under every hash |
| LearnLock.FirstFortyCount | pdf_ingestion/pipeline/schemas/learn_lock.py:52-60 | after forty texts that are not blank nothing counts, up to there each one more changes the signature |
| LearnLock.HeaderLine | pdf_ingestion/pipeline/schemas/learn_lock.py:47-50 | a table with headers gives one line of stripped, lowered cells with bars between; one without gives none |
| LearnLock.KeysApart | pdf_ingestion/pipeline/schemas/learn_lock.py:84-87 | keys agree if and only if tenant and signature do, for signatures without a colon |
| LearnLock.LearnLock.LockFor | pdf_ingestion/pipeline/schemas/learn_lock.py:76-82 | a key gets one lock, on first use, and keeps it |
| LearnLock.LockMeaning | pdf_ingestion/pipeline/schemas/learn_lock.py:76-82 | a new key gets a lock no other key has, and no lock given out changes |
| HerdProtocol.LearnedIsFound | pdf_ingestion/pipeline/schemas/router.py:513-519 | the sequential core: right after a document's template is saved, a lookup for the document does not miss |
| HerdProtocol.FirstLookupAnswers | pdf_ingestion/pipeline/schemas/router.py:334-372 | a run whose first lookup meets a usable template that extracts cleanly, and none that raises, ends with the best such hit before any lock; without one it goes on if and only if the tenant may use the VLM, and else ends unknown |
| HerdProtocol.SecondLookupAnswers | pdf_ingestion/pipeline/schemas/router.py:465-478 | inside the lock the same decides between leaving with the best hit and discovering |
| HerdProtocol.DiscoveryAnswers | pdf_ingestion/pipeline/schemas/router.py:479-482 | a discovery is marked saved if and only if synthesis returned a template, which then is stored for this document |
| HerdProtocol.StepsOfARun | pdf_ingestion/pipeline/schemas/router.py:463-465 | arriving, taking, entering and leaving the lock move one run on and touch neither store nor history |
| HerdProtocol.DecidedStays | pdf_ingestion/pipeline/schemas/router.py:463-482 | in every continuation a run finishes with the result decided inside the lock, and a finished run stays as it is |
| HerdProtocol.LockInvStep | pdf_ingestion/pipeline/schemas/learn_lock.py:84-93 | every step keeps: one lock per key, and whoever is inside it is its recorded holder |
| HerdProtocol.HerdInvStep | pdf_ingestion/pipeline/schemas/router.py:443-482 | every step keeps the herd invariant: an undisturbed learned template is found, and no run of its document is discovering |
| HerdProtocol.MutualExclusion | pdf_ingestion/pipeline/schemas/learn_lock.py:66-93 | in every run at most one run per (tenant, layout) key is inside the lock |
| HerdProtocol.HerdCollapse | pdf_ingestion/pipeline/schemas/router.py:458-464 | in every run the saving discoveries of one document and tenant number exactly the quarantines and overwritings of its learned template, plus one while it is fresh |
| HerdProtocol.HerdOfCopies | pdf_ingestion/pipeline/schemas/router.py:458-464 | when only copies of one document arrive, at most one more than the quarantines |
| HerdProtocol.OneRunPerLayout | pdf_ingestion/pipeline/schemas/router.py:443-464 | with the layout signature as key, at most one run of a tenant per layout is inside the lock |
| HerdProtocol.LearnedTemplateIsReused | pdf_ingestion/pipeline/schemas/router.py:465-478 | a run that takes the lock with its template learned and undisturbed never discovers; it returns a template hit if and only if no visible template raises |
| HerdProtocol.CopyHitsAtOnce | pdf_ingestion/pipeline/schemas/router.py:337-350 | a copy that looks first while its template is learned and undisturbed, with no usable template raising, ends with the best hit in every continuation and never waits |
| HerdProtocol.WaitingEntersIff | pdf_ingestion/pipeline/schemas/learn_lock.py:84-93 | in every run a waiting run may enter if and only if no run is inside its lock |
| HerdProtocol.QuarantinedIsNotUsed | pdf_ingestion/pipeline/schemas/template_store.py:76-103 | in every run no lookup hits a key between its quarantine by the tenant and the tenant's next save of it |
| HerdProtocol.KeysOfOthersDiffer | pdf_ingestion/pipeline/schemas/learn_lock.py:84-87 | runs of other tenants or other signatures never share a lock |
| JobQueue.JobQueue.Enqueue | pdf_ingestion/db/job_queue.py:44-70 | the payload is stored unless one is there, and the tenant's row becomes queued and available now |
| JobQueue.JobQueue.ClaimNext | pdf_ingestion/db/migrations/versions/20250107_0000_0007_durable_job_queue.py:33-56 | a claim takes an unlocked claimable row of least availability time, sets holder and time and adds an attempt; it takes none only when there is none |
| JobQueue.JobQueue.LoadPayload | pdf_ingestion/db/job_queue.py:91-111 | the claimed tenant's payload is returned, or the job fails for want of one |
| JobQueue.JobQueue.Complete | pdf_ingestion/db/job_queue.py:113-128 | the row is complete and unclaimed, the review flag set, the payload gone |
| JobQueue.JobQueue.RetryLater | pdf_ingestion/db/job_queue.py:130-143 | the row is queued again after the delay with the error cut to 1000 characters; the payload stays |
| JobQueue.JobQueue.Fail | pdf_ingestion/db/job_queue.py:145-161 | the row is failed and unclaimed with the error, the payload gone |
| JobQueue.SubmittedIsClaimable | pdf_ingestion/db/job_queue.py:44-70 | a row only created is never claimed; submitted, it is claimable from that moment, its payload stored |
| JobQueue.ClaimHoldsUntilStale | pdf_ingestion/db/migrations/versions/20250107_0000_0007_durable_job_queue.py:33-56 | a claimed row is claimable again if and only if the stale limit has passed |
| JobQueue.EarliestFirst | pdf_ingestion/db/migrations/versions/20250107_0000_0007_durable_job_queue.py:33-56 | of two rows that wait the later one is not claimed first |
| Worker.JobWorkerPool.Process | pdf_ingestion/api/worker.py:98-149 | an exception requeues with backoff min(60, 2^attempts) below max_attempts and fails at it; a verdict fails or completes |
| Worker.BackoffTable | pdf_ingestion/api/worker.py:117-121 | the delay is 1, 2, 4, 8, 16, 32 and then 60 seconds |
| Worker.VerdictOnRow | pdf_ingestion/api/worker.py:131-141 | after a verdict the row is failed if and only if the pipeline said so, with the error cut to 1000 characters, and otherwise complete with its review flag; nothing else changes |
| Worker.RaiseOnRow | pdf_ingestion/api/worker.py:117-129 | after a raise the row is queued, and claimable exactly from the end of the delay on; on the last attempt it is failed |
| Worker.ForeignJobUntouched | pdf_ingestion/db/job_queue.py:113-161 | nothing happens to the row of a job that is not the tenant's |
| QueueProtocol.AttemptInvStep | pdf_ingestion/db/job_queue.py:72-143 | every step, timely or not, keeps: attempt numbers per job distinct, each retry recorded by its own attempt |
| QueueProtocol.RetryBound | pdf_ingestion/api/worker.py:117-121 | in every run, with overruns and crashes, claims of a job have distinct attempt numbers and it is requeued at most max_attempts - 1 times |
| QueueProtocol.SafetyInvStep | pdf_ingestion/db/job_queue.py:44-161 | every step of a timely run keeps the safety invariant |
| QueueProtocol.ClaimIsExclusive | pdf_ingestion/db/job_queue.py:72-78 | a claimable row has no live holder |
| QueueProtocol.QueueSafety | pdf_ingestion/api/worker.py:3-14 | in every timely run each job has at most one live holder, payloads belong to exactly the queued and claimed jobs, and no claim finds its payload missing |
| QueueProtocol.FinalIff | pdf_ingestion/db/job_queue.py:113-161 | in every run, timely or not, a complete or failed row is unchanged in every continuation if and only if no live execution holds its job |
| QueueProtocol.FinishedIsFinal | pdf_ingestion/db/job_queue.py:113-161 | so in every timely run a complete or failed row never changes again |
| QueueProtocol.FinishedRowTellsVerdict | pdf_ingestion/api/worker.py:98-149 | in every run, timely or not, a finished row is complete if and only if the last verdict on its job was not a failure, and carries that verdict's flag or error |
| QueueProtocol.VerdictStep | pdf_ingestion/api/worker.py:98-149 | a verdict is written at once, and no row is finished or changed in that state without one |
| QueueProtocol.ClaimUsesAttempt | pdf_ingestion/api/worker.py:117-120 | in timely runs a claim takes a queued job, or one whose last execution crashed, with an attempt left unless a crash came on the last |
| QueueProtocol.ExecutionsExceedIff | pdf_ingestion/api/worker.py:98-149 | in every timely run a job is executed more than max_attempts times (once when that is below one) if and only if it was claimed after an execution of it crashed on the last permitted attempt or later |
| QueueProtocol.ExecutionBound | pdf_ingestion/api/worker.py:98-149 | so without crashes at most max_attempts times |
| QueueProtocol.OverrunReopensCompletedJob | pdf_ingestion/db/job_queue.py:130-143 | untimely, finality does fail: a late retry reopens a completed job without payload |
| QueueProtocol.CrashesAreUnbounded | pdf_ingestion/db/job_queue.py:73-78 | the excess has no limit: for every n a timely run claims one job n times |
| ChunkedExtractor.CreateSlidingWindows | pdf_ingestion/pipeline/vlm/chunked_extractor.py:379-421 | the loop gives the windows of the recursive definition |
| ChunkedExtractor.WindowsAreStaircase | pdf_ingestion/pipeline/vlm/chunked_extractor.py:379-421 | windows lie inside the document and neither end ever goes back |
| ChunkedExtractor.CoverageIff | pdf_ingestion/pipeline/vlm/chunked_extractor.py:379-421 | every page is covered if and only if the size is positive and the overlap not negative, or one window holds the document |
| ChunkedExtractor.WindowsStandFrom | pdf_ingestion/pipeline/vlm/chunked_extractor.py:396-421 | each window starts the stride after the one before and has the full size unless the document ends; only the last reaches the end |
| ChunkedExtractor.MergeWindowResults | pdf_ingestion/pipeline/vlm/chunked_extractor.py:589-660 | no result gives nothing, one is handed back as it is; otherwise headers from the first, closing balance from the last, transactions deduplicated by key with zero amounts kept |
| ChunkedExtractor.KeysAgreeIff | pdf_ingestion/pipeline/vlm/chunked_extractor.py:562-586 | two transactions have one key if and only if they agree in date, description and absolute amount, of the debit if there is one and of the credit otherwise |
| ChunkedExtractor.DroppedIff | pdf_ingestion/pipeline/vlm/chunked_extractor.py:636-656 | a transaction is dropped if and only if its amount is not zero and an earlier one is the same in all three |
| ChunkedExtractor.DifferentIsKept | pdf_ingestion/pipeline/vlm/chunked_extractor.py:636-656 | one that differs from all before it in any of the three is kept |
| ChunkedExtractor.CoffeeAndBusTicket | pdf_ingestion/pipeline/vlm/chunked_extractor.py:636-656 | two purchases of one day and price with different descriptions are both kept |
| ChunkedExtractor.HeadersFromFirst | pdf_ingestion/pipeline/vlm/chunked_extractor.py:609-634 | headers are the first result's, the closing balance the last one's when it has one |
| WindowedExtraction.SinglePassGrows | pdf_ingestion/pipeline/vlm/chunked_extractor.py:404-421 | one more window adds to the single pass exactly its pages after those already covered |
| WindowedExtraction.SameKeysMoreZeros | pdf_ingestion/pipeline/vlm/chunked_extractor.py:636-656 | the windows' transactions have the single pass's keys, and as many zero amounts only when none lies in an overlap |
| WindowedExtraction.MergeIsSinglePassIff | pdf_ingestion/pipeline/vlm/chunked_extractor.py:636-656 | deduplicating gives the single pass if and only if no non-zero key repeats and no zero amount lies in an overlap |
| WindowedExtraction.WindowingRefinesSinglePass | pdf_ingestion/pipeline/vlm/chunked_extractor.py:589-660 | for any size, overlap and any windows failing: the merged transactions are those of the covered pages, once each, in page order, exactly when no date, description and non-zero amount repeat and no zero amount lies in an overlap, or at most one window succeeded |
| WindowedExtraction.SharedZeroIsDoubled | pdf_ingestion/pipeline/vlm/chunked_extractor.py:636-656 | a zero amount on the page two windows share is returned twice |
| WindowedExtraction.RepeatedKeyIsLost | pdf_ingestion/pipeline/vlm/chunked_extractor.py:636-656 | of two equal non-zero transactions on different pages one is returned |
| WindowedExtraction.AllWindowsCoverTheDocument | pdf_ingestion/pipeline/vlm/chunked_extractor.py:379-421 | when no window fails the single pass is the whole document |
| TargetPages.SelectTargetPages | pdf_ingestion/pipeline/vlm/chunked_extractor.py:214-286 | the loops give one window per group of fields that share pages; nothing for no field or no page |
| TargetPages.FieldPagesTable | pdf_ingestion/pipeline/vlm/chunked_extractor.py:56-67 | which pages each field is looked for on, for documents of any length |
| TargetPages.WindowIsTight | pdf_ingestion/pipeline/vlm/chunked_extractor.py:264-286 | a window runs from its group's first page to its last, or one page on when that is the only one |
| TargetPages.TenPages | pdf_ingestion/pipeline/vlm/chunked_extractor.py:214-286 | on ten pages the fields at the head are one call and the closing balance another |
| TargetPages.GroupsServe | pdf_ingestion/pipeline/vlm/chunked_extractor.py:240-262 | every field is in exactly one group, and the group has all its pages |
| TargetPages.TargetsComplete | pdf_ingestion/pipeline/vlm/chunked_extractor.py:194-286 | every field is sent in exactly one window with all its pages; windows have min(2, pages) to 4 pages, so the cap of 5 never cuts; all lie inside the document if and only if there are two pages or only header fields |
| LlmExtractor.CreateWindows | pdf_ingestion/pipeline/vlm/llm_extractor.py:137-145 | windows of three pages follow each other without gap or overlap, each with its pages' text |
| LlmExtractor.WindowsPartitionPages | pdf_ingestion/pipeline/vlm/llm_extractor.py:137-145 | every page is in exactly one window |
| LlmExtractor.CollectedMeaning | pdf_ingestion/pipeline/vlm/llm_extractor.py:179-202 | each table of a window is listed on exactly the window's pages; failed windows and entries that are no objects bring nothing |
| LlmExtractor.PlaceMeaning | pdf_ingestion/pipeline/vlm/llm_extractor.py:209-232 | a table goes to the first with its header, which keeps its place, and otherwise to the end |
| LlmExtractor.MergeByHeader | pdf_ingestion/pipeline/vlm/llm_extractor.py:209-232 | the in-place merge, on fresh copies, is the fold that absorbs each table into the first with its header |
| LlmExtractor.HeaderMergeConservesRows | pdf_ingestion/pipeline/vlm/llm_extractor.py:204-232 | per header the rows are the in-order concatenation of the inputs', the multiset of rows is kept, and non-empty headers end up pairwise distinct |
| LlmExtractor.ContinuationIsNoOpIff | pdf_ingestion/pipeline/vlm/llm_extractor.py:234-237 | the continuation pass changes nothing if and only if no neighbours have only empty header cells, the second at least one |
| LlmExtractor.ContinuationKeepsNamed | pdf_ingestion/pipeline/vlm/llm_extractor.py:234-237 | it leaves every table with a non-empty header as it was |
| LlmExtractor.BlankHeadersAreFused | pdf_ingestion/pipeline/vlm/llm_extractor.py:234-237 | two tables with one empty header cell each come out as one |
| LlmExtractor.ExtractTables | pdf_ingestion/pipeline/vlm/llm_extractor.py:179-237 | from the windows' answers, skipping failed ones, to the document's tables: rows kept as a multiset, nothing left to continue |
| CheckDigits.IsValidIban | pdf_ingestion/pipeline/validator.py:846-874 | the validator accepts exactly: five characters or more, letters and digits only, convertible, remainder 1 modulo 97 after rearranging |
| CheckDigits.CharacterWorth | pdf_ingestion/pipeline/validator.py:866-872 | digits are worth 0 to 9, capitals 10 to 35 |
| CheckDigits.ExampleIban | pdf_ingestion/pipeline/validator.py:846-874 | GB82WEST12345698765432 is valid |
| CheckDigits.TooShort | pdf_ingestion/pipeline/validator.py:846-874 | four characters are never valid |
| CheckDigits.SubstitutionDetected | pdf_ingestion/pipeline/validator.py:846-874 | a valid IBAN of any length fails after any one character changes within its class |
| CheckDigits.SwapDetectedUnlessElevenFold | pdf_ingestion/pipeline/validator.py:846-874 | swapping different neighbours of the rearranged string stays undetected if and only if they are B and 1, M and 2, X and 3, c and 4, n and 5, or y and 6 |
| CheckDigits.ExactlyOneCheckPair | pdf_ingestion/pipeline/validator.py:846-874 | for each country and body of at most 4298 digits together exactly one check pair in 02..98 passes, and for longer ones none |
| Luhn.LuhnCheck | pdf_ingestion/pipeline/validator.py:902-923 | the loop decides the weighted sum modulo 10 |
| Luhn.DigitChangeDetected | pdf_ingestion/pipeline/validator.py:902-923 | a passing digit string of any length fails after any one digit changes |
| Luhn.SwapDetectedUnlessZeroNine | pdf_ingestion/pipeline/validator.py:902-923 | swapping different neighbours stays undetected if and only if they are 0 and 9 |
| Luhn.IsValidIsin | pdf_ingestion/pipeline/validator.py:877-899 | the validator accepts exactly twelve letters and digits whose expansion passes Luhn |
| Luhn.ExampleIsin | pdf_ingestion/pipeline/validator.py:877-923 | US0378331005 is valid |
| Luhn.OtherLengthsFail | pdf_ingestion/pipeline/validator.py:877-899 | other lengths than twelve are invalid |
| Luhn.ExactlyOneCheckDigit | pdf_ingestion/pipeline/validator.py:877-899 | every eleven-character prefix has exactly one final digit that passes |
| Luhn.IsinDigitChangeDetected | pdf_ingestion/pipeline/validator.py:877-899 | a valid ISIN fails after any of its digit characters changes to another digit |
| Balances.ValidateRunningBalance | pdf_ingestion/pipeline/validator.py:370-430 | the loop reports exactly the positions where a balance is off by more than 0.02 |
| Balances.ValidateReconciliation | pdf_ingestion/pipeline/validator.py:433-494 | the check passes exactly when closing is within 0.02 of opening plus credits minus debits, or there is nothing to check |
| Balances.ReconcilesIff | pdf_ingestion/pipeline/validator.py:433-494 | an account reconciles if and only if closing is within two cents of opening plus credits less debits |
| Balances.BreakReportedIff | pdf_ingestion/pipeline/validator.py:370-430 | a position is reported if and only if its balance is more than two cents off the last balance before it plus its credit less its debit |
| Balances.CleanChainDrift | pdf_ingestion/pipeline/validator.py:370-430 | an unreported chain drifts by at most 0.02 a step, however many entries lack a balance |
| Balances.RunningBalanceDrift | pdf_ingestion/pipeline/validator.py:370-430 | with all n balances present the last is within 0.02(n-1) of the first plus later credits minus debits |
| Balances.ExactChainReconciles | pdf_ingestion/pipeline/validator.py:433-494 | exact steps from opening to closing balance pass both checks |
| Balances.CleanChainSurelyReconcilesIff | pdf_ingestion/pipeline/validator.py:433-494 | a clean chain of n entries from opening to closing balance always reconciles if and only if n is 1 |
| ReadingOrder.FindHorizontalSplit | pdf_ingestion/pipeline/assembler.py:154-188 | the loop finds the middle of the first widest gap above 5 along the page |
| ReadingOrder.FindVerticalSplit | pdf_ingestion/pipeline/assembler.py:191-225 | the loop finds the middle of the first widest gap above 20 across the page |
| ReadingOrder.BoxMeaning | pdf_ingestion/pipeline/assembler.py:117-124 | four coordinates are the box; with fewer, or none, it is at the origin |
| ReadingOrder.WidestGapMeaning | pdf_ingestion/pipeline/assembler.py:154-225 | the gap found lies between two neighbours and none is wider |
| ReadingOrder.SplitIsProper | pdf_ingestion/pipeline/assembler.py:113-145 | for boxes the right way round every split found leaves blocks on both sides |
| ReadingOrder.XyCutPermutes | pdf_ingestion/pipeline/assembler.py:104-151 | the recursion ends and returns a permutation |
| ReadingOrder.CutSidesInOrder | pdf_ingestion/pipeline/assembler.py:126-138 | wherever the recursion cuts, what is above or left is read before what is below or right |
| ReadingOrder.RowsInOrder | pdf_ingestion/pipeline/assembler.py:126-131 | parts of a page more than 5 apart down the page are read from top to bottom, columns or not |
| ReadingOrder.ColumnsInOrder | pdf_ingestion/pipeline/assembler.py:133-138 | without a cut down the page, parts more than 20 apart across it are read from left to right |
| ReadingOrder.LeftIsReadFirst | pdf_ingestion/pipeline/assembler.py:133-138 | a line in two columns is read left, then right |
| ReadingOrder.TopIsReadFirst | pdf_ingestion/pipeline/assembler.py:126-131 | two lines are read top, then bottom |
| ReadingOrder.UncutIsReadByLine | pdf_ingestion/pipeline/assembler.py:140-151 | what no cut takes apart is read by top, then left |
| ReadingOrder.OneColumnIsPlainSortIff | pdf_ingestion/pipeline/assembler.py:104-151 | when no column gap exceeds 20 the order is the stable sort by (top, left) if and only if at every cut down the page each block above sorts before each block below, or ties and comes first |
| ReadingOrder.OneColumnIsPlainSort | pdf_ingestion/pipeline/assembler.py:117-151 | so it is when every coordinate list has all four entries or is missing |
| ReadingOrder.ShortListIsMisplaced | pdf_ingestion/pipeline/assembler.py:117-151 | a list of two coordinates is cut at the origin but sorted by its entries, and comes out of order |
| ReadingOrder.CutOfSort | pdf_ingestion/pipeline/assembler.py:126-131 | taking one side of the sorted blocks is sorting that side |
| Sorting.SortStable | pdf_ingestion/pipeline/assembler.py:146-151 | the sort keeps equal elements in order, as Python's does |
| TableMerging.StitchMultiPageTables | pdf_ingestion/pipeline/assembler.py:228-296 | the look-ahead loop with its skip set is the fold over runs of adjoining tables, and leaves its inputs untouched |
| TableMerging.StitchingConservesRows | pdf_ingestion/pipeline/assembler.py:228-296 | stitching keeps the document's row sequence |
| TableMerging.StitchingKeepsPages | pdf_ingestion/pipeline/assembler.py:266-296 | stitching keeps the pages covered, and marks a table as spanning pages if and only if parts were joined |
| TableMerging.AdjoinsMeaning | pdf_ingestion/pipeline/assembler.py:254-265 | which page numbers adjoin, missing ones counting as zero and those that are no numbers as any |
| TableMerging.NormMeaning | pdf_ingestion/pipeline/assembler.py:318-355 | headers are compared by their cells that are not empty, without case and outer blanks |
| TableMerging.ContinuesIff | pdf_ingestion/pipeline/assembler.py:318-355 | a table continues another if and only if it has headers and they agree so |
| TableMerging.PagesCoveredMeaning | pdf_ingestion/pipeline/assembler.py:266-296 | a table covers the pages it lists, and without a list its own |
| TableMerging.AbsorbMeaning | pdf_ingestion/pipeline/assembler.py:318-355 | a table that absorbs another has the rows and listed pages of both |
| TableMerging.RunMeaning | pdf_ingestion/pipeline/assembler.py:254-265 | a run is the following tables that adjoin its first part, up to the first that does not |
| TableMerging.StitchedIntoOneIff | pdf_ingestion/pipeline/assembler.py:254-265 | tables are stitched into one if and only if all the others adjoin the first: for known pages, are on the page after it with its headers |
| TableMerging.LongTablesNeedContinuation | pdf_ingestion/pipeline/assembler.py:228-355 | a table continued over n pages is stitched into (n + 1) / 2 pieces, one only up to two pages; the continuation pass makes it one |
| TableMerging.ThreePageTableStaysSplit | pdf_ingestion/pipeline/assembler.py:254-265 | a table over three pages is stitched into two, the second its last page |
| TableMerging.MergeContinuationTables | pdf_ingestion/pipeline/assembler.py:318-355 | the in-place loop is, on any list of table objects, the fold over their contents; without repeated objects the fold that extends the last table or adds a new one |
| TableMerging.ContinuationConservesRows | pdf_ingestion/pipeline/assembler.py:318-355 | it keeps the document's row sequence |
| TableMerging.ContinuationIsIdempotent | pdf_ingestion/pipeline/assembler.py:318-355 | it changes nothing if and only if no table continues the one before; a second pass never changes anything |
| TableMerging.AssembleTables | pdf_ingestion/pipeline/assembler.py:228-355 | both passes together are, on any list of table objects, the fold over the stitched tables' contents; without repeated objects they keep the row sequence and leave no adjacent pair to merge |
| Segmenter.SegmentDocument | pdf_ingestion/pipeline/section_segmenter.py:59-137 | sections are non-empty, concatenate to the pages, have a boundary between any two and none inside, and carry their span and label |
| Segmenter.SegmentationIsUnique | pdf_ingestion/pipeline/section_segmenter.py:198-218 | the boundary test determines the sections |
| Segmenter.DominantMeaning | pdf_ingestion/pipeline/section_segmenter.py:140-195 | a page is of the type whose score is highest, the first of equals, and above 0.005 |
| Segmenter.LabelMeaning | pdf_ingestion/pipeline/section_segmenter.py:235-275 | a section is of the type whose scores sum highest, above 0.01, and its confidence is their mean |
| Segmenter.AloneMeaning | pdf_ingestion/pipeline/section_segmenter.py:75-90 | a one-page document is one section of the page's type and highest score |
| Segmenter.UnanimousSectionIsLabelled | pdf_ingestion/pipeline/section_segmenter.py:235-275 | a section all of whose pages have one known type is labelled with it, in every document |
| Segmenter.TogetherIff | pdf_ingestion/pipeline/section_segmenter.py:198-218 | in every document two pages share a section if and only if no boundary lies between them |
| Segmenter.TypeChangeSplitsIff | pdf_ingestion/pipeline/section_segmenter.py:198-218 | known pages of different type, with only unknown ones between, are separated if and only if they are neighbours and both peaks exceed 0.02 |
| Segmenter.UnknownPageHidesChange | pdf_ingestion/pipeline/section_segmenter.py:198-208 | a page of unknown type keeps its neighbours in one section with it |
| Segmenter.FaintPageHidesChange | pdf_ingestion/pipeline/section_segmenter.py:198-218 | a page scoring no more than 0.02 keeps its neighbour in one section with it |
| Segmenter.TextsPartition | pdf_ingestion/pipeline/runner.py:763-763 | for pages numbered from one the sections' text slices have their pages' lengths and concatenate to the document's texts |
| AccountMerge.MergeAccounts | pdf_ingestion/pipeline/runner.py:919-955 | the loop over a dictionary in insertion order skips, names, merges and adds the raw entries as the fold does; it raises if and only if an identifier is a list or an object |
| AccountMerge.KeepUseful | pdf_ingestion/pipeline/runner.py:957-966 | the filter keeps, in order, the accounts with a transaction, a table or a balance |
| AccountMerge.DeduplicateAccounts | pdf_ingestion/pipeline/runner.py:916-976 | both together, raising when the loop does; a document with one account or none is left alone |
| AccountMerge.NumberBeforeIban | pdf_ingestion/pipeline/runner.py:924-924 | an account is identified by its number, and by its IBAN without one |
| AccountMerge.TruthyTable | pdf_ingestion/pipeline/runner.py:924-924 | which values count as none |
| AccountMerge.SkippedIff | pdf_ingestion/pipeline/runner.py:922-930 | an entry is skipped if and only if it is no object, or has neither identifier nor transaction nor table |
| AccountMerge.FirstEntryKept | pdf_ingestion/pipeline/runner.py:951-955 | the first entry under a key is taken as it is, with an empty list of tables if it has none |
| AccountMerge.KeptIff | pdf_ingestion/pipeline/runner.py:957-966 | a merged account is returned if and only if it has a transaction, a table or a balance |
| AccountMerge.OrderStays | pdf_ingestion/pipeline/runner.py:919-955 | accounts keep the order in which their keys come up |
| AccountMerge.FillMissing | pdf_ingestion/pipeline/runner.py:944-950 | a scalar is copied when it is not null and the existing one is not truthy |
| AccountMerge.KeyHoldsConcatenation | pdf_ingestion/pipeline/runner.py:933-955 | each key's transactions, and its tables, are the in-order concatenation of those of all inputs with that key |
| AccountMerge.FirstPresentWins | pdf_ingestion/pipeline/runner.py:943-950 | a scalar is the first truthy value among its key's inputs, and without any the last that is not null |
| AccountMerge.FirstValueKeptIff | pdf_ingestion/pipeline/runner.py:943-950 | the first value survives if and only if it is truthy, or no truthy one follows and the last that is not null equals it |
| AccountMerge.ZeroBalanceIsReplaced | pdf_ingestion/pipeline/runner.py:943-950 | a zero opening balance gives way to any later value |
| AccountMerge.MergeConservesData | pdf_ingestion/pipeline/runner.py:921-966 | skip and filter lose or repeat no transaction and no table, and no two results have the same identifier |
| AccountMerge.UnidentifiedSharesIff | pdf_ingestion/pipeline/runner.py:926-931 | an account without identifier shares its key with another input if and only if some input is literally identified by it |
| AccountMerge.LiteralNameTakesItIn | pdf_ingestion/pipeline/runner.py:926-933 | an account numbered unidentified_1 takes in the nameless account that comes second |
| AlertEngines.AlertEngine.EmitNotification | pdf_ingestion/pipeline/alerts/engine.py:579-598 | a firing is appended; a recovery marks the rule's latest unresolved entry, found from the end |
| AlertEngines.AlertEngine.EvaluateAllRules | pdf_ingestion/pipeline/alerts/engine.py:132-181 | one cycle polls every rule in order and keeps state, events and history in agreement |
| AlertEngines.CycleTakesTurns | pdf_ingestion/pipeline/alerts/engine.py:132-181 | what a cycle makes of a rule is what its own turn does |
| AlertRules.CrossedIffAbove | pdf_ingestion/pipeline/alerts/engine.py:183-385 | a budget is crossed by reaching it, a rate only by going above it; no flagged job among none |
| AlertRules.CycleFiresIff | pdf_ingestion/pipeline/alerts/engine.py:183-385 | after its turn an enabled rule is firing if and only if it is above its threshold, and notifies if and only if that is news |
| AlertRules.CycleRests | pdf_ingestion/pipeline/alerts/engine.py:145-165 | a resolved rule rests for one cycle, a disabled one is skipped |
| AlertRules.RecordMeaning | pdf_ingestion/pipeline/alerts/engine.py:579-598 | a firing adds an open entry at the end, a recovery closes the latest open one and touches no other |
| AlertRules.RequestMeaning | pdf_ingestion/api/routes/admin_alerts.py:294-440 | a new rule is idle, an update keeps identifier and state, no other rule changes |
| AlertRules.SeedConsistent | pdf_ingestion/api/routes/admin_alerts.py:116-178 | the seeded stores satisfy the invariant |
| AlertRules.StepKeeps | pdf_ingestion/pipeline/alerts/engine.py:132-415 | every step (poll, arrival of job counts, delivery, breaker event and its delivery, create, update, delete) keeps the invariant |
| AlertRules.HistoryMatchesState | pdf_ingestion/pipeline/alerts/engine.py:510-598 | in every run a polled rule with no notification under way has one unresolved entry when firing and none otherwise, and one entry per firing |
| AlertRules.NotificationsAlternate | pdf_ingestion/pipeline/alerts/engine.py:7-11 | in every run between two firings of a polled rule come a recovery and a cycle that does not evaluate it |
| AlertRules.AtMostOneIff | pdf_ingestion/pipeline/alerts/engine.py:579-598 | in every run, however notifications overlap, a rule's unresolved entries are a function of its events, and never two if and only if no firing follows a firing without a recovery between |
| AlertRules.LevelIsLargestExcess | pdf_ingestion/pipeline/alerts/engine.py:579-598 | what a rule's events leave unresolved is the most that any ending of them fires beyond recovering |
| AlertRules.BreakerHistoryMatchesStateIff | pdf_ingestion/pipeline/alerts/engine.py:463-508 | in every run, whatever overlaps or is under way, a breaker rule is firing if and only if the last event that reached it tripped it, and its history agrees if and only if its recorded events leave one entry or none accordingly |
| AlertRules.OrderlyBreakerHistory | pdf_ingestion/pipeline/alerts/engine.py:463-508 | when its notifications do not overlap its state is its last recorded event, and without a double firing its history agrees |
| AlertRules.FreshRuleFollows | pdf_ingestion/pipeline/alerts/engine.py:463-508 | a rule not yet created meets what these theorems ask of the start of a run |
| AlertRules.CircuitRuleFiresWhileFiring | pdf_ingestion/pipeline/alerts/engine.py:463-478 | a double firing happens: two opening events leave two unresolved entries |
| AlertRules.OverlapLeavesEntry | pdf_ingestion/pipeline/alerts/engine.py:463-491 | an opening and a closing event whose notifications overlap leave a resolved rule with an unresolved entry |
| AlertRules.OverlapDisagrees | pdf_ingestion/pipeline/alerts/engine.py:463-491 | the general theorem there: the last event did not trip the rule, its events leave an entry, its history disagrees |
| AlertRules.DisabledRuleMovesIff | pdf_ingestion/pipeline/alerts/engine.py:336-385 | a disabled polled rule changes state if and only if its job counts arrive and cross, or fall below, the threshold read before |
| AlertRules.CancellationLosesEntry | pdf_ingestion/pipeline/alerts/engine.py:107-120 | the absence of cancellation is needed: a lost notification leaves a firing rule without entry |
| CircuitBreakers.CircuitBreaker.IsCallAllowed | pdf_ingestion/pipeline/vlm/bedrock_client.py:75-87 | allowed unless open within the recovery window; an open breaker past it becomes half-open |
| CircuitBreakers.CircuitBreaker.RecordSuccess | pdf_ingestion/pipeline/vlm/bedrock_client.py:89-92 | a success resets the count and closes |
| CircuitBreakers.CircuitBreaker.RecordFailure | pdf_ingestion/pipeline/vlm/bedrock_client.py:94-99 | a failure is counted and timed, and opens at the threshold |
| CircuitBreakers.ClosedIff | pdf_ingestion/pipeline/extractors/ocr.py:23-70 | in every run the breaker is closed if and only if the failures since the last success are none or below the threshold |
| CircuitBreakers.HalfOpenAdmitsAll | pdf_ingestion/pipeline/extractors/ocr.py:57-58 | once half-open, every further ask is allowed until an outcome is recorded |
| CircuitBreakers.AlwaysFailingBound | pdf_ingestion/pipeline/vlm/bedrock_client.py:51-99 | a sequential caller with r failures per call is let through at most ceil(threshold / r) + floor(D / window) times in D seconds of an always-failing service |
| CircuitBreakers.BoundIsReached | pdf_ingestion/pipeline/vlm/bedrock_client.py:51-99 | some caller is let through exactly that often |
| OcrClient.PaddleOCRClient.ExtractTokens | pdf_ingestion/pipeline/extractors/ocr.py:104-158 | cache, then breaker, then service; an answer is cached and returned, anything else gives no tokens |
| OcrClient.RequestMeaning | pdf_ingestion/pipeline/extractors/ocr.py:104-158 | an answer closes the breaker and is cached, a failure is counted and timed, a stopped request changes nothing |
| OcrClient.NoAnswerNoTokens | pdf_ingestion/pipeline/extractors/ocr.py:104-158 | a request that gets no answer gets no tokens |
| OcrClient.FirstAnswerIsKept | pdf_ingestion/pipeline/extractors/ocr.py:117-140 | in every run a page's first answer is what every later request gets, without touching the breaker; failures are never cached |
| BedrockClient.BedrockVLMClient.ExtractField | pdf_ingestion/pipeline/vlm/bedrock_client.py:178-290 | no call when disabled or stopped; otherwise at most two attempts: the first answer, with or without value, ends the call as a success, each attempt that raises before it is a recorded failure, and a client that cannot be built raises unrecorded |
| BedrockClient.AnswerMeaning | pdf_ingestion/pipeline/vlm/bedrock_client.py:236-290 | the first answer before which every attempt raised and was recorded is returned |
| BedrockClient.EveryAttemptFailsIff | pdf_ingestion/pipeline/vlm/bedrock_client.py:236-276 | a call records one failure per attempt if and only if all its attempts raise and are recorded; then it returns no value |
| BedrockClient.ClientBreakerClosedIff | pdf_ingestion/pipeline/vlm/bedrock_client.py:224-276 | in every run of calls the breaker is closed if and only if the failures recorded since the last answer are none or below the threshold |
| BedrockClient.UnbuildableClientNeverOpens | pdf_ingestion/pipeline/vlm/bedrock_client.py:236-276 | so in a run of calls whose client cannot be built it never opens, and every call is let through |
| BedrockClient.UnbuildableCallsChangeNothing | pdf_ingestion/pipeline/vlm/bedrock_client.py:236-276 | such calls leave any closed breaker as it is |
| BedrockClient.FailingModelBound | pdf_ingestion/pipeline/vlm/bedrock_client.py:178-290 | when both attempts of every call let through raise and are recorded, a sequential caller reaches the model in at most 2 + floor(D / 60) calls in D seconds |

## Left out

- Routes, request models, authentication, logging, the React front end, delivery, notifier transports: plumbing.
- PDF parsing, OCR, camelot, redaction, boto3, HTTP: their results are inputs.
- The text engine: `search`, `fullmatch`, `escape`, the normalisers and SHA-256 are arbitrary deterministic
  functions; the theorems hold for all of them.
- Building lines and segments from blocks (`pdf_ingestion/pipeline/schemas/base.py:276-396`): segments are given.
- Theme detection, keyword scores and the VLM: a page's scores, a document's theme and a window's answer are inputs.
- Built-in extractors and schema detection: only the path on which no built-in schema serves is modelled.
- `PostgresLearnLock` and the in-process fallback of the upload route.
- Cancellation of tasks, except where a lemma shows what it would break.
- Float rounding (reals instead), Unicode (ASCII text), the SQL engine (one transaction is one step).
- Token budgets, tier selection, page summaries and the summarising tier of chunked extraction.
- Worker polling, start and stop, and saving result rows: they do not change the queue's tables.
- The validators' loop over accounts and their report texts: each account is checked on its own.
- `ReadingOrder.OneColumnIsPlainSortIff`: a coordinate list of fewer than two entries is sorted at the origin; the
  source's fallback sort raises on it.
- Page ranges are sets; the source stores their sorted list. Tagging rows with source pages is left out.
- `TableMerging.AssembleTables`: that rows are kept is promised for lists without repeated objects only.
- `TableMerging.MergeContinuationTables`: that rows are kept is promised for lists without repeated objects; a list
  with the same object twice gets the fold over the objects' contents, in which it can absorb its own rows.
- Provenance and field confidences, except the section confidence.
- Which rules a breaker event matches, by service and tenant, is left to the step; the sums and counts behind a
  measurement are inputs of the step too.
- `AlertEngines.AlertEngine.EvaluateAllRules`: one cycle with nothing in between; rules created, changed or deleted
  while it waits for job counts or notifications are steps of the state machine, whose theorems hold for them.
- `LearnLock.SharedSignatureIff`: the hash is taken to be injective; the source cuts a SHA-256 digest to 32
  hexadecimal digits, on which equal digests of different texts are possible though not to be expected.
- `AccountMerge.FillMissing`: a list or object value is its JSON text, of which only emptiness matters here.
- `OcrClient.PaddleOCRClient.ExtractTokens`: the page digest stands for the page; two pages with one SHA-256 digest
  share a cache entry.
