# Wiktor: verified cores

A Dafny model of the deterministic cores of Wiktor's compile and retrieval logic, with proofs of
what they promise.

- **The source-ref consistency arbiter.** It reads the comparable evidence of a candidate page and
  its related pages, groups the canonical values by (entity, pointer), and reports which groups
  agree and which diverge. `Consistency` states the report over sets of values, `ConsistencyArbiter`
  is the code with its nested maps and loops, proved to compute that report, and `CanonicalJson` is
  the byte encoding whose equality stands for equality of JSON values. `ConsistencyClaims` says what
  the report means for the refs themselves. `FtsTerms` is the budgeted full-text query of the same
  file.
- **The feedback pipeline.** `Feedback` is one `POST /feedback` request through its gates,
  `FeedbackServer` the handler over the limiter (`RateLimit`), the counters and the latency
  histogram (`Metrics`) and the event table (`FeedbackStore`). `FeedbackRuns` holds what every run
  of requests keeps, `FeedbackAnswers` which answer a request gets, with every limit spelled out.
- **The three-signal feedback analyzer** (`Analyzer`, with `Grouping` for aggregation by key) and
  its laws (`AnalyzerLaws`, and `AnalyzerCriteria` for what is counted).
- **The filter language** (`Filter`), when printing and parsing round-trip (`FilterRoundTrip`), and
  how a part reads or why it is refused (`FilterRefusals`).
- **The in-memory vector store** (`Cosine`, `VectorStore`, `VectorStoreLaws`).
- **The compatibility preflight** (`Compatibility`, `CompatibilityFaults`,
  `CompatibilityWidening`), **the source projection** (`SourceProjection`, `SourceFacts`), and **the
  lease runners and the worker around them** (`Lease`, `Worker`).

`Wrappers`, `Sequences`, `Orders`, `Reals` and `Text` hold what the others share: folds and filters,
ordered enumeration of sets (an ordered map is a map visited through its enumeration), facts about
quotients, string searching and splitting. Loops and objects of the source are methods and classes,
each proved against a specification function or predicate; the results are lemmas about those
specifications. A predicate that code and specification share is pinned by laws that do not name it:
they are stated over the inputs, with limits, operators and codes written out.

Floating-point numbers are reals here, and a square root is a function assumed to give the root of
the norms it is applied to. Asynchronous code is a sequence of atomic steps; an interleaving is a
schedule of enabled actions. Clocks, database contents and injected faults are inputs. The parsers of
JSON, YAML, numbers and semantic versions and the hash functions are parameters.

Where the code says something other than its documentation or than one would expect, the model
follows the code:

- A reaper that ends with an error may still have started its drain, when the drain is what failed
  (`Worker.DrainMayFail`). It drained exactly when its cancellation was polled before any recovery
  failed, and then the drain is the recovery that failed (`Worker.ErrorEnd`).
- A condition list survives printing and parsing exactly when all its conditions are of the surviving
  kind (`FilterRoundTrip.ListRoundTrip`, the kind being `Filter.Survives`). Two-sided ranges, ranges
  without bounds and an empty `in=` never survive.
- An equality prints to a part that does not parse when its value holds `<=` or `>=` without a number
  after it (`FilterRefusals.ValueWithBoundFails`); `FilterRefusals.PrintedEqualityFailsIff` says for
  which values the parse fails.
- An entity key whose domain holds a colon counts for the part before it
  (`Compatibility.EntityDomainOfKey`).

## Model

| member | source | states |
|---|---|---|
| CanonicalJson.EncodesIffFinite | crates/wiktor-core/src/compile/hash.rs:62-122 | a JSON value has a canonical encoding exactly when every number in it is finite |
| CanonicalJson.EncodingPrefixFree | crates/wiktor-core/src/compile/hash.rs:62-122 | no encoding is a proper prefix of another: equal concatenations start with the same value and leave the same rest |
| CanonicalJson.CanonicalEqualIffSameValue | crates/wiktor-core/src/compile/hash.rs:62-122 | two encodable values have equal canonical bytes exactly when they are the same JSON value, object member order aside |
| CanonicalJson.LittleEndianInjective | crates/wiktor-core/src/compile/hash.rs:68-72 | the fixed-width length field determines the length |
| CanonicalJson.EncodingLayout | crates/wiktor-core/src/compile/hash.rs:62-122 | the tag byte of each kind of value; a text or a number is its length in eight bytes and then its bytes, an array or object starts with the number of its items or members |
| CanonicalJson.LittleEndianHolds | crates/wiktor-core/src/compile/hash.rs:68-72 | the length field holds the length, least significant byte first |
| CanonicalJson.BytesLtDecides | crates/wiktor-core/src/compile/hash.rs:112-113 | the key order is that of the first byte that differs, a prefix coming first |
| Consistency.FailsIffNonFinite | crates/wiktor-core/src/compile/consistency.rs:503-543 | arbitration fails exactly when some comparable ref carries a non-finite number |
| Consistency.DivergentIsCompared | crates/wiktor-core/src/compile/consistency.rs:214-224 | a key with two distinct values always has two occurrences, so no divergence is skipped as uncompared |
| Consistency.ScoreShape | crates/wiktor-core/src/compile/consistency.rs:201-266 | compared claims are equal ones plus findings; no score exactly when nothing was compared; the score is the share of equal claims, 1 exactly when something was compared and nothing diverged |
| Consistency.FindingsShape | crates/wiktor-core/src/compile/consistency.rs:210-254 | one finding per divergent key and no other, in strictly ascending key order |
| Consistency.CandidateValue | crates/wiktor-core/src/compile/consistency.rs:233-238 | the candidate side of a finding is the candidate page's least value, or the least of the group when the candidate has none |
| Consistency.EvidenceValue | crates/wiktor-core/src/compile/consistency.rs:239-244 | the evidence side is the least value of the group that differs from the candidate side, and there always is one |
| Consistency.ReportDependsOnValues | crates/wiktor-core/src/compile/consistency.rs:192-267 | two disputes whose keys carry the same values the same number of times get the same report |
| Consistency.ReportIgnoresPageOrder | crates/wiktor-core/src/compile/consistency.rs:192-267 | permuting the related pages changes neither the report nor whether there is one |
| Consistency.ReportIgnoresRefOrder | crates/wiktor-core/src/compile/consistency.rs:503-543 | permuting, repeating or regrouping refs and sections inside pages changes neither the report nor whether there is one |
| Consistency.MorePagesOnlyAdd | crates/wiktor-core/src/compile/consistency.rs:192-267 | one more related page keeps every compared and every divergent key |
| Consistency.DivergentIffValuesDiffer | crates/wiktor-core/src/compile/consistency.rs:218-253 | a key diverges exactly when two comparable refs give it different JSON values |
| ConsistencyClaims.FoundIff | crates/wiktor-core/src/compile/consistency.rs:503-553 | a claim has a finding exactly when two refs of its entity at its pointer, which is on the allowlist and below `/fields/`, state different finite values |
| ConsistencyClaims.FindingsAreListed | crates/wiktor-core/src/compile/consistency.rs:548-553 | the pointer of every finding is on the allowlist, starts with `/fields/` and is longer than it |
| ConsistencyClaims.UnlistedRefsAreIgnored | crates/wiktor-core/src/compile/consistency.rs:515-520 | refs at pointers that are not listed, or not of that shape, can be removed from any page without changing the report or the failure |
| ConsistencyClaims.NothingListedNothingCompared | crates/wiktor-core/src/compile/consistency.rs:548-553 | with an empty allowlist arbitration succeeds, compares nothing and finds nothing |
| ConsistencyClaims.ComparedIff | crates/wiktor-core/src/compile/consistency.rs:214-224 | the compared claims are those stated on two pages, or with two values on one page; the report counts them |
| ConsistencyClaims.FindingShows | crates/wiktor-core/src/compile/consistency.rs:228-253 | the two hashes of a finding are those of two refs with different values: the least one of the candidate page, or of all pages if the candidate states none, and the least one that differs |
| ConsistencyClaims.FindingsByEntityThenPointer | crates/wiktor-core/src/compile/consistency.rs:210-254 | findings are in the order of entity, then pointer |
| ConsistencyClaims.FirstSpoilerDecides | crates/wiktor-core/src/compile/consistency.rs:521-526 | the first ref at a listed field that holds a non-finite number decides the failure, by its id and pointer |
| ConsistencyClaims.RefsOfDispute | crates/wiktor-core/src/compile/consistency.rs:192-205 | the refs of a dispute are those of the sections of its candidate and of its related pages; a page without evidence has none |
| ConsistencyArbiter.ReadRefs | crates/wiktor-core/src/compile/consistency.rs:515-532 | the per-page loop ends with each key's set of distinct values, or with the first ref that cannot be encoded |
| ConsistencyArbiter.CollectPageRefs | crates/wiktor-core/src/compile/consistency.rs:503-543 | a page adds each of its distinct values once, in ascending order and marked with its side, to the group of its key, and touches no other group |
| ConsistencyArbiter.MergeInto | crates/wiktor-core/src/compile/consistency.rs:533-541 | merging a page's table into the groups gives the same groups whatever order its keys are visited in |
| ConsistencyArbiter.GroupFacts | crates/wiktor-core/src/compile/consistency.rs:201-205 | after all pages the group of a key holds exactly the declared occurrences, values and candidate values |
| ConsistencyArbiter.SecondValue | crates/wiktor-core/src/compile/consistency.rs:239-244 | among at least two sorted values the first one that differs exists and is the least such value, so the defensive skip is dead |
| ConsistencyArbiter.Judge | crates/wiktor-core/src/compile/consistency.rs:210-254 | the loop body classifies a group as uncompared, equal or divergent as declared, with the declared pair of values |
| ConsistencyArbiter.Arbitrate | crates/wiktor-core/src/compile/consistency.rs:192-267 | the grouped loops return the declarative report, or the first unencodable ref of candidate and related pages in reading order |
| FtsTerms.FtsQueryTerms | crates/wiktor-core/src/compile/consistency.rs:621-651 | the terms are the longest prefix of the eligible phrases whose quoted, joined length is within 256 |
| FtsTerms.EligibleFacts | crates/wiktor-core/src/compile/consistency.rs:622-641 | the eligible phrases are those of three or more characters, each exactly once, in the order of first occurrence |
| FtsTerms.QueryPush | crates/wiktor-core/src/compile/consistency.rs:642-648 | the running budget is the exact length of the query that the terms spell |
| FtsTerms.MoreAliasesExtend | crates/wiktor-core/src/compile/consistency.rs:621-651 | appending aliases only extends the terms |
| FtsTerms.TitleAndAliasesAreEligible | crates/wiktor-core/src/compile/consistency.rs:622-641 | the trimmed title, if of three or more characters, is the first eligible phrase; every trimmed alias of three or more characters is eligible; nothing else is |
| FtsTerms.BudgetIsUsed | crates/wiktor-core/src/compile/consistency.rs:642-648 | the terms with quotes and separators take at most 256 characters, and one more eligible phrase would take more |
| Filter.ParseFilter | crates/wiktor-cli/src/filter.rs:27-33 | the loop parses the non-empty comma parts in order, and the first part that fails decides the error |
| FilterRoundTrip.ListRoundTrip | crates/wiktor-cli/src/filter.rs:27-128 | parsing the comma-joined printed list gives the list back exactly when every condition is of the surviving kind |
| FilterRoundTrip.OneRoundTrip | crates/wiktor-cli/src/filter.rs:35-128 | a comma-free condition survives its own printing and parsing exactly when it is of the surviving kind |
| FilterRoundTrip.AtMostRoundTrip | crates/wiktor-cli/src/filter.rs:38-48 | an upper bound survives exactly when its field does not hold the operator |
| FilterRoundTrip.AtLeastRoundTrip | crates/wiktor-cli/src/filter.rs:49-59 | a lower bound survives exactly when its field holds neither range operator |
| FilterRoundTrip.TextRoundTrip | crates/wiktor-cli/src/filter.rs:90-117 | a text equality survives exactly when no stronger operator arises in or across field and value, the field has no `=` and the value is no boolean word |
| FilterRoundTrip.ContainsRoundTrip | crates/wiktor-cli/src/filter.rs:75-123 | a non-empty `in=` list survives exactly when its items are clean and no stronger operator occurs |
| FilterRoundTrip.ExcludesRoundTrip | crates/wiktor-cli/src/filter.rs:62-126 | a `not_in=` list, empty or not, survives exactly when its items are clean and no stronger operator occurs |
| FilterRoundTrip.EmptyScopeIsLost | crates/wiktor-cli/src/filter.rs:118-120 | an empty `in=` list never survives: its printed marker parses as an item |
| FilterRoundTrip.ParsedShape | crates/wiktor-cli/src/filter.rs:35-104 | whatever parses is trimmed and has the shape that printing expects: never a two-sided or unbounded range, list items clean |
| FilterRoundTrip.FirstSplit | crates/wiktor-cli/src/filter.rs:38-90 | where the first occurrence of an operator lies in a text put together around that operator |
| FilterRefusals.NoBooleanEqualities | crates/wiktor-cli/src/filter.rs:90-97 | no filter that parses holds an equality with `true` or `false`, each letter in either case |
| FilterRefusals.PrintedWordIsRefused | crates/wiktor-cli/src/filter.rs:90-97 | printing an equality of a clean field with one of the two words and parsing it gives the boolean error, with the whole part |
| FilterRefusals.PrintedWordRefusesFilter | crates/wiktor-cli/src/filter.rs:27-97 | the same for a whole filter that consists of it |
| FilterRefusals.PrintedEqualityFailsIff | crates/wiktor-cli/src/filter.rs:35-105 | for a clean field and a trimmed value the printed equality fails to parse exactly when the value is one of the two words or holds a range operator without a number after it |
| FilterRefusals.ValueWithBoundFails | crates/wiktor-cli/src/filter.rs:38-43 | a value that is no boolean word and whose printed equality does not parse |
| FilterRefusals.PartFailsIff | crates/wiktor-cli/src/filter.rs:35-105 | a part fails exactly when no number follows its first numeric operator, it is an equality with one of the two words, or it holds no `=` |
| FilterRefusals.UpperBoundReads | crates/wiktor-cli/src/filter.rs:38-48 | the first `<=` splits a part into field and upper bound, or its text is the invalid number |
| FilterRefusals.LowerBoundReads | crates/wiktor-cli/src/filter.rs:49-59 | without `<=` the first `>=` splits it into field and lower bound, or its text is the invalid number |
| FilterRefusals.ExclusionReads | crates/wiktor-cli/src/filter.rs:62-74 | without a range operator the first `not_in=` makes it an exclusion of the items after it |
| FilterRefusals.MembershipReads | crates/wiktor-cli/src/filter.rs:75-87 | without these the first `in=` makes it a membership in the items after it |
| FilterRefusals.EqualityReads | crates/wiktor-cli/src/filter.rs:90-102 | without these the first `=` makes it an equality, unless its value is one of the two words |
| FilterRefusals.NoEqualsNoReading | crates/wiktor-cli/src/filter.rs:104 | a part without `=` cannot be parsed |
| RateLimit.FixedWindowLimiter.constructor | crates/wiktor-server/src/rate_limit.rs:44-51 | window and maximum are at least one, and nothing was admitted |
| RateLimit.FixedWindowLimiter.TryAcquire | crates/wiktor-server/src/rate_limit.rs:63-86 | the answer is the one of the calls so far followed by this one, the state keeps up with the history, and a refusal leaves it unchanged |
| RateLimit.CounterIsAdmissions | crates/wiktor-server/src/rate_limit.rs:63-86 | for the current window and later ones the stored counter is the number of admissions |
| RateLimit.ExactAdmission | crates/wiktor-server/src/rate_limit.rs:63-86 | on a non-decreasing clock a call is admitted exactly when fewer than the maximum were admitted for its key in its window |
| RateLimit.AtMostMaxPerWindow | crates/wiktor-server/src/rate_limit.rs:63-86 | no key gets more than the maximum in any window of any run |
| RateLimit.SpanBound | crates/wiktor-server/src/rate_limit.rs:63-86 | any L seconds admit at most (ceil((L-1)/w)+1)*max calls of a key |
| RateLimit.KeysAreIsolated | crates/wiktor-server/src/rate_limit.rs:63-86 | the answers for a key are those of the run restricted to that key |
| RateLimit.RefusedCallsLeaveNoTrace | crates/wiktor-server/src/rate_limit.rs:63-86 | deleting a refused call changes no later state |
| RateLimit.RetryAfterIsTight | crates/wiktor-server/src/rate_limit.rs:74-82 | the delay lies between 1 and the window, every retry of the key before it is refused with what then remains of it, and the first one after it is admitted, whatever other calls come between |
| Metrics.Metrics.RecordQueryLatencyMs | crates/wiktor-server/src/metrics.rs:187-195 | the bucket search puts a latency into its one bucket: every bucket keeps counting the recorded latencies that belong to it |
| Metrics.Metrics.RenderHistogram | crates/wiktor-server/src/metrics.rs:283-302 | each rendered bound counts the recorded latencies up to it, and +Inf is the total |
| Metrics.Metrics.QueryLatencyMsSum | crates/wiktor-server/src/metrics.rs:327-335 | the rendered sum adds up the midpoints of all recorded latencies |
| Metrics.Cumulate | crates/wiktor-server/src/metrics.rs:283-302 | the latencies below one bound and those in the next bucket are the ones below the next bound |
| Metrics.CumulativeMonotone | crates/wiktor-server/src/metrics.rs:283-302 | cumulative values never decrease and never exceed the total |
| Metrics.MidpointSumIsSum | crates/wiktor-server/src/metrics.rs:327-335 | summing by bucket equals summing by latency |
| Metrics.SumIsClose | crates/wiktor-server/src/metrics.rs:327-335 | without latencies over 100 ms the rendered sum is off by at most 25 per query |
| Metrics.MidpointIs | crates/wiktor-server/src/metrics.rs:327-335 | the midpoint of each range of latencies, 150 past the last bound |
| Metrics.SumByBounds | crates/wiktor-server/src/metrics.rs:327-335 | the rendered sum in terms of how many latencies lie up to each bound; every latency over 100 ms counts as 150 |
| Metrics.CumulativeIs | crates/wiktor-server/src/metrics.rs:283-302 | the seven rendered values count the latencies up to 1, 5, 10, 25, 50 and 100 ms, and all of them |
| FeedbackStore.EventStore.InsertBatchIdempotent | crates/wiktor-core/src/kernel/feedback_store.rs:1136-1154 | a batch succeeds as a whole or changes nothing; which error it gives, and what it acknowledges |
| FeedbackStore.BatchKeepsRows | crates/wiktor-core/src/kernel/feedback_store.rs:1240-1315 | a batch changes no stored row, keeps ids unique, and adds one row per event acknowledged as new |
| FeedbackStore.BatchAcknowledges | crates/wiktor-core/src/kernel/feedback_store.rs:1240-1315 | every event is acknowledged with the id and time of the row stored under its key |
| FeedbackStore.BatchKeys | crates/wiktor-core/src/kernel/feedback_store.rs:1240-1315 | the stored keys are the old ones and the batch's |
| FeedbackStore.ReplayIsIdempotent | crates/wiktor-feedback/src/store.rs:40-52 | sending a stored batch again changes nothing and replays every event under its first id and time |
| FeedbackStore.BatchStamps | crates/wiktor-core/src/kernel/feedback_store.rs:1240-1315 | the row that a batch writes for a new key is that of its first event with the key, with a fresh id and the time of the batch |
| FeedbackStore.BatchReplays | crates/wiktor-core/src/kernel/feedback_store.rs:1240-1315 | an event is a replay exactly when its key was stored before or occurs earlier in the batch |
| FeedbackServer.FeedbackServer.Handle | crates/wiktor-server/src/lib.rs:271-616 | the handler answers as the run of all requests so far says, and limiter, counters, audits and table stay those of that run |
| FeedbackServer.FeedbackServer.Serve | crates/wiktor-server/src/lib.rs:271-616 | one request through its gates: outcome, limiter, counters, audits and table of the request step |
| FeedbackServer.FeedbackServer.HandleAdmitted | crates/wiktor-server/src/lib.rs:388-616 | after the limiter: outcome, counters, audits and table, the table changing only with a 200 |
| FeedbackServer.FeedbackServer.Persist | crates/wiktor-server/src/lib.rs:553-616 | the store transaction, its three ways to end, and what each counts |
| FeedbackServer.ServerKeepsBooks | crates/wiktor-server/src/lib.rs:222-616 | whatever requests a server object has handled, its counters tell its answers and balance with their number, its audits add up, and its table has one row per event acknowledged as new |
| FeedbackServer.ReadEvents | crates/wiktor-server/src/lib.rs:408-518 | the event loop stops at the first bad event with its index, or yields the inputs |
| FeedbackServer.CheckPages | crates/wiktor-server/src/lib.rs:520-551 | the first page, in page order, that is missing or cannot be looked up decides |
| FeedbackRuns.OutcomesAreConserved | crates/wiktor-server/src/lib.rs:271-616 | over every run: requests = 200s + rejections of all reasons + rate limited + 500s |
| FeedbackRuns.CountersAreExact | crates/wiktor-server/src/lib.rs:222-616 | over every run each counter is the number of exchanges it is about; store errors are 500s plus lost audits; ingested plus replayed are the acknowledged events |
| FeedbackRuns.AuditsAreConserved | crates/wiktor-server/src/lib.rs:222-241 | over every run each audited rejection is on record or counted as lost |
| FeedbackRuns.TableStep | crates/wiktor-server/src/lib.rs:553-616 | a request keeps every stored event, and any answer but a 200 leaves the table as it was |
| FeedbackRuns.TableGrows | crates/wiktor-feedback/src/store.rs:40-52 | over every run the table stays coherent, only grows, and holds as many rows as events were ingested |
| FeedbackRuns.AcknowledgementsAreStable | crates/wiktor-feedback/src/store.rs:40-52 | what a 200 acknowledged is still stored under the same id and time after any later requests |
| FeedbackRuns.LimiterSeesItsCalls | crates/wiktor-server/src/lib.rs:330-386 | requests that fail body limit, authentication, JSON or tenant checks never touch the limiter; all others do once |
| FeedbackRuns.PassedIsAdmitted | crates/wiktor-server/src/lib.rs:372-386 | the requests that got past the limiter in a window are the limiter's admissions |
| FeedbackRuns.RequestsAreLimitedExactly | crates/wiktor-server/src/lib.rs:372-386 | per (domain, label) and window at most the maximum gets through, and a request is answered 429 exactly when that many did |
| FeedbackAnswers.GatesInOrder | crates/wiktor-server/src/lib.rs:271-386 | the first five answers, each exactly under its condition: over 65536 bytes, no known key, no JSON, another domain, no admission left in the window |
| FeedbackAnswers.LimiterCounts | crates/wiktor-server/src/lib.rs:372-386 | a request in order with room left raises its own counter by one, any other request leaves all counters |
| FeedbackAnswers.AcceptedIff | crates/wiktor-server/src/lib.rs:271-616 | a request is answered 200 exactly when it passes the gates, has room in its window, sends 1 to 100 legal events, names known pages and logs, and meets no database error |
| FeedbackAnswers.AcceptedPagesExist | crates/wiktor-server/src/lib.rs:523-541 | of an accepted request the page of every click and every adopt exists in the domain and could be looked up |
| FeedbackAnswers.RefusalsInOrder | crates/wiktor-server/src/lib.rs:388-616 | past the limiter: a bad count, the first bad event, and UnknownPage or LookupFailed exactly when count and events are good and the page of some click or adopt is missing or broken |
| FeedbackAnswers.FirstBadPageDecides | crates/wiktor-server/src/lib.rs:520-551 | of several bad pages the first in string order decides, and with which of the two answers |
| FeedbackAnswers.AcceptedIsStored | crates/wiktor-server/src/lib.rs:553-592 | each event of an accepted request is stored under its domain and key and acknowledged with that row: a replay exactly when the key was there or came earlier, otherwise a row with all that was sent |
| FeedbackAnswers.AcceptedIsComplete | crates/wiktor-server/src/lib.rs:553-592 | an accepted request is acknowledged event by event |
| FeedbackAnswers.AuditRows | crates/wiktor-server/src/lib.rs:222-241 | the audit row of each of the three 413 answers, and of no other |
| FeedbackAnswers.RejectionCells | crates/wiktor-server/src/lib.rs:246-616 | over every run each rejection cell counts the answers that belong to it |
| FeedbackAnswers.OtherCounters | crates/wiktor-server/src/lib.rs:222-616 | over every run the limiter refusals, and the failed lookups and stores together with the lost audit rows |
| FeedbackAnswers.StatusCodes | crates/wiktor-server/src/lib.rs:271-616 | the status of every answer |
| Analyzer.AnalyzeWindowWith | crates/wiktor-feedback/src/analyzer.rs:277-453 | the loops over maps compute the declared analysis: same report, same error, in the order of the checks |
| Analyzer.AggregateLogs | crates/wiktor-feedback/src/analyzer.rs:302-333 | both query classes are aggregated by key, independently, and the first qualifying log without a key fails the whole |
| Analyzer.AggregatePages | crates/wiktor-feedback/src/analyzer.rs:335-359 | each page's counts and log ids are those of its events; events without a page are left out |
| Analyzer.Finish | crates/wiktor-feedback/src/analyzer.rs:361-453 | report items, caps without truncation and suggestions from the aggregates, class by class |
| AnalyzerLaws.SucceedsIff | crates/wiktor-feedback/src/analyzer.rs:277-453 | the analysis succeeds exactly when the minimum is positive, the range is not reversed, every qualifying log has a key and no class exceeds 1000 |
| AnalyzerLaws.OrderIsIrrelevant | crates/wiktor-feedback/src/analyzer.rs:277-453 | permuting logs and events changes neither success nor any field of a successful report |
| AnalyzerLaws.QueryAggsMerge | crates/wiktor-feedback/src/analyzer.rs:220-243 | the query aggregates of two windows together are the merge of theirs key by key |
| AnalyzerLaws.PageAggsMerge | crates/wiktor-feedback/src/analyzer.rs:245-252 | the page aggregates of two windows together are the merge of theirs page by page |
| AnalyzerLaws.OccurrencesConserved | crates/wiktor-feedback/src/analyzer.rs:302-333 | the occurrences of a class add up to the logs that meet its criterion |
| AnalyzerLaws.LogIdsConserved | crates/wiktor-feedback/src/analyzer.rs:477-501 | each log id occurs in the items of a class exactly as often as among its qualifying logs |
| AnalyzerLaws.LatencyConserved | crates/wiktor-feedback/src/analyzer.rs:236-241 | occurrences times average latency add up to the latency of the qualifying logs |
| AnalyzerLaws.LogSitsInItsItem | crates/wiktor-feedback/src/analyzer.rs:477-501 | with distinct ids a log is in the item of its key and in no other, and only if it qualifies |
| AnalyzerLaws.ReportAscends | crates/wiktor-feedback/src/analyzer.rs:361-397 | query keys and page ids are strictly ascending |
| AnalyzerLaws.ListedIff | crates/wiktor-feedback/src/analyzer.rs:134-136 | a page is listed exactly when its feedback reaches the minimum and five times its adoptions stay below it; adoptions never exceed feedback |
| AnalyzerLaws.ClickNeverDelists | crates/wiktor-feedback/src/analyzer.rs:335-397 | one more non-scoring event, wherever it arrives, delists no page |
| AnalyzerLaws.AdoptionListsOnlyAtTheMinimum | crates/wiktor-feedback/src/analyzer.rs:335-397 | one more scoring event lists an unlisted page exactly when it completes the minimum sample and the rate stays under the threshold |
| AnalyzerCriteria.PageIsReportedIff | crates/wiktor-feedback/src/analyzer.rs:335-397 | a page is reported exactly when its events reach the minimum and five times its adopts and ratings of at least 4 stay below their number |
| AnalyzerCriteria.ReportedPageHolds | crates/wiktor-feedback/src/analyzer.rs:372-389 | a reported page carries its own counts, their quotient, and the log ids of its events, ascending and without repetition |
| AnalyzerCriteria.NoAdoptionNoRelief | crates/wiktor-feedback/src/analyzer.rs:347-358 | one more click, rating of at most 3, or rate event without a rating, wherever it arrives, takes no page off the report |
| AnalyzerCriteria.ClicksOnlyAreReported | crates/wiktor-feedback/src/analyzer.rs:347-397 | a page with at least the minimum of events, all clicks, is reported with no adoption |
| AnalyzerCriteria.ItemsAreExact | crates/wiktor-feedback/src/analyzer.rs:302-333 | both query classes: every log that meets the criterion has its item, and each item has the number, average latency and sorted ids of its logs |
| AnalyzerCriteria.RefusalsAre | crates/wiktor-feedback/src/analyzer.rs:282-333 | no minimum, then a reversed range, then the first qualifying log without a key is refused |
| AnalyzerCriteria.CapsAre | crates/wiktor-feedback/src/analyzer.rs:361-397 | with sound arguments a class of more than 1000 items is refused, the first of them in report order; otherwise the analysis succeeds |
| AnalyzerLaws.SuggestionsFollowItems | crates/wiktor-feedback/src/analyzer.rs:407-427 | one suggestion per item in report order: zero recall asks for a supplemental compile, a rewrite failure for a query template, a page for itself |
| AnalyzerCriteria.ReportHead | crates/wiktor-feedback/src/analyzer.rs:429-451 | the report repeats domain, range and minimum and counts the rows read |
| Cosine.CauchySchwarz | crates/wiktor-core/src/kernel/mock_vector.rs:30-42 | the squared dot product never exceeds the product of the squared norms |
| Cosine.SimilarityBounds | crates/wiktor-core/src/kernel/mock_vector.rs:30-42 | the similarity lies in [-1, 1] and is symmetric, for all pairs of vectors |
| Cosine.SelfSimilarity | crates/wiktor-core/src/kernel/mock_vector.rs:30-42 | a vector of non-zero norm has similarity 1 to itself |
| Cosine.ZeroNormIsZeroVector | crates/wiktor-core/src/kernel/mock_vector.rs:37-38 | the zero-norm case is exactly the zero vector |
| Cosine.SimilarityIgnoresScale | crates/wiktor-core/src/kernel/mock_vector.rs:30-42 | a positive factor on the query changes no score |
| VectorStore.Score | crates/wiktor-core/src/kernel/mock_vector.rs:85-97 | the scan scores each candidate point once, whatever order the map is visited in |
| VectorStore.SortByRank | crates/wiktor-core/src/kernel/mock_vector.rs:105-109 | any order of visiting ends in the one order by score descending, then id ascending |
| VectorStore.MockVectorStore.Search | crates/wiktor-core/src/kernel/mock_vector.rs:73-119 | the answer is the declared top k of the collection, or the missing-collection error |
| VectorStore.MockVectorStore.Upsert | crates/wiktor-core/src/kernel/mock_vector.rs:58-71 | the loop writes the batch into its collection, creating it if need be, and touches no other |
| VectorStore.MockVectorStore.Delete | crates/wiktor-core/src/kernel/mock_vector.rs:121-129 | exactly the listed ids leave the collection; a missing collection stays missing |
| VectorStore.MockVectorStore.EnsureCollection | crates/wiktor-core/src/kernel/mock_vector.rs:47-56 | the collection is there with the points it had |
| VectorStoreLaws.SearchAnswers | crates/wiktor-core/src/kernel/mock_vector.rs:73-119 | a list is the answer exactly when it holds stored candidates with their scores, strictly ranked, as many as asked or there are, with every candidate left out ranked after it |
| VectorStoreLaws.HitsDescend | crates/wiktor-core/src/kernel/mock_vector.rs:105-109 | an earlier hit has a higher score, or the same score and a smaller id |
| VectorStoreLaws.LeftOutScoresLess | crates/wiktor-core/src/kernel/mock_vector.rs:85-118 | a candidate that is left out scores at most as much as the last of the k hits, and on a tie has a larger id |
| VectorStoreLaws.HitsAreTrue | crates/wiktor-core/src/kernel/mock_vector.rs:85-118 | every hit is a stored point of a wanted entity with its own similarity and metadata |
| VectorStoreLaws.HitsAreCounted | crates/wiktor-core/src/kernel/mock_vector.rs:85-118 | there are as many hits as candidates, up to k |
| VectorStoreLaws.MoreExtends | crates/wiktor-core/src/kernel/mock_vector.rs:105-118 | the answer for k is a prefix of the answer for more |
| VectorStoreLaws.FilterThenTruncate | crates/wiktor-core/src/kernel/mock_vector.rs:85-118 | candidates are picked before the list is cut: the first k candidates of the full ranking |
| VectorStoreLaws.ScoresAreBounded | crates/wiktor-core/src/kernel/mock_vector.rs:95-118 | every score of an answer lies in [-1, 1] |
| VectorStoreLaws.UpsertOverwrites | crates/wiktor-core/src/kernel/mock_vector.rs:58-71 | an upsert overwrites by id, the last point of a batch wins, and no other point changes |
| VectorStoreLaws.UpsertIgnoresOrder | crates/wiktor-core/src/kernel/mock_vector.rs:58-71 | a batch without repeated ids may be written in any order |
| VectorStoreLaws.DeleteUndoesUpsert | crates/wiktor-core/src/kernel/mock_vector.rs:121-129 | deleting what a batch added restores the points |
| VectorStoreLaws.SearchAfterDelete | crates/wiktor-core/src/kernel/mock_vector.rs:73-129 | after a delete the answer is what is left of the full ranking |
| VectorStoreLaws.CollectionsAreIsolated | crates/wiktor-core/src/kernel/mock_vector.rs:47-135 | what a collection holds after any history depends on the operations on it alone |
| VectorStoreLaws.RecreateForgets | crates/wiktor-core/src/kernel/mock_vector.rs:131-135 | a collection's history before its recreation is forgotten |
| Compatibility.CheckSemverField | crates/wiktor-core/src/compile/compatibility.rs:386-418 | no violation exactly when the trimmed text is a version in range; missing and invalid are told apart |
| Compatibility.CheckArtifactField | crates/wiktor-core/src/compile/compatibility.rs:424-450 | no violation exactly when the trimmed text is on the allowlist |
| Compatibility.EvaluatePageIdentities | crates/wiktor-core/src/compile/compatibility.rs:468-539 | the loop lists each page's violations in page order |
| Compatibility.EvaluateTaskSnapshots | crates/wiktor-core/src/compile/compatibility.rs:561-630 | the loop lists each task's violations in task order, a corrupt snapshot as its one violation |
| Compatibility.PageViolationsMeaning | crates/wiktor-core/src/compile/compatibility.rs:468-539 | a page has no violation exactly when version, artifact and quality policy satisfy the matrix; violations name their page |
| Compatibility.TaskViolationsMeaning | crates/wiktor-core/src/compile/compatibility.rs:561-630 | a task has no violation exactly when its snapshot reads and all four versions satisfy the matrix |
| Compatibility.CompatibleIff | crates/wiktor-core/src/compile/compatibility.rs:270-291 | compatible means every page and every task of the domain satisfies the matrix |
| Compatibility.EvaluationDistributes | crates/wiktor-core/src/compile/compatibility.rs:468-630 | evaluating a concatenation of rows is evaluating one part after the other |
| Compatibility.OtherDomainsAreIgnored | crates/wiktor-core/src/compile/compatibility.rs:277-281 | a task of another domain, anywhere in the list, does not affect the report |
| Compatibility.EntityDomainOfKey | crates/wiktor-core/src/compile/compatibility.rs:374-379 | the first segment of a key is its domain exactly when the domain holds no colon |
| CompatibilityFaults.PageFaultsAre | crates/wiktor-core/src/compile/compatibility.rs:468-539 | a page is reported for exactly what is wrong with it: subject, code, field and texts of every violation, those of the four frontmatter cases included |
| CompatibilityFaults.TaskFaultsAre | crates/wiktor-core/src/compile/compatibility.rs:561-630 | the same for the snapshot of a task |
| CompatibilityFaults.PageFieldsDiffer | crates/wiktor-core/src/compile/compatibility.rs:468-539 | no field of a page is reported twice |
| CompatibilityFaults.TaskFieldsDiffer | crates/wiktor-core/src/compile/compatibility.rs:561-630 | no field of a task is reported twice |
| CompatibilityFaults.AllowlistShape | crates/wiktor-core/src/compile/compatibility.rs:454-457 | the expected text lists the allowlist in ascending order between brackets |
| CompatibilityFaults.ReportLists | crates/wiktor-core/src/compile/compatibility.rs:270-291 | the report counts the pages and the tasks of the domain, and lists exactly what is wrong with one of them |
| CompatibilityFaults.EntityDomainIs | crates/wiktor-core/src/compile/compatibility.rs:374-379 | a task is of the domain exactly when the domain holds no colon and the entity is the domain or continues it after a colon |
| CompatibilityWidening.WideningNeverAdds | crates/wiktor-core/src/compile/compatibility.rs:386-450 | widening any range or the allowlist adds no violation, counted with repetitions, and keeps compatibility |
| CompatibilityWidening.CorruptIsNeverAccepted | crates/wiktor-core/src/compile/compatibility.rs:491-537 | no matrix accepts a page whose frontmatter is unreadable or states no policy object, nor an unreadable snapshot of the domain |
| SourceProjection.ResolveKnowledgeFields | crates/wiktor-core/src/compile/config.rs:456-512 | the resolved fields in either mode, or the first refused entry and why |
| SourceProjection.RawToFacts | crates/wiktor-core/src/data/jsonl.rs:85-146 | the typed facts of all declared fields, or the first missing or ill-typed one |
| SourceProjection.PrepareSource | crates/wiktor-core/src/compile/config.rs:550-589 | the projection, or the first check that fails |
| SourceProjection.ResolvedAreSafe | crates/wiktor-core/src/compile/config.rs:456-512 | in both modes a resolved field is declared, not filterable, text or reference list, and not sensitive |
| SourceProjection.ExplicitIff | crates/wiktor-core/src/compile/config.rs:471-512 | an explicit list is accepted exactly when it repeats nothing and every entry is non-blank, declared, not filterable, text or reference list, and not sensitive |
| SourceProjection.DefaultIsExact | crates/wiktor-core/src/compile/config.rs:456-470 | without an explicit list exactly the non-filterable, non-sensitive text fields are resolved |
| SourceProjection.FactsCoverSchema | crates/wiktor-core/src/data/jsonl.rs:85-103 | facts exist for exactly the declared fields, all of them present, each the typed reading of its value |
| SourceProjection.FactsKeepValues | crates/wiktor-core/src/data/jsonl.rs:105-146 | a fact has its declared type, and a text, boolean or reference list determines the value it was read from |
| SourceProjection.KnowledgeIsResolved | crates/wiktor-core/src/compile/config.rs:550-589 | the knowledge of a prepared source has exactly the resolved fields |
| SourceProjection.KnowledgeReveals | crates/wiktor-core/src/compile/config.rs:550-589 | two prepared sources have equal knowledge exactly when they agree on id, revision and resolved fields |
| SourceProjection.SensitiveNeverShows | crates/wiktor-core/src/compile/config.rs:550-589 | changing a sensitive value never changes the knowledge |
| SourceFacts.FactIs | crates/wiktor-core/src/data/jsonl.rs:105-146 | the fact of each type: the float or integer that the number reads as, the text, the boolean, the texts of the array; any other value is refused |
| SourceFacts.FactsAreRead | crates/wiktor-core/src/data/jsonl.rs:85-103 | the fact of a name is what the value stands for under the last declaration of the name |
| SourceFacts.FirstUnreadableDecides | crates/wiktor-core/src/data/jsonl.rs:85-146 | the first field that is missing or has another type decides the error |
| SourceFacts.FirstRefusalDecides | crates/wiktor-core/src/compile/config.rs:471-512 | the first refused entry of an explicit list decides, and with what: blank, repeated, undeclared, filterable, of another type, sensitive, in this order |
| SourceFacts.PreparedIff | crates/wiktor-core/src/compile/config.rs:550-589 | a source is prepared exactly when the policy passes, the revision is between 1 and 9223372036854775807, the fields resolve, every field can be read and the original can be hashed |
| SourceFacts.PreparedHolds | crates/wiktor-core/src/compile/config.rs:550-589 | original, hash, ids and revisions of a prepared source, and original values in its knowledge |
| SourceFacts.FaultsInOrder | crates/wiktor-core/src/compile/config.rs:550-589 | of several faults the earliest check is reported |
| Lease.ReapUntilCancelled | crates/wiktor-core/src/compile/lease.rs:83-104 | one recovery per wake up to the first that is not a successful tick: the run drained exactly when that wake is a cancellation, and failed exactly when its recovery did |
| Lease.BeatUntilCancelled | crates/wiktor-core/src/compile/lease.rs:167-186 | the loop renews until the first cancellation, stale answer or fault, and beats no more after it |
| Lease.HeartbeatInterval | crates/wiktor-core/src/compile/lease.rs:119-121 | the interval is positive and at most half a lease of two seconds or more |
| Lease.HeartbeatIsSafe | crates/wiktor-core/src/compile/lease.rs:167-227 | in every interleaving: one beat at a time, none after a stale or failed one, none once stop has returned, finalization only after that, and at most one beat started after stop was called |
| Lease.BeatsKeepOrder | crates/wiktor-core/src/compile/lease.rs:167-227 | event by event: no beat after stop has returned, none started after a stale or failed one, stop returned before the task is finalized |
| Lease.EndsAsLogged | crates/wiktor-core/src/compile/lease.rs:167-186 | the runner ends badly exactly on a failed beat, and well only after a stop or on a stale lease |
| Lease.RenewalsGoOn | crates/wiktor-core/src/compile/lease.rs:167-186 | unless stopped, any number of renewals can follow each other, and the stop can come after any of them |
| Lease.BeatOnce | crates/wiktor-core/src/compile/lease.rs:167-186 | a sleeping runner can beat, and the beat can end in any of the three ways: renewed it sleeps again, stale it ends well, failed it ends badly |
| Lease.StopTerminates | crates/wiktor-core/src/compile/lease.rs:216-227 | a stop never deadlocks, and every action brings its end closer |
| Worker.WorkerIsOrdered | crates/wiktor-server/src/worker.rs:257-293 | in every interleaving all task processing lies between the startup recovery and the drain, nothing is recovered after a failure or after the drain started, and at most one tick slips in after the loop was left |
| Worker.EventsKeepOrder | crates/wiktor-server/src/worker.rs:257-293 | event by event: what may not come after the startup recovery, the end of the loop, the drain, a failure and the end |
| Worker.WorkGoesOn | crates/wiktor-server/src/worker.rs:257-293 | any number of tasks can be processed, with a recovery during each, and the loop can be left after any of them |
| Worker.LogFollowsSchedule | crates/wiktor-core/src/compile/lease.rs:83-104 | in every interleaving there is one periodic recovery per tick, and a drain exactly when the cancellation was polled |
| Worker.CleanEnd | crates/wiktor-core/src/compile/lease.rs:83-104 | a reaper ends cleanly exactly when its drain succeeded; it has then recovered ticks + 1 times, the drain last, and nothing failed |
| Worker.ErrorEnd | crates/wiktor-core/src/compile/lease.rs:83-104 | a reaper ends with an error exactly when a recovery failed; it has then drained exactly when the drain is what failed, which is exactly when the cancellation was polled, and not at all exactly when a periodic recovery failed |
| Worker.DrainMayFail | crates/wiktor-core/src/compile/lease.rs:86-94 | a run whose reaper ends with an error although it drained |
| Worker.ShutdownTerminates | crates/wiktor-server/src/worker.rs:285-291 | once the loop was left the worker is never stuck and every action brings its end closer |

## Left out

- The LLM consistency arbiter, the LLM client, the Qdrant, Meilisearch and HTTP embedding adapters: network calls and model verdicts.
- The SQLite kernel beyond the feedback batch insert: claiming, publishing, recovery and review SQL. Batch atomicity is modelled as the transaction that the insert opens.
- Rounding, NaN, infinities and signed zero of floating-point numbers: scores, rates and averages are exact reals. Canonical JSON keeps whether a number is finite.
- Integer widths of counters, sums and the reported minimum: they are unbounded. Lengths in canonical JSON are bounded by 64 bits where that matters, and the source revision is bounded by the signed 64-bit maximum.
- Races between relaxed atomic counters and between requests: requests are atomic steps.
- The text of a float: assumed to read back as the same float and to hold none of the filter syntax.
- JSON, YAML, number and semver parsing, BLAKE3, and Unicode case tables: parameters. ASCII case folding and Unicode white space are written out.
- Byte lengths of UTF-8 text where the code counts bytes of whole requests: sizes of bodies and metadata are inputs.
- The rendered text of `/metrics` beyond the histogram, response bodies and headers beyond status and delay, the report hash, schema version, reason and subject texts of suggestions.
- A failing commit: it is a fault at the last event of its batch.
- The contents of query logs and pages during a run of requests: given with each request.
- Task states inside the worker's consume loop: a task is taken and finished; which one, and with what result, is not modelled.
- Cosine.Similarity: has a branch for a vanishing product of roots that no square root reaches, because a division needs a non-zero divisor.
- VectorStore.SortByRank: is an insertion sort standing for the library's stable sort; its contract holds of any sort by the same order.
- The console, the terminal interface, CLI argument handling, Markdown reports, generators, benchmarks and deployment scripts.
