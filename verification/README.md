# Risk-control filter, flashblock builder and log router: a verified model

The node screens every transaction against hot-reloadable rules before it may be packaged. A transaction that
needs an external audit is buffered, submitted to the risk-control service (RCS) and polled until it is approved,
denied or times out. This project models that filter (`crates/rcs-filter`), the accumulation of flashblocks that
packages what the filter lets through (`crates/builder/src/flashblocks`), and the routing of `eth_getLogs` between a
legacy back end and the local node (`crates/legacy-rpc`), and proves properties of every run.

| file | content |
|---|---|
| `Prelude.dfy` | machine bounds, options and results, wire values |
| `QuotaEncoding.dfy` | the canonical encoding of quota actions and its unambiguity |
| `Matcher.dfy` | the budgeted matcher |
| `LogMatching.dfy`, `MatcherSpec.dfy` | which logs an event is read from and in which order; what the matcher decides over the whole product of bindings |
| `SubmitProfile.dfy`, `SubmitGraph.dfy` | conflict profiles and the nearest-predecessor graph |
| `SubmitScheduler.dfy`, `SubmitRuns.dfy`, `SubmitBatch.dfy` | the bounded-concurrency scheduler, its runs, a whole batch with barriers |
| `Lifecycle.dfy` | one buffered entry as a state machine, and the pool class over it |
| `FilterRuns.dfy`, `FilterMoves.dfy`, `FilterHistory.dfy` | the filter as a labelled state machine; what each step does to each state; invariants, fencing, provenance, deadlines, events over runs |
| `Screening.dfy`, `FilterHandle.dfy` | one screening call under interference; the shared object and its locked sections |
| `QueryWorker.dfy`, `SubmitWorker.dfy` | the poll and submit workers against the pool |
| `SubmitPass.dfy` | a whole submit pass: the scheduler's order played against the pool |
| `Flashblocks.dfy` | the pool iterator and the flashblock loop with its budgets |
| `GetLogs.dfy` | quantities, request rewriting, stable merge, routing |

How the outside world enters:

- Every locked section of the filter is one atomic step. A run is any sequence of steps, so the interleaving of
  builder and workers, RCS replies, clock readings (not even monotone), canonical removals and rule swaps are all
  universally quantified. What other threads do between two locked sections of one call is a parameter (`Gaps`,
  `Round.gap`, `Reply.gap`).
- Completion order and outcome of submit requests are nondeterministic choices inside the scheduler's loops.
- ABI decoding, condition evaluation, address and integer parsing and keccak256 are function parameters: each result
  holds for any of them.
- A flashblock job is a `Plan`: what the pool offers, what executes, what the builder's own transactions reserve, and
  which seal, publish or hand-over fails are given per round. The job is proved to do what functions of the plan say.
- Results about generations carry the bound of fewer than 2^64 insertions, because the counter wraps;
  `CounterCounts` says exactly how.

Where code and comments disagree the model follows the code: block tags such as `latest` parse to the largest 64-bit
number, not to nothing (`get_logs.rs:38-56`); merged logs are ordered by block number only, stably
(`get_logs.rs:185-203`); a passed consistency check leaves an entry approved instead of making it terminal
(`handle.rs:499-501`).

Some properties hold only under a condition, and the condition is proved exact. The reason announced for a discard
depends on row order when one response calls a transaction both denied and outdated (`ReasonNeedsOneRejection`); the
pool itself does not. Two address spellings encode alike if and only if one of the cases of `SameAddress`
holds, among them an unparseable spelling of exactly twenty bytes. A straddling `eth_getLogs` range whose upper bound
is a tag is answered up to the head, because the router writes the largest number in its place; on a given chain it
equals one node's answer if and only if no matching log lies where the two read a bound differently (`RoutedAgrees`),
and on every chain if and only if the bounds are read alike (`RoutedAgreesAlways`). A transaction executed in a round
that is cancelled or fails before publishing is in no flashblock; everything executed is in exactly one slice if and
only if `AllSliced` (`SlicesTile`). The budgets carried past the last flashblock can overflow 64 bits, exactly when the
shares given out plus one more do (`PastTargetFitsIff`).

## Model

| member | source | states |
|---|---|---|
| `QuotaEncoding.Buffer.PushU32` | crates/rcs-filter/src/quota_hash.rs:71-73 | appends the length modulo 2^32 as four big-endian bytes |
| `QuotaEncoding.Buffer.PushBytes` | crates/rcs-filter/src/quota_hash.rs:65-68 | appends a length-prefixed field |
| `QuotaEncoding.Buffer.PushJsonValue` | crates/rcs-filter/src/quota_hash.rs:42-62 | appends the tagged encoding of a value, arrays to any depth |
| `QuotaEncoding.Buffer.PushAddress` | crates/rcs-filter/src/quota_hash.rs:77-85 | appends the raw address if it parses, else its lower-cased spelling |
| `QuotaEncoding.Buffer.PushParams` | crates/rcs-filter/src/quota_hash.rs:32-35 | appends the parameters in key order |
| `QuotaEncoding.Buffer.PushItem` | crates/rcs-filter/src/quota_hash.rs:28-36 | appends one quota item |
| `QuotaEncoding.EncodeActions` | crates/rcs-filter/src/quota_hash.rs:22-38 | the buffer that is hashed is the encoding of the quota actions; a missing quota type is the empty list |
| `QuotaEncoding.JsonPrefixFree` | crates/rcs-filter/src/quota_hash.rs:40-62 | equal streams starting with two encoded values hold the same value up to ASCII case and the same rest |
| `QuotaEncoding.ItemsPrefixFree` | crates/rcs-filter/src/quota_hash.rs:27-36 | the same for lists of items of equal length |
| `QuotaEncoding.EncodingPrefixFree` | crates/rcs-filter/src/quota_hash.rs:18-38 | no encoding is a proper prefix of another, and a common prefix means the same quota |
| `QuotaEncoding.EncodingIdentifiesQuota` | crates/rcs-filter/src/quota_hash.rs:18-38 | equal buffers if and only if the same quota: item by item, in order, the same name, addresses that encode alike, the same parameters with values equal up to ASCII case |
| `Wire.LowerIdentifies` | crates/rcs-filter/src/quota_hash.rs:46-59 | lower-casing leaves no capital, and two texts become equal iff they agree letter by letter up to ASCII case |
| `QuotaEncoding.AddressesEncodeAlike` | crates/rcs-filter/src/quota_hash.rs:75-85 | exactly when two address spellings encode alike: one parsed address, or two unparseable texts equal up to case, or an unparseable text of twenty bytes that is the other's raw address |
| `QuotaEncoding.TwentyByteSpellingCollides` | crates/rcs-filter/src/quota_hash.rs:75-85 | the last case at an input: twenty letters that do not parse encode like the address made of those bytes |
| `QuotaEncoding.LengthTruncationBreaksPrefixFreedom` | crates/rcs-filter/src/quota_hash.rs:65-73 | why lengths must be below 2^32: a field of 2^32 bytes is written with length zero |
| `LogMatching.FindLogsFinds` | crates/rcs-filter/src/matching.rs:305-322 | what is found among the first logs is exactly the event as read from each position whose log has its shape and decodes, under that very position |
| `LogMatching.ShapeIs` | crates/rcs-filter/src/matching.rs:296-303 | an anonymous event needs as many topics as it has indexed inputs, any other its own first topic |
| `LogMatching.AddressTextIff` | crates/rcs-filter/src/matching.rs:382-384 | the address text is the one lower-case spelling: "0x" and two digits per byte |
| `LogMatching.CandidatesAre` | crates/rcs-filter/src/matching.rs:113-127 | the candidates of an event: read from each log position it can be read from, strictly ascending, or one null iff there is none |
| `Matcher.CheckedProductExact` | crates/rcs-filter/src/matching.rs:67-69 | checked counting yields the exact product, and overflows exactly when it exceeds 64 bits |
| `Matcher.VisitBindings` | crates/rcs-filter/src/matching.rs:270-294 | recursion over a partial binding visits exactly its completions, in order, up to the first deny |
| `Matcher.RuleBindingsAreAll` | crates/rcs-filter/src/matching.rs:270-294 | what is visited is the whole Cartesian product, and as many bindings as the product says |
| `LogMatching.RuleBindingsInOrder` | crates/rcs-filter/src/matching.rs:270-294 | the bindings visited are exactly the choices of readable logs, each once, ordered by the log of the first event, then of the second, and so on |
| `Matcher.MergeAudit` | crates/rcs-filter/src/matching.rs:155-175 | a satisfying audit binding adds its items to every audit type of its rule, first item per log stays |
| `Matcher.EvaluateChecked` | crates/rcs-filter/src/matching.rs:83-194 | the loop computes `TryEvaluate`, never visits more than the budget, and a success without deny visits exactly the sum of the rule products |
| `MatcherSpec.TryEvaluateIs` | crates/rcs-filter/src/matching.rs:83-194 | the exact result: a deny reached within the budget, else the error of the first rule at which the sum of products exceeds it, with that sum, else the merge of all audit hits |
| `MatcherSpec.VerdictIs` | crates/rcs-filter/src/matching.rs:67-194 | deny iff a deny rule is satisfied anywhere or the budget is exceeded; else audit iff an audit rule is satisfied on a physical log; merged timeout action is deny iff a hit rule says so |
| `MatcherSpec.VerdictIgnoresRuleOrder` | crates/rcs-filter/src/matching.rs:83-194 | verdict and merged timeout action are the same for every permutation of the rules |
| `MatcherSpec.TryEvaluateReads` | crates/rcs-filter/src/matching.rs:230-267 | the result depends on recipient, origin, value, nonce and logs alone, not on hash or block height |
| `MatcherSpec.EmittedActions` | crates/rcs-filter/src/matching.rs:141-190 | a type is emitted iff a hit rule carries it; its items are one per physical log in strictly ascending position, covering exactly the positions some satisfying binding reads, each with the name, parameters and address read from that log, by the first contribution in visiting order |
| `SubmitProfile.KnownRecipientShapes` | crates/rcs-filter/src/submit.rs:122-138 | the recipient is known iff the parameters are exactly those of one of three token events, well-typed, and then it is the address under "to" |
| `SubmitProfile.ItemKeyIs` | crates/rcs-filter/src/submit.rs:106-116 | an item reserves recipient and token: the address under "to" and the address of the log, iff the event is known and both can be read |
| `SubmitProfile.ProfileEntries` | crates/rcs-filter/src/submit.rs:93-120 | nonce keys, quota keys and exclusiveness, each if and only if some entry gives rise to it |
| `SubmitProfile.ProfileEntry` | crates/rcs-filter/src/submit.rs:97-117 | one entry: exactly its known reservations, and alone iff not everything in it is a known quota item |
| `SubmitProfile.ProfileItems` | crates/rcs-filter/src/submit.rs:106-116 | exactly the keys of the known items, and whether an unknown one exists |
| `SubmitGraph.BuildNormalNodes` | crates/rcs-filter/src/submit.rs:188-225 | the nodes are the nearest-predecessor graph: in-degree counters, successor lists without repeats, edges to higher indices only |
| `SubmitGraph.EdgeIsConflict` | crates/rcs-filter/src/submit.rs:193-206 | an edge joins an earlier group to a later one with a common key |
| `SubmitGraph.ConflictHasEdgePath` | crates/rcs-filter/src/submit.rs:188-225 | any two groups with a common key are joined by a path of edges |
| `SubmitGraph.SameTransitiveClosure` | crates/rcs-filter/src/submit.rs:188-225 | the graph has the transitive closure of the full pairwise conflict graph |
| `SubmitScheduler.RunNormalSegment` | crates/rcs-filter/src/submit.rs:299-347 | under every completion order and outcome the run is greedy, respects all dependencies, terminates with every group started and completed once, and reports exactly the failures |
| `SubmitScheduler.FillSlots` | crates/rcs-filter/src/submit.rs:318-322 | starts the lowest ready groups while slots are free |
| `SubmitScheduler.ReleaseSuccessors` | crates/rcs-filter/src/submit.rs:329-337 | a completion lowers each successor's counter, never below zero, and queues those that reach zero |
| `SubmitScheduler.AwaitAll` | crates/rcs-filter/src/submit.rs:324-346 | the loop drains the graph: all groups complete, nothing is left in the heap |
| `SubmitRuns.ConflictsFinishFirst` | crates/rcs-filter/src/submit.rs:299-347 | of two conflicting groups the lower completes before the higher starts |
| `SubmitRuns.ConflictsNeverOverlap` | crates/rcs-filter/src/submit.rs:299-347 | conflicting groups are never in flight together |
| `SubmitRuns.GreedyOnceEach` | crates/rcs-filter/src/submit.rs:299-347 | no group starts or finishes twice, and each starts before it finishes |
| `SubmitRuns.WithinLimit` | crates/rcs-filter/src/submit.rs:318-343 | never more groups in flight than the limit |
| `SubmitRuns.WorkConserving` | crates/rcs-filter/src/submit.rs:318-343 | at an await with a free slot every unstarted group still waits for a predecessor |
| `SubmitRuns.SerialOrder` | crates/rcs-filter/src/config.rs:37-39 | with one slot the start order is exactly ascending height |
| `SubmitBatch.BuildSubmitSchedule` | crates/rcs-filter/src/submit.rs:167-186 | segments cut the groups in order at exclusive barriers; normal segments are graphs of their groups |
| `SubmitBatch.OrderedNeverOverlap` | crates/rcs-filter/src/submit.rs:269-290 | ordered groups are never in flight together, across segments too |
| `SubmitBatch.ConcatRuns` | crates/rcs-filter/src/submit.rs:269-290 | running segments one after another keeps order, limit and once-each |
| `SubmitBatch.RunSchedule` | crates/rcs-filter/src/submit.rs:269-290 | the guarantees of a whole schedule |
| `SubmitBatch.LowestError` | crates/rcs-filter/src/submit.rs:296 | the error of the lowest height, none iff there is none |
| `SubmitBatch.SubmitPending` | crates/rcs-filter/src/submit.rs:262-297 | for every batch and completion order: each height once, at most `limit` at a time, heights sharing a key or of which one is exclusive strictly ordered, serial with one slot, the error of the lowest failed height |
| `Pool.BufferPool.constructor` | crates/rcs-filter/src/pool.rs:103-107 | the empty pool |
| `Pool.BufferPool.Insert` | crates/rcs-filter/src/pool.rs:156-163 | no-op if present, else the next wrapping generation |
| `Pool.BufferPool.FinishConsistencyCheck` | crates/rcs-filter/src/pool.rs:175-191 | drops only the still approved exact lifecycle on a mismatch; reports its status |
| `Pool.BufferPool.HashesIn` | crates/rcs-filter/src/pool.rs:194-200 | exactly the hashes in the wanted states, without repeats |
| `Pool.BufferPool.InFlightGenerations` | crates/rcs-filter/src/pool.rs:218-229 | exactly the in-flight lifecycles with their generations |
| `Pool.BufferPool.RemoveCanonical` | crates/rcs-filter/src/pool.rs:232-234 | removes exactly the named hashes and counts the removed entries |
| `Pool.BufferPool.RecoverAfterCanonicalLag` | crates/rcs-filter/src/pool.rs:238-242 | keeps exactly the dropped tombstones and counts the removed entries |
| `Pool.BufferPool.RemoveNonTerminalIfGeneration` | crates/rcs-filter/src/pool.rs:272-284 | removes exactly the named non-terminal lifecycle |
| `Pool.BufferPool.ResolveTotalTimeout` | crates/rcs-filter/src/pool.rs:467-487 | the cumulative deadline on one retryable entry, with its own fallback |
| `Pool.BufferPool.ResolveTotalTimeouts` | crates/rcs-filter/src/pool.rs:394-406 | the deadline on every entry; reports each expired one once |
| `Pool.BufferPool.ApplySubmitResponse` | crates/rcs-filter/src/pool.rs:288-316 | touches only lifecycles the request was built from; deadline before acceptance |
| `Pool.BufferPool.ApplyQueryStatus` | crates/rcs-filter/src/pool.rs:323-367 | one answer on one exact, undecided lifecycle; deadline before answer; `FilterMoves.AnswerMoves` says state by state what it does |
| `Pool.BufferPool.CheckTimeouts` | crates/rcs-filter/src/pool.rs:413-444 | deadline first, then the per-state stalls, on every entry |
| `Pool.BufferPool.PruneTerminal` | crates/rcs-filter/src/pool.rs:457-463 | removes exactly the tombstones strictly older than retention and counts them |
| `FilterInvariants.CounterCounts` | crates/rcs-filter/src/pool.rs:160-161 | after any run the counter is the number of insertions modulo 2^64 |
| `FilterInvariants.RunGood` | crates/rcs-filter/src/pool.rs:156-163 | live generations are pairwise distinct and never above the counter |
| `FilterInvariants.GenerationAtLeast` | crates/rcs-filter/src/pool.rs:156-163 | generations of a hash only grow along a run |
| `FilterInvariants.GoneForever` | crates/rcs-filter/src/pool.rs:156-163 | a lifecycle that is gone never comes back |
| `FilterInvariants.StaleTokenInert` | crates/rcs-filter/src/pool.rs:175-191 | a step carrying another generation changes nothing and owes no event |
| `FilterInvariants.ReinsertionFences` | crates/rcs-filter/src/pool.rs:272-337 | after removal and reinsertion no submit reply, query row, consistency result or reconciliation with the old generation touches the new entry, whatever the interleaving |
| `FilterInvariants.LiveThroughout` | crates/rcs-filter/src/pool.rs:156-163 | a lifecycle live at two points is live in between |
| `FilterInvariants.RunProgress` | crates/rcs-filter/src/pool.rs:288-487 | from any good state: terminal states frozen with their transition time, approved stays or is dropped, request and deadline base constant |
| `FilterInvariants.LifecycleProgress` | crates/rcs-filter/src/pool.rs:288-487 | the same between any two points of a run from the empty pool |
| `FilterMoves.AnswerMoves` | crates/rcs-filter/src/pool.rs:323-367 | an answer in time: approval makes approved iff submitted or pending, pending makes pending iff submitted, denied and outdated drop from any undecided or approved state and are announced with their own reason; otherwise unchanged and silent |
| `FilterMoves.AcceptanceMoves` | crates/rcs-filter/src/pool.rs:288-316 | a submit reply in time makes submitted exactly what was accepted and still waits |
| `FilterMoves.TickMoves` | crates/rcs-filter/src/pool.rs:413-463 | a tick sends exactly what stalls at RCS back to be submitted, forgets terminal entries past retention and leaves the rest |
| `FilterMoves.LateMoves` | crates/rcs-filter/src/pool.rs:467-487 | whatever a step that looks at the clock was about, a late lifecycle is released, silently, or dropped with an event, as its request says |
| `FilterMoves.CheckMoves` | crates/rcs-filter/src/pool.rs:175-191 | the consistency check drops exactly its approved lifecycle on a mismatch, silently |
| `FilterMoves.RemovalMoves` | crates/rcs-filter/src/pool.rs:232-284 | inclusion, lag recovery and targeted removal: what each removes, silently, and nothing else changes |
| `FilterMoves.OthersLeave` | crates/rcs-filter/src/pool.rs:288-367 | reloads, admissions, sweeps in time and replies about another lifecycle leave an entry as it is |
| `FilterMoves.AdmittedIff` | crates/rcs-filter/src/handle.rs:340-358 | buffered iff the rules ask for an audit; the request fixes origin, recipient or the zero address, nonce, height, rules, emitted actions, their quota hash and the merged timeout action; both clocks start now |
| `FilterMoves.AdmissionMoves` | crates/rcs-filter/src/pool.rs:156-163 | the admission step: a hash that is there stays, any other is added under the next generation iff the rules ask for it |
| `FilterHistory.ApprovalHistory` | crates/rcs-filter/src/pool.rs:346-352 | an approved entry was submitted or pending when RCS approved exactly that lifecycle within its deadline, and is unchanged since |
| `FilterHistory.ReleaseHistory` | crates/rcs-filter/src/pool.rs:467-487 | a fail-open entry was retryable, past its deadline, with the allow fallback, and is unchanged since |
| `FilterHistory.DropHistory` | crates/rcs-filter/src/pool.rs:175-191 | a dropped entry was discarded, owing one event, or failed the consistency check while approved, owing none, never both, and is unchanged since |
| `FilterHistory.AdmissionHistory` | crates/rcs-filter/src/handle.rs:340-358 | every entry was admitted by an evaluation of its own snapshot, and keeps that request, deadline base and generation while live |
| `FilterHistory.RequestDescribes` | crates/rcs-filter/src/handle.rs:340-358 | at any later time the request of an entry still describes the transaction admitted, under the rules read then |
| `FilterHistory.TombstoneSurvives` | crates/rcs-filter/src/pool.rs:232-242 | a dropped entry is unchanged unless removed by canonical inclusion or by pruning strictly after retention; lag recovery does not remove it |
| `FilterHistory.LateMeansFallback` | crates/rcs-filter/src/pool.rs:301-337 | whatever RCS answers, an expired lifecycle takes its own timeout action |
| `FilterHistory.TickLeavesNoneLate` | crates/rcs-filter/src/worker.rs:443-457 | after a tick no retryable entry is past its deadline, none is stalled, no tombstone is past retention |
| `FilterHistory.DeadlineNeverMoves` | crates/rcs-filter/src/pool.rs:467-487 | retries never move the deadline: after a clock look past admission plus total timeout the lifecycle is not retryable |
| `FilterHistory.EventIffDiscard` | crates/rcs-filter/src/handle.rs:137-155 | a step owes an event for an entry iff it drops it and is not the consistency check |
| `FilterHistory.OneEventPerDiscard` | crates/rcs-filter/src/worker.rs:269-371 | over every run each lifecycle owes exactly one event if a query or fail-close timeout dropped it and none otherwise, none for a fail-open release or a mismatch |
| `FilterHandle.SentOncePerDiscard` | crates/rcs-filter/src/handle.rs:137-155 | what the object has sent: one event per lifecycle dropped by a query or fail-close timeout, none otherwise |
| `FilterHandle.Shared.Emit` | crates/rcs-filter/src/handle.rs:137-155 | after each locked section its events go out; the log always matches what the run so far owes |
| `Screening.ExistingApproved` | crates/rcs-filter/src/handle.rs:463-570 | an existing entry passes only if at the deciding lock its own lifecycle may be packaged |
| `Screening.FreshAnswer` | crates/rcs-filter/src/handle.rs:286-363 | not buffered at the first lock: denied iff a deny rule of the rules read is satisfied or their total exceeds the budget; under audit and buffered iff instead an audit rule hits; allowed iff neither and still unbuffered at the second lock; else as the entry found there |
| `Screening.BufferedAnswer` | crates/rcs-filter/src/handle.rs:463-570 | buffered at the first lock: passed iff the lifecycle read is still a fail-open release, or still approved and consistent, at the deciding lock; dropped iff dropped there or inconsistent; else pending; never allowed or denied; all it does itself is record the check of an approved one |
| `Screening.ConsistentIff` | crates/rcs-filter/src/handle.rs:502-513 | consistent iff the submit-time rules still ask for an audit and its quota hash is the stored one |
| `Screening.ApprovalIsJustified` | crates/rcs-filter/src/handle.rs:273-364 | in every run, `AuditApproved` only if, under the deciding lock of that call, the very lifecycle the call had read was fail-open released, or approved in time, untouched since, and consistent with the current logs under its own snapshot |
| `Screening.DecidesLast` | crates/rcs-filter/src/handle.rs:463-570 | after the deciding lock the call does at most one thing, recording the consistency result |
| `Screening.RescreenPasses` | crates/rcs-filter/src/handle.rs:502-564 | an approved lifecycle screened again, at any block height, with the transaction variables and logs of its admission passes iff still approved at the deciding lock, after any reloads, and the check changes nothing |
| `Screening.PreScreenAgrees` | crates/rcs-filter/src/handle.rs:368-376 | against the full screen of the same state: deferred iff buffered and pending, dropped iff buffered and dropped for its status, executed otherwise |
| `Screening.ConsistentMeansSameQuota` | crates/rcs-filter/src/handle.rs:502-513 | the consistency check compares quotas up to canonical spelling, except for a hash collision |
| `FilterHandle.TimeoutEvents` | crates/rcs-filter/src/handle.rs:144-155 | exactly the discards of a timeout report are announced, once each |
| `FilterHandle.Shared.constructor` | crates/rcs-filter/src/handle.rs:216-232 | starts in the initial state with no rules |
| `FilterHandle.Shared.InstallRules` | crates/rcs-filter/src/handle.rs:129-135 | swaps the rules and touches no entry |
| `FilterHandle.Shared.Buffer` | crates/rcs-filter/src/handle.rs:340-358 | admission of an audited transaction with its snapshot and quota hash |
| `FilterHandle.Shared.ApplyAnswers` | crates/rcs-filter/src/worker.rs:331-364 | all selected rows of a response under one lock, then exactly the owed events |
| `FilterHandle.Shared.TimeoutOnce` | crates/rcs-filter/src/worker.rs:443-457 | one tick: timeouts, then pruning with its count, then exactly the owed events |
| `FilterHandle.Shared.Take` | crates/rcs-filter/src/handle.rs:110-155 | every locked section is one step of the state machine, is recorded, and sends exactly the events it owes |
| `FilterHandle.Shared.ScreenExisting` | crates/rcs-filter/src/handle.rs:463-570 | a buffered transaction is decided as `ExistingScreen` says, for any interference |
| `FilterHandle.Shared.ScreenTx` | crates/rcs-filter/src/handle.rs:273-364 | a screening call decides and steps as `ScreenOf` says, for any interference between its locks; `FreshAnswer` and `BufferedAnswer` say what each answer means |
| `FilterHandle.Shared.PreScreen` | crates/rcs-filter/src/handle.rs:368-376 | the status-only decision |
| `QueryWorker.SelectRows` | crates/rcs-filter/src/worker.rs:305-330 | per in-flight hash the first row of the highest priority; other hashes and unknown statuses ignored |
| `QueryWorker.ResponseApplied` | crates/rcs-filter/src/worker.rs:305-364 | the pool after a response follows the strongest word about each in-flight lifecycle, rejection over approval over pending |
| `QueryWorker.ResponseMoves` | crates/rcs-filter/src/worker.rs:305-364 | by the rows a response contains: any rejection drops the lifecycle; else an approval makes it approved iff submitted or pending; else a pending row makes it pending iff submitted; else it stays |
| `QueryWorker.RowOrderIrrelevant` | crates/rcs-filter/src/worker.rs:305-364 | permuting or duplicating rows gives the same pool |
| `QueryWorker.ReasonNeedsOneRejection` | crates/rcs-filter/src/worker.rs:318-329 | the announced reason is the same for every reordering of the rows iff the response does not call the hash both denied and outdated |
| `QueryWorker.ReasonDependsOnOrder` | crates/rcs-filter/src/worker.rs:318-329 | the failing case: a denied and an outdated row announce different reasons in either order |
| `QueryWorker.QueryRound` | crates/rcs-filter/src/worker.rs:285-367 | one status query: a failure only checks deadlines, an answer applies its selected rows; the section is recorded and its events are sent |
| `QueryWorker.QueryOnce` | crates/rcs-filter/src/worker.rs:269-371 | deadlines first, snapshot of exactly the in-flight lifecycles, every reply fenced by it, all sections recorded with their events sent, the first error returned |
| `SubmitWorker.CollectPending` | crates/rcs-filter/src/submit.rs:229-256 | after the deadline check, with its events sent: exactly the unsubmitted transactions, each once, under its height, heights ascending |
| `SubmitPass.SubmitOnce` | crates/rcs-filter/src/submit.rs:229-422 | what is collected is scheduled; each height builds its request once, while in flight, from exactly its members then fit; of conflicting heights the lower outcome is in the pool before the higher request is built; every completion takes in the reply that came with it: the accepted set is applied under the requested generations at the reply's time and the height succeeds, or deadlines are checked and the height fails with that very error; the lowest failed height reports |
| `SubmitPass.PlayPass` | crates/rcs-filter/src/submit.rs:299-422 | every scheduler event played against the pool, with polls and other threads in between; each completion takes in its own reply |
| `SubmitPass.EffectsFollowOrder` | crates/rcs-filter/src/submit.rs:324-343 | completed before the other starts means settled in the pool before the other's request is built |
| `SubmitWorker.SubmitGroup` | crates/rcs-filter/src/submit.rs:361-422 | exactly the members still current, unsubmitted and in time are requested; the reply is fenced by their generations; it fails iff a request was sent and got an error; all sections recorded with their events sent |
| `SubmitWorker.BuildRequest` | crates/rcs-filter/src/submit.rs:367-387 | the first locked section: deadlines, then exactly the members fit to submit |
| `SubmitWorker.TokensAre` | crates/rcs-filter/src/submit.rs:387-388 | the reply is fenced by exactly the hashes requested, each with a generation it was requested under |
| `SubmitWorker.AwaitReply` | crates/rcs-filter/src/submit.rs:391-422 | the second: the fenced reply, or a deadline check and the error |
| `BestTransactions.BestFlashblocksTxs.RefreshIterator` | crates/builder/src/flashblocks/best_txs.rs:30-37 | new offers, same committed set |
| `BestTransactions.BestFlashblocksTxs.MarkCommitted` | crates/builder/src/flashblocks/best_txs.rs:40-42 | adds exactly the given hashes |
| `BestTransactions.BestFlashblocksTxs.Next` | crates/builder/src/flashblocks/best_txs.rs:52-61 | yields the uncommitted offers one by one, in order, and nothing once there is none left |
| `Flashblocks.PayloadJob.BuildBlock` | crates/builder/src/flashblocks/builder.rs:1294-1310 | cuts the slice of transactions and receipts since the last flashblock |
| `Flashblocks.PayloadJob.BuildFallback` | crates/builder/src/flashblocks/builder.rs:388-464 | the fallback block is published as index 0 and is the best payload, or nothing is published |
| `Flashblocks.PayloadJob.SetBatchLimits` | crates/builder/src/flashblocks/builder.rs:520-547 | the first budgets are one share of each block limit |
| `Flashblocks.PayloadJob.FillFlashblock` | crates/builder/src/flashblocks/builder.rs:709-777 | the pool pass yields exactly the uncommitted offers of the round, executes those that execute after the builder's own, and marks all of them unless execution failed |
| `Flashblocks.PayloadJob.PublishFlashblock` | crates/builder/src/flashblocks/builder.rs:791-831 | seals, publishes and hands over in that order, with the exact slice, outcome and best payload for every combination of failures |
| `Flashblocks.PayloadJob.CarryBudgets` | crates/builder/src/flashblocks/builder.rs:848-871 | the state of the next flashblock; the branch for a missing DA budget is dead |
| `Flashblocks.PayloadJob.BuildNextFlashblock` | crates/builder/src/flashblocks/builder.rs:676-886 | one round: executes the builder's first transactions, the uncommitted offers that execute, and the builder's last ones unless failed or cancelled, in that order; its outcome, slice, payload and pass are those its flags and offers determine |
| `Flashblocks.PayloadJob.BuildFlashblocks` | crates/builder/src/flashblocks/builder.rs:568-672 | the loop plays exactly the rounds up to the first that does not come through, at most the target, and ends as the last one did |
| `Flashblocks.BuildPayload` | crates/builder/src/flashblocks/builder.rs:364-673 | published flashblocks, best payload, executed transactions with receipts, pool passes and the way of ending are exactly those the plan determines |
| `Flashblocks.PlayedIff` | crates/builder/src/flashblocks/builder.rs:568-672 | the rounds played: all before the last came through, and there was a reason to stop; this determines the number |
| `Flashblocks.SlicesTile` | crates/builder/src/flashblocks/builder.rs:1294-1310 | published indices consecutive from 0 and at most the target; slices tile a prefix of what was executed, all of it iff `AllSliced` |
| `Flashblocks.CancelledIsUnsliced` | crates/builder/src/flashblocks/builder.rs:779-783 | the failing input: a transaction executed in a cancelled round is in no slice |
| `Flashblocks.PayloadIs` | crates/builder/src/flashblocks/builder.rs:822-831 | the best payload is all published slices, or all but the last iff its hand-over failed |
| `Flashblocks.NeverYieldedAgain` | crates/builder/src/flashblocks/best_txs.rs:40-61 | what one flashblock executed up to its commit marks is never yielded in a later one |
| `Flashblocks.PassesWithin` | crates/builder/src/flashblocks/builder.rs:725-767 | every pool pass runs within its flashblock's carried budget and sees exactly what is uncommitted; what it gets and what the builder reserved make up the carried gas, DA and footprint, or it gets none of what the reservation does not fit |
| `Flashblocks.PassesSplitGas` | crates/builder/src/flashblocks/builder.rs:725-767 | for every pass of a job the pool's gas and the reservation make up the carried gas, which is the index times its share, or the pool gets none |
| `Flashblocks.CarriedWithin` | crates/builder/src/flashblocks/builder.rs:848-871 | carried DA and footprint budgets are present iff limited and at most the index times their share |
| `Flashblocks.StateCarries` | crates/builder/src/flashblocks/builder.rs:727-871 | from one flashblock to the next gas grows by exactly its share, DA and footprint by theirs less what was reserved |
| `Flashblocks.DaConserved` | crates/builder/src/flashblocks/builder.rs:735-857 | the DA budget carried to a flashblock plus all reserved before it is at least the shares given out, and exactly those iff every reservation fitted |
| `Flashblocks.FootprintConserved` | crates/builder/src/flashblocks/builder.rs:740-866 | the same for footprints, where a reservation counts its DA times the scalar, capped at 64 bits |
| `Flashblocks.AllowanceFitsBlock` | crates/builder/src/flashblocks/builder.rs:520-547 | up to the target no carried budget, and no limit of a pool pass, exceeds the block's own |
| `Flashblocks.CarriedBudgetsFit64` | crates/builder/src/flashblocks/builder.rs:848-871 | up to the target every carried budget fits 64 bits, and past it if the shares given out plus one more do |
| `Flashblocks.PastTargetFitsIff` | crates/builder/src/flashblocks/builder.rs:848-871 | the budgets carried past the last flashblock fit 64 bits for all rounds iff the shares given out plus one more do, for gas and for DA |
| `Flashblocks.LargestLimitOverflows` | crates/builder/src/flashblocks/builder.rs:859-861 | the largest block limit overflows after a single flashblock |
| `GetLogs.QuantityRoundTrip` | crates/legacy-rpc/src/get_logs.rs:43-56 | every 64-bit number written as a quantity is read back |
| `GetLogs.ModifyParams` | crates/legacy-rpc/src/get_logs.rs:113-153 | rewrites the bounds of the first filter object |
| `GetLogs.RewriteRoundTrip` | crates/legacy-rpc/src/get_logs.rs:69-153 | re-parsing a rewritten range request gives the written bounds; every other field and parameter is unchanged |
| `GetLogs.RewriteKeepsCriteria` | crates/legacy-rpc/src/get_logs.rs:113-153 | a rewritten request asks for the same logs, and every node reads the written bounds alike |
| `GetLogs.MergeResponses` | crates/legacy-rpc/src/get_logs.rs:156-210 | extends and sorts stably by block; unparsable responses passed on |
| `GetLogs.MergeKeeps` | crates/legacy-rpc/src/get_logs.rs:156-210 | no log lost or repeated, ordered by block, never reordered within a block |
| `GetLogs.SortOfSorted` | crates/legacy-rpc/src/get_logs.rs:186-203 | logs in chain order stay as they are |
| `GetLogs.RoutedIsOneQuery` | crates/legacy-rpc/src/get_logs.rs:240-294 | for every numeric range, every cutoff and any address, topic or other criteria, the routed answer is one query over the joined chain |
| `GetLogs.RoutedAgrees` | crates/legacy-rpc/src/get_logs.rs:240-294 | for every range request, tags and missing bounds included, on a given chain the routed answer is the joined node's if and only if `Agrees`: no log lies where the router reads a bound differently |
| `GetLogs.RoutedAgreesAlways` | crates/legacy-rpc/src/get_logs.rs:240-294 | on every chain and pair of back ends, if and only if the bounds are read alike, which a caller can tell beforehand |
| `GetLogs.TagIsOverread` | crates/legacy-rpc/src/get_logs.rs:44-47 | the failing family: a straddling range up to a tag is answered up to the head, so logs above the tagged block appear |
| `GetLogs.UpToFinalizedReads` | crates/legacy-rpc/src/get_logs.rs:43-56 | such a request: earliest to finalized is read as the full range |
| `GetLogs.FinalizedIsOverread` | crates/legacy-rpc/src/get_logs.rs:240-294 | back ends at which it happens, for any finalized block below the head |

## Left out

- HTTP client, JSON text, body limits, metrics, logging, worker supervision and lock poisoning: plumbing around the modelled logic.
- Retry backoff and rule download (`worker.rs`): they decide when a step happens, and every timing is already covered.
- Terminal events are sent when their locked section closes; how the sends of several threads interleave after the locks are released, and a lagging receiver, are not modelled.
- `status_counts`, `dropped_hashes`, `dropped_lifecycles`, `non_terminal_lifecycles`, `with_dropped_lifecycle`: reads under one lock that would only add easy members.
- The generic `BufferPool::remove` and insertion in a state other than not-submitted: not used by the running filter.
- ABI decoding, rule compilation, condition evaluation and keccak256 stay uninterpreted; collision resistance is not claimed.
- Hash-table iteration is modelled as an arbitrary order; rows and hashes are compared as parsed values, not as text.
- `Matcher.VisitBindings`: passes the partial binding as a value where the source pushes and pops one vector.
- `SubmitPass.SubmitOnce`: takes the order of starts and completions from the scheduler and the outcomes from the replies; the scheduler itself is proved for arbitrary outcomes.
- EVM execution, state roots, sealing, payload resolution, replay of external sequences and the no-pool path of `build_payload`: execution is appending transactions with receipts.
- Early exits of the transaction loop on limits or cancellation are covered as shorter offers, since any offer list is allowed.
- What an overflowing addition does: the model's budgets are unbounded, and the value in question belongs to no flashblock.
- `eth_getLogs` by block hash is routed but nothing is claimed about its answer, nor about a request the router cannot read; completeness is not claimed when a back end fails, since a missing result counts as empty.
