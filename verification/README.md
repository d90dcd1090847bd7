# Shiden Guardian: verified core

Shiden Guardian watches a collator node of the Shiden network. A controller collects metrics and block
rewards, opens incidents and queues restarts; a host agent runs the restart wrapper; brokers in front of them
authenticate requests and limit their rate. This project models the parts whose promises rest on several
functions at once, and proves those promises for every input, every run or every reachable state:

- **Rewards.** A durable cursor moves over finalized blocks in chunks of at most 128. Observations and cursor
  are committed together; pruned history is skipped only by an audited, operator-approved rebase.
- **Remediation.** Signals open incidents, incidents may queue one automatic restart, the queue delivers at
  least once, and the agent's guard file turns that into at most once, two a day, an hour apart, and no more
  after a failure.
- **Rate limiter.** Two levels of token bucket over two least-recently-used tables with a periodic cleanup.
- **Replay verifier.** A skew window and a bounded first-in-first-out nonce cache.
- **Rules.** Incremental persistence timers and a stall detector that stand for statements over the whole sample
  history.
- **Codecs and recovery codes.** Base58, SCALE vectors and little-endian integers; one-time codes under
  concurrent logins.

Run `dafny verify dfyconfig.toml` in this directory to check everything.

## Structure

| file | contents |
|---|---|
| `Base.dfy`, `Text.dfy` | options, results, severities, time units; trimming, lower case and byte lengths |
| `Rules.dfy` | the rule evaluator and the meaning of its signals over a history |
| `Limiter.dfy`, `LimiterRuns.dfy`, `LimiterTheorems.dfy` | the limiter object, its invariants, cleanup invisibility, login delays and global rate |
| `LimiterCleanup.dfy`, `LimiterAddresses.dfy`, `LimiterExpiry.dfy` | when exactly the cleanup is invisible; eviction, per-address rate and Retry-After; when rows and failures expire |
| `Replay.dfy` | the broker's request verifier |
| `Guard.dfy`, `GuardAnswers.dfy` | the agent's restart guard with crashes, and what it answers |
| `Controller.dfy`, `ControllerLoop.dfy`, `Incidents.dfy` | incidents and automatic actions, their imperative form, the incident table |
| `Remediation.dfy`, `Automatic.dfy` | controller, queue and agent together; what precedes an automatic restart |
| `Codec.dfy`, `Scale.dfy` | base58 and chain storage formats |
| `Scan.dfy` | the chain, the reward scan and its validation |
| `Ledger.dfy` | reward tables and transactions |
| `LedgerRuns.dfy`, `LedgerTiling.dfy`, `LedgerHazards.dfy` | the collection protocol: exactness always, exactly when intervals tile the chain, when the cursor goes back, runs from an empty database |
| `CatchUp.dfy`, `Collector.dfy`, `Rebase.dfy` | cost of catching up, one pass in imperative form, the approved rebase |
| `Recovery.dfy` | recovery codes |

Where the source updates an object in place the model is a class whose methods are proved equal to a function
of the old state; the properties of whole runs are lemmas about those functions. The chain is a function from
block numbers to hashes, balances and authorship. Clocks, network answers, database faults and random
identifiers are inputs, chosen freely for each step. In the reward protocol a collector is a controller process;
with `locked` all passes hold one `rewardMu`, without it they are only serial within each collector. Acknowledgements
from the queue take that mutex, those from the command line never do.

## What the proofs found

- The cursor can go backwards. `SaveRewardOverview` writes it without compare-and-set, and the command line
  mode `-acknowledge-pruned-reward-gap` does not hold `rewardMu`; a pass that was under way then undoes the
  rebase, and a second acknowledgement records an overlapping gap, although passes hold the mutex
  (`AcknowledgedWithoutMutex`). A commit whose answer is lost is undone in the same way (`LostAnswerUndone`).
  `CursorGoesBackIff` gives the exact condition. The ledger stays exact in all these runs (`LedgerIsExact`).
- The missing compare-and-set is exactly what separates runs whose scans and audited gaps tile the chain from the
  others: they tile it throughout if and only if no save writes back a cursor that is not the stored one
  (`TilesThroughoutIff`). With one collector a tiling once lost never heals (`TilesIff`). Lost answers, crashes and
  command line acknowledgements do no harm by themselves.
- Two controllers that start on an empty database can both activate it; a reward between their two heights is
  then neither recorded nor audited (`ActivatedTwice`). Every run from an empty database is exact from its first
  cursor if and only if passes share a mutex, there is only one collector, or no block above 1 is ever authored
  (`ExactFromEmptyIff`).
- The hour and the day between restarts are counted from the recorded attempt, not from the real start of the
  wrapper. A start that is d late costs up to d of both, and no more (`StartsAreSpaced`, `DelayIsPaid`); real
  starts keep the hour, and the day, in every run exactly when there is no delay (`SpacingIff`).
- The controller accepts action ids up to 104 and reasons up to 1000 bytes, the agent 100 and 500;
  `AgentAcceptsIff` says which queued restarts the agent will accept.
- A nonce that 1024 newer acceptances have pushed out of the cache is accepted again inside its window, whatever
  the signatures are (`ReplayAfterFlood`); `ReplayAcceptedIff` is the exact condition.
- The cleanup of the limiter is invisible if and only if rows are kept until their bucket has refilled, for
  every configuration whose global bucket admits two bursts of one address. Where the global bucket refills no
  faster and holds fewer tokens than one of an address, addresses never decide and the cleanup is always invisible
  (`GlobalDecides`, `InvisibleIff`).
- A scan fails as long as the wallet has never authored a block, because the storage item is then missing; the
  contract of `Scan.Scan` says so.
- `decodeCompact` accepts lengths that are not in their shortest form (`NonCanonicalLengthsAccepted`).
- The second test for a zero `lastProgress` in the stall rule can never succeed; `TrackStall` asserts it.

## Model

| member | source | states |
|---|---|---|
| `Rules.Evaluator.Track` | internal/rules/rules.go:59-68 | a persistence timer always equals the start of the maximal suffix of the history on which its condition held, and it has run out exactly when that suffix is long enough |
| `Rules.Evaluator.TrackStall` | internal/rules/rules.go:43-57 | a stall is reported exactly when the positive finalized height has not changed for five minutes while both external heights grew by twenty since |
| `Rules.Evaluator.Evaluate` | internal/rules/rules.go:30-115 | every sample yields exactly the signals, in order, that the declarative meaning over the whole history calls for |
| `Rules.Evaluator.Emit` | internal/rules/rules.go:30-115 | the order and content of the emitted signals |
| `Rules.SinceIsSuffixStart` | internal/rules/rules.go:32-41 | the incrementally kept start is the start of the maximal suffix, in both directions |
| `Rules.ProgressIsPlateauStart` | internal/rules/rules.go:43-54 | the incrementally kept progress mark is the first sample of the current plateau of positive heights, in both directions |
| `Rules.TimerStep` | internal/rules/rules.go:69-78 | one sample resets, starts or keeps a timer, and the timer decides persistence |
| `Rules.StallStep` | internal/rules/rules.go:43-57 | one sample moves or keeps the plateau, and the plateau decides the stall |
| `Rules.EmittedIffCalledFor` | internal/rules/rules.go:30-115 | a signal is in the output if and only if its condition over the history holds |
| `Rules.CriticalLagComesWithWarning` | internal/rules/rules.go:59-78 | sync-lag-critical never appears without sync-lag-warning |
| `Rules.OnlyTwoCandidates` | internal/rules/rules.go:30-115 | exactly service-inactive and block-stalled are automatic candidates |
| `Rules.PersistenceTable` | internal/rules/rules.go:59-115 | each of the six persistence signals is emitted with its severity if and only if its condition has held for its number of seconds, with a non-decreasing clock |
| `Rules.InstantTable` | internal/rules/rules.go:43-57 | the disk signals by the last sample, and the stall signal by five minutes on one positive height while both external heights grew by twenty |
| `Rules.EmittedInOrder` | internal/rules/rules.go:30-115 | no sample emits a signal twice, and signals come in a fixed order |
| `Limiter.Normalized` | internal/authlimit/limiter.go:71-105 | positive requests are taken as they are, all others replaced by the defaults |
| `Limiter.Limiter.constructor` | internal/authlimit/limiter.go:71-105 | a new limiter has full buckets, empty tables and a due time for the first cleanup |
| `Limiter.Limiter.Evict` | internal/authlimit/limiter.go:227-243 | eviction keeps exactly the most recently used rows that leave room for one more |
| `Limiter.Limiter.Expire` | internal/authlimit/limiter.go:245-263 | expiry keeps exactly the rows accessed since the cutoff and the order of the list |
| `Limiter.Limiter.CleanUp` | internal/authlimit/limiter.go:245-263 | the cleanup equals its specification and keeps map and list consistent |
| `Limiter.Limiter.TouchIp` | internal/authlimit/limiter.go:197-210 | looking an address up creates or moves its row to the front, with map and list consistent and within capacity |
| `Limiter.Limiter.TouchAccount` | internal/authlimit/limiter.go:212-225 | the same for an account |
| `Limiter.Limiter.AllowCall` | internal/authlimit/limiter.go:119-152 | the call equals its specification: cleanup, the trimmed keys, refill, verdict, delay, Retry-After and both tables |
| `Limiter.Limiter.FailCall` | internal/authlimit/limiter.go:162-170 | a failure raises the count of the trimmed, lower-case user, at most to 1000 |
| `Limiter.Limiter.SuccessCall` | internal/authlimit/limiter.go:172-180 | a success forgets the account of the trimmed, lower-case user |
| `LimiterRuns.AdmitMeaning` | internal/authlimit/limiter.go:119-160 | a call is admitted if and only if both buckets hold a token; it then costs one of each; Retry-After is the longer wait |
| `LimiterRuns.RefillMeans` | internal/authlimit/limiter.go:107-117 | a bucket gains the time that passed up to its size, and nothing when the clock goes back |
| `LimiterRuns.AddressMeans` | internal/authlimit/limiter.go:124-127 | an address is its text without surrounding white space, and all blank ones share one name |
| `LimiterRuns.AccountMeans` | internal/authlimit/limiter.go:128 | an account is the lower-case text without surrounding white space |
| `LimiterRuns.PurgeCutsTail` | internal/authlimit/limiter.go:245-263 | in a list kept in recency order the cleanup cuts off exactly a tail |
| `LimiterRuns.ExecInv` | internal/authlimit/limiter.go:107-263 | in every run with a non-decreasing clock: buckets between empty and full, rows in recency order, map and list consistent and within capacity |
| `LimiterTheorems.AdmitSimulates` | internal/authlimit/limiter.go:119-152 | a cleaned limiter whose list is a front part of an uncleaned one gives the same verdict and stays a front part |
| `LimiterTheorems.CleanupInvisible` | internal/authlimit/limiter.go:245-263 | with a non-decreasing clock and rows that are kept until their bucket has refilled, a limiter with cleanup and one without give the same verdict and Retry-After on every call sequence |
| `LimiterTheorems.CleanupInvisibleInUse` | cmd/api/public_status.go:47-56 | both configurations in use satisfy that condition |
| `LimiterCleanup.CleanupVisible` | internal/authlimit/limiter.go:245-263 | for every other valid configuration whose global bucket admits two bursts, two bursts of one address get different verdicts with and without the cleanup |
| `LimiterCleanup.InvisibleIff` | internal/authlimit/limiter.go:245-263 | for these configurations the cleanup is invisible in every run if and only if a row is kept until its bucket has refilled; where the global bucket is tighter than one of an address it always is |
| `LimiterCleanup.GlobalDecides` | internal/authlimit/limiter.go:107-160 | where the global bucket refills no faster and holds fewer tokens than one of an address, verdict and Retry-After follow from the global bucket alone |
| `LimiterTheorems.AccountsNeverDeny` | internal/authlimit/limiter.go:119-152 | verdicts do not depend on the account table: failed logins delay but never deny |
| `LimiterTheorems.DelayFollowsFailures` | internal/authlimit/limiter.go:162-195 | in every run in which the account row neither expires nor is pushed out, an admitted call carries the delay of as many failures as there were since the last success, whatever else was called in between |
| `LimiterTheorems.DelayDoubles` | internal/authlimit/limiter.go:182-195 | the delay starts at the fifth failure and doubles from a quarter of a second up to two seconds |
| `LimiterExpiry.DueCallExpires` | internal/authlimit/limiter.go:245-263 | a call that finds the cleanup due leaves only rows, of addresses and accounts, accessed within EntryTTL, keeps those unless there is no room, and is due again one interval later |
| `LimiterExpiry.EarlyCallKeeps` | internal/authlimit/limiter.go:245-248 | a call before the due time expires nothing |
| `LimiterExpiry.FailuresExpire` | internal/authlimit/limiter.go:245-263 | in every run an admitted call more than EntryTTL and one cleanup interval after the last call naming its account carries no delay, and more than EntryTTL suffices if it finds the cleanup due |
| `LimiterTheorems.GlobalRate` | internal/authlimit/limiter.go:107-152 | in every window of every run at most GlobalBurst plus elapsed time over GlobalRefill calls are admitted |
| `LimiterAddresses.EvictionNeedsOthers` | internal/authlimit/limiter.go:197-234 | in every run, when a row that survives the cleanup is pushed out, at least MaxIPs distinct other addresses have called since any, hence the last, call of its address |
| `LimiterAddresses.AddressRate` | internal/authlimit/limiter.go:107-234 | the same bound for one address in every window of every run in which it is not evicted between its first and last call |
| `LimiterAddresses.UncrowdedStays` | internal/authlimit/limiter.go:197-234 | it is not evicted where fewer than MaxIPs distinct others call between its neighbouring calls, however many call in all |
| `LimiterAddresses.RetryAfterIsExact` | internal/authlimit/limiter.go:119-160 | after a denial the same address is admitted at a later instant if and only if Retry-After has passed, while nobody else calls |
| `LimiterAddresses.RetrySeconds` | cmd/authbroker/main.go:179-188 | the header is the least whole number of seconds, at least one, that covers Retry-After (delay-seconds, section 10.2.3 of RFC 9110) |
| `LimiterAddresses.WaitingSucceeds` | cmd/authbroker/main.go:179-188 | waiting the announced seconds always succeeds |
| `Replay.Verifier.Verify` | internal/actionbroker/actionbroker.go:98-125 | a request is accepted if and only if it is well formed, inside the skew window, correctly signed and its nonce is not remembered by the history of acceptances, and each refusal has its own exact condition |
| `Replay.Verifier.Remember` | internal/actionbroker/actionbroker.go:127-151 | the cache decides exactly the declarative memory; map and list stay equal, duplicate-free and at most 1024 long |
| `Replay.Verifier.Purge` | internal/actionbroker/actionbroker.go:127-140 | after the purge nothing older than the time limit is left, and nothing younger was dropped |
| `Replay.Verifier.Fresh` | internal/actionbroker/actionbroker.go:130-140 | filtering the ordered list drops exactly a front part and the same keys from the map |
| `Replay.RememberedIffCached` | internal/actionbroker/actionbroker.go:127-151 | a nonce is in the map if and only if it was accepted within the time limit and among the last 1024 |
| `Replay.ReplayNeedsEviction` | internal/actionbroker/actionbroker.go:98-151 | if one signed timestamp and nonce are accepted twice, the two are at most 60 seconds apart and at least 1024 other requests were accepted between |
| `Replay.ReplayAcceptedIff` | internal/actionbroker/actionbroker.go:127-151 | repeating an accepted request in its window, its nonce not accepted in between, succeeds if and only if 1024 acceptances have followed |
| `Replay.NonceReusedIff` | internal/actionbroker/actionbroker.go:127-151 | a nonce that was accepted is refused in whatever request for exactly two minutes, unless 1024 acceptances follow |
| `Replay.OnlySignedRequests` | internal/actionbroker/actionbroker.go:98-125 | nothing is accepted in any run unless it is well formed, in its window and signed over its timestamp, nonce and body |
| `Replay.ReplayAfterFlood` | internal/actionbroker/actionbroker.go:143-147 | after any 1025 authentic requests with different nonces, at whatever instants, the first is accepted again while its window lasts |
| `Replay.NoReplayInShortRuns` | internal/actionbroker/actionbroker.go:98-151 | no request is accepted twice in a run with at most 1024 acceptances |
| `Guard.Agent.LoadGuard` | cmd/agent/main.go:546-570 | reading the file turns every running row into a failure and latches, and changes nothing otherwise |
| `Guard.Agent.Admit` | cmd/agent/main.go:417-463 | the verdict and the saved file of a request up to the start of the wrapper |
| `Guard.Agent.Complete` | cmd/agent/main.go:470-483 | the saved file after the wrapper has ended |
| `Guard.RecentStamps` | cmd/agent/main.go:438-445 | the attempts that survive the daily cut are the newest recorded ones, and the others are a day old |
| `Guard.InvNext` | cmd/agent/main.go:417-570 | every step, including crashes anywhere, keeps the guard invariant |
| `Guard.AtMostOncePerAction` | cmd/agent/main.go:433-437 | the wrapper runs at most once per action id in every run with crashes |
| `Guard.FailureComesLast` | cmd/agent/main.go:454-457 | no execution follows a failed or interrupted one |
| `Guard.ExecutionsAreSpaced` | cmd/agent/main.go:438-458 | any two executions are an hour apart and any three span a day, counted from the record of the first |
| `Guard.StartsAreSpaced` | cmd/agent/main.go:438-467 | if every start is at most d after its record, real starts are an hour less d apart and any three span a day less d |
| `Guard.AdmittedIff` | cmd/agent/main.go:417-463 | in every reachable state a valid request to an unlocked idle agent starts the wrapper if and only if its action is new, nothing failed or was interrupted, fewer than two attempts lie in the last day and none in the last hour |
| `GuardAnswers.RepeatIsTold` | cmd/agent/main.go:433-437 | in every reachable state a repeated action is told that it succeeded if and only if its execution ended well, and that it failed if and only if it is recorded and did not |
| `GuardAnswers.ExecutionIsTold` | cmd/agent/main.go:433-437 | every execution is answered by its own ending when its action is requested again |
| `GuardAnswers.NewActionIsTold` | cmd/agent/main.go:438-458 | a new action is told the first that applies of two attempts in the last day, one in the last hour and an earlier failure, counted over all attempts and executions of the run |
| `GuardAnswers.RefusedFirst` | cmd/agent/main.go:415-431 | malformed requests and a locked agent are told first, and change nothing |
| `GuardAnswers.LoadDates` | cmd/agent/main.go:546-570 | reading the file dates the failure and every interrupted action by the reading and changes nothing else |
| `GuardAnswers.CompletedDates` | cmd/agent/main.go:470-483 | what a finished execution leaves on file |
| `Guard.DelayIsPaid` | cmd/agent/main.go:458-467 | both bounds are attained, by one run of three restarts for each d up to a day less an hour |
| `Guard.SpacingIff` | cmd/agent/main.go:458-467 | real starts keep the hour, and likewise the day, in every run with delays of at most d if and only if d is zero |
| `Controller.EnqueueAdds` | cmd/controller/main.go:808-823 | offering an incident remembers its first sight, or adds at most its own key and overwrites nothing |
| `Controller.SignalShape` | cmd/controller/main.go:721-757 | one signal either touches incidents only or offers its own open incident for an automatic action, as a candidate or as a new incident |
| `Controller.SignalInv` | cmd/controller/main.go:721-757 | one signal adds at most one action, under the key of its own open incident and only for an automatic candidate, although every opened incident is offered; what is remembered stays open |
| `Controller.PassInv` | cmd/controller/main.go:721-772 | after a whole pass with its sweep every remembered fingerprint has an open incident |
| `ControllerLoop.Process.OneSignal` | cmd/controller/main.go:721-757 | handling one signal in place equals its specification |
| `ControllerLoop.Process.TryEnqueue` | cmd/controller/main.go:808-823 | the guarded insert in place equals its specification |
| `ControllerLoop.Process.TryOpen` | internal/store/store.go:167-179 | the insert-or-find of an incident equals its specification under all faults |
| `ControllerLoop.Process.Sweep` | cmd/controller/main.go:758-771 | the resolution loop, in any row order, equals its specification, whose effect on every row `Incidents.SweepEffect` gives |
| `ControllerLoop.Process.HandlePass` | cmd/controller/main.go:721-772 | a whole pass in place equals its specification |
| `Incidents.OpenAfterPass` | cmd/controller/main.go:721-772 | after a fault-free pass the open fingerprints are exactly the current signals plus a held reward-silence |
| `Incidents.LeftOpenIff` | cmd/controller/main.go:758-771 | after a fault-free pass an incident that is not signalled is open if and only if it is an already open reward-silence on an unhealthy node or chain; the closed ones are resolved under their ids |
| `Incidents.SilenceIsHeld` | cmd/controller/main.go:762-764 | after any run, the next fault-free pass closes a silence that is not signalled exactly when the chain is healthy, and every other incident that is not signalled |
| `Incidents.SignalEffect` | cmd/controller/main.go:721-757 | the effect of one signal on the table and on the state of the mail under every combination of faults |
| `Incidents.SweepEffect` | cmd/controller/main.go:758-771 | the effect of the sweep on every row and its memory under every combination of faults |
| `Incidents.WorseMeans` | cmd/controller/main.go:773-784 | critical is more severe than warning, and warning than info |
| `Incidents.SeverityIsHighestSinceOpening` | cmd/controller/main.go:738-750 | in every fault-free run of passes, diagnoses on request and controller restarts, an open incident has been open since the step that signalled it, and its severity is the highest signalled since |
| `Incidents.SignalsOpen` | internal/store/store.go:80 | signals open at most one row per fingerprint and never lower a severity |
| `Remediation.ResubmitIsIdempotent` | cmd/controller/main.go:930-970 | once a manual action is in the table, even if its answer was lost, sending it again queues nothing and returns the first id |
| `Remediation.SubmitMeans` | cmd/controller/main.go:858-884 | which manual requests are legal, which conflict, which are accepted, and the row that is inserted, under every combination of faults |
| `Remediation.AgentAcceptsIff` | cmd/controller/main.go:858-884 | which actions the controller accepts are accepted by the agent, in bytes of UTF-8 |
| `Text.TrimTwice` | cmd/controller/main.go:858-862 | trimming a reason twice is trimming it once, so the agent sees the length the controller checked |
| `Text.TrimMeans` | cmd/controller/main.go:858-862 | trimming cuts off the white space at both ends and no more |
| `Remediation.NextInv` | cmd/controller/main.go:972-1025 | every step of controller, queue and agent keeps the system invariant, with status updates, requeues and inserts that fail or lose their answer |
| `Remediation.WorkerSteps` | cmd/controller/main.go:972-1020 | the worker takes only pending actions, one at a time, and lets go of them whatever becomes of the update |
| `Remediation.RequeuedIff` | cmd/controller/main.go:138 | a restart of the controller makes exactly the actions pending again that were claimed more than fifteen minutes ago, unless the statement fails |
| `Remediation.DeliveredAgain` | cmd/controller/main.go:138 | at least once: in whatever state, an action that is pending or was claimed more than fifteen minutes ago is handed to the agent by a restart, a claim and a delivery that do not fail |
| `Remediation.DoneWasClaimed` | cmd/controller/main.go:972-1020 | in every run an action is done only if a worker that had claimed it completed it with that result |
| `Remediation.AtMostOnceEndToEnd` | cmd/controller/main.go:972-1025 | every execution of the wrapper belongs to one queued action and no two to the same, under crashes, requeues, repeated delivery and failed status updates |
| `Automatic.SignalQueues` | cmd/controller/main.go:808-823 | one signal queues an action only under the key of its own open incident, as a candidate, with its first sight and the guard met |
| `Automatic.OfferQueuesIff` | cmd/controller/main.go:808-823 | offering an incident without an action queues one if and only if all documented conditions hold and the insert takes effect |
| `Automatic.CandidateIsOffered` | cmd/controller/main.go:753-757 | a candidate that is open at its severity is offered whenever its row is found |
| `Automatic.MailWorked` | cmd/controller/main.go:738-752 | the controller believes in its mail, without which nothing is queued automatically, only if a mail was accepted since it started |
| `Automatic.AutomaticAction` | cmd/controller/main.go:808-823 | every automatic row of the queue rests on two passes of one controller process in the run: the first saw the fingerprint at least a minute before the second queued the action, every sweep from the first on that read the incident or all incidents saw it again, and all documented conditions held at the second |
| `Automatic.AutomaticExecution` | cmd/controller/main.go:808-823 | the same for every execution of the wrapper that belongs to an automatic action |
| `Remediation.OneAutomaticRestartPerIncident` | cmd/controller/main.go:819 | an incident leads to at most one automatic execution ever, across restarts of the controller |
| `Automatic.OneOwner` | internal/store/store.go:167-179 | an incident id belongs to one fingerprint in the whole run |
| `Automatic.NonCandidatesNeverRestart` | cmd/controller/main.go:658-660 | no incident ever open under a fingerprint that is never signalled as a candidate, such as every reward anomaly, has an automatic action or execution |
| `Codec.DecodeBase58` | internal/reward/reward.go:89-105 | the loop equals the specification, with an error exactly for characters outside the alphabet |
| `Codec.DecodeInvertsEncode` | internal/reward/reward.go:89-105 | decoding inverts the encoder for all byte strings, leading zeros included |
| `Codec.EncodeInvertsDecode` | internal/reward/reward.go:89-105 | encoding inverts decoding for all valid texts |
| `Codec.DecodeIsInjective` | internal/reward/reward.go:89-105 | no two texts decode to the same bytes |
| `Codec.IndexByte` | internal/reward/reward.go:93-96 | the index of the first occurrence, or a negative number if there is none |
| `Codec.AlphabetIsOrdered` | internal/reward/reward.go:40 | the alphabet lists the 58 characters in the order of their digits |
| `Scale.LittleInt` | internal/reward/reward.go:468-474 | reversing in place and reading big-endian gives the little-endian value |
| `Scale.BlockNumberRoundTrips` | internal/reward/reward.go:422-431 | both widths of block numbers round-trip, the wide one as signed 64-bit |
| `Scale.DecodeAccountInfo` | internal/reward/reward.go:414-421 | which bytes are the two balances and when the layout is supported |
| `Scale.AccountInfoWidths` | internal/reward/reward.go:414-421 | records of fewer than 48 bytes are refused, and the layout is the expected one at 80 |
| `Scale.AccountInfoRoundTrips` | internal/reward/reward.go:414-421 | every pair of 128-bit balances is read back |
| `Scale.CompactRoundTrips` | internal/reward/reward.go:446-467 | a length written in any of the three forms is read back, with its width |
| `Scale.CompactIsOneOfThree` | internal/reward/reward.go:446-467 | whatever is read was written in one of the three forms |
| `Scale.DecodeAccountVector` | internal/reward/reward.go:432-445 | succeeds exactly on encodings of at most 1024 accounts, and returns the encoded vector |
| `Scale.VectorLimit` | internal/reward/reward.go:432-445 | vectors of up to 1024 accounts have encodings that are decoded, longer ones none |
| `Scale.VectorDetermined` | internal/reward/reward.go:432-445 | an encoding determines the vector and the form of its length |
| `Scale.NoTrailingBytes` | internal/reward/reward.go:437-439 | an encoding followed by more bytes is never an encoding |
| `Scale.EncodesOne` | internal/reward/reward.go:432-445 | the bytes determine the decoded vector |
| `Scale.NonCanonicalLengthsAccepted` | internal/reward/reward.go:446-467 | a short vector is what three byte strings of different lengths decode to |
| `Scale.DecodeAddress` | internal/reward/reward.go:71-87 | an address is accepted exactly when it is the text of an account under a one-byte prefix |
| `Scan.ExpectedReward` | internal/reward/reward.go:475-481 | half of what the pot holds above the existential deposit, rounded down, never negative |
| `Scan.ObserveReward` | internal/reward/reward.go:318-368 | the amounts follow from the decoded balances, with expected half of the surplus and credited the gain, and the verdict is insufficient, confirmed or extra if and only if credited is less than, equal to or more than a positive expected amount; against a truthful node this is the truth about the block and its parent |
| `Scan.TruthMeasures` | internal/reward/reward.go:318-368 | the recorded truth about a block measures it against its parent in the same way |
| `Scan.ScanBlock` | internal/reward/reward.go:294-313 | one iteration observes the block exactly when the wallet authored it |
| `Scan.Scan` | internal/reward/reward.go:262-316 | a successful scan of a truthful node lists exactly the authored blocks; it succeeds when everything is answered on a legal range with supported runtimes, and never before the first authored block |
| `Scan.PermittedIff` | internal/reward/reward.go:262-290 | the exact condition on range, block hashes and the four known runtimes under which a scan starts |
| `Scan.DueIsExact` | internal/reward/reward.go:292-315 | the listed blocks are exactly the authored ones, in strictly increasing order, each with its true hash and amounts |
| `Scan.ScansConcatenate` | internal/reward/reward.go:262-316 | exact scans of adjacent ranges concatenate to the exact scan of the union |
| `Scan.ValidateLocalRewardScan` | cmd/controller/main.go:493-513 | the loop accepts exactly the well-formed, in-range, duplicate-free local results |
| `Scan.ValidLocalIff` | cmd/controller/main.go:493-513 | what a valid local scan is, field by field |
| `Scan.ExactScanIsValid` | cmd/controller/main.go:493-513 | every exact local scan passes the validation |
| `Ledger.Store.UpsertRewardObservation` | internal/store/store.go:370-386 | insert, merge or conflict, under the unique block number and hash |
| `Ledger.Store.ApplyRewardScan` | internal/store/store.go:391-425 | observations and cursor change together or not at all, only if the cursor is the expected one, under faults at every statement and lost answers |
| `Ledger.Store.UpsertInto` | internal/store/store.go:411-415 | the upserts of a transaction in order, stopping at the first conflict |
| `Ledger.UpsertsAccumulate` | internal/store/store.go:370-386 | a sequence of upserts succeeds if and only if blocks and hashes stay one to one; then every row has the amounts first recorded, the most sources observed and the newest verdict among those |
| `Ledger.AppliedIff` | internal/store/store.go:391-425 | the exact condition of a scan transaction and its whole effect on rows, both cursors and audits |
| `Ledger.ApplyMeans` | internal/store/store.go:391-425 | a transaction that breaks before its last statement changes nothing, one whose answer is lost changes everything without saying so |
| `Ledger.Store.AcknowledgePrunedRewardGap` | internal/store/store.go:282-368 | audit row and cursor change together or not at all, only if both copies of the cursor are the expected one |
| `Ledger.Store.RewardStats` | internal/store/store.go:462-476 | count and credited sum over all rows, and the amount of the newest row or zero |
| `Ledger.Store.SaveRewardOverview` | internal/store/store.go:235-243 | writes both copies of the cursor without looking at the old ones |
| `LedgerRuns.ChunkIsLegal` | cmd/controller/main.go:565-572 | every chunk satisfies the 128-block limits of agent, scanner and store |
| `LedgerRuns.ChunkMeans` | cmd/controller/main.go:565-572 | a lag above 64 blocks is scanned 128 at a time, a smaller one 16 at a time |
| `LedgerRuns.UpsertDue` | internal/store/store.go:370-425 | recording the truth about a range never conflicts and adds exactly its authored blocks |
| `LedgerRuns.DueWithin` | internal/store/store.go:395-399 | confirmed scan results pass the range checks of the store |
| `LedgerRuns.ApplyDue` | internal/store/store.go:391-425 | a scan commit moves the cursor over exactly its range, and succeeds whenever the cursor is current and nothing breaks |
| `LedgerRuns.WorkEffect` | cmd/controller/main.go:517-563 | the scan part of a pass changes nothing or commits exactly its chunk; the overview it returns follows unless the answer is lost |
| `LedgerRuns.WorkedEffect` | cmd/controller/main.go:517-563 | the same as a step of the protocol, with what it leaves to the other collectors |
| `LedgerRuns.NextInv` | cmd/controller/main.go:325-447 | every step of any collector or acknowledgement keeps every known cursor justified by rows or audited gaps |
| `LedgerRuns.LedgerIsExact` | cmd/controller/main.go:415-444 | in every run of any number of collectors and acknowledgements, locked or not, with failures, crashes and lost answers: outside gaps a block up to the cursor has a row if and only if it was authored, and every row is true |
| `LedgerRuns.RowsMeasure` | internal/reward/reward.go:318-368 | in every run each row holds the amounts of its block against the parent, and its verdict compares them |
| `LedgerRuns.CommitCountsSources` | internal/store/store.go:374 | a committed chunk leaves each of its blocks with the most sources seen so far, the confirmations of an anomaly included, and touches no other row |
| `LedgerRuns.NothingIsLost` | internal/store/store.go:370-425 | along every run rows are never removed, never lose a confirming source, and the audit log only grows |
| `LedgerRuns.UpsertIsIdempotent` | internal/store/store.go:374 | recording the same observation again changes nothing |
| `LedgerRuns.RunsAgreeOutsideGaps` | internal/store/store.go:370-425 | any two runs over one chain agree on every block both have passed outside their gaps |
| `LedgerTiling.TilesPartition` | internal/store/store.go:282-425 | in a tiling every block lies in exactly one segment |
| `LedgerTiling.TilesThroughoutIff` | internal/store/store.go:235-243 | in every run of any number of collectors and acknowledgements, locked or not, scans and audited gaps tile the chain after every step if and only if no save writes back a cursor that is not the stored one |
| `LedgerTiling.StaleIsOvertaken` | internal/store/store.go:235-243 | such a save comes only from a collector that was overtaken since it loaded, or whose own commit was not answered |
| `LedgerTiling.MutexPreventsStaleSaves` | cmd/controller/main.go:1003-1007 | if passes and acknowledgements hold the mutex and commits are answered, there is no such save |
| `LedgerTiling.SegmentsPartition` | internal/store/store.go:282-425 | without such a save, scans and audited gaps partition the blocks up to the cursor, the audit log lists exactly the gaps, and rows lie exactly in scanned segments |
| `LedgerTiling.CursorNeverDecreases` | internal/store/store.go:235-243 | without such a save the cursor never decreases |
| `LedgerTiling.TotalIsConserved` | internal/store/store.go:462-466 | without such a save the credited total is exactly what the chain paid for the scanned blocks |
| `LedgerTiling.ScheduleIndependence` | cmd/controller/main.go:517-572 | in two runs without such a save, equal cursor and gaps mean equal ledgers and totals, whatever the locks, chunks, retries and failures were |
| `LedgerHazards.CursorGoesBackIff` | internal/store/store.go:241 | with one collector and acknowledgements at any time, a step lowers the cursor if and only if it saves a pass that was overtaken by an acknowledgement or whose commit was not answered, and these are exactly the saves that write back another cursor |
| `LedgerHazards.TilesIff` | internal/store/store.go:235-243 | with one collector, scans and audited gaps tile the chain at the end of a run if and only if no save on the way wrote back another cursor: a lost tiling never heals |
| `LedgerHazards.OnlyOvertakenSavesLower` | internal/store/store.go:241 | with any number of collectors, only a save by a collector overtaken since it loaded, or by its own unanswered commit, lowers the cursor |
| `LedgerHazards.AcknowledgedWithoutMutex` | cmd/controller/main.go:148-172 | the command line acknowledgement during a pass, whether or not passes are locked: the rebase is undone and a second one overlaps it |
| `LedgerHazards.LostAnswerUndone` | cmd/controller/main.go:557-559 | a commit without an answer is undone by the save of the same pass |
| `LedgerHazards.ActivatesOnce` | cmd/controller/main.go:337-342 | with a shared mutex or one collector, a run from an empty database activates at most once, at a step before which there is no cursor, and the rest is a run from that activation |
| `LedgerHazards.ExactFromEmpty` | cmd/controller/main.go:325-447 | with a shared mutex or one collector, and acknowledgements at any time, every run from an empty database that has a cursor was activated by its n-th step and not before, and from the height of that activation on the ledger is exact |
| `LedgerHazards.ExactFromEmptyIff` | cmd/controller/main.go:325-447 | all runs of a set of collectors from an empty database are exact from their first cursor if and only if passes share a mutex, the set has at most one member, or no block above 1 is authored |
| `LedgerHazards.ActivatedTwice` | cmd/controller/main.go:435-444 | any two controllers on an empty database at any two heights: a reward between is passed by the cursor, without a row and without an audit |
| `CatchUp.PassesExact` | cmd/controller/main.go:565-572 | a lag of 128 q + r takes exactly q passes plus none, one or the rest in sixteens |
| `CatchUp.PassAdvances` | cmd/controller/main.go:517-563 | an undisturbed pass moves the cursor by exactly one chunk |
| `CatchUp.CatchesUp` | cmd/controller/main.go:517-572 | the collector reaches a fixed finalized height in exactly that number of passes and not before |
| `Collector.Collector.ConfirmRewardAnomaly` | cmd/controller/main.go:580-606 | an anomaly gains one source for each external node that answered exactly one observation with the same hash, amounts and verdict |
| `Collector.BackoffDoubles` | cmd/controller/main.go:460-471 | the wait after a failed scan starts at fifteen seconds and doubles up to five minutes |
| `Collector.ConfirmAllIsConfirmed` | cmd/controller/main.go:538-542 | confirming in place changes only the source counts of anomalies |
| `Collector.Collector.ScanLocalRewardHistory` | cmd/controller/main.go:517-563 | the scan step equals its specification on whatever was answered; before the due time nothing changes, a chunk that is not confirmed counts one failure and backs off, a confirmed one clears the count and waits one interval |
| `Collector.Collector.CollectRewards` | cmd/controller/main.go:325-447 | one pass equals its specification on whatever was answered, for the tables and for the retry fields |
| `Collector.FailuresSinceSuccess` | cmd/controller/main.go:517-578 | over every sequence of passes the failures counted are the scans asked for since the last confirmed chunk |
| `Collector.AsksAreSpaced` | cmd/controller/main.go:517-578 | between two consecutive scans lies the interval after a confirmed chunk, and the wait for the counted failures otherwise |
| `Collector.AsksIff` | cmd/controller/main.go:517-530 | a pass asks for a scan exactly if the overview was loaded, the finalized height is above a positive stored cursor and the wait is over |
| `Collector.FirstPass` | cmd/controller/main.go:329-342 | the first pass over an empty database stores the finalized height as its cursor and scans nothing |
| `Collector.PassSaves` | cmd/controller/main.go:325-447 | every pass that loads and saves stores both cursors alike, the finalized height and the counted totals; one that cannot load changes nothing |
| `Collector.Collector.CollectFromNode` | cmd/controller/main.go:530-546 | a pass that asks a truthful node records the truth of the chain, and gets its answer when the node can give it |
| `Collector.TruthRecorded` | cmd/controller/main.go:530-557 | if what passes the validation is true, the pass is a step of the protocol on the true chain |
| `Collector.PassIsRun` | cmd/controller/main.go:325-328 | a pass is three uninterrupted steps of the protocol |
| `Rebase.AcknowledgePrunedRewardGap` | cmd/controller/main.go:174-205 | the store is asked only when the node is trusted, the history is gone and the retained window is readable |
| `Rebase.ApprovedIff` | cmd/controller/main.go:174-205 | which snapshot, which pruned and which retained probe are required |
| `Rebase.RebaseTakesEffectIff` | internal/store/store.go:282-368 | the exact condition for a rebase and for its answer, and its whole effect: one audit row, the ledger unchanged, the cursor 64 below the finalized height |
| `Rebase.RebaseIsStep` | cmd/controller/main.go:148-172 | an acknowledgement, from the queue with the mutex or from the command line without, is one step of the protocol |
| `Recovery.Account.Login` | cmd/authbroker/main.go:439-478 | code removal and session are one transaction, under faults and lost answers |
| `Recovery.CommitMeans` | cmd/authbroker/main.go:439-478 | a login is welcomed exactly if nothing fails and its code is still there; then the session is live and one code is gone, and without a new session nothing changes |
| `Recovery.Account.Matched` | cmd/authbroker/main.go:450-457 | the index of the first matching hash, or none |
| `Recovery.CodesAreConserved` | cmd/authbroker/main.go:439-478 | unused codes and codes consumed by opened sessions are together the codes issued, under any interleaving of logins |
| `Recovery.CodeOpensOneSession` | cmd/authbroker/main.go:439-478 | a code issued once opens at most one session |
| `Recovery.LiveIff` | cmd/authbroker/main.go:465-478 | in every run a token is live if and only if a login opened its session and no logout came since |
| `Recovery.OpenedWasChecked` | cmd/authbroker/main.go:412-478 | a login that opens a session passed its check before, with the code it consumes, and had not finished in between |

## Left out

- Cryptography: HMAC, Argon2id, AES-GCM, TOTP, xxHash64 and Blake2b are uninterpreted or absent; storage keys are not derived.
- HTTP, sockets, JSON, SMTP, Gemini calls, Prometheus parsing, systemd and journald: their answers are inputs of a step.
- SQL text: tables are maps and sequences, the unique indexes are map keys and checks, a transaction is a working copy.
- Floating point: a bucket holds tokens times interval as integer nanoseconds, where the source uses float64; the numbers of reachable states are integers, so rounding inside float64 is not modelled.
- Header parsing, trimming and base64 of broker requests are uninterpreted functions of the verifier.
- A clock that goes backwards: run theorems of limiter, guard and verifier assume non-decreasing readings.
- Guard file save errors and corruption: the agent ignores save errors, and the model assumes every save succeeds.
- In-place slice filters (`state.Attempts[:0]`, `v.order[:0]`): the slices are sequences, so sharing of the backing array is not captured.
- The Unicode table of lower-case characters is a parameter of the limiter.
- Titles, evidence, mail and audit details of incidents; the diagnosis enters as an input.
- The queue claims any pending action, where the source takes the oldest.
- Retention deletes after 365 days: ledger properties are stated within that horizon.
- Authorship times of rewards, the 24-hour and daily statistics and the status texts of the overview.
- `LastAuthoredBlock` set ahead of the chain by a collator registration: the model takes the stored value to be the newest authored block.
- Repeated reads of one scan give one answer: the node may fail, but not change its mind within a scan.
- Snapshot reading, quorum and the backoff of external nodes: they decide who is asked, not what is recorded.
- Session expiry, bootstrap, settings and the web interface.
- LimiterCleanup.InvisibleIff: no condition for global bursts between one and two bursts of an address, nor for smaller ones with a faster global refill, where it depends on how the two intervals divide the lifetime.
- Ledger.Store.RewardStats: without the time of the last reward and the 24-hour figures, which need authorship times.
