# ArxSentinel product layer: a verified model

ArxSentinel reads web-server logs, keeps a bounded amount of state per client IP, scores it with
detectors, and bans offenders through firewall and web-server executors. This project models the
parts of that layer that are state machines or algorithms, in the form the Go code has (classes
where objects are updated in place, loops where the code loops), and proves what they keep over
every run.

| module | component |
|---|---|
| `SlidingRate`, `LruLedger`, `Tracker` | per-IP state: two-counter rate, ring buffer with its cache, LRU store |
| `Scorer` | score aggregation with linear decay, verdict levels |
| `Crawler` | detection of sequential numeric URL traversal |
| `Environment` | what the executors live in: clock, cancellation, deduplication window, levels, events and timers |
| `Passes` | the passes over expired bans and how far apart they are |
| `BanLog` | the ban laws of the executors that own their remote list |
| `Openwrt`, `Opnsense`, `Mikrotik`, `Cloudflare`, `Nginx` | the ban executors |
| `RouterOsDuration` | the RouterOS timeout printer |
| `IpCache` | the DNS verification cache under concurrent Get and Set |
| `Waf` | rule split and two-pass evaluation |
| `Blocklist` | pattern normaliser, parsers, merge, persisted copy |
| `Text`, `Basics` | the operations of Go's `strings` and `bufio` that the above use; shared types |

## How to read it

- **Runs.** The tracker, the scorer and the executors carry ghost logs. Specification functions replay
  those logs (`RateOf`, `LedgerOf`, `ScoreAfter`, `After`), invariants tie the real fields to the
  replay (`IPState.Valid`, `Tracker.Valid`, `Scorer.Replays`), and the lemmas are about all logs.
  Every executor has a `Run` method over an arbitrary sequence of events and ticks. Where the code
  finishes a run with a last flush or sweep, the method for the run up to that point (`Serve`,
  `Continue`) states what holds at every turn of the loop. `Wanted` is the set of addresses of the
  events that meet the level; every run says what became of all of them, and that nothing else was
  asked for (`Flows`).
- **Sealed predicates.** A few invariants (`InOrder`, `Ownership`, `Explained`, `RingShows`, `Journal`)
  are written with a quantifier over a marker such as `Look`, so that the verifier unfolds them only
  where a proof mentions the marker. They mean what stands behind the marker.
- **Failures.** Every remote call and every file write chooses its outcome freely. A failed call
  changes nothing on the remote side.
- **Time** is read from a clock that never runs backwards. Where the code reads it twice for one record,
  the clock remembers the longest such gap. Times are integers (nanoseconds), 0 is Go's zero time.
- **Remote lists.** The OPNsense alias is one set. The OpenWrt router is three: staged, committed and
  running. The MikroTik list is known only through what its calls report, because RouterOS and other
  programs change it as well. The Cloudflare API is a log of calls with arbitrary answers.
- **Deduplication window.** Its source is not part of this model. Only this is used: what it contains
  was marked, entries may expire at any time, and a window of 0 contains nothing.
- **Rule sets.** `Match` is the first rule in insertion order whose expression holds.

## What turned out to differ from the documentation or from expectation

The model follows the code. Each item names the member that states it.

- The rate counters forget a first request that carries the zero time. They are exact throughout a run
  if and only if it does not, or the second request comes more than a window later
  (`SlidingRate.ExactThroughoutIff`).
- A tracker configured for less than one IP still keeps one (`LruLedger.RecencyOrder`).
- The WAF and fake-bot penalties re-stamp a score without decaying it. The result equals "decay, then
  add" if and only if no decay was due (`Scorer.UndecayedPenalty`).
- OpenWrt: a failed commit or reload is not repeated by a cycle that has nothing to add or delete
  (`Openwrt.OpenwrtExecutor.Flush`, the clauses about `applied` and `Nothing`).
- Cloudflare: the comments in `flush` and `Run` promise that a failed batch is tried again by later
  events. It is not: addresses are registered before the call, and an address asked for once is asked
  for again only by the direct retry after a rate limit (`Cloudflare.AnsweredBatchIsFinal`,
  `Cloudflare.CloudflareExecutor.Run`). The executor's own bans are never removed (`Sweep`).
- nginx: the comment in `sweep` promises that the file is cleared when the last ban expires. It is
  not: when no write fails, the file shows the map after an expiry if and only if the context is not
  cancelled and some ban is left (`Nginx.NginxExecutor.Sweep`).
- MikroTik: an address buffered twice is added twice. RouterOS ids being fresh, every granted entry
  stays under control if and only if no address was accepted twice (`Mikrotik.AllRecordedIff`). Of
  two ids for one address the first is lost (`Mikrotik.RepetitionLosesId`), and the rest of the run
  never deletes that entry (`Mikrotik.MikroTikExecutor.Continue`).
- OPNsense: a record takes two clock readings, so a ban can outlast TTL + I by the gap between them
  (`Opnsense.OpnsenseExecutor.Run`). OpenWrt takes one, and has no such gap.
- A RouterOS timeout below one second prints as the empty string, which RouterOS takes as permanent
  (`RouterOsDuration.EmptyIffBelowOneSecond`).

## Model

| member | source | states |
|---|---|---|
| `SlidingRate.AdvanceKeepsTracking` | internal/core/state/tracker.go:256-283 | one rate update keeps both counters equal to exact counts of the request history, in each shift and reset case |
| `SlidingRate.CountersExact` | internal/core/state/tracker.go:256-283 | for every history with non-decreasing times and a fixed window, the current counter is the number of requests in [start, start+w) and the previous one that in [start-w, start) |
| `SlidingRate.ExactThroughoutIff` | internal/core/state/tracker.go:256-283 | that exactness holds after every request of a run if and only if the first request does not carry the zero time, or the second comes later than one window |
| `SlidingRate.ReadMatchesRolledRead` | internal/core/state/tracker.go:128-151 | reading the rate from stale counters gives what rolling the window to now and then reading gives |
| `SlidingRate.ReadErrorBound` | internal/core/state/tracker.go:128-151 | the estimate differs from the true count of (now-w, now] by at most the rolled-over previous count, and both are 0 once two windows have passed |
| `SlidingRate.EstimateWithinRolled` | internal/core/state/tracker.go:128-151 | the estimate lies between the rolled current count and that plus the rolled previous count |
| `SlidingRate.CountWithinRolled` | internal/core/state/tracker.go:128-151 | so does the true count |
| `SlidingRate.RateTimesWindow` | internal/core/state/tracker.go:128-151 | the returned rate times the window in seconds is that estimate; without a window or before the first request the rate is 0 |
| `SlidingRate.EstimateIsLinear` | internal/core/state/tracker.go:139-150 | the estimate is the rolled current count plus the rolled previous count times the part of the window that is left |
| `SlidingRate.SteadyCounters` | internal/core/state/tracker.go:256-283 | the exact counters of a steady source with a whole number of requests per window |
| `SlidingRate.SteadyEstimate` | internal/core/state/tracker.go:128-151 | for such a source, observed before its next request is due, the estimate is never below the true count of the last window and at most one request above it |
| `LruLedger.RecencyOrder` | internal/core/state/tracker.go:207-250 | over every run of requests and collections, the list is in order of most recent request, without repetition, and not longer than the capacity |
| `LruLedger.EvictsOldest` | internal/core/state/tracker.go:289-300 | a new IP in a full tracker displaces exactly one IP, the one updated longest ago |
| `LruLedger.TracksMostRecent` | internal/core/state/tracker.go:207-250 | without collections an IP is tracked if and only if fewer distinct IPs than the capacity made a request since its last one |
| `LruLedger.DistanceOrder` | internal/core/state/tracker.go:207-250 | the IPs in front of a tracked IP are exactly those that made a request since its last one; an IP that is no longer tracked has at least a capacity of them |
| `LruLedger.Conservation` | internal/core/state/tracker.go:207-250 | tracked requests plus those lost to eviction and collection are all requests, over every run |
| `Tracker.RecentOfGrows` | internal/core/state/tracker.go:237-244 | of the last min(n, 64) paths: a new path is appended, and pushes out the oldest one only when 64 are held |
| `Tracker.UnrollPush` | internal/core/state/tracker.go:237-244 | writing at the ring position appends in reading order, and drops the oldest when the ring was full, at every position |
| `Tracker.IPState.constructor` | internal/core/state/tracker.go:212-221 | a new state is consistent with an empty history |
| `Tracker.IPState.Record` | internal/core/state/tracker.go:228-247 | one request extends the history, and counters, rate and ring stay consistent with it; the score is untouched |
| `Tracker.IPState.Count` | internal/core/state/tracker.go:229-236 | the totals, the 404 count, the last-seen time and the rate counters follow the history |
| `Tracker.IPState.PushPath` | internal/core/state/tracker.go:237-244 | the ring, wrap-around included, holds the last paths of the history and its cache is marked stale |
| `Tracker.IPState.UpdateRate` | internal/core/state/tracker.go:256-283 | the in-place update is the counter step that the rate lemmas are about |
| `Tracker.IPState.RecentPaths` | internal/core/state/tracker.go:103-121 | returns exactly the last min(n, 64) paths in order, whether the cache is used or rebuilt, in any interleaving with updates |
| `Tracker.IPState.ApproxRate` | internal/core/state/tracker.go:128-151 | reads the rate that the replayed request history calls for |
| `Tracker.NotFoundCountIs` | internal/core/state/tracker.go:232-234 | the 404 counter is the number of requests answered with "not found" |
| `Tracker.IPState.SetScore` | internal/core/state/tracker.go:157-160 | stores score and time and keeps the state consistent |
| `Tracker.Tracker.constructor` | internal/core/state/tracker.go:184-198 | an empty tracker satisfies the invariant |
| `Tracker.Tracker.Update` | internal/core/state/tracker.go:207-250 | counts the entry for its IP, creating, evicting and moving to the front as the ledger of all requests says; map and list hold the same states once each; other states are untouched |
| `Tracker.Tracker.Touch` | internal/core/state/tracker.go:211-227 | finds or creates the state of an IP and puts it at the front, leaving the order of the rest |
| `Tracker.Tracker.Insert` | internal/core/state/tracker.go:212-223 | a new state goes to the front; in a full tracker the last one goes |
| `Tracker.Tracker.MoveToFront` | internal/core/state/tracker.go:226 | the state moves to the front, the order of the others is kept, map and list stay linked |
| `Tracker.Tracker.EvictLRU` | internal/core/state/tracker.go:289-300 | removes the last state from both list and map, nothing when empty |
| `Tracker.Tracker.Remove` | internal/core/state/tracker.go:430-436 | removes one IP from map and list and accounts for its requests as lost |
| `Tracker.Tracker.RunGC` | internal/core/state/tracker.go:421-439 | removes exactly the IPs not seen since now minus the retention, and reports how many went and how many stay |
| `Tracker.Tracker.GetStats` | internal/core/state/tracker.go:318-330 | tracked IPs within the capacity; the request total plus lost requests is the number of updates ever; the suspicious count is the number of IPs with a positive score |
| `Tracker.Tracker.Reconfigure` | internal/core/state/tracker.go:337-346 | new windows, with the default for a non-positive one; everything else is kept |
| `Scorer.ApplyDecay` | internal/core/scorer/scorer.go:200-212 | within the window, the exact linear share of the score, rounded down; 0 from the end of the window on and for an unstamped or non-positive score; never more than the score when time does not run backwards |
| `Scorer.Scale` | internal/core/scorer/scorer.go:200-212 | the truncated product is the exact quotient rounded down |
| `Scorer.Collect` | internal/core/scorer/scorer.go:131-158 | the sum, the modules and the reasons of exactly the non-exempt findings with a positive score, in detector order |
| `Scorer.HitsAre` | internal/core/scorer/scorer.go:131-147 | the hits are exactly the findings with a positive score of detectors that are not exempt |
| `Scorer.HitsCount` | internal/core/scorer/scorer.go:131-147 | one hit for each of those |
| `Scorer.Scorer.Evaluate` | internal/core/scorer/scorer.go:111-174 | the new score is the decayed old one plus all hits, stamped with the same instant, and stays the replay of all changes; threat from the ban threshold on, warning from the alert threshold on; never a threat for an IP paced below the ban threshold, always one for an IP pressed above it |
| `Scorer.Scorer.Penalize` | cmd/arxsentinel/processor_security.go:229-231 | a penalty is added and stamped without decay, and the score stays the replay of all changes |
| `Scorer.Scorer.QuietStateDrains` | internal/core/scorer/scorer.go:111-212 | a stored score, whatever it came from, is 0 after as many quiet evaluations as it had points |
| `Scorer.ExemptionLowers` | internal/core/scorer/scorer.go:136-147 | hits never lower a score, and exempting more detectors never raises it |
| `Scorer.BoundStep` | internal/core/scorer/scorer.go:111-212 | one evaluation at least g after the previous one keeps score*g <= D*w |
| `Scorer.DecayContracts` | internal/core/scorer/scorer.go:200-212 | a decay over at least g lowers that bound by what one evaluation may add |
| `Scorer.ScoreBound` | internal/core/scorer/scorer.go:111-212 | over every series of evaluations at least g apart that add at most D each, the replayed score times g never exceeds D*w |
| `Scorer.NeverThreat` | internal/core/scorer/scorer.go:181-190 | so the level of such a series with D*w/g below the ban threshold is never a threat (`Evaluate` concludes this for the level it returns) |
| `Scorer.PressStep` | internal/core/scorer/scorer.go:111-212 | an evaluation at most g after the previous one that adds at least d raises the score, or keeps score*g at (d-1)*w+1 or more |
| `Scorer.ScoreFloor` | internal/core/scorer/scorer.go:111-212 | over every such series the score is at least the number of evaluations, until score*g reaches (d-1)*w+1 |
| `Scorer.AlwaysThreat` | internal/core/scorer/scorer.go:181-190 | so an IP with ((d-1)*w+1)/g at or above the ban threshold is a threat from as many evaluations on as the threshold has points |
| `Scorer.QuietLowers` | internal/core/scorer/scorer.go:200-212 | a later evaluation without hits strictly lowers a positive score |
| `Scorer.QuietDrains` | internal/core/scorer/scorer.go:111-212 | quiet evaluations at increasing times bring the replayed score to 0 within as many evaluations as it has points |
| `Scorer.UndecayedPenalty` | cmd/arxsentinel/processor_factory.go:375-379 | adding a penalty without decay and evaluating at that instant equals decaying and adding if and only if there is a window and a time, and the score was 0 or no time had passed; a fresh IP included |
| `Crawler.ParseNumericPathIff` | pkg/detectorplugins/crawler/crawler.go:108-118 | a path of the expression's shape parses to exactly its prefix and number, or to nothing when the number does not fit; every other path parses to nothing |
| `Crawler.Deduplicate` | pkg/detectorplugins/crawler/crawler.go:135-141 | a strictly ascending list of the same numbers |
| `Crawler.RunsAreNeighbours` | pkg/detectorplugins/crawler/crawler.go:146-159 | in a strictly ascending list, the set has n consecutive integers if and only if n neighbours are consecutive |
| `Crawler.ScanRuns` | pkg/detectorplugins/crawler/crawler.go:146-159 | the counter scan decides whether the set has a run of the given length |
| `Crawler.HasConsecutiveSequence` | pkg/detectorplugins/crawler/crawler.go:123-160 | true if and only if the set of numbers holds that many consecutive integers, whatever order and repetition |
| `Crawler.GroupByPrefix` | pkg/detectorplugins/crawler/crawler.go:83-90 | every prefix has exactly its numbers |
| `Crawler.Detect` | pkg/detectorplugins/crawler/crawler.go:76-103 | fires if and only if some prefix has min_sequential consecutive integers among the paths, for every iteration order of the groups, and names such a prefix |
| `Crawler.TooFewPaths` | pkg/detectorplugins/crawler/crawler.go:76-81 | the early exit never hides a traversal |
| `IpCache.StepKeepsFaithful` | internal/core/whitelist/ipcache.go:72-124 | every atomic section keeps the stored map equal to the last stored entries except for expired ones |
| `IpCache.AlwaysFaithful` | internal/core/whitelist/ipcache.go:72-124 | so this holds in every interleaving |
| `IpCache.DeleteIsInvisible` | internal/core/whitelist/ipcache.go:86-99 | the slow path deletes only expired entries, and no step of Get changes what any lookup returns |
| `IpCache.CallExplained` | internal/core/whitelist/ipcache.go:72-101 | at each moment of a call, what the thread holds was the cache's answer at some instant since the call began |
| `IpCache.LookupIsAnswer` | internal/core/whitelist/ipcache.go:103-124 | the ideal cache answers what the Set calls of the run call for: the flags of the last one for the address, for the positive TTL if verified and the negative one otherwise |
| `IpCache.GetIsAtomic` | internal/core/whitelist/ipcache.go:72-101 | each Get returns what the Set calls up to some instant during the call call for, said without the cache |
| `IpCache.SectionsAdvance` | internal/core/whitelist/ipcache.go:72-101 | a call returns after at most three sections of its own, and no section moves another thread |
| `IpCache.OthersWait` | internal/core/whitelist/ipcache.go:72-101 | nothing else moves a thread that is in the middle of a call |
| `Environment.MeetsMinLevelIff` | pkg/executorplugins/opnsense/executor.go:299-304 | which of the three levels pass which threshold; unknown levels pass none, an unknown threshold stops none |
| `BanLog.BooksBan` | pkg/executorplugins/opnsense/executor.go:214-236 | a successful ban, recorded with its TTL and marked, keeps the laws: no early unban, only banned addresses deleted, every record and mark backed by a ban, nothing expired left from the last clean pass |
| `BanLog.BooksDelete` | pkg/executorplugins/opnsense/executor.go:270-292 | deleting expired records keeps those laws |
| `BanLog.BooksPass` | pkg/executorplugins/opnsense/executor.go:254-293 | so does a pass, which if clean leaves nothing expired |
| `BanLog.BooksSay` | pkg/executorplugins/opnsense/executor.go:254-293 | what the laws amount to: among others, for every I, if every pass was clean and start, passes and end are at most I apart, no ban in the map is older than TTL + I (plus the gap between the two clock readings of a record) |
| `Opnsense.OpnsenseExecutor.SyncExisting` | pkg/executorplugins/opnsense/executor.go:100-121 | a successful sync makes the ban map equal the alias; a failed one leaves it empty |
| `Opnsense.OpnsenseExecutor.IsDuplicate` | pkg/executorplugins/opnsense/executor.go:319-328 | only an address that the firewall accepted or the sync found is a duplicate; every banned one is |
| `Opnsense.OpnsenseExecutor.Handle` | pkg/executorplugins/opnsense/executor.go:194-238 | an event is skipped for its level, or as a duplicate of a successful ban, and only then; otherwise its address is asked for; a failed add leaves map, window and alias unchanged |
| `Opnsense.OpnsenseExecutor.DeleteExpired` | pkg/executorplugins/opnsense/executor.go:276-292 | one expired address leaves map and alias together, or stays in both on failure |
| `Opnsense.OpnsenseExecutor.DeleteAll` | pkg/executorplugins/opnsense/executor.go:270-292 | removes only the given addresses, and all of them exactly when no call failed |
| `Opnsense.OpnsenseExecutor.Sweep` | pkg/executorplugins/opnsense/executor.go:254-293 | keeps every ban that has not expired; the pass is clean exactly when no delete call failed, and then nothing expired is left |
| `Opnsense.OpnsenseExecutor.Run` | pkg/executorplugins/opnsense/executor.go:142-244 | over every run: ban map equals alias once synced; no address deleted before its TTL; one pass per sweep tick, all clean if no delete failed, and then no ban older than TTL + I when passes are at most I apart; every event counted once; every event that meets the level was asked for or its address was banned, and nothing else was asked for |
| `Openwrt.CycleKeepsOrder` | pkg/executorplugins/openwrt/executor.go:276-390 | a cycle keeps the ban laws whichever of its calls succeed |
| `Openwrt.NothingLeft` | pkg/executorplugins/openwrt/executor.go:357-390 | a cycle whose deletions, if any were due, went through leaves no expired record |
| `Openwrt.KeysFollow` | pkg/executorplugins/openwrt/executor.go:357-390 | the ban map and the staged set change alike |
| `Openwrt.OpenwrtExecutor.SyncExisting` | pkg/executorplugins/openwrt/executor.go:107-133 | a successful sync makes the ban map equal the staged set; a failed one leaves it empty |
| `Openwrt.OpenwrtExecutor.IsDuplicate` | pkg/executorplugins/openwrt/executor.go:417-426 | only an address that the router accepted or the sync found is a duplicate; every banned one is |
| `Openwrt.OpenwrtExecutor.Split` | pkg/executorplugins/openwrt/executor.go:279-305 | the pending addresses not banned yet and the expired bans are disjoint; every other pending event is counted as skipped |
| `Openwrt.OpenwrtExecutor.Transact` | pkg/executorplugins/openwrt/executor.go:316-355 | both batches are requested unless empty; the staged set changes by exactly the calls that succeeded; one commit and one reload if any did, none otherwise |
| `Openwrt.OpenwrtExecutor.Conclude` | pkg/executorplugins/openwrt/executor.go:357-390 | the local state follows exactly what was applied |
| `Openwrt.OpenwrtExecutor.Flush` | pkg/executorplugins/openwrt/executor.go:276-390 | asks for exactly the new addresses to be added and the expired ones to be deleted; afterwards the ban map equals the staged set (once synced), and if commit and reload succeeded the running set, whatever failed before; a failed add marks nothing |
| `Openwrt.OpenwrtExecutor.Accept` | pkg/executorplugins/openwrt/executor.go:222-246 | an event is skipped only for its level or as a duplicate of a successful ban |
| `Openwrt.OpenwrtExecutor.Take` | pkg/executorplugins/openwrt/executor.go:222-246 | an event that meets the level is pending afterwards, or its address was banned |
| `Openwrt.OpenwrtExecutor.FlushBatch` | pkg/executorplugins/openwrt/executor.go:276-390 | a flush loses no address: each pending one is asked for, or was banned |
| `Openwrt.OpenwrtExecutor.Step` | pkg/executorplugins/openwrt/executor.go:216-260 | one turn keeps all that `Serve` states; a flush tick or a full batch leaves nothing pending |
| `Openwrt.OpenwrtExecutor.Serve` | pkg/executorplugins/openwrt/executor.go:155-261 | at every turn of the loop: ban map equals staged set, and running set if the latest changes were applied; no early unban; at least one pass per sweep tick, all clean if no delete failed, and then no ban older than TTL + I when passes are at most I apart; events = skipped + executed + failed adds + pending; every event that meets the level is pending, was in an add batch, or its address was banned, and nothing else is pending or asked for |
| `Openwrt.OpenwrtExecutor.Run` | pkg/executorplugins/openwrt/executor.go:155-261 | the same for the whole run with its final flush, which is one more pass and leaves nothing pending |
| `Mikrotik.MikroTikExecutor.SyncExisting` | pkg/executorplugins/mikrotik/executor.go:77-99 | the listed entries that carry exactly this sentinel's comment are taken over, all of them and no others, with their ids |
| `Mikrotik.MikroTikExecutor.IsDuplicate` | pkg/executorplugins/mikrotik/executor.go:331-340 | only an address that a successful add or the sync put on the list is a duplicate; every banned one is |
| `Mikrotik.MikroTikExecutor.Accept` | pkg/executorplugins/mikrotik/executor.go:164-182 | each event is counted and either buffered or skipped; skipped for its level or as such a duplicate, buffered only if it meets the level and is not banned |
| `Mikrotik.AllRecordedIff` | pkg/executorplugins/mikrotik/executor.go:228-258 | ids being fresh, every id granted in a flush is recorded if and only if no address was accepted twice |
| `Mikrotik.AcceptedOnceRecordsAll` | pkg/executorplugins/mikrotik/executor.go:228-258 | it is, whatever the ids, if no address was accepted twice |
| `Mikrotik.RepetitionLosesId` | pkg/executorplugins/mikrotik/executor.go:228-258 | of two ids for one address, no record has the first |
| `Mikrotik.OwnershipAdds` | pkg/executorplugins/mikrotik/executor.go:228-258 | recording and marking adds as they were answered keeps the ownership law |
| `Mikrotik.MikroTikExecutor.Flush` | pkg/executorplugins/mikrotik/executor.go:201-259 | requests exactly the buffered addresses not banned yet, in order, each with the sentinel's comment and the TTL as timeout; records and marks follow the answers; every granted id is recorded if no address was waiting twice |
| `Mikrotik.MikroTikExecutor.AddAll` | pkg/executorplugins/mikrotik/executor.go:228-258 | one request per address; only successful ones enter the map and the window |
| `Mikrotik.MikroTikExecutor.DeleteEach` | pkg/executorplugins/mikrotik/executor.go:290-301 | calls Delete for exactly the ids of the expired records, and accounts for each as success or failure |
| `Mikrotik.MikroTikExecutor.Sweep` | pkg/executorplugins/mikrotik/executor.go:271-313 | requests deletion of the records with an id older than the TTL, none for TTL 0; failed ones stay; the pass is clean exactly when none failed |
| `Mikrotik.MikroTikExecutor.Continue` | pkg/executorplugins/mikrotik/executor.go:158-196 | from any reachable state, at every turn of the loop: received = skipped + executed + failed adds + buffered; every event that meets the level is buffered, was asked for, or its address was known, and nothing else is; one pass per sweep tick, and bounded overstay; a flush tick or a full batch leaves nothing buffered; an id in no record stays in none and is never passed to Delete unless it is granted again |
| `Mikrotik.MikroTikExecutor.Run` | pkg/executorplugins/mikrotik/executor.go:114-196 | over every run: the same with nothing left buffered, and every id ever passed to Delete came from an own add or from a listed entry with the own comment |
| `RouterOsDuration.DurationToRouterOS` | pkg/executorplugins/mikrotik/client.go:178-214 | from one second on the string is not empty and reads back as exactly the whole seconds; below, it is empty |
| `RouterOsDuration.PartsOf` | pkg/executorplugins/mikrotik/client.go:183-190 | Go's truncating arithmetic yields the mixed-radix digits, none of them positive for a negative total |
| `RouterOsDuration.PrintedReadsBack` | pkg/executorplugins/mikrotik/client.go:178-214 | the string of t seconds reads back as t |
| `RouterOsDuration.EmptyIffBelowOneSecond` | pkg/executorplugins/mikrotik/client.go:178-214 | the string is empty if and only if the duration is below one second |
| `RouterOsDuration.Injective` | pkg/executorplugins/mikrotik/client.go:178-214 | durations with the same string have the same whole seconds |
| `Cloudflare.BulkKeeps` | pkg/executorplugins/cloudflare/executor.go:350-371 | a bulk call made with nothing outstanding keeps the one-outstanding law and makes its operation the pending one |
| `Cloudflare.PollKeeps` | pkg/executorplugins/cloudflare/executor.go:305-333 | a poll keeps the law and settles the pending operation when it reports completed or failed |
| `Cloudflare.PolledOut` | pkg/executorplugins/cloudflare/executor.go:305-341 | six polls settle the pending operation, whatever they answered |
| `Cloudflare.SendKeeps` | pkg/executorplugins/cloudflare/executor.go:378-428 | attempting an unsent batch keeps the law that two add requests with a common address are the same request with nothing but rate-limited attempts of it from the first up to the second |
| `Cloudflare.AnsweredBatchIsFinal` | pkg/executorplugins/cloudflare/executor.go:247-272 | so no address of a batch that was accepted or failed is ever asked for again |
| `Cloudflare.CloudflareExecutor.SyncExisting` | pkg/executorplugins/cloudflare/executor.go:152-170 | the ban map gains exactly the listed addresses, each with the id of its last item |
| `Cloudflare.CloudflareExecutor.WaitForPendingOp` | pkg/executorplugins/cloudflare/executor.go:288-341 | at most six polls, all of the pending operation; when the caller may proceed before cancellation nothing is outstanding |
| `Cloudflare.CloudflareExecutor.DoWithRetry` | pkg/executorplugins/cloudflare/executor.go:350-371 | one to four calls with the same request, all but the last rate-limited; succeeds exactly when the last one did; gives up on a rate limit only after four or on cancellation |
| `Cloudflare.CloudflareExecutor.Register` | pkg/executorplugins/cloudflare/executor.go:247-272 | an accepted address enters the ban map and the buffer at once; every known address is refused |
| `Cloudflare.CloudflareExecutor.Flush` | pkg/executorplugins/cloudflare/executor.go:378-428 | asks for exactly the buffered addresses, and does so unless there are none or the context is cancelled; counts, marks and re-stamps them exactly if the last call was accepted; the map keeps its keys either way |
| `Cloudflare.CloudflareExecutor.Sweep` | pkg/executorplugins/cloudflare/executor.go:441-494 | asks for exactly the ids of expired synced entries, and does so unless there are none or the context is cancelled; forgets those only if accepted; never an own ban |
| `Cloudflare.CloudflareExecutor.Serve` | pkg/executorplugins/cloudflare/executor.go:183-282 | at every turn of the loop: every event is skipped or registers its address; exactly the addresses of events that meet the level are registered, except for those known before; a flush tick or a full batch leaves nothing buffered; one pass per sweep tick |
| `Cloudflare.CloudflareExecutor.Run` | pkg/executorplugins/cloudflare/executor.go:183-282 | in every run, at each bulk call made before cancellation every earlier operation was reported or polled six times; each registered address is asked for unless cancelled, in one batch only; only synced items are removed, and none outlives TTL + I when sweeps are clean and at most I apart |
| `Nginx.ReadsBackIff` | pkg/executorplugins/nginx/executor.go:257-278 | exactly which one-line texts survive being printed and parsed, per file format |
| `Nginx.ParsedAreTokens` | pkg/executorplugins/nginx/executor.go:200-278 | every address found in any file at all can be printed and parsed again |
| `Nginx.ParsedPrinted` | pkg/executorplugins/nginx/executor.go:317-344 | in any order and in both formats, parsing the printed file gives back exactly the printed addresses |
| `Nginx.RestartRecovers` | pkg/executorplugins/nginx/executor.go:200-245 | a restart after both writes recovers the same addresses and timestamps |
| `Nginx.HeaderIsComment` | pkg/executorplugins/nginx/executor.go:47 | the header line is one the parser skips |
| `Nginx.NginxExecutor.Load` | pkg/executorplugins/nginx/executor.go:223-241 | the addresses of the file, each with its saved time or now |
| `Nginx.NginxExecutor.SyncExisting` | pkg/executorplugins/nginx/executor.go:200-245 | the ban map is that of the two files, and the file shows it |
| `Nginx.NginxExecutor.Print` | pkg/executorplugins/nginx/executor.go:330-344 | the text lists every banned address, in some order |
| `Nginx.NginxExecutor.Flush` | pkg/executorplugins/nginx/executor.go:317-355 | writes if and only if the context is not cancelled, the map is not empty and the write does not fail; a written file shows exactly the ban map, and with the state saved a restart recovers it |
| `Nginx.NginxExecutor.FlushLocked` | pkg/executorplugins/nginx/executor.go:477-486 | afterwards the file shows the map unless the map is empty, the context is cancelled or a write failed |
| `Nginx.NginxExecutor.Expire` | pkg/executorplugins/nginx/executor.go:362-376 | forgets exactly the bans older than the TTL |
| `Nginx.NginxExecutor.Sweep` | pkg/executorplugins/nginx/executor.go:362-385 | forgets exactly the bans older than the TTL; after an expiry without failed writes, a file that showed the map shows it again if and only if the context is not cancelled and some ban is left |
| `Nginx.NginxExecutor.Register` | pkg/executorplugins/nginx/executor.go:449-460 | an event is accepted exactly when its level suffices and the address is not banned, and counts as banned from then on |
| `Nginx.NginxExecutor.Serve` | pkg/executorplugins/nginx/executor.go:394-474 | at every turn of the loop, from any file: the addresses ever banned are exactly those of events that meet the level and those found at startup; the file shows exactly the ban map unless events wait, the map is empty, the context is cancelled or a write failed; every event is accepted or skipped; a flush tick or a full batch leaves no event waiting; one pass per sweep tick |
| `Nginx.NginxExecutor.Run` | pkg/executorplugins/nginx/executor.go:394-474 | at the end exactly those of these addresses that are not older than the TTL are banned, and without cancellation and failed writes the file shows exactly those, if there are any |
| `Waf.BuildRuleSet` | pkg/processorplugins/waf/ruleset.go:254-272 | fails exactly when some expression does not compile; otherwise keeps the rules in order |
| `Waf.Divide` | pkg/processorplugins/waf/ruleset.go:209-229 | stops exactly on a malformed rule; otherwise splits by action and keeps the order |
| `Waf.ClassifyMeans` | pkg/processorplugins/waf/ruleset.go:311-331 | what a configured action means: case and surrounding spaces do not matter, none means drop, pass goes to the pass bucket, drop, tag and tag:... are stored as such, anything else is unknown |
| `Waf.NewRuleSetFromConfig` | pkg/processorplugins/waf/ruleset.go:195-244 | succeeds exactly when every rule has a name, an expression that compiles and an allowed action, with the split rules |
| `Waf.SplitCompiles` | pkg/processorplugins/waf/ruleset.go:230-244 | both parts compile exactly when all rules do |
| `Waf.PassMatchesIff` | pkg/processorplugins/waf/processor.go:202-210 | the pass set matches if and only if some configured pass rule does |
| `Waf.GateMatchIsFirst` | pkg/processorplugins/waf/processor.go:213-216 | the gate set's match is the first matching gate rule in configuration order |
| `Waf.TwoPassAgrees` | pkg/processorplugins/waf/processor.go:190-254 | the two-set evaluation gives the verdict of "any matching pass rule lets through, otherwise the first matching gate rule decides", for every rule list whose gate rules with one name agree (distinct names in particular) |
| `Waf.ReorderingIsSafe` | pkg/processorplugins/waf/processor.go:190-254 | any reordering that keeps the order within each bucket gives the same verdict |
| `Waf.ClassifiedIsKnown` | pkg/processorplugins/waf/ruleset.go:311-331 | a gate action is always drop, tag or tag:... |
| `Waf.FiredGateIsKnown` | pkg/processorplugins/waf/processor.go:217-253 | a gate rule that fires has a stored action of those kinds, so the fail-closed default is unreachable |
| `Waf.RoutedSays` | pkg/processorplugins/waf/ruleset.go:209-229 | the split rules say the same as the configured ones: which pass rules match, and which other rule matches first |
| `Waf.WafProcessor.Process` | pkg/processorplugins/waf/processor.go:190-254 | on the configuration itself: a matching pass rule or no match lets the event through unchanged; otherwise the first other matching rule decides: drop or no action gates it out and sends the drop score, tag marks it with THREAT and the rule's name, tag:x also with x and sends the weight of x; nothing on cancellation |
| `Blocklist.NormalizePatternForSubstring` | internal/core/blocklist/parser.go:59-85 | the fixpoint loop ends, and its result has no wildcard and no character the pattern did not have |
| `Blocklist.WildcardsGone` | internal/core/blocklist/parser.go:67-76 | repeated removal leaves neither ".*" nor ".+" |
| `Blocklist.NormalizedIsFree` | internal/core/blocklist/parser.go:59-85 | the same of the whole normalisation |
| `Blocklist.UnescapeMeans` | internal/core/blocklist/parser.go:59-64 | of a pattern written as plain and escaped characters, escaped letters and digits stay as they are and every other escaped character stands for itself |
| `Blocklist.RemovesFirstPair` | internal/core/blocklist/parser.go:67-76 | the first wildcard goes, and what stands before it stays |
| `Blocklist.NormalizedQuoted` | internal/core/blocklist/parser.go:59-85 | an anchored pattern with its special characters escaped becomes the literal it stands for |
| `Blocklist.NormalizedLiteral` | internal/core/blocklist/parser.go:59-85 | plain literals are left alone |
| `Blocklist.ParsePlainText` | internal/core/blocklist/parser.go:127-142 | the normalised lines that are neither blank nor comments, in order; all non-empty, one-line, lower-case and wildcard-free |
| `Blocklist.PlainPatternsAre` | internal/core/blocklist/parser.go:127-142 | exactly the trimmed lines that are neither empty nor comments are candidates, and exactly the lower-case forms of what they normalise to are patterns |
| `Blocklist.ParseNginxMap` | internal/core/blocklist/parser.go:162-175 | the same of the texts between the markers |
| `Blocklist.EntryIsCaptured` | internal/core/blocklist/parser.go:162-175 | behind a text without markers, the name of a map entry is captured as a whole if and only if no marker starts behind its first character, and then scanning goes on behind it |
| `Blocklist.PatternsAreClean` | internal/core/blocklist/parser.go:127-175 | every pattern from one-line candidates is non-empty, one-line, lower-case and wildcard-free |
| `Blocklist.FirstSeenDistinct` | internal/core/blocklist/manager.go:369-374 | the merged list holds exactly the contributed patterns, each once |
| `Blocklist.FirstSeenOrder` | internal/core/blocklist/manager.go:369-374 | in the order of their first occurrence |
| `Blocklist.ParseSource` | internal/core/blocklist/manager.go:336-367 | a source without URL, with an unknown format or whose fetch failed contributes nothing; the others contribute what their own format yields, or what the map format yields when that is nothing |
| `Blocklist.MergeInto` | internal/core/blocklist/manager.go:369-374 | adding one source's patterns keeps the first-seen list |
| `Blocklist.MergeSources` | internal/core/blocklist/manager.go:331-379 | the merge of all sources is duplicate-free, in first-seen order and clean; nothing was loaded exactly when it is empty |
| `Blocklist.LoadedStored` | internal/core/blocklist/manager.go:421-470 | saving a list of clean patterns and loading it returns the identical list |
| `Blocklist.Manager.SaveToBolt` | internal/core/blocklist/manager.go:452-470 | after a successful save, loading returns the saved list; otherwise the store is unchanged |
| `Blocklist.Manager.FetchAndUpdate` | internal/core/blocklist/manager.go:331-396 | the live list becomes the merge and, if saved, so does what a restart loads; nothing changes when no source gave a pattern |
| `Blocklist.Manager.StartList` | internal/core/blocklist/manager.go:298-312 | the live list becomes exactly the persisted one, or none |

## Left out

- The HTTP, ubus and REST clients with their sessions, TLS and JSON envelopes: replaced by remotes with free outcomes.
- A remote call that fails but still takes effect: a failed call is modelled as having none.
- arx-core (engine, queues, transport, rule compiler, deduplication window, log parsers) is not part of this model; `compiles` and `holds` are arbitrary functions.
- Aho-Corasick matching and the bbolt engine: only the pattern lists and the stored text are modelled.
- Atomic file replacement, the nginx reload command, logging and metrics.
- The JSON encoding of the nginx state file: it is a map from address to time, and an unreadable file counts as absent.
- Configuration parsing, defaults and validation.
- The other detectors: `Evaluate` takes arbitrary findings. The chain check and DNS verification.
- A reload that changes the decay window while scores are stored.
- SlidingRate.SteadyEstimate: a source whose interval does not divide the window; `SlidingRate.ReadErrorBound` covers every source.
- Goroutines, tickers and channels: events and ticks come in any order, one at a time.
- IpCache.GetIsAtomic: the cache is a state machine whose steps are the lock-protected sections, not a class, because the property is about interleavings.
- SlidingRate.ReadErrorBound: exact real arithmetic instead of float64, so rounding is not captured. Likewise `Scorer.ApplyDecay`, which uses exact integers rounded down.
- Wrap-around of 64-bit counters and durations.
- Crawler.HasConsecutiveSequence: sorts a value instead of the caller's slice in place; `Sorted` stands for the library sort.
- Crawler.Detect: the human-readable reason text is reduced to prefix and length.
- Waf.NewRuleSetFromConfig: the texts of the error messages, and rule sets that would refuse a repeated name.
- Nginx.NginxExecutor.Run: addresses of events are those that fit on one line of the file (`ReadsBackIff` says exactly which); others are not modelled. The scanner's limit of 64 KB per line.
- Nginx.NginxExecutor.SyncExisting: a read error in the middle of the list file.
- Lower-casing of non-ASCII letters, and input that is not valid UTF-8.
- Opnsense.OpnsenseExecutor.Run: the alias is a set, so an entry listed twice is not captured. The same holds for `Openwrt.OpenwrtExecutor.Run`.
- Blocklist.Manager.FetchAndUpdate: the compiled automaton and the fetch itself; a source's body, or its absence, is an input.
