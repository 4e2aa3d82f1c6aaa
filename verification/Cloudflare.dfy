/** The Cloudflare executor as a bulk-operation protocol: one operation outstanding at a time,
    polled until it is settled, with retries on rate limiting. */
module Cloudflare {
  import opened Basics
  import opened Environment
  import opened Passes
  import opened Text

  const POLLS := 6
  const MAX_429_RETRIES := 3

  /** The result of an AddItems or RemoveItems call: an operation id (empty when there is nothing
      to wait for) or an error text. */
  datatype BulkResult = Accepted(id: string) | Rejected(error: string)

  predicate RateLimited(r: BulkResult) {
    r.Rejected? && Contains(r.error, "429")
  }

  datatype PollResult = PollError | Status(status: string)

  /** What a bulk call asks for. */
  datatype Request = AddItems(ips: seq<string>) | RemoveItems(ids: set<string>)

  datatype Call =
    | Bulk(cancelled: bool, request: Request, result: BulkResult)
    | Poll(id: string, answer: PollResult)

  /** A call that started a bulk operation. */
  predicate Starts(c: Call) {
    c.Bulk? && c.result.Accepted? && c.result.id != ""
  }

  predicate Reports(c: Call, id: string) {
    c.Poll? && c.id == id && (c.answer == Status("completed") || c.answer == Status("failed"))
  }

  /** How often `id` was polled at or after position `from`. */
  function PollCount(log: seq<Call>, id: string, from: nat): nat {
    if |log| <= from then 0
    else
      var n := |log| - 1;
      PollCount(log[..n], id, from) + if log[n].Poll? && log[n].id == id then 1 else 0
  }

  /** The operation started by call `i` has been reported completed or failed, or has been polled
      as often as the executor polls. */
  ghost predicate Settled(log: seq<Call>, i: nat)
    requires i < |log| && Starts(log[i])
  {
    || PollCount(log, log[i].result.id, i + 1) >= 6
    || exists k :: i < k < |log| && Reports(log[k], log[i].result.id)
  }

  /** Whenever a bulk call is made before cancellation, every earlier operation is settled. */
  ghost predicate OneOutstanding(log: seq<Call>) {
    forall i, j :: 0 <= i < j < |log| && Starts(log[i]) && log[j].Bulk? && !log[j].cancelled ==> Settled(log[..j], i)
  }

  /** Every operation that is not settled is the pending one. */
  ghost predicate OnlyPending(log: seq<Call>, pending: string) {
    forall i :: 0 <= i < |log| && Starts(log[i]) && !Settled(log, i) ==> log[i].result.id == pending
  }

  lemma SettledGrows(log: seq<Call>, c: Call, i: nat)
    requires i < |log| && Starts(log[i]) && Settled(log, i)
    ensures Settled(log + [c], i)
  {
    var grown := log + [c];
    assert grown[..|log|] == log;
    if k :| i < k < |log| && Reports(log[k], log[i].result.id) {
      assert Reports(grown[k], log[i].result.id);
    }
  }

  /** A bulk call keeps the law if nothing is outstanding or the context is cancelled. */
  lemma BulkKeeps(log: seq<Call>, cancelled: bool, request: Request, r: BulkResult)
    requires OneOutstanding(log) && (cancelled || OnlyPending(log, ""))
    ensures OneOutstanding(log + [Bulk(cancelled, request, r)])
    ensures OnlyPending(log, "") ==> OnlyPending(log + [Bulk(cancelled, request, r)], if r.Accepted? then r.id else "")
  {
    var grown := log + [Bulk(cancelled, request, r)];
    forall i, j | 0 <= i < j < |grown| && Starts(grown[i]) && grown[j].Bulk? && !grown[j].cancelled
      ensures Settled(grown[..j], i)
    {
      if j == |log| {
        assert grown[..j] == log && log[i] == grown[i];
        assert Settled(log, i);
      } else {
        assert grown[..j] == log[..j];
      }
    }
    if OnlyPending(log, "") {
      forall i | 0 <= i < |log| && Starts(log[i]) ensures Settled(grown, i) {
        SettledGrows(log, grown[|log|], i);
      }
    }
  }

  /** A poll keeps the law, and settles the pending operation if it reports on it. */
  lemma PollKeeps(log: seq<Call>, id: string, answer: PollResult)
    requires OneOutstanding(log)
    ensures
      var c := Poll(id, answer);
      && OneOutstanding(log + [c])
      && (OnlyPending(log, id) ==> OnlyPending(log + [c], if Reports(c, id) then "" else id))
  {
    var c := Poll(id, answer);
    var grown := log + [c];
    forall i, j | 0 <= i < j < |grown| && Starts(grown[i]) && grown[j].Bulk? && !grown[j].cancelled
      ensures Settled(grown[..j], i)
    {
      assert grown[..j] == log[..j];
    }
    if OnlyPending(log, id) {
      forall i | 0 <= i < |grown| && Starts(grown[i])
        ensures Settled(grown, i) || (grown[i].result.id == id && !Reports(c, id))
      {
        assert grown[i] == log[i];
        if Settled(log, i) {
          SettledGrows(log, c, i);
        } else if Reports(c, id) {
          assert Reports(grown[|log|], log[i].result.id);
        }
      }
    }
  }

  /** Polls of one operation. */
  ghost predicate PollsOf(polls: seq<Call>, id: string) {
    forall k :: 0 <= k < |polls| ==> polls[k].Poll? && polls[k].id == id
  }

  /** Six polls of the pending operation settle it, whatever they answered. */
  lemma {:induction false} PolledOut(log: seq<Call>, polls: seq<Call>, id: string)
    requires OnlyPending(log + polls, id) && |polls| >= POLLS && PollsOf(polls, id)
    ensures OnlyPending(log + polls, "")
  {
    var grown := log + polls;
    forall i | 0 <= i < |grown| && Starts(grown[i]) ensures Settled(grown, i) {
      if !Settled(grown, i) {
        assert i < |log|;
        PollCountAtLeast(log, polls, id, i + 1);
      }
    }
  }

  lemma {:induction false} PollCountAtLeast(log: seq<Call>, polls: seq<Call>, id: string, from: nat)
    requires from <= |log| && PollsOf(polls, id)
    ensures PollCount(log + polls, id, from) >= |polls|
  {
    if polls == [] {
    } else {
      var n := |polls| - 1;
      PollCountAtLeast(log, polls[..n], id, from);
      assert (log + polls)[..|log + polls| - 1] == log + polls[..n];
    }
  }

  /** Bulk calls with one and the same request. */
  ghost predicate AllAsk(calls: seq<Call>, request: Request) {
    forall k :: 0 <= k < |calls| ==> calls[k].Bulk? && calls[k].request == request
  }

  predicate Adds(c: Call) {
    c.Bulk? && c.request.AddItems?
  }

  /** Only registered addresses are ever added, and only synced items ever removed. */
  ghost predicate OwnRequests(log: seq<Call>, registered: set<string>, syncedIds: set<string>) {
    forall k :: 0 <= k < |log| && log[k].Bulk? ==>
      match log[k].request
      case AddItems(ips) => forall i :: 0 <= i < |ips| ==> ips[i] in registered
      case RemoveItems(ids) => ids <= syncedIds
  }

  /** No add request so far mentions any of these addresses. */
  ghost predicate Unsent(log: seq<Call>, ips: seq<string>) {
    forall k, i :: 0 <= k < |log| && Adds(log[k]) && 0 <= i < |ips| ==> ips[i] !in log[k].request.ips
  }

  /** Two add requests with an address in common are attempts of one batch: the same request, with
      nothing but rate-limited attempts of it from the first up to the second. */
  ghost predicate SentOnce(log: seq<Call>) {
    forall j, k :: 0 <= j < k < |log| && Adds(log[j]) && Adds(log[k]) ==>
      Apart(log[j].request.ips, log[k].request.ips) || OneBatch(log, j, k)
  }

  ghost predicate OneBatch(log: seq<Call>, j: nat, k: nat)
    requires j < k < |log| && log[k].Bulk?
  {
    forall m :: j <= m < k ==> log[m].Bulk? && log[m].request == log[k].request && RateLimited(log[m].result)
  }

  ghost predicate Apart(a: seq<string>, b: seq<string>) {
    forall i :: 0 <= i < |b| ==> b[i] !in a
  }

  ghost predicate Distinct(ips: seq<string>) {
    forall i, j :: 0 <= i < j < |ips| ==> ips[i] != ips[j]
  }

  /** A batch that was answered with anything but a rate limit - accepted or failed - is final: none
      of its addresses is ever asked for again. */
  lemma AnsweredBatchIsFinal(log: seq<Call>, j: nat, k: nat, ip: string)
    requires SentOnce(log) && j < k < |log| && Adds(log[j]) && Adds(log[k])
    requires !RateLimited(log[j].result) && ip in log[j].request.ips
    ensures ip !in log[k].request.ips
  {
    assert !OneBatch(log, j, k);
  }

  /** The log has grown by polls and by calls with this request only. */
  ghost predicate Extends(log: seq<Call>, grown: seq<Call>, request: Request) {
    log <= grown && forall k :: |log| <= k < |grown| && grown[k].Bulk? ==> grown[k].request == request
  }

  /** The calls that `grown` has more than `log` end in an accepted bulk call. */
  predicate Succeeded(log: seq<Call>, grown: seq<Call>) {
    |log| < |grown| && var last := grown[|grown| - 1]; last.Bulk? && last.result.Accepted?
  }

  ghost predicate AllPolls(calls: seq<Call>) {
    forall k :: 0 <= k < |calls| ==> calls[k].Poll?
  }

  /** All but the last of these calls were answered with a rate limit. */
  ghost predicate Retries(calls: seq<Call>) {
    forall k :: 0 <= k < |calls| - 1 ==> calls[k].Bulk? && RateLimited(calls[k].result)
  }

  /** Polling and then attempting one unsent batch keeps every address in a single batch. */
  lemma SendKeeps(log: seq<Call>, polls: seq<Call>, calls: seq<Call>, request: Request)
    requires SentOnce(log) && AllAsk(calls, request) && Retries(calls)
    requires request.AddItems? ==> Unsent(log, request.ips)
    requires AllPolls(polls)
    ensures SentOnce(log + polls + calls)
  {
    var grown := log + polls + calls;
    var n := |log| + |polls|;
    assert forall m :: 0 <= m < |log| ==> grown[m] == log[m];
    assert forall m :: |log| <= m < n ==> grown[m] == polls[m - |log|];
    assert forall m :: n <= m < |grown| ==> grown[m] == calls[m - n];
    forall j, k | 0 <= j < k < |grown| && Adds(grown[j]) && Adds(grown[k])
      ensures Apart(grown[j].request.ips, grown[k].request.ips) || OneBatch(grown, j, k)
    {
      if k < |log| {
        assert OneBatch(log, j, k) ==> OneBatch(grown, j, k);
      } else if n <= j {
        assert OneBatch(grown, j, k);
      }
    }
  }

  /** How the log reflects a submission. */
  lemma SubmittedExtends(log: seq<Call>, polls: seq<Call>, calls: seq<Call>, request: Request)
    requires AllPolls(polls) && AllAsk(calls, request)
    ensures
      var grown := log + polls + calls;
      && Extends(log, grown, request)
      && (Asked(log, grown) <==> calls != [])
      && (Succeeded(log, grown) <==> calls != [] && calls[|calls| - 1].result.Accepted?)
  {
    var grown := log + polls + calls;
    assert forall k :: |log| <= k < |log| + |polls| ==> grown[k] == polls[k - |log|];
    assert forall k :: |log| + |polls| <= k < |grown| ==> grown[k] == calls[k - |log| - |polls|];
    assert calls != [] ==> grown[|grown| - 1] == calls[|calls| - 1];
    assert calls == [] && polls != [] ==> grown[|grown| - 1] == polls[|polls| - 1];
  }

  lemma RequestsKeep(log: seq<Call>, grown: seq<Call>, request: Request, registered: set<string>, syncedIds: set<string>)
    requires OwnRequests(log, registered, syncedIds) && Extends(log, grown, request)
    requires request.AddItems? ==> forall i :: 0 <= i < |request.ips| ==> request.ips[i] in registered
    requires request.RemoveItems? ==> request.ids <= syncedIds
    ensures OwnRequests(grown, registered, syncedIds)
  {
    assert forall k :: 0 <= k < |log| ==> grown[k] == log[k];
  }

  /** The list API; its answers are arbitrary. */
  class Api {
    ghost var log: seq<Call>

    method BulkCall(ghost cancelled: bool, request: Request) returns (r: BulkResult)
      modifies this
      ensures log == old(log) + [Bulk(cancelled, request, r)]
    {
      r := *;
      log := log + [Bulk(cancelled, request, r)];
    }

    method PollBulkOperation(id: string) returns (answer: PollResult)
      modifies this
      ensures log == old(log) + [Poll(id, answer)]
    {
      answer := *;
      log := log + [Poll(id, answer)];
    }
  }

  datatype BanRecord = BanRecord(itemId: string, addedAt: Time, addedByExecutor: bool)

  /** The position of the last item with this address, or -1. */
  function LastItem(items: seq<(string, string)>, ip: string): (i: int)
    ensures -1 <= i < |items| && (i >= 0 ==> items[i].0 == ip)
  {
    if items == [] then -1
    else if items[|items| - 1].0 == ip then |items| - 1
    else LastItem(items[..|items| - 1], ip)
  }

  /** `banned` is `before` with the items loaded over it since the given time: each address has the
      record of its last item. */
  ghost predicate Loaded(banned: map<string, BanRecord>, before: map<string, BanRecord>, items: seq<(string, string)>, since: Time) {
    && (forall ip :: ip in banned <==> ip in before || LastItem(items, ip) >= 0)
    && forall ip :: ip in banned ==>
         var i := LastItem(items, ip);
         if i < 0 then ip in before && banned[ip] == before[ip]
         else banned[ip].itemId == items[i].1 && !banned[ip].addedByExecutor && since <= banned[ip].addedAt
  }

  lemma LoadedGrows(banned: map<string, BanRecord>, before: map<string, BanRecord>, items: seq<(string, string)>, i: nat,
                    since: Time, now: Time)
    requires i < |items| && Loaded(banned, before, items[..i], since) && since <= now
    ensures Loaded(banned[items[i].0 := BanRecord(items[i].1, now, false)], before, items[..i + 1], since)
  {
    var shorter, longer := items[..i], items[..i + 1];
    assert longer[..i] == shorter && longer[i] == items[i];
    forall ip ensures LastItem(longer, ip) == if items[i].0 == ip then i else LastItem(shorter, ip) {
    }
  }

  ghost function AddressesOf(items: seq<(string, string)>): set<string> {
    set i | 0 <= i < |items| :: items[i].0
  }

  lemma LoadedKnown(banned: map<string, BanRecord>, before: map<string, BanRecord>, items: seq<(string, string)>, since: Time)
    requires Loaded(banned, before, items, since)
    ensures banned.Keys <= before.Keys + AddressesOf(items)
  {
  }

  /** Some add request mentioned the address. */
  ghost predicate Sent(log: seq<Call>, ip: string) {
    exists k :: 0 <= k < |log| && Adds(log[k]) && ip in log[k].request.ips
  }

  /** Whether some call that `grown` has more than `log` is a bulk call. */
  ghost predicate Asked(log: seq<Call>, grown: seq<Call>) {
    |log| < |grown| && grown[|grown| - 1].Bulk?
  }

  lemma SentGrows(log: seq<Call>, grown: seq<Call>, request: Request)
    requires Extends(log, grown, request)
    ensures forall ip :: Sent(log, ip) ==> Sent(grown, ip)
    ensures request.AddItems? && Asked(log, grown) ==> forall ip :: ip in request.ips ==> Sent(grown, ip)
  {
    forall ip | Sent(log, ip) ensures Sent(grown, ip) {
      var k :| 0 <= k < |log| && Adds(log[k]) && ip in log[k].request.ips;
      assert grown[k] == log[k];
    }
    if request.AddItems? && Asked(log, grown) {
      assert grown[|grown| - 1].request == request;
    }
  }

  /** What the laws speak of: the calls so far, the pending operation, whether the context is
      cancelled, the addresses taken from events, the item ids found at startup, the buffer. */
  datatype Traffic = Traffic(log: seq<Call>, pending: string, done: bool, registered: set<string>, syncedIds: set<string>,
                             buffer: seq<string>)

  ghost predicate Laws(t: Traffic) {
    && OneOutstanding(t.log) && (t.done || OnlyPending(t.log, t.pending))
    && OwnRequests(t.log, t.registered, t.syncedIds)
    && SentOnce(t.log)
    && Unsent(t.log, t.buffer) && Distinct(t.buffer)
    && (forall i :: 0 <= i < |t.buffer| ==> t.buffer[i] in t.registered)
    && Delivered(t.registered, t.buffer, t.log, t.done)
  }

  /** Every address taken from an event has been asked for or is buffered, unless the context was
      cancelled. */
  ghost predicate Delivered(registered: set<string>, buffer: seq<string>, log: seq<Call>, done: bool) {
    forall ip :: ip in registered ==> ip in buffer || Sent(log, ip) || done
  }

  /** Marks the traffic that a proof looks at. */
  ghost predicate Look(t: Traffic) {
    true
  }

  /** The laws, unfolded only where a proof looks at them. */
  ghost predicate InOrder(t: Traffic) {
    forall u {:trigger Look(u)} :: Look(u) && u == t ==> Laws(u)
  }

  lemma TrafficSynced(t: Traffic, id: string)
    requires InOrder(t)
    ensures InOrder(t.(syncedIds := t.syncedIds + {id}))
  {
    assert Look(t);
    OwnRequestsWiden(t.log, t.registered, t.syncedIds, t.registered, t.syncedIds + {id});
  }

  lemma OwnRequestsWiden(log: seq<Call>, registered: set<string>, ids: set<string>, registered': set<string>, ids': set<string>)
    requires OwnRequests(log, registered, ids) && registered <= registered' && ids <= ids'
    ensures OwnRequests(log, registered', ids')
  {
  }

  lemma TrafficRegistered(t: Traffic, ip: string)
    requires InOrder(t) && ip !in t.registered
    ensures InOrder(t.(registered := t.registered + {ip}, buffer := t.buffer + [ip]))
  {
    assert Look(t);
    var u := t.(registered := t.registered + {ip}, buffer := t.buffer + [ip]);
    OwnRequestsWiden(t.log, t.registered, t.syncedIds, u.registered, t.syncedIds);
    NewIsUnsent(t.log, t.registered, t.syncedIds, t.buffer, ip);
    assert Delivered(u.registered, u.buffer, u.log, u.done);
    assert Laws(u);
  }

  /** A new address has not been sent. */
  lemma NewIsUnsent(log: seq<Call>, registered: set<string>, ids: set<string>, buffer: seq<string>, ip: string)
    requires OwnRequests(log, registered, ids) && Unsent(log, buffer) && ip !in registered
    ensures Unsent(log, buffer + [ip])
  {
    forall k, i | 0 <= k < |log| && Adds(log[k]) && 0 <= i < |buffer + [ip]|
      ensures (buffer + [ip])[i] !in log[k].request.ips
    {
      if i == |buffer| {
        assert forall x :: 0 <= x < |log[k].request.ips| ==> log[k].request.ips[x] in registered;
      }
    }
  }

  /** What one submission - polls of the pending operation, then attempts of one request - keeps:
      of an add request for the whole buffer, which is empty afterwards, */
  lemma TrafficAdded(t: Traffic, polls: seq<Call>, calls: seq<Call>, pending: string, done: bool)
    requires InOrder(t) && AllPolls(polls) && AllAsk(calls, AddItems(t.buffer)) && Retries(calls)
    requires OneOutstanding(t.log + polls + calls) && (done || (calls != [] && OnlyPending(t.log + polls + calls, pending)))
    requires t.done ==> done
    ensures InOrder(t.(log := t.log + polls + calls, pending := pending, done := done, buffer := []))
  {
    assert Look(t);
    var grown, request := t.log + polls + calls, AddItems(t.buffer);
    SubmittedExtends(t.log, polls, calls, request);
    SendKeeps(t.log, polls, calls, request);
    RequestsKeep(t.log, grown, request, t.registered, t.syncedIds);
    SentGrows(t.log, grown, request);
    assert Laws(t.(log := grown, pending := pending, done := done, buffer := []));
  }

  /** and of a remove request for synced items, which leaves the buffer alone. */
  lemma TrafficRemoved(t: Traffic, polls: seq<Call>, calls: seq<Call>, ids: set<string>, pending: string, done: bool)
    requires InOrder(t) && AllPolls(polls) && AllAsk(calls, RemoveItems(ids)) && Retries(calls) && ids <= t.syncedIds
    requires OneOutstanding(t.log + polls + calls) && (done || OnlyPending(t.log + polls + calls, pending))
    requires t.done ==> done
    ensures InOrder(t.(log := t.log + polls + calls, pending := pending, done := done))
  {
    assert Look(t);
    var grown, request := t.log + polls + calls, RemoveItems(ids);
    SubmittedExtends(t.log, polls, calls, request);
    SendKeeps(t.log, polls, calls, request);
    RequestsKeep(t.log, grown, request, t.registered, t.syncedIds);
    SentGrows(t.log, grown, request);
    forall k, i | 0 <= k < |grown| && Adds(grown[k]) && 0 <= i < |t.buffer|
      ensures t.buffer[i] !in grown[k].request.ips
    {
      assert k < |t.log| ==> grown[k] == t.log[k];
    }
    assert Laws(t.(log := grown, pending := pending, done := done));
  }

  /** What the laws say. */
  lemma TrafficSays(t: Traffic)
    requires InOrder(t)
    ensures OneOutstanding(t.log) && (t.done || OnlyPending(t.log, t.pending))
    ensures SentOnce(t.log) && OwnRequests(t.log, t.registered, t.syncedIds)
    ensures Delivered(t.registered, t.buffer, t.log, t.done)
    ensures forall i :: 0 <= i < |t.buffer| ==> t.buffer[i] in t.registered
  {
    assert Look(t);
  }

  /** Whether the last poll reported a failed operation, as a number of errors. */
  ghost function FailedPoll(polls: seq<Call>): nat {
    if polls != [] && polls[|polls| - 1].Poll? && polls[|polls| - 1].answer == Status("failed") then 1 else 0
  }

  /** The records with an item id that are not younger than the last clean pass were not older than
      the TTL then. */
  ghost predicate Timely(banned: map<string, BanRecord>, lastClean: Time, now: Time, ttl: int) {
    && lastClean <= now
    && forall ip :: ip in banned ==>
         && banned[ip].addedAt <= now
         && (banned[ip].itemId != "" ==> banned[ip].addedAt >= lastClean || lastClean - banned[ip].addedAt <= ttl)
  }

  /** The records of these addresses are own bans made between two times; the others are as before. */
  ghost predicate Restamped(before: map<string, BanRecord>, after: map<string, BanRecord>, ips: set<string>, t: Time, t': Time) {
    && after.Keys == before.Keys
    && forall ip :: ip in after ==>
         if ip in ips then after[ip].itemId == "" && after[ip].addedByExecutor && t <= after[ip].addedAt <= t'
         else after[ip] == before[ip]
  }

  /** If every pass was clean and they were at most `interval` apart, no entry that was found at
      startup is older than the TTL plus that interval. */
  ghost predicate BoundedOverstay(banned: map<string, BanRecord>, start: Time, passes: seq<Pass>, now: Time, ttl: int) {
    forall interval :: AllClean(passes) && Regular(start, passes, now, interval) ==> NoneOlder(banned, now, ttl + interval)
  }

  ghost predicate NoneOlder(banned: map<string, BanRecord>, now: Time, limit: int) {
    forall ip :: ip in banned && banned[ip].itemId != "" ==> now - banned[ip].addedAt <= limit
  }

  lemma TimelySays(banned: map<string, BanRecord>, start: Time, passes: seq<Pass>, now: Time, ttl: int)
    requires Timely(banned, LastClean(start, passes), now, ttl) && ttl > 0
    ensures BoundedOverstay(banned, start, passes, now, ttl)
  {
    forall interval | AllClean(passes) && Regular(start, passes, now, interval) ensures NoneOlder(banned, now, ttl + interval) {
      CleanIsRecent(start, passes, now, interval);
    }
  }

  class CloudflareExecutor {
    const ttl: int
    const minLevel: string
    const batchSize: int
    const api: Api
    const ctx: Context
    const clock: Clock
    const window: Window
    var banned: map<string, BanRecord>
    var buffer: seq<string>
    var pendingOpID: string
    var executed: nat
    var skipped: nat
    var errors: nat
    var swept: nat

    /** Every address ever taken from an event. */
    ghost var registered: set<string>
    /** The item ids that the startup sync found. */
    ghost var syncedIds: set<string>
    /** When the executor was made, and every sweep since. */
    ghost const start: Time
    ghost var passes: seq<Pass>

    constructor (ttl: int, minLevel: string, batchSize: int, api: Api, ctx: Context, clock: Clock, window: Window)
      requires ttl > 0 && api.log == []
      ensures Valid() && Punctual() && banned == map[] && buffer == [] && registered == {} && passes == []
      ensures this.api == api && this.ctx == ctx && this.clock == clock && this.window == window
    {
      this.ttl, this.minLevel, this.batchSize := ttl, minLevel, batchSize;
      this.api, this.ctx, this.clock, this.window := api, ctx, clock, window;
      banned, buffer, pendingOpID := map[], [], "";
      executed, skipped, errors, swept := 0, 0, 0, 0;
      registered, syncedIds, start, passes := {}, {}, clock.t, [];
    }

    ghost predicate Protocol()
      reads this`pendingOpID, api, ctx
    {
      OneOutstanding(api.log) && (ctx.done || OnlyPending(api.log, pendingOpID))
    }

    ghost function Record(): Traffic
      reads this, api, ctx
    {
      Traffic(api.log, pendingOpID, ctx.done, registered, syncedIds, buffer)
    }

    /** Besides the laws of the traffic: a ban of the executor itself never has an item id, and an
        address taken from an event never leaves the ban map again. */
    ghost predicate Valid()
      reads this, api, ctx
    {
      InOrder(Record()) && Backed(banned)
    }

    ghost predicate Backed(banned: map<string, BanRecord>)
      reads this`registered, this`syncedIds
    {
      && (forall ip :: ip in banned && banned[ip].itemId != "" ==> banned[ip].itemId in syncedIds && !banned[ip].addedByExecutor)
      && (forall ip :: ip in registered ==> ip in banned && banned[ip].addedByExecutor)
    }

    ghost predicate Punctual()
      reads this`banned, this`passes, clock`t
    {
      ttl > 0 && Timely(banned, LastClean(start, passes), clock.t, ttl)
    }

    /** Loads the list's items, with the ids that removing them needs; of two items with one
        address the later counts. */
    method SyncExisting(items: seq<(string, string)>)
      requires Valid() && Punctual() && registered == {}
      modifies this`banned, this`syncedIds, clock`t
      ensures Valid() && Punctual() && old(clock.t) <= clock.t
      ensures Loaded(banned, old(banned), items, old(clock.t))
    {
      for i := 0 to |items|
        invariant Valid() && Punctual() && old(clock.t) <= clock.t
        invariant Loaded(banned, old(banned), items[..i], old(clock.t))
      {
        var now := clock.Now();
        LoadedGrows(banned, old(banned), items, i, old(clock.t), now);
        TrafficSynced(Record(), items[i].1);
        syncedIds := syncedIds + {items[i].1};
        banned := banned[items[i].0 := BanRecord(items[i].1, now, false)];
      }
      assert items[..|items|] == items;
    }

    /** Polls the pending operation until it is settled. If the caller may go on, nothing is
        outstanding any more (or the context was cancelled meanwhile). */
    method WaitForPendingOp() returns (proceed: bool, ghost polls: seq<Call>)
      requires Protocol()
      modifies this`pendingOpID, this`errors, api, ctx
      ensures Protocol() && pendingOpID == ""
      ensures !proceed ==> ctx.done
      ensures old(ctx.done) ==> ctx.done
      ensures api.log == old(api.log) + polls && |polls| <= 6 && PollsOf(polls, old(pendingOpID))
      ensures errors == old(errors) + FailedPoll(polls)
    {
      polls := [];
      var opID := pendingOpID;
      if opID == "" {
        return true, [];
      }
      for n := 0 to POLLS
        invariant OneOutstanding(api.log) && (ctx.done || OnlyPending(api.log, opID))
        invariant pendingOpID == opID && (old(ctx.done) ==> ctx.done)
        invariant errors == old(errors) && FailedPoll(polls) == 0
        invariant api.log == old(api.log) + polls && |polls| == n && PollsOf(polls, opID)
      {
        var cancelled := ctx.Wait();
        if cancelled {
          pendingOpID := "";
          return false, polls;
        }
        ghost var before := api.log;
        var answer := api.PollBulkOperation(opID);
        polls := polls + [Poll(opID, answer)];
        PollKeeps(before, opID, answer);
        if answer == Status("completed") {
          pendingOpID := "";
          return true, polls;
        }
        if answer == Status("failed") {
          errors := errors + 1;
          pendingOpID := "";
          return true, polls;
        }
      }
      if !ctx.done {
        PolledOut(old(api.log), polls, opID);
      }
      pendingOpID := "";
      return true, polls;
    }

    /** At most four calls; it stops at the first answer that is not a rate limit, and succeeds
        exactly when its last call did. */
    method DoWithRetry(request: Request) returns (ok: bool, opID: string, ghost calls: seq<Call>)
      requires OneOutstanding(api.log) && (ctx.done || OnlyPending(api.log, ""))
      modifies api, ctx
      ensures old(ctx.done) ==> ctx.done
      ensures OneOutstanding(api.log) && (ctx.done || OnlyPending(api.log, if ok then opID else ""))
      ensures api.log == old(api.log) + calls && 1 <= |calls| <= 4
      ensures AllAsk(calls, request)
      ensures Retries(calls)
      ensures ok <==> calls[|calls| - 1].result.Accepted?
      ensures ok ==> opID == calls[|calls| - 1].result.id
      ensures !ok && RateLimited(calls[|calls| - 1].result) ==> ctx.done || |calls| == 4
    {
      calls := [];
      for attempt := 0 to MAX_429_RETRIES + 1
        invariant old(ctx.done) ==> ctx.done
        invariant OneOutstanding(api.log) && (ctx.done || OnlyPending(api.log, ""))
        invariant api.log == old(api.log) + calls && |calls| == attempt
        invariant AllAsk(calls, request) && forall k :: 0 <= k < |calls| ==> RateLimited(calls[k].result)
      {
        ghost var before := api.log;
        var r := api.BulkCall(ctx.done, request);
        calls := calls + [Bulk(ctx.done, request, r)];
        BulkKeeps(before, ctx.done, request, r);
        if r.Accepted? {
          return true, r.id, calls;
        }
        if !Contains(r.error, "429") {
          return false, "", calls;
        }
        if attempt == MAX_429_RETRIES {
          break;
        }
        var cancelled := ctx.Wait();
        if cancelled {
          return false, "", calls;
        }
      }
      return false, "", calls;
    }

    /** An event is taken unless its level is too low, or the window or the ban map knows its
        address. */
    method Wants(ip: string, level: string) returns (accepted: bool)
      ensures accepted ==> MeetsMinLevel(level, minLevel) && ip !in banned
      ensures !accepted ==> !MeetsMinLevel(level, minLevel) || ip in window.marks || ip in banned
    {
      accepted := MeetsMinLevel(level, minLevel);
      if accepted {
        var inWindow := window.Contains(ip);
        accepted := !inWindow && ip !in banned;
      }
    }

    /** Registers an accepted address; every later event for it is a duplicate, whether or not it
        ever reaches Cloudflare. */
    method Register(ip: string, level: string) returns (accepted: bool)
      requires Valid()
      modifies this`banned, this`buffer, this`skipped, this`registered, clock`t
      ensures Valid() && |registered| + skipped == |old(registered)| + old(skipped) + 1 && old(clock.t) <= clock.t
      ensures accepted ==> MeetsMinLevel(level, minLevel) && ip !in old(banned) && Entered(ip, old(banned), old(buffer), old(registered))
      ensures !accepted ==> banned == old(banned) && buffer == old(buffer) && registered == old(registered)
      ensures !accepted ==> !MeetsMinLevel(level, minLevel) || ip in window.marks || ip in old(banned)
    {
      accepted := Wants(ip, level);
      if !accepted {
        skipped := skipped + 1;
        return;
      }
      Enter(ip);
    }

    /** The address is new in the ban map, at the end of the buffer, and registered. */
    ghost predicate Entered(ip: string, before: map<string, BanRecord>, queue: seq<string>, known: set<string>)
      reads this`banned, this`buffer, this`registered, clock`t
    {
      && ip !in known && registered == known + {ip}
      && buffer == queue + [ip]
      && banned == before[ip := BanRecord("", clock.t, true)]
    }

    method Enter(ip: string)
      requires Valid() && ip !in banned
      modifies this`banned, this`buffer, this`registered, clock`t
      ensures Valid() && Entered(ip, old(banned), old(buffer), old(registered)) && old(clock.t) <= clock.t
    {
      var now := clock.Now();
      TrafficRegistered(Record(), ip);
      banned := banned[ip := BanRecord("", now, true)];
      buffer := buffer + [ip];
      registered := registered + {ip};
    }

    /** Waits for the pending operation and then makes one bulk request with retries. */
    method Submit(request: Request) returns (proceed: bool, ok: bool, ghost polls: seq<Call>, ghost calls: seq<Call>)
      requires Protocol()
      modifies this`pendingOpID, this`errors, api, ctx
      ensures Protocol() && (old(ctx.done) ==> ctx.done)
      ensures api.log == old(api.log) + polls + calls
      ensures |polls| <= 6 && PollsOf(polls, old(pendingOpID)) && errors == old(errors) + FailedPoll(polls)
      ensures |calls| <= 4 && AllAsk(calls, request) && Retries(calls)
      ensures proceed <==> calls != []
      ensures ok <==> proceed && calls[|calls| - 1].result.Accepted?
      ensures ok ==> pendingOpID == calls[|calls| - 1].result.id
      ensures !proceed ==> ctx.done
    {
      var opID;
      calls := [];
      proceed, polls := WaitForPendingOp();
      if !proceed {
        assert api.log == old(api.log) + polls + calls;
        return false, false, polls, [];
      }
      ok, opID, calls := DoWithRetry(request);
      if ok && opID != "" {
        pendingOpID := opID;
      }
    }

    /** Sends the buffered addresses as one bulk operation. Even on failure they stay in the ban
        map. */
    method Flush()
      requires Valid()
      modifies this`banned, this`buffer, this`pendingOpID, this`executed, this`errors, api, ctx, clock`t, window
      ensures Valid() && buffer == [] && (old(ctx.done) ==> ctx.done)
      ensures old(clock.t) <= clock.t && (Succeeded(old(api.log), api.log) ==>
        && Restamped(old(banned), banned, SetOf(old(buffer)), old(clock.t), clock.t)
        && window.marks == old(window.marks) + SetOf(old(buffer)))
      ensures executed == old(executed) + if Succeeded(old(api.log), api.log) then |old(buffer)| else 0
      ensures !Succeeded(old(api.log), api.log) ==> window.marks == old(window.marks) && banned == old(banned)
      ensures if old(buffer) == [] then api.log == old(api.log) else Asked(old(api.log), api.log) || ctx.done
      ensures Extends(old(api.log), api.log, AddItems(old(buffer)))
    {
      var events := buffer;
      if |events| == 0 {
        return;
      }
      TrafficSays(Record());
      var proceed, ok, polls, calls := Submit(AddItems(events));
      TrafficAdded(old(Record()), polls, calls, pendingOpID, ctx.done);
      SubmittedExtends(old(api.log), polls, calls, AddItems(events));
      buffer := [];
      if !proceed {
        return;
      }
      if !ok {
        errors := errors + |events|;
        return;
      }
      executed := executed + |events|;
      Restamp(events);
      window.MarkBatch(SetOf(events));
    }

    method Restamp(events: seq<string>)
      requires Valid() && forall i :: 0 <= i < |events| ==> events[i] in registered
      modifies this`banned, clock`t
      ensures Valid() && old(clock.t) <= clock.t && Restamped(old(banned), banned, SetOf(events), old(clock.t), clock.t)
    {
      for i := 0 to |events|
        invariant Valid() && old(clock.t) <= clock.t && Restamped(old(banned), banned, SetOf(events[..i]), old(clock.t), clock.t)
      {
        var now := clock.Now();
        SetOfGrows(events[..i], [events[i]]);
        assert events[..i] + [events[i]] == events[..i + 1];
        banned := banned[events[i] := BanRecord("", now, true)];
      }
      assert events[..|events|] == events;
    }

    function Removable(banned: map<string, BanRecord>, now: Time): set<string> {
      set ip | ip in banned && banned[ip].itemId != "" && now - banned[ip].addedAt > ttl
    }

    function IdsOf(banned: map<string, BanRecord>, ips: set<string>): set<string>
      requires ips <= banned.Keys
    {
      set ip | ip in ips :: banned[ip].itemId
    }

    /** Removes expired entries that have an item id: only entries found by the startup sync, never
        a ban of the executor itself. */
    method Sweep()
      requires Valid()
      modifies this`banned, this`pendingOpID, this`errors, this`swept, this`passes, api, ctx, clock`t
      ensures Valid() && (old(ctx.done) ==> ctx.done) && old(clock.t) <= clock.t
      ensures passes == old(passes) + [Pass(clock.t, Removable(old(banned), clock.t) == {} || Succeeded(old(api.log), api.log))]
      ensures swept == old(swept) + if Succeeded(old(api.log), api.log) then |Removable(old(banned), clock.t)| else 0
      ensures banned == if Succeeded(old(api.log), api.log) then old(banned) - Removable(old(banned), clock.t) else old(banned)
      ensures forall ip :: ip in old(banned) && ip !in banned ==>
        !old(banned)[ip].addedByExecutor && clock.t - old(banned)[ip].addedAt > ttl
      ensures Extends(old(api.log), api.log, RemoveItems(IdsOf(old(banned), Removable(old(banned), clock.t))))
      ensures if Removable(old(banned), clock.t) == {} then api.log == old(api.log) else Asked(old(api.log), api.log) || ctx.done
    {
      var now := clock.Now();
      var expired := Removable(banned, now);
      if expired == {} {
        passes := passes + [Pass(now, true)];
        return;
      }
      var ids := IdsOf(banned, expired);
      TrafficSays(Record());
      var proceed, ok, polls, calls := Submit(RemoveItems(ids));
      TrafficRemoved(old(Record()), polls, calls, ids, pendingOpID, ctx.done);
      SubmittedExtends(old(api.log), polls, calls, RemoveItems(ids));
      passes := passes + [Pass(now, ok)];
      if !proceed {
        return;
      }
      if !ok {
        errors := errors + |expired|;
        return;
      }
      banned := banned - expired;
      swept := swept + |expired|;
    }

    /** With these addresses wanted, and these known before the first event: the addresses taken from
        events are wanted ones, and every wanted one was taken or known. */
    ghost predicate Running(wanted: set<string>, known: set<string>)
      reads this, api, ctx, clock, window
    {
      && Valid() && Punctual()
      && registered <= wanted <= registered + known
      && banned.Keys + window.marks <= registered + known
    }

    method Take(ip: string, level: string, ghost wanted: set<string>, ghost known: set<string>) returns (accepted: bool)
      requires Running(wanted, known)
      modifies this`banned, this`buffer, this`skipped, this`registered, clock`t
      ensures Running(wanted + (if MeetsMinLevel(level, minLevel) then {ip} else {}), known)
      ensures |registered| + skipped == |old(registered)| + old(skipped) + 1
      ensures buffer == if accepted then old(buffer) + [ip] else old(buffer)
    {
      accepted := Register(ip, level);
    }

    method FlushTurn(ghost wanted: set<string>, ghost known: set<string>)
      requires Running(wanted, known)
      modifies this`banned, this`buffer, this`pendingOpID, this`executed, this`errors, api, ctx, clock`t, window
      ensures Running(wanted, known) && buffer == []
    {
      TrafficSays(Record());
      Flush();
    }

    method SweepTurn(ghost wanted: set<string>, ghost known: set<string>)
      requires Running(wanted, known)
      modifies this`banned, this`pendingOpID, this`errors, this`swept, this`passes, api, ctx, clock`t
      ensures Running(wanted, known) && |passes| == |old(passes)| + 1
    {
      Sweep();
      ghost var pass := passes[|passes| - 1];
      LastCleanGrows(start, old(passes), pass);
      TimelySweep(old(banned), banned, LastClean(start, old(passes)), old(clock.t), pass);
    }

    lemma TimelySweep(before: map<string, BanRecord>, after: map<string, BanRecord>, last: Time, t: Time, pass: Pass)
      requires Timely(before, last, t, ttl) && t <= pass.at
      requires after == before || after == before - Removable(before, pass.at)
      requires pass.clean ==> Removable(before, pass.at) == {} || after == before - Removable(before, pass.at)
      ensures Timely(after, if pass.clean then pass.at else last, pass.at, ttl)
    {
      if pass.clean {
        forall ip | ip in after && after[ip].itemId != "" ensures pass.at - after[ip].addedAt <= ttl {
          assert ip !in Removable(before, pass.at);
        }
      }
    }

    /** One turn of the loop: an event, or one of the two timers. */
    method Step(input: Input, ghost wanted: set<string>, ghost wanted': set<string>, ghost known: set<string>)
      requires wanted' == wanted + if Counts(input, minLevel) then {input.ip} else {}
      requires Running(wanted, known) && (buffer == [] || |buffer| < batchSize)
      modifies this`banned, this`buffer, this`pendingOpID, this`executed, this`skipped, this`errors, this`swept
      modifies this`registered, this`passes, api, ctx, clock`t, window
      ensures Running(wanted', known)
      ensures |registered| + skipped == |old(registered)| + old(skipped) + if input.Event? then 1 else 0
      ensures |passes| == |old(passes)| + if input.SweepTick? then 1 else 0
      ensures Drained([input], |buffer|, batchSize)
    {
      assert !Counts(input, minLevel) ==> wanted' == wanted;
      match input
      case Event(ip, level) =>
        var accepted := Take(ip, level, wanted, known);
        if accepted && |buffer| >= batchSize {
          FlushTurn(wanted', known);
        }
      case FlushTick => FlushTurn(wanted', known);
      case SweepTick => SweepTurn(wanted', known);
    }

    /** The run up to any turn of the loop. Every event is skipped or registers its address; exactly
        the addresses of events that count are registered, except for those known before; a flush
        tick or a full batch leaves nothing buffered; every sweep tick is one pass. */
    method Serve(items: seq<(string, string)>, inputs: seq<Input>)
      requires Valid() && Punctual() && registered == {} && buffer == [] && passes == []
      modifies this, api, ctx, clock`t, window
      ensures Running(Wanted(inputs, minLevel), old(banned).Keys + old(window.marks) + AddressesOf(items))
      ensures Drained(inputs, |buffer|, batchSize)
      ensures |registered| + skipped == old(skipped) + EventCount(inputs)
      ensures |passes| == SweepCount(inputs)
    {
      ghost var known := Start(items);
      Loop(inputs, known);
    }

    method Start(items: seq<(string, string)>) returns (ghost known: set<string>)
      requires Valid() && Punctual() && registered == {}
      modifies this`banned, this`syncedIds, clock`t
      ensures Running({}, known) && known == old(banned).Keys + window.marks + AddressesOf(items)
    {
      SyncExisting(items);
      known := old(banned).Keys + window.marks + AddressesOf(items);
      LoadedKnown(banned, old(banned), items, old(clock.t));
    }

    method Loop(inputs: seq<Input>, ghost known: set<string>)
      requires Running({}, known) && buffer == []
      modifies this`banned, this`buffer, this`pendingOpID, this`executed, this`skipped, this`errors, this`swept
      modifies this`registered, this`passes, api, ctx, clock`t, window
      ensures Running(Wanted(inputs, minLevel), known) && Drained(inputs, |buffer|, batchSize)
      ensures |registered| + skipped == |old(registered)| + old(skipped) + EventCount(inputs)
      ensures |passes| == |old(passes)| + SweepCount(inputs)
    {
      for i := 0 to |inputs|
        invariant Running(Wanted(inputs[..i], minLevel), known)
        invariant Drained(inputs[..i], |buffer|, batchSize)
        invariant |registered| + skipped == |old(registered)| + old(skipped) + EventCount(inputs[..i])
        invariant |passes| == |old(passes)| + SweepCount(inputs[..i])
      {
        Turn(inputs, i, known);
      }
      assert inputs[..|inputs|] == inputs;
    }

    method Turn(inputs: seq<Input>, i: nat, ghost known: set<string>)
      requires i < |inputs| && Running(Wanted(inputs[..i], minLevel), known) && Drained(inputs[..i], |buffer|, batchSize)
      modifies this`banned, this`buffer, this`pendingOpID, this`executed, this`skipped, this`errors, this`swept
      modifies this`registered, this`passes, api, ctx, clock`t, window
      ensures Running(Wanted(inputs[..i + 1], minLevel), known) && Drained(inputs[..i + 1], |buffer|, batchSize)
      ensures |registered| + skipped - |old(registered)| - old(skipped) == EventCount(inputs[..i + 1]) - EventCount(inputs[..i])
      ensures |passes| - |old(passes)| == SweepCount(inputs[..i + 1]) - SweepCount(inputs[..i])
    {
      TurnGrows(inputs, i, minLevel, batchSize);
      Step(inputs[i], Wanted(inputs[..i], minLevel), Wanted(inputs[..i + 1], minLevel), known);
    }

    /** The whole run, with the final flush and sweep. At every bulk call made before cancellation,
        every earlier operation is settled. A registered address stays in the ban map, is asked for
        unless the run is cancelled, and is part of one batch only, which is attempted again only
        directly after a rate limit. Only synced items are removed, and their overstay is bounded. */
    method Run(items: seq<(string, string)>, inputs: seq<Input>)
      requires Valid() && Punctual() && registered == {} && buffer == [] && passes == []
      modifies this, api, ctx, clock`t, window
      ensures Running(Wanted(inputs, minLevel), old(banned).Keys + old(window.marks) + AddressesOf(items))
      ensures OneOutstanding(api.log) && SentOnce(api.log) && OwnRequests(api.log, registered, syncedIds)
      ensures |registered| + skipped == old(skipped) + EventCount(inputs)
      ensures registered <= banned.Keys
      ensures forall ip :: ip in registered ==> Sent(api.log, ip) || ctx.done
      ensures |passes| == SweepCount(inputs) + 1 && BoundedOverstay(banned, start, passes, clock.t, ttl)
    {
      Serve(items, inputs);
      Finish(Wanted(inputs, minLevel), old(banned).Keys + old(window.marks) + AddressesOf(items));
    }

    /** The final flush and sweep. */
    method Finish(ghost wanted: set<string>, ghost known: set<string>)
      requires Running(wanted, known)
      modifies this`banned, this`buffer, this`pendingOpID, this`executed, this`errors, this`swept, this`passes
      modifies api, ctx, clock`t, window
      ensures Running(wanted, known) && buffer == []
      ensures OneOutstanding(api.log) && SentOnce(api.log) && OwnRequests(api.log, registered, syncedIds)
      ensures forall ip :: ip in registered ==> Sent(api.log, ip) || ctx.done
      ensures |passes| == |old(passes)| + 1 && BoundedOverstay(banned, start, passes, clock.t, ttl)
    {
      FlushTurn(wanted, known);
      SweepTurn(wanted, known);
      TrafficSays(Record());
      TimelySays(banned, start, passes, clock.t, ttl);
    }
  }
}
