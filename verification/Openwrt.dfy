/** The OpenWrt executor: events are batched, and one flush cycle adds pending and deletes
    expired addresses, then commits and reloads once. Any call may fail. */
module Openwrt {
  import opened Basics
  import opened Environment
  import opened Passes
  import opened BanLog

  /** The router's ipset section: what is staged, what is committed to disk, and what the
      running firewall enforces. A failed call has no effect. */
  class Router {
    var staged: set<string>
    var committed: set<string>
    var running: set<string>
    ghost var log: seq<Op>
    /** How many commits and reloads were requested. */
    ghost var commits: nat
    ghost var reloads: nat
    /** Every batch that was asked to be added or deleted, and how many deletions failed. */
    ghost var addCalls: seq<set<string>>
    ghost var deleteCalls: seq<set<string>>
    ghost var failedDeletes: nat

    method AddEntries(ips: set<string>, clock: Clock) returns (ok: bool)
      modifies this`staged, this`log, this`addCalls, clock`t
      ensures old(clock.t) <= clock.t && addCalls == old(addCalls) + [ips]
      ensures ok ==> staged == old(staged) + ips && log == old(log) + [Added(ips, clock.t)]
      ensures !ok ==> staged == old(staged) && log == old(log)
    {
      var at := clock.Now();
      addCalls := addCalls + [ips];
      ok := *;
      if ok {
        staged := staged + ips;
        log := log + [Added(ips, at)];
      }
    }

    method DeleteEntries(ips: set<string>, clock: Clock) returns (ok: bool)
      modifies this`staged, this`log, this`deleteCalls, this`failedDeletes, clock`t
      ensures old(clock.t) <= clock.t && deleteCalls == old(deleteCalls) + [ips]
      ensures failedDeletes == old(failedDeletes) + if ok then 0 else 1
      ensures ok ==> staged == old(staged) - ips && log == old(log) + [Deleted(ips, clock.t)]
      ensures !ok ==> staged == old(staged) && log == old(log)
    {
      var at := clock.Now();
      deleteCalls := deleteCalls + [ips];
      ok := *;
      if ok {
        staged := staged - ips;
        log := log + [Deleted(ips, at)];
      } else {
        failedDeletes := failedDeletes + 1;
      }
    }

    method Commit() returns (ok: bool)
      modifies this`committed, this`commits
      ensures committed == if ok then staged else old(committed)
      ensures commits == old(commits) + 1
    {
      commits := commits + 1;
      ok := *;
      if ok {
        committed := staged;
      }
    }

    method Reload() returns (ok: bool)
      modifies this`running, this`reloads
      ensures running == if ok then committed else old(running)
      ensures reloads == old(reloads) + 1
    {
      reloads := reloads + 1;
      ok := *;
      if ok {
        running := committed;
      }
    }

    method ListEntries(clock: Clock) returns (ok: bool, entries: set<string>)
      modifies this`log, clock`t
      ensures old(clock.t) <= clock.t
      ensures ok ==> entries == staged && log == old(log) + [Synced(staged, clock.t)]
      ensures !ok ==> entries == {} && log == old(log)
    {
      var at := clock.Now();
      ok, entries := *, {};
      if ok {
        entries := staged;
        log := log + [Synced(staged, at)];
      }
    }
  }

  /** How a flush cycle went: nothing to do, or which of its calls succeeded. */
  datatype Cycle = Nothing | Cycle(added: bool, deleted: bool, committed: bool, reloaded: bool)

  /** The log after a cycle: what was added at `at`, then what was deleted at `at'`. */
  function LogAfter(log: seq<Op>, cycle: Cycle, unique: set<string>, at: Time, expired: set<string>, at': Time): seq<Op>
    requires cycle.Cycle?
  {
    var added := if cycle.added then log + [Added(unique, at)] else log;
    if cycle.deleted then added + [Deleted(expired, at')] else added
  }

  function NewRecords(ips: set<string>, now: Time, ttl: int): map<string, BanRecord> {
    map ip | ip in ips :: BanRecord(ip, now, now + ttl)
  }

  /** The ban map after a cycle recorded at `now`. */
  function BannedAfter(banned: map<string, BanRecord>, cycle: Cycle, unique: set<string>, expired: set<string>, now: Time, ttl: int):
    map<string, BanRecord>
    requires cycle.Cycle?
  {
    var added := if cycle.added then banned + NewRecords(unique, now, ttl) else banned;
    if cycle.deleted then added - expired else added
  }

  function ExpiredAt(banned: map<string, BanRecord>, now: Time): set<string> {
    set ip | ip in banned && banned[ip].expireAt <= now
  }

  /** The call for a batch, which is made unless the batch is empty. */
  function CallFor(ips: set<string>): seq<set<string>> {
    if ips == {} then [] else [ips]
  }

  ghost function UnionOf(calls: seq<set<string>>): set<string> {
    set k, ip | 0 <= k < |calls| && ip in calls[k] :: ip
  }

  /** What one more call asks for. */
  lemma UnionOfSuffix(calls: seq<set<string>>, ips: set<string>, n: nat)
    requires n <= |calls|
    ensures UnionOf((calls + CallFor(ips))[n..]) == UnionOf(calls[n..]) + ips
  {
    var before, after := calls[n..], (calls + CallFor(ips))[n..];
    assert forall k :: 0 <= k < |before| ==> after[k] == before[k];
    if ips != {} {
      assert after == before + [ips] && after[|before|] == ips;
    } else {
      assert after == before;
    }
  }

  /** A set of addresses after the calls of a cycle that succeeded. */
  function KeysAfter(keys: set<string>, cycle: Cycle, unique: set<string>, expired: set<string>): set<string>
    requires cycle.Cycle?
  {
    var added := if cycle.added then keys + unique else keys;
    if cycle.deleted then added - expired else added
  }

  /** How many calls of a cycle failed. */
  function Failures(cycle: Cycle, unique: set<string>, expired: set<string>): nat
    requires cycle.Cycle?
  {
    (if unique != {} && !cycle.added then 1 else 0) + (if expired != {} && !cycle.deleted then 1 else 0) +
    if cycle.added || cycle.deleted then (if cycle.committed then 0 else 1) + (if cycle.reloaded then 0 else 1) else 0
  }

  /** The books after a cycle recorded at `now`. */
  function BooksAfter(b: Books, cycle: Cycle, unique: set<string>, at: Time, expired: set<string>, at': Time, now: Time): Books
    requires cycle.Cycle?
  {
    b.(banned := BannedAfter(b.banned, cycle, unique, expired, now, b.ttl),
       marks := b.marks + (if cycle.added then unique else {}),
       log := LogAfter(b.log, cycle, unique, at, expired, at'),
       passes := b.passes + [Pass(b.now, cycle.deleted || expired == {})],
       now := now)
  }

  /** A cycle keeps the ban laws whichever of its calls succeed. */
  lemma CycleKeepsOrder(b: Books, cycle: Cycle, unique: set<string>, at: Time, expired: set<string>, at': Time, now: Time)
    requires InOrder(b) && cycle.Cycle? && b.ttl > 0 && b.now <= at <= at' <= now
    requires unique !! b.banned.Keys && expired == ExpiredAt(b.banned, b.now)
    ensures InOrder(BooksAfter(b, cycle, unique, at, expired, at', now))
  {
    var next := BannedAfter(b.banned, cycle, unique, expired, now, b.ttl);
    var c := BooksAdded(b, cycle, unique, at, now);
    var d := BooksDeleted(c, cycle, expired, at');
    BooksLater(d, now);
    var pass := Pass(b.now, cycle.deleted || expired == {});
    NothingLeft(b.banned, cycle, unique, expired, b.now, now, b.ttl);
    BooksPass(d.(now := now), pass);
  }

  lemma BooksAdded(b: Books, cycle: Cycle, unique: set<string>, at: Time, now: Time) returns (c: Books)
    requires InOrder(b) && cycle.Cycle? && b.ttl > 0 && b.now <= at <= now && unique !! b.banned.Keys
    ensures InOrder(c)
    ensures c == b.(
      banned := if cycle.added then b.banned + NewRecords(unique, now, b.ttl) else b.banned,
      marks := b.marks + (if cycle.added then unique else {}),
      log := if cycle.added then b.log + [Added(unique, at)] else b.log,
      now := at)
  {
    if cycle.added {
      var next := b.banned + NewRecords(unique, now, b.ttl);
      BooksBan(b, Added(unique, at), next, unique, at, b.gap);
      c := b.(banned := next, marks := b.marks + unique, log := b.log + [Added(unique, at)], now := at);
    } else {
      BooksLater(b, at);
      c := b.(now := at);
      assert b.marks + {} == b.marks;
    }
  }

  lemma BooksDeleted(b: Books, cycle: Cycle, expired: set<string>, at: Time) returns (c: Books)
    requires InOrder(b) && cycle.Cycle? && b.now <= at
    requires forall ip :: ip in expired ==> ip in b.banned && b.banned[ip].expireAt <= at
    ensures InOrder(c)
    ensures c == b.(
      banned := if cycle.deleted then b.banned - expired else b.banned,
      log := if cycle.deleted then b.log + [Deleted(expired, at)] else b.log,
      now := at)
  {
    if cycle.deleted {
      BooksDelete(b, expired, at);
      c := b.(banned := b.banned - expired, log := b.log + [Deleted(expired, at)], now := at);
    } else {
      BooksLater(b, at);
      c := b.(now := at);
    }
  }

  /** A cycle whose deletions, if any were due, succeeded leaves no expired record. */
  lemma NothingLeft(banned: map<string, BanRecord>, cycle: Cycle, unique: set<string>, expired: set<string>,
                    at: Time, now: Time, ttl: int)
    requires cycle.Cycle? && ttl > 0 && at <= now && expired == ExpiredAt(banned, at)
    ensures cycle.deleted || expired == {} ==> NothingExpired(BannedAfter(banned, cycle, unique, expired, now, ttl), at)
  {
    var next := BannedAfter(banned, cycle, unique, expired, now, ttl);
    if cycle.deleted || expired == {} {
      forall ip | ip in next ensures at < next[ip].expireAt {
        if !(cycle.added && ip in unique) {
          assert next[ip] == banned[ip] && ip !in expired;
        }
      }
    }
  }

  /** The ban map and the staged set change alike. */
  lemma KeysFollow(banned: map<string, BanRecord>, staged: set<string>, cycle: Cycle, unique: set<string>, expired: set<string>,
                   now: Time, ttl: int)
    requires cycle.Cycle? && banned.Keys <= staged
    ensures
      var keys := BannedAfter(banned, cycle, unique, expired, now, ttl).Keys;
      && keys == KeysAfter(banned.Keys, cycle, unique, expired)
      && keys <= KeysAfter(staged, cycle, unique, expired)
  {
  }

  class OpenwrtExecutor {
    const ttl: int
    const minLevel: string
    const batchSize: int
    const router: Router
    const clock: Clock
    const window: Window
    var banned: map<string, BanRecord>
    var executed: nat
    var skipped: nat
    var errors: nat
    var swept: nat

    /** The startup sync succeeded. */
    ghost var synced: bool
    /** When the executor was made, and every flush cycle since, each of which sweeps. */
    ghost const start: Time
    ghost var passes: seq<Pass>
    /** Both the commit and the reload of the latest cycle that had them succeeded. */
    ghost var applied: bool
    ghost var received: nat
    ghost var failedAdds: nat

    constructor (ttl: int, minLevel: string, batchSize: int, router: Router, clock: Clock, window: Window)
      requires ttl > 0 && router.log == [] && window.marks == {}
      ensures Valid() && !synced && banned == map[] && passes == []
      ensures this.ttl == ttl && this.router == router && this.clock == clock && this.window == window
      ensures start == clock.t && Counted(0) && received == 0
    {
      this.ttl, this.minLevel, this.batchSize := ttl, minLevel, batchSize;
      this.router, this.clock, this.window := router, clock, window;
      banned, executed, skipped, errors, swept := map[], 0, 0, 0, 0;
      synced, start, passes, applied := false, clock.t, [], router.running == router.staged;
      received, failedAdds := 0, 0;
    }

    ghost function Records(): Books
      reads this, router, clock, window
    {
      Books(banned, window.marks, router.log, passes, start, clock.t, ttl, 0)
    }

    ghost predicate Valid()
      reads this, router, clock, window
    {
      ttl > 0 && InOrder(Records()) && Mirrors()
    }

    /** Every event received is accounted for exactly once. */
    ghost predicate Counted(waiting: nat)
      reads this`received, this`skipped, this`executed, this`failedAdds
    {
      received == skipped + executed + failedAdds + waiting
    }

    /** Locally known bans are staged; once synced, they are all that is staged; and they are what
        the firewall runs if the latest changes were applied. */
    ghost predicate Mirrors()
      reads this`banned, this`synced, this`applied, router
    {
      && banned.Keys <= router.staged
      && (synced ==> banned.Keys == router.staged)
      && (applied ==> router.running == router.staged)
    }

    method SyncExisting()
      requires Valid() && banned == map[]
      modifies this`banned, this`synced, router`log, clock`t
      ensures Valid()
      ensures synced ==> banned.Keys == router.staged
      ensures !synced ==> banned == map[]
    {
      var ok, entries := router.ListEntries(clock);
      synced := ok;
      if !ok {
        BooksLater(old(Records()), clock.t);
        return;
      }
      ghost var op := Synced(router.staged, clock.t);
      var now := clock.Now();
      BooksBan(old(Records()), op, NewRecords(entries, now, ttl), {}, now, 0);
      banned := NewRecords(entries, now, ttl);
      assert Records().marks == old(Records()).marks + {};
    }

    /** A duplicate is an address that the router accepted before (or the sync found). */
    method IsDuplicate(ip: string) returns (duplicate: bool)
      requires Valid()
      ensures duplicate ==> EverBanned(router.log, ip)
      ensures ip in banned ==> duplicate
    {
      BooksSay(Records());
      duplicate := window.Contains(ip);
      if !duplicate {
        duplicate := ip in banned;
      }
    }

    /** Phase 1: pending addresses not yet banned, and bans that have expired; never both. */
    method Split(pending: seq<string>, now: Time) returns (unique: seq<string>, expired: set<string>)
      modifies this`skipped
      ensures SetOf(unique) == SetOf(pending) - banned.Keys
      ensures expired == ExpiredAt(banned, now)
      ensures SetOf(unique) !! expired
      ensures |unique| + skipped - old(skipped) == |pending|
    {
      unique := [];
      for i := 0 to |pending|
        invariant forall ip :: ip in unique <==> ip in pending[..i] && ip !in banned
        invariant |unique| + skipped - old(skipped) == i
      {
        assert pending[..i + 1] == pending[..i] + [pending[i]];
        if pending[i] in banned {
          skipped := skipped + 1;
          continue;
        }
        unique := unique + [pending[i]];
      }
      assert pending[..|pending|] == pending;
      expired := ExpiredAt(banned, now);
    }

    /** Phase 2: both batches are requested unless empty, and - only if one of them went
        through - one commit and one reload. */
    method Transact(unique: set<string>, expired: set<string>) returns (cycle: Cycle, ghost at: Time, ghost at': Time)
      modifies this`errors, router, clock`t
      ensures cycle.Cycle? && old(clock.t) <= at <= at' <= clock.t
      ensures router.addCalls == old(router.addCalls) + CallFor(unique) && (unique == {} ==> !cycle.added)
      ensures router.deleteCalls == old(router.deleteCalls) + CallFor(expired) && (expired == {} ==> !cycle.deleted)
      ensures router.failedDeletes == old(router.failedDeletes) + if cycle.deleted || expired == {} then 0 else 1
      ensures router.staged == KeysAfter(old(router.staged), cycle, unique, expired)
      ensures router.log == LogAfter(old(router.log), cycle, unique, at, expired, at')
      ensures errors == old(errors) + Failures(cycle, unique, expired)
      ensures cycle.committed ==> router.committed == router.staged
      ensures cycle.committed && cycle.reloaded ==> router.running == router.staged
      ensures !cycle.added && !cycle.deleted ==> router.running == old(router.running)
      ensures router.commits == old(router.commits) + if cycle.added || cycle.deleted then 1 else 0
      ensures router.reloads == old(router.reloads) + if cycle.added || cycle.deleted then 1 else 0
    {
      var addedOK, deletedOK, committedOK, reloadedOK := false, false, false, false;
      if unique != {} {
        addedOK := router.AddEntries(unique, clock);
        if !addedOK {
          errors := errors + 1;
        }
      }
      at := clock.t;
      if expired != {} {
        deletedOK := router.DeleteEntries(expired, clock);
        if !deletedOK {
          errors := errors + 1;
        }
      }
      at' := clock.t;
      if addedOK || deletedOK {
        committedOK, reloadedOK := CommitAndReload();
      }
      cycle := Cycle(addedOK, deletedOK, committedOK, reloadedOK);
    }

    method CommitAndReload() returns (committedOK: bool, reloadedOK: bool)
      modifies this`errors, router`committed, router`running, router`commits, router`reloads
      ensures router.commits == old(router.commits) + 1 && router.reloads == old(router.reloads) + 1
      ensures errors == old(errors) + (if committedOK then 0 else 1) + if reloadedOK then 0 else 1
      ensures committedOK ==> router.committed == router.staged
      ensures committedOK && reloadedOK ==> router.running == router.staged
    {
      committedOK := router.Commit();
      if !committedOK {
        errors := errors + 1;
      }
      reloadedOK := router.Reload();
      if !reloadedOK {
        errors := errors + 1;
      }
    }

    /** One flush cycle. Whatever is new is asked to be added and whatever has expired to be
        deleted. Afterwards (given the startup sync) the ban map is what is staged, whichever calls
        failed; and if commit and reload went through, it is what the firewall enforces, whatever
        failed in earlier cycles. */
    method Flush(pending: seq<string>) returns (cycle: Cycle)
      requires Valid()
      modifies this`banned, this`executed, this`skipped, this`errors, this`swept, this`passes, this`applied, this`failedAdds
      modifies router, clock`t, window
      ensures Valid() && old(router.log) <= router.log
      ensures skipped + executed + failedAdds == old(skipped) + old(executed) + old(failedAdds) + |pending|
      ensures Changes(cycle) ==> applied == (cycle.committed && cycle.reloaded)
      ensures !Changes(cycle) ==> applied == old(applied)
      ensures cycle.Nothing? ==> banned == old(banned) && router.staged == old(router.staged)
      ensures cycle.Nothing? ==> router.committed == old(router.committed) && router.running == old(router.running)
      ensures router.commits == old(router.commits) + if Changes(cycle) then 1 else 0
      ensures router.reloads - old(router.reloads) == router.commits - old(router.commits)
      ensures PassMade(old(passes), old(clock.t))
      ensures router.addCalls == old(router.addCalls) + CallFor(SetOf(pending) - old(banned).Keys)
      ensures router.deleteCalls == old(router.deleteCalls) + CallFor(ExpiredAt(old(banned), LastPass().at))
      ensures old(router.failedDeletes) <= router.failedDeletes
      ensures LastPass().clean <==> router.failedDeletes == old(router.failedDeletes)
      ensures cycle.Cycle? ==>
        banned.Keys == KeysAfter(old(banned).Keys, cycle, SetOf(pending) - old(banned).Keys, ExpiredAt(old(banned), LastPass().at))
      ensures cycle.Nothing? || !cycle.added ==> window.marks == old(window.marks)
    {
      var now := clock.Now();
      BooksLater(old(Records()), now);
      var unique, expired := Split(pending, now);
      if |unique| == 0 && |expired| == 0 {
        NothingDue(now);
        passes := passes + [Pass(now, true)];
        return Nothing;
      }
      cycle := TransactAndRecord(unique, expired, now);
    }

    lemma NothingDue(now: Time)
      requires InOrder(Records()) && clock.t == now && ExpiredAt(banned, now) == {}
      ensures InOrder(Records().(passes := passes + [Pass(now, true)]))
    {
      forall ip | ip in banned ensures now < banned[ip].expireAt {
        assert ip !in ExpiredAt(banned, now);
      }
      BooksPass(Records(), Pass(now, true));
    }

    predicate Changes(cycle: Cycle) {
      cycle.Cycle? && (cycle.added || cycle.deleted)
    }

    /** The cycle has left one more pass, made since `before`. */
    ghost predicate PassMade(passes': seq<Pass>, before: Time)
      reads this`passes, clock`t
    {
      && |passes| == |passes'| + 1 && passes[..|passes'|] == passes'
      && before <= LastPass().at <= clock.t
    }

    ghost function LastPass(): Pass
      reads this`passes
    {
      if passes == [] then Pass(start, true) else passes[|passes| - 1]
    }

    /** The cycle proper, when there is something to add or to delete. */
    method TransactAndRecord(unique: seq<string>, expired: set<string>, ghost now: Time) returns (cycle: Cycle)
      requires Valid() && clock.t == now && SetOf(unique) !! banned.Keys
      requires expired == ExpiredAt(banned, now)
      modifies this`banned, this`executed, this`errors, this`swept, this`passes, this`applied, this`failedAdds
      modifies router, clock`t, window
      ensures Valid() && cycle.Cycle? && now <= clock.t && old(router.log) <= router.log
      ensures executed == old(executed) + if cycle.added then |unique| else 0
      ensures failedAdds == old(failedAdds) + if cycle.added then 0 else |unique|
      ensures swept == old(swept) + if cycle.deleted then |expired| else 0
      ensures errors == old(errors) + Failures(cycle, SetOf(unique), expired)
      ensures Changes(cycle) ==> applied == (cycle.committed && cycle.reloaded)
      ensures !Changes(cycle) ==> applied == old(applied)
      ensures router.commits == old(router.commits) + if Changes(cycle) then 1 else 0
      ensures router.reloads == old(router.reloads) + if Changes(cycle) then 1 else 0
      ensures router.addCalls == old(router.addCalls) + CallFor(SetOf(unique))
      ensures router.deleteCalls == old(router.deleteCalls) + CallFor(expired)
      ensures router.failedDeletes == old(router.failedDeletes) + if cycle.deleted || expired == {} then 0 else 1
      ensures passes == old(passes) + [Pass(now, cycle.deleted || expired == {})]
      ensures banned.Keys == KeysAfter(old(banned).Keys, cycle, SetOf(unique), expired)
      ensures !cycle.added ==> window.marks == old(window.marks)
    {
      ghost var at, at';
      cycle, at, at' := Transact(SetOf(unique), expired);
      if Changes(cycle) {
        applied := cycle.committed && cycle.reloaded;
      }
      if !cycle.added {
        failedAdds := failedAdds + |unique|;
      }
      Conclude(unique, expired, cycle, old(Records()), at, at');
      KeysFollow(old(banned), old(router.staged), cycle, SetOf(unique), expired, clock.t, ttl);
    }

    /** Phase 3: the local state follows exactly what was applied. */
    method Conclude(unique: seq<string>, expired: set<string>, cycle: Cycle, ghost b: Books, ghost at: Time, ghost at': Time)
      requires ttl > 0 && InOrder(b) && cycle.Cycle? && b.now <= at <= at' <= clock.t
      requires Records() == b.(log := LogAfter(b.log, cycle, SetOf(unique), at, expired, at'), now := clock.t)
      requires SetOf(unique) !! banned.Keys && expired == ExpiredAt(banned, b.now)
      modifies this`banned, this`executed, this`swept, this`passes, clock`t, window
      ensures InOrder(Records()) && old(clock.t) <= clock.t
      ensures banned == BannedAfter(b.banned, cycle, SetOf(unique), expired, clock.t, ttl)
      ensures window.marks == old(window.marks) + if cycle.added then SetOf(unique) else {}
      ensures executed == old(executed) + if cycle.added then |unique| else 0
      ensures swept == old(swept) + if cycle.deleted then |expired| else 0
      ensures passes == old(passes) + [Pass(b.now, cycle.deleted || expired == {})]
    {
      var recordedAt := clock.Now();
      CycleKeepsOrder(b, cycle, SetOf(unique), at, expired, at', recordedAt);
      Record(unique, expired, cycle, recordedAt);
      passes := passes + [Pass(b.now, cycle.deleted || expired == {})];
      assert Records() == BooksAfter(b, cycle, SetOf(unique), at, expired, at', recordedAt);
    }

    method Record(unique: seq<string>, expired: set<string>, cycle: Cycle, now: Time)
      requires cycle.Cycle?
      modifies this`banned, this`executed, this`swept, window
      ensures banned == BannedAfter(old(banned), cycle, SetOf(unique), expired, now, ttl)
      ensures window.marks == old(window.marks) + if cycle.added then SetOf(unique) else {}
      ensures executed == old(executed) + if cycle.added then |unique| else 0
      ensures swept == old(swept) + if cycle.deleted then |expired| else 0
    {
      if cycle.added {
        banned := banned + NewRecords(SetOf(unique), now, ttl);
        window.MarkBatch(SetOf(unique));
        executed := executed + |unique|;
      }
      if cycle.deleted {
        banned := banned - expired;
        swept := swept + |expired|;
      }
    }

    /** Handles one event: it is skipped only for its level or as a duplicate of a successful
        ban; otherwise it waits for the next flush. */
    method Accept(ip: string, level: string) returns (queued: bool)
      requires Valid()
      modifies this`skipped
      ensures Valid()
      ensures !queued ==> skipped == old(skipped) + 1 && (!MeetsMinLevel(level, minLevel) || EverBanned(router.log, ip))
      ensures queued ==> skipped == old(skipped) && MeetsMinLevel(level, minLevel) && ip !in banned
    {
      queued := MeetsMinLevel(level, minLevel);
      if queued {
        var duplicate := IsDuplicate(ip);
        queued := !duplicate;
      }
      if !queued {
        skipped := skipped + 1;
      }
    }

    /** What holds throughout a run that began after `calls` add calls and `failed` failed deletions:
        with these addresses wanted and pending, and at least so many passes made. */
    ghost predicate Running(wanted: set<string>, pending: seq<string>, sweeps: nat, calls: nat, failed: nat)
      reads this, router, clock, window
    {
      && Valid() && Counted(|pending|)
      && |passes| >= sweeps
      && router.failedDeletes >= failed
      && (router.failedDeletes == failed ==> AllClean(passes))
      && calls <= |router.addCalls|
      && Flows(wanted, SetOf(pending), UnionOf(router.addCalls[calls..]), BannedIn(router.log))
    }

    /** An event that counts is pending afterwards, or was banned before. */
    method Take(ip: string, level: string, pending: seq<string>,
                ghost wanted: set<string>, ghost sweeps: nat, ghost calls: nat, ghost failed: nat)
      returns (queued: bool, rest: seq<string>)
      requires Running(wanted, pending, sweeps, calls, failed)
      modifies this`skipped, this`received
      ensures Running(wanted + (if MeetsMinLevel(level, minLevel) then {ip} else {}), rest, sweeps, calls, failed)
      ensures received == old(received) + 1
      ensures rest == if queued then pending + [ip] else pending
    {
      queued := Accept(ip, level);
      received := received + 1;
      rest := if queued then pending + [ip] else pending;
      BannedInIff(router.log);
      SetOfGrows(pending, [ip]);
    }

    /** A flush of a batch while other addresses wait: none is lost. */
    method FlushBatch(batch: seq<string>, ghost waiting: seq<string>,
                      ghost wanted: set<string>, ghost sweeps: nat, ghost calls: nat, ghost failed: nat)
      requires Running(wanted, waiting + batch, sweeps, calls, failed)
      modifies this`banned, this`executed, this`skipped, this`errors, this`swept
      modifies this`passes, this`applied, this`failedAdds, router, clock`t, window
      ensures Running(wanted, waiting, sweeps + 1, calls, failed)
    {
      BooksSay(Records());
      BannedInIff(router.log);
      SetOfGrows(waiting, batch);
      var _ := Flush(batch);
      BannedInGrows(old(router.log), router.log);
      UnionOfSuffix(old(router.addCalls), SetOf(batch) - old(banned).Keys, calls);
    }

    /** One turn of the loop: an event, or one of the two timers. */
    method Step(input: Input, pending: seq<string>, ghost before: set<string>, ghost wanted: set<string>, ghost sweeps: nat,
                ghost calls: nat, ghost failed: nat)
      returns (rest: seq<string>)
      requires wanted == before + if Counts(input, minLevel) then {input.ip} else {}
      requires Running(before, pending, sweeps, calls, failed)
      requires pending == [] || |pending| < batchSize
      modifies this`banned, this`executed, this`skipped, this`errors, this`swept
      modifies this`passes, this`applied, this`received, this`failedAdds, router, clock`t, window
      ensures Running(wanted, rest, sweeps + (if input.SweepTick? then 1 else 0), calls, failed)
      ensures Drained([input], |rest|, batchSize)
      ensures received == old(received) + if input.Event? then 1 else 0
    {
      assert !Counts(input, minLevel) ==> wanted == before;
      rest := pending;
      match input
      case Event(ip, level) =>
        var queued;
        queued, rest := Take(ip, level, pending, before, sweeps, calls, failed);
        if queued && |rest| >= batchSize {
          assert [] + rest == rest;
          FlushBatch(rest, [], wanted, sweeps, calls, failed);
          rest := [];
        }
      case FlushTick =>
        if |rest| > 0 {
          assert [] + rest == rest;
          FlushBatch(rest, [], wanted, sweeps, calls, failed);
          rest := [];
        }
      case SweepTick =>
        assert rest + [] == rest;
        FlushBatch([], rest, wanted, sweeps, calls, failed);
    }

    method Turn(inputs: seq<Input>, i: nat, pending: seq<string>, ghost calls: nat, ghost failed: nat)
      returns (rest: seq<string>)
      requires i < |inputs| && Running(Wanted(inputs[..i], minLevel), pending, SweepCount(inputs[..i]), calls, failed)
      requires Drained(inputs[..i], |pending|, batchSize)
      modifies this`banned, this`executed, this`skipped, this`errors, this`swept
      modifies this`passes, this`applied, this`received, this`failedAdds, router, clock`t, window
      ensures Running(Wanted(inputs[..i + 1], minLevel), rest, SweepCount(inputs[..i + 1]), calls, failed)
      ensures Drained(inputs[..i + 1], |rest|, batchSize)
      ensures received - old(received) == EventCount(inputs[..i + 1]) - EventCount(inputs[..i])
    {
      TurnGrows(inputs, i, minLevel, batchSize);
      rest := Step(inputs[i], pending, Wanted(inputs[..i], minLevel), Wanted(inputs[..i + 1], minLevel),
                   SweepCount(inputs[..i]), calls, failed);
    }

    /** The run up to any turn of the loop: startup sync, then events, flush ticks and sweep ticks
        in any order, with every remote call free to fail. Every event is counted once; the address
        of an event that counts is pending, was in an add batch, or was banned; and a flush tick or
        a full batch leaves nothing pending. */
    method Serve(inputs: seq<Input>) returns (pending: seq<string>)
      requires Valid() && Counted(0) && banned == map[] && passes == []
      modifies this, router, clock, window
      ensures Running(Wanted(inputs, minLevel), pending, SweepCount(inputs), old(|router.addCalls|), old(router.failedDeletes))
      ensures Drained(inputs, |pending|, batchSize)
      ensures received == old(received) + EventCount(inputs)
      ensures BoundedOverstay(banned, start, passes, clock.t, ttl)
      ensures synced ==> banned.Keys == router.staged
      ensures synced && applied ==> banned.Keys == router.running
      ensures NoEarlyUnban(router.log, ttl) && OnlyBannedDeleted(router.log)
    {
      SyncExisting();
      pending := [];
      assert router.addCalls[|router.addCalls|..] == [];
      for i := 0 to |inputs|
        invariant Running(Wanted(inputs[..i], minLevel), pending, SweepCount(inputs[..i]), old(|router.addCalls|), old(router.failedDeletes))
        invariant Drained(inputs[..i], |pending|, batchSize)
        invariant received == old(received) + EventCount(inputs[..i])
      {
        pending := Turn(inputs, i, pending, old(|router.addCalls|), old(router.failedDeletes));
      }
      assert inputs[..|inputs|] == inputs;
      BooksSay(Records());
    }

    /** The whole run, with the final flush: every event that counts was in an add batch, or its
        address was banned. */
    method Run(inputs: seq<Input>)
      requires Valid() && Counted(0) && banned == map[] && passes == []
      modifies this, router, clock, window
      ensures Valid()
      ensures BoundedOverstay(banned, start, passes, clock.t, ttl)
      ensures |passes| > SweepCount(inputs)
      ensures router.failedDeletes == old(router.failedDeletes) ==> AllClean(passes)
      ensures synced ==> banned.Keys == router.staged
      ensures synced && applied ==> banned.Keys == router.running
      ensures NoEarlyUnban(router.log, ttl) && OnlyBannedDeleted(router.log)
      ensures received == old(received) + EventCount(inputs) == skipped + executed + failedAdds
      ensures old(|router.addCalls|) <= |router.addCalls|
      ensures Flows(Wanted(inputs, minLevel), {}, UnionOf(router.addCalls[old(|router.addCalls|)..]), BannedIn(router.log))
    {
      var pending := Serve(inputs);
      assert [] + pending == pending;
      FlushBatch(pending, [], Wanted(inputs, minLevel), SweepCount(inputs), old(|router.addCalls|), old(router.failedDeletes));
      BooksSay(Records());
    }
  }
}
