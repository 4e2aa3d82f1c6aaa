/** The OPNsense executor: every accepted event is one add call, every expired ban one delete
    call, and any call may fail. */
module Opnsense {
  import opened Basics
  import opened Environment
  import opened Passes
  import opened BanLog

  /** The firewall alias; a failed call has no effect. */
  class Alias {
    var content: set<string>
    /** Every successful change of the alias, and what the startup sync saw. */
    ghost var log: seq<Op>
    /** Every add call and every failed delete call. */
    ghost var addCalls: seq<string>
    ghost var failedDeletes: nat

    method AddEntry(ip: string, clock: Clock) returns (ok: bool)
      modifies this`content, this`log, this`addCalls, clock`t
      ensures old(clock.t) <= clock.t && addCalls == old(addCalls) + [ip]
      ensures ok ==> content == old(content) + {ip} && log == old(log) + [Added({ip}, clock.t)]
      ensures !ok ==> content == old(content) && log == old(log)
    {
      var at := clock.Now();
      addCalls := addCalls + [ip];
      ok := *;
      if ok {
        content := content + {ip};
        log := log + [Added({ip}, at)];
      }
    }

    method DeleteEntry(ip: string, clock: Clock) returns (ok: bool)
      modifies this`content, this`log, this`failedDeletes, clock`t
      ensures old(clock.t) <= clock.t && failedDeletes == old(failedDeletes) + if ok then 0 else 1
      ensures ok ==> content == old(content) - {ip} && log == old(log) + [Deleted({ip}, clock.t)]
      ensures !ok ==> content == old(content) && log == old(log)
    {
      var at := clock.Now();
      ok := *;
      if ok {
        content := content - {ip};
        log := log + [Deleted({ip}, at)];
      } else {
        failedDeletes := failedDeletes + 1;
      }
    }

    method ListEntries(clock: Clock) returns (ok: bool, entries: set<string>)
      modifies this`log, clock`t
      ensures old(clock.t) <= clock.t
      ensures ok ==> entries == content && log == old(log) + [Synced(content, clock.t)]
      ensures !ok ==> entries == {} && log == old(log)
    {
      var at := clock.Now();
      ok, entries := *, {};
      if ok {
        entries := content;
        log := log + [Synced(content, at)];
      }
    }
  }

  class OpnsenseExecutor {
    const ttl: int
    const minLevel: string
    const alias: Alias
    const clock: Clock
    const window: Window
    var banned: map<string, BanRecord>
    var executed: nat
    var skipped: nat
    var errors: nat
    var swept: nat

    /** The startup sync succeeded. */
    ghost var synced: bool
    /** When the executor was made, and every sweep since. */
    ghost const start: Time
    ghost var passes: seq<Pass>
    ghost var received: nat
    ghost var failedAdds: nat
    ghost var failedDeletes: nat

    constructor (ttl: int, minLevel: string, alias: Alias, clock: Clock, window: Window)
      requires ttl > 0 && alias.log == [] && alias.addCalls == [] && window.marks == {}
      ensures Valid() && !synced && banned == map[] && passes == [] && received == 0
      ensures this.ttl == ttl && this.alias == alias && this.clock == clock && this.window == window
      ensures start == clock.t
    {
      this.ttl, this.minLevel, this.alias, this.clock, this.window := ttl, minLevel, alias, clock, window;
      banned, executed, skipped, errors, swept := map[], 0, 0, 0, 0;
      synced, start, passes, received, failedAdds, failedDeletes := false, clock.t, [], 0, 0, 0;
    }

    ghost function Records(): Books
      reads this, alias, clock, window
    {
      Books(banned, window.marks, alias.log, passes, start, clock.t, ttl, clock.gap)
    }

    ghost predicate Valid()
      reads this, alias, clock, window
    {
      ttl > 0 && InOrder(Records()) && Mirrors() && Counted()
    }

    /** Locally known bans are on the firewall; once synced, they are all of the alias. */
    ghost predicate Mirrors()
      reads this, alias
    {
      && banned.Keys <= alias.content
      && (synced ==> banned.Keys == alias.content)
    }

    /** Every event received is accounted for exactly once, every add call as one of them, and every
        failed call as an error. */
    ghost predicate Counted()
      reads this, alias
    {
      && received == skipped + executed + failedAdds
      && |alias.addCalls| == executed + failedAdds
      && errors == failedAdds + failedDeletes
    }

    method SyncExisting()
      requires Valid() && banned == map[]
      modifies this`banned, this`synced, alias`log, clock`t
      ensures Valid()
      ensures synced ==> banned.Keys == alias.content
      ensures !synced ==> banned == map[]
    {
      var ok, entries := alias.ListEntries(clock);
      synced := ok;
      if !ok {
        BooksLater(old(Records()), clock.t);
        return;
      }
      ghost var op := Synced(alias.content, clock.t);
      var now := clock.Now();
      var next := map ip | ip in entries :: BanRecord(ip, now, now + ttl);
      BooksBan(old(Records()), op, next, {}, now, clock.gap);
      banned := next;
      assert Records().marks == old(Records()).marks + {};
    }

    /** A duplicate is an address that the firewall accepted before (or the sync found). */
    method IsDuplicate(ip: string) returns (duplicate: bool)
      requires Valid()
      ensures duplicate ==> EverBanned(alias.log, ip)
      ensures ip in banned ==> duplicate
    {
      BooksSay(Records());
      duplicate := window.Contains(ip);
      if !duplicate {
        duplicate := ip in banned;
      }
    }

    method Skips(ip: string, level: string) returns (skip: bool)
      requires Valid()
      ensures skip ==> !MeetsMinLevel(level, minLevel) || EverBanned(alias.log, ip)
      ensures !skip ==> MeetsMinLevel(level, minLevel) && ip !in banned
    {
      skip := !MeetsMinLevel(level, minLevel);
      if !skip {
        skip := IsDuplicate(ip);
      }
    }

    /** Handles one event: it is skipped only for its level or as a duplicate of a successful
        ban; a failed add leaves no trace, so the next event tries again. */
    method Handle(ip: string, level: string)
      requires Valid()
      modifies this`banned, this`executed, this`skipped, this`errors, this`received, this`failedAdds
      modifies alias`content, alias`log, alias`addCalls, clock, window
      ensures Valid() && received == old(received) + 1 && old(alias.log) <= alias.log
      ensures skipped > old(skipped) ==> !MeetsMinLevel(level, minLevel) || EverBanned(alias.log, ip)
      ensures !MeetsMinLevel(level, minLevel) || ip in old(banned) ==> skipped > old(skipped)
      ensures executed > old(executed) ==> banned.Keys == old(banned).Keys + {ip} && alias.content == old(alias.content) + {ip}
      ensures executed == old(executed) ==>
        banned == old(banned) && window.marks == old(window.marks) && alias.content == old(alias.content)
      ensures alias.addCalls == old(alias.addCalls) + if skipped > old(skipped) then [] else [ip]
    {
      var skip := Skips(ip, level);
      received := received + 1;
      if skip {
        skipped := skipped + 1;
        return;
      }
      var ok := alias.AddEntry(ip, clock);
      if !ok {
        BooksLater(old(Records()), clock.t);
        errors, failedAdds := errors + 1, failedAdds + 1;
        return;
      }
      Enter(ip, old(Records()));
      executed := executed + 1;
    }

    /** Records and marks a ban that the firewall has just accepted. */
    method Enter(ip: string, ghost b: Books)
      requires ttl > 0 && InOrder(b) && b.now <= clock.t
      requires Records() == b.(log := b.log + [Added({ip}, clock.t)], now := clock.t)
      modifies this`banned, clock, window
      ensures InOrder(Records()) && banned.Keys == old(banned).Keys + {ip}
    {
      ghost var op := Added({ip}, clock.t);
      var addedAt, now := clock.Twice();
      BooksBan(b, op, banned[ip := BanRecord(ip, addedAt, now + ttl)], {ip}, now, clock.gap);
      banned := banned[ip := BanRecord(ip, addedAt, now + ttl)];
      window.MarkBatch({ip});
    }

    /** Deletes one expired address; on failure it stays for the next sweep. */
    method DeleteExpired(ip: string) returns (ok: bool)
      requires Valid() && ip in banned && banned[ip].expireAt <= clock.t
      modifies this`banned, this`errors, this`swept, this`failedDeletes
      modifies alias`content, alias`log, alias`failedDeletes, clock`t
      ensures Valid() && old(clock.t) <= clock.t && old(alias.log) <= alias.log
      ensures banned == if ok then old(banned) - {ip} else old(banned)
      ensures swept == old(swept) + if ok then 1 else 0
      ensures errors == old(errors) + if ok then 0 else 1
      ensures alias.failedDeletes == old(alias.failedDeletes) + if ok then 0 else 1
    {
      ok := alias.DeleteEntry(ip, clock);
      if !ok {
        BooksLater(old(Records()), clock.t);
        errors, failedDeletes := errors + 1, failedDeletes + 1;
        return;
      }
      BooksDelete(old(Records()), {ip}, clock.t);
      banned := banned - {ip};
      swept := swept + 1;
    }

    /** Deletes exactly the expired bans, except for those whose delete call failed; the pass is
        clean exactly when none did. */
    method Sweep() returns (ghost pass: Pass)
      requires Valid()
      modifies this`banned, this`errors, this`swept, this`failedDeletes, this`passes
      modifies alias`content, alias`log, alias`failedDeletes, clock`t
      ensures old(alias.log) <= alias.log && old(clock.t) <= clock.t
      ensures Valid() && passes == old(passes) + [pass] && old(clock.t) <= pass.at <= clock.t
      ensures pass.clean <==> alias.failedDeletes == old(alias.failedDeletes)
      ensures old(alias.failedDeletes) <= alias.failedDeletes
      ensures Leaves(banned, old(banned), pass)
    {
      var now := clock.Now();
      BooksLater(old(Records()), now);
      var expired := set ip | ip in banned && banned[ip].expireAt <= now;
      ghost var gone := DeleteAll(expired, now);
      SubsetSize(gone, expired);
      pass := Pass(now, gone == expired);
      assert pass.clean ==> NothingExpired(banned, now);
      BooksPass(Records(), pass);
      passes := passes + [pass];
    }

    /** A pass keeps every ban that has not expired, and if it was clean no other. */
    ghost predicate Leaves(banned: map<string, BanRecord>, before: map<string, BanRecord>, pass: Pass) {
      && (forall ip :: ip in banned ==> ip in before && banned[ip] == before[ip])
      && (forall ip :: ip in before && pass.at < before[ip].expireAt ==> ip in banned)
      && (pass.clean ==> NothingExpired(banned, pass.at))
    }

    /** One call per address; those whose call failed stay. */
    method DeleteAll(expired: set<string>, now: Time) returns (ghost gone: set<string>)
      requires Valid() && now <= clock.t
      requires forall ip :: ip in expired ==> ip in banned && banned[ip].expireAt <= now
      modifies this`banned, this`errors, this`swept, this`failedDeletes
      modifies alias`content, alias`log, alias`failedDeletes, clock`t
      ensures Valid() && old(clock.t) <= clock.t && old(alias.log) <= alias.log
      ensures gone <= expired && banned == old(banned) - gone
      ensures |gone| + alias.failedDeletes == |expired| + old(alias.failedDeletes)
    {
      var todo := expired;
      gone := {};
      while todo != {}
        invariant Valid() && old(clock.t) <= clock.t && old(alias.log) <= alias.log
        invariant todo <= expired && gone <= expired && todo !! gone
        invariant banned == old(banned) - gone
        invariant |gone| + alias.failedDeletes == |expired| - |todo| + old(alias.failedDeletes)
        decreases todo
      {
        var ip :| ip in todo;
        var ok := DeleteExpired(ip);
        if ok {
          MinusOneMore(old(banned), gone, ip);
          gone := gone + {ip};
        }
        todo := todo - {ip};
      }
    }

    /** What holds throughout a run that began with these add calls and failed deletions. */
    ghost predicate Running(inputs: seq<Input>, calls: nat, failed: nat)
      reads this, alias, clock, window
    {
      && Valid()
      && |passes| == SweepCount(inputs)
      && alias.failedDeletes >= failed
      && (alias.failedDeletes == failed ==> AllClean(passes))
      && calls <= |alias.addCalls|
      && Flows(Wanted(inputs, minLevel), {}, SetOf(alias.addCalls[calls..]), BannedIn(alias.log))
    }

    /** One turn of the loop: an event or a sweep tick. */
    method Step(input: Input, ghost inputs: seq<Input>, ghost calls: nat, ghost failed: nat)
      requires Running(inputs, calls, failed)
      modifies this`banned, this`executed, this`skipped, this`errors, this`swept
      modifies this`passes, this`received, this`failedAdds, this`failedDeletes, alias, clock, window
      ensures Running(inputs + [input], calls, failed)
      ensures received == old(received) + if input.Event? then 1 else 0
    {
      CountsGrow(inputs + [input], |inputs|);
      assert (inputs + [input])[..|inputs|] == inputs && (inputs + [input])[..|inputs| + 1] == inputs + [input];
      match input {
        case Event(ip, level) => Handle(ip, level);
        case SweepTick => var _ := Sweep();
        case FlushTick => // there is no buffer to flush
      }
      FlowsOn(inputs, input, old(alias.addCalls), alias.addCalls, calls, old(alias.log), alias.log);
    }

    /** What a turn adds to the flow of addresses: an event that counts is asked for or was banned
        before, and no other is asked for. */
    lemma FlowsOn(inputs: seq<Input>, input: Input, asked: seq<string>, asked': seq<string>, n: nat, log: seq<Op>, log': seq<Op>)
      requires n <= |asked| && log <= log'
      requires Flows(Wanted(inputs, minLevel), {}, SetOf(asked[n..]), BannedIn(log))
      requires asked' == asked || (input.Event? && asked' == asked + [input.ip])
      requires asked' != asked ==> Counts(input, minLevel)
      requires Counts(input, minLevel) && asked' == asked ==> EverBanned(log', input.ip)
      ensures Flows(Wanted(inputs + [input], minLevel), {}, SetOf(asked'[n..]), BannedIn(log'))
    {
      WantedGrows(inputs, input, minLevel);
      BannedInGrows(log, log');
      BannedInIff(log');
      if asked' != asked {
        assert asked'[n..] == asked[n..] + [input.ip];
        SetOfGrows(asked[n..], [input.ip]);
      }
    }

    /** Any run: startup sync, then events and sweeps in any order, every remote call free to
        fail. Its end is any point of a longer run, so the laws hold throughout. */
    method Run(inputs: seq<Input>)
      requires Valid() && banned == map[] && passes == []
      modifies this, alias, clock, window
      ensures Valid()
      ensures BoundedOverstay(banned, start, passes, clock.t, ttl + clock.gap)
      ensures |passes| == SweepCount(inputs)
      ensures alias.failedDeletes == old(alias.failedDeletes) ==> AllClean(passes)
      ensures synced ==> banned.Keys == alias.content
      ensures NoEarlyUnban(alias.log, ttl) && OnlyBannedDeleted(alias.log)
      ensures received == old(received) + EventCount(inputs) == skipped + executed + failedAdds
      ensures old(|alias.addCalls|) <= |alias.addCalls|
      ensures Flows(Wanted(inputs, minLevel), {}, SetOf(alias.addCalls[old(|alias.addCalls|)..]), BannedIn(alias.log))
    {
      SyncExisting();
      for i := 0 to |inputs|
        invariant Running(inputs[..i], old(|alias.addCalls|), old(alias.failedDeletes))
        invariant received == old(received) + EventCount(inputs[..i])
      {
        CountsGrow(inputs, i);
        Step(inputs[i], inputs[..i], old(|alias.addCalls|), old(alias.failedDeletes));
        assert inputs[..i] + [inputs[i]] == inputs[..i + 1];
      }
      assert inputs[..|inputs|] == inputs;
      BooksSay(Records());
    }
  }
}
