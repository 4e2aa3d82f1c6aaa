/** The MikroTik executor: buffered adds and TTL deletes against a RouterOS address list that
    other programs use too and that expires entries by itself. */
module Mikrotik {
  import opened Basics
  import opened Environment
  import opened Passes
  import RouterOsDuration

  datatype Entry = Entry(id: string, address: string, comment: string)

  /** An add request - the address, its RouterOS timeout, the owner's comment - and the id it was
      answered with, if it succeeded. */
  datatype AddCall = AddCall(address: string, timeout: string, comment: string, answer: Option<string>)

  /** The address list. Only what the calls report is known about it, because RouterOS and other
      users change it as well. */
  class RouterOs {
    /** Every add request, whether or not it succeeded. */
    ghost var addCalls: seq<AddCall>
    /** Every id ever passed to Delete, whether or not the call succeeded. */
    ghost var deleteCalls: set<string>
    /** The entries reported by successful listings. */
    ghost var listed: set<Entry>

    method Add(address: string, timeout: string, comment: string) returns (answer: Option<string>)
      modifies this`addCalls
      ensures addCalls == old(addCalls) + [AddCall(address, timeout, comment, answer)]
    {
      answer := *;
      addCalls := addCalls + [AddCall(address, timeout, comment, answer)];
    }

    method Delete(id: string) returns (ok: bool)
      modifies this`deleteCalls
      ensures deleteCalls == old(deleteCalls) + {id}
    {
      deleteCalls := deleteCalls + {id};
      ok := *;
    }

    method List() returns (ok: bool, entries: seq<Entry>)
      modifies this`listed
      ensures listed == old(listed) + if ok then set e | e in entries else {}
    {
      ok, entries := *, *;
      if ok {
        listed := listed + set e | e in entries;
      }
    }
  }

  datatype RouterBan = RouterBan(id: string, addedAt: Time)

  ghost function IdMap(banned: map<string, RouterBan>): map<string, string> {
    map ip | ip in banned :: banned[ip].id
  }

  // ----- what add calls do to the records -----

  /** The ids that the calls were answered with, and the addresses that were accepted. */
  ghost function Granted(calls: seq<AddCall>): set<string> {
    set k | 0 <= k < |calls| && calls[k].answer.Some? :: calls[k].answer.value
  }

  ghost function Accepted(calls: seq<AddCall>): set<string> {
    set k | 0 <= k < |calls| && calls[k].answer.Some? :: calls[k].address
  }

  function AnsweredCount(calls: seq<AddCall>): nat {
    if calls == [] then 0
    else AnsweredCount(calls[..|calls| - 1]) + if calls[|calls| - 1].answer.Some? then 1 else 0
  }

  /** The calls are one request per address, in order. */
  ghost predicate AskFor(calls: seq<AddCall>, ips: seq<string>, timeout: string, comment: string) {
    && |calls| == |ips|
    && forall k :: 0 <= k < |calls| ==>
         calls[k].address == ips[k] && calls[k].timeout == timeout && calls[k].comment == comment
  }

  lemma AskForMore(calls: seq<AddCall>, ips: seq<string>, i: nat, call: AddCall, timeout: string, comment: string)
    requires i < |ips| && AskFor(calls, ips[..i], timeout, comment)
    requires call.address == ips[i] && call.timeout == timeout && call.comment == comment
    ensures AskFor(calls + [call], ips[..i + 1], timeout, comment)
  {
  }

  /** The recorded id of every banned address after the calls: that of the last answer. */
  function IdsAfter(ids: map<string, string>, calls: seq<AddCall>): map<string, string> {
    if calls == [] then ids
    else
      var before, call := IdsAfter(ids, calls[..|calls| - 1]), calls[|calls| - 1];
      if call.answer.Some? then before[call.address := call.answer.value] else before
  }

  /** The last answered call for an address, or -1. */
  function LastAnswered(calls: seq<AddCall>, address: string): (k: int)
    ensures -1 <= k < |calls|
    ensures k >= 0 ==> calls[k].answer.Some? && calls[k].address == address
    ensures forall m :: k < m < |calls| ==> !(calls[m].answer.Some? && calls[m].address == address)
  {
    if calls == [] then -1
    else
      var n := |calls| - 1;
      if calls[n].answer.Some? && calls[n].address == address then n else LastAnswered(calls[..n], address)
  }

  lemma {:induction false} IdsAfterIsLast(ids: map<string, string>, calls: seq<AddCall>, address: string)
    ensures
      var k, after := LastAnswered(calls, address), IdsAfter(ids, calls);
      if k >= 0 then address in after && after[address] == calls[k].answer.value
      else (address in after <==> address in ids) && (address in ids ==> after[address] == ids[address])
  {
    if calls == [] {
    } else {
      IdsAfterIsLast(ids, calls[..|calls| - 1], address);
    }
  }

  /** Every id that the calls were answered with belongs to some record. */
  ghost predicate AllRecorded(ids: map<string, string>, calls: seq<AddCall>) {
    forall k :: 0 <= k < |calls| && calls[k].answer.Some? ==> calls[k].answer.value in ids.Values
  }

  /** No address was accepted twice. */
  ghost predicate AcceptedOnce(calls: seq<AddCall>) {
    forall j, k :: 0 <= j < k < |calls| && calls[j].answer.Some? && calls[k].answer.Some? ==>
      calls[j].address != calls[k].address
  }

  /** RouterOS gives every new entry an id of its own. */
  ghost predicate FreshIds(ids: map<string, string>, calls: seq<AddCall>) {
    && (forall j, k :: 0 <= j < k < |calls| && calls[j].answer.Some? && calls[k].answer.Some? ==>
          calls[j].answer != calls[k].answer)
    && (forall k :: 0 <= k < |calls| && calls[k].answer.Some? ==> calls[k].answer.value !in ids.Values)
  }

  lemma AcceptedOnceRecordsAll(ids: map<string, string>, calls: seq<AddCall>)
    requires AcceptedOnce(calls)
    ensures AllRecorded(IdsAfter(ids, calls), calls)
  {
    forall k | 0 <= k < |calls| && calls[k].answer.Some?
      ensures calls[k].answer.value in IdsAfter(ids, calls).Values
    {
      IdsAfterIsLast(ids, calls, calls[k].address);
      assert LastAnswered(calls, calls[k].address) == k;
      assert calls[k].address in IdsAfter(ids, calls);
    }
  }

  /** When an address is accepted twice, the first of the two ids is lost: no record has it. */
  lemma RepetitionLosesId(ids: map<string, string>, calls: seq<AddCall>, j: nat, k: nat)
    requires FreshIds(ids, calls) && j < k < |calls|
    requires calls[j].answer.Some? && calls[k].answer.Some? && calls[j].address == calls[k].address
    ensures calls[j].answer.value !in IdsAfter(ids, calls).Values
  {
    var after := IdsAfter(ids, calls);
    forall ip | ip in after ensures after[ip] != calls[j].answer.value {
      IdsAfterIsLast(ids, calls, ip);
      var m := LastAnswered(calls, ip);
      if m >= 0 {
        assert m != j;
      } else {
        assert ids[ip] in ids.Values;
      }
    }
  }

  /** So every granted entry stays under control if and only if no address was accepted twice. */
  lemma AllRecordedIff(ids: map<string, string>, calls: seq<AddCall>)
    requires FreshIds(ids, calls)
    ensures AllRecorded(IdsAfter(ids, calls), calls) <==> AcceptedOnce(calls)
  {
    if AcceptedOnce(calls) {
      AcceptedOnceRecordsAll(ids, calls);
    } else {
      var j, k :| 0 <= j < k < |calls| && calls[j].answer.Some? && calls[k].answer.Some? && calls[j].address == calls[k].address;
      RepetitionLosesId(ids, calls, j, k);
    }
  }

  ghost predicate NoRepetition(ips: seq<string>) {
    forall i, j :: 0 <= i < j < |ips| ==> ips[i] != ips[j]
  }

  /** The addresses of a buffer that are not banned yet, in order, with repetitions. */
  function Unbanned(ips: seq<string>, banned: set<string>): seq<string> {
    if ips == [] then []
    else Unbanned(ips[..|ips| - 1], banned) + if ips[|ips| - 1] in banned then [] else [ips[|ips| - 1]]
  }

  /** Every granted id is recorded if no address was asked for twice; and, ids being fresh, exactly
      if none was accepted twice. */
  lemma RecordsAfterFlush(ids: map<string, string>, calls: seq<AddCall>, ips: seq<string>, timeout: string, comment: string)
    requires AskFor(calls, ips, timeout, comment)
    ensures NoRepetition(ips) ==> AllRecorded(IdsAfter(ids, calls), calls)
    ensures FreshIds(ids, calls) ==> (AllRecorded(IdsAfter(ids, calls), calls) <==> AcceptedOnce(calls))
  {
    if NoRepetition(ips) {
      AcceptedOnceRecordsAll(ids, calls);
    }
    if FreshIds(ids, calls) {
      AllRecordedIff(ids, calls);
    }
  }

  // ----- time and flow -----

  /** The records with an id that are not younger than the last clean pass were not older than the
      TTL then (unless the TTL is 0, which means for ever). */
  ghost predicate Timely(banned: map<string, RouterBan>, lastClean: Time, now: Time, ttl: int) {
    && lastClean <= now
    && forall ip :: ip in banned ==>
         && banned[ip].addedAt <= now
         && (ttl != 0 && banned[ip].id != "" ==> banned[ip].addedAt >= lastClean || lastClean - banned[ip].addedAt <= ttl)
  }

  /** The records of these addresses were made between two times; the others are as before. */
  ghost predicate Restamped(before: map<string, RouterBan>, after: map<string, RouterBan>, added: set<string>, t: Time, t': Time) {
    forall ip :: ip in after ==>
      if ip in added then t <= after[ip].addedAt <= t' else ip in before && after[ip] == before[ip]
  }

  lemma RestampedMore(before: map<string, RouterBan>, mid: map<string, RouterBan>, after: map<string, RouterBan>,
                      added: set<string>, ip: string, t: Time, t': Time, t'': Time, ok: bool)
    requires Restamped(before, mid, added, t, t') && t <= t' <= t''
    requires if ok then ip in after && t' <= after[ip].addedAt <= t'' && after == mid[ip := after[ip]] else after == mid
    ensures Restamped(before, after, if ok then added + {ip} else added, t, t'')
  {
  }

  lemma RestampedTimely(before: map<string, RouterBan>, after: map<string, RouterBan>, added: set<string>,
                        lastClean: Time, t: Time, t': Time, ttl: int)
    requires Timely(before, lastClean, t, ttl) && Restamped(before, after, added, t, t') && t <= t'
    ensures Timely(after, lastClean, t', ttl)
  {
  }

  /** If every pass was clean and they were at most `interval` apart, no record with an id is older
      than the TTL plus that interval. */
  ghost predicate BoundedOverstay(banned: map<string, RouterBan>, start: Time, passes: seq<Pass>, now: Time, ttl: int) {
    forall interval :: AllClean(passes) && Regular(start, passes, now, interval) ==> NoneOlder(banned, now, ttl, interval)
  }

  ghost predicate NoneOlder(banned: map<string, RouterBan>, now: Time, ttl: int, interval: int) {
    forall ip :: ip in banned && ttl != 0 && banned[ip].id != "" ==>
      now - banned[ip].addedAt <= interval + if ttl > 0 then ttl else 0
  }

  lemma TimelySays(banned: map<string, RouterBan>, start: Time, passes: seq<Pass>, now: Time, ttl: int)
    requires Timely(banned, LastClean(start, passes), now, ttl)
    ensures BoundedOverstay(banned, start, passes, now, ttl)
  {
    forall interval | AllClean(passes) && Regular(start, passes, now, interval) ensures NoneOlder(banned, now, ttl, interval) {
      CleanIsRecent(start, passes, now, interval);
    }
  }

  /** The addresses that calls asked for. */
  ghost function AddressesOf(calls: seq<AddCall>): set<string> {
    set k | 0 <= k < |calls| :: calls[k].address
  }

  lemma AddressesConcat(a: seq<AddCall>, b: seq<AddCall>)
    ensures AddressesOf(a + b) == AddressesOf(a) + AddressesOf(b)
  {
    var c := a + b;
    assert forall k :: 0 <= k < |a| ==> c[k] == a[k];
    assert forall k :: 0 <= k < |b| ==> c[|a| + k] == b[k];
  }

  lemma {:induction false} UnbannedSet(ips: seq<string>, banned: set<string>)
    ensures SetOf(Unbanned(ips, banned)) == SetOf(ips) - banned
  {
    if ips == [] {
    } else {
      var n := |ips| - 1;
      UnbannedSet(ips[..n], banned);
      SetOfGrows(ips[..n], [ips[n]]);
      assert ips == ips[..n] + [ips[n]];
      SetOfGrows(Unbanned(ips[..n], banned), [ips[n]]);
      assert Unbanned(ips, banned) ==
        if ips[n] in banned then Unbanned(ips[..n], banned) else Unbanned(ips[..n], banned) + [ips[n]];
    }
  }

  lemma AskedAddresses(calls: seq<AddCall>, ips: seq<string>, timeout: string, comment: string)
    requires AskFor(calls, ips, timeout, comment)
    ensures AddressesOf(calls) == SetOf(ips)
  {
    forall ip | ip in ips ensures ip in AddressesOf(calls) {
      var k :| 0 <= k < |ips| && ips[k] == ip;
      assert calls[k].address == ip;
    }
  }

  // ----- ownership -----

  /** The ids this sentinel may delete: its own adds, and listed entries with its comment. */
  ghost function Owned(calls: seq<AddCall>, listed: set<Entry>, comment: string): set<string> {
    Granted(calls) + set e | e in listed && e.comment == comment :: e.id
  }

  /** The addresses a successful add or the startup sync has put on the list. */
  ghost function Known(calls: seq<AddCall>, listed: set<Entry>, comment: string): set<string> {
    Accepted(calls) + set e | e in listed && e.comment == comment :: e.address
  }

  lemma KnownGrows(before: seq<AddCall>, calls: seq<AddCall>, listed: set<Entry>, comment: string)
    ensures Known(before, listed, comment) <= Known(before + calls, listed, comment)
  {
    GrantedConcat(before, calls);
  }

  /** Every add request carries this comment and this timeout. */
  ghost predicate Stamped(calls: seq<AddCall>, timeout: string, comment: string) {
    forall k :: 0 <= k < |calls| ==> calls[k].comment == comment && calls[k].timeout == timeout
  }

  /** What the ownership law speaks of: the id of every banned address, the marked addresses, the
      calls so far, the listed entries, and this sentinel's timeout and comment. */
  datatype Dealings = Dealings(ids: map<string, string>, marks: set<string>, addCalls: seq<AddCall>,
                               deleteCalls: set<string>, listed: set<Entry>, timeout: string, comment: string)

  ghost predicate Owns(d: Dealings) {
    && d.deleteCalls <= Owned(d.addCalls, d.listed, d.comment)
    && d.ids.Values <= Owned(d.addCalls, d.listed, d.comment)
    && d.ids.Keys + d.marks <= Known(d.addCalls, d.listed, d.comment)
    && Stamped(d.addCalls, d.timeout, d.comment)
  }

  /** Marks the dealings that a proof looks at. */
  ghost predicate Look(d: Dealings) {
    true
  }

  /** The ownership law, unfolded only where a proof looks at it. */
  ghost predicate Ownership(d: Dealings) {
    forall e {:trigger Look(e)} :: Look(e) && e == d ==> Owns(e)
  }

  lemma GrantedConcat(a: seq<AddCall>, b: seq<AddCall>)
    ensures Granted(a + b) == Granted(a) + Granted(b)
    ensures Accepted(a + b) == Accepted(a) + Accepted(b)
  {
    var c := a + b;
    assert forall k :: 0 <= k < |a| ==> c[k] == a[k];
    assert forall k :: 0 <= k < |b| ==> c[|a| + k] == b[k];
  }

  lemma GrantedOne(call: AddCall)
    ensures Granted([call]) == if call.answer.Some? then {call.answer.value} else {}
    ensures Accepted([call]) == if call.answer.Some? then {call.address} else {}
  {
    var one := [call];
    assert forall k :: 0 <= k < |one| ==> one[k] == call;
    if call.answer.Some? {
      assert one[0].answer.value in Granted(one) && one[0].address in Accepted(one);
    }
  }

  lemma {:induction false} IdsAfterFrom(ids: map<string, string>, calls: seq<AddCall>)
    ensures IdsAfter(ids, calls).Keys == ids.Keys + Accepted(calls)
    ensures IdsAfter(ids, calls).Values <= ids.Values + Granted(calls)
  {
    if calls == [] {
    } else {
      var n := |calls| - 1;
      IdsAfterFrom(ids, calls[..n]);
      GrantedOne(calls[n]);
      GrantedConcat(calls[..n], [calls[n]]);
      assert calls[..n] + [calls[n]] == calls;
      var before := IdsAfter(ids, calls[..n]);
      forall id | id in IdsAfter(ids, calls).Values ensures id in before.Values || Some(id) == calls[n].answer {
      }
    }
  }

  /** Adds recorded and marked as they were answered keep the law. */
  lemma OwnershipAdds(d: Dealings, calls: seq<AddCall>)
    requires Ownership(d) && Stamped(calls, d.timeout, d.comment)
    ensures Ownership(d.(ids := IdsAfter(d.ids, calls), marks := d.marks + Accepted(calls), addCalls := d.addCalls + calls))
  {
    assert Look(d);
    GrantedConcat(d.addCalls, calls);
    IdsAfterFrom(d.ids, calls);
    assert Owns(d.(ids := IdsAfter(d.ids, calls), marks := d.marks + Accepted(calls), addCalls := d.addCalls + calls));
  }

  /** Deleting a recorded id keeps it, */
  lemma OwnershipDeletes(d: Dealings, id: string)
    requires Ownership(d) && id in d.ids.Values
    ensures Ownership(d.(deleteCalls := d.deleteCalls + {id}))
  {
    assert Look(d);
  }

  /** forgetting records keeps it, */
  lemma OwnershipForgets(d: Dealings, gone: set<string>)
    requires Ownership(d)
    ensures Ownership(d.(ids := d.ids - gone))
  {
    assert Look(d);
    assert (d.ids - gone).Values <= d.ids.Values;
    assert Owns(d.(ids := d.ids - gone));
  }

  /** so does a listing, */
  lemma OwnershipLists(d: Dealings, listed: set<Entry>)
    requires Ownership(d) && d.listed <= listed
    ensures Ownership(d.(listed := listed))
  {
    assert Look(d);
    assert Owns(d.(listed := listed));
  }

  /** and taking over a listed entry with the own comment. */
  lemma OwnershipTakes(d: Dealings, e: Entry)
    requires Ownership(d) && e in d.listed && e.comment == d.comment
    ensures Ownership(d.(ids := d.ids[e.address := e.id]))
  {
    assert Look(d);
    assert d.ids[e.address := e.id].Values <= d.ids.Values + {e.id};
    assert Owns(d.(ids := d.ids[e.address := e.id]));
  }

  const SENTINEL_PREFIX := "sentinel-"

  class MikroTikExecutor {
    const ttl: int
    const minLevel: string
    const batchSize: int
    const comment: string
    const client: RouterOs
    const clock: Clock
    const window: Window
    var banned: map<string, RouterBan>
    var buffer: seq<string>
    var executed: nat
    var skipped: nat
    var errors: nat
    var swept: nat

    ghost var received: nat
    ghost var failedAdds: nat
    ghost var failedDeletes: nat
    /** When the executor was made, and every sweep since. */
    ghost const start: Time
    ghost var passes: seq<Pass>

    constructor (ttl: int, minLevel: string, batchSize: int, sentinelId: string,
                 client: RouterOs, clock: Clock, window: Window)
      requires client.deleteCalls == {} && client.addCalls == [] && window.marks == {}
      ensures Valid() && banned == map[] && buffer == [] && received == 0 && passes == [] && start == clock.t
      ensures this.client == client && this.clock == clock && this.window == window
      ensures this.ttl == ttl && comment == SENTINEL_PREFIX + sentinelId
    {
      this.ttl, this.minLevel, this.batchSize := ttl, minLevel, batchSize;
      this.comment := SENTINEL_PREFIX + sentinelId;
      this.client, this.clock, this.window := client, clock, window;
      banned, buffer := map[], [];
      executed, skipped, errors, swept := 0, 0, 0, 0;
      received, failedAdds, failedDeletes, start, passes := 0, 0, 0, clock.t, [];
    }

    /** The timeout of every add: the whole seconds of the TTL in RouterOS notation. */
    ghost function Timeout(): string {
      RouterOsDuration.Printed(RouterOsDuration.Quot(ttl, NANOS_PER_SECOND))
    }

    ghost function Ids(): map<string, string>
      reads this`banned
    {
      IdMap(banned)
    }

    ghost function Record(): Dealings
      reads this`banned, client, window`marks
    {
      Dealings(Ids(), window.marks, client.addCalls, client.deleteCalls, client.listed, Timeout(), comment)
    }

    /** Every event received is accounted for exactly once, every add call is one of them, and every
        failed call is an error. */
    ghost predicate Conservation(inFlight: nat)
      reads this`received, this`skipped, this`executed, this`failedAdds, this`errors, this`failedDeletes, client`addCalls
    {
      && received == skipped + executed + failedAdds + inFlight
      && |client.addCalls| == executed + failedAdds
      && errors == failedAdds + failedDeletes
    }

    ghost predicate Valid()
      reads this, client, window, clock
    {
      Ownership(Record()) && Conservation(|buffer|) && Punctual()
    }

    ghost predicate Punctual()
      reads this`banned, this`passes, clock
    {
      Timely(banned, LastClean(start, passes), clock.t, ttl)
    }

    /** Loads the listed entries that carry exactly this sentinel's comment: all of them, and no
        others. */
    method SyncExisting()
      requires Valid() && banned == map[]
      modifies this`banned, client`listed, clock`t
      ensures Valid() && old(client.listed) <= client.listed
      ensures forall e :: e in client.listed - old(client.listed) && e.comment == comment ==> e.address in banned
      ensures forall ip :: ip in banned ==> Entry(banned[ip].id, ip, comment) in client.listed
      ensures forall ip :: ip in banned ==> old(clock.t) <= banned[ip].addedAt <= clock.t
    {
      var ok, entries := client.List();
      OwnershipLists(old(Record()), client.listed);
      if ok {
        TakeOver(entries);
      }
    }

    method TakeOver(entries: seq<Entry>)
      requires Valid() && banned == map[] && forall e :: e in entries ==> e in client.listed
      modifies this`banned, clock`t
      ensures Valid()
      ensures forall e :: e in entries && e.comment == comment ==> e.address in banned
      ensures forall ip :: ip in banned ==> Entry(banned[ip].id, ip, comment) in client.listed
      ensures forall ip :: ip in banned ==> old(clock.t) <= banned[ip].addedAt <= clock.t
    {
      for i := 0 to |entries|
        invariant Ownership(Record()) && old(clock.t) <= clock.t
        invariant forall ip :: ip in banned ==> old(clock.t) <= banned[ip].addedAt <= clock.t
        invariant forall k :: 0 <= k < i && entries[k].comment == comment ==> entries[k].address in banned
        invariant forall ip :: ip in banned ==> Entry(banned[ip].id, ip, comment) in client.listed
      {
        if entries[i].comment != comment {
          continue;
        }
        var now := clock.Now();
        OwnershipTakes(Record(), entries[i]);
        ghost var ids := Ids();
        banned := banned[entries[i].address := RouterBan(entries[i].id, now)];
        assert Ids() == ids[entries[i].address := entries[i].id];
      }
    }

    /** A duplicate is an address that a successful add or the sync put on the list. */
    method IsDuplicate(ip: string) returns (duplicate: bool)
      requires Valid()
      ensures duplicate ==> ip in Known(client.addCalls, client.listed, comment)
      ensures ip in banned ==> duplicate
    {
      assert Look(Record());
      assert Ids().Keys == banned.Keys;
      duplicate := window.Contains(ip);
      if !duplicate {
        duplicate := ip in banned;
      }
    }

    method Accept(ip: string, level: string) returns (taken: bool)
      requires Valid()
      modifies this`received, this`skipped, this`buffer
      ensures Valid() && received == old(received) + 1
      ensures skipped == old(skipped) + if taken then 0 else 1
      ensures buffer == if taken then old(buffer) + [ip] else old(buffer)
      ensures !taken ==> !MeetsMinLevel(level, minLevel) || ip in Known(client.addCalls, client.listed, comment)
      ensures taken ==> MeetsMinLevel(level, minLevel) && ip !in banned
    {
      taken := MeetsMinLevel(level, minLevel);
      if taken {
        var duplicate := IsDuplicate(ip);
        taken := !duplicate;
      }
      received := received + 1;
      if taken {
        buffer := buffer + [ip];
      } else {
        skipped := skipped + 1;
      }
    }

    /** Sends the buffered addresses: each is skipped (already banned), added, or failed. The records
        follow the answers. A failed add marks nothing, so the next event tries again. Every granted
        id is recorded if no address is waiting twice; if ids are fresh, exactly if no address was
        accepted twice. */
    method Flush() returns (ghost calls: seq<AddCall>)
      requires Valid()
      modifies this`banned, this`buffer, this`executed, this`skipped, this`errors, this`failedAdds
      modifies client`addCalls, clock`t, window
      ensures Valid() && buffer == []
      ensures client.addCalls == old(client.addCalls) + calls
      ensures AskFor(calls, Unbanned(old(buffer), old(banned).Keys), Timeout(), comment)
      ensures Ids() == IdsAfter(old(Ids()), calls) && window.marks == old(window.marks) + Accepted(calls)
      ensures executed == old(executed) + AnsweredCount(calls)
      ensures old(clock.t) <= clock.t && Restamped(old(banned), banned, Accepted(calls), old(clock.t), clock.t)
      ensures NoRepetition(Unbanned(old(buffer), old(banned).Keys)) ==> AllRecorded(Ids(), calls)
      ensures FreshIds(old(Ids()), calls) ==> (AllRecorded(Ids(), calls) <==> AcceptedOnce(calls))
    {
      if |buffer| == 0 {
        calls := [];
        assert client.addCalls == client.addCalls + [];
        return;
      }
      calls := Send();
      RecordsAfterFlush(old(Ids()), calls, Unbanned(old(buffer), old(banned).Keys), Timeout(), comment);
    }

    method Send() returns (ghost calls: seq<AddCall>)
      requires Valid()
      modifies this`banned, this`buffer, this`executed, this`skipped, this`errors, this`failedAdds
      modifies client`addCalls, clock`t, window
      ensures Valid() && buffer == []
      ensures client.addCalls == old(client.addCalls) + calls
      ensures AskFor(calls, Unbanned(old(buffer), old(banned).Keys), Timeout(), comment)
      ensures Ids() == IdsAfter(old(Ids()), calls) && window.marks == old(window.marks) + Accepted(calls)
      ensures executed == old(executed) + AnsweredCount(calls)
      ensures old(clock.t) <= clock.t && Restamped(old(banned), banned, Accepted(calls), old(clock.t), clock.t)
    {
      var timeout := RouterOsDuration.DurationToRouterOS(ttl);
      var unique := SkipBanned();
      calls := AddOwned(unique, timeout);
      buffer := [];
    }

    method AddOwned(unique: seq<string>, timeout: string) returns (ghost calls: seq<AddCall>)
      requires Ownership(Record()) && Conservation(|unique|) && Punctual() && timeout == Timeout()
      modifies this`banned, this`executed, this`errors, this`failedAdds, client`addCalls, clock`t, window
      ensures Ownership(Record()) && Conservation(0) && Punctual()
      ensures client.addCalls == old(client.addCalls) + calls && AskFor(calls, unique, timeout, comment)
      ensures Ids() == IdsAfter(old(Ids()), calls) && window.marks == old(window.marks) + Accepted(calls)
      ensures executed == old(executed) + AnsweredCount(calls)
      ensures old(clock.t) <= clock.t && Restamped(old(banned), banned, Accepted(calls), old(clock.t), clock.t)
    {
      calls := AddAll(unique, timeout);
      OwnershipAdds(old(Record()), calls);
      RestampedTimely(old(banned), banned, Accepted(calls), LastClean(start, passes), old(clock.t), clock.t, ttl);
    }

    method SkipBanned() returns (unique: seq<string>)
      modifies this`skipped
      ensures unique == Unbanned(buffer, banned.Keys)
      ensures skipped - old(skipped) + |unique| == |buffer|
    {
      unique := [];
      for i := 0 to |buffer|
        invariant skipped - old(skipped) + |unique| == i
        invariant unique == Unbanned(buffer[..i], banned.Keys)
      {
        assert buffer[..i + 1][..i] == buffer[..i];
        if buffer[i] in banned {
          skipped := skipped + 1;
          continue;
        }
        unique := unique + [buffer[i]];
      }
      assert buffer[..|buffer|] == buffer;
    }

    /** One request per address; the accepted ones are recorded and marked. */
    method AddAll(unique: seq<string>, timeout: string) returns (ghost calls: seq<AddCall>)
      modifies this`banned, this`executed, this`errors, this`failedAdds, client`addCalls, clock`t, window
      ensures client.addCalls == old(client.addCalls) + calls && AskFor(calls, unique, timeout, comment)
      ensures Ids() == IdsAfter(old(Ids()), calls) && window.marks == old(window.marks) + Accepted(calls)
      ensures Stamped(calls, timeout, comment)
      ensures executed == old(executed) + AnsweredCount(calls)
      ensures old(clock.t) <= clock.t && Restamped(old(banned), banned, Accepted(calls), old(clock.t), clock.t)
      ensures failedAdds == old(failedAdds) + |calls| - AnsweredCount(calls)
      ensures errors == old(errors) + |calls| - AnsweredCount(calls)
    {
      var addedIPs;
      addedIPs, calls := AddEach(unique, timeout);
      if addedIPs != {} {
        window.MarkBatch(addedIPs);
      }
    }

    method AddEach(unique: seq<string>, timeout: string) returns (addedIPs: set<string>, ghost calls: seq<AddCall>)
      modifies this`banned, this`executed, this`errors, this`failedAdds, client`addCalls, clock`t
      ensures client.addCalls == old(client.addCalls) + calls && AskFor(calls, unique, timeout, comment)
      ensures Added(calls, addedIPs, old(banned), old(clock.t))
      ensures executed == old(executed) + AnsweredCount(calls)
      ensures failedAdds - old(failedAdds) == errors - old(errors) == |calls| - AnsweredCount(calls)
    {
      addedIPs, calls := {}, [];
      for i := 0 to |unique|
        invariant client.addCalls == old(client.addCalls) + calls
        invariant AskFor(calls, unique[..i], timeout, comment)
        invariant Added(calls, addedIPs, old(banned), old(clock.t))
        invariant executed == old(executed) + AnsweredCount(calls)
        invariant failedAdds - old(failedAdds) == errors - old(errors) == |calls| - AnsweredCount(calls)
      {
        ghost var call;
        addedIPs, call := AddNext(unique[i], timeout, addedIPs, calls, old(banned), old(clock.t));
        AskForMore(calls, unique, i, call, timeout, comment);
        calls := calls + [call];
      }
      assert unique[..|unique|] == unique;
    }

    /** The records are those of `before` after these calls, made since `t`. */
    ghost predicate Added(calls: seq<AddCall>, addedIPs: set<string>, before: map<string, RouterBan>, t: Time)
      reads this`banned, clock`t
    {
      && Ids() == IdsAfter(IdMap(before), calls) && addedIPs == Accepted(calls)
      && t <= clock.t && Restamped(before, banned, addedIPs, t, clock.t)
    }

    method AddNext(ip: string, timeout: string, addedIPs: set<string>, ghost calls: seq<AddCall>,
                   ghost before: map<string, RouterBan>, ghost t: Time)
      returns (addedIPs': set<string>, ghost call: AddCall)
      requires Added(calls, addedIPs, before, t)
      modifies this`banned, this`executed, this`errors, this`failedAdds, client`addCalls, clock`t
      ensures Added(calls + [call], addedIPs', before, t)
      ensures call.address == ip && call.timeout == timeout && call.comment == comment
      ensures client.addCalls == old(client.addCalls) + [call]
      ensures executed - old(executed) == AnsweredCount(calls + [call]) - AnsweredCount(calls)
      ensures failedAdds - old(failedAdds) == errors - old(errors) == 1 - (executed - old(executed))
    {
      var ok;
      ok, call := AddOne(ip, timeout);
      RestampedMore(before, old(banned), banned, addedIPs, ip, t, old(clock.t), clock.t, ok);
      CallsGrow(IdMap(before), calls, call);
      addedIPs' := if ok then addedIPs + {ip} else addedIPs;
    }

    /** What one more call adds. */
    lemma CallsGrow(ids: map<string, string>, calls: seq<AddCall>, call: AddCall)
      ensures AnsweredCount(calls + [call]) == AnsweredCount(calls) + if call.answer.Some? then 1 else 0
      ensures Accepted(calls + [call]) == Accepted(calls) + if call.answer.Some? then {call.address} else {}
      ensures
        var after := IdsAfter(ids, calls);
        IdsAfter(ids, calls + [call]) == if call.answer.Some? then after[call.address := call.answer.value] else after
    {
      assert (calls + [call])[..|calls|] == calls;
      GrantedConcat(calls, [call]);
      GrantedOne(call);
    }

    /** One add; on success the address is banned under the returned id. */
    method AddOne(ip: string, timeout: string) returns (ok: bool, ghost call: AddCall)
      modifies this`banned, this`executed, this`errors, this`failedAdds, client`addCalls, clock`t
      ensures client.addCalls == old(client.addCalls) + [call] && ok == call.answer.Some?
      ensures call.address == ip && call.timeout == timeout && call.comment == comment
      ensures executed == old(executed) + if ok then 1 else 0
      ensures failedAdds - old(failedAdds) == errors - old(errors) == if ok then 0 else 1
      ensures Ids() == if ok then old(Ids())[ip := call.answer.value] else old(Ids())
      ensures old(clock.t) <= clock.t
      ensures banned == if ok then old(banned)[ip := RouterBan(call.answer.value, clock.t)] else old(banned)
    {
      var answer := client.Add(ip, timeout, comment);
      ok, call := answer.Some?, AddCall(ip, timeout, comment, answer);
      if !ok {
        errors, failedAdds := errors + 1, failedAdds + 1;
        return;
      }
      var now := clock.Now();
      banned := banned[ip := RouterBan(answer.value, now)];
      executed := executed + 1;
    }

    function ExpiredAt(banned: map<string, RouterBan>, now: Time): set<string> {
      set ip | ip in banned && ttl != 0 && banned[ip].id != "" && now - banned[ip].addedAt > ttl
    }

    ghost function IdsOf(banned: map<string, RouterBan>, ips: set<string>): set<string>
      requires ips <= banned.Keys
    {
      set ip | ip in ips :: banned[ip].id
    }

    /** Asks for the deletion of the bans older than the TTL (none if the TTL is 0); those whose
        delete call failed stay for the next sweep. The pass is clean exactly when none failed. */
    method Sweep() returns (ghost gone: set<string>)
      requires Valid()
      modifies this`banned, this`errors, this`swept, this`failedDeletes, this`passes, client`deleteCalls, clock`t
      ensures Valid() && old(clock.t) <= clock.t
      ensures passes == old(passes) + [Pass(clock.t, failedDeletes == old(failedDeletes))]
      ensures client.deleteCalls == old(client.deleteCalls) + IdsOf(old(banned), ExpiredAt(old(banned), clock.t))
      ensures gone <= ExpiredAt(old(banned), clock.t) && banned == old(banned) - gone
      ensures forall ip :: ip in gone ==> ttl != 0 && clock.t - old(banned)[ip].addedAt > ttl
      ensures swept == old(swept) + |gone|
      ensures |gone| + failedDeletes - old(failedDeletes) == |ExpiredAt(old(banned), clock.t)|
    {
      var now := clock.Now();
      var expired := ExpiredAt(banned, now);
      gone := Purge(expired);
      ghost var pass := Pass(now, failedDeletes == old(failedDeletes));
      TimelySweep(old(banned), gone, old(LastClean(start, passes)), old(clock.t), pass);
      LastCleanGrows(start, passes, pass);
      passes := passes + [pass];
    }

    /** Deletes these addresses, except for those whose delete call fails. */
    method Purge(expired: set<string>) returns (ghost gone: set<string>)
      requires Ownership(Record()) && Conservation(|buffer|) && expired <= banned.Keys
      modifies this`banned, this`errors, this`swept, this`failedDeletes, client`deleteCalls
      ensures Ownership(Record()) && Conservation(|buffer|)
      ensures client.deleteCalls == old(client.deleteCalls) + IdsOf(old(banned), expired)
      ensures gone <= expired && banned == old(banned) - gone && swept == old(swept) + |gone|
      ensures |gone| + failedDeletes - old(failedDeletes) == |expired|
    {
      var successful := DeleteEach(expired);
      OwnershipForgets(Record(), successful);
      ghost var ids := Ids();
      banned := banned - successful;
      swept := swept + |successful|;
      assert Ids() == ids - successful;
      gone := successful;
    }

    lemma TimelySweep(before: map<string, RouterBan>, gone: set<string>, last: Time, t: Time, pass: Pass)
      requires Timely(before, last, t, ttl) && t <= pass.at && gone <= ExpiredAt(before, pass.at)
      requires pass.clean <==> |gone| == |ExpiredAt(before, pass.at)|
      ensures Timely(before - gone, if pass.clean then pass.at else last, pass.at, ttl)
    {
      SubsetSize(gone, ExpiredAt(before, pass.at));
    }

    method DeleteEach(expired: set<string>) returns (successful: set<string>)
      requires Ownership(Record()) && Conservation(|buffer|) && expired <= banned.Keys
      modifies this`errors, this`failedDeletes, client`deleteCalls
      ensures Ownership(Record()) && Conservation(|buffer|) && successful <= expired
      ensures client.deleteCalls == old(client.deleteCalls) + IdsOf(banned, expired)
      ensures |successful| + failedDeletes - old(failedDeletes) == |expired|
    {
      var todo := expired;
      successful := {};
      while todo != {}
        invariant Ownership(Record()) && errors - old(errors) == failedDeletes - old(failedDeletes)
        invariant todo <= expired && successful <= expired && todo !! successful
        invariant client.deleteCalls == old(client.deleteCalls) + IdsOf(banned, expired - todo)
        invariant |successful| + failedDeletes - old(failedDeletes) == |expired| - |todo|
        decreases todo
      {
        var ip :| ip in todo;
        var ok := DeleteOne(ip);
        IdsOfMore(banned, expired - todo, ip);
        assert expired - (todo - {ip}) == expired - todo + {ip};
        todo := todo - {ip};
        if ok {
          successful := successful + {ip};
        }
      }
    }

    lemma IdsOfMore(banned: map<string, RouterBan>, ips: set<string>, ip: string)
      requires ips <= banned.Keys && ip in banned
      ensures IdsOf(banned, ips + {ip}) == IdsOf(banned, ips) + {banned[ip].id}
    {
    }

    method DeleteOne(ip: string) returns (ok: bool)
      requires Ownership(Record()) && ip in banned
      modifies this`errors, this`failedDeletes, client`deleteCalls
      ensures Ownership(Record()) && errors - old(errors) == failedDeletes - old(failedDeletes)
      ensures client.deleteCalls == old(client.deleteCalls) + {banned[ip].id}
      ensures failedDeletes == old(failedDeletes) + if ok then 0 else 1
    {
      assert Ids()[ip] in Ids().Values;
      OwnershipDeletes(Record(), banned[ip].id);
      ok := client.Delete(banned[ip].id);
      if !ok {
        errors, failedDeletes := errors + 1, failedDeletes + 1;
      }
    }

    /** An id that no record had and that was not granted since is in no record and has not been
        passed to Delete since. */
    ghost predicate StaysLost(ids: map<string, string>, calls: seq<AddCall>, deleted: set<string>)
      reads this`banned, client
      requires calls <= client.addCalls
    {
      forall id :: id !in ids.Values && id !in Granted(client.addCalls[|calls|..]) ==>
        id !in Ids().Values && (id in client.deleteCalls ==> id in deleted)
    }

    /** With these addresses wanted since there were `n` add calls, none is lost and none made up. */
    ghost predicate Running(wanted: set<string>, n: nat)
      reads this, client, window, clock
    {
      && Valid() && n <= |client.addCalls|
      && Flows(wanted, SetOf(buffer), AddressesOf(client.addCalls[n..]), Known(client.addCalls, client.listed, comment))
    }

    method Take(ip: string, level: string, ghost wanted: set<string>, ghost n: nat)
      requires Running(wanted, n)
      modifies this`received, this`skipped, this`buffer
      ensures Running(wanted + (if MeetsMinLevel(level, minLevel) then {ip} else {}), n)
      ensures received == old(received) + 1 && (buffer == old(buffer) || buffer == old(buffer) + [ip])
    {
      SetOfGrows(buffer, [ip]);
      var taken := Accept(ip, level);
      assert !taken && MeetsMinLevel(level, minLevel) ==> ip in Known(client.addCalls, client.listed, comment);
    }

    method FlushBuffer(ghost wanted: set<string>, ghost n: nat) returns (ghost calls: seq<AddCall>)
      requires Running(wanted, n)
      modifies this`banned, this`buffer, this`executed, this`skipped, this`errors, this`failedAdds
      modifies client`addCalls, clock`t, window
      ensures Running(wanted, n) && buffer == []
      ensures client.addCalls == old(client.addCalls) + calls && Ids() == IdsAfter(old(Ids()), calls)
    {
      BannedAreKnown();
      assert {} + SetOf(buffer) == SetOf(buffer);
      calls := Flush();
      FlowsOver(wanted, old(buffer), old(banned).Keys, old(client.addCalls), calls, n);
      assert SetOf(buffer) == {};
    }

    lemma BannedAreKnown()
      requires Ownership(Record())
      ensures banned.Keys <= Known(client.addCalls, client.listed, comment)
    {
      assert Look(Record());
      assert Ids().Keys == banned.Keys;
    }

    lemma FlowsOver(wanted: set<string>, queue: seq<string>, keys: set<string>, before: seq<AddCall>, calls: seq<AddCall>, n: nat)
      requires n <= |before| && keys <= Known(before, client.listed, comment)
      requires Flows(wanted, {} + SetOf(queue), AddressesOf(before[n..]), Known(before, client.listed, comment))
      requires AskFor(calls, Unbanned(queue, keys), Timeout(), comment)
      ensures Flows(wanted, {}, AddressesOf((before + calls)[n..]), Known(before + calls, client.listed, comment))
    {
      var known, known' := Known(before, client.listed, comment), Known(before + calls, client.listed, comment);
      KnownGrows(before, calls, client.listed, comment);
      TailConcat(before, calls, n);
      FlowsOn(wanted, queue, keys, before[n..], calls, known, known');
    }

    lemma FlowsOn(wanted: set<string>, queue: seq<string>, keys: set<string>, since: seq<AddCall>, calls: seq<AddCall>,
                  known: set<string>, known': set<string>)
      requires keys <= known <= known' && Flows(wanted, {} + SetOf(queue), AddressesOf(since), known)
      requires AskFor(calls, Unbanned(queue, keys), Timeout(), comment)
      ensures Flows(wanted, {}, AddressesOf(since + calls), known')
    {
      AddressesConcat(since, calls);
      AskedAddresses(calls, Unbanned(queue, keys), Timeout(), comment);
      UnbannedSet(queue, keys);
      FlowsFlushed(wanted, {}, SetOf(queue), AddressesOf(since), known, keys, known');
    }

    method SweepTurn(ghost wanted: set<string>, ghost n: nat)
      requires Running(wanted, n)
      modifies this`banned, this`errors, this`swept, this`failedDeletes, this`passes, client`deleteCalls, clock`t
      ensures Running(wanted, n)
      ensures passes == old(passes) + [Pass(clock.t, failedDeletes == old(failedDeletes))]
      ensures old(failedDeletes) <= failedDeletes
      ensures StaysLost(old(Ids()), client.addCalls, old(client.deleteCalls))
    {
      var gone := Sweep();
      SubsetSize(gone, ExpiredAt(old(banned), clock.t));
      SweptIds(old(banned), gone, ExpiredAt(old(banned), clock.t));
    }

    /** What every turn keeps about the passes and the failed deletions. */
    ghost predicate Swept(inputs: seq<Input>, before: seq<Pass>, failed: nat)
      reads this`passes, this`failedDeletes
    {
      && before <= passes && |passes| == |before| + SweepCount(inputs)
      && failedDeletes >= failed && (failedDeletes == failed ==> CleanFrom(passes, |before|))
    }

    /** One turn of the loop: an event, or one of the two timers. */
    method Step(input: Input, ghost wanted: set<string>, ghost wanted': set<string>, ghost n: nat)
      requires wanted' == wanted + if Counts(input, minLevel) then {input.ip} else {}
      requires Running(wanted, n) && (buffer == [] || |buffer| < batchSize)
      modifies this`banned, this`buffer, this`executed, this`skipped, this`errors, this`swept
      modifies this`received, this`failedAdds, this`failedDeletes, this`passes
      modifies client`addCalls, client`deleteCalls, clock`t, window
      ensures Running(wanted', n)
      ensures Drained([input], |buffer|, batchSize)
      ensures received == old(received) + if input.Event? then 1 else 0
      ensures old(client.addCalls) <= client.addCalls
      ensures StaysLost(old(Ids()), old(client.addCalls), old(client.deleteCalls))
      ensures if input.SweepTick? then passes == old(passes) + [Pass(clock.t, failedDeletes == old(failedDeletes))]
              else passes == old(passes) && failedDeletes == old(failedDeletes)
      ensures old(failedDeletes) <= failedDeletes
    {
      assert !Counts(input, minLevel) ==> wanted' == wanted;
      match input
      case Event(ip, level) =>
        Take(ip, level, wanted, n);
        if |buffer| >= batchSize {
          FlushTurn(wanted', n);
        } else {
          assert client.addCalls[|client.addCalls|..] == [];
        }
      case FlushTick =>
        FlushTurn(wanted', n);
      case SweepTick =>
        SweepTurn(wanted', n);
    }

    method FlushTurn(ghost wanted: set<string>, ghost n: nat)
      requires Running(wanted, n)
      modifies this`banned, this`buffer, this`executed, this`skipped, this`errors, this`failedAdds
      modifies client`addCalls, clock`t, window
      ensures Running(wanted, n) && buffer == []
      ensures old(client.addCalls) <= client.addCalls
      ensures StaysLost(old(Ids()), old(client.addCalls), old(client.deleteCalls))
    {
      var calls := FlushBuffer(wanted, n);
      IdsAfterFrom(old(Ids()), calls);
      assert client.addCalls[|old(client.addCalls)|..] == calls;
    }

    lemma SweptIds(before: map<string, RouterBan>, gone: set<string>, expired: set<string>)
      requires expired <= before.Keys
      ensures
        IdMap(before - gone).Values <= IdMap(before).Values && IdsOf(before, expired) <= IdMap(before).Values
    {
      var ids, left := IdMap(before), IdMap(before - gone);
      forall id | id in IdsOf(before, expired) ensures id in ids.Values {
        var ip :| ip in expired && before[ip].id == id;
        assert ids[ip] == id;
      }
      forall id | id in left.Values ensures id in ids.Values {
        var ip :| ip in left && left[ip] == id;
        assert ids[ip] == id;
      }
    }

    /** Any part of a run, from any state that a run can reach: every event is received; the address
        of an event that counts is buffered, was asked for, or was known; a flush tick or a full
        batch leaves nothing buffered; every sweep tick is one pass; and an entry whose id was lost
        is never deleted, unless RouterOS grants that id again. */
    method Continue(inputs: seq<Input>, ghost wanted: set<string>, ghost n: nat)
      requires Running(wanted, n) && (buffer == [] || |buffer| < batchSize)
      modifies this, client`addCalls, client`deleteCalls, clock`t, window
      ensures Running(wanted + Wanted(inputs, minLevel), n) && Drained(inputs, |buffer|, batchSize)
      ensures received == old(received) + EventCount(inputs)
      ensures Swept(inputs, old(passes), old(failedDeletes))
      ensures old(client.addCalls) <= client.addCalls
      ensures StaysLost(old(Ids()), old(client.addCalls), old(client.deleteCalls))
      ensures BoundedOverstay(banned, start, passes, clock.t, ttl)
    {
      assert client.addCalls[|client.addCalls|..] == [];
      for i := 0 to |inputs|
        invariant Running(wanted + Wanted(inputs[..i], minLevel), n) && Drained(inputs[..i], |buffer|, batchSize)
        invariant received == old(received) + EventCount(inputs[..i])
        invariant Swept(inputs[..i], old(passes), old(failedDeletes))
        invariant old(client.addCalls) <= client.addCalls
        invariant StaysLost(old(Ids()), old(client.addCalls), old(client.deleteCalls))
      {
        Turn(inputs, i, wanted, n, old(Ids()), old(client.addCalls), old(client.deleteCalls), old(passes), old(failedDeletes));
      }
      assert inputs[..|inputs|] == inputs;
      TimelySays(banned, start, passes, clock.t, ttl);
    }

    method Turn(inputs: seq<Input>, i: nat, ghost wanted: set<string>, ghost n: nat, ghost ids: map<string, string>,
                ghost calls: seq<AddCall>, ghost deleted: set<string>, ghost before: seq<Pass>, ghost failed: nat)
      requires i < |inputs| && calls <= client.addCalls
      requires Running(wanted + Wanted(inputs[..i], minLevel), n) && Drained(inputs[..i], |buffer|, batchSize)
      requires Swept(inputs[..i], before, failed) && StaysLost(ids, calls, deleted)
      modifies this`banned, this`buffer, this`executed, this`skipped, this`errors, this`swept
      modifies this`received, this`failedAdds, this`failedDeletes, this`passes
      modifies client`addCalls, client`deleteCalls, clock`t, window
      ensures Running(wanted + Wanted(inputs[..i + 1], minLevel), n) && Drained(inputs[..i + 1], |buffer|, batchSize)
      ensures received - old(received) == EventCount(inputs[..i + 1]) - EventCount(inputs[..i])
      ensures Swept(inputs[..i + 1], before, failed)
      ensures calls <= client.addCalls && StaysLost(ids, calls, deleted)
    {
      ghost var ids', deleted' := Ids(), client.deleteCalls;
      StepOn(inputs, i, wanted, n);
      LostForGood(ids, ids', calls, old(client.addCalls), deleted, deleted');
    }

    method StepOn(inputs: seq<Input>, i: nat, ghost wanted: set<string>, ghost n: nat)
      requires i < |inputs| && Running(wanted + Wanted(inputs[..i], minLevel), n) && Drained(inputs[..i], |buffer|, batchSize)
      modifies this`banned, this`buffer, this`executed, this`skipped, this`errors, this`swept
      modifies this`received, this`failedAdds, this`failedDeletes, this`passes
      modifies client`addCalls, client`deleteCalls, clock`t, window
      ensures Running(wanted + Wanted(inputs[..i + 1], minLevel), n) && Drained(inputs[..i + 1], |buffer|, batchSize)
      ensures received - old(received) == EventCount(inputs[..i + 1]) - EventCount(inputs[..i])
      ensures |passes| - |old(passes)| == SweepCount(inputs[..i + 1]) - SweepCount(inputs[..i])
      ensures old(passes) <= passes && (failedDeletes == old(failedDeletes) ==> CleanFrom(passes, |old(passes)|))
      ensures old(failedDeletes) <= failedDeletes
      ensures old(client.addCalls) <= client.addCalls
      ensures StaysLost(old(Ids()), old(client.addCalls), old(client.deleteCalls))
    {
      TurnGrows(inputs, i, minLevel, batchSize);
      assert wanted + Wanted(inputs[..i + 1], minLevel) ==
        wanted + Wanted(inputs[..i], minLevel) + if Counts(inputs[i], minLevel) then {inputs[i].ip} else {};
      Step(inputs[i], wanted + Wanted(inputs[..i], minLevel), wanted + Wanted(inputs[..i + 1], minLevel), n);
    }

    /** What was lost before and not granted since stays lost. */
    lemma LostForGood(ids: map<string, string>, ids': map<string, string>, calls: seq<AddCall>, calls': seq<AddCall>,
                      deleted: set<string>, deleted': set<string>)
      requires calls <= calls' <= client.addCalls && StaysLost(ids', calls', deleted')
      requires forall id :: id !in ids.Values && id !in Granted(calls'[|calls|..]) ==>
        id !in ids'.Values && (id in deleted' ==> id in deleted)
      ensures StaysLost(ids, calls, deleted)
    {
      assert client.addCalls[|calls|..] == calls'[|calls|..] + client.addCalls[|calls'|..];
      GrantedConcat(calls'[|calls|..], client.addCalls[|calls'|..]);
    }

    /** The whole run, with the startup sync and the final flush and sweep: every event is accounted
        for, every event that counts was asked for or its address was known, every id ever passed to
        Delete was this sentinel's own, and the overstay is bounded. */
    method Run(inputs: seq<Input>)
      requires Valid() && banned == map[] && buffer == [] && passes == []
      modifies this, client, clock`t, window
      ensures Valid() && buffer == []
      ensures client.deleteCalls <= Owned(client.addCalls, client.listed, comment)
      ensures Stamped(client.addCalls, Timeout(), comment)
      ensures received == old(received) + EventCount(inputs) == skipped + executed + failedAdds
      ensures |client.addCalls| == executed + failedAdds
      ensures Running(Wanted(inputs, minLevel), old(|client.addCalls|))
      ensures |passes| == SweepCount(inputs) + 1 && (failedDeletes == old(failedDeletes) ==> CleanFrom(passes, 0))
      ensures BoundedOverstay(banned, start, passes, clock.t, ttl)
    {
      SyncExisting();
      assert client.addCalls[|client.addCalls|..] == [];
      Continue(inputs, {}, |client.addCalls|);
      assert {} + Wanted(inputs, minLevel) == Wanted(inputs, minLevel);
      Finish(Wanted(inputs, minLevel), old(|client.addCalls|));
    }

    method Finish(ghost wanted: set<string>, ghost n: nat)
      requires Running(wanted, n)
      modifies this`banned, this`buffer, this`executed, this`skipped, this`errors, this`swept
      modifies this`failedAdds, this`failedDeletes, this`passes
      modifies client`addCalls, client`deleteCalls, clock`t, window
      ensures Running(wanted, n) && buffer == []
      ensures client.deleteCalls <= Owned(client.addCalls, client.listed, comment)
      ensures Stamped(client.addCalls, Timeout(), comment)
      ensures |passes| == |old(passes)| + 1 && old(failedDeletes) <= failedDeletes
      ensures failedDeletes == old(failedDeletes) && CleanFrom(old(passes), 0) ==> CleanFrom(passes, 0)
      ensures BoundedOverstay(banned, start, passes, clock.t, ttl)
    {
      var _ := FlushBuffer(wanted, n);
      SweepTurn(wanted, n);
      assert Look(Record());
      TimelySays(banned, start, passes, clock.t, ttl);
    }
  }
}
