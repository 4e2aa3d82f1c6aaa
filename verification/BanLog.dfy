/** The ban laws of the firewall executors that own their remote list: ban records, the log of
    successful remote changes, the passes over expired bans. */
module BanLog {
  import opened Basics
  import opened Passes

  datatype BanRecord = BanRecord(ip: string, addedAt: Time, expireAt: Time)

  /** A change that the remote accepted, and when it was requested. */
  datatype Op =
    | Added(ips: set<string>, at: Time)
    | Synced(ips: set<string>, at: Time)
    | Deleted(ips: set<string>, at: Time)

  predicate Bans(op: Op, ip: string) {
    !op.Deleted? && ip in op.ips
  }

  ghost predicate EverBanned(log: seq<Op>, ip: string) {
    exists i :: 0 <= i < |log| && Bans(log[i], ip)
  }

  /** Every deletion comes at least `ttl` after every earlier ban of the same address. */
  ghost predicate NoEarlyUnban(log: seq<Op>, ttl: int) {
    forall i, j, ip :: 0 <= i < j < |log| && log[j].Deleted? && ip in log[j].ips && Bans(log[i], ip) ==>
      log[i].at + ttl <= log[j].at
  }

  /** Every deletion is of an address that was banned before. */
  ghost predicate OnlyBannedDeleted(log: seq<Op>) {
    forall j, ip :: 0 <= j < |log| && log[j].Deleted? && ip in log[j].ips ==> EverBanned(log[..j], ip)
  }

  /** The addresses that were ever banned. */
  ghost function BannedIn(log: seq<Op>): set<string> {
    set i, ip | 0 <= i < |log| && ip in log[i].ips && Bans(log[i], ip) :: ip
  }

  lemma BannedInIff(log: seq<Op>)
    ensures forall ip :: ip in BannedIn(log) <==> EverBanned(log, ip)
  {
    forall ip | EverBanned(log, ip) ensures ip in BannedIn(log) {
      var i :| 0 <= i < |log| && Bans(log[i], ip);
      assert ip in log[i].ips;
    }
    forall ip | ip in BannedIn(log) ensures EverBanned(log, ip) {
      var i :| 0 <= i < |log| && ip in log[i].ips && Bans(log[i], ip);
    }
  }

  lemma BannedInGrows(log: seq<Op>, later: seq<Op>)
    requires log <= later
    ensures BannedIn(log) <= BannedIn(later)
  {
    forall ip | ip in BannedIn(log) ensures ip in BannedIn(later) {
      var i :| 0 <= i < |log| && ip in log[i].ips && Bans(log[i], ip);
      assert later[i] == log[i];
    }
  }

  lemma EverBannedGrows(log: seq<Op>, op: Op, ip: string)
    ensures EverBanned(log + [op], ip) <==> EverBanned(log, ip) || Bans(op, ip)
  {
    var grown := log + [op];
    if i :| 0 <= i < |log| && Bans(log[i], ip) {
      assert Bans(grown[i], ip);
    }
    if Bans(op, ip) {
      assert Bans(grown[|log|], ip);
    }
    if i :| 0 <= i < |grown| && Bans(grown[i], ip) {
      assert i < |log| ==> Bans(log[i], ip);
    }
  }

  lemma OnlyBannedDeletedGrows(log: seq<Op>, op: Op)
    requires OnlyBannedDeleted(log)
    requires op.Deleted? ==> forall ip :: ip in op.ips ==> EverBanned(log, ip)
    ensures OnlyBannedDeleted(log + [op])
  {
    var grown := log + [op];
    forall j, ip | 0 <= j < |grown| && grown[j].Deleted? && ip in grown[j].ips ensures EverBanned(grown[..j], ip) {
      assert grown[..j] == log[..j];
      assert log[..|log|] == log;
    }
  }

  lemma NoEarlyUnbanGrows(log: seq<Op>, op: Op, ttl: int)
    requires NoEarlyUnban(log, ttl)
    requires op.Deleted? ==> forall i, ip :: 0 <= i < |log| && ip in op.ips && Bans(log[i], ip) ==> log[i].at + ttl <= op.at
    ensures NoEarlyUnban(log + [op], ttl)
  {
    var grown := log + [op];
    assert forall i :: 0 <= i < |log| ==> grown[i] == log[i];
  }

  // ----- how long a ban can last -----

  /** No record has expired by that time. */
  ghost predicate NothingExpired(banned: map<string, BanRecord>, at: Time) {
    forall ip :: ip in banned ==> at < banned[ip].expireAt
  }

  /** No ban in the map is as old as `limit`. */
  ghost predicate NoneOutlives(banned: map<string, BanRecord>, now: Time, limit: int) {
    forall ip :: ip in banned ==> now - banned[ip].addedAt < limit
  }

  /** If every pass was clean and they were at most `interval` apart, no ban is older than
      `limit` plus that interval. */
  ghost predicate BoundedOverstay(banned: map<string, BanRecord>, start: Time, passes: seq<Pass>, now: Time, limit: int) {
    forall interval :: AllClean(passes) && Regular(start, passes, now, interval) ==>
      NoneOutlives(banned, now, limit + interval)
  }

  // ----- the books of an executor -----

  /** What the ban laws speak of: the ban map, the marked addresses, the remote's log, the passes,
      the time of the start and now, the TTL, and the longest gap between the two clock readings
      of one record. */
  datatype Books = Books(banned: map<string, BanRecord>, marks: set<string>, log: seq<Op>, passes: seq<Pass>,
                         start: Time, now: Time, ttl: int, gap: nat)

  ghost predicate Laws(b: Books) {
    && Past(b.log, b.now)
    && NoEarlyUnban(b.log, b.ttl)
    && OnlyBannedDeleted(b.log)
    && AllBanned(b.banned.Keys + b.marks, b.log)
    && ExpireAfter(b.banned, b.log, b.ttl)
    && Timely(b.banned, LastClean(b.start, b.passes), b.now, b.ttl + b.gap)
  }

  ghost predicate Past(log: seq<Op>, now: Time) {
    forall i :: 0 <= i < |log| ==> log[i].at <= now
  }

  /** These addresses were all banned remotely. */
  ghost predicate AllBanned(ips: set<string>, log: seq<Op>) {
    forall ip :: ip in ips ==> EverBanned(log, ip)
  }

  lemma AllBannedGrows(ips: set<string>, log: seq<Op>, op: Op)
    requires AllBanned(ips, log)
    ensures AllBanned(ips, log + [op])
  {
    forall ip | ip in ips ensures EverBanned(log + [op], ip) {
      EverBannedGrows(log, op, ip);
    }
  }

  /** No record expires earlier than the TTL after a logged ban of its address. */
  ghost predicate ExpireAfter(banned: map<string, BanRecord>, log: seq<Op>, ttl: int) {
    forall i, ip :: 0 <= i < |log| && ip in banned && Bans(log[i], ip) ==> log[i].at + ttl <= banned[ip].expireAt
  }

  /** Nothing expired is left over from the last clean pass, and no record lasts longer than
      `lifetime`. */
  ghost predicate Timely(banned: map<string, BanRecord>, lastClean: Time, now: Time, lifetime: int) {
    && lastClean <= now
    && NothingExpired(banned, lastClean)
    && forall ip :: ip in banned ==> banned[ip].expireAt - banned[ip].addedAt <= lifetime
  }

  lemma ExpireAfterDelete(banned: map<string, BanRecord>, ips: set<string>, log: seq<Op>, at: Time, ttl: int)
    requires ExpireAfter(banned, log, ttl)
    ensures ExpireAfter(banned - ips, log + [Deleted(ips, at)], ttl)
  {
    var grown := log + [Deleted(ips, at)];
    assert forall i :: 0 <= i < |log| ==> grown[i] == log[i];
  }

  /** Marks the books that a proof looks at. */
  ghost predicate Look(b: Books) {
    true
  }

  /** The laws that every executor step keeps, unfolded only where a proof looks at them. */
  ghost predicate InOrder(b: Books) {
    forall c {:trigger Look(c)} :: Look(c) && c == b ==> Laws(c)
  }

  /** A successful ban, recorded with expiry at least the TTL later, keeps the laws. */
  lemma BooksBan(b: Books, op: Op, next: map<string, BanRecord>, marks: set<string>, later: Time, gap: nat)
    requires InOrder(b) && !op.Deleted? && b.ttl > 0 && b.now <= op.at <= later && b.gap <= gap
    requires forall ip :: ip in next ==>
      if ip in op.ips then later + b.ttl <= next[ip].expireAt <= next[ip].addedAt + b.ttl + gap
      else ip in b.banned && next[ip] == b.banned[ip]
    requires marks <= op.ips
    ensures InOrder(b.(banned := next, marks := b.marks + marks, log := b.log + [op], now := later, gap := gap))
  {
    assert Look(b);
    var c := b.(banned := next, marks := b.marks + marks, log := b.log + [op], now := later, gap := gap);
    forall ip | ip in c.banned.Keys + c.marks ensures EverBanned(c.log, ip) {
      EverBannedGrows(b.log, op, ip);
    }
    OnlyBannedDeletedGrows(b.log, op);
    NoEarlyUnbanGrows(b.log, op, b.ttl);
    assert Laws(c);
  }

  /** Deleting addresses whose records have expired keeps the laws. */
  lemma BooksDelete(b: Books, ips: set<string>, at: Time)
    requires InOrder(b) && b.now <= at
    requires forall ip :: ip in ips ==> ip in b.banned && b.banned[ip].expireAt <= at
    ensures InOrder(b.(banned := b.banned - ips, log := b.log + [Deleted(ips, at)], now := at))
  {
    assert Look(b);
    var op := Deleted(ips, at);
    var c := b.(banned := b.banned - ips, log := b.log + [op], now := at);
    AllBannedGrows(b.banned.Keys + b.marks, b.log, op);
    ExpireAfterDelete(b.banned, ips, b.log, at, b.ttl);
    OnlyBannedDeletedGrows(b.log, op);
    assert forall i, ip :: 0 <= i < |b.log| && ip in ips && Bans(b.log[i], ip) ==> b.log[i].at + b.ttl <= at;
    NoEarlyUnbanGrows(b.log, op, b.ttl);
    assert Laws(c);
  }

  /** So does the passing of time, */
  lemma BooksLater(b: Books, later: Time)
    requires InOrder(b) && b.now <= later
    ensures InOrder(b.(now := later))
  {
    assert Look(b);
  }

  /** and a pass, which if clean leaves no expired record. */
  lemma BooksPass(b: Books, pass: Pass)
    requires InOrder(b) && pass.at <= b.now
    requires pass.clean ==> NothingExpired(b.banned, pass.at)
    ensures InOrder(b.(passes := b.passes + [pass]))
  {
    assert Look(b);
    LastCleanGrows(b.start, b.passes, pass);
    assert Laws(b.(passes := b.passes + [pass]));
  }

  /** What the laws say: no address is deleted before its TTL or without having been banned, what
      is banned or marked was accepted by the remote, and the overstay is bounded. */
  lemma BooksSay(b: Books)
    requires InOrder(b)
    ensures NoEarlyUnban(b.log, b.ttl) && OnlyBannedDeleted(b.log)
    ensures AllBanned(b.banned.Keys + b.marks, b.log)
    ensures BoundedOverstay(b.banned, b.start, b.passes, b.now, b.ttl + b.gap)
  {
    assert Look(b);
    forall interval | AllClean(b.passes) && Regular(b.start, b.passes, b.now, interval)
      ensures NoneOutlives(b.banned, b.now, b.ttl + b.gap + interval)
    {
      CleanIsRecent(b.start, b.passes, b.now, interval);
    }
  }
}
