/** The tracker's bookkeeping seen without its heap: which IPs are tracked, in recency
    order, with how many requests each, and how many requests were forgotten. */
module LruLedger {
  import opened Basics

  datatype Slot = Slot(ip: string, hits: nat)

  /** `order` runs from the most recently updated IP to the eviction candidate. */
  datatype Ledger = Ledger(order: seq<Slot>, lost: nat)

  /** One tracker step: a request of an IP, or the collection of an inactive IP. */
  datatype Step = Hit(ip: string) | Drop(ip: string)

  /** The position of `ip`, or the length of `order` when it is not tracked. */
  function Find(order: seq<Slot>, ip: string): (i: nat)
    ensures i <= |order|
    ensures i < |order| ==> order[i].ip == ip
    ensures forall j :: 0 <= j < i ==> order[j].ip != ip
  {
    if order == [] || order[0].ip == ip then 0 else 1 + Find(order[1..], ip)
  }

  predicate Tracks(order: seq<Slot>, ip: string) {
    Find(order, ip) < |order|
  }

  function Without<T>(s: seq<T>, i: nat): (r: seq<T>)
    requires i < |s|
    ensures |r| == |s| - 1
    ensures forall j :: 0 <= j < i ==> r[j] == s[j]
    ensures forall j :: i <= j < |r| ==> r[j] == s[j + 1]
  {
    s[..i] + s[i + 1..]
  }

  function Apply(l: Ledger, s: Step, cap: int): Ledger {
    var i, n := Find(l.order, s.ip), |l.order|;
    match s
    case Hit(ip) =>
      if i < n then
        Ledger([Slot(ip, l.order[i].hits + 1)] + Without(l.order, i), l.lost)
      else if n >= cap && n > 0 then
        Ledger([Slot(ip, 1)] + l.order[..n - 1], l.lost + l.order[n - 1].hits)
      else
        Ledger([Slot(ip, 1)] + l.order, l.lost)
    case Drop(_) =>
      if i < n then Ledger(Without(l.order, i), l.lost + l.order[i].hits) else l
  }

  function LedgerOf(log: seq<Step>, cap: int): Ledger {
    if log == [] then Ledger([], 0) else Apply(LedgerOf(log[..|log| - 1], cap), log[|log| - 1], cap)
  }

  function SumHits(order: seq<Slot>): nat {
    if order == [] then 0 else order[0].hits + SumHits(order[1..])
  }

  function HitCount(log: seq<Step>): nat {
    if log == [] then 0 else HitCount(log[..|log| - 1]) + if log[|log| - 1].Hit? then 1 else 0
  }

  /** The index of the last request of `ip`, or -1. */
  function LastHit(log: seq<Step>, ip: string): (i: int)
    ensures -1 <= i < |log|
  {
    if log == [] then -1
    else if log[|log| - 1] == Hit(ip) then |log| - 1
    else LastHit(log[..|log| - 1], ip)
  }

  /** The distinct IPs that made a request after the last request of `ip`. */
  function Since(log: seq<Step>, ip: string): set<string> {
    if log == [] || log[|log| - 1] == Hit(ip) then {}
    else Since(log[..|log| - 1], ip) + if log[|log| - 1].Hit? then {log[|log| - 1].ip} else {}
  }

  function Capacity(cap: int): nat {
    if cap < 1 then 1 else cap
  }

  /** `l` is the ledger of `log`; the replay is unfolded only where a proof mentions the capacity. */
  ghost predicate Journal(l: Ledger, log: seq<Step>, cap: int) {
    forall c {:trigger Capacity(c)} :: c == cap ==> LedgerOf(log, c) == l
  }

  lemma {:induction false} JournalGrows(l: Ledger, log: seq<Step>, s: Step, cap: int)
    requires Journal(l, log, cap)
    ensures Journal(Apply(l, s, cap), log + [s], cap)
    ensures HitCount(log + [s]) == HitCount(log) + if s.Hit? then 1 else 0
  {
    assert (log + [s])[..|log|] == log;
    assert Capacity(cap) >= 1;
  }

  lemma {:induction false} JournalLedger(l: Ledger, log: seq<Step>, cap: int)
    requires Journal(l, log, cap)
    ensures l == LedgerOf(log, cap)
  {
    assert Capacity(cap) >= 1;
  }

  ghost predicate ByRecency(order: seq<Slot>, log: seq<Step>) {
    && (forall i :: 0 <= i < |order| ==> LastHit(log, order[i].ip) >= 0)
    && forall i, j :: 0 <= i < j < |order| ==> LastHit(log, order[i].ip) > LastHit(log, order[j].ip)
  }

  lemma {:induction false} SumWithout(order: seq<Slot>, i: nat)
    requires i < |order|
    ensures SumHits(Without(order, i)) + order[i].hits == SumHits(order)
  {
    if i == 0 {
      assert Without(order, 0) == order[1..];
    } else {
      SumWithout(order[1..], i - 1);
      assert Without(order, i)[1..] == Without(order[1..], i - 1);
    }
  }

  /** Over every run, tracked requests and forgotten requests add up to all requests. */
  lemma {:induction false} Conservation(log: seq<Step>, cap: int)
    ensures SumHits(LedgerOf(log, cap).order) + LedgerOf(log, cap).lost == HitCount(log)
  {
    if log == [] {
    } else {
      var before, s := LedgerOf(log[..|log| - 1], cap), log[|log| - 1];
      var i, n := Find(before.order, s.ip), |before.order|;
      Conservation(log[..|log| - 1], cap);
      if i < n {
        SumWithout(before.order, i);
        if s.Hit? {
          assert LedgerOf(log, cap).order[1..] == Without(before.order, i);
        }
      } else if s.Hit? && n >= cap && n > 0 {
        SumWithout(before.order, n - 1);
        assert LedgerOf(log, cap).order[1..] == Without(before.order, n - 1);
      } else if s.Hit? {
        assert LedgerOf(log, cap).order[1..] == before.order;
      }
    }
  }

  /** Where the slot at position `m >= 1` of the new list stood before `k` moved to the front. */
  function Before(m: nat, k: nat): nat
    requires m >= 1
  {
    if m <= k then m - 1 else m
  }

  /** `b` is `a` with position `k` (or a new slot, when `k == |a|`) moved to the front, possibly
      without its last slot. */
  ghost predicate Moved(a: seq<Slot>, b: seq<Slot>, k: nat) {
    && k <= |a|
    && |b| >= 1 && |b| >= |a|
    && |b| <= (if k < |a| then |a| else |a| + 1)
    && (forall m {:trigger b[m]} :: 1 <= m < |b| ==> b[m] == a[Before(m, k)])
    && (k < |a| ==> a[k].ip == b[0].ip)
    && forall j :: 0 <= j < |a| && j != k ==> a[j].ip != b[0].ip
  }

  lemma {:induction false} HitMoves(l: Ledger, ip: string, cap: int)
    requires forall i, j :: 0 <= i < j < |l.order| ==> l.order[i].ip != l.order[j].ip
    ensures
      var b := Apply(l, Hit(ip), cap).order;
      Moved(l.order, b, Find(l.order, ip)) && b[0].ip == ip
  {
  }

  lemma {:induction false} MovedByRecency(a: seq<Slot>, b: seq<Slot>, k: nat, log: seq<Step>)
    requires Moved(a, b, k) && log != [] && log[|log| - 1] == Hit(b[0].ip)
    requires ByRecency(a, log[..|log| - 1])
    ensures ByRecency(b, log)
  {
    var before := log[..|log| - 1];
    forall m | 1 <= m < |b|
      ensures 0 <= LastHit(log, b[m].ip) == LastHit(before, a[Before(m, k)].ip) < LastHit(log, b[0].ip)
    {
      assert b[m] == a[Before(m, k)];
    }
    forall i, j | 0 <= i < j < |b| ensures LastHit(log, b[i].ip) > LastHit(log, b[j].ip) {
      if i > 0 {
        assert Before(i, k) < Before(j, k);
      }
    }
  }

  lemma {:induction false} DistinctIps(order: seq<Slot>, log: seq<Step>)
    requires ByRecency(order, log)
    ensures forall i, j :: 0 <= i < j < |order| ==> order[i].ip != order[j].ip
  {
    forall i, j | 0 <= i < j < |order| ensures order[i].ip != order[j].ip {
      assert LastHit(log, order[i].ip) > LastHit(log, order[j].ip);
    }
  }

  /** Over every run, the list is in order of most recent request (so no IP occurs twice)
      and never longer than the capacity. */
  lemma {:induction false} RecencyOrder(log: seq<Step>, cap: int)
    ensures ByRecency(LedgerOf(log, cap).order, log)
    ensures |LedgerOf(log, cap).order| <= Capacity(cap)
  {
    if log == [] {
    } else {
      var before, s := log[..|log| - 1], log[|log| - 1];
      var l := LedgerOf(before, cap);
      RecencyOrder(before, cap);
      DistinctIps(l.order, before);
      if s.Hit? {
        HitMoves(l, s.ip, cap);
        MovedByRecency(l.order, LedgerOf(log, cap).order, Find(l.order, s.ip), log);
      } else {
        assert forall ip :: LastHit(log, ip) == LastHit(before, ip);
      }
    }
  }

  /** A full tracker makes room by forgetting exactly one IP: the one updated longest ago. */
  lemma {:induction false} EvictsOldest(log: seq<Step>, ip: string, cap: int)
    requires
      var order := LedgerOf(log, cap).order;
      !Tracks(order, ip) && |order| >= cap && order != []
    ensures
      var order := LedgerOf(log, cap).order;
      var after := LedgerOf(log + [Hit(ip)], cap).order;
      var victim := order[|order| - 1].ip;
      && after == [Slot(ip, 1)] + order[..|order| - 1]
      && !Tracks(after, victim)
      && forall j :: 0 <= j < |order| - 1 ==> LastHit(log, order[j].ip) > LastHit(log, victim)
  {
    var l := LedgerOf(log, cap);
    RecencyOrder(log, cap);
    DistinctIps(l.order, log);
    assert (log + [Hit(ip)])[..|log|] == log;
    assert LedgerOf(log + [Hit(ip)], cap) == Apply(l, Hit(ip), cap);
    LastIsUntracked(l, ip, cap);
  }

  lemma {:induction false} LastIsUntracked(l: Ledger, ip: string, cap: int)
    requires !Tracks(l.order, ip) && |l.order| >= cap && l.order != []
    requires forall i, j :: 0 <= i < j < |l.order| ==> l.order[i].ip != l.order[j].ip
    ensures
      var after, n := Apply(l, Hit(ip), cap).order, |l.order| - 1;
      after == [Slot(ip, 1)] + l.order[..n] && !Tracks(after, l.order[n].ip)
  {
    var after, n := Apply(l, Hit(ip), cap).order, |l.order| - 1;
    assert l.order[n].ip != ip;
    assert forall j :: 0 <= j < |after| ==> after[j].ip != l.order[n].ip;
  }

  ghost predicate NoDrops(log: seq<Step>) {
    forall i :: 0 <= i < |log| ==> log[i].Hit?
  }

  ghost function Ips(order: seq<Slot>): set<string> {
    set i | 0 <= i < |order| :: order[i].ip
  }

  /** An IP's position is its reuse distance, and untracked IPs are at least a capacity away. */
  ghost predicate ByDistance(order: seq<Slot>, log: seq<Step>, cap: int) {
    && (forall i :: 0 <= i < |order| ==> Since(log, order[i].ip) == Ips(order[..i]))
    && (forall ip :: Hit(ip) in log && !Tracks(order, ip) ==> |Since(log, ip)| >= Capacity(cap))
  }

  lemma {:induction false} IpsSize(order: seq<Slot>)
    requires forall i, j :: 0 <= i < j < |order| ==> order[i].ip != order[j].ip
    ensures |Ips(order)| == |order|
  {
    if order == [] {
    } else {
      var n := |order| - 1;
      IpsSize(order[..n]);
      assert Ips(order) == Ips(order[..n]) + {order[n].ip};
    }
  }

  lemma {:induction false} MovedByDistance(a: seq<Slot>, b: seq<Slot>, k: nat, log: seq<Step>, cap: int)
    requires Moved(a, b, k) && log != [] && log[|log| - 1] == Hit(b[0].ip)
    requires ByRecency(a, log[..|log| - 1]) && ByDistance(a, log[..|log| - 1], cap)
    requires k == |a| == |b| ==> |b| >= Capacity(cap)
    ensures ByDistance(b, log, cap)
  {
    var before := log[..|log| - 1];
    forall i | 0 <= i < |b| ensures Since(log, b[i].ip) == Ips(b[..i]) {
      DistanceOfTracked(log, a, b, k, i);
    }
    forall ip | Hit(ip) in log && !Tracks(b, ip) ensures |Since(log, ip)| >= Capacity(cap) {
      if Tracks(a, ip) {
        PushedOut(a, b, k, ip);
        DistanceOfEvicted(log, a, b, k, ip);
      } else {
        assert forall q :: 0 <= q < |b| ==> b[q].ip != ip;
        SubsetSize(Since(before, ip), Since(log, ip));
      }
    }
  }

  lemma {:induction false} DistanceOfTracked(log: seq<Step>, a: seq<Slot>, b: seq<Slot>, k: nat, i: nat)
    requires Moved(a, b, k) && i < |b| && log != [] && log[|log| - 1] == Hit(b[0].ip)
    requires forall j :: 0 <= j < |a| ==> Since(log[..|log| - 1], a[j].ip) == Ips(a[..j])
    ensures Since(log, b[i].ip) == Ips(b[..i])
  {
    if i > 0 {
      SlidePrefix(a, b, i, k);
      assert b[i] == a[Before(i, k)];
    }
  }

  lemma {:induction false} DistanceOfEvicted(log: seq<Step>, a: seq<Slot>, b: seq<Slot>, k: nat, ip: string)
    requires Moved(a, b, k) && log != [] && log[|log| - 1] == Hit(b[0].ip)
    requires ByRecency(a, log[..|log| - 1])
    requires forall j :: 0 <= j < |a| ==> Since(log[..|log| - 1], a[j].ip) == Ips(a[..j])
    requires Tracks(a, ip) && !Tracks(b, ip)
    ensures |Since(log, ip)| == |b|
  {
    PushedOut(a, b, k, ip);
    var n := |a| - 1;
    DistinctIps(a, log[..|log| - 1]);
    IpsSize(a[..n]);
    assert Since(log, ip) == Ips(a[..n]) + {b[0].ip};
    assert b[0].ip !in Ips(a[..n]);
  }

  /** Moving a slot to the front adds its IP to the prefix before every later slot. */
  lemma {:induction false} SlidePrefix(a: seq<Slot>, b: seq<Slot>, i: nat, k: nat)
    requires Moved(a, b, k) && 0 < i < |b|
    ensures Ips(b[..i]) == Ips(a[..Before(i, k)]) + {b[0].ip}
  {
    var j := Before(i, k);
    forall ip | ip in Ips(a[..j]) ensures ip in Ips(b[..i]) {
      var m :| 0 <= m < j && a[..j][m].ip == ip;
      var m' := if m < k then m + 1 else if m == k then 0 else m;
      assert b[..i][m'].ip == ip;
    }
    assert b[..i][0].ip in Ips(b[..i]);
    forall ip | ip in Ips(b[..i]) ensures ip in Ips(a[..j]) + {b[0].ip} {
      var m :| 0 <= m < i && b[..i][m].ip == ip;
      if m > 0 {
        assert a[..j][Before(m, k)].ip == ip;
      }
    }
  }

  /** The only IP that a request can push out is the last one of a full list. */
  lemma {:induction false} PushedOut(a: seq<Slot>, b: seq<Slot>, k: nat, ip: string)
    requires Moved(a, b, k) && Tracks(a, ip) && !Tracks(b, ip)
    ensures k == |a| == |b| && a[|a| - 1].ip == ip
  {
    var f := Find(a, ip);
    var m := if f < k then f + 1 else if f == k then 0 else f;
    assert forall q :: 0 <= q < |b| ==> b[q].ip != ip;
    assert m < |b| ==> b[m].ip == ip;
  }

  lemma {:induction false} DistanceOrder(log: seq<Step>, cap: int)
    requires NoDrops(log)
    ensures ByDistance(LedgerOf(log, cap).order, log, cap)
  {
    if log == [] {
    } else {
      var before, ip := log[..|log| - 1], log[|log| - 1].ip;
      var l := LedgerOf(before, cap);
      DistanceOrder(before, cap);
      RecencyOrder(before, cap);
      DistinctIps(l.order, before);
      HitMoves(l, ip, cap);
      MovedByDistance(l.order, Apply(l, Hit(ip), cap).order, Find(l.order, ip), log, cap);
    }
  }

  /** Without collections, an IP is tracked if and only if fewer distinct IPs than the capacity
      have made a request since its last one. */
  lemma {:induction false} TracksMostRecent(log: seq<Step>, ip: string, cap: int)
    requires NoDrops(log)
    ensures Tracks(LedgerOf(log, cap).order, ip) <==> Hit(ip) in log && |Since(log, ip)| < Capacity(cap)
  {
    var order := LedgerOf(log, cap).order;
    DistanceOrder(log, cap);
    RecencyOrder(log, cap);
    if Tracks(order, ip) {
      var i := Find(order, ip);
      DistinctIps(order, log);
      IpsSize(order[..i]);
      LastHitMember(log, ip);
    }
  }

  lemma {:induction false} LastHitMember(log: seq<Step>, ip: string)
    requires LastHit(log, ip) >= 0
    ensures log[LastHit(log, ip)] == Hit(ip)
  {
    if log[|log| - 1] == Hit(ip) {
    } else {
      LastHitMember(log[..|log| - 1], ip);
    }
  }
}
