/** In-memory state per IP: counters, the ring buffer of recent paths behind its cache, the
    sliding-window rate, the score; and the LRU-bounded store of those states. */
module Tracker {
  import opened Basics
  import opened SlidingRate
  import opened LruLedger

  const PATH_BUF_SIZE := 64

  const DEFAULT_RATE_WINDOW := 60 * NANOS_PER_SECOND

  datatype LogEntry = LogEntry(realIP: string, path: string, status: int, time: Time)

  /** The most recent paths of a history, oldest first, at most one buffer full. */
  function RecentOf(h: seq<Seen>): (paths: seq<string>)
    ensures |paths| == if |h| < PATH_BUF_SIZE then |h| else PATH_BUF_SIZE
    ensures forall i :: 0 <= i < |paths| ==> paths[i] == h[|h| - |paths| + i].path
  {
    var n := if |h| < PATH_BUF_SIZE then |h| else PATH_BUF_SIZE;
    seq(n, i requires 0 <= i < n => h[|h| - n + i].path)
  }

  lemma RecentOfGrows(h: seq<Seen>)
    requires h != []
    ensures
      var before, path := RecentOf(h[..|h| - 1]), h[|h| - 1].path;
      RecentOf(h) == if |h| <= PATH_BUF_SIZE then before + [path] else before[1..] + [path]
  {
  }

  function NotFoundCount(h: seq<Seen>): nat {
    if h == [] then 0 else NotFoundCount(h[..|h| - 1]) + if h[|h| - 1].notFound then 1 else 0
  }

  /** It is the number of requests that were answered with "not found". */
  lemma {:induction false} NotFoundCountIs(h: seq<Seen>)
    ensures NotFoundCount(h) == |set i | 0 <= i < |h| && h[i].notFound|
  {
    if h == [] {
    } else {
      var n := |h| - 1;
      NotFoundCountIs(h[..n]);
      var before := set i | 0 <= i < n && h[..n][i].notFound;
      assert before == set i | 0 <= i < n && h[i].notFound;
      assert (set i | 0 <= i < |h| && h[i].notFound) == before + if h[n].notFound then {n} else {};
    }
  }

  /** The contents of a ring buffer from the oldest to the newest. */
  function Unroll(buf: seq<string>, pos: nat, full: bool): seq<string>
    requires pos <= |buf|
  {
    if full then buf[pos..] + buf[..pos] else buf[..pos]
  }

  /** Writing at the position appends, and drops the oldest if the ring was full. */
  lemma UnrollPush(buf: seq<string>, pos: nat, full: bool, path: string)
    requires |buf| == PATH_BUF_SIZE && pos < PATH_BUF_SIZE
    ensures
      var before, next := Unroll(buf, pos, full), (pos + 1) % PATH_BUF_SIZE;
      Unroll(buf[pos := path], next, full || next == 0) == (if full then before[1..] else before) + [path]
  {
    var buf', next := buf[pos := path], (pos + 1) % PATH_BUF_SIZE;
    assert buf'[..pos + 1] == buf[..pos] + [path];
    if pos + 1 == PATH_BUF_SIZE {
      assert buf'[next..] + buf'[..next] == buf' == buf'[..pos + 1];
      assert (buf[pos..] + buf[..pos])[1..] == buf[..pos];
    } else {
      assert buf'[next..] == buf[next..];
      assert (buf[pos..] + buf[..pos])[1..] == buf[next..] + buf[..pos];
    }
  }

  /** Marks the histories whose ring a proof looks at. */
  ghost predicate Look(h: seq<Seen>) {
    true
  }

  /** The ring holds the last paths of the history; unfolded only where a proof looks at it. */
  ghost predicate RingShows(buf: seq<string>, pos: nat, full: bool, h: seq<Seen>)
    requires pos <= |buf|
  {
    forall g {:trigger Look(g)} :: Look(g) && g == h ==> Unroll(buf, pos, full) == RecentOf(g)
  }

  /** What writing a path does to the ring of a history. */
  lemma RingPush(buf: seq<string>, pos: nat, full: bool, h: seq<Seen>)
    requires |buf| == PATH_BUF_SIZE && pos < PATH_BUF_SIZE && h != []
    requires (full <==> |h| > PATH_BUF_SIZE) && RingShows(buf, pos, full, h[..|h| - 1])
    ensures
      var next := (pos + 1) % PATH_BUF_SIZE;
      RingShows(buf[pos := h[|h| - 1].path], next, full || next == 0, h)
  {
    assert Look(h[..|h| - 1]);
    RecentOfGrows(h);
    UnrollPush(buf, pos, full, h[|h| - 1].path);
  }

  /** One change of an IP's score: when, how many points it added, and whether the score so far was
      decayed first. */
  datatype Visit = Visit(now: Time, delta: int, decays: bool)

  class IPState {
    const ip: string
    const firstSeen: Time
    var lastSeen: Time
    var totalRequests: nat
    var requests404: nat
    const pathBuf: array<string>
    var pathPos: nat
    var pathFull: bool
    var pathCache: seq<string>
    var pathDirty: bool
    var rateWindowStart: Time
    var rateCurrCount: nat
    var ratePrevCount: nat
    var score: int
    var scoreUpdatedAt: Time

    /** Every request recorded since this state was created. */
    ghost var history: seq<Seen>
    /** Every change of the score since this state was created. */
    ghost var visits: seq<Visit>

    constructor (ip: string, firstSeen: Time)
      ensures this.ip == ip && this.firstSeen == firstSeen
      ensures Valid() && history == [] && score == 0 && scoreUpdatedAt == 0 && visits == []
      ensures fresh(pathBuf)
    {
      this.ip, this.firstSeen := ip, firstSeen;
      lastSeen, totalRequests, requests404 := 0, 0, 0;
      pathBuf := new string[PATH_BUF_SIZE](_ => "");
      pathPos, pathFull, pathCache, pathDirty := 0, false, [], false;
      rateWindowStart, rateCurrCount, ratePrevCount := 0, 0, 0;
      score, scoreUpdatedAt := 0, 0;
      history, visits := [], [];
    }

    ghost predicate Valid()
      reads this`pathPos, this`pathFull, this`pathCache, this`pathDirty, this`history, pathBuf
      reads this`totalRequests, this`requests404, this`lastSeen
      reads this`rateWindowStart, this`rateCurrCount, this`ratePrevCount
    {
      && RingValid()
      && CountsFor(history)
    }

    /** The request counters, the last-seen time and the rate counters agree with `h`. */
    ghost predicate CountsFor(h: seq<Seen>)
      reads this`totalRequests, this`requests404, this`lastSeen
      reads this`rateWindowStart, this`rateCurrCount, this`ratePrevCount
    {
      && totalRequests == |h|
      && requests404 == NotFoundCount(h)
      && (h != [] ==> lastSeen == h[|h| - 1].time)
      && Counters() == RateOf(h)
    }

    /** The ring holds the last paths of the history, and a clean cache is not stale. */
    ghost predicate RingValid()
      reads this`pathPos, this`pathFull, this`pathCache, this`pathDirty, this`history, pathBuf
    {
      && pathBuf.Length == PATH_BUF_SIZE
      && pathPos < PATH_BUF_SIZE
      && (pathFull <==> |history| >= PATH_BUF_SIZE)
      && (!pathFull ==> pathPos == |history|)
      && RingShows(pathBuf[..], pathPos, pathFull, history)
      && (!pathDirty ==> pathCache == RecentOf(history))
    }

    ghost function Counters(): Rate
      reads this`rateWindowStart, this`rateCurrCount, this`ratePrevCount
    {
      Rate(rateWindowStart, rateCurrCount, ratePrevCount)
    }

    /** The per-request part of an update: counters, rate, ring buffer. */
    method Record(entry: LogEntry, window: int)
      requires Valid()
      modifies this, pathBuf
      ensures Valid()
      ensures history == old(history) + [Seen(entry.path, entry.status == 404, entry.time, window)]
      ensures score == old(score) && scoreUpdatedAt == old(scoreUpdatedAt) && visits == old(visits)
    {
      ghost var h := history + [Seen(entry.path, entry.status == 404, entry.time, window)];
      assert h[..|h| - 1] == history;
      Count(h, entry, window);
      PushPath(h, entry.path);
    }

    method Count(ghost h: seq<Seen>, entry: LogEntry, window: int)
      requires |h| > 0 && CountsFor(h[..|h| - 1])
      requires h[|h| - 1] == Seen(entry.path, entry.status == 404, entry.time, window)
      modifies this`totalRequests, this`requests404, this`lastSeen
      modifies this`rateWindowStart, this`rateCurrCount, this`ratePrevCount
      ensures CountsFor(h)
    {
      lastSeen := entry.time;
      totalRequests := totalRequests + 1;
      if entry.status == 404 {
        requests404 := requests404 + 1;
      }
      UpdateRate(entry.time, window);
    }

    method PushPath(ghost h: seq<Seen>, path: string)
      requires RingValid() && |h| > 0 && h[..|h| - 1] == history && h[|h| - 1].path == path
      modifies this`pathPos, this`pathFull, this`pathDirty, this`history, pathBuf
      ensures RingValid() && history == h
    {
      RingPush(pathBuf[..], pathPos, pathFull, h);
      WriteSlot(path);
      pathDirty := true;
      history := h;
    }

    method WriteSlot(path: string)
      requires pathPos < pathBuf.Length == PATH_BUF_SIZE
      modifies this`pathPos, this`pathFull, pathBuf
      ensures pathBuf[..] == old(pathBuf[..])[old(pathPos) := path]
      ensures pathPos == (old(pathPos) + 1) % PATH_BUF_SIZE
      ensures pathFull == (old(pathFull) || pathPos == 0)
    {
      pathBuf[pathPos] := path;
      pathPos := (pathPos + 1) % PATH_BUF_SIZE;
      if !pathFull && pathPos == 0 {
        pathFull := true;
      }
    }

    method UpdateRate(reqTime: Time, w: int)
      modifies this`rateWindowStart, this`rateCurrCount, this`ratePrevCount
      ensures Counters() == Advance(old(Counters()), w, reqTime)
    {
      if rateWindowStart == 0 {
        rateWindowStart := reqTime;
        rateCurrCount := 1;
        return;
      }
      var elapsed := reqTime - rateWindowStart;
      if elapsed >= 2 * w {
        rateWindowStart := reqTime;
        rateCurrCount := 1;
        ratePrevCount := 0;
      } else if elapsed >= w {
        ratePrevCount := rateCurrCount;
        rateCurrCount := 1;
        rateWindowStart := rateWindowStart + w;
      } else {
        rateCurrCount := rateCurrCount + 1;
      }
    }

    /** The last paths of this IP's history in order, whether or not the cache is rebuilt. */
    method RecentPaths() returns (result: seq<string>)
      requires Valid()
      modifies this`pathCache, this`pathDirty
      ensures Valid() && history == old(history)
      ensures result == RecentOf(history)
      ensures |result| == if |history| < 64 then |history| else 64
      ensures forall i :: 0 <= i < |result| ==> result[i] == history[|history| - |result| + i].path
    {
      if !pathDirty {
        return pathCache;
      }
      assert Look(history);
      if !pathFull {
        result := pathBuf[..pathPos];
        assert pathBuf[..][..pathPos] == result;
      } else {
        result := pathBuf[pathPos..] + pathBuf[..pathPos];
        assert pathBuf[..][pathPos..] + pathBuf[..][..pathPos] == result;
      }
      assert result == RecentOf(history);
      pathCache := result;
      pathDirty := false;
    }

    /** The rate that the whole history calls for. */
    function ApproxRate(window: int, now: Time): (rate: real)
      reads this, pathBuf
      requires Valid()
      ensures rate == Read(RateOf(history), window, now)
    {
      Read(Rate(rateWindowStart, rateCurrCount, ratePrevCount), window, now)
    }

    method SetScore(newScore: int, at: Time)
      requires Valid()
      modifies this`score, this`scoreUpdatedAt
      ensures Valid() && score == newScore && scoreUpdatedAt == at
    {
      score := newScore;
      scoreUpdatedAt := at;
    }
  }

  function Position<T(==)>(s: seq<T>, x: T): (i: nat)
    requires x in s
    ensures i < |s| && s[i] == x
  {
    if s[0] == x then 0 else 1 + Position(s[1..], x)
  }

  /** Marks the states whose validity a proof looks at. */
  ghost predicate Member(s: IPState) {
    true
  }

  /** No state occurs twice and no two states share a path buffer. */
  ghost predicate Separate(s: seq<IPState>) {
    forall i, j :: 0 <= i < j < |s| ==> s[i] != s[j] && s[i].pathBuf != s[j].pathBuf
  }

  lemma ToFront(s: seq<IPState>, k: nat)
    requires k < |s| && Separate(s)
    ensures
      var r := [s[k]] + Without(s, k);
      Separate(r) && forall x :: x in s <==> x in r
  {
    var r := [s[k]] + Without(s, k);
    assert forall i {:trigger r[i]} :: 1 <= i < |r| ==> r[i] == s[Before(i, k)];
    forall i, j | 0 <= i < j < |r| ensures r[i] != r[j] && r[i].pathBuf != r[j].pathBuf {
      if i > 0 {
        assert Before(i, k) < Before(j, k);
      } else {
        assert Before(j, k) != k;
      }
    }
    forall x | x in s ensures x in r {
      var j :| 0 <= j < |s| && s[j] == x;
      assert r[if j < k then j + 1 else if j == k then 0 else j] == x;
    }
  }

  lemma Cut(s: seq<IPState>, k: nat)
    requires k < |s| && Separate(s)
    ensures Separate(Without(s, k))
    ensures forall x :: x in Without(s, k) <==> x in s && x != s[k]
  {
    var r := Without(s, k);
    forall x | x in s && x != s[k] ensures x in r {
      var j :| 0 <= j < |s| && s[j] == x;
      assert r[if j < k then j else j - 1] == x;
    }
  }

  datatype Stats = Stats(trackedIPs: nat, totalRequests: nat, suspicious: nat)

  class Tracker {
    var states: map<string, IPState>
    /** Front = most recently updated, back = eviction candidate. */
    var lru: seq<IPState>
    const maxIPs: int
    var rateWindow: int
    var retention: int

    /** Every request and every collection so far. */
    ghost var log: seq<Step>
    /** The ledger of `log`. */
    ghost var ledger: Ledger

    constructor (maxIPs: int, rateWindow: int, retention: int)
      ensures Valid() && log == [] && states == map[]
      ensures this.maxIPs == maxIPs && this.retention == retention
      ensures this.rateWindow == if rateWindow <= 0 then 60_000_000_000 else rateWindow
    {
      states, lru := map[], [];
      this.maxIPs := maxIPs;
      this.rateWindow := if rateWindow <= 0 then DEFAULT_RATE_WINDOW else rateWindow;
      this.retention := retention;
      log, ledger := [], LedgerOf([], maxIPs);
    }

    ghost function Order(): seq<Slot>
      reads this`ledger
    {
      ledger.order
    }

    /** The list holds exactly the map's states, each once, with separate path buffers. */
    ghost predicate Linked()
      reads this`states, this`lru
    {
      && |states| == |lru|
      && (forall i :: 0 <= i < |lru| ==> lru[i].ip in states && states[lru[i].ip] == lru[i])
      && Separate(lru)
    }

    ghost predicate Held()
      reads this`lru, lru, set s | s in lru :: s.pathBuf
    {
      forall s {:trigger Member(s)} :: Member(s) && s in lru ==> s.Valid() && s.history != []
    }

    /** The list shows the ledger of the log: same IPs, same order, same request counts. */
    ghost predicate Mirrors()
      reads this`lru, this`ledger, lru
    {
      Shows(Order())
    }

    ghost predicate Shows(order: seq<Slot>)
      reads this`lru, lru
    {
      && |lru| == |order|
      && forall i :: 0 <= i < |lru| ==> order[i] == Slot(lru[i].ip, lru[i].totalRequests)
    }

    ghost predicate Valid()
      reads this, lru, set s | s in lru :: s.pathBuf
    {
      Linked() && Held() && Mirrors() && rateWindow > 0 && Journal(ledger, log, maxIPs)
    }

    /** Every state of the map is in the list. */
    lemma InList(ip: string)
      requires Linked() && ip in states
      ensures states[ip] in lru && states[ip].ip == ip
    {
      forall i, j | 0 <= i < j < |lru| ensures lru[i].ip != lru[j].ip {
        assert states[lru[i].ip] != states[lru[j].ip];
      }
      DistinctSize(lru);
      var listed := set i | 0 <= i < |lru| :: lru[i].ip;
      assert listed <= states.Keys;
      if ip !in listed {
        SubsetSize(listed + {ip}, states.Keys);
      }
    }

    method EvictLRU()
      requires Linked()
      modifies this`states, this`lru
      ensures Linked()
      ensures lru == if old(lru) == [] then [] else old(lru)[..|old(lru)| - 1]
      ensures states.Keys <= old(states).Keys
    {
      if |lru| == 0 {
        return;
      }
      var st := lru[|lru| - 1];
      states := states - {st.ip};
      lru := lru[..|lru| - 1];
    }

    method MoveToFront(st: IPState, ghost k: nat)
      requires Linked() && k < |lru| && lru[k] == st
      modifies this`lru
      ensures Linked() && lru == [st] + Without(old(lru), k)
    {
      var i := Position(lru, st);
      ToFront(lru, i);
      lru := [st] + Without(lru, i);
    }

    method PushFront(st: IPState)
      requires Linked() && st.ip !in states
      requires forall i :: 0 <= i < |lru| ==> lru[i] != st && lru[i].pathBuf != st.pathBuf
      modifies this`states, this`lru
      ensures Linked() && lru == [st] + old(lru)
    {
      states := states[st.ip := st];
      lru := [st] + lru;
    }

    /** Adds a new state, after evicting the oldest one if the tracker is full. */
    method Insert(ip: string, time: Time) returns (st: IPState)
      requires Linked() && ip !in states
      modifies this`states, this`lru
      ensures Linked() && lru == [st] + old(Rest(|lru|))
      ensures st.ip == ip && st.Valid() && fresh(st) && fresh(st.pathBuf) && st.history == [] && st.score == 0
      ensures st.firstSeen == time
    {
      if |states| >= maxIPs {
        EvictLRU();
      }
      st := new IPState(ip, time);
      PushFront(st);
    }

    /** Finds or creates the state of `ip` and puts it at the front of the list. */
    method Touch(ip: string, time: Time, ghost k: nat) returns (st: IPState)
      requires Linked() && At(ip, k)
      modifies this`states, this`lru
      ensures Linked() && st.ip == ip && lru == [st] + old(Rest(k))
      ensures
        if k < |old(lru)| then st == old(lru)[k]
        else fresh(st) && fresh(st.pathBuf) && st.Valid() && st.history == [] && st.score == 0 && st.firstSeen == time
    {
      if ip !in states {
        st := Insert(ip, time);
      } else {
        st := states[ip];
        MoveToFront(st, k);
      }
    }

    /** `k` is the list position of `ip`, or the length of the list when it is not tracked. */
    ghost predicate At(ip: string, k: nat)
      reads this`states, this`lru
    {
      if ip in states then k < |lru| && lru[k] == states[ip] && lru[k].ip == ip else k == |lru|
    }

    /** What stays behind the front when position `k` (or a newcomer) moves there. */
    ghost function Rest(k: nat): seq<IPState>
      reads this`lru
    {
      if k < |lru| then Without(lru, k)
      else if |lru| >= maxIPs && |lru| > 0 then lru[..|lru| - 1]
      else lru
    }

    lemma TrackedInMap(ip: string)
      requires Linked() && Mirrors()
      ensures At(ip, Find(Order(), ip))
    {
      if ip in states {
        InList(ip);
        var i :| 0 <= i < |lru| && lru[i] == states[ip];
        assert Order()[i].ip == ip;
      }
    }

    /** Counts one log entry for its IP and returns the IP's state. */
    method Update(entry: LogEntry) returns (st: IPState)
      requires Valid()
      modifies this`states, this`lru, this`log, this`ledger, lru, set s | s in lru :: s.pathBuf
      ensures Valid() && log == old(log) + [Hit(entry.realIP)]
      ensures InFront(entry.realIP, st)
      ensures if entry.realIP in old(states) then st == old(states)[entry.realIP] else st.firstSeen == entry.time
      ensures st.history ==
        (if entry.realIP in old(states) then old(states[entry.realIP].history) else []) +
        [Seen(entry.path, entry.status == 404, entry.time, rateWindow)]
      ensures st.score == if entry.realIP in old(states) then old(states[entry.realIP].score) else 0
      ensures forall s :: s in old(lru) && s != st ==> s.history == old(s.history) && s.score == old(s.score)
    {
      ghost var k, next := AfterHit(entry.realIP);
      log, ledger := log + [Hit(entry.realIP)], next;
      st := AdmitAndRecord(entry, k, next.order);
    }

    /** The state is that of the IP, in the map and at the front of the list. */
    ghost predicate InFront(ip: string, st: IPState)
      reads this`states, this`lru
    {
      lru != [] && lru[0] == st && ip in states && states[ip] == st && st.ip == ip
    }

    method AdmitAndRecord(entry: LogEntry, ghost k: nat, ghost next: seq<Slot>) returns (st: IPState)
      requires Linked() && Held() && At(entry.realIP, k) && Follows(entry.realIP, k, next)
      modifies this`states, this`lru, lru, set s | s in lru :: s.pathBuf
      ensures Linked() && Held() && Shows(next)
      ensures InFront(entry.realIP, st)
      ensures if entry.realIP in old(states) then st == old(states)[entry.realIP] else st.firstSeen == entry.time
      ensures st.history ==
        (if entry.realIP in old(states) then old(states[entry.realIP].history) else []) +
        [Seen(entry.path, entry.status == 404, entry.time, rateWindow)]
      ensures st.score == if entry.realIP in old(states) then old(states[entry.realIP].score) else 0
      ensures forall s :: s in old(lru) && s != st ==> s.history == old(s.history) && s.score == old(s.score)
    {
      st := Admit(entry.realIP, entry.time, k, next);
      RecordFront(st, entry, next);
    }

    /** The ledger after a request of `ip`, and how the list has to change to show it. */
    lemma AfterHit(ip: string) returns (k: nat, next: Ledger)
      requires Linked() && Mirrors() && Journal(ledger, log, maxIPs)
      ensures At(ip, k) && Follows(ip, k, next.order)
      ensures Journal(next, log + [Hit(ip)], maxIPs)
    {
      k, next := Find(Order(), ip), Apply(ledger, Hit(ip), maxIPs);
      TrackedInMap(ip);
      JournalGrows(ledger, log, Hit(ip), maxIPs);
      if k < |lru| {
        assert next.order == [Slot(ip, lru[k].totalRequests + 1)] + Without(Order(), k);
      } else if |lru| >= maxIPs && |lru| > 0 {
        assert next.order == [Slot(ip, 1)] + Order()[..|lru| - 1];
      } else {
        assert next.order == [Slot(ip, 1)] + Order();
      }
    }

    /** Brings the state of `ip` to the front, ready to count a request. */
    method Admit(ip: string, time: Time, ghost k: nat, ghost next: seq<Slot>) returns (st: IPState)
      requires Linked() && Held() && At(ip, k) && Follows(ip, k, next)
      modifies this`states, this`lru
      ensures Linked() && lru != [] && lru[0] == st && st.ip == ip && st.Valid()
      ensures st.history == if ip in old(states) then old(states[ip].history) else []
      ensures st.score == if ip in old(states) then old(states[ip].score) else 0
      ensures RestHeld() && FrontMirrors(next)
      ensures
        if ip in old(states) then st == old(states)[ip] && st in old(lru)
        else fresh(st) && fresh(st.pathBuf) && st.firstSeen == time
      ensures forall i :: 1 <= i < |lru| ==> lru[i] in old(lru)
    {
      FollowsMembers(ip, k, next);
      st := Touch(ip, time, k);
      assert forall i :: 1 <= i < |lru| ==> lru[i] == old(Rest(k))[i - 1];
      StillHeld(st);
    }

    lemma FollowsMembers(ip: string, k: nat, next: seq<Slot>)
      requires Follows(ip, k, next)
      ensures forall i :: 0 <= i < |Rest(k)| ==> Rest(k)[i] in lru
    {
    }

    /** Reordering the list keeps what its states hold. */
    twostate lemma StillHeld(new st: IPState)
      requires old(Held()) && lru != [] && lru[0] == st
      requires forall s :: s in old(lru) ==> unchanged(s) && unchanged(s.pathBuf)
      requires forall i :: 1 <= i < |lru| ==> lru[i] in old(lru)
      ensures RestHeld()
      ensures st in old(lru) ==> st.Valid()
    {
      assert Member(st);
    }

    /** `next` is the list that a request of `ip`, now at position `k`, leads to. */
    ghost predicate Follows(ip: string, k: nat, next: seq<Slot>)
      reads this`lru, lru
    {
      var rest := Rest(k);
      && |next| == |rest| + 1
      && next[0] == Slot(ip, if k < |lru| then lru[k].totalRequests + 1 else 1)
      && forall i :: 0 <= i < |rest| ==> next[i + 1] == Slot(rest[i].ip, rest[i].totalRequests)
    }

    ghost predicate RestHeld()
      reads this`lru, lru, set s | s in lru :: s.pathBuf
    {
      forall s {:trigger Member(s)} :: Member(s) && s in lru && s != lru[0] ==> s.Valid() && s.history != []
    }

    /** The list shows `order`, except that the front state has not counted its request yet. */
    ghost predicate FrontMirrors(order: seq<Slot>)
      reads this`lru, lru
    {
      && |lru| == |order| > 0
      && order[0] == Slot(lru[0].ip, lru[0].totalRequests + 1)
      && forall i :: 1 <= i < |lru| ==> order[i] == Slot(lru[i].ip, lru[i].totalRequests)
    }

    /** Records the entry in the front state. */
    method RecordFront(st: IPState, entry: LogEntry, ghost order: seq<Slot>)
      requires lru != [] && st == lru[0] && st.Valid() && Separate(lru)
      requires RestHeld() && FrontMirrors(order)
      modifies st, st.pathBuf
      ensures Held() && Shows(order)
      ensures st.history == old(st.history) + [Seen(entry.path, entry.status == 404, entry.time, rateWindow)]
      ensures st.score == old(st.score)
    {
      st.Record(entry, rateWindow);
      forall s {:trigger Member(s)} | Member(s) && s in lru ensures s.Valid() && s.history != [] {
        assert s != st ==> s.pathBuf != st.pathBuf;
      }
    }

    method Unlink(st: IPState, ghost k: nat)
      requires Linked() && k < |lru| && lru[k] == st
      modifies this`states, this`lru
      ensures Linked() && states == old(states) - {st.ip} && lru == Without(old(lru), k)
    {
      var i := Position(lru, st);
      Cut(lru, i);
      lru := Without(lru, i);
      states := states - {st.ip};
    }

    /** Removes one state from the map and the list. */
    method Remove(ip: string)
      requires Valid() && ip in states
      modifies this`states, this`lru, this`log, this`ledger
      ensures Valid() && states == old(states) - {ip}
      ensures log == old(log) + [Drop(ip)] && HitCount(log) == HitCount(old(log))
    {
      ghost var k, next := AfterDrop(ip);
      log, ledger := log + [Drop(ip)], next;
      Unlink(states[ip], k);
      assert Shows(next.order);
    }

    lemma AfterDrop(ip: string) returns (k: nat, next: Ledger)
      requires Linked() && Mirrors() && Journal(ledger, log, maxIPs) && ip in states
      ensures At(ip, k) && |next.order| == |lru| - 1
      ensures forall i :: 0 <= i < |next.order| ==>
        next.order[i] == Slot(Without(lru, k)[i].ip, Without(lru, k)[i].totalRequests)
      ensures Journal(next, log + [Drop(ip)], maxIPs) && HitCount(log + [Drop(ip)]) == HitCount(log)
    {
      k, next := Find(Order(), ip), Apply(ledger, Drop(ip), maxIPs);
      TrackedInMap(ip);
      JournalGrows(ledger, log, Drop(ip), maxIPs);
      assert next.order == Without(Order(), k);
    }

    ghost predicate Stale(ip: string, threshold: Time)
      reads this`states, states.Values
      requires ip in states
    {
      states[ip].lastSeen < threshold
    }

    /** Collects exactly the IPs not seen since `now - retention`. */
    method RunGC(now: Time) returns (deleted: nat, remaining: nat)
      requires Valid()
      modifies this`states, this`lru, this`log, this`ledger
      ensures Valid() && old(log) <= log && HitCount(log) == HitCount(old(log))
      ensures states == map ip | ip in old(states) && !old(Stale(ip, now - retention)) :: old(states)[ip]
      ensures remaining == |states| && deleted + remaining == |old(states)|
    {
      var threshold := now - retention;
      deleted := 0;
      var todo := states.Keys;
      while todo != {}
        invariant Valid() && old(log) <= log && HitCount(log) == HitCount(old(log))
        invariant todo <= states.Keys <= old(states).Keys
        invariant forall ip :: ip in states ==> states[ip] == old(states)[ip]
        invariant forall ip :: ip in old(states) ==>
          (ip in states <==> ip in todo || !old(Stale(ip, threshold)))
        invariant deleted + |states| == |old(states)|
        decreases todo
      {
        var ip :| ip in todo;
        todo := todo - {ip};
        if states[ip].lastSeen < threshold {
          Remove(ip);
          deleted := deleted + 1;
        }
      }
      remaining := |states|;
    }

    lemma LedgerFacts()
      requires Linked() && Mirrors() && Journal(ledger, log, maxIPs)
      ensures |states| == |Order()| <= Capacity(maxIPs)
      ensures SumVisited(Order(), states.Keys) == SumHits(Order())
      ensures SumHits(Order()) + ledger.lost == HitCount(log)
    {
      SumVisitedAll(Order(), states.Keys);
      JournalLedger(ledger, log, maxIPs);
      RecencyOrder(log, maxIPs);
      Conservation(log, maxIPs);
    }

    lemma Visit(ip: string, visited: set<string>)
      requires Linked() && Mirrors() && Journal(ledger, log, maxIPs) && ip in states && ip !in visited
      ensures SumVisited(Order(), visited + {ip}) == SumVisited(Order(), visited) + states[ip].totalRequests
    {
      TrackedInMap(ip);
      JournalLedger(ledger, log, maxIPs);
      RecencyOrder(log, maxIPs);
      DistinctIps(Order(), log);
      SumVisitedAdd(Order(), visited, Find(Order(), ip));
    }

    /** The tracked requests, together with those lost to eviction and collection, are all
        requests ever counted. */
    method GetStats() returns (s: Stats)
      requires Valid()
      ensures s.trackedIPs == |states| == |lru| <= Capacity(maxIPs)
      ensures s.totalRequests == SumHits(Order())
      ensures s.totalRequests + ledger.lost == HitCount(log)
      ensures s.suspicious == |set ip | ip in states && states[ip].score > 0|
    {
      var total, suspicious := CountAll();
      LedgerFacts();
      s := Stats(|states|, total, suspicious);
    }

    method CountAll() returns (total: nat, suspicious: nat)
      requires Linked() && Mirrors() && Journal(ledger, log, maxIPs)
      ensures total == SumVisited(Order(), states.Keys)
      ensures suspicious == |set ip | ip in states && states[ip].score > 0|
    {
      total, suspicious := 0, 0;
      var todo := states.Keys;
      ghost var visited, hot: set<string> := {}, {};
      ghost var order := Order();
      SumVisitedNone(order);
      while todo != {}
        invariant visited == states.Keys - todo && todo <= states.Keys
        invariant total == SumVisited(order, visited)
        invariant suspicious == |hot|
        invariant forall ip :: ip in hot <==> ip in visited && states[ip].score > 0
        decreases todo
      {
        var ip :| ip in todo;
        Visit(ip, visited);
        total := total + states[ip].totalRequests;
        if states[ip].score > 0 {
          suspicious := suspicious + 1;
          hot := hot + {ip};
        }
        todo, visited := todo - {ip}, visited + {ip};
      }
      assert visited == states.Keys;
      assert hot == set ip | ip in states && states[ip].score > 0;
    }

    method Reconfigure(newRateWindow: int, newRetention: int)
      requires Valid()
      modifies this`rateWindow, this`retention
      ensures Valid() && retention == newRetention
      ensures rateWindow == if newRateWindow <= 0 then 60_000_000_000 else newRateWindow
    {
      rateWindow := if newRateWindow <= 0 then DEFAULT_RATE_WINDOW else newRateWindow;
      retention := newRetention;
    }
  }

  /** The requests of those slots whose IP is in `visited`. */
  function SumVisited(order: seq<Slot>, visited: set<string>): nat {
    if order == [] then 0
    else (if order[0].ip in visited then order[0].hits else 0) + SumVisited(order[1..], visited)
  }

  lemma {:induction false} SumVisitedNone(order: seq<Slot>)
    ensures SumVisited(order, {}) == 0
  {
    if order == [] {
    } else {
      SumVisitedNone(order[1..]);
    }
  }

  lemma {:induction false} SumVisitedAll(order: seq<Slot>, visited: set<string>)
    requires forall i :: 0 <= i < |order| ==> order[i].ip in visited
    ensures SumVisited(order, visited) == SumHits(order)
  {
    if order == [] {
    } else {
      SumVisitedAll(order[1..], visited);
    }
  }

  lemma {:induction false} SumVisitedAdd(order: seq<Slot>, visited: set<string>, k: nat)
    requires k < |order| && order[k].ip !in visited
    requires forall i, j :: 0 <= i < j < |order| ==> order[i].ip != order[j].ip
    ensures SumVisited(order, visited + {order[k].ip}) == SumVisited(order, visited) + order[k].hits
  {
    if k > 0 {
      SumVisitedAdd(order[1..], visited, k - 1);
    } else {
      SumVisitedSame(order[1..], visited, order[0].ip);
    }
  }

  lemma {:induction false} SumVisitedSame(order: seq<Slot>, visited: set<string>, ip: string)
    requires forall i :: 0 <= i < |order| ==> order[i].ip != ip
    ensures SumVisited(order, visited + {ip}) == SumVisited(order, visited)
  {
    if order == [] {
    } else {
      SumVisitedSame(order[1..], visited, ip);
    }
  }

  lemma {:induction false} DistinctSize(s: seq<IPState>)
    requires forall i, j :: 0 <= i < j < |s| ==> s[i].ip != s[j].ip
    ensures |set i | 0 <= i < |s| :: s[i].ip| == |s|
  {
    if s == [] {
    } else {
      var n := |s| - 1;
      DistinctSize(s[..n]);
      assert (set i | 0 <= i < |s| :: s[i].ip) == (set i | 0 <= i < n :: s[..n][i].ip) + {s[n].ip};
    }
  }
}
