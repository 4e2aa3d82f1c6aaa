/** The DNS verification cache under concurrent use: every lock-protected section of Get and Set
    is one atomic step, and the steps of any number of threads interleave freely. */
module IpCache {
  import opened Basics

  type Thread = nat

  datatype Entry = Entry(verified: bool, isFakeBot: bool, expiresAt: Time)

  datatype Outcome = Miss | Hit(verified: bool, isFakeBot: bool)

  /** Where a thread stands inside Get: called; the entry read under the read lock but not yet
      judged; found expired, waiting for the write lock; about to return. */
  datatype Phase =
    | Idle
    | Called(ip: string)
    | Fetched(ip: string, found: Option<Entry>)
    | Expired(ip: string)
    | Done(ip: string, result: Outcome)

  datatype Ttls = Ttls(positive: int, negative: int)

  /** `latest` records what was last stored for every IP; the code does not have it. */
  datatype State = State(entries: map<string, Entry>, latest: map<string, Entry>, now: Time,
                         threads: map<Thread, Phase>)

  datatype Action =
    | Call(thread: Thread, ip: string)
    | ReadLocked(thread: Thread)
    | Judge(thread: Thread)
    | WriteLocked(thread: Thread)
    | Return(thread: Thread)
    | Set(ip: string, verified: bool, isFakeBot: bool)
    | Tick(elapsed: nat)

  function Find(m: map<string, Entry>, ip: string): Option<Entry> {
    if ip in m then Some(m[ip]) else None
  }

  /** The atomic lookup of the ideal cache: the latest stored entry, if it is still live. */
  function LookupIn(found: Option<Entry>, now: Time): Outcome {
    if found.Some? && !(now > found.value.expiresAt) then Hit(found.value.verified, found.value.isFakeBot) else Miss
  }

  function Lookup(s: State, ip: string): Outcome {
    LookupIn(Find(s.latest, ip), s.now)
  }

  function PhaseOf(s: State, t: Thread): Phase {
    if t in s.threads then s.threads[t] else Idle
  }

  function Goto(s: State, t: Thread, p: Phase): State {
    s.(threads := s.threads[t := p])
  }

  /** One step; a step that is not possible in the thread's phase changes nothing. */
  function Apply(s: State, a: Action, ttl: Ttls): State {
    match a
    case Call(t, ip) => if PhaseOf(s, t).Idle? then Goto(s, t, Called(ip)) else s
    case ReadLocked(t) =>
      var p := PhaseOf(s, t);
      if p.Called? then Goto(s, t, Fetched(p.ip, Find(s.entries, p.ip))) else s
    case Judge(t) =>
      var p := PhaseOf(s, t);
      if !p.Fetched? then s
      else if p.found.None? then Goto(s, t, Done(p.ip, Miss))
      else if !(s.now > p.found.value.expiresAt) then
        Goto(s, t, Done(p.ip, Hit(p.found.value.verified, p.found.value.isFakeBot)))
      else Goto(s, t, Expired(p.ip))
    case WriteLocked(t) =>
      var p := PhaseOf(s, t);
      if !p.Expired? then s
      else if p.ip !in s.entries then Goto(s, t, Done(p.ip, Miss))
      else if !(s.now > s.entries[p.ip].expiresAt) then
        Goto(s, t, Done(p.ip, Hit(s.entries[p.ip].verified, s.entries[p.ip].isFakeBot)))
      else Goto(s, t, Done(p.ip, Miss)).(entries := s.entries - {p.ip})
    case Return(t) => if PhaseOf(s, t).Done? then Goto(s, t, Idle) else s
    case Set(ip, verified, isFakeBot) =>
      var e := Entry(verified, isFakeBot, s.now + if verified then ttl.positive else ttl.negative);
      s.(entries := s.entries[ip := e], latest := s.latest[ip := e])
    case Tick(elapsed) => s.(now := s.now + elapsed)
  }

  /** The state after the first `k` steps of a run that starts with an empty cache. */
  function After(run: seq<Action>, k: nat, start: Time, ttl: Ttls): State
    requires k <= |run|
  {
    if k == 0 then State(map[], map[], start, map[])
    else Apply(After(run, k - 1, start, ttl), run[k - 1], ttl)
  }

  /** The stored map differs from the ideal one only by entries that have expired. */
  ghost predicate Faithful(s: State) {
    && (forall ip :: ip in s.entries ==> ip in s.latest && s.entries[ip] == s.latest[ip])
    && (forall ip :: ip in s.latest && ip !in s.entries ==> s.now > s.latest[ip].expiresAt)
  }

  lemma StepKeepsFaithful(s: State, a: Action, ttl: Ttls)
    requires Faithful(s)
    ensures Faithful(Apply(s, a, ttl)) && s.now <= Apply(s, a, ttl).now
  {
  }

  lemma {:induction false} AlwaysFaithful(run: seq<Action>, k: nat, start: Time, ttl: Ttls)
    requires k <= |run|
    ensures Faithful(After(run, k, start, ttl))
  {
    if k <= 0 {
    } else {
      AlwaysFaithful(run, k - 1, start, ttl);
      StepKeepsFaithful(After(run, k - 1, start, ttl), run[k - 1], ttl);
    }
  }

  /** In a reachable state the stored map answers every lookup as the ideal one does. */
  lemma StoredLookup(s: State, ip: string)
    requires Faithful(s)
    ensures LookupIn(Find(s.entries, ip), s.now) == Lookup(s, ip)
  {
  }

  /** In every run, the slow path deletes only entries that have expired, and no step of Get
      changes what any lookup would return. */
  lemma DeleteIsInvisible(run: seq<Action>, k: nat, start: Time, ttl: Ttls)
    requires k < |run| && !run[k].Set? && !run[k].Tick?
    ensures
      var s, s' := After(run, k, start, ttl), After(run, k + 1, start, ttl);
      && (forall ip :: ip in s.entries && ip !in s'.entries ==> s.now > s.entries[ip].expiresAt)
      && (forall ip :: Lookup(s', ip) == Lookup(s, ip))
      && (forall ip :: LookupIn(Find(s'.entries, ip), s'.now) == LookupIn(Find(s.entries, ip), s.now))
  {
    AlwaysFaithful(run, k, start, ttl);
  }

  /** What a phase after step `j` says about the call that started with step `i`. */
  ghost predicate Justified(run: seq<Action>, ip: string, i: nat, j: nat, start: Time, ttl: Ttls, phase: Phase)
    requires i < j <= |run|
  {
    match phase
    case Idle => false
    case Called(x) => x == ip
    case Expired(x) => x == ip
    case Fetched(x, found) => x == ip && exists k :: i < k <= j && SawEntry(run, ip, k, start, ttl, found, After(run, j, start, ttl).now)
    case Done(x, r) => x == ip && exists k :: i < k <= j && Answered(run, ip, k, start, ttl, r)
  }

  /** Marks the phases that a proof looks at. */
  ghost predicate Look(p: Phase) {
    true
  }

  /** The thread's phase after step `j` is justified; unfolded only where a proof looks at it. */
  ghost predicate Explained(run: seq<Action>, t: Thread, ip: string, i: nat, j: nat, start: Time, ttl: Ttls)
    requires i < j <= |run|
  {
    forall p {:trigger Look(p)} :: Look(p) && p == PhaseOf(After(run, j, start, ttl), t) ==>
      Justified(run, ip, i, j, start, ttl, p)
  }

  /** After step `k`, not later than `limit`, the stored entry for `ip` was `found`. */
  ghost predicate SawEntry(run: seq<Action>, ip: string, k: nat, start: Time, ttl: Ttls, found: Option<Entry>, limit: Time)
    requires k <= |run|
  {
    var s := After(run, k, start, ttl);
    Find(s.entries, ip) == found && s.now <= limit
  }

  /** After step `k` the ideal cache would answer `r`. */
  ghost predicate Answered(run: seq<Action>, ip: string, k: nat, start: Time, ttl: Ttls, r: Outcome)
    requires k <= |run|
  {
    Lookup(After(run, k, start, ttl), ip) == r
  }

  /** Thread `t` stays inside one Get call from step `i` on, up to step `j`. */
  ghost predicate InCall(run: seq<Action>, t: Thread, ip: string, i: nat, j: nat, start: Time, ttl: Ttls) {
    && i < j <= |run|
    && run[i] == Call(t, ip)
    && PhaseOf(After(run, i, start, ttl), t).Idle?
    && forall m :: i < m <= j ==> !PhaseOf(After(run, m, start, ttl), t).Idle?
  }

  /** The read-locked section has just seen the entry. */
  lemma ReadJustified(run: seq<Action>, t: Thread, ip: string, i: nat, j: nat, start: Time, ttl: Ttls)
    requires i < j < |run| && run[j] == ReadLocked(t) && PhaseOf(After(run, j, start, ttl), t) == Called(ip)
    ensures Justified(run, ip, i, j + 1, start, ttl, PhaseOf(After(run, j + 1, start, ttl), t))
  {
    var s' := After(run, j + 1, start, ttl);
    assert SawEntry(run, ip, j + 1, start, ttl, Find(s'.entries, ip), s'.now);
  }

  /** An entry that was seen and is judged live was live when it was seen. */
  lemma JudgeJustified(run: seq<Action>, t: Thread, ip: string, i: nat, j: nat, start: Time, ttl: Ttls)
    requires i < j < |run| && run[j] == Judge(t) && PhaseOf(After(run, j, start, ttl), t).Fetched?
    requires Justified(run, ip, i, j, start, ttl, PhaseOf(After(run, j, start, ttl), t))
    ensures Justified(run, ip, i, j + 1, start, ttl, PhaseOf(After(run, j + 1, start, ttl), t))
  {
    var s := After(run, j, start, ttl);
    var found, next := PhaseOf(s, t).found, PhaseOf(After(run, j + 1, start, ttl), t);
    var k :| i < k <= j && SawEntry(run, ip, k, start, ttl, found, s.now);
    AlwaysFaithful(run, k, start, ttl);
    StoredLookup(After(run, k, start, ttl), ip);
    assert next.Done? ==> Answered(run, ip, k, start, ttl, next.result);
  }

  /** The write-locked section answers for the state it leaves. */
  lemma WriteJustified(run: seq<Action>, t: Thread, ip: string, i: nat, j: nat, start: Time, ttl: Ttls)
    requires i < j < |run| && run[j] == WriteLocked(t) && PhaseOf(After(run, j, start, ttl), t) == Expired(ip)
    ensures Justified(run, ip, i, j + 1, start, ttl, PhaseOf(After(run, j + 1, start, ttl), t))
  {
    var s' := After(run, j + 1, start, ttl);
    AlwaysFaithful(run, j, start, ttl);
    StoredLookup(After(run, j, start, ttl), ip);
    assert Answered(run, ip, j + 1, start, ttl, PhaseOf(s', t).result);
  }

  /** A phase that stays as it is stays justified. */
  lemma StillJustified(run: seq<Action>, ip: string, i: nat, j: nat, start: Time, ttl: Ttls, p: Phase)
    requires i < j < |run| && Justified(run, ip, i, j, start, ttl, p)
    ensures Justified(run, ip, i, j + 1, start, ttl, p)
  {
    var s, s' := After(run, j, start, ttl), After(run, j + 1, start, ttl);
    AlwaysFaithful(run, j, start, ttl);
    StepKeepsFaithful(s, run[j], ttl);
    if p.Fetched? {
      var k :| i < k <= j && SawEntry(run, ip, k, start, ttl, p.found, s.now);
      assert SawEntry(run, ip, k, start, ttl, p.found, s'.now);
    } else if p.Done? {
      var k :| i < k <= j && Answered(run, ip, k, start, ttl, p.result);
      assert i < k <= j + 1;
    }
  }

  lemma ExplainedStep(run: seq<Action>, t: Thread, ip: string, i: nat, j: nat, start: Time, ttl: Ttls)
    requires i < j < |run| && Explained(run, t, ip, i, j, start, ttl)
    requires !PhaseOf(After(run, j + 1, start, ttl), t).Idle?
    ensures Explained(run, t, ip, i, j + 1, start, ttl)
  {
    var a, p := run[j], PhaseOf(After(run, j, start, ttl), t);
    assert Look(p);
    if a == ReadLocked(t) && p.Called? {
      ReadJustified(run, t, ip, i, j, start, ttl);
    } else if a == Judge(t) && p.Fetched? {
      JudgeJustified(run, t, ip, i, j, start, ttl);
    } else if a == WriteLocked(t) && p.Expired? {
      WriteJustified(run, t, ip, i, j, start, ttl);
    } else {
      StillJustified(run, ip, i, j, start, ttl, p);
    }
  }

  lemma InCallBefore(run: seq<Action>, t: Thread, ip: string, i: nat, j: nat, start: Time, ttl: Ttls)
    requires InCall(run, t, ip, i, j, start, ttl) && j > i + 1
    ensures InCall(run, t, ip, i, j - 1, start, ttl) && !PhaseOf(After(run, j, start, ttl), t).Idle?
  {
  }

  lemma {:induction false} CallExplained(run: seq<Action>, t: Thread, ip: string, i: nat, j: nat, start: Time, ttl: Ttls)
    requires InCall(run, t, ip, i, j, start, ttl)
    ensures Explained(run, t, ip, i, j, start, ttl)
  {
    if j > i + 1 {
      InCallBefore(run, t, ip, i, j, start, ttl);
      CallExplained(run, t, ip, i, j - 1, start, ttl);
      ExplainedStep(run, t, ip, i, j - 1, start, ttl);
    } else {
      CallStarts(run, t, ip, i, start, ttl);
    }
  }

  lemma CallStarts(run: seq<Action>, t: Thread, ip: string, i: nat, start: Time, ttl: Ttls)
    requires i < |run| && run[i] == Call(t, ip) && PhaseOf(After(run, i, start, ttl), t).Idle?
    ensures Explained(run, t, ip, i, i + 1, start, ttl)
  {
  }

  // ----- the answer a run calls for, said without the cache -----

  /** The time that has passed in the first `k` steps. */
  function Elapsed(run: seq<Action>, k: nat): nat
    requires k <= |run|
  {
    if k == 0 then 0 else Elapsed(run, k - 1) + if run[k - 1].Tick? then run[k - 1].elapsed else 0
  }

  /** The last of the first `k` steps that stored something for the address, or -1. */
  function LastSet(run: seq<Action>, k: nat, ip: string): (i: int)
    requires k <= |run|
    ensures -1 <= i < k
    ensures i >= 0 ==> run[i].Set? && run[i].ip == ip
    ensures forall j :: i < j < k ==> !(run[j].Set? && run[j].ip == ip)
  {
    if k == 0 then -1 else if run[k - 1].Set? && run[k - 1].ip == ip then k - 1 else LastSet(run, k - 1, ip)
  }

  /** After `k` steps the address counts as verified or as a fake bot just as it was last stored, for
      the positive TTL if it was stored as verified and for the negative one otherwise. */
  function AnswerOf(run: seq<Action>, k: nat, ip: string, ttl: Ttls): Outcome
    requires k <= |run|
  {
    var i := LastSet(run, k, ip);
    if i >= 0 && Elapsed(run, k) <= Elapsed(run, i) + (if run[i].verified then ttl.positive else ttl.negative)
    then Hit(run[i].verified, run[i].isFakeBot)
    else Miss
  }

  function Stored(a: Action, at: Time, ttl: Ttls): Entry
    requires a.Set?
  {
    Entry(a.verified, a.isFakeBot, at + if a.verified then ttl.positive else ttl.negative)
  }

  lemma {:induction false} LatestIsLastSet(run: seq<Action>, k: nat, ip: string, start: Time, ttl: Ttls)
    requires k <= |run|
    ensures
      var s, i := After(run, k, start, ttl), LastSet(run, k, ip);
      && s.now == start + Elapsed(run, k)
      && (ip in s.latest <==> i >= 0)
      && (i >= 0 ==> s.latest[ip] == Stored(run[i], start + Elapsed(run, i), ttl))
  {
    if k == 0 {
    } else {
      LatestIsLastSet(run, k - 1, ip, start, ttl);
    }
  }

  /** The ideal cache answers what the run calls for. */
  lemma LookupIsAnswer(run: seq<Action>, k: nat, ip: string, start: Time, ttl: Ttls)
    requires k <= |run|
    ensures Lookup(After(run, k, start, ttl), ip) == AnswerOf(run, k, ip, ttl)
  {
    LatestIsLastSet(run, k, ip, start, ttl);
  }

  /** Linearizability: in every interleaving of every number of Get and Set calls, what a Get
      returns is what the Set calls up to some instant during that call call for; so it never
      returns a value that had expired or been replaced by then. */
  lemma GetIsAtomic(run: seq<Action>, t: Thread, ip: string, i: nat, j: nat, start: Time, ttl: Ttls)
    requires InCall(run, t, ip, i, j, start, ttl)
    requires PhaseOf(After(run, j, start, ttl), t).Done?
    ensures exists k :: i < k <= j && PhaseOf(After(run, j, start, ttl), t).result == AnswerOf(run, k, ip, ttl)
  {
    CallExplained(run, t, ip, i, j, start, ttl);
    var p := PhaseOf(After(run, j, start, ttl), t);
    assert Look(p);
    var k :| i < k <= j && Answered(run, ip, k, start, ttl, p.result);
    LookupIsAnswer(run, k, ip, start, ttl);
  }

  // ----- progress -----

  /** How many sections a call may still need before it can return. */
  function Remaining(p: Phase): nat {
    match p
    case Called(_) => 3
    case Fetched(_, _) => 2
    case Expired(_) => 1
    case Idle => 0
    case Done(_, _) => 0
  }

  /** The section that a thread in the middle of a call runs next. */
  function NextOf(p: Phase, t: Thread): Action
    requires Remaining(p) > 0
  {
    match p
    case Called(_) => ReadLocked(t)
    case Fetched(_, _) => Judge(t)
    case Expired(_) => WriteLocked(t)
  }

  /** Every section brings its own thread closer to the end and moves no other thread, so a call
      returns after at most three sections, however the others interleave. */
  lemma SectionsAdvance(s: State, t: Thread, u: Thread, ttl: Ttls)
    requires Remaining(PhaseOf(s, t)) > 0
    ensures
      var s' := Apply(s, NextOf(PhaseOf(s, t), t), ttl);
      && Remaining(PhaseOf(s', t)) < Remaining(PhaseOf(s, t)) && !PhaseOf(s', t).Idle?
      && (u != t ==> PhaseOf(s', u) == PhaseOf(s, u))
  {
  }

  /** A section that is not the thread's next one, and every Set and Tick, leaves it where it is. */
  lemma OthersWait(s: State, t: Thread, a: Action, ttl: Ttls)
    requires Remaining(PhaseOf(s, t)) > 0 && a != NextOf(PhaseOf(s, t), t)
    ensures PhaseOf(Apply(s, a, ttl), t) == PhaseOf(s, t)
  {
  }
}
