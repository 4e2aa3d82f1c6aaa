/** What all executors live in: the clock, cancellation, the deduplication window, the levels, and
    the events and timers that drive them. */
module Environment {
  import opened Basics

  /** A clock that never runs backwards. */
  class Clock {
    var t: Time
    /** The longest time between two readings that belong to one record. */
    ghost var gap: nat

    method Now() returns (now: Time)
      modifies this`t
      ensures now == t && old(t) <= t
    {
      var elapsed: int := *;
      if elapsed > 0 {
        t := t + elapsed;
      }
      now := t;
    }

    /** Two readings for one record, one after the other. */
    method Twice() returns (first: Time, second: Time)
      modifies this
      ensures old(t) <= first <= second == t
      ensures gap == if second - first > old(gap) then second - first else old(gap)
    {
      first := Now();
      second := Now();
      if second - first > gap {
        gap := second - first;
      }
    }
  }

  /** Cancellation, which can happen at any moment and is never undone. */
  class Context {
    var done: bool

    /** Waiting for a timer or for cancellation, whichever is seen first. */
    method Wait() returns (cancelled: bool)
      modifies this
      ensures old(done) ==> done
      ensures cancelled ==> done
    {
      cancelled := *;
      if cancelled {
        done := true;
      }
      var later: bool := *;
      done := done || later;
    }

    /** Looks whether the context is cancelled by now. */
    method Check() returns (cancelled: bool)
      modifies this
      ensures old(done) ==> done
      ensures cancelled == done
    {
      var later: bool := *;
      done := done || later;
      cancelled := done;
    }
  }

  /** The deduplication window; only this contract of it is known. A window of 0 is disabled,
      and an entry may expire at any time. */
  class Window {
    const ttl: int
    var marks: set<string>

    constructor (ttl: int)
      ensures this.ttl == ttl && marks == {}
    {
      this.ttl, marks := ttl, {};
    }

    method Contains(ip: string) returns (found: bool)
      ensures found ==> ttl > 0 && ip in marks
    {
      found := *;
      if !(ttl > 0 && ip in marks) {
        found := false;
      }
    }

    method MarkBatch(ips: set<string>)
      modifies this`marks
      ensures marks == old(marks) + ips
    {
      marks := marks + ips;
    }
  }

  /** The known levels in ascending order; any other level is below every threshold. */
  function LevelOrder(level: string): int {
    match level
    case "INFO" => 0
    case "WARN" => 1
    case "THREAT" => 2
    case _ => -1
  }

  predicate MeetsMinLevel(level: string, minLevel: string) {
    LevelOrder(level) >= 0 && LevelOrder(level) >= LevelOrder(minLevel)
  }

  /** Only the three known levels count, and the threshold shuts out those below it; an unknown
      threshold shuts out none. */
  lemma MeetsMinLevelIff(level: string, minLevel: string)
    ensures MeetsMinLevel(level, minLevel) <==>
      || level == "THREAT"
      || (level == "WARN" && minLevel != "THREAT")
      || (level == "INFO" && minLevel != "THREAT" && minLevel != "WARN")
  {
  }

  /** What an executor reads: an event, or one of its two timers. */
  datatype Input = Event(ip: string, level: string) | FlushTick | SweepTick

  function EventCount(inputs: seq<Input>): nat {
    if inputs == [] then 0
    else EventCount(inputs[..|inputs| - 1]) + if inputs[|inputs| - 1].Event? then 1 else 0
  }

  function SweepCount(inputs: seq<Input>): nat {
    if inputs == [] then 0
    else SweepCount(inputs[..|inputs| - 1]) + if inputs[|inputs| - 1].SweepTick? then 1 else 0
  }

  lemma CountsGrow(inputs: seq<Input>, i: nat)
    requires i < |inputs|
    ensures EventCount(inputs[..i + 1]) == EventCount(inputs[..i]) + if inputs[i].Event? then 1 else 0
    ensures SweepCount(inputs[..i + 1]) == SweepCount(inputs[..i]) + if inputs[i].SweepTick? then 1 else 0
  {
    assert inputs[..i + 1][..i] == inputs[..i];
  }

  /** An event that the executor may not ignore. */
  predicate Counts(input: Input, minLevel: string) {
    input.Event? && MeetsMinLevel(input.level, minLevel)
  }

  /** The addresses of the events that count. */
  ghost function Wanted(inputs: seq<Input>, minLevel: string): set<string> {
    set i | 0 <= i < |inputs| && Counts(inputs[i], minLevel) :: inputs[i].ip
  }

  lemma WantedGrows(inputs: seq<Input>, input: Input, minLevel: string)
    ensures Wanted(inputs + [input], minLevel) ==
      Wanted(inputs, minLevel) + if Counts(input, minLevel) then {input.ip} else {}
  {
    var all := inputs + [input];
    assert forall i :: 0 <= i < |inputs| ==> all[i] == inputs[i];
    assert all[|inputs|] == input;
  }

  /** Nothing gets lost and nothing is made up: every wanted address waits, was asked for or was
      known already; and whatever waits or was asked for is wanted. */
  ghost predicate Flows(wanted: set<string>, waiting: set<string>, asked: set<string>, known: set<string>) {
    wanted <= waiting + asked + known && waiting + asked <= wanted
  }

  /** A flush asks for what waits, except for what is known. */
  lemma FlowsFlushed(wanted: set<string>, waiting: set<string>, sent: set<string>, asked: set<string>,
                     known: set<string>, skipped: set<string>, known': set<string>)
    requires Flows(wanted, waiting + sent, asked, known) && skipped <= known <= known'
    ensures Flows(wanted, waiting, asked + (sent - skipped), known')
  {
  }

  /** A flush tick leaves nothing waiting, and a full batch never waits. */
  ghost predicate Drained(inputs: seq<Input>, waiting: nat, batchSize: int) {
    && (inputs != [] && inputs[|inputs| - 1].FlushTick? ==> waiting == 0)
    && (waiting == 0 || waiting < batchSize)
  }

  function SetOf(ips: seq<string>): set<string> {
    set ip | ip in ips
  }

  lemma SetOfGrows(ips: seq<string>, more: seq<string>)
    ensures SetOf(ips + more) == SetOf(ips) + SetOf(more)
  {
  }

  /** What one more turn of a run adds. */
  lemma TurnGrows(inputs: seq<Input>, i: nat, minLevel: string, batchSize: int)
    requires i < |inputs|
    ensures EventCount(inputs[..i + 1]) == EventCount(inputs[..i]) + if inputs[i].Event? then 1 else 0
    ensures SweepCount(inputs[..i + 1]) == SweepCount(inputs[..i]) + if inputs[i].SweepTick? then 1 else 0
    ensures Wanted(inputs[..i + 1], minLevel) ==
      Wanted(inputs[..i], minLevel) + if Counts(inputs[i], minLevel) then {inputs[i].ip} else {}
    ensures forall waiting: nat :: Drained([inputs[i]], waiting, batchSize) ==> Drained(inputs[..i + 1], waiting, batchSize)
  {
    CountsGrow(inputs, i);
    WantedGrows(inputs[..i], inputs[i], minLevel);
    assert inputs[..i] + [inputs[i]] == inputs[..i + 1];
  }
}
