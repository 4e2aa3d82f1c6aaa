/** The passes of an executor over its expired bans, and how far apart they are. */
module Passes {
  import opened Basics

  /** One pass over the expired bans: when it looked at the clock, and whether every deletion it
      asked for went through. */
  datatype Pass = Pass(at: Time, clean: bool)

  /** When the last pass without a failure looked at the clock. */
  function LastClean(start: Time, passes: seq<Pass>): Time {
    if passes == [] then start
    else
      var n := |passes| - 1;
      if passes[n].clean then passes[n].at else LastClean(start, passes[..n])
  }

  ghost predicate AllClean(passes: seq<Pass>) {
    forall i :: 0 <= i < |passes| ==> passes[i].clean
  }

  /** The passes from position `n` on were clean. */
  ghost predicate CleanFrom(passes: seq<Pass>, n: nat) {
    forall i :: n <= i < |passes| ==> passes[i].clean
  }

  /** From the start to the first pass, from each pass to the next, and from the last one to the
      end it is at most `interval`. */
  ghost predicate Regular(start: Time, passes: seq<Pass>, end: Time, interval: int) {
    if passes == [] then end - start <= interval
    else
      && passes[0].at - start <= interval
      && (forall i :: 1 <= i < |passes| ==> passes[i].at - passes[i - 1].at <= interval)
      && end - passes[|passes| - 1].at <= interval
  }

  lemma LastCleanGrows(start: Time, passes: seq<Pass>, pass: Pass)
    ensures LastClean(start, passes + [pass]) == if pass.clean then pass.at else LastClean(start, passes)
  {
    assert (passes + [pass])[..|passes|] == passes;
  }

  /** If all passes were clean and regular, the last one was not long ago. */
  lemma CleanIsRecent(start: Time, passes: seq<Pass>, end: Time, interval: int)
    requires AllClean(passes) && Regular(start, passes, end, interval)
    ensures end - LastClean(start, passes) <= interval
  {
  }
}
