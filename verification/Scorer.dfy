/** Score aggregation with linear decay, and the verdict per IP. */
module Scorer {
  import opened Basics
  import opened SlidingRate
  import opened Tracker
  import Text

  datatype DetectResult = DetectResult(score: int, moduleName: string, reason: string)

  /** One active detector's answer for the current log line. */
  datatype Finding = Finding(name: string, result: DetectResult)

  datatype Level = NoThreat | Warn | Threat

  /** Linear decay, truncated toward zero; a negative elapsed time (a clock step back) is
      extrapolated as the formula does. */
  function ApplyDecay(current: int, lastUpdate: Time, window: int, now: Time): (decayed: int)
    ensures decayed >= 0
    ensures lastUpdate <= now && current >= 0 ==> decayed <= current
    ensures current > 0 && lastUpdate != 0 && window > 0 && now - lastUpdate < window ==>
      var left := window - (now - lastUpdate);
      decayed * window <= current * left < (decayed + 1) * window
    ensures current <= 0 || lastUpdate == 0 || now - lastUpdate >= window ==> decayed == 0
  {
    if current <= 0 || lastUpdate == 0 || window <= 0 || now - lastUpdate >= window then 0
    else
      var kept := window - (now - lastUpdate);
      Scale(current, kept, window)
  }

  /** `current * kept / window`, rounded down. */
  function Scale(current: int, kept: int, window: int): (scaled: int)
    requires current > 0 && kept > 0 && window > 0
    ensures scaled >= 0
    ensures scaled * window <= current * kept < (scaled + 1) * window
    ensures kept <= window ==> scaled <= current
  {
    QuotientBounds(current, kept, window);
    current * kept / window
  }

  lemma QuotientBounds(current: int, kept: int, window: int)
    requires current > 0 && kept > 0 && window > 0
    ensures
      var q := current * kept / window;
      && q >= 0
      && q * window <= current * kept < (q + 1) * window
      && (kept <= window ==> q <= current)
  {
    var q := current * kept / window;
    assert current * kept == q * window + current * kept % window;
    assert current * kept > 0;
    MulCancel(0, q + 1, window);
    if kept <= window {
      MulMono(kept, window, current);
      MulCancel(q, current, window);
    }
  }

  lemma MulMono(a: int, b: int, c: int)
    requires a <= b && c >= 0
    ensures a * c <= b * c
  {
  }

  lemma MulStrict(a: int, b: int, c: int)
    requires a < b && c > 0
    ensures a * c < b * c
  {
  }

  lemma MulCancel(a: int, b: int, c: int)
    requires c > 0
    ensures a * c <= b * c ==> a <= b
    ensures a * c < b * c ==> a < b
  {
    if a > b {
      MulStrict(b, a, c);
    }
  }

  function LevelFor(score: int, alertThreshold: int, banThreshold: int): Level {
    if score >= banThreshold then Threat
    else if score >= alertThreshold then Warn
    else NoThreat
  }

  /** The findings that count: positive score, detector not exempt. */
  function Hits(findings: seq<Finding>, exempt: set<string>): seq<DetectResult> {
    if findings == [] then []
    else
      var rest := Hits(findings[..|findings| - 1], exempt);
      var f := findings[|findings| - 1];
      if f.name in exempt || f.result.score <= 0 then rest else rest + [f.result]
  }

  function Total(hits: seq<DetectResult>): int {
    if hits == [] then 0 else Total(hits[..|hits| - 1]) + hits[|hits| - 1].score
  }

  function Modules(hits: seq<DetectResult>): seq<string> {
    seq(|hits|, i requires 0 <= i < |hits| => hits[i].moduleName)
  }

  /** "module:reason" for every hit that gives a reason. */
  function Reasons(hits: seq<DetectResult>): seq<string> {
    if hits == [] then []
    else
      var h := hits[|hits| - 1];
      Reasons(hits[..|hits| - 1]) + if h.reason == "" then [] else [h.moduleName + ":" + h.reason]
  }

  class Scorer {
    const alertThreshold: int
    const banThreshold: int
    const window: int

    constructor (alertThreshold: int, banThreshold: int, window: int)
      ensures this.alertThreshold == alertThreshold && this.banThreshold == banThreshold
      ensures this.window == window
    {
      this.alertThreshold, this.banThreshold, this.window := alertThreshold, banThreshold, window;
    }

    /** The stored score is the replay of all its changes. */
    ghost predicate Replays(sv: IPState)
      reads sv
    {
      sv.score == ScoreAfter(sv.visits, window) && sv.scoreUpdatedAt == LastChange(sv.visits)
    }

    /** Decays the stored score, adds every hit and stores the sum at the same instant. The level is
        not a threat if the IP's evaluations so far were paced below the ban threshold. */
    method Evaluate(sv: IPState, findings: seq<Finding>, exempt: set<string>, now: Time)
      returns (level: Level, score: int, modules: seq<string>, reason: string)
      requires sv.Valid() && Replays(sv)
      modifies sv`score, sv`scoreUpdatedAt, sv`visits
      ensures sv.Valid() && Replays(sv)
      ensures sv.visits == old(sv.visits) + [Visit(now, Total(Hits(findings, exempt)), true)]
      ensures score == sv.score ==
        ApplyDecay(old(sv.score), old(sv.scoreUpdatedAt), window, now) + Total(Hits(findings, exempt))
      ensures sv.scoreUpdatedAt == now
      ensures modules == Modules(Hits(findings, exempt))
      ensures reason == Text.Join(Reasons(Hits(findings, exempt)), ',')
      ensures level.Threat? <==> score >= banThreshold
      ensures level.Warn? <==> alertThreshold <= score < banThreshold
      ensures ConvictHarmful(level, sv.visits, window, banThreshold)
      ensures SpareHarmless(level, sv.visits, window, banThreshold)
    {
      var decayed := ApplyDecay(sv.score, sv.scoreUpdatedAt, window, now);
      var delta, reasons;
      delta, modules, reasons := Collect(findings, exempt);
      score := decayed + delta;
      Store(sv, score, now, Visit(now, delta, true));
      level := LevelFor(score, alertThreshold, banThreshold);
      HarmlessAreSpared(sv.visits, window, alertThreshold, banThreshold);
      HarmfulAreConvicted(sv.visits, window, alertThreshold, banThreshold);
      reason := Text.Join(reasons, ',');
    }

    /** Stores a score that the replay agrees with. */
    method Store(sv: IPState, score: int, at: Time, ghost v: Visit)
      requires v.now == at && sv.Valid() && Replays(sv) && score == Next(sv.score, sv.scoreUpdatedAt, window, v)
      modifies sv`score, sv`scoreUpdatedAt, sv`visits
      ensures sv.Valid() && Replays(sv) && sv.visits == old(sv.visits) + [v]
      ensures sv.score == score && sv.scoreUpdatedAt == at
    {
      ScoreGrows(sv.visits, v, window);
      sv.SetScore(score, at);
      sv.visits := sv.visits + [v];
    }

    /** A penalty, as the WAF and the fake-bot check give it: added and stamped without decay. */
    method Penalize(sv: IPState, points: int, now: Time)
      requires sv.Valid() && Replays(sv)
      modifies sv`score, sv`scoreUpdatedAt, sv`visits
      ensures sv.Valid() && Replays(sv)
      ensures sv.visits == old(sv.visits) + [Visit(now, points, false)]
      ensures sv.score == old(sv.score) + points && sv.scoreUpdatedAt == now
    {
      Store(sv, sv.score + points, now, Visit(now, points, false));
    }

    /** Whatever the score came from, quiet evaluations at strictly increasing times bring it to 0
        within as many evaluations as it has points. */
    lemma QuietStateDrains(sv: IPState, before: seq<Visit>, quiet: seq<Visit>)
      requires Replays(sv) && sv.visits == before + quiet && before != [] && Quiet(before, quiet)
      requires ScoreAfter(before, window) >= 0
      ensures 0 <= sv.score && (|quiet| >= ScoreAfter(before, window) ==> sv.score == 0)
    {
      QuietDrains(before, quiet, window);
    }
  }

  lemma HitsGrow(findings: seq<Finding>, exempt: set<string>, i: nat)
    requires i < |findings|
    ensures
      var f, hits := findings[i], Hits(findings[..i], exempt);
      Hits(findings[..i + 1], exempt) == if f.name in exempt || f.result.score <= 0 then hits else hits + [f.result]
  {
    assert findings[..i + 1][..i] == findings[..i];
  }

  /** What one more hit adds. */
  lemma HitAdds(hits: seq<DetectResult>, h: DetectResult)
    ensures Total(hits + [h]) == Total(hits) + h.score
    ensures Modules(hits + [h]) == Modules(hits) + [h.moduleName]
    ensures Reasons(hits + [h]) ==
      if h.reason == "" then Reasons(hits) else Reasons(hits) + [h.moduleName + ":" + h.reason]
  {
    assert (hits + [h])[..|hits|] == hits;
  }

  /** Adds up the hits and lists their modules and reasons, in detector order. */
  method Collect(findings: seq<Finding>, exempt: set<string>)
    returns (delta: int, modules: seq<string>, reasons: seq<string>)
    ensures
      var hits := Hits(findings, exempt);
      delta == Total(hits) && modules == Modules(hits) && reasons == Reasons(hits)
  {
    delta, modules, reasons := 0, [], [];
    for i := 0 to |findings|
      invariant Tallied(Hits(findings[..i], exempt), delta, modules, reasons)
    {
      HitsGrow(findings, exempt, i);
      var f := findings[i];
      if f.name in exempt {
        continue;
      }
      if f.result.score <= 0 {
        continue;
      }
      delta, modules, reasons := Add(f.result, delta, modules, reasons, Hits(findings[..i], exempt));
    }
    assert findings[..|findings|] == findings;
  }

  ghost predicate Tallied(hits: seq<DetectResult>, delta: int, modules: seq<string>, reasons: seq<string>) {
    delta == Total(hits) && modules == Modules(hits) && reasons == Reasons(hits)
  }

  method Add(h: DetectResult, delta: int, modules: seq<string>, reasons: seq<string>, ghost hits: seq<DetectResult>)
    returns (delta': int, modules': seq<string>, reasons': seq<string>)
    requires Tallied(hits, delta, modules, reasons)
    ensures Tallied(hits + [h], delta', modules', reasons')
  {
    HitAdds(hits, h);
    delta' := delta + h.score;
    modules' := modules + [h.moduleName];
    reasons' := reasons;
    if h.reason != "" {
      reasons' := reasons' + [h.moduleName + ":" + h.reason];
    }
  }

  /** A finding counts if its detector is not exempt and it gives points. */
  ghost predicate IsHit(f: Finding, exempt: set<string>) {
    f.name !in exempt && f.result.score > 0
  }

  /** The hits are exactly the results of the findings that count, */
  lemma {:induction false} HitsAre(findings: seq<Finding>, exempt: set<string>, h: DetectResult)
    ensures h in Hits(findings, exempt) <==>
      exists i :: 0 <= i < |findings| && IsHit(findings[i], exempt) && findings[i].result == h
  {
    if findings == [] {
    } else {
      var n := |findings| - 1;
      HitsAre(findings[..n], exempt, h);
      assert forall i :: 0 <= i < n ==> findings[..n][i] == findings[i];
    }
  }

  /** one each. */
  lemma {:induction false} HitsCount(findings: seq<Finding>, exempt: set<string>)
    ensures |Hits(findings, exempt)| == |set i | 0 <= i < |findings| && IsHit(findings[i], exempt)|
  {
    if findings == [] {
    } else {
      var n := |findings| - 1;
      HitsCount(findings[..n], exempt);
      var before := set i | 0 <= i < n && IsHit(findings[..n][i], exempt);
      assert before == set i | 0 <= i < n && IsHit(findings[i], exempt);
      assert (set i | 0 <= i < |findings| && IsHit(findings[i], exempt)) ==
        before + if IsHit(findings[n], exempt) then {n} else {};
    }
  }

  /** Hits never lower a score, and exempting more detectors never raises it. */
  lemma {:induction false} ExemptionLowers(findings: seq<Finding>, exempt: set<string>, more: set<string>)
    requires exempt <= more
    ensures 0 <= Total(Hits(findings, more)) <= Total(Hits(findings, exempt))
  {
    if findings == [] {
    } else {
      var before, f := findings[..|findings| - 1], findings[|findings| - 1];
      ExemptionLowers(before, exempt, more);
      var a, b := Hits(before, exempt), Hits(before, more);
      assert (a + [f.result])[..|a|] == a && (b + [f.result])[..|b|] == b;
    }
  }

  function LastChange(visits: seq<Visit>): Time {
    if visits == [] then 0 else visits[|visits| - 1].now
  }

  /** The score after one more change. */
  function Next(score: int, lastUpdate: Time, window: int, v: Visit): int {
    (if v.decays then ApplyDecay(score, lastUpdate, window, v.now) else score) + v.delta
  }

  /** The stored score after a series of changes of a new IP's score. */
  function ScoreAfter(visits: seq<Visit>, window: int): int {
    if visits == [] then 0
    else
      var before, v := visits[..|visits| - 1], visits[|visits| - 1];
      Next(ScoreAfter(before, window), LastChange(before), window, v)
  }

  lemma ScoreGrows(visits: seq<Visit>, v: Visit, window: int)
    ensures ScoreAfter(visits + [v], window) == Next(ScoreAfter(visits, window), LastChange(visits), window, v)
  {
    assert (visits + [v])[..|visits|] == visits;
  }

  /** Only evaluations, at least `gap` apart, that add between 0 and `maxDelta`. */
  ghost predicate Paced(visits: seq<Visit>, gap: int, maxDelta: int) {
    && (forall i :: 0 <= i < |visits| ==> visits[i].decays && 0 <= visits[i].delta <= maxDelta)
    && (forall i :: 1 <= i < |visits| ==> visits[i].now - visits[i - 1].now >= gap)
  }

  /** The sustained rate of points stays below the ban threshold. */
  ghost predicate Harmless(visits: seq<Visit>, window: int, gap: int, maxDelta: int, ban: int) {
    visits != [] && 0 < gap <= window && Paced(visits, gap, maxDelta) && maxDelta * window < ban * gap
  }

  /** The level is not a threat if the visits are harmless for some pace. */
  ghost predicate SpareHarmless(level: Level, visits: seq<Visit>, window: int, ban: int) {
    forall gap, maxDelta :: Harmless(visits, window, gap, maxDelta, ban) ==> !level.Threat?
  }

  lemma HarmlessAreSpared(visits: seq<Visit>, window: int, alert: int, ban: int)
    ensures SpareHarmless(LevelFor(ScoreAfter(visits, window), alert, ban), visits, window, ban)
  {
    forall gap, maxDelta | Harmless(visits, window, gap, maxDelta, ban)
      ensures !LevelFor(ScoreAfter(visits, window), alert, ban).Threat?
    {
      NeverThreat(visits, window, gap, maxDelta, alert, ban);
    }
  }

  /** Only evaluations, at most `gap` apart and never at the zero time, that add at least `minDelta`. */
  ghost predicate Pressed(visits: seq<Visit>, gap: int, minDelta: int) {
    && (forall i :: 0 <= i < |visits| ==> visits[i].decays && visits[i].delta >= minDelta && visits[i].now != 0)
    && (forall i :: 1 <= i < |visits| ==> 0 <= visits[i].now - visits[i - 1].now <= gap)
  }

  /** What a sustained rate of points pushes the score to, times the gap; rounding costs one point per
      evaluation. */
  function Push(window: int, minDelta: int): int {
    (minDelta - 1) * window + 1
  }

  /** After `n` evaluations under pressure: the score is at least their number, or where the pressure
      pushes it. */
  ghost predicate Risen(score: int, n: nat, gap: int, push: int) {
    score >= 0 && (score >= n || score * gap >= push)
  }

  /** One more evaluation under pressure raises the score, or keeps it where the pressure has pushed it. */
  lemma PressStep(before: int, n: nat, lastUpdate: Time, v: Visit, window: int, gap: int, minDelta: int)
    requires 0 < gap <= window && minDelta >= 1 && v.decays && v.delta >= minDelta
    requires Risen(before, n, gap, Push(window, minDelta)) && lastUpdate != 0 && 0 <= v.now - lastUpdate <= gap
    ensures
      var after := Next(before, lastUpdate, window, v);
      && Risen(after, n + 1, gap, Push(window, minDelta))
      && if before * gap >= Push(window, minDelta) then after * gap >= Push(window, minDelta) else after > before
  {
    var decayed, elapsed := ApplyDecay(before, lastUpdate, window, v.now), v.now - lastUpdate;
    DecayFloor(before, decayed, window, gap, elapsed);
    PressArithmetic(before, decayed, decayed + v.delta, window, gap, minDelta);
  }

  lemma PressFirst(v: Visit, window: int, gap: int, push: int)
    requires v.delta >= 1
    ensures Risen(Next(0, 0, window, v), 1, gap, push)
  {
  }

  /** Decay and rounding take at most this much. */
  lemma DecayFloor(before: int, decayed: int, window: int, gap: int, elapsed: int)
    requires 0 <= elapsed <= gap <= window && window > 0 && before >= 0 && decayed >= 0
    requires before > 0 && elapsed < window ==> before * (window - elapsed) < (decayed + 1) * window
    ensures before * (window - gap) < (decayed + 1) * window
  {
    if before > 0 && elapsed < window {
      MulMono(window - gap, window - elapsed, before);
    } else {
      assert before * (window - gap) == 0;
      MulMono(1, decayed + 1, window);
    }
  }

  lemma PressArithmetic(before: int, decayed: int, after: int, window: int, gap: int, minDelta: int)
    requires 0 < gap <= window && minDelta >= 1 && after >= decayed + minDelta && decayed >= 0
    requires before * (window - gap) < (decayed + 1) * window
    ensures before * gap < Push(window, minDelta) ==> after > before
    ensures before * gap >= Push(window, minDelta) ==> after * gap >= Push(window, minDelta)
  {
    var push := Push(window, minDelta);
    assert before * (window - gap) == before * window - before * gap;
    MulMono(decayed + minDelta, after, window);
    assert (decayed + minDelta) * window == (decayed + 1) * window + (minDelta - 1) * window;
    assert after * window >= before * window - before * gap + push;
    if before * gap < push {
      MulCancel(before, after, window);
    } else {
      PressKept(before, after, window, gap, push);
    }
  }

  lemma PressKept(before: int, after: int, window: int, gap: int, push: int)
    requires 0 < gap <= window && before * gap >= push && after * window >= before * window - before * gap + push
    ensures after * gap >= push
  {
    var excess := before * gap - push;
    MulMono(before * window - excess, after * window, gap);
    assert (before * window - excess) * gap == before * gap * window - excess * gap;
    assert before * gap * window == excess * window + push * window;
    MulMono(gap, window, excess);
    Reassociate(after, window, gap);
    MulCancel(push, after * gap, window);
  }

  /** The dual of the bound: under pressure the score is at least the number of evaluations, until it
      is where the pressure pushes it. */
  lemma {:induction false} ScoreFloor(visits: seq<Visit>, window: int, gap: int, minDelta: int, push: int)
    requires 0 < gap <= window && minDelta >= 1 && Pressed(visits, gap, minDelta) && push == Push(window, minDelta)
    ensures Risen(ScoreAfter(visits, window), |visits|, gap, push)
  {
    if visits == [] {
    } else {
      var n := |visits| - 1;
      var before, v := visits[..n], visits[n];
      assert before + [v] == visits;
      ScoreGrows(before, v, window);
      if n == 0 {
        PressFirst(v, window, gap, push);
      } else {
        ScoreFloor(before, window, gap, minDelta, push);
        PressStep(ScoreAfter(before, window), n, LastChange(before), v, window, gap, minDelta);
      }
    }
  }

  /** The sustained rate of points stays above the ban threshold, for as many evaluations. */
  ghost predicate Harmful(visits: seq<Visit>, window: int, gap: int, minDelta: int, ban: int) {
    && 0 < gap <= window && minDelta >= 1 && Pressed(visits, gap, minDelta)
    && Push(window, minDelta) >= ban * gap && |visits| >= ban
  }

  /** The level is a threat if the visits are harmful for some pace. */
  ghost predicate ConvictHarmful(level: Level, visits: seq<Visit>, window: int, ban: int) {
    forall gap, minDelta :: Harmful(visits, window, gap, minDelta, ban) ==> level.Threat?
  }

  /** An IP whose sustained rate of points is above the ban threshold is a threat from some evaluation
      on: at the latest when it has been evaluated as often as the threshold has points. */
  lemma AlwaysThreat(visits: seq<Visit>, window: int, gap: int, minDelta: int, alert: int, ban: int)
    requires Harmful(visits, window, gap, minDelta, ban)
    ensures LevelFor(ScoreAfter(visits, window), alert, ban).Threat?
  {
    ScoreFloor(visits, window, gap, minDelta, Push(window, minDelta));
    MulCancel(ban, ScoreAfter(visits, window), gap);
  }

  lemma HarmfulAreConvicted(visits: seq<Visit>, window: int, alert: int, ban: int)
    ensures ConvictHarmful(LevelFor(ScoreAfter(visits, window), alert, ban), visits, window, ban)
  {
    forall gap, minDelta | Harmful(visits, window, gap, minDelta, ban)
      ensures LevelFor(ScoreAfter(visits, window), alert, ban).Threat?
    {
      AlwaysThreat(visits, window, gap, minDelta, alert, ban);
    }
  }

  /** `quiet` continues `before` with evaluations without hits, at strictly increasing times. */
  ghost predicate Quiet(before: seq<Visit>, quiet: seq<Visit>) {
    && (forall i :: 0 <= i < |quiet| ==> quiet[i].decays && quiet[i].delta == 0)
    && (quiet != [] ==> LastChange(before) < quiet[0].now)
    && (forall i :: 1 <= i < |quiet| ==> quiet[i - 1].now < quiet[i].now)
  }

  /** The score never exceeds maxDelta * window / gap. */
  lemma {:induction false} ScoreBound(visits: seq<Visit>, window: int, gap: int, maxDelta: int)
    requires 0 < gap <= window && Paced(visits, gap, maxDelta)
    ensures 0 <= ScoreAfter(visits, window)
    ensures visits != [] ==> ScoreAfter(visits, window) * gap <= maxDelta * window
  {
    if visits == [] {
    } else {
      var n := |visits| - 1;
      ScoreBound(visits[..n], window, gap, maxDelta);
      BoundStep(ScoreAfter(visits[..n], window), LastChange(visits[..n]), visits[n], window, gap, maxDelta);
    }
  }

  lemma BoundStep(before: int, lastUpdate: Time, v: Visit, window: int, gap: int, maxDelta: int)
    requires 0 < gap <= window && 0 <= v.delta <= maxDelta
    requires lastUpdate == 0 || (v.now - lastUpdate >= gap && before * gap <= maxDelta * window)
    ensures (ApplyDecay(before, lastUpdate, window, v.now) + v.delta) * gap <= maxDelta * window
  {
    var q := ApplyDecay(before, lastUpdate, window, v.now);
    MulMono(v.delta, maxDelta, gap);
    if q == 0 {
      MulMono(gap, window, maxDelta);
    } else {
      DecayContracts(before, q, window, gap, maxDelta, v.now - lastUpdate);
      assert (q + v.delta) * gap == q * gap + v.delta * gap;
      assert maxDelta * (window - gap) + maxDelta * gap == maxDelta * window;
    }
  }

  /** One decay over at least `gap` takes the bound down by what one evaluation may add. */
  lemma DecayContracts(before: int, q: int, window: int, gap: int, maxDelta: int, elapsed: int)
    requires 0 < gap <= elapsed < window && before > 0 && q >= 0
    requires before * gap <= maxDelta * window
    requires q * window <= before * (window - elapsed)
    ensures q * gap <= maxDelta * (window - gap)
  {
    MulMono(window - elapsed, window - gap, before);
    ChainBounds(before, q, window, gap, window - gap, maxDelta);
  }

  /** From `before * gap <= maxDelta * window` and `q * window <= before * rest`. */
  lemma ChainBounds(before: int, q: int, window: int, gap: int, rest: int, maxDelta: int)
    requires window > 0 && gap > 0 && rest >= 0
    requires before * gap <= maxDelta * window && q * window <= before * rest
    ensures q * gap <= maxDelta * rest
  {
    MulMono(q * window, before * rest, gap);
    MulMono(before * gap, maxDelta * window, rest);
    Reassociate(q, window, gap);
    Reassociate(before, rest, gap);
    Reassociate(maxDelta, window, rest);
    MulCancel(q * gap, maxDelta * rest, window);
  }

  lemma Reassociate(a: int, b: int, c: int)
    ensures a * b * c == a * c * b
  {
    assert b * c == c * b;
    assert a * b * c == a * (b * c) && a * c * b == a * (c * b);
  }

  /** An IP whose sustained rate of points stays below the ban threshold is never a threat. */
  lemma NeverThreat(visits: seq<Visit>, window: int, gap: int, maxDelta: int, alert: int, ban: int)
    requires Harmless(visits, window, gap, maxDelta, ban)
    ensures !LevelFor(ScoreAfter(visits, window), alert, ban).Threat?
  {
    ScoreBound(visits, window, gap, maxDelta);
    MulCancel(ScoreAfter(visits, window), ban, gap);
  }

  /** A later evaluation without hits strictly lowers a positive score. */
  lemma QuietLowers(score: int, lastUpdate: Time, window: int, now: Time)
    requires score > 0 && lastUpdate < now
    ensures ApplyDecay(score, lastUpdate, window, now) < score
  {
    if lastUpdate != 0 && window > 0 && now - lastUpdate < window {
      var kept := window - (now - lastUpdate);
      var q := Scale(score, kept, window);
      MulStrict(kept, window, score);
      MulCancel(q, score, window);
    }
  }

  /** Quiet evaluations at strictly increasing times bring any score to 0 within as many
      evaluations as the score has points. */
  lemma {:induction false} QuietDrains(before: seq<Visit>, quiet: seq<Visit>, window: int)
    requires before != [] && ScoreAfter(before, window) >= 0 && Quiet(before, quiet)
    ensures
      var left := ScoreAfter(before, window) - |quiet|;
      0 <= ScoreAfter(before + quiet, window) <= if left > 0 then left else 0
  {
    if quiet == [] {
      assert before + quiet == before;
    } else {
      var m := |quiet| - 1;
      QuietPrefix(before, quiet);
      QuietDrains(before, quiet[..m], window);
      ScoreGrows(before + quiet[..m], quiet[m], window);
      var s := ScoreAfter(before + quiet[..m], window);
      if s > 0 {
        QuietLowers(s, LastChange(before + quiet[..m]), window, quiet[m].now);
      }
    }
  }

  lemma QuietPrefix(before: seq<Visit>, quiet: seq<Visit>)
    requires quiet != [] && Quiet(before, quiet)
    ensures
      var m := |quiet| - 1;
      && Quiet(before, quiet[..m])
      && before + quiet == before + quiet[..m] + [quiet[m]]
      && LastChange(before + quiet[..m]) < quiet[m].now
  {
    var m := |quiet| - 1;
    assert quiet[..m] + [quiet[m]] == quiet;
    if m == 0 {
      assert before + quiet[..m] == before;
    } else {
      assert (before + quiet[..m])[|before| + m - 1] == quiet[m - 1];
    }
  }

  /** A penalty added without decaying first (as the WAF and fake-bot paths do) followed by an
      evaluation at the same instant gives the decayed score plus the penalty if and only if there
      is a window and a time at all, and no decay was due: the score was 0 or no time had passed. */
  lemma UndecayedPenalty(score: int, lastUpdate: Time, penalty: int, window: int, now: Time)
    requires score >= 0 && penalty > 0 && lastUpdate <= now
    ensures
      ApplyDecay(score + penalty, now, window, now) == ApplyDecay(score, lastUpdate, window, now) + penalty
      <==> window > 0 && now != 0 && (score == 0 || lastUpdate == now)
  {
    if window > 0 && now != 0 {
      NoDecayAtOnce(score + penalty, window, now);
      if score > 0 {
        if lastUpdate == now {
          NoDecayAtOnce(score, window, now);
        } else {
          QuietLowers(score, lastUpdate, window, now);
        }
      }
    }
  }

  lemma NoDecayAtOnce(score: int, window: int, now: Time)
    requires score > 0 && window > 0 && now != 0
    ensures ApplyDecay(score, now, window, now) == score
  {
    var q := Scale(score, window, window);
    MulCancel(score, q + 1, window);
  }
}
