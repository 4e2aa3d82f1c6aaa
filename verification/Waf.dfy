/** The WAF rule split and its two-pass evaluation. */
module Waf {
  import opened Basics
  import opened Text

  datatype Result<+T> = Success(value: T) | Failure(error: string)

  datatype RuleConfig = RuleConfig(name: string, expression: string, action: string)

  datatype Bucket = PassBucket | GateBucket(action: string) | UnknownAction

  /** Where a rule goes and which action is stored for it. */
  function ClassifyAction(action: string): Bucket {
    var normalised := ToLower(TrimSpace(action));
    if normalised == "" then GateBucket("drop")
    else if normalised == "pass" then PassBucket
    else if normalised == "drop" then GateBucket("drop")
    else if normalised == "tag" || HasPrefix(normalised, "tag:") then GateBucket(normalised)
    else UnknownAction
  }

  predicate KnownAction(action: string) {
    action == "drop" || action == "tag" || HasPrefix(action, "tag:")
  }

  // ----- what a configured action means -----

  /** The action as an operator means it: case and surrounding spaces do not matter, and none at all
      means "drop". */
  function Meaning(action: string): string {
    var spoken := ToLower(TrimSpace(action));
    if spoken == "" then "drop" else spoken
  }

  predicate Allowed(meaning: string) {
    meaning in {"pass", "drop", "tag"} || HasPrefix(meaning, "tag:")
  }

  lemma ClassifyMeans(action: string)
    ensures ClassifyAction(action) ==
      if Meaning(action) == "pass" then PassBucket
      else if Allowed(Meaning(action)) then GateBucket(Meaning(action))
      else UnknownAction
  {
  }

  /** A configured rule with its action classified. */
  datatype Routed = Routed(name: string, expression: string, bucket: Bucket)

  function Route(r: RuleConfig): Routed {
    Routed(r.name, r.expression, ClassifyAction(r.action))
  }

  function RouteAll(rules: seq<RuleConfig>): (routed: seq<Routed>)
    ensures |routed| == |rules| && forall i :: 0 <= i < |rules| ==> routed[i] == Route(rules[i])
  {
    seq(|rules|, i requires 0 <= i < |rules| => Route(rules[i]))
  }

  predicate IsPass(r: Routed) {
    r.bucket.PassBucket?
  }

  predicate IsGate(r: Routed) {
    r.bucket.GateBucket?
  }

  predicate WellFormed(r: Routed) {
    r.name != "" && r.expression != "" && !r.bucket.UnknownAction?
  }

  /** A compiled rule set: rules in insertion order. */
  datatype Rule = Rule(name: string, expression: string)

  datatype Compiled = Compiled(passRules: seq<Rule>, gateRules: seq<Rule>, actions: map<string, string>)

  function PassRules(rules: seq<Routed>): seq<Rule> {
    if rules == [] then []
    else
      var r := rules[|rules| - 1];
      PassRules(rules[..|rules| - 1]) + if IsPass(r) then [Rule(r.name, r.expression)] else []
  }

  function GateRules(rules: seq<Routed>): seq<Rule> {
    if rules == [] then []
    else
      var r := rules[|rules| - 1];
      GateRules(rules[..|rules| - 1]) + if IsGate(r) then [Rule(r.name, r.expression)] else []
  }

  function Actions(rules: seq<Routed>): map<string, string> {
    if rules == [] then map[]
    else
      var r := rules[|rules| - 1];
      var rest := Actions(rules[..|rules| - 1]);
      if IsGate(r) then rest[r.name := r.bucket.action] else rest
  }

  method BuildRuleSet(rules: seq<Rule>, compiles: string -> bool) returns (r: Result<seq<Rule>>)
    ensures r.Success? <==> AllCompile(rules, compiles)
    ensures r.Success? ==> r.value == rules
  {
    var added := [];
    for i := 0 to |rules|
      invariant added == rules[..i]
      invariant forall k :: 0 <= k < i ==> compiles(rules[k].expression)
    {
      if !compiles(rules[i].expression) {
        return Failure("waf: rule " + rules[i].name);
      }
      added := added + [rules[i]];
    }
    r := Success(added);
  }

  /** Fails exactly when some rule is malformed or does not compile; otherwise splits the rules by
      action, keeping their order. */
  method NewRuleSetFromConfig(rules: seq<RuleConfig>, compiles: string -> bool) returns (r: Result<Compiled>)
    ensures r.Success? <==>
      forall i :: 0 <= i < |rules| ==>
        rules[i].name != "" && rules[i].expression != "" && Allowed(Meaning(rules[i].action)) && compiles(rules[i].expression)
    ensures r.Success? ==> r.value == CompiledOf(RouteAll(rules))
  {
    MalformedMeans(rules);
    var routed := RouteAll(rules);
    var ok, pass, gate, actions := Divide(routed);
    if !ok {
      return Failure("waf: malformed rule");
    }
    SplitCompiles(routed, compiles);
    assert AllRoutedCompile(routed, compiles) <==> forall i :: 0 <= i < |rules| ==> compiles(rules[i].expression);
    var passRS := BuildRuleSet(pass, compiles);
    if passRS.Failure? {
      return Failure(passRS.error);
    }
    var gateRS := BuildRuleSet(gate, compiles);
    if gateRS.Failure? {
      return Failure(gateRS.error);
    }
    r := Success(Compiled(passRS.value, gateRS.value, actions));
  }

  lemma MalformedMeans(rules: seq<RuleConfig>)
    ensures forall i :: 0 <= i < |rules| ==>
      (WellFormed(RouteAll(rules)[i]) <==>
       rules[i].name != "" && rules[i].expression != "" && Allowed(Meaning(rules[i].action)))
  {
    forall i | 0 <= i < |rules| ensures WellFormed(RouteAll(rules)[i]) <==>
      rules[i].name != "" && rules[i].expression != "" && Allowed(Meaning(rules[i].action))
    {
      ClassifyMeans(rules[i].action);
    }
  }

  /** The split loop: stops at the first malformed rule. */
  method Divide(rules: seq<Routed>)
    returns (ok: bool, pass: seq<Rule>, gate: seq<Rule>, actions: map<string, string>)
    ensures ok <==> forall i :: 0 <= i < |rules| ==> WellFormed(rules[i])
    ensures ok ==> Compiled(pass, gate, actions) == CompiledOf(rules)
  {
    pass, gate, actions := [], [], map[];
    for i := 0 to |rules|
      invariant Compiled(pass, gate, actions) == CompiledOf(rules[..i])
      invariant forall k :: 0 <= k < i ==> WellFormed(rules[k])
    {
      assert rules[..i + 1][..i] == rules[..i];
      if !WellFormed(rules[i]) {
        ok := false;
        return;
      }
      if rules[i].bucket.PassBucket? {
        pass := pass + [Rule(rules[i].name, rules[i].expression)];
      } else {
        gate := gate + [Rule(rules[i].name, rules[i].expression)];
        actions := actions[rules[i].name := rules[i].bucket.action];
      }
    }
    assert rules[..|rules|] == rules;
    ok := true;
  }

  ghost predicate AllCompile(rules: seq<Rule>, compiles: string -> bool) {
    forall i :: 0 <= i < |rules| ==> compiles(rules[i].expression)
  }

  lemma AllCompileAppend(rules: seq<Rule>, r: Rule, compiles: string -> bool)
    ensures AllCompile(rules + [r], compiles) <==> AllCompile(rules, compiles) && compiles(r.expression)
  {
    var all := rules + [r];
    assert all[|rules|] == r;
    assert forall i :: 0 <= i < |rules| ==> all[i] == rules[i];
  }

  ghost predicate AllRoutedCompile(rules: seq<Routed>, compiles: string -> bool) {
    forall i :: 0 <= i < |rules| ==> compiles(rules[i].expression)
  }

  lemma AllRoutedCompilePrefix(rules: seq<Routed>, compiles: string -> bool)
    requires rules != []
    ensures
      var n := |rules| - 1;
      AllRoutedCompile(rules, compiles) <==> AllRoutedCompile(rules[..n], compiles) && compiles(rules[n].expression)
  {
    var n := |rules| - 1;
    assert forall i :: 0 <= i < n ==> rules[..n][i] == rules[i];
  }

  /** Both parts compile exactly when all rules do. */
  lemma {:induction false} SplitCompiles(rules: seq<Routed>, compiles: string -> bool)
    requires forall i :: 0 <= i < |rules| ==> WellFormed(rules[i])
    ensures AllRoutedCompile(rules, compiles) <==>
      AllCompile(PassRules(rules), compiles) && AllCompile(GateRules(rules), compiles)
  {
    if rules == [] {
    } else {
      var n := |rules| - 1;
      var rule, pass, gate := Rule(rules[n].name, rules[n].expression), PassRules(rules[..n]), GateRules(rules[..n]);
      SplitCompiles(rules[..n], compiles);
      AllRoutedCompilePrefix(rules, compiles);
      if IsPass(rules[n]) {
        AllCompileAppend(pass, rule, compiles);
        assert PassRules(rules) == pass + [rule] && GateRules(rules) == gate;
      } else {
        assert WellFormed(rules[n]);
        AllCompileAppend(gate, rule, compiles);
        assert PassRules(rules) == pass && GateRules(rules) == gate + [rule];
      }
    }
  }

  /** The rule engine: the first rule in insertion order whose expression holds of the event. */
  function Match(rules: seq<Rule>, holds: string -> bool): Option<string> {
    if rules == [] then None
    else if holds(rules[0].expression) then Some(rules[0].name)
    else Match(rules[1..], holds)
  }

  /** What happens to the event, and which score signal (0 for none) is sent for its client. */
  datatype Verdict = Forward(level: Option<string>, score: int) | Dropped(score: int)

  datatype Scoring = Scoring(enabled: bool, dropScore: int, tagWeights: map<string, int>)

  function Signal(s: Scoring, weight: int, clientIP: string): int {
    if s.enabled && weight > 0 && clientIP != "" then weight else 0
  }

  /** The effect of a gate rule that fired. */
  function Dispatch(name: string, action: string, s: Scoring, clientIP: string): Verdict {
    if action == "drop" then Dropped(Signal(s, s.dropScore, clientIP))
    else if action == "tag" then Forward(Some("THREAT:" + name), 0)
    else if HasPrefix(action, "tag:") then
      var tag := action[4..];
      Forward(Some("THREAT:" + name + ":" + tag),
              Signal(s, if tag in s.tagWeights then s.tagWeights[tag] else 0, clientIP))
    else Dropped(0)
  }

  function Evaluate(c: Compiled, holds: string -> bool, s: Scoring, clientIP: string): Verdict {
    if |c.passRules| > 0 && Match(c.passRules, holds).Some? then Forward(None, 0)
    else
      match Match(c.gateRules, holds)
      case None => Forward(None, 0)
      case Some(name) => Dispatch(name, if name in c.actions then c.actions[name] else "", s, clientIP)
  }

  // ----- the reference semantics, on the configured rules themselves -----

  ghost predicate AnyPassMatches(rules: seq<Routed>, holds: string -> bool) {
    exists i :: 0 <= i < |rules| && IsPass(rules[i]) && holds(rules[i].expression)
  }

  /** The first gate rule in configuration order that matches, or the number of rules. */
  function FirstGate(rules: seq<Routed>, holds: string -> bool): (i: nat)
    ensures i <= |rules|
    ensures i < |rules| ==> IsGate(rules[i]) && holds(rules[i].expression)
    ensures forall k :: 0 <= k < i ==> !(IsGate(rules[k]) && holds(rules[k].expression))
  {
    if rules == [] || (IsGate(rules[0]) && holds(rules[0].expression)) then 0
    else 1 + FirstGate(rules[1..], holds)
  }

  ghost function Reference(rules: seq<Routed>, holds: string -> bool, s: Scoring, clientIP: string): Verdict {
    var i := FirstGate(rules, holds);
    if AnyPassMatches(rules, holds) || i == |rules| then Forward(None, 0)
    else Dispatch(rules[i].name, rules[i].bucket.action, s, clientIP)
  }

  /** Gate rules that share a name share their action; distinct names are the promised case. */
  ghost predicate AgreeingNames(rules: seq<Routed>) {
    forall i, j :: 0 <= i < j < |rules| && IsGate(rules[i]) && IsGate(rules[j]) && rules[i].name == rules[j].name ==>
      rules[i].bucket.action == rules[j].bucket.action
  }

  lemma {:induction false} MatchAppend(a: seq<Rule>, r: Rule, holds: string -> bool)
    ensures Match(a + [r], holds) ==
      if Match(a, holds).Some? then Match(a, holds) else if holds(r.expression) then Some(r.name) else None
  {
    if a == [] {
      assert a + [r] == [r];
    } else {
      MatchAppend(a[1..], r, holds);
      assert (a + [r])[1..] == a[1..] + [r];
    }
  }

  lemma {:induction false} PassMatchesIff(rules: seq<Routed>, holds: string -> bool)
    ensures Match(PassRules(rules), holds).Some? <==> AnyPassMatches(rules, holds)
  {
    if rules == [] {
    } else {
      var n := |rules| - 1;
      var before, r := rules[..n], rules[n];
      PassMatchesIff(before, holds);
      if IsPass(r) {
        MatchAppend(PassRules(before), Rule(r.name, r.expression), holds);
      } else {
        assert PassRules(rules) == PassRules(before);
      }
      assert AnyPassMatches(rules, holds) <==> AnyPassMatches(before, holds) || (IsPass(r) && holds(r.expression)) by {
        assert forall i :: 0 <= i < n ==> before[i] == rules[i];
      }
    }
  }

  lemma {:induction false} FirstGatePrefix(rules: seq<Routed>, holds: string -> bool)
    requires rules != []
    ensures
      var n := |rules| - 1;
      var f := FirstGate(rules[..n], holds);
      FirstGate(rules, holds) == if f < n || (IsGate(rules[n]) && holds(rules[n].expression)) then f else n + 1
  {
    var n := |rules| - 1;
    var f, g := FirstGate(rules[..n], holds), FirstGate(rules, holds);
    assert f < n ==> rules[..n][f] == rules[f];
    assert g < n ==> rules[..n][g] == rules[g];
    assert forall k :: 0 <= k < f ==> rules[..n][k] == rules[k];
  }

  lemma {:induction false} GateMatchIsFirst(rules: seq<Routed>, holds: string -> bool)
    ensures Match(GateRules(rules), holds) ==
      var i := FirstGate(rules, holds); if i < |rules| then Some(rules[i].name) else None
  {
    if rules == [] {
    } else {
      var n := |rules| - 1;
      var before, r := rules[..n], rules[n];
      GateMatchIsFirst(before, holds);
      FirstGatePrefix(rules, holds);
      if IsGate(r) {
        MatchAppend(GateRules(before), Rule(r.name, r.expression), holds);
      } else {
        assert GateRules(rules) == GateRules(before);
      }
    }
  }

  lemma {:induction false} StoredAction(rules: seq<Routed>, i: nat)
    requires AgreeingNames(rules) && i < |rules| && IsGate(rules[i])
    ensures rules[i].name in Actions(rules) && Actions(rules)[rules[i].name] == rules[i].bucket.action
  {
    var n := |rules| - 1;
    if i >= n {
    } else {
      StoredAction(rules[..n], i);
    }
  }

  /** For every rule list in which gate rules with the same name agree, the two-set evaluation gives the verdict of "a
      matching pass rule lets the event through, otherwise the first matching gate rule in
      configuration order decides". */
  lemma TwoPassAgrees(rules: seq<Routed>, holds: string -> bool, s: Scoring, clientIP: string)
    requires AgreeingNames(rules)
    ensures Evaluate(CompiledOf(rules), holds, s, clientIP) == Reference(rules, holds, s, clientIP)
  {
    PassMatchesIff(rules, holds);
    GateMatchIsFirst(rules, holds);
    var i := FirstGate(rules, holds);
    if i < |rules| {
      StoredAction(rules, i);
    }
  }

  ghost function Only(rules: seq<Routed>, p: Routed -> bool): seq<Routed> {
    if rules == [] then []
    else Only(rules[..|rules| - 1], p) + if p(rules[|rules| - 1]) then [rules[|rules| - 1]] else []
  }

  ghost function CompiledOf(rules: seq<Routed>): Compiled {
    Compiled(PassRules(rules), GateRules(rules), Actions(rules))
  }

  /** The compiled form depends only on the pass rules and on the gate rules, each in order. */
  lemma {:induction false} CompiledByBuckets(rules: seq<Routed>)
    ensures PassRules(rules) == PassRules(Only(rules, IsPass))
    ensures GateRules(rules) == GateRules(Only(rules, IsGate))
    ensures Actions(rules) == Actions(Only(rules, IsGate))
  {
    if rules == [] {
    } else {
      var n := |rules| - 1;
      CompiledByBuckets(rules[..n]);
      var pass, gate := Only(rules[..n], IsPass), Only(rules[..n], IsGate);
      assert (pass + [rules[n]])[..|pass|] == pass && (gate + [rules[n]])[..|gate|] == gate;
      assert pass + [] == pass && gate + [] == gate;
    }
  }

  /** Any reordering that keeps the order within each bucket gives the same verdict. */
  lemma ReorderingIsSafe(a: seq<Routed>, b: seq<Routed>, holds: string -> bool, s: Scoring, clientIP: string)
    requires Only(a, IsPass) == Only(b, IsPass) && Only(a, IsGate) == Only(b, IsGate)
    ensures Evaluate(CompiledOf(a), holds, s, clientIP) == Evaluate(CompiledOf(b), holds, s, clientIP)
    ensures AgreeingNames(a) && AgreeingNames(b) ==> Reference(a, holds, s, clientIP) == Reference(b, holds, s, clientIP)
  {
    CompiledByBuckets(a);
    CompiledByBuckets(b);
    if AgreeingNames(a) && AgreeingNames(b) {
      TwoPassAgrees(a, holds, s, clientIP);
      TwoPassAgrees(b, holds, s, clientIP);
    }
  }

  lemma ClassifiedIsKnown(action: string)
    ensures ClassifyAction(action).GateBucket? ==> KnownAction(ClassifyAction(action).action)
  {
  }

  /** Every stored action is one that the dispatch knows, so its fail-closed default is never
      taken for a compiled configuration. */
  lemma {:induction false} StoredActionsAreKnown(rules: seq<Routed>, name: string)
    requires forall i :: 0 <= i < |rules| && IsGate(rules[i]) ==> KnownAction(rules[i].bucket.action)
    requires name in Actions(rules)
    ensures KnownAction(Actions(rules)[name])
  {
    var n := |rules| - 1;
    if IsGate(rules[n]) && rules[n].name == name {
    } else {
      StoredActionsAreKnown(rules[..n], name);
    }
  }

  /** So no gate rule that fires falls through to the default. */
  lemma FiredGateIsKnown(config: seq<RuleConfig>, holds: string -> bool)
    requires Match(GateRules(RouteAll(config)), holds).Some?
    ensures
      var actions, name := Actions(RouteAll(config)), Match(GateRules(RouteAll(config)), holds).value;
      name in actions && KnownAction(actions[name])
  {
    var rules := RouteAll(config);
    forall i | 0 <= i < |rules| && IsGate(rules[i]) ensures KnownAction(rules[i].bucket.action) {
      ClassifiedIsKnown(config[i].action);
      assert rules[i] == Route(config[i]);
    }
    GateMatchIsFirst(rules, holds);
    GateNameStored(rules, FirstGate(rules, holds));
    StoredActionsAreKnown(rules, Match(GateRules(rules), holds).value);
  }

  lemma {:induction false} GateNameStored(rules: seq<Routed>, i: nat)
    requires i < |rules| && IsGate(rules[i])
    ensures rules[i].name in Actions(rules)
  {
    if i >= |rules| - 1 {
    } else {
      GateNameStored(rules[..|rules| - 1], i);
    }
  }

  // ----- the verdict, on the configuration itself -----

  /** The rule is a pass rule, and matches. */
  predicate LetsPass(c: RuleConfig, holds: string -> bool) {
    Meaning(c.action) == "pass" && holds(c.expression)
  }

  /** The rule is any other rule, and matches. */
  predicate WouldAct(c: RuleConfig, holds: string -> bool) {
    Meaning(c.action) != "pass" && holds(c.expression)
  }

  ghost predicate PassApplies(config: seq<RuleConfig>, holds: string -> bool) {
    exists i :: 0 <= i < |config| && LetsPass(config[i], holds)
  }

  /** The position of the first true entry, or the number of entries. */
  function FirstTrue(flags: seq<bool>): (i: nat)
    ensures i <= |flags| && (i < |flags| ==> flags[i])
    ensures forall k :: 0 <= k < i ==> !flags[k]
  {
    if flags == [] || flags[0] then 0 else 1 + FirstTrue(flags[1..])
  }

  /** The first rule other than a pass rule that matches, or the number of rules. */
  function FirstToAct(config: seq<RuleConfig>, holds: string -> bool): (i: nat)
    ensures i <= |config|
  {
    FirstTrue(seq(|config|, i requires 0 <= i < |config| => WouldAct(config[i], holds)))
  }

  /** Rules other than pass rules that share a name mean the same; distinct names are the promised
      case. */
  ghost predicate Agreeing(config: seq<RuleConfig>) {
    forall i, j :: 0 <= i < j < |config| ==> Agree(config[i], config[j])
  }

  ghost predicate Agree(a: RuleConfig, b: RuleConfig) {
    a.name != b.name || Meaning(a.action) == "pass" || Meaning(b.action) == "pass" || Meaning(a.action) == Meaning(b.action)
  }

  ghost predicate AllAllowed(config: seq<RuleConfig>) {
    forall i :: 0 <= i < |config| ==> Allowed(Meaning(config[i].action))
  }

  /** A routed rule says the same as the configured one. */
  lemma RouteSays(c: RuleConfig, holds: string -> bool)
    requires Allowed(Meaning(c.action))
    ensures
      var r := Route(c);
      && (LetsPass(c, holds) <==> IsPass(r) && holds(r.expression))
      && (WouldAct(c, holds) <==> IsGate(r) && holds(r.expression))
      && (IsGate(r) ==> r.bucket.action == Meaning(c.action))
  {
    ClassifyMeans(c.action);
  }

  lemma RoutesAgree(a: RuleConfig, b: RuleConfig)
    requires Allowed(Meaning(a.action)) && Allowed(Meaning(b.action)) && Agree(a, b)
    ensures IsGate(Route(a)) && IsGate(Route(b)) && a.name == b.name ==> Route(a).bucket.action == Route(b).bucket.action
  {
    ClassifyMeans(a.action);
    ClassifyMeans(b.action);
  }

  /** The flags mark the gate rules that match. */
  lemma FirstGateIs(rules: seq<Routed>, flags: seq<bool>, holds: string -> bool)
    requires |flags| == |rules|
    requires forall i :: 0 <= i < |rules| ==> (flags[i] <==> IsGate(rules[i]) && holds(rules[i].expression))
    ensures FirstGate(rules, holds) == FirstTrue(flags)
  {
  }

  lemma AnyPassIs(rules: seq<Routed>, config: seq<RuleConfig>, holds: string -> bool)
    requires |config| == |rules|
    requires forall i :: 0 <= i < |rules| ==> (LetsPass(config[i], holds) <==> IsPass(rules[i]) && holds(rules[i].expression))
    ensures AnyPassMatches(rules, holds) <==> PassApplies(config, holds)
  {
  }

  /** So do all of them. */
  lemma RoutedSays(config: seq<RuleConfig>, holds: string -> bool)
    requires AllAllowed(config)
    ensures AnyPassMatches(RouteAll(config), holds) <==> PassApplies(config, holds)
    ensures FirstGate(RouteAll(config), holds) == FirstToAct(config, holds)
  {
    forall i | 0 <= i < |config|
      ensures LetsPass(config[i], holds) <==> IsPass(RouteAll(config)[i]) && holds(RouteAll(config)[i].expression)
      ensures WouldAct(config[i], holds) <==> IsGate(RouteAll(config)[i]) && holds(RouteAll(config)[i].expression)
    {
      RouteSays(config[i], holds);
    }
    AnyPassIs(RouteAll(config), config, holds);
    FirstGateIs(RouteAll(config), seq(|config|, i requires 0 <= i < |config| => WouldAct(config[i], holds)), holds);
  }

  lemma RoutedAgree(config: seq<RuleConfig>)
    requires AllAllowed(config) && Agreeing(config)
    ensures AgreeingNames(RouteAll(config))
  {
    forall i, j | 0 <= i < j < |config| && IsGate(Route(config[i])) && IsGate(Route(config[j])) && config[i].name == config[j].name
      ensures Route(config[i]).bucket.action == Route(config[j]).bucket.action
    {
      RoutesAgree(config[i], config[j]);
    }
  }

  /** The event as far as the WAF is concerned. */
  class HttpEvent {
    const clientIP: string
    /** Which expressions hold of it. */
    const holds: string -> bool
    var level: string

    constructor (clientIP: string, holds: string -> bool, level: string)
      ensures this.clientIP == clientIP && this.holds == holds && this.level == level
    {
      this.clientIP, this.holds, this.level := clientIP, holds, level;
    }
  }

  datatype Outcome = Cancelled | PassedOn | GatedOut

  class WafProcessor {
    const compiled: Compiled
    const scoring: Scoring
    /** The score signals sent so far: client and weight. */
    var signals: seq<(string, int)>
    /** The configuration that `compiled` comes from. */
    ghost const config: seq<RuleConfig>

    constructor (compiled: Compiled, scoring: Scoring, ghost config: seq<RuleConfig>)
      requires AllAllowed(config) && compiled == CompiledOf(RouteAll(config))
      ensures Valid() && signals == [] && this.config == config && this.scoring == scoring
    {
      this.compiled, this.scoring, this.config, signals := compiled, scoring, config, [];
    }

    ghost predicate Valid() {
      AllAllowed(config) && compiled == CompiledOf(RouteAll(config))
    }

    /** A matching pass rule lets the event through unchanged, and so does no match at all. Otherwise
        the first other matching rule in configuration order decides: "drop" (or nothing) gates the
        event out and sends the drop score, "tag" marks it with the rule's name, "tag:x" also with x
        and sends the weight of x. A cancelled context changes nothing. */
    method Process(event: HttpEvent, cancelled: bool) returns (out: Outcome)
      requires Valid()
      modifies event`level, this`signals
      ensures cancelled ==> out.Cancelled? && event.level == old(event.level) && signals == old(signals)
      ensures !cancelled && Agreeing(config) ==>
        var i := FirstToAct(config, event.holds);
        if PassApplies(config, event.holds) || i == |config|
        then out.PassedOn? && event.level == old(event.level) && signals == old(signals)
        else Decided(config[i].name, Meaning(config[i].action), event, out, old(event.level), old(signals))
    {
      if cancelled {
        return Cancelled;
      }
      RoutedSays(config, event.holds);
      if Agreeing(config) {
        RoutedAgree(config);
        TwoPassAgrees(RouteAll(config), event.holds, scoring, event.clientIP);
      }
      out := Act(event);
      if Agreeing(config) && !PassApplies(config, event.holds) && FirstToAct(config, event.holds) < |config| {
        var i := FirstToAct(config, event.holds);
        RouteSays(config[i], event.holds);
        VerdictDecides(config[i].name, Meaning(config[i].action), event, out, old(event.level), old(signals));
      }
    }

    /** What the deciding rule does to the event. */
    ghost predicate Decided(name: string, meaning: string, event: HttpEvent, out: Outcome, level: string, before: seq<(string, int)>)
      reads event, this
    {
      if meaning == "drop" then
        out.GatedOut? && event.level == level && Sent(event.clientIP, scoring.dropScore, before)
      else if meaning == "tag" then
        out.PassedOn? && event.level == "THREAT:" + name && signals == before
      else
        && |meaning| >= 4
        && out.PassedOn? && event.level == "THREAT:" + name + ":" + meaning[4..]
        && Sent(event.clientIP, if meaning[4..] in scoring.tagWeights then scoring.tagWeights[meaning[4..]] else 0, before)
    }

    /** A positive weight is sent for a known client, if there is anybody to send it to. */
    ghost predicate Sent(ip: string, weight: int, before: seq<(string, int)>)
      reads this
    {
      signals == before + if scoring.enabled && weight > 0 && ip != "" then [(ip, weight)] else []
    }

    /** The two passes and the dispatch. */
    method Act(event: HttpEvent) returns (out: Outcome)
      modifies event`level, this`signals
      ensures Applied(Evaluate(compiled, event.holds, scoring, event.clientIP), event, out, old(event.level), old(signals))
    {
      if |compiled.passRules| > 0 && Match(compiled.passRules, event.holds).Some? {
        return PassedOn;
      }
      var found := Match(compiled.gateRules, event.holds);
      if found.None? {
        return PassedOn;
      }
      var name := found.value;
      var action := if name in compiled.actions then compiled.actions[name] else "";
      if action == "drop" {
        Send(event.clientIP, scoring.dropScore);
        return GatedOut;
      } else if action == "tag" {
        event.level := "THREAT:" + name;
        return PassedOn;
      } else if HasPrefix(action, "tag:") {
        var tag := action[4..];
        event.level := "THREAT:" + name + ":" + tag;
        Send(event.clientIP, if tag in scoring.tagWeights then scoring.tagWeights[tag] else 0);
        return PassedOn;
      }
      return GatedOut;
    }

    /** A verdict carried out in place. */
    ghost predicate Applied(v: Verdict, event: HttpEvent, out: Outcome, level: string, before: seq<(string, int)>)
      reads event, this
    {
      && out == (if v.Dropped? then GatedOut else PassedOn)
      && event.level == (if v.Forward? && v.level.Some? then v.level.value else level)
      && signals == before + if v.score > 0 then [(event.clientIP, v.score)] else []
    }

    lemma VerdictDecides(name: string, meaning: string, event: HttpEvent, out: Outcome, level: string, before: seq<(string, int)>)
      requires Allowed(meaning) && meaning != "pass"
      requires Applied(Dispatch(name, meaning, scoring, event.clientIP), event, out, level, before)
      ensures Decided(name, meaning, event, out, level, before)
    {
    }

    method Send(ip: string, weight: int)
      modifies this`signals
      ensures Sent(ip, weight, old(signals))
    {
      if scoring.enabled && weight > 0 && ip != "" {
        signals := signals + [(ip, weight)];
      }
    }
  }
}
