/** What a configuration means, without depths or loops: equations between the results of gates and configs.
    The evaluator computes their only solution. */
module Meaning {
  import opened Specs
  import opened Conditions
  import opened Evaluation
  import opened DepthLimit
  import opened Locality

  /** A proposed result for every gate and every existing config in scope. */
  datatype Reading = Reading(gates: map<string, Result>, configs: map<string, Result>)

  predicate Covers(snap: Snapshot, rd: Reading, sc: Scope) {
    rd.gates.Keys == sc.gates && rd.configs.Keys == sc.configs * snap.configs.Keys
  }

  /** What a condition says, given the reading of the gates. A condition that panics says nothing. */
  function CondMeaning(w: World, rd: Reading, cond: Condition): Result {
    if IsGateCondition(cond) then
      if cond.target.Str? && cond.target.s in rd.gates then GateVerdict(cond, rd.gates[cond.target.s]) else ZERO
    else if Leaf(w, cond).Done? then LeafResult(Leaf(w, cond).value)
    else ZERO
  }

  predicate AllHold(w: World, rd: Reading, conds: seq<Condition>) {
    forall cond <- conds :: CondMeaning(w, rd, cond).pass
  }

  /** Some condition is left to the server. */
  predicate SomeUnsupported(w: World, rd: Reading, conds: seq<Condition>) {
    exists cond <- conds :: CondMeaning(w, rd, cond).fetchFromServer
  }

  predicate Decisive(w: World, rd: Reading, rule: Rule) {
    AllHold(w, rd, rule.conditions) || SomeUnsupported(w, rd, rule.conditions)
  }

  /** The traces of all conditions, in order and without any short-circuit. */
  function CondsTrace(w: World, rd: Reading, conds: seq<Condition>): seq<Exposure> {
    if conds == [] then []
    else CondsTrace(w, rd, conds[..|conds| - 1]) + CondMeaning(w, rd, conds[|conds| - 1]).exposures
  }

  function RulesTrace(w: World, rd: Reading, rules: seq<Rule>): seq<Exposure> {
    if rules == [] then []
    else RulesTrace(w, rd, rules[..|rules| - 1]) + CondsTrace(w, rd, rules[|rules| - 1].conditions)
  }

  predicate NoneDecisive(w: World, rd: Reading, rules: seq<Rule>) {
    forall rule <- rules :: !Decisive(w, rd, rule)
  }

  /** What the first decisive rule, number `i`, makes of its spec. */
  function RuleMeaning(w: World, rd: Reading, spec: Spec, i: nat): Result
    requires i < |spec.rules|
  {
    var rule := spec.rules[i];
    var trace := RulesTrace(w, rd, spec.rules[..i + 1]);
    if SomeUnsupported(w, rd, rule.conditions) then
      ZERO.(fetchFromServer := true, exposures := CondsTrace(w, rd, rule.conditions))
    else if rule.configDelegate in w.snap.configs && rule.configDelegate in rd.configs then
      Delegated(rule, w.snap.configs[rule.configDelegate], trace, rd.configs[rule.configDelegate])
    else
      Matched(w, rule, spec, trace)
  }

  /** `r` is the result the spec calls for. */
  ghost predicate Means(w: World, rd: Reading, spec: Spec, r: Result) {
    if !spec.enabled then r == Default(w.snap, spec, "disabled", [])
    else
      || (NoneDecisive(w, rd, spec.rules) && r == Default(w.snap, spec, "default", RulesTrace(w, rd, spec.rules)))
      || (exists i: nat :: i < |spec.rules| && NoneDecisive(w, rd, spec.rules[..i]) && Decisive(w, rd, spec.rules[i])
            && r == RuleMeaning(w, rd, spec, i))
  }

  ghost predicate GateMeans(w: World, rd: Reading, name: string, r: Result) {
    if name in w.snap.gateOverrides then r == Overridden(w.snap, w.snap.gateOverrides[name])
    else if name in w.snap.gates then Means(w, rd, w.snap.gates[name], r)
    else r == Unknown(w.snap)
  }

  /** The reading satisfies the equation of every gate and config in scope. */
  ghost predicate IsReading(w: World, rd: Reading, sc: Scope) {
    && Covers(w.snap, rd, sc)
    && (forall g <- sc.gates :: GateMeans(w, rd, g, rd.gates[g]))
    && (forall c <- sc.configs :: c in w.snap.configs ==> Means(w, rd, w.snap.configs[c], rd.configs[c]))
  }

  /** A spec calls for at most one result. */
  lemma MeansUnique(w: World, rd: Reading, spec: Spec, r: Result, r': Result)
    requires Means(w, rd, spec, r) && Means(w, rd, spec, r')
    ensures r == r'
  {
    if spec.enabled {
      forall i: nat, j: nat | i < j <= |spec.rules| && Decisive(w, rd, spec.rules[i])
        ensures !NoneDecisive(w, rd, spec.rules[..j])
      {
        assert spec.rules[i] in spec.rules[..j];
      }
      assert spec.rules[..|spec.rules|] == spec.rules;
    }
  }

  // ----- One level: the loops compute the meaning, given the results one level down. -----

  /** Gates, where they return at depth `d`, return what the reading says. */
  ghost predicate GatesAgree(w: World, rd: Reading, sc: Scope, d: nat) {
    forall g <- sc.gates :: EvalGate(w, g, d).Done? ==> g in rd.gates && rd.gates[g] == EvalGate(w, g, d).value
  }

  ghost predicate ConfigsAgree(w: World, rd: Reading, sc: Scope, d: nat) {
    forall c <- sc.configs :: c in w.snap.configs && Eval(w, w.snap.configs[c], d).Done? ==>
      c in rd.configs && rd.configs[c] == Eval(w, w.snap.configs[c], d).value
  }

  lemma CondComputes(w: World, rd: Reading, sc: Scope, cond: Condition, d: nat)
    requires CondIn(cond, sc) && GatesAgree(w, rd, sc, d + 1) && EvalCondition(w, cond, d).Done?
    ensures EvalCondition(w, cond, d).value == CondMeaning(w, rd, cond)
  {
  }

  /** What conditions say together. */
  function CondsReading(w: World, rd: Reading, conds: seq<Condition>): Result {
    ZERO.(pass := AllHold(w, rd, conds), fetchFromServer := SomeUnsupported(w, rd, conds),
          exposures := CondsTrace(w, rd, conds))
  }

  lemma OneMore(w: World, rd: Reading, conds: seq<Condition>, k: nat)
    requires k < |conds|
    ensures CondsReading(w, rd, conds[..k + 1]) == Both(CondsReading(w, rd, conds[..k]), CondMeaning(w, rd, conds[k]))
  {
    var all := conds[..k + 1];
    assert all[..|all| - 1] == conds[..k] && all == conds[..k] + [conds[k]];
    assert forall c :: c in all <==> c in conds[..k] || c == conds[k];
  }

  lemma {:induction false} CondsCompute(w: World, rd: Reading, sc: Scope, conds: seq<Condition>, k: nat, d: nat)
    requires (forall cond <- conds :: CondIn(cond, sc)) && GatesAgree(w, rd, sc, d + 2)
    requires k <= |conds| && CondsFrom(w, conds, k, CondsReading(w, rd, conds[..k]), d).Done?
    ensures CondsFrom(w, conds, k, CondsReading(w, rd, conds[..k]), d) == Done(CondsReading(w, rd, conds))
    decreases |conds| - k
  {
    if k == |conds| {
      assert conds[..k] == conds;
    } else {
      CondsStep(w, conds, k, CondsReading(w, rd, conds[..k]), d);
      CondComputes(w, rd, sc, conds[k], d + 1);
      OneMore(w, rd, conds, k);
      CondsCompute(w, rd, sc, conds, k + 1, d);
    }
  }

  lemma RuleComputes(w: World, rd: Reading, sc: Scope, rule: Rule, d: nat)
    requires RuleIn(rule, sc) && GatesAgree(w, rd, sc, d + 2) && EvalRule(w, rule, d).Done?
    ensures EvalRule(w, rule, d) == Done(CondsReading(w, rd, rule.conditions))
    ensures Coherent(CondsReading(w, rd, rule.conditions))
  {
    assert rule.conditions[..0] == [] && CondsReading(w, rd, []) == ZERO.(pass := true);
    CondsCompute(w, rd, sc, rule.conditions, 0, d);
    CondsCoherent(w, rule.conditions, 0, ZERO.(pass := true), d);
  }

  lemma TraceStep(w: World, rd: Reading, rules: seq<Rule>, k: nat)
    requires k < |rules|
    ensures RulesTrace(w, rd, rules[..k + 1]) == RulesTrace(w, rd, rules[..k]) + CondsTrace(w, rd, rules[k].conditions)
    ensures NoneDecisive(w, rd, rules[..k]) && !Decisive(w, rd, rules[k]) ==> NoneDecisive(w, rd, rules[..k + 1])
  {
    assert rules[..k + 1][..k] == rules[..k] && rules[..k + 1] == rules[..k] + [rules[k]];
  }

  lemma {:induction false} RulesCompute(w: World, rd: Reading, sc: Scope, spec: Spec, k: nat, d: nat)
    requires spec.enabled && SpecIn(spec, sc) && k <= |spec.rules| && d <= MAX_DEPTH
    requires GatesAgree(w, rd, sc, d + 3) && ConfigsAgree(w, rd, sc, d + 2)
    requires NoneDecisive(w, rd, spec.rules[..k])
    requires RulesFrom(w, spec, k, RulesTrace(w, rd, spec.rules[..k]), d).Done?
    ensures Means(w, rd, spec, RulesFrom(w, spec, k, RulesTrace(w, rd, spec.rules[..k]), d).value)
    decreases |spec.rules| - k
  {
    var trace := RulesTrace(w, rd, spec.rules[..k]);
    if k == |spec.rules| {
      assert spec.rules[..k] == spec.rules;
    } else {
      var rule := spec.rules[k];
      RulesStep(w, spec, k, trace, d);
      assert RuleIn(rule, sc);
      RuleComputes(w, rd, sc, rule, d + 1);
      TraceStep(w, rd, spec.rules, k);
      if Decisive(w, rd, rule) {
        DecisiveComputes(w, rd, sc, spec, k, d);
      } else {
        RulesCompute(w, rd, sc, spec, k + 1, d);
      }
    }
  }

  lemma DecisiveComputes(w: World, rd: Reading, sc: Scope, spec: Spec, k: nat, d: nat)
    requires k < |spec.rules| && RuleIn(spec.rules[k], sc) && d <= MAX_DEPTH && ConfigsAgree(w, rd, sc, d + 2)
    requires EvalRule(w, spec.rules[k], d + 1) == Done(CondsReading(w, rd, spec.rules[k].conditions))
    requires Decisive(w, rd, spec.rules[k])
    requires RulesFrom(w, spec, k, RulesTrace(w, rd, spec.rules[..k]), d).Done?
    requires Coherent(CondsReading(w, rd, spec.rules[k].conditions))
    ensures RulesFrom(w, spec, k, RulesTrace(w, rd, spec.rules[..k]), d).value == RuleMeaning(w, rd, spec, k)
  {
    TraceStep(w, rd, spec.rules, k);
    RulesStep(w, spec, k, RulesTrace(w, rd, spec.rules[..k]), d);
  }

  lemma EvalComputes(w: World, rd: Reading, sc: Scope, spec: Spec, d: nat)
    requires SpecIn(spec, sc) && Eval(w, spec, d).Done?
    requires GatesAgree(w, rd, sc, d + 3) && ConfigsAgree(w, rd, sc, d + 2)
    ensures Means(w, rd, spec, Eval(w, spec, d).value)
  {
    if spec.enabled {
      assert spec.rules[..0] == [];
      RulesCompute(w, rd, sc, spec, 0, d);
    }
  }

  lemma GateComputes(w: World, rd: Reading, sc: Scope, g: string, d: nat)
    requires Closed(w.snap, sc) && g in sc.gates && EvalGate(w, g, d).Done?
    requires GatesAgree(w, rd, sc, d + 4) && ConfigsAgree(w, rd, sc, d + 3)
    ensures GateMeans(w, rd, g, EvalGate(w, g, d).value)
  {
    if g !in w.snap.gateOverrides && g in w.snap.gates {
      EvalComputes(w, rd, sc, w.snap.gates[g], d + 1);
    }
  }

  // ----- The evaluator gives the only solution. -----

  lemma GateMeansUnique(w: World, rd: Reading, g: string, r: Result, r': Result)
    requires GateMeans(w, rd, g, r) && GateMeans(w, rd, g, r')
    ensures r == r'
  {
    if g !in w.snap.gateOverrides && g in w.snap.gates {
      MeansUnique(w, rd, w.snap.gates[g], r, r');
    }
  }

  lemma GateMatches(w: World, rd: Reading, sc: Scope, g: string, d: nat)
    requires Closed(w.snap, sc) && IsReading(w, rd, sc) && g in sc.gates && EvalGate(w, g, d).Done?
    requires GatesAgree(w, rd, sc, d + 4) && ConfigsAgree(w, rd, sc, d + 3)
    ensures rd.gates[g] == EvalGate(w, g, d).value
  {
    assert GateMeans(w, rd, g, rd.gates[g]);
    GateComputes(w, rd, sc, g, d);
    GateMeansUnique(w, rd, g, rd.gates[g], EvalGate(w, g, d).value);
  }

  lemma ConfigMatches(w: World, rd: Reading, sc: Scope, c: string, d: nat)
    requires Closed(w.snap, sc) && IsReading(w, rd, sc)
    requires c in sc.configs && c in w.snap.configs && Eval(w, w.snap.configs[c], d).Done?
    requires GatesAgree(w, rd, sc, d + 3) && ConfigsAgree(w, rd, sc, d + 2)
    ensures rd.configs[c] == Eval(w, w.snap.configs[c], d).value
  {
    var config := w.snap.configs[c];
    assert Means(w, rd, config, rd.configs[c]);
    EvalComputes(w, rd, sc, config, d);
    MeansUnique(w, rd, config, rd.configs[c], Eval(w, config, d).value);
  }

  /** The evaluator agrees with the reading at this depth, and below it down to where it never returns. */
  ghost predicate AgreesFrom(w: World, rd: Reading, sc: Scope, d: nat)
    decreases MAX_DEPTH + 5 - d
  {
    && GatesAgree(w, rd, sc, d) && ConfigsAgree(w, rd, sc, d)
    && (d < MAX_DEPTH + 5 ==> AgreesFrom(w, rd, sc, d + 1))
  }

  /** If the levels below agree with the reading, so does this one. */
  lemma LevelFollows(w: World, rd: Reading, sc: Scope, d: nat)
    requires Closed(w.snap, sc) && IsReading(w, rd, sc)
    requires GatesAgree(w, rd, sc, d + 3) && GatesAgree(w, rd, sc, d + 4)
    requires ConfigsAgree(w, rd, sc, d + 2) && ConfigsAgree(w, rd, sc, d + 3)
    ensures GatesAgree(w, rd, sc, d) && ConfigsAgree(w, rd, sc, d)
  {
    forall g <- sc.gates | EvalGate(w, g, d).Done?
      ensures g in rd.gates && rd.gates[g] == EvalGate(w, g, d).value
    {
      GateMatches(w, rd, sc, g, d);
    }
    forall c <- sc.configs | c in w.snap.configs && Eval(w, w.snap.configs[c], d).Done?
      ensures c in rd.configs && rd.configs[c] == Eval(w, w.snap.configs[c], d).value
    {
      ConfigMatches(w, rd, sc, c, d);
    }
  }

  /** Below the limit only overridden and unknown gates return. */
  lemma DeepLevel(w: World, rd: Reading, sc: Scope, d: nat)
    requires IsReading(w, rd, sc) && d > MAX_DEPTH
    ensures GatesAgree(w, rd, sc, d) && ConfigsAgree(w, rd, sc, d)
  {
    forall g <- sc.gates | EvalGate(w, g, d).Done?
      ensures g in rd.gates && rd.gates[g] == EvalGate(w, g, d).value
    {
      assert GateMeans(w, rd, g, rd.gates[g]);
    }
  }

  lemma FourBelow(w: World, rd: Reading, sc: Scope, d: nat)
    requires d <= MAX_DEPTH && AgreesFrom(w, rd, sc, d + 1)
    ensures GatesAgree(w, rd, sc, d + 3) && GatesAgree(w, rd, sc, d + 4)
    ensures ConfigsAgree(w, rd, sc, d + 2) && ConfigsAgree(w, rd, sc, d + 3)
  {
    assert AgreesFrom(w, rd, sc, d + 2);
    assert AgreesFrom(w, rd, sc, d + 3);
    assert AgreesFrom(w, rd, sc, d + 4);
  }

  lemma {:induction false} LevelsMatch(w: World, rd: Reading, sc: Scope, d: nat)
    requires Closed(w.snap, sc) && IsReading(w, rd, sc)
    ensures AgreesFrom(w, rd, sc, d)
    decreases MAX_DEPTH + 5 - d
  {
    if d < MAX_DEPTH + 5 {
      LevelsMatch(w, rd, sc, d + 1);
    }
    if d <= MAX_DEPTH {
      FourBelow(w, rd, sc, d);
      LevelFollows(w, rd, sc, d);
    } else {
      DeepLevel(w, rd, sc, d);
    }
  }

  lemma LevelMatches(w: World, rd: Reading, sc: Scope, d: nat)
    requires Closed(w.snap, sc) && IsReading(w, rd, sc)
    ensures GatesAgree(w, rd, sc, d) && ConfigsAgree(w, rd, sc, d)
  {
    LevelsMatch(w, rd, sc, d);
  }

  /** Wherever the evaluator returns, at whatever depth, it returns what every reading of the configuration says. */
  lemma EvaluatorRefinesReading(w: World, rd: Reading, sc: Scope, spec: Spec, name: string, d: nat)
    requires Closed(w.snap, sc) && SpecIn(spec, sc) && name in sc.gates && IsReading(w, rd, sc)
    ensures Eval(w, spec, d).Done? ==> Means(w, rd, spec, Eval(w, spec, d).value)
    ensures EvalGate(w, name, d).Done? ==> EvalGate(w, name, d) == Done(rd.gates[name])
  {
    LevelMatches(w, rd, sc, d);
    LevelMatches(w, rd, sc, d + 2);
    LevelMatches(w, rd, sc, d + 3);
    if Eval(w, spec, d).Done? {
      EvalComputes(w, rd, sc, spec, d);
    }
  }

  function ValueOr(o: Outcome<Result>): Result { if o.Done? then o.value else ZERO }

  /** The reading the evaluator itself proposes. */
  function Computed(w: World, sc: Scope): Reading {
    Reading(
      map g <- sc.gates :: ValueOr(CheckGate(w, g)),
      map c <- sc.configs * w.snap.configs.Keys :: ValueOr(Eval(w, w.snap.configs[c], 0)))
  }

  /** Where everything in scope evaluates without a panic, that reading is a solution, so one exists. */
  lemma ComputedIsReading(w: World, sc: Scope)
    requires Closed(w.snap, sc)
    requires forall g <- sc.gates :: CheckGate(w, g).Done?
    requires forall c <- sc.configs :: c in w.snap.configs ==> Eval(w, w.snap.configs[c], 0).Done?
    ensures IsReading(w, Computed(w, sc), sc)
  {
    var rd := Computed(w, sc);
    forall d: nat ensures GatesAgree(w, rd, sc, d) && ConfigsAgree(w, rd, sc, d) {
      forall g <- sc.gates | EvalGate(w, g, d).Done? ensures rd.gates[g] == EvalGate(w, g, d).value {
        GateShallower(w, g, d, 0);
      }
      forall c <- sc.configs | c in w.snap.configs && Eval(w, w.snap.configs[c], d).Done?
        ensures rd.configs[c] == Eval(w, w.snap.configs[c], d).value
      {
        EvalShallower(w, w.snap.configs[c], d, 0);
      }
    }
    forall g <- sc.gates ensures GateMeans(w, rd, g, rd.gates[g]) {
      GateComputes(w, rd, sc, g, 0);
    }
    forall c <- sc.configs | c in w.snap.configs ensures Means(w, rd, w.snap.configs[c], rd.configs[c]) {
      EvalComputes(w, rd, sc, w.snap.configs[c], 0);
    }
  }
}
