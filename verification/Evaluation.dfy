/** The evaluator as functions of a fixed world, call by call and depth by depth. */
module Evaluation {
  import opened Strings
  import opened Specs
  import opened Conditions

  const MAX_DEPTH: nat := 300

  /** How many more levels `eval` may be entered; every recursive cycle uses some of them up. */
  function Fuel(depth: nat): nat {
    if depth > MAX_DEPTH then 0 else MAX_DEPTH + 1 - depth
  }

  function DetailsFor(snap: Snapshot, reason: Reason): Details {
    Details(reason, snap.lastSyncTime, snap.initialSyncTime)
  }

  function Overridden(snap: Snapshot, pass: bool): Result {
    ZERO.(pass := pass, id := "override", details := Some(DetailsFor(snap, LocalOverride)))
  }

  function OverriddenConfig(snap: Snapshot, name: string, value: Object): Result {
    Overridden(snap, true).(config := NewConfig(name, Some(value), "override"))
  }

  function Unknown(snap: Snapshot): Result {
    ZERO.(details := Some(DetailsFor(snap, Unrecognized)))
  }

  predicate IsDynamicConfig(spec: Spec) { ToLower(spec.stype) == "dynamic_config" }

  function EvalGate(w: World, name: string, depth: nat): Outcome<Result>
    decreases Fuel(depth), 2, 0
  {
    if name in w.snap.gateOverrides then Done(Overridden(w.snap, w.snap.gateOverrides[name]))
    else if name in w.snap.gates then Eval(w, w.snap.gates[name], depth + 1)
    else Done(Unknown(w.snap))
  }

  function EvalConfig(w: World, name: string, depth: nat): Outcome<Result> {
    if name in w.snap.configOverrides then Done(OverriddenConfig(w.snap, name, w.snap.configOverrides[name]))
    else if name in w.snap.configs then Eval(w, w.snap.configs[name], depth + 1)
    else Done(Unknown(w.snap))
  }

  function EvalLayer(w: World, name: string, depth: nat): Outcome<Result> {
    if name in w.snap.layerOverrides then Done(OverriddenConfig(w.snap, name, w.snap.layerOverrides[name]))
    else if name in w.snap.layers then Eval(w, w.snap.layers[name], depth + 1)
    else Done(Unknown(w.snap))
  }

  function CheckGate(w: World, name: string): Outcome<Result> { EvalGate(w, name, 0) }

  function Eval(w: World, spec: Spec, depth: nat): Outcome<Result>
    decreases Fuel(depth), 1, 0
  {
    if depth > MAX_DEPTH then Panic(DepthExceeded)
    else if spec.enabled then RulesFrom(w, spec, 0, [], depth)
    else Done(Default(w.snap, spec, "disabled", []))
  }

  /** The rule loop, entered at rule `k` with the exposures of the rules before it. */
  function RulesFrom(w: World, spec: Spec, k: nat, exposures: seq<Exposure>, depth: nat): Outcome<Result>
    requires k <= |spec.rules| && depth <= MAX_DEPTH
    decreases Fuel(depth), 0, |spec.rules| - k
  {
    if k == |spec.rules| then Done(Default(w.snap, spec, "default", exposures))
    else
      var rule := spec.rules[k];
      var r :- EvalRule(w, rule, depth + 1);
      if r.fetchFromServer then Done(r)
      else if !r.pass then RulesFrom(w, spec, k + 1, exposures + r.exposures, depth)
      else
        var delegated :- EvalDelegate(w, rule, exposures + r.exposures, depth + 1);
        Done(if delegated.Some? then delegated.value else Matched(w, rule, spec, exposures + r.exposures))
  }

  /** The result when no rule matched. */
  function Default(snap: Snapshot, spec: Spec, id: string, exposures: seq<Exposure>): Result {
    if IsDynamicConfig(spec) then
      ZERO.(config := NewConfig(spec.name, Decode(spec.defaultValue), id), id := id, exposures := exposures,
            undelegated := exposures, details := Some(DetailsFor(snap, snap.reason)))
    else
      ZERO.(id := id, exposures := exposures)
  }

  /** The result of a rule that matched and delegates to no existing config. */
  function Matched(w: World, rule: Rule, spec: Spec, exposures: seq<Exposure>): Result {
    var pass := EvalPassPercent(w.lib, w.user, rule, spec);
    var result := ZERO.(pass := pass, id := rule.id, exposures := exposures,
                        details := Some(DetailsFor(w.snap, w.snap.reason)));
    if IsDynamicConfig(spec) then
      var value := Decode(if pass then rule.returnValue else spec.defaultValue);
      result.(config := NewConfig(spec.name, value, rule.id), undelegated := exposures,
              isExperimentGroup := rule.isExperimentGroup)
    else
      result
  }

  function EvalDelegate(w: World, rule: Rule, exposures: seq<Exposure>, depth: nat): Outcome<Option<Result>>
    decreases Fuel(depth), 2, 0
  {
    if rule.configDelegate !in w.snap.configs then Done(None)
    else
      var config := w.snap.configs[rule.configDelegate];
      var result :- Eval(w, config, depth + 1);
      Done(Some(Delegated(rule, config, exposures, result)))
  }

  function Delegated(rule: Rule, config: Spec, exposures: seq<Exposure>, result: Result): Result {
    result.(delegate := rule.configDelegate, exposures := exposures + result.exposures, undelegated := exposures,
            explicitParams := set s | s in config.explicitParameters)
  }

  function EvalRule(w: World, rule: Rule, depth: nat): Outcome<Result>
    decreases Fuel(depth), 5, 0
  {
    CondsFrom(w, rule.conditions, 0, ZERO.(pass := true), depth)
  }

  /** The condition loop, entered at condition `k` with what the conditions before it gave. */
  function CondsFrom(w: World, conds: seq<Condition>, k: nat, acc: Result, depth: nat): Outcome<Result>
    requires k <= |conds|
    decreases Fuel(depth), 4, |conds| - k
  {
    if k == |conds| then Done(acc)
    else
      var r :- EvalCondition(w, conds[k], depth + 1);
      CondsFrom(w, conds, k + 1, Both(acc, r), depth)
  }

  function Both(acc: Result, r: Result): Result {
    acc.(pass := acc.pass && r.pass, fetchFromServer := acc.fetchFromServer || r.fetchFromServer,
         exposures := acc.exposures + r.exposures)
  }

  predicate IsGateCondition(cond: Condition) { TypeOf(cond) == PassGate || TypeOf(cond) == FailGate }

  function EvalCondition(w: World, cond: Condition, depth: nat): Outcome<Result>
    decreases Fuel(depth), 3, 0
  {
    if IsGateCondition(cond) then
      if !cond.target.Str? then Done(ZERO)
      else
        var result :- EvalGate(w, cond.target.s, depth + 1);
        Done(GateVerdict(cond, result))
    else
      var verdict :- Leaf(w, cond);
      Done(LeafResult(verdict))
  }

  function LeafResult(verdict: Verdict): Result {
    ZERO.(pass := verdict.pass, fetchFromServer := verdict.server)
  }

  /** What a condition about a gate makes of that gate's result. */
  function GateVerdict(cond: Condition, result: Result): Result
    requires cond.target.Str?
  {
    if result.fetchFromServer then ZERO.(fetchFromServer := true)
    else
      var exposure := Exposure(cond.target.s, FormatBool(result.pass), result.id);
      ZERO.(pass := if TypeOf(cond) == PassGate then result.pass else !result.pass,
            exposures := result.exposures + [exposure])
  }

  /** One turn of the rule loop. */
  lemma RulesStep(w: World, spec: Spec, k: nat, exposures: seq<Exposure>, d: nat)
    requires k < |spec.rules| && d <= MAX_DEPTH
    ensures var rule, r, all := spec.rules[k], EvalRule(w, spec.rules[k], d + 1), RulesFrom(w, spec, k, exposures, d);
            && (r.Panic? ==> all == r)
            && (r.Done? ==>
                  var trace := exposures + r.value.exposures;
                  && (r.value.fetchFromServer ==> all == r)
                  && (!r.value.fetchFromServer && !r.value.pass ==> all == RulesFrom(w, spec, k + 1, trace, d))
                  && (!r.value.fetchFromServer && r.value.pass ==>
                        if rule.configDelegate !in w.snap.configs then all == Done(Matched(w, rule, spec, trace))
                        else
                          var config := w.snap.configs[rule.configDelegate];
                          var own := Eval(w, config, d + 2);
                          all == if own.Panic? then own else Done(Delegated(rule, config, trace, own.value))))
  {
  }

  /** One turn of the condition loop. */
  lemma CondsStep(w: World, conds: seq<Condition>, k: nat, acc: Result, d: nat)
    requires k < |conds|
    ensures var r := EvalCondition(w, conds[k], d + 1);
            CondsFrom(w, conds, k, acc, d) ==
            if r.Panic? then Panic(r.why) else CondsFrom(w, conds, k + 1, Both(acc, r.value), d)
  {
  }

  /** A server fallback never carries a pass, and the undelegated exposures start the full list. */
  predicate Coherent(r: Result) {
    && (r.fetchFromServer ==> !r.pass)
    && r.undelegated <= r.exposures
  }

  lemma {:induction false} EvalCoherent(w: World, spec: Spec, depth: nat)
    ensures Eval(w, spec, depth).Done? ==> Coherent(Eval(w, spec, depth).value)
    decreases Fuel(depth), 1, 0
  {
    if depth <= MAX_DEPTH && spec.enabled {
      RulesCoherent(w, spec, 0, [], depth);
    }
  }

  lemma {:induction false} RulesCoherent(w: World, spec: Spec, k: nat, exposures: seq<Exposure>, depth: nat)
    requires k <= |spec.rules| && depth <= MAX_DEPTH
    ensures RulesFrom(w, spec, k, exposures, depth).Done? ==> Coherent(RulesFrom(w, spec, k, exposures, depth).value)
    decreases Fuel(depth), 0, |spec.rules| - k
  {
    if k < |spec.rules| {
      var rule := spec.rules[k];
      CondsCoherent(w, rule.conditions, 0, ZERO.(pass := true), depth + 1);
      var r := EvalRule(w, rule, depth + 1);
      if r.Done? && !r.value.fetchFromServer {
        if r.value.pass {
          if rule.configDelegate in w.snap.configs {
            EvalCoherent(w, w.snap.configs[rule.configDelegate], depth + 2);
          }
        } else {
          RulesCoherent(w, spec, k + 1, exposures + r.value.exposures, depth);
        }
      }
    }
  }

  lemma {:induction false} CondsCoherent(w: World, conds: seq<Condition>, k: nat, acc: Result, depth: nat)
    requires k <= |conds| && Coherent(acc) && acc.undelegated == []
    ensures CondsFrom(w, conds, k, acc, depth).Done? ==>
              var r := CondsFrom(w, conds, k, acc, depth).value;
              Coherent(r) && r.undelegated == []
    decreases |conds| - k
  {
    if k < |conds| {
      var r := EvalCondition(w, conds[k], depth + 1);
      if r.Done? {
        CondsCoherent(w, conds, k + 1, Both(acc, r.value), depth);
      }
    }
  }

  /** Whatever way in: gates, configs and layers all give coherent results. */
  lemma EntryPointsCoherent(w: World, name: string, depth: nat)
    ensures EvalGate(w, name, depth).Done? ==> Coherent(EvalGate(w, name, depth).value)
    ensures EvalConfig(w, name, depth).Done? ==> Coherent(EvalConfig(w, name, depth).value)
    ensures EvalLayer(w, name, depth).Done? ==> Coherent(EvalLayer(w, name, depth).value)
  {
    if name in w.snap.gates { EvalCoherent(w, w.snap.gates[name], depth + 1); }
    if name in w.snap.configs { EvalCoherent(w, w.snap.configs[name], depth + 1); }
    if name in w.snap.layers { EvalCoherent(w, w.snap.layers[name], depth + 1); }
  }

  /** A rule's own result carries neither an id nor a delegate. */
  predicate Plain(r: Result) { r.id == "" && r.delegate == "" }

  lemma RuleResultIsPlain(w: World, rule: Rule, d: nat)
    ensures EvalRule(w, rule, d).Done? ==> Plain(EvalRule(w, rule, d).value)
  {
    CondsResultIsPlain(w, rule.conditions, 0, ZERO.(pass := true), d);
  }

  lemma {:induction false} CondsResultIsPlain(w: World, conds: seq<Condition>, k: nat, acc: Result, d: nat)
    requires k <= |conds| && Plain(acc)
    ensures var all := CondsFrom(w, conds, k, acc, d); all.Done? ==> Plain(all.value)
    decreases |conds| - k
  {
    if k < |conds| {
      CondsStep(w, conds, k, acc, d);
      var r := EvalCondition(w, conds[k], d + 1);
      if r.Done? {
        CondsResultIsPlain(w, conds, k + 1, Both(acc, r.value), d);
      }
    }
  }

  /** The delegate a result names exists and was evaluated two levels down. It gave the experiment flag, and its
      exposures follow the undelegated ones. */
  lemma {:induction false} NamedDelegate(w: World, spec: Spec, k: nat, exposures: seq<Exposure>, d: nat)
    requires k <= |spec.rules| && d <= MAX_DEPTH && RulesFrom(w, spec, k, exposures, d).Done?
    requires RulesFrom(w, spec, k, exposures, d).value.delegate != ""
    ensures var r := RulesFrom(w, spec, k, exposures, d).value;
            && r.delegate in w.snap.configs
            && var own := Eval(w, w.snap.configs[r.delegate], d + 2);
               && own.Done? && own.value.isExperimentGroup == r.isExperimentGroup
               && r.exposures == r.undelegated + own.value.exposures
               && r.explicitParams == set p | p in w.snap.configs[r.delegate].explicitParameters
    decreases |spec.rules| - k
  {
    if k < |spec.rules| {
      RulesStep(w, spec, k, exposures, d);
      RuleResultIsPlain(w, spec.rules[k], d + 1);
      var r := EvalRule(w, spec.rules[k], d + 1).value;
      if !r.fetchFromServer && !r.pass {
        NamedDelegate(w, spec, k + 1, exposures + r.exposures, d);
      }
    }
  }
}
