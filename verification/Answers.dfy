/** What evaluations answer, rule by rule: the value, the rule id and whether the user passes. */
module Answers {
  import opened Strings
  import opened Specs
  import opened Conditions
  import opened Evaluation
  import opened Operators

  // ----- Conditions on gates. -----

  /** A condition about a gate that returns: `pass_gate` holds exactly when that gate passes, `fail_gate` exactly when
      it does not, both exposing it in the same way. One whose gate is left to the server is left to it too. */
  lemma GateConditionMeans(w: World, cond: Condition, g: string, d: nat)
    requires cond.target == Str(g) && EvalGate(w, g, d + 1).Done?
    ensures var ctype, gate, r := ToLower(cond.ctype), EvalGate(w, g, d + 1).value, EvalCondition(w, cond, d);
            var trace := gate.exposures + [Exposure(g, if gate.pass then "true" else "false", gate.id)];
            && (ctype in {"pass_gate", "fail_gate"} && gate.fetchFromServer ==>
                  r == Done(ZERO.(fetchFromServer := true)))
            && (ctype == "pass_gate" && !gate.fetchFromServer ==>
                  r == Done(ZERO.(pass := gate.pass, exposures := trace)))
            && (ctype == "fail_gate" && !gate.fetchFromServer ==>
                  r == Done(ZERO.(pass := !gate.pass, exposures := trace)))
  {
    if ToLower(cond.ctype) == "pass_gate" {
      TypeSpelled(cond, PassGate);
    } else if ToLower(cond.ctype) == "fail_gate" {
      TypeSpelled(cond, FailGate);
    }
  }

  /** Neither holds if it names no gate at all. */
  lemma NoGateNamed(w: World, cond: Condition, d: nat)
    requires ToLower(cond.ctype) in {"pass_gate", "fail_gate"} && !cond.target.Str?
    ensures EvalCondition(w, cond, d) == Says(false)
  {
    TypeSpelled(cond, if ToLower(cond.ctype) == "pass_gate" then PassGate else FailGate);
  }

  // ----- The first rule that matches. -----

  /** All conditions of the rule hold. */
  predicate Holds(w: World, rule: Rule, d: nat) {
    forall cond <- rule.conditions :: EvalCondition(w, cond, d).Done? && EvalCondition(w, cond, d).value.pass
  }

  /** All of them return, none is left to the server, and one does not hold. */
  predicate FailsToHold(w: World, rule: Rule, d: nat) {
    && (forall cond <- rule.conditions ::
          EvalCondition(w, cond, d).Done? && !EvalCondition(w, cond, d).value.fetchFromServer)
    && exists cond <- rule.conditions :: !EvalCondition(w, cond, d).value.pass
  }

  /** Rule `i` is the first one to match, when entered from depth `d`. */
  predicate FirstToHold(w: World, spec: Spec, i: nat, d: nat) {
    && spec.enabled && i < |spec.rules| && d <= MAX_DEPTH
    && (forall rule <- spec.rules[..i] :: FailsToHold(w, rule, d + 2))
    && Holds(w, spec.rules[i], d + 2)
  }

  predicate NoneHolds(w: World, spec: Spec, d: nat) {
    spec.enabled && d <= MAX_DEPTH && forall rule <- spec.rules :: FailsToHold(w, rule, d + 2)
  }

  lemma {:induction false} CondsAnswer(w: World, conds: seq<Condition>, k: nat, acc: Result, d: nat)
    requires k <= |conds|
    requires forall j :: k <= j < |conds| ==>
               EvalCondition(w, conds[j], d + 1).Done? && !EvalCondition(w, conds[j], d + 1).value.fetchFromServer
    ensures var all := CondsFrom(w, conds, k, acc, d);
            && all.Done? && all.value.fetchFromServer == acc.fetchFromServer
            && (all.value.pass <==>
                  acc.pass && forall j :: k <= j < |conds| ==> EvalCondition(w, conds[j], d + 1).value.pass)
    decreases |conds| - k
  {
    if k < |conds| {
      CondsStep(w, conds, k, acc, d);
      CondsAnswer(w, conds, k + 1, Both(acc, EvalCondition(w, conds[k], d + 1).value), d);
    }
  }

  lemma HoldingIsAnswered(w: World, cond: Condition, d: nat)
    requires EvalCondition(w, cond, d).Done? && EvalCondition(w, cond, d).value.pass
    ensures !EvalCondition(w, cond, d).value.fetchFromServer
  {
  }

  lemma RuleAnswers(w: World, rule: Rule, d: nat)
    ensures Holds(w, rule, d + 1) ==>
              var r := EvalRule(w, rule, d); r.Done? && r.value.pass && !r.value.fetchFromServer
    ensures FailsToHold(w, rule, d + 1) ==>
              var r := EvalRule(w, rule, d); r.Done? && !r.value.pass && !r.value.fetchFromServer
  {
    if Holds(w, rule, d + 1) {
      forall cond <- rule.conditions ensures !EvalCondition(w, cond, d + 1).value.fetchFromServer {
        HoldingIsAnswered(w, cond, d + 1);
      }
      CondsAnswer(w, rule.conditions, 0, ZERO.(pass := true), d);
    } else if FailsToHold(w, rule, d + 1) {
      CondsAnswer(w, rule.conditions, 0, ZERO.(pass := true), d);
    }
  }

  /** The rule loop gets to rule `i`. */
  lemma {:induction false} LoopReaches(w: World, spec: Spec, i: nat, k: nat, exposures: seq<Exposure>, d: nat)
    returns (trace: seq<Exposure>)
    requires k <= i <= |spec.rules| && d <= MAX_DEPTH
    requires forall rule <- spec.rules[..i] :: FailsToHold(w, rule, d + 2)
    ensures RulesFrom(w, spec, k, exposures, d) == RulesFrom(w, spec, i, trace, d)
    decreases i - k
  {
    trace := exposures;
    if k < i {
      assert spec.rules[k] in spec.rules[..i];
      RuleAnswers(w, spec.rules[k], d + 1);
      RulesStep(w, spec, k, exposures, d);
      trace := LoopReaches(w, spec, i, k + 1, exposures + EvalRule(w, spec.rules[k], d + 1).value.exposures, d);
    }
  }

  /** What every config and gate result reports besides its answer. */
  function DetailsNow(snap: Snapshot, reason: Reason): Details {
    Details(reason, snap.lastSyncTime, snap.initialSyncTime)
  }

  /** The first rule to match and to delegate to no existing config answers with its own id, and the user passes if the
      rollout lets them in. A config's value is then the rule's return value, or else the config's default value; a
      gate has none. */
  lemma RuleAnswer(w: World, spec: Spec, i: nat, d: nat)
    requires FirstToHold(w, spec, i, d) && spec.rules[i].configDelegate !in w.snap.configs
    ensures var rule, r := spec.rules[i], Eval(w, spec, d);
            var dynamic, lets := ToLower(spec.stype) == "dynamic_config", EvalPassPercent(w.lib, w.user, rule, spec);
            && r.Done? && r.value.pass == lets && r.value.id == rule.id
            && !r.value.fetchFromServer && r.value.delegate == "" && r.value.explicitParams == {}
            && r.value.details == Some(DetailsNow(w.snap, w.snap.reason))
            && (dynamic ==>
                  && r.value.config.name == spec.name && r.value.config.ruleID == rule.id
                  && r.value.config.value == Some(FieldsOf(if lets then rule.returnValue else spec.defaultValue))
                  && r.value.isExperimentGroup == rule.isExperimentGroup && r.value.undelegated == r.value.exposures)
            && (!dynamic ==> r.value.config == ConfigValue("", None, "") && r.value.isExperimentGroup == None)
  {
    var trace := LoopReaches(w, spec, i, 0, [], d);
    RuleAnswers(w, spec.rules[i], d + 1);
    RulesStep(w, spec, i, trace, d);
  }

  /** Where it delegates, the delegate's own evaluation answers: its value, id and details, and whether it passes. The
      result names the delegate and its parameters, and the exposures before it as undelegated. */
  lemma DelegateAnswer(w: World, spec: Spec, i: nat, d: nat)
    requires FirstToHold(w, spec, i, d) && spec.rules[i].configDelegate in w.snap.configs
    ensures var name, r := spec.rules[i].configDelegate, Eval(w, spec, d);
            var config := w.snap.configs[name];
            var own := Eval(w, config, d + 2);
            && (own.Panic? ==> r == own)
            && (own.Done? ==>
                  && r.Done? && r.value.pass == own.value.pass && r.value.id == own.value.id
                  && r.value.config == own.value.config && r.value.details == own.value.details
                  && r.value.fetchFromServer == own.value.fetchFromServer
                  && r.value.isExperimentGroup == own.value.isExperimentGroup
                  && r.value.delegate == name
                  && (forall p :: p in r.value.explicitParams <==> p in config.explicitParameters)
                  && r.value.exposures == r.value.undelegated + own.value.exposures)
  {
    var trace := LoopReaches(w, spec, i, 0, [], d);
    RuleAnswers(w, spec.rules[i], d + 1);
    RulesStep(w, spec, i, trace, d);
  }

  /** If no rule matches, or the spec is disabled, nobody passes, and a config has its default value. */
  lemma DefaultAnswer(w: World, spec: Spec, d: nat)
    requires d <= MAX_DEPTH && (NoneHolds(w, spec, d) || !spec.enabled)
    ensures var r, id := Eval(w, spec, d), if spec.enabled then "default" else "disabled";
            && r.Done? && !r.value.pass && r.value.id == id && !r.value.fetchFromServer && r.value.delegate == ""
            && (ToLower(spec.stype) == "dynamic_config" ==>
                  && r.value.config == ConfigValue(spec.name, Some(FieldsOf(spec.defaultValue)), id)
                  && r.value.details == Some(DetailsNow(w.snap, w.snap.reason))
                  && r.value.undelegated == r.value.exposures)
            && (ToLower(spec.stype) != "dynamic_config" ==> r.value.config == ConfigValue("", None, ""))
  {
    if spec.enabled {
      assert spec.rules[..|spec.rules|] == spec.rules;
      var trace := LoopReaches(w, spec, |spec.rules|, 0, [], d);
    }
  }

  // ----- By name. -----

  /** An override answers before anything else, and a name that is not stored gets an empty answer. */
  lemma OverriddenOrUnknown(w: World, name: string, d: nat)
    ensures var s := w.snap;
            var unknown := Done(ZERO.(details := Some(DetailsNow(s, Unrecognized))));
            var local := Some(DetailsNow(s, LocalOverride));
            && (name in s.gateOverrides ==>
                  EvalGate(w, name, d) ==
                  Done(ZERO.(pass := s.gateOverrides[name], id := "override", details := local)))
            && (name in s.configOverrides ==>
                  EvalConfig(w, name, d) ==
                  Done(ZERO.(pass := true, id := "override", details := local,
                             config := ConfigValue(name, Some(s.configOverrides[name]), "override"))))
            && (name in s.layerOverrides ==>
                  EvalLayer(w, name, d) ==
                  Done(ZERO.(pass := true, id := "override", details := local,
                             config := ConfigValue(name, Some(s.layerOverrides[name]), "override"))))
            && (name !in s.gateOverrides && name !in s.gates ==> EvalGate(w, name, d) == unknown)
            && (name !in s.configOverrides && name !in s.configs ==> EvalConfig(w, name, d) == unknown)
            && (name !in s.layerOverrides && name !in s.layers ==> EvalLayer(w, name, d) == unknown)
  {
  }

  /** A config that is looked up by name has the return value of its first matching rule for the users that the rollout
      lets in, and its default value for all others. */
  lemma ConfigAnswers(w: World, name: string, i: nat, d: nat)
    requires name in w.snap.configs && name !in w.snap.configOverrides
    requires var spec := w.snap.configs[name];
             && ToLower(spec.stype) == "dynamic_config" && FirstToHold(w, spec, i, d + 1)
             && spec.rules[i].configDelegate !in w.snap.configs
    ensures var spec := w.snap.configs[name];
            var rule := spec.rules[i];
            var lets := EvalPassPercent(w.lib, w.user, rule, spec);
            var r := EvalConfig(w, name, d);
            && r.Done? && r.value.pass == lets && r.value.id == rule.id
            && r.value.config ==
               ConfigValue(spec.name, Some(FieldsOf(if lets then rule.returnValue else spec.defaultValue)), rule.id)
  {
    RuleAnswer(w, w.snap.configs[name], i, d + 1);
  }

  /** A layer whose first matching rule delegates has the value that its delegate, evaluated alone, has. */
  lemma LayerAnswers(w: World, name: string, i: nat, d: nat)
    requires name in w.snap.layers && name !in w.snap.layerOverrides
    requires FirstToHold(w, w.snap.layers[name], i, d + 1)
    requires w.snap.layers[name].rules[i].configDelegate in w.snap.configs
    ensures var delegate := w.snap.layers[name].rules[i].configDelegate;
            var own, r := Eval(w, w.snap.configs[delegate], d + 3), EvalLayer(w, name, d);
            && (own.Panic? ==> r == own)
            && (own.Done? ==> r.Done? && r.value.config == own.value.config && r.value.pass == own.value.pass
                              && r.value.id == own.value.id && r.value.delegate == delegate)
  {
    DelegateAnswer(w, w.snap.layers[name], i, d + 1);
  }

  /** A gate whose only rule asks about another gate: with `pass_gate` it passes exactly for the users the other gate
      and the rollout let in, with `fail_gate` for those the other gate keeps out and the rollout lets in. */
  lemma GateOnGate(w: World, name: string, g: string, d: nat)
    requires name in w.snap.gates && name !in w.snap.gateOverrides && d < MAX_DEPTH
    requires var spec := w.snap.gates[name];
             && spec.enabled && |spec.rules| == 1 && |spec.rules[0].conditions| == 1
             && spec.rules[0].configDelegate !in w.snap.configs
             && spec.rules[0].conditions[0].target == Str(g)
    requires EvalGate(w, g, d + 4).Done? && !EvalGate(w, g, d + 4).value.fetchFromServer
    ensures var spec := w.snap.gates[name];
            var rule, r, other := spec.rules[0], EvalGate(w, name, d), EvalGate(w, g, d + 4).value.pass;
            var ctype, lets := ToLower(rule.conditions[0].ctype), EvalPassPercent(w.lib, w.user, rule, spec);
            && (ctype == "pass_gate" ==>
                  r.Done? && r.value.pass == (other && lets) && r.value.id == if other then rule.id else "default")
            && (ctype == "fail_gate" ==>
                  r.Done? && r.value.pass == (!other && lets) && r.value.id == if other then "default" else rule.id)
  {
    var spec := w.snap.gates[name];
    var rule := spec.rules[0];
    var cond := rule.conditions[0];
    GateConditionMeans(w, cond, g, d + 3);
    assert rule.conditions == [cond] && spec.rules == [rule] && spec.rules[..0] == [];
    if ToLower(cond.ctype) in {"pass_gate", "fail_gate"} {
      if EvalCondition(w, cond, d + 3).value.pass {
        assert FirstToHold(w, spec, 0, d + 1);
        RuleAnswer(w, spec, 0, d + 1);
      } else {
        assert cond in rule.conditions;
        assert NoneHolds(w, spec, d + 1);
        DefaultAnswer(w, spec, d + 1);
      }
    }
  }
}
