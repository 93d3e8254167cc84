/** The evaluator object: the loops, and what they do when the store changes under them. */
module Evaluator {
  import opened Strings
  import opened Specs
  import opened Conditions
  import Evaluation
  import SpecStore

  class Evaluator {
    const store: SpecStore.Store
    const lib: Lib
    var gateOverrides: map<string, bool>
    var configOverrides: map<string, Object>
    var layerOverrides: map<string, Object>
    var now: int

    /** No other goroutine touches the store, the overrides or the clock's reading. */
    const steady: bool

    constructor (store: SpecStore.Store, lib: Lib, steady: bool)
      ensures this.store == store && this.lib == lib && this.steady == steady
      ensures gateOverrides == map[] && configOverrides == layerOverrides == map[]
    {
      this.store, this.lib, this.steady := store, lib, steady;
      gateOverrides, configOverrides, layerOverrides, now := map[], map[], map[], 0;
    }

    function CurrentSnapshot(): Snapshot
      reads this, store
    {
      Snapshot(
        store.featureGates, store.dynamicConfigs, store.layerConfigs, store.experimentToLayer, store.sdkKeysToAppID,
        store.idLists, store.initReason, store.lastSyncTime, store.initialSyncTime,
        gateOverrides, configOverrides, layerOverrides, now)
    }

    function WorldOf(user: User): World
      reads this, store
    {
      World(lib, user, CurrentSnapshot())
    }

    /** What other goroutines may do before the next lock is taken: anything, unless things are steady. */
    method Interfere()
      modifies this, store
      ensures steady ==> CurrentSnapshot() == old(CurrentSnapshot())
    {
      if !steady {
        gateOverrides, configOverrides, layerOverrides, now := *, *, *, *;
        store.featureGates, store.dynamicConfigs, store.layerConfigs, store.idLists := *, *, *, *;
        store.initReason, store.lastSyncTime, store.initialSyncTime := *, *, *;
      }
    }

    method OverrideGate(gate: string, val: bool)
      modifies `gateOverrides
      ensures gateOverrides == old(gateOverrides)[gate := val]
    {
      gateOverrides := gateOverrides[gate := val];
    }

    method OverrideConfig(config: string, val: Object)
      modifies `configOverrides
      ensures configOverrides == old(configOverrides)[config := val]
    {
      configOverrides := configOverrides[config := val];
    }

    method OverrideLayer(layer: string, val: Object)
      modifies `layerOverrides
      ensures layerOverrides == old(layerOverrides)[layer := val]
    {
      layerOverrides := layerOverrides[layer := val];
    }

    method CreateEvaluationDetails(reason: Reason) returns (details: Details)
      modifies this, store
      ensures steady ==> CurrentSnapshot() == old(CurrentSnapshot())
      ensures steady ==> details == Evaluation.DetailsFor(CurrentSnapshot(), reason)
    {
      Interfere();
      details := Details(reason, store.lastSyncTime, store.initialSyncTime);
    }

    method CheckGate(user: User, gateName: string) returns (r: Outcome<Result>)
      modifies this, store
      ensures r.Done? ==> Evaluation.Coherent(r.value)
      ensures steady ==> CurrentSnapshot() == old(CurrentSnapshot())
      ensures steady ==> r == Evaluation.CheckGate(WorldOf(user), gateName)
    {
      r := EvalGate(user, gateName, 0);
    }

    method EvalGate(user: User, gateName: string, depth: nat) returns (r: Outcome<Result>)
      modifies this, store
      ensures r.Done? ==> Evaluation.Coherent(r.value)
      ensures steady ==> CurrentSnapshot() == old(CurrentSnapshot())
      ensures steady ==> r == Evaluation.EvalGate(WorldOf(user), gateName, depth)
      decreases Evaluation.Fuel(depth), 2, 0
    {
      Interfere();
      if gateName in gateOverrides {
        var pass := gateOverrides[gateName];
        var details := CreateEvaluationDetails(LocalOverride);
        return Done(ZERO.(pass := pass, id := "override", details := Some(details)));
      }
      Interfere();
      if gateName in store.featureGates {
        r := Eval(user, store.featureGates[gateName], depth + 1);
        return;
      }
      var details := CreateEvaluationDetails(Unrecognized);
      return Done(ZERO.(details := Some(details)));
    }

    method EvalConfig(user: User, configName: string, depth: nat) returns (r: Outcome<Result>)
      modifies this, store
      ensures r.Done? ==> Evaluation.Coherent(r.value)
      ensures steady ==> CurrentSnapshot() == old(CurrentSnapshot())
      ensures steady ==> r == Evaluation.EvalConfig(WorldOf(user), configName, depth)
    {
      Interfere();
      if configName in configOverrides {
        var value := configOverrides[configName];
        var details := CreateEvaluationDetails(LocalOverride);
        return Done(ZERO.(pass := true, config := NewConfig(configName, Some(value), "override"), id := "override",
                          details := Some(details)));
      }
      Interfere();
      if configName in store.dynamicConfigs {
        r := Eval(user, store.dynamicConfigs[configName], depth + 1);
        return;
      }
      var details := CreateEvaluationDetails(Unrecognized);
      return Done(ZERO.(details := Some(details)));
    }

    method EvalLayer(user: User, name: string, depth: nat) returns (r: Outcome<Result>)
      modifies this, store
      ensures r.Done? ==> Evaluation.Coherent(r.value)
      ensures steady ==> CurrentSnapshot() == old(CurrentSnapshot())
      ensures steady ==> r == Evaluation.EvalLayer(WorldOf(user), name, depth)
    {
      Interfere();
      if name in layerOverrides {
        var value := layerOverrides[name];
        var details := CreateEvaluationDetails(LocalOverride);
        return Done(ZERO.(pass := true, config := NewConfig(name, Some(value), "override"), id := "override",
                          details := Some(details)));
      }
      Interfere();
      if name in store.layerConfigs {
        r := Eval(user, store.layerConfigs[name], depth + 1);
        return;
      }
      var details := CreateEvaluationDetails(Unrecognized);
      return Done(ZERO.(details := Some(details)));
    }

    method Eval(user: User, spec: Spec, depth: nat) returns (r: Outcome<Result>)
      modifies this, store
      ensures r.Done? ==> Evaluation.Coherent(r.value)
      ensures steady ==> CurrentSnapshot() == old(CurrentSnapshot())
      ensures steady ==> r == Evaluation.Eval(WorldOf(user), spec, depth)
      decreases Evaluation.Fuel(depth), 1, 0
    {
      if depth > Evaluation.MAX_DEPTH {
        return Panic(DepthExceeded);
      }
      Interfere();
      var reason := store.initReason;
      var details := CreateEvaluationDetails(reason);
      var isDynamicConfig := Evaluation.IsDynamicConfig(spec);
      var configValue: Option<Object> := None;
      if isDynamicConfig {
        configValue := Decode(spec.defaultValue);
      }
      var exposures: seq<Exposure> := [];
      var defaultRuleID := "default";
      if spec.enabled {
        for k := 0 to |spec.rules|
          invariant steady ==> CurrentSnapshot() == old(CurrentSnapshot())
          invariant steady ==> Evaluation.RulesFrom(WorldOf(user), spec, k, exposures, depth) ==
                               Evaluation.Eval(WorldOf(user), spec, depth)
        {
          var rule := spec.rules[k];
          var ruleOutcome := EvalRule(user, rule, depth + 1);
          if ruleOutcome.Panic? {
            return ruleOutcome;
          }
          var result := ruleOutcome.value;
          if result.fetchFromServer {
            return ruleOutcome;
          }
          exposures := exposures + result.exposures;
          if result.pass {
            var delegated := EvalDelegate(user, rule, exposures, depth + 1);
            if delegated.Panic? {
              return Panic(delegated.why);
            }
            if delegated.value.Some? {
              return Done(delegated.value.value);
            }
            var pass := EvalPassPercent(lib, user, rule, spec);
            if isDynamicConfig {
              if pass {
                configValue := Decode(rule.returnValue);
              }
              return Done(ZERO.(
                pass := pass, config := NewConfig(spec.name, configValue, rule.id), id := rule.id,
                exposures := exposures, undelegated := exposures, details := Some(details),
                isExperimentGroup := rule.isExperimentGroup));
            } else {
              return Done(ZERO.(pass := pass, id := rule.id, exposures := exposures, details := Some(details)));
            }
          }
        }
      } else {
        defaultRuleID := "disabled";
      }
      if isDynamicConfig {
        return Done(ZERO.(
          config := NewConfig(spec.name, configValue, defaultRuleID), id := defaultRuleID, exposures := exposures,
          undelegated := exposures, details := Some(details)));
      }
      return Done(ZERO.(id := defaultRuleID, exposures := exposures));
    }

    /** `Done(None)` when the rule delegates to no existing config. */
    method EvalDelegate(user: User, rule: Rule, exposures: seq<Exposure>, depth: nat)
      returns (r: Outcome<Option<Result>>)
      modifies this, store
      ensures r.Done? && r.value.Some? ==> Evaluation.Coherent(r.value.value)
      ensures steady ==> CurrentSnapshot() == old(CurrentSnapshot()) &&
                         r == Evaluation.EvalDelegate(WorldOf(user), rule, exposures, depth)
      decreases Evaluation.Fuel(depth), 2, 0
    {
      Interfere();
      if rule.configDelegate !in store.dynamicConfigs {
        return Done(None);
      }
      var config := store.dynamicConfigs[rule.configDelegate];
      var outcome := Eval(user, config, depth + 1);
      if outcome.Panic? {
        return Panic(outcome.why);
      }
      var result := outcome.value;
      result := result.(delegate := rule.configDelegate);
      result := result.(exposures := exposures + result.exposures);
      result := result.(undelegated := exposures);
      var explicitParams: set<string> := {};
      for i := 0 to |config.explicitParameters|
        invariant explicitParams == set s | s in config.explicitParameters[..i]
      {
        assert config.explicitParameters[..i + 1] == config.explicitParameters[..i] + [config.explicitParameters[i]];
        explicitParams := explicitParams + {config.explicitParameters[i]};
      }
      assert config.explicitParameters[..|config.explicitParameters|] == config.explicitParameters;
      result := result.(explicitParams := explicitParams);
      return Done(Some(result));
    }

    method EvalRule(user: User, rule: Rule, depth: nat) returns (r: Outcome<Result>)
      modifies this, store
      ensures r.Done? ==> Evaluation.Coherent(r.value)
      ensures steady ==> CurrentSnapshot() == old(CurrentSnapshot())
      ensures steady ==> r == Evaluation.EvalRule(WorldOf(user), rule, depth)
      decreases Evaluation.Fuel(depth), 5, 0
    {
      var exposures: seq<Exposure> := [];
      var pass, fetchFromServer := true, false;
      for k := 0 to |rule.conditions|
        invariant fetchFromServer ==> !pass
        invariant steady ==> CurrentSnapshot() == old(CurrentSnapshot())
        invariant steady ==>
                    Evaluation.CondsFrom(
                      WorldOf(user), rule.conditions, k, Gathered(pass, fetchFromServer, exposures), depth) ==
                    Evaluation.EvalRule(WorldOf(user), rule, depth)
      {
        ghost var acc := Gathered(pass, fetchFromServer, exposures);
        Evaluation.CondsStep(WorldOf(user), rule.conditions, k, acc, depth);
        var outcome := EvalCondition(user, rule.conditions[k], depth + 1);
        if outcome.Panic? {
          return outcome;
        }
        var res := outcome.value;
        if !res.pass {
          pass := false;
        }
        if res.fetchFromServer {
          fetchFromServer := true;
        }
        exposures := exposures + res.exposures;
        assert Gathered(pass, fetchFromServer, exposures) == Evaluation.Both(acc, res);
      }
      return Done(Gathered(pass, fetchFromServer, exposures));
    }

    static function Gathered(pass: bool, fetchFromServer: bool, exposures: seq<Exposure>): Result {
      ZERO.(pass := pass, fetchFromServer := fetchFromServer, exposures := exposures)
    }

    method EvalCondition(user: User, cond: Condition, depth: nat) returns (r: Outcome<Result>)
      modifies this, store
      ensures r.Done? ==> Evaluation.Coherent(r.value)
      ensures steady ==> CurrentSnapshot() == old(CurrentSnapshot())
      ensures steady ==> r == Evaluation.EvalCondition(WorldOf(user), cond, depth)
      decreases Evaluation.Fuel(depth), 3, 0
    {
      if Evaluation.IsGateCondition(cond) {
        if !cond.target.Str? {
          return Done(ZERO);
        }
        var outcome := EvalGate(user, cond.target.s, depth + 1);
        if outcome.Panic? {
          return outcome;
        }
        var result := outcome.value;
        if result.fetchFromServer {
          return Done(ZERO.(fetchFromServer := true));
        }
        var newExposure := Exposure(cond.target.s, FormatBool(result.pass), result.id);
        var allExposures := result.exposures + [newExposure];
        if TypeOf(cond) == PassGate {
          return Done(ZERO.(pass := result.pass, exposures := allExposures));
        } else {
          return Done(ZERO.(pass := !result.pass, exposures := allExposures));
        }
      }
      Interfere();
      var verdict := Leaf(WorldOf(user), cond);
      if verdict.Panic? {
        return Panic(verdict.why);
      }
      return Done(ZERO.(pass := verdict.value.pass, fetchFromServer := verdict.value.server));
    }
  }
}
