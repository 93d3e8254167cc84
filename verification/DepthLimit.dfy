/** What the depth counter does to an evaluation: nothing, unless a chain of dependencies that really gets
    followed is too heavy. */
module DepthLimit {
  import opened Strings
  import opened Specs
  import opened Conditions
  import opened Evaluation

  // ----- Depth irrelevance: only the depth panic itself depends on the entry depth. -----

  /** A call that does not hit the limit gives the same outcome at every smaller depth. */
  lemma {:induction false} EvalShallower(w: World, spec: Spec, d: nat, d': nat)
    requires d' <= d && Eval(w, spec, d) != Panic(DepthExceeded)
    ensures Eval(w, spec, d') == Eval(w, spec, d)
    decreases Fuel(d), 1, 0
  {
    if spec.enabled {
      RulesShallower(w, spec, 0, [], d, d');
    }
  }

  lemma {:induction false} RulesShallower(w: World, spec: Spec, k: nat, exposures: seq<Exposure>, d: nat, d': nat)
    requires k <= |spec.rules| && d' <= d <= MAX_DEPTH
    requires RulesFrom(w, spec, k, exposures, d) != Panic(DepthExceeded)
    ensures RulesFrom(w, spec, k, exposures, d') == RulesFrom(w, spec, k, exposures, d)
    decreases Fuel(d), 0, |spec.rules| - k
  {
    if k < |spec.rules| {
      var rule := spec.rules[k];
      RuleShallower(w, rule, d + 1, d' + 1);
      var r := EvalRule(w, rule, d + 1);
      if r.Done? && !r.value.fetchFromServer {
        if !r.value.pass {
          RulesShallower(w, spec, k + 1, exposures + r.value.exposures, d, d');
        } else if rule.configDelegate in w.snap.configs {
          EvalShallower(w, w.snap.configs[rule.configDelegate], d + 2, d' + 2);
        }
      }
    }
  }

  lemma {:induction false} RuleShallower(w: World, rule: Rule, d: nat, d': nat)
    requires d' <= d && EvalRule(w, rule, d) != Panic(DepthExceeded)
    ensures EvalRule(w, rule, d') == EvalRule(w, rule, d)
    decreases Fuel(d), 5, 0
  {
    CondsShallower(w, rule.conditions, 0, ZERO.(pass := true), d, d');
  }

  lemma {:induction false} CondsShallower(w: World, conds: seq<Condition>, k: nat, acc: Result, d: nat, d': nat)
    requires k <= |conds| && d' <= d
    requires CondsFrom(w, conds, k, acc, d) != Panic(DepthExceeded)
    ensures CondsFrom(w, conds, k, acc, d') == CondsFrom(w, conds, k, acc, d)
    decreases Fuel(d), 4, |conds| - k
  {
    if k < |conds| {
      CondShallower(w, conds[k], d + 1, d' + 1);
      var r := EvalCondition(w, conds[k], d + 1);
      if r.Done? {
        CondsShallower(w, conds, k + 1, Both(acc, r.value), d, d');
      }
    }
  }

  lemma {:induction false} CondShallower(w: World, cond: Condition, d: nat, d': nat)
    requires d' <= d && EvalCondition(w, cond, d) != Panic(DepthExceeded)
    ensures EvalCondition(w, cond, d') == EvalCondition(w, cond, d)
    decreases Fuel(d), 3, 0
  {
    if IsGateCondition(cond) && cond.target.Str? {
      GateShallower(w, cond.target.s, d + 1, d' + 1);
    }
  }

  lemma {:induction false} GateShallower(w: World, name: string, d: nat, d': nat)
    requires d' <= d && EvalGate(w, name, d) != Panic(DepthExceeded)
    ensures EvalGate(w, name, d') == EvalGate(w, name, d)
    decreases Fuel(d), 2, 0
  {
    if name !in w.snap.gateOverrides && name in w.snap.gates {
      EvalShallower(w, w.snap.gates[name], d + 1, d' + 1);
    }
  }

  // ----- The exact limit: live paths. -----

  /** One dependency that an evaluation follows: condition `cond` of rule `rule`, or the delegate of rule `rule`. */
  datatype Step = GateStep(rule: nat, cond: nat) | DelegateStep(rule: nat)

  function StepWeight(step: Step): nat { if step.GateStep? then 4 else 2 }

  function Weight(path: seq<Step>): nat {
    if path == [] then 0 else StepWeight(path[0]) + Weight(path[1..])
  }

  /** The rule loop goes on past this rule. */
  predicate Skipped(w: World, rule: Rule) {
    var r := EvalRule(w, rule, 0);
    r.Done? && !r.value.fetchFromServer && !r.value.pass
  }

  predicate Matches(w: World, rule: Rule) {
    var r := EvalRule(w, rule, 0);
    r.Done? && !r.value.fetchFromServer && r.value.pass
  }

  predicate Reached(w: World, spec: Spec, rule: nat) {
    && spec.enabled && rule < |spec.rules|
    && forall j :: 0 <= j < rule ==> Skipped(w, spec.rules[j])
  }

  /** The gate spec a condition leads to, when it is about a present gate without an override. */
  function GateTarget(snap: Snapshot, cond: Condition): Option<Spec> {
    if IsGateCondition(cond) && cond.target.Str? && cond.target.s !in snap.gateOverrides && cond.target.s in snap.gates
    then Some(snap.gates[cond.target.s]) else None
  }

  predicate AllReturn(w: World, conds: seq<Condition>) {
    forall cond <- conds :: EvalCondition(w, cond, 0).Done?
  }

  /** The spec a live step leads to, or `None` when evaluating `spec` does not take that step. */
  function Next(w: World, spec: Spec, step: Step): Option<Spec> {
    if !Reached(w, spec, step.rule) then None
    else
      var rule := spec.rules[step.rule];
      match step
      case GateStep(_, k) =>
        if k < |rule.conditions| && AllReturn(w, rule.conditions[..k])
        then GateTarget(w.snap, rule.conditions[k]) else None
      case DelegateStep(_) =>
        if Matches(w, rule) && rule.configDelegate in w.snap.configs
        then Some(w.snap.configs[rule.configDelegate]) else None
  }

  predicate LivePath(w: World, spec: Spec, path: seq<Step>)
    decreases |path|
  {
    path == [] || (Next(w, spec, path[0]).Some? && LivePath(w, Next(w, spec, path[0]).value, path[1..]))
  }

  /** Evaluation raises the depth panic exactly when some chain of steps it follows outweighs the levels left. */
  lemma DepthExact(w: World, spec: Spec, d: nat)
    ensures Eval(w, spec, d) == Panic(DepthExceeded) <==>
            exists path :: LivePath(w, spec, path) && d + Weight(path) > MAX_DEPTH
  {
    if Eval(w, spec, d) == Panic(DepthExceeded) {
      var path := HeavyPath(w, spec, d);
    }
    forall path | LivePath(w, spec, path) && d + Weight(path) > MAX_DEPTH
      ensures Eval(w, spec, d) == Panic(DepthExceeded)
    {
      HeavyPathPanics(w, spec, path, d);
    }
  }

  lemma {:induction false} HeavyPathPanics(w: World, spec: Spec, path: seq<Step>, d: nat)
    requires LivePath(w, spec, path) && d + Weight(path) > MAX_DEPTH
    ensures Eval(w, spec, d) == Panic(DepthExceeded)
    decreases |path|
  {
    if d <= MAX_DEPTH {
      var step := path[0];
      HeavyPathPanics(w, Next(w, spec, step).value, path[1..], d + StepWeight(step));
      StepPanics(w, spec, step, d);
    }
  }

  /** An evaluation gets to every rule that is reached, unless it hits the limit before. */
  lemma {:induction false} ReachRule(w: World, spec: Spec, k: nat, exposures: seq<Exposure>, i: nat, d: nat)
    returns (before: seq<Exposure>)
    requires d <= MAX_DEPTH && Reached(w, spec, i) && k <= i
    ensures var all := RulesFrom(w, spec, k, exposures, d);
            all == Panic(DepthExceeded) || all == RulesFrom(w, spec, i, before, d)
    decreases i - k
  {
    before := exposures;
    if k < i {
      var rule := spec.rules[k];
      RulesStep(w, spec, k, exposures, d);
      var r := EvalRule(w, rule, d + 1);
      if r != Panic(DepthExceeded) {
        RuleShallower(w, rule, d + 1, 0);
        assert Skipped(w, rule);
        before := ReachRule(w, spec, k + 1, exposures + r.value.exposures, i, d);
      }
    }
  }

  lemma LeafNeverTooDeep(w: World, cond: Condition)
    ensures Leaf(w, cond) != Panic(DepthExceeded)
  {
  }

  /** Only the gate a condition names can make it hit the limit. */
  lemma CondLimit(w: World, cond: Condition, d: nat)
    ensures EvalCondition(w, cond, d) == Panic(DepthExceeded) <==>
            GateTarget(w.snap, cond).Some? && Eval(w, GateTarget(w.snap, cond).value, d + 2) == Panic(DepthExceeded)
  {
    if !IsGateCondition(cond) {
      LeafNeverTooDeep(w, cond);
    } else if cond.target.Str? {
      var r := EvalGate(w, cond.target.s, d + 1);
      assert EvalCondition(w, cond, d) == if r.Panic? then Panic(r.why) else Done(GateVerdict(cond, r.value));
    }
  }

  /** If the spec a live step leads to hits the limit, so does the spec it starts from. */
  lemma StepPanics(w: World, spec: Spec, step: Step, d: nat)
    requires d <= MAX_DEPTH && Next(w, spec, step).Some?
    requires Eval(w, Next(w, spec, step).value, d + StepWeight(step)) == Panic(DepthExceeded)
    ensures Eval(w, spec, d) == Panic(DepthExceeded)
  {
    var rule := spec.rules[step.rule];
    var before := ReachRule(w, spec, 0, [], step.rule, d);
    RulesStep(w, spec, step.rule, before, d);
    if step.GateStep? {
      CondLimit(w, rule.conditions[step.cond], d + 2);
      CondsReach(w, rule.conditions, 0, ZERO.(pass := true), step.cond, d + 1);
    } else if EvalRule(w, rule, d + 1) != Panic(DepthExceeded) {
      RuleShallower(w, rule, d + 1, 0);
    }
  }

  lemma {:induction false} CondsReach(w: World, conds: seq<Condition>, k: nat, acc: Result, target: nat, d: nat)
    requires k <= target < |conds|
    requires AllReturn(w, conds[..target])
    requires EvalCondition(w, conds[target], d + 1) == Panic(DepthExceeded)
    ensures CondsFrom(w, conds, k, acc, d) == Panic(DepthExceeded)
    decreases target - k
  {
    CondsStep(w, conds, k, acc, d);
    var r := EvalCondition(w, conds[k], d + 1);
    if r != Panic(DepthExceeded) {
      CondShallower(w, conds[k], d + 1, 0);
      assert conds[k] in conds[..target];
      CondsReach(w, conds, k + 1, Both(acc, r.value), target, d);
    }
  }

  lemma {:induction false} HeavyPath(w: World, spec: Spec, d: nat) returns (path: seq<Step>)
    requires Eval(w, spec, d) == Panic(DepthExceeded)
    ensures LivePath(w, spec, path) && d + Weight(path) > MAX_DEPTH
    decreases Fuel(d), 1, 0
  {
    if d > MAX_DEPTH {
      path := [];
    } else {
      path := HeavyRules(w, spec, 0, [], d);
    }
  }

  lemma {:induction false} HeavyRules(w: World, spec: Spec, k: nat, exposures: seq<Exposure>, d: nat)
    returns (path: seq<Step>)
    requires d <= MAX_DEPTH && spec.enabled && k <= |spec.rules|
    requires forall j :: 0 <= j < k ==> Skipped(w, spec.rules[j])
    requires RulesFrom(w, spec, k, exposures, d) == Panic(DepthExceeded)
    ensures LivePath(w, spec, path) && d + Weight(path) > MAX_DEPTH
    decreases Fuel(d), 0, |spec.rules| - k
  {
    var rule := spec.rules[k];
    var r := EvalRule(w, rule, d + 1);
    RulesStep(w, spec, k, exposures, d);
    if r == Panic(DepthExceeded) {
      var c, rest := HeavyConds(w, rule.conditions, 0, ZERO.(pass := true), d + 1);
      path := [GateStep(k, c)] + rest;
    } else {
      RuleShallower(w, rule, d + 1, 0);
      if r.value.pass {
        var rest := HeavyPath(w, w.snap.configs[rule.configDelegate], d + 2);
        path := [DelegateStep(k)] + rest;
      } else {
        path := HeavyRules(w, spec, k + 1, exposures + r.value.exposures, d);
      }
    }
  }

  lemma {:induction false} HeavyConds(w: World, conds: seq<Condition>, k: nat, acc: Result, d: nat)
    returns (c: nat, path: seq<Step>)
    requires k <= |conds|
    requires AllReturn(w, conds[..k])
    requires CondsFrom(w, conds, k, acc, d) == Panic(DepthExceeded)
    ensures c < |conds| && AllReturn(w, conds[..c])
    ensures GateTarget(w.snap, conds[c]).Some? && LivePath(w, GateTarget(w.snap, conds[c]).value, path)
    ensures d + 3 + Weight(path) > MAX_DEPTH
    decreases Fuel(d), 4, |conds| - k
  {
    var r := EvalCondition(w, conds[k], d + 1);
    CondsStep(w, conds, k, acc, d);
    CondLimit(w, conds[k], d + 1);
    if r == Panic(DepthExceeded) {
      c := k;
      path := HeavyPath(w, GateTarget(w.snap, conds[k]).value, d + 3);
    } else {
      CondShallower(w, conds[k], d + 1, 0);
      assert conds[..k + 1] == conds[..k] + [conds[k]];
      c, path := HeavyConds(w, conds, k + 1, Both(acc, r.value), d);
    }
  }

  // ----- Consequences for the two entry points. -----

  /** `checkGate` enters `eval` one level down, the initialize response at level zero: wherever the first returns,
      the second returns the same. */
  lemma EntriesAgree(w: World, name: string)
    requires name in w.snap.gates && name !in w.snap.gateOverrides
    requires CheckGate(w, name) != Panic(DepthExceeded)
    ensures Eval(w, w.snap.gates[name], 0) == CheckGate(w, name)
  {
    EvalShallower(w, w.snap.gates[name], 1, 0);
  }

  ghost predicate RuleDependency(snap: Snapshot, rule: Rule, weight: nat, target: Spec) {
    || (weight == 2 && rule.configDelegate in snap.configs && target == snap.configs[rule.configDelegate])
    || (weight == 4 && exists k :: 0 <= k < |rule.conditions| && GateTarget(snap, rule.conditions[k]) == Some(target))
  }

  /** The spec names `target` as a delegate or in a gate condition, whether or not evaluations get there. */
  ghost predicate DependencyEdge(snap: Snapshot, spec: Spec, weight: nat, target: Spec) {
    spec.enabled && exists i :: 0 <= i < |spec.rules| && RuleDependency(snap, spec.rules[i], weight, target)
  }

  /** Chains of dependencies as lists of (edge weight, spec it leads to). */
  ghost predicate DependencyPath(snap: Snapshot, spec: Spec, path: seq<(nat, Spec)>)
    decreases |path|
  {
    path == [] ||
    (DependencyEdge(snap, spec, path[0].0, path[0].1) && DependencyPath(snap, path[0].1, path[1..]))
  }

  ghost function PathWeight(path: seq<(nat, Spec)>): nat {
    if path == [] then 0 else path[0].0 + PathWeight(path[1..])
  }

  lemma {:induction false} LivePathsAreDependencies(w: World, spec: Spec, path: seq<Step>)
    returns (p: seq<(nat, Spec)>)
    requires LivePath(w, spec, path)
    ensures DependencyPath(w.snap, spec, p) && PathWeight(p) == Weight(path)
    decreases |path|
  {
    if path == [] {
      p := [];
    } else {
      var next := Next(w, spec, path[0]).value;
      var rest := LivePathsAreDependencies(w, next, path[1..]);
      p := [(StepWeight(path[0]), next)] + rest;
      assert RuleDependency(w.snap, spec.rules[path[0].rule], StepWeight(path[0]), next);
    }
  }

  /** On a store whose dependency paths from a gate weigh at most 299, `checkGate` never raises the depth panic. */
  lemma LightStoresNeverPanic(w: World, name: string)
    requires name in w.snap.gates ==>
               forall p :: DependencyPath(w.snap, w.snap.gates[name], p) ==> PathWeight(p) <= 299
    ensures CheckGate(w, name) != Panic(DepthExceeded)
  {
    if CheckGate(w, name) == Panic(DepthExceeded) {
      var path := HeavyPath(w, w.snap.gates[name], 1);
      var p := LivePathsAreDependencies(w, w.snap.gates[name], path);
      assert false;
    }
  }

  /** The spec's only condition is that gate `name` passes, and it delegates to no existing config. */
  predicate LinksTo(snap: Snapshot, spec: Spec, name: string) {
    && spec.enabled && |spec.rules| == 1 && |spec.rules[0].conditions| == 1
    && spec.rules[0].configDelegate !in snap.configs
    && var cond := spec.rules[0].conditions[0];
       TypeOf(cond) == PassGate && cond.target == Str(name)
  }

  /** `names` is a straight chain of present, non-overridden gates; the last one has no rule. */
  predicate IsChain(snap: Snapshot, names: seq<string>) {
    && |names| > 0
    && (forall i :: 0 <= i < |names| ==> names[i] in snap.gates && names[i] !in snap.gateOverrides)
    && (forall i :: 0 <= i < |names| - 1 ==> LinksTo(snap, snap.gates[names[i]], names[i + 1]))
    && snap.gates[names[|names| - 1]].rules == []
  }

  lemma LinkOutcome(w: World, spec: Spec, name: string, d: nat)
    requires LinksTo(w.snap, spec, name) && name in w.snap.gates && name !in w.snap.gateOverrides && d <= MAX_DEPTH
    ensures Eval(w, spec, d).Panic? <==> Eval(w, w.snap.gates[name], d + 4).Panic?
  {
    var rule := spec.rules[0];
    var cond := rule.conditions[0];
    var g := EvalGate(w, name, d + 3);
    assert g == Eval(w, w.snap.gates[name], d + 4);
    var r := EvalCondition(w, cond, d + 2);
    assert r == if g.Panic? then Panic(g.why) else Done(GateVerdict(cond, g.value));
    var acc := ZERO.(pass := true);
    assert EvalRule(w, rule, d + 1) ==
           if r.Panic? then Panic(r.why) else CondsFrom(w, rule.conditions, 1, Both(acc, r.value), d + 1);
    RulesStep(w, spec, 0, [], d);
    if r.Done? {
      var done := Both(acc, r.value);
      assert EvalRule(w, rule, d + 1) == Done(done);
      assert EvalDelegate(w, rule, [] + done.exposures, d + 1) == Done(None);
      assert RulesFrom(w, spec, 0, [], d).Done?;
    }
  }

  lemma {:induction false} ChainLimit(w: World, names: seq<string>, d: nat)
    requires IsChain(w.snap, names)
    ensures Eval(w, w.snap.gates[names[0]], d).Panic? <==> d + 4 * (|names| - 1) > MAX_DEPTH
    decreases |names|
  {
    if |names| > 1 && d <= MAX_DEPTH {
      assert IsChain(w.snap, names[1..]);
      ChainLimit(w, names[1..], d + 4);
      LinkOutcome(w, w.snap.gates[names[0]], names[1], d);
    }
  }

  /** 75 gates in a row are fine from `checkGate` and 76 are not; the initialize response takes exactly one more. */
  lemma ChainCapacity(w: World, names: seq<string>)
    requires IsChain(w.snap, names)
    ensures CheckGate(w, names[0]).Done? <==> |names| <= 75
    ensures Eval(w, w.snap.gates[names[0]], 0).Done? <==> |names| <= 76
  {
    ChainLimit(w, names, 1);
    ChainLimit(w, names, 0);
  }
}
