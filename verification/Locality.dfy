/** Evaluating a spec reads only what the spec, and the specs it depends on, name. */
module Locality {
  import opened Specs
  import opened Conditions
  import opened Evaluation

  /** Names of gates, configs and ID lists. */
  datatype Scope = Scope(gates: set<string>, configs: set<string>, lists: set<string>)

  predicate CondIn(cond: Condition, sc: Scope) {
    cond.target.Str? ==>
      && (IsGateCondition(cond) ==> cond.target.s in sc.gates)
      && (UsesSegmentList(cond) ==> cond.target.s in sc.lists)
  }

  predicate RuleIn(rule: Rule, sc: Scope) {
    rule.configDelegate in sc.configs && forall cond <- rule.conditions :: CondIn(cond, sc)
  }

  /** Everything the spec names is in scope. */
  predicate SpecIn(spec: Spec, sc: Scope) {
    forall rule <- spec.rules :: RuleIn(rule, sc)
  }

  /** So is everything named by the specs in scope; an overridden gate's own spec does not matter. */
  predicate Closed(snap: Snapshot, sc: Scope) {
    && (forall g <- sc.gates :: g in snap.gates && g !in snap.gateOverrides ==> SpecIn(snap.gates[g], sc))
    && (forall c <- sc.configs :: c in snap.configs ==> SpecIn(snap.configs[c], sc))
  }

  predicate SameAt<T(==)>(m: map<string, T>, m': map<string, T>, k: string) {
    (k in m <==> k in m') && (k in m ==> m[k] == m'[k])
  }

  /** The two snapshots cannot be told apart within the scope. Config and layer overrides, layers and everything
      out of scope may differ; the specs of overridden gates may too. */
  predicate Agree(s: Snapshot, s': Snapshot, sc: Scope) {
    && s.reason == s'.reason && s.lastSyncTime == s'.lastSyncTime && s.initialSyncTime == s'.initialSyncTime
    && s.now == s'.now
    && (forall g <- sc.gates :: SameAt(s.gateOverrides, s'.gateOverrides, g))
    && (forall g <- sc.gates :: g !in s.gateOverrides ==> SameAt(s.gates, s'.gates, g))
    && (forall c <- sc.configs :: SameAt(s.configs, s'.configs, c))
    && (forall l <- sc.lists :: SameAt(s.idLists, s'.idLists, l))
  }

  /** Identical outcomes, panics included, at every depth. */
  lemma {:induction false} EvalLocal(w: World, s': Snapshot, sc: Scope, spec: Spec, d: nat)
    requires Agree(w.snap, s', sc) && Closed(w.snap, sc) && SpecIn(spec, sc)
    ensures Eval(w.(snap := s'), spec, d) == Eval(w, spec, d)
    decreases Fuel(d), 1, 0
  {
    if d <= MAX_DEPTH && spec.enabled {
      RulesLocal(w, s', sc, spec, 0, [], d);
    }
  }

  lemma {:induction false} RulesLocal(
    w: World, s': Snapshot, sc: Scope, spec: Spec, k: nat, exposures: seq<Exposure>, d: nat)
    requires Agree(w.snap, s', sc) && Closed(w.snap, sc) && SpecIn(spec, sc)
    requires k <= |spec.rules| && d <= MAX_DEPTH
    ensures RulesFrom(w.(snap := s'), spec, k, exposures, d) == RulesFrom(w, spec, k, exposures, d)
    decreases Fuel(d), 0, |spec.rules| - k
  {
    if k < |spec.rules| {
      var rule := spec.rules[k];
      assert RuleIn(rule, sc);
      CondsLocal(w, s', sc, rule.conditions, 0, ZERO.(pass := true), d + 1);
      var r := EvalRule(w, rule, d + 1);
      assert EvalRule(w.(snap := s'), rule, d + 1) == r;
      if r.Done? {
        RulesLocal(w, s', sc, spec, k + 1, exposures + r.value.exposures, d);
        DelegateLocal(w, s', sc, rule, exposures + r.value.exposures, d + 1);
      }
    }
  }

  lemma {:induction false} DelegateLocal(
    w: World, s': Snapshot, sc: Scope, rule: Rule, exposures: seq<Exposure>, d: nat)
    requires Agree(w.snap, s', sc) && Closed(w.snap, sc) && RuleIn(rule, sc) && 0 < d <= MAX_DEPTH + 1
    ensures EvalDelegate(w.(snap := s'), rule, exposures, d) == EvalDelegate(w, rule, exposures, d)
    decreases Fuel(d), 2, 0
  {
    assert SameAt(w.snap.configs, s'.configs, rule.configDelegate);
    if rule.configDelegate in w.snap.configs {
      EvalLocal(w, s', sc, w.snap.configs[rule.configDelegate], d + 1);
    }
  }

  lemma {:induction false} CondsLocal(
    w: World, s': Snapshot, sc: Scope, conds: seq<Condition>, k: nat, acc: Result, d: nat)
    requires Agree(w.snap, s', sc) && Closed(w.snap, sc) && forall cond <- conds :: CondIn(cond, sc)
    requires k <= |conds|
    ensures CondsFrom(w.(snap := s'), conds, k, acc, d) == CondsFrom(w, conds, k, acc, d)
    decreases Fuel(d), 4, |conds| - k
  {
    if k < |conds| {
      CondLocal(w, s', sc, conds[k], d + 1);
      var r := EvalCondition(w, conds[k], d + 1);
      if r.Done? {
        CondsLocal(w, s', sc, conds, k + 1, Both(acc, r.value), d);
      }
    }
  }

  lemma {:induction false} CondLocal(w: World, s': Snapshot, sc: Scope, cond: Condition, d: nat)
    requires Agree(w.snap, s', sc) && Closed(w.snap, sc) && CondIn(cond, sc)
    ensures EvalCondition(w.(snap := s'), cond, d) == EvalCondition(w, cond, d)
    decreases Fuel(d), 3, 0
  {
    if !IsGateCondition(cond) {
      LeafLocal(w, s', sc, cond);
    } else if cond.target.Str? {
      GateLocal(w, s', sc, cond.target.s, d + 1);
    }
  }

  lemma OperandLocal(w: World, s': Snapshot, cond: Condition)
    requires w.snap.now == s'.now
    ensures Operand(w.(snap := s'), cond) == Operand(w, cond)
  {
  }

  lemma OperateLocal(w: World, s': Snapshot, sc: Scope, cond: Condition, value: Value)
    requires Agree(w.snap, s', sc) && CondIn(cond, sc)
    ensures var op := OperatorOf(cond);
            Operate(w.(snap := s'), op, value, cond.target) == Operate(w, op, value, cond.target)
  {
    if UsesSegmentList(cond) && cond.target.Str? {
      assert SameAt(w.snap.idLists, s'.idLists, cond.target.s);
    }
    assert UsesSegmentList(cond) ==>
        InSegmentList(w.(snap := s'), value, cond.target) == InSegmentList(w, value, cond.target);
  }

  lemma LeafLocal(w: World, s': Snapshot, sc: Scope, cond: Condition)
    requires Agree(w.snap, s', sc) && CondIn(cond, sc)
    ensures Leaf(w.(snap := s'), cond) == Leaf(w, cond)
  {
    OperandLocal(w, s', cond);
    if Operand(w, cond).Some? {
      OperateLocal(w, s', sc, cond, Operand(w, cond).value);
    }
  }

  /** The same for a gate looked up by name. */
  lemma {:induction false} GateLocal(w: World, s': Snapshot, sc: Scope, name: string, d: nat)
    requires Agree(w.snap, s', sc) && Closed(w.snap, sc) && name in sc.gates
    ensures EvalGate(w.(snap := s'), name, d) == EvalGate(w, name, d)
    decreases Fuel(d), 2, 0
  {
    assert SameAt(w.snap.gateOverrides, s'.gateOverrides, name);
    if name !in w.snap.gateOverrides {
      assert SameAt(w.snap.gates, s'.gates, name);
      if name in w.snap.gates {
        EvalLocal(w, s', sc, w.snap.gates[name], d + 1);
      }
    }
  }

  /** A closed scope that contains a given spec: every name occurring anywhere in the store or in the spec. */
  function Everything(snap: Snapshot, spec: Spec): (sc: Scope)
    ensures Closed(snap, sc) && SpecIn(spec, sc)
  {
    var specs := snap.gates.Values + snap.configs.Values + {spec};
    var strings := set s <- specs, rule <- s.rules, cond <- rule.conditions | cond.target.Str? :: cond.target.s;
    var delegates := set s <- specs, rule <- s.rules :: rule.configDelegate;
    var sc := Scope(strings, delegates, strings);
    assert forall s <- specs :: SpecIn(s, sc) by {
      forall s <- specs, rule <- s.rules ensures RuleIn(rule, sc) {
        assert rule.configDelegate in delegates;
        forall cond <- rule.conditions | cond.target.Str? ensures cond.target.s in strings {}
      }
    }
    sc
  }

  /** Config and layer overrides never influence `eval`, even through delegation. */
  lemma ConfigOverridesNeverMatter(
    w: World, configs: map<string, Object>, layers: map<string, Object>, spec: Spec, d: nat)
    ensures Eval(w.(snap := w.snap.(configOverrides := configs, layerOverrides := layers)), spec, d) == Eval(w, spec, d)
  {
    var sc := Everything(w.snap, spec);
    EvalLocal(w, w.snap.(configOverrides := configs, layerOverrides := layers), sc, spec, d);
  }
}
