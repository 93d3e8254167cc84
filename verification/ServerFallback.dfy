/** When an evaluation ends in "ask the server". */
module ServerFallback {
  import opened Strings
  import opened Specs
  import opened Conditions
  import opened Evaluation
  import opened DepthLimit

  /** The condition's type or operator is one this SDK does not support. */
  predicate Unsupported(w: World, cond: Condition) {
    !IsGateCondition(cond) && Leaf(w, cond) == Done(Verdict(false, true))
  }

  predicate KnownType(name: string) {
    exists t <- TYPES :: TypeName(t) == name
  }

  predicate KnownOperator(name: string) {
    exists op <- OPERATORS :: OperatorName(op) == name
  }

  /** A condition is unsupported exactly when its type is none of the known spellings, or the type compares a value
      and the operator is none of the known spellings; case does not count. */
  lemma UnsupportedMeans(w: World, cond: Condition)
    ensures Unsupported(w, cond) <==>
            || !KnownType(ToLower(cond.ctype))
            || (TypeOf(cond) !in {Public, PassGate, FailGate} && !KnownOperator(ToLower(cond.operator)))
  {
    FoundType(ToLower(cond.ctype), TYPES);
    FoundOperator(ToLower(cond.operator), OPERATORS);
    ByParsedNames(w, cond);
  }

  lemma ByParsedNames(w: World, cond: Condition)
    ensures Unsupported(w, cond) <==>
            || TypeOf(cond) == UnknownType
            || (TypeOf(cond) !in {Public, PassGate, FailGate} && OperatorOf(cond) == UnknownOperator)
  {
  }

  /** Evaluating the spec gets to a rule that holds an unsupported condition. */
  predicate StuckHere(w: World, spec: Spec) {
    exists i :: 0 <= i < |spec.rules| && Reached(w, spec, i) &&
      exists cond <- spec.rules[i].conditions :: Unsupported(w, cond)
  }

  /** Following first-match order through gates and delegates, evaluation of `spec` gets stuck at the path's end. */
  predicate StuckAlong(w: World, spec: Spec, path: seq<Step>)
    decreases |path|
  {
    if path == [] then StuckHere(w, spec)
    else Next(w, spec, path[0]).Some? && StuckAlong(w, Next(w, spec, path[0]).value, path[1..])
  }

  ghost predicate GetsStuck(w: World, spec: Spec) {
    exists path :: StuckAlong(w, spec, path)
  }

  /** A result carries the fallback flag exactly when a live path ends at an unsupported condition; it never passes. */
  lemma FallbackExact(w: World, spec: Spec, d: nat)
    requires Eval(w, spec, d).Done?
    ensures Eval(w, spec, d).value.fetchFromServer <==> GetsStuck(w, spec)
    ensures Eval(w, spec, d).value.fetchFromServer ==> !Eval(w, spec, d).value.pass
  {
    EvalCoherent(w, spec, d);
    if Eval(w, spec, d).value.fetchFromServer {
      var path := StuckPath(w, spec, d);
      assert StuckAlong(w, spec, path);
    } else if GetsStuck(w, spec) {
      var path :| StuckAlong(w, spec, path);
      StuckFetches(w, spec, path, d);
    }
  }

  // ----- From the flag to the path. -----

  lemma {:induction false} StuckPath(w: World, spec: Spec, d: nat) returns (path: seq<Step>)
    requires Eval(w, spec, d).Done? && Eval(w, spec, d).value.fetchFromServer
    ensures StuckAlong(w, spec, path)
    decreases Fuel(d), 1, 0
  {
    path := StuckRules(w, spec, 0, [], d);
  }

  lemma {:induction false} StuckRules(w: World, spec: Spec, k: nat, exposures: seq<Exposure>, d: nat)
    returns (path: seq<Step>)
    requires d <= MAX_DEPTH && spec.enabled && k <= |spec.rules|
    requires forall j :: 0 <= j < k ==> Skipped(w, spec.rules[j])
    requires RulesFrom(w, spec, k, exposures, d).Done? && RulesFrom(w, spec, k, exposures, d).value.fetchFromServer
    ensures StuckAlong(w, spec, path)
    decreases Fuel(d), 0, |spec.rules| - k
  {
    var rule := spec.rules[k];
    RulesStep(w, spec, k, exposures, d);
    var r := EvalRule(w, rule, d + 1).value;
    RuleShallower(w, rule, d + 1, 0);
    if r.fetchFromServer {
      var c, rest := StuckConds(w, rule.conditions, 0, ZERO.(pass := true), d + 1);
      path := StuckAtRule(w, spec, k, c, rest);
    } else if r.pass {
      var rest := StuckPath(w, w.snap.configs[rule.configDelegate], d + 2);
      path := [DelegateStep(k)] + rest;
    } else {
      path := StuckRules(w, spec, k + 1, exposures + r.exposures, d);
    }
  }

  lemma StuckAtRule(w: World, spec: Spec, k: nat, c: nat, rest: seq<Step>) returns (path: seq<Step>)
    requires Reached(w, spec, k) && c < |spec.rules[k].conditions| && AllReturn(w, spec.rules[k].conditions[..c])
    requires var cond := spec.rules[k].conditions[c];
             || Unsupported(w, cond)
             || (GateTarget(w.snap, cond).Some? && StuckAlong(w, GateTarget(w.snap, cond).value, rest))
    ensures StuckAlong(w, spec, path)
  {
    var cond := spec.rules[k].conditions[c];
    if Unsupported(w, cond) {
      assert cond in spec.rules[k].conditions;
      path := [];
    } else {
      path := [GateStep(k, c)] + rest;
    }
  }

  /** A condition asks the server because it is unsupported, or because the gate it is about does. */
  lemma FetchingSource(w: World, cond: Condition, d: nat)
    requires EvalCondition(w, cond, d).Done? && EvalCondition(w, cond, d).value.fetchFromServer
    ensures || Unsupported(w, cond)
            || (GateTarget(w.snap, cond).Some? &&
                var own := Eval(w, GateTarget(w.snap, cond).value, d + 2); own.Done? && own.value.fetchFromServer)
  {
    if IsGateCondition(cond) {
      assert EvalGate(w, cond.target.s, d + 1).Done?;
    }
  }

  lemma {:induction false} StuckConds(w: World, conds: seq<Condition>, k: nat, acc: Result, d: nat)
    returns (c: nat, path: seq<Step>)
    requires k <= |conds| && !acc.fetchFromServer && AllReturn(w, conds[..k])
    requires CondsFrom(w, conds, k, acc, d).Done? && CondsFrom(w, conds, k, acc, d).value.fetchFromServer
    ensures c < |conds| && AllReturn(w, conds[..c])
    ensures || Unsupported(w, conds[c])
            || (GateTarget(w.snap, conds[c]).Some? && StuckAlong(w, GateTarget(w.snap, conds[c]).value, path))
    decreases Fuel(d), 4, |conds| - k
  {
    CondsStep(w, conds, k, acc, d);
    var r := EvalCondition(w, conds[k], d + 1).value;
    CondShallower(w, conds[k], d + 1, 0);
    if r.fetchFromServer {
      c := k;
      path := [];
      FetchingSource(w, conds[k], d + 1);
      if !Unsupported(w, conds[k]) {
        path := StuckPath(w, GateTarget(w.snap, conds[k]).value, d + 3);
      }
    } else {
      assert conds[..k + 1] == conds[..k] + [conds[k]];
      c, path := StuckConds(w, conds, k + 1, Both(acc, r), d);
    }
  }

  // ----- From the path to the flag. -----

  /** If the condition returns at all, it asks the server. */
  predicate Fetches(w: World, cond: Condition, d: nat) {
    var r := EvalCondition(w, cond, d);
    r.Done? ==> r.value.fetchFromServer
  }

  /** Once a condition asks the server, the rest of its rule cannot take that back: the loop does not stop early. */
  lemma {:induction false} FlagStays(w: World, conds: seq<Condition>, k: nat, acc: Result, d: nat)
    requires k <= |conds| && acc.fetchFromServer && CondsFrom(w, conds, k, acc, d).Done?
    ensures CondsFrom(w, conds, k, acc, d).value.fetchFromServer
    decreases |conds| - k
  {
    if k < |conds| {
      CondsStep(w, conds, k, acc, d);
      FlagStays(w, conds, k + 1, Both(acc, EvalCondition(w, conds[k], d + 1).value), d);
    }
  }

  lemma {:induction false} FetchingCond(w: World, conds: seq<Condition>, k: nat, acc: Result, c: nat, d: nat)
    requires k <= c < |conds| && Fetches(w, conds[c], d + 1) && CondsFrom(w, conds, k, acc, d).Done?
    ensures CondsFrom(w, conds, k, acc, d).value.fetchFromServer
    decreases c - k
  {
    CondsStep(w, conds, k, acc, d);
    var next := Both(acc, EvalCondition(w, conds[k], d + 1).value);
    if k < c {
      FetchingCond(w, conds, k + 1, next, c, d);
    } else {
      FlagStays(w, conds, k + 1, next, d);
    }
  }

  lemma FetchingRule(w: World, spec: Spec, i: nat, c: nat, d: nat)
    requires d <= MAX_DEPTH && Reached(w, spec, i) && Eval(w, spec, d).Done?
    requires c < |spec.rules[i].conditions| && Fetches(w, spec.rules[i].conditions[c], d + 2)
    ensures Eval(w, spec, d).value.fetchFromServer
  {
    var before := ReachRule(w, spec, 0, [], i, d);
    RulesStep(w, spec, i, before, d);
    FetchingCond(w, spec.rules[i].conditions, 0, ZERO.(pass := true), c, d + 1);
  }

  lemma StuckHereFetches(w: World, spec: Spec, d: nat)
    requires StuckHere(w, spec) && Eval(w, spec, d).Done?
    ensures Eval(w, spec, d).value.fetchFromServer
  {
    var i :| 0 <= i < |spec.rules| && Reached(w, spec, i) &&
      exists cond <- spec.rules[i].conditions :: Unsupported(w, cond);
    var cond :| cond in spec.rules[i].conditions && Unsupported(w, cond);
    var c :| 0 <= c < |spec.rules[i].conditions| && spec.rules[i].conditions[c] == cond;
    FetchingRule(w, spec, i, c, d);
  }

  lemma {:induction false} StuckFetches(w: World, spec: Spec, path: seq<Step>, d: nat)
    requires StuckAlong(w, spec, path) && Eval(w, spec, d).Done?
    ensures Eval(w, spec, d).value.fetchFromServer
    decreases |path|, 1
  {
    if path == [] {
      StuckHereFetches(w, spec, d);
    } else if path[0].GateStep? {
      var cond := spec.rules[path[0].rule].conditions[path[0].cond];
      StuckGate(w, cond, path[1..], d + 2);
      FetchingRule(w, spec, path[0].rule, path[0].cond, d);
    } else {
      StuckDelegate(w, spec, path, d);
    }
  }

  lemma {:induction false} StuckGate(w: World, cond: Condition, path: seq<Step>, d: nat)
    requires GateTarget(w.snap, cond).Some? && StuckAlong(w, GateTarget(w.snap, cond).value, path)
    ensures Fetches(w, cond, d)
    decreases |path|, 2
  {
    var target := GateTarget(w.snap, cond).value;
    assert EvalGate(w, cond.target.s, d + 1) == Eval(w, target, d + 2);
    if Eval(w, target, d + 2).Done? {
      StuckFetches(w, target, path, d + 2);
    }
  }

  /** An evaluation that matches a rule with an existing delegate takes the delegate's flag. */
  lemma DelegateDecides(w: World, spec: Spec, i: nat, d: nat)
    requires Reached(w, spec, i) && Matches(w, spec.rules[i]) && spec.rules[i].configDelegate in w.snap.configs
    requires Eval(w, spec, d).Done?
    ensures var own := Eval(w, w.snap.configs[spec.rules[i].configDelegate], d + 2);
            own.Done? && Eval(w, spec, d).value.fetchFromServer == own.value.fetchFromServer
  {
    var before := ReachRule(w, spec, 0, [], i, d);
    RuleShallower(w, spec.rules[i], d + 1, 0);
    RulesStep(w, spec, i, before, d);
  }

  lemma {:induction false} StuckDelegate(w: World, spec: Spec, path: seq<Step>, d: nat)
    requires path != [] && path[0].DelegateStep? && StuckAlong(w, spec, path) && Eval(w, spec, d).Done?
    ensures Eval(w, spec, d).value.fetchFromServer
    decreases |path|, 0
  {
    DelegateDecides(w, spec, path[0].rule, d);
    StuckFetches(w, Next(w, spec, path[0]).value, path[1..], d + 2);
  }
}
