/** Every exposure in an evaluation's trace is true, and complete. */
module Exposures {
  import opened Specs
  import opened Conditions
  import opened Evaluation
  import opened DepthLimit

  predicate EndsWith(s: seq<Exposure>, tail: seq<Exposure>) {
    |tail| <= |s| && s[|s| - |tail|..] == tail
  }

  /** Exposure `e` records what checking its gate alone gives, and that gate's own full trace comes right before it. */
  predicate SoundAt(w: World, trace: seq<Exposure>, i: nat)
    requires i < |trace|
  {
    var own := CheckGate(w, trace[i].gate);
    && own.Done?
    && !own.value.fetchFromServer
    && trace[i] == Exposure(trace[i].gate, FormatBool(own.value.pass), own.value.id)
    && EndsWith(trace[..i], own.value.exposures)
  }

  ghost predicate Sound(w: World, trace: seq<Exposure>) {
    forall i: nat :: i < |trace| ==> SoundAt(w, trace, i)
  }

  lemma SoundConcat(w: World, a: seq<Exposure>, b: seq<Exposure>)
    requires Sound(w, a) && Sound(w, b)
    ensures Sound(w, a + b)
  {
    forall i: nat | i < |a + b| ensures SoundAt(w, a + b, i) {
      if i < |a| {
        assert SoundAt(w, a, i) && (a + b)[..i] == a[..i];
      } else {
        assert SoundAt(w, b, i - |a|);
        var own := CheckGate(w, b[i - |a|].gate).value.exposures;
        assert (a + b)[..i] == a + b[..i - |a|];
        assert (a + b)[..i][i - |own|..] == b[..i - |a|][i - |a| - |own|..];
      }
    }
  }

  /** The trace of any evaluation that returns is sound. */
  lemma {:induction false} EvalSound(w: World, spec: Spec, d: nat)
    requires Eval(w, spec, d).Done?
    ensures Sound(w, Eval(w, spec, d).value.exposures)
    decreases Fuel(d), 1, 0
  {
    if spec.enabled {
      RulesSound(w, spec, 0, [], d);
    }
  }

  lemma {:induction false} RulesSound(w: World, spec: Spec, k: nat, exposures: seq<Exposure>, d: nat)
    requires k <= |spec.rules| && d <= MAX_DEPTH && Sound(w, exposures)
    requires RulesFrom(w, spec, k, exposures, d).Done?
    ensures Sound(w, RulesFrom(w, spec, k, exposures, d).value.exposures)
    decreases Fuel(d), 0, |spec.rules| - k
  {
    if k < |spec.rules| {
      var rule := spec.rules[k];
      RulesStep(w, spec, k, exposures, d);
      CondsSound(w, rule.conditions, 0, ZERO.(pass := true), d + 1);
      var r := EvalRule(w, rule, d + 1).value;
      SoundConcat(w, exposures, r.exposures);
      if !r.fetchFromServer {
        if !r.pass {
          RulesSound(w, spec, k + 1, exposures + r.exposures, d);
        } else if rule.configDelegate in w.snap.configs {
          var config := w.snap.configs[rule.configDelegate];
          EvalSound(w, config, d + 2);
          SoundConcat(w, exposures + r.exposures, Eval(w, config, d + 2).value.exposures);
        }
      }
    }
  }

  lemma {:induction false} CondsSound(w: World, conds: seq<Condition>, k: nat, acc: Result, d: nat)
    requires k <= |conds| && Sound(w, acc.exposures) && CondsFrom(w, conds, k, acc, d).Done?
    ensures Sound(w, CondsFrom(w, conds, k, acc, d).value.exposures)
    decreases Fuel(d), 4, |conds| - k
  {
    if k < |conds| {
      CondsStep(w, conds, k, acc, d);
      CondSound(w, conds[k], d + 1);
      var r := EvalCondition(w, conds[k], d + 1).value;
      SoundConcat(w, acc.exposures, r.exposures);
      CondsSound(w, conds, k + 1, Both(acc, r), d);
    }
  }

  lemma {:induction false} CondSound(w: World, cond: Condition, d: nat)
    requires EvalCondition(w, cond, d).Done?
    ensures Sound(w, EvalCondition(w, cond, d).value.exposures)
    decreases Fuel(d), 3, 0
  {
    if IsGateCondition(cond) && cond.target.Str? {
      var name := cond.target.s;
      var g := EvalGate(w, name, d + 1).value;
      GateShallower(w, name, d + 1, 0);
      GateSound(w, name, d + 1);
      var trace := EvalCondition(w, cond, d).value.exposures;
      if !g.fetchFromServer {
        assert trace[..|trace| - 1] == g.exposures;
        forall i: nat | i < |trace| ensures SoundAt(w, trace, i) {
          if i < |trace| - 1 {
            assert SoundAt(w, g.exposures, i) && trace[..i] == g.exposures[..i];
          }
        }
      }
    }
  }

  /** Checking a gate gives a sound trace. */
  lemma {:induction false} GateSound(w: World, name: string, d: nat)
    requires EvalGate(w, name, d).Done?
    ensures Sound(w, EvalGate(w, name, d).value.exposures)
    decreases Fuel(d), 2, 0
  {
    if name !in w.snap.gateOverrides && name in w.snap.gates {
      EvalSound(w, w.snap.gates[name], d + 1);
    }
  }
}
