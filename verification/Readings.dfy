/** Configurations without circular dependencies have exactly one reading, whatever their size and depth. */
module Readings {
  import opened Specs
  import opened Conditions
  import opened Evaluation
  import opened Locality
  import opened Meaning

  // ----- No circular dependencies. -----

  /** The spec names none of these gates in a gate condition and none of these configs as a delegate. */
  predicate NamesNone(spec: Spec, gates: set<string>, configs: set<string>) {
    forall rule <- spec.rules ::
      && rule.configDelegate !in configs
      && forall cond <- rule.conditions :: IsGateCondition(cond) && cond.target.Str? ==> cond.target.s !in gates
  }

  /** What the gate's result depends on includes none of these; an unknown or overridden gate depends on nothing. */
  predicate GateFree(snap: Snapshot, g: string, gates: set<string>, configs: set<string>) {
    g in snap.gates && g !in snap.gateOverrides ==> NamesNone(snap.gates[g], gates, configs)
  }

  predicate ConfigFree(snap: Snapshot, c: string, gates: set<string>, configs: set<string>) {
    c in snap.configs ==> NamesNone(snap.configs[c], gates, configs)
  }

  /** One of these gates and configs depends on none of them. */
  predicate SomeFree(snap: Snapshot, gates: set<string>, configs: set<string>) {
    || (exists g <- gates :: GateFree(snap, g, gates, configs))
    || (exists c <- configs :: ConfigFree(snap, c, gates, configs))
  }

  /** That is so among any gates and configs in scope: dependencies go round in no circle. */
  ghost predicate Acyclic(snap: Snapshot, sc: Scope) {
    forall gates: set<string>, configs: set<string> ::
      gates <= sc.gates && configs <= sc.configs && (gates != {} || configs != {}) ==> SomeFree(snap, gates, configs)
  }

  // ----- A spec's meaning depends on the reading of what it names. -----

  predicate SameIn(rd: Reading, rd': Reading, sc: Scope) {
    && (forall g <- sc.gates :: SameAt(rd.gates, rd'.gates, g))
    && (forall c <- sc.configs :: SameAt(rd.configs, rd'.configs, c))
  }

  lemma CondMeaningLocal(w: World, rd: Reading, rd': Reading, sc: Scope, cond: Condition)
    requires SameIn(rd, rd', sc) && CondIn(cond, sc)
    ensures CondMeaning(w, rd, cond) == CondMeaning(w, rd', cond)
  {
    if IsGateCondition(cond) && cond.target.Str? {
      assert SameAt(rd.gates, rd'.gates, cond.target.s);
    }
  }

  lemma {:induction false} CondsLocal(w: World, rd: Reading, rd': Reading, sc: Scope, conds: seq<Condition>)
    requires SameIn(rd, rd', sc) && forall cond <- conds :: CondIn(cond, sc)
    ensures AllHold(w, rd, conds) == AllHold(w, rd', conds)
    ensures SomeUnsupported(w, rd, conds) == SomeUnsupported(w, rd', conds)
    ensures CondsTrace(w, rd, conds) == CondsTrace(w, rd', conds)
  {
    forall cond <- conds ensures CondMeaning(w, rd, cond) == CondMeaning(w, rd', cond) {
      CondMeaningLocal(w, rd, rd', sc, cond);
    }
    if conds != [] {
      CondsLocal(w, rd, rd', sc, conds[..|conds| - 1]);
    }
  }

  lemma {:induction false} RulesTraceLocal(w: World, rd: Reading, rd': Reading, sc: Scope, rules: seq<Rule>)
    requires SameIn(rd, rd', sc) && forall rule <- rules :: RuleIn(rule, sc)
    ensures RulesTrace(w, rd, rules) == RulesTrace(w, rd', rules)
  {
    if rules != [] {
      RulesTraceLocal(w, rd, rd', sc, rules[..|rules| - 1]);
      var last := rules[|rules| - 1];
      assert RuleIn(last, sc);
      CondsLocal(w, rd, rd', sc, last.conditions);
    }
  }

  lemma DecisiveLocal(w: World, rd: Reading, rd': Reading, sc: Scope, rules: seq<Rule>)
    requires SameIn(rd, rd', sc) && forall rule <- rules :: RuleIn(rule, sc)
    ensures forall rule <- rules :: Decisive(w, rd, rule) == Decisive(w, rd', rule)
    ensures NoneDecisive(w, rd, rules) == NoneDecisive(w, rd', rules)
  {
    forall rule <- rules ensures Decisive(w, rd, rule) == Decisive(w, rd', rule) {
      CondsLocal(w, rd, rd', sc, rule.conditions);
    }
  }

  lemma RuleMeaningLocal(w: World, rd: Reading, rd': Reading, sc: Scope, spec: Spec, i: nat)
    requires SameIn(rd, rd', sc) && SpecIn(spec, sc) && i < |spec.rules|
    ensures RuleMeaning(w, rd, spec, i) == RuleMeaning(w, rd', spec, i)
  {
    var rule := spec.rules[i];
    assert RuleIn(rule, sc);
    RulesTraceLocal(w, rd, rd', sc, spec.rules[..i + 1]);
    CondsLocal(w, rd, rd', sc, rule.conditions);
    assert SameAt(rd.configs, rd'.configs, rule.configDelegate);
  }

  lemma MeansLocal(w: World, rd: Reading, rd': Reading, sc: Scope, spec: Spec, r: Result)
    requires SameIn(rd, rd', sc) && SpecIn(spec, sc) && Means(w, rd, spec, r)
    ensures Means(w, rd', spec, r)
  {
    if spec.enabled {
      DecisiveLocal(w, rd, rd', sc, spec.rules);
      RulesTraceLocal(w, rd, rd', sc, spec.rules);
      if !NoneDecisive(w, rd, spec.rules) {
        var i: nat :| i < |spec.rules| && NoneDecisive(w, rd, spec.rules[..i]) && Decisive(w, rd, spec.rules[i])
          && r == RuleMeaning(w, rd, spec, i);
        DecisiveLocal(w, rd, rd', sc, spec.rules[..i]);
        RuleMeaningLocal(w, rd, rd', sc, spec, i);
      }
    }
  }

  /** What the gate's result depends on lies in this part. */
  predicate GateOver(snap: Snapshot, g: string, part: Scope) {
    g in snap.gates && g !in snap.gateOverrides ==> SpecIn(snap.gates[g], part)
  }

  predicate ConfigOver(snap: Snapshot, c: string, part: Scope) {
    c in snap.configs ==> SpecIn(snap.configs[c], part)
  }

  lemma GateMeansLocal(w: World, rd: Reading, rd': Reading, sc: Scope, g: string, r: Result)
    requires SameIn(rd, rd', sc) && GateMeans(w, rd, g, r)
    requires GateOver(w.snap, g, sc)
    ensures GateMeans(w, rd', g, r)
  {
    if g in w.snap.gates && g !in w.snap.gateOverrides {
      MeansLocal(w, rd, rd', sc, w.snap.gates[g], r);
    }
  }

  // ----- Every spec means something. -----

  lemma {:induction false} FirstDecisive(w: World, rd: Reading, rules: seq<Rule>, k: nat) returns (i: nat)
    requires k <= |rules| && NoneDecisive(w, rd, rules[..k]) && !NoneDecisive(w, rd, rules)
    ensures i < |rules| && NoneDecisive(w, rd, rules[..i]) && Decisive(w, rd, rules[i])
    decreases |rules| - k
  {
    assert rules[..|rules|] == rules;
    if Decisive(w, rd, rules[k]) {
      i := k;
    } else {
      assert rules[..k + 1] == rules[..k] + [rules[k]];
      i := FirstDecisive(w, rd, rules, k + 1);
    }
  }

  lemma MeaningOf(w: World, rd: Reading, spec: Spec) returns (r: Result)
    ensures Means(w, rd, spec, r)
  {
    if !spec.enabled {
      r := Default(w.snap, spec, "disabled", []);
    } else if NoneDecisive(w, rd, spec.rules) {
      r := Default(w.snap, spec, "default", RulesTrace(w, rd, spec.rules));
    } else {
      var i := FirstDecisive(w, rd, spec.rules, 0);
      r := RuleMeaning(w, rd, spec, i);
    }
  }

  lemma MeaningOfGate(w: World, rd: Reading, g: string) returns (r: Result)
    ensures GateMeans(w, rd, g, r)
  {
    if g in w.snap.gateOverrides {
      r := Overridden(w.snap, w.snap.gateOverrides[g]);
    } else if g in w.snap.gates {
      r := MeaningOf(w, rd, w.snap.gates[g]);
    } else {
      r := Unknown(w.snap);
    }
  }

  // ----- From a closed part of the scope to one with a name more. -----

  predicate PartOf(part: Scope, sc: Scope) {
    part.gates <= sc.gates && part.configs <= sc.configs && part.lists == sc.lists
  }

  function WithGate(part: Scope, g: string): Scope { part.(gates := part.gates + {g}) }

  function WithConfig(part: Scope, c: string): Scope { part.(configs := part.configs + {c}) }

  lemma NamesThePart(spec: Spec, part: Scope, sc: Scope)
    requires PartOf(part, sc) && SpecIn(spec, sc)
    requires NamesNone(spec, sc.gates - part.gates, sc.configs - part.configs)
    ensures SpecIn(spec, part)
  {
    forall rule <- spec.rules ensures RuleIn(rule, part) {
      assert RuleIn(rule, sc);
    }
  }

  lemma WiderScope(spec: Spec, part: Scope, wider: Scope)
    requires SpecIn(spec, part) && PartOf(part, wider)
    ensures SpecIn(spec, wider)
  {
    forall rule <- spec.rules ensures RuleIn(rule, wider) {
      assert RuleIn(rule, part);
    }
  }

  lemma ClosedWith(snap: Snapshot, part: Scope, wider: Scope)
    requires Closed(snap, part) && PartOf(part, wider)
    requires forall g <- wider.gates - part.gates :: GateOver(snap, g, part)
    requires forall c <- wider.configs - part.configs :: ConfigOver(snap, c, part)
    ensures Closed(snap, wider)
  {
    forall g <- wider.gates | g in snap.gates && g !in snap.gateOverrides ensures SpecIn(snap.gates[g], wider) {
      assert g in part.gates || g in wider.gates - part.gates;
      WiderScope(snap.gates[g], part, wider);
    }
    forall c <- wider.configs | c in snap.configs ensures SpecIn(snap.configs[c], wider) {
      assert c in part.configs || c in wider.configs - part.configs;
      WiderScope(snap.configs[c], part, wider);
    }
  }

  datatype Next = NextGate(gate: string) | NextConfig(config: string)

  /** Some name outside the part depends on nothing but the part. */
  lemma NextName(snap: Snapshot, part: Scope, sc: Scope) returns (next: Next)
    requires Closed(snap, sc) && Acyclic(snap, sc) && PartOf(part, sc) && part != sc
    ensures match next
            case NextGate(g) => g in sc.gates - part.gates && GateOver(snap, g, part)
            case NextConfig(c) => c in sc.configs - part.configs && ConfigOver(snap, c, part)
  {
    var gates, configs := sc.gates - part.gates, sc.configs - part.configs;
    SomethingLeft(part, sc);
    assert SomeFree(snap, gates, configs);
    if exists g <- gates :: GateFree(snap, g, gates, configs) {
      var g :| g in gates && GateFree(snap, g, gates, configs);
      next := NextGate(g);
      if g in snap.gates && g !in snap.gateOverrides {
        NamesThePart(snap.gates[g], part, sc);
      }
    } else {
      var c :| c in configs && ConfigFree(snap, c, gates, configs);
      next := NextConfig(c);
      if c in snap.configs {
        NamesThePart(snap.configs[c], part, sc);
      }
    }
  }

  lemma SomethingLeft(part: Scope, sc: Scope)
    requires PartOf(part, sc) && part != sc
    ensures sc.gates - part.gates != {} || sc.configs - part.configs != {}
  {
    if part.gates != sc.gates {
      var g :| g in sc.gates && g !in part.gates;
      assert g in sc.gates - part.gates;
    } else {
      var c :| c in sc.configs && c !in part.configs;
      assert c in sc.configs - part.configs;
    }
  }

  function Left(part: Scope, sc: Scope): nat {
    |sc.gates - part.gates| + |sc.configs - part.configs|
  }

  lemma LessLeftWithGate(part: Scope, sc: Scope, g: string)
    requires PartOf(part, sc) && g in sc.gates - part.gates
    ensures PartOf(WithGate(part, g), sc) && Left(WithGate(part, g), sc) < Left(part, sc)
  {
    assert sc.gates - WithGate(part, g).gates == sc.gates - part.gates - {g};
  }

  lemma LessLeftWithConfig(part: Scope, sc: Scope, c: string)
    requires PartOf(part, sc) && c in sc.configs - part.configs
    ensures PartOf(WithConfig(part, c), sc) && Left(WithConfig(part, c), sc) < Left(part, sc)
  {
    assert sc.configs - WithConfig(part, c).configs == sc.configs - part.configs - {c};
  }

  // ----- Existence. -----

  lemma ReadGate(w: World, rd: Reading, part: Scope, g: string) returns (rd': Reading)
    requires Closed(w.snap, part) && IsReading(w, rd, part) && g !in part.gates
    requires GateOver(w.snap, g, part)
    ensures IsReading(w, rd', WithGate(part, g)) && Closed(w.snap, WithGate(part, g))
  {
    var r := MeaningOfGate(w, rd, g);
    rd' := rd.(gates := rd.gates[g := r]);
    GateMeansLocal(w, rd, rd', part, g, r);
    StillRead(w, rd, rd', part);
    ClosedWith(w.snap, part, WithGate(part, g));
  }

  lemma ReadConfig(w: World, rd: Reading, part: Scope, c: string) returns (rd': Reading)
    requires Closed(w.snap, part) && IsReading(w, rd, part) && c !in part.configs
    requires ConfigOver(w.snap, c, part)
    ensures IsReading(w, rd', WithConfig(part, c)) && Closed(w.snap, WithConfig(part, c))
  {
    rd' := rd;
    if c in w.snap.configs {
      var r := MeaningOf(w, rd, w.snap.configs[c]);
      rd' := rd.(configs := rd.configs[c := r]);
      MeansLocal(w, rd, rd', part, w.snap.configs[c], r);
      StillRead(w, rd, rd', part);
    }
    assert rd'.configs.Keys == WithConfig(part, c).configs * w.snap.configs.Keys;
    ClosedWith(w.snap, part, WithConfig(part, c));
  }

  /** What has been read stays read when the reading is extended. */
  lemma StillRead(w: World, rd: Reading, rd': Reading, part: Scope)
    requires Closed(w.snap, part) && IsReading(w, rd, part) && SameIn(rd, rd', part)
    ensures forall g <- part.gates :: g in rd'.gates && GateMeans(w, rd', g, rd'.gates[g])
    ensures forall c <- part.configs :: c in w.snap.configs ==>
              c in rd'.configs && Means(w, rd', w.snap.configs[c], rd'.configs[c])
  {
    forall g <- part.gates ensures g in rd'.gates && GateMeans(w, rd', g, rd'.gates[g]) {
      assert SameAt(rd.gates, rd'.gates, g);
      GateMeansLocal(w, rd, rd', part, g, rd.gates[g]);
    }
    forall c <- part.configs | c in w.snap.configs
      ensures c in rd'.configs && Means(w, rd', w.snap.configs[c], rd'.configs[c])
    {
      assert SameAt(rd.configs, rd'.configs, c);
      MeansLocal(w, rd, rd', part, w.snap.configs[c], rd.configs[c]);
    }
  }

  lemma ReadNext(w: World, rd: Reading, part: Scope, sc: Scope) returns (rd': Reading, wider: Scope)
    requires Closed(w.snap, sc) && Acyclic(w.snap, sc) && PartOf(part, sc) && part != sc
    requires Closed(w.snap, part) && IsReading(w, rd, part)
    ensures PartOf(wider, sc) && Left(wider, sc) < Left(part, sc)
    ensures Closed(w.snap, wider) && IsReading(w, rd', wider)
  {
    var next := NextName(w.snap, part, sc);
    if next.NextGate? {
      LessLeftWithGate(part, sc, next.gate);
      wider := WithGate(part, next.gate);
      rd' := ReadGate(w, rd, part, next.gate);
    } else {
      LessLeftWithConfig(part, sc, next.config);
      wider := WithConfig(part, next.config);
      rd' := ReadConfig(w, rd, part, next.config);
    }
  }

  lemma {:induction false} ReadOn(w: World, rd: Reading, part: Scope, sc: Scope) returns (whole: Reading)
    requires Closed(w.snap, sc) && Acyclic(w.snap, sc) && PartOf(part, sc)
    requires Closed(w.snap, part) && IsReading(w, rd, part)
    ensures IsReading(w, whole, sc)
    decreases Left(part, sc)
  {
    whole := rd;
    if part != sc {
      var rd', wider := ReadNext(w, rd, part, sc);
      whole := ReadOn(w, rd', wider, sc);
    }
  }

  // ----- Uniqueness. -----

  lemma SameGate(w: World, rd: Reading, rd': Reading, part: Scope, sc: Scope, g: string)
    requires IsReading(w, rd, sc) && IsReading(w, rd', sc) && SameIn(rd, rd', part) && g in sc.gates
    requires GateOver(w.snap, g, part)
    ensures SameIn(rd, rd', WithGate(part, g))
  {
    assert GateMeans(w, rd, g, rd.gates[g]) && GateMeans(w, rd', g, rd'.gates[g]);
    GateMeansLocal(w, rd, rd', part, g, rd.gates[g]);
    GateMeansUnique(w, rd', g, rd.gates[g], rd'.gates[g]);
  }

  lemma SameConfig(w: World, rd: Reading, rd': Reading, part: Scope, sc: Scope, c: string)
    requires IsReading(w, rd, sc) && IsReading(w, rd', sc) && SameIn(rd, rd', part) && c in sc.configs
    requires ConfigOver(w.snap, c, part)
    ensures SameIn(rd, rd', WithConfig(part, c))
  {
    if c in w.snap.configs {
      assert Means(w, rd, w.snap.configs[c], rd.configs[c]) && Means(w, rd', w.snap.configs[c], rd'.configs[c]);
      MeansLocal(w, rd, rd', part, w.snap.configs[c], rd.configs[c]);
      MeansUnique(w, rd', w.snap.configs[c], rd.configs[c], rd'.configs[c]);
    }
  }

  lemma {:induction false} SameReading(w: World, rd: Reading, rd': Reading, part: Scope, sc: Scope)
    requires Closed(w.snap, sc) && Acyclic(w.snap, sc) && PartOf(part, sc)
    requires IsReading(w, rd, sc) && IsReading(w, rd', sc) && SameIn(rd, rd', part)
    ensures SameIn(rd, rd', sc)
    decreases Left(part, sc)
  {
    if part != sc {
      var next := NextName(w.snap, part, sc);
      if next.NextGate? {
        LessLeftWithGate(part, sc, next.gate);
        SameGate(w, rd, rd', part, sc, next.gate);
        SameReading(w, rd, rd', WithGate(part, next.gate), sc);
      } else {
        LessLeftWithConfig(part, sc, next.config);
        SameConfig(w, rd, rd', part, sc, next.config);
        SameReading(w, rd, rd', WithConfig(part, next.config), sc);
      }
    }
  }

  /** Without circular dependencies there is exactly one reading, however heavy the dependency chains are and whether
      or not evaluations panic. */
  lemma ExactlyOneReading(w: World, sc: Scope) returns (rd: Reading)
    requires Closed(w.snap, sc) && Acyclic(w.snap, sc)
    ensures IsReading(w, rd, sc)
    ensures forall rd' :: IsReading(w, rd', sc) ==> rd' == rd
  {
    var nothing := Scope({}, {}, sc.lists);
    rd := ReadOn(w, Reading(map[], map[]), nothing, sc);
    forall rd' | IsReading(w, rd', sc) ensures rd' == rd {
      SameReading(w, rd, rd', nothing, sc);
      assert forall g <- sc.gates :: SameAt(rd.gates, rd'.gates, g);
      assert forall c <- sc.configs :: SameAt(rd.configs, rd'.configs, c);
      assert rd.gates == rd'.gates && rd.configs == rd'.configs;
    }
  }
}
