/** The response that bootstraps a client SDK: every gate, config and layer evaluated for one user. */
module InitializeResponse {
  import opened Strings
  import opened Specs
  import opened Conditions
  import opened Evaluation
  import opened ExposureKeys
  import DepthLimit
  import Locality

  datatype GateResponse = GateResponse(name: string, ruleID: string, exposures: seq<Exposure>, value: bool)

  datatype ConfigResponse = ConfigResponse(
    name: string, ruleID: string, exposures: seq<Exposure>, value: Option<Object>, group: string,
    isDeviceBased: bool, isExperimentActive: Option<bool>, isUserInExperiment: Option<bool>,
    isInLayer: Option<bool>, explicitParameters: Option<seq<string>>)

  datatype LayerResponse = LayerResponse(
    name: string, ruleID: string, exposures: seq<Exposure>, value: Option<Object>, group: string,
    isDeviceBased: bool, isExperimentActive: Option<bool>, isUserInExperiment: Option<bool>,
    explicitParameters: seq<string>, allocatedExperimentName: string, undelegated: seq<Exposure>)

  datatype ClientResponse = ClientResponse(
    gates: map<string, GateResponse>, configs: map<string, ConfigResponse>, layers: map<string, LayerResponse>)

  function GateResponseFor(w: World, name: string, spec: Spec): Outcome<GateResponse> {
    var r :- Eval(w, spec, 0);
    Done(GateResponse(w.lib.responseName(name), r.id, Clean(r.exposures), r.pass))
  }

  predicate IsTrue(b: Option<bool>) { b == Some(true) }

  /** Writing into a nil map panics; writing nothing into it does not. */
  function Merged(a: Option<Object>, b: Option<Object>): Outcome<Option<Object>> {
    if b.None? || b.value == map[] then Done(a)
    else if a.None? then Panic(NilDereference)
    else Done(Some(a.value + b.value))
  }

  method MergeMaps(a: Option<Object>, b: Option<Object>) returns (r: Outcome<Option<Object>>)
    ensures r == Merged(a, b)
  {
    if b.None? {
      return Done(a);
    }
    var merged := a;
    var left := b.value.Keys;
    while left != {}
      invariant left <= b.value.Keys
      invariant a.None? ==> merged == a && left == b.value.Keys
      invariant a.Some? ==> merged.Some? && merged.value == a.value + (b.value - left)
    {
      var k :| k in left;
      if merged.None? {
        assert b.value != map[];
        return Panic(NilDereference);
      }
      merged := Some(merged.value[k := b.value[k]]);
      left := left - {k};
    }
    assert b.value - {} == b.value;
    return Done(merged);
  }

  /** The value of a config that shares its parameters with a layer: the layer's defaults, overwritten by its own. */
  function SharedValue(snap: Snapshot, spec: Spec, own: Option<Object>): Outcome<Option<Object>> {
    var layerName := if spec.name in snap.experimentToLayer then snap.experimentToLayer[spec.name] else "";
    if layerName in snap.layers then Merged(Decode(snap.layers[layerName].defaultValue), own) else Done(own)
  }

  function ConfigResponseFor(w: World, name: string, spec: Spec): Outcome<ConfigResponse> {
    var r :- Eval(w, spec, 0);
    var base := ConfigResponse(
      w.lib.responseName(name), r.id, Clean(r.exposures), r.config.value, r.id, ToLower(spec.idType) == "stableid",
      None, None, None, None);
    if ToLower(spec.entity) != "experiment" then Done(base)
    else
      var experiment := base.(isUserInExperiment := Some(IsTrue(r.isExperimentGroup)),
                              isExperimentActive := Some(IsTrue(spec.isActive)));
      if !IsTrue(spec.hasSharedParams) then Done(experiment)
      else
        var value :- SharedValue(w.snap, spec, r.config.value);
        Done(experiment.(isInLayer := Some(true), explicitParameters := Some(spec.explicitParameters), value := value))
  }

  function LayerResponseFor(w: World, name: string, spec: Spec): Outcome<LayerResponse> {
    var r :- Eval(w, spec, 0);
    var base := LayerResponse(
      w.lib.responseName(name), r.id, Clean(r.exposures), r.config.value, r.id, ToLower(spec.idType) == "stableid",
      None, None, spec.explicitParameters, "", Clean(r.undelegated));
    if r.delegate == "" || r.delegate !in w.snap.configs then Done(base)
    else
      var config := w.snap.configs[r.delegate];
      var d :- Eval(w, config, 0);
      Done(base.(
        allocatedExperimentName := w.lib.responseName(r.delegate),
        isUserInExperiment := Some(IsTrue(d.isExperimentGroup)),
        isExperimentActive := Some(IsTrue(config.isActive)),
        explicitParameters :=
          if |config.explicitParameters| > 0 then config.explicitParameters else spec.explicitParameters))
  }

  method GateToResponse(w: World, gateName: string, spec: Spec) returns (r: Outcome<GateResponse>)
    ensures r == GateResponseFor(w, gateName, spec)
  {
    var outcome := Eval(w, spec, 0);
    if outcome.Panic? {
      return Panic(outcome.why);
    }
    var evalResult := outcome.value;
    var exposures := CleanExposures(evalResult.exposures);
    return Done(GateResponse(w.lib.responseName(gateName), evalResult.id, exposures, evalResult.pass));
  }

  method ConfigToResponse(w: World, configName: string, spec: Spec) returns (r: Outcome<ConfigResponse>)
    ensures r == ConfigResponseFor(w, configName, spec)
  {
    var outcome := Eval(w, spec, 0);
    if outcome.Panic? {
      return Panic(outcome.why);
    }
    var evalResult := outcome.value;
    var exposures := CleanExposures(evalResult.exposures);
    var result := ConfigResponse(
      w.lib.responseName(configName), evalResult.id, exposures, evalResult.config.value, evalResult.id,
      ToLower(spec.idType) == "stableid", None, None, None, None);
    if ToLower(spec.entity) == "experiment" {
      result := result.(isUserInExperiment := Some(IsTrue(evalResult.isExperimentGroup)));
      result := result.(isExperimentActive := Some(IsTrue(spec.isActive)));
      if IsTrue(spec.hasSharedParams) {
        result := result.(isInLayer := Some(true));
        result := result.(explicitParameters := Some(spec.explicitParameters));
        var layerName := if spec.name in w.snap.experimentToLayer then w.snap.experimentToLayer[spec.name] else "";
        if layerName in w.snap.layers {
          var merged := MergeMaps(Decode(w.snap.layers[layerName].defaultValue), result.value);
          if merged.Panic? {
            return Panic(merged.why);
          }
          result := result.(value := merged.value);
        }
      }
    }
    return Done(result);
  }

  method LayerToResponse(w: World, layerName: string, spec: Spec) returns (r: Outcome<LayerResponse>)
    ensures r == LayerResponseFor(w, layerName, spec)
  {
    var outcome := Eval(w, spec, 0);
    if outcome.Panic? {
      return Panic(outcome.why);
    }
    var evalResult := outcome.value;
    var exposures := CleanExposures(evalResult.exposures);
    var undelegated := CleanExposures(evalResult.undelegated);
    var result := LayerResponse(
      w.lib.responseName(layerName), evalResult.id, exposures, evalResult.config.value, evalResult.id,
      ToLower(spec.idType) == "stableid", None, None, spec.explicitParameters, "", undelegated);
    var delegate := evalResult.delegate;
    if delegate != "" && delegate in w.snap.configs {
      var delegateSpec := w.snap.configs[delegate];
      var delegateOutcome := Eval(w, delegateSpec, 0);
      if delegateOutcome.Panic? {
        return Panic(delegateOutcome.why);
      }
      result := result.(allocatedExperimentName := w.lib.responseName(delegate));
      result := result.(isUserInExperiment := Some(IsTrue(delegateOutcome.value.isExperimentGroup)));
      result := result.(isExperimentActive := Some(IsTrue(delegateSpec.isActive)));
      if |delegateSpec.explicitParameters| > 0 {
        result := result.(explicitParameters := delegateSpec.explicitParameters);
      }
    }
    return Done(result);
  }

  predicate HasTargetAppID(spec: Spec, appId: string) { appId == "" || appId in spec.targetAppIDs }

  function AppIDFor(snap: Snapshot, clientKey: string): string {
    if clientKey in snap.sdkKeysToAppID then snap.sdkKeysToAppID[clientKey] else ""
  }

  predicate ListsGate(spec: Spec, appId: string) {
    HasTargetAppID(spec, appId) && ToLower(spec.entity) != "segment" && ToLower(spec.entity) != "holdout"
  }

  /** The names of the specs to include. */
  function Included(specs: map<string, Spec>, wanted: Spec -> bool): set<string> {
    set name | name in specs && wanted(specs[name])
  }

  /** The response map holds an entry for every included name, and every entry is the response of an included name. */
  ghost predicate Filled<R>(
    m: map<string, R>, w: World, specs: map<string, Spec>, names: set<string>,
    response: (World, string, Spec) -> Outcome<R>)
    requires names <= specs.Keys
  {
    && (forall name <- names :: w.lib.responseName(name) in m)
    && (forall h <- m :: exists name <- names ::
          w.lib.responseName(name) == h && Done(m[h]) == response(w, name, specs[name]))
  }

  lemma FilledOneMore<R>(
    m: map<string, R>, w: World, specs: map<string, Spec>, names: set<string>,
    response: (World, string, Spec) -> Outcome<R>, name: string, entry: R)
    requires names <= specs.Keys && name in specs
    requires Filled(m, w, specs, names, response) && response(w, name, specs[name]) == Done(entry)
    ensures Filled(m[w.lib.responseName(name) := entry], w, specs, names + {name}, response)
  {
    var m' := m[w.lib.responseName(name) := entry];
    forall h <- m'
      ensures exists n <- names + {name} :: w.lib.responseName(n) == h && Done(m'[h]) == response(w, n, specs[n])
    {
      if h == w.lib.responseName(name) {
        assert name in names + {name};
      } else {
        var n :| n in names && w.lib.responseName(n) == h && Done(m[h]) == response(w, n, specs[n]);
        assert n in names + {name};
      }
    }
  }

  /** One of the three loops: the response of every wanted spec, in whatever order the map is walked. `response` is
      what one of the methods above computes. */
  method Fill<R>(
    w: World, specs: map<string, Spec>, wanted: Spec -> bool, response: (World, string, Spec) -> Outcome<R>)
    returns (r: Outcome<map<string, R>>)
    ensures var names := Included(specs, wanted);
            && (r.Panic? <==> exists name <- names :: response(w, name, specs[name]).Panic?)
            && (r.Done? ==> Filled(r.value, w, specs, names, response))
  {
    ghost var names := Included(specs, wanted);
    var filled: map<string, R> := map[];
    var left := specs.Keys;
    while left != {}
      invariant left <= specs.Keys
      invariant Filled(filled, w, specs, names - left, response)
      invariant forall name <- names - left :: response(w, name, specs[name]).Done?
    {
      var name :| name in left;
      if wanted(specs[name]) {
        var res := response(w, name, specs[name]);
        if res.Panic? {
          assert name in names;
          return Panic(res.why);
        }
        FilledOneMore(filled, w, specs, names - left, response, name, res.value);
        filled := filled[w.lib.responseName(name) := res.value];
        assert names - (left - {name}) == names - left + {name};
      } else {
        assert names - (left - {name}) == names - left;
      }
      left := left - {name};
    }
    assert names - {} == names;
    return Done(filled);
  }

  function WantedGates(snap: Snapshot, appId: string): set<string> {
    Included(snap.gates, spec => ListsGate(spec, appId))
  }

  function WantedOf(specs: map<string, Spec>, appId: string): set<string> {
    Included(specs, spec => HasTargetAppID(spec, appId))
  }

  /** No two of these names are hashed to the same response key. */
  ghost predicate CollisionFree(w: World, names: set<string>) {
    forall n <- names, m <- names :: w.lib.responseName(n) == w.lib.responseName(m) ==> n == m
  }

  /** The app of the client key, if it has one, is among these. */
  predicate Lists(snap: Snapshot, clientKey: string, targetAppIDs: seq<string>) {
    clientKey in snap.sdkKeysToAppID && snap.sdkKeysToAppID[clientKey] != "" ==>
      snap.sdkKeysToAppID[clientKey] in targetAppIDs
  }

  /** A key of an app sees exactly the specs that list the app, and a key of no app sees all; but among gates no key
      sees segments and holdouts. */
  ghost predicate Sees<R>(m: map<string, R>, w: World, specs: map<string, Spec>, clientKey: string, areGates: bool) {
    CollisionFree(w, specs.Keys) ==>
      forall name <- specs :: w.lib.responseName(name) in m <==>
        && Lists(w.snap, clientKey, specs[name].targetAppIDs)
        && (areGates ==> ToLower(specs[name].entity) != "segment" && ToLower(specs[name].entity) != "holdout")
  }

  lemma FilledIsSeen<R>(
    m: map<string, R>, w: World, specs: map<string, Spec>, clientKey: string, areGates: bool, names: set<string>,
    response: (World, string, Spec) -> Outcome<R>)
    requires var appId := AppIDFor(w.snap, clientKey);
             forall name :: name in names <==>
               && name in specs
               && if areGates then ListsGate(specs[name], appId) else HasTargetAppID(specs[name], appId)
    requires Filled(m, w, specs, names, response)
    ensures Sees(m, w, specs, clientKey, areGates)
  {
    if CollisionFree(w, specs.Keys) {
      forall name <- specs | w.lib.responseName(name) in m ensures name in names {
        var n :| n in names && w.lib.responseName(n) == w.lib.responseName(name);
        assert n == name;
      }
    }
  }

  lemma GatesAreSeen(m: map<string, GateResponse>, w: World, clientKey: string)
    requires Filled(m, w, w.snap.gates, WantedGates(w.snap, AppIDFor(w.snap, clientKey)), GateResponseFor)
    ensures Sees(m, w, w.snap.gates, clientKey, true)
  {
    var names := WantedGates(w.snap, AppIDFor(w.snap, clientKey));
    FilledIsSeen(m, w, w.snap.gates, clientKey, true, names, GateResponseFor);
  }

  lemma OthersAreSeen<R>(
    m: map<string, R>, w: World, specs: map<string, Spec>, clientKey: string,
    response: (World, string, Spec) -> Outcome<R>)
    requires Filled(m, w, specs, WantedOf(specs, AppIDFor(w.snap, clientKey)), response)
    ensures Sees(m, w, specs, clientKey, false)
  {
    FilledIsSeen(m, w, specs, clientKey, false, WantedOf(specs, AppIDFor(w.snap, clientKey)), response);
  }

  method GetClientInitializeResponse(w: World, clientKey: string) returns (r: Outcome<ClientResponse>)
    ensures var appId := AppIDFor(w.snap, clientKey);
            && (r.Done? ==>
                  && Filled(r.value.gates, w, w.snap.gates, WantedGates(w.snap, appId), GateResponseFor)
                  && Filled(r.value.configs, w, w.snap.configs, WantedOf(w.snap.configs, appId), ConfigResponseFor)
                  && Filled(r.value.layers, w, w.snap.layers, WantedOf(w.snap.layers, appId), LayerResponseFor))
            && (r.Panic? <==>
                  || (exists name <- WantedGates(w.snap, appId) :: GateResponseFor(w, name, w.snap.gates[name]).Panic?)
                  || (exists name <- WantedOf(w.snap.configs, appId) ::
                        ConfigResponseFor(w, name, w.snap.configs[name]).Panic?)
                  || (exists name <- WantedOf(w.snap.layers, appId) ::
                        LayerResponseFor(w, name, w.snap.layers[name]).Panic?))
    ensures r.Done? ==>
              && Sees(r.value.gates, w, w.snap.gates, clientKey, true)
              && Sees(r.value.configs, w, w.snap.configs, clientKey, false)
              && Sees(r.value.layers, w, w.snap.layers, clientKey, false)
  {
    var appId := AppIDFor(w.snap, clientKey);
    var gates := Fill(w, w.snap.gates, spec => ListsGate(spec, appId), GateResponseFor);
    if gates.Panic? {
      return Panic(gates.why);
    }
    var configs := Fill(w, w.snap.configs, spec => HasTargetAppID(spec, appId), ConfigResponseFor);
    if configs.Panic? {
      return Panic(configs.why);
    }
    var layers := Fill(w, w.snap.layers, spec => HasTargetAppID(spec, appId), LayerResponseFor);
    if layers.Panic? {
      return Panic(layers.why);
    }
    GatesAreSeen(gates.value, w, clientKey);
    OthersAreSeen(configs.value, w, w.snap.configs, clientKey, ConfigResponseFor);
    OthersAreSeen(layers.value, w, w.snap.layers, clientKey, LayerResponseFor);
    return Done(ClientResponse(gates.value, configs.value, layers.value));
  }

  /** A listed gate's entry is the response for that gate. */
  lemma EntryOf(w: World, appId: string, gates: map<string, GateResponse>, name: string)
    requires var names := WantedGates(w.snap, appId);
             name in names && CollisionFree(w, names) && Filled(gates, w, w.snap.gates, names, GateResponseFor)
    ensures w.lib.responseName(name) in gates
    ensures Done(gates[w.lib.responseName(name)]) == GateResponseFor(w, name, w.snap.gates[name])
  {
    var names := WantedGates(w.snap, appId);
    var h := w.lib.responseName(name);
    var other :| other in names && w.lib.responseName(other) == h &&
      Done(gates[h]) == GateResponseFor(w, other, w.snap.gates[other]);
    assert other == name;
  }

  /** Every listed gate that is not overridden and that `checkGate` can evaluate has, in the response, the value and
      rule id that `checkGate` gives, and its exposures without repetitions. */
  lemma PathsAgree(w: World, appId: string, gates: map<string, GateResponse>, name: string)
    requires var names := WantedGates(w.snap, appId);
             name in names && CollisionFree(w, names) && Filled(gates, w, w.snap.gates, names, GateResponseFor)
    requires name !in w.snap.gateOverrides && CheckGate(w, name).Done?
    ensures w.lib.responseName(name) in gates
    ensures SaysTheSame(gates[w.lib.responseName(name)], CheckGate(w, name).value)
    ensures gates[w.lib.responseName(name)].name == w.lib.responseName(name)
  {
    DepthLimit.EntriesAgree(w, name);
    EntryOf(w, appId, gates, name);
  }

  /** No rule of any gate or config carries the id that an override reports. */
  predicate NoRuleNamedOverride(snap: Snapshot) {
    && (forall g <- snap.gates :: NoneNamedOverride(snap.gates[g]))
    && (forall c <- snap.configs :: NoneNamedOverride(snap.configs[c]))
  }

  predicate NoneNamedOverride(spec: Spec) {
    forall rule <- spec.rules :: rule.id != "override"
  }

  lemma {:induction false} EvalIdNotOverride(w: World, spec: Spec, d: nat)
    requires NoRuleNamedOverride(w.snap) && NoneNamedOverride(spec)
    ensures Eval(w, spec, d).Done? ==> Eval(w, spec, d).value.id != "override"
    decreases Fuel(d), 1, 0
  {
    if d <= MAX_DEPTH && spec.enabled {
      RulesIdNotOverride(w, spec, 0, [], d);
    }
  }

  lemma {:induction false} RulesIdNotOverride(w: World, spec: Spec, k: nat, exposures: seq<Exposure>, d: nat)
    requires NoRuleNamedOverride(w.snap) && NoneNamedOverride(spec) && k <= |spec.rules| && d <= MAX_DEPTH
    ensures var all := RulesFrom(w, spec, k, exposures, d); all.Done? ==> all.value.id != "override"
    decreases Fuel(d), 0, |spec.rules| - k
  {
    if k < |spec.rules| {
      var rule := spec.rules[k];
      RulesStep(w, spec, k, exposures, d);
      var r := EvalRule(w, rule, d + 1);
      if r.Done? {
        RuleResultIsPlain(w, rule, d + 1);
        if !r.value.fetchFromServer && !r.value.pass {
          RulesIdNotOverride(w, spec, k + 1, exposures + r.value.exposures, d);
        } else if !r.value.fetchFromServer && rule.configDelegate in w.snap.configs {
          EvalIdNotOverride(w, w.snap.configs[rule.configDelegate], d + 2);
        }
      }
    }
  }

  /** A response entry says the same as `checkGate`. */
  predicate SaysTheSame(entry: GateResponse, r: Result) {
    entry.value == r.pass && entry.ruleID == r.id && entry.exposures == Clean(r.exposures)
  }

  /** Unless rules imitate overrides, a listed gate's entry says the same as `checkGate` exactly when the gate is not
      overridden: an override reaches `checkGate` and never the entry. */
  lemma PathsAgreeExactly(w: World, appId: string, gates: map<string, GateResponse>, name: string)
    requires var names := WantedGates(w.snap, appId);
             name in names && CollisionFree(w, names) && Filled(gates, w, w.snap.gates, names, GateResponseFor)
    requires NoRuleNamedOverride(w.snap) && CheckGate(w, name).Done?
    ensures w.lib.responseName(name) in gates
    ensures SaysTheSame(gates[w.lib.responseName(name)], CheckGate(w, name).value) <==> name !in w.snap.gateOverrides
  {
    if name !in w.snap.gateOverrides {
      PathsAgree(w, appId, gates, name);
    } else {
      EntryOf(w, appId, gates, name);
      EvalIdNotOverride(w, w.snap.gates[name], 0);
    }
  }

  /** An override of a gate whose spec does not depend on that gate does not even change the entry. */
  lemma OverrideLeavesEntry(w: World, sc: Locality.Scope, name: string, value: bool)
    requires name in w.snap.gates && name !in sc.gates
    requires Locality.Closed(w.snap, sc) && Locality.SpecIn(w.snap.gates[name], sc)
    ensures var spec := w.snap.gates[name];
            var w' := w.(snap := w.snap.(gateOverrides := w.snap.gateOverrides[name := value]));
            && CheckGate(w', name).Done? && CheckGate(w', name).value.pass == value
            && CheckGate(w', name).value.id == "override"
            && GateResponseFor(w', name, spec) == GateResponseFor(w, name, spec)
  {
    var s' := w.snap.(gateOverrides := w.snap.gateOverrides[name := value]);
    Locality.EvalLocal(w, s', sc, w.snap.gates[name], 0);
  }

  // ----- What config and layer entries say. -----

  /** A config whose value is merged with its layer's defaults. */
  predicate SharesParameters(spec: Spec) {
    ToLower(spec.entity) == "experiment" && IsTrue(spec.hasSharedParams)
  }

  /** The defaults of the layer that a config's experiment is in, if that layer exists. */
  function LayerDefaults(snap: Snapshot, spec: Spec): Option<RawObject> {
    var layerName := if spec.name in snap.experimentToLayer then snap.experimentToLayer[spec.name] else "";
    if layerName in snap.layers then Some(snap.layers[layerName].defaultValue) else None
  }

  /** Evaluation aside, a config entry panics exactly for an experiment that shares parameters with a layer whose
      default is a JSON null, and has a value of its own to write into that nil map. */
  lemma ConfigPanics(w: World, name: string, spec: Spec)
    requires Eval(w, spec, 0).Done?
    ensures ConfigResponseFor(w, name, spec).Panic? <==>
            && SharesParameters(spec) && LayerDefaults(w.snap, spec) == Some(NullLiteral)
            && Fields(Eval(w, spec, 0).value.config.value) != map[]
  {
  }

  /** For every experiment with a value and every layer there is a store where it does, whatever the client key. */
  lemma NullDefaultPanics(lib: Lib, user: User, name: string, layerName: string, own: Object, clientKey: string)
    returns (snap: Snapshot)
    requires own != map[]
    ensures name in WantedOf(snap.configs, AppIDFor(snap, clientKey))
    ensures Eval(World(lib, user, snap), snap.configs[name], 0).Done?
    ensures ConfigResponseFor(World(lib, user, snap), name, snap.configs[name]) == Panic(NilDereference)
  {
    var config := PLAIN_SPEC.(name := name, stype := "dynamic_config", enabled := false, defaultValue := Parsed(own),
                              entity := "experiment", hasSharedParams := Some(true));
    var layer := PLAIN_SPEC.(name := layerName, stype := "dynamic_config", defaultValue := NullLiteral);
    snap := EMPTY_SNAPSHOT.(configs := map[name := config], layers := map[layerName := layer],
                            experimentToLayer := map[name := layerName]);
    assert ToLower("dynamic_config") == "dynamic_config" && ToLower("experiment") == "experiment";
  }

  function Fields(value: Option<Object>): Object { if value.Some? then value.value else map[] }

  /** What a config entry says. A shared value has each of the config's own keys with the config's own value, every
      other key of the layer's defaults with its default, and no other key; any other config's value is its own. The
      optional parts are there for experiments, and for those that share parameters, and the flags are then true
      exactly when the evaluation and the spec say so. */
  lemma ConfigEntryMeans(w: World, name: string, spec: Spec, key: string)
    requires ConfigResponseFor(w, name, spec).Done?
    ensures var own := Fields(Eval(w, spec, 0).value.config.value);
            var value := Fields(ConfigResponseFor(w, name, spec).value.value);
            var defaults := if SharesParameters(spec) && LayerDefaults(w.snap, spec).Some?
                            then FieldsOf(LayerDefaults(w.snap, spec).value) else map[];
            && (key in value <==> key in own || key in defaults)
            && (key in own ==> value[key] == own[key])
            && (key in defaults && key !in own ==> value[key] == defaults[key])
    ensures var entry, r := ConfigResponseFor(w, name, spec).value, Eval(w, spec, 0).value;
            var experiment := ToLower(spec.entity) == "experiment";
            && (experiment <==> entry.isUserInExperiment.Some?)
            && (experiment <==> entry.isExperimentActive.Some?)
            && (SharesParameters(spec) <==> entry.isInLayer.Some?)
            && (SharesParameters(spec) <==> entry.explicitParameters == Some(spec.explicitParameters))
            && (IsTrue(entry.isUserInExperiment) <==> experiment && IsTrue(r.isExperimentGroup))
            && (IsTrue(entry.isExperimentActive) <==> experiment && IsTrue(spec.isActive))
            && entry.ruleID == entry.group == r.id && entry.exposures == Clean(r.exposures)
            && entry.name == w.lib.responseName(name) && (entry.isDeviceBased <==> ToLower(spec.idType) == "stableid")
  {
  }

  /** What a layer entry says. Its value, rule and exposures are those of the layer's own evaluation. If that names a
      delegate, the entry names it and has its parameters and whether it is active; a delegate without parameters
      leaves the layer's own. */
  lemma LayerEntryMeans(w: World, name: string, spec: Spec)
    requires LayerResponseFor(w, name, spec).Done?
    ensures var entry, r := LayerResponseFor(w, name, spec).value, Eval(w, spec, 0).value;
            && entry.name == w.lib.responseName(name) && entry.value == r.config.value
            && entry.ruleID == entry.group == r.id
            && entry.exposures == Clean(r.exposures) && entry.undelegated == Clean(r.undelegated)
            && (entry.isDeviceBased <==> ToLower(spec.idType) == "stableid")
            && (r.delegate == "" ==>
                  && entry.isExperimentActive == None && entry.isUserInExperiment == None
                  && entry.allocatedExperimentName == "" && entry.explicitParameters == spec.explicitParameters)
            && (r.delegate != "" ==>
                  && r.delegate in w.snap.configs
                  && var config := w.snap.configs[r.delegate];
                     && entry.isExperimentActive == Some(config.isActive == Some(true))
                     && entry.isUserInExperiment == Some(r.isExperimentGroup == Some(true))
                     && entry.allocatedExperimentName == w.lib.responseName(r.delegate)
                     && entry.explicitParameters ==
                        (if config.explicitParameters == [] then spec.explicitParameters
                         else config.explicitParameters))
  {
    var r := Eval(w, spec, 0).value;
    DelegateTwiceIsOnce(w, name, spec);
    if r.delegate != "" {
      NamedDelegate(w, spec, 0, [], 0);
    }
  }

  /** Evaluating the delegate a second time for a layer entry never panics and tells nothing new: the entry panics
      exactly when the layer's evaluation does, and its experiment flag is that evaluation's own. */
  lemma DelegateTwiceIsOnce(w: World, name: string, spec: Spec)
    ensures LayerResponseFor(w, name, spec).Panic? <==> Eval(w, spec, 0).Panic?
    ensures Eval(w, spec, 0).Done? ==>
              var entry, r := LayerResponseFor(w, name, spec).value, Eval(w, spec, 0).value;
              && (entry.isUserInExperiment.Some? <==> r.delegate != "")
              && (r.delegate != "" ==> entry.isUserInExperiment == Some(IsTrue(r.isExperimentGroup)))
              && (entry.allocatedExperimentName == if r.delegate == "" then "" else w.lib.responseName(r.delegate))
  {
    var r := Eval(w, spec, 0);
    if r.Done? && r.value.delegate != "" {
      NamedDelegate(w, spec, 0, [], 0);
      DepthLimit.EvalShallower(w, w.snap.configs[r.value.delegate], 2, 0);
    }
  }

  /** Each layer's undelegated exposures start its full list, before and after cleaning. */
  lemma LayerExposuresNest(w: World, name: string, spec: Spec)
    requires LayerResponseFor(w, name, spec).Done?
    ensures var layer := LayerResponseFor(w, name, spec).value; layer.undelegated <= layer.exposures
  {
    EvalCoherent(w, spec, 0);
    var r := Eval(w, spec, 0).value;
    CleanPrefix(r.undelegated, r.exposures);
  }
}
