/** De-duplication of exposures by a key, and when two different exposures share one. */
module ExposureKeys {
  import opened Strings
  import opened Specs
  import opened Conditions
  import opened Evaluation
  import Exposures

  function Key(e: Exposure): string {
    e.gate + "|" + e.gateValue + "|" + e.ruleID
  }

  predicate SeenIn(s: seq<Exposure>, key: string) {
    exists e <- s :: Key(e) == key
  }

  /** What is kept: each exposure whose key has not occurred before it. */
  function Clean(s: seq<Exposure>): seq<Exposure> {
    if s == [] then []
    else
      var init, last := s[..|s| - 1], s[|s| - 1];
      Clean(init) + if SeenIn(init, Key(last)) then [] else [last]
  }

  lemma SeenOneMore(s: seq<Exposure>, e: Exposure)
    ensures forall key :: SeenIn(s + [e], key) <==> SeenIn(s, key) || key == Key(e)
  {
    assert e in s + [e] && forall f :: f in s + [e] <==> f in s || f == e;
  }

  method CleanExposures(exposures: seq<Exposure>) returns (result: seq<Exposure>)
    ensures result == Clean(exposures)
  {
    var seen: set<string> := {};
    result := [];
    for i := 0 to |exposures|
      invariant forall key :: key in seen <==> SeenIn(exposures[..i], key)
      invariant result == Clean(exposures[..i])
    {
      var exposure := exposures[i];
      var key := Key(exposure);
      assert exposures[..i + 1][..i] == exposures[..i] && exposures[..i + 1] == exposures[..i] + [exposure];
      SeenOneMore(exposures[..i], exposure);
      if key !in seen {
        seen := seen + {key};
        result := result + [exposure];
      }
    }
    assert exposures[..|exposures|] == exposures;
  }

  /** Index `i` is the first occurrence of its key. */
  predicate IsFirst(s: seq<Exposure>, i: nat) {
    i < |s| && !SeenIn(s[..i], Key(s[i]))
  }

  lemma FirstsOfBeginning(s: seq<Exposure>, n: nat)
    requires n <= |s|
    ensures forall i: nat :: IsFirst(s[..n], i) <==> i < n && IsFirst(s, i)
  {
    forall i: nat | i < n ensures s[..n][..i] == s[..i] {}
  }

  /** The indices of the first occurrences. */
  function Firsts(s: seq<Exposure>): seq<nat> {
    if s == [] then []
    else
      var n := |s| - 1;
      Firsts(s[..n]) + if SeenIn(s[..n], Key(s[n])) then [] else [n]
  }

  lemma {:induction false} FirstsMembers(s: seq<Exposure>)
    ensures forall i: nat :: i in Firsts(s) <==> IsFirst(s, i)
  {
    if s != [] {
      FirstsMembers(s[..|s| - 1]);
      FirstsOfBeginning(s, |s| - 1);
    }
  }

  lemma {:induction false} CleanPicks(s: seq<Exposure>)
    ensures |Clean(s)| == |Firsts(s)|
    ensures forall k :: 0 <= k < |Firsts(s)| ==> Firsts(s)[k] < |s| && Clean(s)[k] == s[Firsts(s)[k]]
    ensures forall k, l :: 0 <= k < l < |Firsts(s)| ==> Firsts(s)[k] < Firsts(s)[l]
  {
    if s != [] {
      CleanPicks(s[..|s| - 1]);
    }
  }

  /** The kept exposures are exactly the first occurrences, in their order. */
  lemma CleanKeepsFirsts(s: seq<Exposure>) returns (at: seq<nat>)
    ensures |at| == |Clean(s)|
    ensures forall k :: 0 <= k < |at| ==> at[k] < |s| && Clean(s)[k] == s[at[k]]
    ensures forall k, l :: 0 <= k < l < |at| ==> at[k] < at[l]
    ensures forall i: nat :: i in at <==> IsFirst(s, i)
  {
    at := Firsts(s);
    FirstsMembers(s);
    CleanPicks(s);
  }

  /** No key is lost and none is kept twice. */
  lemma {:induction false} CleanKeys(s: seq<Exposure>)
    ensures forall key :: SeenIn(Clean(s), key) <==> SeenIn(s, key)
    ensures forall k, l :: 0 <= k < l < |Clean(s)| ==> Key(Clean(s)[k]) != Key(Clean(s)[l])
  {
    if s != [] {
      var init, last := s[..|s| - 1], s[|s| - 1];
      CleanKeys(init);
      assert s == init + [last];
      forall k | 0 <= k < |Clean(init)| && !SeenIn(init, Key(last)) ensures Key(Clean(init)[k]) != Key(last) {
        assert Clean(init)[k] in Clean(init);
        assert SeenIn(Clean(init), Key(Clean(init)[k]));
      }
      forall key ensures SeenIn(Clean(s), key) <==> SeenIn(s, key) {
        assert SeenIn(s, key) <==> SeenIn(init, key) || Key(last) == key;
        if !SeenIn(init, Key(last)) {
          assert SeenIn(Clean(s), key) <==> SeenIn(Clean(init), key) || Key(last) == key;
        }
      }
    }
  }

  lemma {:induction false} CleanOfDistinct(s: seq<Exposure>)
    requires forall k, l :: 0 <= k < l < |s| ==> Key(s[k]) != Key(s[l])
    ensures Clean(s) == s
  {
    if s != [] {
      CleanOfDistinct(s[..|s| - 1]);
      assert s == s[..|s| - 1] + [s[|s| - 1]];
    }
  }

  /** Cleaning twice is cleaning once. */
  lemma CleanIdempotent(s: seq<Exposure>)
    ensures Clean(Clean(s)) == Clean(s)
  {
    CleanKeys(s);
    CleanOfDistinct(Clean(s));
  }

  /** A prefix stays a prefix. */
  lemma {:induction false} CleanPrefix(a: seq<Exposure>, s: seq<Exposure>)
    requires a <= s
    ensures Clean(a) <= Clean(s)
  {
    if |a| < |s| {
      CleanPrefix(a, s[..|s| - 1]);
    } else {
      assert a == s;
    }
  }

  // ----- Which exposures share a key. -----

  /** What `strconv.FormatBool` gives. */
  predicate Boolean(v: string) { v == "true" || v == "false" }

  predicate ExtendsBy(longer: string, shorter: string, v: string) {
    longer == shorter + "|" + v || shorter + "|" + v + "|" <= longer
  }

  /** One gate name is the other followed by a bar and a gate value, and by nothing or a further bar. */
  predicate Extends(longer: string, shorter: string) {
    ExtendsBy(longer, shorter, "true") || ExtendsBy(longer, shorter, "false")
  }

  lemma BooleanHasNoBar(v: string)
    requires Boolean(v)
    ensures forall i :: 0 <= i < |v| ==> v[i] != '|'
  {
  }

  /** The characters of a key, part by part. */
  lemma KeyParts(e: Exposure)
    ensures var s, g, v := Key(e), |e.gate|, |e.gateValue|;
            && |s| == g + v + |e.ruleID| + 2
            && s[..g] == e.gate && s[g] == '|'
            && s[g + 1..g + 1 + v] == e.gateValue && s[g + 1 + v] == '|'
            && s[g + v + 2..] == e.ruleID
  {
  }

  lemma SameGate(e: Exposure, f: Exposure)
    requires Boolean(e.gateValue) && Boolean(f.gateValue) && Key(e) == Key(f) && |e.gate| == |f.gate|
    ensures e == f
  {
    var s, g := Key(e), |e.gate|;
    KeyParts(e);
    KeyParts(f);
    assert s[g + 1] == e.gateValue[0] && s[g + 1] == f.gateValue[0];
    assert e.gateValue == f.gateValue;
  }

  lemma LongerGate(e: Exposure, f: Exposure)
    requires Boolean(e.gateValue) && Boolean(f.gateValue) && Key(e) == Key(f) && |e.gate| > |f.gate|
    ensures ExtendsBy(e.gate, f.gate, f.gateValue)
  {
    var s, n, g, v := Key(e), |e.gate|, |f.gate|, |f.gateValue|;
    KeyParts(e);
    KeyParts(f);
    BooleanHasNoBar(f.gateValue);
    forall k | g + 1 <= k < g + 1 + v ensures s[k] != '|' {
      assert s[g + 1..g + 1 + v][k - g - 1] == f.gateValue[k - g - 1];
    }
    assert n >= g + 1 + v;
    assert s[..g + 1 + v] == f.gate + "|" + f.gateValue;
    assert e.gate[..g + 1 + v] == s[..g + 1 + v];
    if n > g + 1 + v {
      assert e.gate[g + 1 + v] == s[g + 1 + v];
    }
  }

  /** Two different exposures share a key only if one's gate name extends the other's. */
  lemma CollisionNeedsExtension(e: Exposure, f: Exposure)
    requires Boolean(e.gateValue) && Boolean(f.gateValue) && Key(e) == Key(f) && e != f
    ensures Extends(e.gate, f.gate) || Extends(f.gate, e.gate)
  {
    if |e.gate| == |f.gate| {
      SameGate(e, f);
    } else if |e.gate| > |f.gate| {
      LongerGate(e, f);
    } else {
      LongerGate(f, e);
    }
  }

  lemma Associate(x: string, y: string, z: string)
    ensures x + y + z == x + (y + z)
  {
  }

  /** And every such pair of gate names has two different exposures that share a key. */
  lemma ExtensionCollides(longer: string, shorter: string) returns (e: Exposure, f: Exposure)
    requires Extends(longer, shorter)
    ensures e == Exposure(longer, "false", "") && f.gate == shorter && Boolean(f.gateValue)
    ensures e != f && Key(e) == Key(f)
  {
    var v := if ExtendsBy(longer, shorter, "true") then "true" else "false";
    var x := shorter + "|" + v + "|";
    e := Exposure(longer, "false", "");
    if longer == shorter + "|" + v {
      f := Exposure(shorter, v, "false|");
      assert "false" + "|" + "" == "false|";
      Associate(x, "false", "|");
      Associate(x, "false" + "|", "");
    } else {
      var rest := longer[|x|..];
      assert longer == x + rest;
      f := Exposure(shorter, v, rest + "|" + "false" + "|" + "");
      Associate(x, rest, "|");
      Associate(x, rest + "|", "false");
      Associate(x, rest + "|" + "false", "|");
      Associate(x, rest + "|" + "false" + "|", "");
    }
    assert |longer| > |shorter|;
  }

  // ----- What cleaning can lose. -----

  /** Every exposure of the trace survives: what is dropped are repetitions. */
  predicate NothingLost(s: seq<Exposure>) {
    forall e <- s :: e in Clean(s)
  }

  predicate KeysFaithful(s: seq<Exposure>) {
    forall e <- s, f <- s :: Key(e) == Key(f) ==> e == f
  }

  lemma {:induction false} CleanSelects(s: seq<Exposure>)
    ensures forall e <- Clean(s) :: e in s
  {
    if s != [] {
      CleanSelects(s[..|s| - 1]);
      assert s == s[..|s| - 1] + [s[|s| - 1]];
    }
  }

  lemma LostByKeys(s: seq<Exposure>)
    ensures NothingLost(s) <==> KeysFaithful(s)
  {
    CleanKeys(s);
    CleanSelects(s);
    if NothingLost(s) {
      forall e <- s, f <- s | Key(e) == Key(f) ensures e == f {
        var k :| 0 <= k < |Clean(s)| && Clean(s)[k] == e;
        var l :| 0 <= l < |Clean(s)| && Clean(s)[l] == f;
        assert k == l;
      }
    }
    if KeysFaithful(s) {
      forall e <- s ensures e in Clean(s) {
        assert SeenIn(s, Key(e));
        assert SeenIn(Clean(s), Key(e));
        var c :| c in Clean(s) && Key(c) == Key(e);
        assert c == e;
      }
    }
  }

  predicate TraceOver(s: seq<Exposure>, gates: set<string>) {
    forall e <- s :: e.gate in gates
  }

  predicate NoneExtends(gates: set<string>) {
    forall g <- gates, h <- gates :: !Extends(g, h)
  }

  lemma TraceKeepsAll(s: seq<Exposure>, gates: set<string>)
    requires TraceOver(s, gates) && NoneExtends(gates) && forall e <- s :: Boolean(e.gateValue)
    ensures NothingLost(s)
  {
    forall e <- s, f <- s | Key(e) == Key(f) ensures e == f {
      if e != f {
        CollisionNeedsExtension(e, f);
      }
    }
    LostByKeys(s);
  }

  /** An evaluation's trace loses nothing unless it holds two gates one of whose names extends the other's. */
  lemma EvalTraceLossless(w: World, spec: Spec, d: nat, gates: set<string>)
    requires Eval(w, spec, d).Done? && NoneExtends(gates)
    requires TraceOver(Eval(w, spec, d).value.exposures, gates)
    ensures NothingLost(Eval(w, spec, d).value.exposures)
  {
    var s := Eval(w, spec, d).value.exposures;
    Exposures.EvalSound(w, spec, d);
    forall e <- s ensures Boolean(e.gateValue) {
      var i :| 0 <= i < |s| && s[i] == e;
      assert Exposures.SoundAt(w, s, i);
    }
    TraceKeepsAll(s, gates);
  }

  const PLAIN_RULE := Rule("", "", 0.0, [], Malformed, "", "", None)
  const PLAIN_SPEC := Spec("", "feature_gate", "", true, [], Malformed, "", [], "", None, None, [])
  const EMPTY_SNAPSHOT := Snapshot(map[], map[], map[], map[], map[], map[], Network, 0, 0, map[], map[], map[], 0)

  function PassGateCondition(gate: string): Condition {
    Condition("pass_gate", "", "", Str(gate), None, "")
  }

  /** A gate that always evaluates to this value, by a rule of this id. */
  function FixedGate(value: bool, id: string): Spec {
    PLAIN_SPEC.(rules := [PLAIN_RULE.(id := id, passPercentage := if value then 100.0 else 0.0)])
  }

  /** A gate that asks for both of these gates to pass. */
  function BothGates(first: string, second: string): Spec {
    PLAIN_SPEC.(rules := [PLAIN_RULE.(conditions := [PassGateCondition(first), PassGateCondition(second)])])
  }

  lemma FixedGateIs(w: World, value: bool, id: string, d: nat)
    requires d < MAX_DEPTH && w.snap.configs == map[]
    ensures var r := Eval(w, FixedGate(value, id), d);
            r.Done? && r.value.pass == value && r.value.id == id && r.value.exposures == [] && !r.value.fetchFromServer
  {
    var spec := FixedGate(value, id);
    RulesStep(w, spec, 0, [], d);
  }

  lemma PassGateIs(w: World, gate: string, d: nat)
    requires EvalGate(w, gate, d + 1).Done? && !EvalGate(w, gate, d + 1).value.fetchFromServer
    ensures var r := EvalGate(w, gate, d + 1).value;
            EvalCondition(w, PassGateCondition(gate), d) ==
            Done(ZERO.(pass := r.pass, exposures := r.exposures + [Exposure(gate, FormatBool(r.pass), r.id)]))
  {
    assert ToLower("pass_gate") == "pass_gate";
    assert TypeOf(PassGateCondition(gate)) == PassGate;
  }

  /** An evaluation whose trace is these two exposures: the first gate is unknown, the second one fixed. */
  lemma TraceOfTwo(w: World, first: string, second: string, value: bool, id: string)
    requires first != second
    requires w.snap == EMPTY_SNAPSHOT.(gates := map[second := FixedGate(value, id)])
    ensures Eval(w, BothGates(first, second), 0).Done?
    ensures Eval(w, BothGates(first, second), 0).value.exposures ==
            [Exposure(first, "false", ""), Exposure(second, FormatBool(value), id)]
  {
    var spec := BothGates(first, second);
    var conds := spec.rules[0].conditions;
    FixedGateIs(w, value, id, 4);
    PassGateIs(w, first, 2);
    PassGateIs(w, second, 2);
    CondsStep(w, conds, 0, ZERO.(pass := true), 1);
    var one := EvalCondition(w, conds[0], 2).value;
    CondsStep(w, conds, 1, Both(ZERO.(pass := true), one), 1);
    RulesStep(w, spec, 0, [], 0);
  }

  /** Some evaluation exposes both gates of such a pair and loses one of them. */
  lemma EvaluationLoses(lib: Lib, user: User, longer: string, shorter: string) returns (snap: Snapshot, spec: Spec)
    requires Extends(longer, shorter)
    ensures var r := Eval(World(lib, user, snap), spec, 0);
            r.Done? && TraceOver(r.value.exposures, {longer, shorter}) && !NothingLost(r.value.exposures)
  {
    var e, f := ExtensionCollides(longer, shorter);
    var value := f.gateValue == "true";
    assert |longer| > |shorter|;
    snap := EMPTY_SNAPSHOT.(gates := map[shorter := FixedGate(value, f.ruleID)]);
    spec := BothGates(longer, shorter);
    TraceOfTwo(World(lib, user, snap), longer, shorter, value, f.ruleID);
    var s := [e, f];
    assert e in s && f in s;
    LostByKeys(s);
  }

  /** For any user and library: cleaning loses nothing of any evaluation that exposes only these gates if and only if
      no gate name among them extends another. */
  lemma LosslessExactly(lib: Lib, user: User, gates: set<string>)
    ensures (forall snap, spec, d: nat ::
               var r := Eval(World(lib, user, snap), spec, d);
               r.Done? && TraceOver(r.value.exposures, gates) ==> NothingLost(r.value.exposures)) <==>
            NoneExtends(gates)
  {
    if NoneExtends(gates) {
      forall snap, spec, d: nat |
        var r := Eval(World(lib, user, snap), spec, d); r.Done? && TraceOver(r.value.exposures, gates)
        ensures NothingLost(Eval(World(lib, user, snap), spec, d).value.exposures)
      {
        EvalTraceLossless(World(lib, user, snap), spec, d, gates);
      }
    } else {
      var g, h :| g in gates && h in gates && Extends(g, h);
      var snap, spec := EvaluationLoses(lib, user, g, h);
      var r := Eval(World(lib, user, snap), spec, 0);
      assert TraceOver(r.value.exposures, gates);
    }
  }
}
