/** How many times a run of failing polls is reported. */
module Outages {

  /** The failure counter and the number of outage reports so far. */
  datatype Tally = Tally(count: nat, reports: nat)

  /** One failed poll: count it, and report and start over once the failures span more than `max`. */
  function Failed(o: Tally, interval: nat, max: nat): Tally {
    if (o.count + 1) * interval > max then Tally(0, o.reports + 1) else Tally(o.count + 1, o.reports)
  }

  /** A run of polls, `true` marking those that failed. A success changes nothing. */
  function Polls(o: Tally, failed: seq<bool>, interval: nat, max: nat): Tally {
    if failed == [] then o
    else
      var before := Polls(o, failed[..|failed| - 1], interval, max);
      if failed[|failed| - 1] then Failed(before, interval, max) else before
  }

  function CountTrue(s: seq<bool>): nat {
    if s == [] then 0 else CountTrue(s[..|s| - 1]) + if s[|s| - 1] then 1 else 0
  }

  /** The number of failures that fills one report. */
  function Period(interval: nat, max: nat): (k: nat)
    requires interval > 0
    ensures k > 0
    ensures forall c: nat :: c * interval > max <==> c >= k
  {
    var k := max / interval + 1;
    assert max == interval * (max / interval) + max % interval;
    forall c: nat ensures c * interval > max <==> c >= k {
      if c >= k {
        assert c * interval >= k * interval;
      } else {
        assert c * interval <= (k - 1) * interval;
      }
    }
    k
  }

  lemma {:induction false} PollsBalance(o: Tally, failed: seq<bool>, interval: nat, max: nat)
    requires interval > 0 && o.count < Period(interval, max)
    ensures var k, o' := Period(interval, max), Polls(o, failed, interval, max);
            && o'.count < k && o'.reports >= o.reports
            && o.count + CountTrue(failed) == (o'.reports - o.reports) * k + o'.count
  {
    if failed != [] {
      var k := Period(interval, max);
      PollsBalance(o, failed[..|failed| - 1], interval, max);
      var before := Polls(o, failed[..|failed| - 1], interval, max);
      assert (before.reports + 1 - o.reports) * k == (before.reports - o.reports) * k + k;
    }
  }

  lemma DivModUnique(n: nat, k: nat, q: nat, r: nat)
    requires k > 0 && r < k && n == q * k + r
    ensures q == n / k && r == n % k
  {
    var d := n / k;
    assert n == d * k + n % k;
    assert q + 1 <= d ==> (q + 1) * k <= d * k;
    assert d + 1 <= q ==> (d + 1) * k <= q * k;
  }

  lemma AtLeastTwo(interval: nat, max: nat)
    requires 0 < interval <= max
    ensures Period(interval, max) >= 2
  {
    assert max / interval >= 1;
  }

  /** Over any run, wherever the successes fall: with a poll interval not above the maximum, `n` failed polls give
      exactly (c0 + n) div K reports and leave the counter at (c0 + n) mod K, where K is `Period`. */
  lemma ReportsOverRun(o: Tally, failed: seq<bool>, interval: nat, max: nat)
    requires 0 < interval <= max && o.count <= 1
    ensures var k, n := Period(interval, max), CountTrue(failed);
            Polls(o, failed, interval, max) == Tally((o.count + n) % k, o.reports + (o.count + n) / k)
  {
    AtLeastTwo(interval, max);
    PollsBalance(o, failed, interval, max);
    var o' := Polls(o, failed, interval, max);
    var q: nat := o'.reports - o.reports;
    DivModUnique(o.count + CountTrue(failed), Period(interval, max), q, o'.count);
  }

  /** With an interval above the maximum every failed poll is reported at once. */
  lemma {:induction false} EveryFailureReported(o: Tally, failed: seq<bool>, interval: nat, max: nat)
    requires interval > max
    ensures Polls(o, failed, interval, max).reports == o.reports + CountTrue(failed)
  {
    if failed != [] {
      EveryFailureReported(o, failed[..|failed| - 1], interval, max);
      var before := Polls(o, failed[..|failed| - 1], interval, max);
      assert (before.count + 1) * interval >= interval;
    }
  }

  // ----- What a report says about the outage. -----

  /** A success changes neither the counter nor the reports, wherever it falls. */
  lemma {:induction false} SuccessesDoNotCount(o: Tally, failed: seq<bool>, interval: nat, max: nat)
    ensures Polls(o, failed, interval, max) == Polls(o, seq(CountTrue(failed), _ => true), interval, max)
  {
    if failed != [] {
      var init, n := failed[..|failed| - 1], CountTrue(failed);
      SuccessesDoNotCount(o, init, interval, max);
      if failed[|failed| - 1] {
        assert seq(n, _ => true)[..n - 1] == seq(n - 1, _ => true);
      }
    }
  }

  /** Failures up to poll `i`, the cold start's included. */
  function FailuresBefore(c0: nat, failed: seq<bool>, i: nat): nat
    requires i <= |failed|
  {
    c0 + CountTrue(failed[..i])
  }

  lemma CountStep(c0: nat, failed: seq<bool>, i: nat)
    requires i < |failed|
    ensures FailuresBefore(c0, failed, i + 1) == FailuresBefore(c0, failed, i) + if failed[i] then 1 else 0
  {
    assert failed[..i + 1][..i] == failed[..i];
  }

  /** Between two polls there are at most as many failures as polls, and exactly as many only if all failed. */
  lemma {:induction false} CountBetween(c0: nat, failed: seq<bool>, i: nat, j: nat)
    requires i <= j <= |failed|
    ensures var n := FailuresBefore(c0, failed, j) - FailuresBefore(c0, failed, i);
            0 <= n <= j - i && (n == j - i <==> forall k :: i <= k < j ==> failed[k])
    decreases j - i
  {
    if i < j {
      CountBetween(c0, failed, i, j - 1);
      CountStep(c0, failed, j - 1);
    }
  }

  /** Poll `j` of the run is one that reports. */
  predicate ReportsAt(o: Tally, failed: seq<bool>, interval: nat, max: nat, j: nat)
    requires j < |failed|
  {
    Polls(o, failed[..j + 1], interval, max).reports > Polls(o, failed[..j], interval, max).reports
  }

  /** It reports exactly when it fails and fills a period. */
  lemma ReportsFillPeriods(o: Tally, failed: seq<bool>, interval: nat, max: nat, j: nat)
    requires 0 < interval <= max && o.count <= 1 && j < |failed|
    ensures ReportsAt(o, failed, interval, max, j) <==>
            failed[j] && FailuresBefore(o.count, failed, j + 1) % Period(interval, max) == 0
  {
    var k := Period(interval, max);
    assert failed[..j + 1][..j] == failed[..j] && failed[..j + 1][j] == failed[j];
    AtLeastTwo(interval, max);
    PollsBalance(o, failed[..j], interval, max);
    PollsBalance(o, failed[..j + 1], interval, max);
    var before, after := Polls(o, failed[..j], interval, max), Polls(o, failed[..j + 1], interval, max);
    var q: nat := after.reports - o.reports;
    DivModUnique(FailuresBefore(o.count, failed, j + 1), k, q, after.count);
    assert failed[j] ==> after == Failed(before, interval, max);
  }

  /** The failures that the report of poll `j` counts are consecutive: the last `k` attempts to sync all failed. The
      first report may reach back to a failed cold start, which is attempt number -1. */
  predicate Unbroken(c0: nat, failed: seq<bool>, k: nat, j: nat)
    requires j < |failed|
  {
    forall i :: j - k < i <= j ==> if i >= 0 then failed[i] else i == -1 && c0 == 1
  }

  lemma MultipleGap(a: nat, b: nat, k: nat)
    requires k > 0 && a % k == 0 && b % k == 0 && a < b
    ensures b >= a + k
  {
    var p, q := a / k, b / k;
    assert a == k * p && b == k * q;
    assert q <= p ==> k * q <= k * p;
    assert q >= p + 1 ==> k * q >= k * (p + 1) == k * p + k;
  }

  /** No success before a later report falls inside a period. */
  ghost predicate SuccessesFallRight(o: Tally, failed: seq<bool>, interval: nat, max: nat)
    requires interval > 0
  {
    forall i: nat, j: nat :: i < j < |failed| && !failed[i] && ReportsAt(o, failed, interval, max, j) ==>
      FailuresBefore(o.count, failed, i) % Period(interval, max) == 0
  }

  /** Every report of a run is one of consecutive failures. */
  ghost predicate AllUnbroken(o: Tally, failed: seq<bool>, interval: nat, max: nat)
    requires interval > 0
  {
    forall j: nat :: j < |failed| && ReportsAt(o, failed, interval, max, j) ==>
      Unbroken(o.count, failed, Period(interval, max), j)
  }

  lemma UnbrokenIfRight(o: Tally, failed: seq<bool>, interval: nat, max: nat, j: nat)
    requires 0 < interval <= max && o.count <= 1 && SuccessesFallRight(o, failed, interval, max)
    requires j < |failed| && ReportsAt(o, failed, interval, max, j)
    ensures Unbroken(o.count, failed, Period(interval, max), j)
  {
    var k, c0 := Period(interval, max), o.count;
    ReportsFillPeriods(o, failed, interval, max, j);
    CountStep(c0, failed, j);
    MultipleGap(0, FailuresBefore(c0, failed, j + 1), k);
    CountBetween(c0, failed, 0, j + 1);
    assert j + 1 + c0 >= k;
    forall i: nat | j - k < i <= j ensures failed[i] {
      if !failed[i] {
        CountBetween(c0, failed, i, j);
        CountBetween(c0, failed, i, j + 1);
        MultipleGap(FailuresBefore(c0, failed, i), FailuresBefore(c0, failed, j + 1), k);
      }
    }
  }

  /** After a success inside a period the next report comes with the failure that fills this period. */
  lemma {:induction false} NextReport(o: Tally, failed: seq<bool>, interval: nat, max: nat, i: nat, from: nat, j: nat)
    returns (r: nat)
    requires 0 < interval <= max && o.count <= 1 && i <= from <= j < |failed| && !failed[i]
    requires var k := Period(interval, max);
             FailuresBefore(o.count, failed, i) % k != 0 &&
             FailuresBefore(o.count, failed, from) / k == FailuresBefore(o.count, failed, i) / k &&
             FailuresBefore(o.count, failed, from) >= FailuresBefore(o.count, failed, i)
    requires ReportsAt(o, failed, interval, max, j)
    ensures i < r <= j && ReportsAt(o, failed, interval, max, r)
    ensures FailuresBefore(o.count, failed, r + 1) - FailuresBefore(o.count, failed, i) < Period(interval, max)
    decreases j - from
  {
    var k, c0 := Period(interval, max), o.count;
    ReportsFillPeriods(o, failed, interval, max, from);
    CountStep(c0, failed, from);
    var a, b := FailuresBefore(c0, failed, i), FailuresBefore(c0, failed, from + 1);
    NextInPeriod(a, FailuresBefore(c0, failed, from), b, k);
    if ReportsAt(o, failed, interval, max, from) {
      r := from;
    } else {
      r := NextReport(o, failed, interval, max, i, from + 1, j);
    }
  }

  /** Counting on from inside a period either stays inside it or fills it, less than a period after. */
  lemma NextInPeriod(a: nat, n: nat, n': nat, k: nat)
    requires k > 0 && a % k != 0 && a <= n && n / k == a / k && n <= n' <= n + 1
    ensures n' - a < k
    ensures n' % k == 0 || n' / k == a / k
  {
    var q := a / k;
    assert a == k * q + a % k && n == k * q + n % k;
    if n' == k * q + k {
      assert n' == k * (q + 1);
      DivModUnique(n', k, q + 1, 0);
    } else {
      DivModUnique(n', k, q, n' - k * q);
    }
  }

  /** The reported duration is that of an unbroken outage, in all reports of a run, exactly when each success before a
      later report falls where the failures so far, the cold start's included, fill whole periods. */
  lemma ReportsUnbrokenExactly(o: Tally, failed: seq<bool>, interval: nat, max: nat)
    requires 0 < interval <= max && o.count <= 1
    ensures AllUnbroken(o, failed, interval, max) <==> SuccessesFallRight(o, failed, interval, max)
  {
    if SuccessesFallRight(o, failed, interval, max) {
      forall j: nat | j < |failed| && ReportsAt(o, failed, interval, max, j)
        ensures Unbroken(o.count, failed, Period(interval, max), j)
      {
        UnbrokenIfRight(o, failed, interval, max, j);
      }
    } else {
      var k := Period(interval, max);
      var i: nat, j: nat :| i < j < |failed| && !failed[i] && ReportsAt(o, failed, interval, max, j) &&
        FailuresBefore(o.count, failed, i) % k != 0;
      var r := NextReport(o, failed, interval, max, i, i, j);
      BrokenBySuccess(o.count, failed, k, i, r);
    }
  }

  lemma BrokenBySuccess(c0: nat, failed: seq<bool>, k: nat, i: nat, r: nat)
    requires i < r < |failed| && !failed[i]
    requires FailuresBefore(c0, failed, r + 1) - FailuresBefore(c0, failed, i) < k
    ensures !Unbroken(c0, failed, k, r)
  {
    if Unbroken(c0, failed, k, r) {
      assert i <= r - k;
      CountBetween(c0, failed, i, r - k + 1);
      CountBetween(c0, failed, r - k + 1, r + 1);
    }
  }

  /** `syncOutdatedMax`: two minutes, in nanoseconds. */
  const SYNC_OUTDATED_MAX: nat := 120_000_000_000

  /** `n` failures, a success and a failure: n + 1 failures, of which the success comes after the first n. */
  lemma BrokenRun(n: nat, failed: seq<bool>)
    requires failed == seq(n, _ => true) + [false, true]
    ensures FailuresBefore(0, failed, n + 2) == n + 1
  {
    CountBetween(0, failed, 0, n);
    CountStep(0, failed, n);
    CountStep(0, failed, n + 1);
  }

  /** A single success before the last failure of a period makes a report that covers no unbroken outage. */
  lemma BrokenReport(interval: nat, max: nat, failed: seq<bool>)
    requires 0 < interval <= max && failed == seq(Period(interval, max) - 1, _ => true) + [false, true]
    ensures var k := Period(interval, max);
            ReportsAt(Tally(0, 0), failed, interval, max, k) && !Unbroken(0, failed, k, k)
  {
    var k := Period(interval, max);
    AtLeastTwo(interval, max);
    BrokenRun(k - 1, failed);
    assert k % k == 0 && failed[k];
    ReportsFillPeriods(Tally(0, 0), failed, interval, max, k);
    assert !failed[k - 1];
  }

  /** With the code's own maximum, every interval up to it has such a run. */
  lemma ReportAcrossSuccess(interval: nat)
    requires 0 < interval <= SYNC_OUTDATED_MAX
    ensures var k := Period(interval, SYNC_OUTDATED_MAX);
            var failed := seq(k - 1, _ => true) + [false, true];
            && ReportsAt(Tally(0, 0), failed, interval, SYNC_OUTDATED_MAX, k)
            && !Unbroken(0, failed, k, k)
  {
    BrokenReport(interval, SYNC_OUTDATED_MAX, seq(Period(interval, SYNC_OUTDATED_MAX) - 1, _ => true) + [false, true]);
  }
}

/** The store of gate, config and layer specs: where its contents come from, and how failures to refresh it count. */
module SpecStore {
  import opened Strings
  import opened Specs
  import opened Outages

  datatype Response = Response(
    hasUpdates: bool, time: int, featureGates: seq<Spec>, dynamicConfigs: seq<Spec>, layerConfigs: seq<Spec>,
    layers: map<string, seq<string>>, sdkKeysToAppID: map<string, string>)

  /** The adapter panics, or gives a text that decodes to a response or does not. */
  datatype AdapterAnswer = AdapterPanics | Text(decoded: Option<Response>)

  predicate Delivered(answer: AdapterAnswer) {
    answer.Text? && answer.decoded.Some? && answer.decoded.value.hasUpdates
  }

  datatype NetworkAnswer = RequestFailed | Received(specs: Response)

  datatype Poll = Poll(adapterWanted: bool, adapter: AdapterAnswer, network: NetworkAnswer)

  /** A response that was put in place, and where it came from. */
  datatype Applied = Applied(source: Reason, specs: Response)

  function ByName(specs: seq<Spec>): map<string, Spec> {
    if specs == [] then map[]
    else ByName(specs[..|specs| - 1])[specs[|specs| - 1].name := specs[|specs| - 1]]
  }

  predicate LastNamed(specs: seq<Spec>, name: string, i: int) {
    0 <= i < |specs| && specs[i].name == name && forall j :: i < j < |specs| ==> specs[j].name != name
  }

  /** A name is served by the last spec of that name. */
  lemma {:induction false} ByNameMeans(specs: seq<Spec>, name: string)
    ensures name in ByName(specs) <==> exists i :: 0 <= i < |specs| && specs[i].name == name
    ensures name in ByName(specs) ==> exists i :: LastNamed(specs, name, i) && ByName(specs)[name] == specs[i]
  {
    if specs != [] {
      var last := |specs| - 1;
      ByNameMeans(specs[..last], name);
      if specs[last].name == name {
        assert LastNamed(specs, name, last);
      } else {
        assert name in ByName(specs) <==> name in ByName(specs[..last]);
        forall i | LastNamed(specs[..last], name, i) ensures LastNamed(specs, name, i) {}
        assert forall i :: 0 <= i < last ==> specs[..last][i] == specs[i];
      }
    }
  }

  /** An experiment is indexed exactly when some layer lists it, and under such a layer. Which one, when several do,
      is up to the order in which a map is walked. */
  ghost predicate IndexesExperiments(index: map<string, string>, layers: map<string, seq<string>>) {
    && (forall e <- index :: index[e] in layers && e in layers[index[e]])
    && (forall l <- layers, e <- layers[l] :: e in index)
  }

  /** What a run of answers from the network leaves to be served: the last one with updates, or what was served
      before. */
  function LastFromNetwork(before: Option<Applied>, answers: seq<NetworkAnswer>): Option<Applied> {
    if answers == [] then before
    else
      match answers[|answers| - 1]
      case RequestFailed => LastFromNetwork(before, answers[..|answers| - 1])
      case Received(specs) =>
        if specs.hasUpdates then Some(Applied(Network, specs))
        else LastFromNetwork(before, answers[..|answers| - 1])
  }

  /** The same for answers from the adapter. */
  function LastFromAdapter(before: Option<Applied>, answers: seq<AdapterAnswer>): Option<Applied> {
    if answers == [] then before
    else
      match answers[|answers| - 1]
      case Text(Some(specs)) =>
        if specs.hasUpdates then Some(Applied(DataAdapter, specs))
        else LastFromAdapter(before, answers[..|answers| - 1])
      case _ => LastFromAdapter(before, answers[..|answers| - 1])
  }

  function FromNetwork(polls: seq<Poll>): seq<NetworkAnswer> {
    seq(|polls|, i requires 0 <= i < |polls| => polls[i].network)
  }

  function FromAdapter(polls: seq<Poll>): seq<AdapterAnswer> {
    seq(|polls|, i requires 0 <= i < |polls| => polls[i].adapter)
  }

  function RequestsFailed(answers: seq<NetworkAnswer>): seq<bool> {
    seq(|answers|, i requires 0 <= i < |answers| => answers[i].RequestFailed?)
  }

  class Store {
    var featureGates: map<string, Spec>
    var dynamicConfigs: map<string, Spec>
    var layerConfigs: map<string, Spec>
    var experimentToLayer: map<string, string>
    var sdkKeysToAppID: map<string, string>
    /** What evaluation reads of the ID lists: `IdListWorkers.Store.Members()`. */
    var idLists: map<string, Option<set<string>>>
    var lastSyncTime: int
    var initialSyncTime: int
    var initReason: Reason
    var syncFailureCount: nat
    var shutdown: bool
    const hasAdapter: bool
    const configSyncInterval: nat
    const syncOutdatedMax: nat

    ghost var applied: Option<Applied>
    ghost var reports: nat

    ghost function Failures(): Tally reads this { Tally(syncFailureCount, reports) }

    /** All spec maps and the sync time come from this one response. */
    ghost predicate Serves(specs: Response) reads this {
      && featureGates == ByName(specs.featureGates)
      && dynamicConfigs == ByName(specs.dynamicConfigs)
      && layerConfigs == ByName(specs.layerConfigs)
      && IndexesExperiments(experimentToLayer, specs.layers)
      && sdkKeysToAppID == specs.sdkKeysToAppID
      && lastSyncTime == specs.time
    }

    /** The reason given for evaluations is the source of what is served; nothing is served before a first response. */
    ghost predicate Truthful() reads this {
      match applied
      case Some(a) => initReason == a.source && Serves(a.specs)
      case None =>
        && initReason == Uninitialized && lastSyncTime == 0
        && featureGates == dynamicConfigs == layerConfigs == map[]
    }

    /** Nothing that is served has changed. */
    twostate predicate SameSpecs() reads this {
      && unchanged(`featureGates) && unchanged(`dynamicConfigs) && unchanged(`layerConfigs)
      && unchanged(`experimentToLayer) && unchanged(`sdkKeysToAppID) && unchanged(`lastSyncTime)
      && unchanged(`initReason) && unchanged(`applied)
    }

    static method IndexByName(specs: seq<Spec>) returns (index: map<string, Spec>)
      ensures index == ByName(specs)
    {
      index := map[];
      for i := 0 to |specs|
        invariant index == ByName(specs[..i])
      {
        assert specs[..i + 1][..i] == specs[..i];
        index := index[specs[i].name := specs[i]];
      }
      assert specs[..|specs|] == specs;
    }

    static method IndexExperiments(layers: map<string, seq<string>>) returns (index: map<string, string>)
      ensures IndexesExperiments(index, layers)
      ensures forall e :: e in index <==> exists l <- layers :: e in layers[l]
      ensures forall e <- index :: index[e] in layers && e in layers[index[e]]
    {
      index := map[];
      var left := layers.Keys;
      while left != {}
        invariant left <= layers.Keys
        invariant forall e <- index :: index[e] in layers && e in layers[index[e]]
        invariant forall l <- layers, e <- layers[l] :: l !in left ==> e in index
      {
        var layer :| layer in left;
        left := left - {layer};
        for i := 0 to |layers[layer]|
          invariant forall e <- index :: index[e] in layers && e in layers[index[e]]
          invariant forall l <- layers, e <- layers[l] :: l !in left && l != layer ==> e in index
          invariant forall j :: 0 <= j < i ==> layers[layer][j] in index
        {
          index := index[layers[layer][i] := layer];
        }
      }
    }

    method SetConfigSpecs(specs: Response, ghost source: Reason) returns (success: bool)
      modifies `featureGates, `dynamicConfigs, `layerConfigs, `experimentToLayer, `sdkKeysToAppID
      modifies `lastSyncTime, `applied
      ensures success == specs.hasUpdates
      ensures success ==> Serves(specs) && applied == Some(Applied(source, specs))
      ensures success ==>
                && featureGates == ByName(specs.featureGates) && dynamicConfigs == ByName(specs.dynamicConfigs)
                && layerConfigs == ByName(specs.layerConfigs) && lastSyncTime == specs.time
                && sdkKeysToAppID == specs.sdkKeysToAppID
      ensures !success ==> SameSpecs()
    {
      if specs.hasUpdates {
        var newGates := IndexByName(specs.featureGates);
        var newConfigs := IndexByName(specs.dynamicConfigs);
        var newLayers := IndexByName(specs.layerConfigs);
        var newExperimentToLayer := IndexExperiments(specs.layers);
        featureGates := newGates;
        dynamicConfigs := newConfigs;
        layerConfigs := newLayers;
        experimentToLayer := newExperimentToLayer;
        sdkKeysToAppID := specs.sdkKeysToAppID;
        lastSyncTime := specs.time;
        applied := Some(Applied(source, specs));
        return true;
      }
      return false;
    }

    method ProcessConfigSpecs(decoded: Option<Response>, ghost source: Reason) returns (success: bool)
      modifies `featureGates, `dynamicConfigs, `layerConfigs, `experimentToLayer, `sdkKeysToAppID
      modifies `lastSyncTime, `applied
      ensures success == (decoded.Some? && decoded.value.hasUpdates)
      ensures success ==> Serves(decoded.value) && applied == Some(Applied(source, decoded.value))
      ensures !success ==> SameSpecs()
    {
      success := false;
      if decoded.Some? {
        success := SetConfigSpecs(decoded.value, source);
      }
    }

    method FetchConfigSpecsFromAdapter(answer: AdapterAnswer)
      requires Truthful()
      modifies this
      ensures Truthful()
      ensures applied == if Delivered(answer)
                         then Some(Applied(DataAdapter, answer.decoded.value)) else old(applied)
      ensures Delivered(answer) || SameSpecs()
      ensures Failures() == old(Failures())
      ensures unchanged(`initialSyncTime) && unchanged(`idLists) && unchanged(`shutdown)
    {
      if answer.AdapterPanics? {
        return;
      }
      var success := ProcessConfigSpecs(answer.decoded, DataAdapter);
      if success {
        initReason := DataAdapter;
      }
    }

    method HandleSyncError(isColdStart: bool)
      modifies `syncFailureCount, `reports
      ensures Failures() == if isColdStart then old(Failures()).(count := old(syncFailureCount) + 1)
                          else Failed(old(Failures()), configSyncInterval, syncOutdatedMax)
    {
      syncFailureCount := syncFailureCount + 1;
      var failDuration := syncFailureCount * configSyncInterval;
      if isColdStart {
        return;
      } else if failDuration > syncOutdatedMax {
        reports := reports + 1;
        syncFailureCount := 0;
      }
    }

    method FetchConfigSpecsFromServer(answer: NetworkAnswer, isColdStart: bool)
      requires Truthful()
      modifies this
      ensures Truthful()
      ensures applied == if answer.Received? && answer.specs.hasUpdates
                         then Some(Applied(Network, answer.specs)) else old(applied)
      ensures (answer.Received? && answer.specs.hasUpdates) || SameSpecs()
      ensures answer.Received? ==> Failures() == old(Failures())
      ensures answer.RequestFailed? ==>
                Failures() == if isColdStart then old(Failures()).(count := old(syncFailureCount) + 1)
                            else Failed(old(Failures()), configSyncInterval, syncOutdatedMax)
      ensures unchanged(`initialSyncTime) && unchanged(`idLists) && unchanged(`shutdown)
    {
      if answer.RequestFailed? {
        HandleSyncError(isColdStart);
        return;
      }
      var success := ProcessConfigSpecs(Some(answer.specs), Network);
      if success {
        initReason := Network;
      }
    }

    /** The response loaded without the network: the adapter's, or without an adapter the bootstrap values. */
    static function LocalSource(adapter: Option<AdapterAnswer>, bootstrap: Option<Option<Response>>): Option<Applied> {
      if adapter.Some? then
        if Delivered(adapter.value) then Some(Applied(DataAdapter, adapter.value.decoded.value)) else None
      else if bootstrap.Some? && bootstrap.value.Some? && bootstrap.value.value.hasUpdates then
        Some(Applied(Bootstrap, bootstrap.value.value))
      else None
    }

    /** What initialization ends up serving: the local response, unless there is none, or it carries time zero and
        the network then delivers another. */
    static function FirstSource(
      adapter: Option<AdapterAnswer>, bootstrap: Option<Option<Response>>, network: NetworkAnswer): Option<Applied>
    {
      var local := LocalSource(adapter, bootstrap);
      if network.Received? && network.specs.hasUpdates && (local.None? || local.value.specs.time == 0)
      then Some(Applied(Network, network.specs)) else local
    }

    /** What can be loaded without the network: from an adapter if there is one, else from bootstrap values. */
    static predicate Loadable(
      adapter: Option<AdapterAnswer>, bootstrap: Option<Option<Response>>, source: Reason, specs: Response)
    {
      && specs.hasUpdates
      && if adapter.Some? then source == DataAdapter && adapter.value == Text(Some(specs))
         else source == Bootstrap && bootstrap == Some(Some(specs))
    }

    /** What is served first: what can be loaded, if its time is not zero; else what the network delivers; and what can
        be loaded with time zero only if the network delivers nothing. */
    static lemma FirstSourceMeans(
      adapter: Option<AdapterAnswer>, bootstrap: Option<Option<Response>>, network: NetworkAnswer)
      ensures var first := FirstSource(adapter, bootstrap, network);
              var delivers := network.Received? && network.specs.hasUpdates;
              && (forall source, specs ::
                    Loadable(adapter, bootstrap, source, specs) && (specs.time != 0 || !delivers) ==>
                      first == Some(Applied(source, specs)))
              && (delivers && (forall source, specs ::
                      Loadable(adapter, bootstrap, source, specs) ==> specs.time == 0) ==>
                    first == Some(Applied(Network, network.specs)))
              && ((forall source, specs :: !Loadable(adapter, bootstrap, source, specs)) && !delivers ==> first == None)
      ensures ColdStartFails(adapter, bootstrap, network) <==>
                && network.RequestFailed?
                && forall source, specs :: Loadable(adapter, bootstrap, source, specs) ==> specs.time == 0
    {
      var local := LocalSource(adapter, bootstrap);
      if local.Some? {
        assert Loadable(adapter, bootstrap, local.value.source, local.value.specs);
      }
    }

    /** The network is asked, because nothing with a nonzero time was loaded, and fails. */
    static predicate ColdStartFails(
      adapter: Option<AdapterAnswer>, bootstrap: Option<Option<Response>>, network: NetworkAnswer)
    {
      var local := LocalSource(adapter, bootstrap);
      (local.None? || local.value.specs.time == 0) && network.RequestFailed?
    }

    /** `bootstrap` is `None` when no bootstrap values are given, else what they decode to. The network is asked only
        when nothing with a nonzero time was loaded. */
    constructor (adapter: Option<AdapterAnswer>, bootstrap: Option<Option<Response>>, network: NetworkAnswer,
                 interval: nat, outdatedMax: nat)
      ensures Truthful()
      ensures applied == FirstSource(adapter, bootstrap, network)
      ensures initialSyncTime == lastSyncTime
      ensures reports == 0 && syncFailureCount == if ColdStartFails(adapter, bootstrap, network) then 1 else 0
      ensures hasAdapter == adapter.Some? && configSyncInterval == interval && syncOutdatedMax == outdatedMax
    {
      featureGates, dynamicConfigs, layerConfigs := map[], map[], map[];
      experimentToLayer, sdkKeysToAppID, idLists := map[], map[], map[];
      lastSyncTime, initialSyncTime, initReason := 0, 0, Uninitialized;
      syncFailureCount, shutdown, reports := 0, false, 0;
      hasAdapter, configSyncInterval, syncOutdatedMax := adapter.Some?, interval, outdatedMax;
      applied := None;
      new;
      Load(adapter, bootstrap, network);
    }

    method Load(adapter: Option<AdapterAnswer>, bootstrap: Option<Option<Response>>, network: NetworkAnswer)
      requires Truthful() && applied == None && Failures() == Tally(0, 0)
      modifies this
      ensures Truthful()
      ensures applied == FirstSource(adapter, bootstrap, network)
      ensures initialSyncTime == lastSyncTime
      ensures reports == 0 && syncFailureCount == if ColdStartFails(adapter, bootstrap, network) then 1 else 0
    {
      if adapter.Some? {
        FetchConfigSpecsFromAdapter(adapter.value);
      } else if bootstrap.Some? {
        var success := ProcessConfigSpecs(bootstrap.value, Bootstrap);
        if success {
          initReason := Bootstrap;
        }
      }
      assert Truthful() && applied == LocalSource(adapter, bootstrap);
      if lastSyncTime == 0 {
        FetchConfigSpecsFromServer(network, true);
      }
      initialSyncTime := lastSyncTime;
    }

    /** Where a poll goes: to the adapter only when there is one and it wants to be asked. */
    predicate AsksAdapter(poll: Poll) { hasAdapter && poll.adapterWanted }

    /** The response a poll puts in place, if any. */
    function Delivers(poll: Poll): Option<Applied> {
      if AsksAdapter(poll) then
        if Delivered(poll.adapter)
        then Some(Applied(DataAdapter, poll.adapter.decoded.value)) else None
      else if poll.network.Received? && poll.network.specs.hasUpdates then Some(Applied(Network, poll.network.specs))
      else None
    }

    /** What is served after some polls: the last response delivered, or what was served before. */
    function ServedAfter(before: Option<Applied>, polls: seq<Poll>): Option<Applied> {
      if polls == [] then before
      else
        var last := Delivers(polls[|polls| - 1]);
        if last.Some? then last else ServedAfter(before, polls[..|polls| - 1])
    }

    predicate Fails(poll: Poll) { !AsksAdapter(poll) && poll.network.RequestFailed? }

    function FailedOnes(polls: seq<Poll>): seq<bool> {
      seq(|polls|, i requires 0 <= i < |polls| => Fails(polls[i]))
    }

    /** Without an adapter, or with one that is never to be asked, a run of polls serves, names and counts what the
        network answers. */
    lemma {:induction false} PollsOfNetwork(before: Option<Applied>, polls: seq<Poll>)
      requires !hasAdapter || forall poll <- polls :: !poll.adapterWanted
      ensures ServedAfter(before, polls) == LastFromNetwork(before, FromNetwork(polls))
      ensures FailedOnes(polls) == RequestsFailed(FromNetwork(polls))
    {
      if polls != [] {
        var init := polls[..|polls| - 1];
        PollsOfNetwork(before, init);
        assert FromNetwork(polls)[..|init|] == FromNetwork(init);
        assert polls[|init|] in polls;
        assert forall i :: 0 <= i < |polls| ==> polls[i] in polls;
      }
    }

    /** With an adapter that is always to be asked, it does not matter what the network would have answered. */
    lemma {:induction false} PollsOfAdapter(before: Option<Applied>, polls: seq<Poll>)
      requires hasAdapter && forall poll <- polls :: poll.adapterWanted
      ensures ServedAfter(before, polls) == LastFromAdapter(before, FromAdapter(polls))
      ensures CountTrue(FailedOnes(polls)) == 0
    {
      if polls != [] {
        var init := polls[..|polls| - 1];
        PollsOfAdapter(before, init);
        assert FromAdapter(polls)[..|init|] == FromAdapter(init);
        assert FailedOnes(polls)[..|init|] == FailedOnes(init);
        assert polls[|init|] in polls;
      }
    }

    /** One turn of the polling loop. */
    method PollOnce(poll: Poll)
      requires Truthful()
      modifies this
      ensures Truthful()
      ensures applied == if Delivers(poll).Some? then Delivers(poll) else old(applied)
      ensures Delivers(poll).None? ==> SameSpecs()
      ensures Failures() == if Fails(poll) then Failed(old(Failures()), configSyncInterval, syncOutdatedMax)
                            else old(Failures())
      ensures hasAdapter && poll.adapterWanted ==>
                && Failures() == old(Failures())
                && applied == match poll.adapter
                              case Text(Some(specs)) =>
                                if specs.hasUpdates then Some(Applied(DataAdapter, specs)) else old(applied)
                              case _ => old(applied)
      ensures !(hasAdapter && poll.adapterWanted) && poll.network.Received? ==>
                && Failures() == old(Failures())
                && applied == if poll.network.specs.hasUpdates
                              then Some(Applied(Network, poll.network.specs)) else old(applied)
      ensures !(hasAdapter && poll.adapterWanted) && poll.network.RequestFailed? ==>
                && Failures() == Failed(old(Failures()), configSyncInterval, syncOutdatedMax)
                && applied == old(applied)
      ensures unchanged(`initialSyncTime) && unchanged(`idLists) && unchanged(`shutdown)
    {
      if hasAdapter && poll.adapterWanted {
        FetchConfigSpecsFromAdapter(poll.adapter);
      } else {
        FetchConfigSpecsFromServer(poll.network, false);
      }
    }

    /** The polling loop, over any run of polls it makes before it is shut down. */
    method PollForRulesetChanges(polls: seq<Poll>)
      requires Truthful()
      modifies this
      ensures Truthful()
      ensures applied == ServedAfter(old(applied), polls)
      ensures Failures() == Polls(old(Failures()), FailedOnes(polls), configSyncInterval, syncOutdatedMax)
      ensures (!hasAdapter || forall poll <- polls :: !poll.adapterWanted) ==>
                && applied == LastFromNetwork(old(applied), FromNetwork(polls))
                && Failures() == Polls(old(Failures()), RequestsFailed(FromNetwork(polls)), configSyncInterval,
                                       syncOutdatedMax)
      ensures hasAdapter && (forall poll <- polls :: poll.adapterWanted) ==>
                applied == LastFromAdapter(old(applied), FromAdapter(polls)) && Failures() == old(Failures())
      ensures unchanged(`initialSyncTime) && unchanged(`idLists) && unchanged(`shutdown)
    {
      for i := 0 to |polls|
        invariant Truthful()
        invariant applied == ServedAfter(old(applied), polls[..i])
        invariant Failures() == Polls(old(Failures()), FailedOnes(polls[..i]), configSyncInterval, syncOutdatedMax)
        invariant unchanged(`initialSyncTime) && unchanged(`idLists) && unchanged(`shutdown)
      {
        ghost var done, all := polls[..i], polls[..i + 1];
        assert all[..i] == done && all[i] == polls[i];
        assert FailedOnes(all)[..i] == FailedOnes(done);
        PollOnce(polls[i]);
      }
      assert polls[..|polls|] == polls;
      if !hasAdapter || forall poll <- polls :: !poll.adapterWanted {
        PollsOfNetwork(old(applied), polls);
      } else if forall poll <- polls :: poll.adapterWanted {
        PollsOfAdapter(old(applied), polls);
        SuccessesDoNotCount(old(Failures()), FailedOnes(polls), configSyncInterval, syncOutdatedMax);
      }
    }
  }
}
