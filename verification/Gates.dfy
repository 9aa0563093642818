/**
  Deployment gates: the verdict on one benchmark result, and the worst state of several verdicts.
 */
module Gates {
  import opened Subsequences
  import opened Means
  import opened TrialStatuses

  /** Canonical metric names; raw names are interned, and what each is canonically is a parameter. */
  datatype Key = Hir | Csr | SideEffectAccuracy | Recovery | FleetIsolation | JitterRatio | Overrun | Named(id: int)

  datatype Metric = Metric(name: int, value: real)

  /** An error of 0 is no message. */
  datatype Trial = Trial(scenario: int, status: TrialStatus, metrics: seq<Metric>, error: int)

  datatype Result = Result(benchmark: int, trials: seq<Trial>, aggregates: seq<Metric>)

  datatype Scenario = Scenario(id: int, diagnostic: bool)

  datatype Manifest =
    Manifest(scenarios: seq<Scenario>, metrics: seq<int>, gates: seq<(int, real)>, required: bool)

  datatype GateStatus = Ready | Conditional | Blocked

  datatype Detail =
    | TrialsUnavailable(required: bool, count: nat, reasons: seq<int>)
    | TrialsFailed(required: bool, count: nat)
    | NoEligibleTrials
    | NoSuccessfulTrials
    | NotReported(key: Key)
    | NotMet(key: Key, actual: real, threshold: real)
    | AllPassed
    | NoGateResults

  /** Thresholds keep the order in which they were declared. */
  type Thresholds = seq<(Key, real)>

  datatype GateResult =
    GateResult(status: GateStatus, benchmarks: seq<int>, details: seq<Detail>, thresholds: Thresholds, actuals: Thresholds)

  type Canonical = int -> Key

  // ---------- Thresholds ----------

  const DEFAULT_THRESHOLDS: Thresholds := [
    (Hir, 1.0), (Csr, 0.99), (SideEffectAccuracy, 1.0), (Recovery, 0.98), (FleetIsolation, 1.0),
    (JitterRatio, 0.10), (Overrun, 0.01)
  ]

  /** A later value replaces an earlier one in place. */
  function Put(ts: Thresholds, key: Key, value: real): Thresholds {
    if ts == [] then [(key, value)]
    else if ts[0].0 == key then [(key, value)] + ts[1..]
    else [ts[0]] + Put(ts[1..], key, value)
  }

  function PutAll(ts: Thresholds, canon: Canonical, entries: seq<(int, real)>): Thresholds
    decreases |entries|
  {
    if entries == [] then ts else PutAll(Put(ts, canon(entries[0].0), entries[0].1), canon, entries[1..])
  }

  predicate IsDeclared(canon: Canonical, metrics: seq<int>, key: Key) {
    exists m :: m in metrics && canon(m) == key
  }

  function Declared(ts: Thresholds, canon: Canonical, metrics: seq<int>): Thresholds {
    if ts == [] then []
    else (if IsDeclared(canon, metrics, ts[0].0) then [ts[0]] else []) + Declared(ts[1..], canon, metrics)
  }

  /** The defaults the manifest declares, then its own gates, then the overrides. */
  function Effective(canon: Canonical, manifest: Option<Manifest>, overrides: seq<(int, real)>): Thresholds {
    var base := match manifest
                case None => DEFAULT_THRESHOLDS
                case Some(m) => PutAll(Declared(DEFAULT_THRESHOLDS, canon, m.metrics), canon, m.gates);
    PutAll(base, canon, overrides)
  }

  function Find(ts: Thresholds, key: Key): Option<real> {
    if ts == [] then None else if ts[0].0 == key then Some(ts[0].1) else Find(ts[1..], key)
  }

  /** The last override for a key. */
  function LastFor(canon: Canonical, entries: seq<(int, real)>, key: Key): Option<real>
    decreases |entries|
  {
    if entries == [] then None
    else
      var later := LastFor(canon, entries[1..], key);
      if later.Some? then later else if canon(entries[0].0) == key then Some(entries[0].1) else None
  }

  lemma {:induction false} FindPut(ts: Thresholds, key: Key, value: real, other: Key)
    ensures Find(Put(ts, key, value), other) == if other == key then Some(value) else Find(ts, other)
  {
    if ts != [] && ts[0].0 != key {
      FindPut(ts[1..], key, value, other);
      assert Put(ts, key, value)[1..] == Put(ts[1..], key, value);
    }
  }

  lemma {:induction false} FindPutAll(ts: Thresholds, canon: Canonical, entries: seq<(int, real)>, key: Key)
    ensures Find(PutAll(ts, canon, entries), key)
            == if LastFor(canon, entries, key).Some? then LastFor(canon, entries, key) else Find(ts, key)
    decreases |entries|
  {
    if entries != [] {
      FindPut(ts, canon(entries[0].0), entries[0].1, key);
      FindPutAll(Put(ts, canon(entries[0].0), entries[0].1), canon, entries[1..], key);
    }
  }

  lemma {:induction false} FindDeclared(ts: Thresholds, canon: Canonical, metrics: seq<int>, key: Key)
    ensures Find(Declared(ts, canon, metrics), key)
            == if IsDeclared(canon, metrics, key) then Find(ts, key) else None
  {
    if ts != [] {
      var rest := Declared(ts[1..], canon, metrics);
      FindDeclared(ts[1..], canon, metrics, key);
      if IsDeclared(canon, metrics, ts[0].0) {
        assert ([ts[0]] + rest)[1..] == rest;
      } else {
        assert Declared(ts, canon, metrics) == rest;
      }
    }
  }

  /** Which threshold is in force for a metric: the override, else the manifest's gate, else a default it declares. */
  lemma EffectiveThreshold(canon: Canonical, manifest: Option<Manifest>, overrides: seq<(int, real)>, key: Key)
    ensures Find(Effective(canon, manifest, overrides), key)
            == if LastFor(canon, overrides, key).Some? then LastFor(canon, overrides, key)
               else if manifest.None? then Find(DEFAULT_THRESHOLDS, key)
               else if LastFor(canon, manifest.value.gates, key).Some? then LastFor(canon, manifest.value.gates, key)
               else if IsDeclared(canon, manifest.value.metrics, key) then Find(DEFAULT_THRESHOLDS, key)
               else None
  {
    if manifest.None? {
      FindPutAll(DEFAULT_THRESHOLDS, canon, overrides, key);
    } else {
      var m := manifest.value;
      var declared := Declared(DEFAULT_THRESHOLDS, canon, m.metrics);
      FindDeclared(DEFAULT_THRESHOLDS, canon, m.metrics, key);
      FindPutAll(declared, canon, m.gates, key);
      FindPutAll(PutAll(declared, canon, m.gates), canon, overrides, key);
    }
  }

  // ---------- Eligible trials and actual values ----------

  predicate IsDiagnostic(manifest: Option<Manifest>, scenario: int) {
    manifest.Some? && exists s :: s in manifest.value.scenarios && s.id == scenario && s.diagnostic
  }

  function Eligible(manifest: Option<Manifest>, trials: seq<Trial>): (eligible: seq<Trial>) {
    if trials == [] then []
    else (if IsDiagnostic(manifest, trials[0].scenario) then [] else [trials[0]]) + Eligible(manifest, trials[1..])
  }

  /** The values reported for a key, in order. */
  function Values(canon: Canonical, metrics: seq<Metric>, key: Key): seq<real> {
    if metrics == [] then []
    else (if canon(metrics[0].name) == key then [metrics[0].value] else []) + Values(canon, metrics[1..], key)
  }

  function TrialMetrics(trials: seq<Trial>): seq<Metric> {
    if trials == [] then [] else trials[0].metrics + TrialMetrics(trials[1..])
  }

  /** The actual value of a metric: the last aggregate, if all trials count, else the mean over the trials that do. */
  function Actual(canon: Canonical, eligible: seq<Trial>, aggregates: seq<Metric>, key: Key): Option<real> {
    var totals, values := Values(canon, aggregates, key), Values(canon, TrialMetrics(eligible), key);
    if totals != [] then Some(totals[|totals| - 1])
    else if values != [] then Some(Mean(values)) else None
  }

  /** Aggregates may cover diagnostic trials, so they count only if there are none. */
  function Trusted(result: Result, eligible: seq<Trial>): seq<Metric> {
    if |eligible| == |result.trials| then result.aggregates else []
  }

  lemma {:induction false} ValuesConcat(canon: Canonical, a: seq<Metric>, b: seq<Metric>, key: Key)
    ensures Values(canon, a + b, key) == Values(canon, a, key) + Values(canon, b, key)
  {
    if a == [] {
      assert a + b == b;
    } else {
      ValuesConcat(canon, a[1..], b, key);
      assert (a + b)[1..] == a[1..] + b;
      Regroup(if canon(a[0].name) == key then [a[0].value] else [], Values(canon, a[1..], key), Values(canon, b, key));
    }
  }

  lemma ValuesOfOne(canon: Canonical, metric: Metric, key: Key)
    ensures Values(canon, [metric], key) == if canon(metric.name) == key then [metric.value] else []
  {
  }

  lemma {:induction false} Extremes(values: seq<real>) returns (low: real, high: real)
    requires values != []
    ensures low in values && high in values && forall v :: v in values ==> low <= v <= high
  {
    low, high := values[0], values[0];
    if |values| > 1 {
      low, high := Extremes(values[1..]);
      if values[0] < low { low := values[0]; }
      if values[0] > high { high := values[0]; }
      assert forall v :: v in values ==> v == values[0] || v in values[1..];
    } else {
      assert values == [values[0]];
    }
  }

  /** Without an aggregate to go by, the actual value is between two of the values the eligible trials report. */
  lemma ActualIsBetween(canon: Canonical, eligible: seq<Trial>, aggregates: seq<Metric>, key: Key)
    requires Values(canon, aggregates, key) == [] && Values(canon, TrialMetrics(eligible), key) != []
    ensures var values, actual := Values(canon, TrialMetrics(eligible), key), Actual(canon, eligible, aggregates, key);
            actual.Some? && exists low, high :: low in values && high in values && low <= actual.value <= high
  {
    var values := Values(canon, TrialMetrics(eligible), key);
    var low, high := Extremes(values);
    MeanBetween(values, low, high);
  }

  lemma {:induction false} MetricsConcat(a: seq<Trial>, b: seq<Trial>)
    ensures TrialMetrics(a + b) == TrialMetrics(a) + TrialMetrics(b)
  {
    if a == [] {
      assert a + b == b;
    } else {
      MetricsConcat(a[1..], b);
      assert (a + b)[1..] == a[1..] + b;
      Regroup(a[0].metrics, TrialMetrics(a[1..]), TrialMetrics(b));
    }
  }

  ghost predicate HoldsValues(canon: Canonical, buckets: map<Key, seq<real>>, metrics: seq<Metric>) {
    forall key :: if key in buckets then buckets[key] == Values(canon, metrics, key) && buckets[key] != []
                  else Values(canon, metrics, key) == []
  }

  method AddToBucket(canon: Canonical, buckets: map<Key, seq<real>>, ghost before: seq<Metric>, metric: Metric)
      returns (buckets': map<Key, seq<real>>)
    requires HoldsValues(canon, buckets, before)
    ensures HoldsValues(canon, buckets', before + [metric])
  {
    var key := canon(metric.name);
    buckets' := buckets[key := (if key in buckets then buckets[key] else []) + [metric.value]];
    forall k ensures Values(canon, before + [metric], k) == Values(canon, before, k) + if k == key then [metric.value] else [] {
      ValuesConcat(canon, before, [metric], k);
    }
  }

  method FillBuckets(canon: Canonical, eligible: seq<Trial>) returns (buckets: map<Key, seq<real>>)
    ensures HoldsValues(canon, buckets, TrialMetrics(eligible))
  {
    buckets := map[];
    for t := 0 to |eligible|
      invariant HoldsValues(canon, buckets, TrialMetrics(eligible[..t]))
    {
      var metrics := eligible[t].metrics;
      ghost var before := TrialMetrics(eligible[..t]);
      assert before + metrics[..0] == before;
      for m := 0 to |metrics|
        invariant HoldsValues(canon, buckets, before + metrics[..m])
      {
        assert before + metrics[..m + 1] == before + metrics[..m] + [metrics[m]];
        buckets := AddToBucket(canon, buckets, before + metrics[..m], metrics[m]);
      }
      assert metrics[..|metrics|] == metrics;
      OneMoreTrial(eligible, t);
    }
    assert eligible[..|eligible|] == eligible;
  }

  lemma OneMoreTrial(trials: seq<Trial>, t: nat)
    requires t < |trials|
    ensures TrialMetrics(trials[..t + 1]) == TrialMetrics(trials[..t]) + trials[t].metrics
  {
    assert trials[..t + 1] == trials[..t] + [trials[t]];
    MetricsConcat(trials[..t], [trials[t]]);
    assert TrialMetrics([trials[t]]) == trials[t].metrics;
  }

  ghost predicate HoldsActuals(canon: Canonical, actuals: map<Key, real>, eligible: seq<Trial>, aggregates: seq<Metric>) {
    forall key :: (if key in actuals then Some(actuals[key]) else None) == Actual(canon, eligible, aggregates, key)
  }

  lemma OneMoreAggregate(canon: Canonical, actuals: map<Key, real>, eligible: seq<Trial>, before: seq<Metric>, metric: Metric)
    requires HoldsActuals(canon, actuals, eligible, before)
    ensures HoldsActuals(canon, actuals[canon(metric.name) := metric.value], eligible, before + [metric])
  {
    forall key ensures Actual(canon, eligible, before + [metric], key)
                       == if key == canon(metric.name) then Some(metric.value) else Actual(canon, eligible, before, key)
    {
      ActualWithMore(canon, eligible, before, metric, key);
    }
  }

  /** The last aggregate of a key is the one that counts. */
  lemma ActualWithMore(canon: Canonical, eligible: seq<Trial>, before: seq<Metric>, metric: Metric, key: Key)
    ensures Actual(canon, eligible, before + [metric], key)
            == if key == canon(metric.name) then Some(metric.value) else Actual(canon, eligible, before, key)
  {
    ValuesConcat(canon, before, [metric], key);
    assert Values(canon, [metric], key) == if key == canon(metric.name) then [metric.value] else [];
  }

  method CollectActuals(canon: Canonical, result: Result, eligible: seq<Trial>) returns (actuals: map<Key, real>)
    ensures HoldsActuals(canon, actuals, eligible, Trusted(result, eligible))
  {
    var buckets := FillBuckets(canon, eligible);
    actuals := map key | key in buckets :: Mean(buckets[key]);
    assert HoldsActuals(canon, actuals, eligible, []);
    if |eligible| == |result.trials| {
      var aggregates := result.aggregates;
      for m := 0 to |aggregates|
        invariant HoldsActuals(canon, actuals, eligible, aggregates[..m])
      {
        OneMoreAggregate(canon, actuals, eligible, aggregates[..m], aggregates[m]);
        assert aggregates[..m + 1] == aggregates[..m] + [aggregates[m]];
        actuals := actuals[canon(aggregates[m].name) := aggregates[m].value];
      }
      assert aggregates[..|aggregates|] == aggregates;
    }
  }

  // ---------- The verdict ----------

  predicate LowerIsBetter(key: Key) {
    key == JitterRatio || key == Overrun
  }

  predicate Meets(key: Key, actual: real, threshold: real) {
    if LowerIsBetter(key) then actual <= threshold else actual >= threshold
  }

  type Lookup = Key -> Option<real>

  function Count(p: TrialStatus -> bool, trials: seq<Trial>): nat {
    if trials == [] then 0 else (if p(trials[0].status) then 1 else 0) + Count(p, trials[1..])
  }

  lemma {:induction false} CountNone(p: TrialStatus -> bool, trials: seq<Trial>)
    ensures Count(p, trials) == 0 <==> forall t :: t in trials ==> !p(t.status)
  {
    if trials != [] {
      CountNone(p, trials[1..]);
      assert trials[0] in trials;
    }
  }

  /** The error messages of unavailable trials, each once, in order of first appearance. */
  function Reasons(trials: seq<Trial>): seq<int> {
    if trials == [] then []
    else
      var n := |trials| - 1;
      var reasons := Reasons(trials[..n]);
      if trials[n].status == Unavailable && trials[n].error != 0 && trials[n].error !in reasons
      then reasons + [trials[n].error] else reasons
  }

  const UNAVAILABLE: TrialStatus -> bool := s => s == Unavailable
  const FAILURE: TrialStatus -> bool := s => CountsAsFailure(s)
  const SUCCESS: TrialStatus -> bool := s => IsSuccess(s)

  /** The verdict before metrics are looked at. */
  function TrialVerdict(required: bool, trials: seq<Trial>): (GateStatus, seq<Detail>) {
    var unavailable, failed := Count(UNAVAILABLE, trials), Count(FAILURE, trials);
    (if unavailable == 0 && failed == 0 then Ready else if required then Blocked else Conditional,
     (if unavailable > 0 then [TrialsUnavailable(required, unavailable, Reasons(trials))] else [])
     + (if failed > 0 then [TrialsFailed(required, failed)] else []))
  }

  datatype Checked = Checked(status: GateStatus, details: seq<Detail>, actuals: Thresholds)

  /** One threshold after the other. */
  function CheckMetrics(c: Checked, ts: Thresholds, actual: Lookup): Checked
    decreases |ts|
  {
    if ts == [] then c else CheckMetrics(CheckMetric(c, ts[0].0, ts[0].1, actual(ts[0].0)), ts[1..], actual)
  }

  function CheckMetric(c: Checked, key: Key, threshold: real, actual: Option<real>): Checked {
    if actual.None? then Checked(if c.status == Ready then Conditional else c.status, c.details + [NotReported(key)], c.actuals)
    else if Meets(key, actual.value, threshold) then c.(actuals := c.actuals + [(key, actual.value)])
    else Checked(Blocked, c.details + [NotMet(key, actual.value, threshold)], c.actuals + [(key, actual.value)])
  }

  /** The gate, as a function of what it may depend on. */
  function Gate(benchmark: int, required: bool, effective: Thresholds, trials: seq<Trial>, actual: Lookup): GateResult {
    var (status, details) := TrialVerdict(required, trials);
    if trials == [] then
      GateResult(if required then Blocked else Conditional, [benchmark], details + [NoEligibleTrials], effective, [])
    else if Count(SUCCESS, trials) == 0 then
      if status == Ready then GateResult(Conditional, [benchmark], details + [NoSuccessfulTrials], effective, [])
      else GateResult(status, [benchmark], details, effective, [])
    else
      var c := CheckMetrics(Checked(status, details, []), effective, actual);
      GateResult(c.status, [benchmark], if c.details == [] && c.status == Ready then [AllPassed] else c.details, effective,
                 c.actuals)
  }

  function ActualLookup(canon: Canonical, result: Result, eligible: seq<Trial>): Lookup {
    key => Actual(canon, eligible, Trusted(result, eligible), key)
  }

  function Evaluated(canon: Canonical, result: Result, manifest: Option<Manifest>, overrides: seq<(int, real)>): GateResult {
    var eligible := Eligible(manifest, result.trials);
    Gate(result.benchmark, manifest.Some? && manifest.value.required, Effective(canon, manifest, overrides), eligible,
         ActualLookup(canon, result, eligible))
  }

  lemma {:induction false} CheckMetricsDependsOnValues(c: Checked, ts: Thresholds, a: Lookup, b: Lookup)
    requires forall key :: a(key) == b(key)
    ensures CheckMetrics(c, ts, a) == CheckMetrics(c, ts, b)
    decreases |ts|
  {
    if ts != [] { CheckMetricsDependsOnValues(CheckMetric(c, ts[0].0, ts[0].1, a(ts[0].0)), ts[1..], a, b); }
  }

  /** Goes through the thresholds in their order. */
  method CheckAll(ghost actual: Lookup, actuals: map<Key, real>, effective: Thresholds, start: Checked) returns (c: Checked)
    requires forall key :: (if key in actuals then Some(actuals[key]) else None) == actual(key)
    ensures c == CheckMetrics(start, effective, actual)
  {
    var status, details, checked := start.status, start.details, start.actuals;
    for k := 0 to |effective|
      invariant CheckMetrics(start, effective, actual)
                == CheckMetrics(Checked(status, details, checked), effective[k..], actual)
    {
      assert effective[k..][1..] == effective[k + 1..];
      var (name, threshold) := effective[k];
      if name !in actuals {
        if status == Ready {
          status := Conditional;
        }
        details := details + [NotReported(name)];
        continue;
      }
      checked := checked + [(name, actuals[name])];
      if !Meets(name, actuals[name], threshold) {
        status := Blocked;
        details := details + [NotMet(name, actuals[name], threshold)];
      }
    }
    c := Checked(status, details, checked);
  }

  /** Unavailable and failing trials block a required benchmark and condition an optional one. */
  method JudgeTrials(required: bool, trials: seq<Trial>) returns (status: GateStatus, details: seq<Detail>)
    ensures (status, details) == TrialVerdict(required, trials)
  {
    status, details := Ready, [];
    var unavailable := Count(UNAVAILABLE, trials);
    if unavailable > 0 {
      status := if required then Blocked else Conditional;
      details := details + [TrialsUnavailable(required, unavailable, Reasons(trials))];
    }
    var failures := Count(FAILURE, trials);
    if failures > 0 {
      if required {
        status := Blocked;
        details := details + [TrialsFailed(required, failures)];
      } else if status != Blocked {
        status := Conditional;
        details := details + [TrialsFailed(required, failures)];
      }
    }
    assert details == TrialVerdict(required, trials).1;
  }

  method JudgeResult(canon: Canonical, result: Result, required: bool, effective: Thresholds, trials: seq<Trial>)
      returns (r: GateResult)
    ensures r == Gate(result.benchmark, required, effective, trials, ActualLookup(canon, result, trials))
  {
    var status, details := JudgeTrials(required, trials);
    if trials == [] {
      return GateResult(if required then Blocked else Conditional, [result.benchmark], details + [NoEligibleTrials], effective, []);
    }
    if Count(SUCCESS, trials) == 0 {
      if status == Ready {
        status := Conditional;
        details := details + [NoSuccessfulTrials];
      }
      return GateResult(status, [result.benchmark], details, effective, []);
    }
    var actuals := CollectActuals(canon, result, trials);
    var checked := CheckAll(ActualLookup(canon, result, trials), actuals, effective, Checked(status, details, []));
    status, details := checked.status, checked.details;
    if details == [] && status == Ready {
      details := details + [AllPassed];
    }
    return GateResult(status, [result.benchmark], details, effective, checked.actuals);
  }

  method EvaluateGate(canon: Canonical, result: Result, manifest: Option<Manifest>, overrides: seq<(int, real)>)
      returns (r: GateResult)
    ensures r == Evaluated(canon, result, manifest, overrides)
  {
    var effective := Effective(canon, manifest, overrides);
    var required := manifest.Some? && manifest.value.required;
    r := JudgeResult(canon, result, required, effective, Eligible(manifest, result.trials));
  }

  // ---------- What the verdict means ----------

  ghost predicate AllMet(ts: Thresholds, actual: Lookup) {
    forall t :: t in ts ==> actual(t.0).Some? && Meets(t.0, actual(t.0).value, t.1)
  }

  ghost predicate SomeMissed(ts: Thresholds, actual: Lookup) {
    exists t :: t in ts && actual(t.0).Some? && !Meets(t.0, actual(t.0).value, t.1)
  }

  lemma {:induction false} CheckMetricsVerdict(c: Checked, ts: Thresholds, actual: Lookup)
    ensures var r := CheckMetrics(c, ts, actual);
            && (r.status == Ready <==> c.status == Ready && AllMet(ts, actual))
            && (r.status == Blocked <==> c.status == Blocked || SomeMissed(ts, actual))
    decreases |ts|
  {
    if ts != [] {
      var next := CheckMetric(c, ts[0].0, ts[0].1, actual(ts[0].0));
      CheckMetricsVerdict(next, ts[1..], actual);
      assert forall t :: t in ts <==> t == ts[0] || t in ts[1..];
    }
  }

  /** When a gate is ready, and when it is blocked. */
  lemma GateVerdict(benchmark: int, required: bool, effective: Thresholds, trials: seq<Trial>, actual: Lookup)
    ensures var status := Gate(benchmark, required, effective, trials, actual).status;
            var sound := forall t :: t in trials ==> t.status != Unavailable && !CountsAsFailure(t.status);
            var succeeded := exists t :: t in trials && t.status == Passed;
            && (status == Ready <==> sound && succeeded && AllMet(effective, actual))
            && (status == Blocked <==> (required && (trials == [] || !sound)) || (succeeded && SomeMissed(effective, actual)))
  {
    var (status, details) := TrialVerdict(required, trials);
    CountNone(UNAVAILABLE, trials);
    CountNone(FAILURE, trials);
    CountNone(SUCCESS, trials);
    CheckMetricsVerdict(Checked(status, details, []), effective, actual);
  }

  /** An aggregate that is trusted decides: the last one of its key. */
  lemma TrustedAggregateDecides(canon: Canonical, result: Result, manifest: Option<Manifest>, metric: Metric, before: seq<Metric>, after: seq<Metric>)
    requires forall t :: t in result.trials ==> !IsDiagnostic(manifest, t.scenario)
    requires result.aggregates == before + [metric] + after && forall m :: m in after ==> canon(m.name) != canon(metric.name)
    ensures var eligible := Eligible(manifest, result.trials);
            Actual(canon, eligible, Trusted(result, eligible), canon(metric.name)) == Some(metric.value)
  {
    var key := canon(metric.name);
    EligibleSpec(manifest, result.trials);
    NoneOfKey(canon, after, key);
    ValuesConcat(canon, before + [metric], after, key);
    ValuesConcat(canon, before, [metric], key);
    ValuesOfOne(canon, metric, key);
  }

  lemma {:induction false} NoneOfKey(canon: Canonical, metrics: seq<Metric>, key: Key)
    requires forall m :: m in metrics ==> canon(m.name) != key
    ensures Values(canon, metrics, key) == []
  {
    if metrics != [] {
      assert metrics[0] in metrics;
      NoneOfKey(canon, metrics[1..], key);
    }
  }

  /** Which values meet a threshold: for jitter and overrun those up to it, for everything else those from it on. */
  lemma MeetsIff(key: Key, actual: real, threshold: real)
    ensures key in {JitterRatio, Overrun} ==> (Meets(key, actual, threshold) <==> !(actual > threshold))
    ensures key !in {JitterRatio, Overrun} ==> (Meets(key, actual, threshold) <==> !(actual < threshold))
  {
  }

  /** The value is on the wrong side of the threshold. */
  predicate Misses(key: Key, value: real, threshold: real) {
    if key in {JitterRatio, Overrun} then value > threshold else value < threshold
  }

  /** A run with a success whose eligible values of one metric all miss its threshold is blocked. */
  lemma AllMissedIsBlocked(canon: Canonical, result: Result, manifest: Option<Manifest>, overrides: seq<(int, real)>,
      key: Key, threshold: real)
    requires var eligible := Eligible(manifest, result.trials);
             var values := Values(canon, TrialMetrics(eligible), key);
             && (exists t :: t in eligible && t.status == Passed)
             && Values(canon, Trusted(result, eligible), key) == []
             && values != [] && (forall v :: v in values ==> Misses(key, v, threshold))
    requires (key, threshold) in Effective(canon, manifest, overrides)
    ensures Evaluated(canon, result, manifest, overrides).status == Blocked
  {
    var eligible, effective := Eligible(manifest, result.trials), Effective(canon, manifest, overrides);
    var required, actual := manifest.Some? && manifest.value.required, ActualLookup(canon, result, eligible);
    ActualIsBetween(canon, eligible, Trusted(result, eligible), key);
    MeetsIff(key, actual(key).value, threshold);
    assert SomeMissed(effective, actual);
    GateVerdict(result.benchmark, required, effective, eligible, actual);
  }

  /** The verdict on a result, from its eligible trials and its effective thresholds; only a manifest can require. */
  lemma EvaluatedVerdict(canon: Canonical, result: Result, manifest: Option<Manifest>, overrides: seq<(int, real)>)
    ensures var r := Evaluated(canon, result, manifest, overrides);
            var eligible, effective := Eligible(manifest, result.trials), Effective(canon, manifest, overrides);
            var actual := ActualLookup(canon, result, eligible);
            var sound := forall t :: t in eligible ==> t.status != Unavailable && !CountsAsFailure(t.status);
            var succeeded := exists t :: t in eligible && t.status == Passed;
            && r.thresholds == effective && r.benchmarks == [result.benchmark]
            && (r.status == Ready <==> sound && succeeded && AllMet(effective, actual))
            && (r.status == Blocked <==>
                  || (manifest.Some? && manifest.value.required && (eligible == [] || !sound))
                  || (succeeded && SomeMissed(effective, actual)))
  {
    var eligible := Eligible(manifest, result.trials);
    GateVerdict(result.benchmark, manifest.Some? && manifest.value.required, Effective(canon, manifest, overrides), eligible,
                ActualLookup(canon, result, eligible));
  }

  /** If they all reach it, the metric does not block. */
  lemma AllReachedIsMet(canon: Canonical, eligible: seq<Trial>, aggregates: seq<Metric>, key: Key, threshold: real)
    requires var values := Values(canon, TrialMetrics(eligible), key);
             values != [] && Values(canon, aggregates, key) == [] && forall v :: v in values ==> !Misses(key, v, threshold)
    ensures var actual := Actual(canon, eligible, aggregates, key);
            actual.Some? && Meets(key, actual.value, threshold)
  {
    ActualIsBetween(canon, eligible, aggregates, key);
    MeetsIff(key, Actual(canon, eligible, aggregates, key).value, threshold);
  }

  // ---------- What the details say ----------

  lemma {:induction false} CountConcat(p: TrialStatus -> bool, a: seq<Trial>, b: seq<Trial>)
    ensures Count(p, a + b) == Count(p, a) + Count(p, b)
  {
    if a == [] {
      assert a + b == b;
    } else {
      CountConcat(p, a[1..], b);
      assert (a + b)[1..] == a[1..] + b;
    }
  }

  /** The messages of the unavailable trials, none twice, none empty, in the order in which they first appear. */
  lemma {:induction false} ReasonsSpec(trials: seq<Trial>)
    ensures forall i, j :: 0 <= i < j < |Reasons(trials)| ==> Reasons(trials)[i] != Reasons(trials)[j]
    ensures forall e :: e in Reasons(trials) <==> e != 0 && exists t :: t in trials && t.status == Unavailable && t.error == e
    ensures trials != [] ==> Reasons(trials[..|trials| - 1]) <= Reasons(trials)
  {
    if trials != [] {
      var n := |trials| - 1;
      ReasonsSpec(trials[..n]);
      assert trials == trials[..n] + [trials[n]];
    }
  }

  /** Each metric that is not reported, or that is missed, is named in the details, and only those; reported values are listed. */
  lemma {:induction false} CheckMetricsDetails(c: Checked, ts: Thresholds, actual: Lookup, key: Key, value: real, threshold: real)
    ensures var r := CheckMetrics(c, ts, actual);
            && (NotReported(key) in r.details <==>
                  NotReported(key) in c.details || (actual(key).None? && exists t :: t in ts && t.0 == key))
            && (NotMet(key, value, threshold) in r.details <==>
                  NotMet(key, value, threshold) in c.details
                  || ((key, threshold) in ts && actual(key) == Some(value) && !Meets(key, value, threshold)))
            && ((key, value) in r.actuals <==>
                  (key, value) in c.actuals || (actual(key) == Some(value) && exists t :: t in ts && t.0 == key))
    decreases |ts|
  {
    if ts != [] {
      var next := CheckMetric(c, ts[0].0, ts[0].1, actual(ts[0].0));
      CheckMetricsDetails(next, ts[1..], actual, key, value, threshold);
      assert forall t :: t in ts <==> t == ts[0] || t in ts[1..];
    }
  }

  lemma {:induction false} EligibleSpec(manifest: Option<Manifest>, trials: seq<Trial>)
    ensures |Eligible(manifest, trials)| <= |trials|
    ensures |Eligible(manifest, trials)| == |trials| <==> forall t :: t in trials ==> !IsDiagnostic(manifest, t.scenario)
    ensures forall t :: t in Eligible(manifest, trials) <==> t in trials && !IsDiagnostic(manifest, t.scenario)
  {
    if trials != [] {
      EligibleSpec(manifest, trials[1..]);
      assert forall t :: t in trials <==> t == trials[0] || t in trials[1..];
    }
  }

  /**
    Results that agree on the trials that count, and both have a diagnostic one, get the same gate:
    neither diagnostic trials nor aggregates interfere.
   */
  lemma DiagnosticsDoNotInterfere(canon: Canonical, a: Result, b: Result, manifest: Option<Manifest>, overrides: seq<(int, real)>)
    requires a.benchmark == b.benchmark && Eligible(manifest, a.trials) == Eligible(manifest, b.trials)
    requires exists t :: t in a.trials && IsDiagnostic(manifest, t.scenario)
    requires exists t :: t in b.trials && IsDiagnostic(manifest, t.scenario)
    ensures Evaluated(canon, a, manifest, overrides) == Evaluated(canon, b, manifest, overrides)
  {
    var eligible := Eligible(manifest, a.trials);
    EligibleSpec(manifest, a.trials);
    EligibleSpec(manifest, b.trials);
    var x, y := ActualLookup(canon, a, eligible), ActualLookup(canon, b, eligible);
    var (status, details) := TrialVerdict(manifest.Some? && manifest.value.required, eligible);
    CheckMetricsDependsOnValues(Checked(status, details, []), Effective(canon, manifest, overrides), x, y);
  }

  // ---------- Combining ----------

  function Join(a: GateStatus, b: GateStatus): GateStatus {
    if a == Blocked || b == Blocked then Blocked else if a == Conditional || b == Conditional then Conditional else Ready
  }

  function BenchmarkIds(gates: seq<GateResult>): seq<int> {
    if gates == [] then [] else gates[0].benchmarks + BenchmarkIds(gates[1..])
  }

  function AllDetails(gates: seq<GateResult>): seq<Detail> {
    if gates == [] then [] else gates[0].details + AllDetails(gates[1..])
  }

  function Combine(gates: seq<GateResult>): GateResult {
    if gates == [] then GateResult(Conditional, [], [NoGateResults], [], [])
    else
      GateResult(if exists g :: g in gates && g.status == Blocked then Blocked
                 else if exists g :: g in gates && g.status == Conditional then Conditional
                 else Ready, BenchmarkIds(gates), AllDetails(gates), [], [])
  }

  /** Combined, one blocked gate blocks, one conditional gate conditions, and otherwise all are ready. */
  lemma CombineSpec(gates: seq<GateResult>)
    requires gates != []
    ensures Combine(gates).status == Blocked <==> exists g :: g in gates && g.status == Blocked
    ensures Combine(gates).status == Ready <==> forall g :: g in gates ==> g.status == Ready
  {
    if forall g :: g in gates ==> g.status == Ready { assert gates[0].status == Ready; }
  }

  /** A single gate keeps its state, its details and its name. */
  lemma CombineOne(gate: GateResult)
    ensures var r := Combine([gate]);
            r.status == gate.status && r.details == gate.details && r.benchmarks == gate.benchmarks
  {
    CombineSpec([gate]);
    assert gate in [gate] && [gate][1..] == [];
    assert AllDetails([gate]) == gate.details + AllDetails([]) && BenchmarkIds([gate]) == gate.benchmarks + BenchmarkIds([]);
  }

  lemma {:induction false} IdsConcat(a: seq<GateResult>, b: seq<GateResult>)
    ensures BenchmarkIds(a + b) == BenchmarkIds(a) + BenchmarkIds(b)
  {
    if a == [] {
      assert a + b == b;
    } else {
      IdsConcat(a[1..], b);
      assert (a + b)[1..] == a[1..] + b;
      Regroup(a[0].benchmarks, BenchmarkIds(a[1..]), BenchmarkIds(b));
    }
  }

  lemma {:induction false} DetailsConcat(a: seq<GateResult>, b: seq<GateResult>)
    ensures AllDetails(a + b) == AllDetails(a) + AllDetails(b)
  {
    if a == [] {
      assert a + b == b;
    } else {
      DetailsConcat(a[1..], b);
      assert (a + b)[1..] == a[1..] + b;
      Regroup(a[0].details, AllDetails(a[1..]), AllDetails(b));
    }
  }

  /** Combining is the worst-state join over concatenation of non-empty lists. */
  lemma CombineIsJoin(a: seq<GateResult>, b: seq<GateResult>)
    requires a != [] && b != []
    ensures var ab := Combine(a + b);
            && ab.status == Join(Combine(a).status, Combine(b).status)
            && ab.details == Combine(a).details + Combine(b).details
            && ab.benchmarks == Combine(a).benchmarks + Combine(b).benchmarks
  {
    IdsConcat(a, b);
    DetailsConcat(a, b);
    assert forall g :: g in a + b <==> g in a || g in b;
  }

  /** Nothing to combine is conditional, so the join law fails exactly when an empty list meets a ready one. */
  lemma JoinLawHoldsIff(a: seq<GateResult>, b: seq<GateResult>)
    ensures Combine(a + b).status == Join(Combine(a).status, Combine(b).status)
            <==> !((a == [] && Combine(b).status == Ready) || (b == [] && Combine(a).status == Ready))
  {
    if a == [] {
      assert a + b == b;
    } else if b == [] {
      assert a + b == a;
    } else {
      CombineIsJoin(a, b);
    }
  }

  /** Combining a combination: the worst state wins however gates are grouped. */
  lemma {:induction false} CombineInGroups(groups: seq<seq<GateResult>>)
    requires forall g :: g in groups ==> g != []
    ensures Combine(Flatten(groups)).status == Combine(Combined(groups)).status
  {
    if groups != [] {
      var rest := groups[1..];
      assert groups[0] in groups && forall g :: g in rest ==> g in groups;
      CombineInGroups(rest);
      assert Combined(groups) == [Combine(groups[0])] + Combined(rest);
      if rest == [] {
        assert Flatten(groups) == groups[0];
        assert Combined(groups) == [Combine(groups[0])];
      } else {
        assert rest[0] in groups;
        CombineIsJoin(groups[0], Flatten(rest));
        CombineIsJoin([Combine(groups[0])], Combined(rest));
      }
    }
  }

  function Flatten(groups: seq<seq<GateResult>>): seq<GateResult> {
    if groups == [] then [] else groups[0] + Flatten(groups[1..])
  }

  function Combined(groups: seq<seq<GateResult>>): seq<GateResult> {
    if groups == [] then [] else [Combine(groups[0])] + Combined(groups[1..])
  }
}
