/** AnomalyDetectorTransformer.java: each new aggregate is compared with the mean of the ones before it, for
    each key on its own. What the detector says is proved to be a function of the whole input stream. */
module Anomaly {
  import opened Options
  import opened Rolling
  import opened Aggregation

  // ----- the decision, from the history of a key

  datatype Severity = Regular | Media | Alta

  datatype Ratios = Ratios(regular: real, media: real, alta: real)

  /** current is at least r times the mean of the past values, in exact arithmetic. */
  predicate Reaches(current: int, past: seq<int>, r: real) {
    (current * |past|) as real >= r * (Sum(past) as real)
  }

  /** What the alert is to be when `current` follows `history`: nothing with fewer than three values to
      compare with, nor when their sum is not positive. */
  function Decision(ratios: Ratios, windowSize: nat, history: seq<int>, current: int): Option<Severity> {
    Judged(ratios, Last(history, windowSize), current)
  }

  function Judged(ratios: Ratios, past: seq<int>, current: int): Option<Severity> {
    if |past| < 3 || Sum(past) <= 0 then None
    else if Reaches(current, past, ratios.alta) then Some(Alta)
    else if Reaches(current, past, ratios.media) then Some(Media)
    else if Reaches(current, past, ratios.regular) then Some(Regular)
    else None
  }

  function Rank(d: Option<Severity>): nat {
    match d
    case None => 0
    case Some(Regular) => 1
    case Some(Media) => 2
    case Some(Alta) => 3
  }

  lemma ReachesMore(a: int, b: int, past: seq<int>, r: real)
    requires a <= b && Reaches(a, past, r)
    ensures Reaches(b, past, r)
  {
    assert a * |past| <= b * |past|;
  }

  /** A higher value never gets a lower alert, whatever the ratios. */
  lemma HigherAlertsMore(ratios: Ratios, windowSize: nat, history: seq<int>, a: int, b: int)
    requires a <= b
    ensures Rank(Decision(ratios, windowSize, history, a)) <= Rank(Decision(ratios, windowSize, history, b))
  {
    var past := Last(history, windowSize);
    forall r | Reaches(a, past, r)
      ensures Reaches(b, past, r)
    {
      ReachesMore(a, b, past, r);
    }
  }

  function Scaled(s: seq<int>, c: int): (r: seq<int>)
    ensures |r| == |s|
  {
    seq(|s|, i requires 0 <= i < |s| => s[i] * c)
  }

  lemma {:induction false} SumScaled(s: seq<int>, c: int)
    ensures Sum(Scaled(s, c)) == Sum(s) * c
  {
    if s != [] {
      var k := |s| - 1;
      SumScaled(s[..k], c);
      assert Scaled(s, c)[..k] == Scaled(s[..k], c);
      assert Sum(s) * c == Sum(s[..k]) * c + s[k] * c;
    }
  }

  lemma ScaledSign(x: int, c: int)
    requires c > 0
    ensures x * c <= 0 <==> x <= 0
  {
  }

  lemma ReachesScaled(current: int, past: seq<int>, r: real, c: int)
    requires c > 0
    ensures Reaches(current * c, Scaled(past, c), r) <==> Reaches(current, past, r)
  {
    SumScaled(past, c);
    var a, b, d := (current * |past|) as real, r * (Sum(past) as real), c as real;
    assert ((current * c) * |past|) as real == a * d by {
      assert (current * c) * |past| == (current * |past|) * c;
    }
    assert r * ((Sum(past) * c) as real) == b * d by {
      assert (Sum(past) * c) as real == (Sum(past) as real) * d;
    }
    CompareScaled(a, b, d);
  }

  lemma CompareScaled(a: real, b: real, d: real)
    requires d > 0.0
    ensures a * d >= b * d <==> a >= b
  {
    if a >= b {
      assert (a - b) * d >= 0.0;
    } else {
      assert (b - a) * d > 0.0;
    }
  }

  /** Alerts are about proportions: the unit of measurement does not matter. */
  lemma UnitsDoNotMatter(ratios: Ratios, windowSize: nat, history: seq<int>, current: int, c: int)
    requires c > 0
    ensures Decision(ratios, windowSize, Scaled(history, c), current * c) ==
            Decision(ratios, windowSize, history, current)
  {
    var past := Last(history, windowSize);
    assert Last(Scaled(history, c), windowSize) == Scaled(past, c);
    SumScaled(past, c);
    ScaledSign(Sum(past), c);
    ReachesScaled(current, past, ratios.alta, c);
    ReachesScaled(current, past, ratios.media, c);
    ReachesScaled(current, past, ratios.regular, c);
  }

  // ----- the input stream

  /** One aggregate that was not null, under the key it is stored by. */
  datatype Input = Input(key: string, summary: Summary)

  /** The values of one key, in order of arrival. */
  function Samples(inputs: seq<Input>, key: string, metric: Metric): seq<int> {
    if inputs == [] then []
    else
      var last := inputs[|inputs| - 1];
      Samples(inputs[..|inputs| - 1], key, metric) + if last.key == key then [Measure(last.summary, metric)] else []
  }

  function StoreKey(key: Option<string>): string {
    match key
    case None => "global"
    case Some(k) => k
  }

  /** A warning: its severity, and the value and the metric it is about. */
  datatype Warning = Warning(severity: Severity, metric: Metric, current: int)

  /** The alert for one metric of a new aggregate. */
  function AlertFor(ratios: Ratios, windowSize: nat, inputs: seq<Input>, next: Input, metric: Metric): seq<Warning> {
    var current := Measure(next.summary, metric);
    Warnings(Decision(ratios, windowSize, Samples(inputs, next.key, metric), current), metric, current)
  }

  function Warnings(d: Option<Severity>, metric: Metric, current: int): seq<Warning> {
    match d
    case None => []
    case Some(severity) => [Warning(severity, metric, current)]
  }

  // ----- what an alert has to be

  /** The verdict on a value that follows `past`, by its ratio to their mean: the highest threshold it
      reaches, and nothing without three values of positive mean. */
  ghost predicate Verdict(ratios: Ratios, past: seq<int>, metric: Metric, current: int, result: seq<Warning>) {
    if |past| < 3 || Mean(past) <= 0.0 then result == []
    else
      var ratio := (current as real) / Mean(past);
      && (result == [Warning(Alta, metric, current)] <==> ratio >= ratios.alta)
      && (result == [Warning(Media, metric, current)] <==> ratios.media <= ratio < ratios.alta)
      && (result == [Warning(Regular, metric, current)] <==>
            ratios.regular <= ratio && ratio < ratios.media && ratio < ratios.alta)
      && (result == [] <==> ratio < ratios.regular && ratio < ratios.media && ratio < ratios.alta)
  }

  lemma JudgedRight(ratios: Ratios, past: seq<int>, metric: Metric, current: int)
    ensures Verdict(ratios, past, metric, current, Warnings(Judged(ratios, past, current), metric, current))
  {
    hide Reaches, Mean;
    if |past| >= 3 {
      MeanTimesSize(past);
      if Sum(past) > 0 {
        RatioReaches(current, past, Mean(past), ratios.alta);
        RatioReaches(current, past, Mean(past), ratios.media);
        RatioReaches(current, past, Mean(past), ratios.regular);
      }
    }
  }

  /** Every alert is the right one for the last windowSize values of its key. */
  lemma AlertIsRight(ratios: Ratios, windowSize: nat, inputs: seq<Input>, next: Input, metric: Metric)
    ensures Verdict(ratios, Last(Samples(inputs, next.key, metric), windowSize), metric, Measure(next.summary, metric),
                    AlertFor(ratios, windowSize, inputs, next, metric))
  {
    hide Verdict;
    JudgedRight(ratios, Last(Samples(inputs, next.key, metric), windowSize), metric, Measure(next.summary, metric));
  }

  /** With the thresholds in use, 1000 after three times 100 is the highest alert. */
  lemma TenfoldIsAlta(inputs: seq<Input>, next: Input, metric: Metric)
    requires Samples(inputs, next.key, metric) == [100, 100, 100] && Measure(next.summary, metric) == 1000
    ensures AlertFor(Ratios(1.2, 1.5, 2.0), 30, inputs, next, metric) == [Warning(Alta, metric, 1000)]
  {
    hide AlertFor;
    var past := [100, 100, 100];
    assert past[..2] == [100, 100] && past[..2][..1] == [100];
    assert Sum([100]) == 100 && Sum([100, 100]) == 200 && Sum(past) == 300;
    AlertIsRight(Ratios(1.2, 1.5, 2.0), 30, inputs, next, metric);
    assert Mean(past) == 100.0;
  }

  /** Different keys have different histories, and only a null key shares the one of "global". */
  lemma StoreKeysDiffer(a: Option<string>, b: Option<string>)
    ensures StoreKey(a) == StoreKey(b) <==> a == b || (StoreKey(a) == "global" && StoreKey(b) == "global")
    ensures StoreKey(a) == "global" <==> a == None || a == Some("global")
    ensures a.Some? ==> StoreKey(a) == a.value
  {
  }

  // ----- the detector

  /** A KeyValueStore. */
  class Store {
    var data: map<string, Saved>

    constructor ()
      ensures data == map[]
    {
      data := map[];
    }

    method Get(key: string) returns (stats: RollingStats?)
      requires key in data ==> data[key].sum == Sum(data[key].values) && |data[key].values| <= data[key].maxSize
      ensures stats == null <==> key !in data
      ensures stats != null ==>
                && fresh(stats) && stats.Valid()
                && stats.values == data[key].values && stats.maxSize == data[key].maxSize
    {
      if key !in data {
        return null;
      }
      stats := new RollingStats.Load(data[key]);
    }

    method Put(key: string, stats: RollingStats)
      modifies this
      ensures data == old(data)[key := Saved(stats.values, stats.maxSize, stats.sum)]
    {
      data := data[key := Saved(stats.values, stats.maxSize, stats.sum)];
    }
  }

  /** What a store should hold of a sequence of values. */
  function Window(samples: seq<int>, windowSize: nat): Saved {
    Saved(Last(samples, windowSize), windowSize, Sum(Last(samples, windowSize)))
  }

  /** A store holds, for each key seen, the window of its values. */
  ghost predicate HoldsFor(data: map<string, Saved>, windowSize: nat, samples: seq<int>, key: string) {
    if samples == [] then key !in data else key in data && data[key] == Window(samples, windowSize)
  }

  ghost predicate Holds(data: map<string, Saved>, windowSize: nat, inputs: seq<Input>, metric: Metric) {
    forall key :: HoldsFor(data, windowSize, Samples(inputs, key, metric), key)
  }

  lemma SamplesMore(inputs: seq<Input>, next: Input, key: string, metric: Metric)
    ensures Samples(inputs + [next], key, metric) ==
            if next.key == key then Samples(inputs, key, metric) + [Measure(next.summary, metric)]
            else Samples(inputs, key, metric)
  {
    assert (inputs + [next])[..|inputs + [next]| - 1] == inputs;
  }

  lemma HoldsMore(data: map<string, Saved>, windowSize: nat, inputs: seq<Input>, next: Input, metric: Metric)
    requires Holds(data, windowSize, inputs, metric)
    ensures var samples := Samples(inputs, next.key, metric) + [Measure(next.summary, metric)];
            Holds(data[next.key := Window(samples, windowSize)], windowSize, inputs + [next], metric)
  {
    hide Samples, Measure, Window;
    var samples := Samples(inputs, next.key, metric) + [Measure(next.summary, metric)];
    assert samples[|samples| - 1] == Measure(next.summary, metric);
    var data' := data[next.key := Window(samples, windowSize)];
    forall key
      ensures HoldsFor(data', windowSize, Samples(inputs + [next], key, metric), key)
    {
      SamplesMore(inputs, next, key, metric);
      assert HoldsFor(data, windowSize, Samples(inputs, key, metric), key);
    }
  }

  class AnomalyDetector {
    const windowSize: nat
    const ratios: Ratios
    const inboundStore: Store
    const outboundStore: Store
    const flowsStore: Store

    /** Every aggregate seen so far. */
    ghost var inputs: seq<Input>

    ghost predicate Valid()
      reads this, inboundStore, outboundStore, flowsStore
    {
      && inboundStore != outboundStore && inboundStore != flowsStore && outboundStore != flowsStore
      && Holds(inboundStore.data, windowSize, inputs, BytesInbound)
      && Holds(outboundStore.data, windowSize, inputs, BytesOutbound)
      && Holds(flowsStore.data, windowSize, inputs, UniqueFlows)
    }

    constructor (windowSize: nat, ratios: Ratios)
      ensures Valid() && inputs == [] && this.windowSize == windowSize && this.ratios == ratios
      ensures fresh(inboundStore) && fresh(outboundStore) && fresh(flowsStore)
    {
      this.windowSize, this.ratios := windowSize, ratios;
      inboundStore := new Store();
      outboundStore := new Store();
      flowsStore := new Store();
      inputs := [];
    }

    /** The middle of check: the comparison. */
    method Judge(stats: RollingStats, metric: Metric, current: int) returns (result: seq<Warning>)
      requires stats.Valid()
      ensures result == Warnings(Judged(ratios, stats.values, current), metric, current)
    {
      result := [];
      var size := stats.Size();
      if size >= 3 {
        var average := stats.Average();
        if average > 0.0 {
          var ratio := (current as real) / average;
          RatioReaches(current, stats.values, average, ratios.alta);
          RatioReaches(current, stats.values, average, ratios.media);
          RatioReaches(current, stats.values, average, ratios.regular);
          if ratio >= ratios.alta {
            result := [Warning(Alta, metric, current)];
          } else if ratio >= ratios.media {
            result := [Warning(Media, metric, current)];
          } else if ratio >= ratios.regular {
            result := [Warning(Regular, metric, current)];
          }
        }
      }
    }

    /** The start of check. */
    method Recall(store: Store, key: string, ghost samples: seq<int>) returns (stats: RollingStats)
      requires HoldsFor(store.data, windowSize, samples, key)
      ensures fresh(stats) && stats.Valid() && stats.values == Last(samples, windowSize) && stats.maxSize == windowSize
    {
      var found := store.Get(key);
      if found == null {
        found := new RollingStats(windowSize);
      }
      stats := found;
    }

    /** check: the value is compared with the window before it enters it. */
    method Check(store: Store, next: Input, metric: Metric) returns (result: seq<Warning>)
      requires Holds(store.data, windowSize, inputs, metric)
      modifies store
      ensures Holds(store.data, windowSize, inputs + [next], metric)
      ensures result == AlertFor(ratios, windowSize, inputs, next, metric)
      ensures Verdict(ratios, Last(Samples(inputs, next.key, metric), windowSize), metric,
                      Measure(next.summary, metric), result)
    {
      hide Samples, Measure, Judged, Warnings, Verdict;
      AlertIsRight(ratios, windowSize, inputs, next, metric);
      ghost var samples := Samples(inputs, next.key, metric);
      var current := Measure(next.summary, metric);
      assert HoldsFor(store.data, windowSize, samples, next.key);
      var stats := Recall(store, next.key, samples);
      result := Judge(stats, metric, current);
      LastOfLast(samples, current, windowSize);
      HoldsMore(store.data, windowSize, inputs, next, metric);
      stats.Add(current);
      store.Put(next.key, stats);
    }

    /** transform: the warnings are those that the inputs before this one call for, metric by metric; a null
        aggregate changes nothing. */
    method Transform(key: Option<string>, value: AggregatedFlow?) returns (warnings: seq<Warning>)
      requires Valid()
      modifies this, inboundStore, outboundStore, flowsStore
      ensures Valid()
      ensures value == null ==> warnings == [] && inputs == old(inputs)
      ensures value != null ==>
                var next := Input(StoreKey(key), old(value.Value()));
                && inputs == old(inputs) + [next]
                && warnings == AlertFor(ratios, windowSize, old(inputs), next, BytesInbound)
                               + AlertFor(ratios, windowSize, old(inputs), next, BytesOutbound)
                               + AlertFor(ratios, windowSize, old(inputs), next, UniqueFlows)
                && Measure(next.summary, BytesInbound) == old(value.bytesInbound)
                && Measure(next.summary, BytesOutbound) == old(value.bytesOutbound)
                && Measure(next.summary, UniqueFlows) == old(value.uniqueFlowCount)
    {
      hide Samples, Holds, AlertFor;
      warnings := [];
      if value == null {
        return;
      }
      var storeKey := if key.None? then "global" else key.value;
      var next := Input(storeKey, Summary(value.bytesInbound, value.bytesOutbound,
                                          value.packetsInbound, value.packetsOutbound,
                                          value.uniqueFlowCount, value.flowKeys, value.tcpSynTotal, value.tcpAckTotal,
                                          value.tcpFinTotal, value.tcpRstTotal));
      var found := Check(inboundStore, next, BytesInbound);
      warnings := warnings + found;
      found := Check(outboundStore, next, BytesOutbound);
      warnings := warnings + found;
      found := Check(flowsStore, next, UniqueFlows);
      warnings := warnings + found;
      inputs := inputs + [next];
    }
  }

  /** Dividing by the mean is comparing with the sum. */
  lemma RatioReaches(current: int, past: seq<int>, average: real, r: real)
    requires average > 0.0 && average * (|past| as real) == Sum(past) as real && |past| > 0
    ensures (current as real) / average >= r <==> Reaches(current, past, r)
  {
    var c, n := current as real, |past| as real;
    var q := c / average;
    assert q * average == c;
    CompareScaled(q, r, average);
    CompareScaled(c, r * average, n);
    assert (r * average) * n == r * (average * n);
    assert (current * |past|) as real == c * n;
  }

  /** The inputs of one key. */
  function Only(inputs: seq<Input>, key: string): seq<Input> {
    if inputs == [] then []
    else
      var last := inputs[|inputs| - 1];
      Only(inputs[..|inputs| - 1], key) + if last.key == key then [last] else []
  }

  lemma {:induction false} SamplesOnly(inputs: seq<Input>, key: string, metric: Metric)
    ensures Samples(Only(inputs, key), key, metric) == Samples(inputs, key, metric)
  {
    if inputs != [] {
      var k := |inputs| - 1;
      SamplesOnly(inputs[..k], key, metric);
      if inputs[k].key == key {
        SamplesMore(Only(inputs[..k], key), inputs[k], key, metric);
      } else {
        assert Only(inputs, key) == Only(inputs[..k], key);
      }
    }
  }

  /** Inputs of other keys, wherever they are in the stream, have no influence on a decision. */
  lemma OtherKeysDoNotMatter(ratios: Ratios, windowSize: nat, inputs: seq<Input>, next: Input, metric: Metric)
    ensures AlertFor(ratios, windowSize, Only(inputs, next.key), next, metric) ==
            AlertFor(ratios, windowSize, inputs, next, metric)
  {
    hide Samples, Decision, Warnings;
    SamplesOnly(inputs, next.key, metric);
  }

  /** Nor have values that have left the window. */
  lemma OldValuesDoNotMatter(ratios: Ratios, windowSize: nat, earlier: seq<int>, recent: seq<int>, current: int)
    requires |recent| >= windowSize
    ensures Decision(ratios, windowSize, earlier + recent, current) == Decision(ratios, windowSize, recent, current)
  {
    hide Judged;
    assert Last(earlier + recent, windowSize) == Last(recent, windowSize);
  }
}
