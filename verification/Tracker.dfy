/** The metrics tracker (collector/tracker/metrics_tracker.go): which metric IDs each
    endpoint of each pod stores, bounded per pod. */
module Tracker {
  import opened Series

  type Endpoints = map<string, set<string>>
  type Tracked = map<string, Endpoints>

  /** The (endpoint, metric) pairs of a pod; their number is what the limit bounds. */
  function Pairs(es: Endpoints): set<(string, string)> {
    set e, m | e in es && m in es[e] :: (e, m)
  }

  function EndpointsOf(t: Tracked, pod: string): Endpoints {
    if pod in t then t[pod] else map[]
  }

  function MetricsOf(t: Tracked, cid: CollectorID): set<string> {
    var es := EndpointsOf(t, cid.podId);
    if cid.endpointId in es then es[cid.endpointId] else {}
  }

  function PodTotal(t: Tracked, pod: string): nat {
    |Pairs(EndpointsOf(t, pod))|
  }

  /* Specification of adding a batch. */

  /** The IDs stored after offering `ms` to an endpoint that stores `have`, with room for
      `room` more in its pod. */
  function Stored(have: set<string>, room: int, ms: seq<MetricHeader>): set<string>
    decreases |ms|
  {
    if ms == [] then have
    else if ms[0].id in have then Stored(have, room, ms[1..])
    else if room > 0 then Stored(have + {ms[0].id}, room - 1, ms[1..])
    else Stored(have, room, ms[1..])
  }

  /** The metrics of `ms` whose ID is not in `ids`, in order. */
  function Missing(ms: seq<MetricHeader>, ids: set<string>): seq<MetricHeader> {
    if ms == [] then [] else (if ms[0].id in ids then [] else [ms[0]]) + Missing(ms[1..], ids)
  }

  function AddSpec(t: Tracked, max: int, cid: CollectorID, ms: seq<MetricHeader>): Tracked {
    var es := EndpointsOf(t, cid.podId);
    t[cid.podId := es[cid.endpointId := Stored(MetricsOf(t, cid), max - |Pairs(es)|, ms)]]
  }

  function PurgeSpec(t: Tracked, cid: CollectorID): Tracked {
    var es := EndpointsOf(t, cid.podId) - {cid.endpointId};
    if es == map[] then t - {cid.podId} else t[cid.podId := es]
  }

  /* Laws of the specification. */

  function Limit(max: int): nat {
    if max > 0 then max else 0
  }

  lemma {:induction false} StoredGrows(have: set<string>, room: int, ms: seq<MetricHeader>)
    ensures have <= Stored(have, room, ms)
    ensures |Stored(have, room, ms)| <= |have| + Limit(room)
    ensures Stored(have, room, ms) <= have + Ids(ms)
    ensures Missing(ms, Stored(have, room, ms)) != [] ==> |Stored(have, room, ms)| == |have| + Limit(room)
    decreases |ms|
  {
    if ms != [] {
      var m := ms[0];
      if m.id in have {
        StoredGrows(have, room, ms[1..]);
      } else if room > 0 {
        assert |have + {m.id}| == |have| + 1;
        StoredGrows(have + {m.id}, room - 1, ms[1..]);
      } else {
        StoredGrows(have, room, ms[1..]);
        SubsetSameSize(have, Stored(have, room, ms));
      }
    }
  }

  lemma {:induction false} StoredWithoutRoom(have: set<string>, room: int, ms: seq<MetricHeader>)
    requires room <= 0
    ensures Stored(have, room, ms) == have
    decreases |ms|
  {
    if ms != [] { StoredWithoutRoom(have, room, ms[1..]); }
  }

  /** First come, first stored: behind a metric that overflows, only IDs are stored that the
      endpoint had before or that occur earlier in the batch. */
  lemma {:induction false} FirstComeFirstStored(have: set<string>, room: int, ms: seq<MetricHeader>, i: nat)
    requires i < |ms| && ms[i].id !in Stored(have, room, ms)
    ensures Stored(have, room, ms) <= have + Ids(ms[..i])
    decreases |ms|
  {
    var m := ms[0];
    StoredGrows(have, room, ms);
    if i == 0 {
      if room > 0 { StoredGrows(have + {m.id}, room - 1, ms[1..]); }
      StoredWithoutRoom(have, room, ms);
    } else {
      assert Ids(ms[..i]) == {m.id} + Ids(ms[1..][..i - 1]) by { assert ms[..i] == [m] + ms[1..][..i - 1]; }
      if m.id !in have && room > 0 {
        FirstComeFirstStored(have + {m.id}, room - 1, ms[1..], i - 1);
      } else {
        FirstComeFirstStored(have, room, ms[1..], i - 1);
      }
    }
  }

  lemma SubsetSameSize<T>(a: set<T>, b: set<T>)
    requires a <= b
    ensures |a| <= |b| && (|a| == |b| ==> a == b)
  {
    assert b == a + (b - a);
    assert |b| == |a| + |b - a|;
  }

  lemma PairsOfUpdate(es: Endpoints, e: string, ms: set<string>)
    ensures |Pairs(es[e := ms])| == |Pairs(es - {e})| + |ms|
  {
    var rest := Pairs(es - {e});
    var own := Label(e, ms);
    assert Pairs(es[e := ms]) == rest + own;
    LabelSize(e, ms);
    assert rest * own == {};
  }

  lemma AddSpecSize(t: Tracked, max: int, cid: CollectorID, ms: seq<MetricHeader>)
    ensures var es, t' := EndpointsOf(t, cid.podId), AddSpec(t, max, cid, ms);
      && PodTotal(t, cid.podId) == |Pairs(es - {cid.endpointId})| + |MetricsOf(t, cid)|
      && PodTotal(t', cid.podId) == |Pairs(es - {cid.endpointId})| + |MetricsOf(t', cid)|
  {
    var es, have, e := EndpointsOf(t, cid.podId), MetricsOf(t, cid), cid.endpointId;
    PairsOfUpdate(es, e, have);
    PairsOfUpdate(es, e, MetricsOf(AddSpec(t, max, cid, ms), cid));
    assert e in es ==> es[e := have] == es;
    assert e !in es ==> Pairs(es[e := have]) == Pairs(es);
  }

  /** Adding a batch: a pod within the limit stays within it, and is exactly full when a
      metric overflows; what an endpoint stored stays stored, and only IDs of the batch are
      new; other endpoints are untouched. */
  lemma AddSpecLaws(t: Tracked, max: int, cid: CollectorID, ms: seq<MetricHeader>)
    ensures var t' := AddSpec(t, max, cid, ms);
      && (PodTotal(t, cid.podId) <= Limit(max) ==>
            && PodTotal(t', cid.podId) <= Limit(max)
            && (Missing(ms, MetricsOf(t', cid)) != [] ==> PodTotal(t', cid.podId) == Limit(max)))
      && MetricsOf(t, cid) <= MetricsOf(t', cid)
      && MetricsOf(t', cid) <= MetricsOf(t, cid) + Ids(ms)
      && (forall c: CollectorID :: c != cid ==> MetricsOf(t', c) == MetricsOf(t, c))
      && (forall p :: p != cid.podId ==> EndpointsOf(t', p) == EndpointsOf(t, p))
  {
    hide Pairs;
    AddSpecSize(t, max, cid, ms);
    StoredGrows(MetricsOf(t, cid), max - PodTotal(t, cid.podId), ms);
  }

  lemma PurgeSpecLaws(t: Tracked, cid: CollectorID)
    ensures var t' := PurgeSpec(t, cid);
      && EndpointsOf(t', cid.podId) == EndpointsOf(t, cid.podId) - {cid.endpointId}
      && (forall p :: p != cid.podId ==> EndpointsOf(t', p) == EndpointsOf(t, p) && (p in t' <==> p in t))
      && PodTotal(t', cid.podId) <= PodTotal(t, cid.podId)
  {
    var es := EndpointsOf(t, cid.podId);
    SubsetSameSize(Pairs(es - {cid.endpointId}), Pairs(es));
  }

  /* Safety over every interleaving of the tracker's operations. */

  /** No pod is above its limit and no pod entry is empty. */
  ghost predicate Bounded(t: Tracked, max: int) {
    forall p :: p in t ==> t[p] != map[] && PodTotal(t, p) <= Limit(max)
  }

  datatype Op = Add(cid: CollectorID, metrics: seq<MetricHeader>) | Purge(cid: CollectorID) | PurgeAll

  function Apply(t: Tracked, max: int, op: Op): Tracked {
    match op
    case Add(cid, ms) => AddSpec(t, max, cid, ms)
    case Purge(cid) => PurgeSpec(t, cid)
    case PurgeAll => map[]
  }

  function ApplyAll(t: Tracked, max: int, ops: seq<Op>): Tracked {
    if ops == [] then t else Apply(ApplyAll(t, max, ops[..|ops| - 1]), max, ops[|ops| - 1])
  }

  lemma ApplyKeepsBounded(t: Tracked, max: int, op: Op)
    requires Bounded(t, max)
    ensures Bounded(Apply(t, max, op), max)
  {
    match op
    case Add(cid, ms) => AddSpecLaws(t, max, cid, ms);
    case Purge(cid) => PurgeSpecLaws(t, cid);
    case PurgeAll =>
  }

  /** From an empty tracker, whatever collectors add and purge in whatever order. */
  lemma {:induction false} EveryRunBounded(max: int, ops: seq<Op>)
    ensures Bounded(ApplyAll(map[], max, ops), max)
  {
    if ops != [] {
      EveryRunBounded(max, ops[..|ops| - 1]);
      ApplyKeepsBounded(ApplyAll(map[], max, ops[..|ops| - 1]), max, ops[|ops| - 1]);
    }
  }

  /* The tracker itself. */

  class MetricsTracker {
    var allMetrics: Tracked
    const maxMetricsPerPod: int

    constructor (max: int)
      ensures allMetrics == map[] && maxMetricsPerPod == max
    {
      allMetrics := map[];
      maxMetricsPerPod := max;
    }

    method PurgeMetricsForCollectorEndpoint(cid: CollectorID)
      modifies this
      ensures allMetrics == PurgeSpec(old(allMetrics), cid)
    {
      if cid.podId in allMetrics {
        allMetrics := allMetrics[cid.podId := allMetrics[cid.podId] - {cid.endpointId}];
      }
      if cid.podId !in allMetrics || |allMetrics[cid.podId]| == 0 {
        allMetrics := allMetrics - {cid.podId};
      }
    }

    method PurgeAllMetrics()
      modifies this
      ensures allMetrics == map[]
    {
      allMetrics := map[];
    }

    /** Stores the batch's IDs as far as the pod's limit allows. The overflow is, in order,
        exactly the part of the batch that is untracked afterwards. */
    method AddMetricsFromCollector(cid: CollectorID, metrics: seq<MetricHeader>) returns (overflow: seq<MetricHeader>)
      modifies this
      ensures allMetrics == AddSpec(old(allMetrics), maxMetricsPerPod, cid, metrics)
      ensures overflow == Missing(metrics, MetricsOf(allMetrics, cid))
    {
      var podEndpoints: Endpoints := map[];
      var endpointMetrics: set<string> := {};
      var count := 0;
      if cid.podId in allMetrics {
        podEndpoints := allMetrics[cid.podId];
        count := CountMetrics(podEndpoints);
        if cid.endpointId in podEndpoints {
          endpointMetrics := podEndpoints[cid.endpointId];
        }
      }
      assert cid.podId !in allMetrics ==> Pairs(podEndpoints) == {};
      endpointMetrics, overflow := StoreBatch(endpointMetrics, count, maxMetricsPerPod, metrics);
      allMetrics := allMetrics[cid.podId := podEndpoints[cid.endpointId := endpointMetrics]];
    }
  }

  /** The loop over the batch: `have` grows in place while the running count is below `max`. */
  method StoreBatch(have: set<string>, before: nat, max: int, metrics: seq<MetricHeader>)
    returns (stored: set<string>, overflow: seq<MetricHeader>)
    ensures stored == Stored(have, max - before, metrics)
    ensures overflow == Missing(metrics, stored)
  {
    stored, overflow := have, [];
    var count := before;
    for i := 0 to |metrics|
      invariant Stored(have, max - before, metrics) == Stored(stored, max - count, metrics[i..])
      invariant overflow == Missing(metrics[..i], stored)
      invariant overflow != [] ==> count >= max
    {
      var metric := metrics[i];
      assert metrics[i..][1..] == metrics[i + 1..];
      assert metrics[..i + 1] == metrics[..i] + [metric];
      if metric.id !in stored {
        if count < max {
          MissingNothing(metrics[..i], stored, metric.id);
          stored := stored + {metric.id};
          count := count + 1;
        } else {
          overflow := overflow + [metric];
        }
      }
      MissingAppend(metrics[..i], metric, stored);
    }
    assert metrics[..|metrics|] == metrics;
  }

  /** The sum of the endpoints' sizes, accumulated endpoint by endpoint. */
  method CountMetrics(es: Endpoints) returns (count: nat)
    ensures count == |Pairs(es)|
  {
    count := 0;
    var todo := es.Keys;
    ghost var done: Endpoints := map[];
    while todo != {}
      invariant todo <= es.Keys && done == es - todo
      invariant count == |Pairs(done)|
      decreases todo
    {
      var e :| e in todo;
      todo := todo - {e};
      PairsOfUpdate(done, e, es[e]);
      assert done - {e} == done;
      count := count + |es[e]|;
      done := done[e := es[e]];
    }
    assert done == es;
  }

  ghost function Label<A, B>(a: A, bs: set<B>): set<(A, B)> {
    set b | b in bs :: (a, b)
  }

  lemma {:induction false} LabelSize<A, B>(a: A, bs: set<B>)
    ensures |Label(a, bs)| == |bs|
  {
    if bs != {} {
      var x :| x in bs;
      LabelSize(a, bs - {x});
      assert Label(a, bs) == Label(a, bs - {x}) + {(a, x)};
    }
  }

  lemma {:induction false} MissingAppend(ms: seq<MetricHeader>, m: MetricHeader, ids: set<string>)
    ensures Missing(ms + [m], ids) == Missing(ms, ids) + (if m.id in ids then [] else [m])
  {
    if ms == [] {
      assert ms + [m] == [m];
    } else {
      MissingAppend(ms[1..], m, ids);
      assert (ms + [m])[1..] == ms[1..] + [m];
    }
  }

  /** A larger set leaves an empty overflow empty. */
  lemma {:induction false} MissingNothing(ms: seq<MetricHeader>, ids: set<string>, id: string)
    requires Missing(ms, ids) == []
    ensures Missing(ms, ids + {id}) == []
  {
    if ms != [] { MissingNothing(ms[1..], ids, id); }
  }
}
