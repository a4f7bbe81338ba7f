/** One collector's loop (collector/manager/metrics_collector_manager.go, the goroutine of
    StartCollecting): what a tick stores and defines, first as a specification. */
module CollectionSpec {
  import opened Wrappers
  import opened Text
  import opened Expansion
  import opened Series
  import T = Tracker

  /** The collector's fixed data; `byName` is empty when everything is to be collected. */
  datatype Collector = Collector(
    id: CollectorID, env: Env, osEnv: Env, idPrefix: string, byName: map<string, MonitoredMetric>)

  /** The quick lookup by name; of several metrics with one name the last is taken. */
  function ByName(metrics: seq<MonitoredMetric>): map<string, MonitoredMetric> {
    if metrics == [] then map[]
    else ByName(metrics[..|metrics| - 1])[metrics[|metrics| - 1].name := metrics[|metrics| - 1]]
  }

  /** The monitored metric a collected one belongs to, if it was asked for. */
  function Expected(c: Collector, m: MetricHeader): Option<MonitoredMetric> {
    if c.byName != map[] then
      if m.id in c.byName then Some(c.byName[m.id]) else None
    else Some(MonitoredMetric(m.id, m.id, m.mtype, "", "", map[]))
  }

  function BaseId(c: Collector, mm: MonitoredMetric): string {
    Expand(c.idPrefix, Mapping(Config(c.env, c.osEnv, false))) + Expand(mm.id, PodPhase(c.env))
  }

  predicate HasToken(id: string) {
    Contains(id, "${")
  }

  function TagKeys(data: seq<Datapoint>): set<string> {
    set d, k | d in data && k in d.tags :: k
  }

  /** The metric's ID after the first phase, with the default tag suffix when it has none. */
  ghost function Template(c: Collector, mm: MonitoredMetric, data: seq<Datapoint>): string {
    var base := BaseId(c, mm);
    if HasToken(base) || TagKeys(data) == {} then base else DefaultTemplate(base, SortedKeys(TagKeys(data)))
  }

  function PartOf(m: MetricHeader, template: string, d: Datapoint): MetricHeader {
    MetricHeader(m.tenant, m.mtype, Expand(template, TagPhase(d.tags)), [d.(tags := map[])])
  }

  function PartsOf(m: MetricHeader, template: string, data: seq<Datapoint>): seq<MetricHeader> {
    if data == [] then []
    else PartsOf(m, template, data[..|data| - 1]) + [PartOf(m, template, data[|data| - 1])]
  }

  /** What becomes of one collected metric. */
  datatype Fate = Dropped | Whole(id: string) | Parts(parts: seq<MetricHeader>)

  ghost function FateOf(c: Collector, m: MetricHeader): Fate {
    match Expected(c, m)
    case None => Dropped
    case Some(mm) =>
      var t := Template(c, mm, m.data);
      if HasToken(t) then Parts(PartsOf(m, t, m.data)) else Whole(t)
  }

  /** The metric as the first loop leaves it in the array: an empty ID marks it for removal. */
  ghost function Renamed(c: Collector, m: MetricHeader): MetricHeader {
    match FateOf(c, m)
    case Whole(id) => m.(id := id)
    case _ => m.(id := "")
  }

  /* The batch. */

  /** The unsplit metric, if there is one with a non-empty ID. */
  ghost function OwnWhole(c: Collector, m: MetricHeader): seq<MetricHeader> {
    var f := FateOf(c, m);
    if f.Whole? && f.id != "" then [m.(id := f.id)] else []
  }

  ghost function OwnParts(c: Collector, m: MetricHeader): seq<MetricHeader> {
    var f := FateOf(c, m);
    if f.Parts? then f.parts else []
  }

  ghost function Wholes(c: Collector, ms: seq<MetricHeader>): seq<MetricHeader> {
    if ms == [] then [] else Wholes(c, ms[..|ms| - 1]) + OwnWhole(c, ms[|ms| - 1])
  }

  ghost function AllParts(c: Collector, ms: seq<MetricHeader>): seq<MetricHeader> {
    if ms == [] then [] else AllParts(c, ms[..|ms| - 1]) + OwnParts(c, ms[|ms| - 1])
  }

  /** Everything a tick wants to store: unsplit metrics in order, then one metric per
      datapoint of each split metric in order. */
  ghost function Batch(c: Collector, ms: seq<MetricHeader>): seq<MetricHeader> {
    Wholes(c, ms) + AllParts(c, ms)
  }

  /* The definitions a tick needs. */

  type Definitions = map<string, MonitoredMetric>

  /** The datapoint's tags travel on the definition, marked with @@@. */
  function DefinitionFor(mm: MonitoredMetric, d: Datapoint): MonitoredMetric {
    mm.(tags := mm.tags + map k | k in MarkedKeys(d.tags) :: d.tags[k[3..]])
  }

  function MarkedKeys(tags: Env): (r: set<string>)
    ensures forall k :: k in r ==> |k| >= 3 && k[3..] in tags
  {
    set k | k in tags :: var m := "@@@" + k; assert m[3..] == k; m
  }

  function NeedParts(mm: MonitoredMetric, template: string, data: seq<Datapoint>,
                     declared: Definitions, need: Definitions): Definitions {
    if data == [] then need
    else
      var d := data[|data| - 1];
      var id := Expand(template, TagPhase(d.tags));
      var before := NeedParts(mm, template, data[..|data| - 1], declared, need);
      if id in declared then before else before[id := DefinitionFor(mm, d)]
  }

  ghost function OwnNeeds(c: Collector, m: MetricHeader, declared: Definitions, before: Definitions): Definitions {
    match Expected(c, m)
    case None => before
    case Some(mm) =>
      var t := Template(c, mm, m.data);
      if HasToken(t) then NeedParts(mm, t, m.data, declared, before)
      else if t in declared then before else before[t := mm]
  }

  ghost function Needed(c: Collector, ms: seq<MetricHeader>, declared: Definitions): Definitions {
    if ms == [] then map[] else OwnNeeds(c, ms[|ms| - 1], declared, Needed(c, ms[..|ms| - 1], declared))
  }

  /* The tick. */

  /** The metrics of `ms` whose ID is not in `doomed`, in order. */
  function Without(ms: seq<MetricHeader>, doomed: set<string>): seq<MetricHeader> {
    if ms == [] then []
    else Without(ms[..|ms| - 1], doomed) + (if ms[|ms| - 1].id in doomed then [] else [ms[|ms| - 1]])
  }

  /** The collector's share of the agent's state, with what was sent to storage. */
  datatype State = State(
    tracked: T.Tracked, declared: Definitions, stored: seq<seq<MetricHeader>>, defined: seq<Definitions>)

  ghost function TickSpec(c: Collector, max: int, s: State, ms: seq<MetricHeader>, detailsOk: bool): State {
    var batch := Batch(c, ms);
    var tracked := T.AddSpec(s.tracked, max, c.id, batch);
    var doomed := Ids(T.Missing(batch, T.MetricsOf(tracked, c.id)));
    var defs := Needed(c, ms, s.declared) - doomed;
    State(tracked,
          if defs != map[] && detailsOk then s.declared + defs else s.declared,
          s.stored + [Without(batch, doomed)],
          if defs != map[] then s.defined + [defs] else s.defined)
  }
}

/** The tick as the goroutine runs it, in place on the collected array. */
module CollectionTick {
  import opened Text
  import opened Expansion
  import opened Series
  import opened CollectionSpec

  class Collection {
    const collector: Collector
    const tracker: T.MetricsTracker
    var metricDefinitionsDeclared: Definitions
    var metricsSent: seq<seq<MetricHeader>>    // what went to metricsChan
    var definitionsSent: seq<Definitions>      // what went to metricDefsChan

    constructor (c: Collector, t: T.MetricsTracker)
      ensures collector == c && tracker == t
      ensures metricDefinitionsDeclared == map[] && metricsSent == [] && definitionsSent == []
    {
      collector, tracker := c, t;
      metricDefinitionsDeclared, metricsSent, definitionsSent := map[], [], [];
    }

    ghost function Abs(): State
      reads this, tracker
    {
      State(tracker.allMetrics, metricDefinitionsDeclared, metricsSent, definitionsSent)
    }

    /** One tick whose collection succeeded. `detailsOk` tells whether the endpoint answered
        the request for metric details. */
    method Tick(collected: array<MetricHeader>, detailsOk: bool)
      modifies this, tracker, collected
      ensures Abs() == TickSpec(collector, tracker.maxMetricsPerPod, old(Abs()), old(collected[..]), detailsOk)
    {
      hide Needed, AllParts, Wholes, Renamed, Without, T.AddSpec, T.Missing, T.MetricsOf;
      var needed, allSplitMetrics := RenameAndSplit(collector, collected, metricDefinitionsDeclared);
      var n := CompactNamed(collector, collected, old(collected[..]));
      var batch := Append(collected, n, allSplitMetrics);
      var overflow := tracker.AddMetricsFromCollector(collector.id, batch[..]);
      var kept;
      kept, needed := Discard(batch, overflow, needed);
      metricsSent := metricsSent + [kept];
      if |needed| > 0 {
        definitionsSent := definitionsSent + [needed];
        if detailsOk {
          metricDefinitionsDeclared := metricDefinitionsDeclared + needed;
        }
      }
    }
  }

  /** `append(a[:n], more...)` */
  method Append(a: array<MetricHeader>, n: nat, more: seq<MetricHeader>) returns (b: array<MetricHeader>)
    requires n <= a.Length
    ensures fresh(b) && b[..] == a[..n] + more
  {
    var s := a[..n] + more;
    b := new MetricHeader[|s|](k requires 0 <= k < |s| => s[k]);
  }

  /** Takes the overflowed metrics, and the definitions of their IDs, out again. */
  method Discard(batch: array<MetricHeader>, overflow: seq<MetricHeader>, need: Definitions)
    returns (kept: seq<MetricHeader>, needed: Definitions)
    modifies batch
    ensures kept == Without(old(batch[..]), Ids(overflow))
    ensures needed == need - Ids(overflow)
  {
    needed := need;
    if |overflow| > 0 {
      var n := CompactKept(batch, overflow);
      kept := batch[..n];
      for i := 0 to |overflow|
        invariant needed == need - Ids(overflow[..i])
      {
        assert Ids(overflow[..i + 1]) == Ids(overflow[..i]) + {overflow[i].id} by {
          assert overflow[..i + 1] == overflow[..i] + [overflow[i]];
        }
        needed := needed - {overflow[i].id};
      }
      assert overflow[..|overflow|] == overflow;
    } else {
      assert Ids(overflow) == {};
      WithoutNothing(batch[..]);
      kept := batch[..];
    }
  }

  lemma {:induction false} WithoutNothing(ms: seq<MetricHeader>)
    ensures Without(ms, {}) == ms
  {
    if ms != [] {
      WithoutNothing(ms[..|ms| - 1]);
      assert ms == ms[..|ms| - 1] + [ms[|ms| - 1]];
    }
  }

  /** Before the first tick: expands the names of the endpoint's metrics where they are, in
      the array that the config map entry shares with every pod using it, and indexes them. */
  method PrepareMetrics(metrics: array<MonitoredMetric>, env: Env) returns (byName: map<string, MonitoredMetric>)
    modifies metrics
    ensures forall k :: 0 <= k < metrics.Length ==>
      metrics[k] == old(metrics[k]).(name := Expand(old(metrics[k]).name, PodPhase(env)))
    ensures byName == ByName(metrics[..])
  {
    hide Expand;
    for i := 0 to metrics.Length
      invariant forall k :: 0 <= k < i ==>
        metrics[k] == old(metrics[k]).(name := Expand(old(metrics[k]).name, PodPhase(env)))
      invariant forall k :: i <= k < metrics.Length ==> metrics[k] == old(metrics[k])
    {
      metrics[i] := metrics[i].(name := Expand(metrics[i].name, PodPhase(env)));
    }
    byName := map[];
    for i := 0 to metrics.Length
      invariant byName == ByName(metrics[..i])
    {
      assert metrics[..i + 1][..i] == metrics[..i];
      byName := byName[metrics[i].name := metrics[i]];
    }
    assert metrics[..metrics.Length] == metrics[..];
  }

  /** The first loop: gives every expected metric its ID, splits the ones with tokens, marks
      the rest for removal, and notes the definitions that are missing. */
  method RenameAndSplit(c: Collector, collected: array<MetricHeader>, declared: Definitions)
    returns (needed: Definitions, splits: seq<MetricHeader>)
    modifies collected
    ensures forall k :: 0 <= k < collected.Length ==> collected[k] == Renamed(c, old(collected[k]))
    ensures splits == AllParts(c, old(collected[..]))
    ensures needed == Needed(c, old(collected[..]), declared)
  {
    hide Renamed, OwnParts, OwnNeeds;
    needed, splits := map[], [];
    ghost var was := collected[..];
    for i := 0 to collected.Length
      invariant forall k :: 0 <= k < i ==> collected[k] == Renamed(c, was[k])
      invariant forall k :: i <= k < collected.Length ==> collected[k] == was[k]
      invariant splits == AllParts(c, was[..i])
      invariant needed == Needed(c, was[..i], declared)
    {
      assert was[..i + 1][..i] == was[..i] && was[..i + 1][i] == collected[i];
      var renamed, parts;
      renamed, parts, needed := RenameOne(c, collected[i], declared, needed);
      collected[i] := renamed;
      splits := splits + parts;
    }
    assert was[..collected.Length] == was;
  }

  /** The loop's body for one metric. */
  method RenameOne(c: Collector, m: MetricHeader, declared: Definitions, before: Definitions)
    returns (renamed: MetricHeader, parts: seq<MetricHeader>, needed: Definitions)
    ensures renamed == Renamed(c, m)
    ensures parts == OwnParts(c, m)
    ensures needed == OwnNeeds(c, m, declared, before)
  {
    hide HasToken, BaseId, PartsOf, NeedParts, Template;
    parts, needed := [], before;
    var expected := Expected(c, m);
    if expected.None? {
      renamed := m.(id := "");
    } else {
      var mm := expected.value;
      var id := TemplateOf(c, mm, m.data);
      if HasToken(id) {
        parts, needed := Split(mm, m, id, declared, needed);
        renamed := m.(id := "");
      } else {
        renamed := m.(id := id);
        if id !in declared {
          needed := needed[id := mm];
        }
      }
    }
  }

  /** The ID template: prefix and ID expanded, then the sorted tag keys if there is no token. */
  method TemplateOf(c: Collector, mm: MonitoredMetric, data: seq<Datapoint>) returns (id: string)
    ensures id == Template(c, mm, data)
  {
    id := BaseId(c, mm);
    if !HasToken(id) {
      var keysMap: set<string> := {};
      for j := 0 to |data|
        invariant keysMap == TagKeys(data[..j])
      {
        assert data[..j + 1] == data[..j] + [data[j]];
        keysMap := keysMap + data[j].tags.Keys;
      }
      assert data[..|data|] == data;
      if |keysMap| > 0 {
        var keys := KeysInSomeOrder(keysMap);
        SortedEnumerationsAgree(keys, Enumeration(keysMap), keysMap);
        id := DefaultTemplate(id, SortStrings(keys));
      }
    }
  }

  method Split(mm: MonitoredMetric, m: MetricHeader, template: string, declared: Definitions, need: Definitions)
    returns (parts: seq<MetricHeader>, needed: Definitions)
    ensures parts == PartsOf(m, template, m.data)
    ensures needed == NeedParts(mm, template, m.data, declared, need)
  {
    hide Expand, DefinitionFor;
    parts, needed := [], need;
    for j := 0 to |m.data|
      invariant parts == PartsOf(m, template, m.data[..j])
      invariant needed == NeedParts(mm, template, m.data[..j], declared, need)
    {
      assert m.data[..j + 1][..j] == m.data[..j] && m.data[..j + 1][j] == m.data[j];
      var part := PartOf(m, template, m.data[j]);
      parts := parts + [part];
      if part.id !in declared {
        needed := needed[part.id := DefinitionFor(mm, m.data[j])];
      }
    }
    assert m.data[..|m.data|] == m.data;
  }

  /** The second loop: drops, in place, the metrics marked with an empty ID. The elements not
      yet read are still the ones the first loop left. */
  method CompactNamed(c: Collector, a: array<MetricHeader>, ghost was: seq<MetricHeader>) returns (n: nat)
    requires a.Length == |was| && forall k :: 0 <= k < a.Length ==> a[k] == Renamed(c, was[k])
    modifies a
    ensures n <= a.Length && a[..n] == Wholes(c, was)
  {
    hide FateOf;
    n := 0;
    for k := 0 to a.Length
      invariant n <= k && a[..n] == Wholes(c, was[..k])
      invariant forall j :: k <= j < a.Length ==> a[j] == Renamed(c, was[j])
    {
      assert was[..k + 1][..k] == was[..k] && was[..k + 1][k] == was[k];
      var x := a[k];
      if x.id != "" {
        a[n] := x;
        n := n + 1;
        assert a[..n] == a[..n - 1] + [x];
      }
    }
    assert was[..a.Length] == was;
  }

  /** The third loop: drops, in place, the metrics whose ID is among the overflow's. */
  method CompactKept(a: array<MetricHeader>, overflow: seq<MetricHeader>) returns (n: nat)
    modifies a
    ensures n <= a.Length && a[..n] == Without(old(a[..]), Ids(overflow))
  {
    n := 0;
    ghost var was := a[..];
    for k := 0 to a.Length
      invariant n <= k && a[..n] == Without(was[..k], Ids(overflow))
      invariant forall j :: k <= j < a.Length ==> a[j] == was[j]
    {
      assert was[..k + 1][..k] == was[..k] && was[..k + 1][k] == was[k];
      var x := a[k];
      var keep := true;
      for j := 0 to |overflow|
        invariant keep <==> x.id !in Ids(overflow[..j])
      {
        if overflow[j].id == x.id {
          assert overflow[j] in overflow;
          keep := false;
          break;
        }
      }
      if keep {
        assert overflow[..|overflow|] == overflow;
        a[n] := x;
        n := n + 1;
        assert a[..n] == a[..n - 1] + [x];
      }
    }
    assert was[..a.Length] == was;
  }
}
