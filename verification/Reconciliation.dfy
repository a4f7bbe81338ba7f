/** The objects that react to watch events, updating their tables in place, proved against
    the functions of ReconciliationSpec. */
module Reconciliation {
  import opened Wrappers
  import opened Text
  import opened Series
  import opened ReconciliationSpec

  /** k8s/configmaps.go */
  class ConfigMaps {
    var entries: ConfigMapCache

    constructor ()
      ensures entries == map[]
    {
      entries := map[];
    }

    method AddEntry(namespace: string, name: string, entry: Entry)
      modifies this
      ensures entries == WithEntry(old(entries), namespace, name, entry)
    {
      if namespace !in entries {
        entries := entries[namespace := map[]];
      }
      entries := entries[namespace := entries[namespace][name := entry]];
    }

    method GetEntry(namespace: string, name: string) returns (entry: Option<Entry>)
      ensures entry == EntryOf(entries, namespace, name)
    {
      if namespace !in entries { return None; }
      if name !in entries[namespace] { return None; }
      entry := Some(entries[namespace][name]);
    }

    method RemoveEntry(namespace: string, name: string)
      modifies this
      ensures entries == WithoutEntry(old(entries), namespace, name)
    {
      if namespace in entries {
        entries := entries[namespace := entries[namespace] - {name}];
      }
    }

    method ClearNamespace(namespace: string)
      modifies this
      ensures entries == old(entries) - {namespace}
    {
      entries := entries - {namespace};
    }
  }

  /** k8s/pod_inventory.go */
  class PodInventory {
    var discoveredPods: map<string, Pod>

    constructor ()
      ensures discoveredPods == map[]
    {
      discoveredPods := map[];
    }

    method AddPod(p: Pod)
      modifies this
      ensures discoveredPods == old(discoveredPods)[p.Identifier() := p]
    {
      discoveredPods := discoveredPods[p.Identifier() := p];
    }

    method RemovePod(p: Pod)
      modifies this
      ensures discoveredPods == old(discoveredPods) - {p.Identifier()}
    {
      discoveredPods := discoveredPods - {p.Identifier()};
    }

    /** A walk over the inventory that stops at the first pod of the namespace. */
    method HasPodIn(namespace: string) returns (found: bool)
      ensures found == NamespaceInUse(discoveredPods, namespace)
    {
      found := false;
      var todo := discoveredPods.Keys;
      while todo != {} && !found
        invariant todo <= discoveredPods.Keys
        invariant found ==> NamespaceInUse(discoveredPods, namespace)
        invariant !found ==> forall k :: k in discoveredPods && discoveredPods[k].namespace == namespace ==> k in todo
        decreases todo
      {
        var k :| k in todo;
        todo := todo - {k};
        found := discoveredPods[k].namespace == namespace;
      }
    }
  }

  ghost predicate Injective<K(!new)>(m: map<K, nat>) {
    forall a, b :: a in m && b in m && m[a] == m[b] ==> a == b
  }

  lemma RemoveValue<K(!new)>(m: map<K, nat>, k: K)
    requires Injective(m) && k in m
    ensures (m - {k}).Values == m.Values - {m[k]}
  {
    forall h | h in m.Values - {m[k]} ensures h in (m - {k}).Values {
      var a :| a in m && m[a] == h;
      assert a in m - {k} && (m - {k})[a] == h;
    }
  }

  lemma AddValue<K(!new)>(m: map<K, nat>, k: K, h: nat)
    requires k !in m
    ensures m[k := h].Values == m.Values + {h}
  {
    forall x | x in m.Values + {h} ensures x in m[k := h].Values {
      if x == h {
        assert k in m[k := h] && m[k := h][k] == h;
      } else {
        var a :| a in m && m[a] == x;
        assert a in m[k := h] && m[k := h][a] == x;
      }
    }
  }

  /** The lifecycle half of the collector manager. A ticker is a handle: `running` are the
      handles the runtime has started and not stopped. */
  class Manager {
    var tickers: map<CollectorID, nat>
    const tracker: T.MetricsTracker
    var running: set<nat>
    var created: nat

    /** The running tickers are exactly the values of the table, each kept under one ID. */
    ghost predicate Valid()
      reads this
    {
      && running == tickers.Values
      && Injective(tickers)
      && (forall a :: a in tickers ==> tickers[a] < created)
    }

    constructor (t: T.MetricsTracker)
      ensures Valid() && tickers == map[] && tracker == t
    {
      tracker, tickers, running, created := t, map[], {}, 0;
    }

    method StopCollecting(id: CollectorID)
      requires Valid()
      modifies this, tracker
      ensures Valid()
      ensures tickers == old(tickers) - {id} && tracker.allMetrics == T.PurgeSpec(old(tracker.allMetrics), id)
      ensures created == old(created)
    {
      if id in tickers {
        RemoveValue(tickers, id);
        running := running - {tickers[id]};  // ticker.Stop()
        tickers := tickers - {id};
      }
      tracker.PurgeMetricsForCollectorEndpoint(id);
    }

    method StartCollecting(id: CollectorID, enabled: string)
      requires Valid()
      modifies this, tracker
      ensures Valid()
      ensures tickers.Keys == old(tickers.Keys) - {id} + (if IsEnabled(enabled) then {id} else {})
      ensures tickers - {id} == old(tickers) - {id}
      ensures id in tickers ==> tickers[id] !in old(running)
      ensures tracker.allMetrics
           == T.AddSpec(T.PurgeSpec(old(tracker.allMetrics), id), tracker.maxMetricsPerPod, id, [])
    {
      hide T.AddSpec, T.PurgeSpec;
      assert forall h :: h in running ==> h < created;
      StopCollecting(id);
      var _ := tracker.AddMetricsFromCollector(id, []);
      if !IsEnabled(enabled) { return; }
      var ticker := created;  // time.NewTicker
      AddValue(tickers, id, ticker);
      created, running := created + 1, running + {ticker};
      tickers := tickers[id := ticker];
      assert tickers - {id} == old(tickers) - {id};
    }

    method NotCollecting(id: CollectorID)
      modifies tracker
      ensures tracker.allMetrics == T.AddSpec(old(tracker.allMetrics), tracker.maxMetricsPerPod, id, [])
    {
      var _ := tracker.AddMetricsFromCollector(id, []);
    }

    method StopCollectingAll()
      requires Valid()
      modifies this, tracker
      ensures Valid() && tickers == map[] && running == {} && tracker.allMetrics == map[]
    {
      var todo := tickers.Keys;
      while todo != {}
        invariant Valid() && todo == tickers.Keys
        decreases todo
      {
        var id :| id in todo;
        todo := todo - {id};
        RemoveValue(tickers, id);
        running := running - {tickers[id]};
        tickers := tickers - {id};
      }
      assert tickers == map[];
      tracker.PurgeAllMetrics();
    }

    /** Endpoints of the agent's own configuration, outside any pod. */
    method StartExternal(etype: string, url: string, enabled: string)
      requires Valid()
      modifies this, tracker
      ensures Valid()
      ensures var t := ExternalStep(Tables(map[], old(tickers.Keys), old(tracker.allMetrics)),
                                 tracker.maxMetricsPerPod, etype, url, enabled);
        tickers.Keys == t.tickers && tracker.allMetrics == t.tracked
    {
      var id := ExternalId(etype, url);
      if KnownType(etype) { StartCollecting(id, enabled); } else { NotCollecting(id); }
    }
  }

  /** k8s/node_event_consumer.go */
  class NodeEventConsumer {
    var collectorIds: map<string, seq<CollectorID>>
    const manager: Manager
    const world: World

    constructor (m: Manager, w: World)
      ensures collectorIds == map[] && manager == m && world == w
    {
      collectorIds, manager, world := map[], m, w;
    }

    ghost function Abs(): Tables
      reads this, manager, manager.tracker
    {
      Tables(collectorIds, manager.tickers.Keys, manager.tracker.allMetrics)
    }

    function Max(): int {
      manager.tracker.maxMetricsPerPod
    }

    method ConsumeNodeEvent(change: Change, p: Pod, entry: Option<Entry>)
      requires manager.Valid()
      modifies this, manager, manager.tracker
      ensures manager.Valid() && Abs() == Consume(world, Max(), change, p, entry, old(Abs()))
    {
      hide StartPod, StopPod;
      if change != Added {
        StopCollecting(p);
      }
      if change != Deleted && entry.Some? {
        StartCollecting(p, entry.value);
      }
    }

    method StartCollecting(p: Pod, endpoints: Entry)
      requires manager.Valid()
      modifies this, manager, manager.tracker
      ensures manager.Valid() && Abs() == StartPod(world, Max(), p, endpoints, old(Abs()))
    {
      hide StartEndpoint;
      for i := 0 to |endpoints|
        invariant manager.Valid() && Abs() == StartPod(world, Max(), p, endpoints[..i], old(Abs()))
      {
        assert endpoints[..i + 1][..i] == endpoints[..i];
        StartCollectingEndpoint(p, endpoints[i]);
      }
      assert endpoints[..|endpoints|] == endpoints;
    }

    method StartCollectingEndpoint(p: Pod, e: Endpoint)
      requires manager.Valid()
      modifies this, manager, manager.tracker
      ensures manager.Valid() && Abs() == StartEndpoint(world, Max(), p, e, old(Abs()))
    {
      hide T.AddSpec, T.PurgeSpec, Join, Decimal;
      var url := Url(world, e, p.podIP);
      if url.None? { return; }
      var pod := p.Identifier();
      var id := CollectorID(pod, p.namespace + "|" + p.name + "|" + e.etype + "|" + url.value);
      if pod in collectorIds {
        var ids, alreadyThere := collectorIds[pod], false;
        for i := 0 to |ids|
          invariant alreadyThere <==> id in ids[..i]
        {
          if ids[i] == id {
            alreadyThere := true;
            break;
          }
        }
        assert ids[..|ids|] == ids;
        if !alreadyThere {
          collectorIds := collectorIds[pod := ids + [id]];
        }
      } else {
        collectorIds := collectorIds[pod := [id]];
      }
      if !IsEnabled(e.enabled) {
        manager.NotCollecting(id);
        return;
      }
      var credentials := world.resolveCredentials(p.namespace, e.credentials);
      if credentials.None? || !ValidEndpoint(world, e, url.value, credentials.value) || !KnownType(e.etype) {
        manager.NotCollecting(id);
        return;
      }
      manager.StartCollecting(id, e.enabled);
    }

    method StopCollecting(p: Pod)
      requires manager.Valid()
      modifies this, manager, manager.tracker
      ensures manager.Valid() && Abs() == StopPod(p.Identifier(), old(Abs()))
    {
      if p.Identifier() in collectorIds {
        StopPodCollectors(p.Identifier());
      }
    }

    method StopPodCollectors(pod: string)
      requires manager.Valid() && pod in collectorIds
      modifies this, manager, manager.tracker
      ensures manager.Valid() && Abs() == StopPod(pod, old(Abs()))
    {
      hide T.PurgeSpec;
      var ids := collectorIds[pod];
      for i := 0 to |ids|
        invariant manager.Valid() && Abs() == StopAll(ids[..i], old(Abs())) && collectorIds == old(collectorIds)
      {
        assert ids[..i + 1][..i] == ids[..i];
        manager.StopCollecting(ids[i]);
      }
      assert ids[..|ids|] == ids;
      collectorIds := collectorIds - {pod};
    }

    /** Stops the collectors of every pod, in the table's iteration order. */
    method Stop() returns (ghost order: seq<string>)
      requires manager.Valid()
      modifies this, manager, manager.tracker
      ensures manager.Valid() && Enumerates(order, old(collectorIds.Keys))
      ensures Abs() == StopPods(order, old(Abs()))
      ensures collectorIds == map[]
    {
      hide StopPod;
      order := [];
      var todo := collectorIds.Keys;
      while todo != {}
        invariant manager.Valid() && todo == collectorIds.Keys <= old(collectorIds.Keys)
        invariant Enumerates(order, old(collectorIds.Keys) - todo)
        invariant Abs() == StopPods(order, old(Abs()))
        decreases todo
      {
        var pod :| pod in todo;
        StopPodKeys(pod, Abs());
        StopPodCollectors(pod);
        todo := todo - {pod};
        assert (order + [pod])[..|order|] == order;
        order := order + [pod];
      }
      assert collectorIds == map[];
    }
  }

  lemma {:induction false} StopAllKeepsIds(ids: seq<CollectorID>, t: Tables)
    ensures StopAll(ids, t).collectorIds == t.collectorIds
  {
    if ids != [] { StopAllKeepsIds(ids[..|ids| - 1], t); }
  }

  lemma StopPodKeys(pod: string, t: Tables)
    ensures StopPod(pod, t).collectorIds == t.collectorIds - {pod}
  {
    if pod in t.collectorIds { StopAllKeepsIds(t.collectorIds[pod], t); }
  }

  /** k8s/discovery.go */
  class Discovery {
    const pods: PodInventory
    const configMaps: ConfigMaps
    const consumer: NodeEventConsumer
    var configMapWatchers: set<string>

    constructor (c: NodeEventConsumer)
      ensures consumer == c && fresh(pods) && fresh(configMaps)
      ensures pods.discoveredPods == map[] && configMaps.entries == map[] && configMapWatchers == {}
    {
      consumer, configMapWatchers := c, {};
      pods := new PodInventory();
      configMaps := new ConfigMaps();
    }

    ghost function Abs(): Agent
      reads this, pods, configMaps, consumer, consumer.manager, consumer.manager.tracker
    {
      Agent(pods.discoveredPods, configMaps.entries, configMapWatchers, consumer.Abs())
    }

    /** One event of the pod watcher, up to the point where its node event is fully consumed. */
    method HandlePodEvent(change: Change, p: Pod)
      requires consumer.manager.Valid()
      modifies this, pods, configMaps, consumer, consumer.manager, consumer.manager.tracker
      ensures consumer.manager.Valid()
      ensures Abs() == PodStep(consumer.world, consumer.Max(), old(Abs()), change, p)
    {
      hide Consume, EntryFor;
      match change
      case Added =>
        pods.AddPod(p);
        SendDueToChangedPod(Added, p);
        WatchConfigMap(p.namespace);
      case Deleted =>
        pods.RemovePod(p);
        SendDueToChangedPod(Deleted, p);
        var inUse := pods.HasPodIn(p.namespace);
        if !inUse {
          UnwatchConfigMap(p.namespace);
        }
      case Modified =>
        pods.AddPod(p);
        SendDueToChangedPod(Modified, p);
        WatchConfigMap(p.namespace);
    }

    method SendDueToChangedPod(change: Change, p: Pod)
      requires consumer.manager.Valid()
      modifies consumer, consumer.manager, consumer.manager.tracker
      ensures consumer.manager.Valid()
      ensures consumer.Abs()
           == Consume(consumer.world, consumer.Max(), change, p, EntryFor(configMaps.entries, p), old(consumer.Abs()))
    {
      hide Consume;
      var entry: Option<Entry> := None;
      if VOLUME_NAME in p.volumes {
        entry := configMaps.GetEntry(p.namespace, p.volumes[VOLUME_NAME]);
      }
      consumer.ConsumeNodeEvent(change, p, entry);
    }

    method WatchConfigMap(namespace: string)
      modifies this
      ensures configMapWatchers == old(configMapWatchers) + {namespace}
    {
      if namespace !in configMapWatchers {
        configMapWatchers := configMapWatchers + {namespace};
      }
    }

    method UnwatchConfigMap(namespace: string)
      modifies this, configMaps
      ensures configMapWatchers == old(configMapWatchers) - {namespace}
      ensures configMaps.entries == old(configMaps.entries) - {namespace}
    {
      if namespace in configMapWatchers {
        configMapWatchers := configMapWatchers - {namespace};
      }
      configMaps.ClearNamespace(namespace);
    }

    /** One event of a namespace's config map watcher; `order` is the order in which the
        inventory was walked. */
    method HandleConfigMapEvent(change: Change, namespace: string, name: string, payload: Payload)
      returns (ghost order: seq<string>)
      requires consumer.manager.Valid()
      modifies configMaps, consumer, consumer.manager, consumer.manager.tracker
      ensures consumer.manager.Valid() && Enumerates(order, pods.discoveredPods.Keys)
      ensures Abs()
           == ConfigMapStep(consumer.world, consumer.Max(), old(Abs()), change, namespace, name, payload, order)
    {
      hide Consume, FanOut;
      if payload.NoEntry? || (change != Deleted && payload.Unreadable?) {
        order := Enumeration(pods.discoveredPods.Keys);
        return;
      }
      if change == Deleted {
        configMaps.RemoveEntry(namespace, name);
        order := SendDueToChangedConfigMap(change, namespace, name, None);
      } else {
        if change == Modified {
          configMaps.RemoveEntry(namespace, name);
          ReplaceEntry(old(configMaps.entries), namespace, name, payload.entry);
        }
        configMaps.AddEntry(namespace, name, payload.entry);
        assert configMaps.entries == WithEntry(old(configMaps.entries), namespace, name, payload.entry);
        order := SendDueToChangedConfigMap(change, namespace, name, Some(payload.entry));
      }
    }

    method SendDueToChangedConfigMap(change: Change, namespace: string, name: string, entry: Option<Entry>)
      returns (ghost order: seq<string>)
      requires consumer.manager.Valid()
      modifies consumer, consumer.manager, consumer.manager.tracker
      ensures consumer.manager.Valid() && Enumerates(order, pods.discoveredPods.Keys)
      ensures consumer.Abs() == FanOut(consumer.world, consumer.Max(), pods.discoveredPods, change, namespace, name,
                                       entry, order, old(consumer.Abs()))
    {
      hide Consume, Enumerates;
      order := [];
      EnumeratesNone<string>();
      var inventory := pods.discoveredPods;
      var todo := inventory.Keys;
      assert inventory.Keys - todo == {};
      while todo != {}
        invariant consumer.manager.Valid() && todo <= inventory.Keys
        invariant Enumerates(order, inventory.Keys - todo)
        invariant forall i :: 0 <= i < |order| ==> order[i] in inventory
        invariant consumer.Abs() == FanOut(consumer.world, consumer.Max(), inventory, change, namespace, name,
                                           entry, order, old(consumer.Abs()))
        decreases todo
      {
        var k :| k in todo;
        ghost var seen := inventory.Keys - todo;
        todo := todo - {k};
        var p := inventory[k];
        assert (order + [k])[..|order|] == order;
        EnumeratesAppend(order, seen, k);
        assert seen + {k} == inventory.Keys - todo;
        order := order + [k];
        if p.namespace == namespace && VOLUME_NAME in p.volumes && p.volumes[VOLUME_NAME] == name {
          consumer.ConsumeNodeEvent(change, p, entry);
        }
      }
      assert inventory.Keys - todo == inventory.Keys;
    }

    /** Discovery's own stop: no namespace stays watched, and its config maps are forgotten. */
    method Stop()
      modifies this, configMaps
      ensures configMapWatchers == {} && configMaps.entries == old(configMaps.entries) - old(configMapWatchers)
    {
      var todo := configMapWatchers;
      while todo != {}
        invariant todo == configMapWatchers <= old(configMapWatchers)
        invariant configMaps.entries == old(configMaps.entries) - (old(configMapWatchers) - todo)
        decreases todo
      {
        var namespace :| namespace in todo;
        todo := todo - {namespace};
        UnwatchConfigMap(namespace);
      }
    }

    /** The agent's orderly shutdown. */
    method Shutdown() returns (ghost order: seq<string>)
      requires consumer.manager.Valid()
      modifies this, configMaps, consumer, consumer.manager, consumer.manager.tracker
      ensures consumer.manager.Valid() && consumer.manager.running == {}
      ensures Enumerates(order, old(consumer.collectorIds.Keys))
      ensures var stopped := StopConsumer(old(Abs()), order);
        Abs() == stopped.(tables := StopCollectingAll(stopped.tables))
    {
      Stop();
      order := consumer.Stop();
      consumer.manager.StopCollectingAll();
    }
  }

  lemma ReplaceEntry(cms: ConfigMapCache, namespace: string, name: string, entry: Entry)
    ensures WithEntry(WithoutEntry(cms, namespace, name), namespace, name, entry)
         == WithEntry(cms, namespace, name, entry)
  {
    if namespace in cms {
      assert (cms[namespace] - {name})[name := entry] == cms[namespace][name := entry];
    }
  }

  /** A metric that is given no ID is stored under its name. */
  function Filled(m: MonitoredMetric): MonitoredMetric {
    if m.id == "" then m.(id := m.name) else m
  }

  /** Validation's loop over the metrics, in the array that a config map entry shares with every pod
      using it: IDs are filled in up to the first invalid metric, the `n`-th. */
  method ValidateMetrics(etype: string, metrics: array<MonitoredMetric>) returns (ok: bool, ghost n: nat)
    modifies metrics
    ensures ok <==> forall k :: 0 <= k < metrics.Length ==> ValidMetric(etype, old(metrics[k]))
    ensures n <= metrics.Length && (!ok ==> n < metrics.Length && !ValidMetric(etype, old(metrics[n])))
    ensures forall k :: 0 <= k < n ==> ValidMetric(etype, old(metrics[k])) && metrics[k] == Filled(old(metrics[k]))
    ensures forall k :: n <= k < metrics.Length ==> metrics[k] == old(metrics[k])
  {
    n := 0;
    for i := 0 to metrics.Length
      invariant n == i
      invariant forall k :: 0 <= k < i ==> ValidMetric(etype, old(metrics[k])) && metrics[k] == Filled(old(metrics[k]))
      invariant forall k :: i <= k < metrics.Length ==> metrics[k] == old(metrics[k])
    {
      if !ValidMetric(etype, metrics[i]) { return false, i; }
      if metrics[i].id == "" {
        metrics[i] := metrics[i].(id := metrics[i].name);
      }
      n := i + 1;
    }
    ok := true;
  }
}
