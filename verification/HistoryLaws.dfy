/** What the agent's tables hold and which collectors run, said in terms of the events that happened. */
module HistoryLaws {
  import opened Wrappers
  import opened Text
  import opened Series
  import opened ReconciliationSpec
  import opened ReconciliationLaws
  import opened EndpointLaws

  /* The cached config maps. */

  /** The config map is reported with these endpoints, as new or as changed. */
  ghost predicate Reports(e: Event, namespace: string, name: string, es: Entry) {
    match e
    case ConfigMapEvent(Added, ns, n, payload, _) => ns == namespace && n == name && payload == Readable(es)
    case ConfigMapEvent(Modified, ns, n, payload, _) => ns == namespace && n == name && payload == Readable(es)
    case _ => false
  }

  /** The config map is deleted while it has the agent's entry, or its namespace loses the last pod. */
  ghost predicate Forgets(a: Agent, e: Event, namespace: string, name: string) {
    match e
    case ConfigMapEvent(Deleted, ns, n, payload, _) => ns == namespace && n == name && payload != NoEntry
    case PodEvent(Deleted, p) =>
      p.namespace == namespace && forall k :: k in a.pods && a.pods[k].namespace == namespace ==> k == p.Identifier()
    case _ => false
  }

  ghost predicate Decides(a: Agent, e: Event, namespace: string, name: string) {
    Forgets(a, e, namespace, name) || exists es :: Reports(e, namespace, name, es)
  }

  ghost predicate Cached(a: Agent, namespace: string, name: string, es: Entry) {
    namespace in a.configMaps && name in a.configMaps[namespace] && a.configMaps[namespace][name] == es
  }

  /** One event: a reported entry is cached, a forgotten one is not, and every other entry stays. */
  lemma CachedAfter(w: World, max: int, a: Agent, e: Event, namespace: string, name: string, es: Entry)
    requires Possible(a, e)
    ensures Cached(Step(w, max, a, e), namespace, name, es)
       <==> Reports(e, namespace, name, es) || (!Decides(a, e, namespace, name) && Cached(a, namespace, name, es))
  {
    hide Consume, FanOut, EntryFor, ExternalStep, T.AddSpec, Pod.Identifier;
    match e
    case PodEvent(change, p) =>
      LastOfNamespace(a, p, namespace);
    case ConfigMapEvent(change, ns, n, payload, order) =>
      if payload.Readable? && change != Deleted { assert Reports(e, ns, n, payload.entry); }
    case _ =>
  }

  lemma LastOfNamespace(a: Agent, p: Pod, namespace: string)
    ensures NamespaceInUse(a.pods - {p.Identifier()}, namespace)
       <==> exists k :: k in a.pods && a.pods[k].namespace == namespace && k != p.Identifier()
  {
    hide Pod.Identifier;
    var rest := a.pods - {p.Identifier()};
    if k :| k in a.pods && a.pods[k].namespace == namespace && k != p.Identifier() {
      assert k in rest && rest[k].namespace == namespace;
    }
  }

  /** Event `i` reported the entry, and no later one up to `n` decided on it. */
  ghost predicate ReportedLast(events: seq<Event>, states: seq<Agent>, i: int, n: nat,
                               namespace: string, name: string, es: Entry)
    requires |states| == |events| + 1 && n < |states|
  {
    && 0 <= i < n && Reports(events[i], namespace, name, es)
    && forall j :: i < j < n ==> !Decides(states[j], events[j], namespace, name)
  }

  /** In every state of every run the cached entry is the one reported last, if it was not forgotten since. */
  lemma {:induction false} EveryRunCaches(w: World, max: int, events: seq<Event>, states: seq<Agent>, n: nat,
                                          namespace: string, name: string, es: Entry)
    requires IsRun(w, max, events, states) && n < |states|
    ensures Cached(states[n], namespace, name, es)
       <==> exists i :: ReportedLast(events, states, i, n, namespace, name, es)
  {
    hide Cached, Reports, Decides, Step, Possible;
    if n == 0 {
      NothingCached(namespace, name, es);
    } else {
      EveryRunCaches(w, max, events, states, n - 1, namespace, name, es);
      CachedAfter(w, max, states[n - 1], events[n - 1], namespace, name, es);
      if Reports(events[n - 1], namespace, name, es) {
        assert ReportedLast(events, states, n - 1, n, namespace, name, es);
      } else if Cached(states[n], namespace, name, es) {
        var i :| ReportedLast(events, states, i, n - 1, namespace, name, es);
        assert ReportedLast(events, states, i, n, namespace, name, es);
      }
      if i :| ReportedLast(events, states, i, n, namespace, name, es) {
        if i < n - 1 { assert ReportedLast(events, states, i, n - 1, namespace, name, es); }
      }
    }
  }

  lemma NothingCached(namespace: string, name: string, es: Entry)
    ensures !Cached(ReconciliationLaws.Start(), namespace, name, es)
  {}

  /** An event without the agent's entry changes nothing, and neither does an entry that does not parse, unless
      the config map is deleted. */
  lemma UnusableChangesNothing(w: World, max: int, a: Agent, e: Event)
    requires Possible(a, e) && e.ConfigMapEvent?
    requires e.payload == NoEntry || (e.payload == Unreadable && e.change != Deleted)
    ensures Step(w, max, a, e) == a
  {}

  /* The inventory of pods. */

  ghost predicate About(e: Event, k: string) {
    e.PodEvent? && e.pod.Identifier() == k
  }

  ghost predicate SeenLast(events: seq<Event>, i: int, n: nat, k: string, p: Pod)
    requires n <= |events|
  {
    && 0 <= i < n && About(events[i], k) && events[i].pod == p && events[i].change != Deleted
    && forall j :: i < j < n ==> !About(events[j], k)
  }

  lemma PodAfter(w: World, max: int, a: Agent, e: Event, k: string, p: Pod)
    requires Possible(a, e)
    ensures var a' := Step(w, max, a, e);
      (k in a'.pods && a'.pods[k] == p)
      <==> if About(e, k) then e.change != Deleted && e.pod == p else k in a.pods && a.pods[k] == p
  {
    hide Consume, FanOut, EntryFor, ExternalStep, T.AddSpec, Pod.Identifier;
  }

  /** In every state of every run, the inventory holds a pod as it was last reported, unless it was deleted. */
  lemma {:induction false} EveryRunKnowsPods(w: World, max: int, events: seq<Event>, states: seq<Agent>, n: nat,
                                             k: string, p: Pod)
    requires IsRun(w, max, events, states) && n < |states|
    ensures (k in states[n].pods && states[n].pods[k] == p) <==> exists i :: SeenLast(events, i, n, k, p)
  {
    hide Step, Possible, Pod.Identifier;
    if n > 0 {
      var e := events[n - 1];
      EveryRunKnowsPods(w, max, events, states, n - 1, k, p);
      PodAfter(w, max, states[n - 1], e, k, p);
      if About(e, k) {
        if e.change != Deleted && e.pod == p { assert SeenLast(events, n - 1, n, k, p); }
      } else if k in states[n].pods && states[n].pods[k] == p {
        var i :| SeenLast(events, i, n - 1, k, p);
        assert SeenLast(events, i, n, k, p);
      }
      if i :| SeenLast(events, i, n, k, p) {
        if i < n - 1 { assert SeenLast(events, i, n - 1, k, p); }
      }
    }
  }

  /* What is wanted. */

  /** Pod `p` was last reported so, names a config map in its volume that was last reported with an endpoint to
      collect, and `c` is the ID of that. */
  ghost predicate Configured(w: World, events: seq<Event>, states: seq<Agent>, n: nat, c: CollectorID,
                             p: Pod, es: Entry)
    requires |states| == |events| + 1 && n < |states|
  {
    && (exists i :: SeenLast(events, i, n, c.podId, p))
    && "hawkular-openshift-agent" in p.volumes
    && (exists i :: ReportedLast(events, states, i, n, p.namespace, p.volumes["hawkular-openshift-agent"], es))
    && exists i, url, credentials ::
         0 <= i < |es| && Collectable(w, p, es[i], url, credentials) && c == IdAt(p, es[i].etype, url)
  }

  /** In every run a collector is wanted if and only if what was reported last configures it. */
  lemma WantedIsConfigured(w: World, max: int, events: seq<Event>, states: seq<Agent>, n: nat, c: CollectorID)
    requires IsRun(w, max, events, states) && n < |states|
    ensures Wanted(w, states[n], c) <==> exists p, es :: Configured(w, events, states, n, c, p, es)
  {
    hide IsRun, Collectable, IdAt, Startable, SeenLast, ReportedLast, Pod.Identifier;
    RunStates(w, max, events, states);
    var a := states[n];
    WantedWrittenOut(w, a, c);
    if Wanted(w, a, c) {
      var p := a.pods[c.podId];
      var name := p.volumes["hawkular-openshift-agent"];
      var es := a.configMaps[p.namespace][name];
      EveryRunKnowsPods(w, max, events, states, n, c.podId, p);
      EveryRunCaches(w, max, events, states, n, p.namespace, name, es);
      StartableExact(w, p, es, c);
      assert Configured(w, events, states, n, c, p, es);
    }
    if p, es :| Configured(w, events, states, n, c, p, es) {
      EveryRunKnowsPods(w, max, events, states, n, c.podId, p);
      EveryRunCaches(w, max, events, states, n, p.namespace, p.volumes["hawkular-openshift-agent"], es);
      StartableExact(w, p, es, c);
    }
  }

  lemma WantedWrittenOut(w: World, a: Agent, c: CollectorID)
    ensures Wanted(w, a, c) <==>
      && c.podId in a.pods
      && var p := a.pods[c.podId];
         && "hawkular-openshift-agent" in p.volumes
         && p.namespace in a.configMaps && p.volumes["hawkular-openshift-agent"] in a.configMaps[p.namespace]
         && c in Startable(w, p, a.configMaps[p.namespace][p.volumes["hawkular-openshift-agent"]])
  {
    hide Startable;
  }

  /* What runs after a change of a config map. */

  predicate Mounts(p: Pod, namespace: string, name: string) {
    p.namespace == namespace && "hawkular-openshift-agent" in p.volumes
    && p.volumes["hawkular-openshift-agent"] == name
  }

  /** Which of a pod's collectors run after the config map its volume names is reported or deleted: the ones
      listed; after ADDED also those running before. */
  lemma ConfigMapChanged(w: World, max: int, a: Agent, change: Change, namespace: string, name: string,
                         payload: Payload, order: seq<string>, c: CollectorID)
    requires Invariant(w, max, a) && Possible(a, ConfigMapEvent(change, namespace, name, payload, order))
    requires c.podId in a.pods && Mounts(a.pods[c.podId], namespace, name)
    requires payload.Readable? || (change == Deleted && payload == Unreadable)
    ensures var p := a.pods[c.podId];
      var a' := Step(w, max, a, ConfigMapEvent(change, namespace, name, payload, order));
      c in a'.tables.tickers <==>
        match change
        case Deleted => false
        case Modified => c in Startable(w, p, payload.entry)
        case Added => c in Startable(w, p, payload.entry) || c in a.tables.tickers
  {
    hide Invariant, Startable, ConfigMapStep, Pod.Identifier;
    ConfigMapStepTickers(w, max, a, change, namespace, name, payload, order);
  }

  /** The collectors of every other pod are left alone. */
  lemma OtherPodsKeepRunning(w: World, max: int, a: Agent, change: Change, namespace: string, name: string,
                             payload: Payload, order: seq<string>, c: CollectorID)
    requires Invariant(w, max, a) && Possible(a, ConfigMapEvent(change, namespace, name, payload, order))
    requires c.podId !in a.pods || !Mounts(a.pods[c.podId], namespace, name)
    ensures var a' := Step(w, max, a, ConfigMapEvent(change, namespace, name, payload, order));
      c in a'.tables.tickers <==> c in a.tables.tickers
  {
    hide Invariant, Startable, ConfigMapStep, Pod.Identifier;
    if payload.NoEntry? || (payload.Unreadable? && change != Deleted) {
      UnusableChangesNothing(w, max, a, ConfigMapEvent(change, namespace, name, payload, order));
    } else {
      ConfigMapStepTickers(w, max, a, change, namespace, name, payload, order);
    }
  }

  /* What runs. */

  /** The event stops the pod's collectors: the pod is changed or deleted, or its config map is changed to one
      that can be read, or deleted. */
  predicate Stops(a: Agent, e: Event, pod: string) {
    match e
    case PodEvent(change, p) => (change == Modified || change == Deleted) && p.Identifier() == pod
    case ConfigMapEvent(change, namespace, name, payload, _) =>
      && ((change == Modified && payload.Readable?) || (change == Deleted && payload != NoEntry))
      && pod in a.pods && Mounts(a.pods[pod], namespace, name)
    case _ => false
  }

  lemma StopsIsRestarts(a: Agent, e: Event, pod: string)
    ensures Stops(a, e, pod) <==> Restarts(a, e, pod)
  {
    hide Pod.Identifier;
  }

  ghost predicate ConfiguredSince(w: World, events: seq<Event>, states: seq<Agent>, m: nat, n: nat, c: CollectorID)
    requires |states| == |events| + 1 && m <= n < |states|
  {
    && (exists p, es :: Configured(w, events, states, m, c, p, es))
    && forall i :: m <= i < n ==> !Stops(states[i], events[i], c.podId)
  }

  /** In every state of every run, a pod's collector runs if and only if at some time the events so far
      configured it, and none has stopped the pod's collectors since. */
  lemma EveryRunRunsConfigured(w: World, max: int, events: seq<Event>, states: seq<Agent>, n: nat, c: CollectorID)
    requires IsRun(w, max, events, states) && n < |states| && c.podId != ""
    ensures c in states[n].tables.tickers
       <==> exists m: nat :: m <= n && ConfiguredSince(w, events, states, m, n, c)
  {
    hide IsRun, Configured, Wanted, Stops, Restarts;
    RunStates(w, max, events, states);
    EveryRunRunsWanted(w, max, events, states, n, c);
    forall m: nat | m <= n
      ensures ConfiguredSince(w, events, states, m, n, c) <==> WantedSince(w, events, states, m, n, c)
    {
      WantedIsConfigured(w, max, events, states, m, c);
      forall i | m <= i < n ensures Stops(states[i], events[i], c.podId) <==> Restarts(states[i], events[i], c.podId) {
        StopsIsRestarts(states[i], events[i], c.podId);
      }
    }
  }

  /** In particular all that is configured now runs. */
  lemma ConfiguredRuns(w: World, max: int, events: seq<Event>, states: seq<Agent>, n: nat, c: CollectorID,
                       p: Pod, es: Entry)
    requires IsRun(w, max, events, states) && n < |states| && |states| == |events| + 1
    requires c.podId != "" && Configured(w, events, states, n, c, p, es)
    ensures c in states[n].tables.tickers
  {
    hide IsRun, Configured;
    EveryRunRunsConfigured(w, max, events, states, n, c);
    assert ConfiguredSince(w, events, states, n, n, c);
  }

  /* What is tracked. */

  lemma NoteKeepsMetrics(tracked: T.Tracked, max: int, id: CollectorID, c: CollectorID)
    ensures T.MetricsOf(T.AddSpec(tracked, max, id, []), c) == T.MetricsOf(tracked, c)
  {}

  lemma PurgeClearsMetrics(tracked: T.Tracked, id: CollectorID, c: CollectorID)
    ensures T.MetricsOf(T.PurgeSpec(tracked, id), c) == if c == id then {} else T.MetricsOf(tracked, c)
  {}

  /** A collector starts with no tracked metric, and starting it takes none from another. */
  lemma {:induction false} StartsEmpty(w: World, max: int, p: Pod, es: Entry, t: Tables, c: CollectorID)
    ensures T.MetricsOf(StartPod(w, max, p, es, t).tracked, c)
         == if c in Startable(w, p, es) then {} else T.MetricsOf(t.tracked, c)
  {
    hide Decide, Remember, T.AddSpec, T.PurgeSpec, T.MetricsOf;
    if es != [] {
      var before := StartPod(w, max, p, es[..|es| - 1], t);
      StartsEmpty(w, max, p, es[..|es| - 1], t, c);
      var d := Decide(w, p, es[|es| - 1]);
      if !d.Skip? {
        RememberKeeps(before, d.id);
        NoteKeepsMetrics(before.tracked, max, d.id, c);
        NoteKeepsMetrics(T.PurgeSpec(before.tracked, d.id), max, d.id, c);
        PurgeClearsMetrics(before.tracked, d.id, c);
      }
    }
  }

  lemma StoppedMetrics(pod: string, t: Tables, max: int, c: CollectorID)
    requires Books(t, max) && pod != ""
    ensures T.MetricsOf(StopPod(pod, t).tracked, c) == if c.podId == pod then {} else T.MetricsOf(t.tracked, c)
  {
    hide PodBook, StopAll;
    if pod in t.collectorIds {
      Booked(t, pod);
      PodBookIds(t, pod);
      StopAllTracked(t.collectorIds[pod], t, pod);
      StoppedPodForgotten(t, pod);
    }
  }

  /** The metrics tracked for a collector after one node event: none if its pod was stopped or it was started,
      and otherwise as before. */
  lemma TrackedAfterNodeEvent(w: World, max: int, change: Change, p: Pod, entry: Option<Entry>, t: Tables,
                              c: CollectorID)
    requires Books(t, max) && p.Identifier() != ""
    ensures T.MetricsOf(Consume(w, max, change, p, entry, t).tracked, c)
         == if c.podId == p.Identifier()
               && (change != Added || (entry.Some? && c in Startable(w, p, entry.value)))
            then {} else T.MetricsOf(t.tracked, c)
  {
    hide Books, StartPod, StopPod, Startable, T.MetricsOf, Pod.Identifier;
    StoppedMetrics(p.Identifier(), t, max, c);
    if entry.Some? {
      StartsEmpty(w, max, p, entry.value, t, c);
      StartsEmpty(w, max, p, entry.value, StopPod(p.Identifier(), t), c);
      OwnIds(w, p, entry.value);
    }
  }

  lemma OwnIds(w: World, p: Pod, es: Entry)
    ensures forall c :: c in Startable(w, p, es) ==> c.podId == p.Identifier()
  {}

  /** A tick adds IDs of its batch to its own collector: all of them, unless the pod is full afterwards; nothing
      else changes. */
  lemma TickTracks(w: World, max: int, a: Agent, id: CollectorID, batch: seq<MetricHeader>, c: CollectorID)
    requires Invariant(w, max, a) && Possible(a, Tick(id, batch))
    ensures var a' := Step(w, max, a, Tick(id, batch));
      && a' == a.(tables := a.tables.(tracked := a'.tables.tracked))
      && T.MetricsOf(a.tables.tracked, c) <= T.MetricsOf(a'.tables.tracked, c)
      && (c != id ==> T.MetricsOf(a'.tables.tracked, c) == T.MetricsOf(a.tables.tracked, c))
      && T.MetricsOf(a'.tables.tracked, id) <= T.MetricsOf(a.tables.tracked, id) + Ids(batch)
      && (Ids(batch) <= T.MetricsOf(a'.tables.tracked, id)
          || T.PodTotal(a'.tables.tracked, id.podId) == T.Limit(max))
  {
    hide Books, T.AddSpec, T.MetricsOf, T.PodTotal, Wanted;
    var tracked := a.tables.tracked;
    var tracked' := T.AddSpec(tracked, max, id, batch);
    PodWithinLimit(a.tables, max, id.podId);
    T.AddSpecLaws(tracked, max, id, batch);
    if T.Missing(batch, T.MetricsOf(tracked', id)) == [] { NoneMissing(batch, T.MetricsOf(tracked', id)); }
  }

  lemma PodWithinLimit(t: Tables, max: int, pod: string)
    requires Books(t, max)
    ensures T.PodTotal(t.tracked, pod) <= T.Limit(max)
  {
    hide PodsBooked, TickersTracked;
    if pod !in t.tracked { assert T.Pairs(map[]) == {}; }
  }

  lemma {:induction false} NoneMissing(ms: seq<MetricHeader>, ids: set<string>)
    requires T.Missing(ms, ids) == []
    ensures Ids(ms) <= ids
  {
    if ms != [] {
      NoneMissing(ms[1..], ids);
      assert ms == [ms[0]] + ms[1..];
    }
  }
}
