/** What holds in every reachable state of the reconciliation. */
module ReconciliationLaws {
  import opened Wrappers
  import opened Text
  import opened Series
  import opened ReconciliationSpec

  /* The bookkeeping tables agree. */

  ghost function EndpointIds(ids: seq<CollectorID>): set<string> {
    set id | id in ids :: id.endpointId
  }

  /** A pod's IDs: at least one, no duplicates, and exactly the endpoints the tracker has. */
  ghost predicate PodBook(t: Tables, pod: string)
    requires pod in t.collectorIds
  {
    var ids := t.collectorIds[pod];
    && ids != []
    && (forall i, j :: 0 <= i < j < |ids| ==> ids[i] != ids[j])
    && (forall i :: 0 <= i < |ids| ==> ids[i].podId == pod)
    && pod in t.tracked
    && t.tracked[pod].Keys == EndpointIds(ids)
  }

  /** Every ticker's ID is in the tracker. */
  ghost predicate TickersTracked(t: Tables) {
    forall c :: c in t.tickers ==> c.endpointId in T.EndpointsOf(t.tracked, c.podId)
  }

  /** Every pod the tracker knows is the consumer's, except the external endpoints' pod "". */
  ghost predicate PodsBooked(t: Tables) {
    && "" !in t.collectorIds
    && (forall pod :: pod in t.collectorIds ==> PodBook(t, pod))
    && (forall pod :: pod in t.tracked && pod != "" ==> pod in t.collectorIds)
  }

  ghost predicate Books(t: Tables, max: int) {
    T.Bounded(t.tracked, max) && PodsBooked(t) && TickersTracked(t)
  }

  lemma PodBookFrame(t: Tables, t': Tables, pod: string)
    requires pod in t.collectorIds && PodBook(t, pod)
    requires pod in t'.collectorIds && t'.collectorIds[pod] == t.collectorIds[pod]
    requires pod in t'.tracked && t'.tracked[pod].Keys == t.tracked[pod].Keys
    ensures PodBook(t', pod)
  {}

  lemma Booked(t: Tables, pod: string)
    requires PodsBooked(t) && pod in t.collectorIds
    ensures PodBook(t, pod) && pod in t.tracked
  {}

  /** `tracked'` differs from `tracked` by the presence of one more endpoint. */
  ghost predicate Touched(tracked: T.Tracked, tracked': T.Tracked, id: CollectorID) {
    && id.podId in tracked' && tracked'[id.podId].Keys == T.EndpointsOf(tracked, id.podId).Keys + {id.endpointId}
    && (forall q :: q != id.podId ==> (q in tracked' <==> q in tracked))
    && (forall q :: q != id.podId && q in tracked ==> tracked'[q] == tracked[q])
  }

  lemma NoteTouches(tracked: T.Tracked, max: int, id: CollectorID)
    requires T.Bounded(tracked, max)
    ensures var tracked' := T.AddSpec(tracked, max, id, []); Touched(tracked, tracked', id) && T.Bounded(tracked', max)
  {
    T.ApplyKeepsBounded(tracked, max, T.Add(id, []));
  }

  lemma RestartTouches(tracked: T.Tracked, max: int, id: CollectorID)
    requires T.Bounded(tracked, max)
    ensures var tracked' := T.AddSpec(T.PurgeSpec(tracked, id), max, id, []);
      Touched(tracked, tracked', id) && T.Bounded(tracked', max)
  {
    var purged := T.PurgeSpec(tracked, id);
    T.ApplyKeepsBounded(tracked, max, T.Purge(id));
    T.PurgeSpecLaws(tracked, id);
    NoteTouches(purged, max, id);
  }

  lemma RememberIds(t: Tables, id: CollectorID)
    ensures var ids' := Remember(t, id).collectorIds;
      && ids'.Keys == t.collectorIds.Keys + {id.podId}
      && (forall q :: q in t.collectorIds && q != id.podId ==> ids'[q] == t.collectorIds[q])
      && EndpointIds(ids'[id.podId])
         == (if id.podId in t.collectorIds then EndpointIds(t.collectorIds[id.podId]) else {}) + {id.endpointId}
  {
    if id.podId in t.collectorIds {
      var ids := t.collectorIds[id.podId];
      assert forall x :: x in ids + [id] <==> x in ids || x == id;
    }
  }

  lemma RememberedPodBook(t: Tables, t': Tables, id: CollectorID)
    requires id.podId in t.collectorIds ==> PodBook(t, id.podId)
    requires id.podId !in t.collectorIds ==> T.EndpointsOf(t.tracked, id.podId) == map[]
    requires t'.collectorIds == Remember(t, id).collectorIds
    requires Touched(t.tracked, t'.tracked, id)
    ensures PodBook(t', id.podId)
  {
    RememberIds(t, id);
  }

  lemma TouchKeepsTickers(t: Tables, t': Tables, id: CollectorID)
    requires TickersTracked(t) && Touched(t.tracked, t'.tracked, id) && t'.tickers <= t.tickers + {id}
    ensures TickersTracked(t')
  {
    forall c | c in t'.tickers ensures c.endpointId in T.EndpointsOf(t'.tracked, c.podId) {
      if c != id { assert c.endpointId in T.EndpointsOf(t.tracked, c.podId); }
    }
  }

  /** Remembering an ID while its endpoint appears in the tracker keeps the tables in step. */
  lemma TouchKeepsBooks(t: Tables, t': Tables, max: int, id: CollectorID)
    requires Books(t, max) && id.podId != ""
    requires t'.collectorIds == Remember(t, id).collectorIds
    requires Touched(t.tracked, t'.tracked, id) && T.Bounded(t'.tracked, max)
    requires t'.tickers <= t.tickers + {id}
    ensures Books(t', max)
  {
    hide T.Bounded, PodBook, Remember, TickersTracked;
    RememberIds(t, id);
    RememberedPodBook(t, t', id);
    TouchKeepsTickers(t, t', id);
    forall pod | pod in t'.collectorIds ensures PodBook(t', pod) {
      if pod != id.podId {
        Booked(t, pod);
        PodBookFrame(t, t', pod);
      }
    }
  }

  /** The same for an endpoint that needs no remembering: an external one, or one tracked already. */
  lemma TouchKeepsIds(t: Tables, t': Tables, max: int, id: CollectorID)
    requires Books(t, max) && (id.podId == "" || id.endpointId in T.EndpointsOf(t.tracked, id.podId))
    requires t'.collectorIds == t.collectorIds
    requires Touched(t.tracked, t'.tracked, id) && T.Bounded(t'.tracked, max)
    requires t'.tickers <= t.tickers + {id}
    ensures Books(t', max)
  {
    hide T.Bounded, PodBook, TickersTracked;
    TouchKeepsTickers(t, t', id);
    forall pod | pod in t'.collectorIds ensures PodBook(t', pod) {
      Booked(t, pod);
      PodBookFrame(t, t', pod);
    }
  }

  lemma StartEndpointLaws(w: World, max: int, p: Pod, e: Endpoint, t: Tables)
    requires Books(t, max) && p.Identifier() != ""
    ensures var t', d := StartEndpoint(w, max, p, e, t), Decide(w, p, e);
      && Books(t', max)
      && t'.tickers == t.tickers + (if d.Start? then {d.id} else {})
      && t'.collectorIds.Keys <= t.collectorIds.Keys + {p.Identifier()}
  {
    hide Books, T.AddSpec, T.PurgeSpec, Decide, Remember;
    var t', d := StartEndpoint(w, max, p, e, t), Decide(w, p, e);
    if d.Skip? { return; }
    assert T.Bounded(t.tracked, max) by { BooksBound(t, max); }
    NoteTouches(t.tracked, max, d.id);
    RestartTouches(t.tracked, max, d.id);
    RememberIds(t, d.id);
    RememberKeeps(t, d.id);
    TouchKeepsBooks(t, t', max, d.id);
  }

  lemma RememberKeeps(t: Tables, id: CollectorID)
    ensures Remember(t, id).tickers == t.tickers && Remember(t, id).tracked == t.tracked
  {}

  lemma BooksBound(t: Tables, max: int)
    requires Books(t, max)
    ensures T.Bounded(t.tracked, max)
  {}

  lemma {:induction false} StartPodLaws(w: World, max: int, p: Pod, es: Entry, t: Tables)
    requires Books(t, max) && p.Identifier() != ""
    ensures var t' := StartPod(w, max, p, es, t);
      && Books(t', max)
      && t'.tickers == t.tickers + Startable(w, p, es)
      && t'.collectorIds.Keys <= t.collectorIds.Keys + {p.Identifier()}
  {
    hide Books, StartEndpoint, Decide;
    if es != [] {
      StartPodLaws(w, max, p, es[..|es| - 1], t);
      StartEndpointLaws(w, max, p, es[|es| - 1], StartPod(w, max, p, es[..|es| - 1], t));
    }
  }

  /** A pod's IDs are remembered in the order in which they first came. */
  lemma {:induction false} RememberedInOrder(w: World, max: int, p: Pod, es: Entry, t: Tables)
    requires p.Identifier() in t.collectorIds
    ensures var ids' := StartPod(w, max, p, es, t).collectorIds;
      p.Identifier() in ids' && t.collectorIds[p.Identifier()] <= ids'[p.Identifier()]
  {
    hide Decide, Pod.Identifier, T.AddSpec, T.PurgeSpec;
    if es != [] { RememberedInOrder(w, max, p, es[..|es| - 1], t); }
  }

  /* Stopping. */

  /** `tracked'` is `tracked` without the endpoints `gone` of one pod, an emptied pod entry
      being dropped. */
  ghost predicate Purged(tracked: T.Tracked, tracked': T.Tracked, pod: string, gone: set<string>) {
    && T.EndpointsOf(tracked', pod) == T.EndpointsOf(tracked, pod) - gone
    && (forall q :: q != pod ==> (q in tracked' <==> q in tracked))
    && (forall q :: q != pod && q in tracked ==> tracked'[q] == tracked[q])
    && (gone != {} && pod in tracked' ==> tracked'[pod] != map[])
  }

  lemma PurgeOne(tracked: T.Tracked, id: CollectorID)
    ensures Purged(tracked, T.PurgeSpec(tracked, id), id.podId, {id.endpointId})
  {}

  lemma PurgedTwice(a: T.Tracked, b: T.Tracked, c: T.Tracked, pod: string, first: set<string>, second: set<string>)
    requires Purged(a, b, pod, first) && Purged(b, c, pod, second) && second != {}
    ensures Purged(a, c, pod, first + second)
  {
    assert T.EndpointsOf(a, pod) - first - second == T.EndpointsOf(a, pod) - (first + second);
  }

  lemma PurgedNothing(a: T.Tracked, pod: string)
    ensures Purged(a, a, pod, {})
  {}

  lemma {:induction false} StopAllIds(ids: seq<CollectorID>, t: Tables)
    ensures var t' := StopAll(ids, t); t'.collectorIds == t.collectorIds && t'.tickers == t.tickers - IdSet(ids)
  {
    if ids != [] {
      hide IdSet;
      var init, id := ids[..|ids| - 1], ids[|ids| - 1];
      StopAllIds(init, t);
      IdsExtend(init, id);
      assert ids == init + [id];
    } else {
      assert IdSet(ids) == {};
    }
  }

  lemma {:induction false} StopAllTracked(ids: seq<CollectorID>, t: Tables, pod: string)
    requires forall i :: 0 <= i < |ids| ==> ids[i].podId == pod
    ensures Purged(t.tracked, StopAll(ids, t).tracked, pod, EndpointIds(ids))
  {
    hide T.PurgeSpec, EndpointIds, Purged;
    if ids == [] {
      NoEndpointIds();
      PurgedNothing(t.tracked, pod);
    } else {
      var init, id := ids[..|ids| - 1], ids[|ids| - 1];
      var before := StopAll(init, t).tracked;
      StopAllTracked(init, t, pod);
      PurgeOne(before, id);
      PurgedTwice(t.tracked, before, StopAll(ids, t).tracked, pod, EndpointIds(init), {id.endpointId});
      IdsExtend(init, id);
      assert ids == init + [id];
    }
  }

  lemma NoEndpointIds()
    ensures EndpointIds([]) == {}
  {}

  ghost function IdSet(ids: seq<CollectorID>): set<CollectorID> {
    set id | id in ids
  }

  lemma IdsExtend(ids: seq<CollectorID>, id: CollectorID)
    ensures EndpointIds(ids + [id]) == EndpointIds(ids) + {id.endpointId}
    ensures IdSet(ids + [id]) == IdSet(ids) + {id}
  {
    assert forall x :: x in ids + [id] <==> x in ids || x == id;
  }

  /** A booked pod's tickers are among its IDs. */
  lemma TickersBooked(t: Tables, pod: string, c: CollectorID)
    requires PodsBooked(t) && TickersTracked(t) && pod != ""
    requires c in t.tickers && c.podId == pod
    ensures pod in t.collectorIds && c in IdSet(t.collectorIds[pod])
  {
    Booked(t, pod);
    var ids := t.collectorIds[pod];
    assert c.endpointId in EndpointIds(ids);
    var x :| x in ids && x.endpointId == c.endpointId;
    assert x == c;
  }

  lemma StoppedPodForgotten(t: Tables, pod: string)
    requires pod in t.collectorIds && PodBook(t, pod)
    ensures pod !in StopPod(pod, t).tracked
  {
    StopAllTracked(t.collectorIds[pod], t, pod);
  }

  /** Stopping a pod removes it, and nothing else, from all tables. */
  lemma StopPodLaws(pod: string, t: Tables, max: int)
    requires Books(t, max) && pod != ""
    ensures var t' := StopPod(pod, t);
      && Books(t', max)
      && t'.collectorIds == t.collectorIds - {pod}
      && (forall c :: c in t'.tickers <==> c in t.tickers && c.podId != pod)
  {
    hide PodsBooked, TickersTracked, PodBook, StopAll, IdSet;
    forall c | c in t.tickers && c.podId == pod ensures pod in t.collectorIds && c in IdSet(t.collectorIds[pod]) {
      TickersBooked(t, pod, c);
    }
    if pod in t.collectorIds {
      Booked(t, pod);
      var ids, t' := t.collectorIds[pod], StopPod(pod, t);
      PodBookIds(t, pod);
      StopAllIds(ids, t);
      StopAllTracked(ids, t, pod);
      StoppedPodForgotten(t, pod);
      StopKeepsBooks(t, t', pod, max);
    }
  }

  lemma PodBookIds(t: Tables, pod: string)
    requires pod in t.collectorIds && PodBook(t, pod)
    ensures forall i :: 0 <= i < |t.collectorIds[pod]| ==> t.collectorIds[pod][i].podId == pod
    ensures forall c :: c in IdSet(t.collectorIds[pod]) ==> c.podId == pod
  {}

  lemma StopKeepsBooks(t: Tables, t': Tables, pod: string, max: int)
    requires Books(t, max) && pod !in t'.tracked && t'.collectorIds == t.collectorIds - {pod}
    requires forall q :: q != pod ==> (q in t'.tracked <==> q in t.tracked)
    requires forall q :: q != pod && q in t.tracked ==> t'.tracked[q] == t.tracked[q]
    requires forall c :: c in t'.tickers ==> c in t.tickers && c.podId != pod
    ensures Books(t', max)
  {
    hide PodBook;
    forall q | q in t'.collectorIds ensures PodBook(t', q) {
      Booked(t, q);
      PodBookFrame(t, t', q);
    }
    forall c | c in t'.tickers ensures c.endpointId in T.EndpointsOf(t'.tracked, c.podId) {
      assert c in t.tickers;
    }
  }

  /* One node event, consumed. */

  /** Whether ticker `c` of pod `p` runs after the event. */
  predicate RunsAfter(w: World, change: Change, p: Pod, entry: Option<Entry>,
                      tickers: set<CollectorID>, c: CollectorID) {
    || (change.Added? && c in tickers)
    || (!change.Deleted? && entry.Some? && c in Startable(w, p, entry.value))
  }

  lemma ConsumeLaws(w: World, max: int, change: Change, p: Pod, entry: Option<Entry>, t: Tables)
    requires Books(t, max) && p.Identifier() != ""
    ensures var t' := Consume(w, max, change, p, entry, t);
      && Books(t', max)
      && (forall c :: c in t'.tickers <==>
            if c.podId == p.Identifier() then RunsAfter(w, change, p, entry, t.tickers, c)
            else c in t.tickers)
      && t'.collectorIds.Keys <= t.collectorIds.Keys + {p.Identifier()}
      && (change.Deleted? ==> p.Identifier() !in t'.collectorIds)
  {
    hide Books, StartPod, StopPod;
    StopPodLaws(p.Identifier(), t, max);
    var stopped := if change.Added? then t else StopPod(p.Identifier(), t);
    if !change.Deleted? && entry.Some? {
      StartPodLaws(w, max, p, entry.value, stopped);
    }
  }

  lemma {:induction false} FanOutLaws(w: World, max: int, pods: map<string, Pod>,
                                      change: Change, namespace: string, name: string,
                                      entry: Option<Entry>, order: seq<string>, t: Tables)
    requires Books(t, max)
    requires forall k :: k in pods ==> pods[k].Identifier() == k && k != ""
    requires forall i :: 0 <= i < |order| ==> order[i] in pods
    requires forall i, j :: 0 <= i < j < |order| ==> order[i] != order[j]
    ensures var t' := FanOut(w, max, pods, change, namespace, name, entry, order, t);
      && Books(t', max)
      && (forall c :: c in t'.tickers <==>
            if c.podId in order && Uses(pods[c.podId], namespace, name)
            then RunsAfter(w, change, pods[c.podId], entry, t.tickers, c) else c in t.tickers)
      && t'.collectorIds.Keys <= t.collectorIds.Keys + pods.Keys
  {
    hide Books, Consume, RunsAfter;
    if order != [] {
      var init, k := order[..|order| - 1], order[|order| - 1];
      var before := FanOut(w, max, pods, change, namespace, name, entry, init, t);
      FanOutLaws(w, max, pods, change, namespace, name, entry, init, t);
      assert order == init + [k];
      assert forall q :: q in order <==> q in init || q == k;
      assert k !in init;
      if Uses(pods[k], namespace, name) {
        ConsumeLaws(w, max, change, pods[k], entry, before);
        forall c: CollectorID | c.podId == k
          ensures RunsAfter(w, change, pods[k], entry, before.tickers, c)
               == RunsAfter(w, change, pods[k], entry, t.tickers, c)
        {
          RunsAfterAgrees(w, change, pods[k], entry, before.tickers, t.tickers, c);
        }
      }
    }
  }

  lemma RunsAfterAgrees(w: World, change: Change, p: Pod, entry: Option<Entry>,
                        a: set<CollectorID>, b: set<CollectorID>, c: CollectorID)
    requires c in a <==> c in b
    ensures RunsAfter(w, change, p, entry, a, c) == RunsAfter(w, change, p, entry, b, c)
  {}

  /* The agent: live collectors against wanted ones. */

  /** Collector `c` is wanted: its pod is in the inventory, and the config map that the pod's
      volume names is cached and lists a startable endpoint with this ID. */
  ghost predicate Wanted(w: World, a: Agent, c: CollectorID) {
    c.podId in a.pods && c in Desired(w, a.configMaps, a.pods[c.podId])
  }

  function Desired(w: World, cms: ConfigMapCache, p: Pod): set<CollectorID> {
    var entry := EntryFor(cms, p);
    if entry.Some? then Startable(w, p, entry.value) else {}
  }

  /** The tables agree, only pods of the inventory are collected, and every wanted collector runs. */
  ghost predicate Invariant(w: World, max: int, a: Agent) {
    && Books(a.tables, max)
    && (forall k :: k in a.pods ==> a.pods[k].Identifier() == k)
    && a.tables.collectorIds.Keys <= a.pods.Keys
    && (forall c :: Wanted(w, a, c) ==> c in a.tables.tickers)
  }

  /** The pods' running collectors are exactly the wanted ones. */
  ghost predicate Exact(w: World, a: Agent) {
    forall c: CollectorID :: c.podId != "" ==> (c in a.tables.tickers <==> Wanted(w, a, c))
  }

  /** An ADDED event takes away no wanted collector of an object that was known before. */
  ghost predicate LosesNothing(w: World, a: Agent, e: Event) {
    match e
    case PodEvent(Added, p) =>
      p.Identifier() in a.pods ==> Desired(w, a.configMaps, a.pods[p.Identifier()]) <= Desired(w, a.configMaps, p)
    case ConfigMapEvent(Added, namespace, name, Readable(es), _) =>
      var known := EntryOf(a.configMaps, namespace, name);
      known.Some? ==> forall k :: k in a.pods && Uses(a.pods[k], namespace, name) ==>
        Startable(w, a.pods[k], known.value) <= Startable(w, a.pods[k], es)
    case _ => true
  }

  lemma IdentifierNonEmpty(p: Pod)
    ensures p.Identifier() != ""
  {
    var parts := [p.node, p.namespace, p.name, p.uid];
    assert Join(parts, "/") == parts[0] + "/" + Join(parts[1..], "/");
  }

  lemma PodStepLaws(w: World, max: int, a: Agent, change: Change, p: Pod)
    requires Invariant(w, max, a)
    ensures var a' := PodStep(w, max, a, change, p);
      && Invariant(w, max, a')
      && (Exact(w, a) ==> (Exact(w, a') <==> LosesNothing(w, a, PodEvent(change, p))))
  {
    hide Books, Consume, Startable, Pod.Identifier;
    var a', id, entry := PodStep(w, max, a, change, p), p.Identifier(), EntryFor(a.configMaps, p);
    IdentifierNonEmpty(p);
    ConsumeLaws(w, max, change, p, entry, a.tables);
    forall c: CollectorID | c.podId != id ensures Wanted(w, a', c) == Wanted(w, a, c) {
      if c.podId in a.pods && !change.Deleted? { assert a'.pods[c.podId] == a.pods[c.podId]; }
      if c.podId in a'.pods && change.Deleted? && !NamespaceInUse(a'.pods, p.namespace) {
        assert a'.pods[c.podId].namespace != p.namespace;
      }
    }
    if Exact(w, a) && change.Added? && Exact(w, a') && id in a.pods {
      forall c | c in Desired(w, a.configMaps, a.pods[id]) ensures c in Desired(w, a.configMaps, p) {
        DesiredPod(w, a.configMaps, a.pods[id], c);
        assert Wanted(w, a, c);
        assert c in a.tables.tickers;
        assert c in a'.tables.tickers;
        assert Wanted(w, a', c);
      }
    }
  }

  lemma DesiredPod(w: World, cms: ConfigMapCache, p: Pod, c: CollectorID)
    requires c in Desired(w, cms, p)
    ensures c.podId == p.Identifier()
  {}

  lemma ConfigMapStepTickers(w: World, max: int, a: Agent, change: Change,
                             namespace: string, name: string, payload: Payload, order: seq<string>)
    requires Invariant(w, max, a) && Enumerates(order, a.pods.Keys) && !Ignored(change, payload)
    ensures var a' := ConfigMapStep(w, max, a, change, namespace, name, payload, order);
      && Books(a'.tables, max) && a'.tables.collectorIds.Keys <= a.pods.Keys
      && (forall c :: c in a'.tables.tickers <==>
            if c.podId in a.pods && Uses(a.pods[c.podId], namespace, name)
            then RunsAfter(w, change, a.pods[c.podId], EntryNow(change, payload), a.tables.tickers, c)
            else c in a.tables.tickers)
  {
    hide Books, FanOut, RunsAfter, Pod.Identifier, Desired;
    forall k | k in a.pods ensures k != "" { IdentifierNonEmpty(a.pods[k]); }
    FanOutLaws(w, max, a.pods, change, namespace, name, EntryNow(change, payload), order, a.tables);
    assert forall k :: k in a.pods ==> k in order;
  }

  function EntryNow(change: Change, payload: Payload): Option<Entry>
    requires !Ignored(change, payload)
  {
    if change.Deleted? then None else Some(payload.entry)
  }

  lemma ConfigMapStepWanted(w: World, max: int, a: Agent, change: Change, namespace: string, name: string,
                            payload: Payload, order: seq<string>, c: CollectorID)
    requires Enumerates(order, a.pods.Keys) && !Ignored(change, payload)
    ensures var a' := ConfigMapStep(w, max, a, change, namespace, name, payload, order);
      Wanted(w, a', c) <==>
        if c.podId in a.pods && Uses(a.pods[c.podId], namespace, name)
        then EntryNow(change, payload).Some? && c in Startable(w, a.pods[c.podId], EntryNow(change, payload).value)
        else Wanted(w, a, c)
  {
    hide FanOut, Startable, CacheAfter, EntryFor;
    if c.podId in a.pods {
      EntryAfter(a.configMaps, change, namespace, name, payload, a.pods[c.podId]);
    }
  }

  lemma KnownEntry(w: World, a: Agent, namespace: string, name: string, c: CollectorID)
    requires c.podId in a.pods && Uses(a.pods[c.podId], namespace, name)
    ensures Wanted(w, a, c) <==>
      var known := EntryOf(a.configMaps, namespace, name);
      known.Some? && c in Startable(w, a.pods[c.podId], known.value)
  {}

  lemma ConfigMapStepLaws(w: World, max: int, a: Agent, change: Change,
                          namespace: string, name: string, payload: Payload, order: seq<string>)
    requires Invariant(w, max, a) && Enumerates(order, a.pods.Keys)
    ensures var a' := ConfigMapStep(w, max, a, change, namespace, name, payload, order);
      && Invariant(w, max, a')
      && (Exact(w, a) ==>
           (Exact(w, a') <==> LosesNothing(w, a, ConfigMapEvent(change, namespace, name, payload, order))))
  {
    if Ignored(change, payload) { return; }
    hide Books, Wanted, Startable, Pod.Identifier, Uses;
    var a' := ConfigMapStep(w, max, a, change, namespace, name, payload, order);
    ConfigMapStepTickers(w, max, a, change, namespace, name, payload, order);
    assert a'.pods == a.pods && a'.tables.collectorIds.Keys <= a.pods.Keys;
    hide ConfigMapStep;
    forall c ensures Wanted(w, a', c) <==>
        if c.podId in a.pods && Uses(a.pods[c.podId], namespace, name)
        then EntryNow(change, payload).Some? && c in Startable(w, a.pods[c.podId], EntryNow(change, payload).value)
        else Wanted(w, a, c)
    {
      ConfigMapStepWanted(w, max, a, change, namespace, name, payload, order, c);
    }
    forall c: CollectorID | c.podId in a.pods && Uses(a.pods[c.podId], namespace, name)
      ensures Wanted(w, a, c) <==>
        var known := EntryOf(a.configMaps, namespace, name);
        known.Some? && c in Startable(w, a.pods[c.podId], known.value)
    {
      KnownEntry(w, a, namespace, name, c);
    }
    if Exact(w, a) && change.Added? {
      forall k | k in a.pods ensures k != "" { IdentifierNonEmpty(a.pods[k]); }
      ExactIfNothingLost(w, a, a', namespace, name, payload.entry);
    }
  }

  lemma ExactIfNothingLost(w: World, a: Agent, a': Agent, namespace: string, name: string, es: Entry)
    requires Exact(w, a) && a'.pods == a.pods && forall k :: k in a.pods ==> a.pods[k].Identifier() == k && k != ""
    requires forall c :: c in a'.tables.tickers <==>
      c in a.tables.tickers
      || (c.podId in a.pods && Uses(a.pods[c.podId], namespace, name) && c in Startable(w, a.pods[c.podId], es))
    requires forall c :: Wanted(w, a', c) <==>
      if c.podId in a.pods && Uses(a.pods[c.podId], namespace, name) then c in Startable(w, a.pods[c.podId], es)
      else Wanted(w, a, c)
    requires forall c: CollectorID :: c.podId in a.pods && Uses(a.pods[c.podId], namespace, name) ==>
      (Wanted(w, a, c) <==>
        var known := EntryOf(a.configMaps, namespace, name);
        known.Some? && c in Startable(w, a.pods[c.podId], known.value))
    ensures var known := EntryOf(a.configMaps, namespace, name);
      Exact(w, a') <==> (known.Some? ==> forall k :: k in a.pods && Uses(a.pods[k], namespace, name) ==>
        Startable(w, a.pods[k], known.value) <= Startable(w, a.pods[k], es))
  {
    hide Wanted, Uses, EntryOf, Pod.Identifier;
    var known := EntryOf(a.configMaps, namespace, name);
    if known.Some? && Exact(w, a') {
      forall k, c | k in a.pods && Uses(a.pods[k], namespace, name) && c in Startable(w, a.pods[k], known.value)
        ensures c in Startable(w, a.pods[k], es)
      {
        assert c.podId == k;
        assert Wanted(w, a, c);
        assert c in a.tables.tickers;
        assert c in a'.tables.tickers;
        assert Wanted(w, a', c);
      }
    }
  }

  lemma EntryAfter(cms: ConfigMapCache, change: Change, namespace: string, name: string, payload: Payload, p: Pod)
    requires !Ignored(change, payload)
    ensures EntryFor(CacheAfter(cms, change, namespace, name, payload), p) ==
      if Uses(p, namespace, name) then (if change.Deleted? then None else Some(payload.entry)) else EntryFor(cms, p)
  {}

  /** A step on the tables alone that starts or stops no pod's collector. */
  lemma TablesOnly(w: World, max: int, a: Agent, t: Tables)
    requires Invariant(w, max, a) && Books(t, max)
    requires t.collectorIds == a.tables.collectorIds
    requires forall c :: c in a.tables.tickers && c.podId != "" ==> c in t.tickers
    requires forall c :: c in t.tickers && c.podId != "" ==> c in a.tables.tickers
    ensures var a' := a.(tables := t); Invariant(w, max, a') && (Exact(w, a) ==> Exact(w, a'))
  {
    hide Books, Desired, Pod.Identifier;
    forall k | k in a.pods ensures k != "" { IdentifierNonEmpty(a.pods[k]); }
    assert forall c :: Wanted(w, a.(tables := t), c) == Wanted(w, a, c);
  }

  lemma ExternalTables(t: Tables, max: int, etype: string, url: string, enabled: string)
    requires Books(t, max)
    ensures var id, t' := ExternalId(etype, url), ExternalStep(t, max, etype, url, enabled);
      && Books(t', max) && t'.collectorIds == t.collectorIds
      && t.tickers - {id} <= t'.tickers <= t.tickers + {id}
  {
    hide T.AddSpec, T.PurgeSpec, Books, Touched, T.Bounded;
    var id, t' := ExternalId(etype, url), ExternalStep(t, max, etype, url, enabled);
    BooksBound(t, max);
    NoteTouches(t.tracked, max, id);
    RestartTouches(t.tracked, max, id);
    TouchKeepsIds(t, t', max, id);
  }

  lemma ExternalStepLaws(w: World, max: int, a: Agent, etype: string, url: string, enabled: string)
    requires Invariant(w, max, a)
    ensures var a' := a.(tables := ExternalStep(a.tables, max, etype, url, enabled));
      Invariant(w, max, a') && (Exact(w, a) ==> Exact(w, a'))
  {
    hide ExternalStep, Wanted, Books, Exact, Pod.Identifier;
    ExternalTables(a.tables, max, etype, url, enabled);
    TablesOnly(w, max, a, ExternalStep(a.tables, max, etype, url, enabled));
  }

  lemma TickLaws(w: World, max: int, a: Agent, id: CollectorID, batch: seq<MetricHeader>)
    requires Invariant(w, max, a) && id in a.tables.tickers
    ensures var a' := a.(tables := a.tables.(tracked := T.AddSpec(a.tables.tracked, max, id, batch)));
      Invariant(w, max, a') && (Exact(w, a) ==> Exact(w, a'))
  {
    hide T.AddSpec, Wanted, Books, Touched;
    var t := a.tables.(tracked := T.AddSpec(a.tables.tracked, max, id, batch));
    BooksBound(a.tables, max);
    T.ApplyKeepsBounded(a.tables.tracked, max, T.Add(id, batch));
    AddTouches(a.tables.tracked, max, id, batch);
    TickerTracked(a.tables, max, id);
    TouchKeepsIds(a.tables, t, max, id);
    TablesOnly(w, max, a, t);
  }

  lemma AddTouches(tracked: T.Tracked, max: int, id: CollectorID, batch: seq<MetricHeader>)
    ensures Touched(tracked, T.AddSpec(tracked, max, id, batch), id)
  {}

  lemma TickerTracked(t: Tables, max: int, id: CollectorID)
    requires Books(t, max) && id in t.tickers
    ensures id.endpointId in T.EndpointsOf(t.tracked, id.podId)
  {}

  /** One event keeps the invariant; from exact agreement it leads to exact agreement, except
      after precisely those ADDED events that lose a collector wanted before. */
  lemma StepLaws(w: World, max: int, a: Agent, e: Event)
    requires Invariant(w, max, a) && Possible(a, e)
    ensures Invariant(w, max, Step(w, max, a, e))
    ensures Exact(w, a) ==> (Exact(w, Step(w, max, a, e)) <==> LosesNothing(w, a, e))
  {
    hide Invariant, Exact, PodStep, ConfigMapStep, ExternalStep, T.AddSpec;
    match e
    case PodEvent(change, pod) => PodStepLaws(w, max, a, change, pod);
    case ConfigMapEvent(change, namespace, name, payload, order) =>
      ConfigMapStepLaws(w, max, a, change, namespace, name, payload, order);
    case ExternalEndpoint(etype, url, enabled) => ExternalStepLaws(w, max, a, etype, url, enabled);
    case Tick(id, batch) => TickLaws(w, max, a, id, batch);
  }

  /* Runs. */

  ghost function Start(): Agent {
    Agent(map[], map[], {}, Tables(map[], {}, map[]))
  }

  /** `states` are the agent's states before, between and after the events. */
  ghost predicate IsRun(w: World, max: int, events: seq<Event>, states: seq<Agent>) {
    && |states| == |events| + 1
    && states[0] == Start()
    && forall i :: 0 <= i < |events| ==>
       Possible(states[i], events[i]) && states[i + 1] == Step(w, max, states[i], events[i])
  }

  /** In every state of every run the tables agree and no wanted collector is missing. */
  lemma {:induction false} EveryRunKeepsInvariant(w: World, max: int, events: seq<Event>, states: seq<Agent>, n: nat)
    requires IsRun(w, max, events, states) && n < |states|
    ensures Invariant(w, max, states[n])
  {
    if n > 0 {
      EveryRunKeepsInvariant(w, max, events, states, n - 1);
      StepLaws(w, max, states[n - 1], events[n - 1]);
    }
  }

  /** In every state the running collectors are exactly the wanted ones, if and only if no
      ADDED event of the run takes a wanted collector away. */
  lemma EveryRunStaysExact(w: World, max: int, events: seq<Event>, states: seq<Agent>)
    requires IsRun(w, max, events, states)
    ensures (forall n :: 0 <= n < |states| ==> Exact(w, states[n]))
       <==> (forall i :: 0 <= i < |events| ==> LosesNothing(w, states[i], events[i]))
  {
    hide Exact, Invariant, LosesNothing;
    forall i | 0 <= i < |events|
      ensures Exact(w, states[i]) ==> (Exact(w, states[i + 1]) <==> LosesNothing(w, states[i], events[i]))
    {
      EveryRunKeepsInvariant(w, max, events, states, i);
      StepLaws(w, max, states[i], events[i]);
    }
    if forall i :: 0 <= i < |events| ==> LosesNothing(w, states[i], events[i]) {
      forall n | 0 <= n < |states| ensures Exact(w, states[n]) { ExactUpTo(w, max, events, states, n); }
    } else {
      var i :| 0 <= i < |events| && !LosesNothing(w, states[i], events[i]);
      assert !Exact(w, states[i]) || !Exact(w, states[i + 1]);
    }
  }

  lemma StartExact(w: World)
    ensures Exact(w, Start())
  {}

  lemma {:induction false} ExactUpTo(w: World, max: int, events: seq<Event>, states: seq<Agent>, n: nat)
    requires IsRun(w, max, events, states) && n < |states|
    requires forall i :: 0 <= i < |events| ==>
      Exact(w, states[i]) ==> (Exact(w, states[i + 1]) <==> LosesNothing(w, states[i], events[i]))
    requires forall i :: 0 <= i < |events| ==> LosesNothing(w, states[i], events[i])
    ensures Exact(w, states[n])
  {
    hide Exact, LosesNothing;
    if n == 0 { StartExact(w); } else { ExactUpTo(w, max, events, states, n - 1); }
  }

  /* Which collectors run, whatever was lost. */

  /** An event that stops a pod's collectors before it starts any. */
  predicate Restarts(a: Agent, e: Event, pod: string) {
    match e
    case PodEvent(change, p) => !change.Added? && p.Identifier() == pod
    case ConfigMapEvent(change, namespace, name, payload, _) =>
      !change.Added? && !Ignored(change, payload) && pod in a.pods && Uses(a.pods[pod], namespace, name)
    case _ => false
  }

  /** After one event a pod's collector runs exactly if it is wanted now, or ran before and was not stopped. */
  ghost predicate TickerRule(w: World, a: Agent, e: Event, a': Agent, c: CollectorID) {
    c in a'.tables.tickers <==> Wanted(w, a', c) || (c in a.tables.tickers && !Restarts(a, e, c.podId))
  }

  lemma PodStepRule(w: World, max: int, a: Agent, change: Change, p: Pod, c: CollectorID)
    requires Invariant(w, max, a) && c.podId != ""
    ensures TickerRule(w, a, PodEvent(change, p), PodStep(w, max, a, change, p), c)
  {
    hide Books, Consume, Startable, Pod.Identifier;
    var a', id, entry := PodStep(w, max, a, change, p), p.Identifier(), EntryFor(a.configMaps, p);
    IdentifierNonEmpty(p);
    ConsumeLaws(w, max, change, p, entry, a.tables);
    if c.podId != id {
      if c.podId in a.pods && !change.Deleted? { assert a'.pods[c.podId] == a.pods[c.podId]; }
      if c.podId in a'.pods && change.Deleted? && !NamespaceInUse(a'.pods, p.namespace) {
        assert a'.pods[c.podId].namespace != p.namespace;
      }
      assert Wanted(w, a', c) == Wanted(w, a, c);
    }
  }

  lemma ConfigMapStepRule(w: World, max: int, a: Agent, change: Change, namespace: string, name: string,
                          payload: Payload, order: seq<string>, c: CollectorID)
    requires Invariant(w, max, a) && Enumerates(order, a.pods.Keys)
    ensures TickerRule(w, a, ConfigMapEvent(change, namespace, name, payload, order),
                       ConfigMapStep(w, max, a, change, namespace, name, payload, order), c)
  {
    if Ignored(change, payload) { return; }
    hide Books, Wanted, Startable, Pod.Identifier, Uses, ConfigMapStep;
    ConfigMapStepTickers(w, max, a, change, namespace, name, payload, order);
    ConfigMapStepWanted(w, max, a, change, namespace, name, payload, order, c);
  }

  lemma TablesRule(w: World, max: int, a: Agent, t: Tables, e: Event, c: CollectorID)
    requires Invariant(w, max, a) && !e.PodEvent? && !e.ConfigMapEvent?
    requires c in t.tickers <==> c in a.tables.tickers
    ensures TickerRule(w, a, e, a.(tables := t), c)
  {
    hide Books, Desired;
    assert Wanted(w, a.(tables := t), c) == Wanted(w, a, c);
  }

  lemma StepRule(w: World, max: int, a: Agent, e: Event, c: CollectorID)
    requires Invariant(w, max, a) && Possible(a, e) && c.podId != ""
    ensures TickerRule(w, a, e, Step(w, max, a, e), c)
  {
    hide Invariant, TickerRule, PodStep, ConfigMapStep, T.AddSpec, T.PurgeSpec;
    match e
    case PodEvent(change, pod) => PodStepRule(w, max, a, change, pod, c);
    case ConfigMapEvent(change, namespace, name, payload, order) =>
      ConfigMapStepRule(w, max, a, change, namespace, name, payload, order, c);
    case ExternalEndpoint(etype, url, enabled) =>
      TablesRule(w, max, a, ExternalStep(a.tables, max, etype, url, enabled), e, c);
    case Tick(id, batch) =>
      TablesRule(w, max, a, a.tables.(tracked := T.AddSpec(a.tables.tracked, max, id, batch)), e, c);
  }

  /** After an event that restarts a pod's collectors, exactly the wanted ones run for it, whatever was lost
      before. */
  lemma RestartRestores(w: World, max: int, a: Agent, e: Event, c: CollectorID)
    requires Invariant(w, max, a) && Possible(a, e) && c.podId != "" && Restarts(a, e, c.podId)
    ensures c in Step(w, max, a, e).tables.tickers <==> Wanted(w, Step(w, max, a, e), c)
  {
    hide Invariant, Wanted, Step, Restarts;
    StepRule(w, max, a, e, c);
  }

  /** Collector `c` was wanted in state `m`, and its pod was not restarted between `m` and `n`. */
  ghost predicate WantedSince(w: World, events: seq<Event>, states: seq<Agent>, m: nat, n: nat, c: CollectorID)
    requires |states| == |events| + 1 && m <= n < |states|
  {
    Wanted(w, states[m], c) && forall i :: m <= i < n ==> !Restarts(states[i], events[i], c.podId)
  }

  /** In every state of every run, a pod's collector runs if and only if it was wanted at some time since its
      pod was last restarted. */
  lemma {:induction false} EveryRunRunsWanted(w: World, max: int, events: seq<Event>, states: seq<Agent>, n: nat,
                                              c: CollectorID)
    requires IsRun(w, max, events, states) && n < |states| && c.podId != ""
    ensures c in states[n].tables.tickers <==> exists m: nat :: m <= n && WantedSince(w, events, states, m, n, c)
  {
    hide Wanted, Restarts, Step, Invariant, Possible;
    if n == 0 {
      StartWantsNothing(w, c);
    } else {
      var a, e, a' := states[n - 1], events[n - 1], states[n];
      EveryRunRunsWanted(w, max, events, states, n - 1, c);
      EveryRunKeepsInvariant(w, max, events, states, n - 1);
      StepRule(w, max, a, e, c);
      if Wanted(w, a', c) { assert WantedSince(w, events, states, n, n, c); }
      if c in a.tables.tickers && !Restarts(a, e, c.podId) {
        var m: nat :| m <= n - 1 && WantedSince(w, events, states, m, n - 1, c);
        assert WantedSince(w, events, states, m, n, c);
      }
      if m: nat :| m <= n && WantedSince(w, events, states, m, n, c) {
        if m < n { assert WantedSince(w, events, states, m, n - 1, c); }
      }
    }
  }

  lemma StartWantsNothing(w: World, c: CollectorID)
    ensures !Wanted(w, Start(), c) && c !in Start().tables.tickers
  {}

  /** So the pods whose running collectors are exactly the wanted ones are those of which everything wanted
      since their last restart is still wanted. */
  lemma EveryRunExactPods(w: World, max: int, events: seq<Event>, states: seq<Agent>, n: nat, pod: string)
    requires IsRun(w, max, events, states) && n < |states| && pod != ""
    ensures (forall c: CollectorID :: c.podId == pod ==> (c in states[n].tables.tickers <==> Wanted(w, states[n], c)))
       <==> (forall c: CollectorID, m: nat :: c.podId == pod && m <= n && WantedSince(w, events, states, m, n, c)
              ==> Wanted(w, states[n], c))
  {
    hide Wanted, Restarts, Step, IsRun;
    RunStates(w, max, events, states);
    forall c: CollectorID | c.podId == pod
      ensures c in states[n].tables.tickers <==> exists m: nat :: m <= n && WantedSince(w, events, states, m, n, c)
    {
      EveryRunRunsWanted(w, max, events, states, n, c);
    }
    forall c: CollectorID | c.podId == pod && Wanted(w, states[n], c) ensures c in states[n].tables.tickers {
      assert WantedSince(w, events, states, n, n, c);
    }
  }

  /** A pod appears, its config map appears, and a re-created watcher reports the config map
      as ADDED again, emptied in the meantime. */
  function EmptiedConfigMap(p: Pod, name: string, e: Endpoint): seq<Event> {
    [PodEvent(Added, p),
     ConfigMapEvent(Added, p.namespace, name, Readable([e]), [p.Identifier()]),
     ConfigMapEvent(Added, p.namespace, name, Readable([]), [p.Identifier()])]
  }

  ghost function StatesOf(w: World, max: int, p: Pod, name: string, e: Endpoint): seq<Agent> {
    var a1 := PodStep(w, max, Start(), Added, p);
    var a2 := ConfigMapStep(w, max, a1, Added, p.namespace, name, Readable([e]), [p.Identifier()]);
    var a3 := ConfigMapStep(w, max, a2, Added, p.namespace, name, Readable([]), [p.Identifier()]);
    [Start(), a1, a2, a3]
  }

  /** Then the endpoint's collector keeps running although nothing asks for it any more. */
  lemma StaleCollectorSurvives(w: World, max: int, p: Pod, name: string, e: Endpoint)
    requires Decide(w, p, e).Start? && Uses(p, p.namespace, name)
    ensures var events, states := EmptiedConfigMap(p, name, e), StatesOf(w, max, p, name, e);
      && IsRun(w, max, events, states)
      && Exact(w, states[2]) && !Exact(w, states[3])
  {
    hide Decide, Pod.Identifier, Exact, Invariant, FanOut, Consume;
    var events, states, id := EmptiedConfigMap(p, name, e), StatesOf(w, max, p, name, e), p.Identifier();
    assert states[1].pods == states[2].pods == map[id := p];
    assert IsRun(w, max, events, states);
    EveryRunKeepsInvariant(w, max, events, states, 0);
    EveryRunKeepsInvariant(w, max, events, states, 1);
    EveryRunKeepsInvariant(w, max, events, states, 2);
    StartExact(w);
    StepLaws(w, max, states[0], events[0]);
    StepLaws(w, max, states[1], events[1]);
    StepLaws(w, max, states[2], events[2]);
    assert [e][..0] == [];
    assert Decide(w, p, e).id in Startable(w, p, [e]);
    assert Startable(w, p, []) == {};
    assert id in states[2].pods && Uses(states[2].pods[id], p.namespace, name);
    assert !(Startable(w, states[2].pods[id], [e]) <= Startable(w, states[2].pods[id], []));
  }

  /** For example a JSON endpoint without metrics or credentials. */
  lemma StaleExample(max: int)
    ensures var w := World(u => Some(u), (namespace, c) => Some(c), c => true, i => true);
      var p := Pod("node", "project", "web", "1", "10.0.0.1", map[VOLUME_NAME := "config"]);
      var e := Endpoint("json", "", "http", 8080, "/vars", Credentials("", "", ""), "", []);
      !Exact(w, StatesOf(w, max, p, "config", e)[3])
  {
    var w := World(u => Some(u), (namespace, c) => Some(c), c => true, i => true);
    var p := Pod("node", "project", "web", "1", "10.0.0.1", map[VOLUME_NAME := "config"]);
    var e := Endpoint("json", "", "http", 8080, "/vars", Credentials("", "", ""), "", []);
    hide Decimal, Join;
    assert Url(w, e, p.podIP) == Some("http" + "://" + "10.0.0.1" + ":" + Decimal(8080) + "" + "/vars");
    StaleCollectorSurvives(w, max, p, "config", e);
  }

  /** In particular a re-created watcher may replay every object it knows, unchanged. */
  lemma ReplayLosesNothing(w: World, a: Agent, e: Event)
    requires match e
      case PodEvent(Added, p) => p.Identifier() in a.pods ==> a.pods[p.Identifier()] == p
      case ConfigMapEvent(Added, namespace, name, Readable(es), _) =>
        EntryOf(a.configMaps, namespace, name).Some? ==> EntryOf(a.configMaps, namespace, name).value == es
      case _ => true
    ensures LosesNothing(w, a, e)
  {}

  /** A pod outside the inventory has no running collector and no tracked metric. */
  lemma NoStrays(w: World, max: int, a: Agent, c: CollectorID)
    requires Invariant(w, max, a) && c.podId != "" && c.podId !in a.pods
    ensures c !in a.tables.tickers && c.podId !in a.tables.tracked && c.podId !in a.tables.collectorIds
  {}

  /* Watched namespaces. */

  predicate NoSlash(p: Pod) {
    '/' !in p.node && '/' !in p.namespace && '/' !in p.name && '/' !in p.uid
  }

  function Namespaces(pods: map<string, Pod>): set<string> {
    set k | k in pods :: pods[k].namespace
  }

  /** Exactly the namespaces with a pod in the inventory are watched, and only their config
      maps are cached. */
  ghost predicate WatchesAgree(a: Agent) {
    && a.watched == Namespaces(a.pods)
    && a.configMaps.Keys <= a.watched
    && (forall k :: k in a.pods ==> a.pods[k].Identifier() == k && NoSlash(a.pods[k]))
  }

  /** Kubernetes names hold no slash, and config maps are reported for watched namespaces only. */
  predicate FromWatchers(a: Agent, e: Event) {
    (e.PodEvent? ==> NoSlash(e.pod)) && (e.ConfigMapEvent? ==> e.namespace in a.watched)
  }

  lemma IdentifierInjective(p: Pod, q: Pod)
    requires NoSlash(p) && NoSlash(q) && p.Identifier() == q.Identifier()
    ensures p.node == q.node && p.namespace == q.namespace && p.name == q.name && p.uid == q.uid
  {
    var ps, qs := [p.node, p.namespace, p.name, p.uid], [q.node, q.namespace, q.name, q.uid];
    forall i | 0 <= i < 4 ensures SepFree(ps[i], "/") && SepFree(qs[i], "/") {
      SepFreeChar(ps[i], '/');
      SepFreeChar(qs[i], '/');
    }
    JoinInjective(ps, qs, "/");
    assert ps[0] == qs[0] && ps[1] == qs[1] && ps[2] == qs[2] && ps[3] == qs[3];
  }

  lemma NamespacesAfterSet(pods: map<string, Pod>, id: string, p: Pod)
    requires id in pods ==> pods[id].namespace == p.namespace
    ensures Namespaces(pods[id := p]) == Namespaces(pods) + {p.namespace}
  {
    var pods' := pods[id := p];
    assert id in pods' && pods'[id] == p;
    forall n | n in Namespaces(pods) ensures n in Namespaces(pods') {
      var k :| k in pods && pods[k].namespace == n;
      assert k in pods' && pods'[k].namespace == n;
    }
  }

  lemma NamespacesAfterRemoval(pods: map<string, Pod>, id: string, namespace: string)
    requires id in pods ==> pods[id].namespace == namespace
    ensures Namespaces(pods) - {namespace} <= Namespaces(pods - {id}) <= Namespaces(pods)
    ensures NamespaceInUse(pods - {id}, namespace) <==> namespace in Namespaces(pods - {id})
  {
    forall n | n in Namespaces(pods) && n != namespace ensures n in Namespaces(pods - {id}) {
      var k :| k in pods && pods[k].namespace == n;
      assert k in pods - {id};
    }
  }

  lemma PodStepKeepsWatches(w: World, max: int, a: Agent, change: Change, p: Pod)
    requires WatchesAgree(a) && NoSlash(p)
    ensures WatchesAgree(PodStep(w, max, a, change, p))
  {
    hide Consume, Pod.Identifier, EntryFor, Namespaces, NamespaceInUse;
    var id := p.Identifier();
    if id in a.pods { IdentifierInjective(p, a.pods[id]); }
    if change.Deleted? {
      NamespacesAfterRemoval(a.pods, id, p.namespace);
    } else {
      NamespacesAfterSet(a.pods, id, p);
    }
  }

  lemma StepKeepsWatches(w: World, max: int, a: Agent, e: Event)
    requires WatchesAgree(a) && Possible(a, e) && FromWatchers(a, e)
    ensures WatchesAgree(Step(w, max, a, e))
  {
    hide PodStep, FanOut, ExternalStep, T.AddSpec, Pod.Identifier, Namespaces;
    if e.PodEvent? { PodStepKeepsWatches(w, max, a, e.change, e.pod); }
  }

  lemma {:induction false} EveryRunWatchesAgree(w: World, max: int, events: seq<Event>, states: seq<Agent>, n: nat)
    requires IsRun(w, max, events, states) && n < |states|
    requires forall i :: 0 <= i < |events| ==> FromWatchers(states[i], events[i])
    ensures WatchesAgree(states[n])
  {
    if n > 0 {
      EveryRunWatchesAgree(w, max, events, states, n - 1);
      StepKeepsWatches(w, max, states[n - 1], events[n - 1]);
    }
  }

  /* Shutdown. */

  lemma {:induction false} StopPodsLaws(order: seq<string>, t: Tables, max: int)
    requires Books(t, max) && forall i :: 0 <= i < |order| ==> order[i] != ""
    ensures var t' := StopPods(order, t);
      && Books(t', max)
      && t'.collectorIds == t.collectorIds - PodSet(order)
  {
    hide Books, StopPod, PodSet;
    PodSetExtends([], "");
    if order != [] {
      var init, k := order[..|order| - 1], order[|order| - 1];
      StopPodsLaws(init, t, max);
      StopPodLaws(k, StopPods(init, t), max);
      PodSetExtends(init, k);
      assert order == init + [k];
    }
  }

  ghost function PodSet(order: seq<string>): set<string> {
    set k | k in order
  }

  lemma PodSetExtends(order: seq<string>, k: string)
    ensures PodSet(order + [k]) == PodSet(order) + {k} && PodSet([]) == {}
  {
    assert forall x :: x in order + [k] <==> x in order || x == k;
  }

  /** Stopping the consumer leaves at most external endpoints; stopping the manager after it
      leaves nothing in any table. */
  lemma StopLeavesNothing(w: World, max: int, a: Agent, order: seq<string>)
    requires Invariant(w, max, a) && Enumerates(order, a.tables.collectorIds.Keys)
    ensures var stopped := StopConsumer(a, order);
      && stopped.pods == a.pods && stopped.watched == {}
      && stopped.tables.collectorIds == map[]
      && (forall c :: c in stopped.tables.tickers ==> c.podId == "")
      && (forall pod :: pod in stopped.tables.tracked ==> pod == "")
      && StopCollectingAll(stopped.tables) == Tables(map[], {}, map[])
  {
    hide StopPods, PodBook, T.Bounded;
    StopPodsLaws(order, a.tables, max);
    assert forall k :: k in a.tables.collectorIds ==> k in order;
    assert StopPods(order, a.tables).collectorIds == map[];
  }

  /** Shutdown after any run: nothing is left in any table, and no config map is cached either if
      config map events came for watched namespaces only. */
  lemma ShutdownLeavesNothing(w: World, max: int, events: seq<Event>, states: seq<Agent>, n: nat, order: seq<string>)
    requires IsRun(w, max, events, states) && n < |states|
    requires Enumerates(order, states[n].tables.collectorIds.Keys)
    ensures var stopped := StopConsumer(states[n], order);
      && stopped.watched == {}
      && stopped.tables.collectorIds == map[]
      && (forall c :: c in stopped.tables.tickers ==> c.podId == "")
      && (forall pod :: pod in stopped.tables.tracked ==> pod == "")
      && StopCollectingAll(stopped.tables) == Tables(map[], {}, map[])
      && ((forall i :: 0 <= i < |events| ==> FromWatchers(states[i], events[i])) ==> stopped.configMaps == map[])
  {
    hide IsRun, Invariant, StopPods, Enumerates, StopCollectingAll, FromWatchers;
    EveryRunKeepsInvariant(w, max, events, states, n);
    StopLeavesNothing(w, max, states[n], order);
    RunStates(w, max, events, states);
    if forall i :: 0 <= i < |events| ==> FromWatchers(states[i], events[i]) {
      EveryRunWatchesAgree(w, max, events, states, n);
    }
  }

  lemma RunStates(w: World, max: int, events: seq<Event>, states: seq<Agent>)
    requires IsRun(w, max, events, states)
    ensures |states| == |events| + 1
  {}
}
