/** How Kubernetes watch events become running collectors (k8s/discovery.go,
    k8s/node_event_consumer.go and the lifecycle half of the collector manager), as functions
    on the agent's tables. One event, fully handled, is one step. */
module ReconciliationSpec {
  import opened Wrappers
  import opened Text
  import opened Series
  import T = Tracker

  const VOLUME_NAME := "hawkular-openshift-agent"

  datatype Pod = Pod(
    node: string, namespace: string, name: string, uid: string, podIP: string, volumes: map<string, string>)
  {
    function Identifier(): string {
      Join([node, namespace, name, uid], "/")
    }
  }

  datatype Credentials = Credentials(username: string, password: string, token: string)

  datatype Endpoint = Endpoint(
    etype: string, enabled: string, protocol: string, port: int, path: string,
    credentials: Credentials, interval: string, metrics: seq<MonitoredMetric>)

  /** The endpoints listed in a config map's entry. */
  type Entry = seq<Endpoint>

  /** Go's URL and duration parsers, and the lookup of secrets, as fixed oracles. */
  datatype World = World(
    parseUrl: string -> Option<string>,
    resolveCredentials: (string, Credentials) -> Option<Credentials>,
    validCredentials: Credentials -> bool,
    validInterval: string -> bool)

  /* What to do with one endpoint of one pod. */

  function Url(w: World, e: Endpoint, host: string): Option<string> {
    if host == "" then None
    else
      var slash := if e.path != "" && e.path[0] == '/' then "" else "/";
      w.parseUrl(e.protocol + "://" + host + ":" + Decimal(e.port) + slash + e.path)
  }

  predicate IsEnabled(enabled: string) {
    enabled == "" || enabled == "true"
  }

  predicate KnownType(etype: string) {
    etype in {"prometheus", "jolokia", "json"}
  }

  predicate ValidMetric(etype: string, m: MonitoredMetric) {
    m.name != "" && (if m.mtype == "" then etype == "prometheus" else m.mtype in {"gauge", "counter"})
  }

  predicate ValidEndpoint(w: World, e: Endpoint, url: string, credentials: Credentials) {
    && w.validCredentials(credentials)
    && url != ""
    && KnownType(e.etype)
    && e.enabled in {"", "true", "false"}
    && (forall i :: 0 <= i < |e.metrics| ==> ValidMetric(e.etype, e.metrics[i]))
    && (e.interval == "" || w.validInterval(e.interval))
  }

  /** Skip: no URL yet; Note: known but not collected; Start: collected. */
  datatype Decision = Skip | Note(id: CollectorID) | Start(id: CollectorID)

  function Decide(w: World, p: Pod, e: Endpoint): (d: Decision)
    ensures !d.Skip? ==> d.id.podId == p.Identifier()
  {
    match Url(w, e, p.podIP)
    case None => Skip
    case Some(url) =>
      var id := CollectorID(p.Identifier(), p.namespace + "|" + p.name + "|" + e.etype + "|" + url);
      if !IsEnabled(e.enabled) then Note(id)
      else
        match w.resolveCredentials(p.namespace, e.credentials)
        case None => Note(id)
        case Some(credentials) => if ValidEndpoint(w, e, url, credentials) then Start(id) else Note(id)
  }

  /** The collectors that should run for a pod with these endpoints. */
  function Startable(w: World, p: Pod, es: Entry): (r: set<CollectorID>)
    ensures forall c :: c in r ==> c.podId == p.Identifier()
  {
    if es == [] then {}
    else
      var d := Decide(w, p, es[|es| - 1]);
      Startable(w, p, es[..|es| - 1]) + (if d.Start? then {d.id} else {})
  }

  /* The tables: the consumer's IDs per pod, the manager's tickers, the tracker's metrics. */

  datatype Tables = Tables(collectorIds: map<string, seq<CollectorID>>, tickers: set<CollectorID>, tracked: T.Tracked)

  function StopOne(t: Tables, id: CollectorID): Tables {
    t.(tickers := t.tickers - {id}, tracked := T.PurgeSpec(t.tracked, id))
  }

  function NoteOne(t: Tables, max: int, id: CollectorID): Tables {
    t.(tracked := T.AddSpec(t.tracked, max, id, []))
  }

  /** The manager's StartCollecting: a disabled endpoint is only noted. */
  function StartOne(t: Tables, max: int, id: CollectorID, enabled: bool): Tables {
    var noted := NoteOne(StopOne(t, id), max, id);
    if enabled then noted.(tickers := noted.tickers + {id}) else noted
  }

  function Remember(t: Tables, id: CollectorID): Tables {
    if id.podId !in t.collectorIds then t.(collectorIds := t.collectorIds[id.podId := [id]])
    else if id in t.collectorIds[id.podId] then t
    else t.(collectorIds := t.collectorIds[id.podId := t.collectorIds[id.podId] + [id]])
  }

  function StartEndpoint(w: World, max: int, p: Pod, e: Endpoint, t: Tables): Tables {
    match Decide(w, p, e)
    case Skip => t
    case Note(id) => NoteOne(Remember(t, id), max, id)
    case Start(id) => StartOne(Remember(t, id), max, id, true)
  }

  function StartPod(w: World, max: int, p: Pod, es: Entry, t: Tables): Tables {
    if es == [] then t else StartEndpoint(w, max, p, es[|es| - 1], StartPod(w, max, p, es[..|es| - 1], t))
  }

  function StopAll(ids: seq<CollectorID>, t: Tables): Tables {
    if ids == [] then t else StopOne(StopAll(ids[..|ids| - 1], t), ids[|ids| - 1])
  }

  function StopPod(pod: string, t: Tables): Tables {
    if pod !in t.collectorIds then t
    else StopAll(t.collectorIds[pod], t).(collectorIds := t.collectorIds - {pod})
  }

  datatype Change = Added | Modified | Deleted

  /** One event on the node event channel: the two ADDED triggers act alike, as do the two
      MODIFIED and the two DELETED. */
  function Consume(w: World, max: int, change: Change, p: Pod, entry: Option<Entry>, t: Tables): Tables {
    var stopped := if change.Added? then t else StopPod(p.Identifier(), t);
    if !change.Deleted? && entry.Some? then StartPod(w, max, p, entry.value, stopped) else stopped
  }

  /* Discovery. */

  type ConfigMapCache = map<string, map<string, Entry>>

  datatype Agent = Agent(pods: map<string, Pod>, configMaps: ConfigMapCache, watched: set<string>, tables: Tables)

  function EntryOf(cms: ConfigMapCache, namespace: string, name: string): Option<Entry> {
    if namespace in cms && name in cms[namespace] then Some(cms[namespace][name]) else None
  }

  /** The cached entry that the pod's volume names. */
  function EntryFor(cms: ConfigMapCache, p: Pod): Option<Entry> {
    if VOLUME_NAME in p.volumes then EntryOf(cms, p.namespace, p.volumes[VOLUME_NAME]) else None
  }

  predicate Uses(p: Pod, namespace: string, name: string) {
    p.namespace == namespace && VOLUME_NAME in p.volumes && p.volumes[VOLUME_NAME] == name
  }

  function WithEntry(cms: ConfigMapCache, namespace: string, name: string, entry: Entry): ConfigMapCache {
    cms[namespace := (if namespace in cms then cms[namespace] else map[])[name := entry]]
  }

  function WithoutEntry(cms: ConfigMapCache, namespace: string, name: string): ConfigMapCache {
    if namespace in cms then cms[namespace := cms[namespace] - {name}] else cms
  }

  predicate NamespaceInUse(pods: map<string, Pod>, namespace: string) {
    exists k :: k in pods && pods[k].namespace == namespace
  }

  function PodStep(w: World, max: int, a: Agent, change: Change, p: Pod): Agent {
    var pods := if change.Deleted? then a.pods - {p.Identifier()} else a.pods[p.Identifier() := p];
    var tables := Consume(w, max, change, p, EntryFor(a.configMaps, p), a.tables);
    if !change.Deleted? then Agent(pods, a.configMaps, a.watched + {p.namespace}, tables)
    else if NamespaceInUse(pods, p.namespace) then Agent(pods, a.configMaps, a.watched, tables)
    else Agent(pods, a.configMaps - {p.namespace}, a.watched - {p.namespace}, tables)
  }

  /** The changed config map is sent to each pod using it, in the inventory's iteration order. */
  function FanOut(w: World, max: int, pods: map<string, Pod>, change: Change, namespace: string, name: string,
                  entry: Option<Entry>, order: seq<string>, t: Tables): Tables
    requires forall i :: 0 <= i < |order| ==> order[i] in pods
  {
    if order == [] then t
    else
      var before := FanOut(w, max, pods, change, namespace, name, entry, order[..|order| - 1], t);
      var p := pods[order[|order| - 1]];
      if Uses(p, namespace, name) then Consume(w, max, change, p, entry, before) else before
  }

  /** A watched config map's data: without the agent's entry, with one that does not parse, or
      with endpoints. */
  datatype Payload = NoEntry | Unreadable | Readable(entry: Entry)

  predicate Ignored(change: Change, payload: Payload) {
    payload.NoEntry? || (payload.Unreadable? && !change.Deleted?)
  }

  function CacheAfter(cms: ConfigMapCache, change: Change, namespace: string, name: string,
                      payload: Payload): ConfigMapCache {
    if Ignored(change, payload) then cms
    else if change.Deleted? then WithoutEntry(cms, namespace, name)
    else WithEntry(cms, namespace, name, payload.entry)
  }

  function ConfigMapStep(w: World, max: int, a: Agent, change: Change, namespace: string, name: string,
                         payload: Payload, order: seq<string>): Agent
    requires forall i :: 0 <= i < |order| ==> order[i] in a.pods
  {
    if Ignored(change, payload) then a
    else
      a.(configMaps := CacheAfter(a.configMaps, change, namespace, name, payload),
         tables := FanOut(w, max, a.pods, change, namespace, name,
                          if change.Deleted? then None else Some(payload.entry), order, a.tables))
  }

  /* Everything that can happen before shutdown. */

  datatype Event =
    | PodEvent(change: Change, pod: Pod)
    | ConfigMapEvent(change: Change, namespace: string, name: string, payload: Payload, order: seq<string>)
    | ExternalEndpoint(etype: string, url: string, enabled: string)
    | Tick(id: CollectorID, batch: seq<MetricHeader>)

  /** The order of a config map event is an iteration over the inventory; only a collector with
      a ticker ticks. */
  ghost predicate Possible(a: Agent, e: Event) {
    match e
    case PodEvent(_, _) => true
    case ConfigMapEvent(_, _, _, _, order) => Enumerates(order, a.pods.Keys)
    case ExternalEndpoint(_, _, _) => true
    case Tick(id, _) => id in a.tables.tickers
  }

  function ExternalId(etype: string, url: string): CollectorID {
    CollectorID("", "X|X|" + etype + "|" + url)
  }

  function ExternalStep(t: Tables, max: int, etype: string, url: string, enabled: string): Tables {
    var id := ExternalId(etype, url);
    if KnownType(etype) then StartOne(t, max, id, IsEnabled(enabled)) else NoteOne(t, max, id)
  }

  ghost function Step(w: World, max: int, a: Agent, e: Event): Agent
    requires Possible(a, e)
  {
    match e
    case PodEvent(change, pod) => PodStep(w, max, a, change, pod)
    case ConfigMapEvent(change, namespace, name, payload, order) =>
      ConfigMapStep(w, max, a, change, namespace, name, payload, order)
    case ExternalEndpoint(etype, url, enabled) => a.(tables := ExternalStep(a.tables, max, etype, url, enabled))
    case Tick(id, batch) => a.(tables := a.tables.(tracked := T.AddSpec(a.tables.tracked, max, id, batch)))
  }

  /* Shutdown: NodeEventConsumer.Stop, then StopCollectingAll. */

  function StopPods(order: seq<string>, t: Tables): Tables {
    if order == [] then t else StopPod(order[|order| - 1], StopPods(order[..|order| - 1], t))
  }

  function StopConsumer(a: Agent, order: seq<string>): Agent {
    Agent(a.pods, a.configMaps - a.watched, {}, StopPods(order, a.tables))
  }

  function StopCollectingAll(t: Tables): Tables {
    t.(tickers := {}, tracked := map[])
  }
}
