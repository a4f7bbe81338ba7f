# Verification model of the Hawkular OpenShift Agent

The agent watches the pods of one node, starts and stops a collector for every endpoint a pod
exposes, and lets every collector turn what it scrapes into a bounded batch of uniquely named
time series. The Dafny files here model that pipeline and prove what it keeps.

| files | what they model |
|---|---|
| `ReconciliationSpec`, `Reconciliation`, `ReconciliationLaws`, `EndpointLaws`, `HistoryLaws` | Watch events, the node event consumer, the lifecycle of collectors, and shutdown. A state is the pod inventory, the cached config maps, the watched namespaces, the consumer's collector IDs, the tickers and the tracked metrics. One watch event, fully handled, is one step; so is one tick of a running collector. |
| `Tracker` | Which metric IDs each endpoint of each pod stores, with the limit per pod. |
| `CollectionTick`, `CollectionLaws`, `TickContents` | One collector's loop: renaming and splitting what was collected, compacting it in place, bounding it by the tracker, and keeping the definitions in step. |
| `Expansion`, `ExpansionReading` | Token expansion with `${name}` on strings, its two phases, and the default IDs of labelled series. |
| `JsonSpec`, `JsonCollector`, `JsonLaws`, `JsonDedup`, `Statistics` | Flattening of JSON documents, array statistics, and the deduplicating consumer behind its channel. |
| `JolokiaName`, `JolokiaSpec`, `Jolokia`, `JolokiaLaws`, `JolokiaReports` | Metric names with wildcards, and the walk over a Jolokia response. |
| `Framing`, `FramingFaults` | The stream of length-delimited messages of a Prometheus endpoint. Lengths are varints as in "Base 128 Varints" of the Protocol Buffers encoding specification. |
| `Text`, `TextReading`, `Series`, `Wrappers` | String routines and the values the other files share. |

Code that works step by step is a class or a method with its loops, and its contract equates the
new state with a function; the laws are then proved about that function, over every input and
every run. `HistoryLaws`, `EndpointLaws`, `TickContents`, `ExpansionReading` and `JolokiaReports` say what these
functions give without naming them: in terms of the events that happened, the endpoint's own fields, the collected
metric and the text read. Map iteration is nondeterministic in the methods, so a contract that gives one result
also says that the iteration order does not matter. Parsers of foreign formats, secrets and the
square root are function parameters.

## Where the code falls short of its documentation

* A second ADDED event for a known config map or pod starts collectors without stopping old ones.
  The running collectors stay exactly the wanted ones if and only if no such event takes a wanted
  collector away (`EveryRunStaysExact`, `StaleExample`). At any moment of any run a pod's collector runs if
  and only if it was wanted at some time since the pod was last restarted (`EveryRunRunsWanted`), so a
  MODIFIED event of the pod puts everything right again (`RestartRestores`).
* Metric names in a config map may hold pod tokens (README.adoc:237), but they are expanded in the
  array that all pods using the config map share. A later pod monitors its own name whenever the
  tokens that the first pod sets are set alike for it and no token has a default other than the later pod's
  value (`SharedNameIsOwnIfAlike`). For a name with one token the condition is exact: without a default, the first
  pod does not set the token or sets it alike (`SharedNameIsOwn`); with a default, both pods make the same of
  it (`SharedDefaultIsOwn`). `SharedNameExample` shows two pods for which it fails.
* README.adoc:358 promises one series for each combination of labels. The list of labels in an ID is made anew
  from what each collection reports, so a combination keeps its series exactly as long as the metric's datapoints
  have the same keys between them (`SameLabelsAcross`, `NewKeyRenames`). Commas in values can merge series,
  within one collection (`LabelsSeparateSeries`, `AmbiguousLabelsMerge`) and across two: there, different tags
  are separate as long as no value reads as if it went on to a key sorting behind its own, whether or not the
  metric has that key, and every such value shares its series with another one (`LabelsSeparateAcross`,
  `UncleanLabelsMerge`, `AcrossExample`).
* The JSON collector is to take every number and boolean of a document, and four statistics of every array of
  numbers. It does if and only if there is nothing to collect below an empty top-level key (`EmptyKeyExact`). Two
  metrics share ID and tags if and only if two objects of one array hold a leaf at the same path
  (`DocumentDistinct`). Beyond those the deduplication drops nothing unless "label" followed by a digit occurs in
  a name, or a top-level name ends in "array_stat" and a statistic (`NothingDropped`). A top-level name can
  collide if and only if it reads as the key of another collected leaf, which is "label1" behind a non-empty
  collected name and perhaps a statistic, or a collected name with a statistic (`TopLevelCollision`);
  `KeysCollide` gives documents that lose a metric.
* The JSON collector returns without waiting for its goroutine. The list is complete under every
  schedule if and only if the last metric emitted is not the first of its series
  (`CompleteExactly`).
* A cut inside a message's length, or right behind it, looks like a clean end of the stream
  (`TruncatedStream` says exactly when a cut is reported).
* The inner map of a Jolokia composite replaces the metrics collected before it. Nothing is missing
  if and only if no leaf sorts before an inner map of the same composite (`ResponseExact`,
  `NumberBeforeMapIsLost`).
* A key given both as a wildcard and, later, with a value stays a wildcard of a Jolokia name
  (`WildcardsExact`, `WildcardTakenBackExample`).
* A metric whose whole ID expands to the empty string is not stored, but a definition is sent for it.
  `TickDefinesHeld` says exactly when every definition sent is for an ID the tracker holds, and
  `NamelessExample` is a metric for which it is not.
* `$$` is to give a literal `$` (util/expand/mapping_func.go:53). The ID of a metric that has tags, or keeps a
  token, is expanded again, and the dollar is then read with what stands behind it. It survives if and only if
  nothing does, or a tag spells the dollar and the text it replaces (`DollarInSeries`); in an ID that is not
  expanded again it stays (`DollarWithoutToken`). `DollarExample` turns `cost_$$_${pool}` into `cost_A`.
  In the same way a second pod reads the dollar of a shared name again (`SharedDollar`).
* A Jolokia composite asked for by one attribute without a path gives all its leaves the same ID and no tags
  (`CompositeWithoutPath`). `LeafTagsSeparate` says which leaves of a response get different tags.

One more thing a reader may not expect: a default `${x=d}` in an ID that keeps some token for the datapoint's tags
is taken in the first phase, before the tag `x` is looked at. It makes no difference to the series if and only if
the pod sets `x`, there is no such tag, or the tag equals the default (`DefaultInSeries`). An ID whose every token
has a default or is set by the pod keeps none; it gets the list of all tags.

## Model

| member | source | states |
|---|---|---|
| ReconciliationLaws.EveryRunKeepsInvariant | k8s/discovery.go:129-445 | In every state of every run from the empty agent: each pod's tracked metrics are within the limit and no tracker entry is empty; each pod's collector IDs are non-empty, duplicate-free and exactly the endpoints the tracker has; every ticker is in the tracker; only pods of the inventory have collector IDs; every wanted collector runs |
| ReconciliationLaws.EveryRunStaysExact | k8s/node_event_consumer.go:108-305 | Over any run, the pods' running collectors are exactly the startable endpoints of the config maps their volumes name, in every state, if and only if no ADDED event takes away a collector that was wanted before it |
| ReconciliationLaws.EveryRunRunsWanted | k8s/node_event_consumer.go:108-161 | In every state of every run, whatever was lost before, a pod's collector runs if and only if it was wanted at some time since its pod was last restarted by a MODIFIED or DELETED event |
| ReconciliationLaws.EveryRunExactPods | k8s/node_event_consumer.go:108-161 | So a pod's collectors are exactly the wanted ones if and only if everything wanted since its last restart still is |
| ReconciliationLaws.RestartRestores | k8s/node_event_consumer.go:119-155 | After an event that restarts a pod, exactly the wanted collectors run for it, whatever ran before |
| ReconciliationLaws.StepLaws | k8s/node_event_consumer.go:108-161 | Any single event keeps the invariant, and from exact agreement leads to exact agreement precisely when it loses nothing |
| ReconciliationLaws.ReplayLosesNothing | k8s/discovery.go:66-76 | A re-created watcher that reports known objects unchanged as ADDED loses nothing |
| ReconciliationLaws.StaleCollectorSurvives | k8s/node_event_consumer.go:135-140 | For every startable endpoint: pod added, config map added, the same config map added again without the endpoint, and its collector still runs |
| ReconciliationLaws.StaleExample | k8s/node_event_consumer.go:135-140 | A concrete run that ends in a stale collector |
| ReconciliationLaws.NoStrays | k8s/discovery.go:275-295 | A pod outside the inventory has no ticker, no collector IDs and no tracked metric |
| ReconciliationLaws.PodStepLaws | k8s/discovery.go:264-305 | A pod event, with its node event consumed, keeps the invariant; exactness survives it precisely when nothing is lost |
| ReconciliationLaws.ConfigMapStepLaws | k8s/discovery.go:157-200 | The same for a config map event fanned out to the pods using it, whatever order the inventory is walked in |
| ReconciliationLaws.ExternalStepLaws | collector/manager/metrics_collector_manager.go:72-90 | Starting external endpoints disturbs no pod's tables |
| ReconciliationLaws.TickLaws | collector/manager/metrics_collector_manager.go:319 | A tick of a running collector, with any batch, keeps the tables in step |
| ReconciliationLaws.ConsumeLaws | k8s/node_event_consumer.go:108-161 | Which tickers run after one node event, for its pod and for all others, with the tables still in step |
| ReconciliationLaws.FanOutLaws | k8s/discovery.go:157-200 | Which tickers run after a config map event reached every pod, for any order of the pods |
| ReconciliationLaws.StartPodLaws | k8s/node_event_consumer.go:165-294 | Starting a pod's endpoints adds exactly the tickers of the startable ones, though every endpoint with a URL is remembered and tracked |
| ReconciliationLaws.RememberedInOrder | k8s/node_event_consumer.go:184-199 | A pod's collector IDs stay in the order in which they first came |
| ReconciliationLaws.StopPodLaws | k8s/node_event_consumer.go:297-305 | Stopping a pod removes it, and nothing else, from the collector IDs, the tickers and the tracker |
| ReconciliationLaws.EveryRunWatchesAgree | k8s/discovery.go:264-332 | In every state the watched namespaces are exactly those with a pod in the inventory, and config maps are cached only for them, if config map events arrive only for watched namespaces |
| ReconciliationLaws.IdentifierInjective | k8s/pod.go:42-44 | Pod identifiers tell pods apart when names hold no slash |
| ReconciliationLaws.ShutdownLeavesNothing | hawkular-openshift-agent.go:114-115 | After any run, stopping the consumer leaves at most external endpoints, and stopping the manager after it leaves no ticker, no tracked metric, no collector ID and no watch; nor a cached config map, if config map events came for watched namespaces only |
| ReconciliationLaws.StopLeavesNothing | k8s/node_event_consumer.go:91-103 | The same for any state that keeps the invariant |
| HistoryLaws.EveryRunRunsConfigured | k8s/node_event_consumer.go:108-305 | In every state of every run a pod's collector runs if and only if at some time the events so far configured it, and none has stopped the pod's collectors since; said in terms of events, pods and endpoints alone |
| HistoryLaws.WantedIsConfigured | k8s/node_event_consumer.go:165-294 | A collector is wanted if and only if its pod was last reported with a volume naming a config map that was last reported with an endpoint to collect under this ID |
| HistoryLaws.ConfiguredRuns | k8s/node_event_consumer.go:165-294 | Everything configured now runs |
| HistoryLaws.EveryRunCaches | k8s/discovery.go:358-445 | In every state of every run the cached entry of a config map is the one reported last by an ADDED or MODIFIED event that could be read, unless it was deleted since or its namespace lost its last pod |
| HistoryLaws.CachedAfter | k8s/discovery.go:358-445 | One event caches a reported entry, drops a forgotten one, and leaves every other entry as it was |
| HistoryLaws.UnusableChangesNothing | k8s/discovery.go:358-426 | A config map without the agent's entry, or with one that cannot be read and is not deleted, changes nothing at all |
| HistoryLaws.EveryRunKnowsPods | k8s/discovery.go:264-305 | In every state of every run the inventory holds a pod as its last event reported it, unless that deleted it |
| HistoryLaws.ConfigMapChanged | k8s/node_event_consumer.go:135-150 | After a config map event a pod using it runs: after MODIFIED exactly the collectors the new entry lists, after ADDED those and the ones before, after DELETED none |
| HistoryLaws.OtherPodsKeepRunning | k8s/discovery.go:157-200 | A config map event leaves the collectors of every pod that does not use it alone |
| HistoryLaws.TrackedAfterNodeEvent | k8s/node_event_consumer.go:108-161 | The metrics tracked for a collector after one node event: none if its pod was stopped or it was started, otherwise those before |
| HistoryLaws.StartsEmpty | collector/manager/metrics_collector_manager.go:95-150 | A collector starts with no tracked metric, and starting it takes none from another |
| HistoryLaws.TickTracks | collector/manager/metrics_collector_manager.go:319 | A tick adds IDs of its batch to its own collector, all of them unless the pod is full afterwards, and changes nothing else |
| EndpointLaws.StartableExact | k8s/node_event_consumer.go:165-294 | The collectors to start for a pod are those of its endpoints that are enabled, of a known type, with an address, valid credentials, usable metrics and interval, each under the ID of its pod, type and address |
| EndpointLaws.DecideExact | k8s/node_event_consumer.go:166-293 | The same for one endpoint, with every condition written out |
| EndpointLaws.SameCollector | k8s/node_event_consumer.go:349-356 | Two endpoints of a pod that have an address share a collector ID if and only if they have the same type and the same address |
| EndpointLaws.OneCollectorPerTarget | k8s/node_event_consumer.go:165-294 | The collectors to start for a pod stand for the types and addresses of its collectable endpoints one to one |
| EndpointLaws.KnownUnderItsId | k8s/node_event_consumer.go:166-182 | Every endpoint with an address is known under the ID of its pod, type and address, whether it is started or not |
| EndpointLaws.UrlIsAddress | k8s/configmap_entry.go:77-87 | The address is protocol, host, port and path with one slash between them, whether the path begins with one or not |
| EndpointLaws.UrlKeepsSlashes | k8s/configmap_entry.go:77-87 | A path that begins with a slash is taken as it is |
| EndpointLaws.NoAddressWithoutIp | k8s/configmap_entry.go:78-80 | A pod without an IP has no address |
| EndpointLaws.ExternalTickers | collector/manager/metrics_collector_manager.go:72-90 | An external endpoint of a known type runs if and only if it is enabled; no other collector changes |
| EndpointLaws.ExternalEndpointsSeparate | collector/manager/metrics_collector_manager.go:72-90 | External endpoints share a collector if and only if they have the same type and URL |
| Reconciliation.Discovery.HandlePodEvent | k8s/discovery.go:264-305 | The new state of all tables after a pod event, in the order inventory, node event, watches |
| Reconciliation.Discovery.HandleConfigMapEvent | k8s/discovery.go:358-426 | The new state after a config map event; unreadable or foreign entries change nothing, but a deletion counts even if its entry is unreadable. HistoryLaws.CachedAfter and ConfigMapChanged say what that state holds |
| Reconciliation.Discovery.SendDueToChangedPod | k8s/discovery.go:129-155 | The pod's node event carries the cached entry its volume names |
| Reconciliation.Discovery.SendDueToChangedConfigMap | k8s/discovery.go:157-200 | Every pod of the inventory is visited once; those using the config map get the event |
| Reconciliation.Discovery.WatchConfigMap | k8s/discovery.go:329-433 | A namespace is watched once |
| Reconciliation.Discovery.UnwatchConfigMap | k8s/discovery.go:435-445 | Neither the watch nor a cached config map of the namespace remains |
| Reconciliation.Discovery.Stop | k8s/discovery.go:120-127 | No watch remains, and the config maps of the namespaces watched before are gone |
| Reconciliation.Discovery.Shutdown | hawkular-openshift-agent.go:114-115 | The orderly shutdown equals its specification and leaves no ticker running |
| Reconciliation.NodeEventConsumer.ConsumeNodeEvent | k8s/node_event_consumer.go:108-161 | One node event on the consumer's, manager's and tracker's tables |
| Reconciliation.NodeEventConsumer.StartCollecting | k8s/node_event_consumer.go:165-294 | The loop over a config map's endpoints |
| Reconciliation.NodeEventConsumer.StartCollectingEndpoint | k8s/node_event_consumer.go:166-293 | One endpoint: skipped without URL; otherwise remembered once, then noted or started |
| Reconciliation.ValidateMetrics | collector/metrics_endpoint.go:138-158 | Validation's loop over the metrics: it fails if and only if one is invalid, and gives every metric before the first invalid one its name as ID if it has none, in the shared array |
| Reconciliation.NodeEventConsumer.StopCollecting | k8s/node_event_consumer.go:297-305 | All of a pod's collectors are stopped and forgotten |
| Reconciliation.NodeEventConsumer.Stop | k8s/node_event_consumer.go:91-103 | The collectors of every pod are stopped, whatever the order |
| Reconciliation.Manager.StartCollecting | collector/manager/metrics_collector_manager.go:95-150 | The old ticker is stopped first and a new one made, so the started and not stopped tickers stay exactly the table's values; a disabled endpoint is tracked but gets no ticker, and no other ticker changes |
| Reconciliation.Manager.StopCollecting | collector/manager/metrics_collector_manager.go:379-401 | The ticker is stopped, and the endpoint purged even if it had none |
| Reconciliation.Manager.StopCollectingAll | collector/manager/metrics_collector_manager.go:404-422 | No ticker runs and nothing is tracked |
| Reconciliation.Manager.NotCollecting | collector/manager/metrics_collector_manager.go:427-430 | The endpoint is tracked without a ticker |
| Reconciliation.Manager.StartExternal | collector/manager/metrics_collector_manager.go:72-90 | External endpoints live under the empty pod ID; an unknown type is only noted |
| ReconciliationSpec.Decide | k8s/node_event_consumer.go:166-293 | Whether an endpoint is skipped, noted or started; its ID always carries its own pod |
| ReconciliationSpec.Startable | k8s/node_event_consumer.go:165-294 | The collectors that should run for a pod, all of them its own |
| Reconciliation.ConfigMaps.AddEntry | k8s/configmaps.go:32-39 | One entry of the nested cache is set, everything else stays |
| Reconciliation.ConfigMaps.GetEntry | k8s/configmaps.go:41-48 | The cached entry, or none when namespace or name is unknown |
| Reconciliation.ConfigMaps.RemoveEntry | k8s/configmaps.go:50-55 | One entry is removed, an unknown namespace stays unknown |
| Reconciliation.ConfigMaps.ClearNamespace | k8s/configmaps.go:57-59 | A namespace's entries are removed |
| Reconciliation.PodInventory.AddPod | k8s/pod_inventory.go:36-38 | The pod is kept under its identifier |
| Reconciliation.PodInventory.RemovePod | k8s/pod_inventory.go:40-42 | The identifier is removed |
| Reconciliation.PodInventory.HasPodIn | k8s/discovery.go:283-290 | The walk with early exit finds out whether the namespace still has a pod |
| Tracker.EveryRunBounded | collector/tracker/metrics_tracker.go:96-156 | For any interleaving of adds and purges by any collectors, no pod exceeds its limit and no pod entry is empty |
| Tracker.AddSpecLaws | collector/tracker/metrics_tracker.go:114-156 | Adding a batch keeps a pod within its limit, an overflow means the pod is exactly full, stored IDs stay stored, only IDs of the batch are new, and other endpoints are untouched |
| Tracker.FirstComeFirstStored | collector/tracker/metrics_tracker.go:144-153 | Behind an overflowing metric only IDs are stored that were known before or occur earlier in the batch |
| Tracker.PurgeSpecLaws | collector/tracker/metrics_tracker.go:96-103 | A purge removes one endpoint, and its pod entry with the last one, and nothing else |
| Tracker.MetricsTracker.AddMetricsFromCollector | collector/tracker/metrics_tracker.go:114-156 | The overflow returned is, in order, exactly the part of the batch that is untracked afterwards |
| Tracker.MetricsTracker.PurgeMetricsForCollectorEndpoint | collector/tracker/metrics_tracker.go:96-103 | The new nested map, with an emptied pod entry dropped |
| Tracker.MetricsTracker.PurgeAllMetrics | collector/tracker/metrics_tracker.go:105-109 | Nothing is tracked |
| Tracker.StoreBatch | collector/tracker/metrics_tracker.go:142-155 | The loop with its running count stores what the room allows and returns the rest |
| Tracker.CountMetrics | collector/tracker/metrics_tracker.go:121-130 | Summing over endpoints in any order counts the pod's (endpoint, metric) pairs |
| CollectionTick.Collection.Tick | collector/manager/metrics_collector_manager.go:190-366 | The multi-pass tick on the collected array equals the short specification: batch, tracker, filtered batch, definitions |
| CollectionTick.RenameAndSplit | collector/manager/metrics_collector_manager.go:190-302 | The first loop renames in place, marks for removal, splits per datapoint and notes missing definitions |
| CollectionTick.RenameOne | collector/manager/metrics_collector_manager.go:196-301 | Its body for one metric |
| CollectionTick.TemplateOf | collector/manager/metrics_collector_manager.go:218-259 | The ID template does not depend on the order in which tags are iterated |
| CollectionTick.Split | collector/manager/metrics_collector_manager.go:261-291 | One single-datapoint metric per datapoint, in order, and the definitions not declared yet |
| CollectionTick.CompactNamed | collector/manager/metrics_collector_manager.go:304-312 | The second loop compacts in place and overwrites no element it has not read |
| CollectionTick.CompactKept | collector/manager/metrics_collector_manager.go:326-340 | The third loop removes in place exactly the metrics with an overflowed ID |
| CollectionTick.Discard | collector/manager/metrics_collector_manager.go:319-347 | Overflowed IDs lose their metrics and their definitions |
| CollectionTick.PrepareMetrics | collector/manager/metrics_collector_manager.go:163-176 | Names are expanded where the config map keeps them; the last metric of a name is looked up |
| TickContents.OnlyAskedCount | collector/manager/metrics_collector_manager.go:197-208 | If the endpoint lists metrics, batch and definitions are those of the collected metrics with a listed name; if it lists none, of all |
| TickContents.BatchExact | collector/manager/metrics_collector_manager.go:195-315 | The batch holds exactly what the metrics asked for yield: the metric as collected under its ID, or one metric per datapoint, without tags, under the ID its tags complete; the ID is the one configured for the name, or the name if nothing is |
| TickContents.BatchInOrder | collector/manager/metrics_collector_manager.go:303-315 | The batch lists the metrics stored whole in the order of collection, and behind them the parts of the others in that order |
| TickContents.PartsInOrder | collector/manager/metrics_collector_manager.go:261-291 | A split metric gives one part per datapoint, in the order of the datapoints |
| TickContents.NeededWrittenOut | collector/manager/metrics_collector_manager.go:277-300 | The definition needed for an ID is what the last metric and the last datapoint with this ID give: the configured metric, and the datapoint's tags marked with @@@; none for a declared ID |
| TickContents.TickSends | collector/manager/metrics_collector_manager.go:342-365 | A tick sends the definitions needed, except for IDs of the batch the tracker does not hold; it declares what it sends if the request for details succeeded and otherwise nothing, and never sends an empty set |
| TickContents.EveryRunDeclares | collector/manager/metrics_collector_manager.go:354-365 | In every run an ID is declared if and only if some tick whose request for details succeeded sent a definition for it |
| TickContents.EveryRunSends | collector/manager/metrics_collector_manager.go:277-365 | In every run a tick sends a definition for an ID of its batch if and only if the tracker holds the ID afterwards and no earlier tick whose request succeeded has sent one |
| TickContents.SentAgain | collector/manager/metrics_collector_manager.go:457-466 | An ID defined by a tick whose request failed is defined again by the next tick with it |
| TickContents.ByNameIsLast | collector/manager/metrics_collector_manager.go:171-176 | A name is looked up if and only if a metric has it, and the last such metric is found |
| TickContents.AskedForAll | collector/manager/metrics_collector_manager.go:171-200 | Everything is collected if and only if no metric is listed |
| CollectionLaws.TickStoresTracked | collector/manager/metrics_collector_manager.go:314-355 | A tick sends, in order, exactly the part of its batch whose IDs the tracker holds after it |
| CollectionLaws.BatchConserves | collector/manager/metrics_collector_manager.go:195-315 | Before the limit, every datapoint of every expected metric with a non-empty ID occurs in the batch exactly as often as collected, under its series, with value and timestamp unchanged |
| CollectionLaws.NeverDiscarded | collector/manager/metrics_collector_manager.go:319-340 | Once the tracker holds an ID of a running collector, no later tick discards it, whatever other collectors do in between |
| CollectionLaws.EveryStoredIdIsDefined | collector/manager/metrics_collector_manager.go:354-365 | In every run of a collector, every ID it ever stored has had a definition sent by the end of the tick storing it |
| CollectionLaws.TickKeepsAllDefined | collector/manager/metrics_collector_manager.go:342-365 | One tick preserves that everything declared, tracked or stored is defined |
| CollectionLaws.DefinedOnceWithDetails | collector/manager/metrics_collector_manager.go:457-466 | An ID defined by a tick whose detail request succeeded is never defined again in any run of the collector |
| CollectionLaws.DeclaredIsFinal | collector/manager/metrics_collector_manager.go:278-300 | A declared ID is never defined again |
| CollectionLaws.NeededCovers | collector/manager/metrics_collector_manager.go:277-300 | Every ID of the batch is declared already or needed now, never both |
| CollectionLaws.NeededExact | collector/manager/metrics_collector_manager.go:277-300 | The definitions needed are exactly those of undeclared IDs of the batch, and of the empty ID if an expected metric's whole ID is empty |
| CollectionLaws.TickDefinesHeld | collector/manager/metrics_collector_manager.go:342-360 | Every definition a tick sends is for an ID the tracker holds after it, if and only if no expected metric's whole ID is empty or the empty ID is declared, held or that of another metric |
| CollectionLaws.NamelessExample | collector/manager/metrics_collector_manager.go:296-311 | A metric that is not stored although its definition is sent |
| CollectionLaws.LabelsSeparateSeries | README.adoc:355-359 | Within one collection, for metrics without tokens, two datapoints whose values do not read as going on to the next key share a series if and only if their tags agree, a missing one counting as empty |
| CollectionLaws.AmbiguousLabelsMerge | collector/manager/metrics_collector_manager.go:250-256 | Conversely, a datapoint with such a value shares its series with a datapoint of other tags that the metric can report beside it in the same collection |
| CollectionLaws.SameLabelsAcross | collector/manager/metrics_collector_manager.go:233-275 | The same tags get the same series in two collections of a metric without tokens if and only if the datapoints of both have the same keys between them |
| CollectionLaws.NewKeyRenames | collector/manager/metrics_collector_manager.go:233-239 | A datapoint that brings a new key renames the series of every other one |
| CollectionLaws.LabelsSeparateAcross | README.adoc:355-359 | In whatever two collections, datapoints whose values do not read as going on to any key behind their own share a series if and only if the collections have the same keys and the tags agree |
| CollectionLaws.UncleanLabelsMerge | collector/manager/metrics_collector_manager.go:250-256 | Conversely, a datapoint with such a value shares its series with one of other tags that a collection with that key reports |
| CollectionLaws.AcrossExample | collector/manager/metrics_collector_manager.go:233-275 | The single tag a=1,b=2 in one collection and the tags a=1 and b=2 in the next: one series |
| CollectionLaws.TokensNameSeries | collector/manager/metrics_collector_manager.go:218-275 | For metrics with tokens, the series is the prefix and one expansion of the configured ID, pod environment before tags before defaults, if no default hides a tag |
| CollectionLaws.DefaultInSeries | util/expand/mapping_func.go:60-70 | In an ID that keeps a token for the second phase and may hold any other harmless tokens, a default names the same series as one expansion by environment over tags over defaults would, if and only if the environment has the name, the tags do not, or the tag equals the default |
| CollectionLaws.DollarInSeries | collector/manager/metrics_collector_manager.go:218-275 | In an ID that is expanded again, for a token of its own or for the default list of tags, the dollar of `$$` survives if and only if nothing stands behind it by then, or a tag is named like what stands there and holds the dollar and that text |
| CollectionLaws.DollarWithoutToken | collector/manager/metrics_collector_manager.go:233-261 | A metric whose ID keeps no token and that has no tags is named by the first phase alone, so the dollar stays |
| CollectionLaws.DollarExample | util/expand/mapping_func.go:53-58 | The ID `cost_$$_${pool}` with the tag pool=A gives the series cost_A |
| CollectionLaws.SharedNamesFirstPodWins | collector/manager/metrics_collector_manager.go:163-166 | A second pod of a shared config map consults its environment only for the tokens that the first one kept, whatever tokens and defaults the name has |
| CollectionLaws.SharedNamePrecedence | collector/manager/metrics_collector_manager.go:163-166 | So the first pod's environment takes precedence over the second's, and that over defaults that hide nothing |
| CollectionLaws.SharedNameIsOwnIfAlike | README.adoc:237 | A name with any tokens but `$$` is the second pod's own if the tokens the first pod sets are set alike for the second, and no token has a default that the first pod takes and the second pod's environment would replace |
| CollectionLaws.SharedNameIsOwn | README.adoc:237 | For a name with one token and no default, if and only if the first pod does not set it or sets it alike |
| CollectionLaws.SharedDefaultIsOwn | README.adoc:237 | For a name with one token that has a default, if and only if both pods make the same of it, each taking the default when it does not set the token |
| CollectionLaws.SharedDollar | collector/manager/metrics_collector_manager.go:163-166 | The dollar of `$$` in a shared name survives the second pod if and only if the first one leaves nothing behind it, or the second environment maps what stands there to the dollar and that text |
| CollectionLaws.SharedNameExample | README.adoc:237 | Two pods of which the second monitors the first one's name |
| ExpansionReading.ExpandReads | util/expand/mapping_func.go:41-53 | A text that begins with a token is expanded by replacing that and going on behind it; the tokens are names in braces, special variables, longest words, an open brace never closed, and a dollar before anything else |
| ExpansionReading.DollarBeginsToken | util/expand/mapping_func.go:41-53 | Every dollar with something behind it begins such a token |
| ExpansionReading.OthersStand | util/expand/mapping_func.go:41-53 | Everything else stands for itself, a final dollar too |
| ExpansionReading.MapPlain | util/expand/mapping_func.go:54-87 | A name without default is looked up in the given environment, then in the operating system's, and is otherwise kept or dropped |
| ExpansionReading.MapDollar | util/expand/mapping_func.go:56-58 | The name `$` stands for a dollar, whatever the environments say |
| ExpansionReading.PrefixToken | collector/manager/metrics_collector_manager.go:157-218 | A token in the prefix of all IDs is the pod's value, or else the operating system's, or else empty |
| ExpansionReading.PrefixDefault | collector/manager/metrics_collector_manager.go:157-218 | Or else its default, if it has one |
| Expansion.PhasesFuse | collector/manager/metrics_collector_manager.go:218-275 | Expanding with the pod environment and then with the tags is one expansion, for tokens that the first phase settles or keeps |
| Expansion.PhasesFuseToOne | util/expand/mapping_func.go:54-87 | Without `$$`, with environment values free of `$` and defaults that hide no tag, it is the expansion by environment over tags over defaults over empty |
| Expansion.DefaultExact | util/expand/mapping_func.go:60-70 | In a text with any other harmless tokens, a default expands as in one phase if and only if the environment has the name, the tags do not, or the tag equals the default |
| Expansion.ExpandTwice | util/expand/mapping_func.go:54-87 | The general law: a mapping that keeps or settles every name, then another one, is a single mapping |
| Expansion.DollarExact | util/expand/mapping_func.go:53-58 | In a text with any other tokens, the dollar that `$$` leaves survives a second expansion, with whatever suffix was added before it, if and only if nothing stands behind it by then or the name read there is replaced by the dollar and the text it was read from |
| Expansion.DollarBeforeToken | util/expand/mapping_func.go:53-58 | Directly in front of a token that the first phase kept, it survives if and only if the second phase replaces that token by its own name in braces |
| Expansion.DefaultHidesTag | util/expand/mapping_func.go:60-70 | Otherwise the default is taken and the tag never seen |
| Expansion.DefaultIdForm | collector/manager/metrics_collector_manager.go:241-256 | A default ID prints as name{k1=v1,...,kn=vn} |
| Expansion.DefaultIdSeparates | collector/manager/metrics_collector_manager.go:233-275 | Default IDs are equal if and only if the tags agree on all keys, as long as no value reads as going on to the next key |
| Expansion.SameTagsSeries | collector/manager/metrics_collector_manager.go:233-275 | The same tags printed with two lists of keys are equal if and only if the lists are |
| Expansion.CleanSeparates | collector/manager/metrics_collector_manager.go:233-275 | With any two lists of keys, default IDs are equal if and only if the lists and the tags are, as long as no value reads as going on to a key behind its own |
| Expansion.UncleanMerges | collector/manager/metrics_collector_manager.go:250-256 | If one does, cutting it there into two tags gives a longer list of keys, or other values, and the same ID |
| Expansion.AmbiguousMerges | collector/manager/metrics_collector_manager.go:250-256 | If one does, moving its end into the next value gives other tags and the same ID |
| Expansion.CommasMergeSeries | collector/manager/metrics_collector_manager.go:250-256 | Different tags, the same ID |
| JsonCollector.Walker.ProcessJSON | collector/impl/json_metrics_collector.go:179-365 | Emits exactly the flattening of a value and leaves the caller's tags as they were, although all levels append to one shared array |
| JsonCollector.Walker.AppendTag | collector/impl/json_metrics_collector.go:184-186 | Append may write behind the slice or move it; what the slice held stays |
| JsonCollector.Walker.TagsClone | collector/impl/json_metrics_collector.go:391-397 | The tags spell the path |
| JsonCollector.Walker.ProcessNumbers | collector/impl/json_metrics_collector.go:254-337 | Four statistics of a numeric array, or nothing if an item does not parse |
| JsonCollector.Walker.ProcessItems | collector/impl/json_metrics_collector.go:338-348 | The objects of an array, one after the other |
| JsonCollector.Walker.ProcessFields | collector/impl/json_metrics_collector.go:355-360 | The fields of an object, one after the other |
| JsonCollector.Walker.WalkDocument | collector/impl/json_metrics_collector.go:150-154 | The whole document |
| JsonCollector.Consumer.Consume | collector/impl/json_metrics_collector.go:117-142 | One received metric: kept if it has data and its key is new |
| JsonCollector.KeyOf | collector/impl/json_metrics_collector.go:120-133 | The key does not depend on the order in which tags are iterated, though the key array starts with empty strings |
| JsonLaws.DocumentReported | collector/impl/json_metrics_collector.go:179-365 | The metrics of a document with nothing to collect below an empty key are exactly those that report one of its values, with tenant, ID, type, time, value and tags written out: true is 1 and false is 0, label1, label2, ... spell the path, array_stat names the statistic |
| JsonLaws.StatsExact | collector/impl/json_metrics_collector.go:254-272 | An array has statistics if and only if all its items are numbers or strings that parse, and they are those of exactly these numbers |
| JsonLaws.DocumentExact | collector/impl/json_metrics_collector.go:179-365 | The metric meant for a number, boolean or array statistic at a path, of the configured type (statistics are gauges) and with labels spelling the path below the top-level key, is emitted if and only if that key is to be collected and following the path, through arrays of objects, finds that value; under any metric filter, for any document with nothing to collect below an empty top-level key |
| JsonLaws.DocumentDistinct | collector/impl/json_metrics_collector.go:179-365 | Nothing else is emitted, and no two metrics share ID and tags if and only if no two objects of one array hold a leaf at the same path |
| JsonLaws.DocumentIsLeaves | collector/impl/json_metrics_collector.go:179-365 | One metric per leaf below a collected key, array statistics included, in the order of the walk |
| JsonLaws.LeavesExact | collector/impl/json_metrics_collector.go:179-365 | The leaves listed for any value are those that paths lead to, arrays of objects sharing their path and arrays of numbers giving their statistics |
| JsonLaws.TagsInjective | collector/impl/json_metrics_collector.go:184-186 | Equal tags mean equal paths |
| JsonLaws.StatTagsInjective | collector/impl/json_metrics_collector.go:254-337 | Equal tags mean equal paths and the same statistic |
| JsonLaws.EmptyKeyExact | collector/impl/json_metrics_collector.go:376-382 | Any document is flattened as meant if and only if there is nothing to collect below an empty top-level key that is collected |
| JsonLaws.EmptyKeyCollides | collector/impl/json_metrics_collector.go:376-382 | A document with an empty top-level key and two leaves in one series |
| JsonDedup.DedupIsFirsts | collector/impl/json_metrics_collector.go:109-142 | The consumer keeps exactly the first metric of every key, in order |
| JsonDedup.DedupDistinct | collector/impl/json_metrics_collector.go:110-113 | It never keeps two metrics with equal ID and tags |
| JsonDedup.KeysSeparate | collector/impl/json_metrics_collector.go:120-133 | For names in which "label" is nowhere followed by a digit, and IDs that do not end in "array_stat" and a statistic, equal keys mean equal ID, path and statistic |
| JsonDedup.KeyOfPath | collector/impl/json_metrics_collector.go:120-133 | A flattened metric's key is its ID, with the statistic if it has one, and numbered values joined by "label" |
| JsonDedup.NothingDropped | collector/impl/json_metrics_collector.go:109-142 | With such names nothing of a regular document is dropped, under any filter, unless two objects of one array hold a leaf at the same path |
| JsonDedup.KeysCollide | collector/impl/json_metrics_collector.go:128-136 | Documents whose second metric is dropped, one for every two collected names of which one is the other, not empty, with "label1" and anything behind it |
| JsonDedup.TopLevelCollision | collector/impl/json_metrics_collector.go:120-133 | Under any filter, a top-level name can have the key of another collected leaf of a regular document if and only if it is collected itself and reads as a non-empty collected name, perhaps with "array_stat" and a statistic, followed by "label1"; or as a collected name with a statistic |
| JsonDedup.EveryScheduleReturns | collector/impl/json_metrics_collector.go:116-156 | For every schedule of walk and goroutine, the list returned is the deduplication of all emitted metrics or of all but the last |
| JsonDedup.CompleteExactly | collector/impl/json_metrics_collector.go:116-170 | Every schedule that returns gives the deduplication of all emitted metrics if and only if there are none, or the last one repeats a series |
| JsonDedup.SendAll | collector/impl/json_metrics_collector.go:116-154 | Some schedule reaches the state with everything sent and the last metric in hand |
| JsonDedup.BothReturnsHappen | collector/impl/json_metrics_collector.go:156-170 | Some schedule returns the deduplication of all metrics, and some that of all but the last |
| Statistics.Min | util/math/math.go:24-35 | The loop computes the minimum that MinIsLeast describes |
| Statistics.Max | util/math/math.go:37-48 | The loop computes the maximum that MaxIsGreatest describes |
| Statistics.Sum | util/math/math.go:50-56 | The loop computes the sum |
| Statistics.Avg | util/math/math.go:58-63 | The average, zero for no numbers |
| Statistics.Stddev | util/math/math.go:67-77 | The loop computes the root of the mean squared deviation |
| Statistics.MinIsLeast | util/math/math.go:24-35 | The minimum is an element, the least of those that are not NaN, and NaN only if all are |
| Statistics.MaxIsGreatest | util/math/math.go:37-48 | The maximum, likewise |
| Statistics.SumSpecial | util/math/math.go:50-56 | A sum is NaN if and only if a number is or both infinities occur, and infinite if and only if one infinity and nothing else special does |
| Statistics.AvgSpecial | util/math/math.go:58-63 | The average likewise |
| Statistics.StddevSpecial | util/math/math.go:67-77 | The standard deviation is a number if and only if all numbers are finite |
| Statistics.NoNumbers | util/math/math.go:24-77 | All four are zero for no numbers |
| Statistics.ArrayStatistics | collector/impl/json_metrics_collector.go:326-334 | For any non-empty array of reals: min <= avg <= max, the squared standard deviation is the mean squared deviation, at most (max - avg) * (avg - min), and zero if and only if all elements are equal |
| Statistics.VarianceBound | util/math/math.go:67-77 | The variance lies between zero and (hi - mean) * (mean - lo) for any bounds |
| JolokiaName.NewMetricNameParts | jolokia/parse_metric_name.go:75-127 | The loop over key properties, with its errors, computes the parsed name |
| JolokiaName.ParseMetricNameForJolokiaRequest | jolokia/parse_metric_name.go:35-47 | The request gets the MBean, and the attribute and path unless they are empty or wildcards; a failure leaves it as it was, and a blank request never carries a wildcard attribute or path |
| JolokiaName.PrintThenParse | jolokia/parse_metric_name.go:49-127 | Printing domain, properties, attribute and optional path and parsing recovers them when separators are absent where the splits look for them |
| JolokiaName.PrintThenParseMBean | jolokia/parse_metric_name.go:75-127 | The name of an MBean alone, as a response gives it, parses into its properties and asks for all attributes |
| JolokiaName.PrintThenParseProperties | jolokia/parse_metric_name.go:102-108 | So does one without a domain |
| JolokiaName.NameFails | jolokia/parse_metric_name.go:110-124 | A name fails to parse if and only if a key property is a lone `*` or has no equals sign, with the error of the first such one, whatever attribute and path follow |
| JolokiaName.TrimExact | jolokia/parse_metric_name.go:111 | Properties are trimmed of white space at both ends and nowhere else |
| JolokiaName.SpacesByNumber | jolokia/parse_metric_name.go:111 | The characters that count as white space, by number |
| JolokiaName.MapOfDistinct | jolokia/parse_metric_name.go:119 | For distinct keys the map holds exactly the properties |
| JolokiaName.WildcardKeys | jolokia/parse_metric_name.go:119-122 | The wildcard keys are those ever given the value `*` |
| JolokiaName.WildcardsExact | jolokia/parse_metric_name.go:119-122 | They are exactly the keys valued `*` if and only if no wildcard is taken back by a later property |
| JolokiaName.WildcardTakenBackExample | jolokia/parse_metric_name.go:119-122 | A parsed name with a wildcard key whose value is not `*` |
| Jolokia.ProcessResponseValueObject | jolokia/process_jolokia_response.go:44-61 | The walk's result does not depend on any map's iteration order |
| Jolokia.ProcessMultipleMBeans | jolokia/process_jolokia_response.go:63-131 | One MBean after the other in sorted order, tagged by its name |
| Jolokia.TagsFromName | jolokia/process_jolokia_response.go:102-116 | The values of the wildcard keys in an MBean's name, in any iteration order |
| Jolokia.ProcessSingleMBean | jolokia/process_jolokia_response.go:133-194 | One attribute, or all in sorted order tagged `1` |
| Jolokia.ProcessSingleAttribute | jolokia/process_jolokia_response.go:196-216 | Dispatch between a basic value and a composite |
| Jolokia.ProcessSingleCompositeAttribute | jolokia/process_jolokia_response.go:218-293 | A composite, an inner map replacing what was collected before it |
| JolokiaReports.ResponseReported | jolokia/process_jolokia_response.go:44-374 | If no leaf precedes an inner map in its composite, the metrics of a response are exactly those that report one of its numbers, with tenant, name, type, time, value and tags written out |
| JolokiaReports.ConvertsExact | jolokia/process_jolokia_response.go:350-374 | Numbers convert to themselves, text as the parser reads it, true to 1 and false to 0, and nothing else does |
| JolokiaReports.WildcardValues | jolokia/process_jolokia_response.go:102-116 | An MBean's tags give a key a value if and only if the key is a wildcard of the query and the MBean's name has this property |
| JolokiaReports.NoWildcardValues | jolokia/process_jolokia_response.go:102-116 | An MBean whose name does not parse gives no tags |
| JolokiaReports.ResponseCarriesWildcards | jolokia/process_jolokia_response.go:118-131 | Every datapoint of a response over several MBeans carries the wildcard values of its MBean, whatever else is lost |
| JolokiaReports.WildcardsSeparate | jolokia/process_jolokia_response.go:99-131 | Metrics of MBeans that differ in a wildcard key's value get different tags |
| JolokiaLaws.ResponseExact | jolokia/process_jolokia_response.go:63-293 | The walk gives exactly one metric per convertible leaf, with tags `1`, `2` and the wildcard keys where they belong, if and only if no leaf precedes an inner map in the same composite; it never gives more |
| JolokiaLaws.CompositeExact | jolokia/process_jolokia_response.go:218-293 | The same for one composite attribute of any nesting; otherwise metrics are missing |
| JolokiaLaws.DocumentedResponse | jolokia/process_jolokia_response.go:261-264 | Basic values, composites of basic values and such a composite under its own name lose nothing, whatever is wildcarded |
| JolokiaLaws.NumberBeforeMapIsLost | jolokia/process_jolokia_response.go:264 | A number beside an inner composite is dropped |
| JolokiaLaws.LeavesExact | jolokia/process_jolokia_response.go:218-329 | The leaves listed are exactly the convertible values that paths of sufficient length lead to |
| JolokiaLaws.LeavesDistinct | jolokia/process_jolokia_response.go:218-329 | No leaf is listed twice |
| JolokiaLaws.LeafTagsSeparate | jolokia/process_jolokia_response.go:99-131 | Two leaves of a response get the same tags if and only if their paths agree in what tags show: the wildcard keys of the MBean's name, the attribute if all were asked for or else the outermost of several keys, and the last key if all paths were |
| JolokiaLaws.FlatLeavesSeparate | jolokia/process_jolokia_response.go:168-251 | Within one MBean all of whose paths were asked for, all leaves of basic values and of composites of basic values get different tags |
| JolokiaLaws.CompositeWithoutPath | jolokia/process_jolokia_response.go:246-251 | A composite asked for by one attribute and no path: no leaf gets a tag |
| FramingSpec.StreamRoundTrip | prometheus/prometheus_scraper.go:86-133 | Framing any messages below 2^35 bytes and reading the stream gives them back, in order, with a clean end |
| FramingSpec.ScrapeRoundTrip | prometheus/prometheus_scraper.go:86-99 | A whole scrape finishes and holds, under every name, the last family of that name |
| FramingSpec.TruncatedStream | prometheus/prometheus_scraper.go:88-133 | A stream cut anywhere gives exactly the messages complete before the cut, and an error if and only if the cut leaves some but not all bytes of a body |
| FramingFaults.MessagesThenTail | prometheus/prometheus_scraper.go:86-133 | Whatever follows well-formed messages, these are read first |
| FramingFaults.ScrapeStopsAtHeader | prometheus/prometheus_scraper.go:88-123 | A length that does not end within five bytes fails the scrape, and the families before it are kept, the last of each name |
| FramingFaults.ScrapeStopsAtMessage | prometheus/prometheus_scraper.go:88-99 | A message that does not decode ends the scrape, and one whose family has no name panics, after exactly the families before it |
| FramingFaults.ScrapeOfCut | prometheus/prometheus_scraper.go:88-133 | A connection that ends within a message fails the scrape, unless it is at its end of file and no byte of the body was read; the families before it are kept |
| FramingSpec.DecodeEncode | vendor/github.com/golang/protobuf/proto/encode.go:95-105 | Decoding inverts encoding, whatever follows |
| FramingSpec.EncodedSize | vendor/github.com/golang/protobuf/proto/encode.go:95-105 | A number fits n bytes if and only if it is below 128^n |
| FramingSpec.DecodePrefix | vendor/github.com/golang/protobuf/proto/decode.go:63-78 | A proper prefix of a number is no number |
| Framing.DecodeVarint | vendor/github.com/golang/protobuf/proto/decode.go:63-78 | The shifting loop decodes the number at the front of any buffer, modulo 2^64, or reports that ten bytes hold none |
| Framing.ReadLength | prometheus/prometheus_scraper.go:102-123 | The header loop ends for a reader that stalls finitely often, takes exactly the length's bytes, and rejects more than five |
| Framing.Reader.ReadFull | prometheus/prometheus_scraper.go:125-130 | All bytes, or the error that tells nothing from something read |
| Framing.ScrapeOneMessage | prometheus/prometheus_scraper.go:101-133 | One message and the rest of the stream, or the error |
| Framing.ScrapeBinary | prometheus/prometheus_scraper.go:86-99 | The families of the stream up to its end or first unusable message; a clean end has consumed the whole stream |
| Text.SplitJoin | jolokia/parse_metric_name.go:81-115 | Splitting inverts joining when the separator cannot begin inside a part |
| Text.SortedEnumerationsAgree | collector/manager/metrics_collector_manager.go:242-249 | Sorting makes the result independent of the map's iteration order |
| TextReading.StrLeExact | collector/manager/metrics_collector_manager.go:249 | The order of the tags: a text comes before those it begins, and otherwise the first difference decides |
| TextReading.DecimalReads | k8s/configmap_entry.go:85 | A port is printed in decimal, and reads back |

## Left out

- Interleaving inside a tick: a tick is atomic with respect to StopCollecting. In the code a collection in flight when its ticker stops can still add tracker entries; the limit per pod holds regardless, see Tracker.EveryRunBounded.
- Interleaving of two watch events: each is handled to its end, including the node event it sends, before the next one.
- Node events are consumed one at a time, so channel and locks do not appear; the JSON collector's channel does.
- A collection that fails leaves every table as it is, so such ticks do not appear.
- Time: a ticker is a handle without an interval, and intervals are not computed.
- Content of metric definitions (createMetricDefinition beyond the detail request): descriptions, units and tags; the model says which IDs are defined with which monitored metric.
- Tenants, TLS, tags and environments of endpoints, secrets and credentials: oracles or absent. Port and URL are in the model, `url.Parse` is an oracle.
- Nested Go maps are values here, so aliasing between them is not captured; the shared array of monitored metrics is (CollectionTick.PrepareMetrics).
- CollectionTick.Append: makes a new array, whereas Go may write the split metrics behind the compacted ones in the same array.
- Expansion.Expand: Go's os.Expand is not part of the repository; the model is that of Go 1.7, in which an unclosed `${` is a token with the empty name.
- JsonCollector.Walker.ProcessJSON: requires that an array starting with an object holds only objects, because the code's type assertion panics otherwise.
- JSON numbers are reals, so no number fails to convert; strings in arrays go through a parsing oracle.
- Floating-point rounding: numbers are reals with NaN and infinities; Statistics.ArrayStatistics is about reals only.
- The pairing of Jolokia responses with metrics by index (collector/impl/jolokia_metrics_collector.go:122-124): the model takes one response with the name it was asked for.
- Names in log messages: the specific metric name of the Jolokia walk serves only them.
- CollectionLaws.SharedNamesFirstPodWins: excludes names with `$$`; what the second pod makes of the dollar is said for one `$$` among any other tokens by CollectionLaws.SharedDollar.
- Expansion.DollarExact: one `$$` behind which no further dollar is read as part of the same name; Expansion.DollarBeforeToken is the case of a token directly behind it.
- CollectionLaws.LabelsSeparateAcross: for keys without a comma, an equals sign, a dollar or a closing brace; Prometheus and JSON labels are such keys, and so are Jolokia's key properties unless they hold a dollar or a brace.
- EndpointLaws.SameCollector: for types without the separator `|`; an endpoint of another type is never started.
- JolokiaReports.WildcardValues: for names of distinct properties whose separators are absent where the parser splits.
- JolokiaLaws.LeafTagsSeparate: wildcard keys named `1` or `2` overwrite the tags of that name and are not covered.
- Reconciliation.NodeEventConsumer.StartCollectingEndpoint: takes a config map entry as a value, so the IDs that validation fills in do not show in it; Reconciliation.ValidateMetrics models that loop on the shared array.
- Memory: a length of up to 2^35 bytes is allocated before the body is read; the model has no memory limit.
- GetCounts, GetAllPods and GetAllEndpoints of the tracker, status report, logs and the agent's own metrics: counting only.
- UnmarshalConfigMapEntry, protobuf and YAML decoding, text scraping, HTTP, Kubernetes clients: not part of this model.
- Storage in Hawkular Metrics, the emitter and the agent's configuration: not part of this model.
