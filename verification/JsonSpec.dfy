/** Flattening a JSON document into metrics (collector/impl/json_metrics_collector.go). */
module JsonSpec {
  import opened Wrappers
  import opened Text
  import opened Series
  import opened Statistics

  /** An object's fields are listed in the order in which the map is iterated. */
  datatype Json =
    | Number(r: real)
    | Boolean(b: bool)
    | Str(s: string)
    | Null
    | Array(items: seq<Json>)
    | Object(fields: seq<Field>)

  datatype Field = Field(key: string, value: Json)

  /** What the collector brings along. `types` maps the metric names to collect to their types
      and is empty when everything is collected; `parse` is the number parser for strings. */
  datatype Walk = Walk(
    tenant: string, now: int, types: map<string, string>,
    parse: string -> Option<Float>, sqrt: real -> real)

  /* Tags: label1, label2, ... spell the path below the top-level key. */

  function Label(n: nat): string {
    "label" + Itoa(n)
  }

  function TagsOf(labels: seq<string>): map<string, string> {
    if labels == [] then map[] else TagsOf(labels[..|labels| - 1])[Label(|labels|) := labels[|labels| - 1]]
  }

  const STAT_TAG := "array_stat"

  function Metric(w: Walk, id: string, mtype: string, tags: map<string, string>, value: Float): MetricHeader {
    MetricHeader(w.tenant, mtype, id, [Datapoint(w.now, value, tags)])
  }

  function ValueOf(b: bool): Float {
    Finite(if b then 1.0 else 0.0)
  }

  /** A number inside an array, printed and parsed back. */
  function ParseItem(w: Walk, item: Json): Option<Float> {
    match item
    case Number(r) => Some(Finite(r))
    case Str(s) => w.parse(s)
    case _ => None
  }

  function ParseItems(w: Walk, items: seq<Json>): Option<seq<Float>> {
    if items == [] then Some([])
    else
      var init, last := ParseItems(w, items[..|items| - 1]), ParseItem(w, items[|items| - 1]);
      if init.None? || last.None? then None else Some(init.value + [last.value])
  }

  function StatMetric(w: Walk, id: string, labels: seq<string>, stat: string, value: Float): MetricHeader {
    Metric(w, id, "gauge", TagsOf(labels)[STAT_TAG := stat], value)
  }

  /** Minimum, maximum, average and standard deviation of an array whose items all parse. */
  function ArrayMetrics(w: Walk, id: string, labels: seq<string>, items: seq<Json>): seq<MetricHeader> {
    match ParseItems(w, items)
    case None => []
    case Some(ns) =>
      [StatMetric(w, id, labels, "min", MinOf(ns)), StatMetric(w, id, labels, "max", MaxOf(ns)),
       StatMetric(w, id, labels, "avg", AvgOf(ns)),
       StatMetric(w, id, labels, "stddev", StddevOf(w.sqrt, ns, AvgOf(ns)))]
  }

  /** The metrics of the value named `name` inside metric `id`, below `labels`. An empty `id`
      means that no metric has been chosen yet. */
  function Flatten(w: Walk, id: string, labels: seq<string>, name: string, value: Json): seq<MetricHeader>
    decreases value
  {
    var mid := if id != "" then id else name;
    var path := if id != "" then labels + [name] else labels;
    if w.types != map[] && mid !in w.types then []
    else
      var mtype := if w.types != map[] then w.types[mid] else "gauge";
      match value
      case Number(r) => [Metric(w, mid, mtype, TagsOf(path), Finite(r))]
      case Boolean(b) => [Metric(w, mid, mtype, TagsOf(path), ValueOf(b))]
      case Array(items) =>
        if items == [] then []
        else if items[0].Number? then ArrayMetrics(w, mid, path, items)
        else if items[0].Object? then FlattenItems(w, mid, path, items)
        else []
      case Object(fields) => FlattenFields(w, mid, path, fields)
      case _ => []
  }

  function FlattenFields(w: Walk, id: string, labels: seq<string>, fields: seq<Field>): seq<MetricHeader>
    decreases fields
  {
    if fields == [] then []
    else
      var last := fields[|fields| - 1];
      FlattenFields(w, id, labels, fields[..|fields| - 1]) + Flatten(w, id, labels, last.key, last.value)
  }

  function FlattenItems(w: Walk, id: string, labels: seq<string>, items: seq<Json>): seq<MetricHeader>
    decreases items
  {
    if items == [] then []
    else
      var item := items[|items| - 1];
      FlattenItems(w, id, labels, items[..|items| - 1]) +
      (if item.Object? then FlattenFields(w, id, labels, item.fields) else [])
  }

  /** The whole document. */
  function FlattenDocument(w: Walk, top: seq<Field>): seq<MetricHeader> {
    FlattenFields(w, "", [], top)
  }

  /** No array that starts with an object holds anything else; the code's type assertion
      would panic on it. */
  predicate Uniform(value: Json)
    decreases value
  {
    match value
    case Array(items) =>
      && (items != [] && items[0].Object? ==> forall i :: 0 <= i < |items| ==> items[i].Object?)
      && (forall i :: 0 <= i < |items| ==> Uniform(items[i]))
    case Object(fields) => forall i :: 0 <= i < |fields| ==> Uniform(fields[i].value)
    case _ => true
  }

  /* Deduplication. */

  function Concat(keys: seq<string>, tags: map<string, string>): string {
    if keys == [] then ""
    else
      var last := keys[|keys| - 1];
      Concat(keys[..|keys| - 1], tags) + last + (if last in tags then tags[last] else "")
  }

  function Empties(n: nat): (r: seq<string>)
    ensures |r| == n && forall i :: 0 <= i < n ==> r[i] == ""
  {
    seq(n, _ => "")
  }

  /** The consumer's key: the ID, then every tag's key and value in sorted order. The array of
      keys is allocated with the right length and then appended to, so it starts with as many
      empty strings as there are tags. */
  ghost function UniqueKey(m: MetricHeader): string
    requires m.data != []
  {
    var tags := m.data[0].tags;
    if tags == map[] then m.id else m.id + Concat(SortStrings(Empties(|tags|) + Enumeration(tags.Keys)), tags)
  }

  datatype Kept = Kept(metrics: seq<MetricHeader>, seen: set<string>)

  ghost function Receive(k: Kept, m: MetricHeader): Kept {
    if m.data == [] || UniqueKey(m) in k.seen then k else Kept(k.metrics + [m], k.seen + {UniqueKey(m)})
  }

  ghost function ReceiveAll(ms: seq<MetricHeader>): Kept {
    if ms == [] then Kept([], {}) else Receive(ReceiveAll(ms[..|ms| - 1]), ms[|ms| - 1])
  }

  /** The first metric of each key, in order. */
  ghost function Dedup(ms: seq<MetricHeader>): seq<MetricHeader> {
    ReceiveAll(ms).metrics
  }
}
