/** Extracting metrics from a Jolokia response (jolokia/process_jolokia_response.go): what the
    code collects. */
module JolokiaSpec {
  import opened Wrappers
  import opened Text
  import opened Series
  import opened JolokiaName

  /** A response value; `Other` stands for lists and for numbers no float is made of. */
  datatype Value = Number(f: Float) | Str(s: string) | Boolean(b: bool) | Nil | Other | Map(m: map<string, Value>)

  datatype Query = Query(
    tenant: string, now: int, metric: MonitoredMetric,
    parts: Parts, parseFloat: string -> Option<Float>)

  /** `returnValueAsFloat` */
  function AsFloat(q: Query, v: Value): Option<Float> {
    match v
    case Number(f) => Some(f)
    case Str(s) => q.parseFloat(s)
    case Boolean(b) => Some(Finite(if b then 1.0 else 0.0))
    case _ => None
  }

  function Metric(q: Query, value: Float, tags: map<string, string>): MetricHeader {
    MetricHeader(q.tenant, q.metric.mtype, q.metric.name, [Datapoint(q.now, value, tags)])
  }

  /** Writes one tag on every datapoint. */
  function TagData(data: seq<Datapoint>, key: string, value: string): (r: seq<Datapoint>)
    ensures |r| == |data|
  {
    seq(|data|, i requires 0 <= i < |data| => data[i].(tags := data[i].tags[key := value]))
  }

  function Tag(ms: seq<MetricHeader>, key: string, value: string): (r: seq<MetricHeader>)
    ensures |r| == |ms|
  {
    if ms == [] then []
    else Tag(ms[..|ms| - 1], key, value) + [ms[|ms| - 1].(data := TagData(ms[|ms| - 1].data, key, value))]
  }

  /* What the code collects. */

  function PathTags(q: Query, key: string): map<string, string> {
    if q.parts.IsAllPaths() then map["2" := key] else map[]
  }

  /** One composite attribute: an inner map replaces everything collected so far. */
  ghost function Composite(q: Query, v: Value): seq<MetricHeader>
    requires v.Map?
    decreases v, 1, 0
  {
    CompositeKeys(q, v, SortedKeys(v.m.Keys))
  }

  ghost function CompositeKeys(q: Query, v: Value, keys: seq<string>): seq<MetricHeader>
    requires v.Map? && forall k :: k in keys ==> k in v.m
    decreases v, 0, |keys|
  {
    if keys == [] then []
    else
      var k := keys[|keys| - 1];
      var before := CompositeKeys(q, v, keys[..|keys| - 1]);
      var f := AsFloat(q, v.m[k]);
      if f.Some? then before + [Metric(q, f.value, PathTags(q, k))]
      else if v.m[k].Map? then Tag(Composite(q, v.m[k]), "1", k)
      else before
  }

  ghost function Attribute(q: Query, v: Value): seq<MetricHeader> {
    if v.Map? then Composite(q, v)
    else if AsFloat(q, v).Some? then [Metric(q, AsFloat(q, v).value, map[])]
    else []
  }

  ghost function AttributeKeys(q: Query, v: Value, keys: seq<string>): seq<MetricHeader>
    requires v.Map? && forall k :: k in keys ==> k in v.m
  {
    if keys == [] then []
    else
      var k := keys[|keys| - 1];
      AttributeKeys(q, v, keys[..|keys| - 1]) + Tag(Attribute(q, v.m[k]), "1", k)
  }

  ghost function SingleBean(q: Query, v: Value): seq<MetricHeader> {
    if !q.parts.IsAllAttributes() then Attribute(q, v)
    else if v.Map? then AttributeKeys(q, v, SortedKeys(v.m.Keys))
    else []
  }

  /** The tags an MBean's name gives for the wildcard keys; none when it does not parse. */
  function BeanTags(q: Query, bean: string): map<string, string> {
    match ParseName(bean)
    case Failure(_) => map[]
    case Success(current) => map k | k in q.parts.keyWildcards && k in current.keyValues :: current.keyValues[k]
  }

  function TagDataAll(data: seq<Datapoint>, tags: map<string, string>): (r: seq<Datapoint>)
    ensures |r| == |data|
  {
    seq(|data|, i requires 0 <= i < |data| => data[i].(tags := data[i].tags + tags))
  }

  function TagAll(ms: seq<MetricHeader>, tags: map<string, string>): (r: seq<MetricHeader>)
    ensures |r| == |ms|
  {
    if ms == [] then []
    else TagAll(ms[..|ms| - 1], tags) + [ms[|ms| - 1].(data := TagDataAll(ms[|ms| - 1].data, tags))]
  }

  ghost function BeanKeys(q: Query, v: Value, keys: seq<string>): seq<MetricHeader>
    requires v.Map? && forall k :: k in keys ==> k in v.m
  {
    if keys == [] then []
    else
      var k := keys[|keys| - 1];
      BeanKeys(q, v, keys[..|keys| - 1]) + TagAll(SingleBean(q, v.m[k]), BeanTags(q, k))
  }

  ghost function Response(q: Query, v: Value): seq<MetricHeader> {
    if !q.parts.IsMBeanQuery() then SingleBean(q, v)
    else if v.Map? then BeanKeys(q, v, SortedKeys(v.m.Keys))
    else []
  }
}
