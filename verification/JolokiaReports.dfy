/** What the metrics of a Jolokia response say, written out. */
module JolokiaReports {
  import opened Wrappers
  import opened Text
  import opened Series
  import opened JolokiaName
  import opened JolokiaSpec
  import opened JolokiaLaws

  /** Numbers as they are, text as the parser reads it, true as 1 and false as 0; nothing else has a number. */
  predicate Converts(q: Query, v: Value, x: Float) {
    || (v.Number? && x == v.f)
    || (v.Str? && q.parseFloat(v.s) == Some(x))
    || (v.Boolean? && v.b && x == Finite(1.0))
    || (v.Boolean? && !v.b && x == Finite(0.0))
  }

  lemma ConvertsExact(q: Query, v: Value, x: Float)
    ensures AsFloat(q, v) == Some(x) <==> Converts(q, v, x)
  {}

  /* The tags. */

  /** The keys below the MBean, whose name comes first if several were asked for. */
  function Inner(q: Query, path: seq<string>): seq<string> {
    if q.parts.keyWildcards != {} && path != [] then path[1..] else path
  }

  predicate AllAttributes(q: Query) {
    q.parts.attribute == "*"
  }

  predicate AllPaths(q: Query) {
    q.parts.path == "*" || q.parts.attribute == "*"
  }

  /** Tag 1 is the attribute, if all were asked for, or the outermost of several keys; tag 2 is the last key
      within the attribute, if all paths were asked for; and the MBean's wildcard values come on top. */
  function TagsAt(q: Query, path: seq<string>): map<string, string> {
    var inner := Inner(q, path);
    var outer := if inner != [] && (AllAttributes(q) || |inner| >= 2) then map["1" := inner[0]] else map[];
    var last := if AllPaths(q) && |inner| > (if AllAttributes(q) then 1 else 0)
      then map["2" := inner[|inner| - 1]] else map[];
    outer + last + (if q.parts.keyWildcards != {} && path != [] then BeanTags(q, path[0]) else map[])
  }

  lemma TagsWrittenOut(q: Query, path: seq<string>)
    ensures LeafTags(q, path) == TagsAt(q, path)
  {
    hide BeanTags, BeanLeafTags;
    BeanLeafTagsShown(q, Inner(q, path));
    assert BeanLeafTags(q, path) + map[] == BeanLeafTags(q, path);
  }

  /* The metrics. */

  /** How many keys lead to an attribute's value. */
  function Depth(q: Query): nat {
    (if q.parts.keyWildcards != {} then 1 else 0) + (if q.parts.attribute == "*" then 1 else 0)
  }

  /** Metric `m` reports the value `x` that `path` leads to. */
  ghost predicate Reports(q: Query, v: Value, m: MetricHeader, path: seq<string>, x: Float) {
    && |path| >= Depth(q) && Follow(v, path).Some? && Converts(q, Follow(v, path).value, x)
    && m == MetricHeader(q.tenant, q.metric.mtype, q.metric.name, [Datapoint(q.now, x, TagsAt(q, path))])
  }

  /** If no leaf precedes an inner map in its composite, the metrics of a response are exactly those that report
      one of its numbers. */
  lemma ResponseReported(q: Query, v: Value, m: MetricHeader)
    requires LosslessBelow(q, Levels(q), v)
    ensures m in Response(q, v) <==> exists path, x :: Reports(q, v, m, path, x)
  {
    hide LosslessBelow, Response, Leaves, TagsAt, LeafTags, AsFloat, Converts, Follow;
    ResponseExact(q, v);
    var ls := Leaves(q, Levels(q), v);
    if m in Response(q, v) {
      var i :| 0 <= i < |ls| && m == Intended(q, v)[i];
      LeafReported(q, v, ls[i]);
      assert Reports(q, v, m, ls[i].path, ls[i].value);
    }
    if path, x :| Reports(q, v, m, path, x) {
      LeafReported(q, v, Leaf(path, x));
      var i :| 0 <= i < |ls| && ls[i] == Leaf(path, x);
      assert Intended(q, v)[i] == m;
    }
  }

  lemma LeafReported(q: Query, v: Value, l: Leaf)
    ensures l in Leaves(q, Levels(q), v)
       <==> |l.path| >= Depth(q) && Follow(v, l.path).Some? && Converts(q, Follow(v, l.path).value, l.value)
    ensures Metric(q, l.value, LeafTags(q, l.path))
         == MetricHeader(q.tenant, q.metric.mtype, q.metric.name, [Datapoint(q.now, l.value, TagsAt(q, l.path))])
  {
    hide LeafTags, TagsAt, Leaves, Follow, Converts, AsFloat;
    TagsWrittenOut(q, l.path);
    LeavesExact(q, Levels(q), v, l);
    if Follow(v, l.path).Some? { ConvertsExact(q, Follow(v, l.path).value, l.value); }
  }

  /* The wildcards. */

  predicate DistinctProperties(n: Name) {
    forall i, j :: 0 <= i < j < |n.properties| ==> n.properties[i].0 != n.properties[j].0
  }

  /** The tags of an MBean: the values its name gives for the wildcard keys of the query. */
  lemma WildcardValues(q: Query, n: Name, k: string, x: string)
    requires PrintableMBean(n) && DistinctProperties(n)
    ensures var tags := BeanTags(q, PrintMBean(n));
      (k in tags && tags[k] == x) <==> k in q.parts.keyWildcards && (k, x) in n.properties
  {
    hide PrintableMBean, ParseName, MapOf;
    PrintThenParseMBean(n);
    MapOfDistinct(n.properties);
  }

  /** A name that does not parse gives none. */
  lemma NoWildcardValues(q: Query, bean: string)
    requires ParseName(bean).Failure?
    ensures BeanTags(q, bean) == map[]
  {}

  ghost predicate Carries(m: MetricHeader, tags: map<string, string>) {
    forall i, k :: 0 <= i < |m.data| && k in tags ==> k in m.data[i].tags && m.data[i].tags[k] == tags[k]
  }

  /** Every datapoint of a response over several MBeans carries the wildcard values of its MBean, whatever else
      the walk may lose. */
  lemma ResponseCarriesWildcards(q: Query, v: Value, m: MetricHeader)
    requires q.parts.IsMBeanQuery() && m in Response(q, v)
    ensures v.Map? && exists bean :: bean in v.m && Carries(m, BeanTags(q, bean))
  {
    hide BeanKeys, Carries;
    BeanKeysCarry(q, v, SortedKeys(v.m.Keys), m);
  }

  lemma {:induction false} BeanKeysCarry(q: Query, v: Value, keys: seq<string>, m: MetricHeader)
    requires v.Map? && (forall k :: k in keys ==> k in v.m) && m in BeanKeys(q, v, keys)
    ensures exists bean :: bean in keys && Carries(m, BeanTags(q, bean))
  {
    hide SingleBean, BeanTags, TagAll;
    var init, k := keys[..|keys| - 1], keys[|keys| - 1];
    assert keys == init + [k];
    if m in BeanKeys(q, v, init) {
      BeanKeysCarry(q, v, init, m);
    } else {
      TagAllCarries(SingleBean(q, v.m[k]), BeanTags(q, k), m);
    }
  }

  lemma TagAllCarries(ms: seq<MetricHeader>, tags: map<string, string>, m: MetricHeader)
    requires m in TagAll(ms, tags)
    ensures Carries(m, tags)
  {
    var i :| 0 <= i < |ms| && TagAll(ms, tags)[i] == m;
    TagAllAt(ms, tags, i);
  }

  /** So the metrics of MBeans that differ in a wildcard key's value get different tags. */
  lemma WildcardsSeparate(q: Query, n: Name, other: Name, k: string, x: string, y: string, m: MetricHeader,
                          m': MetricHeader)
    requires PrintableMBean(n) && DistinctProperties(n) && PrintableMBean(other) && DistinctProperties(other)
    requires k in q.parts.keyWildcards && (k, x) in n.properties && (k, y) in other.properties && x != y
    requires Carries(m, BeanTags(q, PrintMBean(n))) && Carries(m', BeanTags(q, PrintMBean(other)))
    ensures forall i, j :: 0 <= i < |m.data| && 0 <= j < |m'.data| ==> m.data[i].tags != m'.data[j].tags
  {
    hide PrintableMBean, DistinctProperties, BeanTags;
    WildcardValues(q, n, k, x);
    WildcardValues(q, other, k, y);
    forall i, j | 0 <= i < |m.data| && 0 <= j < |m'.data| ensures m.data[i].tags != m'.data[j].tags {
      assert m.data[i].tags[k] == x && m'.data[j].tags[k] == y;
    }
  }
}
