/** The walk over a Jolokia response, with its loops over sorted keys. */
module Jolokia {
  import opened Text
  import opened Series
  import opened JolokiaName
  import opened JolokiaSpec

  method SortedMapKeys(v: Value) returns (keys: seq<string>)
    requires v.Map?
    ensures keys == SortedKeys(v.m.Keys) && forall k :: k in keys ==> k in v.m
  {
    var found := KeysInSomeOrder(v.m.Keys);
    SortedEnumerationsAgree(found, Enumeration(v.m.Keys), v.m.Keys);
    keys := SortStrings(found);
  }

  method ProcessResponseValueObject(q: Query, v: Value) returns (metrics: seq<MetricHeader>)
    ensures metrics == Response(q, v)
  {
    if q.parts.IsMBeanQuery() {
      metrics := ProcessMultipleMBeans(q, v);
    } else {
      metrics := ProcessSingleMBean(q, v);
    }
  }

  method ProcessMultipleMBeans(q: Query, v: Value) returns (metrics: seq<MetricHeader>)
    requires q.parts.IsMBeanQuery()
    ensures metrics == Response(q, v)
  {
    hide SingleBean, BeanTags, BeanKeys, TagAll;
    metrics := [];
    if v.Map? {
      var keys := SortedMapKeys(v);
      BeanKeysNone(q, v);
      for i := 0 to |keys|
        invariant metrics == BeanKeys(q, v, keys[..i])
      {
        BeanStep(q, v, keys, i);
        var mbeanMetrics := ProcessSingleMBean(q, v.m[keys[i]]);
        var tagged := TagWildcards(q, keys[i], mbeanMetrics);
        metrics := metrics + tagged;
      }
      assert keys[..|keys|] == keys;
    }
  }

  lemma BeanKeysNone(q: Query, v: Value)
    requires v.Map?
    ensures BeanKeys(q, v, []) == []
  {}

  lemma BeanStep(q: Query, v: Value, keys: seq<string>, i: nat)
    requires v.Map? && i < |keys| && forall k :: k in keys ==> k in v.m
    ensures BeanKeys(q, v, keys[..i + 1])
         == BeanKeys(q, v, keys[..i]) + TagAll(SingleBean(q, v.m[keys[i]]), BeanTags(q, keys[i]))
  {
    hide SingleBean, BeanTags, TagAll;
    assert keys[..i + 1][..i] == keys[..i];
  }

  /** Tags every datapoint of every metric with the MBean's values of the wildcard keys. */
  method TagWildcards(q: Query, bean: string, ms: seq<MetricHeader>) returns (r: seq<MetricHeader>)
    ensures r == TagAll(ms, BeanTags(q, bean))
  {
    hide BeanTags;
    r := [];
    for i := 0 to |ms|
      invariant r == TagAll(ms[..i], BeanTags(q, bean))
    {
      assert ms[..i + 1][..i] == ms[..i];
      var data: seq<Datapoint> := [];
      for j := 0 to |ms[i].data|
        invariant data == TagDataAll(ms[i].data[..j], BeanTags(q, bean))
      {
        var tags := TagsFromName(q, bean);
        data := data + [ms[i].data[j].(tags := ms[i].data[j].tags + tags)];
      }
      assert ms[i].data[..|ms[i].data|] == ms[i].data;
      r := r + [ms[i].(data := data)];
    }
    assert ms[..|ms|] == ms;
  }

  method TagsFromName(q: Query, bean: string) returns (tags: map<string, string>)
    ensures tags == BeanTags(q, bean)
  {
    hide ParseName;
    tags := map[];
    var current := NewMetricNameParts(bean);
    if current.Success? {
      var todo := q.parts.keyWildcards;
      while todo != {}
        invariant todo <= q.parts.keyWildcards
        invariant tags == map k | k in q.parts.keyWildcards - todo && k in current.value.keyValues
          :: current.value.keyValues[k]
        decreases todo
      {
        var k :| k in todo;
        todo := todo - {k};
        if k in current.value.keyValues {
          tags := tags[k := current.value.keyValues[k]];
        }
      }
    }
  }

  method ProcessSingleMBean(q: Query, v: Value) returns (metrics: seq<MetricHeader>)
    ensures metrics == SingleBean(q, v)
  {
    hide Attribute, Tag, AttributeKeys;
    if !q.parts.IsAllAttributes() {
      metrics := ProcessSingleAttribute(q, v);
    } else if v.Map? {
      var keys := SortedMapKeys(v);
      AttributeKeysNone(q, v);
      metrics := [];
      for i := 0 to |keys|
        invariant metrics == AttributeKeys(q, v, keys[..i])
      {
        AttributeStep(q, v, keys, i);
        var attributeMetrics := ProcessSingleAttribute(q, v.m[keys[i]]);
        var tagged := TagEach(attributeMetrics, "1", keys[i]);
        metrics := metrics + tagged;
      }
      assert keys[..|keys|] == keys;
    } else {
      metrics := [];
    }
  }

  lemma AttributeKeysNone(q: Query, v: Value)
    requires v.Map?
    ensures AttributeKeys(q, v, []) == []
  {}

  lemma AttributeStep(q: Query, v: Value, keys: seq<string>, i: nat)
    requires v.Map? && i < |keys| && forall k :: k in keys ==> k in v.m
    ensures AttributeKeys(q, v, keys[..i + 1])
         == AttributeKeys(q, v, keys[..i]) + Tag(Attribute(q, v.m[keys[i]]), "1", keys[i])
  {
    hide Attribute, Tag;
    assert keys[..i + 1][..i] == keys[..i];
  }

  method TagEach(ms: seq<MetricHeader>, key: string, value: string) returns (r: seq<MetricHeader>)
    ensures r == Tag(ms, key, value)
  {
    r := [];
    for i := 0 to |ms|
      invariant r == Tag(ms[..i], key, value)
    {
      assert ms[..i + 1][..i] == ms[..i];
      var data: seq<Datapoint> := [];
      for j := 0 to |ms[i].data|
        invariant data == TagData(ms[i].data[..j], key, value)
      {
        data := data + [ms[i].data[j].(tags := ms[i].data[j].tags[key := value])];
      }
      assert ms[i].data[..|ms[i].data|] == ms[i].data;
      r := r + [ms[i].(data := data)];
    }
    assert ms[..|ms|] == ms;
  }

  method ProcessSingleAttribute(q: Query, v: Value) returns (metrics: seq<MetricHeader>)
    ensures metrics == Attribute(q, v)
  {
    if v.Map? {
      metrics := ProcessSingleCompositeAttribute(q, v);
    } else {
      metrics := [];
      var f := AsFloat(q, v);
      if f.Some? {
        metrics := [Metric(q, f.value, map[])];
      }
    }
  }

  /** An inner map's metrics replace those collected so far. */
  method ProcessSingleCompositeAttribute(q: Query, v: Value) returns (metrics: seq<MetricHeader>)
    requires v.Map?
    ensures metrics == Composite(q, v)
    decreases v
  {
    hide Tag, PathTags, Composite, CompositeKeys, AsFloat, Metric;
    metrics := [];
    var keys := SortedMapKeys(v);
    CompositeDefinition(q, v);
    for i := 0 to |keys|
      invariant metrics == CompositeKeys(q, v, keys[..i])
    {
      CompositeStep(q, v, keys, i);
      var k := keys[i];
      var f := AsFloat(q, v.m[k]);
      if f.Some? {
        metrics := metrics + [Metric(q, f.value, PathTags(q, k))];
      } else if v.m[k].Map? {
        metrics := ProcessSingleCompositeAttribute(q, v.m[k]);
        metrics := TagEach(metrics, "1", k);
      }
    }
    assert keys[..|keys|] == keys;
  }

  lemma CompositeDefinition(q: Query, v: Value)
    requires v.Map?
    ensures Composite(q, v) == CompositeKeys(q, v, SortedKeys(v.m.Keys)) && CompositeKeys(q, v, []) == []
  {}

  lemma CompositeStep(q: Query, v: Value, keys: seq<string>, i: nat)
    requires v.Map? && i < |keys| && forall k :: k in keys ==> k in v.m
    ensures var k := keys[i]; var before := CompositeKeys(q, v, keys[..i]); var f := AsFloat(q, v.m[k]);
      CompositeKeys(q, v, keys[..i + 1]) ==
        if f.Some? then before + [Metric(q, f.value, PathTags(q, k))]
        else if v.m[k].Map? then Tag(Composite(q, v.m[k]), "1", k)
        else before
  {
    hide AsFloat, Metric, PathTags, Tag, Composite;
    assert keys[..i + 1][..i] == keys[..i];
  }
}
