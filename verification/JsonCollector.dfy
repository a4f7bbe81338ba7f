/** The JSON collector as it runs: a recursion over a shared slice of tags that emits to a
    channel, and a consumer that removes duplicates. */
module JsonCollector {
  import opened Wrappers
  import opened Text
  import opened Series
  import opened Statistics
  import opened JsonSpec

  type Tag = (string, string)

  /** A Go slice is its backing array and a length; `labels` is its abstract value. */
  ghost predicate Spells(a: array<Tag>, n: nat, labels: seq<string>)
    reads a
  {
    n == |labels| <= a.Length && forall i :: 0 <= i < n ==> a[i] == (Label(i + 1), labels[i])
  }

  class Walker {
    const w: Walk
    var emitted: seq<MetricHeader>  // what went through metricsChan

    constructor (w: Walk)
      ensures this.w == w && emitted == []
    {
      this.w, emitted := w, [];
    }

    /** `append(tags[:n], tag)`: writes behind the slice when the backing array has room,
        otherwise moves to a new one of any larger size. */
    method AppendTag(tags: array<Tag>, n: nat, tag: Tag) returns (r: array<Tag>)
      requires n <= tags.Length
      modifies tags
      ensures r == tags || fresh(r)
      ensures n < r.Length && r[..n] == old(tags[..n]) && r[n] == tag
      ensures tags[..n] == old(tags[..n])
    {
      if n < tags.Length {
        tags[n] := tag;
        r := tags;
      } else {
        var spare: int := *;
        var room := if spare < 0 then 0 else spare;
        r := new Tag[n + 1 + room](i reads tags => if 0 <= i < tags.Length then tags[i] else tag);
        r[n] := tag;
      }
    }

    method TagsClone(tags: array<Tag>, n: nat, ghost labels: seq<string>) returns (m: map<string, string>)
      requires Spells(tags, n, labels)
      ensures m == TagsOf(labels)
    {
      m := map[];
      for i := 0 to n
        invariant m == TagsOf(labels[..i])
      {
        assert labels[..i + 1][..i] == labels[..i];
        m := m[tags[i].0 := tags[i].1];
      }
      assert labels[..n] == labels;
    }

    /** Emits exactly the flattening of the value, and leaves the caller's tags as they were. */
    method ProcessJSON(id: string, tags: array<Tag>, n: nat, name: string, value: Json, ghost labels: seq<string>)
      requires Spells(tags, n, labels) && Uniform(value)
      modifies this`emitted, tags
      ensures Spells(tags, n, labels)
      ensures emitted == old(emitted) + Flatten(w, id, labels, name, value)
      decreases value, 1
    {
      var metricId := if id != "" then id else name;
      var mine, m := tags, n;
      ghost var path := labels;
      if id != "" {
        mine := AppendTag(tags, n, (Label(n + 1), name));
        m, path := n + 1, labels + [name];
        SpellsExtended(tags, mine, n, labels, name);
      }
      if w.types != map[] && metricId !in w.types {
        return;
      }
      var metricType := if w.types != map[] then w.types[metricId] else "gauge";
      assert Spells(tags, n, labels);
      ProcessValue(metricId, metricType, mine, m, value, path);
      if mine == tags && id != "" {
        SpellsPrefix(tags, n, labels, name);
      }
    }

    method ProcessValue(id: string, mtype: string, tags: array<Tag>, n: nat, value: Json, ghost labels: seq<string>)
      requires Spells(tags, n, labels) && Uniform(value)
      modifies this`emitted, tags
      ensures Spells(tags, n, labels)
      ensures emitted == old(emitted) + match value
        case Number(r) => [Metric(w, id, mtype, TagsOf(labels), Finite(r))]
        case Boolean(b) => [Metric(w, id, mtype, TagsOf(labels), ValueOf(b))]
        case Array(items) =>
          if items == [] then []
          else if items[0].Number? then ArrayMetrics(w, id, labels, items)
          else if items[0].Object? then FlattenItems(w, id, labels, items)
          else []
        case Object(fields) => FlattenFields(w, id, labels, fields)
        case _ => []
      decreases value, 0
    {
      match value
      case Number(r) =>
        var t := TagsClone(tags, n, labels);
        emitted := emitted + [Metric(w, id, mtype, t, Finite(r))];
      case Boolean(b) =>
        var t := TagsClone(tags, n, labels);
        emitted := emitted + [Metric(w, id, mtype, t, ValueOf(b))];
      case Array(items) =>
        if |items| > 0 {
          if items[0].Number? {
            ProcessNumbers(id, tags, n, items, labels);
          } else if items[0].Object? {
            ProcessItems(id, tags, n, items, labels);
          }
        }
      case Object(fields) =>
        ProcessFields(id, tags, n, fields, labels);
      case _ =>
    }

    method ProcessFields(id: string, tags: array<Tag>, n: nat, fields: seq<Field>, ghost labels: seq<string>)
      requires Spells(tags, n, labels) && forall i :: 0 <= i < |fields| ==> Uniform(fields[i].value)
      modifies this`emitted, tags
      ensures Spells(tags, n, labels)
      ensures emitted == old(emitted) + FlattenFields(w, id, labels, fields)
      decreases fields
    {
      hide Spells, Flatten;
      for i := 0 to |fields|
        invariant Spells(tags, n, labels)
        invariant emitted == old(emitted) + FlattenFields(w, id, labels, fields[..i])
      {
        assert fields[..i + 1][..i] == fields[..i];
        ProcessJSON(id, tags, n, fields[i].key, fields[i].value, labels);
      }
      assert fields[..|fields|] == fields;
    }

    method ProcessItems(id: string, tags: array<Tag>, n: nat, items: seq<Json>, ghost labels: seq<string>)
      requires Spells(tags, n, labels) && forall i :: 0 <= i < |items| ==> items[i].Object? && Uniform(items[i])
      modifies this`emitted, tags
      ensures Spells(tags, n, labels)
      ensures emitted == old(emitted) + FlattenItems(w, id, labels, items)
      decreases items
    {
      hide Spells, FlattenFields;
      for i := 0 to |items|
        invariant Spells(tags, n, labels)
        invariant emitted == old(emitted) + FlattenItems(w, id, labels, items[..i])
      {
        assert items[..i + 1][..i] == items[..i];
        ProcessFields(id, tags, n, items[i].fields, labels);
      }
      assert items[..|items|] == items;
    }

    method ProcessNumbers(id: string, tags: array<Tag>, n: nat, items: seq<Json>, ghost labels: seq<string>)
      requires Spells(tags, n, labels)
      modifies this`emitted
      ensures emitted == old(emitted) + ArrayMetrics(w, id, labels, items)
    {
      hide MinOf, MaxOf, AvgOf, StddevOf;
      var floatArr: seq<Float>, isValid := [], true;
      for i := 0 to |items|
        invariant isValid && ParseItems(w, items[..i]) == Some(floatArr)
      {
        assert items[..i + 1][..i] == items[..i];
        var val := ParseItem(w, items[i]);
        if val.None? {
          isValid := false;
          InvalidStays(w, items, i + 1);
          break;
        }
        floatArr := floatArr + [val.value];
      }
      if isValid {
        assert items[..|items|] == items;
        var t := TagsClone(tags, n, labels);
        var min := Min(floatArr);
        var max := Max(floatArr);
        var avg := Avg(floatArr);
        var stddev := Stddev(w.sqrt, floatArr, avg);
        emitted := emitted + [Metric(w, id, "gauge", t[STAT_TAG := "min"], min)];
        emitted := emitted + [Metric(w, id, "gauge", t[STAT_TAG := "max"], max)];
        emitted := emitted + [Metric(w, id, "gauge", t[STAT_TAG := "avg"], avg)];
        emitted := emitted + [Metric(w, id, "gauge", t[STAT_TAG := "stddev"], stddev)];
      }
    }

    /** Walks the document; every top-level value starts with an empty slice of tags. */
    method WalkDocument(top: seq<Field>)
      requires forall i :: 0 <= i < |top| ==> Uniform(top[i].value)
      modifies this`emitted
      ensures emitted == old(emitted) + FlattenDocument(w, top)
    {
      hide Flatten;
      for i := 0 to |top|
        invariant emitted == old(emitted) + FlattenFields(w, "", [], top[..i])
      {
        assert top[..i + 1][..i] == top[..i];
        var tags := new Tag[0];
        ProcessJSON("", tags, 0, top[i].key, top[i].value, []);
      }
      assert top[..|top|] == top;
    }
  }

  lemma SpellsExtended(tags: array<Tag>, mine: array<Tag>, n: nat, labels: seq<string>, name: string)
    requires n == |labels| < mine.Length && n <= tags.Length
    requires mine[..n] == tags[..n] && Spells(tags, n, labels) && mine[n] == (Label(n + 1), name)
    ensures Spells(mine, n + 1, labels + [name])
  {
    forall i | 0 <= i < n ensures mine[i] == (Label(i + 1), labels[i]) {
      assert mine[..n][i] == tags[..n][i];
    }
  }

  lemma SpellsPrefix(tags: array<Tag>, n: nat, labels: seq<string>, name: string)
    requires Spells(tags, n + 1, labels + [name])
    ensures Spells(tags, n, labels)
  {
    assert forall i :: 0 <= i < n ==> (labels + [name])[i] == labels[i];
  }

  lemma {:induction false} InvalidStays(w: Walk, items: seq<Json>, k: nat)
    requires k <= |items| && ParseItems(w, items[..k]).None?
    ensures ParseItems(w, items).None?
    decreases |items| - k
  {
    if k == |items| {
      assert items[..k] == items;
    } else {
      assert items[..k + 1][..k] == items[..k];
      InvalidStays(w, items, k + 1);
    }
  }

  /** The goroutine behind the channel. */
  class Consumer {
    var metrics: seq<MetricHeader>
    var metricExistenceMap: set<string>

    constructor ()
      ensures metrics == [] && metricExistenceMap == {}
    {
      metrics, metricExistenceMap := [], {};
    }

    method Consume(m: MetricHeader)
      modifies this
      ensures Kept(metrics, metricExistenceMap) == Receive(Kept(old(metrics), old(metricExistenceMap)), m)
    {
      if |m.data| > 0 {
        var uniqueKey := KeyOf(m);
        if uniqueKey !in metricExistenceMap {
          metrics := metrics + [m];
          metricExistenceMap := metricExistenceMap + {uniqueKey};
        }
      }
    }
  }

  method KeyOf(m: MetricHeader) returns (key: string)
    requires m.data != []
    ensures key == UniqueKey(m)
  {
    key := m.id;
    var tags := m.data[0].tags;
    if |tags| > 0 {
      var tagKeys := SortedTagKeys(tags);
      var rest := WriteTags(tagKeys, tags);
      key := key + rest;
    }
  }

  method SortedTagKeys(tags: map<string, string>) returns (tagKeys: seq<string>)
    ensures tagKeys == SortStrings(Empties(|tags|) + Enumeration(tags.Keys))
  {
    var names := KeysInSomeOrder(tags.Keys);
    SameWithEmpties(|tags|, names, Enumeration(tags.Keys), tags.Keys);
    tagKeys := SortStrings(Empties(|tags|) + names);
  }

  method WriteTags(tagKeys: seq<string>, tags: map<string, string>) returns (s: string)
    ensures s == Concat(tagKeys, tags)
  {
    s := "";
    for i := 0 to |tagKeys|
      invariant s == Concat(tagKeys[..i], tags)
    {
      assert tagKeys[..i + 1][..i] == tagKeys[..i];
      s := s + tagKeys[i];
      s := s + if tagKeys[i] in tags then tags[tagKeys[i]] else "";
    }
    assert tagKeys[..|tagKeys|] == tagKeys;
  }

  lemma SameWithEmpties(n: nat, a: seq<string>, b: seq<string>, s: set<string>)
    requires Enumerates(a, s) && Enumerates(b, s)
    ensures SortStrings(Empties(n) + a) == SortStrings(Empties(n) + b)
  {
    EnumeratesMultiset(a, s);
    EnumeratesMultiset(b, s);
    SortedUnique(SortStrings(Empties(n) + a), SortStrings(Empties(n) + b));
  }
}
