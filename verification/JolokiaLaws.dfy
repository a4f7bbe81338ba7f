/** What a Jolokia response is meant to give, one metric per convertible leaf, and exactly when
    the walk gives that. */
module JolokiaLaws {
  import opened Wrappers
  import opened Text
  import opened Series
  import opened JolokiaSpec

  /** A leaf and the keys leading to it: an MBean's name if several were asked for, then an
      attribute's name if all were asked for, then the keys within the attribute. */
  datatype Leaf = Leaf(path: seq<string>, value: Float)

  function Under(k: string, ls: seq<Leaf>): (r: seq<Leaf>)
    ensures |r| == |ls|
  {
    seq(|ls|, i requires 0 <= i < |ls| => Leaf([k] + ls[i].path, ls[i].value))
  }

  /** The convertible leaves at least `depth` maps down, in sorted order. */
  ghost function Leaves(q: Query, depth: nat, v: Value): seq<Leaf>
    decreases v, 1, 0
  {
    if v.Map? then LeavesOf(q, depth, v, SortedKeys(v.m.Keys))
    else if depth == 0 && AsFloat(q, v).Some? then [Leaf([], AsFloat(q, v).value)]
    else []
  }

  ghost function LeavesOf(q: Query, depth: nat, v: Value, keys: seq<string>): seq<Leaf>
    requires v.Map? && forall k :: k in keys ==> k in v.m
    decreases v, 0, |keys|
  {
    if keys == [] then []
    else
      var k := keys[|keys| - 1];
      LeavesOf(q, depth, v, keys[..|keys| - 1]) + Under(k, Leaves(q, Below(depth), v.m[k]))
  }

  function Below(depth: nat): nat {
    if depth > 0 then depth - 1 else 0
  }

  /** The value a path leads to. */
  function Follow(v: Value, path: seq<string>): Option<Value> {
    if path == [] then Some(v)
    else if v.Map? && path[0] in v.m then Follow(v.m[path[0]], path[1..])
    else None
  }

  ghost predicate IsLeaf(q: Query, depth: nat, v: Value, l: Leaf) {
    |l.path| >= depth && Follow(v, l.path).Some? && AsFloat(q, Follow(v, l.path).value) == Some(l.value)
  }

  /** The list holds exactly the convertible values that paths of sufficient length lead to. */
  lemma {:induction false} LeavesExact(q: Query, depth: nat, v: Value, l: Leaf)
    ensures l in Leaves(q, depth, v) <==> IsLeaf(q, depth, v, l)
    decreases v, 1, 0
  {
    if v.Map? {
      LeavesOfExact(q, depth, v, SortedKeys(v.m.Keys), l);
      assert AsFloat(q, v) == None;
    } else {
      assert l.path != [] ==> Follow(v, l.path) == None;
    }
  }

  lemma {:induction false} LeavesOfExact(q: Query, depth: nat, v: Value, keys: seq<string>, l: Leaf)
    requires v.Map? && forall k :: k in keys ==> k in v.m
    ensures l in LeavesOf(q, depth, v, keys) <==> l.path != [] && l.path[0] in keys && IsLeaf(q, depth, v, l)
    decreases v, 0, |keys|
  {
    hide AsFloat;
    if keys != [] {
      var init, k := keys[..|keys| - 1], keys[|keys| - 1];
      assert keys == init + [k];
      LeavesOfExact(q, depth, v, init, l);
      UnderExact(k, Leaves(q, Below(depth), v.m[k]), l);
      if l.path != [] && l.path[0] == k {
        LeavesExact(q, Below(depth), v.m[k], Leaf(l.path[1..], l.value));
      }
    }
  }

  lemma UnderExact(k: string, ls: seq<Leaf>, l: Leaf)
    ensures l in Under(k, ls) <==> l.path != [] && l.path[0] == k && Leaf(l.path[1..], l.value) in ls
  {
    if l in Under(k, ls) {
      var i :| 0 <= i < |ls| && Under(k, ls)[i] == l;
      assert l.path[1..] == ls[i].path;
    }
    if l.path != [] && l.path[0] == k && Leaf(l.path[1..], l.value) in ls {
      var i :| 0 <= i < |ls| && ls[i] == Leaf(l.path[1..], l.value);
      assert [k] + l.path[1..] == l.path;
      assert Under(k, ls)[i] == l;
    }
  }

  ghost predicate DistinctPaths(ls: seq<Leaf>) {
    forall i, j :: 0 <= i < j < |ls| ==> ls[i].path != ls[j].path
  }

  /** No leaf is listed twice. */
  lemma {:induction false} LeavesDistinct(q: Query, depth: nat, v: Value)
    ensures DistinctPaths(Leaves(q, depth, v))
    decreases v, 1, 0
  {
    if v.Map? {
      SortedKeysDistinct(v.m.Keys);
      LeavesOfDistinct(q, depth, v, SortedKeys(v.m.Keys));
    }
  }

  lemma {:induction false} LeavesOfDistinct(q: Query, depth: nat, v: Value, keys: seq<string>)
    requires v.Map? && forall k :: k in keys ==> k in v.m
    requires forall i, j :: 0 <= i < j < |keys| ==> keys[i] != keys[j]
    ensures DistinctPaths(LeavesOf(q, depth, v, keys))
    decreases v, 0, |keys|
  {
    hide Leaves, AsFloat;
    if keys != [] {
      var init, k := keys[..|keys| - 1], keys[|keys| - 1];
      var first, last := LeavesOf(q, depth, v, init), Under(k, Leaves(q, Below(depth), v.m[k]));
      LeavesOfDistinct(q, depth, v, init);
      LeavesDistinct(q, Below(depth), v.m[k]);
      UnderDistinct(k, Leaves(q, Below(depth), v.m[k]));
      assert k !in init;
      forall i | 0 <= i < |first| ensures first[i].path != [] && first[i].path[0] != k {
        LeavesOfExact(q, depth, v, init, first[i]);
      }
      assert forall j :: 0 <= j < |last| ==> last[j].path[0] == k;
    }
  }

  lemma UnderDistinct(k: string, ls: seq<Leaf>)
    requires DistinctPaths(ls)
    ensures DistinctPaths(Under(k, ls))
  {
    forall i, j | 0 <= i < j < |ls| ensures Under(k, ls)[i].path != Under(k, ls)[j].path {
      assert Under(k, ls)[i].path[1..] == ls[i].path && Under(k, ls)[j].path[1..] == ls[j].path;
    }
  }

  /* The tags a leaf's metric is meant to carry. */

  /** Inside one attribute: "2" is the last key if all paths were asked for, "1" an outer key, if
      the leaf lies under one. */
  function AttributeTags(q: Query, path: seq<string>): map<string, string> {
    if path == [] then map[]
    else if |path| == 1 then PathTags(q, path[0])
    else PathTags(q, path[|path| - 1])["1" := path[0]]
  }

  /** Inside one MBean: "1" is the attribute if all were asked for. */
  function BeanLeafTags(q: Query, path: seq<string>): map<string, string> {
    if q.parts.IsAllAttributes() && path != [] then AttributeTags(q, path[1..])["1" := path[0]]
    else AttributeTags(q, path)
  }

  /** If several MBeans were asked for, their wildcard keys are tags, too. */
  function LeafTags(q: Query, path: seq<string>): map<string, string> {
    if q.parts.IsMBeanQuery() && path != [] then BeanLeafTags(q, path[1..]) + BeanTags(q, path[0])
    else BeanLeafTags(q, path)
  }

  function BeanLevels(q: Query): nat {
    if q.parts.IsAllAttributes() then 1 else 0
  }

  function Levels(q: Query): nat {
    (if q.parts.IsMBeanQuery() then 1 else 0) + BeanLevels(q)
  }

  datatype Scope = InAttribute | InBean | InResponse

  function ScopeTags(q: Query, scope: Scope, path: seq<string>): map<string, string> {
    match scope
    case InAttribute => AttributeTags(q, path)
    case InBean => BeanLeafTags(q, path)
    case InResponse => LeafTags(q, path)
  }

  function Metrics(q: Query, scope: Scope, ls: seq<Leaf>): (r: seq<MetricHeader>)
    ensures |r| == |ls|
  {
    seq(|ls|, i requires 0 <= i < |ls| => Metric(q, ls[i].value, ScopeTags(q, scope, ls[i].path)))
  }

  /** One single-datapoint metric per convertible leaf of the response. */
  ghost function Intended(q: Query, v: Value): seq<MetricHeader> {
    Metrics(q, InResponse, Leaves(q, Levels(q), v))
  }

  /* When the walk gives that. */

  /** No leaf precedes an inner map in the same composite, at any nesting. */
  ghost predicate Lossless(q: Query, v: Value)
    decreases v, 1, 0
  {
    v.Map? ==> LosslessKeys(q, v, SortedKeys(v.m.Keys))
  }

  ghost predicate LosslessKeys(q: Query, v: Value, keys: seq<string>)
    requires v.Map? && forall k :: k in keys ==> k in v.m
    decreases v, 0, |keys|
  {
    keys == [] ||
      var init, k := keys[..|keys| - 1], keys[|keys| - 1];
      LosslessKeys(q, v, init) && (v.m[k].Map? ==> LeavesOf(q, 0, v, init) == [] && Lossless(q, v.m[k]))
  }

  /** Every attribute of the response, `depth` maps down, is such a composite or no map. */
  ghost predicate LosslessBelow(q: Query, depth: nat, v: Value) {
    if depth == 0 then Lossless(q, v)
    else v.Map? ==> forall k :: k in v.m ==> LosslessBelow(q, depth - 1, v.m[k])
  }

  /** `got` is `want`, or something of it is missing. */
  ghost predicate Agrees(got: seq<MetricHeader>, want: seq<MetricHeader>, lossless: bool) {
    if lossless then got == want else |got| < |want|
  }

  lemma {:induction false} TagAt(ms: seq<MetricHeader>, k: string, value: string, i: nat)
    requires i < |ms|
    ensures Tag(ms, k, value)[i] == ms[i].(data := TagData(ms[i].data, k, value))
  {
    if i < |ms| - 1 { TagAt(ms[..|ms| - 1], k, value, i); }
  }

  lemma {:induction false} TagAllAt(ms: seq<MetricHeader>, tags: map<string, string>, i: nat)
    requires i < |ms|
    ensures TagAll(ms, tags)[i] == ms[i].(data := TagDataAll(ms[i].data, tags))
  {
    if i < |ms| - 1 { TagAllAt(ms[..|ms| - 1], tags, i); }
  }

  /** The outermost key is the one that stays in "1". */
  lemma TagOuterKey(q: Query, ls: seq<Leaf>, k: string)
    requires forall i :: 0 <= i < |ls| ==> ls[i].path != []
    ensures Tag(Metrics(q, InAttribute, ls), "1", k) == Metrics(q, InAttribute, Under(k, ls))
  {
    var ms, r := Metrics(q, InAttribute, ls), Metrics(q, InAttribute, Under(k, ls));
    forall i | 0 <= i < |ls| ensures Tag(ms, "1", k)[i] == r[i] {
      TagAt(ms, "1", k, i);
      OuterKeyTags(q, ls[i].path, k);
      assert r[i] == Metric(q, ls[i].value, AttributeTags(q, [k] + ls[i].path));
      assert TagData(ms[i].data, "1", k) == r[i].data;
    }
  }

  lemma OuterKeyTags(q: Query, path: seq<string>, k: string)
    requires path != []
    ensures AttributeTags(q, path)["1" := k] == AttributeTags(q, [k] + path)
  {
    assert ([k] + path)[|path|] == path[|path| - 1];
  }

  lemma MetricsAppend(q: Query, scope: Scope, a: seq<Leaf>, b: seq<Leaf>)
    ensures Metrics(q, scope, a + b) == Metrics(q, scope, a) + Metrics(q, scope, b)
  {}

  lemma {:induction false} LeavesOfPaths(q: Query, depth: nat, v: Value, keys: seq<string>)
    requires v.Map? && forall k :: k in keys ==> k in v.m
    ensures forall l :: l in LeavesOf(q, depth, v, keys) ==> l.path != []
  {
    forall l | l in LeavesOf(q, depth, v, keys) ensures l.path != [] { LeavesOfExact(q, depth, v, keys, l); }
  }

  lemma {:induction false} CompositeExact(q: Query, v: Value)
    requires v.Map?
    ensures Agrees(Composite(q, v), Metrics(q, InAttribute, Leaves(q, 0, v)), Lossless(q, v))
    decreases v, 1, 0
  {
    CompositeKeysExact(q, v, SortedKeys(v.m.Keys));
  }

  lemma {:induction false} CompositeKeysExact(q: Query, v: Value, keys: seq<string>)
    requires v.Map? && forall k :: k in keys ==> k in v.m
    ensures Agrees(CompositeKeys(q, v, keys), Metrics(q, InAttribute, LeavesOf(q, 0, v, keys)),
                   LosslessKeys(q, v, keys))
    decreases v, 0, |keys|
  {
    hide AsFloat, Metrics, Leaves, Composite, Lossless;
    if keys == [] {
      assert Metrics(q, InAttribute, []) == [];
    } else {
      var init, k := keys[..|keys| - 1], keys[|keys| - 1];
      CompositeKeysExact(q, v, init);
      MetricsAppend(q, InAttribute, LeavesOf(q, 0, v, init), Under(k, Leaves(q, 0, v.m[k])));
      if v.m[k].Map? {
        NotAFloat(q, v.m[k]);
        CompositeExact(q, v.m[k]);
        InnerMap(q, v.m[k], k);
        assert [] + Under(k, Leaves(q, 0, v.m[k])) == Under(k, Leaves(q, 0, v.m[k]));
      } else {
        ScalarLeaves(q, v.m[k], k);
      }
    }
  }

  lemma NotAFloat(q: Query, v: Value)
    requires v.Map?
    ensures AsFloat(q, v) == None
  {}

  lemma InnerMap(q: Query, v: Value, k: string)
    requires v.Map? && Agrees(Composite(q, v), Metrics(q, InAttribute, Leaves(q, 0, v)), Lossless(q, v))
    ensures Agrees(Tag(Composite(q, v), "1", k), Metrics(q, InAttribute, Under(k, Leaves(q, 0, v))), Lossless(q, v))
  {
    hide Composite, Lossless;
    LeavesOfPaths(q, 0, v, SortedKeys(v.m.Keys));
    var ls := Leaves(q, 0, v);
    forall i | 0 <= i < |ls| ensures ls[i].path != [] { assert ls[i] in ls; }
    TagOuterKey(q, ls, k);
  }

  lemma ScalarLeaves(q: Query, v: Value, k: string)
    requires !v.Map?
    ensures Metrics(q, InAttribute, Under(k, Leaves(q, 0, v))) ==
      if AsFloat(q, v).Some? then [Metric(q, AsFloat(q, v).value, PathTags(q, k))] else []
  {}

  lemma AttributeExact(q: Query, v: Value)
    ensures Agrees(Attribute(q, v), Metrics(q, InAttribute, Leaves(q, 0, v)), Lossless(q, v))
  {
    if v.Map? { CompositeExact(q, v); }
  }

  /** `lossless` of two parts laid end to end. */
  lemma AgreesAppend(a: seq<MetricHeader>, b: seq<MetricHeader>, la: bool,
                     x: seq<MetricHeader>, y: seq<MetricHeader>, lx: bool)
    requires Agrees(a, b, la) && Agrees(x, y, lx)
    ensures Agrees(a + x, b + y, la && lx)
  {}

  lemma TagAttribute(q: Query, ls: seq<Leaf>, k: string)
    requires q.parts.IsAllAttributes()
    ensures Tag(Metrics(q, InAttribute, ls), "1", k) == Metrics(q, InBean, Under(k, ls))
  {
    var ms, r := Metrics(q, InAttribute, ls), Metrics(q, InBean, Under(k, ls));
    forall i | 0 <= i < |ls| ensures Tag(ms, "1", k)[i] == r[i] {
      TagAt(ms, "1", k, i);
      assert ([k] + ls[i].path)[1..] == ls[i].path;
      assert TagData(ms[i].data, "1", k) == r[i].data;
    }
  }

  lemma {:induction false} AttributeKeysExact(q: Query, v: Value, keys: seq<string>)
    requires q.parts.IsAllAttributes() && v.Map? && forall k :: k in keys ==> k in v.m
    ensures Agrees(AttributeKeys(q, v, keys), Metrics(q, InBean, LeavesOf(q, 1, v, keys)),
                   forall k :: k in keys ==> Lossless(q, v.m[k]))
    decreases |keys|
  {
    hide AsFloat, Metrics, Leaves, Attribute, Lossless, Tag;
    if keys == [] {
      assert Metrics(q, InBean, []) == [];
    } else {
      var init, k := keys[..|keys| - 1], keys[|keys| - 1];
      assert keys == init + [k];
      var ls := Leaves(q, 0, v.m[k]);
      AttributeKeysExact(q, v, init);
      MetricsAppend(q, InBean, LeavesOf(q, 1, v, init), Under(k, ls));
      AttributeExact(q, v.m[k]);
      TagAttribute(q, ls, k);
      AgreesAppend(AttributeKeys(q, v, init), Metrics(q, InBean, LeavesOf(q, 1, v, init)),
                   forall k :: k in init ==> Lossless(q, v.m[k]),
                   Tag(Attribute(q, v.m[k]), "1", k), Metrics(q, InBean, Under(k, ls)), Lossless(q, v.m[k]));
    }
  }

  lemma AllAttributesExact(q: Query, v: Value)
    requires q.parts.IsAllAttributes()
    ensures Agrees(SingleBean(q, v), Metrics(q, InBean, Leaves(q, BeanLevels(q), v)),
                   LosslessBelow(q, BeanLevels(q), v))
  {
    hide AsFloat, Attribute, Lossless;
    if v.Map? { AttributeKeysExact(q, v, SortedKeys(v.m.Keys)); }
  }

  lemma BeanExact(q: Query, v: Value)
    ensures Agrees(SingleBean(q, v), Metrics(q, InBean, Leaves(q, BeanLevels(q), v)),
                   LosslessBelow(q, BeanLevels(q), v))
  {
    hide AsFloat, Attribute, Lossless, Leaves;
    if q.parts.IsAllAttributes() {
      AllAttributesExact(q, v);
    } else {
      AttributeExact(q, v);
      assert Metrics(q, InBean, Leaves(q, 0, v)) == Metrics(q, InAttribute, Leaves(q, 0, v));
    }
  }

  lemma TagBean(q: Query, ls: seq<Leaf>, k: string)
    requires q.parts.IsMBeanQuery()
    ensures TagAll(Metrics(q, InBean, ls), BeanTags(q, k)) == Metrics(q, InResponse, Under(k, ls))
  {
    hide BeanTags;
    var ms, r := Metrics(q, InBean, ls), Metrics(q, InResponse, Under(k, ls));
    forall i | 0 <= i < |ls| ensures TagAll(ms, BeanTags(q, k))[i] == r[i] {
      TagAllAt(ms, BeanTags(q, k), i);
      assert ([k] + ls[i].path)[1..] == ls[i].path;
      assert TagDataAll(ms[i].data, BeanTags(q, k)) == r[i].data;
    }
  }

  lemma {:induction false} BeanKeysExact(q: Query, v: Value, keys: seq<string>)
    requires q.parts.IsMBeanQuery() && v.Map? && forall k :: k in keys ==> k in v.m
    ensures Agrees(BeanKeys(q, v, keys), Metrics(q, InResponse, LeavesOf(q, Levels(q), v, keys)),
                   forall k :: k in keys ==> LosslessBelow(q, BeanLevels(q), v.m[k]))
    decreases |keys|
  {
    hide AsFloat, Metrics, Leaves, SingleBean, LosslessBelow, TagAll, BeanTags;
    if keys == [] {
      assert Metrics(q, InResponse, []) == [];
    } else {
      var init, k := keys[..|keys| - 1], keys[|keys| - 1];
      assert keys == init + [k];
      var ls := Leaves(q, BeanLevels(q), v.m[k]);
      BeanKeysExact(q, v, init);
      MetricsAppend(q, InResponse, LeavesOf(q, Levels(q), v, init), Under(k, ls));
      BeanExact(q, v.m[k]);
      TagBean(q, ls, k);
      AgreesAppend(BeanKeys(q, v, init), Metrics(q, InResponse, LeavesOf(q, Levels(q), v, init)),
                   forall k :: k in init ==> LosslessBelow(q, BeanLevels(q), v.m[k]),
                   TagAll(SingleBean(q, v.m[k]), BeanTags(q, k)), Metrics(q, InResponse, Under(k, ls)),
                   LosslessBelow(q, BeanLevels(q), v.m[k]));
    }
  }

  lemma LeavesOfMap(q: Query, depth: nat, v: Value)
    requires v.Map? && depth > 0
    ensures Leaves(q, depth, v) == LeavesOf(q, depth, v, SortedKeys(v.m.Keys))
    ensures LosslessBelow(q, depth, v)
         <==> forall k :: k in SortedKeys(v.m.Keys) ==> LosslessBelow(q, depth - 1, v.m[k])
  {
    hide LeavesOf, AsFloat, Lossless;
  }

  lemma ResponseOfMBeans(q: Query, v: Value)
    requires q.parts.IsMBeanQuery()
    ensures Agrees(Response(q, v), Intended(q, v), LosslessBelow(q, Levels(q), v))
  {
    if v.Map? {
      hide Leaves, LosslessBelow, BeanKeys, Metrics;
      BeanKeysExact(q, v, SortedKeys(v.m.Keys));
      LeavesOfMap(q, Levels(q), v);
    } else {
      assert Leaves(q, Levels(q), v) == [];
    }
  }

  lemma ResponseOfOneMBean(q: Query, v: Value)
    requires !q.parts.IsMBeanQuery()
    ensures Agrees(Response(q, v), Intended(q, v), LosslessBelow(q, Levels(q), v))
  {
    hide AsFloat, SingleBean, LosslessBelow, Leaves, BeanLeafTags;
    BeanExact(q, v);
    assert Metrics(q, InResponse, Leaves(q, Levels(q), v)) == Metrics(q, InBean, Leaves(q, Levels(q), v));
  }

  /** The walk gives every convertible leaf its metric, and nothing else, if and only if no leaf
      precedes an inner map in the same composite; otherwise metrics are missing. */
  lemma ResponseExact(q: Query, v: Value)
    ensures Response(q, v) == Intended(q, v) <==> LosslessBelow(q, Levels(q), v)
    ensures |Response(q, v)| <= |Intended(q, v)|
  {
    hide Response, Intended, LosslessBelow;
    if q.parts.IsMBeanQuery() { ResponseOfMBeans(q, v); } else { ResponseOfOneMBean(q, v); }
  }

  /* When tags tell leaves apart. */

  /** What a leaf's tags show of its path: the wildcard values of its MBean, an outer key and the last key. */
  datatype Shown = Shown(wildcards: map<string, string>, outer: Option<string>, last: Option<string>)

  /** Below the MBean, if several were asked for. */
  function BelowMBean(q: Query, path: seq<string>): seq<string> {
    if q.parts.IsMBeanQuery() && path != [] then path[1..] else path
  }

  /** The outer key is the attribute if all were asked for, otherwise the outermost of several keys. */
  function OuterShown(q: Query, inner: seq<string>): Option<string> {
    if inner != [] && (q.parts.IsAllAttributes() || |inner| >= 2) then Some(inner[0]) else None
  }

  /** The last key shows if all paths were asked for, and lies within the attribute. */
  function LastShown(q: Query, inner: seq<string>): Option<string> {
    if q.parts.IsAllPaths() && |inner| > BeanLevels(q) then Some(inner[|inner| - 1]) else None
  }

  function ShownOf(q: Query, path: seq<string>): Shown {
    var inner := BelowMBean(q, path);
    Shown(if q.parts.IsMBeanQuery() && path != [] then BeanTags(q, path[0]) else map[],
          OuterShown(q, inner), LastShown(q, inner))
  }

  function TagOf(key: string, value: Option<string>): map<string, string> {
    if value.Some? then map[key := value.value] else map[]
  }

  lemma AttributeTagsShown(q: Query, p: seq<string>)
    ensures AttributeTags(q, p) == TagOf("1", if |p| >= 2 then Some(p[0]) else None)
                                 + TagOf("2", if q.parts.IsAllPaths() && p != [] then Some(p[|p| - 1]) else None)
  {}

  lemma BeanLeafTagsShown(q: Query, inner: seq<string>)
    ensures BeanLeafTags(q, inner) == TagOf("1", OuterShown(q, inner)) + TagOf("2", LastShown(q, inner))
  {
    hide AttributeTags;
    if q.parts.IsAllAttributes() && inner != [] {
      AttributeTagsShown(q, inner[1..]);
    } else {
      AttributeTagsShown(q, inner);
    }
  }

  lemma TagsDecompose(a: Option<string>, b: Option<string>, m: map<string, string>,
                      a': Option<string>, b': Option<string>, m': map<string, string>)
    requires "1" !in m && "2" !in m && "1" !in m' && "2" !in m'
    ensures TagOf("1", a) + TagOf("2", b) + m == TagOf("1", a') + TagOf("2", b') + m' <==> a == a' && b == b' && m == m'
  {
    var t, t' := TagOf("1", a) + TagOf("2", b) + m, TagOf("1", a') + TagOf("2", b') + m';
    assert ("1" in t <==> a.Some?) && ("2" in t <==> b.Some?) && ("1" in t' <==> a'.Some?) && ("2" in t' <==> b'.Some?);
    assert a.Some? ==> t["1"] == a.value;
    assert b.Some? ==> t["2"] == b.value;
    assert a'.Some? ==> t'["1"] == a'.value;
    assert b'.Some? ==> t'["2"] == b'.value;
    if t == t' {
      assert t - {"1", "2"} == m && t' - {"1", "2"} == m';
    }
  }

  /** Two leaves get different tags exactly when their paths differ in what is shown. */
  lemma LeafTagsSeparate(q: Query, path: seq<string>, other: seq<string>)
    requires "1" !in q.parts.keyWildcards && "2" !in q.parts.keyWildcards
    ensures LeafTags(q, path) == LeafTags(q, other) <==> ShownOf(q, path) == ShownOf(q, other)
  {
    var s, t := ShownOf(q, path), ShownOf(q, other);
    LeafTagsShown(q, path);
    LeafTagsShown(q, other);
    hide LeafTags, ShownOf;
    TagsDecompose(s.outer, s.last, s.wildcards, t.outer, t.last, t.wildcards);
  }

  lemma LeafTagsShown(q: Query, path: seq<string>)
    requires "1" !in q.parts.keyWildcards && "2" !in q.parts.keyWildcards
    ensures var s := ShownOf(q, path);
      && LeafTags(q, path) == TagOf("1", s.outer) + TagOf("2", s.last) + s.wildcards
      && "1" !in s.wildcards && "2" !in s.wildcards
  {
    hide BeanLeafTags, OuterShown, LastShown, TagOf, BeanTags;
    BeanLeafTagsShown(q, BelowMBean(q, path));
    if q.parts.IsMBeanQuery() && path != [] { BeanTagsAreWildcards(q, path[0]); }
    assert BeanLeafTags(q, path) + map[] == BeanLeafTags(q, path);
  }

  lemma BeanTagsAreWildcards(q: Query, bean: string)
    ensures BeanTags(q, bean).Keys <= q.parts.keyWildcards
  {}

  /** Within one MBean whose paths were all asked for, the leaves of basic values and of composites of basic
      values all get different tags. */
  lemma FlatLeavesSeparate(q: Query, path: seq<string>, other: seq<string>)
    requires q.parts.keyWildcards == {} && q.parts.IsAllPaths()
    requires BeanLevels(q) <= |path| <= BeanLevels(q) + 1 && BeanLevels(q) <= |other| <= BeanLevels(q) + 1
    ensures LeafTags(q, path) == LeafTags(q, other) ==> path == other
  {
    LeafTagsSeparate(q, path, other);
  }

  /** A composite asked for by one attribute and no path: none of its leaves gets a tag, so they share one
      series. */
  lemma CompositeWithoutPath(q: Query, path: seq<string>)
    requires q.parts.keyWildcards == {} && !q.parts.IsAllPaths() && |path| == 1
    ensures LeafTags(q, path) == map[]
  {}

  /* The documented shapes, and one that loses. */

  predicate Flat(v: Value) {
    v.Map? ==> forall k :: k in v.m ==> !v.m[k].Map?
  }

  /** A basic value, a composite of basic values, or one such composite under its own name. */
  predicate Documented(v: Value) {
    Flat(v) || (v.Map? && |v.m| == 1 && forall k :: k in v.m ==> Flat(v.m[k]))
  }

  lemma FlatLossless(q: Query, v: Value, keys: seq<string>)
    requires v.Map? && Flat(v) && forall k :: k in keys ==> k in v.m
    ensures LosslessKeys(q, v, keys)
  {}

  lemma DocumentedLossless(q: Query, v: Value)
    requires Documented(v)
    ensures Lossless(q, v)
  {
    if v.Map? {
      var keys := SortedKeys(v.m.Keys);
      if Flat(v) {
        FlatLossless(q, v, keys);
      } else {
        OneSortedKey(v.m.Keys);
        assert keys[..0] == [];
        assert keys[0] in v.m;
        var inner := v.m[keys[0]];
        if inner.Map? { FlatLossless(q, inner, SortedKeys(inner.m.Keys)); }
      }
    }
  }

  ghost predicate DocumentedBelow(depth: nat, v: Value) {
    if depth == 0 then Documented(v)
    else v.Map? ==> forall k :: k in v.m ==> DocumentedBelow(depth - 1, v.m[k])
  }

  /** Whatever the wildcards, a response of documented attributes loses nothing. */
  lemma {:induction false} DocumentedResponse(q: Query, v: Value)
    requires DocumentedBelow(Levels(q), v)
    ensures Response(q, v) == Intended(q, v)
  {
    hide Response, Intended;
    DocumentedBelowLossless(q, Levels(q), v);
    ResponseExact(q, v);
  }

  lemma {:induction false} DocumentedBelowLossless(q: Query, depth: nat, v: Value)
    requires DocumentedBelow(depth, v)
    ensures LosslessBelow(q, depth, v)
  {
    hide Documented, Lossless;
    if depth == 0 {
      DocumentedLossless(q, v);
    } else if v.Map? {
      forall k | k in v.m ensures LosslessBelow(q, depth - 1, v.m[k]) { DocumentedBelowLossless(q, depth - 1, v.m[k]); }
    }
  }

  lemma OneSortedKey(s: set<string>)
    requires |s| == 1
    ensures |SortedKeys(s)| == 1
  {
    EnumeratesMultiset(Enumeration(s), s);
    var r := SortedKeys(s);
    assert |r| == |multiset(r)| == |multiset(s)|;
  }

  lemma NumberThenMap(q: Query, v: Value)
    requires v.Map? && v.m.Keys == {"a", "b"} && v.m["a"].Number? && v.m["b"].Map?
    ensures !Lossless(q, v)
  {
    hide LeavesOf, IsLeaf;
    SortedPair(v.m.Keys);
    var keys := ["a", "b"];
    assert keys[..1] == ["a"];
    NumberIsLeaf(q, v, "a");
  }

  lemma NumberIsLeaf(q: Query, v: Value, k: string)
    requires v.Map? && k in v.m && v.m[k].Number?
    ensures LeavesOf(q, 0, v, [k]) != []
  {
    hide LeavesOf;
    var l := Leaf([k], v.m[k].f);
    assert Follow(v, [k]) == Follow(v.m[k], []) by { assert [k][1..] == []; }
    LeavesOfExact(q, 0, v, [k], l);
  }

  /** A number and an inner composite side by side: the number is dropped. */
  lemma NumberBeforeMapIsLost(q: Query, n: Float, m: Float)
    ensures var v := Map(map["a" := Number(n), "b" := Map(map["c" := Number(m)])]);
      !Lossless(q, v) && |Composite(q, v)| < |Leaves(q, 0, v)|
  {
    hide Lossless, Composite, Leaves;
    var v := Map(map["a" := Number(n), "b" := Map(map["c" := Number(m)])]);
    NumberThenMap(q, v);
    CompositeExact(q, v);
  }

  lemma SortedPair(s: set<string>)
    requires s == {"a", "b"}
    ensures SortedKeys(s) == ["a", "b"]
  {
    hide StrLe;
    EnumeratesMultiset(Enumeration(s), s);
    assert multiset(s) == multiset(["a", "b"]);
    PairSorted();
    SortedUnique(SortedKeys(s), ["a", "b"]);
  }

  lemma PairSorted()
    ensures Sorted(["a", "b"])
  {
    assert StrLe("a", "b");
  }
}
