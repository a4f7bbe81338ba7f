/** What the JSON collector guarantees about a document. */
module JsonLaws {
  import opened Wrappers
  import opened Text
  import opened Series
  import opened Statistics
  import opened JsonSpec

  /* The leaves of a document. */

  /** A value to be collected: the path of keys leading to it, and the statistic it is, if it is one of an
      array of numbers. */
  datatype Leaf = Leaf(path: seq<string>, stat: string, value: Float)

  /** The statistics of an array of numbers. */
  function Stats(w: Walk, items: seq<Json>): seq<(string, Float)> {
    match ParseItems(w, items)
    case None => []
    case Some(ns) =>
      [("min", MinOf(ns)), ("max", MaxOf(ns)), ("avg", AvgOf(ns)), ("stddev", StddevOf(w.sqrt, ns, AvgOf(ns)))]
  }

  /** `ns` are the items' numbers: those of numbers, and of strings that parse. */
  ghost predicate AreNumbers(w: Walk, items: seq<Json>, ns: seq<Float>) {
    && |ns| == |items|
    && forall i :: 0 <= i < |items| ==>
         || (items[i].Number? && ns[i] == Finite(items[i].r))
         || (items[i].Str? && w.parse(items[i].s) == Some(ns[i]))
  }

  /** An array has statistics if and only if all its items are numbers, and then they are those of exactly
      these numbers. */
  lemma {:induction false} StatsExact(w: Walk, items: seq<Json>, ns: seq<Float>)
    ensures ParseItems(w, items) == Some(ns) <==> AreNumbers(w, items, ns)
  {
    if items == [] {
      assert AreNumbers(w, items, ns) <==> ns == [];
    } else {
      var init, last := items[..|items| - 1], items[|items| - 1];
      if ParseItems(w, items) == Some(ns) {
        var before := ParseItems(w, init).value;
        StatsExact(w, init, before);
        assert ns[..|init|] == before;
        NumbersExtend(w, init, last, ns);
        assert items == init + [last];
      }
      if AreNumbers(w, items, ns) {
        StatsExact(w, init, ns[..|items| - 1]);
        assert ns == ns[..|items| - 1] + [ns[|items| - 1]];
      }
    }
  }

  lemma NumbersExtend(w: Walk, init: seq<Json>, last: Json, ns: seq<Float>)
    requires |ns| == |init| + 1 && AreNumbers(w, init, ns[..|init|]) && ParseItem(w, last) == Some(ns[|init|])
    ensures AreNumbers(w, init + [last], ns)
  {
    forall i | 0 <= i < |init| ensures ns[i] == ns[..|init|][i] && (init + [last])[i] == init[i] {}
  }

  predicate HoldsNumbers(value: Json) {
    value.Array? && value.items != [] && value.items[0].Number?
  }

  predicate HoldsObjects(value: Json) {
    value.Array? && value.items != [] && value.items[0].Object?
  }

  /** Following `path` in `value` leads to the number or boolean `x`, or to an array with statistic `x`. The
      objects of an array share its path. */
  predicate Holds(w: Walk, value: Json, path: seq<string>, stat: string, x: Float)
    decreases value
  {
    match value
    case Number(r) => path == [] && stat == "" && x == Finite(r)
    case Boolean(b) => path == [] && stat == "" && x == (if b then Finite(1.0) else Finite(0.0))
    case Object(fields) =>
      && path != []
      && exists i :: (&& 0 <= i < |fields| && fields[i].key == path[0]
                      && Holds(w, fields[i].value, path[1..], stat, x))
    case Array(items) =>
      if HoldsNumbers(value) then path == [] && (stat, x) in Stats(w, items)
      else HoldsObjects(value) && exists i :: 0 <= i < |items| && items[i].Object? && Holds(w, items[i], path, stat, x)
    case _ => false
  }

  function StatLeaves(prefix: seq<string>, stats: seq<(string, Float)>): (r: seq<Leaf>)
    ensures |r| == |stats| && forall i :: 0 <= i < |r| ==> r[i] == Leaf(prefix, stats[i].0, stats[i].1)
  {
    seq(|stats|, i requires 0 <= i < |stats| => Leaf(prefix, stats[i].0, stats[i].1))
  }

  function Leaves(w: Walk, prefix: seq<string>, value: Json): seq<Leaf>
    decreases value
  {
    match value
    case Number(r) => [Leaf(prefix, "", Finite(r))]
    case Boolean(b) => [Leaf(prefix, "", if b then Finite(1.0) else Finite(0.0))]
    case Object(fields) => LeavesOf(w, prefix, fields)
    case Array(items) =>
      if HoldsNumbers(value) then StatLeaves(prefix, Stats(w, items))
      else if HoldsObjects(value) then LeavesOfItems(w, prefix, items)
      else []
    case _ => []
  }

  function LeavesOf(w: Walk, prefix: seq<string>, fields: seq<Field>): seq<Leaf>
    decreases fields
  {
    if fields == [] then []
    else
      var last := fields[|fields| - 1];
      LeavesOf(w, prefix, fields[..|fields| - 1]) + Leaves(w, prefix + [last.key], last.value)
  }

  function LeavesOfItems(w: Walk, prefix: seq<string>, items: seq<Json>): seq<Leaf>
    decreases items
  {
    if items == [] then []
    else
      var item := items[|items| - 1];
      LeavesOfItems(w, prefix, items[..|items| - 1]) + (if item.Object? then LeavesOf(w, prefix, item.fields) else [])
  }

  /** Some field leads to the leaf. */
  predicate FieldHolds(w: Walk, fields: seq<Field>, path: seq<string>, stat: string, x: Float) {
    && path != []
    && exists i :: (&& 0 <= i < |fields| && fields[i].key == path[0]
                    && Holds(w, fields[i].value, path[1..], stat, x))
  }

  predicate ItemHolds(w: Walk, items: seq<Json>, path: seq<string>, stat: string, x: Float) {
    exists i :: 0 <= i < |items| && items[i].Object? && Holds(w, items[i], path, stat, x)
  }

  /** The leaves listed below a prefix are exactly those that the rest of their path leads to. */
  lemma {:induction false} LeavesExact(w: Walk, prefix: seq<string>, value: Json, l: Leaf)
    ensures l in Leaves(w, prefix, value) <==> prefix <= l.path && Holds(w, value, l.path[|prefix|..], l.stat, l.value)
    decreases value, 1
  {
    match value
    case Number(_) => SamePath(prefix, l.path);
    case Boolean(_) => SamePath(prefix, l.path);
    case Object(fields) => LeavesOfExact(w, prefix, fields, l);
    case Array(items) =>
      if HoldsNumbers(value) {
        SamePath(prefix, l.path);
        StatLeavesExact(prefix, Stats(w, items), l);
      } else if HoldsObjects(value) {
        LeavesOfItemsExact(w, prefix, items, l);
      }
    case _ =>
  }

  lemma SamePath(prefix: seq<string>, path: seq<string>)
    ensures path == prefix <==> prefix <= path && path[|prefix|..] == []
  {}

  lemma StatLeavesExact(prefix: seq<string>, stats: seq<(string, Float)>, l: Leaf)
    ensures l in StatLeaves(prefix, stats) <==> l.path == prefix && (l.stat, l.value) in stats
  {
    if l.path == prefix && (l.stat, l.value) in stats {
      var i :| 0 <= i < |stats| && stats[i] == (l.stat, l.value);
      assert StatLeaves(prefix, stats)[i] == l;
    }
  }

  lemma {:induction false} LeavesOfExact(w: Walk, prefix: seq<string>, fields: seq<Field>, l: Leaf)
    ensures l in LeavesOf(w, prefix, fields)
       <==> prefix <= l.path && FieldHolds(w, fields, l.path[|prefix|..], l.stat, l.value)
    decreases fields, 0
  {
    if fields != [] {
      hide Leaves, Holds;
      var init, last := fields[..|fields| - 1], fields[|fields| - 1];
      LeavesOfExact(w, prefix, init, l);
      LeavesExact(w, prefix + [last.key], last.value, l);
      PathBelow(prefix, last.key, l.path);
      if prefix <= l.path { FieldHoldsStep(w, init, last, l.path[|prefix|..], l.stat, l.value); }
      assert fields == init + [last];
    }
  }

  lemma PathBelow(prefix: seq<string>, key: string, path: seq<string>)
    ensures prefix + [key] <= path <==> prefix <= path && path[|prefix|..] != [] && path[|prefix|..][0] == key
    ensures prefix + [key] <= path ==> path[|prefix|..][1..] == path[|prefix + [key]|..]
  {
    if prefix <= path && path[|prefix|..] != [] && path[|prefix|..][0] == key {
      assert path[..|prefix| + 1] == prefix + [key];
    }
    if prefix + [key] <= path {
      assert path[|prefix|] == (prefix + [key])[|prefix|];
      assert path[..|prefix|] == (prefix + [key])[..|prefix|] == prefix;
    }
  }

  lemma FieldHoldsStep(w: Walk, init: seq<Field>, last: Field, path: seq<string>, stat: string, x: Float)
    ensures FieldHolds(w, init + [last], path, stat, x)
       <==> (|| FieldHolds(w, init, path, stat, x)
             || (path != [] && path[0] == last.key && Holds(w, last.value, path[1..], stat, x)))
  {
    hide Holds;
    var all := init + [last];
    if FieldHolds(w, init, path, stat, x) {
      var i :| 0 <= i < |init| && init[i].key == path[0] && Holds(w, init[i].value, path[1..], stat, x);
      assert all[i] == init[i];
    }
    if path != [] && path[0] == last.key && Holds(w, last.value, path[1..], stat, x) {
      assert all[|init|] == last;
    }
    if FieldHolds(w, all, path, stat, x) {
      var i :| 0 <= i < |all| && all[i].key == path[0] && Holds(w, all[i].value, path[1..], stat, x);
      if i < |init| { assert all[i] == init[i]; }
    }
  }

  lemma {:induction false} LeavesOfItemsExact(w: Walk, prefix: seq<string>, items: seq<Json>, l: Leaf)
    ensures l in LeavesOfItems(w, prefix, items)
       <==> prefix <= l.path && ItemHolds(w, items, l.path[|prefix|..], l.stat, l.value)
    decreases items, 0
  {
    if items != [] {
      hide LeavesOf, Holds;
      var init, last := items[..|items| - 1], items[|items| - 1];
      LeavesOfItemsExact(w, prefix, init, l);
      if prefix <= l.path { ItemHoldsStep(w, init, last, l.path[|prefix|..], l.stat, l.value); }
      if last.Object? {
        LeavesOfExact(w, prefix, last.fields, l);
        if prefix <= l.path { ObjectHolds(w, last, l.path[|prefix|..], l.stat, l.value); }
      }
      assert items == init + [last];
    }
  }

  lemma ObjectHolds(w: Walk, value: Json, path: seq<string>, stat: string, x: Float)
    requires value.Object?
    ensures Holds(w, value, path, stat, x) <==> FieldHolds(w, value.fields, path, stat, x)
  {}

  lemma ItemHoldsStep(w: Walk, init: seq<Json>, last: Json, path: seq<string>, stat: string, x: Float)
    ensures ItemHolds(w, init + [last], path, stat, x)
       <==> ItemHolds(w, init, path, stat, x) || (last.Object? && Holds(w, last, path, stat, x))
  {
    hide Holds;
    var all := init + [last];
    if ItemHolds(w, init, path, stat, x) {
      var i :| 0 <= i < |init| && init[i].Object? && Holds(w, init[i], path, stat, x);
      assert all[i] == init[i];
    }
    if last.Object? && Holds(w, last, path, stat, x) { assert all[|init|] == last; }
    if ItemHolds(w, all, path, stat, x) {
      var i :| 0 <= i < |all| && all[i].Object? && Holds(w, all[i], path, stat, x);
      if i < |init| { assert all[i] == init[i]; }
    }
  }

  /* Flattening emits one metric per leaf. */

  /** A metric is collected if it is named or nothing is, and gets the type configured for it. */
  predicate Chosen(w: Walk, key: string) {
    w.types != map[] ==> key in w.types
  }

  function TypeOf(w: Walk, key: string): string {
    if key in w.types then w.types[key] else "gauge"
  }

  function StatTags(labels: seq<string>, stat: string): map<string, string> {
    if stat == "" then TagsOf(labels) else TagsOf(labels)[STAT_TAG := stat]
  }

  /** The metric meant for a leaf: named by the top-level key, its tags spelling the path below that key; a
      number or boolean has the type configured for the key, a statistic is a gauge. */
  function Meant(w: Walk, key: string, path: seq<string>, stat: string, x: Float): MetricHeader {
    Metric(w, key, if stat == "" then TypeOf(w, key) else "gauge", StatTags(path, stat), x)
  }

  function Emit(w: Walk, leaf: Leaf): MetricHeader
    requires leaf.path != []
  {
    Meant(w, leaf.path[0], leaf.path[1..], leaf.stat, leaf.value)
  }

  predicate Rooted(ls: seq<Leaf>) {
    forall i :: 0 <= i < |ls| ==> ls[i].path != []
  }

  function EmitAll(w: Walk, ls: seq<Leaf>): (r: seq<MetricHeader>)
    requires Rooted(ls)
    ensures |r| == |ls| && forall i :: 0 <= i < |ls| ==> r[i] == Emit(w, ls[i])
  {
    if ls == [] then [] else EmitAll(w, ls[..|ls| - 1]) + [Emit(w, ls[|ls| - 1])]
  }

  lemma EmitConcat(w: Walk, a: seq<Leaf>, b: seq<Leaf>)
    requires Rooted(a) && Rooted(b)
    ensures Rooted(a + b) && EmitAll(w, a + b) == EmitAll(w, a) + EmitAll(w, b)
  {
    hide Emit;
  }

  lemma LeavesRooted(w: Walk, prefix: seq<string>, value: Json)
    requires prefix != []
    ensures Rooted(Leaves(w, prefix, value))
  {
    hide Holds, Leaves;
    var ls := Leaves(w, prefix, value);
    forall i | 0 <= i < |ls| ensures ls[i].path != [] { LeavesExact(w, prefix, value, ls[i]); }
  }

  lemma LeavesOfRooted(w: Walk, prefix: seq<string>, fields: seq<Field>)
    ensures Rooted(LeavesOf(w, prefix, fields))
  {
    hide Holds, LeavesOf;
    var ls := LeavesOf(w, prefix, fields);
    forall i | 0 <= i < |ls| ensures ls[i].path != [] { LeavesOfExact(w, prefix, fields, ls[i]); }
  }

  lemma LeavesOfItemsRooted(w: Walk, prefix: seq<string>, items: seq<Json>)
    requires prefix != []
    ensures Rooted(LeavesOfItems(w, prefix, items))
  {
    hide Holds, LeavesOfItems;
    var ls := LeavesOfItems(w, prefix, items);
    forall i | 0 <= i < |ls| ensures ls[i].path != [] { LeavesOfItemsExact(w, prefix, items, ls[i]); }
  }

  /** Where the leaves of the value called `name` inside metric `id` lie. */
  function PathOf(id: string, labels: seq<string>, name: string): seq<string> {
    if id == "" then [name] else [id] + labels + [name]
  }

  /** Whether there is anything to collect in a value. */
  predicate HasLeaf(w: Walk, value: Json)
    decreases value
  {
    match value
    case Number(_) => true
    case Boolean(_) => true
    case Object(fields) => exists i :: 0 <= i < |fields| && HasLeaf(w, fields[i].value)
    case Array(items) =>
      if HoldsNumbers(value) then ParseItems(w, items).Some?
      else HoldsObjects(value) && exists i :: 0 <= i < |items| && items[i].Object? && HasLeaf(w, items[i])
    case _ => false
  }

  lemma {:induction false} LeafHeld(w: Walk, value: Json, path: seq<string>, stat: string, x: Float)
    requires Holds(w, value, path, stat, x)
    ensures HasLeaf(w, value)
    decreases value
  {
    match value
    case Object(fields) =>
      var i :| 0 <= i < |fields| && fields[i].key == path[0] && Holds(w, fields[i].value, path[1..], stat, x);
      LeafHeld(w, fields[i].value, path[1..], stat, x);
    case Array(items) =>
      if HoldsObjects(value) {
        var i :| 0 <= i < |items| && items[i].Object? && Holds(w, items[i], path, stat, x);
        LeafHeld(w, items[i], path, stat, x);
      }
    case _ =>
  }

  /** A value in which keys lead on. */
  predicate Nested(value: Json) {
    value.Object? || HoldsObjects(value)
  }

  lemma {:induction false} SomeLeaf(w: Walk, value: Json) returns (path: seq<string>, stat: string, x: Float)
    requires HasLeaf(w, value)
    ensures Holds(w, value, path, stat, x) && (Nested(value) ==> path != [])
    decreases value
  {
    match value
    case Number(r) => path, stat, x := [], "", Finite(r);
    case Boolean(b) => path, stat, x := [], "", ValueOf(b);
    case Object(fields) =>
      var i :| 0 <= i < |fields| && HasLeaf(w, fields[i].value);
      var rest;
      rest, stat, x := SomeLeaf(w, fields[i].value);
      path := [fields[i].key] + rest;
      assert path[1..] == rest;
    case Array(items) =>
      if HoldsNumbers(value) {
        path, stat, x := [], "min", MinOf(ParseItems(w, items).value);
        assert Stats(w, items)[0] == (stat, x);
      } else {
        var i :| 0 <= i < |items| && items[i].Object? && HasLeaf(w, items[i]);
        path, stat, x := SomeLeaf(w, items[i]);
      }
  }

  lemma LeaflessHasNone(w: Walk, prefix: seq<string>, value: Json)
    requires !HasLeaf(w, value)
    ensures Leaves(w, prefix, value) == []
  {
    hide Holds, Leaves, HasLeaf;
    var ls := Leaves(w, prefix, value);
    if ls != [] {
      assert ls[0] in ls;
      LeavesExact(w, prefix, value, ls[0]);
      LeafHeld(w, value, ls[0].path[|prefix|..], ls[0].stat, ls[0].value);
    }
  }

  lemma {:induction false} LeaflessFlattens(w: Walk, id: string, labels: seq<string>, name: string, value: Json)
    requires !HasLeaf(w, value)
    ensures Flatten(w, id, labels, name, value) == []
    decreases value, 1
  {
    var mid, path := if id != "" then id else name, if id != "" then labels + [name] else labels;
    match value
    case Object(fields) => LeaflessFieldsFlatten(w, mid, path, fields);
    case Array(items) => if HoldsObjects(value) { LeaflessItemsFlatten(w, mid, path, items); }
    case _ =>
  }

  lemma {:induction false} LeaflessFieldsFlatten(w: Walk, id: string, labels: seq<string>, fields: seq<Field>)
    requires forall i :: 0 <= i < |fields| ==> !HasLeaf(w, fields[i].value)
    ensures FlattenFields(w, id, labels, fields) == []
    decreases fields, 0
  {
    if fields != [] {
      LeaflessFieldsFlatten(w, id, labels, fields[..|fields| - 1]);
      LeaflessFlattens(w, id, labels, fields[|fields| - 1].key, fields[|fields| - 1].value);
    }
  }

  lemma {:induction false} LeaflessItemsFlatten(w: Walk, id: string, labels: seq<string>, items: seq<Json>)
    requires forall i :: 0 <= i < |items| && items[i].Object? ==> !HasLeaf(w, items[i])
    ensures FlattenItems(w, id, labels, items) == []
    decreases items, 0
  {
    if items != [] {
      LeaflessItemsFlatten(w, id, labels, items[..|items| - 1]);
      var item := items[|items| - 1];
      if item.Object? { LeaflessFieldsFlatten(w, id, labels, item.fields); }
    }
  }

  /** Below an empty key nothing may follow: no metric would have been chosen for it. */
  predicate Harmless(w: Walk, id: string, name: string, value: Json) {
    id == "" && name == "" && Nested(value) ==> !HasLeaf(w, value)
  }

  lemma StatsEmitted(w: Walk, id: string, labels: seq<string>, items: seq<Json>)
    ensures ArrayMetrics(w, id, labels, items) == EmitAll(w, StatLeaves([id] + labels, Stats(w, items)))
  {
    hide MinOf, MaxOf, AvgOf, StddevOf, TagsOf, ParseItems;
    assert ([id] + labels)[1..] == labels;
    var ls := StatLeaves([id] + labels, Stats(w, items));
    var r := ArrayMetrics(w, id, labels, items);
    assert |r| == |ls|;
    forall i | 0 <= i < |r| ensures r[i] == EmitAll(w, ls)[i] {
      assert i == 0 || i == 1 || i == 2 || i == 3;
    }
  }

  lemma {:induction false} FlattenIsLeaves(w: Walk, id: string, labels: seq<string>, name: string, value: Json)
    requires Harmless(w, id, name, value) && (id == "" ==> labels == []) && Chosen(w, PathOf(id, labels, name)[0])
    ensures Rooted(Leaves(w, PathOf(id, labels, name), value))
    ensures Flatten(w, id, labels, name, value) == EmitAll(w, Leaves(w, PathOf(id, labels, name), value))
    decreases value, 1
  {
    var path := PathOf(id, labels, name);
    LeavesRooted(w, path, value);
    assert path == [path[0]] + path[1..];
    if id != "" { assert path[1..] == labels + [name]; }
    if Nested(value) && path[0] == "" {
      LeaflessFlattens(w, id, labels, name, value);
      LeaflessHasNone(w, path, value);
    } else {
      ValueIsLeaves(w, path[0], path[1..], value);
    }
  }

  /** What is emitted for a value once its metric is chosen. */
  function FlattenValue(w: Walk, id: string, labels: seq<string>, value: Json): seq<MetricHeader> {
    match value
    case Number(r) => [Metric(w, id, TypeOf(w, id), TagsOf(labels), Finite(r))]
    case Boolean(b) => [Metric(w, id, TypeOf(w, id), TagsOf(labels), ValueOf(b))]
    case Array(items) =>
      if HoldsNumbers(value) then ArrayMetrics(w, id, labels, items)
      else if HoldsObjects(value) then FlattenItems(w, id, labels, items)
      else []
    case Object(fields) => FlattenFields(w, id, labels, fields)
    case _ => []
  }

  lemma {:induction false} ValueIsLeaves(w: Walk, id: string, labels: seq<string>, value: Json)
    requires Chosen(w, id) && (Nested(value) ==> id != "")
    ensures Rooted(Leaves(w, [id] + labels, value))
    ensures FlattenValue(w, id, labels, value) == EmitAll(w, Leaves(w, [id] + labels, value))
    decreases value, 0
  {
    LeavesRooted(w, [id] + labels, value);
    assert ([id] + labels)[1..] == labels;
    match value
    case Object(fields) => FieldsAreLeaves(w, id, labels, fields);
    case Array(items) =>
      if HoldsNumbers(value) {
        StatsEmitted(w, id, labels, items);
      } else if HoldsObjects(value) {
        ItemsAreLeaves(w, id, labels, items);
      }
    case _ =>
  }

  lemma {:induction false} FieldsAreLeaves(w: Walk, id: string, labels: seq<string>, fields: seq<Field>)
    requires id != "" && Chosen(w, id)
    ensures Rooted(LeavesOf(w, [id] + labels, fields))
    ensures FlattenFields(w, id, labels, fields) == EmitAll(w, LeavesOf(w, [id] + labels, fields))
    decreases fields, 0
  {
    LeavesOfRooted(w, [id] + labels, fields);
    if fields != [] {
      hide Flatten, Leaves, EmitAll, Chosen;
      var init, last := fields[..|fields| - 1], fields[|fields| - 1];
      FieldsAreLeaves(w, id, labels, init);
      FlattenIsLeaves(w, id, labels, last.key, last.value);
      EmitConcat(w, LeavesOf(w, [id] + labels, init), Leaves(w, [id] + labels + [last.key], last.value));
    }
  }

  lemma {:induction false} ItemsAreLeaves(w: Walk, id: string, labels: seq<string>, items: seq<Json>)
    requires id != "" && Chosen(w, id)
    ensures Rooted(LeavesOfItems(w, [id] + labels, items))
    ensures FlattenItems(w, id, labels, items) == EmitAll(w, LeavesOfItems(w, [id] + labels, items))
    decreases items, 0
  {
    LeavesOfItemsRooted(w, [id] + labels, items);
    if items != [] {
      hide FlattenFields, LeavesOf, EmitAll, Chosen;
      var init, last := items[..|items| - 1], items[|items| - 1];
      var ls := LeavesOfItems(w, [id] + labels, init);
      ItemsAreLeaves(w, id, labels, init);
      if last.Object? {
        FieldsAreLeaves(w, id, labels, last.fields);
        EmitConcat(w, ls, LeavesOf(w, [id] + labels, last.fields));
      } else {
        var out := FlattenItems(w, id, labels, init);
        assert ls + [] == ls && out + [] == out;
      }
    }
  }

  /** The fields of a document that are collected. */
  function ChosenFields(w: Walk, top: seq<Field>): seq<Field> {
    if top == [] then []
    else
      var last := top[|top| - 1];
      ChosenFields(w, top[..|top| - 1]) + (if Chosen(w, last.key) then [last] else [])
  }

  lemma {:induction false} ChosenFieldsHold(w: Walk, top: seq<Field>, path: seq<string>, stat: string, x: Float)
    ensures FieldHolds(w, ChosenFields(w, top), path, stat, x)
       <==> path != [] && Chosen(w, path[0]) && FieldHolds(w, top, path, stat, x)
  {
    if top != [] {
      hide Holds, Chosen, FieldHolds;
      var init, last := top[..|top| - 1], top[|top| - 1];
      var fields := ChosenFields(w, init);
      ChosenFieldsHold(w, init, path, stat, x);
      FieldHoldsStep(w, fields, last, path, stat, x);
      FieldHoldsStep(w, init, last, path, stat, x);
      assert top == init + [last] && fields + [] == fields;
      FieldHoldsAtKey(w, top, path, stat, x);
    }
  }

  lemma FieldHoldsAtKey(w: Walk, fields: seq<Field>, path: seq<string>, stat: string, x: Float)
    ensures FieldHolds(w, fields, path, stat, x) ==> path != []
  {}

  /** A document that the collector flattens as meant: there is nothing to collect below an empty top-level
      key. */
  predicate Regular(w: Walk, top: seq<Field>) {
    Chosen(w, "") ==> forall i :: 0 <= i < |top| ==> Harmless(w, "", top[i].key, top[i].value)
  }

  lemma TopFieldIsLeaves(w: Walk, field: Field)
    requires Chosen(w, "") ==> Harmless(w, "", field.key, field.value)
    ensures Rooted(Leaves(w, [field.key], field.value))
    ensures Flatten(w, "", [], field.key, field.value)
         == if Chosen(w, field.key) then EmitAll(w, Leaves(w, [field.key], field.value)) else []
  {
    LeavesRooted(w, [field.key], field.value);
    if Chosen(w, field.key) { FlattenIsLeaves(w, "", [], field.key, field.value); }
  }

  lemma RegularParts(w: Walk, init: seq<Field>, last: Field)
    requires Regular(w, init + [last])
    ensures Regular(w, init) && (Chosen(w, "") ==> Harmless(w, "", last.key, last.value))
  {
    hide Harmless, Chosen;
    var all := init + [last];
    assert all[|init|] == last && forall i :: 0 <= i < |init| ==> all[i] == init[i];
  }

  lemma EmptyDocument(w: Walk)
    ensures FlattenDocument(w, []) == [] && LeavesOf(w, [], ChosenFields(w, [])) == [] && EmitAll(w, []) == []
  {}

  lemma {:induction false} DocumentIsLeaves(w: Walk, top: seq<Field>)
    requires Regular(w, top)
    ensures var ls := LeavesOf(w, [], ChosenFields(w, top)); Rooted(ls) && FlattenDocument(w, top) == EmitAll(w, ls)
    decreases |top|
  {
    hide Flatten, FlattenDocument, Leaves, LeavesOf, EmitAll, Chosen, ChosenFields, Regular, Harmless;
    if top == [] {
      EmptyDocument(w);
    } else {
      hide Rooted;
      var init, last := top[..|top| - 1], top[|top| - 1];
      assert top == init + [last];
      RegularParts(w, init, last);
      DocumentIsLeaves(w, init);
      TopFieldIsLeaves(w, last);
      DocumentStep(w, init, last);
    }
  }

  lemma DocumentStep(w: Walk, init: seq<Field>, last: Field)
    requires var ls := LeavesOf(w, [], ChosenFields(w, init)); Rooted(ls) && FlattenDocument(w, init) == EmitAll(w, ls)
    requires Rooted(Leaves(w, [last.key], last.value))
    requires Flatten(w, "", [], last.key, last.value)
          == if Chosen(w, last.key) then EmitAll(w, Leaves(w, [last.key], last.value)) else []
    ensures var ls := LeavesOf(w, [], ChosenFields(w, init + [last]));
      Rooted(ls) && FlattenDocument(w, init + [last]) == EmitAll(w, ls)
  {
    var fields, out, all := ChosenFields(w, init), FlattenDocument(w, init), init + [last];
    LeavesOfRooted(w, [], ChosenFields(w, all));
    hide Flatten, Leaves, EmitAll, Chosen, Rooted;
    assert all[..|init|] == init && all[|init|] == last;
    if Chosen(w, last.key) {
      assert (fields + [last])[..|fields|] == fields && [] + [last.key] == [last.key];
      EmitConcat(w, LeavesOf(w, [], fields), Leaves(w, [last.key], last.value));
    } else {
      assert fields + [] == fields && out + [] == out;
    }
  }

  lemma LabelInjective(a: nat, b: nat)
    requires Label(a) == Label(b)
    ensures a == b
  {
    assert Label(a)[5..] == Itoa(a) && Label(b)[5..] == Itoa(b);
    ItoaInjective(a, b);
  }

  lemma {:induction false} TagsOfLabels(labels: seq<string>, n: nat)
    ensures Label(n) in TagsOf(labels) <==> 1 <= n <= |labels|
    ensures 1 <= n <= |labels| ==> TagsOf(labels)[Label(n)] == labels[n - 1]
  {
    if labels != [] {
      TagsOfLabels(labels[..|labels| - 1], n);
      if Label(n) == Label(|labels|) { LabelInjective(n, |labels|); }
    }
  }

  /** The tags spell the path. */
  lemma TagsInjective(a: seq<string>, b: seq<string>)
    requires TagsOf(a) == TagsOf(b)
    ensures a == b
  {
    TagsOfLabels(a, |a|);
    TagsOfLabels(b, |a|);
    TagsOfLabels(a, |b|);
    TagsOfLabels(b, |b|);
    assert |a| == |b|;
    forall i | 0 <= i < |a| ensures a[i] == b[i] {
      TagsOfLabels(a, i + 1);
      TagsOfLabels(b, i + 1);
    }
  }

  lemma {:induction false} NoStatTag(labels: seq<string>)
    ensures STAT_TAG !in TagsOf(labels)
  {
    if labels != [] {
      NoStatTag(labels[..|labels| - 1]);
      assert Label(|labels|)[0] == 'l';
    }
  }

  /** With a statistic, the tags spell that, too. */
  lemma StatTagsInjective(a: seq<string>, s: string, b: seq<string>, t: string)
    requires StatTags(a, s) == StatTags(b, t)
    ensures a == b && s == t
  {
    hide TagsOf;
    NoStatTag(a);
    NoStatTag(b);
    assert s != "" ==> StatTags(a, s)[STAT_TAG] == s;
    assert t != "" ==> StatTags(b, t)[STAT_TAG] == t;
    assert StatTags(a, s) - {STAT_TAG} == TagsOf(a) && StatTags(b, t) - {STAT_TAG} == TagsOf(b);
    TagsInjective(a, b);
  }

  lemma EmitInjective(w: Walk, a: Leaf, b: Leaf)
    requires a.path != [] && b.path != []
    requires Emit(w, a).id == Emit(w, b).id && Emit(w, a).data[0].tags == Emit(w, b).data[0].tags
    ensures a.path == b.path && a.stat == b.stat
  {
    hide StatTags, TagsOf;
    StatTagsInjective(a.path[1..], a.stat, b.path[1..], b.stat);
    assert a.path == [a.path[0]] + a.path[1..] && b.path == [b.path[0]] + b.path[1..];
  }

  /** The leaves collected: those of collected top-level keys. */
  lemma ChosenLeavesExact(w: Walk, top: seq<Field>, key: string, path: seq<string>, stat: string, x: Float)
    ensures Leaf([key] + path, stat, x) in LeavesOf(w, [], ChosenFields(w, top))
       <==> Chosen(w, key) && Holds(w, Object(top), [key] + path, stat, x)
  {
    hide LeavesOf, Holds, Chosen, FieldHolds;
    LeavesOfExact(w, [], ChosenFields(w, top), Leaf([key] + path, stat, x));
    assert ([key] + path)[0..] == [key] + path && [] <= [key] + path;
    ChosenFieldsHold(w, top, [key] + path, stat, x);
    ObjectHolds(w, Object(top), [key] + path, stat, x);
  }

  lemma EmittedLeaf(w: Walk, ls: seq<Leaf>, key: string, path: seq<string>, stat: string, x: Float)
    requires Rooted(ls)
    ensures Meant(w, key, path, stat, x) in EmitAll(w, ls) <==> Leaf([key] + path, stat, x) in ls
  {
    hide StatTags;
    var m, leaf, out := Meant(w, key, path, stat, x), Leaf([key] + path, stat, x), EmitAll(w, ls);
    assert leaf.path[1..] == path;
    if m in out {
      var i :| 0 <= i < |out| && out[i] == m;
      EmitInjective(w, ls[i], leaf);
      assert ls[i] == leaf;
    }
    if leaf in ls {
      var i :| 0 <= i < |ls| && ls[i] == leaf;
      assert out[i] == m;
    }
  }

  /** A regular document yields the metric meant for each number, boolean and array statistic below a
      collected top-level key, and no such metric for anything else. */
  lemma DocumentExact(w: Walk, top: seq<Field>, key: string, path: seq<string>, stat: string, x: Float)
    requires Regular(w, top)
    ensures Meant(w, key, path, stat, x) in FlattenDocument(w, top)
       <==> Chosen(w, key) && Holds(w, Object(top), [key] + path, stat, x)
  {
    hide FlattenDocument, LeavesOf, Holds, Chosen, Meant, EmitAll;
    DocumentIsLeaves(w, top);
    ChosenLeavesExact(w, top, key, path, stat, x);
    EmittedLeaf(w, LeavesOf(w, [], ChosenFields(w, top)), key, path, stat, x);
  }

  /** The tags of a leaf: label1, label2, ... and, for a statistic, array_stat. */
  ghost predicate Spells(tags: map<string, string>, labels: seq<string>, stat: string) {
    && tags.Keys == (set i | 1 <= i <= |labels| :: "label" + Itoa(i)) + (if stat == "" then {} else {"array_stat"})
    && (forall i :: 1 <= i <= |labels| && "label" + Itoa(i) in tags ==> tags["label" + Itoa(i)] == labels[i - 1])
    && (stat != "" && "array_stat" in tags ==> tags["array_stat"] == stat)
  }

  /** Metric `m` reports the value that path `[key] + labels` leads to. */
  ghost predicate Reports(w: Walk, top: seq<Field>, m: MetricHeader, key: string, labels: seq<string>,
                          stat: string, x: Float) {
    && (w.types == map[] || key in w.types)
    && Holds(w, Object(top), [key] + labels, stat, x)
    && m.tenant == w.tenant && m.id == key
    && m.mtype == (if w.types == map[] || stat != "" then "gauge" else w.types[key])
    && |m.data| == 1 && m.data[0].timestamp == w.now && m.data[0].value == x
    && Spells(m.data[0].tags, labels, stat)
  }

  /** So the metrics of a regular document are exactly those that report one of its values. */
  lemma DocumentReported(w: Walk, top: seq<Field>, m: MetricHeader)
    requires Regular(w, top)
    ensures m in FlattenDocument(w, top) <==> exists key, labels, stat, x :: Reports(w, top, m, key, labels, stat, x)
  {
    hide FlattenDocument, LeavesOf, Holds, Meant, EmitAll, Spells, Regular, StatTags;
    if exists key, labels, stat, x :: Reports(w, top, m, key, labels, stat, x) {
      var key, labels, stat, x :| Reports(w, top, m, key, labels, stat, x);
      ReportedIsMeant(w, top, m, key, labels, stat, x);
      DocumentExact(w, top, key, labels, stat, x);
    }
    if m in FlattenDocument(w, top) {
      DocumentIsLeaves(w, top);
      var ls := LeavesOf(w, [], ChosenFields(w, top));
      var i :| 0 <= i < |ls| && m == Emit(w, ls[i]);
      var key, labels := ls[i].path[0], ls[i].path[1..];
      DocumentExact(w, top, key, labels, ls[i].stat, ls[i].value);
      MeantIsReported(w, top, key, labels, ls[i].stat, ls[i].value);
      assert Reports(w, top, m, key, labels, ls[i].stat, ls[i].value);
    }
  }

  lemma ReportedIsMeant(w: Walk, top: seq<Field>, m: MetricHeader, key: string, labels: seq<string>,
                        stat: string, x: Float)
    requires Reports(w, top, m, key, labels, stat, x)
    ensures m == Meant(w, key, labels, stat, x) && Chosen(w, key)
  {
    hide Holds, Spells, StatTags;
    SpellsExactly(m.data[0].tags, labels, stat);
    assert m.data == [m.data[0]];
  }

  lemma MeantIsReported(w: Walk, top: seq<Field>, key: string, labels: seq<string>, stat: string, x: Float)
    requires Chosen(w, key) && Holds(w, Object(top), [key] + labels, stat, x)
    ensures Reports(w, top, Meant(w, key, labels, stat, x), key, labels, stat, x)
  {
    hide Holds, Spells, StatTags;
    SpellsExactly(StatTags(labels, stat), labels, stat);
  }

  lemma SpellsExactly(tags: map<string, string>, labels: seq<string>, stat: string)
    ensures Spells(tags, labels, stat) <==> tags == StatTags(labels, stat)
  {
    hide TagsOf, Itoa;
    TagsSpell(labels);
    NoStatTag(labels);
  }

  lemma {:induction false} TagsSpell(labels: seq<string>)
    ensures Spells(TagsOf(labels), labels, "")
  {
    hide Itoa;
    forall k | k in TagsOf(labels) ensures exists i :: 1 <= i <= |labels| && k == "label" + Itoa(i) {
      TagsAreLabels(labels, k);
    }
    forall i | 1 <= i <= |labels|
      ensures "label" + Itoa(i) in TagsOf(labels) && TagsOf(labels)["label" + Itoa(i)] == labels[i - 1]
    {
      TagsOfLabels(labels, i);
    }
  }

  lemma {:induction false} TagsAreLabels(labels: seq<string>, k: string)
    requires k in TagsOf(labels)
    ensures exists i :: 1 <= i <= |labels| && k == "label" + Itoa(i)
  {
    hide Itoa;
    if k == Label(|labels|) {
      assert labels != [];
    } else {
      TagsAreLabels(labels[..|labels| - 1], k);
    }
  }

  /* No metric is emitted twice. */

  ghost predicate IsLeafMetric(w: Walk, m: MetricHeader) {
    exists path: seq<string>, stat, x :: m == Meant(w, m.id, path, stat, x)
  }

  ghost predicate DistinctLeaves(ls: seq<Leaf>) {
    forall i, j :: 0 <= i < j < |ls| ==> ls[i].path != ls[j].path || ls[i].stat != ls[j].stat
  }

  ghost predicate Disjoint(a: seq<Leaf>, b: seq<Leaf>) {
    forall l, m :: l in a && m in b ==> l.path != m.path || l.stat != m.stat
  }

  lemma DistinctConcat(a: seq<Leaf>, b: seq<Leaf>)
    ensures DistinctLeaves(a + b) <==> DistinctLeaves(a) && DistinctLeaves(b) && Disjoint(a, b)
  {
    var all := a + b;
    if DistinctLeaves(all) {
      assert forall i :: 0 <= i < |a| ==> all[i] == a[i];
      assert forall i :: 0 <= i < |b| ==> all[|a| + i] == b[i];
      forall l, m | l in a && m in b ensures l.path != m.path || l.stat != m.stat {
        var i :| 0 <= i < |a| && a[i] == l;
        var j :| 0 <= j < |b| && b[j] == m;
        assert all[i] == l && all[|a| + j] == m;
      }
    }
  }

  /** Keys are distinct within each object, as in every parsed document. */
  predicate WellFormed(value: Json)
    decreases value
  {
    match value
    case Array(items) => forall i :: 0 <= i < |items| ==> WellFormed(items[i])
    case Object(fields) =>
      && (forall i, j :: 0 <= i < j < |fields| ==> fields[i].key != fields[j].key)
      && (forall i :: 0 <= i < |fields| ==> WellFormed(fields[i].value))
    case _ => true
  }

  /** No two objects of one array hold a leaf at the same path. */
  ghost predicate Separate(w: Walk, value: Json)
    decreases value, 1
  {
    match value
    case Object(fields) => forall i :: 0 <= i < |fields| ==> Separate(w, fields[i].value)
    case Array(items) => HoldsObjects(value) ==> SeparateItems(w, items)
    case _ => true
  }

  ghost predicate SeparateItems(w: Walk, items: seq<Json>)
    decreases items, 0
  {
    items == [] ||
      var init, last := items[..|items| - 1], items[|items| - 1];
      SeparateItems(w, init) && (last.Object? ==> Separate(w, last) && Apart(w, init, last))
  }

  ghost predicate Apart(w: Walk, items: seq<Json>, last: Json) {
    forall path, stat, x, y :: !(ItemHolds(w, items, path, stat, x) && Holds(w, last, path, stat, y))
  }

  lemma {:induction false} LeavesDistinct(w: Walk, prefix: seq<string>, value: Json)
    requires WellFormed(value)
    ensures DistinctLeaves(Leaves(w, prefix, value)) <==> Separate(w, value)
    decreases value, 1
  {
    match value
    case Object(fields) => LeavesOfDistinct(w, prefix, fields);
    case Array(items) =>
      if HoldsNumbers(value) {
        StatsDistinct(w, prefix, items);
      } else if HoldsObjects(value) {
        LeavesOfItemsDistinct(w, prefix, items);
      }
    case _ =>
  }

  lemma StatsDistinct(w: Walk, prefix: seq<string>, items: seq<Json>)
    ensures DistinctLeaves(StatLeaves(prefix, Stats(w, items)))
  {
    hide ParseItems, MinOf, MaxOf, AvgOf, StddevOf;
  }

  lemma {:induction false} LeavesOfDistinct(w: Walk, prefix: seq<string>, fields: seq<Field>)
    requires forall i, j :: 0 <= i < j < |fields| ==> fields[i].key != fields[j].key
    requires forall i :: 0 <= i < |fields| ==> WellFormed(fields[i].value)
    ensures DistinctLeaves(LeavesOf(w, prefix, fields))
      <==> forall i :: 0 <= i < |fields| ==> Separate(w, fields[i].value)
    decreases fields, 0
  {
    if fields != [] {
      hide Leaves, Holds, DistinctLeaves, Disjoint, Separate;
      var init, last := fields[..|fields| - 1], fields[|fields| - 1];
      assert forall i :: 0 <= i < |init| ==> init[i] == fields[i];
      LeavesOfDistinct(w, prefix, init);
      LeavesDistinct(w, prefix + [last.key], last.value);
      DistinctConcat(LeavesOf(w, prefix, init), Leaves(w, prefix + [last.key], last.value));
      FieldsDisjoint(w, prefix, init, last);
    } else {
      assert DistinctLeaves([]);
    }
  }

  lemma FieldsDisjoint(w: Walk, prefix: seq<string>, init: seq<Field>, last: Field)
    requires forall i :: 0 <= i < |init| ==> init[i].key != last.key
    ensures Disjoint(LeavesOf(w, prefix, init), Leaves(w, prefix + [last.key], last.value))
  {
    hide Leaves, LeavesOf, Holds;
    forall l, m | l in LeavesOf(w, prefix, init) && m in Leaves(w, prefix + [last.key], last.value)
      ensures l.path != m.path || l.stat != m.stat
    {
      LeavesOfExact(w, prefix, init, l);
      LeavesExact(w, prefix + [last.key], last.value, m);
      PathBelow(prefix, last.key, m.path);
    }
  }

  lemma {:induction false} LeavesOfItemsDistinct(w: Walk, prefix: seq<string>, items: seq<Json>)
    requires forall i :: 0 <= i < |items| ==> WellFormed(items[i])
    ensures DistinctLeaves(LeavesOfItems(w, prefix, items)) <==> SeparateItems(w, items)
    decreases items, 0
  {
    if items != [] {
      hide LeavesOf, Holds, DistinctLeaves, Disjoint, Apart;
      var init, last := items[..|items| - 1], items[|items| - 1];
      var ls := LeavesOfItems(w, prefix, init);
      LeavesOfItemsDistinct(w, prefix, init);
      if last.Object? {
        LeavesOfDistinct(w, prefix, last.fields);
        DistinctConcat(ls, LeavesOf(w, prefix, last.fields));
        ItemsDisjoint(w, prefix, init, last);
      } else {
        assert ls + [] == ls;
      }
    } else {
      assert DistinctLeaves([]);
    }
  }

  lemma ItemsDisjoint(w: Walk, prefix: seq<string>, init: seq<Json>, last: Json)
    requires last.Object?
    ensures Disjoint(LeavesOfItems(w, prefix, init), LeavesOf(w, prefix, last.fields)) <==> Apart(w, init, last)
  {
    hide LeavesOfItems, LeavesOf, Holds, ItemHolds;
    var a, b := LeavesOfItems(w, prefix, init), LeavesOf(w, prefix, last.fields);
    if Apart(w, init, last) {
      forall l, m | l in a && m in b ensures l.path != m.path || l.stat != m.stat {
        LeavesOfItemsExact(w, prefix, init, l);
        LeavesOfExact(w, prefix, last.fields, m);
        ObjectHolds(w, last, m.path[|prefix|..], m.stat, m.value);
      }
    } else {
      var path: seq<string>, stat, x, y :| ItemHolds(w, init, path, stat, x) && Holds(w, last, path, stat, y);
      var l, m := Leaf(prefix + path, stat, x), Leaf(prefix + path, stat, y);
      assert (prefix + path)[|prefix|..] == path;
      LeavesOfItemsExact(w, prefix, init, l);
      LeavesOfExact(w, prefix, last.fields, m);
      ObjectHolds(w, last, path, stat, y);
    }
  }

  lemma {:induction false} ChosenFieldsAre(w: Walk, top: seq<Field>)
    ensures forall f :: f in ChosenFields(w, top) <==> f in top && Chosen(w, f.key)
  {
    if top != [] {
      ChosenFieldsAre(w, top[..|top| - 1]);
      assert top == top[..|top| - 1] + [top[|top| - 1]];
    }
  }

  ghost predicate DistinctKeys(fields: seq<Field>) {
    forall i, j :: 0 <= i < j < |fields| ==> fields[i].key != fields[j].key
  }

  lemma {:induction false} ChosenFieldsDistinct(w: Walk, top: seq<Field>)
    requires DistinctKeys(top)
    ensures DistinctKeys(ChosenFields(w, top))
  {
    if top != [] {
      var init, last := top[..|top| - 1], top[|top| - 1];
      ChosenFieldsDistinct(w, init);
      ChosenFieldsAre(w, init);
      var r := ChosenFields(w, init);
      forall i | 0 <= i < |r| ensures r[i].key != last.key {
        assert r[i] in init;
        var k :| 0 <= k < |init| && init[k] == r[i];
        assert top[k].key != top[|top| - 1].key;
      }
      DistinctKeysAppend(r, last);
      assert r + [] == r;
    }
  }

  lemma DistinctKeysAppend(fields: seq<Field>, last: Field)
    requires DistinctKeys(fields) && forall i :: 0 <= i < |fields| ==> fields[i].key != last.key
    ensures DistinctKeys(fields + [last])
  {}

  lemma ChosenWellFormed(w: Walk, top: seq<Field>)
    requires WellFormed(Object(top))
    ensures WellFormed(Object(ChosenFields(w, top)))
  {
    ChosenFieldsDistinct(w, top);
    ChosenFieldsAre(w, top);
    var fields := ChosenFields(w, top);
    forall i | 0 <= i < |fields| ensures WellFormed(fields[i].value) {
      assert fields[i] in top;
    }
  }

  ghost predicate NoneTwice(out: seq<MetricHeader>) {
    forall i, j :: 0 <= i < j < |out| ==>
      out[i].data != [] && out[j].data != [] && (out[i].id != out[j].id || out[i].data[0].tags != out[j].data[0].tags)
  }

  lemma EmittedDistinct(w: Walk, ls: seq<Leaf>)
    requires Rooted(ls)
    ensures NoneTwice(EmitAll(w, ls)) <==> DistinctLeaves(ls)
  {
    hide StatTags;
    var out := EmitAll(w, ls);
    if DistinctLeaves(ls) {
      forall i, j | 0 <= i < j < |out|
        ensures out[i].id != out[j].id || out[i].data[0].tags != out[j].data[0].tags
      {
        if out[i].id == out[j].id && out[i].data[0].tags == out[j].data[0].tags { EmitInjective(w, ls[i], ls[j]); }
      }
    } else {
      var i, j :| 0 <= i < j < |ls| && ls[i].path == ls[j].path && ls[i].stat == ls[j].stat;
      assert out[i].id == out[j].id && out[i].data[0].tags == out[j].data[0].tags;
    }
  }

  /** Every metric of a regular document is of the form meant, and no two share ID and tags if and only if no
      two objects of one array hold a leaf at the same path. */
  lemma DocumentDistinct(w: Walk, top: seq<Field>)
    requires Regular(w, top) && WellFormed(Object(top))
    ensures var out := FlattenDocument(w, top);
      && (forall i :: 0 <= i < |out| ==> IsLeafMetric(w, out[i]))
      && (NoneTwice(out) <==> Separate(w, Object(ChosenFields(w, top))))
  {
    hide FlattenDocument, LeavesOf, StatTags, Separate, NoneTwice, DistinctLeaves;
    var ls, out := LeavesOf(w, [], ChosenFields(w, top)), FlattenDocument(w, top);
    DocumentIsLeaves(w, top);
    ChosenWellFormed(w, top);
    EmittedDistinct(w, ls);
    TopLeavesDistinct(w, ChosenFields(w, top));
    forall i | 0 <= i < |out| ensures IsLeafMetric(w, out[i]) {
      assert out[i] == Meant(w, out[i].id, ls[i].path[1..], ls[i].stat, ls[i].value);
    }
  }

  lemma TopLeavesDistinct(w: Walk, fields: seq<Field>)
    requires WellFormed(Object(fields))
    ensures DistinctLeaves(LeavesOf(w, [], fields)) <==> Separate(w, Object(fields))
  {
    hide DistinctLeaves;
    LeavesOfDistinct(w, [], fields);
  }

  /* Empty top-level keys. */

  ghost predicate Unlabelled(ms: seq<MetricHeader>) {
    forall m :: m in ms ==> m.data != [] && (m.id == "" ==> Label(1) !in m.data[0].tags)
  }

  /** Once a metric is chosen, everything below belongs to it. */
  ghost predicate AllNamed(ms: seq<MetricHeader>, id: string) {
    forall m :: m in ms ==> m.data != [] && m.id == id
  }

  lemma {:induction false} FlattenNames(w: Walk, id: string, labels: seq<string>, name: string, value: Json)
    requires id != ""
    ensures AllNamed(Flatten(w, id, labels, name, value), id)
    decreases value, 1
  {
    match value
    case Object(fields) => FieldsNames(w, id, labels + [name], fields);
    case Array(items) => if HoldsObjects(value) { ItemsNames(w, id, labels + [name], items); }
    case _ =>
  }

  lemma {:induction false} FieldsNames(w: Walk, id: string, labels: seq<string>, fields: seq<Field>)
    requires id != ""
    ensures AllNamed(FlattenFields(w, id, labels, fields), id)
    decreases fields, 0
  {
    hide Flatten;
    if fields != [] {
      FieldsNames(w, id, labels, fields[..|fields| - 1]);
      FlattenNames(w, id, labels, fields[|fields| - 1].key, fields[|fields| - 1].value);
    }
  }

  lemma {:induction false} ItemsNames(w: Walk, id: string, labels: seq<string>, items: seq<Json>)
    requires id != ""
    ensures AllNamed(FlattenItems(w, id, labels, items), id)
    decreases items, 0
  {
    hide FlattenFields;
    if items != [] {
      var item := items[|items| - 1];
      ItemsNames(w, id, labels, items[..|items| - 1]);
      if item.Object? { FieldsNames(w, id, labels, item.fields); }
    }
  }

  /** A metric with an empty ID never has labels. */
  lemma {:induction false} EmptyIdUnlabelled(w: Walk, name: string, value: Json)
    ensures Unlabelled(Flatten(w, "", [], name, value))
    decreases value, 1
  {
    hide Label, MinOf, MaxOf, AvgOf, StddevOf;
    LabelIsNoStat();
    match value
    case Object(fields) => if name == "" { FieldsUnlabelled(w, fields); } else { FieldsNames(w, name, [], fields); }
    case Array(items) =>
      if HoldsObjects(value) {
        if name == "" { ItemsUnlabelled(w, items); } else { ItemsNames(w, name, [], items); }
      }
    case _ =>
  }

  lemma LabelIsNoStat()
    ensures Label(1) != STAT_TAG
  {
    assert Label(1)[0] == 'l';
  }

  lemma {:induction false} FieldsUnlabelled(w: Walk, fields: seq<Field>)
    ensures Unlabelled(FlattenFields(w, "", [], fields))
    decreases fields, 0
  {
    hide Flatten;
    if fields != [] {
      FieldsUnlabelled(w, fields[..|fields| - 1]);
      EmptyIdUnlabelled(w, fields[|fields| - 1].key, fields[|fields| - 1].value);
    }
  }

  lemma {:induction false} ItemsUnlabelled(w: Walk, items: seq<Json>)
    ensures Unlabelled(FlattenItems(w, "", [], items))
    decreases items, 0
  {
    hide FlattenFields;
    if items != [] {
      var item := items[|items| - 1];
      ItemsUnlabelled(w, items[..|items| - 1]);
      if item.Object? { FieldsUnlabelled(w, item.fields); }
    }
  }

  /** The document is flattened as meant, whatever key, path, statistic and value are asked for. */
  ghost predicate FlattenedAsMeant(w: Walk, top: seq<Field>) {
    forall key, path: seq<string>, stat, x ::
      Meant(w, key, path, stat, x) in FlattenDocument(w, top)
      <==> Chosen(w, key) && Holds(w, Object(top), [key] + path, stat, x)
  }

  lemma BelowEmptyKeyIsMissed(w: Walk, top: seq<Field>, i: nat)
    requires Chosen(w, "") && i < |top| && top[i].key == "" && Nested(top[i].value) && HasLeaf(w, top[i].value)
    ensures !FlattenedAsMeant(w, top)
  {
    hide FlattenDocument, Nested, HasLeaf;
    var path, stat, x := SomeLeaf(w, top[i].value);
    assert ([""] + path)[1..] == path;
    assert Holds(w, Object(top), [""] + path, stat, x);
    DocumentUnlabelled(w, top);
    TagsOfLabels(path, 1);
    assert Meant(w, "", path, stat, x) !in FlattenDocument(w, top);
  }

  lemma DocumentUnlabelled(w: Walk, top: seq<Field>)
    ensures Unlabelled(FlattenDocument(w, top))
  {
    FieldsUnlabelled(w, top);
  }

  /** Any document is flattened as meant if and only if there is nothing to collect below an empty top-level
      key that is collected. A number, a boolean or an array of numbers at an empty key does no harm. */
  lemma EmptyKeyExact(w: Walk, top: seq<Field>)
    ensures FlattenedAsMeant(w, top) <==> Regular(w, top)
  {
    hide FlattenDocument, Holds, HasLeaf, Meant;
    if Regular(w, top) {
      forall key, path: seq<string>, stat, x
        ensures Meant(w, key, path, stat, x) in FlattenDocument(w, top)
           <==> Chosen(w, key) && Holds(w, Object(top), [key] + path, stat, x)
      {
        DocumentExact(w, top, key, path, stat, x);
      }
    } else {
      var i :| 0 <= i < |top| && !Harmless(w, "", top[i].key, top[i].value);
      BelowEmptyKeyIsMissed(w, top, i);
    }
  }

  /** For example: below the empty key the walk chooses the metric one level further down, and two
      different leaves end up as one series. */
  lemma EmptyKeyCollides(w: Walk)
    requires w.types == map[]
    ensures var top := [Field("", Object([Field("a", Number(1.0))])), Field("a", Number(2.0))];
      FlattenDocument(w, top)
        == [Metric(w, "a", "gauge", map[], Finite(1.0)), Metric(w, "a", "gauge", map[], Finite(2.0))]
  {
    var inner := [Field("a", Number(1.0))];
    var top := [Field("", Object(inner)), Field("a", Number(2.0))];
    assert inner[..0] == [] && top[..0] == [] && top[..1] == [top[0]] && top[..1][..0] == [];
    assert Flatten(w, "", [], "a", Number(1.0)) == [Metric(w, "a", "gauge", TagsOf([]), Finite(1.0))];
    assert FlattenFields(w, "", [], inner) == FlattenFields(w, "", [], []) + Flatten(w, "", [], "a", Number(1.0));
    assert Flatten(w, "", [], "", Object(inner)) == FlattenFields(w, "", [], inner);
    assert FlattenFields(w, "", [], top[..1]) == FlattenFields(w, "", [], []) + Flatten(w, "", [], "", Object(inner));
  }
}
