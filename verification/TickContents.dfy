/** What a tick makes of each collected metric: which metrics are taken, what is stored for them, and what their
    definitions say. */
module TickContents {
  import opened Wrappers
  import opened Text
  import opened Series
  import opened Expansion
  import opened CollectionSpec
  import opened CollectionLaws
  import T = Tracker

  /* Which metrics are taken. */

  /** An endpoint that lists no metrics is asked for all, otherwise for those listed. */
  predicate Asked(c: Collector, m: MetricHeader) {
    c.byName == map[] || m.id in c.byName
  }

  function AskedOf(c: Collector, ms: seq<MetricHeader>): seq<MetricHeader> {
    if ms == [] then []
    else AskedOf(c, ms[..|ms| - 1]) + (if Asked(c, ms[|ms| - 1]) then [ms[|ms| - 1]] else [])
  }

  /** What is not asked for has no effect: batch and definitions are those of the metrics asked for. */
  lemma {:induction false} OnlyAskedCount(c: Collector, ms: seq<MetricHeader>, declared: Definitions)
    ensures Wholes(c, ms) == Wholes(c, AskedOf(c, ms)) && AllParts(c, ms) == AllParts(c, AskedOf(c, ms))
    ensures Batch(c, ms) == Batch(c, AskedOf(c, ms))
    ensures Needed(c, ms, declared) == Needed(c, AskedOf(c, ms), declared)
  {
    if ms != [] {
      hide OwnNeeds, OwnWhole, OwnParts;
      var init, m := ms[..|ms| - 1], ms[|ms| - 1];
      OnlyAskedCount(c, init, declared);
      if Asked(c, m) {
        var kept := AskedOf(c, ms);
        assert kept[..|kept| - 1] == AskedOf(c, init) && kept[|kept| - 1] == m;
      } else {
        UnaskedCountsNothing(c, m, declared, Needed(c, init, declared));
        assert AskedOf(c, ms) == AskedOf(c, init) + [] == AskedOf(c, init);
        assert Wholes(c, ms) == Wholes(c, init) + [] == Wholes(c, init);
        assert AllParts(c, ms) == AllParts(c, init) + [] == AllParts(c, init);
      }
    }
  }

  lemma UnaskedCountsNothing(c: Collector, m: MetricHeader, declared: Definitions, need: Definitions)
    requires !Asked(c, m)
    ensures OwnWhole(c, m) == [] && OwnParts(c, m) == [] && OwnNeeds(c, m, declared, need) == need
  {}

  /** The configuration a metric is stored by: the one listed under its name, or the metric's own name and type. */
  function ConfigOf(c: Collector, m: MetricHeader): MonitoredMetric
    requires Asked(c, m)
  {
    if m.id in c.byName then c.byName[m.id] else MonitoredMetric(m.id, m.id, m.mtype, "", "", map[])
  }

  lemma AskedIsExpected(c: Collector, m: MetricHeader)
    ensures Expected(c, m) == if Asked(c, m) then Some(ConfigOf(c, m)) else None
  {}

  /* What is stored. */

  ghost function TemplateFor(c: Collector, m: MetricHeader): string
    requires Asked(c, m)
  {
    Template(c, ConfigOf(c, m), m.data)
  }

  /** `r` is stored for `m`: the metric as collected, under its ID, or one datapoint of it without its tags,
      under the ID that the tags complete. */
  ghost predicate Yields(c: Collector, m: MetricHeader, r: MetricHeader) {
    && Asked(c, m)
    && var t := TemplateFor(c, m);
      if HasToken(t) then
        exists d :: d in m.data && r == MetricHeader(
          m.tenant, m.mtype, Expand(t, TagPhase(d.tags)), [Datapoint(d.timestamp, d.value, map[])])
      else t != "" && r == MetricHeader(m.tenant, m.mtype, t, m.data)
  }

  /** The batch holds exactly what the metrics asked for yield. */
  lemma {:induction false} BatchExact(c: Collector, ms: seq<MetricHeader>, r: MetricHeader)
    ensures r in Batch(c, ms) <==> exists m :: m in ms && Yields(c, m, r)
  {
    hide Yields, Batch;
    if ms == [] {
      EmptyBatch(c);
    } else {
      hide OwnWhole, OwnParts;
      var init, m := ms[..|ms| - 1], ms[|ms| - 1];
      assert ms == init + [m];
      BatchExact(c, init, r);
      OwnYields(c, m, r);
      BatchMember(c, init, m, r);
      YieldedBySome(c, init, m, r);
    }
  }

  lemma EmptyBatch(c: Collector)
    ensures Batch(c, []) == []
  {}

  lemma YieldedBySome(c: Collector, init: seq<MetricHeader>, m: MetricHeader, r: MetricHeader)
    ensures (exists x :: x in init + [m] && Yields(c, x, r))
       <==> Yields(c, m, r) || exists x :: x in init && Yields(c, x, r)
  {
    hide Yields;
    assert forall x :: x in init + [m] <==> x in init || x == m;
  }

  lemma BatchMember(c: Collector, init: seq<MetricHeader>, m: MetricHeader, r: MetricHeader)
    ensures r in Batch(c, init + [m]) <==> r in Batch(c, init) || r in OwnWhole(c, m) + OwnParts(c, m)
  {
    hide OwnWhole, OwnParts;
    assert (init + [m])[..|init|] == init;
  }

  lemma OwnYields(c: Collector, m: MetricHeader, r: MetricHeader)
    ensures r in OwnWhole(c, m) + OwnParts(c, m) <==> Yields(c, m, r)
  {
    hide HasToken, Template, ConfigOf, Expected;
    AskedIsExpected(c, m);
    if Asked(c, m) { PartsExact(m, TemplateFor(c, m), m.data, r); }
  }

  lemma {:induction false} PartsExact(m: MetricHeader, t: string, data: seq<Datapoint>, r: MetricHeader)
    ensures r in PartsOf(m, t, data) <==> exists d :: d in data && r == MetricHeader(
      m.tenant, m.mtype, Expand(t, TagPhase(d.tags)), [Datapoint(d.timestamp, d.value, map[])])
  {
    if data != [] {
      PartsExact(m, t, data[..|data| - 1], r);
      assert data == data[..|data| - 1] + [data[|data| - 1]];
    }
  }

  /** One part per datapoint, in the datapoints' order. */
  lemma {:induction false} PartsInOrder(m: MetricHeader, t: string, data: seq<Datapoint>)
    ensures var parts := PartsOf(m, t, data);
      && |parts| == |data|
      && forall i :: 0 <= i < |data| ==> parts[i] == MetricHeader(
           m.tenant, m.mtype, Expand(t, TagPhase(data[i].tags)), [Datapoint(data[i].timestamp, data[i].value, map[])])
  {
    hide Expand;
    if data != [] { PartsInOrder(m, t, data[..|data| - 1]); }
  }

  /** The batch lists the metrics stored whole in the order of collection, and behind them the parts of the others,
      in that order, too. */
  lemma {:induction false} BatchInOrder(c: Collector, a: seq<MetricHeader>, b: seq<MetricHeader>)
    ensures Wholes(c, a + b) == Wholes(c, a) + Wholes(c, b) && AllParts(c, a + b) == AllParts(c, a) + AllParts(c, b)
    ensures Batch(c, a + b) == (Wholes(c, a) + Wholes(c, b)) + (AllParts(c, a) + AllParts(c, b))
  {
    hide OwnWhole, OwnParts;
    if b == [] {
      assert a + b == a;
    } else {
      var init, last := b[..|b| - 1], b[|b| - 1];
      BatchInOrder(c, a, init);
      assert (a + b)[..|a + b| - 1] == a + init && (a + b)[|a + b| - 1] == last;
      assert Wholes(c, a + b) == Wholes(c, a + init) + OwnWhole(c, last);
      assert AllParts(c, a + b) == AllParts(c, a + init) + OwnParts(c, last);
    }
  }

  /* What the definitions say. */

  /** How a datapoint's tag is marked on a definition. */
  function Mark(tag: string): string {
    "@@@" + tag
  }

  lemma MarkReads(tag: string)
    ensures |Mark(tag)| >= 3 && Mark(tag)[3..] == tag
  {}

  /** The configured tags, and behind them the datapoint's, marked. */
  ghost predicate Tagged(all: Env, configured: Env, tags: Env) {
    && (forall k :: k in all <==> k in configured || IsMark(k, tags))
    && (forall l :: l in tags && Mark(l) in all ==> all[Mark(l)] == tags[l])
    && (forall k :: k in configured && k in all && !IsMark(k, tags) ==> all[k] == configured[k])
  }

  ghost predicate IsMark(k: string, tags: Env) {
    exists l :: l in tags && k == Mark(l)
  }

  /** The definition of a labelled series: the configured metric, with the datapoint's tags marked. */
  ghost predicate DefinedWithTags(def: MonitoredMetric, mm: MonitoredMetric, tags: Env) {
    && def.id == mm.id && def.name == mm.name && def.mtype == mm.mtype
    && def.units == mm.units && def.description == mm.description
    && Tagged(def.tags, mm.tags, tags)
  }

  lemma DefinedWithTagsExact(def: MonitoredMetric, mm: MonitoredMetric, d: Datapoint)
    ensures DefinedWithTags(def, mm, d.tags) <==> def == DefinitionFor(mm, d)
  {
    hide Tagged, MarkedKeys;
    DefinitionTagged(mm, d);
    if DefinedWithTags(def, mm, d.tags) { TaggedUnique(def.tags, DefinitionFor(mm, d).tags, mm.tags, d.tags); }
  }

  lemma DefinitionTagged(mm: MonitoredMetric, d: Datapoint)
    ensures Tagged(DefinitionFor(mm, d).tags, mm.tags, d.tags)
  {
    hide IsMark, Mark, MarkedKeys;
    var marked := map k | k in MarkedKeys(d.tags) :: d.tags[k[3..]];
    MarkedExact(d.tags);
    forall l | l in d.tags ensures Mark(l) in marked && marked[Mark(l)] == d.tags[l] {
      MarkReads(l);
      MarkedOne(l, d.tags);
    }
  }

  lemma MarkedOne(l: string, tags: Env)
    requires l in tags
    ensures IsMark(Mark(l), tags)
  {}

  lemma MarkedExact(tags: Env)
    ensures forall k :: k in MarkedKeys(tags) <==> IsMark(k, tags)
  {}

  lemma TaggedUnique(a: Env, b: Env, configured: Env, tags: Env)
    requires Tagged(a, configured, tags) && Tagged(b, configured, tags)
    ensures a == b
  {
    hide Mark;
    forall k | k in a ensures a[k] == b[k] {
      if IsMark(k, tags) {
        var l :| l in tags && k == Mark(l);
      }
    }
    assert a.Keys == b.Keys;
  }

  /** Metric `m` needs a definition for `id`. */
  ghost predicate Names(c: Collector, m: MetricHeader, id: string) {
    && Asked(c, m)
    && var t := TemplateFor(c, m);
      if HasToken(t) then exists d :: d in m.data && Expand(t, TagPhase(d.tags)) == id else t == id
  }

  /** The definition `m` gives for `id`: of several datapoints the last one counts. */
  ghost predicate Defines(c: Collector, m: MetricHeader, id: string, def: MonitoredMetric) {
    && Asked(c, m)
    && var t := TemplateFor(c, m);
      if HasToken(t) then
        exists i :: LastNamed(t, m.data, i, id) && DefinedWithTags(def, ConfigOf(c, m), m.data[i].tags)
      else t == id && def == ConfigOf(c, m)
  }

  ghost predicate LastNamed(t: string, data: seq<Datapoint>, i: int, id: string) {
    && 0 <= i < |data| && Expand(t, TagPhase(data[i].tags)) == id
    && forall j :: i < j < |data| ==> Expand(t, TagPhase(data[j].tags)) != id
  }

  lemma {:induction false} NeedPartsExact(mm: MonitoredMetric, t: string, data: seq<Datapoint>, declared: Definitions,
                                          need: Definitions, id: string, def: MonitoredMetric)
    requires id !in declared
    ensures var r := NeedParts(mm, t, data, declared, need);
      (id in r && r[id] == def)
      <==> if exists d :: d in data && Expand(t, TagPhase(d.tags)) == id
           then exists i :: LastNamed(t, data, i, id) && DefinedWithTags(def, mm, data[i].tags)
           else id in need && need[id] == def
  {
    hide Expand, DefinitionFor, DefinedWithTags, LastNamed;
    if data != [] {
      var init, d := data[..|data| - 1], data[|data| - 1];
      NeedPartsExact(mm, t, init, declared, need, id, def);
      DefinedWithTagsExact(def, mm, d);
      forall i ensures LastNamed(t, init + [d], i, id)
        <==> if Expand(t, TagPhase(d.tags)) == id then i == |init| else LastNamed(t, init, i, id)
      {
        LastNamedStep(t, init, d, id, i);
      }
      assert data == init + [d];
      assert forall x :: x in data <==> x in init || x == d;
      assert forall i :: 0 <= i < |init| ==> data[i] == init[i];
      LastNamedInside(t, init, id);
    }
  }

  lemma LastNamedStep(t: string, init: seq<Datapoint>, d: Datapoint, id: string, i: int)
    ensures LastNamed(t, init + [d], i, id)
       <==> if Expand(t, TagPhase(d.tags)) == id then i == |init| else LastNamed(t, init, i, id)
  {
    hide Expand;
    var data := init + [d];
    assert data[|init|] == d && forall j :: 0 <= j < |init| ==> data[j] == init[j];
  }

  lemma LastNamedInside(t: string, data: seq<Datapoint>, id: string)
    ensures forall i :: LastNamed(t, data, i, id) ==> 0 <= i < |data|
    ensures forall i :: LastNamed(t, data, i, id) ==> data[i] in data && Expand(t, TagPhase(data[i].tags)) == id
  {}

  lemma OwnNeedsExact(c: Collector, m: MetricHeader, declared: Definitions, need: Definitions,
                      id: string, def: MonitoredMetric)
    requires id !in declared
    ensures var r := OwnNeeds(c, m, declared, need);
      (id in r && r[id] == def) <==> if Names(c, m, id) then Defines(c, m, id, def) else id in need && need[id] == def
  {
    hide HasToken, Template, ConfigOf, Expected, NeedParts, DefinedWithTags, LastNamed;
    AskedIsExpected(c, m);
    if Asked(c, m) {
      var mm, t := ConfigOf(c, m), TemplateFor(c, m);
      NeedPartsExact(mm, t, m.data, declared, need, id, def);
    }
  }

  /** Of several metrics, too, the last one counts. */
  ghost predicate DefinedLast(c: Collector, ms: seq<MetricHeader>, i: int, id: string, def: MonitoredMetric) {
    0 <= i < |ms| && Defines(c, ms[i], id, def) && forall j :: i < j < |ms| ==> !Names(c, ms[j], id)
  }

  lemma DefinedLastStep(c: Collector, init: seq<MetricHeader>, m: MetricHeader, i: int,
                        id: string, def: MonitoredMetric)
    requires Defines(c, m, id, def) ==> Names(c, m, id)
    ensures DefinedLast(c, init + [m], i, id, def) <==>
      if Names(c, m, id) then i == |init| && Defines(c, m, id, def) else DefinedLast(c, init, i, id, def)
  {
    hide Names, Defines;
    var ms := init + [m];
    assert ms[|init|] == m && forall j :: 0 <= j < |init| ==> ms[j] == init[j];
  }

  /** The definitions a tick needs: for each undeclared ID that a metric names, what the last such metric gives. */
  lemma {:induction false} NeededWrittenOut(c: Collector, ms: seq<MetricHeader>, declared: Definitions,
                                            id: string, def: MonitoredMetric)
    ensures var need := Needed(c, ms, declared);
      (id in need && need[id] == def) <==> id !in declared && exists i :: DefinedLast(c, ms, i, id, def)
  {
    hide Names, Defines, DefinedLast, OwnNeeds;
    if id in declared {
      NeededCovers(c, ms, declared);
    } else if ms == [] {
      NoneDefined(c, id, def);
    } else {
      var init, m := ms[..|ms| - 1], ms[|ms| - 1];
      assert ms == init + [m];
      NeededWrittenOut(c, init, declared, id, def);
      OwnNeedsExact(c, m, declared, Needed(c, init, declared), id, def);
      if Defines(c, m, id, def) { DefinesNames(c, m, id, def); }
      forall i ensures DefinedLast(c, ms, i, id, def) <==>
        if Names(c, m, id) then i == |init| && Defines(c, m, id, def) else DefinedLast(c, init, i, id, def)
      {
        DefinedLastStep(c, init, m, i, id, def);
      }
      if Names(c, m, id) && Defines(c, m, id, def) { assert DefinedLast(c, ms, |init|, id, def); }
    }
  }

  lemma NoneDefined(c: Collector, id: string, def: MonitoredMetric)
    ensures forall i :: !DefinedLast(c, [], i, id, def)
  {}

  lemma DefinesNames(c: Collector, m: MetricHeader, id: string, def: MonitoredMetric)
    requires Defines(c, m, id, def)
    ensures Names(c, m, id)
  {
    hide HasToken, Template, ConfigOf, Expand, DefinedWithTags;
    if HasToken(TemplateFor(c, m)) {
      var i :| LastNamed(TemplateFor(c, m), m.data, i, id);
      assert m.data[i] in m.data;
    }
  }

  /* Which definitions are sent, and when they are declared. */

  /** The step sends this definition. */
  ghost predicate Sends(s: State, s': State, id: string, def: MonitoredMetric) {
    && |s'.defined| == |s.defined| + 1 && s'.defined[..|s.defined|] == s.defined
    && id in s'.defined[|s.defined|] && s'.defined[|s.defined|][id] == def
  }

  ghost predicate SendsFor(s: State, s': State, id: string) {
    exists def :: Sends(s, s', id, def)
  }

  /** A tick sends the definitions it needs, except those of IDs in its batch that the tracker does not hold; it
      declares what it sends if the request for details succeeded, and otherwise nothing. */
  lemma TickSends(c: Collector, max: int, s: State, ms: seq<MetricHeader>, detailsOk: bool,
                  id: string, def: MonitoredMetric)
    ensures var s', need := TickSpec(c, max, s, ms, detailsOk), Needed(c, ms, s.declared);
      && (Sends(s, s', id, def) <==>
            && id in need && need[id] == def
            && (id in Ids(Batch(c, ms)) ==> id in T.MetricsOf(s'.tracked, c.id)))
      && ((id in s'.declared && s'.declared[id] == def) <==>
            (detailsOk && Sends(s, s', id, def)) || (id in s.declared && s.declared[id] == def))
      && (s'.defined == s.defined || s'.defined[|s'.defined| - 1] != map[])
  {
    hide Batch, Needed, T.AddSpec, T.MetricsOf, T.Missing, Ids, Without;
    var s', batch, need := TickSpec(c, max, s, ms, detailsOk), Batch(c, ms), Needed(c, ms, s.declared);
    var held := T.MetricsOf(s'.tracked, c.id);
    MissingIds(batch, held);
    NeededCovers(c, ms, s.declared);
    var defs := need - Ids(T.Missing(batch, held));
    assert s'.defined == if defs != map[] then s.defined + [defs] else s.defined;
    assert s'.declared == if defs != map[] && detailsOk then s.declared + defs else s.declared;
    SendsExactly(s, s', defs, id, def);
  }

  lemma SendsExactly(s: State, s': State, defs: Definitions, id: string, def: MonitoredMetric)
    requires s'.defined == if defs != map[] then s.defined + [defs] else s.defined
    ensures Sends(s, s', id, def) <==> id in defs && defs[id] == def
    ensures s'.defined == s.defined || s'.defined[|s'.defined| - 1] != map[]
  {
    if id in defs {
      assert s'.defined[..|s.defined|] == s.defined && s'.defined[|s.defined|] == defs;
    }
  }

  /** The collector's state before step `i` of a run that starts with nothing declared. */
  ghost function Before(c: Collector, max: int, tracked: T.Tracked, es: seq<Event>, i: nat): State
    requires i <= |es|
  {
    Run(c, max, State(tracked, map[], [], []), es[..i])
  }

  lemma BeforeNext(c: Collector, max: int, tracked: T.Tracked, es: seq<Event>, i: nat)
    requires i < |es|
    ensures Before(c, max, tracked, es, i + 1) == Step(c, max, Before(c, max, tracked, es, i), es[i])
  {
    hide Step;
    assert es[..i + 1][..i] == es[..i];
  }

  ghost predicate SentAt(c: Collector, max: int, tracked: T.Tracked, es: seq<Event>, i: nat, id: string)
    requires i < |es|
  {
    SendsFor(Before(c, max, tracked, es, i), Before(c, max, tracked, es, i + 1), id)
  }

  /** In every run an ID is declared if and only if some tick whose request for details succeeded sent a
      definition for it. */
  lemma {:induction false} EveryRunDeclares(c: Collector, max: int, tracked: T.Tracked, es: seq<Event>,
                                            n: nat, id: string)
    requires n <= |es|
    ensures id in Before(c, max, tracked, es, n).declared
       <==> exists i :: 0 <= i < n && SentAt(c, max, tracked, es, i, id) && es[i].Ticked? && es[i].detailsOk
  {
    hide Step, Run;
    if n == 0 {
      StartDeclaresNothing(c, max, tracked, es);
    } else {
      EveryRunDeclares(c, max, tracked, es, n - 1, id);
      BeforeNext(c, max, tracked, es, n - 1);
      StepDeclares(c, max, Before(c, max, tracked, es, n - 1), es[n - 1], id);
    }
  }

  lemma StartDeclaresNothing(c: Collector, max: int, tracked: T.Tracked, es: seq<Event>)
    ensures Before(c, max, tracked, es, 0).declared == map[]
  {
    assert es[..0] == [];
  }

  lemma StepDeclares(c: Collector, max: int, s: State, e: Event, id: string)
    ensures var s' := Step(c, max, s, e);
      id in s'.declared <==> id in s.declared || (SendsFor(s, s', id) && e.Ticked? && e.detailsOk)
  {
    hide TickSpec, Sends;
    if e.Ticked? {
      var ms, ok, s' := e.collected, e.detailsOk, Step(c, max, s, e);
      if id in s.declared { TickSends(c, max, s, ms, ok, id, s.declared[id]); }
      if id in s'.declared { TickSends(c, max, s, ms, ok, id, s'.declared[id]); }
      if SendsFor(s, s', id) {
        var def :| Sends(s, s', id, def);
        TickSends(c, max, s, ms, ok, id, def);
      }
    }
  }

  /** In every run a tick sends a definition for an ID of its batch if and only if the tracker holds the ID after
      it, and no earlier tick whose request for details succeeded has sent one. So an ID defined without details
      is defined again by every later tick with it until a request succeeds. */
  lemma EveryRunSends(c: Collector, max: int, tracked: T.Tracked, es: seq<Event>, n: nat, id: string)
    requires n < |es| && es[n].Ticked? && id in Ids(Batch(c, es[n].collected))
    ensures SentAt(c, max, tracked, es, n, id)
       <==> && id in T.MetricsOf(Before(c, max, tracked, es, n + 1).tracked, c.id)
            && forall i :: 0 <= i < n && es[i].Ticked? && es[i].detailsOk ==> !SentAt(c, max, tracked, es, i, id)
  {
    hide TickSpec, Before, Batch, Needed, T.MetricsOf, Sends;
    var s, ms := Before(c, max, tracked, es, n), es[n].collected;
    EveryRunDeclares(c, max, tracked, es, n, id);
    BeforeNext(c, max, tracked, es, n);
    NeededCovers(c, ms, s.declared);
    var need := Needed(c, ms, s.declared);
    if id in need { TickSends(c, max, s, ms, es[n].detailsOk, id, need[id]); }
    if SentAt(c, max, tracked, es, n, id) {
      var def :| Sends(s, Before(c, max, tracked, es, n + 1), id, def);
      TickSends(c, max, s, ms, es[n].detailsOk, id, def);
    }
  }

  /** In particular an ID defined by a tick whose request failed is defined again by the next tick with it. */
  lemma SentAgain(c: Collector, max: int, tracked: T.Tracked, es: seq<Event>, m: nat, n: nat, id: string)
    requires m < n < |es| && es[m].Ticked? && es[n].Ticked? && id != ""
    requires forall i :: 0 <= i < |es| ==> Foreign(c, es[i])
    requires SentAt(c, max, tracked, es, m, id) && !es[m].detailsOk
    requires id in Ids(Batch(c, es[m].collected)) && id in Ids(Batch(c, es[n].collected))
    requires forall i :: m < i < n && es[i].Ticked? ==> id !in Ids(Batch(c, es[i].collected))
    ensures SentAt(c, max, tracked, es, n, id)
  {
    hide Run, Batch, SentAt, Foreign, T.MetricsOf, Ids;
    EveryRunSends(c, max, tracked, es, m, id);
    HeldOn(c, max, tracked, es, m + 1, n + 1);
    forall i | 0 <= i < n && es[i].Ticked? && es[i].detailsOk ensures !SentAt(c, max, tracked, es, i, id) {
      if i > m { OnlyOwnSent(c, max, tracked, es, i, id); }
    }
    EveryRunSends(c, max, tracked, es, n, id);
  }

  lemma HeldOn(c: Collector, max: int, tracked: T.Tracked, es: seq<Event>, m: nat, n: nat)
    requires m <= n <= |es| && forall i :: 0 <= i < |es| ==> Foreign(c, es[i])
    ensures T.MetricsOf(Before(c, max, tracked, es, m).tracked, c.id)
         <= T.MetricsOf(Before(c, max, tracked, es, n).tracked, c.id)
    decreases n
  {
    hide Step, Run, Foreign, T.MetricsOf;
    if m < n {
      HeldOn(c, max, tracked, es, m, n - 1);
      BeforeNext(c, max, tracked, es, n - 1);
      StepGrows(c, max, Before(c, max, tracked, es, n - 1), es[n - 1]);
    }
  }

  /** A tick sends no definition for a non-empty ID outside its batch. */
  lemma OnlyOwnSent(c: Collector, max: int, tracked: T.Tracked, es: seq<Event>, i: nat, id: string)
    requires i < |es| && es[i].Ticked? && id != "" && id !in Ids(Batch(c, es[i].collected))
    ensures !SentAt(c, max, tracked, es, i, id)
  {
    hide Run, Batch, Sends, Needed, T.MetricsOf, Ids, TickSpec;
    var s := Before(c, max, tracked, es, i);
    BeforeNext(c, max, tracked, es, i);
    NeededExact(c, es[i].collected, s.declared);
    if SentAt(c, max, tracked, es, i, id) {
      var def :| Sends(s, Before(c, max, tracked, es, i + 1), id, def);
      TickSends(c, max, s, es[i].collected, es[i].detailsOk, id, def);
    }
  }

  /* The lookup by name. */

  ghost predicate LastWithName(metrics: seq<MonitoredMetric>, i: int, name: string) {
    0 <= i < |metrics| && metrics[i].name == name && forall j :: i < j < |metrics| ==> metrics[j].name != name
  }

  lemma LastWithNameStep(init: seq<MonitoredMetric>, last: MonitoredMetric, i: int, name: string)
    ensures LastWithName(init + [last], i, name)
       <==> if last.name == name then i == |init| else LastWithName(init, i, name)
  {
    var metrics := init + [last];
    assert metrics[|init|] == last && forall j :: 0 <= j < |init| ==> metrics[j] == init[j];
  }

  /** A name is looked up if and only if a metric has it, and then the last such metric is found. */
  lemma {:induction false} ByNameIsLast(metrics: seq<MonitoredMetric>, name: string, mm: MonitoredMetric)
    ensures (name in ByName(metrics) && ByName(metrics)[name] == mm)
       <==> exists i :: LastWithName(metrics, i, name) && metrics[i] == mm
  {
    if metrics != [] {
      var init, last := metrics[..|metrics| - 1], metrics[|metrics| - 1];
      ByNameIsLast(init, name, mm);
      assert metrics == init + [last];
      forall i ensures LastWithName(metrics, i, name)
        <==> if last.name == name then i == |init| else LastWithName(init, i, name)
      {
        LastWithNameStep(init, last, i, name);
      }
      assert forall i :: LastWithName(init, i, name) ==> metrics[i] == init[i];
    }
  }

  /** An endpoint that lists no metrics, and only such a one, is asked for all. */
  lemma AskedForAll(metrics: seq<MonitoredMetric>)
    ensures ByName(metrics) == map[] <==> metrics == []
  {
    if metrics != [] { assert metrics[|metrics| - 1].name in ByName(metrics); }
  }
}
