/** What a tick, and any run of ticks, guarantees. */
module CollectionLaws {
  import opened Text
  import opened Expansion
  import opened Series
  import opened CollectionSpec

  /* Metric names in a config map that two pods share. */

  /** The second pod consults its environment only for the tokens that the first one kept. */
  function FirstThenSecond(first: Env, second: Env): string -> string {
    n => if PodPhase(first)(n) == "${" + n + "}" then PodPhase(second)(n) else PodPhase(first)(n)
  }

  /** The second pod finds the names already expanded for the first. */
  lemma SharedNamesFirstPodWins(name: string, first: Env, second: Env)
    requires forall n :: n in Names(name) ==> SettledAfterPod(first, n)
    ensures Expand(Expand(name, PodPhase(first)), PodPhase(second)) == Expand(name, FirstThenSecond(first, second))
  {
    ExpandTwice(name, PodPhase(first), PodPhase(second), FirstThenSecond(first, second));
  }

  lemma HarmlessSharedToken(first: Env, second: Env, n: string)
    requires n != "$" && DefaultHarmless(first, second, n)
    requires forall k :: k in first ==> '$' !in first[k]
    ensures SettledAfterPod(first, n) && FirstThenSecond(first, second)(n) == PodPhase(second + first)(n)
  {
    hide SplitN;
    var token := "${" + n + "}";
    assert token[0] == '$';
    var x, one := TokenKey(n), PodPhase(second + first)(n);
    if !HasDefault(n) { NoDefaultKey(n); }
    if x in first {
      assert one == first[x] == PodPhase(first)(n);
    } else if HasDefault(n) {
      assert '$' in token;
      assert PodPhase(first)(n) == TokenDefault(n) == one;
    } else {
      assert PodPhase(first)(n) == token && PodPhase(second)(n) == one;
    }
  }

  /** The first pod's environment thus takes precedence over the second pod's own. */
  lemma SharedNamePrecedence(name: string, first: Env, second: Env)
    requires forall n :: n in Names(name) ==> n != "$" && DefaultHarmless(first, second, n)
    requires forall k :: k in first ==> '$' !in first[k]
    ensures Expand(Expand(name, PodPhase(first)), PodPhase(second)) == Expand(name, PodPhase(second + first))
  {
    hide Expand, Names, DefaultHarmless, SettledAfterPod;
    forall n | n in Names(name)
      ensures SettledAfterPod(first, n) && FirstThenSecond(first, second)(n) == PodPhase(second + first)(n)
    {
      HarmlessSharedToken(first, second, n);
    }
    SharedNamesFirstPodWins(name, first, second);
    ExpandCongruent(name, FirstThenSecond(first, second), PodPhase(second + first));
  }

  /** The second pod would get the same value for a token that the first one sets. */
  predicate SetAlike(first: Env, second: Env, n: string) {
    var x := TokenKey(n);
    x in first ==> if x in second then second[x] == first[x] else HasDefault(n) && TokenDefault(n) == first[x]
  }

  lemma AlikeToken(first: Env, second: Env, n: string)
    requires n != "$" && SetAlike(first, second, n)
    ensures PodPhase(second + first)(n) == PodPhase(second)(n)
  {
    hide SplitN;
    if !HasDefault(n) { NoDefaultKey(n); }
  }

  /** A name with any tokens is the second pod's own if all that the first pod sets is set alike. */
  lemma SharedNameIsOwnIfAlike(name: string, first: Env, second: Env)
    requires forall n :: n in Names(name) ==>
      n != "$" && DefaultHarmless(first, second, n) && SetAlike(first, second, n)
    requires forall k :: k in first ==> '$' !in first[k]
    ensures Expand(Expand(name, PodPhase(first)), PodPhase(second)) == Expand(name, PodPhase(second))
  {
    hide Expand, Names, DefaultHarmless, SetAlike;
    forall n | n in Names(name) ensures PodPhase(second + first)(n) == PodPhase(second)(n) {
      AlikeToken(first, second, n);
    }
    SharedNamePrecedence(name, first, second);
    ExpandCongruent(name, PodPhase(second + first), PodPhase(second));
  }

  /** What a pod makes of ${x=d}. */
  function ValueOr(env: Env, x: string, d: string): string {
    if x in env then env[x] else d
  }

  /** For a name with one token that has a default this is exact: it is the second pod's own if and
      only if both pods make the same of the token. */
  lemma SharedDefaultIsOwn(a: string, x: string, d: string, b: string, first: Env, second: Env)
    requires '$' !in a && '$' !in b && '$' !in d && '}' !in d && PlainKey(x)
    requires forall k :: k in first ==> '$' !in first[k]
    ensures var name := a + ("${" + (x + "=" + d) + "}" + b);
      Expand(Expand(name, PodPhase(first)), PodPhase(second)) == Expand(name, PodPhase(second))
      <==> ValueOr(first, x, d) == ValueOr(second, x, d)
  {
    hide Expand, MapName;
    var token := x + "=" + d;
    MapDefault(Config(first, map[], true), x, d);
    MapDefault(Config(second, map[], true), x, d);
    assert '$' !in ValueOr(first, x, d) && '}' !in token;
    ExpandOneToken(a, token, b, PodPhase(first));
    ExpandOneToken(a, token, b, PodPhase(second));
    ExpandPlain(a + ValueOr(first, x, d) + b, PodPhase(second));
    SurroundedEqual(a, ValueOr(first, x, d), ValueOr(second, x, d), b);
  }

  /** For a name with one token and no default: if and only if the first pod does not set the token, or
      sets it to the second pod's value. */
  lemma SharedNameIsOwn(a: string, token: string, b: string, first: Env, second: Env)
    requires '$' !in a && '$' !in b && PlainKey(token)
    requires forall k :: k in first ==> '$' !in first[k]
    ensures var name := a + ("${" + token + "}" + b);
      Expand(Expand(name, PodPhase(first)), PodPhase(second)) == Expand(name, PodPhase(second))
      <==> (token in first ==> token in second && first[token] == second[token])
  {
    hide Expand, Names, SplitN;
    var name, both := a + ("${" + token + "}" + b), second + first;
    ExpandOneToken(a, token, b, PodPhase(second));
    ExpandOneToken(a, token, b, PodPhase(both));
    NamesOfOneToken(a, token, b);
    PlainToken(token);
    SharedNamePrecedence(name, first, second);
    SurroundedEqual(a, PodPhase(both)(token), PodPhase(second)(token), b);
    assert ("${" + token + "}")[0] == '$';
  }

  lemma PlainToken(token: string)
    requires PlainKey(token)
    ensures token != "$" && !HasDefault(token) && TokenKey(token) == token
  {
    assert "$"[0] in "$";
    NoDefault(token);
  }

  /** Two pods with different values: the second one monitors the first one's name. */
  lemma SharedNameExample()
    ensures var name := "web_" + ("${" + "POD:name" + "}" + "");
      var first, second := map["POD:name" := "a"], map["POD:name" := "b"];
      && Expand(Expand(name, PodPhase(first)), PodPhase(second)) == "web_" + "a" + ""
      && Expand(name, PodPhase(second)) == "web_" + "b" + ""
  {
    hide Expand, SplitN;
    var name := "web_" + ("${" + "POD:name" + "}" + "");
    var first, second := map["POD:name" := "a"], map["POD:name" := "b"];
    PlainToken("POD:name");
    NoDefaultKey("POD:name");
    ExpandOneToken("web_", "POD:name", "", PodPhase(first));
    ExpandOneToken("web_", "POD:name", "", PodPhase(second));
    ExpandPlain("web_" + "a" + "", PodPhase(second));
  }

  lemma {:induction false} NamesOfOneToken(a: string, token: string, b: string)
    requires '$' !in a && '$' !in b && '}' !in token
    ensures Names(a + ("${" + token + "}" + b)) == {token}
  {
    var s := "${" + token + "}" + b;
    if a == "" {
      NamesOfToken(token, b);
      NamesOfPlain(b);
      assert a + s == s;
    } else {
      NamesOfOneToken(a[1..], token, b);
      assert (a + s)[1..] == a[1..] + s;
      assert (a + s)[0] == a[0];
    }
  }

  lemma NamesOfToken(token: string, b: string)
    requires '}' !in token
    ensures Names("${" + token + "}" + b) == {token} + Names(b)
  {
    var s := "${" + token + "}" + b;
    var t := s[1..];
    assert t == ("{" + token) + "}" + b;
    SepFreeChar("{" + token, '}');
    IndexOfSeparator("{" + token, "}", b);
    assert t[1..|token| + 1] == token;
    assert s[1 + (|token| + 2)..] == b;
  }

  lemma {:induction false} NamesOfPlain(b: string)
    requires '$' !in b
    ensures Names(b) == {}
  {
    if b != "" { NamesOfPlain(b[1..]); }
  }

  /* One tick: the stored batch. */

  /** The metrics of `ms` whose ID is in `ids`, in order. */
  function Within(ms: seq<MetricHeader>, ids: set<string>): seq<MetricHeader> {
    if ms == [] then []
    else Within(ms[..|ms| - 1], ids) + (if ms[|ms| - 1].id in ids then [ms[|ms| - 1]] else [])
  }

  lemma {:induction false} MissingIds(ms: seq<MetricHeader>, ids: set<string>)
    ensures Ids(T.Missing(ms, ids)) == Ids(ms) - ids
  {
    if ms == [] {
    } else {
      MissingIds(ms[1..], ids);
      assert ms == [ms[0]] + ms[1..];
      assert Ids(ms) == {ms[0].id} + Ids(ms[1..]);
      var rest := T.Missing(ms[1..], ids);
      assert ms[0].id !in ids ==> Ids([ms[0]] + rest) == {ms[0].id} + Ids(rest);
      assert [] + rest == rest;
    }
  }

  lemma {:induction false} WithoutIsWithin(ms: seq<MetricHeader>, doomed: set<string>, ids: set<string>)
    requires doomed == Ids(ms) - ids || (doomed !! ids && Ids(ms) <= doomed + ids)
    ensures Without(ms, doomed) == Within(ms, ids)
  {
    if ms != [] {
      assert ms[|ms| - 1] in ms;
      assert forall m :: m in ms[..|ms| - 1] ==> m in ms;
      WithoutIsWithin(ms[..|ms| - 1], doomed, ids);
    }
  }

  /** A tick stores exactly the part of its batch that the tracker holds after the tick. */
  lemma TickStoresTracked(c: Collector, max: int, s: State, ms: seq<MetricHeader>, detailsOk: bool)
    ensures var s' := TickSpec(c, max, s, ms, detailsOk);
      s'.stored == s.stored + [Within(Batch(c, ms), T.MetricsOf(s'.tracked, c.id))]
  {
    var batch := Batch(c, ms);
    var held := T.MetricsOf(T.AddSpec(s.tracked, max, c.id, batch), c.id);
    MissingIds(batch, held);
    WithoutIsWithin(batch, Ids(T.Missing(batch, held)), held);
  }

  /* One tick: no datapoint is lost or invented. */

  /** One sample of one time series. */
  datatype Sample = Sample(tenant: string, mtype: string, id: string, timestamp: int, value: Float)

  function SamplesOf(m: MetricHeader, data: seq<Datapoint>): multiset<Sample> {
    if data == [] then multiset{}
    else SamplesOf(m, data[..|data| - 1])
         + multiset{Sample(m.tenant, m.mtype, m.id, data[|data| - 1].timestamp, data[|data| - 1].value)}
  }

  function Samples(ms: seq<MetricHeader>): multiset<Sample> {
    if ms == [] then multiset{}
    else Samples(ms[..|ms| - 1]) + SamplesOf(ms[|ms| - 1], ms[|ms| - 1].data)
  }

  /** The series a datapoint belongs to. */
  ghost function SeriesId(template: string, d: Datapoint): string {
    if HasToken(template) then Expand(template, TagPhase(d.tags)) else template
  }

  ghost function DueOf(m: MetricHeader, template: string, data: seq<Datapoint>): multiset<Sample> {
    if data == [] then multiset{}
    else
      var d := data[|data| - 1];
      DueOf(m, template, data[..|data| - 1])
        + multiset{Sample(m.tenant, m.mtype, SeriesId(template, d), d.timestamp, d.value)}
  }

  /** A metric whose whole ID expands to the empty string has no series. */
  ghost function OwnDue(c: Collector, m: MetricHeader): multiset<Sample> {
    match Expected(c, m)
    case None => multiset{}
    case Some(mm) =>
      var t := Template(c, mm, m.data);
      if t == "" then multiset{} else DueOf(m, t, m.data)
  }

  /** Every datapoint of every expected metric, under its series. */
  ghost function Due(c: Collector, ms: seq<MetricHeader>): multiset<Sample> {
    if ms == [] then multiset{} else Due(c, ms[..|ms| - 1]) + OwnDue(c, ms[|ms| - 1])
  }

  lemma {:induction false} SamplesConcat(a: seq<MetricHeader>, b: seq<MetricHeader>)
    ensures Samples(a + b) == Samples(a) + Samples(b)
  {
    if b == [] {
      assert a + b == a;
    } else {
      assert (a + b)[..|a + b| - 1] == a + b[..|b| - 1];
      SamplesConcat(a, b[..|b| - 1]);
    }
  }

  lemma {:induction false} SamplesOfParts(m: MetricHeader, t: string, data: seq<Datapoint>)
    requires HasToken(t)
    ensures Samples(PartsOf(m, t, data)) == DueOf(m, t, data)
  {
    if data != [] {
      hide Expand, HasToken;
      var d := data[|data| - 1];
      SamplesOfParts(m, t, data[..|data| - 1]);
      var part := PartOf(m, t, d);
      var init := PartsOf(m, t, data[..|data| - 1]);
      assert (init + [part])[..|init|] == init;
      assert part.data[..0] == [];
      assert SamplesOf(part, part.data) == multiset{Sample(m.tenant, m.mtype, part.id, d.timestamp, d.value)};
    }
  }

  lemma {:induction false} SamplesOfWhole(m: MetricHeader, t: string, data: seq<Datapoint>)
    requires !HasToken(t)
    ensures SamplesOf(m.(id := t), data) == DueOf(m, t, data)
  {
    if data != [] {
      SamplesOfWhole(m, t, data[..|data| - 1]);
    }
  }

  lemma EmptyHasNoToken()
    ensures !HasToken("")
  {}

  lemma OwnSamples(c: Collector, m: MetricHeader)
    ensures Samples(OwnWhole(c, m)) + Samples(OwnParts(c, m)) == OwnDue(c, m)
  {
    hide HasToken, Template, PartsOf, DueOf;
    EmptyHasNoToken();
    var e := Expected(c, m);
    if e.Some? {
      var t := Template(c, e.value, m.data);
      if HasToken(t) {
        SamplesOfParts(m, t, m.data);
      } else {
        SamplesOfWhole(m, t, m.data);
        assert [m.(id := t)][..0] == [];
      }
    }
  }

  lemma SamplesStep(c: Collector, init: seq<MetricHeader>, m: MetricHeader)
    ensures Samples(Wholes(c, init + [m])) == Samples(Wholes(c, init)) + Samples(OwnWhole(c, m))
    ensures Samples(AllParts(c, init + [m])) == Samples(AllParts(c, init)) + Samples(OwnParts(c, m))
  {
    hide OwnWhole, OwnParts, Samples;
    assert (init + [m])[..|init|] == init;
    SamplesConcat(Wholes(c, init), OwnWhole(c, m));
    SamplesConcat(AllParts(c, init), OwnParts(c, m));
  }

  lemma NoSamples(c: Collector)
    ensures Samples(Wholes(c, [])) + Samples(AllParts(c, [])) == Due(c, [])
  {}

  lemma {:induction false} PartsConserve(c: Collector, ms: seq<MetricHeader>)
    ensures Samples(Wholes(c, ms)) + Samples(AllParts(c, ms)) == Due(c, ms)
  {
    hide Samples, Wholes, AllParts, OwnDue;
    if ms == [] {
      NoSamples(c);
    } else {
      var init, m := ms[..|ms| - 1], ms[|ms| - 1];
      assert ms == init + [m];
      PartsConserve(c, init);
      SamplesStep(c, init, m);
      OwnSamples(c, m);
    }
  }

  /** Splitting and compaction conserve datapoints: before the limit is applied, the batch
      holds every due sample exactly as often as it was collected. */
  lemma BatchConserves(c: Collector, ms: seq<MetricHeader>)
    ensures Samples(Batch(c, ms)) == Due(c, ms)
  {
    hide Samples, Wholes, AllParts, Due;
    SamplesConcat(Wholes(c, ms), AllParts(c, ms));
    PartsConserve(c, ms);
  }

  /* One tick: which series a datapoint lands in. */

  /** The series keys of a metric, and what makes a datapoint's values unambiguous for them. */
  ghost function SeriesKeys(data: seq<Datapoint>): (keys: seq<string>)
    ensures forall k :: k in keys <==> k in TagKeys(data)
  {
    SortedKeys(TagKeys(data))
  }

  /** Metrics without tokens in their ID: two datapoints with unambiguous values share a series
      exactly when their tags agree, a missing tag counting as empty. */
  lemma LabelsSeparateSeries(c: Collector, mm: MonitoredMetric, data: seq<Datapoint>, a: Datapoint, b: Datapoint)
    requires a in data && b in data && '$' !in BaseId(c, mm)
    requires forall k :: k in TagKeys(data) ==> PlainKey(k)
    requires Unambiguous(SeriesKeys(data), a.tags) && Unambiguous(SeriesKeys(data), b.tags)
    ensures var t := Template(c, mm, data);
      SeriesId(t, a) == SeriesId(t, b)
      <==> forall k :: k in a.tags.Keys + b.tags.Keys ==> TagValue(a.tags, k) == TagValue(b.tags, k)
  {
    hide Expand, BaseId, SortedKeys, Unambiguous;
    var base, keys := BaseId(c, mm), SeriesKeys(data);
    NoTokenWithoutDollar(base);
    assert forall k :: k in a.tags || k in b.tags ==> k in keys;
    if TagKeys(data) != {} {
      var k0 :| k0 in TagKeys(data);
      assert k0 in keys;
      KeysPlain(data);
      DefaultTemplateHasToken(base, keys);
      DefaultIdSeparates(base, keys, a.tags, b.tags);
      assert forall k :: k in keys && k !in a.tags && k !in b.tags ==> TagValue(a.tags, k) == TagValue(b.tags, k);
    }
  }

  lemma KeysPlain(data: seq<Datapoint>)
    requires forall k :: k in TagKeys(data) ==> PlainKey(k)
    ensures forall i :: 0 <= i < |SeriesKeys(data)| ==> PlainKey(SeriesKeys(data)[i])
  {
    forall i | 0 <= i < |SeriesKeys(data)| ensures PlainKey(SeriesKeys(data)[i]) {
      assert SeriesKeys(data)[i] in SeriesKeys(data);
    }
  }

  /** Conversely, a datapoint whose i-th value goes on to the next key shares its series with a
      datapoint of other tags that the same metric can report beside it. */
  lemma AmbiguousLabelsMerge(c: Collector, mm: MonitoredMetric, data: seq<Datapoint>, a: Datapoint, i: nat)
    returns (b: Datapoint)
    requires a in data && '$' !in BaseId(c, mm)
    requires forall k :: k in TagKeys(data) ==> PlainKey(k)
    requires var keys := SeriesKeys(data);
      i < |keys| - 1 && Contains(TagValue(a.tags, keys[i]), Divider(keys[i + 1]))
    ensures var both := data + [b]; var t := Template(c, mm, both);
      && SeriesKeys(both) == SeriesKeys(data)
      && SeriesId(t, a) == SeriesId(t, b)
      && TagValue(a.tags, SeriesKeys(data)[i]) != TagValue(b.tags, SeriesKeys(data)[i])
  {
    hide Expand, BaseId, SortedKeys, Contains, Shifted;
    var base, keys := BaseId(c, mm), SeriesKeys(data);
    b := a.(tags := Shifted(keys, a.tags, i));
    ShiftedKeys(keys, a.tags, i);
    SameTagKeys(data, a, b);
    NoTokenWithoutDollar(base);
    KeysPlain(data);
    KeysDistinct(data);
    DefaultTemplateHasToken(base, keys);
    AmbiguousMerges(base, keys, a.tags, i);
  }

  lemma ShiftedKeys(keys: seq<string>, tags: Env, i: nat)
    requires i < |keys| - 1 && Contains(TagValue(tags, keys[i]), Divider(keys[i + 1]))
    ensures Shifted(keys, tags, i).Keys == tags.Keys + {keys[i], keys[i + 1]}
  {
    hide Index;
  }

  lemma SameTagKeys(data: seq<Datapoint>, a: Datapoint, b: Datapoint)
    requires a in data && b.tags.Keys <= a.tags.Keys + TagKeys(data)
    ensures TagKeys(data + [b]) == TagKeys(data)
  {
    assert forall d :: d in data + [b] <==> d in data || d == b;
  }

  lemma KeysDistinct(data: seq<Datapoint>)
    ensures forall i, j :: 0 <= i < j < |SeriesKeys(data)| ==> SeriesKeys(data)[i] != SeriesKeys(data)[j]
  {
    SortedKeysDistinct(TagKeys(data));
  }

  /* Several collections of one metric: its keys are collected anew in each. */

  lemma SeriesOfLabels(c: Collector, mm: MonitoredMetric, data: seq<Datapoint>, d: Datapoint)
    requires '$' !in BaseId(c, mm) && forall k :: k in TagKeys(data) ==> PlainKey(k)
    ensures TagKeys(data) == {} <==> SeriesKeys(data) == []
    ensures SeriesId(Template(c, mm, data), d)
         == if TagKeys(data) == {} then BaseId(c, mm)
            else Expand(DefaultTemplate(BaseId(c, mm), SeriesKeys(data)), TagPhase(d.tags))
  {
    hide Expand, BaseId, SortedKeys;
    NoTokenWithoutDollar(BaseId(c, mm));
    if SeriesKeys(data) != [] {
      assert SeriesKeys(data)[0] in SeriesKeys(data);
      DefaultTemplateHasToken(BaseId(c, mm), SeriesKeys(data));
    }
    if TagKeys(data) != {} {
      var k :| k in TagKeys(data);
      assert k in SeriesKeys(data);
    }
  }

  /** A series with labels is none without. */
  lemma LabelsShow(base: string, keys: seq<string>, tags: Env)
    requires '$' !in base && keys != [] && forall i :: 0 <= i < |keys| ==> PlainKey(keys[i])
    ensures Expand(DefaultTemplate(base, keys), TagPhase(tags)) != base
  {
    hide Expand, Join;
    DefaultIdForm(base, keys, tags);
    assert |base + "{" + Join(Pairs(keys, tags), ",") + "}"| > |base|;
  }

  lemma KeysAgree(data: seq<Datapoint>, other: seq<Datapoint>)
    ensures SeriesKeys(data) == SeriesKeys(other) <==> TagKeys(data) == TagKeys(other)
  {
    hide TagKeys;
    if SeriesKeys(data) == SeriesKeys(other) {
      assert forall k :: k in TagKeys(data) <==> k in SeriesKeys(data);
      assert forall k :: k in TagKeys(other) <==> k in SeriesKeys(data);
    }
  }

  /** One label combination keeps its series exactly as long as the metric's datapoints have the same
      keys between them. */
  lemma SameLabelsAcross(c: Collector, mm: MonitoredMetric, data: seq<Datapoint>, other: seq<Datapoint>, d: Datapoint)
    requires '$' !in BaseId(c, mm) && forall k :: k in TagKeys(data) + TagKeys(other) ==> PlainKey(k)
    ensures SeriesId(Template(c, mm, data), d) == SeriesId(Template(c, mm, other), d)
      <==> TagKeys(data) == TagKeys(other)
  {
    hide Expand, BaseId, SeriesKeys, TagKeys, SeriesId, Template;
    SeriesOfLabels(c, mm, data, d);
    SeriesOfLabels(c, mm, other, d);
    KeysAgree(data, other);
    KeysPlain(data);
    KeysPlain(other);
    var base, ks, ls := BaseId(c, mm), SeriesKeys(data), SeriesKeys(other);
    if ks != [] { LabelsShow(base, ks, d.tags); }
    if ls != [] { LabelsShow(base, ls, d.tags); }
    if ks != [] && ls != [] { SameTagsSeries(base, ks, ls, d.tags); }
  }

  lemma KeysAreLabels(data: seq<Datapoint>)
    requires forall k :: k in TagKeys(data) ==> LabelKey(k)
    ensures LabelKeys(SeriesKeys(data))
  {
    hide LabelKey, StrLe, TagKeys, SortedKeys;
    KeysDistinct(data);
    SortedKeysSorted(TagKeys(data));
    var keys := SeriesKeys(data);
    forall i | 0 <= i < |keys| ensures LabelKey(keys[i]) { assert keys[i] in keys; }
  }

  /** Two datapoints with clean values, in whatever collections of the metric, share a series exactly when
      the collections have the same keys and the tags agree. */
  lemma LabelsSeparateAcross(c: Collector, mm: MonitoredMetric, data: seq<Datapoint>, a: Datapoint,
                             other: seq<Datapoint>, b: Datapoint)
    requires '$' !in BaseId(c, mm)
    requires (forall k :: k in TagKeys(data) ==> LabelKey(k)) && forall k :: k in TagKeys(other) ==> LabelKey(k)
    requires CleanTags(SeriesKeys(data), a.tags) && CleanTags(SeriesKeys(other), b.tags)
    ensures SeriesId(Template(c, mm, data), a) == SeriesId(Template(c, mm, other), b)
       <==> TagKeys(data) == TagKeys(other)
            && forall k :: k in TagKeys(data) ==> TagValue(a.tags, k) == TagValue(b.tags, k)
  {
    hide Expand, BaseId, TagKeys, SeriesId, Template, CleanTags, SortedKeys;
    SeriesOfLabels(c, mm, data, a);
    SeriesOfLabels(c, mm, other, b);
    KeysAgree(data, other);
    KeysAreLabels(data);
    KeysAreLabels(other);
    KeysPlain(data);
    KeysPlain(other);
    var base, ks, ls := BaseId(c, mm), SeriesKeys(data), SeriesKeys(other);
    if ks != [] { LabelsShow(base, ks, a.tags); }
    if ls != [] { LabelsShow(base, ls, b.tags); }
    if ks != [] && ls != [] { CleanSeparates(base, ks, a.tags, ls, b.tags); }
    assert forall k :: k in TagKeys(data) <==> k in ks;
  }

  lemma KeysOfOne(d: Datapoint, keys: seq<string>)
    requires LabelKeys(keys) && d.tags.Keys == (set k | k in keys)
    ensures TagKeys([d]) == d.tags.Keys && SeriesKeys([d]) == keys
  {
    hide StrLe, LabelKey, SortedKeys;
    assert d in [d];
    assert TagKeys([d]) == d.tags.Keys;
    SortedKeysOf(keys);
  }

  /** Conversely, a value that reads as if it went on to a key behind its own shares its series with a
      datapoint of other tags that a collection with that key reports. */
  lemma UncleanLabelsMerge(c: Collector, mm: MonitoredMetric, data: seq<Datapoint>, a: Datapoint, i: nat, l: string)
    returns (b: Datapoint)
    requires '$' !in BaseId(c, mm) && LabelKey(l) && forall k :: k in TagKeys(data) ==> LabelKey(k)
    requires var keys := SeriesKeys(data);
      i < |keys| && Before(keys[i], l) && Contains(TagValue(a.tags, keys[i]), Divider(l))
    ensures SeriesId(Template(c, mm, data), a) == SeriesId(Template(c, mm, [b]), b)
    ensures TagValue(a.tags, SeriesKeys(data)[i]) != TagValue(b.tags, SeriesKeys(data)[i])
    ensures l in b.tags && forall k :: k in b.tags ==> LabelKey(k)
  {
    hide Expand, BaseId, SeriesId, Template, Contains, CutTags, LabelKey, StrLe, SortedKeys, TagValue;
    var base, ks := BaseId(c, mm), SeriesKeys(data);
    var ls := CutKeys(ks, i, l);
    b := a.(tags := CutTags(ks, a.tags, i, l));
    KeysAreLabels(data);
    UncleanMerges(base, ks, a.tags, i, l);
    KeysOfOne(b, ls);
    LabelsArePlain(ls);
    LabelsArePlain(ks);
    PlainTagKeys(data);
    PlainTagKeys([b]);
    SeriesOfLabels(c, mm, data, a);
    SeriesOfLabels(c, mm, [b], b);
    assert ls[i + 1] == l;
    forall k | k in b.tags ensures LabelKey(k) {
      var j :| 0 <= j < |ls| && ls[j] == k;
    }
  }

  lemma LabelsArePlain(keys: seq<string>)
    requires LabelKeys(keys)
    ensures forall i :: 0 <= i < |keys| ==> PlainKey(keys[i])
  {}

  lemma PlainTagKeys(data: seq<Datapoint>)
    requires forall i :: 0 <= i < |SeriesKeys(data)| ==> PlainKey(SeriesKeys(data)[i])
    ensures forall k :: k in TagKeys(data) ==> PlainKey(k)
  {
    hide TagKeys, SortedKeys;
    forall k | k in TagKeys(data) ensures PlainKey(k) {
      var i :| 0 <= i < |SeriesKeys(data)| && SeriesKeys(data)[i] == k;
    }
  }

  lemma ShortListsMerge(c: Collector, mm: MonitoredMetric, k: string, l: string, u: string, w: string, a: Datapoint,
                        b: Datapoint)
    requires '$' !in BaseId(c, mm) && LabelKeys([k]) && LabelKeys([k, l])
    requires a.tags == map[k := u + Divider(l) + w] && b.tags == map[k := u, l := w]
    ensures SeriesId(Template(c, mm, [a]), a) == SeriesId(Template(c, mm, [b]), b)
  {
    hide Expand, BaseId, SeriesId, Template, Divider, DefaultTemplate, StrLe, SortedKeys, TagKeys;
    assert [k][0] == k && [k, l][0] == k && [k, l][1] == l;
    KeysOfOne(a, [k]);
    KeysOfOne(b, [k, l]);
    LabelsArePlain([k]);
    LabelsArePlain([k, l]);
    PlainTagKeys([a]);
    PlainTagKeys([b]);
    SeriesOfLabels(c, mm, [a], a);
    SeriesOfLabels(c, mm, [b], b);
    ShortListMerges(BaseId(c, mm), k, l, u, w);
  }

  /** For example, two collections of the metric m, each with one datapoint: different tags, one series. */
  lemma AcrossExample(c: Collector, mm: MonitoredMetric, v: Float)
    requires BaseId(c, mm) == "m"
    ensures var a := Datapoint(0, v, map["a" := "1" + Divider("b") + "2"]);
      var b := Datapoint(1, v, map["a" := "1", "b" := "2"]);
      SeriesId(Template(c, mm, [a]), a) == SeriesId(Template(c, mm, [b]), b)
  {
    hide BaseId, SeriesId, Template, Divider;
    ExampleKeys();
    var a := Datapoint(0, v, map["a" := "1" + Divider("b") + "2"]);
    ShortListsMerge(c, mm, "a", "b", "1", "2", a, Datapoint(1, v, map["a" := "1", "b" := "2"]));
  }

  lemma ExampleKeys()
    ensures LabelKeys(["a"]) && LabelKeys(["a", "b"])
  {
    assert StrLe("a", "b");
  }

  /** And every new key that another datapoint brings renames the series. */
  lemma NewKeyRenames(c: Collector, mm: MonitoredMetric, data: seq<Datapoint>, d: Datapoint, other: Datapoint,
                      k: string)
    requires '$' !in BaseId(c, mm) && forall l :: l in TagKeys(data) || l in other.tags ==> PlainKey(l)
    requires k in other.tags && k !in TagKeys(data)
    ensures SeriesId(Template(c, mm, data), d) != SeriesId(Template(c, mm, data + [other]), d)
  {
    hide BaseId, SeriesId, Template, PlainKey;
    KeysWith(data, other);
    SameLabelsAcross(c, mm, data, data + [other], d);
  }

  lemma KeysWith(data: seq<Datapoint>, other: Datapoint)
    ensures TagKeys(data + [other]) == TagKeys(data) + other.tags.Keys
  {
    assert forall d :: d in data + [other] <==> d in data || d == other;
  }

  lemma NoTokenWithoutDollar(id: string)
    requires '$' !in id
    ensures !HasToken(id)
  {
    forall k | 0 <= k && k + 2 <= |id| ensures !OccursAt(id, "${", k) {
      assert id[k..k + 2][0] == id[k] != "${"[0];
    }
  }

  lemma DefaultTemplateHasToken(base: string, keys: seq<string>)
    requires keys != []
    ensures HasToken(DefaultTemplate(base, keys))
  {
    var k := keys[0];
    var tokens := Tokens(keys);
    var body := Join(tokens, ",");
    assert tokens[0] == k + "=${" + k + "}" && body[..|tokens[0]|] == tokens[0];
    var t, at := DefaultTemplate(base, keys), |base| + 1 + |k| + 1;
    assert t == base + "{" + body + "}";
    assert t[|base| + 1..|base| + 1 + |tokens[0]|] == tokens[0];
    assert t[at..at + 2] == tokens[0][|k| + 1..|k| + 3] == "${";
    assert OccursAt(t, "${", at);
  }

  /** Metrics with tokens in their ID: the series is the prefix followed by one expansion of
      the configured ID, the pod environment taking precedence over the datapoint's tags. */
  lemma TokensNameSeries(c: Collector, mm: MonitoredMetric, data: seq<Datapoint>, d: Datapoint)
    requires HasToken(BaseId(c, mm))
    requires '$' !in Expand(c.idPrefix, Mapping(Config(c.env, c.osEnv, false)))
    requires forall n :: n in Names(mm.id) ==> n != "$" && DefaultHarmless(c.env, d.tags, n)
    requires forall k :: k in c.env ==> '$' !in c.env[k]
    ensures SeriesId(Template(c, mm, data), d)
         == Expand(c.idPrefix, Mapping(Config(c.env, c.osEnv, false))) + Expand(mm.id, TagPhase(d.tags + c.env))
  {
    hide Expand, HasToken, Names, DefaultHarmless;
    ExpandLiteral(Expand(c.idPrefix, Mapping(Config(c.env, c.osEnv, false))),
                  Expand(mm.id, PodPhase(c.env)), TagPhase(d.tags));
    PhasesFuseToOne(mm.id, c.env, d.tags);
  }

  function Prefix(c: Collector): string {
    Expand(c.idPrefix, Mapping(Config(c.env, c.osEnv, false)))
  }

  lemma SeriesOfTokens(c: Collector, mm: MonitoredMetric, data: seq<Datapoint>, d: Datapoint)
    requires HasToken(BaseId(c, mm)) && '$' !in Prefix(c)
    ensures SeriesId(Template(c, mm, data), d) == Prefix(c) + Expand(Expand(mm.id, PodPhase(c.env)), TagPhase(d.tags))
  {
    hide Expand, HasToken;
    ExpandLiteral(Prefix(c), Expand(mm.id, PodPhase(c.env)), TagPhase(d.tags));
  }

  /** In an ID that keeps a token for the second phase, a default ${x=d} makes no difference to the
      series exactly when the pod sets x, the datapoint has no tag x, or the tag equals the default. */
  lemma DefaultInSeries(c: Collector, mm: MonitoredMetric, data: seq<Datapoint>, d: Datapoint,
                        ps: seq<Piece>, x: string, default: string, b: string)
    requires HasToken(BaseId(c, mm)) && '$' !in Prefix(c)
    requires mm.id == Written(ps) + ("${" + (x + "=" + default) + "}" + b)
    requires WellWritten(ps) && HarmlessPieces(ps, c.env, d.tags)
    requires forall n :: n in Names(b) ==> n != "$" && DefaultHarmless(c.env, d.tags, n)
    requires '$' !in default && '}' !in default && PlainKey(x)
    requires forall k :: k in c.env ==> '$' !in c.env[k]
    ensures SeriesId(Template(c, mm, data), d) == Prefix(c) + Expand(mm.id, TagPhase(d.tags + c.env))
       <==> (x in c.env || x !in d.tags || d.tags[x] == default)
  {
    hide Expand, HasToken, BaseId, SeriesId, Template, Names, WellWritten, HarmlessPieces, DefaultHarmless, Written;
    hide Prefix;
    SeriesOfTokens(c, mm, data, d);
    DefaultExact(ps, x, default, b, c.env, d.tags);
    SamePrefix(Prefix(c), Expand(Expand(mm.id, PodPhase(c.env)), TagPhase(d.tags)),
               Expand(mm.id, TagPhase(d.tags + c.env)));
  }

  /** What the first loop appends to an ID for the second phase: the default list of tags, or nothing. */
  ghost function Suffix(c: Collector, mm: MonitoredMetric, data: seq<Datapoint>): string
    requires |BaseId(c, mm)| <= |Template(c, mm, data)|
  {
    Template(c, mm, data)[|BaseId(c, mm)|..]
  }

  lemma TemplateParts(c: Collector, mm: MonitoredMetric, data: seq<Datapoint>)
    ensures |BaseId(c, mm)| <= |Template(c, mm, data)|
    ensures Template(c, mm, data) == Prefix(c) + (Expand(mm.id, PodPhase(c.env)) + Suffix(c, mm, data))
  {
    hide Expand, HasToken, SortedKeys, Join;
    BaseIdParts(c, mm);
    assert Template(c, mm, data) == BaseId(c, mm) + Suffix(c, mm, data);
  }

  lemma SecondPhase(c: Collector, mm: MonitoredMetric, data: seq<Datapoint>, d: Datapoint)
    requires HasToken(Template(c, mm, data)) && '$' !in Prefix(c)
    ensures |BaseId(c, mm)| <= |Template(c, mm, data)|
    ensures SeriesId(Template(c, mm, data), d)
         == Prefix(c) + Expand(Expand(mm.id, PodPhase(c.env)) + Suffix(c, mm, data), TagPhase(d.tags))
  {
    hide Expand, HasToken, Template, Prefix, Suffix;
    TemplateParts(c, mm, data);
    ExpandLiteral(Prefix(c), Expand(mm.id, PodPhase(c.env)) + Suffix(c, mm, data), TagPhase(d.tags));
  }

  /** In an ID that is expanded again, for its own tokens or for the default list of tags, the dollar of `$$`
      survives exactly when nothing stands behind it then, or a tag spells the dollar and what stands there. */
  lemma DollarInSeries(c: Collector, mm: MonitoredMetric, data: seq<Datapoint>, d: Datapoint, ps: seq<Piece>, b: string)
    requires HasToken(Template(c, mm, data)) && '$' !in Prefix(c)
    requires |BaseId(c, mm)| <= |Template(c, mm, data)|
    requires mm.id == Written(ps) + ("$$" + b) && WellWritten(ps) && HarmlessPieces(ps, c.env, d.tags)
    requires '$' !in TextBehind(Expand(b, PodPhase(c.env)) + Suffix(c, mm, data))
    requires forall k :: k in c.env ==> '$' !in c.env[k]
    ensures var r := Expand(b, PodPhase(c.env)) + Suffix(c, mm, data);
      SeriesId(Template(c, mm, data), d)
        == Prefix(c) + (Filled(ps, TagPhase(d.tags + c.env)) + ("$" + Expand(r, TagPhase(d.tags))))
      <==> r == "" || TagSpells(d.tags, r)
  {
    hide Expand, HasToken, BaseId, SeriesId, Template, WellWritten, HarmlessPieces, Written, Filled, TextBehind,
      NameBehind, TagSpells, Prefix, Suffix;
    var suffix, both := Suffix(c, mm, data), TagPhase(d.tags + c.env);
    var r := Expand(b, PodPhase(c.env)) + suffix;
    SecondPhase(c, mm, data, d);
    HarmlessFuse(ps, c.env, d.tags);
    DollarName(c.env);
    DollarExact(ps, b, suffix, PodPhase(c.env), TagPhase(d.tags), both);
    TagSpelling(d.tags, r);
    SamePrefix(Prefix(c), Expand(Expand(mm.id, PodPhase(c.env)) + suffix, TagPhase(d.tags)),
               Filled(ps, both) + ("$" + Expand(r, TagPhase(d.tags))));
  }

  lemma DollarName(env: Env)
    ensures PodPhase(env)("$") == "$"
  {}

  /** A metric whose ID keeps no token and that has no tags is not expanded again: the dollar stays. */
  lemma DollarWithoutToken(c: Collector, mm: MonitoredMetric, data: seq<Datapoint>, d: Datapoint)
    requires !HasToken(BaseId(c, mm)) && TagKeys(data) == {}
    ensures SeriesId(Template(c, mm, data), d) == BaseId(c, mm)
  {
    hide Expand, BaseId;
  }

  /** For example cost_$$_${pool} with the tag pool=A: the dollar and the underscore are lost. */
  lemma DollarExample(c: Collector, mm: MonitoredMetric, data: seq<Datapoint>, d: Datapoint)
    requires mm.id == "cost_" + ("$$" + ("_" + ("${" + "pool" + "}" + "")))
    requires c.env == map[] && Prefix(c) == "" && d.tags == map["pool" := "A"]
    ensures SeriesId(Template(c, mm, data), d) == "cost_" + ("" + "A")
  {
    hide Expand, HasToken, SplitN, ShellName, Prefix;
    var token := "${" + "pool" + "}" + "";
    var p, q := PodPhase(c.env), TagPhase(d.tags);
    PlainToken("pool");
    PlainToken("_");
    UnderscoreName(token);
    DollarName(c.env);
    ExpandLiteral("cost_", "$$" + ("_" + token), p);
    DollarFirst("_" + token, p);
    ExpandLiteral("_", token, p);
    ExpandToken("pool", "", p);
    ExpandPlain("", p);
    ExpandPlain("", q);
    assert Expand(token, p) == token;
    var t := "cost_" + ("$" + ("_" + token));
    assert Expand(mm.id, p) == t;
    BaseIdParts(c, mm);
    assert "" + t == t;
    TokenBehind("cost_" + ("$" + "_"), "pool");
    assert t == "cost_" + ("$" + "_") + token;
    ExpandLiteral("cost_", "$" + ("_" + token), q);
    ExpandDollar("_" + token, q);
    ExpandToken("pool", "", q);
  }

  lemma BaseIdParts(c: Collector, mm: MonitoredMetric)
    ensures BaseId(c, mm) == Prefix(c) + Expand(mm.id, PodPhase(c.env))
  {}

  lemma UnderscoreName(token: string)
    requires token != "" && token[0] == '$'
    ensures NameBehind("_" + token) == "_" && TextBehind("_" + token) == "_"
    ensures ("_" + token)[1..] == token
  {
    var r := "_" + token;
    assert r[1..] == token;
    assert AlphaNumPrefix(token) == 0;
    assert AlphaNumPrefix(r) == 1 + AlphaNumPrefix(r[1..]);
    assert r[..1] == "_";
  }

  lemma TokenBehind(a: string, token: string)
    ensures HasToken(a + ("${" + token + "}" + ""))
  {
    var t := a + ("${" + token + "}" + "");
    assert t[|a|..|a| + 2] == "${";
    assert OccursAt(t, "${", |a|);
  }

  /** The same for a name that the second pod expands again: the dollar survives exactly when the first pod
      leaves nothing behind it, the second pod's environment spells the dollar and what stands there, or a
      token stands there in braces that the second pod does not set. */
  lemma SharedDollar(ps: seq<Piece>, b: string, first: Env, second: Env)
    requires WellWritten(ps) && Fuses(ps, PodPhase(first), PodPhase(second), FirstThenSecond(first, second))
    requires '$' !in TextBehind(Expand(b, PodPhase(first)))
    ensures var r := Expand(b, PodPhase(first));
      Expand(Expand(Written(ps) + ("$$" + b), PodPhase(first)), PodPhase(second))
        == Filled(ps, FirstThenSecond(first, second)) + ("$" + Expand(r, PodPhase(second)))
      <==> r == "" || PodSpells(second, r)
  {
    hide Expand, WellWritten, Fuses, Written, Filled, TextBehind, NameBehind, PodSpells;
    DollarName(first);
    var r, text := Expand(b, PodPhase(first)), Expand(Written(ps) + ("$$" + b), PodPhase(first));
    assert r + "" == r && text + "" == text;
    DollarExact(ps, b, "", PodPhase(first), PodPhase(second), FirstThenSecond(first, second));
    PodSpelling(second, r);
  }

  /* One tick: definitions. */

  lemma {:induction false} NeedPartsKeys(mm: MonitoredMetric, m: MetricHeader, t: string, data: seq<Datapoint>,
                                         declared: Definitions, need: Definitions)
    ensures NeedParts(mm, t, data, declared, need).Keys == need.Keys + (Ids(PartsOf(m, t, data)) - declared.Keys)
  {
    hide Expand, DefinitionFor;
    if data != [] {
      NeedPartsKeys(mm, m, t, data[..|data| - 1], declared, need);
      var init, part := PartsOf(m, t, data[..|data| - 1]), PartOf(m, t, data[|data| - 1]);
      IdsConcat(init, [part]);
    }
  }

  lemma IdsConcat(a: seq<MetricHeader>, b: seq<MetricHeader>)
    ensures Ids(a + b) == Ids(a) + Ids(b)
  {
    assert forall m :: m in a + b <==> m in a || m in b;
  }

  /** An expected metric whose whole ID expands to the empty string. */
  ghost predicate Nameless(c: Collector, m: MetricHeader) {
    Expected(c, m).Some? && Template(c, Expected(c, m).value, m.data) == ""
  }

  /** The empty ID if one of the metrics is nameless. */
  ghost function NamelessIds(c: Collector, ms: seq<MetricHeader>): (r: set<string>)
    ensures r == if exists m :: m in ms && Nameless(c, m) then {""} else {}
  {
    if exists m :: m in ms && Nameless(c, m) then {""} else {}
  }

  lemma NamelessStep(c: Collector, init: seq<MetricHeader>, m: MetricHeader)
    ensures NamelessIds(c, init + [m]) == NamelessIds(c, init) + NamelessIds(c, [m])
    ensures NamelessIds(c, [m]) == (if Nameless(c, m) then {""} else {}) && NamelessIds(c, []) == {}
  {
    hide Nameless;
    assert m in [m] && forall x :: x in init + [m] <==> x in init || x == m;
  }

  lemma OwnNeedsKeys(c: Collector, m: MetricHeader, declared: Definitions, need: Definitions)
    ensures OwnNeeds(c, m, declared, need).Keys
         == need.Keys + (Ids(OwnWhole(c, m)) + Ids(OwnParts(c, m)) + NamelessIds(c, [m]) - declared.Keys)
  {
    hide HasToken, Template, PartsOf, NeedParts;
    EmptyHasNoToken();
    NoIds();
    NamelessStep(c, [], m);
    var e := Expected(c, m);
    if e.Some? {
      var t := Template(c, e.value, m.data);
      if HasToken(t) {
        NeedPartsKeys(e.value, m, t, m.data, declared, need);
      } else {
        OneId(m.(id := t));
      }
    }
  }

  lemma NoIds()
    ensures Ids([]) == {}
  {}

  lemma OneId(m: MetricHeader)
    ensures Ids([m]) == {m.id}
  {
    assert m in [m];
  }

  lemma BatchStep(c: Collector, init: seq<MetricHeader>, m: MetricHeader, declared: Definitions)
    ensures Ids(Batch(c, init + [m])) == Ids(Batch(c, init)) + Ids(OwnWhole(c, m)) + Ids(OwnParts(c, m))
    ensures Needed(c, init + [m], declared) == OwnNeeds(c, m, declared, Needed(c, init, declared))
  {
    hide OwnWhole, OwnParts, OwnNeeds;
    var ms := init + [m];
    assert ms[..|ms| - 1] == init;
    IdsConcat(Wholes(c, ms), AllParts(c, ms));
    IdsConcat(Wholes(c, init), AllParts(c, init));
    IdsConcat(Wholes(c, init), OwnWhole(c, m));
    IdsConcat(AllParts(c, init), OwnParts(c, m));
  }

  /** The IDs a tick needs definitions for: exactly the batch's that are not declared, and the empty
      ID if a metric is nameless. */
  lemma {:induction false} NeededExact(c: Collector, ms: seq<MetricHeader>, declared: Definitions)
    ensures Needed(c, ms, declared).Keys == Ids(Batch(c, ms)) + NamelessIds(c, ms) - declared.Keys
  {
    if ms == [] {
      NoIds();
    } else {
      hide OwnWhole, OwnParts, OwnNeeds, NamelessIds, Ids, Batch, Needed;
      var init, m := ms[..|ms| - 1], ms[|ms| - 1];
      assert ms == init + [m];
      NeededExact(c, init, declared);
      BatchStep(c, init, m, declared);
      NamelessStep(c, init, m);
      OwnNeedsKeys(c, m, declared, Needed(c, init, declared));
    }
  }

  /** Every ID of the batch is declared already or needed now, and never both. */
  lemma NeededCovers(c: Collector, ms: seq<MetricHeader>, declared: Definitions)
    ensures Ids(Batch(c, ms)) <= declared.Keys + Needed(c, ms, declared).Keys
    ensures Needed(c, ms, declared).Keys !! declared.Keys
  {
    hide Batch, Needed, NamelessIds;
    NeededExact(c, ms, declared);
  }

  /** Every definition a tick sends is for an ID that the tracker holds after it, unless a metric is
      nameless and the empty ID is not declared, not held and not that of another metric. */
  lemma TickDefinesHeld(c: Collector, max: int, s: State, ms: seq<MetricHeader>, detailsOk: bool)
    ensures var s' := TickSpec(c, max, s, ms, detailsOk);
      && |s.defined| <= |s'.defined|
      && (DefinedIds(s'.defined[|s.defined|..]) <= T.MetricsOf(s'.tracked, c.id)
          <==> ((exists m :: m in ms && Nameless(c, m)) ==>
            "" in s.declared || "" in T.MetricsOf(s.tracked, c.id) || "" in Ids(Batch(c, ms))))
  {
    hide Batch, Needed, Nameless, T.AddSpec, T.MetricsOf, T.Missing, Ids, Without, DefinedIds;
    var s', batch := TickSpec(c, max, s, ms, detailsOk), Batch(c, ms);
    var held := T.MetricsOf(s'.tracked, c.id);
    NeededExact(c, ms, s.declared);
    MissingIds(batch, held);
    T.AddSpecLaws(s.tracked, max, c.id, batch);
    SentNow(s, s', Needed(c, ms, s.declared) - Ids(T.Missing(batch, held)));
    SentAndHeld(Ids(batch), NamelessIds(c, ms), s.declared.Keys, T.MetricsOf(s.tracked, c.id), held);
  }

  lemma SentAndHeld(batch: set<string>, nameless: set<string>, declared: set<string>,
                    before: set<string>, held: set<string>)
    requires before <= held <= before + batch && nameless <= {""}
    ensures batch + nameless - declared - (batch - held) <= held
       <==> (nameless != {} ==> "" in declared || "" in before || "" in batch)
  {
    if nameless != {} && "" !in declared + before + batch {
      assert "" in nameless && "" !in held;
      assert "" in batch + nameless - declared - (batch - held);
    }
  }

  lemma SentNow(s: State, s': State, defs: Definitions)
    requires s'.defined == if defs != map[] then s.defined + [defs] else s.defined
    ensures |s.defined| <= |s'.defined| && DefinedIds(s'.defined[|s.defined|..]) == defs.Keys
  {
    if defs != map[] {
      assert s'.defined[|s.defined|..] == [defs] && [defs][..0] == [];
    } else {
      assert s'.defined[|s.defined|..] == [];
    }
  }

  lemma BatchOfOne(c: Collector, m: MetricHeader)
    ensures Batch(c, [m]) == OwnWhole(c, m) + OwnParts(c, m)
  {
    hide OwnWhole, OwnParts;
    assert [m][..0] == [];
    assert Wholes(c, [m]) == Wholes(c, []) + OwnWhole(c, m);
    assert AllParts(c, [m]) == AllParts(c, []) + OwnParts(c, m);
  }

  /** A metric whose ID is a token that the pod leaves empty: its definition is sent, nothing stored. */
  lemma NamelessExample(max: int)
    ensures var mm := MonitoredMetric("${" + "POD:hostname" + "}", "m", "gauge", "", "", map[]);
      var c := Collector(CollectorID("p", "e"), map["POD:hostname" := ""], map[], "", map["m" := mm]);
      var m := MetricHeader("t", "gauge", "m", [Datapoint(0, Finite(1.0), map[])]);
      var s' := TickSpec(c, max, State(map[], map[], [], []), [m], true);
      "" in DefinedIds(s'.defined) && s'.stored == [[]]
  {
    hide Expand, HasToken, SplitN, T.AddSpec, T.MetricsOf, SortedKeys;
    var mm := MonitoredMetric("${" + "POD:hostname" + "}", "m", "gauge", "", "", map[]);
    var c := Collector(CollectorID("p", "e"), map["POD:hostname" := ""], map[], "", map["m" := mm]);
    var m := MetricHeader("t", "gauge", "m", [Datapoint(0, Finite(1.0), map[])]);
    NamelessTemplate(c, mm, m.data);
    EmptyHasNoToken();
    assert Nameless(c, m);
    assert OwnWhole(c, m) == [] && OwnParts(c, m) == [];
    BatchOfOne(c, m);
    NamelessStep(c, [], m);
    NeededExact(c, [m], map[]);
    NoIds();
    var s, s' := State(map[], map[], [], []), TickSpec(c, max, State(map[], map[], [], []), [m], true);
    SentNow(s, s', Needed(c, [m], map[]) - Ids([]));
    assert s'.defined[0..] == s'.defined;
  }

  lemma NamelessTemplate(c: Collector, mm: MonitoredMetric, data: seq<Datapoint>)
    requires mm.id == "${" + "POD:hostname" + "}" && c.env == map["POD:hostname" := ""] && c.idPrefix == ""
    requires forall d :: d in data ==> d.tags == map[]
    ensures Template(c, mm, data) == ""
  {
    hide SplitN, SortedKeys;
    PlainToken("POD:hostname");
    NoDefaultKey("POD:hostname");
    ExpandToken("POD:hostname", "", PodPhase(c.env));
    assert mm.id + "" == mm.id;
    assert BaseId(c, mm) == "";
    assert TagKeys(data) == {};
  }

  /* Runs: ticks of one running collector, interleaved with what other collectors add and purge. */

  datatype Event = Ticked(collected: seq<MetricHeader>, detailsOk: bool) | Other(op: T.Op)

  /** What happens while the collector runs: its ID is not purged, and nothing but its own ticks
      stores metrics for it. An endpoint that is merely noted may have the same ID. */
  predicate Foreign(c: Collector, e: Event) {
    e.Other? ==> !e.op.PurgeAll? && (e.op.cid == c.id ==> e.op.Add? && e.op.metrics == [])
  }

  ghost function Step(c: Collector, max: int, s: State, e: Event): State {
    match e
    case Ticked(ms, ok) => TickSpec(c, max, s, ms, ok)
    case Other(op) => s.(tracked := T.Apply(s.tracked, max, op))
  }

  ghost function Run(c: Collector, max: int, s: State, es: seq<Event>): State {
    if es == [] then s else Step(c, max, Run(c, max, s, es[..|es| - 1]), es[|es| - 1])
  }

  lemma StepGrows(c: Collector, max: int, s: State, e: Event)
    requires Foreign(c, e)
    ensures var s' := Step(c, max, s, e);
      && T.MetricsOf(s.tracked, c.id) <= T.MetricsOf(s'.tracked, c.id)
      && s.declared.Keys <= s'.declared.Keys
      && |s.defined| <= |s'.defined| && s'.defined[..|s.defined|] == s.defined
  {
    match e
    case Ticked(ms, ok) => T.AddSpecLaws(s.tracked, max, c.id, Batch(c, ms));
    case Other(op) =>
      if op.Add? { T.AddSpecLaws(s.tracked, max, op.cid, op.metrics); } else { T.PurgeSpecLaws(s.tracked, op.cid); }
  }

  lemma {:induction false} RunGrows(c: Collector, max: int, s: State, es: seq<Event>)
    requires forall i :: 0 <= i < |es| ==> Foreign(c, es[i])
    ensures var s' := Run(c, max, s, es);
      && T.MetricsOf(s.tracked, c.id) <= T.MetricsOf(s'.tracked, c.id)
      && s.declared.Keys <= s'.declared.Keys
      && |s.defined| <= |s'.defined| && s'.defined[..|s.defined|] == s.defined
  {
    hide Step;
    if es != [] {
      RunGrows(c, max, s, es[..|es| - 1]);
      StepGrows(c, max, Run(c, max, s, es[..|es| - 1]), es[|es| - 1]);
    }
  }

  lemma {:induction false} WithinKeeps(ms: seq<MetricHeader>, ids: set<string>, m: MetricHeader)
    requires m in ms && m.id in ids
    ensures m in Within(ms, ids)
  {
    if m in ms[..|ms| - 1] { WithinKeeps(ms[..|ms| - 1], ids, m); }
  }

  /** Once the tracker holds an ID for a running collector, no later tick of it discards that
      ID, whatever the other collectors of the pod do in between. */
  lemma NeverDiscarded(c: Collector, max: int, s: State, es: seq<Event>, ms: seq<MetricHeader>, detailsOk: bool)
    requires forall i :: 0 <= i < |es| ==> Foreign(c, es[i])
    ensures var s' := TickSpec(c, max, Run(c, max, s, es), ms, detailsOk);
      forall m :: m in Batch(c, ms) && m.id in T.MetricsOf(s.tracked, c.id) ==> m in s'.stored[|s'.stored| - 1]
  {
    hide Batch, Run, TickSpec;
    var s1 := Run(c, max, s, es);
    RunGrows(c, max, s, es);
    var s' := TickSpec(c, max, s1, ms, detailsOk);
    TickStoresTracked(c, max, s1, ms, detailsOk);
    StepGrows(c, max, s1, Ticked(ms, detailsOk));
    forall m | m in Batch(c, ms) && m.id in T.MetricsOf(s.tracked, c.id) ensures m in s'.stored[|s'.stored| - 1] {
      WithinKeeps(Batch(c, ms), T.MetricsOf(s'.tracked, c.id), m);
    }
  }

  function DefinedIds(defs: seq<Definitions>): set<string> {
    if defs == [] then {} else DefinedIds(defs[..|defs| - 1]) + defs[|defs| - 1].Keys
  }

  function StoredIds(stored: seq<seq<MetricHeader>>): set<string> {
    if stored == [] then {} else StoredIds(stored[..|stored| - 1]) + Ids(stored[|stored| - 1])
  }

  /** Everything declared, held by the tracker or ever stored has had a definition sent. */
  ghost predicate AllDefined(c: Collector, s: State) {
    s.declared.Keys + T.MetricsOf(s.tracked, c.id) + StoredIds(s.stored) <= DefinedIds(s.defined)
  }

  lemma {:induction false} WithinIds(ms: seq<MetricHeader>, ids: set<string>)
    ensures Ids(Within(ms, ids)) <= ids
  {
    if ms != [] {
      WithinIds(ms[..|ms| - 1], ids);
    }
  }

  lemma TickKeepsAllDefined(c: Collector, max: int, s: State, ms: seq<MetricHeader>, detailsOk: bool)
    requires AllDefined(c, s)
    ensures AllDefined(c, TickSpec(c, max, s, ms, detailsOk))
  {
    hide Batch, Needed, T.AddSpec, T.MetricsOf, Within;
    var s', batch := TickSpec(c, max, s, ms, detailsOk), Batch(c, ms);
    var held, need := T.MetricsOf(s'.tracked, c.id), Needed(c, ms, s.declared);
    TickStoresTracked(c, max, s, ms, detailsOk);
    WithinIds(batch, held);
    MissingIds(batch, held);
    NeededCovers(c, ms, s.declared);
    T.AddSpecLaws(s.tracked, max, c.id, batch);
    assert s'.stored[..|s.stored|] == s.stored;
    assert s'.defined != s.defined ==> s'.defined[..|s.defined|] == s.defined;
    var defs := need - Ids(T.Missing(batch, held));
    assert DefinedIds(s'.defined) == DefinedIds(s.defined) + defs.Keys by {
      if defs == map[] { assert s'.defined == s.defined; }
    }
    forall id | id in held ensures id in DefinedIds(s'.defined) {
      if id !in T.MetricsOf(s.tracked, c.id) {
        assert id in Ids(batch);
        assert id in s.declared || id in defs;
      }
    }
  }

  /** From the moment a collector starts, every ID it ever stores has had a definition sent by
      the end of the tick that stores it. */
  lemma {:induction false} EveryStoredIdIsDefined(c: Collector, max: int, tracked: T.Tracked, es: seq<Event>)
    requires T.MetricsOf(tracked, c.id) == {}
    requires forall i :: 0 <= i < |es| ==> Foreign(c, es[i])
    ensures AllDefined(c, Run(c, max, State(tracked, map[], [], []), es))
  {
    hide TickSpec;
    if es != [] {
      var init, e := es[..|es| - 1], es[|es| - 1];
      EveryStoredIdIsDefined(c, max, tracked, init);
      var s := Run(c, max, State(tracked, map[], [], []), init);
      match e
      case Ticked(ms, ok) => TickKeepsAllDefined(c, max, s, ms, ok);
      case Other(op) =>
        if op.Add? { T.AddSpecLaws(s.tracked, max, op.cid, op.metrics); } else { T.PurgeSpecLaws(s.tracked, op.cid); }
    }
  }

  /** A step sends at most one batch of definitions, without those declared before it. */
  lemma StepDefinesUndeclared(c: Collector, max: int, s: State, e: Event)
    ensures var s' := Step(c, max, s, e);
      || s'.defined == s.defined
      || (|s'.defined| == |s.defined| + 1 && s'.defined[..|s.defined|] == s.defined
          && s'.defined[|s.defined|].Keys !! s.declared.Keys)
  {
    hide Batch, Needed, T.AddSpec, T.MetricsOf, T.Missing, Without;
    if e.Ticked? { NeededCovers(c, e.collected, s.declared); }
  }

  /** A declared ID is never defined again. */
  lemma {:induction false} DeclaredIsFinal(c: Collector, max: int, s: State, es: seq<Event>, id: string)
    requires id in s.declared
    requires forall i :: 0 <= i < |es| ==> Foreign(c, es[i])
    ensures var s' := Run(c, max, s, es); |s.defined| <= |s'.defined| && id !in DefinedIds(s'.defined[|s.defined|..])
  {
    hide Step, Foreign;
    RunGrows(c, max, s, es);
    if es == [] {
      assert s.defined[|s.defined|..] == [];
    } else {
      var init, e := es[..|es| - 1], es[|es| - 1];
      DeclaredIsFinal(c, max, s, init, id);
      RunGrows(c, max, s, init);
      var s1, s' := Run(c, max, s, init), Run(c, max, s, es);
      StepDefinesUndeclared(c, max, s1, e);
      if s'.defined != s1.defined {
        var late := s'.defined[|s.defined|..];
        assert late[..|late| - 1] == s1.defined[|s.defined|..];
        assert late[|late| - 1] == s'.defined[|s1.defined|];
      }
    }
  }

  /** A definition is repeated only if the request for details failed when it was sent: once a
      tick with details has defined an ID, no later tick of the collector defines it again. */
  lemma DefinedOnceWithDetails(c: Collector, max: int, s: State, ms: seq<MetricHeader>, es: seq<Event>, id: string)
    requires forall i :: 0 <= i < |es| ==> Foreign(c, es[i])
    requires var s1 := TickSpec(c, max, s, ms, true); |s1.defined| > |s.defined| && id in s1.defined[|s.defined|]
    ensures var s1 := TickSpec(c, max, s, ms, true); var s' := Run(c, max, s1, es);
      |s1.defined| <= |s'.defined| && id !in DefinedIds(s'.defined[|s1.defined|..])
  {
    hide Batch, Needed, Run, T.AddSpec, T.MetricsOf, T.Missing;
    DeclaredIsFinal(c, max, TickSpec(c, max, s, ms, true), es, id);
  }
}
