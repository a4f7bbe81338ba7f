/** Which endpoints of a config map are collected, from where, and under which collector ID. */
module EndpointLaws {
  import opened Wrappers
  import opened Text
  import opened Series
  import opened ReconciliationSpec

  /* The address. */

  /** Protocol, host, port and path with one slash between them, for paths with and without a leading one. */
  lemma UrlIsAddress(w: World, e: Endpoint, host: string, path: string)
    requires host != "" && e.path in {path, "/" + path} && (path == "" || path[0] != '/')
    ensures Url(w, e, host) == w.parseUrl(e.protocol + "://" + host + ":" + Decimal(e.port) + "/" + path)
  {
    hide Decimal;
    var front := e.protocol + "://" + host + ":" + Decimal(e.port);
    if e.path == path {
      assert front + "/" + e.path == front + "/" + path;
    } else {
      assert front + "" + e.path == front + "/" + path;
    }
  }

  /** A second slash in front of the path stays: only a missing one is added. */
  lemma UrlKeepsSlashes(w: World, e: Endpoint, host: string)
    requires host != "" && e.path != "" && e.path[0] == '/'
    ensures Url(w, e, host) == w.parseUrl(e.protocol + "://" + host + ":" + Decimal(e.port) + e.path)
  {
    hide Decimal;
    var front := e.protocol + "://" + host + ":" + Decimal(e.port);
    assert front + "" + e.path == front + e.path;
  }

  /** A pod without an IP has no address yet. */
  lemma NoAddressWithoutIp(w: World, e: Endpoint)
    ensures Url(w, e, "") == None
  {}

  /** The endpoint's path as it appears in the address. */
  function RootedPath(path: string): string {
    if path != "" && path[0] == '/' then path else "/" + path
  }

  lemma UrlWrittenOut(w: World, e: Endpoint, host: string)
    requires host != ""
    ensures Url(w, e, host) == w.parseUrl(e.protocol + "://" + host + ":" + Decimal(e.port) + RootedPath(e.path))
  {
    if e.path != "" && e.path[0] == '/' {
      UrlKeepsSlashes(w, e, host);
    } else {
      UrlIsAddress(w, e, host, e.path);
      hide Decimal;
      var front := e.protocol + "://" + host + ":" + Decimal(e.port);
      assert front + "/" + e.path == front + ("/" + e.path);
    }
  }

  /* The conditions for collecting. */

  /** Every metric has a name, and a type unless a Prometheus endpoint tells it. */
  ghost predicate MetricsUsable(e: Endpoint) {
    forall m :: m in e.metrics ==>
      m.name != "" && (m.mtype == "gauge" || m.mtype == "counter" || (m.mtype == "" && e.etype == "prometheus"))
  }

  /** The endpoint `e` of pod `p` is one to collect, at address `url` and with these credentials. */
  ghost predicate Collectable(w: World, p: Pod, e: Endpoint, url: string, credentials: Credentials) {
    && p.podIP != ""
    && w.parseUrl(e.protocol + "://" + p.podIP + ":" + Decimal(e.port) + RootedPath(e.path)) == Some(url)
    && url != ""
    && (e.enabled == "" || e.enabled == "true")
    && (e.etype == "prometheus" || e.etype == "jolokia" || e.etype == "json")
    && w.resolveCredentials(p.namespace, e.credentials) == Some(credentials) && w.validCredentials(credentials)
    && MetricsUsable(e)
    && (e.interval == "" || w.validInterval(e.interval))
  }

  /** The collector's ID: the pod's identity, and the endpoint's namespace, pod, type and address. */
  function IdAt(p: Pod, etype: string, url: string): CollectorID {
    CollectorID(p.node + "/" + p.namespace + "/" + p.name + "/" + p.uid,
                p.namespace + "|" + p.name + "|" + etype + "|" + url)
  }

  lemma IdentifierWrittenOut(p: Pod)
    ensures p.Identifier() == p.node + "/" + p.namespace + "/" + p.name + "/" + p.uid
  {
    var a, b, c, d := p.node, p.namespace, p.name, p.uid;
    assert Join([d], "/") == d;
    assert [c, d][1..] == [d] && Join([c, d], "/") == c + "/" + d;
    assert [b, c, d][1..] == [c, d] && Join([b, c, d], "/") == b + "/" + (c + "/" + d);
    assert [a, b, c, d][1..] == [b, c, d];
    assert a + "/" + (b + "/" + (c + "/" + d)) == a + "/" + b + "/" + c + "/" + d;
  }

  /** An endpoint is started if and only if it is one to collect, and then under its ID. */
  lemma DecideExact(w: World, p: Pod, e: Endpoint, id: CollectorID)
    ensures Decide(w, p, e) == Start(id) <==>
      exists url, credentials :: Collectable(w, p, e, url, credentials) && id == IdAt(p, e.etype, url)
  {
    hide Pod.Identifier, Url;
    IdentifierWrittenOut(p);
    MetricsChecked(e);
    if p.podIP == "" { NoAddressWithoutIp(w, e); } else { UrlWrittenOut(w, e, p.podIP); }
    if Decide(w, p, e) == Start(id) {
      var url := Url(w, e, p.podIP).value;
      var credentials := w.resolveCredentials(p.namespace, e.credentials).value;
      assert Collectable(w, p, e, url, credentials) && id == IdAt(p, e.etype, url);
    }
  }

  lemma MetricsChecked(e: Endpoint)
    ensures MetricsUsable(e) <==> forall i :: 0 <= i < |e.metrics| ==> ValidMetric(e.etype, e.metrics[i])
  {}

  /** An endpoint whose address parses is always remembered under its ID, whether it is started or not. */
  lemma KnownUnderItsId(w: World, p: Pod, e: Endpoint)
    ensures Decide(w, p, e).Skip? <==> Url(w, e, p.podIP).None?
    ensures Url(w, e, p.podIP).Some? ==> Decide(w, p, e).id == IdAt(p, e.etype, Url(w, e, p.podIP).value)
  {
    IdentifierWrittenOut(p);
  }

  /** The collectors to start for a pod are those of its collectable endpoints. */
  lemma {:induction false} StartableExact(w: World, p: Pod, es: Entry, c: CollectorID)
    ensures c in Startable(w, p, es) <==>
      exists i, url, credentials ::
        0 <= i < |es| && Collectable(w, p, es[i], url, credentials) && c == IdAt(p, es[i].etype, url)
  {
    hide Decide, Collectable, IdAt;
    if es != [] {
      var init, last := es[..|es| - 1], es[|es| - 1];
      StartableExact(w, p, init, c);
      DecideExact(w, p, last, c);
      if i, url, credentials :|
        0 <= i < |es| && Collectable(w, p, es[i], url, credentials) && c == IdAt(p, es[i].etype, url)
      {
        if i < |init| { assert init[i] == es[i]; }
      }
      if i, url, credentials :|
        0 <= i < |init| && Collectable(w, p, init[i], url, credentials) && c == IdAt(p, init[i].etype, url)
      {
        assert init[i] == es[i];
      }
      if url, credentials :| Collectable(w, p, last, url, credentials) && c == IdAt(p, last.etype, url) {
        assert es[|es| - 1] == last;
      }
    }
  }

  /* Different endpoints have different collectors. */

  /** Type and address can be read from the ID when no type holds the separator. */
  lemma IdAtSeparates(p: Pod, s: string, u: string, t: string, v: string)
    requires '|' !in s && '|' !in t
    ensures IdAt(p, s, u) == IdAt(p, t, v) <==> s == t && u == v
  {
    var front := p.namespace + "|" + p.name + "|";
    if IdAt(p, s, u) == IdAt(p, t, v) {
      assert front + (s + "|" + u) == p.namespace + "|" + p.name + "|" + s + "|" + u;
      assert front + (t + "|" + v) == p.namespace + "|" + p.name + "|" + t + "|" + v;
      assert (front + (s + "|" + u))[|front|..] == s + "|" + u;
      assert (front + (t + "|" + v))[|front|..] == t + "|" + v;
      SepFreeChar(s, '|');
      SepFreeChar(t, '|');
      SplitFirst(s, "|", u);
      SplitFirst(t, "|", v);
      assert [s, u][0] == [t, v][0] && [s, u][1] == [t, v][1];
    }
  }

  /** Two endpoints of one pod that have an address share a collector ID if and only if they have the same
      type and the same address. */
  lemma SameCollector(w: World, p: Pod, e: Endpoint, f: Endpoint)
    requires !Decide(w, p, e).Skip? && !Decide(w, p, f).Skip? && '|' !in e.etype && '|' !in f.etype
    ensures Decide(w, p, e).id == Decide(w, p, f).id
       <==> e.etype == f.etype && Url(w, e, p.podIP) == Url(w, f, p.podIP)
  {
    hide Url;
    KnownUnderItsId(w, p, e);
    KnownUnderItsId(w, p, f);
    IdAtSeparates(p, e.etype, Url(w, e, p.podIP).value, f.etype, Url(w, f, p.podIP).value);
  }

  /** The types and addresses to collect from. */
  ghost function Targets(w: World, p: Pod, es: Entry): set<(string, string)> {
    set i | 0 <= i < |es| && Decide(w, p, es[i]).Start? :: (es[i].etype, Url(w, es[i], p.podIP).value)
  }

  /** So the collectors to start for a pod stand for the types and addresses of its collectable endpoints one
      to one. */
  lemma OneCollectorPerTarget(w: World, p: Pod, es: Entry)
    ensures Startable(w, p, es) == (set target | target in Targets(w, p, es) :: IdAt(p, target.0, target.1))
    ensures forall s, t :: s in Targets(w, p, es) && t in Targets(w, p, es) ==>
      (IdAt(p, s.0, s.1) == IdAt(p, t.0, t.1) <==> s == t)
    ensures |Startable(w, p, es)| == |Targets(w, p, es)|
  {
    hide Url, IdAt, Pod.Identifier;
    var targets := Targets(w, p, es);
    forall c
      ensures c in Startable(w, p, es) <==> exists target :: target in targets && c == IdAt(p, target.0, target.1)
    {
      StartedTargets(w, p, es, c);
    }
    forall s, t | s in targets && t in targets ensures IdAt(p, s.0, s.1) == IdAt(p, t.0, t.1) <==> s == t {
      TargetType(w, p, es, s);
      TargetType(w, p, es, t);
      IdAtSeparates(p, s.0, s.1, t.0, t.1);
    }
    ImageSize(p, targets);
  }

  lemma TargetType(w: World, p: Pod, es: Entry, t: (string, string))
    requires t in Targets(w, p, es)
    ensures '|' !in t.0
  {}

  lemma StartedTargets(w: World, p: Pod, es: Entry, c: CollectorID)
    ensures c in Startable(w, p, es) <==>
      exists target :: target in Targets(w, p, es) && c == IdAt(p, target.0, target.1)
  {
    hide Decide, IdAt;
    StartedAt(w, p, es, c);
    forall i | 0 <= i < |es| && Decide(w, p, es[i]).Start?
      ensures Url(w, es[i], p.podIP).Some?
      ensures Decide(w, p, es[i]).id == IdAt(p, es[i].etype, Url(w, es[i], p.podIP).value)
    {
      KnownUnderItsId(w, p, es[i]);
    }
    if c in Startable(w, p, es) {
      var i :| 0 <= i < |es| && Decide(w, p, es[i]) == Start(c);
      assert (es[i].etype, Url(w, es[i], p.podIP).value) in Targets(w, p, es);
    }
  }

  lemma {:induction false} StartedAt(w: World, p: Pod, es: Entry, c: CollectorID)
    ensures c in Startable(w, p, es) <==> exists i :: 0 <= i < |es| && Decide(w, p, es[i]) == Start(c)
  {
    hide Decide;
    if es != [] {
      var init, last := es[..|es| - 1], es[|es| - 1];
      StartedAt(w, p, init, c);
      if i :| 0 <= i < |init| && Decide(w, p, init[i]) == Start(c) { assert es[i] == init[i]; }
      if i :| 0 <= i < |es| && Decide(w, p, es[i]) == Start(c) { assert i < |init| ==> init[i] == es[i]; }
      assert es[|es| - 1] == last;
    }
  }

  lemma {:induction false} ImageSize(p: Pod, targets: set<(string, string)>)
    requires forall s, t :: s in targets && t in targets ==> (IdAt(p, s.0, s.1) == IdAt(p, t.0, t.1) <==> s == t)
    ensures |set t | t in targets :: IdAt(p, t.0, t.1)| == |targets|
    decreases targets
  {
    hide IdAt;
    var ids := set t | t in targets :: IdAt(p, t.0, t.1);
    if targets != {} {
      var t :| t in targets;
      var rest := targets - {t};
      ImageSize(p, rest);
      var others := set s | s in rest :: IdAt(p, s.0, s.1);
      assert ids == others + {IdAt(p, t.0, t.1)};
      assert IdAt(p, t.0, t.1) !in others;
    }
  }

  /* Endpoints outside the pods. */

  /** An external endpoint of a known type runs if and only if it is enabled, and no other collector changes;
      one of another type starts nothing. */
  lemma ExternalTickers(t: Tables, max: int, etype: string, url: string, enabled: string, c: CollectorID)
    ensures c in ExternalStep(t, max, etype, url, enabled).tickers
       <==> if etype in {"prometheus", "jolokia", "json"} && c == CollectorID("", "X|X|" + etype + "|" + url)
            then enabled == "" || enabled == "true" else c in t.tickers
  {
    hide T.AddSpec, T.PurgeSpec;
  }

  lemma ExternalEndpointsSeparate(s: string, u: string, t: string, v: string)
    requires '|' !in s && '|' !in t
    ensures ExternalId(s, u) == ExternalId(t, v) <==> s == t && u == v
  {
    if ExternalId(s, u) == ExternalId(t, v) {
      assert ("X|X|" + s + "|" + u)[4..] == s + "|" + u;
      assert ("X|X|" + t + "|" + v)[4..] == t + "|" + v;
      SepFreeChar(s, '|');
      SepFreeChar(t, '|');
      SplitFirst(s, "|", u);
      SplitFirst(t, "|", v);
      assert [s, u][0] == [t, v][0] && [s, u][1] == [t, v][1];
    }
  }
}
