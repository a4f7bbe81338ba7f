/** Metric names of Jolokia endpoints (jolokia/parse_metric_name.go):
    domain:key=value,...#attribute#path, with wildcards. */
module JolokiaName {
  import opened Wrappers
  import opened Text

  datatype Parts = Parts(
    mbean: string, attribute: string, path: string, keyValues: map<string, string>, keyWildcards: set<string>)
  {
    predicate HasAttribute() { attribute != "" }

    predicate HasPath() { path != "" }

    predicate IsAllAttributes() { attribute == "*" }

    predicate IsAllPaths() { path == "*" || IsAllAttributes() }

    predicate IsMBeanQuery() { |keyWildcards| > 0 }
  }

  datatype Request = Request(mbean: string, attribute: string, path: string)

  /** Unicode white space, as `strings.TrimSpace` takes it. */
  predicate IsSpace(c: char) {
    || c in {' ', '\t', '\n', '\r', '\U{b}', '\U{c}', '\U{85}', '\U{a0}', '\U{1680}'}
    || '\U{2000}' <= c <= '\U{200a}'
    || c in {'\U{2028}', '\U{2029}', '\U{202f}', '\U{205f}', '\U{3000}'}
  }

  function TrimLeft(s: string): string {
    if s != "" && IsSpace(s[0]) then TrimLeft(s[1..]) else s
  }

  function TrimRight(s: string): string {
    if s != "" && IsSpace(s[|s| - 1]) then TrimRight(s[..|s| - 1]) else s
  }

  function TrimSpace(s: string): string {
    TrimRight(TrimLeft(s))
  }

  /* Specification of the key properties. */

  datatype Keys = Keys(values: map<string, string>, wildcards: set<string>)

  /** One key property: a lone "*" and a property without "=" are errors. */
  function ParsePair(raw: string): Result<(string, string)> {
    var pair := TrimSpace(raw);
    if pair == "*" then Failure("Must supply a key name for wildcard expression")
    else
      var kv := SplitN(pair, "=", 2);
      if |kv| != 2 then Failure("must be 'key=value' format") else Success((kv[0], kv[1]))
  }

  function AddPair(ks: Keys, kv: (string, string)): Keys {
    Keys(ks.values[kv.0 := kv.1], if kv.1 == "*" then ks.wildcards + {kv.0} else ks.wildcards)
  }

  function ParsePairs(raws: seq<string>): Result<Keys> {
    if raws == [] then Success(Keys(map[], {}))
    else
      match ParsePairs(raws[..|raws| - 1])
      case Failure(e) => Failure(e)
      case Success(ks) =>
        match ParsePair(raws[|raws| - 1])
        case Failure(e) => Failure(e)
        case Success(kv) => Success(AddPair(ks, kv))
  }

  function PropertyList(mbean: string): string {
    var arr := SplitN(mbean, ":", 2);
    if |arr| == 1 then arr[0] else arr[1]
  }

  function ParseName(name: string): Result<Parts> {
    var arr := SplitN(name, "#", 3);
    var attribute := if |arr| == 1 then "*" else arr[1];
    var path := if |arr| == 3 then arr[2] else "";
    match ParsePairs(SplitN(PropertyList(arr[0]), ",", -1))
    case Failure(e) => Failure(e)
    case Success(ks) => Success(Parts(arr[0], attribute, path, ks.values, ks.wildcards))
  }

  /** The loop over the key properties, up to the first error. */
  method NewMetricNameParts(metricName: string) returns (r: Result<Parts>)
    ensures r == ParseName(metricName)
  {
    hide SplitN, ParsePair;
    var arr := SplitN(metricName, "#", 3);
    var attribute, path := "*", "";
    if |arr| == 2 {
      attribute := arr[1];
    } else if |arr| == 3 {
      attribute, path := arr[1], arr[2];
    }
    var raws := SplitN(PropertyList(arr[0]), ",", -1);
    var keyValues: map<string, string>, keyWildcards: set<string> := map[], {};
    for i := 0 to |raws|
      invariant ParsePairs(raws[..i]) == Success(Keys(keyValues, keyWildcards))
    {
      assert raws[..i + 1][..i] == raws[..i];
      var kv := ParsePair(raws[i]);
      if kv.Failure? {
        FailureStays(raws, i + 1, kv.error);
        return Failure(kv.error);
      }
      keyValues := keyValues[kv.value.0 := kv.value.1];
      if kv.value.1 == "*" {
        keyWildcards := keyWildcards + {kv.value.0};
      }
    }
    assert raws[..|raws|] == raws;
    r := Success(Parts(arr[0], attribute, path, keyValues, keyWildcards));
  }

  lemma {:induction false} FailureStays(raws: seq<string>, k: nat, e: string)
    requires k <= |raws| && ParsePairs(raws[..k]) == Failure(e)
    ensures ParsePairs(raws) == Failure(e)
    decreases |raws| - k
  {
    if k == |raws| {
      assert raws[..k] == raws;
    } else {
      assert raws[..k + 1][..k] == raws[..k];
      FailureStays(raws, k + 1, e);
    }
  }

  /** The request carries the attribute and the path only when they name something. */
  method ParseMetricNameForJolokiaRequest(metricName: string, req: Request) returns (r: Result<Parts>, req': Request)
    ensures r == ParseName(metricName)
    ensures r.Failure? ==> req' == req
    ensures r.Success? ==>
      && req'.mbean == r.value.mbean
      && req'.attribute == (if r.value.attribute in {"", "*"} then req.attribute else r.value.attribute)
      && req'.path == (if r.value.path in {"", "*"} || r.value.attribute == "*" then req.path else r.value.path)
    ensures r.Success? && req.attribute == req.path == "" ==> req'.attribute != "*" && req'.path != "*"
  {
    r := NewMetricNameParts(metricName);
    req' := req;
    if r.Success? {
      var parts := r.value;
      req' := req'.(mbean := parts.mbean);
      if parts.HasAttribute() && !parts.IsAllAttributes() {
        req' := req'.(attribute := parts.attribute);
      }
      if parts.HasPath() && !parts.IsAllPaths() {
        req' := req'.(path := parts.path);
      }
    }
  }

  /* Printing and parsing back. */

  datatype Name = Name(domain: string, properties: seq<(string, string)>, attribute: string, path: string)

  function PrintPairs(ps: seq<(string, string)>): (r: seq<string>)
    ensures |r| == |ps| && forall i :: 0 <= i < |ps| ==> r[i] == ps[i].0 + "=" + ps[i].1
  {
    seq(|ps|, i requires 0 <= i < |ps| => ps[i].0 + "=" + ps[i].1)
  }

  function PrintMBean(n: Name): string
    requires n.properties != []
  {
    n.domain + ":" + Join(PrintPairs(n.properties), ",")
  }

  /** An empty path is not printed. */
  function Print(n: Name): string
    requires n.properties != []
  {
    PrintMBean(n) + "#" + n.attribute + (if n.path == "" then "" else "#" + n.path)
  }

  function MapOf(ps: seq<(string, string)>): Keys {
    if ps == [] then Keys(map[], {}) else AddPair(MapOf(ps[..|ps| - 1]), ps[|ps| - 1])
  }

  /** The separators are absent where the splits look for them, and trimming changes nothing. */
  predicate PrintableProperty(kv: (string, string)) {
    && '#' !in kv.0 && ',' !in kv.0 && '=' !in kv.0
    && '#' !in kv.1 && ',' !in kv.1
    && TrimSpace(kv.0 + "=" + kv.1) == kv.0 + "=" + kv.1
  }

  predicate Printable(n: Name) {
    && n.properties != []
    && '#' !in n.domain && ':' !in n.domain && '#' !in n.attribute
    && forall i :: 0 <= i < |n.properties| ==> PrintableProperty(n.properties[i])
  }

  lemma ParsePrintedPair(kv: (string, string))
    requires PrintableProperty(kv)
    ensures ParsePair(kv.0 + "=" + kv.1) == Success(kv)
  {
    var pair := kv.0 + "=" + kv.1;
    SepFreeChar(kv.0, '=');
    SplitFirst(kv.0, "=", kv.1);
    assert pair[|kv.0|] == '=';
    assert pair != "*";
  }

  lemma {:induction false} ParsePrintedPairs(ps: seq<(string, string)>)
    requires forall i :: 0 <= i < |ps| ==> PrintableProperty(ps[i])
    ensures ParsePairs(PrintPairs(ps)) == Success(MapOf(ps))
  {
    hide ParsePair, PrintableProperty;
    if ps != [] {
      ParsePrintedPairs(ps[..|ps| - 1]);
      ParsePrintedPair(ps[|ps| - 1]);
      assert PrintPairs(ps)[..|ps| - 1] == PrintPairs(ps[..|ps| - 1]);
    }
  }

  lemma {:induction false} JoinFreeOf(parts: seq<string>, sep: string, c: char)
    requires parts != [] && c !in sep && forall i :: 0 <= i < |parts| ==> c !in parts[i]
    ensures c !in Join(parts, sep)
  {
    if |parts| > 1 { JoinFreeOf(parts[1..], sep, c); }
  }

  lemma SplitProperties(ps: seq<(string, string)>)
    requires ps != [] && forall i :: 0 <= i < |ps| ==> PrintableProperty(ps[i])
    ensures SplitN(Join(PrintPairs(ps), ","), ",", -1) == PrintPairs(ps)
    ensures '#' !in Join(PrintPairs(ps), ",")
  {
    var raws := PrintPairs(ps);
    forall i | 0 <= i < |raws| ensures SepFree(raws[i], ",") && '#' !in raws[i] {
      assert ',' !in raws[i];
      SepFreeChar(raws[i], ',');
    }
    SplitJoin(raws, ",", -1);
    JoinFreeOf(raws, ",", '#');
  }

  lemma SplitPrinted(mbean: string, attribute: string, path: string)
    requires '#' !in mbean && '#' !in attribute
    ensures SplitN(mbean + "#" + attribute, "#", 3) == [mbean, attribute]
    ensures SplitN(mbean + "#" + attribute + ("#" + path), "#", 3) == [mbean, attribute, path]
  {
    hide SplitN;
    SepFreeChar(mbean, '#');
    SepFreeChar(attribute, '#');
    SplitStep(mbean, attribute, 3);
    SplitStep(mbean, attribute + "#" + path, 3);
    SplitFirst(attribute, "#", path);
    SplitLast(attribute, 2);
    assert mbean + "#" + attribute + ("#" + path) == mbean + "#" + (attribute + "#" + path);
  }

  lemma SplitStep(first: string, rest: string, n: int)
    requires SepFree(first, "#") && n > 1
    ensures SplitN(first + "#" + rest, "#", n) == [first] + SplitN(rest, "#", n - 1)
  {
    IndexOfSeparator(first, "#", rest);
    assert (first + "#" + rest)[|first| + 1..] == rest && (first + "#" + rest)[..|first|] == first;
  }

  lemma SplitLast(s: string, n: int)
    requires SepFree(s, "#") && n > 0
    ensures SplitN(s, "#", n) == [s]
  {
    SepFreeHasNone(s, "#");
  }

  /** Round trip: a printed name parses back into its parts, the last value of a repeated key
      winning. */
  lemma PrintThenParse(n: Name)
    requires Printable(n)
    ensures ParseName(Print(n)) ==
      Success(Parts(PrintMBean(n), n.attribute, n.path, MapOf(n.properties).values, MapOf(n.properties).wildcards))
  {
    hide SplitN, PrintableProperty;
    var list := Join(PrintPairs(n.properties), ",");
    var mbean := PrintMBean(n);
    SplitProperties(n.properties);
    assert '#' !in mbean;
    SplitPrinted(mbean, n.attribute, n.path);
    assert mbean + "#" + n.attribute + "" == mbean + "#" + n.attribute;
    SepFreeChar(n.domain, ':');
    SplitFirst(n.domain, ":", list);
    assert PropertyList(mbean) == list;
    ParsePrintedPairs(n.properties);
  }

  /** The name of an MBean alone, as a response gives it, asks for all attributes. */
  predicate PrintableMBean(n: Name) {
    && n.properties != [] && '#' !in n.domain && ':' !in n.domain
    && forall i :: 0 <= i < |n.properties| ==> PrintableProperty(n.properties[i])
  }

  lemma PrintThenParseMBean(n: Name)
    requires PrintableMBean(n)
    ensures ParseName(PrintMBean(n)) ==
      Success(Parts(PrintMBean(n), "*", "", MapOf(n.properties).values, MapOf(n.properties).wildcards))
  {
    hide SplitN, PrintableProperty;
    var list := Join(PrintPairs(n.properties), ",");
    SplitProperties(n.properties);
    SepFreeChar(PrintMBean(n), '#');
    SplitLast(PrintMBean(n), 3);
    SepFreeChar(n.domain, ':');
    SplitFirst(n.domain, ":", list);
    assert PropertyList(PrintMBean(n)) == list;
    ParsePrintedPairs(n.properties);
  }

  /** The domain may be missing, with its colon. */
  lemma PrintThenParseProperties(ps: seq<(string, string)>)
    requires ps != [] && forall i :: 0 <= i < |ps| ==> PrintableProperty(ps[i])
    requires ':' !in Join(PrintPairs(ps), ",")
    ensures var list := Join(PrintPairs(ps), ",");
      ParseName(list) == Success(Parts(list, "*", "", MapOf(ps).values, MapOf(ps).wildcards))
  {
    hide SplitN, PrintableProperty;
    var list := Join(PrintPairs(ps), ",");
    SplitProperties(ps);
    SepFreeChar(list, '#');
    SplitLast(list, 3);
    SepFreeChar(list, ':');
    NoColon(list);
    ParsePrintedPairs(ps);
  }

  lemma NoColon(list: string)
    requires SepFree(list, ":")
    ensures PropertyList(list) == list
  {
    SepFreeHasNone(list, ":");
  }

  /* Errors. */

  /** What is wrong with one key property. */
  ghost predicate Wrong(raw: string, e: string) {
    var pair := TrimSpace(raw);
    if pair == "*" then e == "Must supply a key name for wildcard expression"
    else '=' !in pair && e == "must be 'key=value' format"
  }

  lemma WrongExact(raw: string, e: string)
    ensures ParsePair(raw) == Failure(e) <==> Wrong(raw, e)
  {
    hide TrimSpace;
    var pair := TrimSpace(raw);
    if '=' in pair {
      var i :| 0 <= i < |pair| && pair[i] == '=';
      assert pair[i..i + 1] == "=";
      assert OccursAt(pair, "=", i);
      assert Index(pair, "=") >= 0;
    } else {
      SepFreeChar(pair, '=');
      SepFreeHasNone(pair, "=");
    }
  }

  /** The first of the properties that are wrong is wrong in this way. */
  ghost predicate FirstError(raws: seq<string>, e: string) {
    exists i :: 0 <= i < |raws| && Wrong(raws[i], e) && forall j, f :: 0 <= j < i ==> !Wrong(raws[j], f)
  }

  /** Parsing the properties fails if and only if one is wrong, with the error of the first such one. */
  lemma {:induction false} FirstWrong(raws: seq<string>, e: string)
    ensures ParsePairs(raws) == Failure(e)
       <==> FirstError(raws, e)
  {
    hide Wrong, ParsePair;
    if raws != [] {
      var init, last := raws[..|raws| - 1], raws[|raws| - 1];
      assert raws == init + [last];
      FirstWrong(init, e);
      WrongExact(last, e);
      if ParsePairs(init).Success? {
        NoneWrong(init);
      } else {
        var f := ParsePairs(init).error;
        FirstWrong(init, f);
        var i :| 0 <= i < |init| && Wrong(init[i], f) && forall j, g :: 0 <= j < i ==> !Wrong(init[j], g);
        WrongOnce(init, i, f, e);
        assert forall k :: 0 <= k < |init| ==> raws[k] == init[k];
        assert Wrong(raws[i], f);
      }
    }
  }

  lemma WrongOnce(raws: seq<string>, i: nat, f: string, e: string)
    requires i < |raws| && Wrong(raws[i], f)
    ensures Wrong(raws[i], e) <==> e == f
  {}

  lemma NoneWrong(raws: seq<string>)
    requires ParsePairs(raws).Success?
    ensures forall j, f :: 0 <= j < |raws| ==> !Wrong(raws[j], f)
  {
    hide Wrong, ParsePair;
    if raws != [] {
      NoneWrong(raws[..|raws| - 1]);
      forall j, f | 0 <= j < |raws| ensures !Wrong(raws[j], f) {
        if j == |raws| - 1 { WrongExact(raws[j], f); } else { assert raws[..|raws| - 1][j] == raws[j]; }
      }
    }
  }

  /** A whole name fails for the same reason, whatever attribute and path it asks for. */
  lemma NameFails(domain: string, raws: seq<string>, rest: string, e: string)
    requires '#' !in domain && ':' !in domain && raws != [] && (rest == "" || rest[0] == '#')
    requires forall i :: 0 <= i < |raws| ==> '#' !in raws[i] && ',' !in raws[i]
    ensures ParseName(domain + ":" + Join(raws, ",") + rest) == Failure(e)
       <==> FirstError(raws, e)
  {
    hide FirstError, ParseName, ParsePairs;
    ReadsProperties(domain, raws, rest);
    FirstWrong(raws, e);
  }

  lemma ReadsProperties(domain: string, raws: seq<string>, rest: string)
    requires '#' !in domain && ':' !in domain && raws != [] && (rest == "" || rest[0] == '#')
    requires forall i :: 0 <= i < |raws| ==> '#' !in raws[i] && ',' !in raws[i]
    ensures var r := ParseName(domain + ":" + Join(raws, ",") + rest);
      if ParsePairs(raws).Failure? then r == Failure(ParsePairs(raws).error) else r.Success?
  {
    hide SplitN, ParsePairs, Join;
    var list := Join(raws, ",");
    var mbean := domain + ":" + list;
    forall i | 0 <= i < |raws| ensures SepFree(raws[i], ",") { SepFreeChar(raws[i], ','); }
    SplitJoin(raws, ",", -1);
    JoinFreeOf(raws, ",", '#');
    SepFreeChar(domain, ':');
    SplitFirst(domain, ":", list);
    assert PropertyList(mbean) == list;
    hide SepFree, PropertyList;
    FirstPart(mbean, rest);
  }

  lemma FirstPart(mbean: string, rest: string)
    requires '#' !in mbean && (rest == "" || rest[0] == '#')
    ensures SplitN(mbean + rest, "#", 3)[0] == mbean
  {
    SepFreeChar(mbean, '#');
    hide SplitN, SepFree;
    if rest == "" {
      SplitLast(mbean, 3);
      assert mbean + rest == mbean;
    } else {
      SplitStep(mbean, rest[1..], 3);
      assert mbean + rest == mbean + "#" + rest[1..];
    }
  }

  /* White space. */

  /** The characters trimmed, by number. */
  lemma SpacesByNumber(c: char)
    ensures var n := c as int;
      IsSpace(c) <==> || 9 <= n <= 13 || 0x2000 <= n <= 0x200a
                      || n in {32, 0x85, 0xa0, 0x1680, 0x2028, 0x2029, 0x202f, 0x205f, 0x3000}
  {}

  predicate AllSpace(s: string) {
    forall i :: 0 <= i < |s| ==> IsSpace(s[i])
  }

  /** Trimming takes white space off both ends, and nothing else. */
  lemma TrimExact(left: string, s: string, right: string)
    requires AllSpace(left) && AllSpace(right)
    requires s != "" ==> !IsSpace(s[0]) && !IsSpace(s[|s| - 1])
    ensures TrimSpace(left + s + right) == s
  {
    hide IsSpace;
    TrimsLeft(left, s + right);
    assert left + s + right == left + (s + right);
    if s == "" {
      assert "" + right == right;
      TrimsLeft(right, "");
      assert right + "" == right;
    } else {
      TrimsRight(s, right);
    }
  }

  lemma {:induction false} TrimsLeft(left: string, s: string)
    requires AllSpace(left)
    ensures TrimLeft(left + s) == TrimLeft(s)
    ensures s != "" && !IsSpace(s[0]) ==> TrimLeft(s) == s
  {
    hide IsSpace;
    if left == "" {
      assert left + s == s;
    } else {
      TrimsLeft(left[1..], s);
      assert (left + s)[1..] == left[1..] + s;
    }
  }

  lemma {:induction false} TrimsRight(s: string, right: string)
    requires AllSpace(right) && s != "" && !IsSpace(s[|s| - 1])
    ensures TrimRight(s + right) == s
  {
    hide IsSpace;
    if right == "" {
      assert s + right == s;
    } else {
      TrimsRight(s, right[..|right| - 1]);
      assert (s + right)[..|s + right| - 1] == s + right[..|right| - 1];
    }
  }

  /** With distinct keys the map holds exactly the properties. */
  lemma {:induction false} MapOfDistinct(ps: seq<(string, string)>)
    requires forall i, j :: 0 <= i < j < |ps| ==> ps[i].0 != ps[j].0
    ensures forall k, v :: (k in MapOf(ps).values && MapOf(ps).values[k] == v) <==> (k, v) in ps
  {
    if ps != [] {
      var init, last := ps[..|ps| - 1], ps[|ps| - 1];
      assert ps == init + [last];
      MapOfDistinct(init);
      assert forall i :: 0 <= i < |init| ==> ps[i].0 != last.0;
    }
  }

  /** The wildcard keys: those that were ever given the value "*". */
  lemma {:induction false} WildcardKeys(ps: seq<(string, string)>)
    ensures forall k :: k in MapOf(ps).wildcards <==> (k, "*") in ps
    ensures forall k :: k in MapOf(ps).values && MapOf(ps).values[k] == "*" ==> k in MapOf(ps).wildcards
    ensures MapOf(ps).wildcards <= MapOf(ps).values.Keys
  {
    if ps != [] {
      var init, last := ps[..|ps| - 1], ps[|ps| - 1];
      assert ps == init + [last];
      WildcardKeys(init);
    }
  }

  /** A wildcard is taken back by a later property with the same key. */
  ghost predicate TakenBack(ps: seq<(string, string)>, i: nat, j: nat)
    requires i < |ps| && j < |ps|
  {
    && i < j && ps[i].0 == ps[j].0 && ps[i].1 == "*" && ps[j].1 != "*"
    && forall k :: j < k < |ps| ==> ps[k].0 != ps[j].0
  }

  /** So the wildcard keys are exactly those valued "*" when, and only when, no wildcard is
      taken back; in particular for distinct keys. */
  lemma {:induction false} WildcardsExact(ps: seq<(string, string)>)
    ensures (forall k :: k in MapOf(ps).wildcards ==> k in MapOf(ps).values && MapOf(ps).values[k] == "*")
       <==> forall i, j :: 0 <= i < |ps| && 0 <= j < |ps| ==> !TakenBack(ps, i, j)
  {
    WildcardKeys(ps);
    if !(forall k :: k in MapOf(ps).wildcards ==> MapOf(ps).values[k] == "*") {
      var k :| k in MapOf(ps).wildcards && MapOf(ps).values[k] != "*";
      var i :| 0 <= i < |ps| && ps[i] == (k, "*");
      var j := LastOf(ps, k);
      assert TakenBack(ps, i, j);
    } else {
      forall i, j | 0 <= i < |ps| && 0 <= j < |ps| ensures !TakenBack(ps, i, j) {
        if i < j && ps[i].0 == ps[j].0 && ps[i].1 == "*" && forall k :: j < k < |ps| ==> ps[k].0 != ps[j].0 {
          assert (ps[i].0, "*") in ps;
          LastWins(ps, j);
        }
      }
    }
  }

  lemma MapOfTakenBack(k: string, v: string)
    requires v != "*"
    ensures MapOf([(k, "*"), (k, v)]) == Keys(map[k := v], {k})
  {
    var ps := [(k, "*"), (k, v)];
    assert ps[..1] == [(k, "*")] && ps[..1][..0] == [];
    assert MapOf(ps[..1]) == AddPair(MapOf([]), (k, "*"));
    assert MapOf(ps) == AddPair(MapOf(ps[..1]), (k, v));
  }

  /** For example d:k=*,k=v#a: the key is a wildcard although its value is v. */
  lemma WildcardTakenBackExample()
    ensures ParseName("d:k=*,k=v#a") == Success(Parts("d:k=*,k=v", "a", "", map["k" := "v"], {"k"}))
  {
    hide ParseName, Printable, Print, PrintMBean, MapOf;
    var n := Name("d", [("k", "*"), ("k", "v")], "a", "");
    ExamplePrintable(n);
    PrintThenParse(n);
    MapOfTakenBack("k", "v");
  }

  lemma ExamplePrintable(n: Name)
    requires n == Name("d", [("k", "*"), ("k", "v")], "a", "")
    ensures Printable(n) && Print(n) == "d:k=*,k=v#a" && PrintMBean(n) == "d:k=*,k=v"
  {
    assert "k" + "=" + "*" == "k=*" && "k" + "=" + "v" == "k=v";
    assert PrintableProperty(n.properties[0]) && PrintableProperty(n.properties[1]);
    var pairs := PrintPairs(n.properties);
    assert pairs[1..] == ["k=v"];
    assert Join(pairs, ",") == "k=*,k=v";
    assert PrintMBean(n) == "d:k=*,k=v";
  }

  lemma {:induction false} LastWins(ps: seq<(string, string)>, j: nat)
    requires j < |ps| && forall k :: j < k < |ps| ==> ps[k].0 != ps[j].0
    ensures ps[j].0 in MapOf(ps).values && MapOf(ps).values[ps[j].0] == ps[j].1
  {
    if j < |ps| - 1 { LastWins(ps[..|ps| - 1], j); }
  }

  lemma {:induction false} LastOf(ps: seq<(string, string)>, k: string) returns (j: nat)
    requires k in MapOf(ps).values
    ensures j < |ps| && ps[j] == (k, MapOf(ps).values[k]) && forall i :: j < i < |ps| ==> ps[i].0 != k
  {
    var last := |ps| - 1;
    if ps[last].0 == k {
      j := last;
    } else {
      j := LastOf(ps[..last], k);
    }
  }
}
