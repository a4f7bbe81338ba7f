/** Token expansion: Go's `os.Expand` driven by the agent's mapping function
    (util/expand/mapping_func.go), and the laws of the two expansion phases. */
module Expansion {
  import opened Text

  type Env = map<string, string>

  predicate IsAlphaNum(c: char) {
    c == '_' || '0' <= c <= '9' || 'a' <= c <= 'z' || 'A' <= c <= 'Z'
  }

  predicate IsShellSpecialVar(c: char) {
    c in {'*', '#', '$', '@', '!', '?'} || '0' <= c <= '9'
  }

  function AlphaNumPrefix(s: string): (n: nat)
    ensures n <= |s|
    ensures forall i :: 0 <= i < n ==> IsAlphaNum(s[i])
  {
    if s == "" || !IsAlphaNum(s[0]) then 0 else 1 + AlphaNumPrefix(s[1..])
  }

  /** The variable name that follows a '$', and how many characters it takes. */
  function ShellName(s: string): (r: (string, nat))
    requires s != ""
    ensures r.1 <= |s|
    ensures '}' !in r.0
  {
    if s[0] == '{' then
      var i := Index(s, "}");
      if i < 0 then ("", 1)  // bad syntax: only the brace is eaten
      else
        assert forall k :: 0 <= k < i ==> s[k..k + 1] == [s[k]] && !OccursAt(s, "}", k);
        (s[1..i], i + 1)
    else if IsShellSpecialVar(s[0]) then (s[..1], 1)
    else
      var n := AlphaNumPrefix(s);
      (s[..n], n)
  }

  /** `os.Expand`: replaces ${name} and $name by `m(name)`; a final '$' stands for itself. */
  function Expand(s: string, m: string -> string): string
    decreases |s|
  {
    if s == "" then ""
    else if s[0] == '$' && |s| > 1 then
      var (name, w) := ShellName(s[1..]);
      m(name) + Expand(s[1 + w..], m)
    else [s[0]] + Expand(s[1..], m)
  }

  /** `MappingFuncConfig`; `os` is the empty map when the OS environment is not used. */
  datatype Config = Config(env: Env, os: Env, keepUnknown: bool)

  /** The closure that `MappingFunc` returns. */
  function MapName(c: Config, s: string): string {
    if s == "$" then "$"
    else
      var parts := SplitN(s, "=", 2);
      var default := if |parts| == 2 then parts[1] else if c.keepUnknown then "${" + s + "}" else "";
      var name := if |parts| == 2 then parts[0] else s;
      if name in c.env then c.env[name]
      else if name in c.os then c.os[name]
      else default
  }

  function Mapping(c: Config): string -> string {
    s => MapName(c, s)
  }

  /** First phase for metric names and IDs: pod environment only, unknown names kept. */
  function PodPhase(env: Env): string -> string {
    Mapping(Config(env, map[], true))
  }

  /** Second phase: the tags of one datapoint, unknown names become empty. */
  function TagPhase(tags: Env): string -> string {
    Mapping(Config(tags, map[], false))
  }

  /** What the two phases do to one name: the tags are consulted only for a name that
      carries no default and is not in the pod environment. */
  function BothPhases(env: Env, tags: Env): string -> string {
    name => if MapName(Config(env, map[], true), name) == "${" + name + "}"
        then MapName(Config(tags, map[], false), name)
            else MapName(Config(env, map[], true), name)
  }

  /** The token names of a template. */
  function Names(s: string): set<string>
    decreases |s|
  {
    if s == "" then {}
    else if s[0] == '$' && |s| > 1 then
      var (name, w) := ShellName(s[1..]);
      {name} + Names(s[1 + w..])
    else Names(s[1..])
  }

  /** The first phase either keeps the name as ${name} or replaces it by text without '$'. */
  predicate SettledAfterPod(env: Env, name: string) {
    var v := MapName(Config(env, map[], true), name);
    v == "${" + name + "}" || '$' !in v
  }

  lemma {:induction false} ExpandLiteral(a: string, b: string, m: string -> string)
    requires '$' !in a
    ensures Expand(a + b, m) == a + Expand(b, m)
  {
    if a == "" {
      assert a + b == b;
    } else {
      hide Expand;
      ExpandLiteral(a[1..], b, m);
      ExpandChar(a[0], a[1..] + b, m);
      assert a + b == [a[0]] + (a[1..] + b);
      assert a == [a[0]] + a[1..];
    }
  }

  lemma ExpandChar(c: char, s: string, m: string -> string)
    requires c != '$'
    ensures Expand([c] + s, m) == [c] + Expand(s, m)
  {
    assert ([c] + s)[1..] == s;
  }

  lemma ExpandPlain(a: string, m: string -> string)
    requires '$' !in a
    ensures Expand(a, m) == a
  {
    ExpandLiteral(a, "", m);
    assert a + "" == a;
  }

  lemma ExpandToken(name: string, b: string, m: string -> string)
    requires '}' !in name
    ensures Expand("${" + name + "}" + b, m) == m(name) + Expand(b, m)
  {
    var s := "${" + name + "}" + b;
    var t := s[1..];
    assert t == ("{" + name) + "}" + b;
    SepFreeChar("{" + name, '}');
    IndexOfSeparator("{" + name, "}", b);
    assert t[1..|name| + 1] == name;
    assert s[1 + (|name| + 2)..] == b;
  }

  /** A mapping that keeps a name or settles it, followed by a second mapping, is one mapping. */
  lemma {:induction false} ExpandTwice(t: string, p: string -> string, q: string -> string, both: string -> string)
    requires forall n :: n in Names(t) ==>
      (p(n) == "${" + n + "}" && both(n) == q(n)) || ('$' !in p(n) && both(n) == p(n))
    ensures Expand(Expand(t, p), q) == Expand(t, both)
    decreases |t|
  {
    if t == "" {
    } else if t[0] == '$' && |t| > 1 {
      var (name, w) := ShellName(t[1..]);
      var rest := t[1 + w..];
      ExpandTwice(rest, p, q, both);
      if p(name) == "${" + name + "}" && both(name) == q(name) {
        ExpandToken(name, Expand(rest, p), q);
      } else {
        ExpandLiteral(p(name), Expand(rest, p), q);
      }
    } else {
      ExpandTwice(t[1..], p, q, both);
      if t[0] == '$' {
        assert t == "$";
      } else {
        ExpandLiteral([t[0]], Expand(t[1..], p), q);
      }
    }
  }

  /** The two expansion phases fuse into one, for any template whose tokens settle in the
      first phase. */
  lemma PhasesFuse(t: string, env: Env, tags: Env)
    requires forall n :: n in Names(t) ==> SettledAfterPod(env, n)
    ensures Expand(Expand(t, PodPhase(env)), TagPhase(tags)) == Expand(t, BothPhases(env, tags))
  {
    ExpandTwice(t, PodPhase(env), TagPhase(tags), BothPhases(env, tags));
  }

  predicate HasDefault(name: string) {
    |SplitN(name, "=", 2)| == 2
  }

  /** The x of ${x} and of ${x=d}. */
  function TokenKey(name: string): string {
    SplitN(name, "=", 2)[0]
  }

  function TokenDefault(name: string): string
    requires HasDefault(name)
  {
    SplitN(name, "=", 2)[1]
  }

  lemma NoDefault(name: string)
    requires '=' !in name
    ensures !HasDefault(name) && TokenKey(name) == name
  {
    SepFreeChar(name, '=');
    SepFreeHasNone(name, "=");
  }

  lemma WithDefault(x: string, d: string)
    requires '=' !in x
    ensures HasDefault(x + "=" + d) && TokenKey(x + "=" + d) == x && TokenDefault(x + "=" + d) == d
    ensures x + "=" + d != "$"
  {
    SepFreeChar(x, '=');
    SplitFirst(x, "=", d);
    assert (x + "=" + d)[|x|] == '=';
  }

  /** A token without default names its key. */
  lemma NoDefaultKey(name: string)
    requires !HasDefault(name)
    ensures TokenKey(name) == name
  {}

  /** The first phase takes no default that a tag would have replaced. */
  predicate DefaultHarmless(env: Env, tags: Env, name: string) {
    HasDefault(name) ==>
      var x, d := TokenKey(name), TokenDefault(name);
      x in env || ('$' !in d && (x !in tags || tags[x] == d))
  }

  lemma HarmlessToken(env: Env, tags: Env, n: string)
    requires n != "$" && DefaultHarmless(env, tags, n)
    requires forall k :: k in env ==> '$' !in env[k]
    ensures SettledAfterPod(env, n) && BothPhases(env, tags)(n) == TagPhase(tags + env)(n)
  {
    hide SplitN;
    var x, token := TokenKey(n), "${" + n + "}";
    assert token[0] == '$';
    if !HasDefault(n) { NoDefaultKey(n); }
    if x in env || HasDefault(n) { assert '$' in token; }
  }

  /** Without `$$`, and with defaults that are harmless token by token, the fused expansion is one
      ordinary expansion in which the pod environment takes precedence over the tags, the tags over
      defaults, and unknown names become empty. */
  lemma PhasesFuseToOne(t: string, env: Env, tags: Env)
    requires forall n :: n in Names(t) ==> n != "$" && DefaultHarmless(env, tags, n)
    requires forall k :: k in env ==> '$' !in env[k]
    ensures Expand(Expand(t, PodPhase(env)), TagPhase(tags)) == Expand(t, TagPhase(tags + env))
  {
    hide Expand, Names, DefaultHarmless;
    forall n | n in Names(t)
      ensures SettledAfterPod(env, n) && BothPhases(env, tags)(n) == TagPhase(tags + env)(n)
    {
      HarmlessToken(env, tags, n);
    }
    PhasesFuse(t, env, tags);
    ExpandCongruent(t, BothPhases(env, tags), TagPhase(tags + env));
  }

  lemma {:induction false} ExpandCongruent(t: string, f: string -> string, g: string -> string)
    requires forall n :: n in Names(t) ==> f(n) == g(n)
    ensures Expand(t, f) == Expand(t, g)
    decreases |t|
  {
    if t == "" {
    } else if t[0] == '$' && |t| > 1 {
      ExpandCongruent(t[1 + ShellName(t[1..]).1..], f, g);
    } else {
      ExpandCongruent(t[1..], f, g);
    }
  }

  lemma ExpandOneToken(a: string, token: string, b: string, m: string -> string)
    requires '$' !in a && '$' !in b && '}' !in token
    ensures Expand(a + ("${" + token + "}" + b), m) == a + m(token) + b
  {
    hide Expand;
    ExpandLiteral(a, "${" + token + "}" + b, m);
    ExpandToken(token, b, m);
    ExpandPlain(b, m);
  }

  lemma MapDefault(c: Config, x: string, d: string)
    requires '=' !in x
    ensures MapName(c, x + "=" + d) == if x in c.env then c.env[x] else if x in c.os then c.os[x] else d
  {
    hide SplitN;
    WithDefault(x, d);
  }

  lemma SurroundedEqual(a: string, x: string, y: string, b: string)
    ensures a + x + b == a + y + b <==> x == y
  {
    if a + x + b == a + y + b {
      assert |x| == |y|;
      assert (a + x + b)[|a|..|a| + |x|] == x && (a + y + b)[|a|..|a| + |y|] == y;
    }
  }

  /* Texts written as a list of pieces. */

  datatype Piece = Lit(s: string) | Tok(name: string)

  predicate WellWritten(ps: seq<Piece>) {
    forall i :: 0 <= i < |ps| ==> if ps[i].Lit? then '$' !in ps[i].s else '}' !in ps[i].name
  }

  function WriteOne(piece: Piece): string {
    if piece.Lit? then piece.s else "${" + piece.name + "}"
  }

  function Written(ps: seq<Piece>): string {
    if ps == [] then "" else WriteOne(ps[0]) + Written(ps[1..])
  }

  function FillOne(piece: Piece, m: string -> string): string {
    if piece.Lit? then piece.s else m(piece.name)
  }

  function Filled(ps: seq<Piece>, m: string -> string): string {
    if ps == [] then "" else FillOne(ps[0], m) + Filled(ps[1..], m)
  }

  lemma ExpandPiece(piece: Piece, rest: string, m: string -> string)
    requires WellWritten([piece])
    ensures Expand(WriteOne(piece) + rest, m) == FillOne(piece, m) + Expand(rest, m)
  {
    hide Expand;
    assert [piece][0] == piece;
    if piece.Lit? { ExpandLiteral(piece.s, rest, m); } else { ExpandToken(piece.name, rest, m); }
  }

  lemma WrittenFirst(ps: seq<Piece>, rest: string, m: string -> string)
    requires ps != []
    ensures Written(ps) + rest == WriteOne(ps[0]) + (Written(ps[1..]) + rest)
    ensures forall tail :: Filled(ps, m) + tail == FillOne(ps[0], m) + (Filled(ps[1..], m) + tail)
  {
    hide WriteOne, FillOne;
  }

  lemma WellWrittenParts(ps: seq<Piece>)
    requires ps != [] && WellWritten(ps)
    ensures WellWritten([ps[0]]) && WellWritten(ps[1..])
  {}

  lemma {:induction false} ExpandWritten(ps: seq<Piece>, rest: string, m: string -> string)
    requires WellWritten(ps)
    ensures Expand(Written(ps) + rest, m) == Filled(ps, m) + Expand(rest, m)
  {
    hide Expand, WellWritten, WriteOne, FillOne;
    if ps == [] {
      assert "" + rest == rest && "" + Expand(rest, m) == Expand(rest, m);
    } else {
      WellWrittenParts(ps);
      var tail := Written(ps[1..]) + rest;
      WrittenFirst(ps, rest, m);
      hide Written, Filled;
      ExpandPiece(ps[0], tail, m);
      ExpandWritten(ps[1..], rest, m);
    }
  }

  /** `p` keeps each token of the pieces for `q`, or settles it. */
  ghost predicate Fuses(ps: seq<Piece>, p: string -> string, q: string -> string, both: string -> string) {
    forall i :: 0 <= i < |ps| && ps[i].Tok? ==>
      var n := ps[i].name;
      (p(n) == "${" + n + "}" && both(n) == q(n)) || ('$' !in p(n) && both(n) == p(n))
  }

  /** The second phase of what the first one makes of the pieces. */
  lemma {:induction false} ExpandFilled(ps: seq<Piece>, tail: string, p: string -> string, q: string -> string,
                                        both: string -> string)
    requires WellWritten(ps) && Fuses(ps, p, q, both)
    ensures Expand(Filled(ps, p) + tail, q) == Filled(ps, both) + Expand(tail, q)
  {
    hide Expand, WellWritten, Fuses, WriteOne, FillOne;
    if ps == [] {
      assert "" + tail == tail && "" + Expand(tail, q) == Expand(tail, q);
    } else {
      FusesParts(ps, p, q, both);
      WrittenFirst(ps, tail, p);
      WrittenFirst(ps, tail, both);
      hide Written, Filled;
      FillTwice(ps[0], Filled(ps[1..], p) + tail, p, q, both);
      ExpandFilled(ps[1..], tail, p, q, both);
    }
  }

  lemma ExpandWrittenTwice(ps: seq<Piece>, rest: string, p: string -> string, q: string -> string,
                           both: string -> string)
    requires WellWritten(ps) && Fuses(ps, p, q, both)
    ensures Expand(Expand(Written(ps) + rest, p), q) == Filled(ps, both) + Expand(Expand(rest, p), q)
  {
    hide Expand, WellWritten, Fuses, Written, Filled;
    ExpandWritten(ps, rest, p);
    ExpandFilled(ps, Expand(rest, p), p, q, both);
  }

  lemma FusesParts(ps: seq<Piece>, p: string -> string, q: string -> string, both: string -> string)
    requires ps != [] && WellWritten(ps) && Fuses(ps, p, q, both)
    ensures WellWritten([ps[0]]) && WellWritten(ps[1..]) && Fuses([ps[0]], p, q, both) && Fuses(ps[1..], p, q, both)
  {}

  lemma FillTwice(piece: Piece, tail: string, p: string -> string, q: string -> string, both: string -> string)
    requires WellWritten([piece]) && Fuses([piece], p, q, both)
    ensures Expand(FillOne(piece, p) + tail, q) == FillOne(piece, both) + Expand(tail, q)
  {
    hide Expand;
    assert [piece][0] == piece;
    if piece.Tok? && p(piece.name) == "${" + piece.name + "}" && both(piece.name) == q(piece.name) {
      ExpandToken(piece.name, tail, q);
    } else {
      ExpandLiteral(FillOne(piece, p), tail, q);
    }
  }

  /** The tokens of the pieces carry no default that hides a tag, and none is `$$`. */
  predicate HarmlessPieces(ps: seq<Piece>, env: Env, tags: Env) {
    forall i :: 0 <= i < |ps| && ps[i].Tok? ==> ps[i].name != "$" && DefaultHarmless(env, tags, ps[i].name)
  }

  lemma HarmlessFuse(ps: seq<Piece>, env: Env, tags: Env)
    requires HarmlessPieces(ps, env, tags) && forall k :: k in env ==> '$' !in env[k]
    ensures Fuses(ps, PodPhase(env), TagPhase(tags), TagPhase(tags + env))
  {
    hide MapName, DefaultHarmless;
    forall i | 0 <= i < |ps| && ps[i].Tok?
      ensures var n, p := ps[i].name, PodPhase(env);
        (p(n) == "${" + n + "}" && TagPhase(tags + env)(n) == TagPhase(tags)(n))
        || ('$' !in p(n) && TagPhase(tags + env)(n) == p(n))
    {
      HarmlessToken(env, tags, ps[i].name);
    }
  }

  /** In a text whose other tokens are harmless, a default ${x=d} expands in two phases as it would in
      one exactly when x is in the pod environment, is no tag, or its tag equals the default. */
  lemma DefaultExact(ps: seq<Piece>, x: string, d: string, b: string, env: Env, tags: Env)
    requires WellWritten(ps) && HarmlessPieces(ps, env, tags)
    requires forall n :: n in Names(b) ==> n != "$" && DefaultHarmless(env, tags, n)
    requires '$' !in d && '}' !in d && PlainKey(x)
    requires forall k :: k in env ==> '$' !in env[k]
    ensures var t := Written(ps) + ("${" + (x + "=" + d) + "}" + b);
      Expand(Expand(t, PodPhase(env)), TagPhase(tags)) == Expand(t, TagPhase(tags + env))
      <==> (x in env || x !in tags || tags[x] == d)
  {
    hide Expand, MapName, Filled, Written, Names, DefaultHarmless, HarmlessPieces;
    var name, both := x + "=" + d, TagPhase(tags + env);
    MapDefault(Config(env, map[], true), x, d);
    MapDefault(Config(tags + env, map[], false), x, d);
    var first, rest := PodPhase(env)(name), "${" + name + "}" + b;
    assert '$' !in first && '}' !in name;
    HarmlessFuse(ps, env, tags);
    ExpandWrittenTwice(ps, rest, PodPhase(env), TagPhase(tags), both);
    ExpandWritten(ps, rest, both);
    ExpandToken(name, b, PodPhase(env));
    ExpandLiteral(first, Expand(b, PodPhase(env)), TagPhase(tags));
    ExpandToken(name, b, both);
    PhasesFuseToOne(b, env, tags);
    AroundEqual(Filled(ps, both), first, both(name), Expand(b, both));
  }

  lemma AroundEqual(a: string, x: string, y: string, b: string)
    ensures a + (x + b) == a + (y + b) <==> x == y
  {
    SurroundedEqual(a, x, y, b);
    assert a + (x + b) == a + x + b && a + (y + b) == a + y + b;
  }

  /** For example without a pod environment: ${x=d} becomes d, whatever the datapoint's tag x. */
  lemma DefaultHidesTag(d: string, v: string)
    requires '$' !in d && '}' !in d && v != d
    ensures var t := "${" + ("x" + "=" + d) + "}";
      Expand(Expand(t, PodPhase(map[])), TagPhase(map["x" := v])) == d && Expand(t, TagPhase(map["x" := v])) == v
  {
    hide Expand, MapName;
    var name := "x" + "=" + d;
    var t := "${" + name + "}";
    assert t == t + "" && d + "" == d && v + "" == v;
    MapDefault(Config(map[], map[], true), "x", d);
    MapDefault(Config(map["x" := v], map[], false), "x", d);
    ExpandToken(name, "", PodPhase(map[]));
    ExpandToken(name, "", TagPhase(map["x" := v]));
    ExpandPlain("", PodPhase(map[]));
    ExpandPlain("", TagPhase(map["x" := v]));
    ExpandPlain(d, TagPhase(map["x" := v]));
  }

  /* A literal dollar, read by a second expansion. */

  /** `$$` becomes `$` in one phase. */
  lemma DollarFirst(b: string, p: string -> string)
    requires p("$") == "$"
    ensures Expand("$$" + b, p) == "$" + Expand(b, p)
  {
    var s := "$$" + b;
    assert s[1..] == "$" + b && s[1..][..1] == "$" && s[2..] == b;
    assert ShellName(s[1..]) == ("$", 1);
  }

  /** The name that a dollar in front of `r` would have, and the text it takes. */
  function NameBehind(r: string): string {
    if r == "" then "" else ShellName(r).0
  }

  function TextBehind(r: string): string {
    if r == "" then "" else r[..ShellName(r).1]
  }

  /** A dollar in front of `r` survives the expansion exactly at the end, or when the name behind it is
      replaced by the dollar and what stands there. */
  lemma DollarSecond(r: string, q: string -> string)
    requires '$' !in TextBehind(r)
    ensures Expand("$" + r, q) == "$" + Expand(r, q) <==> r == "" || q(NameBehind(r)) == "$" + TextBehind(r)
  {
    if r == "" {
      assert "$" + r == "$" && Expand("$", q) == ['$'] + Expand("$"[1..], q);
    } else {
      hide Expand, NameBehind, TextBehind;
      var text := TextBehind(r);
      ExpandDollar(r, q);
      var rest := Expand(r[|text|..], q);
      ExpandLiteral(text, r[|text|..], q);
      Associate("$", text, rest);
      AroundEqual("", q(NameBehind(r)), "$" + text, rest);
      assert "" + (q(NameBehind(r)) + rest) == q(NameBehind(r)) + rest;
      assert "" + ("$" + text + rest) == "$" + text + rest;
    }
  }

  lemma ExpandDollar(r: string, q: string -> string)
    requires r != ""
    ensures |TextBehind(r)| <= |r| && r == TextBehind(r) + r[|TextBehind(r)|..]
    ensures Expand("$" + r, q) == q(NameBehind(r)) + Expand(r[|TextBehind(r)|..], q)
  {
    hide ShellName;
    var s, w := "$" + r, ShellName(r).1;
    assert s[1..] == r && s[1 + w..] == r[w..] && r == r[..w] + r[w..];
  }

  /** Directly in front of a token that the first phase kept, it survives exactly when the token becomes
      its own name in braces: the second phase reads `$$`. */
  lemma DollarBeforeToken(n: string, rest: string, q: string -> string)
    requires '}' !in n && '$' !in n && q("$") == "$"
    ensures Expand("$" + ("${" + n + "}" + rest), q) == "$" + Expand("${" + n + "}" + rest, q)
      <==> q(n) == "{" + n + "}"
  {
    hide Expand;
    var braced := "{" + n + "}" + rest;
    assert "$" + ("${" + n + "}" + rest) == "$$" + braced;
    DollarFirst(braced, q);
    ExpandToken(n, rest, q);
    BracedLiteral(n, rest, q);
    AroundEqual("$", "{" + n + "}", q(n), Expand(rest, q));
  }

  lemma BracedLiteral(n: string, rest: string, q: string -> string)
    requires '$' !in n
    ensures Expand("{" + n + "}" + rest, q) == "{" + n + "}" + Expand(rest, q)
  {
    ExpandLiteral("{" + n + "}", rest, q);
  }

  lemma PartsOfToken(name: string)
    requires HasDefault(name)
    ensures name == TokenKey(name) + "=" + TokenDefault(name)
  {
    var i := Index(name, "=");
    assert OccursAt(name, "=", i);
    assert name[i..i + 1] == "=";
    assert SplitN(name[i + 1..], "=", 1) == [name[i + 1..]];
    assert name == name[..i] + "=" + name[i + 1..];
  }

  lemma NameWithinText(r: string)
    ensures forall c :: c in NameBehind(r) ==> c in TextBehind(r)
  {
    if r != "" && r[0] == '{' && Index(r, "}") >= 0 {
      var i := Index(r, "}");
      assert forall j :: 0 <= j < |r[1..i]| ==> r[1..i][j] == r[..i + 1][j + 1];
    }
  }

  /** No default in the name behind holds a dollar. */
  lemma DefaultBehind(r: string)
    requires '$' !in TextBehind(r)
    ensures NameBehind(r) != "$" && (HasDefault(NameBehind(r)) ==> '$' !in TokenDefault(NameBehind(r)))
  {
    var name := NameBehind(r);
    NameWithinText(r);
    assert "$"[0] in "$";
    if HasDefault(name) {
      PartsOfToken(name);
      assert forall c :: c in TokenDefault(name) ==> c in name;
    }
  }

  /** A tag spells the dollar and the text behind it. */
  predicate TagSpells(tags: Env, r: string) {
    var x := TokenKey(NameBehind(r));
    x in tags && tags[x] == "$" + TextBehind(r)
  }

  /** So does the pod environment, or ${x} stands there and the environment does not set x. */
  predicate PodSpells(env: Env, r: string) {
    var name := NameBehind(r);
    var x := TokenKey(name);
    if x in env then env[x] == "$" + TextBehind(r) else !HasDefault(name) && TextBehind(r) == "{" + name + "}"
  }

  lemma TagSpelling(tags: Env, r: string)
    requires '$' !in TextBehind(r)
    ensures TagPhase(tags)(NameBehind(r)) == "$" + TextBehind(r) <==> TagSpells(tags, r)
  {
    hide SplitN, NameBehind, TextBehind;
    DefaultBehind(r);
    var name := NameBehind(r);
    if !HasDefault(name) { NoDefaultKey(name); }
    assert ("$" + TextBehind(r))[0] == '$';
    assert TokenKey(name) in tags ==> TagPhase(tags)(name) == tags[TokenKey(name)];
  }

  lemma PodSpelling(env: Env, r: string)
    requires '$' !in TextBehind(r)
    ensures PodPhase(env)(NameBehind(r)) == "$" + TextBehind(r) <==> PodSpells(env, r)
  {
    hide SplitN, NameBehind, TextBehind;
    DefaultBehind(r);
    var name, text := NameBehind(r), TextBehind(r);
    if !HasDefault(name) { NoDefaultKey(name); }
    assert ("$" + text)[0] == '$';
    assert "${" + name + "}" == "$" + ("{" + name + "}");
    SamePrefix("$", "{" + name + "}", text);
    assert TokenKey(name) in env ==> PodPhase(env)(name) == env[TokenKey(name)];
  }

  lemma SamePrefix(p: string, a: string, b: string)
    ensures p + a == p + b <==> a == b
  {
    if p + a == p + b { assert (p + a)[|p|..] == a && (p + b)[|p|..] == b; }
  }

  /** In a text that is expanded again, with `suffix` behind it, the dollar of `$$` survives exactly when
      nothing stands behind it then, or the second phase replaces the name behind it by the dollar and what
      stands there. */
  lemma DollarExact(ps: seq<Piece>, b: string, suffix: string, p: string -> string, q: string -> string,
                    both: string -> string)
    requires WellWritten(ps) && Fuses(ps, p, q, both) && p("$") == "$"
    requires '$' !in TextBehind(Expand(b, p) + suffix)
    ensures var r := Expand(b, p) + suffix;
      Expand(Expand(Written(ps) + ("$$" + b), p) + suffix, q) == Filled(ps, both) + ("$" + Expand(r, q))
      <==> r == "" || q(NameBehind(r)) == "$" + TextBehind(r)
  {
    hide Expand, TextBehind, NameBehind, Written, Filled, Fuses, WellWritten;
    var r := Expand(b, p) + suffix;
    ExpandWritten(ps, "$$" + b, p);
    DollarFirst(b, p);
    assert Filled(ps, p) + ("$" + Expand(b, p)) + suffix == Filled(ps, p) + ("$" + r);
    ExpandFilled(ps, "$" + r, p, q, both);
    DollarSecond(r, q);
    SamePrefix(Filled(ps, both), Expand("$" + r, q), "$" + Expand(r, q));
  }

  /* Default series IDs: name{k1=v1,k2=v2,...} */

  function Tokens(keys: seq<string>): (r: seq<string>)
    ensures |r| == |keys|
  {
    seq(|keys|, i requires 0 <= i < |keys| => keys[i] + "=${" + keys[i] + "}")
  }

  /** The template given to a metric that has tagged datapoints but no ${...} in its ID. */
  function DefaultTemplate(name: string, keys: seq<string>): string {
    name + "{" + (if keys == [] then "" else Join(Tokens(keys), ",")) + "}"
  }

  function TagValue(tags: Env, key: string): string {
    if key in tags then tags[key] else ""
  }

  function Pairs(keys: seq<string>, tags: Env): (r: seq<string>)
    ensures |r| == |keys|
  {
    seq(|keys|, i requires 0 <= i < |keys| => keys[i] + "=" + TagValue(tags, keys[i]))
  }

  predicate PlainKey(k: string) {
    '$' !in k && '=' !in k && '}' !in k
  }

  lemma PlainKeyValue(k: string, tags: Env)
    requires PlainKey(k)
    ensures TagPhase(tags)(k) == TagValue(tags, k)
  {
    NoDefault(k);
    assert "$"[0] in "$";
  }

  lemma ExpandPair(k: string, tail: string, m: string -> string)
    requires PlainKey(k)
    ensures Expand(k + "=${" + k + "}" + tail, m) == k + "=" + m(k) + Expand(tail, m)
  {
    assert k + "=${" + k + "}" + tail == (k + "=") + ("${" + k + "}" + tail);
    ExpandLiteral(k + "=", "${" + k + "}" + tail, m);
    ExpandToken(k, tail, m);
  }

  lemma {:induction false} ExpandTokens(keys: seq<string>, tags: Env, b: string)
    requires keys != [] && forall i :: 0 <= i < |keys| ==> PlainKey(keys[i])
    ensures Expand(Join(Tokens(keys), ",") + b, TagPhase(tags))
         == Join(Pairs(keys, tags), ",") + Expand(b, TagPhase(tags))
    decreases |keys|
  {
    hide Expand;
    var k, m, rest := keys[0], TagPhase(tags), keys[1..];
    assert Tokens(keys)[1..] == Tokens(rest) && Pairs(keys, tags)[1..] == Pairs(rest, tags);
    PlainKeyValue(k, tags);
    if rest == [] {
      ExpandPair(k, b, m);
    } else {
      var tail := Join(Tokens(rest), ",") + b;
      assert Join(Tokens(keys), ",") + b == k + "=${" + k + "}" + ("," + tail);
      ExpandPair(k, "," + tail, m);
      ExpandLiteral(",", tail, m);
      ExpandTokens(rest, tags, b);
    }
  }

  /** Expanding the default template with a datapoint's tags prints name{k1=v1,...,kn=vn}. */
  lemma DefaultIdForm(name: string, keys: seq<string>, tags: Env)
    requires '$' !in name && keys != []
    requires forall i :: 0 <= i < |keys| ==> PlainKey(keys[i])
    ensures Expand(DefaultTemplate(name, keys), TagPhase(tags)) == name + "{" + Join(Pairs(keys, tags), ",") + "}"
  {
    var body := Join(Tokens(keys), ",");
    assert DefaultTemplate(name, keys) == (name + "{") + (body + "}");
    ExpandLiteral(name + "{", body + "}", TagPhase(tags));
    ExpandTokens(keys, tags, "}");
    ExpandPlain("}", TagPhase(tags));
  }

  /** What separates a key's value from the next key. */
  function Divider(next: string): string {
    "," + next + "="
  }

  /** No value looks as if it went on to the next key; the last value may hold anything. */
  predicate Unambiguous(keys: seq<string>, tags: Env) {
    forall i :: 0 <= i < |keys| - 1 ==> !Contains(TagValue(tags, keys[i]), Divider(keys[i + 1]))
  }

  /** An occurrence that begins in `value` cannot end behind it: the divider's one "=" is its end. */
  lemma DividerInside(value: string, next: string, k: int)
    requires '=' !in next
    requires OccursAt(value + Divider(next)[..|next| + 1], Divider(next), k)
    ensures OccursAt(value, Divider(next), k)
  {
    var sep := Divider(next);
    var y, last := value + sep[..|next| + 1], k + |next| + 1;
    assert y[last] == y[k..k + |sep|][|next| + 1] == '=';
    assert forall i :: |value| <= i < |y| ==> y[i] != '=';
    assert value[k..k + |sep|] == y[k..k + |sep|];
  }

  lemma DividerFree(value: string, next: string)
    requires '=' !in next && !Contains(value, Divider(next))
    ensures SepFree(value, Divider(next))
  {
    var sep := Divider(next);
    var y := value + sep[..|sep| - 1];
    forall k ensures !OccursAt(y, sep, k) {
      if OccursAt(y, sep, k) { DividerInside(value, next, k); }
    }
  }

  lemma JoinStarts(parts: seq<string>, sep: string)
    requires parts != []
    ensures |parts[0]| <= |Join(parts, sep)| && Join(parts, sep)[..|parts[0]|] == parts[0]
  {}

  lemma PairsStart(keys: seq<string>, tags: Env)
    requires keys != []
    ensures var j := Join(Pairs(keys, tags), ","); |j| > |keys[0]| && j == (keys[0] + "=") + j[|keys[0]| + 1..]
  {
    hide Join, TagValue;
    var j, p, k := Join(Pairs(keys, tags), ","), Pairs(keys, tags)[0], keys[0];
    JoinStarts(Pairs(keys, tags), ",");
    assert p == k + "=" + TagValue(tags, k);
    assert j[..|k| + 1] == p[..|k| + 1] == k + "=";
  }

  lemma PairsRest(keys: seq<string>, tags: Env)
    requires |keys| >= 2
    ensures Join(Pairs(keys, tags), ",")
         == (keys[0] + "=" + TagValue(tags, keys[0])) + "," + Join(Pairs(keys[1..], tags), ",")
  {
    assert Pairs(keys, tags)[1..] == Pairs(keys[1..], tags);
  }

  lemma Regroup(k: string, v: string, next: string, tail: string)
    ensures (k + "=" + v) + "," + ((next + "=") + tail) == (k + "=") + (v + Divider(next) + tail)
  {}

  lemma PairsFront(keys: seq<string>, tags: Env)
    requires |keys| >= 2
    ensures var rest := Join(Pairs(keys[1..], tags), ",");
      && |rest| > |keys[1]|
      && rest == (keys[1] + "=") + rest[|keys[1]| + 1..]
      && Join(Pairs(keys, tags), ",")
         == (keys[0] + "=") + (TagValue(tags, keys[0]) + Divider(keys[1]) + rest[|keys[1]| + 1..])
  {
    hide Join, TagValue, Divider, Pairs;
    var rest := Join(Pairs(keys[1..], tags), ",");
    PairsRest(keys, tags);
    PairsStart(keys[1..], tags);
    Regroup(keys[0], TagValue(tags, keys[0]), keys[1], rest[|keys[1]| + 1..]);
  }

  /** The text up to the first divider, and what follows it. */
  lemma SplitAtDivider(v: string, x: string, w: string, y: string, sep: string)
    requires sep != "" && SepFree(v, sep) && SepFree(w, sep) && v + sep + x == w + sep + y
    ensures v == w && x == y
  {
    IndexOfSeparator(v, sep, x);
    IndexOfSeparator(w, sep, y);
    assert (v + sep + x)[..|v|] == v && (w + sep + y)[..|w|] == w;
    assert (v + sep + x)[|v| + |sep|..] == x && (w + sep + y)[|w| + |sep|..] == y;
  }

  lemma {:induction false} PairsSeparate(keys: seq<string>, a: Env, b: Env)
    requires keys != [] && forall i :: 0 <= i < |keys| ==> PlainKey(keys[i])
    requires Unambiguous(keys, a) && Unambiguous(keys, b)
    requires Join(Pairs(keys, a), ",") == Join(Pairs(keys, b), ",")
    ensures forall k :: k in keys ==> TagValue(a, k) == TagValue(b, k)
    decreases |keys|
  {
    hide Contains, TagValue, Join;
    var va, vb := TagValue(a, keys[0]), TagValue(b, keys[0]);
    if |keys| == 1 {
      JoinOne(Pairs(keys, a), ",");
      JoinOne(Pairs(keys, b), ",");
      SamePrefix(keys[0] + "=", va, vb);
    } else {
      PairsFront(keys, a);
      PairsFront(keys, b);
      var ra, rb := Join(Pairs(keys[1..], a), ","), Join(Pairs(keys[1..], b), ",");
      var n, sep := |keys[1]| + 1, Divider(keys[1]);
      SamePrefix(keys[0] + "=", va + sep + ra[n..], vb + sep + rb[n..]);
      DividerFree(va, keys[1]);
      DividerFree(vb, keys[1]);
      SplitAtDivider(va, ra[n..], vb, rb[n..], sep);
      assert keys[1..][0] == keys[1] && forall i :: 0 <= i < |keys| - 1 ==> keys[1..][i] == keys[i + 1];
      PairsSeparate(keys[1..], a, b);
      assert keys == [keys[0]] + keys[1..];
    }
  }

  lemma JoinOne(parts: seq<string>, sep: string)
    requires |parts| == 1
    ensures Join(parts, sep) == parts[0]
  {}

  /** Two datapoints of one metric whose values are unambiguous fall into the same series exactly
      when their tags agree on all the metric's tag keys, a missing tag counting as empty. */
  lemma DefaultIdSeparates(name: string, keys: seq<string>, a: Env, b: Env)
    requires '$' !in name && keys != [] && forall i :: 0 <= i < |keys| ==> PlainKey(keys[i])
    requires Unambiguous(keys, a) && Unambiguous(keys, b)
    ensures Expand(DefaultTemplate(name, keys), TagPhase(a)) == Expand(DefaultTemplate(name, keys), TagPhase(b))
       <==> forall k :: k in keys ==> TagValue(a, k) == TagValue(b, k)
  {
    hide Expand, Unambiguous;
    var pa, pb := Pairs(keys, a), Pairs(keys, b);
    DefaultIdForm(name, keys, a);
    DefaultIdForm(name, keys, b);
    SurroundedEqual(name + "{", Join(pa, ","), Join(pb, ","), "}");
    if Join(pa, ",") == Join(pb, ",") { PairsSeparate(keys, a, b); }
    assert forall i :: 0 <= i < |keys| ==> keys[i] in keys;
    assert (forall k :: k in keys ==> TagValue(a, k) == TagValue(b, k)) ==> pa == pb;
  }

  /* The keys are collected anew in every collection, so two datapoints of one metric may be printed with
     different lists of keys. */

  lemma FirstKeyAgrees(k: string, x: string, l: string, y: string)
    requires '=' !in k && '=' !in l && (k + "=") + x == (l + "=") + y
    ensures k == l && x == y
  {
    SepFreeChar(k, '=');
    SepFreeChar(l, '=');
    SplitAtDivider(k, x, l, y, "=");
  }

  /** What follows the first key of a printed list: its value, then the rest behind a comma. */
  function AfterFirst(keys: seq<string>, tags: Env): string
    requires keys != []
  {
    TagValue(tags, keys[0]) + (if |keys| == 1 then "" else "," + Join(Pairs(keys[1..], tags), ","))
  }

  lemma PrintedList(keys: seq<string>, tags: Env)
    requires keys != []
    ensures Join(Pairs(keys, tags), ",") == (keys[0] + "=") + AfterFirst(keys, tags)
  {
    hide TagValue, Join;
    if |keys| == 1 {
      JoinOne(Pairs(keys, tags), ",");
    } else {
      PairsRest(keys, tags);
    }
  }

  /** The same tags printed with two lists of keys: one series only if the lists are the same. */
  lemma {:induction false} PrintedListsAgree(ks: seq<string>, ls: seq<string>, tags: Env)
    requires ks != [] && ls != []
    requires (forall i :: 0 <= i < |ks| ==> PlainKey(ks[i])) && forall i :: 0 <= i < |ls| ==> PlainKey(ls[i])
    requires Join(Pairs(ks, tags), ",") == Join(Pairs(ls, tags), ",")
    ensures ks == ls
    decreases |ks|
  {
    hide TagValue, Join, Pairs;
    PrintedList(ks, tags);
    PrintedList(ls, tags);
    FirstKeyAgrees(ks[0], AfterFirst(ks, tags), ls[0], AfterFirst(ls, tags));
    SamePrefix(TagValue(tags, ks[0]),
               if |ks| == 1 then "" else "," + Join(Pairs(ks[1..], tags), ","),
               if |ls| == 1 then "" else "," + Join(Pairs(ls[1..], tags), ","));
    if |ks| > 1 && |ls| > 1 {
      SamePrefix(",", Join(Pairs(ks[1..], tags), ","), Join(Pairs(ls[1..], tags), ","));
      PrintedListsAgree(ks[1..], ls[1..], tags);
      assert ks == [ks[0]] + ks[1..] && ls == [ls[0]] + ls[1..];
    }
  }

  lemma SameTagsSeries(name: string, ks: seq<string>, ls: seq<string>, tags: Env)
    requires '$' !in name && ks != [] && ls != []
    requires (forall i :: 0 <= i < |ks| ==> PlainKey(ks[i])) && forall i :: 0 <= i < |ls| ==> PlainKey(ls[i])
    ensures Expand(DefaultTemplate(name, ks), TagPhase(tags)) == Expand(DefaultTemplate(name, ls), TagPhase(tags))
      <==> ks == ls
  {
    hide Expand, Join, Pairs;
    DefaultIdForm(name, ks, tags);
    DefaultIdForm(name, ls, tags);
    var j, l := Join(Pairs(ks, tags), ","), Join(Pairs(ls, tags), ",");
    SurroundedEqual(name + "{", j, l, "}");
    if j == l { PrintedListsAgree(ks, ls, tags); }
  }

  /** A key as collectors report them. */
  predicate LabelKey(k: string) {
    PlainKey(k) && ',' !in k
  }

  predicate Before(k: string, l: string) {
    StrLe(k, l) && k != l
  }

  /** The keys of a list, strictly sorted. */
  ghost predicate LabelKeys(ks: seq<string>) {
    && (forall i :: 0 <= i < |ks| ==> LabelKey(ks[i]))
    && (forall i, j :: 0 <= i < j < |ks| ==> Before(ks[i], ks[j]))
  }

  /** No value of the key `k` reads as if it went on to a key that sorts behind `k`. */
  ghost predicate Clean(k: string, v: string) {
    forall l :: LabelKey(l) && Before(k, l) ==> !Contains(v, Divider(l))
  }

  ghost predicate CleanTags(ks: seq<string>, tags: Env) {
    forall i :: 0 <= i < |ks| ==> Clean(ks[i], TagValue(tags, ks[i]))
  }

  lemma NoCommaInside(v: string, k: string, x: string)
    requires ',' !in k
    ensures forall i :: |v| < i < |v| + |Divider(k)| ==> (v + Divider(k) + x)[i] != ','
    ensures (v + Divider(k) + x)[|v|..|v| + |Divider(k)|] == Divider(k)
  {
    var s, sep := v + Divider(k) + x, Divider(k);
    forall i | |v| < i < |v| + |sep| ensures s[i] != ',' { assert s[i] == sep[i - |v|]; }
  }

  /** A divider that stands across the end of a value would put one's comma inside the other. */
  lemma DividersAgree(v: string, k: string, x: string, w: string, l: string, y: string)
    requires ',' !in k && ',' !in l && v + Divider(k) + x == w + Divider(l) + y && |v| < |w|
    ensures Contains(w, Divider(k))
  {
    var s, sep := v + Divider(k) + x, Divider(k);
    NoCommaInside(v, k, x);
    NoCommaInside(w, l, y);
    assert s[|w|] == s[|w|..|w| + |Divider(l)|][0] == ',';
    HeldInFront(s, w, sep, |v|);
  }

  lemma HeldInFront(s: string, w: string, sep: string, at: nat)
    requires sep != "" && at + |sep| <= |w| <= |s| && s[..|w|] == w && s[at..at + |sep|] == sep
    ensures Contains(w, sep)
  {
    assert w[at..at + |sep|] == s[at..at + |sep|];
    assert OccursAt(w, sep, at);
  }

  lemma EndsInDivider(v: string, w: string, l: string, y: string)
    requires v == w + Divider(l) + y
    ensures Contains(v, Divider(l))
  {
    assert v[|w|..|w| + |Divider(l)|] == Divider(l);
    assert OccursAt(v, Divider(l), |w|);
  }

  lemma CommaRest(keys: seq<string>, tags: Env)
    requires |keys| >= 2
    ensures var rest := Join(Pairs(keys[1..], tags), ",");
      |rest| > |keys[1]| && "," + rest == Divider(keys[1]) + rest[|keys[1]| + 1..]
  {
    hide Join, Pairs;
    PairsStart(keys[1..], tags);
  }

  lemma CleanContradiction(k: string, v: string, l: string)
    requires Clean(k, v) && LabelKey(l) && Before(k, l)
    ensures !Contains(v, Divider(l))
  {}

  lemma LabelKeysRest(ks: seq<string>)
    requires ks != [] && LabelKeys(ks)
    ensures LabelKeys(ks[1..]) && LabelKey(ks[0]) && (|ks| > 1 ==> LabelKey(ks[1]) && Before(ks[0], ks[1]))
  {}

  /** Clean values end at the same place. */
  lemma FirstValueAgrees(ks: seq<string>, a: Env, ls: seq<string>, b: Env)
    requires ks != [] && ls != [] && ks[0] == ls[0] && LabelKeys(ks) && LabelKeys(ls)
    requires Clean(ks[0], TagValue(a, ks[0])) && Clean(ls[0], TagValue(b, ls[0]))
    requires AfterFirst(ks, a) == AfterFirst(ls, b)
    ensures TagValue(a, ks[0]) == TagValue(b, ls[0]) && (|ks| == 1 <==> |ls| == 1)
    ensures |ks| > 1 ==> Join(Pairs(ks[1..], a), ",") == Join(Pairs(ls[1..], b), ",")
  {
    hide TagValue, Join, Pairs, Contains, Divider, LabelKeys, Clean, StrLe;
    var k, v, w := ks[0], TagValue(a, ks[0]), TagValue(b, ls[0]);
    LabelKeysRest(ks);
    LabelKeysRest(ls);
    if |ks| > 1 { CommaRest(ks, a); CleanContradiction(k, w, ks[1]); }
    if |ls| > 1 { CommaRest(ls, b); CleanContradiction(k, v, ls[1]); }
    ValuesEnd(v, if |ks| > 1 then [ks[1]] else [], if |ks| > 1 then Join(Pairs(ks[1..], a), ",") else "",
              w, if |ls| > 1 then [ls[1]] else [], if |ls| > 1 then Join(Pairs(ls[1..], b), ",") else "");
  }

  /** `x` begins with the key `next`, whose divider `other` does not hold. */
  predicate GoesOn(next: string, x: string, other: string) {
    && ',' !in next && |x| > |next| && !Contains(other, Divider(next))
    && "," + x == Divider(next) + x[|next| + 1..]
  }

  /** Two values, each at the end or in front of a divider that the other value does not hold. */
  lemma ValuesEnd(v: string, next: seq<string>, x: string, w: string, next': seq<string>, y: string)
    requires |next| <= 1 && |next'| <= 1
    requires next != [] ==> GoesOn(next[0], x, w)
    requires next' != [] ==> GoesOn(next'[0], y, v)
    requires v + (if next == [] then "" else "," + x) == w + (if next' == [] then "" else "," + y)
    ensures v == w && (next == [] <==> next' == []) && (next != [] ==> x == y)
  {
    hide Contains, Divider;
    if next == [] && next' != [] {
      var tail := y[|next'[0]| + 1..];
      assert v == w + Divider(next'[0]) + tail by { assert v + "" == v; Associate(w, Divider(next'[0]), tail); }
      EndsInDivider(v, w, next'[0], tail);
    } else if next != [] && next' == [] {
      var tail := x[|next[0]| + 1..];
      assert w == v + Divider(next[0]) + tail by { assert w + "" == w; Associate(v, Divider(next[0]), tail); }
      EndsInDivider(w, v, next[0], tail);
    } else if next != [] {
      var tail, tail' := x[|next[0]| + 1..], y[|next'[0]| + 1..];
      Associate(v, Divider(next[0]), tail);
      Associate(w, Divider(next'[0]), tail');
      if |v| < |w| { DividersAgree(v, next[0], tail, w, next'[0], tail'); }
      if |w| < |v| { DividersAgree(w, next'[0], tail', v, next[0], tail); }
      SameLength(v, "," + x, w, "," + y);
      SamePrefix(",", x, y);
    } else {
      assert v + "" == v && w + "" == w;
    }
  }

  lemma Associate(a: string, b: string, c: string)
    ensures a + (b + c) == a + b + c
  {}

  lemma SameLength(v: string, x: string, w: string, y: string)
    requires |v| == |w| && v + x == w + y
    ensures v == w && x == y
  {
    assert (v + x)[..|v|] == v && (w + y)[..|w|] == w;
    assert (v + x)[|v|..] == x && (w + y)[|w|..] == y;
  }

  lemma {:induction false} CleanListsSeparate(ks: seq<string>, a: Env, ls: seq<string>, b: Env)
    requires ks != [] && ls != [] && LabelKeys(ks) && LabelKeys(ls) && CleanTags(ks, a) && CleanTags(ls, b)
    requires Join(Pairs(ks, a), ",") == Join(Pairs(ls, b), ",")
    ensures ks == ls && forall k :: k in ks ==> TagValue(a, k) == TagValue(b, k)
    decreases |ks|
  {
    hide TagValue, Join, Pairs, Clean, LabelKeys, AfterFirst, StrLe;
    PrintedList(ks, a);
    PrintedList(ls, b);
    LabelKeysRest(ks);
    LabelKeysRest(ls);
    FirstKeyAgrees(ks[0], AfterFirst(ks, a), ls[0], AfterFirst(ls, b));
    FirstValueAgrees(ks, a, ls, b);
    assert ks == [ks[0]] + ks[1..] && ls == [ls[0]] + ls[1..];
    if |ks| > 1 {
      assert forall i :: 0 <= i < |ks| - 1 ==> ks[1..][i] == ks[i + 1];
      assert forall i :: 0 <= i < |ls| - 1 ==> ls[1..][i] == ls[i + 1];
      CleanListsSeparate(ks[1..], a, ls[1..], b);
    }
  }

  /** Datapoints with clean values share a series exactly when their keys and tags agree. */
  lemma CleanSeparates(name: string, ks: seq<string>, a: Env, ls: seq<string>, b: Env)
    requires '$' !in name && ks != [] && ls != [] && LabelKeys(ks) && LabelKeys(ls)
    requires CleanTags(ks, a) && CleanTags(ls, b)
    ensures Expand(DefaultTemplate(name, ks), TagPhase(a)) == Expand(DefaultTemplate(name, ls), TagPhase(b))
       <==> ks == ls && forall k :: k in ks ==> TagValue(a, k) == TagValue(b, k)
  {
    hide Expand, Join, CleanTags, StrLe;
    DefaultIdForm(name, ks, a);
    DefaultIdForm(name, ls, b);
    SurroundedEqual(name + "{", Join(Pairs(ks, a), ","), Join(Pairs(ls, b), ","), "}");
    if Join(Pairs(ks, a), ",") == Join(Pairs(ls, b), ",") { CleanListsSeparate(ks, a, ls, b); }
    if ks == ls && forall k :: k in ks ==> TagValue(a, k) == TagValue(b, k) {
      assert forall i :: 0 <= i < |ks| ==> ks[i] in ks;
      assert Pairs(ks, a) == Pairs(ls, b);
    }
  }

  lemma {:induction false} JoinTail(xs: seq<string>, ys: seq<string>, sep: string)
    requires ys != []
    ensures Join(xs + ys, sep) == Join(xs + [Join(ys, sep)], sep)
    decreases |xs|
  {
    if xs == [] {
      assert xs + ys == ys;
    } else {
      assert (xs + ys)[1..] == xs[1..] + ys && (xs + [Join(ys, sep)])[1..] == xs[1..] + [Join(ys, sep)];
      JoinTail(xs[1..], ys, sep);
    }
  }

  /** The keys and tags that end a datapoint's i-th value at a divider for the key `l` and give `l` all
      that follows. */
  function CutKeys(ks: seq<string>, i: nat, l: string): seq<string>
    requires i < |ks|
  {
    ks[..i + 1] + [l]
  }

  function CutTags(ks: seq<string>, tags: Env, i: nat, l: string): Env
    requires i < |ks| && Contains(TagValue(tags, ks[i]), Divider(l))
  {
    var v := TagValue(tags, ks[i]);
    var at := Index(v, Divider(l));
    var last := v[at + |Divider(l)|..] + (if i == |ks| - 1 then "" else "," + Join(Pairs(ks[i + 1..], tags), ","));
    map k | k in CutKeys(ks, i, l) :: if k == l then last else if k == ks[i] then v[..at] else TagValue(tags, k)
  }

  lemma CutValue(ks: seq<string>, a: Env, i: nat, l: string)
    requires i < |ks| && Contains(TagValue(a, ks[i]), Divider(l)) && ks[i] != l
    ensures var b := CutTags(ks, a, i, l);
      && TagValue(b, ks[i]) != TagValue(a, ks[i])
      && (ks[i] + "=" + TagValue(b, ks[i])) + "," + (l + "=" + TagValue(b, l))
         == (ks[i] + "=") + AfterFirst(ks[i..], a)
  {
    hide Index, Join, Pairs;
    var b, v, sep := CutTags(ks, a, i, l), TagValue(a, ks[i]), Divider(l);
    var at := Index(v, sep);
    var u, w := v[..at], v[at + |sep|..];
    var tail := if i == |ks| - 1 then "" else "," + Join(Pairs(ks[i + 1..], a), ",");
    assert ks[i] in CutKeys(ks, i, l) by { assert CutKeys(ks, i, l)[i] == ks[i]; }
    assert l in CutKeys(ks, i, l) by { assert CutKeys(ks, i, l)[i + 1] == l; }
    assert TagValue(b, ks[i]) == u && TagValue(b, l) == w + tail;
    assert v == u + sep + w;
    assert ks[i..][0] == ks[i] && ks[i..][1..] == ks[i + 1..];
    assert AfterFirst(ks[i..], a) == v + tail;
    CutText(ks[i], u, l, w, tail);
  }

  lemma CutText(k: string, u: string, l: string, w: string, tail: string)
    ensures (k + "=" + u) + "," + (l + "=" + (w + tail)) == (k + "=") + ((u + Divider(l) + w) + tail)
  {}

  /** Conversely, a value that reads as if it went on to a key behind its own shares its series with a
      datapoint that has that key, and other tags. */
  lemma UncleanMerges(name: string, ks: seq<string>, a: Env, i: nat, l: string)
    requires '$' !in name && LabelKeys(ks) && LabelKey(l)
    requires i < |ks| && Before(ks[i], l) && Contains(TagValue(a, ks[i]), Divider(l))
    ensures var ls, b := CutKeys(ks, i, l), CutTags(ks, a, i, l);
      && LabelKeys(ls) && ls[i] == ks[i] && b.Keys == (set k | k in ls)
      && TagValue(a, ks[i]) != TagValue(b, ks[i])
      && Expand(DefaultTemplate(name, ks), TagPhase(a)) == Expand(DefaultTemplate(name, ls), TagPhase(b))
  {
    hide Expand, Contains, StrLe, Join, CutTags, TagValue;
    var ls, b := CutKeys(ks, i, l), CutTags(ks, a, i, l);
    CutLabels(ks, i, l);
    CutValue(ks, a, i, l);
    CutDomain(ks, a, i, l);
    SamePairs(ks, a, i, l);
    var ps, qs := Pairs(ks, a), Pairs(ls, b);
    var p, q := ks[i] + "=" + TagValue(b, ks[i]), l + "=" + TagValue(b, l);
    assert ps == ps[..i] + ps[i..] && ps[i..] == Pairs(ks[i..], a);
    assert qs == ps[..i] + [p, q] + [];
    JoinTail(ps[..i], ps[i..], ",");
    PrintedList(ks[i..], a);
    JoinNeighbours(ps[..i], p, q, [], ",");
    assert ps[..i] + [p + "," + q] + [] == ps[..i] + [p + "," + q];
    DefaultIdForm(name, ks, a);
    DefaultIdForm(name, ls, b);
  }

  lemma CutDomain(ks: seq<string>, a: Env, i: nat, l: string)
    requires i < |ks| && Contains(TagValue(a, ks[i]), Divider(l))
    ensures CutTags(ks, a, i, l).Keys == (set k | k in CutKeys(ks, i, l))
  {
    hide Index, Join, Pairs;
  }

  lemma SamePairs(ks: seq<string>, a: Env, i: nat, l: string)
    requires LabelKeys(ks) && LabelKey(l)
    requires i < |ks| && Contains(TagValue(a, ks[i]), Divider(l)) && Before(ks[i], l)
    ensures var b := CutTags(ks, a, i, l); Pairs(CutKeys(ks, i, l), b)[..i] == Pairs(ks, a)[..i]
  {
    hide Index, Join, StrLe;
    var ls, b := CutKeys(ks, i, l), CutTags(ks, a, i, l);
    CutLabels(ks, i, l);
    forall j | 0 <= j < i ensures Pairs(ls, b)[j] == Pairs(ks, a)[j] {
      assert ls[j] == ks[j] && ls[i] == ks[i] && ls[i + 1] == l;
      assert Before(ls[j], ls[i]) && Before(ls[j], ls[i + 1]);
      assert ks[j] in ls;
    }
  }

  lemma CutLabels(ks: seq<string>, i: nat, l: string)
    requires LabelKeys(ks) && i < |ks| && LabelKey(l) && Before(ks[i], l)
    ensures LabelKeys(CutKeys(ks, i, l))
  {
    hide LabelKey, StrLe;
    var ls := CutKeys(ks, i, l);
    forall j, m | 0 <= j < m < |ls| ensures Before(ls[j], ls[m]) {
      if m == i + 1 && j < i {
        StrLeTransitive(ks[j], ks[i], l);
        if ks[j] == l { StrLeAntisymmetric(ks[i], l); }
      }
    }
  }

  /** Joining sees two neighbours only with the separator between them. */
  lemma {:induction false} JoinNeighbours(xs: seq<string>, p: string, q: string, ys: seq<string>, sep: string)
    ensures Join(xs + [p, q] + ys, sep) == Join(xs + [p + sep + q] + ys, sep)
    decreases |xs|
  {
    var two, one := xs + [p, q] + ys, xs + [p + sep + q] + ys;
    if xs == [] {
      assert two[1..] == [q] + ys && two[0] == p && one[0] == p + sep + q && one[1..] == ys;
      if ys != [] { assert ([q] + ys)[1..] == ys; }
    } else {
      assert two[1..] == xs[1..] + [p, q] + ys && one[1..] == xs[1..] + [p + sep + q] + ys;
      JoinNeighbours(xs[1..], p, q, ys, sep);
    }
  }

  /** The tags that move the end of the i-th value, from the divider on, into the next value. */
  function Shifted(keys: seq<string>, tags: Env, i: nat): Env
    requires i < |keys| - 1 && Contains(TagValue(tags, keys[i]), Divider(keys[i + 1]))
  {
    var v, sep := TagValue(tags, keys[i]), Divider(keys[i + 1]);
    var at := Index(v, sep);
    tags[keys[i] := v[..at]][keys[i + 1] := v[at + |sep|..] + sep + TagValue(tags, keys[i + 1])]
  }

  lemma Reassociate(k: string, u: string, next: string, w: string, last: string)
    ensures (k + "=" + (u + Divider(next) + w)) + "," + (next + "=" + last)
         == (k + "=" + u) + "," + (next + "=" + (w + Divider(next) + last))
  {}

  lemma ShiftedNeighbours(keys: seq<string>, a: Env, i: nat)
    requires i < |keys| - 1 && Contains(TagValue(a, keys[i]), Divider(keys[i + 1])) && keys[i] != keys[i + 1]
    ensures var b := Shifted(keys, a, i);
      && TagValue(b, keys[i]) != TagValue(a, keys[i])
      && Pairs(keys, a)[i] + "," + Pairs(keys, a)[i + 1] == Pairs(keys, b)[i] + "," + Pairs(keys, b)[i + 1]
  {
    var v, k, next := TagValue(a, keys[i]), keys[i], keys[i + 1];
    var sep, last := Divider(next), TagValue(a, next);
    hide Index, Divider;
    var at := Index(v, sep);
    var u, w := v[..at], v[at + |sep|..];
    assert v == u + sep + w;
    Reassociate(k, u, next, w, last);
    var b := Shifted(keys, a, i);
    assert TagValue(b, k) == u && TagValue(b, next) == w + sep + last;
  }

  /** Conversely, every ambiguous datapoint shares its series with a datapoint of other tags. */
  lemma AmbiguousMerges(name: string, keys: seq<string>, a: Env, i: nat)
    requires '$' !in name && forall i :: 0 <= i < |keys| ==> PlainKey(keys[i])
    requires forall i, j :: 0 <= i < j < |keys| ==> keys[i] != keys[j]
    requires i < |keys| - 1 && Contains(TagValue(a, keys[i]), Divider(keys[i + 1]))
    ensures var b := Shifted(keys, a, i);
      && TagValue(a, keys[i]) != TagValue(b, keys[i])
      && Expand(DefaultTemplate(name, keys), TagPhase(a)) == Expand(DefaultTemplate(name, keys), TagPhase(b))
  {
    hide Expand, Contains, TagValue;
    var b := Shifted(keys, a, i);
    ShiftedNeighbours(keys, a, i);
    ShiftedElsewhere(keys, a, i);
    var pa, pb := Pairs(keys, a), Pairs(keys, b);
    assert pa == pa[..i] + [pa[i], pa[i + 1]] + pa[i + 2..];
    assert pb == pa[..i] + [pb[i], pb[i + 1]] + pa[i + 2..];
    JoinNeighbours(pa[..i], pa[i], pa[i + 1], pa[i + 2..], ",");
    JoinNeighbours(pa[..i], pb[i], pb[i + 1], pa[i + 2..], ",");
    DefaultIdForm(name, keys, a);
    DefaultIdForm(name, keys, b);
  }

  lemma ShiftedElsewhere(keys: seq<string>, a: Env, i: nat)
    requires i < |keys| - 1 && Contains(TagValue(a, keys[i]), Divider(keys[i + 1]))
    requires forall i, j :: 0 <= i < j < |keys| ==> keys[i] != keys[j]
    ensures var b := Shifted(keys, a, i);
      forall j :: 0 <= j < |keys| && j != i && j != i + 1 ==> Pairs(keys, a)[j] == Pairs(keys, b)[j]
  {
    hide Index, Contains;
  }

  lemma PairsOfTwo(k: string, l: string, tags: Env, v: string, w: string)
    requires k in tags && tags[k] == v && l in tags && tags[l] == w
    ensures Join(Pairs([k, l], tags), ",") == (k + "=" + v) + "," + (l + "=" + w)
  {
    assert Pairs([k, l], tags)[1..] == [l + "=" + w];
  }

  lemma PairsOfOne(k: string, tags: Env, v: string)
    requires k in tags && tags[k] == v
    ensures Join(Pairs([k], tags), ",") == k + "=" + v
  {}

  /** One key whose value goes on to `l`, and two keys. */
  lemma ShortListMerges(name: string, k: string, l: string, u: string, w: string)
    requires '$' !in name && PlainKey(k) && PlainKey(l) && k != l
    ensures Expand(DefaultTemplate(name, [k]), TagPhase(map[k := u + Divider(l) + w]))
         == Expand(DefaultTemplate(name, [k, l]), TagPhase(map[k := u, l := w]))
  {
    hide Expand, TagPhase, Join, Pairs, Divider;
    var a, b := map[k := u + Divider(l) + w], map[k := u, l := w];
    DefaultIdForm(name, [k], a);
    DefaultIdForm(name, [k, l], b);
    PairsOfOne(k, a, u + Divider(l) + w);
    PairsOfTwo(k, l, b, u, w);
    ShortText(k, u, l, w);
  }

  lemma ShortText(k: string, u: string, l: string, w: string)
    ensures k + "=" + (u + Divider(l) + w) == (k + "=" + u) + "," + (l + "=" + w)
  {}

  /** For example these two: different tags, one series. */
  lemma CommasMergeSeries()
    ensures Expand(DefaultTemplate("m", ["a", "b"]), TagPhase(map["a" := "1,b=2", "b" := "3"]))
         == Expand(DefaultTemplate("m", ["a", "b"]), TagPhase(map["a" := "1", "b" := "2,b=3"]))
  {
    hide Expand, TagPhase, Join, Pairs;
    var x, y := map["a" := "1,b=2", "b" := "3"], map["a" := "1", "b" := "2,b=3"];
    DefaultIdForm("m", ["a", "b"], x);
    DefaultIdForm("m", ["a", "b"], y);
    PairsOfTwo("a", "b", x, "1,b=2", "3");
    PairsOfTwo("a", "b", y, "1", "2,b=3");
    assert ("a" + "=" + "1,b=2") + "," + ("b" + "=" + "3") == ("a" + "=" + "1") + "," + ("b" + "=" + "2,b=3");
  }
}
