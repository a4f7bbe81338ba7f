/** How a text is read when its tokens are expanded, and what a name stands for: the rules written out, and that
    expansion follows exactly these. */
module ExpansionReading {
  import opened Text
  import opened Expansion
  import opened CollectionSpec
  import opened CollectionLaws

  /* Reading tokens. */

  predicate Digit(c: char) {
    '0' <= c <= '9'
  }

  predicate WordChar(c: char) {
    c == '_' || Digit(c) || 'a' <= c <= 'z' || 'A' <= c <= 'Z'
  }

  /** A variable of one character, as in a shell. */
  predicate Special(c: char) {
    Digit(c) || c == '*' || c == '#' || c == '$' || c == '@' || c == '!' || c == '?'
  }

  predicate Word(name: string) {
    name != "" && !Digit(name[0]) && forall i :: 0 <= i < |name| ==> WordChar(name[i])
  }

  /** The text begins with `raw`, which is a token for `name`: a name in braces, a special variable, or the longest
      word behind the dollar. Behind a dollar with none of these, or with an open brace that is never closed, the
      name is empty. */
  ghost predicate TokenAt(s: string, raw: string, name: string) {
    && raw <= s && |s| > 1
    && (|| (raw == "${" + name + "}" && '}' !in name)
        || (raw == "${" && name == "" && '}' !in s[2..])
        || (raw == "$" + name && |name| == 1 && Special(name[0]))
        || (raw == "$" + name && Word(name) && (raw < s ==> !WordChar(s[|raw|])))
        || (raw == "$" && name == "" && s[1] != '{' && !Special(s[1]) && !WordChar(s[1])))
  }

  /** A text that begins with a token is expanded by replacing that, and going on behind it. */
  lemma ExpandReads(s: string, raw: string, name: string, m: string -> string)
    requires TokenAt(s, raw, name)
    ensures Expand(s, m) == m(name) + Expand(s[|raw|..], m)
  {
    var t := s[1..];
    assert raw[0] == '$' && s[..|raw|] == raw;
    if raw == "${" + name + "}" && '}' !in name {
      assert s == "${" + name + "}" + s[|raw|..];
      ExpandToken(name, s[|raw|..], m);
    } else if raw == "${" {
      assert t[0] == raw[1] && t == "{" + s[2..];
      SepFreeChar(t, '}');
      SepFreeHasNone(t, "}");
      assert s[1 + 1..] == s[|raw|..];
    } else {
      OtherTokens(s, raw, name);
      assert s[1 + |name|..] == s[|raw|..];
    }
  }

  lemma OtherTokens(s: string, raw: string, name: string)
    requires TokenAt(s, raw, name) && raw != "${" && raw != "${" + name + "}"
    ensures ShellName(s[1..]) == (name, |name|) && raw == "$" + name
  {
    var t := s[1..];
    assert s[..|raw|] == raw;
    if |name| == 1 && Special(name[0]) {
      assert t[0] == raw[1] == name[0] && t[..1] == name;
    } else if Word(name) {
      assert t[..|name|] == name;
      forall i | 0 <= i < |name| ensures IsAlphaNum(t[i]) { assert t[i] == name[i]; }
      if raw < s { assert t[|name|] == s[|raw|]; }
      LongestWord(t, |name|);
      assert t[0] == name[0];
    } else {
      LongestWord(t, 0);
    }
  }

  lemma {:induction false} LongestWord(t: string, n: nat)
    requires n <= |t| && (forall i :: 0 <= i < n ==> IsAlphaNum(t[i])) && (n < |t| ==> !IsAlphaNum(t[n]))
    ensures AlphaNumPrefix(t) == n
  {
    if n > 0 { LongestWord(t[1..], n - 1); }
  }

  /** Every dollar with something behind it begins a token, so the rules leave nothing open. */
  lemma DollarBeginsToken(s: string) returns (raw: string, name: string)
    requires |s| > 1 && s[0] == '$'
    ensures TokenAt(s, raw, name)
  {
    var t := s[1..];
    if t[0] == '{' {
      if '}' in t {
        var i := FirstBrace(t);
        name, raw := t[1..i], s[..i + 2];
        assert s[i + 1] == '}' && raw == "${" + name + "}";
      } else {
        name, raw := "", "${";
        assert s[..2] == "${";
      }
    } else if Special(t[0]) {
      name, raw := t[..1], s[..2];
      assert raw == "$" + name;
    } else {
      var n := AlphaNumPrefix(t);
      PrefixStops(t);
      name, raw := t[..n], s[..n + 1];
      assert raw == "$" + name;
    }
  }

  lemma {:induction false} FirstBrace(t: string) returns (i: nat)
    requires '}' in t
    ensures i < |t| && t[i] == '}' && '}' !in t[..i]
  {
    if t[0] == '}' {
      i := 0;
    } else {
      i := FirstBrace(t[1..]);
      i := i + 1;
      assert t[..i] == [t[0]] + t[1..][..i - 1];
    }
  }

  lemma {:induction false} PrefixStops(t: string)
    ensures var n := AlphaNumPrefix(t); n < |t| ==> !IsAlphaNum(t[n])
  {
    if t != "" && IsAlphaNum(t[0]) { PrefixStops(t[1..]); }
  }

  /** Everything else stands for itself, a final dollar too. */
  lemma OthersStand(a: string, m: string -> string)
    requires '$' !in a
    ensures Expand(a, m) == a && Expand(a + "$", m) == a + "$"
  {
    ExpandPlain(a, m);
    ExpandLiteral(a, "$", m);
  }

  /* What a name stands for. */

  /** A name without default: the given environment, then the operating system's, and otherwise the token is kept
      or dropped. */
  lemma MapPlain(c: Config, name: string)
    requires '=' !in name && name != "$"
    ensures MapName(c, name) ==
      if name in c.env then c.env[name]
      else if name in c.os then c.os[name]
      else if c.keepUnknown then "${" + name + "}" else ""
  {
    SepFreeChar(name, '=');
    SepFreeHasNone(name, "=");
  }

  /** A doubled dollar is a dollar, whatever the environments say. */
  lemma MapDollar(c: Config)
    ensures MapName(c, "$") == "$"
  {}

  /** So a token in the prefix of all IDs is the pod's value, or else the operating system's, or else empty. */
  lemma PrefixToken(c: Collector, a: string, name: string, b: string)
    requires c.idPrefix == a + ("${" + name + "}" + b) && '$' !in a && '$' !in b
    requires '=' !in name && '}' !in name && name != "$"
    ensures Prefix(c) ==
      a + (if name in c.env then c.env[name] else if name in c.osEnv then c.osEnv[name] else "") + b
  {
    hide Expand, MapName;
    var config := Config(c.env, c.osEnv, false);
    ExpandOneToken(a, name, b, Mapping(config));
    MapPlain(config, name);
  }

  /** With a default, that takes the place of the empty text. */
  lemma PrefixDefault(c: Collector, a: string, name: string, d: string, b: string)
    requires c.idPrefix == a + ("${" + (name + "=" + d) + "}" + b) && '$' !in a && '$' !in b
    requires '=' !in name && '}' !in name && '}' !in d
    ensures Prefix(c) ==
      a + (if name in c.env then c.env[name] else if name in c.osEnv then c.osEnv[name] else d) + b
  {
    hide Expand, MapName;
    var config := Config(c.env, c.osEnv, false);
    ExpandOneToken(a, name + "=" + d, b, Mapping(config));
    MapDefault(config, name, d);
  }
}
