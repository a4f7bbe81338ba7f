/** The delimited protocol buffer stream of a Prometheus endpoint
    (prometheus/prometheus_scraper.go): every message is preceded by its length as a
    "Base 128 Varint" of the Protocol Buffers encoding specification. */
module FramingSpec {
  import opened Wrappers

  type Byte = b: int | 0 <= b < 256

  type Bytes = seq<Byte>

  /* Varints. */

  const MAX_VARINT_LEN_32: nat := 5

  const MAX_VARINT_LEN_64: nat := 10

  const UINT64_LIMIT: nat := 0x1_0000_0000_0000_0000

  const LENGTH_LIMIT: nat := 0x8_0000_0000  // 2^35

  /** The number at the front of `s`, least significant group first, and its size. */
  function Decode(s: Bytes): (r: Option<(nat, nat)>)
    ensures r.Some? ==> 1 <= r.value.1 <= |s|
  {
    if s == [] then None
    else if s[0] < 128 then Some((s[0], 1))
    else
      match Decode(s[1..])
      case None => None
      case Some((x, n)) => Some((s[0] - 128 + 128 * x, n + 1))
  }

  function Encode(x: nat): (r: Bytes)
    ensures |r| >= 1
  {
    if x < 128 then [x] else [128 + x % 128] + Encode(x / 128)
  }

  lemma DecodeMore(b: Byte, tail: Bytes, x: nat, n: nat)
    requires b >= 128 && Decode(tail) == Some((x, n))
    ensures Decode([b] + tail) == Some((b - 128 + 128 * x, n + 1))
  {
    assert ([b] + tail)[1..] == tail;
  }

  lemma {:induction false} DecodeEncode(x: nat, rest: Bytes)
    ensures Decode(Encode(x) + rest) == Some((x, |Encode(x)|))
  {
    if x < 128 {
      assert (Encode(x) + rest)[0] == x;
    } else {
      hide Decode;
      var more, b := Encode(x / 128), 128 + x % 128;
      DecodeEncode(x / 128, rest);
      DecodeMore(b, more + rest, x / 128, |more|);
      assert Encode(x) + rest == [b] + (more + rest);
    }
  }

  function Pow128(n: nat): nat {
    if n == 0 then 1 else 128 * Pow128(n - 1)
  }

  /** A number takes at most `n` bytes exactly when it is below 128^n. */
  lemma {:induction false} EncodedSize(x: nat, n: nat)
    requires n >= 1
    ensures |Encode(x)| <= n <==> x < Pow128(n)
  {
    if n == 1 {
      assert Pow128(1) == 128 * Pow128(0);
    } else if x < 128 {
      PowGrows(n - 1);
    } else {
      EncodedSize(x / 128, n - 1);
    }
  }

  lemma {:induction false} PowGrows(n: nat)
    ensures Pow128(n) >= 1
  {
    if n > 0 { PowGrows(n - 1); }
  }

  lemma {:induction false} PowIncreases(m: nat, n: nat)
    requires m <= n
    ensures Pow128(m) <= Pow128(n)
    decreases n
  {
    if m < n { PowIncreases(m, n - 1); }
  }

  lemma {:induction false} DecodeBound(s: Bytes)
    ensures Decode(s).Some? ==> Decode(s).value.0 < Pow128(Decode(s).value.1)
  {
    if s != [] && s[0] >= 128 { DecodeBound(s[1..]); }
  }

  /** A length fits 64 bits by far. */
  lemma ShortNumber(s: Bytes)
    requires |s| <= MAX_VARINT_LEN_32 && Decode(s).Some?
    ensures Decode(s).value.0 < LENGTH_LIMIT
  {
    DecodeBound(s);
    PowIncreases(Decode(s).value.1, MAX_VARINT_LEN_32);
    LimitIsFiveBytes();
  }

  lemma LimitIsFiveBytes()
    ensures Pow128(MAX_VARINT_LEN_32) == LENGTH_LIMIT
  {
    assert Pow128(1) == 128 * Pow128(0);
    assert Pow128(2) == 128 * Pow128(1);
    assert Pow128(3) == 128 * Pow128(2);
    assert Pow128(4) == 128 * Pow128(3);
    assert Pow128(5) == 128 * Pow128(4);
  }

  /** No proper prefix of a number is a number, and what follows it does not matter. */
  lemma {:induction false} DecodePrefix(s: Bytes, k: nat)
    requires k <= |s|
    ensures Decode(s).Some? && Decode(s).value.1 <= k ==> Decode(s[..k]) == Decode(s)
    ensures Decode(s).None? || Decode(s).value.1 > k ==> Decode(s[..k]) == None
  {
    if k > 0 && s[0] >= 128 {
      DecodePrefix(s[1..], k - 1);
      assert s[..k][1..] == s[1..][..k - 1];
    }
  }

  /* One message, then all of them. `fault` tells how the connection ends: with an error of
     its own, or with an end of file. */

  datatype ReadError = EndOfFile | UnexpectedEndOfFile | ConnectionFault | InvalidHeader

  datatype One = Message(body: Bytes, rest: Bytes) | NoMessage(error: ReadError)

  function EndError(fault: bool): ReadError {
    if fault then ConnectionFault else EndOfFile
  }

  function Front(s: Bytes, k: nat): Bytes {
    s[..if |s| < k then |s| else k]
  }

  /** The bytes that may hold the header. */
  function Window(s: Bytes): Bytes {
    Front(s, MAX_VARINT_LEN_32)
  }

  /** What `io.ReadFull` reports when the bytes run out, `nothing` when none was read. */
  function ShortReadError(fault: bool, nothing: bool): ReadError {
    if fault then ConnectionFault else if nothing then EndOfFile else UnexpectedEndOfFile
  }

  function FirstMessage(s: Bytes, fault: bool): (r: One)
    ensures r.Message? ==> |r.rest| < |s|
  {
    match Decode(Window(s))
    case None => NoMessage(if |s| < MAX_VARINT_LEN_32 then EndError(fault) else InvalidHeader)
    case Some((n, used)) =>
      if used + n <= |s| then Message(s[used..used + n], s[used + n..])
      else NoMessage(ShortReadError(fault, used == |s|))
  }

  /** The messages of a stream and the error that ends it; end of file is the clean end. */
  function Messages(s: Bytes, fault: bool): (seq<Bytes>, ReadError)
    decreases |s|
  {
    match FirstMessage(s, fault)
    case NoMessage(e) => ([], e)
    case Message(body, rest) => var (more, e) := Messages(rest, fault); ([body] + more, e)
  }

  function Frame(body: Bytes): Bytes {
    Encode(|body|) + body
  }

  function Stream(bodies: seq<Bytes>): Bytes {
    if bodies == [] then [] else Frame(bodies[0]) + Stream(bodies[1..])
  }

  /* What a scrape makes of the messages. */

  /** A decoded metric family; the name is a pointer in the generated Go type. */
  datatype Family = Family(name: Option<string>, content: Bytes)

  datatype Outcome = Finished | Failed(error: ReadError) | Undecodable | NilName

  type Unmarshal = Bytes -> Option<Family>

  /** Families keyed by name, up to the first message that cannot be used. */
  function Collect(bodies: seq<Bytes>, end: ReadError,
                   unmarshal: Unmarshal, mf: map<string, Family>): (map<string, Family>, Outcome)
    decreases |bodies|
  {
    if bodies == [] then (mf, if end.EndOfFile? then Finished else Failed(end))
    else
      match unmarshal(bodies[0])
      case None => (mf, Undecodable)
      case Some(fam) =>
        if fam.name.None? then (mf, NilName)
        else Collect(bodies[1..], end, unmarshal, mf[fam.name.value := fam])
  }

  function ScrapeSpec(s: Bytes, fault: bool, unmarshal: Unmarshal): (map<string, Family>, Outcome) {
    var (bodies, end) := Messages(s, fault);
    Collect(bodies, end, unmarshal, map[])
  }

  /* Laws. */

  lemma FirstOfStream(body: Bytes, rest: Bytes, fault: bool)
    requires |body| < LENGTH_LIMIT
    ensures FirstMessage(Frame(body) + rest, fault) == Message(body, rest)
  {
    var s, header := Frame(body) + rest, Encode(|body|);
    LimitIsFiveBytes();
    EncodedSize(|body|, MAX_VARINT_LEN_32);
    assert s == header + (body + rest);
    DecodeEncode(|body|, body + rest);
    DecodePrefix(s, |Window(s)|);
    assert s[|header|..|header| + |body|] == body && s[|header| + |body|..] == rest;
  }

  /** Round trip: framing any messages below 2^35 bytes and scraping gives them back, in
      order, with a clean end. */
  lemma {:induction false} StreamRoundTrip(bodies: seq<Bytes>)
    requires forall i :: 0 <= i < |bodies| ==> |bodies[i]| < LENGTH_LIMIT
    ensures Messages(Stream(bodies), false) == (bodies, EndOfFile)
  {
    if bodies != [] {
      FirstOfStream(bodies[0], Stream(bodies[1..]), false);
      StreamRoundTrip(bodies[1..]);
      assert bodies == [bodies[0]] + bodies[1..];
    }
  }

  /** The messages complete within the first `k` bytes, and whether the cut leaves at least one
      but not all bytes of the next message's body. */
  function Cut(bodies: seq<Bytes>, k: nat): (seq<Bytes>, bool)
    decreases |bodies|
  {
    if bodies == [] then ([], false)
    else
      var size, header := |Frame(bodies[0])|, |Encode(|bodies[0]|)|;
      if k < size then ([], k > header)
      else var (more, broken) := Cut(bodies[1..], k - size); ([bodies[0]] + more, broken)
  }

  lemma CutInFirst(body: Bytes, rest: Bytes, k: nat, fault: bool)
    requires |body| < LENGTH_LIMIT && k < |Frame(body)|
    ensures FirstMessage((Frame(body) + rest)[..k], fault)
         == NoMessage(if fault then ConnectionFault
                       else if k > |Encode(|body|)| then UnexpectedEndOfFile else EndOfFile)
  {
    var s, header := Frame(body) + rest, Encode(|body|);
    var cut := s[..k];
    LimitIsFiveBytes();
    EncodedSize(|body|, MAX_VARINT_LEN_32);
    assert s == header + (body + rest);
    DecodeEncode(|body|, body + rest);
    DecodePrefix(s, |Window(cut)|);
    assert Window(cut) == s[..|Window(cut)|];
  }

  /** Truncation: a stream cut anywhere yields exactly the messages complete before the cut,
      and an error exactly when the cut falls strictly inside a body; a connection that ends
      with an error of its own always reports it. */
  lemma {:induction false} TruncatedStream(bodies: seq<Bytes>, k: nat, fault: bool)
    requires forall i :: 0 <= i < |bodies| ==> |bodies[i]| < LENGTH_LIMIT
    requires k <= |Stream(bodies)|
    ensures Messages(Stream(bodies)[..k], fault)
         == (Cut(bodies, k).0,
             if fault then ConnectionFault else if Cut(bodies, k).1 then UnexpectedEndOfFile else EndOfFile)
    decreases |bodies|
  {
    if bodies != [] {
      var body, rest := bodies[0], Stream(bodies[1..]);
      var size := |Frame(body)|;
      if k < size {
        CutInFirst(body, rest, k, fault);
      } else {
        assert (Frame(body) + rest)[..k] == Frame(body) + rest[..k - size];
        FirstOfStream(body, rest[..k - size], fault);
        TruncatedStream(bodies[1..], k - size, fault);
      }
    }
  }

  predicate Named(unmarshal: Unmarshal, body: Bytes) {
    unmarshal(body).Some? && unmarshal(body).value.name.Some?
  }

  /** The last of the families with this name. */
  function Latest(bodies: seq<Bytes>, unmarshal: Unmarshal, name: string): Option<Family>
    requires forall i :: 0 <= i < |bodies| ==> Named(unmarshal, bodies[i])
    decreases |bodies|
  {
    if bodies == [] then None
    else
      assert Named(unmarshal, bodies[|bodies| - 1]);
      var last := unmarshal(bodies[|bodies| - 1]).value;
      if last.name.value == name then Some(last) else Latest(bodies[..|bodies| - 1], unmarshal, name)
  }

  lemma LatestAfter(body: Bytes, rest: seq<Bytes>, unmarshal: Unmarshal, name: string)
    requires Named(unmarshal, body) && forall i :: 0 <= i < |rest| ==> Named(unmarshal, rest[i])
    ensures Latest([body] + rest, unmarshal, name) ==
      if Latest(rest, unmarshal, name).Some? then Latest(rest, unmarshal, name)
      else if unmarshal(body).value.name.value == name then unmarshal(body) else None
    decreases |rest|
  {
    var all := [body] + rest;
    if rest == [] {
      assert all[..0] == [];
    } else {
      assert all[..|all| - 1] == [body] + rest[..|rest| - 1];
      LatestAfter(body, rest[..|rest| - 1], unmarshal, name);
    }
  }

  /** Well-formed messages all arrive: the scrape finishes, and each name holds its last family. */
  lemma {:induction false} CollectKeepsLatest(bodies: seq<Bytes>, unmarshal: Unmarshal,
                                              mf: map<string, Family>, name: string)
    requires forall i :: 0 <= i < |bodies| ==> Named(unmarshal, bodies[i])
    ensures var (r, outcome) := Collect(bodies, EndOfFile, unmarshal, mf);
      && outcome.Finished?
      && var latest := Latest(bodies, unmarshal, name);
        if latest.Some? then name in r && r[name] == latest.value
        else (name in r <==> name in mf) && (name in mf ==> r[name] == mf[name])
  {
    if bodies != [] {
      hide Latest;
      var rest, fam := bodies[1..], unmarshal(bodies[0]).value;
      assert bodies == [bodies[0]] + rest;
      LatestAfter(bodies[0], rest, unmarshal, name);
      CollectKeepsLatest(rest, unmarshal, mf[fam.name.value := fam], name);
    }
  }

  /** Round trip of a whole scrape. */
  lemma ScrapeRoundTrip(bodies: seq<Bytes>, unmarshal: Unmarshal, name: string)
    requires forall k :: 0 <= k < |bodies| ==> |bodies[k]| < LENGTH_LIMIT && Named(unmarshal, bodies[k])
    ensures var (mf, outcome) := ScrapeSpec(Stream(bodies), false, unmarshal);
      && outcome.Finished?
      && Latest(bodies, unmarshal, name) == if name in mf then Some(mf[name]) else None
  {
    StreamRoundTrip(bodies);
    CollectKeepsLatest(bodies, unmarshal, map[], name);
  }
}

/** The scraper itself, reading byte by byte from a connection. */
module Framing {
  import opened Wrappers
  import opened FramingSpec

  /** An `io.Reader`: it may answer a read with no byte and no error, a bounded number of times,
      and may report the end together with the last byte or after it. */
  class Reader {
    const data: Bytes
    const fault: bool
    var pos: nat
    var stalls: nat

    constructor (data: Bytes, fault: bool, stalls: nat)
      ensures this.data == data && this.fault == fault && pos == 0 && this.stalls == stalls
    {
      this.data, this.fault, this.pos, this.stalls := data, fault, 0, stalls;
    }

    ghost predicate Valid()
      reads this
    {
      pos <= |data|
    }

    ghost function Rest(): Bytes
      requires Valid()
      reads this
    {
      data[pos..]
    }

    method ReadByte() returns (n: nat, b: Byte, err: Option<ReadError>)
      requires Valid()
      modifies this
      ensures Valid()
      ensures n == 0 && err == None ==> pos == old(pos) && stalls < old(stalls)
      ensures n == 0 && err != None ==> pos == old(pos) == |data| && err == Some(EndError(fault))
      ensures stalls <= old(stalls)
      ensures n != 0 && err != None ==> pos == |data| && err == Some(EndError(fault))
      ensures n != 0 ==> n == 1 && old(pos) < |data| && b == data[old(pos)]
                         && pos == old(pos) + 1 && stalls == old(stalls)
    {
      n, b, err := 0, 0, None;
      var stall: bool, atEnd: bool := *, *;
      if stalls > 0 && stall {
        stalls := stalls - 1;
      } else if pos < |data| {
        n, b := 1, data[pos];
        pos := pos + 1;
        if pos == |data| && atEnd {
          err := Some(EndError(fault));
        }
      } else {
        err := Some(EndError(fault));
      }
    }

    /** `io.ReadFull` */
    method ReadFull(n: nat) returns (buf: Bytes, err: Option<ReadError>)
      requires Valid()
      modifies this
      ensures Valid()
      ensures old(pos) + n <= |data| ==> err == None && buf == data[old(pos)..old(pos) + n] && pos == old(pos) + n
      ensures old(pos) + n > |data| ==> pos == |data|
      ensures old(pos) + n > |data| ==> err == Some(ShortReadError(fault, old(pos) == |data|))
    {
      buf, err := [], None;
      while |buf| < n && err == None
        invariant Valid() && |buf| <= n && old(pos) <= pos && buf == data[old(pos)..pos]
        invariant err != None ==> pos == |data| && err == Some(EndError(fault))
        decreases n - |buf|, stalls, err == None
      {
        var k, b;
        k, b, err := ReadByte();
        if k != 0 { buf := buf + [b]; }
      }
      if |buf| == n {
        err := None;
      } else if err == Some(EndOfFile) && |buf| > 0 {
        err := Some(UnexpectedEndOfFile);
      }
    }
  }

  function Times(w: nat, y: int): int {
    w * y
  }

  lemma Distribute(w: nat, b: int, y: nat)
    ensures Times(w, b + 128 * y) == Times(w, b) + Times(Times(w, 128), y)
  {
    assert w * (b + 128 * y) == w * b + w * 128 * y;
  }

  /** The number whose first `n` bytes contribute `full`, the rest being decoded to `r`. */
  ghost predicate Continues(whole: Option<(nat, nat)>, full: int, weight: nat, n: nat, r: Option<(nat, nat)>) {
    match r
    case None => whole == None
    case Some((y, k)) => whole.Some? && whole.value.0 == full + Times(weight, y) && whole.value.1 == n + k
  }

  lemma ContinueStart(s: Bytes)
    ensures s[0..] == s && Continues(Decode(s), 0, 1, 0, Decode(s[0..]))
  {
    assert s[0..] == s;
  }

  /** One group more, `r` being what the groups from it on decode to and `rest` what follows it. */
  lemma ContinueGroup(whole: Option<(nat, nat)>, full: int, weight: nat, n: nat, b: int,
                      r: Option<(nat, nat)>, rest: Option<(nat, nat)>)
    requires Continues(whole, full, weight, n, r)
    requires rest.None? ==> r == None
    requires rest.Some? ==> r == Some((b + 128 * rest.value.0, rest.value.1 + 1))
    ensures Continues(whole, full + Times(weight, b), Times(weight, 128), n + 1, rest)
  {
    hide Times;
    if rest.Some? { Distribute(weight, b, rest.value.0); }
  }

  lemma ContinueLast(whole: Option<(nat, nat)>, full: int, weight: nat, n: nat, b: nat)
    requires Continues(whole, full, weight, n, Some((b, 1)))
    ensures whole.Some? && whole.value.0 == full + Times(weight, b) && whole.value.1 == n + 1
  {
    hide Times;
  }

  lemma ContinueStep(s: Bytes, n: nat, full: int, weight: nat, b: Byte)
    requires n < |s| && b == s[n] && Continues(Decode(s), full, weight, n, Decode(s[n..]))
    ensures b < 128 ==>
      Decode(s).Some? && Decode(s).value.0 == full + Times(weight, b) && Decode(s).value.1 == n + 1
    ensures b >= 128 ==>
      Continues(Decode(s), full + Times(weight, b - 128), Times(weight, 128), n + 1, Decode(s[n + 1..]))
  {
    hide Times, Decode, Continues;
    var tail := s[n..];
    assert tail[0] == b && tail[1..] == s[n + 1..];
    DecodeFirst(tail);
    if b < 128 {
      ContinueLast(Decode(s), full, weight, n, b);
    } else {
      ContinueGroup(Decode(s), full, weight, n, b - 128, Decode(tail), Decode(s[n + 1..]));
    }
  }

  lemma DecodeFirst(s: Bytes)
    requires s != []
    ensures s[0] < 128 ==> Decode(s) == Some((s[0], 1))
    ensures s[0] >= 128 && Decode(s[1..]).None? ==> Decode(s) == None
    ensures s[0] >= 128 && Decode(s[1..]).Some? ==>
      Decode(s) == Some((s[0] - 128 + 128 * Decode(s[1..]).value.0, Decode(s[1..]).value.1 + 1))
  {}

  lemma ContinueEnd(s: Bytes, n: nat, full: int, weight: nat)
    requires n == |s| && Continues(Decode(s), full, weight, n, Decode(s[n..]))
    ensures Decode(s) == None
  {}

  lemma AddMod(x: nat, full: nat, d: nat)
    requires x == full % UINT64_LIMIT
    ensures (x + d) % UINT64_LIMIT == (full + d) % UINT64_LIMIT
  {}

  lemma TimesNatural(w: nat, y: nat)
    ensures Times(w, y) >= 0
  {}

  /** The vendored varint decoder, in 64-bit arithmetic: ten bytes at most are looked at, and
      (0, 0) says that they hold no complete number. */
  method DecodeVarint(buf: Bytes) returns (x: nat, n: nat)
    ensures match Decode(Front(buf, MAX_VARINT_LEN_64))
      case None => (x, n) == (0, 0)
      case Some((y, k)) => (x, n) == (y % UINT64_LIMIT, k)
  {
    hide Decode, Continues, Times;
    ghost var s, full: nat := Front(buf, MAX_VARINT_LEN_64), 0;
    ContinueStart(s);
    x, n := 0, 0;
    var weight: nat := 1;
    while n < MAX_VARINT_LEN_64
      invariant n <= |s| && x == full % UINT64_LIMIT
      invariant Continues(Decode(s), full, weight, n, Decode(s[n..]))
    {
      if n >= |buf| {
        ContinueEnd(s, n, full, weight);
        return 0, 0;
      }
      var b := buf[n];
      ContinueStep(s, n, full, weight, b);
      var group := if b < 128 then b else b - 128;
      TimesNatural(weight, group);
      AddMod(x, full, Times(weight, group));
      x, full, n := (x + Times(weight, group)) % UINT64_LIMIT, full + Times(weight, group), n + 1;
      if b < 128 {
        return;
      }
      TimesNatural(weight, 128);
      weight := Times(weight, 128);
    }
    ContinueEnd(s, n, full, weight);
    x, n := 0, 0;
  }

  lemma HeaderNumber(s: Bytes)
    requires |s| <= MAX_VARINT_LEN_32
    ensures Front(s, MAX_VARINT_LEN_64) == s
    ensures Decode(s).Some? ==> Decode(s).value.0 % UINT64_LIMIT == Decode(s).value.0
  {
    if Decode(s).Some? { ShortNumber(s); }
  }

  /** The header loop: one byte at a time until a number is complete. */
  method ReadLength(r: Reader) returns (messageLength: nat, err: Option<ReadError>)
    requires r.Valid()
    modifies r
    ensures r.Valid()
    ensures var s := old(r.Rest());
      match Decode(Window(s))
      case None => err == Some(if |s| < MAX_VARINT_LEN_32 then EndError(r.fault) else InvalidHeader)
        && (|s| < MAX_VARINT_LEN_32 ==> r.pos == |r.data|)
      case Some((n, used)) => err == None && messageLength == n && r.pos == old(r.pos) + used
  {
    var headerArray := new Byte[MAX_VARINT_LEN_32](_ => 0);
    var varintBytes, totalBytesRead := 0, 0;
    messageLength, err := 0, None;
    ghost var s, start := r.Rest(), r.pos;
    while varintBytes == 0
      invariant r.Valid() && totalBytesRead <= MAX_VARINT_LEN_32 && start + totalBytesRead == r.pos && err == None
      invariant headerArray[..totalBytesRead] == s[..totalBytesRead]
      invariant varintBytes == 0 ==> Decode(s[..totalBytesRead]) == None
      invariant varintBytes != 0 ==>
        Decode(s[..totalBytesRead]) == Some((messageLength, varintBytes)) && varintBytes == totalBytesRead
      decreases varintBytes == 0, MAX_VARINT_LEN_32 - totalBytesRead, r.stalls
    {
      if totalBytesRead >= headerArray.Length {
        return 0, Some(InvalidHeader);
      }
      var curBytesRead, b, readErr := r.ReadByte();
      if curBytesRead == 0 {
        if readErr != None {
          assert Window(s) == s[..totalBytesRead];
          return 0, readErr;
        }
        continue;
      }
      headerArray[totalBytesRead] := b;
      DecodeLonger(s, totalBytesRead);
      totalBytesRead := totalBytesRead + curBytesRead;
      assert headerArray[..totalBytesRead] == s[..totalBytesRead];
      messageLength, varintBytes := DecodeVarint(headerArray[..totalBytesRead]);
      HeaderNumber(s[..totalBytesRead]);
    }
    assert Window(s)[..totalBytesRead] == s[..totalBytesRead];
    DecodePrefix(Window(s), totalBytesRead);
    NumberIsComplete(Window(s), totalBytesRead);
  }

  /** A number that was incomplete can only be completed by the last byte. */
  lemma DecodeLonger(s: Bytes, k: nat)
    requires k < |s| && Decode(s[..k]) == None
    ensures Decode(s[..k + 1]).Some? ==> Decode(s[..k + 1]).value.1 == k + 1
  {
    assert s[..k + 1][..k] == s[..k];
    DecodePrefix(s[..k + 1], k);
  }

  lemma {:induction false} NumberIsComplete(s: Bytes, k: nat)
    requires k <= |s| && Decode(s[..k]).Some?
    ensures Decode(s) == Decode(s[..k])
  {
    DecodePrefix(s, k);
  }

  lemma SliceOfRest(data: Bytes, start: nat, used: nat, n: nat)
    requires start + used + n <= |data|
    ensures data[start..][used..used + n] == data[start + used..start + used + n]
    ensures data[start..][used + n..] == data[start + used + n..]
  {}

  method ScrapeOneMessage(r: Reader) returns (body: Bytes, err: Option<ReadError>)
    requires r.Valid()
    modifies r
    ensures r.Valid()
    ensures match FirstMessage(old(r.Rest()), r.fault)
      case Message(m, rest) => err == None && body == m && r.Rest() == rest
      case NoMessage(e) => err == Some(e) && (e.EndOfFile? ==> r.pos == |r.data|)
  {
    hide Decode;
    ghost var s, start := r.Rest(), r.pos;
    var messageLength;
    messageLength, err := ReadLength(r);
    if err != None { return [], err; }
    ghost var used := r.pos - start;
    body, err := r.ReadFull(messageLength);
    if err == None {
      SliceOfRest(r.data, start, used, messageLength);
    }
  }

  method ScrapeBinary(r: Reader, unmarshal: Unmarshal) returns (mf: map<string, Family>, outcome: Outcome)
    requires r.Valid()
    modifies r
    ensures r.Valid()
    ensures (mf, outcome) == ScrapeSpec(old(r.Rest()), r.fault, unmarshal)
    ensures outcome.Finished? ==> r.pos == |r.data|
  {
    mf := map[];
    ghost var s := r.Rest();
    while true
      invariant r.Valid()
      invariant ScrapeSpec(s, r.fault, unmarshal) ==
        var (bodies, end) := Messages(r.Rest(), r.fault); Collect(bodies, end, unmarshal, mf)
      decreases |r.Rest()|
    {
      ghost var rest := r.Rest();
      var body, err := ScrapeOneMessage(r);
      if err != None {
        if err == Some(EndOfFile) {
          return mf, Finished;
        }
        return mf, Failed(err.value);
      }
      ghost var bodies := Messages(rest, r.fault).0;
      assert bodies[0] == body && bodies[1..] == Messages(r.Rest(), r.fault).0;
      var fam := unmarshal(body);
      if fam.None? {
        return mf, Undecodable;
      }
      if fam.value.name.None? {
        return mf, NilName;
      }
      mf := mf[fam.value.name.value := fam.value];
    }
  }
}
