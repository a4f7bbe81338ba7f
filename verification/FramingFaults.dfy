/** Streams that go wrong: what a scrape makes of them, and what it has kept by then. */
module FramingFaults {
  import opened Wrappers
  import opened FramingSpec

  /** Whatever follows well-formed messages, these are read first. */
  lemma {:induction false} MessagesThenTail(bodies: seq<Bytes>, tail: Bytes, fault: bool)
    requires forall i :: 0 <= i < |bodies| ==> |bodies[i]| < LENGTH_LIMIT
    ensures Messages(Stream(bodies) + tail, fault) == (bodies + Messages(tail, fault).0, Messages(tail, fault).1)
    decreases |bodies|
  {
    if bodies == [] {
      hide Messages;
      assert Stream(bodies) + tail == tail;
      assert bodies + Messages(tail, fault).0 == Messages(tail, fault).0;
    } else {
      hide Messages, Stream;
      StreamStep(bodies, tail);
      FirstThenRest(bodies[0], Stream(bodies[1..]) + tail, fault);
      MessagesThenTail(bodies[1..], tail, fault);
      FrontAndRest(bodies, Messages(tail, fault).0);
    }
  }

  lemma StreamStep(bodies: seq<Bytes>, tail: Bytes)
    requires bodies != []
    ensures Stream(bodies) + tail == Frame(bodies[0]) + (Stream(bodies[1..]) + tail)
  {
    hide Frame;
  }

  lemma FrontAndRest(bodies: seq<Bytes>, more: seq<Bytes>)
    requires bodies != []
    ensures bodies + more == [bodies[0]] + (bodies[1..] + more)
  {}

  lemma FirstThenRest(body: Bytes, rest: Bytes, fault: bool)
    requires |body| < LENGTH_LIMIT
    ensures Messages(Frame(body) + rest, fault) == ([body] + Messages(rest, fault).0, Messages(rest, fault).1)
  {
    hide FirstMessage, Frame;
    FirstOfStream(body, rest, fault);
  }

  lemma {:induction false} OnlyMore(s: Bytes)
    requires forall i :: 0 <= i < |s| ==> s[i] >= 128
    ensures Decode(s) == None
  {
    if s != [] { OnlyMore(s[1..]); }
  }

  /** Five bytes that all ask for more are no length, whatever follows. */
  lemma LongHeader(tail: Bytes, fault: bool)
    requires |tail| >= 5 && forall i :: 0 <= i < 5 ==> tail[i] >= 128
    ensures Messages(tail, fault) == ([], InvalidHeader)
  {
    OnlyMore(tail[..5]);
  }

  /** The families of these messages, the last of each name. */
  ghost predicate HoldsLatest(mf: map<string, Family>, bodies: seq<Bytes>, unmarshal: Unmarshal)
    requires forall i :: 0 <= i < |bodies| ==> Named(unmarshal, bodies[i])
  {
    forall name :: Latest(bodies, unmarshal, name) == if name in mf then Some(mf[name]) else None
  }

  lemma LatestAll(bodies: seq<Bytes>, unmarshal: Unmarshal)
    requires forall i :: 0 <= i < |bodies| ==> Named(unmarshal, bodies[i])
    ensures HoldsLatest(Collect(bodies, EndOfFile, unmarshal, map[]).0, bodies, unmarshal)
  {
    hide Latest, Collect;
    forall name
      ensures var mf := Collect(bodies, EndOfFile, unmarshal, map[]).0;
        Latest(bodies, unmarshal, name) == if name in mf then Some(mf[name]) else None
    {
      CollectKeepsLatest(bodies, unmarshal, map[], name);
    }
  }

  lemma {:induction false} CollectThen(good: seq<Bytes>, more: seq<Bytes>, end: ReadError, unmarshal: Unmarshal,
                                       mf: map<string, Family>)
    requires forall i :: 0 <= i < |good| ==> Named(unmarshal, good[i])
    ensures Collect(good + more, end, unmarshal, mf)
         == Collect(more, end, unmarshal, Collect(good, EndOfFile, unmarshal, mf).0)
    decreases |good|
  {
    if good == [] {
      assert good + more == more;
    } else {
      assert (good + more)[1..] == good[1..] + more;
      CollectThen(good[1..], more, end, unmarshal, mf[unmarshal(good[0]).value.name.value := unmarshal(good[0]).value]);
    }
  }

  /** A length that does not end within five bytes fails the scrape; the families before it are kept. */
  lemma ScrapeStopsAtHeader(good: seq<Bytes>, tail: Bytes, fault: bool, unmarshal: Unmarshal)
    requires forall i :: 0 <= i < |good| ==> |good[i]| < LENGTH_LIMIT && Named(unmarshal, good[i])
    requires |tail| >= 5 && forall i :: 0 <= i < 5 ==> tail[i] >= 128
    ensures var (mf, outcome) := ScrapeSpec(Stream(good) + tail, fault, unmarshal);
      outcome == Failed(InvalidHeader) && HoldsLatest(mf, good, unmarshal)
  {
    hide Messages, Stream, HoldsLatest;
    MessagesThenTail(good, tail, fault);
    LongHeader(tail, fault);
    CollectThen(good, [], InvalidHeader, unmarshal, map[]);
    LatestAll(good, unmarshal);
  }

  /** A message that does not decode, or whose family has no name, ends the scrape, whatever follows; the families
      before it are kept. */
  lemma ScrapeStopsAtMessage(good: seq<Bytes>, bad: Bytes, tail: Bytes, fault: bool, unmarshal: Unmarshal)
    requires forall i :: 0 <= i < |good| ==> |good[i]| < LENGTH_LIMIT && Named(unmarshal, good[i])
    requires |bad| < LENGTH_LIMIT && !Named(unmarshal, bad)
    ensures var (mf, outcome) := ScrapeSpec(Stream(good) + (Frame(bad) + tail), fault, unmarshal);
      && outcome == (if unmarshal(bad).None? then Undecodable else NilName)
      && HoldsLatest(mf, good, unmarshal)
  {
    hide Stream, HoldsLatest, Frame;
    MessagesThenTail(good, Frame(bad) + tail, fault);
    FirstOfStream(bad, tail, fault);
    var (more, end) := Messages(Frame(bad) + tail, fault);
    assert more == [bad] + Messages(tail, fault).0;
    CollectThen(good, more, end, unmarshal, map[]);
    LatestAll(good, unmarshal);
  }

  /** A connection that ends within a message fails the scrape unless no byte of the body was read; the families
      before it are kept. */
  lemma ScrapeOfCut(good: seq<Bytes>, body: Bytes, k: nat, fault: bool, unmarshal: Unmarshal)
    requires forall i :: 0 <= i < |good| ==> |good[i]| < LENGTH_LIMIT && Named(unmarshal, good[i])
    requires |body| < LENGTH_LIMIT && k < |Frame(body)|
    ensures var (mf, outcome) := ScrapeSpec(Stream(good) + Frame(body)[..k], fault, unmarshal);
      && outcome == (if fault then Failed(ConnectionFault)
                     else if k > |Encode(|body|)| then Failed(UnexpectedEndOfFile) else Finished)
      && HoldsLatest(mf, good, unmarshal)
  {
    hide Stream, HoldsLatest, Frame;
    MessagesThenTail(good, Frame(body)[..k], fault);
    CutInFirst(body, [], k, fault);
    assert (Frame(body) + [])[..k] == Frame(body)[..k];
    var end := Messages(Frame(body)[..k], fault).1;
    CollectThen(good, [], end, unmarshal, map[]);
    LatestAll(good, unmarshal);
  }
}
