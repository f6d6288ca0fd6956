/**
 * What a quoted RTMR3 says about the measurements reported from a log (rs/src/event_log.rs:35-66,
 * 117-155): when it fixes them, and two ways in which otherwise it does not.
 */
module Rtmr3Binding {
  import opened Bytes
  import opened Hex
  import opened Wrappers
  import opened Rtmr3

  // ----- When the quote fixes the measurements -----

  /** What the runtime events' digests are hashes of. */
  function Preimages(p: Platform, sdk: Sdk, events: seq<Entry>): set<bytes> {
    set i | 0 <= i < |events| && events[i].kind == RUNTIME && Payload(sdk, events[i].payload).Some?
      :: Preimage(p, events[i].event, Payload(sdk, events[i].payload).value)
  }

  ghost predicate Collide(p: Platform, a: set<bytes>, b: set<bytes>) {
    exists x, y :: x in a && y in b && x != y && p.sha384(x) == p.sha384(y)
  }

  /** Position by position both are runtime events, or neither is. */
  predicate SameKinds(a: seq<Entry>, b: seq<Entry>) {
    forall i :: 0 <= i < |a| && i < |b| ==> (a[i].kind == RUNTIME) == (b[i].kind == RUNTIME)
  }

  predicate ColonFree(p: Platform, events: seq<Entry>) {
    forall i :: 0 <= i < |events| && events[i].kind == RUNTIME ==> COLON !in p.utf8(events[i].event)
  }

  ghost predicate Injective(p: Platform) {
    forall s, t :: p.utf8(s) == p.utf8(t) ==> s == t
  }

  /** The bytes a measurement stands for: the payload of the last runtime event of its name. */
  function LastBytes(sdk: Sdk, events: seq<Entry>, name: string): Option<bytes> {
    match LastPayload(events, name)
    case None => None
    case Some(payload) => Payload(sdk, payload)
  }

  predicate SameEvent(sdk: Sdk, d: Entry, e: Entry) {
    && (d.kind == RUNTIME) == (e.kind == RUNTIME)
    && (d.kind == RUNTIME ==> d.event == e.event && Payload(sdk, d.payload) == Payload(sdk, e.payload))
  }

  lemma {:induction false} SameEventsSameBytes(sdk: Sdk, a: seq<Entry>, b: seq<Entry>, name: string)
    requires |a| == |b| && forall i :: 0 <= i < |a| ==> SameEvent(sdk, a[i], b[i])
    ensures LastBytes(sdk, a, name) == LastBytes(sdk, b, name)
  {
    hide Payload;
    if a != [] {
      var n := |a| - 1;
      SameEventsSameBytes(sdk, a[..n], b[..n], name);
      assert SameEvent(sdk, a[n], b[n]);
    }
  }

  lemma OneEventBinds(p: Platform, sdk: Sdk, a: seq<Entry>, b: seq<Entry>, i: nat)
    requires i < |a| && i < |b| && Injective(p)
    requires SameKinds(a, b) && ColonFree(p, a) && ColonFree(p, b)
    requires !Collide(p, Preimages(p, sdk, a), Preimages(p, sdk, b))
    requires EventDigest(p, sdk, a[i]).Some? && EventDigest(p, sdk, a[i]) == EventDigest(p, sdk, b[i])
    ensures SameEvent(sdk, a[i], b[i])
  {
    if a[i].kind == RUNTIME {
      hide Payload, Unhex, Preimage, EventDigest;
      RuntimeEventBinds(p, sdk, a[i], b[i]);
      var x := Preimage(p, a[i].event, Payload(sdk, a[i].payload).value);
      var y := Preimage(p, b[i].event, Payload(sdk, b[i].payload).value);
      assert x in Preimages(p, sdk, a) && y in Preimages(p, sdk, b);
    }
  }

  /**
   * Two logs accepted against one quote report the same bytes under every name, whatever else
   * they hold and however long they are, if their register-3 entries are runtime events in the
   * same places, with names that hold no colon, and the hash is not broken by what the two replays
   * hashed.
   */
  lemma MeasurementsDetermined(p: Platform, sdk: Sdk, a: seq<Entry>, b: seq<Entry>, quoted: bytes, name: string)
    requires p.Sized() && Injective(p)
    requires Accepted(p, sdk, a, quoted) && Accepted(p, sdk, b, quoted)
    requires SameKinds(Only3(a), Only3(b)) && ColonFree(p, Only3(a)) && ColonFree(p, Only3(b))
    requires !Broken(p, Inputs(p, EventDigests(p, sdk, Only3(a)).value), Inputs(p, EventDigests(p, sdk, Only3(b)).value))
    requires !Collide(p, Preimages(p, sdk, Only3(a)), Preimages(p, sdk, Only3(b)))
    ensures |Only3(a)| == |Only3(b)|
    ensures LastBytes(sdk, Only3(a), name) == LastBytes(sdk, Only3(b), name)
  {
    hide Broken, EventDigests, EventDigest, Register, Inputs, Only3, LastBytes, Preimages;
    AcceptedLogsAgree(p, sdk, a, b, quoted);
    DigestsAre48(p, sdk, Only3(a));
    DigestsAre48(p, sdk, Only3(b));
    forall i | 0 <= i < |Only3(a)| ensures SameEvent(sdk, Only3(a)[i], Only3(b)[i]) {
      OneEventBinds(p, sdk, Only3(a), Only3(b), i);
    }
    SameEventsSameBytes(sdk, Only3(a), Only3(b), name);
  }

  // ----- Hexadecimal text -----

  function HexText(d: bytes): string {
    if d == [] then "" else [Digit(d[0] / 16), Digit(d[0] % 16)] + HexText(d[1..])
  }

  lemma {:induction false} HexRoundTrip(d: bytes)
    ensures Digits(HexText(d)) == Some(d) && |HexText(d)| == 2 * |d|
    ensures Stripped(HexText(d)) == HexText(d)
  {
    if d != [] {
      HexRoundTrip(d[1..]);
      DigitRoundTrip(d[0] / 16);
      DigitRoundTrip(d[0] % 16);
      assert HexText(d)[2..] == HexText(d[1..]);
      assert [d[0]] + d[1..] == d;
    }
  }

  lemma HexPayload(sdk: Sdk, d: bytes)
    ensures Payload(sdk, HexText(d)) == Some(d)
    ensures d != [] ==> Unhex(HexText(d)) == Some(d)
  {
    HexRoundTrip(d);
  }

  // ----- Entries of another kind -----

  /** Entries of no runtime kind that state given digests. */
  function Stating(digests: seq<bytes>): seq<Entry> {
    seq(|digests|, i requires 0 <= i < |digests| => Entry(Some(3), 0, "", "", Some(HexText(digests[i]))))
  }

  lemma StatedDigest(p: Platform, sdk: Sdk, d: bytes)
    requires |d| == 48
    ensures EventDigest(p, sdk, Entry(Some(3), 0, "", "", Some(HexText(d)))) == Some(d)
  {
    HexPayload(sdk, d);
  }

  lemma {:induction false} StatingReplays(p: Platform, sdk: Sdk, digests: seq<bytes>)
    requires Sizes(digests)
    ensures Complete(Stating(digests)) && Only3(Stating(digests)) == Stating(digests)
    ensures EventDigests(p, sdk, Stating(digests)) == Some(digests)
    ensures forall name :: LastPayload(Stating(digests), name) == None
  {
    hide HexText, EventDigest;
    if digests != [] {
      var n := |digests| - 1;
      var before := digests[..n];
      StatingReplays(p, sdk, before);
      StatedDigest(p, sdk, digests[n]);
      var all := Stating(digests);
      assert all[..n] == Stating(before);
      SplitLast(all);
      SplitLast(digests);
    }
  }

  /**
   * Without the condition on kinds the quote fixes nothing: beside every accepted log there is one
   * that is accepted against the same quote, by the same digests, and measures nothing.
   */
  lemma QuoteLeavesMeasurementsOpen(p: Platform, sdk: Sdk, a: seq<Entry>, quoted: bytes)
    requires p.Sized()
    requires Accepted(p, sdk, a, quoted)
    ensures exists b :: Accepted(p, sdk, b, quoted) && Measured(Only3(b)) == Measurements(None, None)
                        && EventDigests(p, sdk, Only3(b)) == EventDigests(p, sdk, Only3(a))
  {
    hide EventDigests, EventDigest, Only3, LastPayload;
    DigestsAre48(p, sdk, Only3(a));
    var digests := EventDigests(p, sdk, Only3(a)).value;
    StatingReplays(p, sdk, digests);
    assert Accepted(p, sdk, Stating(digests), quoted);
    assert Measured(Only3(Stating(digests))) == Measurements(None, None);
  }

  // ----- Names with a colon -----

  /** UTF-8 encodes text piece by piece, and a colon as one byte. */
  ghost predicate Piecewise(p: Platform) {
    && p.utf8(":") == [COLON]
    && forall s, t :: p.utf8(s + t) == p.utf8(s) + p.utf8(t)
  }

  function Event(name: string, payload: bytes): Entry {
    Entry(Some(3), RUNTIME, name, HexText(payload), Some(""))
  }

  /** A log of one event: what it is accepted against, and what it measures. */
  lemma LoneEvent(p: Platform, sdk: Sdk, name: string, payload: bytes)
    ensures Accepted(p, sdk, [Event(name, payload)], Register(p, [p.sha384(Preimage(p, name, payload))]))
    ensures forall other :: LastBytes(sdk, Only3([Event(name, payload)]), other) ==
                            if other == name then Some(payload) else None
  {
    hide HexText, Preimage, Register;
    var e := Event(name, payload);
    HexPayload(sdk, payload);
    AcceptedAlone(p, sdk, e);
    NextMeasured([], e);
    assert [] + [e] == [e];
  }

  lemma ColonMoves(p: Platform, name: string, extra: string, rest: bytes)
    requires Piecewise(p)
    ensures Preimage(p, name, p.utf8(extra) + [COLON] + rest) == Preimage(p, name + ":" + extra, rest)
  {
    assert p.utf8(name + ":" + extra) == p.utf8(name) + [COLON] + p.utf8(extra);
  }

  /**
   * Nor without the condition on names: text can move from a payload into the name before it.
   * Both logs are accepted against one quote, and only the first measures anything under `name`.
   */
  lemma ColonLeavesMeasurementsOpen(p: Platform, sdk: Sdk, name: string, extra: string, rest: bytes)
    requires Piecewise(p)
    ensures var d := Event(name, p.utf8(extra) + [COLON] + rest);
            var e := Event(name + ":" + extra, rest);
            && (exists quoted :: Accepted(p, sdk, [d], quoted) && Accepted(p, sdk, [e], quoted))
            && LastBytes(sdk, Only3([d]), name) == Some(p.utf8(extra) + [COLON] + rest)
            && LastBytes(sdk, Only3([e]), name) == None
  {
    hide Accepted, LastBytes, Preimage, Register, Only3, Event;
    ColonMoves(p, name, extra, rest);
    LoneEvent(p, sdk, name, p.utf8(extra) + [COLON] + rest);
    LoneEvent(p, sdk, name + ":" + extra, rest);
    assert |name + ":" + extra| > |name|;
  }
}
