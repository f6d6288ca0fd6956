/**
 * The encrypted frames and the messages inside them, one over the other as Go stacks them: the
 * body reader of go/ohttp.go:490-570 over the decrypting reader of go/ohttp.go:350-406, and the
 * sealing loop (go/ohttp.go:175-217) over the request encoder.
 */
module OhttpMessages {
  import opened Bytes
  import opened Streams
  import opened Varint
  import opened OhttpFrames
  import opened Wrappers
  import BhttpRequest
  import BhttpResponse
  import BhttpFields
  import BhttpBody

  /** How the decrypted stream ends for the reader above it. */
  function EndingOf(fate: Fate): Ending {
    if fate.Finished? then Eof else Broken
  }

  // ----- The end of a body needs the final frame -----

  lemma TakeNeedsEnd(check: BhttpFields.Check, b: BhttpBody.Body, want: BhttpBody.pos)
    requires b.Valid() && !b.done
    ensures var (c, step) := BhttpBody.Take(check, b, want);
            && c.ending == b.ending
            && (step == Error(Finished) ==> b.ending.Eof?)
            && (step.Bytes? && c.done ==> b.ending.Eof?)
  {
    hide BhttpFields.FieldsAt, ReadAt;
  }

  lemma {:induction false} RunNeedsEnd(check: BhttpFields.Check, b: BhttpBody.Body, wants: seq<BhttpBody.pos>)
    requires b.Valid() && (b.done ==> b.ending.Eof?)
    ensures BhttpBody.Run(check, b, wants).1 == Some(Finished) ==> b.ending.Eof?
    decreases |wants|
  {
    hide BhttpBody.Take;
    if wants != [] && !b.done {
      TakeNeedsEnd(check, b, wants[0]);
      var (c, step) := BhttpBody.Take(check, b, wants[0]);
      if step.Bytes? {
        RunNeedsEnd(check, c, wants[1..]);
      }
    }
  }

  lemma StartNeedsEnd(check: BhttpFields.Check, s: bytes, ending: Ending, p: nat, known: bool, expected: Option<nat>)
    requires p <= |s| && BhttpBody.Start(check, s, ending, p, known, expected).Ok?
    ensures var b := BhttpBody.Start(check, s, ending, p, known, expected).value;
            b.Valid() && b.ending == ending && (b.done ==> ending.Eof?)
  {
    hide BhttpFields.FieldsAt, ReadAt;
  }

  /**
   * Whatever wire arrives, wherever its headers end and whatever they declare, whatever sizes the
   * caller reads with: a body that ends well (or is empty from the start) was read from the whole
   * sealed message, and the wire was not cut.
   */
  lemma BodyNeedsFinalFrame(box: Box, wire: bytes, ending: Ending, check: BhttpFields.Check, p: nat, known: bool,
                            expected: Option<nat>, wants: seq<BhttpBody.pos>)
    requires box.Valid() && p <= |DecryptFrom(box, wire, ending, 0, 0, 0).out|
    ensures var play := DecryptFrom(box, wire, ending, 0, 0, 0);
            var start := BhttpBody.Start(check, play.out, EndingOf(play.fate), p, known, expected);
            start.Ok? && (start.value.done || BhttpBody.Run(check, start.value, wants).1 == Some(Finished)) ==>
              play.fate.Finished? && ending.Eof? && play.out == Plain(box.sealed, 0) && !(wire < Wire(box.sealed, 0))
  {
    hide BhttpBody.Start, BhttpBody.Run, DecryptFrom, Wire;
    var play := DecryptFrom(box, wire, ending, 0, 0, 0);
    Authentic(box, wire, ending, 0, 0, 0);
    var start := BhttpBody.Start(check, play.out, EndingOf(play.fate), p, known, expected);
    if start.Ok? {
      StartNeedsEnd(check, play.out, EndingOf(play.fate), p, known, expected);
      RunNeedsEnd(check, start.value, wants);
    }
  }

  // ----- A response, sealed and read -----

  /** Where the headers of a decrypted response end, and the last of its heads. */
  function Heads(rules: BhttpResponse.Rules, s: bytes, ending: Ending, known: bool): Result<(BhttpResponse.Head, nat)> {
    match ReadAt(s, ending, 0, false)
    case Err => Err
    case Ok((framing, p)) =>
      if framing != (if known then 1 else 3) then Err else BhttpResponse.HeadsAt(rules, s, ending, p, known, 0)
  }

  lemma HeadsOfResponse(rules: BhttpResponse.Rules, m: BhttpResponse.Message, known: bool)
    requires BhttpResponse.WellFormedMessage(rules, m)
    ensures var s := BhttpResponse.EncodeResponse(m, known);
            var q := |s| - |BhttpResponse.EncodeRest(m, known)|;
            q >= 0 && Heads(rules, s, Eof, known) == Ok((m.head, q)) && s[q..] == BhttpResponse.EncodeRest(m, known)
  {
    hide BhttpResponse.HeadsAt, BhttpResponse.WellFormedMessage, ReadAt;
    var s := BhttpResponse.EncodeResponse(m, known);
    var framing := if known then 1 else 3;
    assert s[0..] == s;
    BhttpResponse.IntegerHere(s, 0, framing,
      BhttpResponse.EncodeHeads(m.informational, known) + BhttpResponse.EncodeFinal(m, known), false);
    BhttpResponse.HeadsOfMessage(rules, m);
    BhttpResponse.HeadsHere(rules, s, |Encode(framing)|, m.informational, m, known, 0);
  }

  /**
   * A body was started, and a caller that reads it with these sizes receives the content and
   * nothing else, then end of file; enough reads get there. An empty body is over at once.
   */
  ghost predicate Delivers(check: BhttpFields.Check, start: Result<BhttpBody.Body>, wants: seq<BhttpBody.pos>,
                           content: bytes)
  {
    && start.Ok? && start.value.Valid()
    && if start.value.done then content == []
       else
         var (out, fate) := BhttpBody.Run(check, start.value, wants);
         && out <= content
         && (fate.Some? ==> fate.value == Finished && out == content)
         && (fate.None? ==> |wants| <= |out|)
  }

  lemma BodyDelivers(rules: BhttpResponse.Rules, s: bytes, q: nat, m: BhttpResponse.Message, known: bool,
                     expected: Option<nat>, wants: seq<BhttpBody.pos>)
    requires q <= |s| && s[q..] == BhttpResponse.EncodeRest(m, known) && BhttpResponse.WellFormedMessage(rules, m)
    requires expected.Some? ==> expected.value == |Flatten(m.chunks)|
    ensures Delivers(rules.check, BhttpBody.Start(rules.check, s, Eof, q, known, expected), wants, Flatten(m.chunks))
  {
    hide BhttpResponse.WellFormedMessage, BhttpBody.Start, BhttpBody.Run, BhttpBody.BodyFrom;
    BhttpBody.MessageIsDelivered(rules, s, q, m, known, expected);
    StartNeedsEnd(rules.check, s, Eof, q, known, expected);
    var b := BhttpBody.Start(rules.check, s, Eof, q, known, expected).value;
    if m.chunks != [] {
      BhttpBody.EveryScheduleAgrees(rules.check, b, wants);
    }
  }

  /**
   * On the honest wire of an encoded response, cut into any frames: the heads are found, and every
   * schedule of buffer sizes delivers the content whole and then end of file.
   */
  lemma ResponseThroughFrames(box: Box, rules: BhttpResponse.Rules, m: BhttpResponse.Message, known: bool,
                              expected: Option<nat>, wants: seq<BhttpBody.pos>)
    requires box.Valid() && WellSealed(box.sealed)
    requires BhttpResponse.WellFormedMessage(rules, m)
    requires Plain(box.sealed, 0) == BhttpResponse.EncodeResponse(m, known)
    requires expected.Some? ==> expected.value == |Flatten(m.chunks)|
    ensures var play := DecryptFrom(box, Wire(box.sealed, 0), Eof, 0, 0, 0);
            var heads := Heads(rules, play.out, EndingOf(play.fate), known);
            && play == Play(BhttpResponse.EncodeResponse(m, known), Finished)
            && heads.Ok? && heads.value.0 == m.head && heads.value.1 <= |play.out|
            && Delivers(rules.check, BhttpBody.Start(rules.check, play.out, Eof, heads.value.1, known, expected),
                        wants, Flatten(m.chunks))
  {
    hide BhttpResponse.WellFormedMessage, BhttpBody.Start, DecryptFrom, Wire, Heads, Delivers,
         BhttpResponse.EncodeRest, BhttpResponse.EncodeResponse, Plain, WellSealed;
    assert [] + Wire(box.sealed, 0) == Wire(box.sealed, 0);
    SealedWithinLimit(box);
    HonestDecrypts(box, [], 0, 0);
    HeadsOfResponse(rules, m, known);
    var s := BhttpResponse.EncodeResponse(m, known);
    BodyDelivers(rules, s, |s| - |BhttpResponse.EncodeRest(m, known)|, m, known, expected, wants);
  }

  lemma SealedWithinLimit(box: Box)
    requires WellSealed(box.sealed)
    ensures 0 < |box.sealed| && 0 + |Plain(box.sealed, 0)| <= MESSAGE_LIMIT
  {
  }

  // ----- A request, encoded and sealed -----

  lemma {:induction false} PartsFit(parts: seq<bytes>)
    ensures forall k :: 0 <= k < |parts| ==> |parts[k]| <= |BhttpRequest.Vectors(parts)|
  {
    if parts != [] {
      PartsFit(parts[1..]);
      assert forall k :: 0 < k < |parts| ==> parts[k] == parts[1..][k - 1];
    }
  }

  lemma SmallIsEncodable(r: BhttpRequest.Request)
    requires |BhttpRequest.Padded(r)| <= MESSAGE_LIMIT
    ensures BhttpRequest.Encodable(r) && 0 < |BhttpRequest.Padded(r)|
  {
    hide BhttpRequest.Vectors;
    var parts := BhttpRequest.Parts(r);
    PartsFit(parts);
    assert parts[0] == r.method_ && parts[1] == r.scheme && parts[2] == r.authority && parts[3] == r.path
        && parts[4] == BhttpRequest.FieldLines(r.fields) && parts[5] == r.body;
  }

  /**
   * Go's request, encoded and sealed: refused if it is too long, and otherwise a wire that opens
   * to end of file after exactly one message, which a decoder of section 3.1 reads back as the
   * request with the headers it keeps.
   */
  method SealedRequest(r: BhttpRequest.Request, skip: set<bytes>, seal: Seal, base: bytes) returns (wire: Result<bytes>)
    requires |base| >= 8
    requires forall n, aad, chunk :: |seal(n, aad, chunk)| == |chunk| + TAG
    ensures var kept := r.(fields := BhttpRequest.Kept(r.fields, skip));
            && (wire.Err? <==> |BhttpRequest.Padded(kept)| > MESSAGE_LIMIT)
            && (wire.Ok? ==>
                  var box := Box(base, SealAll(seal, BhttpRequest.Padded(kept)));
                  && box.Valid()
                  && var play := DecryptFrom(box, wire.value, Eof, 0, 0, 0);
                     play.fate == Finished && BhttpRequest.DecodeRequest(play.out) == Some(kept))
  {
    var encoded := BhttpRequest.EncodeGo(r, skip);
    if encoded.Err? {
      return Err;
    }
    ghost var kept := r.(fields := BhttpRequest.Kept(r.fields, skip));
    hide BhttpRequest.Padded, BhttpRequest.Encodable, DecryptFrom, Wire, SealAll, BhttpRequest.DecodeRequest;
    SmallIsEncodable(kept);
    BhttpRequest.RequestRoundTrip(kept);
    SealedRequestOpens(seal, base, encoded.value);
    var sealed := SealRequest(seal, encoded.value);
    wire := Ok(sealed);
  }
}
