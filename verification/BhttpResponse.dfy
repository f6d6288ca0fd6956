/**
 * Binary HTTP responses (sections 3.1 to 3.8 of RFC 9292): the decoder of rs/src/ohttp.rs, which
 * takes both framings and their truncated forms, and the encodings it inverts.
 */
module BhttpResponse {
  import opened Bytes
  import opened Streams
  import opened Varint
  import opened Wrappers
  import opened BhttpRequest
  import opened BhttpFields

  const MAX_INFORMATIONAL := 32

  datatype Head = Head(status: nat, fields: seq<Field>)

  /** What the decoder is told from outside: header checks, Content-Length, bodiless statuses. */
  datatype Rules = Rules(check: Check, lengthOf: seq<Field> -> Result<Option<nat>>, noBody: nat -> bool)

  datatype Response = Response(status: nat, fields: seq<Field>, content: bytes)

  /** Informational heads, no more than 32 of them, then the final one. */
  function HeadsAt(rules: Rules, s: bytes, ending: Ending, p: nat, known: bool, seen: nat): (r: Result<(Head, nat)>)
    requires p <= |s|
    ensures r.Ok? ==> p < r.value.1 <= |s|
    decreases |s| - p
  {
    match ReadAt(s, ending, p, false)
    case Err => Err
    case Ok((code, q)) =>
      if !(100 <= code <= 599) || (code < 200 && seen == MAX_INFORMATIONAL) then Err
      else match FieldsAt(rules.check, s, ending, q, known)
        case Err => Err
        case Ok((fields, e)) =>
          if code >= 200 then Ok((Head(code, fields), e))
          else HeadsAt(rules, s, ending, e, known, seen + 1)
  }

  /** One length and its content, or chunk after chunk up to an empty one. */
  function ContentAt(s: bytes, ending: Ending, p: nat, known: bool, first: bool, total: nat,
                     expected: Option<nat>): (r: Result<(bytes, nat)>)
    requires p <= |s|
    ensures r.Ok? ==> p <= r.value.1 <= |s|
    decreases |s| - p
  {
    match ReadAt(s, ending, p, first)
    case Err => Err
    case Ok((size, q)) =>
      if size == 0 then Ok(([], q))
      else if q + size > |s| || total + size > LIMIT_MESSAGE
              || (expected.Some? && total + size > expected.value) then Err
      else if known then Ok((s[q..q + size], q + size))
      else match ContentAt(s, ending, q + size, known, false, total + size, expected)
        case Err => Err
        case Ok((rest, e)) => Ok((s[q..q + size] + rest, e))
  }

  /** Trailers, zero padding within the message limit, and a clean end of stream. */
  predicate EndsWell(check: Check, s: bytes, ending: Ending, p: nat, known: bool, total: nat)
    requires p <= |s|
  {
    match FieldsAt(check, s, ending, p, known)
    case Err => false
    case Ok((_, q)) => ending.Eof? && AllZero(s[q..]) && total + (|s| - q) <= LIMIT_MESSAGE
  }

  function DecodeResponse(rules: Rules, s: bytes, ending: Ending): Result<Response> {
    match ReadAt(s, ending, 0, false)
    case Err => Err
    case Ok((framing, p)) =>
      if framing != 1 && framing != 3 then Err
      else match HeadsAt(rules, s, ending, p, framing == 1, 0)
        case Err => Err
        case Ok((head, q)) => DecodeBody(rules, s, ending, q, framing == 1, head)
  }

  function DecodeBody(rules: Rules, s: bytes, ending: Ending, p: nat, known: bool, head: Head): Result<Response>
    requires p <= |s|
  {
    match rules.lengthOf(head.fields)
    case Err => Err
    case Ok(declared) =>
      var expected := if rules.noBody(head.status) then None else declared;
      match ContentAt(s, ending, p, known, true, 0, expected)
      case Err => Err
      case Ok((content, e)) =>
        if expected.Some? && expected.value != |content| then Err
        else if !EndsWell(rules.check, s, ending, e, known, |content|) then Err
        else Ok(Response(head.status, head.fields, if rules.noBody(head.status) then [] else content))
  }

  // ----- rs/src/ohttp.rs: the response part of send, and the stream it returns -----

  method ReadHeads(rules: Rules, reader: Stream, known: bool) returns (r: Result<Head>)
    requires reader.Valid()
    modifies reader
    ensures reader.Valid()
    ensures match HeadsAt(rules, reader.data, reader.ending, old(reader.pos), known, 0)
            case Ok((head, q)) => r == Ok(head) && reader.pos == q
            case Err => r == Err
  {
    hide FieldsAt;
    var informational := 0;
    while true
      invariant reader.Valid() && informational <= MAX_INFORMATIONAL
      invariant HeadsAt(rules, reader.data, reader.ending, old(reader.pos), known, 0) ==
                HeadsAt(rules, reader.data, reader.ending, reader.pos, known, informational)
      decreases |reader.data| - reader.pos
    {
      var code := reader.Integer(false);
      if code.Err? || !(100 <= code.value <= 599) {
        return Err;
      }
      if code.value < 200 {
        if informational == MAX_INFORMATIONAL {
          return Err;
        }
        informational := informational + 1;
      }
      var headers := FieldsRust(rules.check, reader, known);
      if headers.Err? {
        return Err;
      }
      if code.value >= 200 {
        return Ok(Head(code.value, headers.value));
      }
    }
  }

  /** The content loop; pieces of at most a chunk are handed on as they are read. */
  method ReadContent(reader: Stream, known: bool, expected: Option<nat>) returns (r: Result<bytes>)
    requires reader.Valid()
    modifies reader
    ensures reader.Valid()
    ensures match ContentAt(reader.data, reader.ending, old(reader.pos), known, true, 0, expected)
            case Ok((content, q)) => r == Ok(content) && reader.pos == q
            case Err => r == Err
  {
    hide ReadAt;
    hide ContentAt;
    var content: bytes := [];
    var first := true;
    PrependContentNone(ContentAt(reader.data, reader.ending, reader.pos, known, true, 0, expected));
    while true
      invariant reader.Valid() && (first ==> content == [])
      invariant ContentAt(reader.data, reader.ending, old(reader.pos), known, true, 0, expected) ==
                PrependContent(content, ContentAt(reader.data, reader.ending, reader.pos, known, first, |content|, expected))
      decreases |reader.data| - reader.pos
    {
      ContentStep(content, reader.data, reader.ending, reader.pos, known, first, expected);
      var remaining := reader.Integer(first);
      first := false;
      if remaining.Err? {
        return Err;
      }
      if remaining.value == 0 {
        return Ok(content);
      }
      if remaining.value > LIMIT_MESSAGE {
        return Err;
      }
      var chunk := ReadPieces(reader, remaining.value, |content|, expected);
      if chunk.Err? {
        return Err;
      }
      content := content + chunk.value;
      if known {
        return Ok(content);
      }
    }
  }

  /** while remaining > 0: one piece, then the limits. */
  method ReadPieces(reader: Stream, size: nat, before: nat, expected: Option<nat>) returns (r: Result<bytes>)
    requires reader.Valid() && size > 0
    modifies reader
    ensures reader.Valid()
    ensures if old(reader.pos) + size > |reader.data| || before + size > LIMIT_MESSAGE
               || (expected.Some? && before + size > expected.value) then r == Err
            else r == Ok(reader.data[old(reader.pos)..old(reader.pos) + size]) && reader.pos == old(reader.pos) + size
  {
    var remaining := size;
    var total := before;
    var out: bytes := [];
    ghost var p := reader.pos;
    while remaining > 0
      invariant reader.Valid() && 0 <= remaining <= size && reader.pos == p + (size - remaining)
      invariant total == before + (size - remaining) && out == reader.data[p..reader.pos]
      invariant remaining < size ==> total <= LIMIT_MESSAGE && (expected.Some? ==> total <= expected.value)
    {
      var n := if remaining < BhttpRequest.CHUNK then remaining else BhttpRequest.CHUNK;
      ghost var at := reader.pos;
      var piece := reader.ReadFull(n);
      if piece.Err? {
        return Err;
      }
      SliceSplit(reader.data, p, at, at + n);
      out := out + piece.value;
      total := total + n;
      remaining := remaining - n;
      if total > LIMIT_MESSAGE || (expected.Some? && total > expected.value) {
        return Err;
      }
    }
    r := Ok(out);
  }

  function PrependContent(content: bytes, r: Result<(bytes, nat)>): Result<(bytes, nat)> {
    match r
    case Err => Err
    case Ok((rest, e)) => Ok((content + rest, e))
  }

  lemma PrependContentNone(r: Result<(bytes, nat)>)
    ensures PrependContent([], r) == r
  {
    if r.Ok? {
      assert [] + r.value.0 == r.value.0;
    }
  }

  /** One turn of the content loop, with what was read before in front of it. */
  lemma ContentStep(content: bytes, s: bytes, ending: Ending, p: nat, known: bool, first: bool, expected: Option<nat>)
    requires p <= |s|
    ensures PrependContent(content, ContentAt(s, ending, p, known, first, |content|, expected)) ==
            match ReadAt(s, ending, p, first)
            case Err => Err
            case Ok((size, q)) =>
              if size == 0 then Ok((content, q))
              else if q + size > |s| || |content| + size > LIMIT_MESSAGE
                      || (expected.Some? && |content| + size > expected.value) then Err
              else if known then Ok((content + s[q..q + size], q + size))
              else PrependContent(content + s[q..q + size],
                     ContentAt(s, ending, q + size, known, false, |content + s[q..q + size]|, expected))
  {
    hide ReadAt;
    match ReadAt(s, ending, p, first)
    case Err =>
    case Ok((size, q)) =>
      if size == 0 {
        assert content + [] == content;
      } else if q + size <= |s| && !known {
        var chunk := s[q..q + size];
        var rest := ContentAt(s, ending, q + size, known, false, |content| + size, expected);
        if rest.Ok? {
          Assoc(content, chunk, rest.value.0);
        }
      }
  }

  /** Reader::drain_padding: reads of any size up to a chunk, all zero, within the limit, to a clean end. */
  method DrainPadding(reader: Stream, content: nat) returns (ok: bool)
    requires reader.Valid()
    modifies reader
    ensures reader.Valid()
    ensures ok <==> && reader.ending.Eof?
                    && AllZero(reader.data[old(reader.pos)..])
                    && (old(reader.pos) == |reader.data|
                        || content + (|reader.data| - old(reader.pos)) <= LIMIT_MESSAGE)
  {
    var total := content;
    ghost var p := reader.pos;
    while true
      invariant reader.Valid() && p <= reader.pos
      invariant total == content + (reader.pos - p) && (reader.pos > p ==> total <= LIMIT_MESSAGE)
      invariant forall k :: p <= k < reader.pos ==> reader.data[k] == 0
      decreases |reader.data| - reader.pos
    {
      if reader.pos == |reader.data| {
        return reader.ending.Eof?;
      }
      var size :| 1 <= size <= BhttpRequest.CHUNK && reader.pos + size <= |reader.data|;
      ghost var at := reader.pos;
      var buf := reader.ReadFull(size);
      var left := if total <= LIMIT_MESSAGE then LIMIT_MESSAGE - total else 0;
      if size > left {
        return false;
      }
      total := total + size;
      if !AllZero(buf.value) {
        ghost var k :| 0 <= k < |buf.value| && buf.value[k] != 0;
        assert reader.data[at + k] == reader.data[at..at + size][k] == buf.value[k];
        assert reader.data[p..][at + k - p] == reader.data[at + k];
        return false;
      }
      assert forall k :: at <= k < at + size ==> reader.data[k] == buf.value[k - at];
    }
  }

  /** The whole response, as a caller that collects the stream sees it. */
  method Decode(rules: Rules, reader: Stream) returns (r: Result<Response>)
    requires reader.Valid() && reader.pos == 0
    modifies reader
    ensures r == DecodeResponse(rules, reader.data, reader.ending)
  {
    hide HeadsAt;
    hide ContentAt;
    hide FieldsAt;
    hide AllZero;
    var framing := reader.Integer(false);
    if framing.Err? || (framing.value != 1 && framing.value != 3) {
      return Err;
    }
    var known := framing.value == 1;
    var head := ReadHeads(rules, reader, known);
    if head.Err? {
      return Err;
    }
    var declared := rules.lengthOf(head.value.fields);
    if declared.Err? {
      return Err;
    }
    var noBody := rules.noBody(head.value.status);
    var expected := if noBody then None else declared.value;
    var content := ReadContent(reader, known, expected);
    if content.Err? {
      return Err;
    }
    if !noBody && declared.value.Some? && declared.value.value != |content.value| {
      return Err;
    }
    var trailers := FieldsRust(rules.check, reader, known);
    if trailers.Err? {
      return Err;
    }
    ContentWithinLimit(reader.data, reader.ending, known, expected);
    var drained := DrainPadding(reader, |content.value|);
    if !drained {
      return Err;
    }
    r := Ok(Response(head.value.status, head.value.fields, if noBody then [] else content.value));
  }

  lemma ContentWithinLimit(s: bytes, ending: Ending, known: bool, expected: Option<nat>)
    ensures forall p :: 0 <= p <= |s| ==>
              var r := ContentAt(s, ending, p, known, true, 0, expected);
              r.Ok? ==> |r.value.0| <= LIMIT_MESSAGE
  {
    forall p | 0 <= p <= |s|
      ensures var r := ContentAt(s, ending, p, known, true, 0, expected);
              r.Ok? ==> |r.value.0| <= LIMIT_MESSAGE
    {
      ContentBound(s, ending, p, known, true, 0, expected);
    }
  }

  lemma {:induction false} ContentBound(s: bytes, ending: Ending, p: nat, known: bool, first: bool,
                                        total: nat, expected: Option<nat>)
    requires p <= |s| && total <= LIMIT_MESSAGE
    ensures var r := ContentAt(s, ending, p, known, first, total, expected);
            r.Ok? ==> total + |r.value.0| <= LIMIT_MESSAGE
    decreases |s| - p
  {
    hide ReadAt;
    match ReadAt(s, ending, p, first)
    case Err =>
    case Ok((size, q)) =>
      if size > 0 && q + size <= |s| && total + size <= LIMIT_MESSAGE && !known {
        ContentBound(s, ending, q + size, known, false, total + size, expected);
      }
  }

  // ----- Encodings -----

  /**
   * A response on the wire. `cut` drops trailing empty parts (section 3.8): 1 the trailers,
   * 2 also the content, 3 also the header section.
   */
  datatype Message = Message(informational: seq<Head>, head: Head, chunks: seq<bytes>,
                             trailers: seq<Field>, padding: nat, cut: nat)

  function EncodeHead(h: Head, known: bool): bytes {
    Encode(h.status) + EncodeFields(h.fields, known)
  }

  function EncodeHeads(hs: seq<Head>, known: bool): bytes {
    if hs == [] then [] else EncodeHead(hs[0], known) + EncodeHeads(hs[1..], known)
  }

  function EncodeContent(chunks: seq<bytes>, known: bool): bytes {
    if known then Vector(Flatten(chunks)) else Vectors(chunks) + [0]
  }

  function EncodeEnd(m: Message, known: bool): bytes {
    if m.cut >= 1 then [] else EncodeFields(m.trailers, known) + Zeros(m.padding)
  }

  function EncodeRest(m: Message, known: bool): bytes {
    if m.cut >= 2 then [] else EncodeContent(m.chunks, known) + EncodeEnd(m, known)
  }

  function EncodeFinal(m: Message, known: bool): bytes {
    if m.cut >= 3 then Encode(m.head.status)
    else Encode(m.head.status) + (EncodeFields(m.head.fields, known) + EncodeRest(m, known))
  }

  function EncodeResponse(m: Message, known: bool): bytes {
    Encode(if known then 1 else 3) + (EncodeHeads(m.informational, known) + EncodeFinal(m, known))
  }

  ghost predicate WellFormedMessage(rules: Rules, m: Message) {
    && |m.informational| <= MAX_INFORMATIONAL
    && (forall h :: h in m.informational ==> 100 <= h.status < 200 && Acceptable(rules.check, h.fields))
    && 200 <= m.head.status <= 599 && Acceptable(rules.check, m.head.fields)
    && (forall chunk :: chunk in m.chunks ==> chunk != [])
    && Acceptable(rules.check, m.trailers)
    && |Flatten(m.chunks)| + m.padding <= LIMIT_MESSAGE
    && rules.lengthOf(m.head.fields).Ok?
    && (|| rules.lengthOf(m.head.fields).value == None
        || rules.lengthOf(m.head.fields).value == Some(|Flatten(m.chunks)|)
        || rules.noBody(m.head.status))
    && (m.cut >= 1 ==> m.trailers == [] && m.padding == 0)
    && (m.cut >= 2 ==> m.chunks == [])
    && (m.cut >= 3 ==> m.head.fields == [])
  }

  // Each part, read at a position of a stream from which it is known to continue.

  lemma IntegerHere(s: bytes, p: nat, v: nat, after: bytes, eofZero: bool)
    requires p <= |s| && v < LIMIT && s[p..] == Encode(v) + after
    ensures ReadAt(s, Eof, p, eofZero) == Ok((v, p + |Encode(v)|))
    ensures s[p + |Encode(v)|..] == after
  {
    assert s == s[..p] + Encode(v) + after;
    RoundTrip(v, s[..p], after);
    assert |s[p..]| > 0;
  }

  lemma FieldsHere(check: Check, s: bytes, p: nat, fields: seq<Field>, after: bytes, known: bool)
    requires p <= |s| && Acceptable(check, fields) && s[p..] == EncodeFields(fields, known) + after
    ensures FieldsAt(check, s, Eof, p, known) == Ok((fields, p + |EncodeFields(fields, known)|))
    ensures s[p + |EncodeFields(fields, known)|..] == after
  {
    hide FieldsAt;
    hide Acceptable;
    hide EncodeFields;
    assert s == s[..p] + (EncodeFields(fields, known) + after);
    FieldsRoundTrip(check, s[..p], fields, after, Eof, known);
  }

  lemma FieldsOfNothing(check: Check, s: bytes, p: nat, known: bool)
    requires p <= |s| && s[p..] == []
    ensures FieldsAt(check, s, Eof, p, known) == Ok(([], p))
  {
    FieldsAtEnd(check, s, known);
  }

  lemma ChunkHere(s: bytes, p: nat, chunk: bytes, after: bytes, first: bool)
    requires p <= |s| && |chunk| < LIMIT && s[p..] == Vector(chunk) + after
    ensures var q := p + |Encode(|chunk|)|;
            && ReadAt(s, Eof, p, first) == Ok((|chunk|, q))
            && q + |chunk| <= |s| && s[q..q + |chunk|] == chunk && s[q + |chunk|..] == after
            && q + |chunk| == p + |Vector(chunk)|
  {
    Assoc(Encode(|chunk|), chunk, after);
    IntegerHere(s, p, |chunk|, chunk + after, first);
    var q := p + |Encode(|chunk|)|;
    assert s[q..q + |chunk|] == s[q..][..|chunk|];
    assert s[q + |chunk|..] == s[q..][|chunk|..];
  }

  /** One chunk of an indeterminate-length content. */
  lemma OneChunk(s: bytes, p: nat, first: bool, total: nat, expected: Option<nat>, size: nat, q: nat)
    requires p <= |s| && ReadAt(s, Eof, p, first) == Ok((size, q))
    requires 0 < size && q + size <= |s| && total + size <= LIMIT_MESSAGE
    requires expected.Some? ==> total + size <= expected.value
    ensures ContentAt(s, Eof, p, false, first, total, expected) ==
            match ContentAt(s, Eof, q + size, false, false, total + size, expected)
            case Err => Err
            case Ok((rest, e)) => Ok((s[q..q + size] + rest, e))
  {
    hide ReadAt;
  }

  lemma {:induction false} ChunksHere(s: bytes, p: nat, chunks: seq<bytes>, after: bytes, first: bool,
                                      total: nat, expected: Option<nat>)
    requires p <= |s| && s[p..] == Vectors(chunks) + ([0] + after)
    requires forall chunk :: chunk in chunks ==> chunk != []
    requires total + |Flatten(chunks)| <= LIMIT_MESSAGE
    requires expected.Some? ==> total + |Flatten(chunks)| <= expected.value
    ensures ContentAt(s, Eof, p, false, first, total, expected) ==
            Ok((Flatten(chunks), p + |Vectors(chunks)| + 1))
    ensures s[p + |Vectors(chunks)| + 1..] == after
    decreases |chunks|
  {
    hide ReadAt, Vector, Vectors, Flatten, ContentAt;
    if chunks == [] {
      NoChunksHere(s, p, after, first, total, expected);
    } else {
      var chunk, rest := chunks[0], chunks[1..];
      Peel(chunks);
      ChunksFollow(chunk, Vectors(rest), [0] + after);
      assert chunk in chunks && forall c :: c in rest ==> c in chunks;
      FirstChunkHere(s, p, chunk, Vectors(rest) + ([0] + after), first, total, expected);
      ChunksHere(s, p + |Vector(chunk)|, rest, after, false, total + |chunk|, expected);
    }
  }

  lemma ChunksFollow(chunk: bytes, rest: bytes, after: bytes)
    ensures Vector(chunk) + rest + after == Vector(chunk) + (rest + after)
  {
  }

  lemma FirstChunkHere(s: bytes, p: nat, chunk: bytes, after: bytes, first: bool, total: nat, expected: Option<nat>)
    requires p <= |s| && 0 < |chunk| && total + |chunk| <= LIMIT_MESSAGE && s[p..] == Vector(chunk) + after
    requires expected.Some? ==> total + |chunk| <= expected.value
    ensures p + |Vector(chunk)| <= |s| && s[p + |Vector(chunk)|..] == after
    ensures ContentAt(s, Eof, p, false, first, total, expected) ==
            PrependContent(chunk, ContentAt(s, Eof, p + |Vector(chunk)|, false, false, total + |chunk|, expected))
  {
    hide ReadAt, ContentAt, Vector;
    ChunkHere(s, p, chunk, after, first);
    OneChunk(s, p, first, total, expected, |chunk|, p + |Encode(|chunk|)|);
  }

  lemma NoChunksHere(s: bytes, p: nat, after: bytes, first: bool, total: nat, expected: Option<nat>)
    requires p <= |s| && s[p..] == Vectors([]) + ([0] + after)
    ensures Vectors([]) == [] && Flatten([]) == []
    ensures ContentAt(s, Eof, p, false, first, total, expected) == Ok(([], p + 1))
    ensures s[p + 1..] == after
  {
    hide ReadAt;
    assert [] + ([0] + after) == [0] + after;
    assert Encode(0) == [0];
    IntegerHere(s, p, 0, after, first);
  }

  /** The first of some chunks, and the others. */
  lemma Peel(chunks: seq<bytes>)
    requires chunks != []
    ensures Vectors(chunks) == Vector(chunks[0]) + Vectors(chunks[1..])
    ensures Flatten(chunks) == chunks[0] + Flatten(chunks[1..])
  {
    hide Vector;
  }

  lemma ContentHere(s: bytes, p: nat, chunks: seq<bytes>, after: bytes, known: bool, expected: Option<nat>)
    requires p <= |s| && s[p..] == EncodeContent(chunks, known) + after
    requires forall chunk :: chunk in chunks ==> chunk != []
    requires |Flatten(chunks)| <= LIMIT_MESSAGE
    requires expected.Some? ==> |Flatten(chunks)| <= expected.value
    ensures ContentAt(s, Eof, p, known, true, 0, expected) ==
            Ok((Flatten(chunks), p + |EncodeContent(chunks, known)|))
    ensures s[p + |EncodeContent(chunks, known)|..] == after
  {
    hide ReadAt;
    if known {
      ChunkHere(s, p, Flatten(chunks), after, true);
    } else {
      Assoc(Vectors(chunks), [0], after);
      ChunksHere(s, p, chunks, after, true, 0, expected);
    }
  }

  lemma NothingHere(s: bytes, p: nat, known: bool, expected: Option<nat>)
    requires p <= |s| && s[p..] == []
    ensures ContentAt(s, Eof, p, known, true, 0, expected) == Ok(([], p))
  {
  }

  lemma {:induction false} HeadsHere(rules: Rules, s: bytes, p: nat, hs: seq<Head>, m: Message, known: bool, seen: nat)
    requires p <= |s| && s[p..] == EncodeHeads(hs, known) + EncodeFinal(m, known)
    requires WellFormedMessage(rules, m) && seen + |hs| <= MAX_INFORMATIONAL
    requires forall h :: h in hs ==> 100 <= h.status < 200 && Acceptable(rules.check, h.fields)
    ensures var q := |s| - |EncodeRest(m, known)|;
            && p <= q && HeadsAt(rules, s, Eof, p, known, seen) == Ok((m.head, q))
            && s[q..] == EncodeRest(m, known)
    decreases |hs|
  {
    hide FieldsAt;
    hide ReadAt;
    hide EncodeFields;
    hide EncodeFinal;
    hide EncodeRest;
    hide Acceptable;
    hide WellFormedMessage;
    if hs == [] {
      assert [] + EncodeFinal(m, known) == EncodeFinal(m, known);
      FinalHeadHere(rules, s, p, m, known, seen);
    } else {
      var h, rest := hs[0], hs[1..];
      var after := EncodeHeads(rest, known) + EncodeFinal(m, known);
      Assoc(EncodeHead(h, known), EncodeHeads(rest, known), EncodeFinal(m, known));
      Assoc(Encode(h.status), EncodeFields(h.fields, known), after);
      assert h in hs;
      IntegerHere(s, p, h.status, EncodeFields(h.fields, known) + after, false);
      FieldsHere(rules.check, s, p + |Encode(h.status)|, h.fields, after, known);
      assert forall x :: x in rest ==> x in hs;
      HeadsHere(rules, s, p + |Encode(h.status)| + |EncodeFields(h.fields, known)|, rest, m, known, seen + 1);
    }
  }

  lemma FinalHeadHere(rules: Rules, s: bytes, p: nat, m: Message, known: bool, seen: nat)
    requires p <= |s| && s[p..] == EncodeFinal(m, known) && WellFormedMessage(rules, m)
    ensures var q := |s| - |EncodeRest(m, known)|;
            && p <= q && HeadsAt(rules, s, Eof, p, known, seen) == Ok((m.head, q))
            && s[q..] == EncodeRest(m, known)
  {
    hide FieldsAt;
    hide ReadAt;
    hide EncodeFields;
    hide Acceptable;
    var code := m.head.status;
    if m.cut >= 3 {
      assert s[p..] == Encode(code) + [];
      IntegerHere(s, p, code, [], false);
      FieldsOfNothing(rules.check, s, p + |Encode(code)|, known);
    } else {
      IntegerHere(s, p, code, EncodeFields(m.head.fields, known) + EncodeRest(m, known), false);
      FieldsHere(rules.check, s, p + |Encode(code)|, m.head.fields, EncodeRest(m, known), known);
    }
  }

  lemma EndHere(rules: Rules, s: bytes, p: nat, m: Message, known: bool)
    requires p <= |s| && s[p..] == EncodeEnd(m, known) && WellFormedMessage(rules, m)
    ensures EndsWell(rules.check, s, Eof, p, known, |Flatten(m.chunks)|)
  {
    hide FieldsAt;
    hide EncodeFields;
    hide Acceptable;
    if m.cut >= 1 {
      FieldsOfNothing(rules.check, s, p, known);
    } else {
      FieldsHere(rules.check, s, p, m.trailers, Zeros(m.padding), known);
    }
  }

  lemma BodyHere(rules: Rules, s: bytes, p: nat, m: Message, known: bool)
    requires p <= |s| && s[p..] == EncodeRest(m, known) && WellFormedMessage(rules, m)
    ensures DecodeBody(rules, s, Eof, p, known, m.head) ==
            Ok(Response(m.head.status, m.head.fields,
                        if rules.noBody(m.head.status) then [] else Flatten(m.chunks)))
  {
    hide ContentAt;
    hide EndsWell;
    hide EncodeContent;
    hide EncodeEnd;
    var expected := if rules.noBody(m.head.status) then None else rules.lengthOf(m.head.fields).value;
    if m.cut >= 2 {
      NothingHere(s, p, known, expected);
      NoEnd(m, known);
      EndHere(rules, s, p, m, known);
    } else {
      ContentHere(s, p, m.chunks, EncodeEnd(m, known), known, expected);
      EndHere(rules, s, p + |EncodeContent(m.chunks, known)|, m, known);
    }
  }

  lemma NoEnd(m: Message, known: bool)
    requires m.cut >= 1
    ensures EncodeEnd(m, known) == []
  {
  }

  /**
   * Any response decodes to its status, headers and content, from either framing and from every
   * truncation the RFC allows, however its content was cut into chunks.
   */
  lemma ResponseRoundTrip(rules: Rules, m: Message, known: bool)
    requires WellFormedMessage(rules, m)
    ensures DecodeResponse(rules, EncodeResponse(m, known), Eof) ==
            Ok(Response(m.head.status, m.head.fields,
                        if rules.noBody(m.head.status) then [] else Flatten(m.chunks)))
  {
    hide HeadsAt;
    hide DecodeBody;
    hide ReadAt;
    hide WellFormedMessage;
    var s := EncodeResponse(m, known);
    var framing := if known then 1 else 3;
    assert s[0..] == s;
    IntegerHere(s, 0, framing, EncodeHeads(m.informational, known) + EncodeFinal(m, known), false);
    HeadsOfMessage(rules, m);
    HeadsHere(rules, s, |Encode(framing)|, m.informational, m, known, 0);
    BodyHere(rules, s, |s| - |EncodeRest(m, known)|, m, known);
  }

  lemma HeadsOfMessage(rules: Rules, m: Message)
    requires WellFormedMessage(rules, m)
    ensures |m.informational| <= MAX_INFORMATIONAL
    ensures forall h :: h in m.informational ==> 100 <= h.status < 200 && Acceptable(rules.check, h.fields)
  {
  }

  // ----- What is refused -----

  lemma {:induction false} SectionChecked(check: Check, s: bytes, p: nat)
    requires p <= |s|
    ensures Section(check, s, p).Ok? ==> forall f :: f in Section(check, s, p).value ==> check(f)
    decreases |s| - p
  {
    hide VectorAt;
    if p < |s| && VectorAt(s, p).Some? && VectorAt(s, VectorAt(s, p).value.1).Some? {
      SectionChecked(check, s, VectorAt(s, VectorAt(s, p).value.1).value.1);
    }
  }

  lemma {:induction false} LinesChecked(check: Check, s: bytes, ending: Ending, p: nat, total: nat)
    requires p <= |s|
    ensures Lines(check, s, ending, p, total).Ok? ==>
              forall f :: f in Lines(check, s, ending, p, total).value.0 ==> check(f) && f.0 != []
    decreases |s| - p
  {
    hide StringAt;
    match StringAt(s, ending, p, total == 0)
    case Err =>
    case Ok((name, q)) =>
      if name != [] {
        match StringAt(s, ending, q, false)
        case Err =>
        case Ok((value, e)) => LinesChecked(check, s, ending, e, total + |name| + |value|);
      }
  }

  lemma {:induction false} HeadsChecked(rules: Rules, s: bytes, ending: Ending, p: nat, known: bool, seen: nat)
    requires p <= |s|
    ensures var r := HeadsAt(rules, s, ending, p, known, seen);
            r.Ok? ==> 200 <= r.value.0.status <= 599 && forall f :: f in r.value.0.fields ==> rules.check(f)
    decreases |s| - p
  {
    hide ReadAt, FieldsAt;
    match ReadAt(s, ending, p, false)
    case Err =>
    case Ok((code, q)) =>
      FieldsChecked(rules.check, s, ending, q, known);
      match FieldsAt(rules.check, s, ending, q, known)
      case Err =>
      case Ok((fields, e)) =>
        if code < 200 {
          HeadsChecked(rules, s, ending, e, known, seen + 1);
        }
  }

  lemma FieldsChecked(check: Check, s: bytes, ending: Ending, p: nat, known: bool)
    requires p <= |s|
    ensures FieldsAt(check, s, ending, p, known).Ok? ==>
              forall f :: f in FieldsAt(check, s, ending, p, known).value.0 ==> check(f)
  {
    hide Lines, Section, StringAt;
    if known {
      if StringAt(s, ending, p, true).Ok? {
        SectionChecked(check, StringAt(s, ending, p, true).value.0, 0);
      }
    } else {
      LinesChecked(check, s, ending, p, 0);
    }
  }

  /** Neither another framing nor a status outside 100 to 599 is accepted, informational or not. */
  lemma RefusedAtOnce(rules: Rules, s: bytes, ending: Ending, p: nat, known: bool, seen: nat)
    requires p <= |s| && ReadAt(s, ending, p, false).Ok?
    ensures var v := ReadAt(s, ending, p, false).value.0;
            && (!(100 <= v <= 599) ==> HeadsAt(rules, s, ending, p, known, seen).Err?)
            && (p == 0 && v != 1 && v != 3 ==> DecodeResponse(rules, s, ending).Err?)
  {
    hide ReadAt, FieldsAt;
  }

  /** What the names and values of a field section come to. */
  function Volume(fields: seq<Field>): nat {
    if fields == [] then 0 else |fields[0].0| + |fields[0].1| + Volume(fields[1..])
  }

  lemma {:induction false} SectionBounded(check: Check, s: bytes, p: nat)
    requires p <= |s|
    ensures Section(check, s, p).Ok? ==> Volume(Section(check, s, p).value) <= |s| - p
    decreases |s| - p
  {
    if p < |s| && VectorAt(s, p).Some? && VectorAt(s, VectorAt(s, p).value.1).Some? {
      var q := VectorAt(s, VectorAt(s, p).value.1).value.1;
      SectionBounded(check, s, q);
      if Section(check, s, p).Ok? {
        assert Section(check, s, p).value[1..] == Section(check, s, q).value;
      }
    }
  }

  lemma {:induction false} LinesBounded(check: Check, s: bytes, ending: Ending, p: nat, total: nat)
    requires p <= |s| && total <= 0x10_0000
    ensures Lines(check, s, ending, p, total).Ok? ==>
              total + Volume(Lines(check, s, ending, p, total).value.0) <= 0x10_0000
    decreases |s| - p
  {
    hide StringAt;
    match StringAt(s, ending, p, total == 0)
    case Err =>
    case Ok((name, q)) =>
      if name != [] {
        match StringAt(s, ending, q, false)
        case Err =>
        case Ok((value, e)) =>
          if total + |name| + |value| <= 0x10_0000 {
            LinesBounded(check, s, ending, e, total + |name| + |value|);
            var r := Lines(check, s, ending, p, total);
            if r.Ok? {
              assert r.value.0[1..] == Lines(check, s, ending, e, total + |name| + |value|).value.0;
            }
          }
      }
  }

  /** A field section of more than 2^20 bytes is refused, in either framing. */
  lemma FieldsBounded(check: Check, s: bytes, ending: Ending, p: nat, known: bool)
    requires p <= |s|
    ensures FieldsAt(check, s, ending, p, known).Ok? ==> Volume(FieldsAt(check, s, ending, p, known).value.0) <= 0x10_0000
  {
    hide Lines, Section;
    if known {
      if StringAt(s, ending, p, true).Ok? {
        SectionBounded(check, StringAt(s, ending, p, true).value.0, 0);
      }
    } else {
      LinesBounded(check, s, ending, p, 0);
    }
  }

  /**
   * Whatever bytes arrive, what is decoded is a final status with acceptable headers and, unless
   * the request or the status rules it out, a content of no other length than a Content-Length
   * says; the stream ended cleanly, and behind the trailers there were only zeros.
   */
  lemma DecodedIsWhole(rules: Rules, s: bytes, ending: Ending)
    ensures var r := DecodeResponse(rules, s, ending);
            r.Ok? ==>
              && ending == Eof
              && 200 <= r.value.status <= 599 && (forall f :: f in r.value.fields ==> rules.check(f))
              && rules.lengthOf(r.value.fields).Ok?
              && (if rules.noBody(r.value.status) then r.value.content == []
                  else rules.lengthOf(r.value.fields).value == None
                       || rules.lengthOf(r.value.fields).value == Some(|r.value.content|))
              && |r.value.content| <= 0x4000_0000
              && exists e :: 0 <= e <= |s| && ZerosFrom(rules.check, s, e)
  {
    hide HeadsAt, ContentAt, FieldsAt, ReadAt;
    match ReadAt(s, ending, 0, false)
    case Err =>
    case Ok((framing, p)) =>
      HeadsChecked(rules, s, ending, p, framing == 1, 0);
      match HeadsAt(rules, s, ending, p, framing == 1, 0)
      case Err =>
      case Ok((head, q)) =>
        if DecodeResponse(rules, s, ending).Ok? {
          var expected := if rules.noBody(head.status) then None else rules.lengthOf(head.fields).value;
          ContentBound(s, ending, q, framing == 1, true, 0, expected);
          var e := ContentAt(s, ending, q, framing == 1, true, 0, expected).value.1;
          var trailers := FieldsAt(rules.check, s, ending, e, framing == 1).value;
          assert ZerosFrom(rules.check, s, trailers.1) by {
            FieldsChecked(rules.check, s, ending, e, framing == 1);
            assert TrailersBefore(rules.check, s, e, framing == 1, trailers.1);
          }
        }
  }

  /** Acceptable trailers end at `e`, and zeros fill the rest. */
  ghost predicate ZerosFrom(check: Check, s: bytes, e: nat)
    requires e <= |s|
  {
    && (forall k :: e <= k < |s| ==> s[k] == 0)
    && exists p, known :: 0 <= p <= |s| && TrailersBefore(check, s, p, known, e)
  }

  ghost predicate TrailersBefore(check: Check, s: bytes, p: nat, known: bool, e: nat)
    requires p <= |s|
  {
    FieldsAt(check, s, Eof, p, known).Ok? && FieldsAt(check, s, Eof, p, known).value.1 == e
  }

  lemma {:induction false} TooManyHere(rules: Rules, s: bytes, p: nat, hs: seq<Head>, after: bytes, known: bool, seen: nat)
    requires p <= |s| && s[p..] == EncodeHeads(hs, known) + after
    requires seen <= 32 < seen + |hs|
    requires forall h :: h in hs ==> 100 <= h.status < 200 && Acceptable(rules.check, h.fields)
    ensures HeadsAt(rules, s, Eof, p, known, seen).Err?
    decreases |hs|
  {
    hide FieldsAt, ReadAt, EncodeFields, Acceptable;
    var h, rest := hs[0], hs[1..];
    var more := EncodeHeads(rest, known) + after;
    Assoc(EncodeHead(h, known), EncodeHeads(rest, known), after);
    Assoc(Encode(h.status), EncodeFields(h.fields, known), more);
    assert h in hs;
    IntegerHere(s, p, h.status, EncodeFields(h.fields, known) + more, false);
    if seen < 32 {
      FieldsHere(rules.check, s, p + |Encode(h.status)|, h.fields, more, known);
      assert forall x :: x in rest ==> x in hs;
      TooManyHere(rules, s, p + |Encode(h.status)| + |EncodeFields(h.fields, known)|, rest, after, known, seen + 1);
    }
  }

  /** A response with more than 32 informational heads is refused, whatever follows them. */
  lemma TooManyInformational(rules: Rules, hs: seq<Head>, after: bytes, known: bool)
    requires |hs| > 32
    requires forall h :: h in hs ==> 100 <= h.status < 200 && Acceptable(rules.check, h.fields)
    ensures DecodeResponse(rules, Encode(if known then 1 else 3) + (EncodeHeads(hs, known) + after), Eof).Err?
  {
    hide HeadsAt, DecodeBody, ReadAt, EncodeHeads, Acceptable;
    var framing := if known then 1 else 3;
    var s := Encode(framing) + (EncodeHeads(hs, known) + after);
    assert s[0..] == s;
    IntegerHere(s, 0, framing, EncodeHeads(hs, known) + after, false);
    TooManyHere(rules, s, |Encode(framing)|, hs, after, known, 0);
  }
}
