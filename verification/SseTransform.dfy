/**
 * Decrypting an event stream record by record (rs/src/sse.rs `transform`, go/stream.go
 * `transformSSE`): the data lines of a record become one data line, and no record boundary
 * appears or disappears.
 */
module SseTransform {
  import opened Bytes
  import opened SseRecords
  import opened SseFields
  import opened Wrappers
  import Json

  predicate IsData(l: Line) {
    Field(DATA, l.text).Some?
  }

  function DataCount(ls: seq<Line>): nat {
    if ls == [] then 0 else (if IsData(ls[0]) then 1 else 0) + DataCount(ls[1..])
  }

  function DataLine(json: bytes): bytes {
    DATA + [COLON, SPACE] + json
  }

  function Other(ls: seq<Line>): seq<Line> {
    if ls == [] then []
    else if IsData(ls[0]) then Other(ls[1..])
    else [ls[0]] + Other(ls[1..])
  }

  function DataOf(ls: seq<Line>): seq<bytes> {
    Values(DATA, Texts(ls))
  }

  /** All data lines go but the last, which carries the new JSON and keeps its own line ending. */
  function Rewrite(ls: seq<Line>, json: bytes): seq<Line> {
    if ls == [] then []
    else if !IsData(ls[0]) then [ls[0]] + Rewrite(ls[1..], json)
    else if DataCount(ls[1..]) > 0 then Rewrite(ls[1..], json)
    else [Line(DataLine(json), ls[0].ending)] + Rewrite(ls[1..], json)
  }

  // ----- The two output loops -----

  lemma {:induction false} DataCountConcat(a: seq<Line>, b: seq<Line>)
    ensures DataCount(a + b) == DataCount(a) + DataCount(b)
  {
    if a == [] {
      assert a + b == b;
    } else {
      DataCountConcat(a[1..], b);
      assert (a + b)[1..] == a[1..] + b;
    }
  }

  /** rs/src/sse.rs: count the data lines down and replace the last. */
  method RewriteCounting(lines: seq<Line>, values: nat, json: bytes) returns (result: bytes)
    requires values == DataCount(lines)
    ensures result == JoinLines(Rewrite(lines, json))
  {
    result := [];
    var remaining := values;
    var k := 0;
    while k < |lines|
      invariant k <= |lines|
      invariant remaining == DataCount(lines[k..])
      invariant result + JoinLines(Rewrite(lines[k..], json)) == JoinLines(Rewrite(lines, json))
    {
      var l := lines[k];
      assert lines[k..][0] == l && lines[k..][1..] == lines[k + 1..];
      JoinRewriteStep(result, lines[k..], json);
      if !IsData(l) {
        result := result + l.text;
        result := result + l.ending;
      } else {
        remaining := remaining - 1;
        if remaining == 0 {
          result := result + DataLine(json);
          result := result + l.ending;
        }
      }
      k := k + 1;
    }
    assert lines[|lines|..] == [];
  }

  function RewrittenFirst(ls: seq<Line>, json: bytes): bytes
    requires ls != []
  {
    if !IsData(ls[0]) then LineBytes(ls[0])
    else if DataCount(ls[1..]) > 0 then []
    else LineBytes(Line(DataLine(json), ls[0].ending))
  }

  lemma JoinRewriteStep(sofar: bytes, ls: seq<Line>, json: bytes)
    requires ls != []
    ensures sofar + JoinLines(Rewrite(ls, json)) ==
            sofar + RewrittenFirst(ls, json) + JoinLines(Rewrite(ls[1..], json))
    ensures IsData(ls[0]) && DataCount(ls[1..]) == 0 ==>
              sofar + DataLine(json) + ls[0].ending == sofar + RewrittenFirst(ls, json)
    ensures !IsData(ls[0]) ==> sofar + ls[0].text + ls[0].ending == sofar + RewrittenFirst(ls, json)
  {
    var first, rest := RewrittenFirst(ls, json), JoinLines(Rewrite(ls[1..], json));
    JoinRewriteCons(ls, json);
    Assoc(sofar, first, rest);
    Assoc(sofar, ls[0].text, ls[0].ending);
    Assoc(sofar, DataLine(json), ls[0].ending);
  }

  lemma JoinRewriteCons(ls: seq<Line>, json: bytes)
    requires ls != []
    ensures JoinLines(Rewrite(ls, json)) == RewrittenFirst(ls, json) + JoinLines(Rewrite(ls[1..], json))
  {
    var all, rest := Rewrite(ls, json), Rewrite(ls[1..], json);
    if !IsData(ls[0]) || DataCount(ls[1..]) == 0 {
      assert all[1..] == rest;
    }
  }

  /** go/stream.go: remember the index of the last data line and replace that one. */
  method RewriteLast(lines: seq<Line>, encoded: bytes) returns (out: bytes)
    ensures out == JoinLines(Rewrite(lines, encoded))
  {
    hide JoinLines, Rewrite, IsData;
    var last := -1;
    var i := 0;
    while i < |lines|
      invariant i <= |lines|
      invariant -1 <= last < i
      invariant last >= 0 ==> IsData(lines[last])
      invariant forall k :: last < k < i ==> !IsData(lines[k])
    {
      if IsData(lines[i]) {
        last := i;
      }
      i := i + 1;
    }
    out := [];
    i := 0;
    while i < |lines|
      invariant i <= |lines|
      invariant out + JoinLines(Rewrite(lines[i..], encoded)) == JoinLines(Rewrite(lines, encoded))
    {
      var l := lines[i];
      assert lines[i..][0] == l && lines[i..][1..] == lines[i + 1..];
      JoinRewriteStep(out, lines[i..], encoded);
      NoDataAfter(lines, last, i);
      if IsData(l) {
        if i == last {
          out := out + DataLine(encoded);
          out := out + l.ending;
        }
      } else {
        out := out + l.text;
        out := out + l.ending;
      }
      i := i + 1;
    }
    assert lines[|lines|..] == [];
    NothingToWrite(encoded);
  }

  lemma NothingToWrite(encoded: bytes)
    ensures JoinLines(Rewrite([], encoded)) == []
  {
  }

  lemma {:induction false} CountIsZero(ls: seq<Line>)
    ensures DataCount(ls) == 0 <==> forall k :: 0 <= k < |ls| ==> !IsData(ls[k])
  {
    if ls != [] {
      CountIsZero(ls[1..]);
      assert forall k :: 0 < k < |ls| ==> ls[k] == ls[1..][k - 1];
      assert forall k :: 0 <= k < |ls| - 1 ==> ls[1..][k] == ls[k + 1];
    }
  }

  lemma NoDataAfter(lines: seq<Line>, last: int, i: nat)
    requires i < |lines| && -1 <= last < |lines|
    requires last >= 0 ==> IsData(lines[last])
    requires forall k :: last < k < |lines| ==> !IsData(lines[k])
    ensures IsData(lines[i]) ==> (DataCount(lines[i + 1..]) == 0 <==> i == last)
  {
    var rest := lines[i + 1..];
    CountIsZero(rest);
    if IsData(lines[i]) && i < last {
      assert rest[last - i - 1] == lines[last];
    }
  }

  // ----- What rewriting keeps and what it replaces -----

  lemma DataLineIsData(json: bytes)
    ensures Field(DATA, DataLine(json)) == Some(json)
  {
    var text := DataLine(json);
    assert DATA + [COLON] <= text;
    assert text[5..] == [SPACE] + json;
    assert ([SPACE] + json)[1..] == json;
  }

  lemma {:induction false} RewriteKeepsOthers(ls: seq<Line>, json: bytes)
    ensures Other(Rewrite(ls, json)) == Other(ls)
    ensures DataOf(Rewrite(ls, json)) == if DataCount(ls) > 0 then [json] else []
  {
    if ls != [] {
      var rest := Rewrite(ls[1..], json);
      RewriteKeepsOthers(ls[1..], json);
      DataLineIsData(json);
      if !IsData(ls[0]) {
        assert ([ls[0]] + rest)[1..] == rest;
        TextsFirst(ls[0], rest);
      } else if DataCount(ls[1..]) == 0 {
        var put := Line(DataLine(json), ls[0].ending);
        assert ([put] + rest)[1..] == rest;
        TextsFirst(put, rest);
      }
    }
  }

  lemma TextsFirst(l: Line, rest: seq<Line>)
    ensures DataOf([l] + rest) ==
            match Field(DATA, l.text) case Some(v) => [v] + DataOf(rest) case None => DataOf(rest)
  {
    assert ([l] + rest)[1..] == rest;
    var texts := Texts([l] + rest);
    assert texts == [l.text] + Texts(rest);
    assert texts[1..] == Texts(rest);
  }

  /** Would this list begin with a LF that a preceding CR could swallow? */
  predicate StartsWithLF(ls: seq<Line>) {
    ls != [] && ls[0].text == [] && ls[0].ending == [LF]
  }

  /** Rewriting one record, in front of what follows it, leaves the tokenization intact. */
  lemma {:induction false} RewriteInPlace(g: seq<Line>, json: bytes, rest: seq<Line>, rest': seq<Line>)
    requires OneGroup(g) && WellFormed(g + rest) && NoBreaks(json)
    requires WellFormed(rest') && (rest == [] <==> rest' == [])
    requires StartsWithLF(rest') ==> StartsWithLF(rest)
    ensures WellFormed(Rewrite(g, json) + rest')
    ensures OneGroup(Rewrite(g, json))
    ensures Closed(Rewrite(g, json)) <==> Closed(g)
    ensures IsBlank(Rewrite(g, json)[0]) ==> |g| == 1 && Rewrite(g, json) == g
    decreases |g|
  {
    var l := g[0];
    assert (g + rest)[0] == l;
    assert (g + rest)[1..] == g[1..] + rest;
    if |g| == 1 {
      assert g[1..] == [] && g[1..] + rest == rest;
      RewriteOne(l, json, rest, rest');
      assert g == [l];
    } else {
      assert forall k :: 0 <= k < |g| - 2 ==> g[1..][k] == g[k + 1];
      RewriteInPlace(g[1..], json, rest, rest');
      RewriteFirst(l, g[1..], json, rest, rest');
      assert g == [l] + g[1..];
    }
  }

  lemma RewriteOne(l: Line, json: bytes, rest: seq<Line>, rest': seq<Line>)
    requires NoBreaks(l.text) && Adjacent(l, rest) && NoBreaks(json)
    requires WellFormed(rest') && (rest == [] <==> rest' == [])
    requires StartsWithLF(rest') ==> StartsWithLF(rest)
    ensures var g := Rewrite([l], json);
            && WellFormed(g + rest') && OneGroup(g)
            && (Closed(g) <==> Closed([l]))
            && (IsBlank(g[0]) ==> g == [l])
  {
    assert [l][1..] == [];
    var put := if IsData(l) then Line(DataLine(json), l.ending) else l;
    var g := Rewrite([l], json);
    assert Rewrite([l][1..], json) == [] && DataCount([l][1..]) == 0;
    assert g == [put];
    assert (g + rest')[0] == put;
    assert (g + rest')[1..] == rest';
    DataLineNoBreaks(json);
    assert IsData(l) ==> !IsBlank(l);
  }

  lemma DataLineNoBreaks(json: bytes)
    requires NoBreaks(json)
    ensures NoBreaks(DataLine(json)) && DataLine(json) != []
  {
  }

  lemma RewriteFirst(l: Line, tail: seq<Line>, json: bytes, rest: seq<Line>, rest': seq<Line>)
    requires !IsBlank(l) && NoBreaks(l.text) && tail != [] && Adjacent(l, tail + rest)
    requires OneGroup(tail) && NoBreaks(json)
    requires WellFormed(Rewrite(tail, json) + rest') && OneGroup(Rewrite(tail, json))
    requires Closed(Rewrite(tail, json)) <==> Closed(tail)
    requires IsBlank(Rewrite(tail, json)[0]) ==> |tail| == 1 && Rewrite(tail, json) == tail
    ensures var g := Rewrite([l] + tail, json);
            && WellFormed(g + rest') && OneGroup(g)
            && (Closed(g) <==> Closed([l] + tail))
            && (IsBlank(g[0]) ==> false)
  {
    var done := Rewrite(tail, json);
    assert ([l] + tail)[1..] == tail;
    DataLineNoBreaks(json);
    if IsData(l) && DataCount(tail) > 0 {
      CountIsZero(tail);
      assert Rewrite([l] + tail, json) == done;
    } else {
      var put := if IsData(l) then Line(DataLine(json), l.ending) else l;
      assert Rewrite([l] + tail, json) == [put] + done;
      assert (tail + rest)[0] == tail[0];
      assert done + rest' != [] && (done + rest')[0] == done[0];
      assert ([put] + done) + rest' == [put] + (done + rest');
      assert ([put] + (done + rest'))[1..] == done + rest';
      assert Closed([put] + done) <==> Closed(done);
      OneGroupCons(put, done);
    }
  }

  lemma OneGroupCons(l: Line, g: seq<Line>)
    requires !IsBlank(l) && OneGroup(g)
    ensures OneGroup([l] + g)
    ensures Closed([l] + g) <==> Closed(g)
  {
    var all := [l] + g;
    forall k | 0 <= k < |all| - 1 ensures !IsBlank(all[k]) {
      assert k > 0 ==> all[k] == g[k - 1];
    }
  }

  /** What becomes of a record: nothing, or its data is replaced by this JSON. */
  function Apply(g: seq<Line>, choice: Option<bytes>): seq<Line> {
    match choice
    case None => g
    case Some(json) => Rewrite(g, json)
  }

  lemma {:induction false} KeepInPlace(g: seq<Line>, rest: seq<Line>, rest': seq<Line>)
    requires g != [] && WellFormed(g + rest) && WellFormed(rest')
    requires rest == [] <==> rest' == []
    requires StartsWithLF(rest') ==> StartsWithLF(rest)
    ensures WellFormed(g + rest')
    decreases |g|
  {
    var l, tail := g[0], g[1..];
    assert (g + rest)[0] == l && (g + rest)[1..] == tail + rest;
    assert (g + rest')[0] == l && (g + rest')[1..] == tail + rest';
    if tail == [] {
      assert tail + rest == rest && tail + rest' == rest';
    } else {
      KeepInPlace(tail, rest, rest');
      assert (tail + rest)[0] == tail[0] && (tail + rest')[0] == tail[0];
    }
  }

  lemma ApplyInPlace(g: seq<Line>, choice: Option<bytes>, rest: seq<Line>, rest': seq<Line>)
    requires OneGroup(g) && WellFormed(g + rest)
    requires choice.Some? ==> NoBreaks(choice.value)
    requires WellFormed(rest') && (rest == [] <==> rest' == [])
    requires StartsWithLF(rest') ==> StartsWithLF(rest)
    ensures var g' := Apply(g, choice);
            && WellFormed(g' + rest') && OneGroup(g')
            && (Closed(g') <==> Closed(g))
            && (StartsWithLF(g' + rest') ==> StartsWithLF(g + rest))
  {
    match choice
    case None =>
      KeepInPlace(g, rest, rest');
      assert (g + rest')[0] == g[0] && (g + rest)[0] == g[0];
    case Some(json) =>
      RewriteInPlace(g, json, rest, rest');
      var g' := Rewrite(g, json);
      assert (g' + rest')[0] == g'[0] && (g + rest)[0] == g[0];
  }

  function ApplyEach(gs: seq<seq<Line>>, choices: seq<Option<bytes>>): (gs': seq<seq<Line>>)
    requires |gs| == |choices|
  {
    if gs == [] then [] else [Apply(gs[0], choices[0])] + ApplyEach(gs[1..], choices[1..])
  }

  lemma ConcatCons(g: seq<Line>, gs: seq<seq<Line>>)
    ensures Concat([g] + gs) == g + Concat(gs)
  {
    assert ([g] + gs)[1..] == gs;
  }

  lemma {:induction false} WellFormedSuffix(a: seq<Line>, b: seq<Line>)
    requires WellFormed(a + b)
    ensures WellFormed(b)
  {
    if a == [] {
      assert a + b == b;
    } else {
      assert (a + b)[1..] == a[1..] + b;
      WellFormedSuffix(a[1..], b);
    }
  }

  lemma GroupsTail(gs: seq<seq<Line>>)
    requires gs != [] && Groups(gs)
    ensures Groups(gs[1..])
  {
    assert forall k :: 0 <= k < |gs| - 1 ==> gs[1..][k] == gs[k + 1];
  }

  lemma GroupsPrepend(g: seq<Line>, gs: seq<seq<Line>>)
    requires OneGroup(g) && Groups(gs) && (Closed(g) || gs == [])
    ensures Groups([g] + gs)
  {
    var all := [g] + gs;
    assert forall k :: 0 < k < |all| ==> all[k] == gs[k - 1];
  }

  predicate Clean(choices: seq<Option<bytes>>) {
    forall k :: 0 <= k < |choices| && choices[k].Some? ==> NoBreaks(choices[k].value)
  }

  /** Any choice of records to rewrite keeps the records apart. */
  lemma {:induction false} ApplyEachKeepsBoundaries(gs: seq<seq<Line>>, choices: seq<Option<bytes>>)
    requires |gs| == |choices| && Groups(gs) && WellFormed(Concat(gs))
    requires Clean(choices)
    ensures var gs' := ApplyEach(gs, choices);
            && Groups(gs') && WellFormed(Concat(gs')) && |gs'| == |gs|
            && (Concat(gs') == [] <==> Concat(gs) == [])
            && (StartsWithLF(Concat(gs')) ==> StartsWithLF(Concat(gs)))
            && (gs' != [] && |gs'| > 1 ==> Closed(gs'[0]))
            && forall k :: 0 <= k < |gs| ==> gs'[k] == Apply(gs[k], choices[k])
    decreases |gs|
  {
    if gs != [] {
      var g, rest := gs[0], gs[1..];
      WellFormedSuffix(g, Concat(rest));
      GroupsTail(gs);
      assert forall k :: 0 <= k < |choices| - 1 ==> choices[1..][k] == choices[k + 1];
      assert forall k :: 0 <= k < |gs| - 1 ==> rest[k] == gs[k + 1];
      ApplyEachKeepsBoundaries(rest, choices[1..]);
      var rest' := ApplyEach(rest, choices[1..]);
      ApplyInPlace(g, choices[0], Concat(rest), Concat(rest'));
      var g' := Apply(g, choices[0]);
      ConcatCons(g', rest');
      GroupsPrepend(g', rest');
    }
  }

  // ----- transform -----

  /** The decryption of a chunk body under a response key; None when authentication fails. */
  type Key = Json.Value -> Option<Json.Value>

  const DONE: bytes := [0x5b, 0x44, 0x4f, 0x4e, 0x45, 0x5d]
  const ERROR: bytes := [0x65, 0x72, 0x72, 0x6f, 0x72]

  /** Where a chunk keeps the receipt ID: Responses and Messages nest it. */
  function Receipt(body: Json.Value, responses: bool, messages: bool): Json.Value {
    if responses then Json.Index(body, "response")
    else if messages then
      if Json.Index(body, "type") == Json.String("message_start") then Json.Index(body, "message")
      else Json.Null
    else body
  }

  function ReceiptId(body: Json.Value, responses: bool, messages: bool): Option<string> {
    match Json.Get(Receipt(body, responses, messages), "id")
    case Some(String(s)) => if s != "" then Some(s) else None
    case _ => None
  }

  /** Records without JSON to look at: no data, `[DONE]`, or an error event. */
  predicate PassesThrough(record: bytes) {
    var data := RecordData(record);
    data == [] || data == DONE || RecordEvent(record) == Some(ERROR)
  }

  /** One record; `id` is the receipt ID seen so far. Returns the output and the ID seen now. */
  function Transform(codec: Json.Codec, record: bytes, key: Option<Key>, id: Option<string>,
                     responses: bool, messages: bool): Result<(bytes, Option<string>)> {
    if !codec.utf8(record) then Err
    else if PassesThrough(record) then Ok((record, id))
    else match codec.parse(RecordData(record))
      case None => if key.None? then Ok((record, id)) else Err
      case Some(body) =>
        var seen := ReceiptId(body, responses, messages);
        if seen.Some? && id.Some? && seen != id then Err
        else
          var id' := if seen.Some? then seen else id;
          if key.None? then Ok((record, id'))
          else if !body.Object? then Err
          else if Json.Get(body, "choices").None? then Ok((record, id'))
          else match (key.value)(body)
            case None => Err
            case Some(plain) => Ok((JoinLines(Rewrite(Lines(record), codec.write(plain))), id'))
  }

  method TransformRecord(codec: Json.Codec, record: bytes, key: Option<Key>, id: Option<string>,
                         responses: bool, messages: bool) returns (r: Result<(bytes, Option<string>)>)
    ensures r == Transform(codec, record, key, id, responses, messages)
  {
    if !codec.utf8(record) {
      return Err;
    }
    var lines := SplitLines(record);
    var values := Values(DATA, Texts(lines));
    var joined := JoinLF(values);
    if values == [] || joined == [] || joined == DONE || Last(Values(EVENT, Texts(lines))) == Some(ERROR) {
      return Ok((record, id));
    }
    var parsed := codec.parse(joined);
    if parsed.None? {
      return if key.None? then Ok((record, id)) else Err;
    }
    var body := parsed.value;
    var seen := ReceiptId(body, responses, messages);
    var now := id;
    if seen.Some? {
      if id.Some? && id != seen {
        return Err;
      }
      now := seen;
    }
    if key.None? {
      return Ok((record, now));
    }
    if !body.Object? {
      return Err;
    }
    if Json.Get(body, "choices").None? {
      return Ok((record, now));
    }
    var plain := (key.value)(body);
    if plain.None? {
      return Err;
    }
    ValuesCount(lines);
    var output := RewriteCounting(lines, |values|, codec.write(plain.value));
    return Ok((output, now));
  }

  lemma {:induction false} ValuesCount(ls: seq<Line>)
    ensures |DataOf(ls)| == DataCount(ls)
  {
    if ls != [] {
      ValuesCount(ls[1..]);
      TextsFirst(ls[0], ls[1..]);
      assert [ls[0]] + ls[1..] == ls;
    }
  }

  // ----- The receipt ID -----

  /** Where the three dialects keep it: at the top, in the response, in the message of the opening event. */
  lemma ReceiptPlaces(f: map<string, Json.Value>, g: map<string, Json.Value>, id: string, kind: string)
    requires id != ""
    ensures ReceiptId(Json.Object(f["id" := Json.String(id)]), false, false) == Some(id)
    ensures ReceiptId(Json.Object(f["response" := Json.Object(g["id" := Json.String(id)])]), true, false) == Some(id)
    ensures var message := f["message" := Json.Object(g["id" := Json.String(id)])]["type" := Json.String(kind)];
            ReceiptId(Json.Object(message), false, true) == if kind == "message_start" then Some(id) else None
  {
  }

  /** The receipt ID a record carries. */
  function ReceiptOf(codec: Json.Codec, record: bytes, responses: bool, messages: bool): Option<string> {
    if PassesThrough(record) then None
    else
      match codec.parse(RecordData(record))
      case None => None
      case Some(body) => ReceiptId(body, responses, messages)
  }

  /** A record whose data a client with a response key decrypts: JSON with choices, and no error event. */
  predicate Encrypted(codec: Json.Codec, record: bytes) {
    && !PassesThrough(record)
    && codec.parse(RecordData(record)).Some?
    && Json.Get(codec.parse(RecordData(record)).value, "choices").Some?
  }

  /** With a key, data must be a JSON object, and choices must open. */
  predicate Passable(codec: Json.Codec, record: bytes, key: Option<Key>) {
    key.None? || PassesThrough(record) ||
    (&& codec.parse(RecordData(record)).Some?
     && codec.parse(RecordData(record)).value.Object?
     && (Encrypted(codec, record) ==> key.value(codec.parse(RecordData(record)).value).Some?))
  }

  /**
   * Under every key: a record passes exactly when it is text, carries no other ID than the one
   * known, and can be decrypted if it must be; and the ID it carries is known from then on.
   */
  lemma TransformKnows(codec: Json.Codec, record: bytes, key: Option<Key>, id: Option<string>,
                       responses: bool, messages: bool)
    ensures var seen := ReceiptOf(codec, record, responses, messages);
            var r := Transform(codec, record, key, id, responses, messages);
            && (r.Ok? <==> codec.utf8(record) && (seen.Some? && id.Some? ==> seen == id) && Passable(codec, record, key))
            && (r.Ok? ==> r.value.1 == if seen.Some? then seen else id)
  {
    hide RecordData, RecordEvent, JoinLines;
  }

  /** Without data, `[DONE]`, or an error event: these pass as they are. */
  lemma PassesThroughMeans(record: bytes)
    ensures PassesThrough(record) <==>
            || RecordData(record) == []
            || RecordData(record) == [0x5b, 0x44, 0x4f, 0x4e, 0x45, 0x5d]
            || RecordEvent(record) == Some([0x65, 0x72, 0x72, 0x6f, 0x72])
  {
  }

  /** Some record names an ID. */
  predicate NamesId(codec: Json.Codec, records: seq<bytes>, responses: bool, messages: bool) {
    exists i :: 0 <= i < |records| && ReceiptOf(codec, records[i], responses, messages).Some?
  }

  /** Every ID that some record carries, or that is known already, is this one. */
  predicate OneId(codec: Json.Codec, records: seq<bytes>, id: Option<string>, responses: bool, messages: bool) {
    forall i :: 0 <= i < |records| && ReceiptOf(codec, records[i], responses, messages).Some? ==>
      ReceiptOf(codec, records[i], responses, messages) == id
  }

  lemma FirstOfThem(codec: Json.Codec, records: seq<bytes>, responses: bool, messages: bool)
    requires records != []
    ensures var seen, rest := ReceiptOf(codec, records[0], responses, messages), records[1..];
            && (forall one :: OneId(codec, records, one, responses, messages) <==>
                  (seen.Some? ==> seen == one) && OneId(codec, rest, one, responses, messages))
            && (NamesId(codec, records, responses, messages) <==> seen.Some? || NamesId(codec, rest, responses, messages))
  {
    hide ReceiptOf;
    assert records == [records[0]] + records[1..];
  }

  /**
   * A stream is handed on whole exactly when each of its records is text and can be decrypted if it
   * must be, and no two of them carry different IDs; the ID known at the end is the one that they
   * carry, and there is none exactly when none of them does.
   */
  lemma {:induction false} StreamKnows(codec: Json.Codec, records: seq<bytes>, key: Option<Key>, id: Option<string>,
                                       responses: bool, messages: bool)
    ensures var r := TransformAll(codec, records, key, id, responses, messages);
            && (r.Ok? <==>
                  && (forall i :: 0 <= i < |records| ==> codec.utf8(records[i]) && Passable(codec, records[i], key))
                  && exists one :: OneId(codec, records, one, responses, messages) && (id.Some? ==> one == id))
            && (r.Ok? ==>
                  && (id.Some? ==> r.value.1 == id)
                  && (r.value.1.Some? <==> id.Some? || NamesId(codec, records, responses, messages))
                  && OneId(codec, records, r.value.1, responses, messages))
    decreases |records|
  {
    hide Transform, ReceiptOf, Passable;
    if records == [] {
      assert OneId(codec, records, id, responses, messages);
    } else {
      var rest := records[1..];
      FirstOfThem(codec, records, responses, messages);
      hide OneId, NamesId;
      assert forall i :: 0 < i < |records| ==> records[i] == rest[i - 1];
      TransformKnows(codec, records[0], key, id, responses, messages);
      match Transform(codec, records[0], key, id, responses, messages)
      case Err =>
      case Ok((out, id')) =>
        StreamKnows(codec, rest, key, id', responses, messages);
    }
  }

  /** The JSON a record's data is replaced with, if it is. */
  function Choice(codec: Json.Codec, record: bytes, key: Option<Key>): Option<bytes> {
    if key.None? || PassesThrough(record) then None
    else match codec.parse(RecordData(record))
      case None => None
      case Some(body) =>
        if Json.Get(body, "choices").None? then None
        else match (key.value)(body)
          case None => None
          case Some(plain) => Some(codec.write(plain))
  }

  lemma TransformApplies(codec: Json.Codec, record: bytes, key: Option<Key>, id: Option<string>,
                         responses: bool, messages: bool)
    ensures var r := Transform(codec, record, key, id, responses, messages);
            r.Ok? ==> r.value.0 == JoinLines(Apply(Lines(record), Choice(codec, record, key)))
  {
    LinesCharacterized(record, Lines(record));
  }

  /** The records of a stream one after the other: their outputs, and the receipt ID known at the end. */
  function TransformAll(codec: Json.Codec, records: seq<bytes>, key: Option<Key>, id: Option<string>,
                        responses: bool, messages: bool): Result<(seq<bytes>, Option<string>)> {
    if records == [] then Ok(([], id))
    else match Transform(codec, records[0], key, id, responses, messages)
      case Err => Err
      case Ok((out, id')) =>
        match TransformAll(codec, records[1..], key, id', responses, messages)
        case Err => Err
        case Ok((rest, last)) => Ok(([out] + rest, last))
  }

  function Choices(codec: Json.Codec, records: seq<bytes>, key: Option<Key>): (cs: seq<Option<bytes>>)
    ensures |cs| == |records|
    ensures forall k :: 0 <= k < |cs| ==> cs[k] == Choice(codec, records[k], key)
  {
    if records == [] then [] else [Choice(codec, records[0], key)] + Choices(codec, records[1..], key)
  }

  lemma {:induction false} TransformAllApplies(codec: Json.Codec, records: seq<bytes>, key: Option<Key>,
                                               id: Option<string>, responses: bool, messages: bool)
    ensures var r := TransformAll(codec, records, key, id, responses, messages);
            r.Ok? ==>
              && |r.value.0| == |records|
              && forall k :: 0 <= k < |records| ==>
                   r.value.0[k] == JoinLines(Apply(Lines(records[k]), Choice(codec, records[k], key)))
  {
    hide Transform;
    hide Choice;
    hide Lines;
    hide Apply;
    if records != [] {
      TransformApplies(codec, records[0], key, id, responses, messages);
      match Transform(codec, records[0], key, id, responses, messages)
      case Err =>
      case Ok((out, id')) =>
        TransformAllApplies(codec, records[1..], key, id', responses, messages);
        assert forall k :: 0 < k < |records| ==> records[k] == records[1..][k - 1];
    }
  }

  /** Each record of a stream is the tokenization of its own bytes. */
  lemma {:induction false} GroupsAreLines(gs: seq<seq<Line>>, k: nat)
    requires Groups(gs) && WellFormed(Concat(gs)) && k < |gs|
    ensures Lines(JoinLines(gs[k])) == gs[k]
    decreases k
  {
    if k > 0 {
      WellFormedSuffix(gs[0], Concat(gs[1..]));
      GroupsTail(gs);
      GroupsAreLines(gs[1..], k - 1);
    } else {
      WellFormedGroup(gs[0], Concat(gs[1..]));
      assert |gs| > 1 ==> Closed(gs[0]);
      LinesCharacterized(JoinLines(gs[0]), gs[0]);
    }
  }

  lemma {:induction false} WellFormedGroup(a: seq<Line>, b: seq<Line>)
    requires WellFormed(a + b)
    ensures WellFormed(a)
  {
    if a != [] {
      assert (a + b)[0] == a[0];
      assert (a + b)[1..] == a[1..] + b;
      WellFormedGroup(a[1..], b);
      assert a[1..] != [] ==> (a[1..] + b)[0] == a[1..][0];
    }
  }

  lemma StreamGroups(s: bytes)
    ensures var gs := Group([], Lines(s));
            && Groups(gs) && WellFormed(Concat(gs)) && |gs| == |Records(s)|
            && forall k :: 0 <= k < |gs| ==> Records(s)[k] == JoinLines(gs[k])
  {
    var gs := Group([], Lines(s));
    RecordsAreGroupsOfLines(s);
    GroupYieldsGroups([], Lines(s));
    assert [] + Lines(s) == Lines(s);
    LinesCharacterized(s, Lines(s));
    JoinEachFlatten(gs);
  }

  lemma StreamRecordLines(s: bytes, k: nat)
    requires k < |Records(s)|
    ensures |Group([], Lines(s))| == |Records(s)|
    ensures Lines(Records(s)[k]) == Group([], Lines(s))[k]
  {
    StreamGroups(s);
    GroupsAreLines(Group([], Lines(s)), k);
  }

  lemma FaithfulChoices(codec: Json.Codec, records: seq<bytes>, key: Option<Key>)
    requires codec.Faithful()
    ensures Clean(Choices(codec, records, key))
  {
  }

  /** The line groups of a transformed stream. */
  ghost function Transformed(codec: Json.Codec, s: bytes, key: Option<Key>): seq<seq<Line>> {
    var gs, cs := Group([], Lines(s)), Choices(codec, Records(s), key);
    if |gs| == |cs| then ApplyEach(gs, cs) else []
  }

  lemma TransformedGroups(codec: Json.Codec, s: bytes, key: Option<Key>)
    requires codec.Faithful()
    ensures var gs := Transformed(codec, s, key);
            && Groups(gs) && WellFormed(Concat(gs)) && |gs| == |Records(s)|
            && forall k :: 0 <= k < |gs| ==>
                 gs[k] == Apply(Lines(Records(s)[k]), Choice(codec, Records(s)[k], key))
  {
    hide Choice;
    hide WellFormed;
    StreamGroups(s);
    FaithfulChoices(codec, Records(s), key);
    ApplyEachKeepsBoundaries(Group([], Lines(s)), Choices(codec, Records(s), key));
    forall k | 0 <= k < |Records(s)| ensures Lines(Records(s)[k]) == Group([], Lines(s))[k] {
      StreamRecordLines(s, k);
    }
  }

  /**
   * Decoding the output of a transformed stream gives back exactly the transformed records: no
   * boundary is lost or made, whatever line endings the input mixed.
   */
  lemma TransformedStreamDecodes(codec: Json.Codec, s: bytes, key: Option<Key>,
                                 responses: bool, messages: bool)
    requires codec.Faithful()
    ensures var r := TransformAll(codec, Records(s), key, None, responses, messages);
            r.Ok? ==> Records(Flatten(r.value.0)) == r.value.0 && |r.value.0| == |Records(s)|
  {
    var r := TransformAll(codec, Records(s), key, None, responses, messages);
    if r.Ok? {
      TransformAllApplies(codec, Records(s), key, None, responses, messages);
      TransformedGroups(codec, s, key);
      var gs := Transformed(codec, s, key);
      hide *;
      JoinEachFlatten(gs);
      assert r.value.0 == JoinEach(gs);
      RecordsOfGroups(gs);
    }
  }

  /**
   * And each of them means what it should: without a key, or without choices, it is the input's;
   * otherwise its data is the JSON of the decrypted body, and every other line is the input's, in
   * order and with its own ending. All data a client with a key lets through is a JSON object.
   */
  lemma TransformedRecordMeans(codec: Json.Codec, s: bytes, k: nat, key: Option<Key>,
                               responses: bool, messages: bool)
    requires codec.Faithful() && k < |Records(s)|
    ensures var r := TransformAll(codec, Records(s), key, None, responses, messages);
            var record := Records(s)[k];
            var data := RecordData(record);
            r.Ok? ==>
              && |r.value.0| == |Records(s)|
              && (key.Some? && data != [] && data != DONE && RecordEvent(record) != Some(ERROR) ==>
                    codec.parse(data).Some? && codec.parse(data).value.Object?)
              && if key.Some? && Encrypted(codec, record) then
                   && key.value(codec.parse(data).value).Some?
                   && RecordData(r.value.0[k]) == codec.write(key.value(codec.parse(data).value).value)
                   && Other(Lines(r.value.0[k])) == Other(Lines(record))
                 else r.value.0[k] == record
  {
    var r := TransformAll(codec, Records(s), key, None, responses, messages);
    if r.Ok? {
      hide Choice;
      hide WellFormed;
      hide Records;
      hide Transformed;
      hide TransformAll;
      hide Encrypted;
      var record := Records(s)[k];
      var choice := Choice(codec, record, key);
      TransformAllApplies(codec, Records(s), key, None, responses, messages);
      TransformedGroups(codec, s, key);
      GroupsAreLines(Transformed(codec, s, key), k);
      ChoiceMeans(codec, record, key);
      TransformAllPasses(codec, Records(s), key, None, responses, messages, k);
      match choice
      case None => LinesCharacterized(record, Lines(record));
      case Some(json) =>
        ChosenHasData(codec, record, key);
        RewriteKeepsOthers(Lines(record), json);
    }
  }

  lemma ChoiceMeans(codec: Json.Codec, record: bytes, key: Option<Key>)
    ensures Choice(codec, record, key).Some? ==> key.Some? && Encrypted(codec, record)
    ensures key.Some? && Encrypted(codec, record) ==>
              var plain := key.value(codec.parse(RecordData(record)).value);
              Choice(codec, record, key) == if plain.Some? then Some(codec.write(plain.value)) else None
  {
  }

  /** What a record must be for its stream to be handed on under a key. */
  lemma {:induction false} TransformAllPasses(codec: Json.Codec, records: seq<bytes>, key: Option<Key>, id: Option<string>,
                                              responses: bool, messages: bool, k: nat)
    requires k < |records|
    ensures var data := RecordData(records[k]);
            TransformAll(codec, records, key, id, responses, messages).Ok? && key.Some?
            && data != [] && data != DONE && RecordEvent(records[k]) != Some(ERROR) ==>
              && codec.parse(data).Some? && codec.parse(data).value.Object?
              && (Encrypted(codec, records[k]) ==> key.value(codec.parse(data).value).Some?)
  {
    hide RecordData, RecordEvent, Lines, JoinLines;
    match Transform(codec, records[0], key, id, responses, messages)
    case Err =>
    case Ok((out, id')) =>
      if k > 0 {
        TransformAllPasses(codec, records[1..], key, id', responses, messages, k - 1);
      }
  }

  lemma ChosenHasData(codec: Json.Codec, record: bytes, key: Option<Key>)
    requires Choice(codec, record, key).Some?
    ensures DataCount(Lines(record)) > 0
  {
    ValuesCount(Lines(record));
    assert JoinLF([]) == [];
  }
}
