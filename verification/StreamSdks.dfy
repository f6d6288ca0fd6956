/**
 * Which streams the two SDKs register, and under which receipt ID: Go with the closures of
 * `GoStream`, Rust with rs/src/inference.rs:634-673 and rs/src/sse.rs:105-149, 183-229.
 */
module StreamSdks {
  import opened Bytes
  import opened Streams
  import opened SseRecords
  import opened SseFields
  import opened SseTransform
  import opened SseMessages
  import opened SseBom
  import opened Wrappers
  import opened GoStream
  import Json
  import SseReader

  // ----- Rust -----

  function RustAll(codec: Json.Codec, mode: Mode, key: Option<Key>, p: Progress, id: Option<string>, parsed: seq<bytes>):
    Result<(Progress, Option<string>)>
    decreases |parsed|
  {
    if parsed == [] then Ok((p, id))
    else
      match RustStep(codec, mode, key, p, id, parsed[0])
      case Err => Err
      case Ok(next) => RustAll(codec, mode, key, next.0, next.1, parsed[1..])
  }

  /** Rust observes a Messages record before it looks for the ID. */
  function RustStep(codec: Json.Codec, mode: Mode, key: Option<Key>, p: Progress, id: Option<string>, record: bytes):
    Result<(Progress, Option<string>)>
  {
    match if mode.Messages? then SseMessages.Step(codec, p, record) else Ok(p)
    case Err => Err
    case Ok(q) =>
      match Transform(codec, record, key, id, mode.Responses?, mode.Messages?)
      case Err => Err
      case Ok(result) => Ok((q, result.1))
  }

  /** The ID Rust registers a stream of records under, if it does. */
  function RustAccepts(codec: Json.Codec, mode: Mode, key: Option<Key>, records: seq<bytes>): Option<string> {
    match RustAll(codec, mode, key, Progress(false, false), None, StripFirst(records))
    case Err => None
    case Ok(end) => if mode.Messages? && !(end.0.started && end.0.stopped) then None else end.1
  }

  // ----- What Go asks beyond Rust, record by record -----

  /** Watching records of which the first may have been stripped of its mark. */
  function WatchAll(codec: Json.Codec, mode: Mode, s: Seen, whole: seq<bytes>, parsed: seq<bytes>): Result<Seen>
    requires |whole| == |parsed|
    decreases |whole|
  {
    if whole == [] then Ok(s)
    else
      match Watch(codec, mode, s, whole[0], parsed[0])
      case Err => Err
      case Ok(next) => WatchAll(codec, mode, next, whole[1..], parsed[1..])
  }

  predicate Strict(codec: Json.Codec, mode: Mode, whole: bytes, parsed: bytes) {
    var data := RecordData(parsed);
    && (mode.Messages? ==> CompleteGo(whole) && data != DONE)
    && RecordEvent(parsed) != Some(ERROR)
    && (data != [] && data != DONE ==>
          DecodeObject(codec, data).Some? && Json.Get(DecodeObject(codec, data).value, "error").None?)
  }

  predicate AllStrict(codec: Json.Codec, mode: Mode, whole: seq<bytes>, parsed: seq<bytes>)
    requires |whole| == |parsed|
  {
    forall i :: 0 <= i < |whole| ==> Strict(codec, mode, whole[i], parsed[i])
  }

  predicate AllText(codec: Json.Codec, parsed: seq<bytes>) {
    forall i :: 0 <= i < |parsed| ==> codec.utf8(parsed[i])
  }

  function Known(id: string): Option<string> {
    if id == "" then None else Some(id)
  }

  /** Go without a failure and Rust have seen the same. */
  predicate Alike(mode: Mode, s: Seen, p: Progress, id: Option<string>) {
    && !s.failed
    && id == Known(s.id)
    && (mode.Messages? ==> p == Progress(s.started, s.stopped) && (s.id != "" ==> s.started))
  }

  /** Stripping the mark leaves a complete record complete. */
  lemma StripComplete(record: bytes)
    requires CompleteGo(record)
    ensures CompleteRust(Strip(record))
  {
    var t := Strip(record);
    if BOM <= record {
      assert record == BOM + t;
      NormalizeText(BOM, t);
      var n := Normalize(t);
      assert Normalize(record) == BOM + n;
      assert (BOM + n)[|n| + 1] == LF && (BOM + n)[|n| + 2] == LF;
      assert |n| >= 2;
      assert n[|n| - 2..] == (BOM + n)[|n| + 1..];
    }
    CompleteAgree(t);
  }

  lemma {:induction false} FailureStays(codec: Json.Codec, mode: Mode, s: Seen, whole: seq<bytes>, parsed: seq<bytes>)
    requires |whole| == |parsed| && s.failed
    ensures WatchAll(codec, mode, s, whole, parsed).Ok? ==> WatchAll(codec, mode, s, whole, parsed).value.failed
    decreases |whole|
  {
    if whole != [] {
      FailureStaysOnce(codec, mode, s, whole[0], parsed[0]);
      match Watch(codec, mode, s, whole[0], parsed[0])
      case Err =>
      case Ok(next) => FailureStays(codec, mode, next, whole[1..], parsed[1..]);
    }
  }

  lemma FailureStaysOnce(codec: Json.Codec, mode: Mode, s: Seen, whole: bytes, parsed: bytes)
    requires s.failed
    ensures Watch(codec, mode, s, whole, parsed).Ok? ==> Watch(codec, mode, s, whole, parsed).value.failed
  {
    hide RecordData, RecordEvent, CompleteGo;
  }

  /**
   * One record. Go takes it without failing, and it is text, exactly when Rust takes it and it is
   * strict; and then both have seen the same.
   */
  lemma OneRecord(codec: Json.Codec, mode: Mode, s: Seen, p: Progress, id: Option<string>, whole: bytes, parsed: bytes)
    requires Alike(mode, s, p, id)
    requires CompleteGo(whole) ==> CompleteRust(parsed)
    ensures var go := Watch(codec, mode, s, whole, parsed);
            var rust := RustStep(codec, mode, None, p, id, parsed);
            && (go.Ok? && !go.value.failed && codec.utf8(parsed) <==> rust.Ok? && Strict(codec, mode, whole, parsed))
            && (rust.Ok? && Strict(codec, mode, whole, parsed) ==> Alike(mode, go.value, rust.value.0, rust.value.1))
  {
    hide RecordData, RecordEvent, CompleteGo, CompleteRust, JoinLines;
  }

  lemma {:induction false} AllRecords(codec: Json.Codec, mode: Mode, s: Seen, p: Progress, id: Option<string>,
                                      whole: seq<bytes>, parsed: seq<bytes>)
    requires |whole| == |parsed| && Alike(mode, s, p, id)
    requires forall i :: 0 <= i < |whole| && CompleteGo(whole[i]) ==> CompleteRust(parsed[i])
    ensures var go := WatchAll(codec, mode, s, whole, parsed);
            var rust := RustAll(codec, mode, None, p, id, parsed);
            && (go.Ok? && !go.value.failed && AllText(codec, parsed)
                <==> rust.Ok? && AllStrict(codec, mode, whole, parsed))
            && (rust.Ok? && AllStrict(codec, mode, whole, parsed) ==>
                  Alike(mode, go.value, rust.value.0, rust.value.1))
    decreases |whole|
  {
    hide Watch, RustStep, Strict, CompleteGo, CompleteRust, Alike;
    if whole == [] {
      assert Alike(mode, s, p, id) ==> !s.failed by {
        NotFailed(mode, s, p, id);
      }
    } else {
      OneRecord(codec, mode, s, p, id, whole[0], parsed[0]);
      assert AllText(codec, parsed) <==> codec.utf8(parsed[0]) && AllText(codec, parsed[1..]) by {
        assert parsed == [parsed[0]] + parsed[1..];
      }
      assert AllStrict(codec, mode, whole, parsed) <==>
             Strict(codec, mode, whole[0], parsed[0]) && AllStrict(codec, mode, whole[1..], parsed[1..]) by {
        assert whole == [whole[0]] + whole[1..] && parsed == [parsed[0]] + parsed[1..];
      }
      var go := Watch(codec, mode, s, whole[0], parsed[0]);
      var rust := RustStep(codec, mode, None, p, id, parsed[0]);
      if go.Ok? && go.value.failed {
        FailureStays(codec, mode, go.value, whole[1..], parsed[1..]);
      } else if rust.Ok? && Strict(codec, mode, whole[0], parsed[0]) {
        AllRecords(codec, mode, go.value, rust.value.0, rust.value.1, whole[1..], parsed[1..]);
      }
    }
  }

  lemma NotFailed(mode: Mode, s: Seen, p: Progress, id: Option<string>)
    requires Alike(mode, s, p, id)
    ensures !s.failed
  {
  }

  // ----- Go stops at `[DONE]` -----

  predicate HasDone(records: seq<bytes>) {
    exists i :: 0 <= i < |records| && SseReader.IsDone(records[i])
  }

  lemma {:induction false} UntilDonePrefix(records: seq<bytes>)
    ensures |UntilDone(records)| <= |records| && records == UntilDone(records) + records[|UntilDone(records)|..]
    ensures records != [] ==> UntilDone(records) != [] && UntilDone(records)[0] == records[0]
    decreases |records|
  {
    hide SseReader.IsDone;
    if records != [] {
      UntilDonePrefix(records[1..]);
      assert records == [records[0]] + records[1..];
    }
  }

  lemma {:induction false} WatchFromAll(codec: Json.Codec, mode: Mode, w: Watcher, records: seq<bytes>)
    ensures WatchFrom(codec, mode, w, records) ==
            match WatchAll(codec, mode, w.seen, records, if w.first then StripFirst(records) else records)
            case Err => Err
            case Ok(seen) => Ok(Watcher(seen, w.first && records == []))
    decreases |records|
  {
    hide Watch, Strip;
    if records != [] {
      assert StripFirst(records)[1..] == records[1..];
      match Watch(codec, mode, w.seen, records[0], if w.first then Strip(records[0]) else records[0])
      case Err =>
      case Ok(next) => WatchFromAll(codec, mode, Watcher(next, false), records[1..]);
    }
  }

  lemma {:induction false} AcceptedUntilDone(codec: Json.Codec, mode: Mode, w: Watcher, records: seq<bytes>)
    requires !mode.Messages?
    ensures GoAccepts(codec, mode, w, records) ==
            match WatchFrom(codec, mode, w, UntilDone(records))
            case Err => None
            case Ok(last) => Verdict(mode, last.seen)
    decreases |records|
  {
    hide Advance, SseReader.IsDone;
    if records != [] {
      assert UntilDone(records)[1..] == if SseReader.IsDone(records[0]) then [] else UntilDone(records[1..]);
      match Advance(codec, mode, w, records[0])
      case Err =>
      case Ok(next) =>
        if !SseReader.IsDone(records[0]) {
          AcceptedUntilDone(codec, mode, next, records[1..]);
        }
    }
  }

  // In Messages a `[DONE]` record is refused wherever it stands.

  lemma WatchRefusesDone(codec: Json.Codec, s: Seen, record: bytes)
    requires SseReader.IsDone(record)
    ensures Watch(codec, Messages, s, record, record).Err?
  {
    hide RecordData, RecordEvent, CompleteGo;
  }

  lemma WatchStopped(codec: Json.Codec, s: Seen, whole: bytes, parsed: bytes)
    ensures var next := Watch(codec, Messages, s, whole, parsed);
            next.Ok? ==>
              && (s.stopped ==> next.value.stopped && next.value.id == s.id)
              && (s == NOTHING && next.value.stopped ==> next.value.id == "")
  {
    hide RecordData, RecordEvent, CompleteGo;
  }

  lemma {:induction false} StoppedKeepsId(codec: Json.Codec, w: Watcher, records: seq<bytes>)
    requires w.seen.stopped && !w.first
    ensures WatchFrom(codec, Messages, w, records).Ok? ==>
              WatchFrom(codec, Messages, w, records).value.seen.id == w.seen.id && !HasDone(records)
    decreases |records|
  {
    hide Watch, SseReader.IsDone;
    if records != [] {
      WatchStopped(codec, w.seen, records[0], records[0]);
      if SseReader.IsDone(records[0]) {
        WatchRefusesDone(codec, w.seen, records[0]);
      }
      match Advance(codec, Messages, w, records[0])
      case Err =>
      case Ok(next) =>
        StoppedKeepsId(codec, next, records[1..]);
        assert records == [records[0]] + records[1..];
    }
  }

  lemma {:induction false} AcceptedMessages(codec: Json.Codec, w: Watcher, records: seq<bytes>)
    requires w.first ==> w == FRESH
    ensures GoAccepts(codec, Messages, w, records).Some? ==> !HasDone(records)
    ensures !HasDone(records) ==>
              GoAccepts(codec, Messages, w, records) ==
              match WatchFrom(codec, Messages, w, records)
              case Err => None
              case Ok(last) => Verdict(Messages, last.seen)
    decreases |records|
  {
    hide Watch, SseReader.IsDone;
    if records != [] {
      assert records == [records[0]] + records[1..];
      var parsed := if w.first then Strip(records[0]) else records[0];
      WatchStopped(codec, w.seen, records[0], parsed);
      if SseReader.IsDone(records[0]) && !w.first {
        WatchRefusesDone(codec, w.seen, records[0]);
      }
      match Advance(codec, Messages, w, records[0])
      case Err =>
      case Ok(next) =>
        assert HasDone(records) <==> SseReader.IsDone(records[0]) || HasDone(records[1..]);
        if next.seen.stopped {
          StoppedKeepsId(codec, next, records[1..]);
        } else {
          AcceptedMessages(codec, next, records[1..]);
        }
    }
  }

  // ----- Rust goes on -----

  /** Every record is text, and names no other ID than this one. */
  predicate Allows(codec: Json.Codec, mode: Mode, id: string, records: seq<bytes>) {
    forall i :: 0 <= i < |records| ==>
      && codec.utf8(records[i])
      && var seen := ReceiptOf(codec, records[i], mode.Responses?, mode.Messages?);
         (seen.Some? ==> seen == Some(id))
  }

  lemma {:induction false} RustSplit(codec: Json.Codec, mode: Mode, p: Progress, id: Option<string>,
                                     a: seq<bytes>, b: seq<bytes>)
    ensures RustAll(codec, mode, None, p, id, a + b) ==
            match RustAll(codec, mode, None, p, id, a)
            case Err => Err
            case Ok(next) => RustAll(codec, mode, None, next.0, next.1, b)
    decreases |a|
  {
    hide RustStep;
    if a == [] {
      assert a + b == b;
    } else {
      assert (a + b)[1..] == a[1..] + b;
      match RustStep(codec, mode, None, p, id, a[0])
      case Err =>
      case Ok(next) => RustSplit(codec, mode, next.0, next.1, a[1..], b);
    }
  }

  lemma {:induction false} RustNames(codec: Json.Codec, mode: Mode, p: Progress, id: Option<string>, records: seq<bytes>)
    ensures var r := RustAll(codec, mode, None, p, id, records);
            r.Ok? ==> (r.value.1.Some? <==> id.Some? || NamesId(codec, records, mode.Responses?, mode.Messages?))
    decreases |records|
  {
    hide Transform, ReceiptOf, SseMessages.Step;
    if records != [] {
      TransformKnows(codec, records[0], None, id, mode.Responses?, mode.Messages?);
      match RustStep(codec, mode, None, p, id, records[0])
      case Err =>
      case Ok(next) =>
        RustNames(codec, mode, next.0, next.1, records[1..]);
        assert records == [records[0]] + records[1..];
        assert NamesId(codec, records, mode.Responses?, mode.Messages?) <==>
               || ReceiptOf(codec, records[0], mode.Responses?, mode.Messages?).Some?
               || NamesId(codec, records[1..], mode.Responses?, mode.Messages?);
    }
  }

  lemma {:induction false} RustRest(codec: Json.Codec, mode: Mode, p: Progress, id: string, records: seq<bytes>)
    requires !mode.Messages?
    ensures RustAll(codec, mode, None, p, Some(id), records) ==
            if Allows(codec, mode, id, records) then Ok((p, Some(id))) else Err
    decreases |records|
  {
    hide Transform, ReceiptOf;
    if records != [] {
      TransformKnows(codec, records[0], None, Some(id), mode.Responses?, mode.Messages?);
      RustRest(codec, mode, p, id, records[1..]);
      assert records == [records[0]] + records[1..];
      assert Allows(codec, mode, id, records) <==>
             Allows(codec, mode, id, [records[0]]) && Allows(codec, mode, id, records[1..]);
    }
  }

  // ----- Where the two agree -----

  /** What Go asks of the records it looks at: each is strict, one names an ID, and none is `[DONE]` in Messages. */
  predicate StrictHead(codec: Json.Codec, mode: Mode, head: seq<bytes>) {
    && AllStrict(codec, mode, head, StripFirst(head))
    && NamesId(codec, StripFirst(head), mode.Responses?, mode.Messages?)
    && (mode.Messages? ==> !HasDone(head))
  }

  /** What Rust asks beyond Go: the records Go looks at are text, and those it does not allow its ID. */
  predicate Tolerable(codec: Json.Codec, mode: Mode, id: string, records: seq<bytes>) {
    var head := Head(mode, records);
    && AllText(codec, StripFirst(head))
    && |head| <= |records|
    && Allows(codec, mode, id, records[|head|..])
  }

  lemma HeadWatched(codec: Json.Codec, mode: Mode, head: seq<bytes>)
    ensures var go := WatchAll(codec, mode, NOTHING, head, StripFirst(head));
            var rust := RustAll(codec, mode, None, Progress(false, false), None, StripFirst(head));
            && (go.Ok? && !go.value.failed && AllText(codec, StripFirst(head))
                <==> rust.Ok? && AllStrict(codec, mode, head, StripFirst(head)))
            && (rust.Ok? && AllStrict(codec, mode, head, StripFirst(head)) ==>
                  Alike(mode, go.value, rust.value.0, rust.value.1))
  {
    var parsed := StripFirst(head);
    forall i | 0 <= i < |head| && CompleteGo(head[i]) ensures CompleteRust(parsed[i]) {
      if i == 0 {
        StripComplete(head[i]);
      } else {
        CompleteAgree(head[i]);
      }
    }
    hide WatchAll, RustAll, AllStrict, AllText, StripFirst, CompleteGo, CompleteRust;
    AllRecords(codec, mode, NOTHING, Progress(false, false), None, head, parsed);
  }

  /** What Go makes of the records it looks at. */
  lemma AcceptedHead(codec: Json.Codec, mode: Mode, records: seq<bytes>)
    ensures |Head(mode, records)| <= |records|
    ensures var head := Head(mode, records);
            var watched := match WatchAll(codec, mode, NOTHING, head, StripFirst(head))
                           case Err => None
                           case Ok(s) => Verdict(mode, s);
            if mode.Messages? && HasDone(head) then GoAccepts(codec, mode, FRESH, records) == None
            else GoAccepts(codec, mode, FRESH, records) == watched
  {
    hide WatchAll, WatchFrom, GoAccepts, StripFirst;
    var head := Head(mode, records);
    WatchFromAll(codec, mode, FRESH, head);
    if mode.Messages? {
      AcceptedMessages(codec, FRESH, records);
    } else {
      UntilDonePrefix(records);
      AcceptedUntilDone(codec, mode, FRESH, records);
    }
  }

  lemma StripHead(records: seq<bytes>, head: seq<bytes>)
    requires |head| <= |records| && records == head + records[|head|..]
    requires records != [] ==> head != []
    ensures StripFirst(records) == StripFirst(head) + records[|head|..]
  {
    hide Strip;
    if records != [] {
      assert records[0] == head[0] && records[1..] == head[1..] + records[|head|..];
    }
  }

  lemma RustHead(codec: Json.Codec, mode: Mode, records: seq<bytes>)
    ensures var head := Head(mode, records);
            |head| <= |records| &&
            RustAll(codec, mode, None, Progress(false, false), None, StripFirst(records)) ==
            match RustAll(codec, mode, None, Progress(false, false), None, StripFirst(head))
            case Err => Err
            case Ok(next) => RustAll(codec, mode, None, next.0, next.1, records[|head|..])
  {
    hide RustAll, UntilDone, StripFirst;
    var head := Head(mode, records);
    UntilDonePrefix(records);
    StripHead(records, head);
    RustSplit(codec, mode, Progress(false, false), None, StripFirst(head), records[|head|..]);
  }

  /** Without a response key. */
  lemma SdksAgreeWithoutKey(codec: Json.Codec, mode: Mode, records: seq<bytes>, id: string)
    ensures GoAccepts(codec, mode, FRESH, records) == Some(id) && Tolerable(codec, mode, id, records) <==>
            RustAccepts(codec, mode, None, records) == Some(id) && StrictHead(codec, mode, Head(mode, records))
  {
    hide GoAccepts, WatchAll, RustAll, AllStrict, AllText, StripFirst, Allows, NamesId, HasDone, Head;
    var head := Head(mode, records);
    AcceptedHead(codec, mode, records);
    RustHead(codec, mode, records);
    HeadWatched(codec, mode, head);
    var parsed := StripFirst(head);
    RustNames(codec, mode, Progress(false, false), None, parsed);
    var rust := RustAll(codec, mode, None, Progress(false, false), None, parsed);
    if rust.Ok? {
      if mode.Messages? {
        NothingRests(codec, mode, rust.value.0, rust.value.1, records, id);
      } else if rust.value.1.Some? {
        RustRest(codec, mode, rust.value.0, rust.value.1.value, records[|head|..]);
      }
    }
  }

  /** In Messages Go looks at every record. */
  lemma NothingRests(codec: Json.Codec, mode: Mode, p: Progress, i: Option<string>, records: seq<bytes>, id: string)
    requires mode.Messages?
    ensures |Head(mode, records)| == |records|
    ensures RustAll(codec, mode, None, p, i, records[|Head(mode, records)|..]) == Ok((p, i))
    ensures Allows(codec, mode, id, records[|Head(mode, records)|..])
  {
  }

  // ----- With a response key -----

  predicate AllPassable(codec: Json.Codec, key: Option<Key>, parsed: seq<bytes>) {
    forall i :: 0 <= i < |parsed| ==> Passable(codec, parsed[i], key)
  }

  /** A key asks more of the records, and changes nothing else about the ID. */
  lemma {:induction false} KeyOnlyRefuses(codec: Json.Codec, mode: Mode, key: Option<Key>, p: Progress, id: Option<string>,
                                          parsed: seq<bytes>)
    ensures RustAll(codec, mode, key, p, id, parsed) ==
            if AllPassable(codec, key, parsed) then RustAll(codec, mode, None, p, id, parsed) else Err
    decreases |parsed|
  {
    hide Transform, Passable, ReceiptOf, SseMessages.Step;
    if parsed != [] {
      assert parsed == [parsed[0]] + parsed[1..];
      assert AllPassable(codec, key, parsed) <==>
             Passable(codec, parsed[0], key) && AllPassable(codec, key, parsed[1..]);
      TransformKnows(codec, parsed[0], key, id, mode.Responses?, mode.Messages?);
      TransformKnows(codec, parsed[0], None, id, mode.Responses?, mode.Messages?);
      assert Passable(codec, parsed[0], None) by {
        NoKeyNeeded(codec, parsed[0]);
      }
      match RustStep(codec, mode, None, p, id, parsed[0])
      case Err =>
      case Ok(next) => KeyOnlyRefuses(codec, mode, key, next.0, next.1, parsed[1..]);
    }
  }

  lemma NoKeyNeeded(codec: Json.Codec, record: bytes)
    ensures Passable(codec, record, None)
  {
  }

  /** A strict record can be handed out by Go exactly when it passes in Rust, and is handed out the same. */
  lemma SameHand(codec: Json.Codec, mode: Mode, key: Option<Key>, whole: bytes, parsed: bytes)
    requires Strict(codec, mode, whole, parsed)
    ensures Hand(codec, key, whole, parsed).Some? <==> Passable(codec, parsed, key)
    ensures key.Some? && Hand(codec, key, whole, parsed).Some? ==>
              Hand(codec, key, whole, parsed) == Some(JoinLines(Apply(Lines(parsed), Choice(codec, parsed, key))))
  {
    hide RecordData, RecordEvent, CompleteGo;
    LinesCharacterized(parsed, Lines(parsed));
    hide JoinLines, Lines, Rewrite;
  }

  /** The ID Go registers a stream under, if it does, with or without a response key. */
  function GoRegisters(codec: Json.Codec, mode: Mode, key: Option<Key>, records: seq<bytes>): Option<string> {
    var head := Head(mode, records);
    if Handed(codec, key, head, StripFirst(head)).Some? then GoAccepts(codec, mode, FRESH, records) else None
  }

  lemma HandedIsPassable(codec: Json.Codec, mode: Mode, key: Option<Key>, head: seq<bytes>)
    requires AllStrict(codec, mode, head, StripFirst(head))
    ensures Handed(codec, key, head, StripFirst(head)).Some? <==> AllPassable(codec, key, StripFirst(head))
  {
    hide Strict, Hand, Passable, StripFirst;
    var parsed := StripFirst(head);
    forall i | 0 <= i < |head| ensures Hand(codec, key, head[i], parsed[i]).Some? <==> Passable(codec, parsed[i], key) {
      SameHand(codec, mode, key, head[i], parsed[i]);
    }
  }

  /**
   * The SDKs register a stream under the same ID, up to what each asks beyond the other. Go stops
   * looking at `[DONE]`; up to there it refuses error events, events with an `error` member, data
   * that is no JSON object and, in Messages, incomplete records, and it needs to see the ID. Rust
   * wants text, and behind `[DONE]` too no other ID and nothing its key does not open.
   */
  lemma SdksAgreeExactly(codec: Json.Codec, mode: Mode, key: Option<Key>, records: seq<bytes>, id: string)
    ensures GoRegisters(codec, mode, key, records) == Some(id) && Tolerable(codec, mode, id, records)
            && AllPassable(codec, key, records[|Head(mode, records)|..]) <==>
            RustAccepts(codec, mode, key, records) == Some(id) && StrictHead(codec, mode, Head(mode, records))
  {
    hide GoAccepts, RustAll, AllStrict, AllPassable, AllText, StripFirst, Allows, NamesId, HasDone, Handed;
    var head := Head(mode, records);
    SdksAgreeWithoutKey(codec, mode, records, id);
    KeyOnlyRefuses(codec, mode, key, Progress(false, false), None, StripFirst(records));
    HeadSplits(codec, mode, key, records);
    if AllStrict(codec, mode, head, StripFirst(head)) {
      HandedIsPassable(codec, mode, key, head);
    }
  }

  lemma HeadSplits(codec: Json.Codec, mode: Mode, key: Option<Key>, records: seq<bytes>)
    ensures var head := Head(mode, records);
            |head| <= |records| &&
            (AllPassable(codec, key, StripFirst(records)) <==>
             AllPassable(codec, key, StripFirst(head)) && AllPassable(codec, key, records[|head|..]))
  {
    hide UntilDone, StripFirst, Passable;
    var head := Head(mode, records);
    UntilDonePrefix(records);
    StripHead(records, head);
    var a, b := StripFirst(head), records[|head|..];
    assert forall i :: 0 <= i < |a| ==> (a + b)[i] == a[i];
    assert forall i :: 0 <= i < |b| ==> (a + b)[|a| + i] == b[i];
  }

  /** And what Go hands out under a key, up to `[DONE]`, is what Rust hands out. */
  lemma SdksHandOutTheSame(codec: Json.Codec, mode: Mode, key: Option<Key>, records: seq<bytes>)
    requires key.Some? && StrictHead(codec, mode, Head(mode, records))
    ensures var rust := TransformAll(codec, StripFirst(records), key, None, mode.Responses?, mode.Messages?);
            var head := Head(mode, records);
            rust.Ok? ==>
              |head| <= |rust.value.0| && Handed(codec, key, head, StripFirst(head)) == Some(rust.value.0[..|head|])
  {
    var parsed := StripFirst(records);
    var head := Head(mode, records);
    var rust := TransformAll(codec, parsed, key, None, mode.Responses?, mode.Messages?);
    TransformAllApplies(codec, parsed, key, None, mode.Responses?, mode.Messages?);
    StreamKnows(codec, parsed, key, None, mode.Responses?, mode.Messages?);
    HeadSplits(codec, mode, key, records);
    UntilDonePrefix(records);
    StripHead(records, head);
    if rust.Ok? {
      assert AllPassable(codec, key, parsed);
      HandedIsPassable(codec, mode, key, head);
      var out := Handed(codec, key, head, StripFirst(head)).value;
      forall i | 0 <= i < |head| ensures out[i] == rust.value.0[i] {
        SameHand(codec, mode, key, head[i], StripFirst(head)[i]);
      }
      assert out == rust.value.0[..|head|];
    }
  }

  /** Registering under one ID only. */
  function Only(id: string): (string, bytes) -> bool {
    (other: string, body: bytes) => other == id
  }

  /** The same about the bytes of a stream: Go's reader against Rust's decoder. */
  lemma StreamsAgreeExactly(codec: Json.Codec, mode: Mode, key: Option<Key>, s: bytes, id: string)
    ensures var go := SseReader.PlayFrom(RoundTrip(codec, mode, key, Only(id)), s, Eof, FRESH, 0);
            var records := Records(s);
            go.fate.Finished? && Tolerable(codec, mode, id, records)
            && AllPassable(codec, key, records[|Head(mode, records)|..]) <==>
            RustAccepts(codec, mode, key, records) == Some(id) && StrictHead(codec, mode, Head(mode, records))
  {
    hide GoAccepts, SseReader.PlayFrom, RoundTrip, Tolerable, RustAccepts, StrictHead, RecordsAt, AllPassable, Handed;
    PlayIsAccepted(codec, mode, key, Only(id), s, FRESH, 0);
    SdksAgreeExactly(codec, mode, key, Records(s), id);
    HeadSplits(codec, mode, key, Records(s));
  }

  // ----- Streams on which they part -----

  /** A one-line record. */
  function Single(text: bytes): bytes {
    text + [LF, LF]
  }

  /** The lines of a one-line record. */
  function Pair(text: bytes): seq<Line> {
    [Line(text, [LF]), Line([], [LF])]
  }

  lemma PairJoined(text: bytes)
    ensures JoinLines(Pair(text)) == Single(text)
    ensures Texts(Pair(text)) == [text, []]
    ensures text != [] && NoBreaks(text) ==> WellFormed(Pair(text))
  {
    var a, b := Line(text, [LF]), Line([], [LF]);
    assert Pair(text) == [a, b] && Pair(text)[1..] == [b] && [b][1..] == [];
    assert JoinLines([b]) == LineBytes(b) + JoinLines([b][1..]) == [LF];
    assert JoinLines(Pair(text)) == LineBytes(a) + JoinLines([b]) == Single(text);
    assert Texts([b]) == [b.text] + Texts([b][1..]) == [b.text];
    assert Texts(Pair(text)) == [a.text] + Texts([b]);
    assert WellFormed([b]) by {
      assert NoBreaks(b.text) && WellFormed([b][1..]) && Adjacent(b, [b][1..]);
    }
  }

  lemma SingleMeans(text: bytes)
    requires text != [] && NoBreaks(text)
    ensures RecordData(Single(text)) == match Field(DATA, text) case Some(v) => v case None => []
    ensures RecordEvent(Single(text)) == Field(EVENT, text)
  {
    PairJoined(text);
    LinesCharacterized(Single(text), Pair(text));
    ValuesOfPair(DATA, text);
    ValuesOfPair(EVENT, text);
  }

  lemma ValuesOfPair(name: bytes, text: bytes)
    requires name != []
    ensures Values(name, [text, []]) == match Field(name, text) case Some(v) => [v] case None => []
  {
    var texts: seq<bytes> := [text, []];
    var blank: seq<bytes> := [[]];
    assert texts[1..] == blank && blank[1..] == [];
    assert Field(name, []) == None;
    assert Values(name, blank) == [];
  }

  lemma TwoRecords(first: bytes, second: bytes)
    requires first != [] && NoBreaks(first) && second != [] && NoBreaks(second)
    ensures Records(Single(first) + Single(second)) == [Single(first), Single(second)]
  {
    var a, b := Pair(first), Pair(second);
    PairJoined(first);
    PairJoined(second);
    var gs := [a, b];
    var tail := [b];
    assert gs[1..] == tail && tail[1..] == [];
    assert Concat(tail) == b + Concat(tail[1..]) == b;
    assert Concat(gs) == a + b;
    PairsWellFormed(first, second);
    assert JoinEach(tail) == [JoinLines(b)] + JoinEach(tail[1..]) == [Single(second)];
    assert JoinEach(gs) == [Single(first), Single(second)];
    FlattenFirst(Single(second), []);
    var records: seq<bytes> := [Single(first), Single(second)];
    assert records[1..] == [Single(second)];
    assert Flatten(records) == Single(first) + Single(second);
    assert Groups(tail);
    RecordsOfGroups(gs);
  }

  lemma PairsWellFormed(first: bytes, second: bytes)
    requires first != [] && NoBreaks(first) && second != [] && NoBreaks(second)
    ensures WellFormed(Pair(first) + Pair(second))
  {
    PairJoined(second);
    var a, b := Line(first, [LF]), Line([], [LF]);
    var most := [b] + Pair(second);
    var all := Pair(first) + Pair(second);
    assert all == [a] + most && all[1..] == most && most[1..] == Pair(second);
    assert WellFormed(most);
  }

  /** {"id":"a"} */
  const NAMED: bytes := [0x7b, 0x22, 0x69, 0x64, 0x22, 0x3a, 0x22, 0x61, 0x22, 0x7d]

  const NAMED_LINE: bytes := DATA + [COLON] + NAMED
  const DONE_LINE: bytes := DATA + [COLON] + DONE
  const ERROR_LINE: bytes := EVENT + [COLON] + ERROR

  /** A line of a field whose value no space precedes, and a line of another field. */
  lemma FieldLine(name: bytes, value: bytes, other: bytes)
    requires value != [] && value[0] != SPACE && name != [] && other != [] && name[0] != other[0]
    ensures Field(name, name + [COLON] + value) == Some(value)
    ensures Field(other, name + [COLON] + value) == None
  {
    var line := name + [COLON] + value;
    assert name + [COLON] <= line && line[|name| + 1..] == value && line[0] == name[0];
  }

  lemma DataLine(value: bytes)
    requires value != [] && value[0] != SPACE && NoBreaks(value)
    ensures NoBreaks(DATA + [COLON] + value)
    ensures RecordData(Single(DATA + [COLON] + value)) == value && RecordEvent(Single(DATA + [COLON] + value)) == None
  {
    hide RecordData, RecordEvent, Single, Field;
    assert NoBreaks(DATA);
    SingleMeans(DATA + [COLON] + value);
    FieldLine(DATA, value, EVENT);
  }

  lemma EventLine(value: bytes)
    requires value != [] && value[0] != SPACE && NoBreaks(value)
    ensures NoBreaks(EVENT + [COLON] + value)
    ensures RecordData(Single(EVENT + [COLON] + value)) == []
    ensures RecordEvent(Single(EVENT + [COLON] + value)) == Some(value)
  {
    hide RecordData, RecordEvent, Single, Field;
    assert NoBreaks(EVENT);
    SingleMeans(EVENT + [COLON] + value);
    FieldLine(EVENT, value, DATA);
  }

  lemma LinesMean()
    ensures NoBreaks(NAMED_LINE) && NoBreaks(DONE_LINE) && NoBreaks(ERROR_LINE)
    ensures RecordData(Single(NAMED_LINE)) == NAMED && RecordEvent(Single(NAMED_LINE)) == None
    ensures RecordData(Single(DONE_LINE)) == DONE && RecordEvent(Single(DONE_LINE)) == None
    ensures RecordData(Single(ERROR_LINE)) == [] && RecordEvent(Single(ERROR_LINE)) == Some(ERROR)
  {
    hide RecordData, RecordEvent, Single;
    assert NoBreaks(NAMED) && NoBreaks(DONE) && NoBreaks(ERROR);
    DataLine(NAMED);
    DataLine(DONE);
    EventLine(ERROR);
  }

  /** Rust registers a stream that ends in an error event, and one that names its ID behind `[DONE]`; Go neither. */
  lemma SdksPart(codec: Json.Codec)
    requires codec.utf8(Single(NAMED_LINE)) && codec.utf8(Single(DONE_LINE)) && codec.utf8(Single(ERROR_LINE))
    requires codec.parse(NAMED) == Some(Json.Object(map["id" := Json.String("a")]))
    ensures var s := Single(NAMED_LINE) + Single(ERROR_LINE);
            RustAccepts(codec, Chat, None, Records(s)) == Some("a") && GoAccepts(codec, Chat, FRESH, Records(s)) == None
    ensures var s := Single(DONE_LINE) + Single(NAMED_LINE);
            RustAccepts(codec, Chat, None, Records(s)) == Some("a") && GoAccepts(codec, Chat, FRESH, Records(s)) == None
  {
    LinesMean();
    TwoRecords(NAMED_LINE, ERROR_LINE);
    TwoRecords(DONE_LINE, NAMED_LINE);
    NamedThenError(codec);
    DoneThenNamed(codec);
  }

  lemma NoMark(record: bytes)
    requires record != [] && record[0] != BOM[0]
    ensures Strip(record) == record
  {
  }

  const BEGUN := Progress(false, false)

  lemma RustNamed(codec: Json.Codec)
    requires codec.utf8(Single(NAMED_LINE))
    requires codec.parse(NAMED) == Some(Json.Object(map["id" := Json.String("a")]))
    ensures RustStep(codec, Chat, None, BEGUN, None, Single(NAMED_LINE)) == Ok((BEGUN, Some("a")))
  {
    hide RecordData, RecordEvent;
    LinesMean();
    assert !PassesThrough(Single(NAMED_LINE));
  }

  lemma RustPasses(codec: Json.Codec, id: Option<string>, record: bytes)
    requires codec.utf8(record) && PassesThrough(record)
    ensures RustStep(codec, Chat, None, BEGUN, id, record) == Ok((BEGUN, id))
  {
  }

  lemma RustTwo(codec: Json.Codec, first: bytes, second: bytes, id: Option<string>, end: Option<string>)
    requires first != [] && first[0] != BOM[0]
    requires RustStep(codec, Chat, None, BEGUN, None, first) == Ok((BEGUN, id))
    requires RustStep(codec, Chat, None, BEGUN, id, second) == Ok((BEGUN, end))
    ensures RustAccepts(codec, Chat, None, [first, second]) == end
  {
    hide RustStep;
    NoMark(first);
    var records, rest: seq<bytes> := [first, second], [second];
    assert StripFirst(records) == records && records[1..] == rest && rest[1..] == [];
    assert RustAll(codec, Chat, None, BEGUN, id, rest) == Ok((BEGUN, end));
  }

  lemma NamedThenError(codec: Json.Codec)
    requires codec.utf8(Single(NAMED_LINE)) && codec.utf8(Single(ERROR_LINE))
    requires codec.parse(NAMED) == Some(Json.Object(map["id" := Json.String("a")]))
    ensures var records := [Single(NAMED_LINE), Single(ERROR_LINE)];
            RustAccepts(codec, Chat, None, records) == Some("a") && GoAccepts(codec, Chat, FRESH, records) == None
  {
    hide RecordData, RecordEvent;
    LinesMean();
    var first, second := Single(NAMED_LINE), Single(ERROR_LINE);
    assert first[0] == DATA[0] != BOM[0];
    RustNamed(codec);
    RustPasses(codec, Some("a"), second);
    RustTwo(codec, first, second, Some("a"), Some("a"));
    GoErrs(codec, first, second);
  }

  /** An error event behind an ordinary record spoils the stream. */
  lemma GoErrs(codec: Json.Codec, first: bytes, second: bytes)
    requires RecordData(first) != DONE && RecordData(second) == [] && RecordEvent(second) == Some(ERROR)
    ensures GoAccepts(codec, Chat, FRESH, [first, second]) == None
  {
    hide RecordData, RecordEvent, Watch;
    var records, rest: seq<bytes> := [first, second], [second];
    assert records[1..] == rest && rest[1..] == [];
    match Advance(codec, Chat, FRESH, first)
    case Err =>
    case Ok(next) =>
      assert Watch(codec, Chat, next.seen, second, second) == Ok(next.seen.(failed := true)) by {
        ErrorFails(codec, next.seen, second);
      }
      assert GoAccepts(codec, Chat, next, rest) == None;
  }

  lemma ErrorFails(codec: Json.Codec, s: Seen, record: bytes)
    requires RecordEvent(record) == Some(ERROR)
    ensures Watch(codec, Chat, s, record, record) == Ok(s.(failed := true))
  {
  }

  lemma DoneThenNamed(codec: Json.Codec)
    requires codec.utf8(Single(NAMED_LINE)) && codec.utf8(Single(DONE_LINE))
    requires codec.parse(NAMED) == Some(Json.Object(map["id" := Json.String("a")]))
    ensures var records := [Single(DONE_LINE), Single(NAMED_LINE)];
            RustAccepts(codec, Chat, None, records) == Some("a") && GoAccepts(codec, Chat, FRESH, records) == None
  {
    hide RecordData, RecordEvent;
    LinesMean();
    var first, second := Single(DONE_LINE), Single(NAMED_LINE);
    assert first[0] == DATA[0] != BOM[0];
    RustPasses(codec, None, first);
    RustNamed(codec);
    RustTwo(codec, first, second, None, Some("a"));
    NoMark(first);
    assert Watch(codec, Chat, NOTHING, first, first) == Ok(NOTHING);
    var records: seq<bytes> := [first, second];
    assert GoAccepts(codec, Chat, FRESH, records) == None;
  }
}
