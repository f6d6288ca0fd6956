/**
 * The closures with which Go's `RoundTrip` watches a stream (go/client.go:558-633) and decrypts it
 * (go/stream.go:159-212), put into the reader of `SseReader`. They decide which receipt ID a
 * stream is registered under.
 */
module GoStream {
  import opened Bytes
  import opened Streams
  import opened SseRecords
  import opened SseFields
  import opened SseTransform
  import opened SseMessages
  import opened SseBom
  import opened Wrappers
  import Json
  import SseReader

  datatype Mode = Chat | Responses | Messages

  /** What the closures remember. */
  datatype Seen = Seen(id: string, failed: bool, started: bool, stopped: bool)

  const NOTHING := Seen("", false, false, false)

  /** A nonempty ID must be the one already seen. */
  function Identify(s: Seen, from: Json.Value): Result<Seen> {
    match Json.Get(from, "id")
    case Some(String(candidate)) =>
      if candidate == "" then Ok(s)
      else if s.id != "" && candidate != s.id then Err
      else Ok(s.(id := candidate))
    case _ => Ok(s)
  }

  function Event(codec: Json.Codec, mode: Mode, s: Seen, event: Option<bytes>, obj: Json.Value): Result<Seen> {
    match mode
    case Chat => Identify(s, obj)
    case Responses => Identify(s, Json.Index(obj, "response"))
    case Messages =>
      match Json.Index(obj, "type")
      case String(kind) =>
        if kind == "" || (event.Some? && event.value != codec.encode(kind)) || s.stopped then Err
        else
          var now := s.(failed := s.failed || kind == "error", stopped := kind == STOP);
          if kind != START then Ok(now)
          else if s.started then Err
          else Identify(now.(started := true), Json.Index(obj, "message"))
      case _ => Err
  }

  /** One record: `whole` as it was read, `parsed` without a leading byte order mark. */
  function Watch(codec: Json.Codec, mode: Mode, s: Seen, whole: bytes, parsed: bytes): Result<Seen> {
    var data := RecordData(parsed);
    var event := RecordEvent(parsed);
    if mode.Messages? && (!CompleteGo(whole) || event == Some(ERROR) || data == DONE) then Err
    else if event == Some(ERROR) then Ok(s.(failed := true))
    else if data == [] || data == DONE then Ok(s)
    else
      match DecodeObject(codec, data)
      case None => Err
      case Some(obj) => Event(codec, mode, s.(failed := s.failed || Json.Get(obj, "error").Some?), event, obj)
  }

  function DecodeObject(codec: Json.Codec, data: bytes): Option<Json.Value> {
    if !codec.utf8(data) then None
    else
      match codec.parse(data)
      case None => None
      case Some(v) => if v.Object? then Some(v) else None
  }

  /** The ID to register, once the stream has ended. */
  function Verdict(mode: Mode, s: Seen): Option<string> {
    if s.failed || s.id == "" || (mode.Messages? && !s.stopped) then None else Some(s.id)
  }

  /** The closures' state between records. */
  datatype Watcher = Watcher(seen: Seen, first: bool)

  const FRESH := Watcher(NOTHING, true)

  function Advance(codec: Json.Codec, mode: Mode, w: Watcher, record: bytes): Result<Watcher> {
    match Watch(codec, mode, w.seen, record, if w.first then Strip(record) else record)
    case Err => Err
    case Ok(next) => Ok(Watcher(next, false))
  }

  /** What is handed out for a record: itself without a response key, and else its decryption. */
  function Hand(codec: Json.Codec, key: Option<Key>, whole: bytes, parsed: bytes): Option<bytes> {
    if key.None? then Some(whole)
    else if PassesThrough(parsed) then Some(parsed)
    else
      match DecodeObject(codec, RecordData(parsed))
      case None => None
      case Some(body) =>
        if Json.Get(body, "choices").None? then Some(parsed)
        else if key.value(body).None? then None
        else Some(JoinLines(Rewrite(Lines(parsed), codec.write(key.value(body).value))))
  }

  class StreamClosures {
    const codec: Json.Codec
    const mode: Mode
    const key: Option<Key>
    var id: string
    var failed: bool
    var messageStarted: bool
    var messageStopped: bool
    var firstRecord: bool

    ghost function Noted(): Seen
      reads this
    {
      Seen(id, failed, messageStarted, messageStopped)
    }

    ghost function State(): Watcher
      reads this
    {
      Watcher(Noted(), firstRecord)
    }

    constructor (codec: Json.Codec, mode: Mode, key: Option<Key>)
      ensures State() == FRESH && this.codec == codec && this.mode == mode && this.key == key
    {
      this.codec, this.mode, this.key := codec, mode, key;
      id, failed, messageStarted, messageStopped, firstRecord := "", false, false, false, true;
    }

    method Transform(record: bytes) returns (out: Option<bytes>)
      modifies this
      ensures var next := Advance(codec, mode, old(State()), record);
              && out == (if next.Ok? then Hand(codec, key, record, if old(firstRecord) then Strip(record) else record)
                         else None)
              && (next.Ok? ==> State() == next.value)
    {
      hide RecordData, RecordEvent, CompleteGo, DecodeObject, Event, Hand;
      var parsed := record;
      if firstRecord {
        if BOM <= record {
          parsed := record[3..];
        }
        firstRecord := false;
      }
      var ok := Note(record, parsed);
      if !ok {
        return None;
      }
      if key.Some? {
        out := TransformSSE(parsed);
      } else {
        out := Some(record);
        assert out == Hand(codec, key, record, parsed) by {
          WithoutKey(codec, record, parsed);
        }
      }
    }

    /** What a record says is noted, or the record refused. */
    method Note(record: bytes, parsed: bytes) returns (ok: bool)
      modifies this`id, this`failed, this`messageStarted, this`messageStopped
      ensures var next := Watch(codec, mode, old(Noted()), record, parsed);
              ok == next.Ok? && (ok ==> Noted() == next.value)
    {
      hide RecordData, RecordEvent, CompleteGo, DecodeObject, Event;
      var data, event, hasEvent := GoFields(parsed);
      var isError := hasEvent && event == ERROR;
      if mode.Messages? && (!CompleteGo(record) || isError || data == DONE) {
        return false;
      }
      if isError {
        failed := true;
      }
      ok := true;
      if data != [] && data != DONE && !isError {
        var obj := DecodeObject(codec, data);
        if obj.None? {
          return false;
        }
        if Json.Get(obj.value, "error").Some? {
          failed := true;
        }
        ok := TransformEvent(obj.value, if hasEvent then Some(event) else None);
      }
    }

    /** `transformSSE`: records without choices pass as they are. */
    method TransformSSE(record: bytes) returns (out: Option<bytes>)
      requires key.Some?
      ensures forall whole :: out == Hand(codec, key, whole, record)
    {
      hide RecordData, RecordEvent, DecodeObject, JoinLines, Rewrite, Lines;
      var data, event, hasEvent := GoFields(record);
      if data == [] || data == DONE || (hasEvent && event == ERROR) {
        return Some(record);
      }
      var body := DecodeObject(codec, data);
      if body.None? {
        return None;
      }
      if Json.Get(body.value, "choices").None? {
        return Some(record);
      }
      var plain := (key.value)(body.value);
      if plain.None? {
        return None;
      }
      var lines := SplitLines(record);
      var rewritten := RewriteLast(lines, codec.write(plain.value));
      out := Some(rewritten);
    }

    method TransformEvent(obj: Json.Value, event: Option<bytes>) returns (ok: bool)
      modifies this`id, this`failed, this`messageStarted, this`messageStopped
      ensures var next := Event(codec, mode, old(Noted()), event, obj);
              ok == next.Ok? && (ok ==> Noted() == next.value)
    {
      var from := obj;
      if mode.Messages? {
        var kind := Json.Index(obj, "type");
        if !kind.String? || kind.s == "" || (event.Some? && event.value != codec.encode(kind.s)) || messageStopped {
          return false;
        }
        if kind.s == "error" {
          failed := true;
        }
        if kind.s == STOP {
          messageStopped := true;
        }
        if kind.s == START {
          if messageStarted {
            return false;
          }
          messageStarted := true;
          from := Json.Index(obj, "message");
        } else {
          from := Json.Null;
        }
      }
      if mode.Responses? {
        from := Json.Index(obj, "response");
      }
      var candidate := Json.Get(from, "id");
      if candidate.Some? && candidate.value.String? && candidate.value.s != "" {
        if id != "" && candidate.value.s != id {
          return false;
        }
        id := candidate.value.s;
      }
      ok := true;
    }

    method Finish() returns (r: Option<string>)
      ensures r == Verdict(mode, Noted())
    {
      if failed || id == "" || (mode.Messages? && !messageStopped) {
        return None;
      }
      r := Some(id);
    }
  }

  lemma WithoutKey(codec: Json.Codec, whole: bytes, parsed: bytes)
    ensures Hand(codec, None, whole, parsed) == Some(whole)
  {
  }

  // ----- The closures in the reader -----

  /** What `RoundTrip` builds its reader with; `register` is the client's own. */
  function RoundTrip(codec: Json.Codec, mode: Mode, key: Option<Key>, register: (string, bytes) -> bool):
    SseReader.Closures<Watcher>
  {
    SseReader.Closures(
      (w: Watcher, record: bytes) => Step(codec, mode, key, w, record),
      (w: Watcher, record: bytes) => mode.Messages? && w.seen.stopped,
      Some((w: Watcher, body: bytes) => Registers(register, Verdict(mode, w.seen), body)))
  }

  function Step(codec: Json.Codec, mode: Mode, key: Option<Key>, w: Watcher, record: bytes): Result<(Watcher, bytes)> {
    match Advance(codec, mode, w, record)
    case Err => Err
    case Ok(next) =>
      match Hand(codec, key, record, if w.first then Strip(record) else record)
      case None => Err
      case Some(out) => Ok((next, out))
  }

  predicate Registers(register: (string, bytes) -> bool, id: Option<string>, body: bytes) {
    id.Some? && register(id.value, body)
  }

  function WatchFrom(codec: Json.Codec, mode: Mode, w: Watcher, records: seq<bytes>): Result<Watcher>
    decreases |records|
  {
    if records == [] then Ok(w)
    else
      match Advance(codec, mode, w, records[0])
      case Err => Err
      case Ok(next) => WatchFrom(codec, mode, next, records[1..])
  }

  /**
   * The ID Go registers a stream of records under, if it does: the records behind a terminal one
   * are still watched, those behind `[DONE]` are not.
   */
  function GoAccepts(codec: Json.Codec, mode: Mode, w: Watcher, records: seq<bytes>): Option<string>
    decreases |records|
  {
    if records == [] then Verdict(mode, w.seen)
    else
      match Advance(codec, mode, w, records[0])
      case Err => None
      case Ok(next) =>
        if mode.Messages? && next.seen.stopped then
          match WatchFrom(codec, mode, next, records[1..])
          case Err => None
          case Ok(last) => Verdict(mode, last.seen)
        else if SseReader.IsDone(records[0]) then Verdict(mode, next.seen)
        else GoAccepts(codec, mode, next, records[1..])
  }

  /** The records up to the first `[DONE]`, and with it. */
  function UntilDone(records: seq<bytes>): seq<bytes> {
    if records == [] then []
    else if SseReader.IsDone(records[0]) then [records[0]]
    else [records[0]] + UntilDone(records[1..])
  }

  /** The records Go looks at, and hands out. */
  function Head(mode: Mode, records: seq<bytes>): seq<bytes> {
    if mode.Messages? then records else UntilDone(records)
  }

  /** The records as they are parsed: the first without a byte order mark. */
  function Parsed(first: bool, records: seq<bytes>): (parsed: seq<bytes>)
    ensures |parsed| == |records|
  {
    if first then StripFirst(records) else records
  }

  /** What is handed out for these records, if all of them can be. */
  function Handed(codec: Json.Codec, key: Option<Key>, whole: seq<bytes>, parsed: seq<bytes>): (r: Option<seq<bytes>>)
    requires |whole| == |parsed|
    ensures r.Some? ==> |r.value| == |whole|
    ensures r.Some? <==> forall i :: 0 <= i < |whole| ==> Hand(codec, key, whole[i], parsed[i]).Some?
    ensures r.Some? ==> forall i :: 0 <= i < |whole| ==> Hand(codec, key, whole[i], parsed[i]) == Some(r.value[i])
    decreases |whole|
  {
    if whole == [] then Some([])
    else
      assert forall i :: 0 < i < |whole| ==> whole[i] == whole[1..][i - 1] && parsed[i] == parsed[1..][i - 1];
      var first, rest := Hand(codec, key, whole[0], parsed[0]), Handed(codec, key, whole[1..], parsed[1..]);
      if first.Some? && rest.Some? then Some([first.value] + rest.value) else None
  }

  /** Handing out the first record, and then the others. */
  lemma HandedFirst(codec: Json.Codec, key: Option<Key>, first: bool, record: bytes, rest: seq<bytes>)
    ensures Handed(codec, key, [record] + rest, Parsed(first, [record] + rest)) ==
            var out := Hand(codec, key, record, if first then Strip(record) else record);
            var later := Handed(codec, key, rest, Parsed(false, rest));
            if out.Some? && later.Some? then Some([out.value] + later.value) else None
  {
    hide Hand, Strip;
    var all := [record] + rest;
    assert all[1..] == rest && Parsed(first, all)[1..] == rest;
  }

  lemma FlattenFirst(out: bytes, rest: seq<bytes>)
    ensures Flatten([out] + rest) == out + Flatten(rest)
  {
    assert ([out] + rest)[1..] == rest;
  }

  lemma {:induction false} TailIsWatched(codec: Json.Codec, mode: Mode, key: Option<Key>,
                                         register: (string, bytes) -> bool, s: bytes, w: Watcher, p: nat)
    requires p <= |s|
    ensures var tail := SseReader.Tail(RoundTrip(codec, mode, key, register), s, Eof, w, p);
            var records := RecordsAt(s, p, p, p);
            var watched, out := WatchFrom(codec, mode, w, records), Handed(codec, key, records, Parsed(w.first, records));
            if watched.Ok? && out.Some? then tail == Ok((watched.value, Flatten(out.value))) else tail.Err?
    decreases |s| - p
  {
    hide Advance, RecordsAt, SseReader.Next, Hand, Handed, Flatten;
    SseReader.NextIsFirstRecord(s, p);
    match SseReader.Next(s, Eof, p)
    case None => NothingHanded(codec, key, w.first);
    case Some(e) =>
      var record, rest := s[p..e], RecordsAt(s, e, e, e);
      var records := RecordsAt(s, p, p, p);
      assert records[0] == record && records[1..] == rest;
      HandedFirst(codec, key, w.first, record, rest);
      OnlyFirstIsFirst(codec, mode, w, record);
      match Step(codec, mode, key, w, record)
      case Err =>
      case Ok((next, out)) =>
        TailIsWatched(codec, mode, key, register, s, next, e);
        var later := Handed(codec, key, rest, Parsed(false, rest));
        if later.Some? {
          FlattenFirst(out, later.value);
        }
  }

  lemma OnlyFirstIsFirst(codec: Json.Codec, mode: Mode, w: Watcher, record: bytes)
    ensures Advance(codec, mode, w, record).Ok? ==> !Advance(codec, mode, w, record).value.first
  {
    hide Watch;
  }

  lemma NothingHanded(codec: Json.Codec, key: Option<Key>, first: bool)
    ensures Handed(codec, key, [], Parsed(first, [])) == Some([]) && Flatten([]) == []
  {
  }

  /**
   * From here on Go's reader with these closures ends the stream well exactly when its records are
   * accepted, those it looks at can be handed out, and their ID registers with the whole stream;
   * and these it has then handed out.
   */
  ghost predicate Plays(codec: Json.Codec, mode: Mode, key: Option<Key>, register: (string, bytes) -> bool, s: bytes,
                        w: Watcher, p: nat)
    requires p <= |s|
  {
    var play := SseReader.PlayFrom(RoundTrip(codec, mode, key, register), s, Eof, w, p);
    var records := RecordsAt(s, p, p, p);
    var head := Head(mode, records);
    var out := Handed(codec, key, head, Parsed(w.first, head));
    && (play.fate.Finished? <==> out.Some? && Registers(register, GoAccepts(codec, mode, w, records), s))
    && (play.fate.Finished? ==> play.out == Flatten(out.value))
  }

  /** The next record, and the ones that will be looked at behind it. */
  lemma NextRecord(codec: Json.Codec, mode: Mode, key: Option<Key>, s: bytes, w: Watcher, p: nat) returns (e: nat)
    requires p <= |s| && SseReader.Next(s, Eof, p).Some?
    ensures p < e <= |s| && SseReader.Next(s, Eof, p) == Some(e)
    ensures var record, records, rest := s[p..e], RecordsAt(s, p, p, p), RecordsAt(s, e, e, e);
            var behind := if mode.Messages? || !SseReader.IsDone(record) then Head(mode, rest) else [];
            && records == [record] + rest && Head(mode, records) == [record] + behind
            && Handed(codec, key, [record] + behind, Parsed(w.first, [record] + behind)) ==
               var out := Hand(codec, key, record, if w.first then Strip(record) else record);
               var later := Handed(codec, key, behind, Parsed(false, behind));
               if out.Some? && later.Some? then Some([out.value] + later.value) else None
  {
    hide RecordsAt, SseReader.Next, SseReader.IsDone, Hand, Handed;
    SseReader.NextIsFirstRecord(s, p);
    e := SseReader.Next(s, Eof, p).value;
    var record, rest := s[p..e], RecordsAt(s, e, e, e);
    var records := RecordsAt(s, p, p, p);
    assert records[0] == record && records[1..] == rest;
    var behind := if mode.Messages? || !SseReader.IsDone(record) then Head(mode, rest) else [];
    assert Head(mode, records) == [record] + behind;
    HandedFirst(codec, key, w.first, record, behind);
  }

  lemma Refuses(codec: Json.Codec, mode: Mode, key: Option<Key>, register: (string, bytes) -> bool, s: bytes, w: Watcher,
                p: nat)
    requires p <= |s| && SseReader.Next(s, Eof, p).Some?
    requires Step(codec, mode, key, w, s[p..SseReader.Next(s, Eof, p).value]).Err?
    ensures Plays(codec, mode, key, register, s, w, p)
  {
    hide Advance, RecordsAt, SseReader.Next, SseReader.IsDone, SseReader.Tail, Hand, Handed, Head;
    var e := NextRecord(codec, mode, key, s, w, p);
  }

  lemma EndsHere(codec: Json.Codec, mode: Mode, key: Option<Key>, register: (string, bytes) -> bool, s: bytes, w: Watcher,
                 p: nat, next: Watcher, out: bytes)
    requires p <= |s| && SseReader.Next(s, Eof, p).Some?
    requires Step(codec, mode, key, w, s[p..SseReader.Next(s, Eof, p).value]) == Ok((next, out))
    requires mode.Messages? && next.seen.stopped
    ensures Plays(codec, mode, key, register, s, w, p)
  {
    hide Advance, RecordsAt, SseReader.Next, SseReader.IsDone, SseReader.Tail, Hand, Handed, Flatten;
    var e := NextRecord(codec, mode, key, s, w, p);
    OnlyFirstIsFirst(codec, mode, w, s[p..e]);
    var rest := RecordsAt(s, e, e, e);
    TailIsWatched(codec, mode, key, register, s, next, e);
    var later := Handed(codec, key, rest, Parsed(false, rest));
    if later.Some? {
      FlattenFirst(out, later.value);
    }
  }

  lemma DoneHere(codec: Json.Codec, mode: Mode, key: Option<Key>, register: (string, bytes) -> bool, s: bytes, w: Watcher,
                 p: nat, next: Watcher, out: bytes)
    requires p <= |s| && SseReader.Next(s, Eof, p).Some?
    requires Step(codec, mode, key, w, s[p..SseReader.Next(s, Eof, p).value]) == Ok((next, out))
    requires !(mode.Messages? && next.seen.stopped)
    requires SseReader.IsDone(s[p..SseReader.Next(s, Eof, p).value])
    ensures Plays(codec, mode, key, register, s, w, p)
  {
    hide Advance, RecordsAt, SseReader.Next, SseReader.IsDone, SseReader.Tail, Hand, Handed, Flatten;
    var e := NextRecord(codec, mode, key, s, w, p);
    if mode.Messages? {
      assert Verdict(mode, next.seen).None?;
    } else {
      NothingHanded(codec, key, false);
      FlattenFirst(out, []);
      assert out + [] == out;
    }
  }

  lemma GoesOn(codec: Json.Codec, mode: Mode, key: Option<Key>, register: (string, bytes) -> bool, s: bytes, w: Watcher,
               p: nat, next: Watcher, out: bytes)
    requires p <= |s| && SseReader.Next(s, Eof, p).Some?
    requires Step(codec, mode, key, w, s[p..SseReader.Next(s, Eof, p).value]) == Ok((next, out))
    requires !(mode.Messages? && next.seen.stopped)
    requires !SseReader.IsDone(s[p..SseReader.Next(s, Eof, p).value])
    requires Plays(codec, mode, key, register, s, next, SseReader.Next(s, Eof, p).value)
    ensures Plays(codec, mode, key, register, s, w, p)
  {
    hide Advance, RecordsAt, SseReader.Next, SseReader.IsDone, SseReader.Tail, Hand, Handed, Flatten, Head;
    var e := NextRecord(codec, mode, key, s, w, p);
    OnlyFirstIsFirst(codec, mode, w, s[p..e]);
    var behind := Head(mode, RecordsAt(s, e, e, e));
    var later := Handed(codec, key, behind, Parsed(false, behind));
    if later.Some? {
      FlattenFirst(out, later.value);
    }
  }

  lemma {:induction false} PlayIsAccepted(codec: Json.Codec, mode: Mode, key: Option<Key>,
                                          register: (string, bytes) -> bool, s: bytes, w: Watcher, p: nat)
    requires p <= |s|
    ensures Plays(codec, mode, key, register, s, w, p)
    decreases |s| - p
  {
    hide Step, SseReader.Next, SseReader.IsDone, Plays;
    match SseReader.Next(s, Eof, p)
    case None => EndsWithout(codec, mode, key, register, s, w, p);
    case Some(e) =>
      match Step(codec, mode, key, w, s[p..e])
      case Err => Refuses(codec, mode, key, register, s, w, p);
      case Ok((next, out)) =>
        if mode.Messages? && next.seen.stopped {
          EndsHere(codec, mode, key, register, s, w, p, next, out);
        } else if SseReader.IsDone(s[p..e]) {
          DoneHere(codec, mode, key, register, s, w, p, next, out);
        } else {
          PlayIsAccepted(codec, mode, key, register, s, next, e);
          GoesOn(codec, mode, key, register, s, w, p, next, out);
        }
  }

  lemma EndsWithout(codec: Json.Codec, mode: Mode, key: Option<Key>, register: (string, bytes) -> bool, s: bytes,
                    w: Watcher, p: nat)
    requires p <= |s| && SseReader.Next(s, Eof, p).None?
    ensures Plays(codec, mode, key, register, s, w, p)
  {
    hide RecordsAt, SseReader.Next;
    SseReader.NextIsFirstRecord(s, p);
    NothingHanded(codec, key, w.first);
  }

  lemma {:induction false} BrokenNeverEndsWell(codec: Json.Codec, mode: Mode, key: Option<Key>,
                                               register: (string, bytes) -> bool, s: bytes, w: Watcher, p: nat)
    requires p <= |s|
    ensures SseReader.PlayFrom(RoundTrip(codec, mode, key, register), s, Broken, w, p).fate.Failed?
    ensures SseReader.Tail(RoundTrip(codec, mode, key, register), s, Broken, w, p).Err?
    decreases |s| - p
  {
    hide Step, SseReader.Next, SseReader.IsDone;
    match SseReader.Next(s, Broken, p)
    case None =>
    case Some(e) =>
      match Step(codec, mode, key, w, s[p..e])
      case Err =>
      case Ok((next, out)) => BrokenNeverEndsWell(codec, mode, key, register, s, next, e);
  }

  /** What a reader built with these closures has handed out before the record that ends the stream. */
  ghost function Ordinary(codec: Json.Codec, mode: Mode, key: Option<Key>, register: (string, bytes) -> bool, s: bytes,
                          ending: Ending): bytes
  {
    SseReader.Quiet(RoundTrip(codec, mode, key, register), s, ending, FRESH, 0)
  }

  /** The stream is registered with all its bytes, under the ID of the records that were looked at. */
  ghost predicate Registered(codec: Json.Codec, mode: Mode, key: Option<Key>, register: (string, bytes) -> bool, s: bytes) {
    var head := Head(mode, Records(s));
    Handed(codec, key, head, StripFirst(head)).Some? && Registers(register, GoAccepts(codec, mode, FRESH, Records(s)), s)
  }

  /**
   * A caller of `RoundTrip` that reads a stream with any buffer sizes: end of file comes only
   * after a clean end of the source, when the stream is registered with all its bytes, and then
   * every record up to `[DONE]` has been handed out, decrypted if there is a key; and whoever has
   * more than the records before the last one has a registered stream.
   */
  method ReadStream(codec: Json.Codec, mode: Mode, key: Option<Key>, register: (string, bytes) -> bool, source: bytes,
                    ending: Ending, sizes: seq<nat>)
    returns (out: bytes, fate: Option<Fate>)
    ensures fate == Some(Finished) ==>
              && ending.Eof? && Registered(codec, mode, key, register, source)
              && var head := Head(mode, Records(source));
                 out == Flatten(Handed(codec, key, head, StripFirst(head)).value)
    ensures fate == Some(Failed) && ending.Eof? ==> !Registered(codec, mode, key, register, source)
    ensures |out| > |Ordinary(codec, mode, key, register, source, ending)| ==>
              ending.Eof? && Registered(codec, mode, key, register, source)
  {
    hide GoAccepts, SseReader.PlayFrom, SseReader.Quiet, RoundTrip, RecordsAt;
    out, fate := SseReader.ReadWith(RoundTrip(codec, mode, key, register), FRESH, source, ending, sizes);
    if ending.Eof? {
      PlayIsAccepted(codec, mode, key, register, source, FRESH, 0);
    } else {
      BrokenNeverEndsWell(codec, mode, key, register, source, FRESH, 0);
    }
  }
}
