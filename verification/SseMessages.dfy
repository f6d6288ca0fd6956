/**
 * The state machine that checks a Messages stream (rs/src/sse.rs `MessageStreamState`), and
 * what the streams it accepts look like.
 */
module SseMessages {
  import opened Bytes
  import opened SseFields
  import opened Wrappers
  import opened SseTransform
  import Json

  const START := "message_start"
  const STOP := "message_stop"

  /** A record whose envelope is in order: decodable, complete and not an error event. */
  predicate SoundRecord(codec: Json.Codec, record: bytes) {
    codec.utf8(record) && CompleteRust(record) && RecordEvent(record) != Some(ERROR)
  }

  /** The type of the event in a record, if it has a usable one that agrees with the event name. */
  function Kind(codec: Json.Codec, record: bytes): Option<string> {
    match codec.parse(RecordData(record))
    case None => None
    case Some(event) =>
      match Json.Index(event, "type")
      case String(kind) =>
        var name := RecordEvent(record);
        if kind == "" || kind == "error" || (name.Some? && name.value != codec.encode(kind)) then None
        else Some(kind)
      case _ => None
  }

  /** The type of an event: a nonempty string, not "error", and the event's name if it has one. */
  lemma KindMeans(codec: Json.Codec, record: bytes, kind: string)
    ensures Kind(codec, record) == Some(kind) <==>
            var event := codec.parse(RecordData(record));
            && event.Some? && event.value.Object? && "type" in event.value.fields
            && event.value.fields["type"] == Json.String(kind)
            && kind != "" && kind != "error"
            && (RecordEvent(record) == None || RecordEvent(record) == Some(codec.encode(kind)))
  {
  }

  class MessageStreamState {
    var started: bool
    var stopped: bool

    constructor ()
      ensures !started && !stopped
    {
      started, stopped := false, false;
    }

    method Observe(codec: Json.Codec, record: bytes) returns (ok: bool)
      modifies this
      ensures ok == Step(codec, Progress(old(started), old(stopped)), record).Ok?
      ensures ok ==> Progress(started, stopped) == Step(codec, Progress(old(started), old(stopped)), record).value
      ensures !ok ==> started == old(started) && stopped == old(stopped)
    {
      if !codec.utf8(record) {
        return false;
      }
      var lines := SplitLines(record);
      if lines == [] || lines[|lines| - 1].text != [] {
        return false;
      }
      var joined := JoinLF(Values(DATA, Texts(lines)));
      var name := Last(Values(EVENT, Texts(lines)));
      if name == Some(ERROR) {
        return false;
      }
      if joined == [] {
        return true;
      }
      var event := codec.parse(joined);
      if event.None? {
        return false;
      }
      var kind := Json.Index(event.value, "type");
      if stopped || kind == Json.String("error") || !kind.String? || kind.s == ""
         || (name.Some? && name.value != codec.encode(kind.s)) {
        return false;
      }
      if kind.s == START {
        if started {
          return false;
        }
        started := true;
      } else if kind.s == STOP {
        stopped := true;
      }
      return true;
    }

    method Finish() returns (ok: bool)
      ensures ok == (started && stopped)
    {
      ok := !(!started || !stopped);
    }
  }

  datatype Progress = Progress(started: bool, stopped: bool)

  function Step(codec: Json.Codec, p: Progress, record: bytes): Result<Progress> {
    if !SoundRecord(codec, record) then Err
    else if RecordData(record) == [] then Ok(p)
    else match Kind(codec, record)
      case None => Err
      case Some(kind) =>
        if p.stopped || (kind == START && p.started) then Err
        else Ok(Progress(p.started || kind == START, kind == STOP))
  }

  function RunFrom(codec: Json.Codec, p: Progress, records: seq<bytes>): Result<Progress>
    decreases |records|
  {
    if records == [] then Ok(p)
    else match Step(codec, p, records[0])
      case Err => Err
      case Ok(q) => RunFrom(codec, q, records[1..])
  }

  /** Observe every record, then finish: the check a Messages stream must pass. */
  method CheckStream(codec: Json.Codec, records: seq<bytes>) returns (ok: bool)
    ensures ok == (RunFrom(codec, Progress(false, false), records) == Ok(Progress(true, true)))
  {
    var state := new MessageStreamState();
    var k := 0;
    while k < |records|
      invariant k <= |records| && fresh(state)
      invariant RunFrom(codec, Progress(false, false), records) ==
                RunFrom(codec, Progress(state.started, state.stopped), records[k..])
    {
      var fine := state.Observe(codec, records[k]);
      assert records[k..][0] == records[k] && records[k..][1..] == records[k + 1..];
      if !fine {
        return false;
      }
      k := k + 1;
    }
    assert records[|records|..] == [];
    ok := state.Finish();
  }

  /** The event types of a record sequence, in order; records without data carry none. */
  function Kinds(codec: Json.Codec, records: seq<bytes>): seq<string> {
    if records == [] then []
    else if RecordData(records[0]) == [] then Kinds(codec, records[1..])
    else match Kind(codec, records[0])
      case None => Kinds(codec, records[1..])
      case Some(kind) => [kind] + Kinds(codec, records[1..])
  }

  predicate Typed(codec: Json.Codec, records: seq<bytes>) {
    forall r :: r in records ==>
      SoundRecord(codec, r) && (RecordData(r) != [] ==> Kind(codec, r).Some?)
  }

  function Count(kinds: seq<string>, kind: string): nat {
    if kinds == [] then 0 else (if kinds[0] == kind then 1 else 0) + Count(kinds[1..], kind)
  }

  /** A conversation has one start, and ends with its only stop. */
  predicate Conversation(kinds: seq<string>) {
    && kinds != []
    && kinds[|kinds| - 1] == STOP
    && Count(kinds, STOP) == 1
    && Count(kinds, START) == 1
  }

  /** The automaton on event types alone. */
  function KindsFrom(p: Progress, kinds: seq<string>): Result<Progress>
    decreases |kinds|
  {
    if kinds == [] then Ok(p)
    else if p.stopped || (kinds[0] == START && p.started) then Err
    else KindsFrom(Progress(p.started || kinds[0] == START, kinds[0] == STOP), kinds[1..])
  }

  lemma {:induction false} RunIsTypedKinds(codec: Json.Codec, p: Progress, records: seq<bytes>)
    ensures RunFrom(codec, p, records).Ok? ==> Typed(codec, records)
    ensures Typed(codec, records) ==>
              RunFrom(codec, p, records) == KindsFrom(p, Kinds(codec, records))
    decreases |records|
  {
    if records != [] {
      var r, rest := records[0], records[1..];
      assert records == [r] + rest;
      assert Typed(codec, records) <==>
             SoundRecord(codec, r) && (RecordData(r) != [] ==> Kind(codec, r).Some?) && Typed(codec, rest);
      match Step(codec, p, r)
      case Ok(q) =>
        RunIsTypedKinds(codec, q, rest);
        KindsStep(codec, p, q, records);
      case Err =>
    }
  }

  lemma KindsStep(codec: Json.Codec, p: Progress, q: Progress, records: seq<bytes>)
    requires records != [] && Step(codec, p, records[0]) == Ok(q)
    ensures KindsFrom(p, Kinds(codec, records)) == KindsFrom(q, Kinds(codec, records[1..]))
  {
    var all, rest := Kinds(codec, records), Kinds(codec, records[1..]);
    if RecordData(records[0]) != [] {
      assert all[1..] == rest;
    }
  }

  lemma {:induction false} CountLast(kinds: seq<string>)
    requires kinds != []
    ensures Count(kinds, kinds[|kinds| - 1]) > 0
  {
    if |kinds| > 1 {
      CountLast(kinds[1..]);
    }
  }

  lemma {:induction false} KindsAccepted(p: Progress, kinds: seq<string>)
    requires !p.stopped
    ensures KindsFrom(p, kinds) == Ok(Progress(true, true)) <==>
            && kinds != [] && kinds[|kinds| - 1] == STOP && Count(kinds, STOP) == 1
            && Count(kinds, START) == if p.started then 0 else 1
    decreases |kinds|
  {
    if kinds != [] {
      var k, rest := kinds[0], kinds[1..];
      if k == STOP {
        if rest != [] {
          CountLast(rest);
        }
      } else if !(k == START && p.started) {
        KindsAccepted(Progress(p.started || k == START, false), rest);
      }
    }
  }

  /**
   * A stream passes exactly when every record is sound, every event is well typed and agrees
   * with its name, exactly one of them is `message_start`, and the last is the only `message_stop`.
   */
  lemma AcceptedStreams(codec: Json.Codec, records: seq<bytes>)
    ensures RunFrom(codec, Progress(false, false), records) == Ok(Progress(true, true)) <==>
            Typed(codec, records) && Conversation(Kinds(codec, records))
  {
    RunIsTypedKinds(codec, Progress(false, false), records);
    KindsAccepted(Progress(false, false), Kinds(codec, records));
  }
}
