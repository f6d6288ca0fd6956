/**
 * The reader of go/stream.go: an io.Reader over a network body that decodes records, transforms
 * them, and must not let the caller see the end of a stream before the whole body has been
 * received and registered.
 */
module SseReader {
  import opened Bytes
  import opened Streams
  import opened SseRecords
  import opened SseFields
  import opened SseTransform
  import opened Wrappers

  /** The closures the reader is built with. They share mutable state, here of type S. */
  datatype Closures<!S> = Closures(
    transform: (S, bytes) -> Result<(S, bytes)>,
    terminal: (S, bytes) -> bool,
    finish: Option<(S, bytes) -> bool>)

  /** Where the record that begins at `line` ends, unless the source ends first. */
  function RecordEnd(s: bytes, line: nat, i: nat): (e: Option<nat>)
    requires line <= i <= |s|
    ensures e.Some? ==> i < e.value <= |s|
    decreases |s| - i
  {
    if i == |s| then None
    else if !IsBreak(s[i]) then RecordEnd(s, line, i + 1)
    else
      var e := BreakEnd(s, i);
      if i == line then Some(e) else RecordEnd(s, e, e)
  }

  /** The end of the record read next: an unfinished one counts if the source ends cleanly. */
  function Next(s: bytes, ending: Ending, p: nat): (e: Option<nat>)
    requires p <= |s|
    ensures e.Some? ==> p < e.value <= |s|
  {
    match RecordEnd(s, p, p)
    case Some(e) => Some(e)
    case None => if p < |s| && ending.Eof? then Some(|s|) else None
  }

  lemma {:induction false} RecordsAtEnd(s: bytes, start: nat, line: nat, i: nat)
    requires start <= line <= i <= |s|
    ensures match RecordEnd(s, line, i)
            case Some(e) => RecordsAt(s, start, line, i) == [s[start..e]] + RecordsAt(s, e, e, e)
            case None => RecordsAt(s, start, line, i) == if start < |s| then [s[start..]] else []
    decreases |s| - i
  {
    if i < |s| {
      if !IsBreak(s[i]) {
        RecordsAtEnd(s, start, line, i + 1);
      } else if i != line {
        var e := BreakEnd(s, i);
        RecordsAtEnd(s, start, e, e);
      }
    }
  }

  /** Reading record after record is the decoding of SseRecords. */
  lemma NextIsFirstRecord(s: bytes, p: nat)
    requires p <= |s|
    ensures match Next(s, Eof, p)
            case Some(e) => RecordsAt(s, p, p, p) == [s[p..e]] + RecordsAt(s, e, e, e)
            case None => RecordsAt(s, p, p, p) == []
  {
    RecordsAtEnd(s, p, p, p);
    assert s[p..|s|] == s[p..];
  }

  /** The rest of the records after a terminal one, all of which must transform. */
  function Tail<S>(c: Closures<S>, s: bytes, ending: Ending, state: S, p: nat): Result<(S, bytes)>
    requires p <= |s|
    decreases |s| - p
  {
    match Next(s, ending, p)
    case None => if ending.Broken? then Err else Ok((state, []))
    case Some(e) =>
      match (c.transform)(state, s[p..e])
      case Err => Err
      case Ok((state', out)) =>
        match Tail(c, s, ending, state', e)
        case Err => Err
        case Ok((last, rest)) => Ok((last, out + rest))
  }

  /** Registering the captured body. */
  predicate Finishes<S>(c: Closures<S>, state: S, body: bytes) {
    c.finish.None? || (c.finish.value)(state, body)
  }

  function Ended<S>(c: Closures<S>, s: bytes, state: S, out: bytes): Play {
    if Finishes(c, state, s) then Play(out, Finished) else Play([], Failed)
  }

  predicate IsDone(record: bytes) {
    RecordData(record) == DONE
  }

  function PlayFrom<S>(c: Closures<S>, s: bytes, ending: Ending, state: S, p: nat): Play
    requires p <= |s|
    decreases |s| - p
  {
    match Next(s, ending, p)
    case None => if ending.Broken? then Play([], Failed) else Ended(c, s, state, [])
    case Some(e) =>
      match (c.transform)(state, s[p..e])
      case Err => Play([], Failed)
      case Ok((state', out)) =>
        if (c.terminal)(state', out) then
          match Tail(c, s, ending, state', e)
          case Err => Play([], Failed)
          case Ok((last, rest)) => Ended(c, s, last, out + rest)
        else if IsDone(s[p..e]) then
          if ending.Broken? then Play([], Failed) else Ended(c, s, state', out)
        else
          var later := PlayFrom(c, s, ending, state', e);
          Play(out + later.out, later.fate)
  }

  /** The output of the records before the first one that ends the stream. */
  function Quiet<S>(c: Closures<S>, s: bytes, ending: Ending, state: S, p: nat): bytes
    requires p <= |s|
    decreases |s| - p
  {
    match Next(s, ending, p)
    case None => []
    case Some(e) =>
      match (c.transform)(state, s[p..e])
      case Err => []
      case Ok((state', out)) =>
        if (c.terminal)(state', out) || IsDone(s[p..e]) then []
        else out + Quiet(c, s, ending, state', e)
  }

  /** PlayFrom and Quiet, one record at a time. */
  lemma PlayStep<S>(c: Closures<S>, s: bytes, ending: Ending, state: S, p: nat)
    requires p <= |s|
    ensures var play, quiet := PlayFrom(c, s, ending, state, p), Quiet(c, s, ending, state, p);
            match Next(s, ending, p)
            case None =>
              play == (if ending.Broken? then Play([], Failed) else Ended(c, s, state, [])) && quiet == []
            case Some(e) =>
              match (c.transform)(state, s[p..e])
              case Err => play == Play([], Failed) && quiet == []
              case Ok((state', out)) =>
                if (c.terminal)(state', out) then
                  && quiet == []
                  && play == match Tail(c, s, ending, state', e)
                             case Err => Play([], Failed)
                             case Ok((last, rest)) => Ended(c, s, last, out + rest)
                else if IsDone(s[p..e]) then
                  && quiet == []
                  && play == if ending.Broken? then Play([], Failed) else Ended(c, s, state', out)
                else
                  var later := PlayFrom(c, s, ending, state', e);
                  && play == Play(out + later.out, later.fate)
                  && quiet == out + Quiet(c, s, ending, state', e)
  {
  }

  datatype Found = Record(bytes: bytes) | NoRecord(ending: Ending)

  /** bufio.Reader over captureReader over the body: reads ahead by amounts the network decides. */
  class CapturedSource {
    const source: bytes
    const ending: Ending
    var captured: bytes
    var pos: nat

    ghost predicate Valid()
      reads this
    {
      pos <= |captured| && captured <= source
    }

    constructor (source: bytes, ending: Ending)
      ensures Valid() && this.source == source && this.ending == ending && pos == 0
    {
      this.source, this.ending := source, ending;
      captured, pos := [], 0;
    }

    /** One Read of the body; at its end there is nothing more to capture. */
    method Fill()
      requires Valid()
      modifies this`captured
      ensures Valid() && old(captured) <= captured
      ensures |captured| > old(|captured|) || captured == source
    {
      if |captured| < |source| {
        var n :| 1 <= n <= |source| - |captured|;
        captured := captured + source[|captured|..|captured| + n];
      }
    }

    method Peek() returns (b: Option<byte>)
      requires Valid()
      modifies this`captured
      ensures Valid() && old(captured) <= captured
      ensures b == if pos < |source| then Some(source[pos]) else None
      ensures if b.Some? then pos < |captured| else captured == source
    {
      if pos == |captured| {
        Fill();
      }
      b := if pos < |captured| then Some(captured[pos]) else None;
    }

    method ReadByte() returns (b: Option<byte>)
      requires Valid()
      modifies this
      ensures Valid() && old(captured) <= captured
      ensures b == if old(pos) < |source| then Some(source[old(pos)]) else None
      ensures pos == if old(pos) < |source| then old(pos) + 1 else old(pos)
      ensures b.None? ==> captured == source
    {
      b := Peek();
      if b.Some? {
        pos := pos + 1;
      }
    }

    /** The record loop: one byte at a time, one byte of lookahead after a CR. */
    method ReadRecord() returns (found: Found)
      requires Valid()
      modifies this
      ensures Valid()
      ensures match Next(source, ending, old(pos))
              case Some(e) => found == Record(source[old(pos)..e]) && pos == e
              case None => found == NoRecord(ending) && captured == source
    {
      var raw: bytes := [];
      var lineBytes: nat := 0;
      ghost var start := pos;
      while true
        invariant Valid() && start <= pos && raw == source[start..pos] && lineBytes <= |raw|
        invariant RecordEnd(source, start, start) == RecordEnd(source, pos - lineBytes, pos)
        decreases |source| - pos
      {
        ghost var i := pos;
        var b := ReadByte();
        if b.None? {
          assert raw == source[start..|source|];
          if ending.Eof? && |raw| > 0 {
            return Record(raw);
          }
          return NoRecord(ending);
        }
        assert source[start..i + 1] == source[start..i] + [source[i]];
        raw := raw + [b.value];
        if b.value == CR || b.value == LF {
          if b.value == CR {
            var next := Peek();
            if next == Some(LF) {
              assert source[start..i + 2] == source[start..i + 1] + [source[i + 1]];
              var _ := ReadByte();
              raw := raw + [LF];
            }
          }
          assert pos == BreakEnd(source, i);
          if lineBytes == 0 {
            assert RecordEnd(source, start, start) == Some(pos);
            return Record(raw);
          }
          lineBytes := 0;
        } else {
          lineBytes := lineBytes + 1;
        }
      }
    }

    /** io.Copy(io.Discard, reader): true if the source ended without an error. */
    method Drain() returns (clean: bool)
      requires Valid()
      modifies this
      ensures Valid() && captured == source && clean == ending.Eof?
    {
      while |captured| < |source|
        invariant Valid()
        decreases |source| - |captured|
      {
        Fill();
      }
      pos := |captured|;
      clean := ending.Eof?;
    }
  }

  class Reader<S> {
    const closures: Closures<S>
    const reader: CapturedSource
    var state: S
    var pending: bytes
    var ended: bool

    // What the caller has received, whether it was told of an error, the bodies registered so
    // far, and the state the closures started in.
    ghost var delivered: bytes
    ghost var reported: bool
    ghost var finished: seq<bytes>
    ghost const initial: S

    /** Everything this reader will ever hand out, and how it ends. */
    ghost function Promise(): Play {
      PlayFrom(closures, reader.source, reader.ending, initial, 0)
    }

    ghost function Safe(): bytes {
      Quiet(closures, reader.source, reader.ending, initial, 0)
    }

    ghost function Later(): Play
      reads this, reader
      requires reader.pos <= |reader.source|
    {
      PlayFrom(closures, reader.source, reader.ending, state, reader.pos)
    }

    /** Before the end: what was handed out, what is buffered and what is still to come. */
    ghost predicate Running()
      reads this, reader
    {
      && reader.Valid() && reader.pos <= |reader.source|
      && !ended && !reported && finished == []
      && Promise() == Play(delivered + pending + Later().out, Later().fate)
      && Safe() == delivered + pending + Quiet(closures, reader.source, reader.ending, state, reader.pos)
    }

    /** The whole body was received, and registered if there is anything to register it with. */
    ghost predicate Registered()
      reads this, reader
    {
      && reader.captured == reader.source
      && finished == if closures.finish.Some? then [reader.source] else []
    }

    /** After the end: bytes of the last record exist outside only if the body is registered. */
    ghost predicate Over()
      reads this, reader
    {
      && reader.Valid() && ended
      && Promise().out == delivered + pending
      && (finished == [] || finished == [reader.source])
      && (Promise().fate.Finished? ==> Registered())
      && (Promise().fate.Failed? ==> delivered + pending == Safe() && pending == [] && reported)
    }

    ghost predicate Valid()
      reads this, reader
    {
      Running() || Over()
    }

    constructor (closures: Closures<S>, initial: S, source: bytes, ending: Ending)
      ensures Running() && delivered == [] && fresh(reader)
      ensures reader.source == source && reader.ending == ending
      ensures this.closures == closures && this.initial == initial
    {
      this.closures, this.initial, state := closures, initial, initial;
      reader := new CapturedSource(source, ending);
      pending, ended := [], false;
      delivered, reported, finished := [], false, [];
    }

    /** The closures' finish, with the body captured so far. */
    method Finish() returns (ok: bool)
      requires reader.captured == reader.source && finished == []
      modifies this`finished
      ensures ok == Finishes(closures, state, reader.source)
      ensures finished == if closures.finish.Some? then [reader.source] else []
    {
      ok := true;
      if closures.finish.Some? {
        finished := finished + [reader.captured];
        ok := (closures.finish.value)(state, reader.captured);
      }
    }

    /** The rest of the records behind a terminal one. */
    method ReadTail() returns (r: Result<bytes>)
      requires reader.Valid() && reader.pos <= |reader.source|
      modifies this`state, reader
      ensures reader.Valid()
      ensures match old(Tail(closures, reader.source, reader.ending, state, reader.pos))
              case Err => r == Err
              case Ok((last, rest)) => r == Ok(rest) && state == last && reader.captured == reader.source
    {
      var out: bytes := [];
      ghost var promised := Tail(closures, reader.source, reader.ending, state, reader.pos);
      while true
        invariant reader.Valid() && reader.pos <= |reader.source|
        invariant var now := Tail(closures, reader.source, reader.ending, state, reader.pos);
                  match promised
                  case Err => now == Err
                  case Ok((last, rest)) => now.Ok? && now.value.0 == last && out + now.value.1 == rest
        decreases |reader.source| - reader.pos
      {
        var found := reader.ReadRecord();
        if found.NoRecord? {
          assert out + [] == out;
          return if found.ending.Eof? then Ok(out) else Err;
        }
        var moved := (closures.transform)(state, found.bytes);
        if moved.Err? {
          return Err;
        }
        state := moved.value.0;
        ghost var now := Tail(closures, reader.source, reader.ending, state, reader.pos);
        if now.Ok? {
          Assoc(out, moved.value.1, now.value.1);
        }
        out := out + moved.value.1;
      }
    }

    /** One turn of the read loop: the next record becomes the pending bytes, or the stream is over. */
    method Advance() returns (stop: Option<Fate>)
      requires Running() && pending == []
      modifies this, reader
      ensures delivered == old(delivered)
      ensures stop.Some? ==> reported && Over() && Promise() == Play(delivered, stop.value)
      ensures stop.None? ==> !reported && Valid()
      ensures stop.None? && !ended ==> reader.pos > old(reader.pos)
    {
      hide PlayFrom;
      hide Quiet;
      hide Tail;
      hide Next;
      hide IsDone;
      PlayStep(closures, reader.source, reader.ending, state, reader.pos);
      var found := reader.ReadRecord();
      if found.NoRecord? {
        ended, reported := true, true;
        if found.ending.Broken? {
          return Some(Failed);
        }
        var ok := Finish();
        return Some(if ok then Finished else Failed);
      }
      var moved := (closures.transform)(state, found.bytes);
      if moved.Err? {
        ended, reported := true, true;
        return Some(Failed);
      }
      state := moved.value.0;
      var record := moved.value.1;
      if (closures.terminal)(state, record) {
        var tail := ReadTail();
        ended := true;
        if tail.Err? {
          reported := true;
          return Some(Failed);
        }
        record := record + tail.value;
        var ok := Finish();
        if !ok {
          reported := true;
          return Some(Failed);
        }
      } else if IsDone(found.bytes) {
        var clean := reader.Drain();
        var ok := clean;
        if clean {
          ok := Finish();
        }
        ended := true;
        if !ok {
          reported := true;
          return Some(Failed);
        }
      }
      pending := record;
      return None;
    }

    /**
     * Whatever sizes the caller reads with: the bytes handed out are a prefix of the promised
     * output, the first error comes exactly when all of it is out and says how the stream
     * ended, the body is registered at most once and then in full, and no byte beyond the last
     * ordinary record appears before that.
     */
    method Read(size: nat) returns (step: Step)
      requires Valid()
      modifies this, reader
      ensures Valid() && old(finished) <= finished
      ensures |finished| <= 1 && forall body :: body in finished ==> body == reader.source
      ensures step.Bytes? ==> delivered == old(delivered) + step.data && reported == old(reported)
      ensures step.Bytes? ==> |step.data| <= size && (size > 0 ==> step.data != [])
      ensures delivered <= Promise().out
      ensures step.Error? ==> reported && delivered == old(delivered)
      ensures step.Error? && !old(reported) ==> Promise() == Play(delivered, step.fate)
      ensures |delivered| > |Safe()| ==> Registered() && Promise().fate.Finished?
    {
      hide PlayFrom;
      hide Quiet;
      if size == 0 {
        return Bytes([]);
      }
      while |pending| == 0
        invariant Valid() && delivered == old(delivered) && reported == old(reported)
        invariant old(ended) ==> finished == old(finished) && ended
        decreases !ended, |reader.source| - reader.pos
      {
        if ended {
          reported := true;
          return Error(Finished);
        }
        var stop := Advance();
        if stop.Some? {
          return Error(stop.value);
        }
      }
      var data := Copy(size);
      step := Bytes(data);
    }

    /** copy(p, pending) */
    method Copy(size: nat) returns (data: bytes)
      requires Valid() && pending != [] && size > 0
      modifies this`pending, this`delivered
      ensures Valid() && data != [] && |data| <= size && data + pending == old(pending)
      ensures delivered == old(delivered) + data
    {
      hide PlayFrom;
      hide Quiet;
      var n := if |pending| < size then |pending| else size;
      data := pending[..n];
      assert delivered + pending == (delivered + pending[..n]) + pending[n..];
      delivered := delivered + pending[..n];
      pending := pending[n..];
    }
  }

  /**
   * A caller that reads with any sequence of buffer sizes. If it gets to an error, it has the
   * whole promised output and the promised outcome; the sizes make no difference. If it has more
   * than the ordinary records before the end, the stream ended well.
   */
  method ReadWith<S>(closures: Closures<S>, initial: S, source: bytes, ending: Ending, sizes: seq<nat>)
    returns (out: bytes, fate: Option<Fate>)
    ensures fate.Some? ==> Play(out, fate.value) == PlayFrom(closures, source, ending, initial, 0)
    ensures out <= PlayFrom(closures, source, ending, initial, 0).out
    ensures |out| > |Quiet(closures, source, ending, initial, 0)| ==>
              PlayFrom(closures, source, ending, initial, 0).fate.Finished?
  {
    hide PlayFrom;
    hide Quiet;
    var r := new Reader(closures, initial, source, ending);
    out := [];
    var k := 0;
    while k < |sizes|
      invariant k <= |sizes| && fresh(r) && fresh(r.reader)
      invariant r.closures == closures && r.initial == initial
      invariant r.reader.source == source && r.reader.ending == ending
      invariant r.Valid() && !r.reported && r.delivered == out
      invariant out <= PlayFrom(closures, source, ending, initial, 0).out
      invariant |out| > |Quiet(closures, source, ending, initial, 0)| ==>
                  PlayFrom(closures, source, ending, initial, 0).fate.Finished?
    {
      var step := r.Read(sizes[k]);
      match step {
        case Bytes(data) => out := out + data;
        case Error(f) => return out, Some(f);
      }
      k := k + 1;
    }
    fate := None;
  }
}
