/**
 * The streaming body reader of go/ohttp.go (bhttpBody). How many bytes a Read returns is up to
 * the caller's buffer and to what happens to be buffered below; this module says when that
 * matters to the outcome (almost never) and when it does.
 */
module BhttpBody {
  import opened Bytes
  import opened Streams
  import opened Varint
  import opened Wrappers
  import opened BhttpRequest
  import opened BhttpFields
  import opened BhttpResponse

  /** A buffer size that asks for something. */
  type pos = n: nat | n > 0 witness 1

  /** The fields of bhttpBody, and the decrypted stream it reads; `expected` is the Content-Length. */
  datatype Body = Body(data: bytes, ending: Ending, known: bool, pos: nat, remaining: nat,
                       received: nat, expected: Option<nat>, done: bool)
  {
    predicate Valid() {
      pos <= |data|
    }

    /** Between reads: inside a chunk, or (only in the indeterminate framing) between chunks. */
    predicate Open() {
      && Valid() && !done && (known ==> remaining > 0)
      && (expected.Some? ==> received < expected.value)
    }
  }

  /** finish: trailers, then nothing but zeros to a clean end. */
  predicate EndsAt(check: Check, data: bytes, ending: Ending, p: nat, known: bool)
    requires p <= |data|
  {
    match FieldsAt(check, data, ending, p, known)
    case Err => false
    case Ok((_, q)) => ending.Eof? && AllZero(data[q..])
  }

  predicate Agrees(expected: Option<nat>, received: nat) {
    expected.Some? ==> received == expected.value
  }

  predicate Exceeds(expected: Option<nat>, received: nat) {
    expected.Some? && received > expected.value
  }

  /** Behind the last content of an indeterminate body there must be an empty chunk. */
  function Terminator(c: Body): (r: Result<(nat, nat)>)
    requires c.Valid()
    ensures r.Ok? ==> r.value.1 <= |c.data|
  {
    if c.known then Ok((0, c.pos)) else ReadAt(c.data, c.ending, c.pos, false)
  }

  predicate Concludes(check: Check, c: Body)
    requires c.Valid()
  {
    match Terminator(c)
    case Err => false
    case Ok((size, q)) =>
      size == 0 && Agrees(c.expected, c.received) && EndsAt(check, c.data, c.ending, q, c.known)
  }

  /** After `n` bytes of the current chunk were read: go on, or finish now. */
  function After(check: Check, b: Body, n: nat): (r: (Body, Step))
    requires b.Valid() && 1 <= n <= b.remaining && b.pos + n <= |b.data|
    ensures r.0.Valid()
  {
    var data := b.data[b.pos..b.pos + n];
    var c := b.(pos := b.pos + n, remaining := b.remaining - n, received := b.received + n);
    if Exceeds(c.expected, c.received) then (c, Error(Failed))
    else if (c.known && c.remaining == 0) || (c.expected.Some? && c.received == c.expected.value) then
      if (!c.known && c.remaining != 0) || !Concludes(check, c) then (c, Error(Failed))
      else (c.(pos := |c.data|, done := true), Step.Bytes(data))
    else (c, Step.Bytes(data))
  }

  /** One Read that can return up to `want` bytes, with at least one of them available if any is. */
  function Take(check: Check, b: Body, want: pos): (r: (Body, Step))
    requires b.Valid()
    ensures r.0.Valid()
  {
    if b.done then (b, Error(Finished))
    else if b.remaining == 0 then
      if b.known then Finish(check, b, b.pos)
      else match ReadAt(b.data, b.ending, b.pos, false)
        case Err => (b, Error(Failed))
        case Ok((size, q)) =>
          if size == 0 then Finish(check, b, q)
          else if size > LIMIT_MESSAGE then (b, Error(Failed))
          else Copy(check, b.(pos := q, remaining := size), want)
    else Copy(check, b, want)
  }

  function Finish(check: Check, b: Body, p: nat): (r: (Body, Step))
    requires b.Valid() && p <= |b.data|
    ensures r.0.Valid()
  {
    if Agrees(b.expected, b.received) && EndsAt(check, b.data, b.ending, p, b.known) then
      (b.(pos := |b.data|, done := true), Error(Finished))
    else (b.(done := true), Error(Failed))
  }

  function Min(a: nat, b: nat): nat {
    if a < b then a else b
  }

  function Copy(check: Check, b: Body, want: pos): (r: (Body, Step))
    requires b.Valid() && b.remaining > 0
    ensures r.0.Valid()
  {
    if b.pos == |b.data| then (b, Error(Failed))
    else After(check, b, Min(Min(want, b.remaining), |b.data| - b.pos))
  }

  /** A caller's reads up to the first error: what it received, and that error. */
  function Run(check: Check, b: Body, wants: seq<pos>): (bytes, Option<Fate>)
    requires b.Valid()
    decreases |wants|
  {
    if wants == [] then ([], None)
    else
      var (c, step) := Take(check, b, wants[0]);
      match step
      case Error(fate) => ([], Some(fate))
      case Bytes(data) =>
        var (rest, fate) := Run(check, c, wants[1..]);
        (data + rest, fate)
  }

  // ----- The reference: what the body is, without any reads -----

  /** The content from here on, chunk by chunk, and whether it ends as it should. */
  function BodyFrom(check: Check, b: Body): Play
    requires b.Valid()
    decreases |b.data| - b.pos, if b.remaining == 0 then 1 else 0
  {
    if b.remaining > 0 then
      if b.pos + b.remaining > |b.data| then Play(b.data[b.pos..], Failed)
      else
        var chunk := b.data[b.pos..b.pos + b.remaining];
        var c := b.(pos := b.pos + b.remaining, remaining := 0, received := b.received + b.remaining);
        if Exceeds(c.expected, c.received) then Play(chunk, Failed)
        else if c.known then Play(chunk, EndFate(check, c, c.pos))
        else
          var rest := BodyFrom(check, c);
          Play(chunk + rest.out, rest.fate)
    else if b.known then Play([], EndFate(check, b, b.pos))
    else match ReadAt(b.data, b.ending, b.pos, false)
      case Err => Play([], Failed)
      case Ok((size, q)) =>
        if size == 0 then Play([], EndFate(check, b, q))
        else if size > LIMIT_MESSAGE then Play([], Failed)
        else BodyFrom(check, b.(pos := q, remaining := size))
  }

  function EndFate(check: Check, b: Body, p: nat): Fate
    requires p <= |b.data|
  {
    if Agrees(b.expected, b.received) && EndsAt(check, b.data, b.ending, p, b.known) then Finished else Failed
  }

  /** A content of known length that is longer than the Content-Length. */
  predicate Excess(b: Body) {
    b.known && b.expected.Some? && b.received + b.remaining > b.expected.value
  }

  /** What is left of a play once some of its bytes are out. */
  ghost predicate Continues(whole: Play, data: bytes, rest: Play) {
    whole == Play(data + rest.out, rest.fate)
  }

  /** A step leaves the promise intact: it hands out the next bytes, or the promised end. */
  ghost predicate Keeps(check: Check, b: Body, c: Body, step: Step)
    requires b.Valid()
  {
    var whole := BodyFrom(check, b);
    match step
    case Error(fate) => fate == whole.fate && (fate.Finished? ==> whole.out == [])
    case Bytes(data) =>
      && data != [] && c.Valid()
      && if c.done then whole == Play(data, Finished)
         else c.Open() && !Excess(c) && Continues(whole, data, BodyFrom(check, c))
  }

  /** A chunk of which all bytes are there. */
  lemma ChunkOfBody(check: Check, b: Body)
    requires b.Valid() && b.remaining > 0 && b.pos + b.remaining <= |b.data|
    ensures var chunk := b.data[b.pos..b.pos + b.remaining];
            var c := b.(pos := b.pos + b.remaining, remaining := 0, received := b.received + b.remaining);
            BodyFrom(check, b) ==
            if Exceeds(c.expected, c.received) then Play(chunk, Failed)
            else Play(chunk + BodyFrom(check, c).out, BodyFrom(check, c).fate)
  {
    hide ReadAt;
    hide EndFate;
    var chunk := b.data[b.pos..b.pos + b.remaining];
    assert chunk + [] == chunk;
  }

  lemma TruncatedChunk(check: Check, b: Body)
    requires b.Valid() && b.pos + b.remaining > |b.data|
    ensures BodyFrom(check, b) == Play(b.data[b.pos..], Failed)
  {
  }

  /** Reading part of a chunk. */
  lemma MidChunk(check: Check, b: Body, n: nat)
    requires b.Valid() && 1 <= n < b.remaining && b.pos + n <= |b.data|
    ensures var c := b.(pos := b.pos + n, remaining := b.remaining - n, received := b.received + n);
            Continues(BodyFrom(check, b), b.data[b.pos..b.pos + n], BodyFrom(check, c))
  {
    hide BodyFrom;
    var c := b.(pos := b.pos + n, remaining := b.remaining - n, received := b.received + n);
    var data, end := b.data[b.pos..b.pos + n], b.pos + b.remaining;
    if end > |b.data| {
      TruncatedChunk(check, b);
      TruncatedChunk(check, c);
      assert b.data[b.pos..] == data + b.data[c.pos..];
    } else {
      ChunkOfBody(check, b);
      ChunkOfBody(check, c);
      var d := b.(pos := end, remaining := 0, received := b.received + b.remaining);
      assert c.(pos := end, remaining := 0, received := c.received + c.remaining) == d;
      SliceSplit(b.data, b.pos, c.pos, end);
      Assoc(data, b.data[c.pos..end], BodyFrom(check, d).out);
    }
  }

  /** Once the declared length is reached, only an empty chunk can follow. */
  lemma Overrun(check: Check, c: Body)
    requires c.Valid() && !c.known && c.remaining == 0
    requires c.expected.Some? && c.received == c.expected.value
    requires ReadAt(c.data, c.ending, c.pos, false).Ok?
    requires ReadAt(c.data, c.ending, c.pos, false).value.0 != 0
    ensures BodyFrom(check, c).fate.Failed?
  {
    var (size, q) := ReadAt(c.data, c.ending, c.pos, false).value;
    if size <= LIMIT_MESSAGE {
      var d := c.(pos := q, remaining := size);
      assert BodyFrom(check, d).fate.Failed?;
    }
  }

  /** A chunk that reaches past the declared length dooms the body. */
  lemma DoomedChunk(check: Check, b: Body)
    requires b.Valid() && b.remaining > 0 && Exceeds(b.expected, b.received + b.remaining)
    ensures BodyFrom(check, b).fate.Failed?
  {
  }

  lemma PartChunk(check: Check, b: Body, n: nat)
    requires b.Open() && !Excess(b) && 1 <= n < b.remaining && b.pos + n <= |b.data|
    ensures var (c, step) := After(check, b, n); Keeps(check, b, c, step)
  {
    hide BodyFrom;
    hide EndsAt;
    hide Terminator;
    hide Continues;
    MidChunk(check, b, n);
    if b.expected.Some? && b.received + n >= b.expected.value {
      DoomedChunk(check, b);
    }
  }

  lemma AfterKeeps(check: Check, b: Body, n: nat)
    requires b.Open() && !Excess(b) && 1 <= n <= b.remaining && b.pos + n <= |b.data|
    ensures var (c, step) := After(check, b, n); Keeps(check, b, c, step)
  {
    if n < b.remaining {
      PartChunk(check, b, n);
    } else {
      WholeChunk(check, b);
    }
  }

  lemma WholeChunk(check: Check, b: Body)
    requires b.Open() && !Excess(b) && b.remaining > 0 && b.pos + b.remaining <= |b.data|
    ensures var (c, step) := After(check, b, b.remaining); Keeps(check, b, c, step)
  {
    hide EndsAt;
    hide ReadAt;
    if !b.known && Agrees(b.expected, b.received + b.remaining) {
      LastChunk(check, b);
    }
  }

  lemma LastChunk(check: Check, b: Body)
    requires b.Open() && !b.known && b.remaining > 0 && b.pos + b.remaining <= |b.data|
    requires Agrees(b.expected, b.received + b.remaining)
    ensures var (c, step) := After(check, b, b.remaining); Keeps(check, b, c, step)
  {
    hide EndsAt;
    hide ReadAt;
    var c := b.(pos := b.pos + b.remaining, remaining := 0, received := b.received + b.remaining);
    var chunk := b.data[b.pos..c.pos];
    assert Continues(BodyFrom(check, b), chunk, BodyFrom(check, c));
    var t := ReadAt(c.data, c.ending, c.pos, false);
    if c.expected.Some? && t.Ok? {
      if t.value.0 != 0 {
        Overrun(check, c);
      } else {
        assert BodyFrom(check, c) == Play([], EndFate(check, c, t.value.1));
        assert chunk + [] == chunk;
      }
    }
  }

  /** Every read keeps the promise, whatever its size. */
  lemma TakeKeeps(check: Check, b: Body, want: pos)
    requires b.Open() && !Excess(b)
    ensures var (c, step) := Take(check, b, want); Keeps(check, b, c, step)
  {
    hide After;
    if b.remaining > 0 {
      CopyKeeps(check, b, want);
    } else {
      match ReadAt(b.data, b.ending, b.pos, false)
      case Err =>
      case Ok((size, q)) =>
        if 0 < size <= LIMIT_MESSAGE {
          CopyKeeps(check, b.(pos := q, remaining := size), want);
        }
    }
  }

  lemma CopyKeeps(check: Check, b: Body, want: pos)
    requires b.Open() && !Excess(b) && b.remaining > 0
    ensures var (c, step) := Copy(check, b, want); Keeps(check, b, c, step)
  {
    hide After;
    if b.pos < |b.data| {
      AfterKeeps(check, b, Min(Min(want, b.remaining), |b.data| - b.pos));
    }
  }

  /**
   * However a caller reads: what it receives is a prefix of the body, and its first error is
   * the body's own fate; if that is end of file it has received the whole body.
   */
  lemma {:induction false} EveryScheduleAgrees(check: Check, b: Body, wants: seq<pos>)
    requires b.Open() && !Excess(b)
    ensures var (out, fate) := Run(check, b, wants);
            var whole := BodyFrom(check, b);
            && out <= whole.out
            && (fate.Some? ==> fate.value == whole.fate && (whole.fate.Finished? ==> out == whole.out))
            && (fate.None? ==> |wants| <= |out|)
    decreases |wants|
  {
    if wants != [] {
      hide BodyFrom;
      hide Take;
      TakeKeeps(check, b, wants[0]);
      var (c, step) := Take(check, b, wants[0]);
      if step.Bytes? {
        if c.done {
          RunDone(check, c, wants[1..]);
        } else {
          EveryScheduleAgrees(check, c, wants[1..]);
          PrefixOfRest(step.data, Run(check, c, wants[1..]).0, BodyFrom(check, c).out);
        }
      }
    }
  }

  // ----- What a good end means, under any schedule -----

  /**
   * A body of this many bytes may end here: the stream has ended cleanly, no Content-Length says
   * another number, and acceptable trailers and zeros are all that follows the content.
   */
  ghost predicate MayEnd(check: Check, b: Body, received: nat) {
    && b.ending == Eof
    && (b.expected.Some? ==> b.expected.value == received)
    && exists e :: 0 <= e <= |b.data| && ZerosFrom(check, b.data, e)
  }

  lemma EndIsWhole(check: Check, b: Body, p: nat, known: bool)
    requires p <= |b.data| && EndsAt(check, b.data, b.ending, p, known) && Agrees(b.expected, b.received)
    ensures MayEnd(check, b, b.received)
  {
    hide FieldsAt;
    var e := FieldsAt(check, b.data, b.ending, p, known).value.1;
    assert TrailersBefore(check, b.data, p, known, e);
    assert forall k :: e <= k < |b.data| ==> b.data[k] == b.data[e..][k - e];
    assert ZerosFrom(check, b.data, e);
  }

  lemma TakeIsWhole(check: Check, b: Body, want: pos)
    requires b.Valid() && !b.done
    ensures var (c, step) := Take(check, b, want);
            && c.data == b.data && c.ending == b.ending && c.expected == b.expected
            && match step
               case Bytes(data) =>
                 && c.received == b.received + |data|
                 && (c.expected.Some? ==> c.received <= c.expected.value)
                 && (c.done ==> MayEnd(check, c, c.received))
               case Error(fate) => fate.Finished? ==> MayEnd(check, b, b.received)
  {
    hide MayEnd, EndsAt, ReadAt;
    if b.remaining == 0 && b.known {
      FinishIsWhole(check, b, b.pos);
    } else if b.remaining == 0 {
      match ReadAt(b.data, b.ending, b.pos, false)
      case Err =>
      case Ok((size, q)) =>
        FinishIsWhole(check, b, q);
        if 0 < size <= LIMIT_MESSAGE {
          CopyIsWhole(check, b.(pos := q, remaining := size), want);
        }
    } else {
      CopyIsWhole(check, b, want);
    }
  }

  lemma FinishIsWhole(check: Check, b: Body, p: nat)
    requires b.Valid() && p <= |b.data|
    ensures var (c, step) := Finish(check, b, p);
            c.data == b.data && c.ending == b.ending && c.expected == b.expected
            && (step == Error(Finished) ==> MayEnd(check, b, b.received))
  {
    hide MayEnd, EndsAt;
    if EndsAt(check, b.data, b.ending, p, b.known) && Agrees(b.expected, b.received) {
      EndIsWhole(check, b, p, b.known);
    }
  }

  lemma CopyIsWhole(check: Check, b: Body, want: pos)
    requires b.Valid() && b.remaining > 0 && !b.done
    ensures var (c, step) := Copy(check, b, want);
            && c.data == b.data && c.ending == b.ending && c.expected == b.expected && step != Error(Finished)
            && (step.Bytes? ==>
                  && c.received == b.received + |step.data|
                  && (c.expected.Some? ==> c.received <= c.expected.value)
                  && (c.done ==> MayEnd(check, c, c.received)))
  {
    hide MayEnd, EndsAt, Terminator;
    if b.pos < |b.data| {
      var n := Min(Min(want, b.remaining), |b.data| - b.pos);
      var c := b.(pos := b.pos + n, remaining := b.remaining - n, received := b.received + n);
      if Concludes(check, c) {
        EndIsWhole(check, c, Terminator(c).value.1, c.known);
        assert MayEnd(check, c.(pos := |c.data|, done := true), c.received) by {
          SameEnd(check, c, c.(pos := |c.data|, done := true), c.received);
        }
      }
    }
  }

  lemma SameEnd(check: Check, b: Body, c: Body, received: nat)
    requires b.data == c.data && b.ending == c.ending && b.expected == c.expected
    ensures MayEnd(check, b, received) == MayEnd(check, c, received)
  {
  }

  /**
   * Whatever sizes a caller reads with, and whatever the Content-Length says: it never receives
   * more bytes than were declared; and if it is told of the end of the body, it has received as
   * many, the stream ended cleanly, and only acceptable trailers and zeros followed.
   */
  lemma {:induction false} EndedIsWhole(check: Check, b: Body, wants: seq<pos>)
    requires b.Valid() && (b.done ==> MayEnd(check, b, b.received))
    ensures var (out, fate) := Run(check, b, wants);
            && (fate == Some(Finished) ==> MayEnd(check, b, b.received + |out|))
            && (b.expected.Some? && b.received <= b.expected.value ==> b.received + |out| <= b.expected.value)
    decreases |wants|
  {
    hide MayEnd, Take;
    if wants != [] {
      if b.done {
        assert Take(check, b, wants[0]) == (b, Error(Finished)) by {
          DoneIsDone(check, b, wants[0]);
        }
      } else {
        TakeIsWhole(check, b, wants[0]);
        var (c, step) := Take(check, b, wants[0]);
        if step.Bytes? {
          EndedIsWhole(check, c, wants[1..]);
          var (rest, fate) := Run(check, c, wants[1..]);
          SameEnd(check, b, c, c.received + |rest|);
        }
      }
    }
  }

  lemma DoneIsDone(check: Check, b: Body, want: pos)
    requires b.Valid() && b.done
    ensures Take(check, b, want) == (b, Error(Finished))
  {
  }

  lemma PrefixOfRest(data: bytes, out: bytes, rest: bytes)
    requires out <= rest
    ensures data + out <= data + rest
    ensures out == rest ==> data + out == data + rest
  {
  }

  lemma RunDone(check: Check, c: Body, wants: seq<pos>)
    requires c.Valid() && c.done
    ensures Run(check, c, wants) == ([], if wants == [] then None else Some(Finished))
  {
  }

  // ----- When the buffer sizes do matter -----

  /** No two schedules that reach an error reach different ones. */
  ghost predicate ScheduleFree(check: Check, b: Body)
    requires b.Valid()
  {
    forall u: seq<pos>, v: seq<pos> ::
      Run(check, b, u).1.Some? && Run(check, b, v).1.Some? ==> Run(check, b, u).1 == Run(check, b, v).1
  }

  /** Where the declared length ends inside a longer content. */
  function CutAt(b: Body): int
    requires b.expected.Some?
  {
    b.pos + (b.expected.value - b.received)
  }

  /**
   * The declared length ends inside the content, more bytes follow, and these read as trailers
   * and padding: whoever stops exactly there is told that the body is complete.
   */
  predicate FalseEnd(check: Check, b: Body)
    requires b.Open()
  {
    && Excess(b) && CutAt(b) < |b.data|
    && EndsAt(check, b.data, b.ending, CutAt(b), true)
  }

  lemma TakeToCut(check: Check, b: Body)
    requires b.Open() && Excess(b) && CutAt(b) <= |b.data|
    ensures var want: pos := b.expected.value - b.received;
            var (c, step) := Take(check, b, want);
            if EndsAt(check, b.data, b.ending, CutAt(b), true) then step.Bytes? && c.done
            else step == Error(Failed)
  {
    hide EndsAt;
    var want: pos := b.expected.value - b.received;
    assert Min(Min(want, b.remaining), |b.data| - b.pos) == want;
  }

  /** Reading exactly up to the declared length, and once more. */
  lemma StopAtCut(check: Check, b: Body)
    requires b.Open() && Excess(b) && CutAt(b) <= |b.data|
    ensures var want: pos := b.expected.value - b.received;
            Run(check, b, [want, 1]).1 == Some(if EndsAt(check, b.data, b.ending, CutAt(b), true) then Finished else Failed)
  {
    hide EndsAt;
    hide Take;
    TakeToCut(check, b);
    var want: pos := b.expected.value - b.received;
    var wants: seq<pos> := [want, 1];
    var (c, step) := Take(check, b, want);
    assert wants[1..] == [1];
    if step.Bytes? {
      RunDone(check, c, wants[1..]);
    }
  }

  /** Reading past it in one go. */
  lemma ReadPastCut(check: Check, b: Body)
    requires b.Open() && Excess(b) && CutAt(b) < |b.data|
    ensures var want: pos := b.expected.value - b.received + 1;
            Run(check, b, [want]).1 == Some(Failed)
  {
    hide EndsAt;
    var want: pos := b.expected.value - b.received + 1;
    assert Min(Min(want, b.remaining), |b.data| - b.pos) == want;
  }

  /** Short of a false end, an over-long body ends the same way for everyone. */
  lemma {:induction false} ExcessFate(check: Check, b: Body, wants: seq<pos>)
    requires b.Open() && Excess(b) && Run(check, b, wants).1.Some?
    requires !FalseEnd(check, b)
    ensures Run(check, b, wants).1 ==
            Some(if CutAt(b) == |b.data| && EndsAt(check, b.data, b.ending, CutAt(b), true) then Finished else Failed)
    decreases |wants|
  {
    hide EndsAt;
    var (c, step) := Take(check, b, wants[0]);
    if step.Bytes? {
      if c.done {
        RunDone(check, c, wants[1..]);
      } else {
        ExcessFate(check, c, wants[1..]);
      }
    }
  }

  /**
   * The outcome of a body does not depend on buffer sizes, if and only if it has no false end.
   * In particular a Content-Length that is absent or not exceeded by the content is safe.
   */
  lemma ScheduleFreeExactly(check: Check, b: Body)
    requires b.Open()
    ensures ScheduleFree(check, b) <==> !FalseEnd(check, b)
  {
    hide Run;
    if FalseEnd(check, b) {
      StopAtCut(check, b);
      ReadPastCut(check, b);
      var u: pos, v: pos := b.expected.value - b.received, b.expected.value - b.received + 1;
      var us: seq<pos>, vs: seq<pos> := [u, 1], [v];
      assert Run(check, b, us).1 != Run(check, b, vs).1;
    } else {
      forall u: seq<pos>, v: seq<pos> | Run(check, b, u).1.Some? && Run(check, b, v).1.Some?
        ensures Run(check, b, u).1 == Run(check, b, v).1
      {
        if Excess(b) {
          ExcessFate(check, b, u);
          ExcessFate(check, b, v);
        } else {
          EveryScheduleAgrees(check, b, u);
          EveryScheduleAgrees(check, b, v);
        }
      }
    }
  }

  // ----- The reader itself -----

  class BodyReader {
    const reader: Stream
    const check: Check
    const known: bool
    const expected: Option<nat>
    var first: bool
    var done: bool
    var remaining: nat
    var received: nat

    ghost predicate Valid()
      reads this, reader
    {
      reader.Valid() && RefusesEmptyName(check) && !first
    }

    ghost function State(): Body
      reads this, reader
    {
      Body(reader.data, reader.ending, known, reader.pos, remaining, received, expected, done)
    }

    constructor (reader: Stream, check: Check, known: bool, remaining: nat, expected: Option<nat>)
      requires reader.Valid() && RefusesEmptyName(check)
      ensures Valid() && this.reader == reader && this.check == check && this.known == known
      ensures this.expected == expected && this.remaining == remaining && received == 0 && !done
    {
      this.reader, this.check, this.known, this.expected := reader, check, known, expected;
      first, done := false, false;
      this.remaining, received := remaining, 0;
    }

    /** finish: true if the body ends as it should. */
    method Finish() returns (ok: bool)
      requires Valid()
      modifies this`done, reader
      ensures Valid() && done
      ensures ok <==> Agrees(expected, received)
                      && EndsAt(check, reader.data, reader.ending, old(reader.pos), known)
      ensures ok ==> reader.pos == |reader.data|
    {
      hide FieldsAt;
      done := true;
      if expected.Some? && received != expected.value {
        return false;
      }
      var trailers := FieldsGo(check, reader, known);
      if trailers.Err? {
        return false;
      }
      ghost var q := reader.pos;
      while true
        invariant Valid() && done && q <= reader.pos
        invariant forall k :: q <= k < reader.pos ==> reader.data[k] == 0
        decreases |reader.data| - reader.pos
      {
        ghost var at := reader.pos;
        var b := reader.ReadByte();
        if b.None? {
          assert forall k :: 0 <= k < |reader.data[q..]| ==> reader.data[q..][k] == reader.data[q + k];
          return reader.ending.Eof?;
        }
        if b.value != 0 {
          assert reader.data[q..][at - q] != 0;
          return false;
        }
      }
    }

    /**
     * One Read. What lies in the buffer below decides how much of the request is served; `want`
     * tells how much that was, and the outcome is that of a read of this size.
     */
    method Read(size: nat) returns (step: Step, ghost want: pos)
      requires Valid() && (remaining == 0 ==> !known || done)
      modifies this, reader
      ensures Valid()
      ensures size == 0 ==> step == Step.Bytes([]) && State() == old(State())
      ensures size > 0 ==> want <= size
      ensures size > 0 ==> step == Take(check, old(State()), want).1
      ensures size > 0 && step.Bytes? ==> State() == Take(check, old(State()), want).0
    {
      hide EndsAt;
      hide ReadAt;
      want := 1;
      if size == 0 {
        return Step.Bytes([]), 1;
      }
      if done {
        return Error(Finished), 1;
      }
      if remaining == 0 {
        var length := reader.ReadVarint(first);
        if length.Err? {
          return Error(Failed), 1;
        }
        if length.value == 0 {
          var ok := Finish();
          return Error(if ok then Finished else Failed), 1;
        }
        if length.value > LIMIT_MESSAGE {
          return Error(Failed), 1;
        }
        remaining := length.value;
      }
      step, want := Serve(size);
    }

    method Serve(size: nat) returns (step: Step, ghost want: pos)
      requires Valid() && !done && remaining > 0 && size > 0
      modifies this, reader
      ensures Valid() && want <= size
      ensures step == Copy(check, old(State()), want).1
      ensures step.Bytes? ==> State() == Copy(check, old(State()), want).0
    {
      hide Concludes, Copy;
      want := 1;
      ghost var before := State();
      var most := Min(Min(size, remaining), |reader.data| - reader.pos);
      CopyTakes(check, before);
      if most == 0 {
        return Error(Failed), 1;
      }
      var n :| 1 <= n <= most;
      want := n;
      var data := reader.ReadFull(n);
      remaining := remaining - n;
      received := received + n;
      if expected.Some? && received > expected.value {
        return Error(Failed), want;
      }
      if (known && remaining == 0) || (expected.Some? && received == expected.value) {
        if !known && remaining != 0 {
          return Error(Failed), want;
        }
        var ok := Conclude();
        if !ok {
          return Error(Failed), want;
        }
      }
      step := Step.Bytes(data.value);
    }

    /** Behind the last content: the empty chunk of the indeterminate framing, then the end. */
    method Conclude() returns (ok: bool)
      requires Valid() && !done
      modifies this`done, reader
      ensures Valid()
      ensures ok <==> Concludes(check, old(State()))
      ensures ok ==> State() == old(State()).(pos := |reader.data|, done := true)
    {
      hide EndsAt;
      hide ReadAt;
      if !known {
        var length := reader.ReadVarint(false);
        if length.Err? || length.value != 0 {
          return false;
        }
      }
      ok := Finish();
    }
  }

  lemma CopyTakes(check: Check, b: Body)
    requires b.Valid() && b.remaining > 0
    ensures var most := Min(b.remaining, |b.data| - b.pos);
            if most == 0 then Copy(check, b, 1) == (b, Error(Failed))
            else forall n: pos :: n <= most ==> Copy(check, b, n) == After(check, b, n)
  {
    hide After;
  }

  // ----- From the head of the response to the body -----

  /** What RoundTrip does behind the headers: the first length, and an empty body at once. */
  function Start(check: Check, data: bytes, ending: Ending, p: nat, known: bool, expected: Option<nat>): Result<Body>
    requires p <= |data|
  {
    match ReadAt(data, ending, p, true)
    case Err => Err
    case Ok((size, q)) =>
      var b := Body(data, ending, known, q, size, 0, expected, false);
      if size > LIMIT_MESSAGE || (expected == Some(0) && size != 0) then Err
      else if size == 0 then
        if Agrees(expected, 0) && EndsAt(check, data, ending, q, known) then Ok(b.(pos := |data|, done := true))
        else Err
      else Ok(b)
  }

  /** A body that was started may end with nothing read, or has all of its reads to come. */
  lemma StartedIsWhole(check: Check, data: bytes, ending: Ending, p: nat, known: bool, expected: Option<nat>)
    requires p <= |data| && Start(check, data, ending, p, known, expected).Ok?
    ensures var b := Start(check, data, ending, p, known, expected).value;
            && b.Valid() && b.received == 0 && b.expected == expected && b.data == data && b.ending == ending
            && b.remaining <= 0x4000_0000
            && (b.done ==> MayEnd(check, b, 0))
  {
    hide MayEnd, EndsAt;
    var (size, q) := ReadAt(data, ending, p, true).value;
    var b := Body(data, ending, known, q, size, 0, expected, false);
    if size == 0 {
      EndIsWhole(check, b, q, known);
      SameEnd(check, b, b.(pos := |data|, done := true), 0);
    }
  }

  /** A chunk of more than 2^30 bytes is refused before any of it is read. */
  lemma BigChunkRefused(check: Check, b: Body, wants: seq<pos>)
    requires b.Valid() && !b.done && !b.known && b.remaining == 0 && wants != []
    requires ReadAt(b.data, b.ending, b.pos, false).Ok? && ReadAt(b.data, b.ending, b.pos, false).value.0 > 0x4000_0000
    ensures Run(check, b, wants) == ([], Some(Failed)) && BodyFrom(check, b) == Play([], Failed)
  {
  }

  /** Such a body there is: two bytes of content, the second a zero, under a Content-Length of one. */
  lemma FalseEndExists(check: Check)
    ensures var b := Start(check, [2, 65, 0], Eof, 0, true, Some(1));
            && b.Ok? && b.value.Open() && FalseEnd(check, b.value)
            && Run(check, b.value, [1, 1]).1 == Some(Finished)
            && Run(check, b.value, [2]).1 == Some(Failed)
  {
    hide EndsAt, Run, Take, ReadAt;
    var s: bytes := [2, 65, 0];
    assert s[0..] == Encode(2) + [65, 0];
    IntegerHere(s, 0, 2, [65, 0], true);
    var b := Body(s, Eof, true, 1, 2, 0, Some(1), false);
    EmptySectionEnds(check, s, 2);
    StopAtCut(check, b);
    ReadPastCut(check, b);
  }

  lemma EmptySectionEnds(check: Check, s: bytes, p: nat)
    requires p <= |s| && s[p..] == [0]
    ensures EndsAt(check, s, Eof, p, true)
  {
    hide FieldsAt;
    assert EncodeFields([], true) + [] == [0];
    FieldsHere(check, s, p, [], [], true);
    assert s[p + 1..] == [];
  }

  /** Every encoded response whose declared length, if any, is right is read back whole. */
  lemma MessageIsDelivered(rules: Rules, s: bytes, p: nat, m: Message, known: bool, expected: Option<nat>)
    requires p <= |s| && s[p..] == EncodeRest(m, known) && WellFormedMessage(rules, m)
    requires expected.Some? ==> expected.value == |Flatten(m.chunks)|
    ensures var b := Start(rules.check, s, Eof, p, known, expected);
            && b.Ok?
            && if m.chunks == [] then b.value.done
               else b.value.Open() && !Excess(b.value)
                    && BodyFrom(rules.check, b.value) == Play(Flatten(m.chunks), Finished)
  {
    hide EncodeEnd;
    hide EndsAt;
    hide WellFormedMessage;
    hide Start, BodyFrom, EncodeRest;
    ChunksOfMessage(rules, m);
    RestHere(m, known);
    if m.cut >= 2 {
      NoBodyIsDone(rules, s, p, m, known, expected);
    } else if known {
      KnownIsDelivered(rules, s, p, m, expected);
    } else {
      StartChunks(rules, s, p, m, expected);
      StartFraming(rules.check, s, p, known, expected);
    }
  }

  lemma StartFraming(check: Check, s: bytes, p: nat, known: bool, expected: Option<nat>)
    requires p <= |s| && Start(check, s, Eof, p, known, expected).Ok?
    ensures Start(check, s, Eof, p, known, expected).value.known == known
  {
    hide EndsAt, ReadAt;
  }

  lemma RestHere(m: Message, known: bool)
    ensures m.cut >= 2 ==> EncodeRest(m, known) == []
    ensures m.cut < 2 && known ==> EncodeRest(m, known) == Vector(Flatten(m.chunks)) + EncodeEnd(m, known)
    ensures m.cut < 2 && !known ==> EncodeRest(m, known) == Vectors(m.chunks) + ([0] + EncodeEnd(m, known))
  {
    hide EncodeEnd, Vector, Vectors;
    if m.cut < 2 && !known {
      Assoc(Vectors(m.chunks), [0], EncodeEnd(m, known));
    }
  }

  lemma NoBodyIsDone(rules: Rules, s: bytes, p: nat, m: Message, known: bool, expected: Option<nat>)
    requires p <= |s| && s[p..] == [] && WellFormedMessage(rules, m) && m.cut >= 2
    requires expected.Some? ==> expected.value == |Flatten(m.chunks)|
    ensures m.chunks == []
    ensures var b := Start(rules.check, s, Eof, p, known, expected); b.Ok? && b.value.done
  {
    hide EndsAt;
    NoEnd(m, known);
    EndsHere(rules, s, p, m, known);
  }

  lemma KnownIsDelivered(rules: Rules, s: bytes, p: nat, m: Message, expected: Option<nat>)
    requires p <= |s| && WellFormedMessage(rules, m) && m.cut < 2
    requires s[p..] == Vector(Flatten(m.chunks)) + EncodeEnd(m, true)
    requires expected.Some? ==> expected.value == |Flatten(m.chunks)|
    ensures var b := Start(rules.check, s, Eof, p, true, expected);
            && b.Ok?
            && if m.chunks == [] then b.value.done
               else b.value.Open() && !Excess(b.value)
                    && BodyFrom(rules.check, b.value) == Play(Flatten(m.chunks), Finished)
  {
    hide EncodeEnd, EndsAt, ReadAt, Flatten, Vector;
    ChunksOfMessage(rules, m);
    hide WellFormedMessage;
    var content := Flatten(m.chunks);
    ChunkHere(s, p, content, EncodeEnd(m, true), true);
    EndsHere(rules, s, p + |Vector(content)|, m, true);
    FlattenNonempty(m.chunks);
  }

  lemma ChunksOfMessage(rules: Rules, m: Message)
    requires WellFormedMessage(rules, m)
    ensures forall chunk :: chunk in m.chunks ==> chunk != []
    ensures |Flatten(m.chunks)| <= LIMIT_MESSAGE
    ensures m.cut >= 2 ==> m.chunks == []
  {
  }

  lemma FlattenNonempty(chunks: seq<bytes>)
    requires forall chunk :: chunk in chunks ==> chunk != []
    ensures Flatten(chunks) == [] <==> chunks == []
  {
    if chunks != [] {
      assert chunks[0] in chunks;
    }
  }

  lemma EndsHere(rules: Rules, s: bytes, p: nat, m: Message, known: bool)
    requires p <= |s| && s[p..] == EncodeEnd(m, known) && WellFormedMessage(rules, m)
    ensures EndsAt(rules.check, s, Eof, p, known)
  {
    hide FieldsAt;
    hide EncodeFields;
    hide Acceptable;
    if m.cut >= 1 {
      FieldsOfNothing(rules.check, s, p, known);
    } else {
      FieldsHere(rules.check, s, p, m.trailers, Zeros(m.padding), known);
    }
  }

  lemma StartOpens(check: Check, s: bytes, p: nat, known: bool, size: nat, q: nat, expected: Option<nat>)
    requires p <= |s| && ReadAt(s, Eof, p, true) == Ok((size, q))
    requires 0 < size <= LIMIT_MESSAGE && expected != Some(0)
    ensures Start(check, s, Eof, p, known, expected) == Ok(Body(s, Eof, known, q, size, 0, expected, false))
  {
    hide ReadAt;
  }

  lemma StartEmpty(rules: Rules, s: bytes, p: nat, m: Message, expected: Option<nat>)
    requires p <= |s| && WellFormedMessage(rules, m)
    requires s[p..] == [0] + EncodeEnd(m, false) && Agrees(expected, 0)
    ensures var b := Start(rules.check, s, Eof, p, false, expected); b.Ok? && b.value.done
  {
    hide EncodeEnd;
    hide EndsAt;
    hide ReadAt;
    hide WellFormedMessage;
    assert Encode(0) == [0];
    IntegerHere(s, p, 0, EncodeEnd(m, false), true);
    EndsHere(rules, s, p + 1, m, false);
  }

  lemma StartChunks(rules: Rules, s: bytes, p: nat, m: Message, expected: Option<nat>)
    requires p <= |s| && WellFormedMessage(rules, m)
    requires s[p..] == Vectors(m.chunks) + ([0] + EncodeEnd(m, false))
    requires expected.Some? ==> expected.value == |Flatten(m.chunks)|
    ensures var b := Start(rules.check, s, Eof, p, false, expected);
            && b.Ok?
            && if m.chunks == [] then b.value.done
               else b.value.Open() && BodyFrom(rules.check, b.value) == Play(Flatten(m.chunks), Finished)
  {
    ChunksOfMessage(rules, m);
    var check, after := rules.check, [0] + EncodeEnd(m, false);
    hide EncodeEnd;
    hide EndsAt;
    hide ReadAt;
    hide BodyFrom;
    hide Start;
    hide WellFormedMessage;
    if m.chunks == [] {
      assert s[p..] == after;
      StartEmpty(rules, s, p, m, expected);
    } else {
      StartSome(rules, s, p, m, expected);
    }
  }

  lemma StartSome(rules: Rules, s: bytes, p: nat, m: Message, expected: Option<nat>)
    requires p <= |s| && WellFormedMessage(rules, m) && m.chunks != []
    requires s[p..] == Vectors(m.chunks) + ([0] + EncodeEnd(m, false))
    requires expected.Some? ==> expected.value == |Flatten(m.chunks)|
    ensures var b := Start(rules.check, s, Eof, p, false, expected);
            && b.Ok? && b.value.Open() && BodyFrom(rules.check, b.value) == Play(Flatten(m.chunks), Finished)
  {
    hide EncodeEnd;
    hide EndsAt;
    hide ReadAt;
    hide BodyFrom;
    hide Start;
    hide Vector, Vectors, Flatten;
    ChunksOfMessage(rules, m);
    hide WellFormedMessage;
    Peel(m.chunks);
    var chunk, rest := m.chunks[0], m.chunks[1..];
    var after := [0] + EncodeEnd(m, false);
    assert chunk in m.chunks && forall c :: c in rest ==> c in m.chunks;
    Assoc(Vector(chunk), Vectors(rest), after);
    ChunkHere(s, p, chunk, Vectors(rest) + after, true);
    var q := p + |Encode(|chunk|)|;
    StartOpens(rules.check, s, p, false, |chunk|, q, expected);
    var b := Body(s, Eof, false, q, |chunk|, 0, expected, false);
    ChunkOfBody(rules.check, b);
    BodyOfChunks(rules, m, b.(pos := q + |chunk|, remaining := 0, received := |chunk|), rest);
  }

  lemma {:induction false} BodyOfChunks(rules: Rules, m: Message, b: Body, chunks: seq<bytes>)
    requires WellFormedMessage(rules, m)
    requires b.Valid() && !b.known && b.remaining == 0 && b.ending == Eof
    requires b.data[b.pos..] == Vectors(chunks) + ([0] + EncodeEnd(m, false))
    requires forall chunk :: chunk in chunks ==> chunk != []
    requires |Flatten(chunks)| <= LIMIT_MESSAGE
    requires b.expected.Some? ==> b.received + |Flatten(chunks)| == b.expected.value
    ensures BodyFrom(rules.check, b) == Play(Flatten(chunks), Finished)
    decreases |chunks|
  {
    hide EncodeEnd;
    hide EndsAt;
    hide WellFormedMessage;
    hide ReadAt;
    var after := [0] + EncodeEnd(m, false);
    if chunks == [] {
      assert b.data[b.pos..] == after;
      assert Encode(0) == [0];
      IntegerHere(b.data, b.pos, 0, EncodeEnd(m, false), false);
      EndsHere(rules, b.data, b.pos + 1, m, false);
    } else {
      hide BodyFrom, Vector, Vectors, Flatten;
      var chunk, rest := chunks[0], chunks[1..];
      Peel(chunks);
      assert chunk in chunks && forall c :: c in rest ==> c in chunks;
      Assoc(Vector(chunk), Vectors(rest), after);
      ChunkHere(b.data, b.pos, chunk, Vectors(rest) + after, false);
      var q := b.pos + |Encode(|chunk|)|;
      BodyOfChunks(rules, m, b.(pos := q + |chunk|, received := b.received + |chunk|), rest);
      ChunkBody(rules.check, b, chunk, q);
    }
  }

  lemma ChunkBody(check: Check, b: Body, chunk: bytes, q: nat)
    requires b.Valid() && !b.known && b.remaining == 0 && 0 < |chunk| <= LIMIT_MESSAGE
    requires ReadAt(b.data, b.ending, b.pos, false) == Ok((|chunk|, q))
    requires q + |chunk| <= |b.data| && b.data[q..q + |chunk|] == chunk
    requires !Exceeds(b.expected, b.received + |chunk|)
    ensures Continues(BodyFrom(check, b), chunk,
                      BodyFrom(check, b.(pos := q + |chunk|, received := b.received + |chunk|)))
  {
    hide ReadAt;
    var c := b.(pos := q, remaining := |chunk|);
    assert BodyFrom(check, b) == BodyFrom(check, c);
    ChunkOfBody(check, c);
    assert c.(pos := q + |chunk|, remaining := 0, received := c.received + |chunk|) ==
           b.(pos := q + |chunk|, received := b.received + |chunk|);
  }
}
