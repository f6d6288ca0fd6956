/** The resumable decoder of rs/src/sse.rs: pushed in pieces, it never rescans a line. */
module SseDecoder {
  import opened Bytes
  import opened SseRecords

  const PART := 8192

  /** What is left when a stream ends in an unfinished record. */
  function Tail(pending: bytes): seq<bytes> {
    if pending == [] then [] else [pending]
  }

  /**
   * A scanner position from which the rest of the scan gives the records still missing,
   * whatever bytes follow `s` (once the stream has ended, none do).
   */
  ghost predicate Coherent(s: bytes, emitted: seq<bytes>, start: nat, line: nat, i: nat, ended: bool) {
    && start <= line <= i <= |s|
    && forall t: bytes :: (ended ==> t == []) ==>
         Records(s + t) == emitted + RecordsAt(s + t, start, line, i)
  }

  lemma StepIsStable(s: bytes, t: bytes, start: nat, line: nat, i: nat)
    requires start <= line <= i < |s|
    requires t == [] || s[i] != CR || i + 1 < |s|
    ensures var u := s + t;
            RecordsAt(u, start, line, i) ==
            if !IsBreak(s[i]) then RecordsAt(u, start, line, i + 1)
            else var e := BreakEnd(s, i);
                 if i == line then [s[start..e]] + RecordsAt(u, e, e, e)
                 else RecordsAt(u, start, e, e)
  {
    var u := s + t;
    assert u[i] == s[i];
    if IsBreak(s[i]) {
      var e := BreakEnd(s, i);
      assert i + 1 < |s| ==> u[i + 1] == s[i + 1];
      assert BreakEnd(u, i) == e;
      assert u[start..e] == s[start..e];
    }
  }

  /** One iteration of the scan keeps the position coherent; only a final CR has to wait. */
  lemma CoherentStep(s: bytes, emitted: seq<bytes>, start: nat, line: nat, i: nat, ended: bool)
    requires i < |s| && Coherent(s, emitted, start, line, i, ended)
    requires ended || s[i] != CR || i + 1 < |s|
    ensures !IsBreak(s[i]) ==> Coherent(s, emitted, start, line, i + 1, ended)
    ensures IsBreak(s[i]) ==>
              var e := BreakEnd(s, i);
              if i == line then Coherent(s, emitted + [s[start..e]], e, e, e, ended)
              else Coherent(s, emitted, start, e, e, ended)
  {
    forall t: bytes | ended ==> t == []
      ensures Records(s + t) == emitted + RecordsAt(s + t, start, line, i)
      ensures RecordsAt(s + t, start, line, i) ==
              if !IsBreak(s[i]) then RecordsAt(s + t, start, line, i + 1)
              else var e := BreakEnd(s, i);
                   if i == line then [s[start..e]] + RecordsAt(s + t, e, e, e)
                   else RecordsAt(s + t, start, e, e)
    {
      StepIsStable(s, t, start, line, i);
    }
    if IsBreak(s[i]) && i == line {
      var e := BreakEnd(s, i);
      forall t: bytes | ended ==> t == []
        ensures Records(s + t) == emitted + [s[start..e]] + RecordsAt(s + t, e, e, e)
      {
        assert emitted + ([s[start..e]] + RecordsAt(s + t, e, e, e)) ==
               emitted + [s[start..e]] + RecordsAt(s + t, e, e, e);
      }
    }
  }

  /** More bytes may arrive without disturbing a coherent position. */
  lemma CoherentFeed(s: bytes, part: bytes, emitted: seq<bytes>, start: nat, line: nat, i: nat)
    requires Coherent(s, emitted, start, line, i, false)
    ensures Coherent(s + part, emitted, start, line, i, false)
  {
    forall t: bytes
      ensures Records(s + part + t) == emitted + RecordsAt(s + part + t, start, line, i)
    {
      assert s + part + t == s + (part + t);
    }
  }

  /** Where the scanner stops: at the end, or before a CR whose LF may still be coming. */
  predicate Settled(pending: bytes, scan: nat) {
    scan == |pending| || (scan + 1 == |pending| && pending[scan] == CR)
  }

  /** A settled position lacks at most the record that is still open. */
  lemma SettledRecords(s: bytes, emitted: seq<bytes>, start: nat, line: nat, scan: nat, ended: bool)
    requires Coherent(s, emitted, start, line, scan, ended) && Settled(s[start..], scan - start)
    ensures Records(s) == emitted + Tail(s[start..])
  {
    assert s + [] == s;
    assert Records(s + []) == emitted + RecordsAt(s + [], start, line, scan);
    if scan < |s| {
      assert s[start..][scan - start] == s[scan];
      assert BreakEnd(s, scan) == |s|;
      assert s[start..|s|] == s[start..];
      assert RecordsAt(s, |s|, |s|, |s|) == [];
      assert RecordsAt(s, start, |s|, |s|) == [s[start..]];
    }
  }

  /** A coherent position seen from the buffer: `pending` is what `fed` has not given up yet. */
  ghost predicate Buffered(fed: bytes, pending: bytes, emitted: seq<bytes>,
                           start: nat, line: nat, scan: nat, ended: bool) {
    && start <= line <= scan <= |pending| <= |fed|
    && fed[|fed| - |pending|..] == pending
    && var base := |fed| - |pending|;
       Coherent(fed, emitted, base + start, base + line, base + scan, ended)
  }

  /** The index just past the break at `i`, as far as the buffer shows. */
  lemma BufferedStep(fed: bytes, pending: bytes, emitted: seq<bytes>,
                     start: nat, line: nat, i: nat, ended: bool)
    requires Buffered(fed, pending, emitted, start, line, i, ended) && i < |pending|
    requires ended || pending[i] != CR || i + 1 < |pending|
    ensures !IsBreak(pending[i]) ==> Buffered(fed, pending, emitted, start, line, i + 1, ended)
    ensures IsBreak(pending[i]) ==>
              var e := BreakEnd(pending, i);
              if i == line then Buffered(fed, pending, emitted + [pending[start..e]], e, e, e, ended)
              else Buffered(fed, pending, emitted, start, e, e, ended)
  {
    hide Coherent;
    var base := |fed| - |pending|;
    assert pending[i] == fed[base + i];
    assert i + 1 < |pending| ==> pending[i + 1] == fed[base + i + 1];
    CoherentStep(fed, emitted, base + start, base + line, base + i, ended);
    if IsBreak(pending[i]) {
      var e := BreakEnd(pending, i);
      assert BreakEnd(fed, base + i) == base + e;
      assert pending[start..e] == fed[base + start..base + e];
    }
  }

  lemma BufferedFresh()
    ensures Buffered([], [], [], 0, 0, 0, false)
  {
    forall t: bytes ensures Records([] + t) == [] + RecordsAt([] + t, 0, 0, 0) {
      assert [] + t == t;
    }
  }

  /** A position that is right for every continuation is right for the empty one. */
  lemma BufferedEnd(fed: bytes, pending: bytes, emitted: seq<bytes>, line: nat, scan: nat, ended: bool)
    requires Buffered(fed, pending, emitted, 0, line, scan, false)
    ensures Buffered(fed, pending, emitted, 0, line, scan, ended)
  {
  }

  lemma BufferedDrain(fed: bytes, pending: bytes, emitted: seq<bytes>,
                      start: nat, line: nat, scan: nat, ended: bool)
    requires Buffered(fed, pending, emitted, start, line, scan, ended)
    ensures Buffered(fed, pending[start..], emitted, 0, line - start, scan - start, ended)
  {
  }

  lemma BufferedRecords(fed: bytes, pending: bytes, emitted: seq<bytes>, line: nat, scan: nat, ended: bool)
    requires Buffered(fed, pending, emitted, 0, line, scan, ended) && Settled(pending, scan)
    ensures Records(fed) == emitted + Tail(pending)
  {
    var base := |fed| - |pending|;
    SettledRecords(fed, emitted, base, base + line, base + scan, ended);
  }

  function Parts(n: nat): nat {
    (n + PART - 1) / PART
  }

  class Decoder {
    var pending: bytes
    var scan: nat
    var line: nat

    // The current stream so far, the records handed out for it, and the work done in all streams.
    ghost var fed: bytes
    ghost var emitted: seq<bytes>
    ghost var earlier: nat
    ghost var iterations: nat
    ghost var scans: nat

    ghost function Base(): int
      reads this
    {
      |fed| - |pending|
    }

    ghost function Total(): nat
      reads this
    {
      earlier + |fed|
    }

    ghost predicate Resumable(ended: bool)
      reads this
    {
      && Buffered(fed, pending, emitted, 0, line, scan, ended)
      && iterations <= earlier + Base() + scan + scans
    }

    ghost predicate Valid()
      reads this
    {
      Resumable(false) && Settled(pending, scan)
    }

    constructor ()
      ensures Valid() && fed == [] && emitted == [] && pending == []
      ensures iterations == scans == 0 && Total() == 0
    {
      pending, scan, line := [], 0, 0;
      fed, emitted, earlier, iterations, scans := [], [], 0, 0, 0;
    }

    method ScanRecords(eof: bool) returns (records: seq<bytes>)
      requires Resumable(false)
      modifies this
      ensures fed == old(fed) && emitted == old(emitted) + records && earlier == old(earlier)
      ensures Resumable(eof) && Settled(pending, scan)
      ensures scans == old(scans) + 1
    {
      hide Coherent;
      BufferedEnd(fed, pending, emitted, line, scan, eof);
      records := [];
      scans := scans + 1;
      var start := 0;
      while scan < |pending|
        invariant fed == old(fed) && pending == old(pending) && earlier == old(earlier)
        invariant emitted == old(emitted) + records
        invariant Buffered(fed, pending, emitted, start, line, scan, eof)
        invariant scans == old(scans) + 1 && iterations <= earlier + Base() + scan + old(scans)
        decreases |pending| - scan
      {
        iterations := iterations + 1;
        var i := scan;
        var b := pending[i];
        if b == CR && i + 1 == |pending| && !eof {
          break;
        }
        BufferedStep(fed, pending, emitted, start, line, i, eof);
        if b != CR && b != LF {
          scan := scan + 1;
          continue;
        }
        var end := if b == CR && i + 1 < |pending| && pending[i + 1] == LF then i + 2 else i + 1;
        if i == line {
          records := records + [pending[start..end]];
          emitted := emitted + [pending[start..end]];
          start := end;
        }
        line := end;
        scan := end;
      }
      BufferedDrain(fed, pending, emitted, start, line, scan, eof);
      pending := pending[start..];
      scan := scan - start;
      line := line - start;
    }

    method Feed(part: bytes)
      requires Valid()
      modifies this
      ensures Resumable(false)
      ensures fed == old(fed) + part && emitted == old(emitted) && earlier == old(earlier)
      ensures scans == old(scans)
    {
      CoherentFeed(fed, part, emitted, Base(), Base() + line, Base() + scan);
      pending := pending + part;
      fed := fed + part;
    }

    /**
     * After any number of pushes everything but one possibly unfinished record has been handed
     * out; the push that ends the stream hands out the rest and starts afresh. Over the life of
     * the decoder the scan loop runs at most once per byte and once more per scan.
     */
    method Push(input: bytes, eof: bool) returns (records: seq<bytes>)
      requires Valid()
      modifies this
      ensures Valid()
      ensures !eof ==> fed == old(fed) + input && emitted == old(emitted) + records
      ensures !eof ==> Records(fed) == emitted + Tail(pending)
      ensures eof ==> old(emitted) + records == Records(old(fed) + input)
      ensures eof ==> fed == [] && emitted == [] && pending == []
      ensures Total() == old(Total()) + |input|
      ensures scans == old(scans) + Parts(|input|) + if eof then 1 else 0
      ensures iterations <= Total() + scans
    {
      hide Coherent;
      hide Records;
      hide Parts;
      records := PushParts(input);
      if eof {
        var found := EndStream();
        records := records + found;
      } else {
        BufferedRecords(fed, pending, emitted, line, scan, false);
      }
    }

    method EndStream() returns (records: seq<bytes>)
      requires Valid()
      modifies this
      ensures Valid()
      ensures old(emitted) + records == Records(old(fed))
      ensures fed == [] && emitted == [] && pending == []
      ensures Total() == old(Total()) && scans == old(scans) + 1
    {
      hide Coherent;
      hide Records;
      records := ScanRecords(true);
      BufferedRecords(fed, pending, emitted, line, scan, true);
      if pending != [] {
        records := records + [pending];
        pending := [];
      }
      scan, line := 0, 0;
      earlier := earlier + |fed|;
      fed, emitted := [], [];
      BufferedFresh();
    }

    method PushParts(input: bytes) returns (records: seq<bytes>)
      requires Valid()
      modifies this
      ensures Valid() && earlier == old(earlier)
      ensures fed == old(fed) + input && emitted == old(emitted) + records
      ensures scans == old(scans) + Parts(|input|)
    {
      hide Coherent;
      records := [];
      var at := 0;
      while at < |input|
        invariant at <= |input| && (at % PART == 0 || at == |input|)
        invariant Valid() && earlier == old(earlier)
        invariant fed == old(fed) + input[..at] && emitted == old(emitted) + records
        invariant scans == old(scans) + Parts(at)
      {
        var next := if at + PART < |input| then at + PART else |input|;
        Feed(input[at..next]);
        assert input[..next] == input[..at] + input[at..next];
        var found := ScanRecords(false);
        records := records + found;
        at := next;
      }
      assert input[..|input|] == input;
    }
  }

  /**
   * The read loop of an inference stream: one push for every chunk the network delivers and one
   * that ends the stream. However the bytes are cut, the records are those of the whole stream.
   */
  method DecodeStream(chunks: seq<bytes>) returns (records: seq<bytes>)
    ensures records == Records(Flatten(chunks))
  {
    var decoder := new Decoder();
    records := [];
    var k := 0;
    while k < |chunks|
      invariant k <= |chunks| && fresh(decoder)
      invariant decoder.Valid() && decoder.fed == Flatten(chunks[..k]) && decoder.emitted == records
    {
      var found := decoder.Push(chunks[k], false);
      records := records + found;
      assert chunks[..k + 1] == chunks[..k] + [chunks[k]];
      FlattenSnoc(chunks[..k], chunks[k]);
      k := k + 1;
    }
    assert chunks[..|chunks|] == chunks;
    var found := decoder.Push([], true);
    assert Flatten(chunks) + [] == Flatten(chunks);
    records := records + found;
  }
}
