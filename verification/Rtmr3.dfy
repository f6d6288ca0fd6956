/**
 * Replaying dstack's event log against a quoted RTMR3 (rs/src/event_log.rs:20-155,
 * go/verification.go:285-350).
 *
 * SHA-384 is a parameter: any function with 48-byte results. No such function is injective, so
 * the security statement does not assume one; it says that two logs accepted against the same
 * quote either extend the register by the same digests or exhibit, among the inputs their own
 * replays hashed, a collision or a preimage of the all-zero block.
 */
module Rtmr3 {
  import opened Bytes
  import opened Hex
  import opened Wrappers

  const RUNTIME: nat := 0x0800_0001
  const COLON: byte := 58

  /** An entry of the log. `imr` and `digest` are required, but only the SDKs see to that. */
  datatype Entry = Entry(imr: Option<nat>, kind: nat, event: string, payload: string, digest: Option<string>)

  datatype Measurements = Measurements(osImageHash: Option<string>, composeHash: Option<string>)

  datatype Sdk = Rust | Go

  datatype Platform = Platform(sha384: bytes -> bytes, utf8: string -> bytes)
  {
    ghost predicate Sized() {
      forall b :: |sha384(b)| == 48
    }
  }

  // ----- Hexadecimal -----

  function Digits(s: string): Option<bytes> {
    if s == "" then Some([])
    else if |s| == 1 || Nibble(s[0]).None? || Nibble(s[1]).None? || Digits(s[2..]).None? then None
    else
      var high := Nibble(s[0]).value;
      var low := Nibble(s[1]).value;
      Some([16 * high + low] + Digits(s[2..]).value)
  }

  function Stripped(s: string): string {
    if |s| >= 2 && s[0] == '0' && (s[1] == 'x' || s[1] == 'X') then s[2..] else s
  }

  /** Both SDKs refuse empty hexadecimal wherever a value is required. */
  function Unhex(s: string): Option<bytes> {
    if Stripped(s) == "" then None else Digits(Stripped(s))
  }

  /** A payload may be empty; only Rust lets it be a bare "0x". */
  function Payload(sdk: Sdk, s: string): Option<bytes> {
    if sdk.Rust? then Digits(Stripped(s)) else if s == "" then Some([]) else Unhex(s)
  }

  // ----- What a log means -----

  predicate Complete(log: seq<Entry>) {
    forall i :: 0 <= i < |log| ==> log[i].imr.Some? && log[i].digest.Some?
  }

  /** The entries of register 3, in order. */
  function Only3(log: seq<Entry>): seq<Entry> {
    if log == [] then []
    else
      var last := log[|log| - 1];
      var before := Only3(log[..|log| - 1]);
      if last.imr == Some(3) then before + [last] else before
  }

  /** What a runtime event's digest is the hash of: its type in little-endian order, its name, its payload. */
  function Preimage(p: Platform, event: string, payload: bytes): bytes {
    [1, 0, 0, 8] + [COLON] + p.utf8(event) + [COLON] + payload
  }

  function EventDigest(p: Platform, sdk: Sdk, e: Entry): Option<bytes> {
    match e.digest
    case None => None
    case Some(stated) =>
      if e.kind == RUNTIME then
        match Payload(sdk, e.payload)
        case None => None
        case Some(payload) =>
          var computed := p.sha384(Preimage(p, e.event, payload));
          if stated != "" && Unhex(stated) != Some(computed) then None else Some(computed)
      else
        match Unhex(stated)
        case None => None
        case Some(d) => if |d| == 48 then Some(d) else None
  }

  function EventDigests(p: Platform, sdk: Sdk, events: seq<Entry>): Option<seq<bytes>> {
    if events == [] then Some([])
    else
      var before := EventDigests(p, sdk, events[..|events| - 1]);
      var last := EventDigest(p, sdk, events[|events| - 1]);
      if before.Some? && last.Some? then Some(before.value + [last.value]) else None
  }

  const ZERO: bytes := seq(48, _ => 0)

  /** The register after it was extended by `digests`, starting from zero. */
  function Register(p: Platform, digests: seq<bytes>): bytes {
    if digests == [] then ZERO
    else p.sha384(Register(p, digests[..|digests| - 1]) + digests[|digests| - 1])
  }

  /** The payload of the last runtime event with a name. */
  function LastPayload(events: seq<Entry>, name: string): Option<string> {
    if events == [] then None
    else
      var last := events[|events| - 1];
      if last.kind == RUNTIME && last.event == name then Some(last.payload)
      else LastPayload(events[..|events| - 1], name)
  }

  function Measured(events: seq<Entry>): Measurements {
    Measurements(LastPayload(events, "os-image-hash"), LastPayload(events, "compose-hash"))
  }

  /** A log is accepted when its register-3 digests reproduce the quote. */
  predicate Accepted(p: Platform, sdk: Sdk, log: seq<Entry>, quoted: bytes) {
    && Complete(log)
    && var digests := EventDigests(p, sdk, Only3(log));
       digests.Some? && digests.value != [] && Register(p, digests.value) == quoted
  }

  // ----- The same by dstack's format, from the log alone -----

  /** What the entry extends the register with, if it does not spoil the log. */
  ghost predicate Extends(p: Platform, sdk: Sdk, e: Entry, d: bytes) {
    e.digest.Some? &&
    if e.kind == 0x0800_0001 then
      && Payload(sdk, e.payload).Some?
      && d == p.sha384([0x01, 0x00, 0x00, 0x08, 0x3a] + p.utf8(e.event) + [0x3a] + Payload(sdk, e.payload).value)
      && (e.digest.value == "" || Unhex(e.digest.value) == Some(d))
    else
      Unhex(e.digest.value) == Some(d) && |d| == 48
  }

  /** The log leaves this in the register, starting from 48 zeros, and every entry is complete. */
  ghost predicate Leaves(p: Platform, sdk: Sdk, log: seq<Entry>, register: bytes) {
    if log == [] then register == seq(48, _ => 0)
    else
      var e, before := log[|log| - 1], log[..|log| - 1];
      && e.imr.Some? && e.digest.Some?
      && if e.imr.value != 3 then Leaves(p, sdk, before, register)
         else exists r, d :: Leaves(p, sdk, before, r) && Extends(p, sdk, e, d) && register == p.sha384(r + d)
  }

  lemma ExtendsMeans(p: Platform, sdk: Sdk, e: Entry, d: bytes)
    ensures Extends(p, sdk, e, d) <==> EventDigest(p, sdk, e) == Some(d)
  {
    if e.kind == 0x0800_0001 && Payload(sdk, e.payload).Some? {
      var payload := Payload(sdk, e.payload).value;
      assert [0x01, 0x00, 0x00, 0x08, 0x3a] + p.utf8(e.event) + [0x3a] + payload == Preimage(p, e.event, payload);
    }
  }

  lemma {:induction false} LeavesMeans(p: Platform, sdk: Sdk, log: seq<Entry>, register: bytes)
    ensures Leaves(p, sdk, log, register) <==>
            && Complete(log) && EventDigests(p, sdk, Only3(log)).Some?
            && Register(p, EventDigests(p, sdk, Only3(log)).value) == register
    decreases |log|
  {
    hide EventDigest, Extends, Only3, EventDigests, Register;
    if log == [] {
      Nothing(p, sdk);
    } else {
      var n := |log| - 1;
      var e, before := log[n], log[..n];
      assert Complete(log) <==> Complete(before) && e.imr.Some? && e.digest.Some? by {
        assert forall i :: 0 <= i < n ==> before[i] == log[i];
      }
      Next3(log, n);
      assert log[..n + 1] == log;
      NextDigest(p, sdk, Only3(before), e);
      var digests := EventDigests(p, sdk, Only3(before));
      forall r ensures Leaves(p, sdk, before, r) <==>
                       Complete(before) && digests.Some? && Register(p, digests.value) == r
      {
        LeavesMeans(p, sdk, before, r);
      }
      forall d ensures Extends(p, sdk, e, d) <==> EventDigest(p, sdk, e) == Some(d) {
        ExtendsMeans(p, sdk, e, d);
      }
      if digests.Some? && EventDigest(p, sdk, e).Some? {
        NextRegister(p, digests.value, EventDigest(p, sdk, e).value);
      }
    }
  }

  lemma {:induction false} Some3(log: seq<Entry>)
    ensures Only3(log) != [] <==> exists i :: 0 <= i < |log| && log[i].imr == Some(3)
    decreases |log|
  {
    if log != [] {
      var n := |log| - 1;
      Some3(log[..n]);
      if log[n].imr != Some(3) && Only3(log) != [] {
        var i :| 0 <= i < n && log[..n][i].imr == Some(3);
        assert log[i].imr == Some(3);
      }
      if i :| 0 <= i < |log| && log[i].imr == Some(3) && i < n {
        assert log[..n][i].imr == Some(3);
      }
    }
  }

  lemma {:induction false} AsManyDigests(p: Platform, sdk: Sdk, events: seq<Entry>)
    ensures EventDigests(p, sdk, events).Some? ==> |EventDigests(p, sdk, events).value| == |events|
  {
    hide EventDigest;
    if events != [] {
      AsManyDigests(p, sdk, events[..|events| - 1]);
    }
  }

  /** Some entry is of register 3, and the log leaves the quote in it. */
  ghost predicate Replays(p: Platform, sdk: Sdk, log: seq<Entry>, quoted: bytes) {
    Leaves(p, sdk, log, quoted) && exists i :: 0 <= i < |log| && log[i].imr == Some(3)
  }

  lemma AcceptedMeans(p: Platform, sdk: Sdk, log: seq<Entry>, quoted: bytes)
    ensures Accepted(p, sdk, log, quoted) <==> Replays(p, sdk, log, quoted)
  {
    hide Leaves, EventDigests, Only3, Register;
    LeavesMeans(p, sdk, log, quoted);
    Some3(log);
    AsManyDigests(p, sdk, Only3(log));
  }

  /** A runtime event of register 3 with a name, and no later one of that name. */
  predicate LastOf3(log: seq<Entry>, name: string, i: int) {
    && 0 <= i < |log| && Event3(log[i], name)
    && forall j :: i < j < |log| ==> !Event3(log[j], name)
  }

  predicate Event3(e: Entry, name: string) {
    e.imr == Some(3) && e.kind == 0x0800_0001 && e.event == name
  }

  /** What is reported under a name: the payload of the last such event of the log, or nothing. */
  ghost predicate ReportsLast(log: seq<Entry>, name: string, r: Option<string>) {
    match r
    case None => forall i :: 0 <= i < |log| ==> !Event3(log[i], name)
    case Some(payload) => exists i :: LastOf3(log, name, i) && log[i].payload == payload
  }

  lemma {:induction false} ReportsLast3(log: seq<Entry>, name: string)
    ensures ReportsLast(log, name, LastPayload(Only3(log), name))
    decreases |log|
  {
    if log != [] {
      var n := |log| - 1;
      ReportsLast3(log[..n], name);
      Next3(log, n);
      assert log[..n + 1] == log;
      NextMeasured(Only3(log[..n]), log[n]);
      if Event3(log[n], name) {
        assert LastOf3(log, name, n);
      } else if LastPayload(Only3(log), name).Some? {
        var i :| LastOf3(log[..n], name, i) && log[..n][i].payload == LastPayload(Only3(log), name).value;
        assert LastOf3(log, name, i);
      } else {
        assert forall i :: 0 <= i < n ==> log[..n][i] == log[i];
      }
    }
  }

  // ----- The two programs -----

  /** `verify_and_replay_rtmr3`: the log is parsed whole, then replayed. */
  method RustReplay(p: Platform, log: seq<Entry>, quoted: bytes) returns (r: Result<Measurements>)
    requires p.Sized()
    ensures r == if Accepted(p, Rust, log, quoted) then Ok(Measured(Only3(log))) else Err
    ensures r.Ok? <==> Replays(p, Rust, log, quoted)
    ensures r.Ok? ==> ReportsLast(log, "os-image-hash", r.value.osImageHash)
                      && ReportsLast(log, "compose-hash", r.value.composeHash)
  {
    hide Replays, ReportsLast;
    AcceptedMeans(p, Rust, log, quoted);
    if |quoted| != 48 {
      RegisterSize(p, Rust, log);
      return Err;
    }
    for i := 0 to |log|
      invariant Complete(log[..i])
    {
      if log[i].imr.None? || log[i].digest.None? {
        return Err;
      }
    }
    hide EventDigest, Only3, EventDigests, Register, LastPayload;
    Nothing(p, Rust);
    assert log[..0] == [];
    var replayed := ZERO;
    var count := 0;
    var measurements := Measurements(None, None);
    ghost var digests := [];
    for i := 0 to |log|
      invariant EventDigests(p, Rust, Only3(log[..i])) == Some(digests)
      invariant replayed == Register(p, digests)
      invariant count == |digests|
      invariant measurements == Measured(Only3(log[..i]))
    {
      Next3(log, i);
      if log[i].imr != Some(3) {
        continue;
      }
      count := count + 1;
      var digest := EventDigest(p, Rust, log[i]);
      NextDigest(p, Rust, Only3(log[..i]), log[i]);
      if digest.None? {
        RefusedLater(p, Rust, log, i + 1);
        return Err;
      }
      replayed := p.sha384(replayed + digest.value);
      NextRegister(p, digests, digest.value);
      digests := digests + [digest.value];
      if log[i].kind == RUNTIME {
        if log[i].event == "os-image-hash" {
          measurements := measurements.(osImageHash := Some(log[i].payload));
        } else if log[i].event == "compose-hash" {
          measurements := measurements.(composeHash := Some(log[i].payload));
        }
      }
      NextMeasured(Only3(log[..i]), log[i]);
    }
    assert log[..|log|] == log;
    if count == 0 {
      return Err;
    }
    if replayed != quoted {
      return Err;
    }
    ReportsLast3(log, "os-image-hash");
    ReportsLast3(log, "compose-hash");
    r := Ok(measurements);
  }

  /** Go reports an absent measurement as an empty string. */
  datatype GoMeasurements = GoMeasurements(osImageHash: string, composeHash: string)

  function OrEmpty(s: Option<string>): string {
    match s
    case Some(text) => text
    case None => ""
  }

  function Reported(m: Measurements): GoMeasurements {
    GoMeasurements(OrEmpty(m.osImageHash), OrEmpty(m.composeHash))
  }

  ghost predicate GoReportsLast(log: seq<Entry>, name: string, r: string) {
    ReportsLast(log, name, Some(r)) || (r == "" && ReportsLast(log, name, None))
  }

  /** `replayEvents`: one loop that checks and replays. */
  method GoReplay(p: Platform, log: seq<Entry>, quoted: bytes) returns (r: Result<GoMeasurements>)
    ensures r == if Accepted(p, Go, log, quoted) then Ok(Reported(Measured(Only3(log)))) else Err
    ensures r.Ok? <==> Replays(p, Go, log, quoted)
    ensures r.Ok? ==> GoReportsLast(log, "os-image-hash", r.value.osImageHash)
                      && GoReportsLast(log, "compose-hash", r.value.composeHash)
  {
    hide Replays, ReportsLast;
    AcceptedMeans(p, Go, log, quoted);
    hide EventDigest, Only3, EventDigests, Register, LastPayload;
    Nothing(p, Go);
    assert log[..0] == [];
    var replay := ZERO;
    var count := 0;
    var result := GoMeasurements("", "");
    ghost var digests := [];
    for i := 0 to |log|
      invariant Complete(log[..i])
      invariant EventDigests(p, Go, Only3(log[..i])) == Some(digests)
      invariant replay == Register(p, digests)
      invariant count == |digests|
      invariant result == Reported(Measured(Only3(log[..i])))
    {
      if log[i].imr.None? || log[i].digest.None? {
        return Err;
      }
      Next3(log, i);
      if log[i].imr != Some(3) {
        continue;
      }
      count := count + 1;
      var digest := EventDigest(p, Go, log[i]);
      NextDigest(p, Go, Only3(log[..i]), log[i]);
      if digest.None? {
        RefusedLater(p, Go, log, i + 1);
        return Err;
      }
      if log[i].kind == RUNTIME {
        if log[i].event == "os-image-hash" {
          result := result.(osImageHash := log[i].payload);
        }
        if log[i].event == "compose-hash" {
          result := result.(composeHash := log[i].payload);
        }
      }
      NextMeasured(Only3(log[..i]), log[i]);
      replay := p.sha384(replay + digest.value);
      NextRegister(p, digests, digest.value);
      digests := digests + [digest.value];
    }
    assert log[..|log|] == log;
    if count == 0 || replay != quoted {
      return Err;
    }
    ReportsLast3(log, "os-image-hash");
    ReportsLast3(log, "compose-hash");
    r := Ok(result);
  }

  lemma Nothing(p: Platform, sdk: Sdk)
    ensures Only3([]) == [] && EventDigests(p, sdk, []) == Some([]) && Register(p, []) == ZERO
    ensures Measured([]) == Measurements(None, None)
  {
  }

  lemma Next3(log: seq<Entry>, i: nat)
    requires i < |log|
    ensures Only3(log[..i + 1]) == if log[i].imr == Some(3) then Only3(log[..i]) + [log[i]] else Only3(log[..i])
  {
    assert log[..i + 1][..i] == log[..i];
  }

  lemma NextDigest(p: Platform, sdk: Sdk, events: seq<Entry>, e: Entry)
    ensures EventDigests(p, sdk, events + [e]) ==
            if EventDigests(p, sdk, events).Some? && EventDigest(p, sdk, e).Some?
            then Some(EventDigests(p, sdk, events).value + [EventDigest(p, sdk, e).value]) else None
  {
    assert (events + [e])[..|events|] == events;
  }

  lemma NextRegister(p: Platform, digests: seq<bytes>, d: bytes)
    ensures Register(p, digests + [d]) == p.sha384(Register(p, digests) + d)
  {
    assert (digests + [d])[..|digests|] == digests;
  }

  lemma NextMeasured(events: seq<Entry>, e: Entry)
    ensures forall name :: LastPayload(events + [e], name) ==
              if e.kind == RUNTIME && e.event == name then Some(e.payload) else LastPayload(events, name)
  {
    assert (events + [e])[..|events|] == events;
  }

  /** A log with a refused event is refused, however it goes on. */
  lemma {:induction false} RefusedLater(p: Platform, sdk: Sdk, log: seq<Entry>, i: nat)
    requires i <= |log|
    requires EventDigests(p, sdk, Only3(log[..i])).None?
    ensures EventDigests(p, sdk, Only3(log)).None?
    decreases |log| - i
  {
    if i == |log| {
      assert log[..i] == log;
    } else {
      Next3(log, i);
      NextDigest(p, sdk, Only3(log[..i]), log[i]);
      RefusedLater(p, sdk, log, i + 1);
    }
  }

  lemma RegisterSize(p: Platform, sdk: Sdk, log: seq<Entry>)
    requires p.Sized()
    ensures forall digests :: |Register(p, digests)| == 48
  {
  }

  // ----- What acceptance is worth -----

  /** Entries of other registers, wherever they stand, change neither the verdict nor the measurements. */
  lemma OtherRegistersIgnored(p: Platform, sdk: Sdk, a: seq<Entry>, b: seq<Entry>, quoted: bytes)
    requires Complete(a) && Complete(b)
    requires Only3(a) == Only3(b)
    ensures Accepted(p, sdk, a, quoted) == Accepted(p, sdk, b, quoted)
    ensures Measured(Only3(a)) == Measured(Only3(b))
  {
  }

  /** Dropping one such entry leaves the register-3 entries as they were. */
  lemma {:induction false} DroppedEntry(before: seq<Entry>, e: Entry, after: seq<Entry>)
    requires e.imr != Some(3)
    ensures Only3(before + [e] + after) == Only3(before + after)
    decreases |after|
  {
    if after == [] {
      assert before + after == before;
      assert (before + [e] + after)[..|before|] == before;
      assert before + [e] + after == before + [e];
    } else {
      var n := |after| - 1;
      DroppedEntry(before, e, after[..n]);
      assert (before + [e] + after)[..|before| + 1 + n] == before + [e] + after[..n];
      assert (before + after)[..|before| + n] == before + after[..n];
    }
  }

  /** The measurement reported under a name is the last runtime event of that name in register 3. */
  lemma {:induction false} LastPayloadMeaning(events: seq<Entry>, name: string)
    ensures match LastPayload(events, name)
            case None => forall i :: 0 <= i < |events| ==> !(events[i].kind == RUNTIME && events[i].event == name)
            case Some(payload) => exists i :: LastAt(events, name, i) && events[i].payload == payload
  {
    if events != [] {
      var n := |events| - 1;
      if events[n].kind == RUNTIME && events[n].event == name {
        assert LastAt(events, name, n);
      } else {
        LastPayloadMeaning(events[..n], name);
        if LastPayload(events[..n], name).Some? {
          var i :| LastAt(events[..n], name, i) && events[..n][i].payload == LastPayload(events[..n], name).value;
          assert LastAt(events, name, i);
        }
      }
    }
  }

  ghost predicate LastAt(events: seq<Entry>, name: string, i: int) {
    && 0 <= i < |events|
    && events[i].kind == RUNTIME && events[i].event == name
    && forall j :: i < j < |events| ==> !(events[j].kind == RUNTIME && events[j].event == name)
  }

  /** Every input the replay of these digests hashes. */
  function Inputs(p: Platform, digests: seq<bytes>): set<bytes> {
    if digests == [] then {}
    else
      var before := digests[..|digests| - 1];
      Inputs(p, before) + {Register(p, before) + digests[|digests| - 1]}
  }

  predicate Sizes(digests: seq<bytes>) {
    forall i :: 0 <= i < |digests| ==> |digests[i]| == 48
  }

  /** The two replays themselves break the hash: a collision between them, or an input that hashes to zero. */
  ghost predicate Broken(p: Platform, a: set<bytes>, b: set<bytes>) {
    || (exists x, y :: x in a && y in b && x != y && p.sha384(x) == p.sha384(y))
    || (exists x :: x in a + b && p.sha384(x) == ZERO)
  }

  /** Equal registers come from equal digest sequences, whatever their lengths, or from a broken hash. */
  lemma {:induction false} RegisterBinds(p: Platform, a: seq<bytes>, b: seq<bytes>)
    requires p.Sized() && Sizes(a) && Sizes(b)
    requires Register(p, a) == Register(p, b)
    ensures a == b || Broken(p, Inputs(p, a), Inputs(p, b))
    decreases |a|
  {
    if a == [] && b == [] {
    } else if a == [] {
      assert Register(p, b[..|b| - 1]) + b[|b| - 1] in Inputs(p, a) + Inputs(p, b);
    } else if b == [] {
      assert Register(p, a[..|a| - 1]) + a[|a| - 1] in Inputs(p, a) + Inputs(p, b);
    } else {
      var a', b' := a[..|a| - 1], b[..|b| - 1];
      var x, y := Register(p, a') + a[|a| - 1], Register(p, b') + b[|b| - 1];
      assert x in Inputs(p, a) && y in Inputs(p, b);
      if x == y {
        RegisterSize(p, Rust, []);
        assert x[..48] == Register(p, a') && y[..48] == Register(p, b');
        assert x[48..] == a[|a| - 1] && y[48..] == b[|b| - 1];
        RegisterBinds(p, a', b');
        SplitLast(a);
        SplitLast(b);
        if a' != b' {
          BrokenGrows(p, Inputs(p, a'), Inputs(p, b'), Inputs(p, a), Inputs(p, b));
        }
      }
    }
  }

  lemma BrokenGrows(p: Platform, a: set<bytes>, b: set<bytes>, a': set<bytes>, b': set<bytes>)
    requires Broken(p, a, b) && a <= a' && b <= b'
    ensures Broken(p, a', b')
  {
    if x, y :| x in a && y in b && x != y && p.sha384(x) == p.sha384(y) {
      assert x in a' && y in b';
    } else {
      var x :| x in a + b && p.sha384(x) == ZERO;
      assert x in a' + b';
    }
  }

  lemma {:induction false} DigestsAre48(p: Platform, sdk: Sdk, events: seq<Entry>)
    requires p.Sized()
    ensures EventDigests(p, sdk, events).Some? ==>
              |EventDigests(p, sdk, events).value| == |events| && Sizes(EventDigests(p, sdk, events).value)
    ensures EventDigests(p, sdk, events).Some? ==> forall i :: 0 <= i < |events| ==>
              EventDigest(p, sdk, events[i]) == Some(EventDigests(p, sdk, events).value[i])
  {
    if events != [] {
      DigestsAre48(p, sdk, events[..|events| - 1]);
    }
  }

  /** Two logs accepted against one quote have the same register-3 digests, or their replays break the hash. */
  lemma AcceptedLogsAgree(p: Platform, sdk: Sdk, a: seq<Entry>, b: seq<Entry>, quoted: bytes)
    requires p.Sized()
    requires Accepted(p, sdk, a, quoted) && Accepted(p, sdk, b, quoted)
    ensures var x := EventDigests(p, sdk, Only3(a)).value;
            var y := EventDigests(p, sdk, Only3(b)).value;
            x == y || Broken(p, Inputs(p, x), Inputs(p, y))
  {
    DigestsAre48(p, sdk, Only3(a));
    DigestsAre48(p, sdk, Only3(b));
    RegisterBinds(p, EventDigests(p, sdk, Only3(a)).value, EventDigests(p, sdk, Only3(b)).value);
  }

  /**
   * Two runtime events with one digest have the same name and payload bytes, if their names hold
   * no colon, or their preimages collide.
   */
  lemma RuntimeEventBinds(p: Platform, sdk: Sdk, d: Entry, e: Entry)
    requires d.kind == RUNTIME && e.kind == RUNTIME
    requires EventDigest(p, sdk, d).Some? && EventDigest(p, sdk, d) == EventDigest(p, sdk, e)
    requires COLON !in p.utf8(d.event) && COLON !in p.utf8(e.event)
    ensures Payload(sdk, d.payload).Some? && Payload(sdk, e.payload).Some?
    ensures var x := Preimage(p, d.event, Payload(sdk, d.payload).value);
            var y := Preimage(p, e.event, Payload(sdk, e.payload).value);
            || (p.utf8(d.event) == p.utf8(e.event) && Payload(sdk, d.payload) == Payload(sdk, e.payload))
            || (x != y && p.sha384(x) == p.sha384(y))
  {
    hide Payload, Unhex, Digits;
    var x := Preimage(p, d.event, Payload(sdk, d.payload).value);
    var y := Preimage(p, e.event, Payload(sdk, e.payload).value);
    if x == y {
      var m, n := p.utf8(d.event), p.utf8(e.event);
      assert x == [1, 0, 0, 8, COLON] + m + [COLON] + Payload(sdk, d.payload).value;
      assert y == [1, 0, 0, 8, COLON] + n + [COLON] + Payload(sdk, e.payload).value;
      assert x[5..] == m + [COLON] + Payload(sdk, d.payload).value;
      assert y[5..] == n + [COLON] + Payload(sdk, e.payload).value;
      FirstColon(m, n, Payload(sdk, d.payload).value, Payload(sdk, e.payload).value);
    }
  }

  lemma FirstColon(m: bytes, n: bytes, s: bytes, t: bytes)
    requires COLON !in m && COLON !in n
    requires m + [COLON] + s == n + [COLON] + t
    ensures m == n && s == t
  {
    var x := m + [COLON] + s;
    assert x[|m|] == COLON && x[|n|] == COLON;
    assert forall i :: 0 <= i < |m| ==> x[i] == m[i] && m[i] in m;
    assert forall i :: 0 <= i < |n| ==> x[i] == n[i] && n[i] in n;
    assert |m| == |n|;
    assert m == x[..|m|] && n == x[..|n|];
    assert s == x[|m| + 1..] && t == x[|n| + 1..];
  }

  // ----- Where the SDKs part -----

  predicate BarePrefix(e: Entry) {
    e.kind == RUNTIME && (e.payload == "0x" || e.payload == "0X")
  }

  predicate NoBarePrefix(events: seq<Entry>) {
    forall i :: 0 <= i < |events| ==> !BarePrefix(events[i])
  }

  /** The SDKs' digests of an event agree unless its payload is a bare "0x", which only Rust reads as empty. */
  lemma DigestsAgree(p: Platform, e: Entry)
    ensures EventDigest(p, Go, e) == if BarePrefix(e) then None else EventDigest(p, Rust, e)
  {
    var s := e.payload;
    if Stripped(s) == "" && s != "" {
      assert s == s[..2];
      assert s == "0x" || s == "0X";
    }
  }

  /** Go accepts exactly the logs Rust accepts that have no such payload in register 3. */
  lemma {:induction false} EventsAgree(p: Platform, events: seq<Entry>)
    ensures EventDigests(p, Go, events) == if NoBarePrefix(events) then EventDigests(p, Rust, events) else None
  {
    hide EventDigest;
    if events != [] {
      var n := |events| - 1;
      EventsAgree(p, events[..n]);
      DigestsAgree(p, events[n]);
      assert NoBarePrefix(events) == (NoBarePrefix(events[..n]) && !BarePrefix(events[n])) by {
        assert forall i :: 0 <= i < n ==> events[i] == events[..n][i];
      }
    }
  }

  lemma SdksAgreeExactly(p: Platform, log: seq<Entry>, quoted: bytes)
    ensures Accepted(p, Go, log, quoted) <==> Accepted(p, Rust, log, quoted) && NoBarePrefix(Only3(log))
  {
    EventsAgree(p, Only3(log));
  }

  /** And there is such a log: one event whose payload is a bare "0x". */
  lemma BarePrefixDivides(p: Platform, quoted: bytes)
    ensures var e := Entry(Some(3), RUNTIME, "compose-hash", "0x", Some(""));
            && Accepted(p, Rust, [e], Register(p, [p.sha384(Preimage(p, "compose-hash", []))]))
            && !Accepted(p, Go, [e], quoted)
  {
    var e := Entry(Some(3), RUNTIME, "compose-hash", "0x", Some(""));
    assert Stripped("0x") == "";
    AcceptedAlone(p, Rust, e);
    NextDigest(p, Go, [], e);
    assert [] + [e] == [e];
    assert BarePrefix(e);
    DigestsAgree(p, e);
  }

  lemma AcceptedAlone(p: Platform, sdk: Sdk, e: Entry)
    requires e.imr == Some(3) && e.digest.Some? && EventDigest(p, sdk, e).Some?
    ensures Only3([e]) == [e]
    ensures Accepted(p, sdk, [e], Register(p, [EventDigest(p, sdk, e).value]))
  {
    hide EventDigest, Register;
    Alone(e);
    Nothing(p, sdk);
    NextDigest(p, sdk, [], e);
    var d := EventDigest(p, sdk, e).value;
    assert [] + [e] == [e] && [] + [d] == [d];
  }

  lemma Alone(e: Entry)
    requires e.imr == Some(3)
    ensures Only3([e]) == [e]
  {
    Next3([e], 0);
    assert [e][..1] == [e] && [e][..0] == [];
  }
}
