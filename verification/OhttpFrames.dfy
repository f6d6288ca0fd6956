/**
 * Chunked OHTTP: the frames a message is sealed into, and the reader of go/ohttp.go that opens
 * them. Encryption is an ideal box: `open` succeeds on what was sealed and on nothing else.
 */
module OhttpFrames {
  import opened Bytes
  import opened Octets
  import opened Streams
  import opened Varint
  import opened Wrappers

  const CHUNK := 16384
  const TAG := 16
  const MESSAGE_LIMIT := 0x4000_0000
  const COUNTER_LIMIT := 0x1_0000_0000
  const FINAL: bytes := [0x66, 0x69, 0x6e, 0x61, 0x6c]

  function Aad(final: bool): bytes {
    if final then FINAL else []
  }

  // ----- Nonces -----

  /** Exclusive or of the low `n` bits. */
  function XorBits(a: nat, b: nat, n: nat): nat {
    if n == 0 then 0 else (if a % 2 == b % 2 then 0 else 1) + 2 * XorBits(a / 2, b / 2, n - 1)
  }

  function Pow2(n: nat): nat {
    if n == 0 then 1 else 2 * Pow2(n - 1)
  }

  lemma {:induction false} XorBitsBound(a: nat, b: nat, n: nat)
    ensures XorBits(a, b, n) < Pow2(n)
  {
    if n > 0 {
      XorBitsBound(a / 2, b / 2, n - 1);
    }
  }

  lemma {:induction false} XorBitsInjective(a: nat, x: nat, y: nat, n: nat)
    requires x < Pow2(n) && y < Pow2(n) && XorBits(a, x, n) == XorBits(a, y, n)
    ensures x == y
  {
    if n > 0 {
      var u, v := XorBits(a / 2, x / 2, n - 1), XorBits(a / 2, y / 2, n - 1);
      assert x % 2 == y % 2 && u == v;
      XorBitsInjective(a / 2, x / 2, y / 2, n - 1);
    }
  }

  function Xor(a: byte, b: byte): byte {
    XorBitsBound(a, b, 8);
    assert Pow2(4) == 16;
    XorBits(a, b, 8)
  }

  lemma XorInjective(a: byte, x: byte, y: byte)
    requires Xor(a, x) == Xor(a, y)
    ensures x == y
  {
    assert Pow2(4) == 16;
    assert Pow2(8) == 256;
    XorBitsInjective(a, x, y, 8);
  }

  function Bit(a: nat, i: nat): nat {
    if i == 0 then a % 2 else Bit(a / 2, i - 1)
  }

  /** A bit of the result is set where exactly one of the two is. */
  lemma {:induction false} XorBitwise(a: nat, b: nat, n: nat, i: nat)
    requires i < n
    ensures Bit(XorBits(a, b, n), i) == if Bit(a, i) == Bit(b, i) then 0 else 1
  {
    if i > 0 {
      XorBitwise(a / 2, b / 2, n - 1, i - 1);
    }
  }

  lemma {:induction false} XorZero(a: nat, n: nat)
    requires a < Pow2(n)
    ensures XorBits(a, 0, n) == a
  {
    if n > 0 {
      XorZero(a / 2, n - 1);
    }
  }

  function XorBytes(a: bytes, b: bytes): (r: bytes)
    requires |a| == |b|
    ensures |r| == |a|
  {
    seq(|a|, i requires 0 <= i < |a| => Xor(a[i], b[i]))
  }

  /** The nonce of chunk `counter`: the counter is xored into the last eight bytes. */
  function Nonce(base: bytes, counter: nat): bytes
    requires |base| >= 8
  {
    base[..|base| - 8] + XorBytes(base[|base| - 8..], BigEndian(counter, 8))
  }

  /** No two chunks of a message share a nonce. */
  lemma NoncesDistinct(base: bytes, i: nat, j: nat)
    requires |base| >= 8 && i < Pow256(8) && j < Pow256(8)
    requires Nonce(base, i) == Nonce(base, j)
    ensures i == j
  {
    var a, x, y := base[|base| - 8..], BigEndian(i, 8), BigEndian(j, 8);
    var m := |base| - 8;
    assert Nonce(base, i)[m..] == XorBytes(a, x);
    assert Nonce(base, j)[m..] == XorBytes(a, y);
    forall k | 0 <= k < 8 ensures x[k] == y[k] {
      assert XorBytes(a, x)[k] == XorBytes(a, y)[k];
      XorInjective(a[k], x[k], y[k]);
    }
    assert x == y;
    BigEndianRoundTrip(i, 8);
    BigEndianRoundTrip(j, 8);
  }

  /** The bits of `r` are those of `a`, inverted where `b` has a one. */
  predicate Flipped(r: byte, a: byte, b: nat) {
    forall j :: 0 <= j < 8 ==> Bit(r, j) == if Bit(a, j) == Bit(b, j) then 0 else 1
  }

  lemma XorFlips(a: byte, b: byte)
    ensures Flipped(Xor(a, b), a, b)
  {
    hide XorBits, Bit;
    forall j | 0 <= j < 8 ensures Bit(Xor(a, b), j) == if Bit(a, j) == Bit(b, j) then 0 else 1 {
      XorBitwise(a, b, 8, j);
    }
  }

  /**
   * Where the counter goes: it is exclusive-ored, big-endian, into the last eight bytes; what
   * precedes them is the base's, and the first chunk's nonce is the base itself.
   */
  lemma NonceLayout(base: bytes, counter: nat)
    requires |base| >= 8
    ensures var n := |base|;
            && |Nonce(base, counter)| == n && Nonce(base, counter)[..n - 8] == base[..n - 8]
            && forall k :: n - 8 <= k < n ==>
                 Flipped(Nonce(base, counter)[k], base[k], Shifted(counter, n - 1 - k) % 256)
    ensures Nonce(base, 0) == base
  {
    var n := |base|;
    forall k | n - 8 <= k < n
      ensures Flipped(Nonce(base, counter)[k], base[k], Shifted(counter, n - 1 - k) % 256)
    {
      NonceAt(base, counter, k);
    }
    forall k | n - 8 <= k < n ensures Nonce(base, 0)[k] == base[k] {
      NonceAt(base, 0, k);
    }
    assert Nonce(base, 0) == base;
  }

  lemma NonceAt(base: bytes, counter: nat, k: nat)
    requires |base| - 8 <= k < |base| && |base| >= 8
    ensures Flipped(Nonce(base, counter)[k], base[k], Shifted(counter, |base| - 1 - k) % 256)
    ensures Nonce(base, 0)[k] == base[k]
  {
    hide Flipped, Pow256, XorBits, BigEndian;
    var i := k - (|base| - 8);
    assert Nonce(base, counter)[k] == Xor(base[k], BigEndian(counter, 8)[i]);
    BigEndianAt(counter, 8, i);
    XorFlips(base[k], BigEndian(counter, 8)[i]);
    BigEndianAt(0, 8, i);
    ShiftedZero(7 - i);
    assert BigEndian(0, 8)[i] == 0;
    ByteFits(base[k]);
    XorZero(base[k], 8);
  }

  lemma ByteFits(b: byte)
    ensures b < Pow2(8)
  {
    assert Pow2(4) == 16;
  }

  // ----- Sealing -----

  /** One chunk as its sender sealed it. */
  datatype Sealed = Sealed(plain: bytes, cipher: bytes)

  /**
   * An ideal box: it remembers the chunks of one message, each under its nonce and its role, and
   * opens these and nothing else.
   */
  datatype Box = Box(base: bytes, sealed: seq<Sealed>)
  {
    predicate Valid() {
      |base| >= 8 && |sealed| <= Pow256(8)
    }

    function Open(nonce: bytes, aad: bytes, cipher: bytes): Option<bytes>
      requires Valid()
    {
      Lookup(nonce, aad, cipher, 0)
    }

    function Lookup(nonce: bytes, aad: bytes, cipher: bytes, k: nat): Option<bytes>
      requires Valid()
      decreases |sealed| - k
    {
      if k >= |sealed| then None
      else if nonce == Nonce(base, k) && aad == Aad(k == |sealed| - 1) && cipher == sealed[k].cipher then
        Some(sealed[k].plain)
      else Lookup(nonce, aad, cipher, k + 1)
    }
  }

  lemma {:induction false} LookedUp(box: Box, from: nat, k: nat, final: bool, cipher: bytes)
    requires box.Valid() && from <= k < Pow256(8)
    ensures box.Lookup(Nonce(box.base, k), Aad(final), cipher, from) ==
            if k < |box.sealed| && (final <==> k == |box.sealed| - 1) && cipher == box.sealed[k].cipher
            then Some(box.sealed[k].plain) else None
    decreases k - from
  {
    hide Nonce;
    if from < |box.sealed| {
      if from < k {
        if Nonce(box.base, k) == Nonce(box.base, from) {
          NoncesDistinct(box.base, k, from);
        }
        LookedUp(box, from + 1, k, final, cipher);
      } else {
        LookedPast(box, k, final, cipher, k + 1);
      }
    }
  }

  lemma {:induction false} LookedPast(box: Box, k: nat, final: bool, cipher: bytes, from: nat)
    requires box.Valid() && k < from && k < Pow256(8)
    ensures box.Lookup(Nonce(box.base, k), Aad(final), cipher, from) == None
    decreases |box.sealed| - from
  {
    hide Nonce;
    if from < |box.sealed| {
      if Nonce(box.base, k) == Nonce(box.base, from) {
        NoncesDistinct(box.base, k, from);
      }
      LookedPast(box, k, final, cipher, from + 1);
    }
  }

  /** What opening chunk `k` tells: it is the k-th sealed chunk, in its place. */
  lemma Opened(box: Box, k: nat, final: bool, cipher: bytes)
    requires box.Valid() && k < Pow256(8)
    ensures box.Open(Nonce(box.base, k), Aad(final), cipher) ==
            if k < |box.sealed| && (final <==> k == |box.sealed| - 1) && cipher == box.sealed[k].cipher
            then Some(box.sealed[k].plain) else None
  {
    LookedUp(box, 0, k, final, cipher);
  }

  function Plain(sealed: seq<Sealed>, k: nat): bytes
    decreases |sealed| - k
  {
    if k >= |sealed| then [] else sealed[k].plain + Plain(sealed, k + 1)
  }

  /** The frames from chunk `k` on; the last one has length zero and runs to the end. */
  function Wire(sealed: seq<Sealed>, k: nat): bytes
    decreases |sealed| - k
  {
    if k >= |sealed| then []
    else if k == |sealed| - 1 then Encode(0) + sealed[k].cipher
    else Encode(|sealed[k].cipher|) + sealed[k].cipher + Wire(sealed, k + 1)
  }

  // ----- Reading -----

  datatype Frame = Frame(final: bool, cipher: bytes, next: nat)

  function FrameAt(wire: bytes, ending: Ending, p: nat): (r: Result<Frame>)
    requires p <= |wire|
    ensures r.Ok? ==> p < r.value.next <= |wire|
    ensures r.Ok? && r.value.final ==> r.value.next == |wire| && ending.Eof?
  {
    match ReadAt(wire, ending, p, false)
    case Err => Err
    case Ok((size, q)) =>
      if size > CHUNK + TAG then Err
      else if size == 0 then
        var cipher := wire[q..];
        if ending.Broken? || |cipher| > CHUNK + TAG || |cipher| < TAG then Err
        else Ok(Frame(true, cipher, |wire|))
      else if q + size > |wire| || size <= TAG then Err
      else Ok(Frame(false, wire[q..q + size], q + size))
  }

  /** The plaintext of the frame read next, if every check on it passes. */
  function NextPlain(box: Box, wire: bytes, ending: Ending,
                     p: nat, counter: nat, total: nat): (r: Result<(bytes, Frame)>)
    requires p <= |wire| && box.Valid()
    ensures r.Ok? ==> p < r.value.1.next <= |wire|
  {
    match FrameAt(wire, ending, p)
    case Err => Err
    case Ok(frame) =>
      if counter >= COUNTER_LIMIT then Err
      else match box.Open(Nonce(box.base, counter), Aad(frame.final), frame.cipher)
        case None => Err
        case Some(plain) => if total + |plain| > MESSAGE_LIMIT then Err else Ok((plain, frame))
  }

  /** Everything the reader hands out from frame `counter` at position `p` on, and how it ends. */
  function DecryptFrom(box: Box, wire: bytes, ending: Ending,
                       p: nat, counter: nat, total: nat): Play
    requires p <= |wire| && box.Valid()
    decreases |wire| - p
  {
    match NextPlain(box, wire, ending, p, counter, total)
    case Err => Play([], Failed)
    case Ok((plain, frame)) =>
      if frame.final then Play(plain, Finished)
      else
        var rest := DecryptFrom(box, wire, ending, frame.next, counter + 1, total + |plain|);
        Play(plain + rest.out, rest.fate)
  }

  // ----- Authenticity: no accepted wire says anything but the message -----

  /** A play that betrays nothing and, if it ends well, misses nothing of the message. */
  ghost predicate Sound(r: Play, sealed: seq<Sealed>, k: nat, left: nat, ending: Ending) {
    && r.out <= Plain(sealed, k)
    && (r.fate.Finished? ==>
          && ending.Eof? && k < |sealed| && r.out == Plain(sealed, k)
          && left >= |Wire(sealed, k)|)
  }

  lemma SoundNothing(sealed: seq<Sealed>, k: nat, left: nat, ending: Ending)
    ensures Sound(Play([], Failed), sealed, k, left, ending)
  {
  }

  lemma SoundLast(sealed: seq<Sealed>, k: nat, left: nat)
    requires k == |sealed| - 1 && left >= Width(0) + |sealed[k].cipher|
    ensures Sound(Play(sealed[k].plain, Finished), sealed, k, left, Eof)
  {
    assert Plain(sealed, k) == sealed[k].plain + Plain(sealed, k + 1) == sealed[k].plain;
  }

  lemma SoundMore(rest: Play, sealed: seq<Sealed>, k: nat, used: nat, left: nat, ending: Ending)
    requires k < |sealed| - 1 && used >= Width(|sealed[k].cipher|) + |sealed[k].cipher|
    requires Sound(rest, sealed, k + 1, left, ending)
    ensures Sound(Play(sealed[k].plain + rest.out, rest.fate), sealed, k, used + left, ending)
  {
    PrefixAppend(sealed[k].plain, rest.out, Plain(sealed, k + 1));
  }

  lemma NextPlainIsSealed(box: Box,
                          wire: bytes, ending: Ending, p: nat, k: nat, total: nat)
    requires box.Valid() && p <= |wire|
    requires NextPlain(box, wire, ending, p, k, total).Ok?
    ensures var (plain, frame) := NextPlain(box, wire, ending, p, k, total).value;
            && k < |box.sealed| && plain == box.sealed[k].plain && (frame.final <==> k == |box.sealed| - 1)
            && p < frame.next <= |wire| && (frame.final ==> frame.next == |wire| && ending.Eof?)
            && frame.next - p >= Width(if frame.final then 0 else |box.sealed[k].cipher|) + |box.sealed[k].cipher|
  {
    var frame := FrameAt(wire, ending, p).value;
    CounterFits(k);
    Opened(box, k, frame.final, frame.cipher);
    FrameLength(wire, ending, p);
  }

  /**
   * Whatever arrives, the reader hands out a prefix of the sealed message; if it ends with end
   * of file it has handed out all of it, and the wire was at least as long as the honest one.
   */
  lemma {:induction false} Authentic(box: Box,
                                     wire: bytes, ending: Ending, p: nat, k: nat, total: nat)
    requires box.Valid() && p <= |wire|
    ensures Sound(DecryptFrom(box, wire, ending, p, k, total), box.sealed, k, |wire| - p, ending)
    decreases |wire| - p
  {
    hide Sound;
    hide Width;
    hide NextPlain;
    hide Box.Valid;
    if NextPlain(box, wire, ending, p, k, total).Err? {
      SoundNothing(box.sealed, k, |wire| - p, ending);
      return;
    }
    NextPlainIsSealed(box, wire, ending, p, k, total);
    var (plain, frame) := NextPlain(box, wire, ending, p, k, total).value;
    if frame.final {
      SoundLast(box.sealed, k, |wire| - p);
    } else {
      Authentic(box, wire, ending, frame.next, k + 1, total + |plain|);
      var rest := DecryptFrom(box, wire, ending, frame.next, k + 1, total + |plain|);
      SoundMore(rest, box.sealed, k, frame.next - p, |wire| - frame.next, ending);
    }
  }

  /**
   * What a wire must be for the reader to end well with `out`, said without the reader: each frame
   * but the last carries its length, a tag and at least one byte, and opens under the nonce of its
   * place and no associated data; the last has length zero, runs to the end of a wire that was
   * not broken off, and opens under the word "final".
   */
  predicate Opens(box: Box, wire: bytes, ending: Ending, p: nat, k: nat, total: nat, out: bytes)
    requires p <= |wire| && box.Valid()
    decreases |wire| - p
  {
    ReadAt(wire, ending, p, false).Ok? && k < 0x1_0000_0000 &&
    var (size, q) := ReadAt(wire, ending, p, false).value;
    if size == 0 then
      && ending.Eof? && 16 <= |wire| - q <= 16400
      && box.Open(Nonce(box.base, k), [0x66, 0x69, 0x6e, 0x61, 0x6c], wire[q..]) == Some(out)
      && total + |out| <= 0x4000_0000
    else
      && 16 < size <= 16400 && q + size <= |wire|
      && box.Open(Nonce(box.base, k), [], wire[q..q + size]).Some?
      && var plain := box.Open(Nonce(box.base, k), [], wire[q..q + size]).value;
         && plain <= out && total + |plain| <= 0x4000_0000
         && Opens(box, wire, ending, q + size, k + 1, total + |plain|, out[|plain|..])
  }

  /** What the next frame must be, in the same words. */
  lemma NextOpens(box: Box, wire: bytes, ending: Ending, p: nat, k: nat, total: nat)
    requires p <= |wire| && box.Valid()
    ensures match NextPlain(box, wire, ending, p, k, total)
            case Err => forall out :: !Opens(box, wire, ending, p, k, total, out)
            case Ok((plain, frame)) =>
              forall out :: Opens(box, wire, ending, p, k, total, out) <==>
                if frame.final then out == plain
                else plain <= out && Opens(box, wire, ending, frame.next, k + 1, total + |plain|, out[|plain|..])
  {
    hide Nonce, Box.Open, ReadAt, Box.Valid;
  }

  lemma {:induction false} FinishesExactly(box: Box, wire: bytes, ending: Ending, p: nat, k: nat, total: nat, out: bytes)
    requires p <= |wire| && box.Valid()
    ensures DecryptFrom(box, wire, ending, p, k, total) == Play(out, Finished)
            <==> Opens(box, wire, ending, p, k, total, out)
    decreases |wire| - p
  {
    hide NextPlain, Opens, Box.Valid;
    NextOpens(box, wire, ending, p, k, total);
    match NextPlain(box, wire, ending, p, k, total)
    case Err =>
    case Ok((plain, frame)) =>
      if !frame.final {
        var rest := DecryptFrom(box, wire, ending, frame.next, k + 1, total + |plain|);
        if plain <= out {
          FinishesExactly(box, wire, ending, frame.next, k + 1, total + |plain|, out[|plain|..]);
          assert plain + out[|plain|..] == out;
        }
        assert (plain + rest.out)[|plain|..] == rest.out;
      }
  }

  lemma CounterFits(k: nat)
    requires k <= COUNTER_LIMIT
    ensures k < Pow256(8)
  {
    Powers();
  }

  lemma PrefixAppend(a: bytes, b: bytes, c: bytes)
    requires b <= c
    ensures a + b <= a + c
  {
  }

  /** A frame takes at least its shortest encoding. */
  lemma FrameLength(wire: bytes, ending: Ending, p: nat)
    requires p <= |wire| && FrameAt(wire, ending, p).Ok?
    ensures var f := FrameAt(wire, ending, p).value;
            f.next - p >= Width(if f.final then 0 else |f.cipher|) + |f.cipher|
  {
    ShortestEncoding(wire, p);
  }

  // ----- Round trip -----

  /** The sizes and limits an honest sender keeps. */
  predicate WellSealed(sealed: seq<Sealed>) {
    && 0 < |sealed| <= COUNTER_LIMIT
    && |Plain(sealed, 0)| <= MESSAGE_LIMIT
    && forall k :: 0 <= k < |sealed| ==>
         && TAG <= |sealed[k].cipher| <= CHUNK + TAG
         && (k < |sealed| - 1 ==> |sealed[k].cipher| > TAG)
  }

  lemma LastFrame(before: bytes, c: bytes)
    requires TAG <= |c| <= CHUNK + TAG
    ensures var wire := before + (Encode(0) + c);
            FrameAt(wire, Eof, |before|) == Ok(Frame(true, c, |wire|))
  {
    var wire := before + (Encode(0) + c);
    Assoc(before, Encode(0), c);
    RoundTrip(0, before, c);
    assert wire[|before| + Width(0)..] == c;
  }

  lemma MiddleFrame(before: bytes, c: bytes, rest: bytes)
    requires TAG < |c| <= CHUNK + TAG
    ensures var wire := before + (Encode(|c|) + c + rest);
            FrameAt(wire, Eof, |before|) == Ok(Frame(false, c, |wire| - |rest|))
    ensures before + (Encode(|c|) + c + rest) == (before + (Encode(|c|) + c)) + rest
  {
    var wire := before + (Encode(|c|) + c + rest);
    Assoc(Encode(|c|), c, rest);
    Assoc(before, Encode(|c|), c + rest);
    Assoc(before, Encode(|c|) + c, rest);
    RoundTrip(|c|, before, c + rest);
    var q := |before| + Width(|c|);
    assert wire[q..q + |c|] == c;
  }

  /** The honest wire is read back to exactly the message, and the first error is end of file. */
  lemma {:induction false} HonestDecrypts(box: Box,
                                          before: bytes, k: nat, total: nat)
    requires box.Valid() && WellSealed(box.sealed) && k < |box.sealed|
    requires total + |Plain(box.sealed, k)| <= MESSAGE_LIMIT
    ensures DecryptFrom(box, before + Wire(box.sealed, k), Eof, |before|, k, total) ==
            Play(Plain(box.sealed, k), Finished)
    decreases |box.sealed| - k
  {
    hide FrameAt;
    hide Nonce;
    hide Encode;
    CounterFits(k);
    var c, final := box.sealed[k].cipher, k == |box.sealed| - 1;
    Opened(box, k, final, c);
    if final {
      LastFrame(before, c);
      assert Plain(box.sealed, k) == box.sealed[k].plain + [];
    } else {
      MiddleFrame(before, c, Wire(box.sealed, k + 1));
      HonestDecrypts(box, before + (Encode(|c|) + c), k + 1, total + |box.sealed[k].plain|);
    }
  }

  /** A wire that was cut anywhere is never accepted. */
  lemma TruncationFails(box: Box, wire: bytes, ending: Ending)
    requires box.Valid()
    requires wire < Wire(box.sealed, 0)
    ensures DecryptFrom(box, wire, ending, 0, 0, 0).fate.Failed?
  {
    Authentic(box, wire, ending, 0, 0, 0);
  }

  // ----- go/ohttp.go: the sealing loop of RoundTrip -----

  /** context.Seal: sequence number, AAD and plaintext to ciphertext. */
  type Seal = (nat, bytes, bytes) -> bytes

  function Chunks(n: nat): nat {
    (n + CHUNK - 1) / CHUNK
  }

  function SealChunk(seal: Seal, plain: bytes, k: nat): Sealed
    requires k < Chunks(|plain|)
  {
    var from := k * CHUNK;
    var to := if from + CHUNK < |plain| then from + CHUNK else |plain|;
    var chunk := plain[from..to];
    Sealed(chunk, seal(k, Aad(k == Chunks(|plain|) - 1), chunk))
  }

  function SealAll(seal: Seal, plain: bytes): (s: seq<Sealed>)
    ensures |s| == Chunks(|plain|)
  {
    seq(Chunks(|plain|), k requires 0 <= k < Chunks(|plain|) => SealChunk(seal, plain, k))
  }

  lemma ChunkBounds(n: nat, k: nat)
    requires k <= Chunks(n)
    ensures k * CHUNK < n <==> k < Chunks(n)
    ensures k < Chunks(n) ==> (k * CHUNK + CHUNK >= n <==> k == Chunks(n) - 1)
  {
  }

  lemma WireIsFrames(seal: Seal, plain: bytes)
    ensures Wire(SealAll(seal, plain), 0) == Frames(seal, plain, 0)
  {
    if plain != [] {
      SealedFrames(seal, plain, 0);
    }
  }

  /**
   * What is sent, said without the loop: every chunk but the last has 16384 bytes, is sealed under
   * its number and no associated data, and is preceded by its length; the last is sealed under the
   * word "final" and preceded by a zero.
   */
  function Frames(seal: Seal, plain: bytes, k: nat): bytes
    requires k * 16384 <= |plain|
    decreases |plain| - k * 16384
  {
    var rest := plain[k * 16384..];
    if rest == [] then []
    else if |rest| <= 16384 then Encode(0) + seal(k, [0x66, 0x69, 0x6e, 0x61, 0x6c], rest)
    else
      var chunk := seal(k, [], rest[..16384]);
      Encode(|chunk|) + chunk + Frames(seal, plain, k + 1)
  }

  lemma {:induction false} SealedFrames(seal: Seal, plain: bytes, k: nat)
    requires k * 16384 < |plain|
    ensures Wire(SealAll(seal, plain), k) == Frames(seal, plain, k)
    decreases |plain| - k * 16384
  {
    hide Encode;
    var sealed := SealAll(seal, plain);
    ChunkBounds(|plain|, k);
    var rest := plain[k * 16384..];
    if |rest| <= 16384 {
      assert plain[k * CHUNK..|plain|] == rest;
    } else {
      assert plain[k * CHUNK..k * CHUNK + CHUNK] == rest[..16384];
      SealedFrames(seal, plain, k + 1);
    }
  }

  method SealRequest(seal: Seal, plain: bytes) returns (wire: bytes)
    ensures wire == Wire(SealAll(seal, plain), 0)
    ensures wire == Frames(seal, plain, 0)
  {
    hide Frames, SealAll, SealChunk, Chunks, Wire, Encode, Aad;
    wire := [];
    var off, sequence := 0, 0;
    ghost var sealed := SealAll(seal, plain);
    ChunkBounds(|plain|, 0);
    while off < |plain|
      invariant off == sequence * CHUNK && sequence <= Chunks(|plain|)
      invariant off < |plain| <==> sequence < Chunks(|plain|)
      invariant wire + Wire(sealed, sequence) == Wire(sealed, 0)
    {
      var end := if off + CHUNK < |plain| then off + CHUNK else |plain|;
      var final := end == |plain|;
      SealStep(seal, plain, sequence, wire);
      var chunk := seal(sequence, Aad(final), plain[off..end]);
      var length := if final then 0 else |chunk|;
      wire := wire + Encode(length);
      wire := wire + chunk;
      off := off + CHUNK;
      sequence := sequence + 1;
      ChunkBounds(|plain|, sequence);
    }
    WireEnd(sealed, sequence);
    WireIsFrames(seal, plain);
  }

  /** One turn of the loop. */
  lemma SealStep(seal: Seal, plain: bytes, k: nat, wire: bytes)
    requires k < Chunks(|plain|)
    ensures var from := k * CHUNK;
            var to := if from + CHUNK < |plain| then from + CHUNK else |plain|;
            && from <= to <= |plain|
            && var chunk := seal(k, Aad(to == |plain|), plain[from..to]);
               wire + Encode(if to == |plain| then 0 else |chunk|) + chunk + Wire(SealAll(seal, plain), k + 1)
               == wire + Wire(SealAll(seal, plain), k)
  {
    ChunkBounds(|plain|, k);
    hide Wire, Encode, Aad;
    WireStep(wire, SealAll(seal, plain), k);
  }

  lemma WireEnd(sealed: seq<Sealed>, k: nat)
    requires k >= |sealed|
    ensures Wire(sealed, k) == []
  {
  }

  lemma WireStep(wire: bytes, sealed: seq<Sealed>, k: nat)
    requires k < |sealed|
    ensures var c := sealed[k].cipher;
            wire + Wire(sealed, k) ==
            wire + Encode(if k == |sealed| - 1 then 0 else |c|) + c + Wire(sealed, k + 1)
  {
    var c := sealed[k].cipher;
    var head := Encode(if k == |sealed| - 1 then 0 else |c|);
    Assoc(wire, head, c);
    Assoc(wire, head + c, Wire(sealed, k + 1));
    assert Wire(sealed, k) == head + c + Wire(sealed, k + 1);
  }

  lemma {:induction false} SealAllPlain(seal: Seal, plain: bytes, k: nat)
    requires k <= Chunks(|plain|)
    ensures Plain(SealAll(seal, plain), k) == plain[if k * CHUNK < |plain| then k * CHUNK else |plain|..]
    decreases Chunks(|plain|) - k
  {
    if k < Chunks(|plain|) {
      SealAllPlain(seal, plain, k + 1);
      var from := k * CHUNK;
      var to := if from + CHUNK < |plain| then from + CHUNK else |plain|;
      SliceSplit(plain, from, to, |plain|);
      assert plain[from..|plain|] == plain[from..] && plain[to..|plain|] == plain[to..];
    }
  }

  /**
   * What this loop seals is what such a reader opens: any nonempty message within the limit
   * comes back whole, and nothing but the whole of it is ever accepted.
   */
  lemma SealedRequestOpens(seal: Seal, base: bytes, plain: bytes)
    requires 0 < |plain| <= MESSAGE_LIMIT && |base| >= 8
    requires forall n, aad, chunk :: |seal(n, aad, chunk)| == |chunk| + TAG
    ensures var box := Box(base, SealAll(seal, plain));
            && box.Valid()
            && DecryptFrom(box, Wire(box.sealed, 0), Eof, 0, 0, 0) == Play(plain, Finished)
  {
    var sealed := SealAll(seal, plain);
    SealAllPlain(seal, plain, 0);
    CounterFits(|sealed|);
    assert WellSealed(sealed);
    assert [] + Wire(sealed, 0) == Wire(sealed, 0);
    HonestDecrypts(Box(base, sealed), [], 0, 0);
  }

  // ----- go/ohttp.go: ohttpDecryptReader -----

  class DecryptReader {
    const reader: Stream
    const box: Box
    var counter: nat
    var total: nat
    var pending: bytes
    var final: bool

    // What the caller has received, and whether it was told of an error.
    ghost var delivered: bytes
    ghost var reported: bool

    ghost function Promise(): Play
      requires box.Valid()
    {
      DecryptFrom(box, reader.data, reader.ending, 0, 0, 0)
    }

    ghost predicate Running()
      reads this, reader
    {
      && box.Valid() && reader.Valid() && !final
      && var later := DecryptFrom(box, reader.data, reader.ending, reader.pos, counter, total);
         (Promise() == Play(delivered + pending + later.out, later.fate))
    }

    ghost predicate Over()
      reads this, reader
    {
      && box.Valid() && reader.Valid() && final
      && Promise() == Play(delivered + pending, Finished)
    }

    /** Only the first error is a promise; after it the reader owes nothing. */
    ghost predicate Valid()
      reads this, reader
    {
      box.Valid() && reader.Valid() && (!reported ==> Running() || Over())
    }

    constructor (box: Box, wire: bytes, ending: Ending)
      requires box.Valid()
      ensures Valid() && !reported && delivered == [] && fresh(reader)
      ensures this.box == box && reader.data == wire && reader.ending == ending
    {
      reader := new Stream(wire, ending);
      this.box := box;
      counter, total, pending, final := 0, 0, [], false;
      delivered, reported := [], false;
    }

    /** readBounded with the limit of one chunk: everything up to the end of the stream. */
    method ReadRest() returns (r: Result<bytes>)
      requires reader.Valid()
      modifies reader
      ensures reader.Valid()
      ensures r == if reader.ending.Broken? || |reader.data| - old(reader.pos) > CHUNK + TAG then Err
                   else Ok(reader.data[old(reader.pos)..])
      ensures r.Ok? ==> reader.pos == |reader.data|
    {
      if |reader.data| - reader.pos > CHUNK + TAG || reader.ending.Broken? {
        return Err;
      }
      assert reader.data[reader.pos..|reader.data|] == reader.data[reader.pos..];
      r := reader.ReadFull(|reader.data| - reader.pos);
    }

    /** One frame: its bytes, opened under the next nonce. */
    method NextChunk() returns (ok: bool)
      requires box.Valid() && reader.Valid() && !final && pending == []
      modifies this, reader
      ensures reader.Valid() && delivered == old(delivered) && reported == old(reported)
      ensures match NextPlain(box, reader.data, reader.ending, old(reader.pos), old(counter), old(total))
              case Err => !ok
              case Ok((plain, frame)) =>
                && ok && pending == plain && final == frame.final && reader.pos == frame.next
                && counter == old(counter) + 1 && total == old(total) + |plain|
    {
      hide Nonce, Aad, Box.Lookup, Box.Open;
      var size := reader.ReadVarint(false);
      if size.Err? {
        return false;
      }
      if counter >= COUNTER_LIMIT || size.value > CHUNK + TAG {
        return false;
      }
      final := size.value == 0;
      var encrypted;
      if final {
        encrypted := ReadRest();
      } else {
        encrypted := reader.ReadFull(size.value);
      }
      if encrypted.Err? || |encrypted.value| < TAG || (!final && |encrypted.value| == TAG) {
        return false;
      }
      var plain := box.Open(Nonce(box.base, counter), Aad(final), encrypted.value);
      if plain.None? {
        return false;
      }
      pending := plain.value;
      counter := counter + 1;
      total := total + |pending|;
      ok := total <= MESSAGE_LIMIT;
    }

    /**
     * Whatever sizes the caller reads with, it receives the promised bytes in order, and its
     * first error comes when it has all of them and is the promised one.
     */
    method Read(size: nat) returns (step: Step)
      requires Valid()
      modifies this, reader
      ensures Valid()
      ensures !old(reported) && step.Bytes? ==>
                delivered == old(delivered) + step.data && !reported && delivered <= Promise().out
      ensures step.Bytes? ==> |step.data| <= size && (size > 0 ==> step.data != [])
      ensures step.Error? ==> reported
      ensures !old(reported) && step.Error? ==>
                delivered == old(delivered) && Promise() == Play(delivered, step.fate)
    {
      hide DecryptFrom;
      hide NextPlain;
      hide Box.Valid;
      if size == 0 {
        return Bytes([]);
      }
      while |pending| == 0
        invariant Valid() && delivered == old(delivered) && reported == old(reported)
        decreases !final, |reader.data| - reader.pos
      {
        if final {
          reported := true;
          return Error(Finished);
        }
        assert delivered + pending == delivered;
        DecryptStep(box, reader.data, reader.ending, reader.pos, counter, total);
        var ok := NextChunk();
        if !ok {
          reported := true;
          return Error(Failed);
        }
        if final {
          assert delivered + pending + [] == delivered + pending;
        } else {
          Assoc(delivered, pending, DecryptFrom(box, reader.data, reader.ending, reader.pos, counter, total).out);
        }
      }
      var n := if |pending| < size then |pending| else size;
      step := Bytes(pending[..n]);
      assert delivered + pending == (delivered + pending[..n]) + pending[n..];
      delivered := delivered + pending[..n];
      pending := pending[n..];
    }
  }

  lemma DecryptStep(box: Box, wire: bytes, ending: Ending, p: nat, counter: nat, total: nat)
    requires box.Valid() && p <= |wire|
    ensures DecryptFrom(box, wire, ending, p, counter, total) ==
            match NextPlain(box, wire, ending, p, counter, total)
            case Err => Play([], Failed)
            case Ok((plain, frame)) =>
              if frame.final then Play(plain, Finished)
              else
                var rest := DecryptFrom(box, wire, ending, frame.next, counter + 1, total + |plain|);
                Play(plain + rest.out, rest.fate)
  {
    hide NextPlain;
  }

  /** A caller that reads a wire with any sequence of buffer sizes. */
  method ReadWith(box: Box, wire: bytes, ending: Ending, sizes: seq<nat>)
    returns (out: bytes, fate: Option<Fate>)
    requires box.Valid()
    ensures fate.Some? ==> Play(out, fate.value) == DecryptFrom(box, wire, ending, 0, 0, 0)
    ensures fate == Some(Finished) ==> Opens(box, wire, ending, 0, 0, 0, out)
    ensures out <= Plain(box.sealed, 0)
    ensures fate == Some(Finished) ==> out == Plain(box.sealed, 0)
  {
    hide DecryptFrom, Opens;
    hide Box.Valid;
    var r := new DecryptReader(box, wire, ending);
    Authentic(box, wire, ending, 0, 0, 0);
    out := [];
    var k := 0;
    while k < |sizes|
      invariant k <= |sizes| && fresh(r) && fresh(r.reader)
      invariant r.box == box && r.reader.data == wire && r.reader.ending == ending
      invariant r.Valid() && !r.reported && r.delivered == out
      invariant out <= Plain(box.sealed, 0)
    {
      var step := r.Read(sizes[k]);
      match step {
        case Bytes(data) => out := out + data;
        case Error(f) =>
          FinishesExactly(box, wire, ending, 0, 0, 0, out);
          return out, Some(f);
      }
      k := k + 1;
    }
    fate := None;
  }
}
