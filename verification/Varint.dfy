/**
 * Variable-length integers (section 16 of RFC 9000): the Go and the Rust encoder, and the three
 * decoders the SDKs use.
 */
module Varint {
  import opened Bytes
  import opened Octets
  import opened Streams
  import opened Wrappers

  const LIMIT: nat := 0x4000_0000_0000_0000

  /** How many bytes an integer takes, and the two bits that say so. */
  function Width(v: nat): nat {
    if v < 0x40 then 1 else if v < 0x4000 then 2 else if v < 0x4000_0000 then 4 else 8
  }

  function Prefix(width: nat): nat {
    if width == 1 then 0 else if width == 2 then 1 else if width == 4 then 2 else 3
  }

  /** go/ohttp.go varint: `v` is a uint64, and 2^62 and above lose their two top bits. */
  function Encode(v: nat): (s: bytes)
    ensures |s| == Width(v)
  {
    if v < 0x40 then [v]
    else if v < 0x4000 then BigEndian(v + 0x4000, 2)
    else if v < 0x4000_0000 then BigEndian(v + 0x8000_0000, 4)
    else BigEndian(v % LIMIT + 0xc000_0000_0000_0000, 8)
  }

  /**
   * Read in network order, the bytes are the value below a tag of 0, 1, 2 or 3 in the two top bits,
   * which tells how many they are.
   */
  lemma Layout(v: nat)
    requires v < LIMIT
    ensures FromBigEndian(Encode(v)) ==
            v + if |Encode(v)| == 1 then 0
                else if |Encode(v)| == 2 then 0x4000
                else if |Encode(v)| == 4 then 0x8000_0000
                else 0xc000_0000_0000_0000
    ensures |Encode(v)| == if v < 0x40 then 1 else if v < 0x4000 then 2 else if v < 0x4000_0000 then 4 else 8
  {
    if v < 0x40 {
      assert Encode(v)[..0] == [];
    } else if v < 0x4000 {
      Powers();
      BigEndianRoundTrip(v + 0x4000, 2);
    } else if v < 0x4000_0000 {
      Powers();
      BigEndianRoundTrip(v + 0x8000_0000, 4);
    } else {
      Powers();
      BigEndianRoundTrip(v + 0xc000_0000_0000_0000, 8);
    }
  }

  /** rs/src/ohttp.rs varint: the low bytes of the prefixed 64-bit value. */
  function EncodeRust(v: nat): bytes {
    var width := Width(v);
    var bits := 8 * width - 2;
    var tagged := v % LIMIT + Prefix(width) * Shift(bits);
    BigEndian(tagged, 8)[8 - width..]
  }

  function Shift(bits: nat): nat {
    if bits == 0 then 1 else 2 * Shift(bits - 1)
  }

  /** An integer and the position after it, if all its bytes are there. */
  function DecodeAt(s: bytes, p: nat): (r: Option<(nat, nat)>)
    requires p <= |s|
    ensures r.Some? ==> p < r.value.1 <= |s|
  {
    if p == |s| then None
    else
      var size := Size(s[p]);
      if p + size > |s| then None
      else Some((Partial(s, p, size), p + size))
  }

  /** The value of the first `n` bytes of an integer at `p`. */
  function Partial(s: bytes, p: nat, n: nat): nat
    requires 1 <= n && p + n <= |s|
  {
    FromBigEndian([s[p] % 64] + s[p + 1..p + n])
  }

  lemma PartialStep(s: bytes, p: nat, n: nat)
    requires 1 <= n && p + n <= |s|
    ensures n == 1 ==> Partial(s, p, n) == s[p] % 64
    ensures p + n < |s| ==> Partial(s, p, n + 1) == Partial(s, p, n) * 256 + s[p + n]
  {
    var read := [s[p] % 64] + s[p + 1..p + n];
    assert read[..|read| - 1] + [read[|read| - 1]] == read;
    if n == 1 {
      assert read == [s[p] % 64] && read[..0] == [];
      assert FromBigEndian(read) == FromBigEndian(read[..0]) * 256 + s[p] % 64;
    }
    if p + n < |s| {
      var more := [s[p] % 64] + s[p + 1..p + n + 1];
      assert more == read + [s[p + n]];
      assert more[..|more| - 1] == read;
    }
  }

  /** The number of bytes announced by a first byte: 1 << (b >> 6). */
  function Size(b: byte): (n: nat)
    ensures n in {1, 2, 4, 8}
  {
    if b / 64 == 0 then 1 else if b / 64 == 1 then 2 else if b / 64 == 2 then 4 else 8
  }

  /** The outcome of reading an integer from a stream; a clean end may stand for zero. */
  function ReadAt(s: bytes, ending: Ending, p: nat, eofZero: bool): (r: Result<(nat, nat)>)
    requires p <= |s|
    ensures r.Ok? ==> p <= r.value.1 <= |s|
    ensures r.Ok? && !eofZero ==> p < r.value.1
  {
    if p == |s| then (if eofZero && ending.Eof? then Ok((0, p)) else Err)
    else match DecodeAt(s, p)
      case None => Err
      case Some((v, q)) => Ok((v, q))
  }

  /** At the end of a stream there is no integer, but the clean end of one may stand for zero where that is allowed. */
  lemma EndOfStream(s: bytes, ending: Ending, p: nat, eofZero: bool)
    requires p <= |s|
    ensures p == |s| ==> ReadAt(s, ending, p, eofZero) == if eofZero && ending == Eof then Ok((0, p)) else Err
    ensures p < |s| ==> (ReadAt(s, ending, p, eofZero).Err? <==>
                           p + (if s[p] < 0x40 then 1 else if s[p] < 0x80 then 2 else if s[p] < 0xc0 then 4 else 8) > |s|)
  {
  }

  // ----- Arithmetic -----

  lemma {:induction false} FromBigEndianBound(s: bytes)
    ensures FromBigEndian(s) < Pow256(|s|)
  {
    if s != [] {
      FromBigEndianBound(s[..|s| - 1]);
    }
  }

  lemma {:induction false} FromBigEndianZero(s: bytes)
    ensures FromBigEndian([0] + s) == FromBigEndian(s)
  {
    var z := [0] + s;
    if s == [] {
      assert z[..|z| - 1] == [];
    } else {
      FromBigEndianZero(s[..|s| - 1]);
      assert z[..|z| - 1] == [0] + s[..|s| - 1];
    }
  }

  /** Adding a multiple of the top place changes only the top byte. */
  lemma {:induction false} BigEndianTop(v: nat, n: nat, k: nat)
    requires n > 0 && v < Pow256(n) && BigEndian(v, n)[0] + k < 256
    ensures BigEndian(v + k * Pow256(n - 1), n) == [BigEndian(v, n)[0] + k] + BigEndian(v, n)[1..]
  {
    if n == 1 {
      assert BigEndian(v / 256, 0) == [];
      assert BigEndian((v + k) / 256, 0) == [];
      assert BigEndian(v, 1) == [v];
      assert BigEndian(v + k, 1) == [v + k];
    } else {
      var m := k * Pow256(n - 2);
      assert k * Pow256(n - 1) == 256 * m;
      assert (v + 256 * m) / 256 == v / 256 + m && (v + 256 * m) % 256 == v % 256;
      assert BigEndian(v, n) == BigEndian(v / 256, n - 1) + [v % 256];
      BigEndianTop(v / 256, n - 1, k);
    }
  }

  lemma {:induction false} BigEndianZeros(v: nat, n: nat, m: nat)
    requires n <= m
    ensures BigEndian(v, m)[m - n..] == BigEndian(v, n)
  {
    if n > 0 {
      BigEndianZeros(v / 256, n - 1, m - 1);
      assert BigEndian(v, m) == BigEndian(v / 256, m - 1) + [v % 256];
    }
  }

  lemma Powers()
    ensures Pow256(1) == 0x100 && Pow256(2) == 0x1_0000 && Pow256(4) == 0x1_0000_0000
    ensures Pow256(8) == 0x1_0000_0000_0000_0000
    ensures Pow256(0) == 1 && Pow256(3) == 0x100_0000 && Pow256(7) == 0x100_0000_0000_0000
  {
    assert Pow256(5) == 0x100_0000_0000;
    assert Pow256(6) == 0x1_0000_0000_0000;
  }

  /** The top byte of a value below 2^(8n-2) leaves its two top bits free. */
  lemma {:induction false} TopByte(v: nat, n: nat)
    requires n > 0 && 4 * v < Pow256(n)
    ensures BigEndian(v, n)[0] < 64
  {
    if n == 1 {
      assert BigEndian(v / 256, 0) == [];
      assert BigEndian(v, 1) == [v];
    } else {
      TopByte(v / 256, n - 1);
      assert BigEndian(v, n) == BigEndian(v / 256, n - 1) + [v % 256];
    }
  }

  /** An integer in `n` bytes under prefix `k` reads back as itself. */
  lemma TaggedDecodes(v: nat, n: nat, k: nat, s: bytes, p: nat)
    requires k < 4 && n == (if k == 0 then 1 else if k == 1 then 2 else if k == 2 then 4 else 8)
    requires 4 * v < Pow256(n)
    requires p + n <= |s| && s[p..p + n] == BigEndian(v + 64 * k * Pow256(n - 1), n)
    ensures DecodeAt(s, p) == Some((v, p + n))
  {
    TopByte(v, n);
    var b := BigEndian(v, n);
    BigEndianTop(v, n, 64 * k);
    assert s[p] == s[p..p + n][0] == b[0] + 64 * k;
    assert (b[0] + 64 * k) / 64 == k && (b[0] + 64 * k) % 64 == b[0];
    assert s[p + 1..p + n] == s[p..p + n][1..] == b[1..];
    assert [b[0]] + b[1..] == b;
    BigEndianRoundTrip(v, n);
  }

  // ----- The encoders agree; every decoder inverts them; nothing shorter decodes the same -----

  lemma Tags(v: nat)
    requires v < LIMIT
    ensures var n := Width(v); Encode(v) == BigEndian(v + 64 * Prefix(n) * Pow256(n - 1), n)
    ensures var n := Width(v); 4 * v < Pow256(n)
  {
    Powers();
    if v < 0x40 {
      assert BigEndian(v / 256, 0) == [];
      assert BigEndian(v, 1) == [v];
    }
  }

  lemma RoundTrip(v: nat, before: bytes, after: bytes)
    requires v < LIMIT
    ensures var s := before + Encode(v) + after;
            DecodeAt(s, |before|) == Some((v, |before| + Width(v)))
  {
    var s := before + Encode(v) + after;
    Tags(v);
    assert s[|before|..|before| + Width(v)] == Encode(v);
    TaggedDecodes(v, Width(v), Prefix(Width(v)), s, |before|);
  }

  lemma Shifts()
    ensures Shift(6) == 0x40 && Shift(14) == 0x4000 && Shift(30) == 0x4000_0000
    ensures Shift(62) == LIMIT
  {
    assert Shift(2) == 4;
    assert Shift(10) == 0x400;
    assert Shift(18) == 0x4_0000;
    assert Shift(22) == 0x40_0000;
    assert Shift(26) == 0x400_0000;
    assert Shift(34) == 0x4_0000_0000;
    assert Shift(38) == 0x40_0000_0000;
    assert Shift(42) == 0x400_0000_0000;
    assert Shift(46) == 0x4000_0000_0000;
    assert Shift(50) == 0x4_0000_0000_0000;
    assert Shift(54) == 0x40_0000_0000_0000;
    assert Shift(58) == 0x400_0000_0000_0000;
  }

  /** The prefixed value, spelled out: an or of disjoint bits is a sum. */
  lemma Tagged(v: nat)
    ensures var n := Width(v);
            v % LIMIT + Prefix(n) * Shift(8 * n - 2) ==
            if v < 0x40 then v
            else if v < 0x4000 then v + 0x4000
            else if v < 0x4000_0000 then v + 0x8000_0000
            else v % LIMIT + 0xc000_0000_0000_0000
  {
    Shifts();
    hide Shift;
    if v < LIMIT {
      assert v % LIMIT == v;
    }
  }

  lemma OneByte(v: nat)
    requires v < 0x40
    ensures BigEndian(v, 1) == [v]
  {
    assert BigEndian(v / 256, 0) == [];
  }

  lemma EncodersAgree(v: nat)
    ensures EncodeRust(v) == Encode(v)
  {
    var n := Width(v);
    Tagged(v);
    if v < 0x40 {
      OneByte(v);
    }
    hide Shift;
    hide BigEndian;
    BigEndianZeros(v % LIMIT + Prefix(n) * Shift(8 * n - 2), n, 8);
  }

  lemma ShortestEncoding(s: bytes, p: nat)
    requires p <= |s| && DecodeAt(s, p).Some?
    ensures DecodeAt(s, p).value.0 < LIMIT
    ensures Width(DecodeAt(s, p).value.0) <= DecodeAt(s, p).value.1 - p
  {
    Powers();
    var n := Size(s[p]);
    var rest := s[p + 1..p + n];
    var all := [s[p] % 64] + rest;
    TopBound(s[p] % 64, rest);
    FromBigEndianBound(rest);
  }

  lemma {:induction false} TopBound(b: byte, rest: bytes)
    ensures FromBigEndian([b] + rest) == b * Pow256(|rest|) + FromBigEndian(rest)
  {
    var all := [b] + rest;
    if rest == [] {
      assert all[..|all| - 1] == [];
    } else {
      var init := rest[..|rest| - 1];
      TopBound(b, init);
      assert all[..|all| - 1] == [b] + init;
      assert b * Pow256(|rest|) == 256 * (b * Pow256(|init|));
    }
  }

  // ----- The decoders -----

  /** A stream being read: go's bufio.Reader over it, or Rust's AsyncRead. */
  class Stream {
    const data: bytes
    const ending: Ending
    var pos: nat

    ghost predicate Valid()
      reads this
    {
      pos <= |data|
    }

    constructor (data: bytes, ending: Ending)
      ensures Valid() && this.data == data && this.ending == ending && pos == 0
    {
      this.data, this.ending, pos := data, ending, 0;
    }

    /** One byte; None at the end, clean or not. */
    method ReadByte() returns (b: Option<byte>)
      requires Valid()
      modifies this
      ensures Valid()
      ensures if old(pos) < |data| then b == Some(data[old(pos)]) && pos == old(pos) + 1
              else b == None && pos == old(pos)
    {
      if pos < |data| {
        b := Some(data[pos]);
        pos := pos + 1;
      } else {
        b := None;
      }
    }

    /** io.ReadFull, read_exact: `n` bytes or an error. */
    method ReadFull(n: nat) returns (r: Result<bytes>)
      requires Valid()
      modifies this
      ensures Valid()
      ensures if old(pos) + n <= |data| then r == Ok(data[old(pos)..old(pos) + n]) && pos == old(pos) + n
              else r == Err
    {
      if pos + n <= |data| {
        r := Ok(data[pos..pos + n]);
        pos := pos + n;
      } else {
        pos := |data|;
        r := Err;
      }
    }

    /** go/ohttp.go readVarint. */
    method ReadVarint(eofZero: bool) returns (r: Result<nat>)
      requires Valid()
      modifies this
      ensures Valid()
      ensures match ReadAt(data, ending, old(pos), eofZero)
              case Ok((v, q)) => r == Ok(v) && pos == q
              case Err => r == Err
    {
      ghost var p := pos;
      var b := ReadByte();
      if b.None? {
        return if eofZero && ending.Eof? then Ok(0) else Err;
      }
      hide Partial;
      hide Size;
      var size := Size(b.value);
      var v: nat := b.value % 64;
      var i := 1;
      PartialStep(data, p, 1);
      while i < size
        invariant 1 <= i <= size && Valid() && pos == p + i
        invariant v == Partial(data, p, i)
      {
        PartialStep(data, p, i);
        var c := ReadByte();
        if c.None? {
          return Err;
        }
        v := v * 256 + c.value;
        i := i + 1;
      }
      r := Ok(v);
    }

    /** rs/src/ohttp.rs Reader::integer. */
    method Integer(eofZero: bool) returns (r: Result<nat>)
      requires Valid()
      modifies this
      ensures Valid()
      ensures match ReadAt(data, ending, old(pos), eofZero)
              case Ok((v, q)) => r == Ok(v) && pos == q
              case Err => r == Err
    {
      ghost var p := pos;
      var first := ReadByte();
      if first.None? {
        return if eofZero && ending.Eof? then Ok(0) else Err;
      }
      var size := Size(first.value);
      var rest := ReadFull(size - 1);
      if rest.Err? {
        return Err;
      }
      hide Partial;
      hide Size;
      var value: nat := first.value % 64;
      var i := 0;
      PartialStep(data, p, 1);
      while i < |rest.value|
        invariant i <= |rest.value| && Valid() && pos == p + size
        invariant value == Partial(data, p, i + 1)
      {
        PartialStep(data, p, i + 1);
        value := value * 256 + rest.value[i];
        i := i + 1;
      }
      r := Ok(value);
    }
  }

  /** A length-prefixed byte string and the position after it. */
  function VectorAt(s: bytes, p: nat): (r: Option<(bytes, nat)>)
    requires p <= |s|
    ensures r.Some? ==> p < r.value.1 <= |s|
  {
    match DecodeAt(s, p)
    case None => None
    case Some((n, q)) => if q + n > |s| then None else Some((s[q..q + n], q + n))
  }

  function Vector(b: bytes): (r: bytes)
    ensures |r| == Width(|b|) + |b|
  {
    Encode(|b|) + b
  }

  /** rs/src/ohttp.rs slice_vector. */
  method SliceVector(data: bytes, cursor: nat) returns (r: Option<(bytes, nat)>)
    requires cursor <= |data|
    ensures r == VectorAt(data, cursor)
  {
    if cursor >= |data| {
      return None;
    }
    var first := data[cursor];
    var at := cursor + 1;
    hide Partial;
    hide Size;
    var size: nat := first % 64;
    var i := 1;
    PartialStep(data, cursor, 1);
    while i < Size(first)
      invariant 1 <= i <= Size(first) && at == cursor + i && at <= |data|
      invariant size == Partial(data, cursor, i)
    {
      PartialStep(data, cursor, i);
      if at >= |data| {
        return None;
      }
      size := size * 256 + data[at];
      at := at + 1;
      i := i + 1;
    }
    var end := at + size;
    if end > |data| {
      return None;
    }
    return Some((data[at..end], end));
  }

  lemma VectorRoundTrip(b: bytes, before: bytes, after: bytes)
    requires |b| < LIMIT
    ensures var s := before + Vector(b) + after;
            VectorAt(s, |before|) == Some((b, |before| + |Vector(b)|))
  {
    var s := before + Vector(b) + after;
    assert s == before + Encode(|b|) + (b + after);
    RoundTrip(|b|, before, b + after);
    var q := |before| + Width(|b|);
    assert s[q..q + |b|] == b;
  }
}
