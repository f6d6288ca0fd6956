/**
 * Binary HTTP requests of known length (sections 3.1, 3.3, 3.6, 3.7 and 3.8 of RFC 9292) as
 * go/ohttp.go and rs/src/ohttp.rs encode them, and the decoder the RFC implies.
 */
module BhttpRequest {
  import opened Bytes
  import opened Varint
  import opened Wrappers

  const CHUNK := 16384
  const LIMIT_MESSAGE := 0x4000_0000
  const LIMIT_FIELDS := 0x10_0000

  type Field = (bytes, bytes)

  datatype Request = Request(method_: bytes, scheme: bytes, authority: bytes, path: bytes,
                             fields: seq<Field>, body: bytes)

  function FieldLines(fields: seq<Field>): bytes {
    if fields == [] then []
    else Vector(fields[0].0) + Vector(fields[0].1) + FieldLines(fields[1..])
  }

  /** Headers that belong to the connection do not enter the message. */
  function Kept(fields: seq<Field>, skip: set<bytes>): seq<Field> {
    if fields == [] then []
    else if fields[0].0 in skip then Kept(fields[1..], skip)
    else [fields[0]] + Kept(fields[1..], skip)
  }

  /** The length-prefixed parts of a request: control data, fields, content and (no) trailers. */
  function Parts(r: Request): seq<bytes> {
    [r.method_, r.scheme, r.authority, r.path, FieldLines(r.fields), r.body, []]
  }

  function Vectors(parts: seq<bytes>): bytes {
    if parts == [] then [] else Vector(parts[0]) + Vectors(parts[1..])
  }

  function Core(r: Request): bytes {
    [0] + Vectors(Parts(r))
  }

  function Zeros(n: nat): (z: bytes)
    ensures |z| == n
    ensures forall k :: 0 <= k < n ==> z[k] == 0
  {
    seq(n, i => 0)
  }

  function PaddingOf(n: nat): (p: nat)
    ensures p < CHUNK && (n + p) % CHUNK == 0
  {
    (CHUNK - n % CHUNK) % CHUNK
  }

  function Padded(r: Request): bytes {
    Core(r) + Zeros(PaddingOf(|Core(r)|))
  }

  /**
   * The message, part by part: the framing indicator 0; method, scheme, authority and path; the
   * header section; the content; an empty trailer section; and zeros.
   */
  lemma RequestLayout(r: Request)
    ensures exists n: nat ::
              Padded(r) == [0]
                + (Vector(r.method_) + (Vector(r.scheme) + (Vector(r.authority) + (Vector(r.path)
                + (Vector(FieldLines(r.fields)) + (Vector(r.body) + Vector([])))))))
                + Zeros(n)
  {
    hide Vector;
    SevenVectors(r.method_, r.scheme, r.authority, r.path, FieldLines(r.fields), r.body, []);
    var n := PaddingOf(|Core(r)|);
    assert Padded(r) == Core(r) + Zeros(n);
  }

  lemma SevenVectors(a: bytes, b: bytes, c: bytes, d: bytes, e: bytes, f: bytes, g: bytes)
    ensures Vectors([a, b, c, d, e, f, g]) ==
            Vector(a) + (Vector(b) + (Vector(c) + (Vector(d) + (Vector(e) + (Vector(f) + Vector(g))))))
  {
    hide Vector, Vectors;
    assert [a] + [b, c, d, e, f, g] == [a, b, c, d, e, f, g] && [b] + [c, d, e, f, g] == [b, c, d, e, f, g];
    assert [c] + [d, e, f, g] == [c, d, e, f, g] && [d] + [e, f, g] == [d, e, f, g];
    assert [e] + [f, g] == [e, f, g] && [f] + [g] == [f, g] && [g] + [] == [g];
    FirstVector(a, [b, c, d, e, f, g]);
    FirstVector(b, [c, d, e, f, g]);
    FirstVector(c, [d, e, f, g]);
    FirstVector(d, [e, f, g]);
    FirstVector(e, [f, g]);
    FirstVector(f, [g]);
    FirstVector(g, []);
  }

  lemma FirstVector(a: bytes, rest: seq<bytes>)
    ensures Vectors([a] + rest) == Vector(a) + Vectors(rest)
    ensures Vectors([]) == [] && Vector(a) + [] == Vector(a)
  {
    assert ([a] + rest)[1..] == rest;
  }

  /** A field line is its name and then its value; the lines follow one another. */
  lemma {:induction false} FieldLinesLayout(fields: seq<Field>, name: bytes, value: bytes)
    ensures FieldLines(fields + [(name, value)]) == FieldLines(fields) + (Vector(name) + Vector(value))
  {
    hide Vector;
    if fields == [] {
      assert [] + [(name, value)] == [(name, value)] && [(name, value)][1..] == [];
    } else {
      FieldLinesLayout(fields[1..], name, value);
      assert (fields + [(name, value)])[1..] == fields[1..] + [(name, value)];
      Assoc(Vector(fields[0].0) + Vector(fields[0].1), FieldLines(fields[1..]), Vector(name) + Vector(value));
    }
  }

  /** Of the headers exactly those are left out that belong to the connection, and the others keep their order. */
  lemma {:induction false} KeptMeans(a: seq<Field>, b: seq<Field>, skip: set<bytes>)
    ensures Kept(a + b, skip) == Kept(a, skip) + Kept(b, skip)
    ensures |a| == 1 ==> Kept(a, skip) == if a[0].0 in skip then [] else a
  {
    if a == [] {
      assert a + b == b;
    } else {
      KeptMeans(a[1..], b, skip);
      assert (a + b)[1..] == a[1..] + b && a == [a[0]] + a[1..];
      if a[0].0 !in skip {
        Assoc([a[0]], Kept(a[1..], skip), Kept(b, skip));
      }
    }
  }

  /** go/ohttp.go encodeBHTTPRequest; `headers` in the order Go's map iteration happens to give. */
  method EncodeGo(r: Request, skip: set<bytes>) returns (encoded: Result<bytes>)
    ensures var kept := r.(fields := Kept(r.fields, skip));
            encoded == if |Padded(kept)| > LIMIT_MESSAGE then Err else Ok(Padded(kept))
  {
    var fields := AppendFields(r.fields, skip);
    ghost var parts := Parts(r.(fields := Kept(r.fields, skip)));
    hide Vector;
    hide Vectors;
    var out := AppendControl(r, parts);
    out := AppendContent(out, fields, r.body, parts);
    var padding := (CHUNK - |out| % CHUNK) % CHUNK;
    out := out + Zeros(padding);
    encoded := if |out| > LIMIT_MESSAGE then Err else Ok(out);
  }

  /** rs/src/ohttp.rs encode: the same bytes, other limits, and padding by resizing. */
  method EncodeRust(r: Request, skip: set<bytes>) returns (encoded: Result<bytes>)
    ensures var kept := r.(fields := Kept(r.fields, skip));
            encoded == if |FieldLines(kept.fields)| > LIMIT_FIELDS || |r.body| > LIMIT_MESSAGE then Err
                       else Ok(Padded(kept))
  {
    ghost var parts := Parts(r.(fields := Kept(r.fields, skip)));
    var out := AppendControl(r, parts);
    var fields := AppendFields(r.fields, skip);
    hide Vector;
    hide Vectors;
    if |fields| > LIMIT_FIELDS || |r.body| > LIMIT_MESSAGE {
      return Err;
    }
    out := AppendContent(out, fields, r.body, parts);
    ResizePads(|out|);
    hide RoundUp;
    hide PaddingOf;
    out := out + Zeros(RoundUp(|out|) - |out|);
    encoded := Ok(out);
  }

  /** Both encoders begin with the framing indicator and a loop over the control data. */
  method AppendControl(r: Request, ghost parts: seq<bytes>) returns (out: bytes)
    requires |parts| == 7 && parts[..4] == [r.method_, r.scheme, r.authority, r.path]
    ensures out == [0] + Vectors(parts[..4])
  {
    hide Vector;
    hide Vectors;
    out := [0];
    NoVectors();
    var control := [r.method_, r.scheme, r.authority, r.path];
    var k := 0;
    while k < 4
      invariant k <= 4 && out == [0] + Vectors(parts[..k])
    {
      assert control[k] == parts[..4][k] == parts[k];
      VectorsSnoc(parts, k);
      out := out + Vector(control[k]);
      k := k + 1;
    }
  }

  /** ... and go on with the field section, the content and an empty trailer section. */
  method AppendContent(control: bytes, fields: bytes, body: bytes, ghost parts: seq<bytes>) returns (out: bytes)
    requires |parts| == 7 && parts[4] == fields && parts[5] == body && parts[6] == []
    requires control == [0] + Vectors(parts[..4])
    ensures out == [0] + Vectors(parts)
  {
    hide Vector;
    hide Vectors;
    VectorsSnoc(parts, 4);
    VectorsSnoc(parts, 5);
    VectorsSnoc(parts, 6);
    NoVectors();
    assert parts[..7] == parts;
    out := control + Vector(fields);
    out := out + Vector(body);
    out := out + [0];
  }

  /** n.div_ceil(CHUNK) * CHUNK */
  function RoundUp(n: nat): nat {
    (n + CHUNK - 1) / CHUNK * CHUNK
  }

  lemma ResizePads(n: nat)
    ensures RoundUp(n) == n + PaddingOf(n)
  {
  }

  method AppendFields(headers: seq<Field>, skip: set<bytes>) returns (fields: bytes)
    ensures fields == FieldLines(Kept(headers, skip))
  {
    fields := [];
    var k := 0;
    while k < |headers|
      invariant k <= |headers|
      invariant fields + FieldLines(Kept(headers[k..], skip)) == FieldLines(Kept(headers, skip))
    {
      var (name, value) := headers[k];
      KeptStep(headers, k, skip);
      if name !in skip {
        FieldLinesCons(fields, headers[k], Kept(headers[k + 1..], skip));
        fields := fields + Vector(name);
        fields := fields + Vector(value);
      }
      k := k + 1;
    }
    assert headers[|headers|..] == [];
  }

  lemma KeptStep(headers: seq<Field>, k: nat, skip: set<bytes>)
    requires k < |headers|
    ensures Kept(headers[k..], skip) ==
            (if headers[k].0 in skip then [] else [headers[k]]) + Kept(headers[k + 1..], skip)
  {
    assert headers[k..][0] == headers[k] && headers[k..][1..] == headers[k + 1..];
  }

  lemma FieldLinesCons(sofar: bytes, f: Field, rest: seq<Field>)
    ensures sofar + FieldLines([f] + rest) == (sofar + Vector(f.0) + Vector(f.1)) + FieldLines(rest)
  {
    assert ([f] + rest)[1..] == rest;
    Assoc(sofar, Vector(f.0), Vector(f.1));
    Assoc(sofar, Vector(f.0) + Vector(f.1), FieldLines(rest));
  }

  lemma {:induction false} VectorsConcat(a: seq<bytes>, b: seq<bytes>)
    ensures Vectors(a + b) == Vectors(a) + Vectors(b)
  {
    if a == [] {
      assert a + b == b;
    } else {
      VectorsConcat(a[1..], b);
      assert (a + b)[1..] == a[1..] + b;
      Assoc(Vector(a[0]), Vectors(a[1..]), Vectors(b));
    }
  }

  lemma NoVectors()
    ensures Vectors([]) == [] && Vector([]) == [0]
  {
  }

  lemma VectorsSnoc(parts: seq<bytes>, k: nat)
    requires k < |parts|
    ensures [0] + Vectors(parts[..k + 1]) == [0] + Vectors(parts[..k]) + Vector(parts[k])
    ensures parts[..0] == []
  {
    assert parts[..k + 1] == parts[..k] + [parts[k]];
    VectorsConcat(parts[..k], [parts[k]]);
    var one: seq<bytes> := [parts[k]];
    assert one[1..] == [];
    Assoc([0], Vectors(parts[..k]), Vector(parts[k]));
  }

  // ----- The decoder of RFC 9292 -----

  /** Field lines to the end of their section. */
  function DecodeFields(s: bytes, p: nat): Option<seq<Field>>
    requires p <= |s|
    decreases |s| - p
  {
    if p == |s| then Some([])
    else match VectorAt(s, p)
      case None => None
      case Some((name, q)) =>
        match VectorAt(s, q)
        case None => None
        case Some((value, e)) =>
          match DecodeFields(s, e)
          case None => None
          case Some(rest) => Some([(name, value)] + rest)
  }

  /** `n` length-prefixed parts in a row, and the position after them. */
  function DecodeVectors(s: bytes, p: nat, n: nat): (r: Option<(seq<bytes>, nat)>)
    requires p <= |s|
    ensures r.Some? ==> |r.value.0| == n && p <= r.value.1 <= |s|
    decreases n
  {
    if n == 0 then Some(([], p))
    else match VectorAt(s, p)
      case None => None
      case Some((part, q)) =>
        match DecodeVectors(s, q, n - 1)
        case None => None
        case Some((rest, e)) => Some(([part] + rest, e))
  }

  /** Control data, field section, content, trailer section and zero padding, in that order. */
  function DecodeRequest(s: bytes): Option<Request> {
    if s == [] || s[0] != 0 then None
    else match DecodeVectors(s, 1, 7)
      case None => None
      case Some((parts, end)) =>
        match DecodeFields(parts[4], 0)
        case None => None
        case Some(fields) =>
          if parts[6] == [] && AllZero(s[end..]) then
            Some(Request(parts[0], parts[1], parts[2], parts[3], fields, parts[5]))
          else None
  }

  predicate AllZero(s: bytes) {
    forall k :: 0 <= k < |s| ==> s[k] == 0
  }

  /** Every length in the message fits an integer. */
  predicate Encodable(r: Request) {
    && |r.method_| < LIMIT && |r.scheme| < LIMIT && |r.authority| < LIMIT && |r.path| < LIMIT
    && |FieldLines(r.fields)| < LIMIT && |r.body| < LIMIT
  }

  lemma {:induction false} VectorsRoundTrip(before: bytes, parts: seq<bytes>, after: bytes)
    requires forall k :: 0 <= k < |parts| ==> |parts[k]| < LIMIT
    ensures DecodeVectors(before + (Vectors(parts) + after), |before|, |parts|) ==
            Some((parts, |before| + |Vectors(parts)|))
    decreases |parts|
  {
    hide VectorAt;
    hide Vector;
    if parts != [] {
      var part, rest := parts[0], parts[1..];
      Assoc(Vector(part), Vectors(rest), after);
      Assoc(before, Vector(part), Vectors(rest) + after);
      VectorRoundTrip(part, before, Vectors(rest) + after);
      assert forall k :: 0 <= k < |rest| ==> rest[k] == parts[k + 1];
      VectorsRoundTrip(before + Vector(part), rest, after);
      assert parts == [part] + rest;
    }
  }

  lemma FieldLineStep(before: bytes, name: bytes, value: bytes, rest: bytes)
    requires |name| < LIMIT && |value| < LIMIT
    ensures var s := before + (Vector(name) + Vector(value) + rest);
            var q, e := |before| + |Vector(name)|, |before| + |Vector(name)| + |Vector(value)|;
            && s == (before + Vector(name) + Vector(value)) + rest
            && VectorAt(s, |before|) == Some((name, q)) && VectorAt(s, q) == Some((value, e))
  {
    hide VectorAt;
    hide Vector;
    Assoc(Vector(name), Vector(value), rest);
    Assoc(before, Vector(name), Vector(value) + rest);
    Assoc(before + Vector(name), Vector(value), rest);
    VectorRoundTrip(name, before, Vector(value) + rest);
    VectorRoundTrip(value, before + Vector(name), rest);
  }

  lemma {:induction false} FieldLinesRoundTrip(before: bytes, fields: seq<Field>)
    requires |FieldLines(fields)| < LIMIT
    ensures DecodeFields(before + FieldLines(fields), |before|) == Some(fields)
    decreases |fields|
  {
    hide VectorAt;
    hide Vector;
    if fields != [] {
      var name, value, rest := fields[0].0, fields[0].1, fields[1..];
      FieldLineStep(before, name, value, FieldLines(rest));
      FieldLinesRoundTrip(before + Vector(name) + Vector(value), rest);
      assert fields == [(name, value)] + rest;
    }
  }

  /** Decoding a padded request gives the request back, whatever its fields and body. */
  lemma RequestRoundTrip(r: Request)
    requires Encodable(r)
    ensures DecodeRequest(Padded(r)) == Some(r)
  {
    hide Vector, Vectors, DecodeVectors, DecodeFields, FieldLines;
    var pad := Zeros(PaddingOf(|Core(r)|));
    var parts := Parts(r);
    Assoc([0], Vectors(parts), pad);
    VectorsRoundTrip([0], parts, pad);
    assert Padded(r)[|Core(r)|..] == pad;
    FieldLinesRoundTrip([], r.fields);
    assert [] + FieldLines(r.fields) == FieldLines(r.fields);
    assert parts[0] == r.method_ && parts[6] == [];
  }

  /** The length is the least multiple of the chunk size that holds the message; the rest is zero. */
  lemma PaddingIsLeast(r: Request)
    ensures |Padded(r)| % CHUNK == 0
    ensures forall m: nat :: m % CHUNK == 0 && m >= |Core(r)| ==> m >= |Padded(r)|
    ensures AllZero(Padded(r)[|Core(r)|..])
  {
    assert Padded(r)[|Core(r)|..] == Zeros(PaddingOf(|Core(r)|));
  }
}
