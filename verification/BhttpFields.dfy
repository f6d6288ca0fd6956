/**
 * Field sections of Binary HTTP responses (section 3.6 of RFC 9292), in both framings: one
 * definition, read by the Go loop (go/ohttp.go readBHTTPFields) and by the Rust one
 * (rs/src/ohttp.rs Reader::fields).
 */
module BhttpFields {
  import opened Bytes
  import opened Streams
  import opened Varint
  import opened Wrappers
  import opened BhttpRequest

  /** The header library's verdict on one field; it refuses the empty name. */
  type Check = Field -> bool

  ghost predicate RefusesEmptyName(check: Check) {
    forall value: bytes :: !check(([], value))
  }

  /** Field lines that fill a section of known length. */
  function Section(check: Check, s: bytes, p: nat): Result<seq<Field>>
    requires p <= |s|
    decreases |s| - p
  {
    if p == |s| then Ok([])
    else match VectorAt(s, p)
      case None => Err
      case Some((name, q)) =>
        match VectorAt(s, q)
        case None => Err
        case Some((value, e)) =>
          if !check((name, value)) then Err
          else match Section(check, s, e)
            case Err => Err
            case Ok(rest) => Ok([(name, value)] + rest)
  }

  /** A length and that many bytes, of a stream; no more than a field section may hold. */
  function StringAt(s: bytes, ending: Ending, p: nat, eofZero: bool): (r: Result<(bytes, nat)>)
    requires p <= |s|
    ensures r.Ok? ==> p <= r.value.1 <= |s|
    ensures r.Ok? && (!eofZero || r.value.0 != []) ==> p < r.value.1
  {
    match ReadAt(s, ending, p, eofZero)
    case Err => Err
    case Ok((size, q)) => if size > LIMIT_FIELDS || q + size > |s| then Err else Ok((s[q..q + size], q + size))
  }

  /** Field lines up to an empty name; before any field a clean end of stream serves as one. */
  function Lines(check: Check, s: bytes, ending: Ending, p: nat, total: nat): (r: Result<(seq<Field>, nat)>)
    requires p <= |s|
    ensures r.Ok? ==> p <= r.value.1 <= |s|
    decreases |s| - p
  {
    match StringAt(s, ending, p, total == 0)
    case Err => Err
    case Ok((name, q)) =>
      if name == [] then Ok(([], q))
      else match StringAt(s, ending, q, false)
        case Err => Err
        case Ok((value, e)) =>
          if total + |name| + |value| > LIMIT_FIELDS || !check((name, value)) then Err
          else match Lines(check, s, ending, e, total + |name| + |value|)
            case Err => Err
            case Ok((rest, end)) => Ok(([(name, value)] + rest, end))
  }

  /** A field section and the position after it. */
  function FieldsAt(check: Check, s: bytes, ending: Ending, p: nat, known: bool): (r: Result<(seq<Field>, nat)>)
    requires p <= |s|
    ensures r.Ok? ==> p <= r.value.1 <= |s|
  {
    if known then
      match StringAt(s, ending, p, true)
      case Err => Err
      case Ok((section, q)) =>
        match Section(check, section, 0)
        case Err => Err
        case Ok(fields) => Ok((fields, q))
    else Lines(check, s, ending, p, 0)
  }

  // ----- The two readers -----

  method ReadString(input: Stream, eofZero: bool) returns (r: Result<bytes>)
    requires input.Valid()
    modifies input
    ensures input.Valid()
    ensures match StringAt(input.data, input.ending, old(input.pos), eofZero)
            case Ok((v, q)) => r == Ok(v) && input.pos == q
            case Err => r == Err
  {
    var size := input.ReadVarint(eofZero);
    if size.Err? || size.value > LIMIT_FIELDS {
      return Err;
    }
    r := input.ReadFull(size.value);
  }

  /** rs/src/ohttp.rs Reader::fields. */
  method FieldsRust(check: Check, input: Stream, known: bool) returns (r: Result<seq<Field>>)
    requires input.Valid()
    modifies input
    ensures input.Valid()
    ensures match FieldsAt(check, input.data, input.ending, old(input.pos), known)
            case Ok((v, q)) => r == Ok(v) && input.pos == q
            case Err => r == Err
  {
    if known {
      var data := ReadString(input, true);
      if data.Err? {
        return Err;
      }
      r := SectionRust(check, data.value);
    } else {
      r := LinesLoop(check, input);
    }
  }

  method SectionRust(check: Check, data: bytes) returns (r: Result<seq<Field>>)
    ensures r == Section(check, data, 0)
  {
    var headers: seq<Field> := [];
    var cursor := 0;
    PrependNone(Section(check, data, 0));
    while cursor < |data|
      invariant cursor <= |data|
      invariant Section(check, data, 0) == Prepend(headers, Section(check, data, cursor))
      decreases |data| - cursor
    {
      var name := SliceVector(data, cursor);
      if name.None? {
        return Err;
      }
      var value := SliceVector(data, name.value.1);
      if value.None? || !check((name.value.0, value.value.0)) {
        return Err;
      }
      PrependOne(headers, (name.value.0, value.value.0), Section(check, data, value.value.1));
      headers := headers + [(name.value.0, value.value.0)];
      cursor := value.value.1;
    }
    assert headers + [] == headers;
    return Ok(headers);
  }

  function Prepend(fields: seq<Field>, r: Result<seq<Field>>): Result<seq<Field>> {
    match r
    case Err => Err
    case Ok(rest) => Ok(fields + rest)
  }

  lemma PrependNone(r: Result<seq<Field>>)
    ensures Prepend([], r) == r
  {
    if r.Ok? {
      assert [] + r.value == r.value;
    }
  }

  lemma PrependOne(fields: seq<Field>, f: Field, r: Result<seq<Field>>)
    ensures Prepend(fields, match r case Err => Err case Ok(rest) => Ok([f] + rest)) ==
            Prepend(fields + [f], r)
  {
    if r.Ok? {
      Assoc(fields, [f], r.value);
    }
  }

  function PrependAt(fields: seq<Field>, r: Result<(seq<Field>, nat)>): Result<(seq<Field>, nat)> {
    match r
    case Err => Err
    case Ok((rest, end)) => Ok((fields + rest, end))
  }

  lemma PrependAtNone(r: Result<(seq<Field>, nat)>)
    ensures PrependAt([], r) == r
  {
    if r.Ok? {
      assert [] + r.value.0 == r.value.0;
    }
  }

  lemma PrependAtOne(fields: seq<Field>, f: Field, r: Result<(seq<Field>, nat)>)
    ensures PrependAt(fields, match r case Err => Err case Ok((rest, end)) => Ok(([f] + rest, end))) ==
            PrependAt(fields + [f], r)
  {
    if r.Ok? {
      Assoc(fields, [f], r.value.0);
    }
  }

  /** The indeterminate-length loop, which both SDKs share line by line. */
  method LinesLoop(check: Check, input: Stream) returns (r: Result<seq<Field>>)
    requires input.Valid()
    modifies input
    ensures input.Valid()
    ensures match Lines(check, input.data, input.ending, old(input.pos), 0)
            case Ok((v, q)) => r == Ok(v) && input.pos == q
            case Err => r == Err
  {
    hide StringAt;
    var headers: seq<Field> := [];
    var total: nat := 0;
    PrependAtNone(Lines(check, input.data, input.ending, input.pos, 0));
    while true
      invariant input.Valid()
      invariant Lines(check, input.data, input.ending, old(input.pos), 0) ==
                PrependAt(headers, Lines(check, input.data, input.ending, input.pos, total))
      decreases |input.data| - input.pos
    {
      var name := ReadString(input, total == 0);
      if name.Err? {
        return Err;
      }
      if name.value == [] {
        assert headers + [] == headers;
        return Ok(headers);
      }
      var value := ReadString(input, false);
      if value.Err? {
        return Err;
      }
      var more: nat := total + |name.value| + |value.value|;
      if more > LIMIT_FIELDS || !check((name.value, value.value)) {
        return Err;
      }
      PrependAtOne(headers, (name.value, value.value),
        Lines(check, input.data, input.ending, input.pos, more));
      headers := headers + [(name.value, value.value)];
      total := more;
    }
  }

  /**
   * go/ohttp.go readBHTTPFields: one loop for both framings, over a reader of the section when
   * its length is known. There an empty name is an error of its own.
   */
  method FieldsGo(check: Check, input: Stream, known: bool) returns (r: Result<seq<Field>>)
    requires input.Valid() && RefusesEmptyName(check)
    modifies input
    ensures input.Valid()
    ensures match FieldsAt(check, input.data, input.ending, old(input.pos), known)
            case Ok((v, q)) => r == Ok(v) && input.pos == q
            case Err => r == Err
  {
    if !known {
      r := LinesLoop(check, input);
      return;
    }
    var data := ReadString(input, true);
    if data.Err? {
      return Err;
    }
    r := SectionGo(check, data.value);
  }

  method SectionGo(check: Check, data: bytes) returns (r: Result<seq<Field>>)
    requires RefusesEmptyName(check) && |data| <= LIMIT_FIELDS
    ensures r == Section(check, data, 0)
  {
    hide Section;
    hide VectorAt;
    hide StringAt;
    var section := new Stream(data, Eof);
    var headers: seq<Field> := [];
    var total: nat := 0;
    PrependNone(Section(check, data, 0));
    while true
      invariant section.Valid() && fresh(section) && section.data == data && section.ending == Eof
      invariant total <= section.pos
      invariant Section(check, data, 0) == Prepend(headers, Section(check, data, section.pos))
      decreases |data| - section.pos
    {
      SectionStep(check, data, section.pos);
      if section.pos == |data| {
        assert headers + [] == headers;
        return Ok(headers);
      }
      VectorIsString(data, section.pos);
      var name := ReadString(section, false);
      if name.Err? || name.value == [] {
        return Err;
      }
      VectorIsString(data, section.pos);
      var value := ReadString(section, false);
      if value.Err? {
        return Err;
      }
      total := total + |name.value| + |value.value|;
      if total > LIMIT_FIELDS || !check((name.value, value.value)) {
        return Err;
      }
      PrependOne(headers, (name.value, value.value), Section(check, data, section.pos));
      headers := headers + [(name.value, value.value)];
    }
  }

  /** One field line; without it, or with a name the library refuses, there is no section. */
  lemma SectionStep(check: Check, s: bytes, p: nat)
    requires p <= |s|
    ensures Section(check, s, p) ==
            if p == |s| then Ok([])
            else match VectorAt(s, p)
              case None => Err
              case Some((name, q)) =>
                match VectorAt(s, q)
                case None => Err
                case Some((value, e)) =>
                  if !check((name, value)) then Err
                  else match Section(check, s, e)
                    case Err => Err
                    case Ok(rest) => Ok([(name, value)] + rest)
  {
  }

  /** Inside a section short enough, a length-prefixed string is just that. */
  lemma VectorIsString(s: bytes, p: nat)
    requires p <= |s| <= LIMIT_FIELDS
    ensures VectorAt(s, p) == match StringAt(s, Eof, p, false) case Err => None case Ok(x) => Some(x)
    ensures VectorAt(s, p).Some? ==> VectorAt(s, p).value.1 > p + |VectorAt(s, p).value.0|
  {
  }

  // ----- Encodings -----

  function EncodeFields(fields: seq<Field>, known: bool): bytes {
    if known then Vector(FieldLines(fields)) else FieldLines(fields) + [0]
  }

  /** Fields that fit a section and that the header library takes. */
  predicate Acceptable(check: Check, fields: seq<Field>) {
    && |FieldLines(fields)| <= LIMIT_FIELDS
    && forall k :: 0 <= k < |fields| ==> fields[k].0 != [] && check(fields[k])
  }

  function Payload(fields: seq<Field>): nat {
    if fields == [] then 0 else |fields[0].0| + |fields[0].1| + Payload(fields[1..])
  }

  lemma {:induction false} PayloadBound(fields: seq<Field>)
    ensures Payload(fields) <= |FieldLines(fields)|
  {
    if fields != [] {
      PayloadBound(fields[1..]);
    }
  }

  lemma {:induction false} SectionRoundTrip(check: Check, before: bytes, fields: seq<Field>)
    requires Acceptable(check, fields)
    ensures Section(check, before + FieldLines(fields), |before|) == Ok(fields)
    decreases |fields|
  {
    hide VectorAt;
    hide Vector;
    if fields != [] {
      var name, value, rest := fields[0].0, fields[0].1, fields[1..];
      FieldLineStep(before, name, value, FieldLines(rest));
      assert forall k :: 0 <= k < |rest| ==> rest[k] == fields[k + 1];
      SectionRoundTrip(check, before + Vector(name) + Vector(value), rest);
      assert fields == [(name, value)] + rest;
    }
  }

  lemma StringRoundTrip(before: bytes, v: bytes, after: bytes, ending: Ending, eofZero: bool)
    requires |v| <= LIMIT_FIELDS
    ensures StringAt(before + (Vector(v) + after), ending, |before|, eofZero) ==
            Ok((v, |before| + |Vector(v)|))
  {
    var s := before + (Vector(v) + after);
    Assoc(before, Vector(v), after);
    VectorRoundTrip(v, before, after);
    assert |s| > |before|;
  }

  lemma LineStep(before: bytes, name: bytes, value: bytes, rest: bytes, ending: Ending, eofZero: bool)
    requires |name| <= LIMIT_FIELDS && |value| <= LIMIT_FIELDS
    ensures var s := before + (Vector(name) + Vector(value) + rest);
            var q, e := |before| + |Vector(name)|, |before| + |Vector(name)| + |Vector(value)|;
            && s == (before + Vector(name) + Vector(value)) + rest
            && StringAt(s, ending, |before|, eofZero) == Ok((name, q))
            && StringAt(s, ending, q, false) == Ok((value, e))
  {
    hide StringAt;
    hide Vector;
    Assoc(Vector(name), Vector(value), rest);
    Assoc(before, Vector(name), Vector(value) + rest);
    Assoc(before + Vector(name), Vector(value), rest);
    StringRoundTrip(before, name, Vector(value) + rest, ending, eofZero);
    StringRoundTrip(before + Vector(name), value, rest, ending, false);
  }

  lemma LinesMore(check: Check, s: bytes, ending: Ending, p: nat, total: nat,
                  name: bytes, q: nat, value: bytes, e: nat)
    requires p <= |s| && StringAt(s, ending, p, total == 0) == Ok((name, q)) && name != []
    requires StringAt(s, ending, q, false) == Ok((value, e))
    requires total + |name| + |value| <= LIMIT_FIELDS && check((name, value))
    ensures Lines(check, s, ending, p, total) ==
            PrependAt([(name, value)], Lines(check, s, ending, e, total + |name| + |value|))
  {
    hide StringAt;
  }

  lemma {:induction false} LinesRoundTrip(check: Check, before: bytes, fields: seq<Field>, after: bytes,
                                          ending: Ending, total: nat)
    requires Acceptable(check, fields) && total + Payload(fields) <= LIMIT_FIELDS
    ensures Lines(check, before + (FieldLines(fields) + ([0] + after)), ending, |before|, total) ==
            Ok((fields, |before| + |FieldLines(fields)| + 1))
    decreases |fields|
  {
    hide StringAt;
    hide Vector;
    hide Section;
    if fields == [] {
      assert [] + ([0] + after) == [0] + after;
      EmptyVector();
      StringRoundTrip(before, [], after, ending, total == 0);
    } else {
      var name, value, rest := fields[0].0, fields[0].1, fields[1..];
      var tail := FieldLines(rest) + ([0] + after);
      Assoc(Vector(name) + Vector(value), FieldLines(rest), [0] + after);
      LineStep(before, name, value, tail, ending, total == 0);
      LinesMore(check, before + (Vector(name) + Vector(value) + tail), ending, |before|, total,
        name, |before| + |Vector(name)|, value, |before| + |Vector(name)| + |Vector(value)|);
      hide Lines;
      assert forall k :: 0 <= k < |rest| ==> rest[k] == fields[k + 1];
      LinesRoundTrip(check, before + Vector(name) + Vector(value), rest, after, ending,
        total + |name| + |value|);
      assert fields == [(name, value)] + rest;
    }
  }

  lemma EmptyVector()
    ensures Vector([]) == [0]
  {
  }

  lemma KnownRoundTrip(check: Check, before: bytes, fields: seq<Field>, after: bytes, ending: Ending)
    requires Acceptable(check, fields)
    ensures FieldsAt(check, before + (Vector(FieldLines(fields)) + after), ending, |before|, true) ==
            Ok((fields, |before| + |Vector(FieldLines(fields))|))
  {
    hide Section;
    hide Vector;
    hide FieldLines;
    hide StringAt;
    hide Lines;
    StringRoundTrip(before, FieldLines(fields), after, ending, true);
    SectionRoundTrip(check, [], fields);
    assert [] + FieldLines(fields) == FieldLines(fields);
  }

  lemma IndeterminateRoundTrip(check: Check, before: bytes, fields: seq<Field>, after: bytes, ending: Ending)
    requires Acceptable(check, fields)
    ensures FieldsAt(check, before + (FieldLines(fields) + [0] + after), ending, |before|, false) ==
            Ok((fields, |before| + |FieldLines(fields) + [0]|))
  {
    hide FieldLines;
    hide Lines;
    hide Section;
    PayloadBound(fields);
    Assoc(FieldLines(fields), [0], after);
    LinesRoundTrip(check, before, fields, after, ending, 0);
  }

  /** Either encoding of a field section reads back as the fields. */
  lemma FieldsRoundTrip(check: Check, before: bytes, fields: seq<Field>, after: bytes,
                        ending: Ending, known: bool)
    requires Acceptable(check, fields)
    ensures FieldsAt(check, before + (EncodeFields(fields, known) + after), ending, |before|, known) ==
            Ok((fields, |before| + |EncodeFields(fields, known)|))
  {
    hide FieldsAt;
    hide Acceptable;
    hide Vector;
    hide FieldLines;
    if known {
      KnownRoundTrip(check, before, fields, after, ending);
    } else {
      IndeterminateRoundTrip(check, before, fields, after, ending);
    }
  }

  /** A stream that ends here holds an empty field section, in either framing. */
  lemma FieldsAtEnd(check: Check, s: bytes, known: bool)
    ensures FieldsAt(check, s, Eof, |s|, known) == Ok(([], |s|))
  {
    assert s[|s|..|s| + 0] == [];
  }
}
