/**
 * The fields of a record, extracted by the Rust tokenizer (rs/src/sse.rs) and by Go's
 * replace-and-split (go/stream.go). Both are loops over local variables; both compute the same.
 */
module SseFields {
  import opened Bytes
  import opened SseRecords
  import opened Wrappers

  const DATA: bytes := [0x64, 0x61, 0x74, 0x61]
  const EVENT: bytes := [0x65, 0x76, 0x65, 0x6e, 0x74]
  const COLON: byte := 0x3a
  const SPACE: byte := 0x20

  /** The value of field `name` when `text` is a line of that field. */
  function Field(name: bytes, text: bytes): Option<bytes> {
    if text == name then Some([])
    else if name + [COLON] <= text then
      var rest := text[|name| + 1..];
      if rest != [] && rest[0] == SPACE then Some(rest[1..]) else Some(rest)
    else None
  }

  /** All values of a field, in order. */
  function Values(name: bytes, texts: seq<bytes>): seq<bytes> {
    if texts == [] then []
    else match Field(name, texts[0])
      case Some(v) => [v] + Values(name, texts[1..])
      case None => Values(name, texts[1..])
  }

  function Last<T>(vs: seq<T>): Option<T> {
    if vs == [] then None else Some(vs[|vs| - 1])
  }

  function JoinLF(vs: seq<bytes>): bytes {
    if vs == [] then [] else if |vs| == 1 then vs[0] else vs[0] + [LF] + JoinLF(vs[1..])
  }

  function Texts(ls: seq<Line>): seq<bytes> {
    if ls == [] then [] else [ls[0].text] + Texts(ls[1..])
  }

  /** What a record means: its data, joined, and its last event name. */
  function RecordData(record: bytes): bytes {
    JoinLF(Values(DATA, Texts(Lines(record))))
  }

  function RecordEvent(record: bytes): Option<bytes> {
    Last(Values(EVENT, Texts(Lines(record))))
  }

  /** A line of a field: its name alone, or behind a colon a value, from which one leading space is dropped. */
  lemma FieldMeans(name: bytes, text: bytes, value: bytes)
    ensures Field(name, text) == Some(value) <==>
            || (text == name && value == [])
            || text == name + [0x3a, 0x20] + value
            || (text == name + [0x3a] + value && (value == [] || value[0] != 0x20))
  {
    assert name + [0x3a, 0x20] + value == name + [0x3a] + ([0x20] + value);
    assert (name + [0x3a] + ([0x20] + value))[|name| + 1..] == [0x20] + value;
    assert (name + [0x3a] + value)[|name| + 1..] == value;
    if name + [COLON] <= text {
      var rest := text[|name| + 1..];
      assert text == name + [0x3a] + rest;
      if rest != [] && rest[0] == SPACE {
        assert rest == [0x20] + rest[1..];
      }
    }
  }

  /** The last of several events gives the name; the lines behind it are of other fields. */
  lemma LastEventCounts(before: seq<bytes>, line: bytes, behind: seq<bytes>)
    requires Field([0x65, 0x76, 0x65, 0x6e, 0x74], line).Some?
    requires forall i :: 0 <= i < |behind| ==> Field([0x65, 0x76, 0x65, 0x6e, 0x74], behind[i]) == None
    ensures Last(Values(EVENT, before + [line] + behind)) == Field([0x65, 0x76, 0x65, 0x6e, 0x74], line)
  {
    ValuesConcat(EVENT, before + [line], behind);
    ValuesConcat(EVENT, before, [line]);
    NoValues(EVENT, behind);
    assert [line][1..] == [];
    assert Values(EVENT, [line]) == [Field(EVENT, line).value];
  }

  lemma {:induction false} NoValues(name: bytes, texts: seq<bytes>)
    requires forall i :: 0 <= i < |texts| ==> Field(name, texts[i]) == None
    ensures Values(name, texts) == []
  {
    if texts != [] {
      assert forall i :: 0 <= i < |texts[1..]| ==> texts[1..][i] == texts[i + 1];
      NoValues(name, texts[1..]);
    }
  }

  /** Each further line of data goes behind what there is, and a line feed. */
  lemma {:induction false} DataAccumulates(before: seq<bytes>, line: bytes)
    requires Field([0x64, 0x61, 0x74, 0x61], line).Some?
    ensures var value := Field([0x64, 0x61, 0x74, 0x61], line).value;
            JoinLF(Values(DATA, before + [line])) ==
            if Values(DATA, before) == [] then value else JoinLF(Values(DATA, before)) + ([0x0a] + value)
  {
    var value := Field(DATA, line).value;
    ValuesConcat(DATA, before, [line]);
    assert [line][1..] == [];
    assert Values(DATA, [line]) == [value];
    JoinBehind(Values(DATA, before), value);
  }

  lemma {:induction false} JoinBehind(vs: seq<bytes>, v: bytes)
    ensures JoinLF(vs + [v]) == if vs == [] then v else JoinLF(vs) + ([LF] + v)
  {
    if |vs| <= 1 {
      assert vs == [] ==> vs + [v] == [v];
      assert |vs| == 1 ==> (vs + [v])[1..] == [v];
      assert |vs| == 1 ==> vs[0] + [LF] + v == vs[0] + ([LF] + v);
    } else {
      JoinBehind(vs[1..], v);
      assert (vs + [v])[1..] == vs[1..] + [v];
      Assoc(vs[0] + [LF], JoinLF(vs[1..]), [LF] + v);
    }
  }

  // ----- rs/src/sse.rs: lines -----

  method SplitLines(record: bytes) returns (result: seq<Line>)
    ensures result == Lines(record)
  {
    result := [];
    var start, i := 0, 0;
    while i < |record|
      invariant start <= i <= |record|
      invariant result + LinesAt(record, start, i) == Lines(record)
      decreases |record| - i
    {
      if record[i] != CR && record[i] != LF {
        i := i + 1;
        continue;
      }
      var end := if record[i] == CR && i + 1 < |record| && record[i + 1] == LF then i + 2 else i + 1;
      Assoc(result, [Line(record[start..i], record[i..end])], LinesAt(record, end, end));
      result := result + [Line(record[start..i], record[i..end])];
      start := end;
      i := end;
    }
    if start < |record| {
      result := result + [Line(record[start..], [])];
    }
  }

  // ----- go/stream.go: sseFields -----

  function ReplaceCRLF(s: bytes): bytes {
    if s == [] then []
    else if s[0] == CR && |s| > 1 && s[1] == LF then [LF] + ReplaceCRLF(s[2..])
    else [s[0]] + ReplaceCRLF(s[1..])
  }

  function ReplaceCR(s: bytes): bytes {
    if s == [] then []
    else [if s[0] == CR then LF else s[0]] + ReplaceCR(s[1..])
  }

  /** Go's text: every line break is one LF. */
  function Normalize(s: bytes): bytes {
    ReplaceCR(ReplaceCRLF(s))
  }

  /** strings.Split at every LF; `current` is the piece being read. */
  function SplitLF(current: bytes, s: bytes): seq<bytes>
    decreases |s|
  {
    if s == [] then [current]
    else if s[0] == LF then [current] + SplitLF([], s[1..])
    else SplitLF(current + [s[0]], s[1..])
  }

  lemma NormalizeStep(s: bytes)
    requires s != []
    ensures !IsBreak(s[0]) ==> Normalize(s) == [s[0]] + Normalize(s[1..])
    ensures IsBreak(s[0]) ==> Normalize(s) == [LF] + Normalize(s[BreakEnd(s, 0)..])
  {
    if IsBreak(s[0]) {
      var rest := s[BreakEnd(s, 0)..];
      var first: byte := if s[0] == CR && BreakEnd(s, 0) == 1 then CR else LF;
      assert ReplaceCRLF(s) == [first] + ReplaceCRLF(rest);
      assert ([first] + ReplaceCRLF(rest))[1..] == ReplaceCRLF(rest);
    } else {
      assert ([s[0]] + ReplaceCRLF(s[1..]))[1..] == ReplaceCRLF(s[1..]);
    }
  }

  /** After a final line break Go's split has one more, empty, piece. */
  function Unterminated(ls: seq<Line>): seq<bytes> {
    if ls != [] && ls[|ls| - 1].ending == [] then [] else [[]]
  }

  lemma BreakEndSuffix(s: bytes, i: nat)
    requires i < |s| && IsBreak(s[i])
    ensures s[i..][0] == s[i] && i + BreakEnd(s[i..], 0) == BreakEnd(s, i)
    ensures s[i..][BreakEnd(s[i..], 0)..] == s[BreakEnd(s, i)..]
  {
    assert i + 1 < |s| ==> s[i..][1] == s[i + 1];
  }

  lemma {:induction false} SplitIsLines(s: bytes, start: nat, i: nat)
    requires start <= i <= |s|
    ensures SplitLF(s[start..i], Normalize(s[i..])) ==
            Texts(LinesAt(s, start, i)) + Unterminated(LinesAt(s, start, i))
    decreases |s| - i
  {
    var ls := LinesAt(s, start, i);
    if i == |s| {
      assert s[start..i] == s[start..];
      if start < |s| {
        assert ls[1..] == [];
      }
    } else if !IsBreak(s[i]) {
      SplitIsLines(s, start, i + 1);
      NormalizeStep(s[i..]);
      assert s[i..][1..] == s[i + 1..];
      SplitLFText(s[start..i], s[i], Normalize(s[i + 1..]));
      assert s[start..i + 1] == s[start..i] + [s[i]];
    } else {
      var e := BreakEnd(s, i);
      SplitIsLines(s, e, e);
      assert s[e..e] == [];
      NormalizeStep(s[i..]);
      BreakEndSuffix(s, i);
      SplitLFBreak(s[start..i], Normalize(s[e..]));
      TextsCons(Line(s[start..i], s[i..e]), LinesAt(s, e, e));
    }
  }

  lemma SplitLFText(current: bytes, b: byte, rest: bytes)
    requires b != LF
    ensures SplitLF(current, [b] + rest) == SplitLF(current + [b], rest)
  {
    assert ([b] + rest)[1..] == rest;
  }

  lemma SplitLFBreak(current: bytes, rest: bytes)
    ensures SplitLF(current, [LF] + rest) == [current] + SplitLF([], rest)
  {
    assert ([LF] + rest)[1..] == rest;
  }

  lemma TextsCons(l: Line, ls: seq<Line>)
    requires l.ending != []
    ensures Texts([l] + ls) + Unterminated([l] + ls) == [l.text] + (Texts(ls) + Unterminated(ls))
  {
    assert ([l] + ls)[1..] == ls;
  }

  /** Go's pieces of a record are the texts of its lines. */
  lemma GoSplitIsRustLines(s: bytes)
    ensures SplitLF([], Normalize(s)) == Texts(Lines(s)) + Unterminated(Lines(s))
  {
    SplitIsLines(s, 0, 0);
    assert s[0..0] == [] && s[0..] == s;
  }

  lemma {:induction false} ValuesConcat(name: bytes, a: seq<bytes>, b: seq<bytes>)
    ensures Values(name, a + b) == Values(name, a) + Values(name, b)
  {
    if a == [] {
      assert a + b == b;
    } else {
      ValuesConcat(name, a[1..], b);
      assert (a + b)[1..] == a[1..] + b;
      match Field(name, a[0])
      case None =>
      case Some(v) => Assoc([v], Values(name, a[1..]), Values(name, b));
    }
  }

  lemma ValuesSnoc(name: bytes, texts: seq<bytes>, k: nat)
    requires k < |texts|
    ensures Values(name, texts[..k + 1]) ==
            Values(name, texts[..k]) + match Field(name, texts[k]) case Some(v) => [v] case None => []
  {
    assert texts[..k + 1] == texts[..k] + [texts[k]];
    ValuesConcat(name, texts[..k], [texts[k]]);
    var one: seq<bytes> := [texts[k]];
    assert one[1..] == [];
  }

  /** Go's loop: the joined data, the last event name, and whether there was one. */
  method GoFields(record: bytes) returns (data: bytes, event: bytes, hasEvent: bool)
    ensures data == RecordData(record)
    ensures hasEvent == RecordEvent(record).Some?
    ensures event == if hasEvent then RecordEvent(record).value else []
  {
    var texts := SplitLF([], Normalize(record));
    var values: seq<bytes> := [];
    event, hasEvent := [], false;
    var k := 0;
    while k < |texts|
      invariant k <= |texts|
      invariant values == Values(DATA, texts[..k])
      invariant var last := Last(Values(EVENT, texts[..k]));
                hasEvent == last.Some? && event == if hasEvent then last.value else []
    {
      var line := texts[k];
      ValuesSnoc(DATA, texts, k);
      ValuesSnoc(EVENT, texts, k);
      NotBoth(line);
      if line == DATA {
        values := values + [[]];
      } else if DATA + [COLON] <= line {
        var rest := line[5..];
        values := values + [if [SPACE] <= rest then rest[1..] else rest];
      } else if line == EVENT {
        event, hasEvent := [], true;
      } else if EVENT + [COLON] <= line {
        var rest := line[6..];
        event, hasEvent := if [SPACE] <= rest then rest[1..] else rest, true;
      }
      k := k + 1;
    }
    assert texts[..|texts|] == texts;
    GoSplitIsRustLines(record);
    EmptyTailHasNoValues(record);
    data := JoinLF(values);
  }

  lemma NotBoth(text: bytes)
    ensures Field(DATA, text).None? || Field(EVENT, text).None?
  {
    if Field(EVENT, text).Some? {
      assert text[0] == EVENT[0];
    }
  }

  lemma EmptyTailHasNoValues(record: bytes)
    ensures var texts := SplitLF([], Normalize(record));
            && Values(DATA, texts) == Values(DATA, Texts(Lines(record)))
            && Values(EVENT, texts) == Values(EVENT, Texts(Lines(record)))
  {
    var ls := Lines(record);
    GoSplitIsRustLines(record);
    ValuesConcat(DATA, Texts(ls), Unterminated(ls));
    ValuesConcat(EVENT, Texts(ls), Unterminated(ls));
    var tail := Unterminated(ls);
    assert tail != [] ==> tail[1..] == [];
    assert Field(DATA, []) == None && Field(EVENT, []) == None;
  }

  // ----- Complete records -----

  /** rs/src/sse.rs, observe: a complete record ends with a blank line. */
  predicate CompleteRust(record: bytes) {
    Closed(Lines(record))
  }

  predicate EndsTwice(text: bytes) {
    |text| >= 2 && text[|text| - 2..] == [LF, LF]
  }

  /** go/stream.go, completeSSERecord: the text ends with two line breaks. */
  predicate CompleteGo(record: bytes) {
    EndsTwice(Normalize(record))
  }

  /** Every line break of a normalized stream is one LF, so lines and LFs correspond one to one. */
  function LinesText(ls: seq<Line>): bytes {
    if ls == [] then []
    else ls[0].text + (if ls[0].ending == [] then [] else [LF]) + LinesText(ls[1..])
  }

  lemma {:induction false} NormalizeText(s: bytes, t: bytes)
    requires NoBreaks(s)
    ensures Normalize(s + t) == s + Normalize(t)
  {
    if s == [] {
      assert s + t == t;
    } else {
      NormalizeStep(s + t);
      assert (s + t)[1..] == s[1..] + t;
      NormalizeText(s[1..], t);
      Assoc([s[0]], s[1..], Normalize(t));
      assert [s[0]] + s[1..] == s;
    }
  }

  lemma NormalizeBreak(e: bytes, t: bytes)
    requires IsEnding(e) && (e == [CR] ==> t == [] || t[0] != LF)
    ensures Normalize(e + t) == [LF] + Normalize(t)
  {
    NormalizeStep(e + t);
    assert (e + t)[BreakEnd(e + t, 0)..] == t;
  }

  lemma {:induction false} NormalizeJoin(ls: seq<Line>)
    requires WellFormed(ls)
    ensures Normalize(JoinLines(ls)) == LinesText(ls)
  {
    if ls != [] {
      var l, rest := ls[0], ls[1..];
      NormalizeJoin(rest);
      Assoc(l.text, l.ending, JoinLines(rest));
      NormalizeText(l.text, l.ending + JoinLines(rest));
      FirstByte(rest);
      if l.ending != [] {
        NormalizeBreak(l.ending, JoinLines(rest));
        Assoc(l.text, [LF], LinesText(rest));
      } else {
        assert rest == [];
      }
    }
  }

  lemma {:induction false} LinesTextSnoc(ls: seq<Line>, l: Line)
    ensures LinesText(ls + [l]) == LinesText(ls) + (l.text + if l.ending == [] then [] else [LF])
  {
    if ls == [] {
      assert ls + [l] == [l] && [l][1..] == [];
    } else {
      LinesTextSnoc(ls[1..], l);
      assert (ls + [l])[1..] == ls[1..] + [l];
      var first := ls[0].text + if ls[0].ending == [] then [] else [LF];
      Assoc(first, LinesText(ls[1..]), l.text + if l.ending == [] then [] else [LF]);
    }
  }

  lemma {:induction false} WellFormedInit(ls: seq<Line>, l: Line)
    requires WellFormed(ls + [l])
    ensures NoBreaks(l.text) && (l.ending == [] ==> l.text != [])
    ensures forall k :: 0 <= k < |ls| ==> IsEnding(ls[k].ending) && NoBreaks(ls[k].text)
  {
    if ls == [] {
      assert ls + [l] == [l] && [l][1..] == [];
    } else {
      assert (ls + [l])[1..] == ls[1..] + [l];
      WellFormedInit(ls[1..], l);
      assert forall k :: 0 < k < |ls| ==> ls[k] == ls[1..][k - 1];
    }
  }

  /**
   * The two completeness tests agree except on a lone blank line, which Rust calls complete and
   * Go does not.
   */
  lemma CompleteAgree(record: bytes)
    ensures CompleteGo(record) <==> CompleteRust(record) && |Lines(record)| >= 2
  {
    var ls := Lines(record);
    LinesCharacterized(record, ls);
    NormalizeJoin(ls);
    if |ls| == 1 {
      assert ls == [ls[0]];
      EndsBlankOne(ls[0]);
    } else if ls != [] {
      SplitLast(ls);
      EndsBlankMany(ls[..|ls| - 1], ls[|ls| - 1]);
    }
  }

  lemma EndsBlankOne(l: Line)
    requires WellFormed([l])
    ensures !EndsTwice(LinesText([l]))
  {
    var ls := [l];
    assert ls[1..] == [];
    LastOne(l);
  }

  lemma EndsBlankMany(init: seq<Line>, l: Line)
    requires init != [] && WellFormed(init + [l])
    ensures EndsTwice(LinesText(init + [l])) <==> IsBlank(l)
  {
    WellFormedInit(init, l);
    LinesTextSnoc(init, l);
    EndsBlank(init, l);
  }

  lemma EndsBlank(init: seq<Line>, l: Line)
    requires init != [] && init[|init| - 1].ending != []
    requires NoBreaks(l.text) && (l.ending == [] ==> l.text != [])
    ensures EndsTwice(LinesText(init) + (l.text + if l.ending == [] then [] else [LF])) <==> l.text == []
  {
    var before, m := init[..|init| - 1], init[|init| - 1];
    assert init == before + [m];
    LinesTextSnoc(before, m);
    Assoc(LinesText(before), m.text, [LF]);
    LastTwo(LinesText(before) + m.text, l);
  }

  lemma LastTwo(head: bytes, l: Line)
    requires NoBreaks(l.text) && (l.ending == [] ==> l.text != [])
    ensures EndsTwice(head + [LF] + (l.text + if l.ending == [] then [] else [LF])) <==> l.text == []
  {
    var last := l.text + if l.ending == [] then [] else [LF];
    var text := head + [LF] + last;
    if |text| >= 2 {
      var tail := text[|text| - 2..];
      assert tail == [text[|text| - 2], text[|text| - 1]];
      if l.text != [] {
        assert text[|head| + 1 + |l.text| - 1] == l.text[|l.text| - 1];
      }
    }
  }

  lemma LastOne(l: Line)
    requires NoBreaks(l.text) && (l.ending == [] ==> l.text != [])
    ensures !EndsTwice(l.text + if l.ending == [] then [] else [LF])
  {
    var text := l.text + if l.ending == [] then [] else [LF];
    if |text| >= 2 {
      assert text[|text| - 2..][0] == text[|text| - 2] == l.text[|text| - 2];
    }
  }
}
