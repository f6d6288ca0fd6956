/**
 * The byte order mark. A client with a response key strips it from the first record before
 * transforming that record, after the records were cut. The stream it hands on is cut the same
 * way again unless the first line was nothing but the mark.
 */
module SseBom {
  import opened Bytes
  import opened SseRecords
  import opened SseFields
  import opened SseTransform
  import opened Wrappers
  import Json

  const BOM: bytes := [0xef, 0xbb, 0xbf]

  function Strip(s: bytes): bytes {
    if BOM <= s then s[3..] else s
  }

  function StripFirst(records: seq<bytes>): (r: seq<bytes>)
    ensures |r| == |records|
  {
    if records == [] then [] else [Strip(records[0])] + records[1..]
  }

  /** A first line that is only the mark, unless its line break is all that follows. */
  predicate LoneMark(s: bytes) {
    BOM <= s && (|s| == 3 || (IsBreak(s[3]) && BreakEnd(s, 3) < |s|))
  }

  lemma StripLine(s: bytes, l: Line, rest: seq<Line>)
    requires BOM <= s && Lines(s) == [l] + rest
    ensures BOM <= l.text
    ensures JoinLines([Line(l.text[3..], l.ending)] + rest) == s[3..]
    ensures l.text[3..] != [] || l.ending != [] ==> Lines(s[3..]) == [Line(l.text[3..], l.ending)] + rest
    ensures LoneMark(s) <==> l.text == BOM && (l.ending == [] || rest != [])
  {
    LinesCharacterized(s, [l] + rest);
    assert ([l] + rest)[0] == l && ([l] + rest)[1..] == rest;
    Assoc(l.text, l.ending, JoinLines(rest));
    assert s == l.text + (l.ending + JoinLines(rest));
    MarkInFirstLine(s, l.text, l.ending + JoinLines(rest));
    var m := Line(l.text[3..], l.ending);
    assert ([m] + rest)[0] == m && ([m] + rest)[1..] == rest;
    assert s[3..] == m.text + (l.ending + JoinLines(rest));
    Assoc(m.text, m.ending, JoinLines(rest));
    if m.text != [] || m.ending != [] {
      assert NoBreaks(m.text);
      LinesCharacterized(s[3..], [m] + rest);
    }
    LoneMarkLine(s, l, rest);
  }

  lemma MarkInFirstLine(s: bytes, text: bytes, after: bytes)
    requires BOM <= s && s == text + after && (after == [] || IsBreak(after[0]))
    ensures BOM <= text
  {
    assert forall k :: 0 <= k < 3 ==> s[k] == BOM[k];
    assert after != [] ==> s[|text|] == after[0];
    if |text| < 3 {
      assert false;
    } else {
      assert forall k :: 0 <= k < 3 ==> text[k] == s[k];
    }
  }

  lemma {:induction false} JoinNonempty(ls: seq<Line>)
    requires WellFormed(ls)
    ensures JoinLines(ls) == [] <==> ls == []
  {
  }

  lemma LoneMarkLine(s: bytes, l: Line, rest: seq<Line>)
    requires s == l.text + (l.ending + JoinLines(rest)) && BOM <= l.text && NoBreaks(l.text)
    requires WellFormed(rest) && Adjacent(l, rest)
    ensures LoneMark(s) <==> l.text == BOM && (l.ending == [] || rest != [])
  {
    JoinNonempty(rest);
    FirstByte(rest);
    if l.text == BOM {
      if l.ending != [] {
        assert s[3..] == l.ending + JoinLines(rest);
        assert s[3..3 + |l.ending|] == l.ending;
        assert s[3 + |l.ending|..] == JoinLines(rest);
        BreakEndOfEnding(s, 3, 3 + |l.ending|);
      } else {
        assert JoinLines(rest) == [];
        assert l.ending + JoinLines(rest) == [];
      }
    } else {
      assert s[3] == l.text[3];
    }
  }

  /** The first group changes with its first line; the others do not. */
  lemma {:induction false} GroupFirst(a: seq<Line>, b: seq<Line>, ls: seq<Line>)
    requires a != [] && b != []
    ensures var ga, gb := Group(a, ls), Group(b, ls);
            && ga != [] && gb != [] && ga[1..] == gb[1..]
            && a <= ga[0] && b <= gb[0] && ga[0][|a|..] == gb[0][|b|..]
    decreases |ls|
  {
    if ls != [] && !IsBlank(ls[0]) {
      GroupFirst(a + [ls[0]], b + [ls[0]], ls[1..]);
      var ga, gb := Group(a + [ls[0]], ls[1..])[0], Group(b + [ls[0]], ls[1..])[0];
      assert ga[|a|..] == [ls[0]] + ga[|a| + 1..];
      assert gb[|b|..] == [ls[0]] + gb[|b| + 1..];
    }
  }

  /**
   * Stripping the mark after cutting the stream is the same as cutting the stripped stream, if
   * and only if the first line is not the mark alone.
   */
  lemma StripCommutes(s: bytes)
    ensures StripFirst(Records(s)) == Records(Strip(s)) <==> !LoneMark(s)
  {
    if BOM <= s {
      LinesCharacterized(s, Lines(s));
      assert Lines(s) != [];
      var l, rest := Lines(s)[0], Lines(s)[1..];
      assert Lines(s) == [l] + rest;
      StripLine(s, l, rest);
      if LoneMark(s) {
        StripLoneMark(s, l, rest);
      } else {
        StripMarked(s, l, rest);
      }
    } else {
      StripUnmarked(s);
    }
  }

  lemma StripUnmarked(s: bytes)
    requires !(BOM <= s)
    ensures StripFirst(Records(s)) == Records(s)
  {
    RecordsPartition(s);
    var rs := Records(s);
    if rs != [] {
      assert s == rs[0] + Flatten(rs[1..]);
      assert rs[0] <= s;
      assert rs == [rs[0]] + rs[1..];
    }
  }

  lemma FirstRecord(ls: seq<Line>, s: bytes)
    requires Lines(s) == ls && ls != []
    ensures Records(s) != [] && ls[0].text + ls[0].ending <= Records(s)[0]
    ensures IsBlank(ls[0]) ==> Records(s) == [ls[0].ending] + JoinEach(Group([], ls[1..]))
    ensures !IsBlank(ls[0]) ==> Records(s) == JoinEach(Group([ls[0]], ls[1..]))
  {
    RecordsAreGroupsOfLines(s);
    var l := ls[0];
    assert [] + [l] == [l];
    var gs := Group([], ls);
    if IsBlank(l) {
      assert gs[0] == [l] && gs[1..] == Group([], ls[1..]);
      JoinCons(l, []);
      assert LineBytes(l) == l.ending;
      assert [l] == [l] + [] && JoinLines([]) == [];
      assert JoinLines([l]) == l.ending;
      assert JoinEach(gs) == [JoinLines(gs[0])] + JoinEach(gs[1..]);
    } else {
      GroupFirst([l], [l], ls[1..]);
      var g := Group([l], ls[1..])[0];
      assert g == [l] + g[1..];
      JoinCons(l, g[1..]);
    }
  }

  lemma JoinCons(l: Line, ls: seq<Line>)
    ensures JoinLines([l] + ls) == LineBytes(l) + JoinLines(ls)
  {
    assert ([l] + ls)[1..] == ls;
  }

  lemma StripMarked(s: bytes, l: Line, rest: seq<Line>)
    requires BOM <= s && !LoneMark(s)
    requires Lines(s) == [l] + rest && BOM <= l.text
    requires l.text[3..] != [] || l.ending != [] ==> Lines(s[3..]) == [Line(l.text[3..], l.ending)] + rest
    requires l.text == BOM ==> l.ending != [] && rest == []
    ensures StripFirst(Records(s)) == Records(s[3..])
  {
    var m := Line(l.text[3..], l.ending);
    assert ([l] + rest)[0] == l && ([l] + rest)[1..] == rest;
    assert ([m] + rest)[0] == m && ([m] + rest)[1..] == rest;
    FirstRecord([l] + rest, s);
    FirstRecord([m] + rest, s[3..]);
    if IsBlank(m) {
      assert l.text == BOM && Group([], rest) == [] && JoinEach([]) == [];
      assert Records(s[3..]) == [l.ending];
      JoinEachOne([l]);
      JoinCons(l, []);
      assert [l] + [] == [l] && JoinLines([]) == [];
      assert !IsBlank(l) && rest == [];
      assert Group([l], rest) == [[l]];
      assert JoinLines([l]) == LineBytes(l) == BOM + l.ending;
      assert Records(s) == [BOM + l.ending];
      assert (BOM + l.ending)[3..] == l.ending;
    } else {
      StripFirstGroup(l, m, rest);
    }
  }

  lemma StripFirstGroup(l: Line, m: Line, rest: seq<Line>)
    requires BOM <= l.text && m == Line(l.text[3..], l.ending)
    ensures StripFirst(JoinEach(Group([l], rest))) == JoinEach(Group([m], rest))
  {
    GroupFirst([l], [m], rest);
    var gl, gm := Group([l], rest), Group([m], rest);
    var tail := gl[0][1..];
    assert gl[0] == [l] + tail && gm[0] == [m] + tail;
    JoinCons(l, tail);
    JoinCons(m, tail);
    Assoc(l.text, l.ending, JoinLines(tail));
    Assoc(m.text, m.ending, JoinLines(tail));
    StripText(l.text, l.ending + JoinLines(tail));
  }

  lemma StripText(text: bytes, after: bytes)
    requires BOM <= text
    ensures Strip(text + after) == text[3..] + after
  {
  }

  lemma StripLoneMark(s: bytes, l: Line, rest: seq<Line>)
    requires BOM <= s && Lines(s) == [l] + rest && l.text == BOM
    requires l.ending != [] ==> Lines(s[3..]) == [Line(l.text[3..], l.ending)] + rest
    requires l.ending == [] || rest != []
    ensures StripFirst(Records(s)) != Records(s[3..])
  {
    var m := Line([], l.ending);
    LinesCharacterized(s, [l] + rest);
    assert ([l] + rest)[0] == l && ([l] + rest)[1..] == rest;
    FirstRecord([l] + rest, s);
    if l.ending == [] {
      assert rest == [];
      JoinCons(l, []);
      assert [l] + [] == [l];
      assert s == BOM;
      assert s[3..] == [];
      assert Records(s[3..]) == [];
    } else {
      assert ([m] + rest)[0] == m && ([m] + rest)[1..] == rest;
      FirstRecord([m] + rest, s[3..]);
      assert Records(s[3..])[0] == l.ending;
      LongerFirst(s, l, rest);
    }
  }

  lemma LongerFirst(s: bytes, l: Line, rest: seq<Line>)
    requires Lines(s) == [l] + rest && l.text == BOM && rest != [] && WellFormed(rest)
    ensures Records(s) != [] && |Records(s)[0]| > 3 + |l.ending|
  {
    assert ([l] + rest)[0] == l && ([l] + rest)[1..] == rest;
    FirstRecord([l] + rest, s);
    var r := rest[0];
    assert [l] + [r] == [l, r];
    GroupFirst([l, r], [l, r], rest[1..]);
    var g := Group([l], rest)[0];
    assert [l, r] <= g by {
      if IsBlank(r) {
        assert g == [l] + [r];
      }
    }
    assert g == [l] + ([r] + g[2..]);
    JoinCons(l, [r] + g[2..]);
    JoinCons(r, g[2..]);
    assert r.text != [] || r.ending != [];
    assert JoinLines(g) == LineBytes(l) + (LineBytes(r) + JoinLines(g[2..]));
  }

  /** What a client with a response key hands on for a stream. */
  function ClientStream(codec: Json.Codec, s: bytes, key: Key, responses: bool, messages: bool):
    Result<(seq<bytes>, Option<string>)>
  {
    TransformAll(codec, StripFirst(Records(s)), Some(key), None, responses, messages)
  }

  /** A record is blank at most in its last line. */
  lemma RecordIsOneGroup(s: bytes, k: nat)
    requires k < |Records(s)|
    ensures OneGroup(Lines(Records(s)[k]))
  {
    StreamGroups(s);
    StreamRecordLines(s, k);
  }

  /** Stripped of a lone mark, the first record begins with a blank line that does not end it. */
  lemma LoneMarkRecord(s: bytes) returns (b: Line, g: seq<Line>)
    requires LoneMark(s) && |s| > 3
    ensures Records(s) != [] && Lines(Strip(Records(s)[0])) == [b] + g
    ensures IsBlank(b) && OneGroup(g) && WellFormed([b] + g)
  {
    LinesCharacterized(s, Lines(s));
    var l, rest := Lines(s)[0], Lines(s)[1..];
    assert Lines(s) == [l] + rest;
    StripLine(s, l, rest);
    FirstRecord(Lines(s), s);
    LongerFirst(s, l, rest);
    var record := Records(s)[0];
    RecordIsOneGroup(s, 0);
    LinesCharacterized(record, Lines(record));
    var l', g' := Lines(record)[0], Lines(record)[1..];
    assert Lines(record) == [l'] + g';
    assert BOM <= record by {
      assert l.text + l.ending <= record && BOM <= l.text + l.ending;
    }
    StripLine(record, l', g');
    FirstLineOf(s, record, l, rest, l', g');
    b, g := Line([], l.ending), g';
    LinesCharacterized(Strip(record), [b] + g);
    assert forall k :: 0 <= k < |g| ==> Lines(record)[k + 1] == g[k];
  }

  /** The first record's first line is the stream's, and here it is not its last. */
  lemma FirstLineOf(s: bytes, record: bytes, l: Line, rest: seq<Line>, l': Line, g': seq<Line>)
    requires Lines(s) == [l] + rest && l.text == BOM && l.ending != []
    requires Records(s) != [] && record == Records(s)[0] && |record| > 3 + |l.ending|
    requires Lines(record) == [l'] + g'
    ensures l' == l && g' != []
  {
    assert ([l] + rest)[0] == l && ([l] + rest)[1..] == rest;
    assert ([l'] + g')[0] == l';
    StreamRecordLines(s, 0);
    assert [] + [l] == [l];
    GroupFirst([l], [l], rest);
    assert Group([], Lines(s)) == Group([l], rest);
    LinesCharacterized(record, Lines(record));
    JoinCons(l, g');
    assert |record| == |LineBytes(l)| + |JoinLines(g')| && |JoinLines([])| == 0;
  }

  /** Rewriting the data of such a record leaves its blank line where it is, with lines after it. */
  lemma BlankStays(b: Line, g: seq<Line>, choice: Option<bytes>) returns (h: seq<Line>)
    requires IsBlank(b) && OneGroup(g) && WellFormed([b] + g)
    requires choice.Some? ==> NoBreaks(choice.value)
    ensures Apply([b] + g, choice) == [b] + h && h != [] && WellFormed([b] + h)
  {
    assert ([b] + g)[0] == b && ([b] + g)[1..] == g;
    match choice
    case None => h := g;
    case Some(json) =>
      h := Rewrite(g, json);
      assert g + [] == g && h + [] == h;
      RewriteInPlace(g, json, [], []);
      assert Field(DATA, []) == None;
      assert Rewrite([b] + g, json) == [b] + h;
      assert ([b] + h)[0] == b && ([b] + h)[1..] == h;
  }

  lemma LoneMarkAlone(codec: Json.Codec, key: Key, responses: bool, messages: bool)
    ensures var r := ClientStream(codec, BOM, key, responses, messages);
            r.Ok? ==> Records(Flatten(r.value.0)) != r.value.0
  {
    var l := Line(BOM, []);
    LinesCharacterized(BOM, [l]);
    JoinCons(l, []);
    assert [l] + [] == [l] && JoinLines([]) == [];
    assert NoBreaks(BOM);
    FirstRecord([l], BOM);
    assert Group([l], []) == [[l]];
    JoinEachOne([l]);
    assert Records(BOM) == [BOM];
    var empty: bytes := [];
    assert BOM[3..] == empty && StripFirst([BOM]) == [empty];
    var r := ClientStream(codec, BOM, key, responses, messages);
    if r.Ok? {
      assert RecordData(empty) == [];
      TransformAllApplies(codec, [empty], Some(key), None, responses, messages);
      assert PassesThrough(empty) && Lines(empty) == [];
      assert r.value.0 == [empty];
      assert Flatten([empty]) == empty + Flatten([empty][1..]) == [];
    }
  }

  lemma LoneMarkBreaks(codec: Json.Codec, s: bytes, key: Key, responses: bool, messages: bool)
    requires codec.Faithful() && LoneMark(s) && |s| > 3
    ensures var r := ClientStream(codec, s, key, responses, messages);
            r.Ok? ==> Records(Flatten(r.value.0)) != r.value.0
  {
    var r := ClientStream(codec, s, key, responses, messages);
    if r.Ok? {
      var b, g := LoneMarkRecord(s);
      var records := StripFirst(Records(s));
      TransformAllApplies(codec, records, Some(key), None, responses, messages);
      hide ClientStream, TransformAll, Records, Lines, Apply, Choice;
      var choice := Choice(codec, records[0], Some(key));
      ChoiceHasNoBreaks(codec, records[0], Some(key));
      var h := BlankStays(b, g, choice);
      LinesCharacterized(r.value.0[0], [b] + h);
      assert ([b] + h)[0] == b;
      assert !OneGroup(Lines(r.value.0[0]));
      if Records(Flatten(r.value.0)) != [] {
        RecordIsOneGroup(Flatten(r.value.0), 0);
      }
    }
  }

  lemma ChoiceHasNoBreaks(codec: Json.Codec, record: bytes, key: Option<Key>)
    requires codec.Faithful()
    ensures Choice(codec, record, key).Some? ==> NoBreaks(Choice(codec, record, key).value)
  {
  }

  /**
   * The client's output is cut into exactly its own records again if and only if the stream does
   * not begin with a lone mark.
   */
  lemma ClientStreamDecodes(codec: Json.Codec, s: bytes, key: Key, responses: bool, messages: bool)
    requires codec.Faithful()
    ensures var r := ClientStream(codec, s, key, responses, messages);
            r.Ok? ==> |r.value.0| == |Records(s)|
                      && (Records(Flatten(r.value.0)) == r.value.0 <==> !LoneMark(s))
  {
    hide Records, TransformAll, Strip;
    TransformAllApplies(codec, StripFirst(Records(s)), Some(key), None, responses, messages);
    assert |StripFirst(Records(s))| == |Records(s)|;
    StripCommutes(s);
    if !LoneMark(s) {
      TransformedStreamDecodes(codec, Strip(s), Some(key), responses, messages);
    } else if |s| > 3 {
      LoneMarkBreaks(codec, s, key, responses, messages);
    } else {
      assert s == BOM;
      LoneMarkAlone(codec, key, responses, messages);
    }
  }

  /**
   * When such a stream is handed on whole, and what receipt ID it is registered under: the one ID
   * its records carry. Without one the client has none.
   */
  lemma ClientStreamReceipt(codec: Json.Codec, s: bytes, key: Key, responses: bool, messages: bool)
    ensures var r := ClientStream(codec, s, key, responses, messages);
            var records := StripFirst(Records(s));
            && (r.Ok? <==>
                  && (forall i :: 0 <= i < |records| ==> codec.utf8(records[i]) && Passable(codec, records[i], Some(key)))
                  && exists one :: OneId(codec, records, one, responses, messages))
            && (r.Ok? ==>
                  && OneId(codec, records, r.value.1, responses, messages)
                  && (r.value.1.Some? <==> NamesId(codec, records, responses, messages)))
  {
    hide TransformAll, Passable, OneId;
    StreamKnows(codec, StripFirst(Records(s)), Some(key), None, responses, messages);
  }
}
