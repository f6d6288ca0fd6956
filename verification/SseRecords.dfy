/**
 * What an event stream is cut into: lines (CR, LF or CRLF) and records (a record ends with
 * its first blank line, or with the stream). Everything else about server-sent events is
 * proved against the definitions of this module.
 */
module SseRecords {
  import opened Bytes

  datatype Line = Line(text: bytes, ending: bytes)

  predicate IsBreak(b: byte) {
    b == CR || b == LF
  }

  predicate NoBreaks(s: bytes) {
    forall k :: 0 <= k < |s| ==> !IsBreak(s[k])
  }

  /** The index just past the line break at `i`; a CR takes a following LF with it. */
  function BreakEnd(s: bytes, i: nat): (e: nat)
    requires i < |s| && IsBreak(s[i])
    ensures i < e <= |s|
  {
    if s[i] == CR && i + 1 < |s| && s[i + 1] == LF then i + 2 else i + 1
  }

  function LinesAt(s: bytes, start: nat, i: nat): seq<Line>
    requires start <= i <= |s|
    decreases |s| - i
  {
    if i == |s| then
      if start < |s| then [Line(s[start..], [])] else []
    else if !IsBreak(s[i]) then
      LinesAt(s, start, i + 1)
    else
      var e := BreakEnd(s, i);
      [Line(s[start..i], s[i..e])] + LinesAt(s, e, e)
  }

  function Lines(s: bytes): seq<Line> {
    LinesAt(s, 0, 0)
  }

  /**
   * The records from a scanner position to the end of the stream: the current record began at
   * `start`, its current line at `line`, and nothing before `i` is left to look at.
   */
  function RecordsAt(s: bytes, start: nat, line: nat, i: nat): seq<bytes>
    requires start <= line <= i <= |s|
    decreases |s| - i
  {
    if i == |s| then
      if start < |s| then [s[start..]] else []
    else if !IsBreak(s[i]) then
      RecordsAt(s, start, line, i + 1)
    else
      var e := BreakEnd(s, i);
      if i == line then [s[start..e]] + RecordsAt(s, e, e, e)
      else RecordsAt(s, start, e, e)
  }

  function Records(s: bytes): seq<bytes> {
    RecordsAt(s, 0, 0, 0)
  }

  function LineBytes(l: Line): bytes {
    l.text + l.ending
  }

  function JoinLines(ls: seq<Line>): bytes {
    if ls == [] then [] else LineBytes(ls[0]) + JoinLines(ls[1..])
  }

  predicate IsEnding(e: bytes) {
    e == [CR] || e == [LF] || e == [CR, LF]
  }

  /** A CR that ends `a` would swallow the LF of the blank line `b`. */
  predicate Collide(a: Line, b: Line) {
    a.ending == [CR] && b.text == [] && b.ending == [LF]
  }

  /** The line lists that are their own tokenization. */
  predicate WellFormed(ls: seq<Line>) {
    ls == [] ||
    (&& NoBreaks(ls[0].text)
     && WellFormed(ls[1..])
     && Adjacent(ls[0], ls[1..]))
  }

  predicate Adjacent(l: Line, rest: seq<Line>) {
    if rest == [] then IsEnding(l.ending) || (l.ending == [] && l.text != [])
    else IsEnding(l.ending) && !Collide(l, rest[0])
  }

  predicate IsBlank(l: Line) {
    l.text == []
  }

  /** Splits a line list after every blank line; `current` is the open group. */
  function Group(current: seq<Line>, ls: seq<Line>): seq<seq<Line>>
    decreases |ls|
  {
    if ls == [] then
      if current == [] then [] else [current]
    else if IsBlank(ls[0]) then
      [current + [ls[0]]] + Group([], ls[1..])
    else
      Group(current + [ls[0]], ls[1..])
  }

  function JoinEach(groups: seq<seq<Line>>): seq<bytes> {
    if groups == [] then [] else [JoinLines(groups[0])] + JoinEach(groups[1..])
  }

  lemma NoBreaksSnoc(s: bytes, a: nat, b: nat)
    requires a <= b < |s| && NoBreaks(s[a..b]) && !IsBreak(s[b])
    ensures NoBreaks(s[a..b + 1])
  {
    assert s[a..b + 1] == s[a..b] + [s[b]];
  }

  // ----- Lines and JoinLines are inverse -----

  lemma {:induction false} JoinConcat(a: seq<Line>, b: seq<Line>)
    ensures JoinLines(a + b) == JoinLines(a) + JoinLines(b)
  {
    if a == [] {
      assert a + b == b;
    } else {
      JoinConcat(a[1..], b);
      assert (a + b)[1..] == a[1..] + b;
      Assoc(LineBytes(a[0]), JoinLines(a[1..]), JoinLines(b));
    }
  }

  lemma JoinSnoc(a: seq<Line>, l: Line)
    ensures JoinLines(a + [l]) == JoinLines(a) + LineBytes(l)
  {
    JoinConcat(a, [l]);
    assert JoinLines([l]) == LineBytes(l) + JoinLines([l][1..]);
  }

  lemma {:induction false} JoinOfLinesAt(s: bytes, start: nat, i: nat)
    requires start <= i <= |s|
    ensures JoinLines(LinesAt(s, start, i)) == s[start..]
    decreases |s| - i
  {
    if i == |s| {
    } else if !IsBreak(s[i]) {
      JoinOfLinesAt(s, start, i + 1);
    } else {
      var e := BreakEnd(s, i);
      JoinOfLinesAt(s, e, e);
      assert s[start..] == s[start..i] + s[i..e] + s[e..];
    }
  }

  lemma EndingAtBreak(s: bytes, i: nat)
    requires i < |s| && IsBreak(s[i])
    ensures var e := BreakEnd(s, i);
            && IsEnding(s[i..e])
            && (s[i..e] == [CR] ==> e == |s| || s[e] != LF)
            && (s[i..e] == [LF] ==> s[i] == LF)
  {
    var e := BreakEnd(s, i);
    if e == i + 2 {
      assert s[i..e] == [s[i], s[i + 1]];
    } else {
      assert s[i..e] == [s[i]];
    }
  }

  lemma {:induction false} LinesAtWellFormed(s: bytes, start: nat, i: nat)
    requires start <= i <= |s|
    requires NoBreaks(s[start..i])
    ensures WellFormed(LinesAt(s, start, i))
    ensures LinesAt(s, start, i) == [] <==> start == |s|
    ensures var ls := LinesAt(s, start, i);
            ls != [] && ls[0].text == [] && ls[0].ending == [LF] ==> s[start] == LF
    decreases |s| - i
  {
    if i == |s| {
      if start < |s| {
        var last := Line(s[start..], []);
        assert s[start..i] == s[start..];
        assert [last][1..] == [] && WellFormed([]);
        assert WellFormed([last]);
      }
    } else if !IsBreak(s[i]) {
      NoBreaksSnoc(s, start, i);
      LinesAtWellFormed(s, start, i + 1);
    } else {
      var e := BreakEnd(s, i);
      LinesAtWellFormed(s, e, e);
      var l, rest := Line(s[start..i], s[i..e]), LinesAt(s, e, e);
      EndingAtBreak(s, i);
      assert ([l] + rest)[1..] == rest;
      assert s[start..i] == [] ==> start == i;
    }
  }

  /** Scanning over break-free bytes changes nothing but the position. */
  lemma {:induction false} LinesAtSkip(s: bytes, start: nat, i: nat, j: nat)
    requires start <= i <= j <= |s|
    requires NoBreaks(s[i..j])
    ensures LinesAt(s, start, i) == LinesAt(s, start, j)
    decreases j - i
  {
    if i < j {
      assert s[i] == s[i..j][0];
      assert s[i..j][1..] == s[i + 1..j];
      LinesAtSkip(s, start, i + 1, j);
    }
  }

  lemma SplitFirst(s: bytes, k: nat, l: Line, rest: bytes)
    requires k <= |s| && s[k..] == LineBytes(l) + rest
    ensures var j := k + |l.text|; var e := j + |l.ending|;
            e <= |s| && s[k..j] == l.text && s[j..e] == l.ending && s[e..] == rest
  {
    var j := k + |l.text|;
    var e := j + |l.ending|;
    assert s[k..j] == s[k..][..|l.text|];
    assert s[j..e] == s[k..][|l.text|..|l.text| + |l.ending|];
    assert s[e..] == s[k..][|l.text| + |l.ending|..];
  }

  /** The joined bytes begin with a LF only if the first line is blank and ends with LF. */
  lemma FirstByte(ls: seq<Line>)
    requires WellFormed(ls)
    ensures JoinLines(ls) != [] && JoinLines(ls)[0] == LF ==>
              ls[0].text == [] && ls[0].ending == [LF]
  {
    if ls != [] {
      var l := ls[0];
      assert JoinLines(ls) == LineBytes(l) + JoinLines(ls[1..]);
      if l.text != [] {
        assert LineBytes(l)[0] == l.text[0];
        assert !IsBreak(l.text[0]);
      }
    }
  }

  lemma BreakEndOfEnding(s: bytes, j: nat, e: nat)
    requires j <= e <= |s| && IsEnding(s[j..e])
    requires s[j..e] == [CR] ==> s[e..] == [] || s[e..][0] != LF
    ensures IsBreak(s[j]) && BreakEnd(s, j) == e
  {
    assert s[j] == s[j..e][0];
    assert e - j == 2 ==> s[j + 1] == s[j..e][1];
    assert s[e..] != [] ==> s[e] == s[e..][0];
  }

  /** Scanning one whole line. */
  lemma LinesAtLine(s: bytes, k: nat, j: nat)
    requires k <= j < |s| && NoBreaks(s[k..j]) && IsBreak(s[j])
    ensures var e := BreakEnd(s, j);
            LinesAt(s, k, k) == [Line(s[k..j], s[j..e])] + LinesAt(s, e, e)
  {
    LinesAtSkip(s, k, k, j);
  }

  lemma LinesAtLast(s: bytes, k: nat)
    requires k < |s| && NoBreaks(s[k..])
    ensures LinesAt(s, k, k) == [Line(s[k..], [])]
  {
    assert s[k..|s|] == s[k..];
    LinesAtSkip(s, k, k, |s|);
  }

  lemma LinesOfJoinOpen(s: bytes, k: nat, l: Line)
    requires k <= |s| && s[k..] == LineBytes(l) && NoBreaks(l.text) && l.ending == [] && l.text != []
    ensures LinesAt(s, k, k) == [l]
  {
    assert s[k..] == l.text;
    LinesAtLast(s, k);
  }

  lemma LinesOfJoinStep(s: bytes, k: nat, l: Line, rest: seq<Line>)
    requires k <= |s| && s[k..] == LineBytes(l) + JoinLines(rest)
    requires NoBreaks(l.text) && WellFormed(rest) && Adjacent(l, rest) && IsEnding(l.ending)
    requires var e := k + |LineBytes(l)|; LinesAt(s, e, e) == rest
    ensures LinesAt(s, k, k) == [l] + rest
  {
    var j, e := k + |l.text|, k + |LineBytes(l)|;
    SplitFirst(s, k, l, JoinLines(rest));
    FirstByte(rest);
    BreakEndOfEnding(s, j, e);
    LinesAtLine(s, k, j);
  }

  lemma {:induction false} LinesOfJoinAt(s: bytes, k: nat, ls: seq<Line>)
    requires k <= |s| && s[k..] == JoinLines(ls)
    requires WellFormed(ls)
    ensures LinesAt(s, k, k) == ls
    decreases |ls|
  {
    if ls != [] {
      var l, rest := ls[0], ls[1..];
      assert ls == [l] + rest;
      if IsEnding(l.ending) {
        var e := k + |LineBytes(l)|;
        assert s[e..] == s[k..][|LineBytes(l)|..] == JoinLines(rest);
        LinesOfJoinAt(s, e, rest);
        LinesOfJoinStep(s, k, l, rest);
      } else {
        assert rest == [] && JoinLines(rest) == [];
        LinesOfJoinOpen(s, k, l);
      }
    }
  }

  /** Tokenizing is exactly undone by joining, and the well-formed lists are the tokenizations. */
  lemma LinesCharacterized(s: bytes, ls: seq<Line>)
    ensures Lines(s) == ls <==> WellFormed(ls) && JoinLines(ls) == s
  {
    JoinOfLinesAt(s, 0, 0);
    LinesAtWellFormed(s, 0, 0);
    if WellFormed(ls) && JoinLines(ls) == s {
      LinesOfJoinAt(s, 0, ls);
    }
  }

  // ----- Records are the groups of lines -----

  lemma JoinEachOne(g: seq<Line>)
    ensures JoinEach([g]) == [JoinLines(g)]
  {
    assert [g][1..] == [];
  }

  lemma GroupOpen(current: seq<Line>, last: Line)
    requires !IsBlank(last)
    ensures Group(current, [last]) == [current + [last]]
  {
    assert [last][1..] == [];
    assert Group(current + [last], []) == [current + [last]];
  }

  lemma {:induction false} RecordsAtAreGroups(s: bytes, start: nat, line: nat, i: nat, current: seq<Line>)
    requires start <= line <= i <= |s|
    requires JoinLines(current) == s[start..line]
    requires current == [] <==> start == line
    ensures RecordsAt(s, start, line, i) == JoinEach(Group(current, LinesAt(s, line, i)))
    decreases |s| - i
  {
    if i == |s| {
      if line < |s| {
        var last := Line(s[line..], []);
        JoinSnoc(current, last);
        GroupOpen(current, last);
        assert s[start..] == s[start..line] + LineBytes(last);
        JoinEachOne(current + [last]);
      } else {
        assert s[start..] == s[start..line];
        JoinEachOne(current);
      }
    } else if !IsBreak(s[i]) {
      RecordsAtAreGroups(s, start, line, i + 1, current);
    } else {
      RecordsAtBreak(s, start, line, i, current);
    }
  }

  lemma {:induction false} RecordsAtBreak(s: bytes, start: nat, line: nat, i: nat, current: seq<Line>)
    requires start <= line <= i < |s| && IsBreak(s[i])
    requires JoinLines(current) == s[start..line]
    requires current == [] <==> start == line
    ensures RecordsAt(s, start, line, i) == JoinEach(Group(current, LinesAt(s, line, i)))
    decreases |s| - i, 0
  {
    var e := BreakEnd(s, i);
    var l, rest := Line(s[line..i], s[i..e]), LinesAt(s, e, e);
    assert ([l] + rest)[1..] == rest;
    JoinSnoc(current, l);
    SliceSplit(s, start, line, e);
    SliceSplit(s, line, i, e);
    if i == line {
      RecordsAtAreGroups(s, e, e, e, []);
      var groups := Group([], rest);
      assert ([current + [l]] + groups)[1..] == groups;
    } else {
      assert !IsBlank(l);
      RecordsAtAreGroups(s, start, e, e, current + [l]);
    }
  }

  /** A record boundary is a blank line, nothing else. */
  lemma RecordsAreGroupsOfLines(s: bytes)
    ensures Records(s) == JoinEach(Group([], Lines(s)))
  {
    RecordsAtAreGroups(s, 0, 0, 0, []);
  }

  lemma {:induction false} RecordsAtFlatten(s: bytes, start: nat, line: nat, i: nat)
    requires start <= line <= i <= |s|
    ensures Flatten(RecordsAt(s, start, line, i)) == s[start..]
    ensures forall r :: r in RecordsAt(s, start, line, i) ==> r != []
    decreases |s| - i
  {
    if i == |s| {
    } else if !IsBreak(s[i]) {
      RecordsAtFlatten(s, start, line, i + 1);
    } else {
      var e := BreakEnd(s, i);
      if i == line {
        RecordsAtFlatten(s, e, e, e);
        assert s[start..] == s[start..e] + s[e..];
      } else {
        RecordsAtFlatten(s, start, e, e);
      }
    }
  }

  /** Nothing is lost, added or reordered by cutting a stream into records. */
  lemma RecordsPartition(s: bytes)
    ensures Flatten(Records(s)) == s
    ensures forall r :: r in Records(s) ==> r != []
  {
    RecordsAtFlatten(s, 0, 0, 0);
  }

  // ----- The converse: which lists of records a stream can be cut into -----

  /** The lines of one record: blank at most at its end. */
  predicate OneGroup(ls: seq<Line>) {
    ls != [] && forall k :: 0 <= k < |ls| - 1 ==> !IsBlank(ls[k])
  }

  predicate Closed(ls: seq<Line>) {
    ls != [] && IsBlank(ls[|ls| - 1])
  }

  function Concat(groups: seq<seq<Line>>): seq<Line> {
    if groups == [] then [] else groups[0] + Concat(groups[1..])
  }

  predicate Groups(groups: seq<seq<Line>>) {
    && (forall k :: 0 <= k < |groups| ==> OneGroup(groups[k]))
    && (forall k :: 0 <= k < |groups| - 1 ==> Closed(groups[k]))
  }

  lemma {:induction false} GroupOne(current: seq<Line>, g: seq<Line>, rest: seq<Line>)
    requires OneGroup(g)
    requires Closed(g) || rest == []
    ensures Group(current, g + rest) ==
            if Closed(g) then [current + g] + Group([], rest) else [current + g]
    decreases |g|
  {
    assert (g + rest)[0] == g[0];
    assert (g + rest)[1..] == g[1..] + rest;
    if |g| == 1 {
      assert g == [g[0]];
      assert g[1..] + rest == rest;
      if !Closed(g) {
        assert Group(current, g + rest) == Group(current + g, []);
      }
    } else {
      assert !IsBlank(g[0]);
      GroupOne(current + [g[0]], g[1..], rest);
      assert current + [g[0]] + g[1..] == current + g;
    }
  }

  /** Grouping the concatenation of groups gives the groups back. */
  lemma {:induction false} GroupOfConcat(groups: seq<seq<Line>>)
    requires Groups(groups)
    ensures Group([], Concat(groups)) == groups
    decreases |groups|
  {
    if groups != [] {
      var g, rest := groups[0], groups[1..];
      assert forall k :: 0 <= k < |rest| ==> rest[k] == groups[k + 1];
      GroupOfConcat(rest);
      assert [] + g == g;
      if rest == [] {
        assert Concat(groups) == g + [];
        GroupOne([], g, []);
      } else {
        GroupOne([], g, Concat(rest));
      }
    }
  }

  lemma GroupsCons(g: seq<Line>, gs: seq<seq<Line>>)
    requires OneGroup(g) && Closed(g) && Groups(gs)
    ensures Groups([g] + gs)
  {
    var all := [g] + gs;
    forall k | 0 <= k < |all| ensures OneGroup(all[k]) {
      assert k > 0 ==> all[k] == gs[k - 1];
    }
    forall k | 0 <= k < |all| - 1 ensures Closed(all[k]) {
      assert k > 0 ==> all[k] == gs[k - 1];
    }
  }

  lemma {:induction false} GroupYieldsGroups(current: seq<Line>, ls: seq<Line>)
    requires forall k :: 0 <= k < |current| ==> !IsBlank(current[k])
    ensures Groups(Group(current, ls))
    ensures Concat(Group(current, ls)) == current + ls
    decreases |ls|
  {
    if ls == [] {
      assert current != [] ==> Concat([current]) == current + Concat([current][1..]);
    } else if IsBlank(ls[0]) {
      GroupYieldsGroups([], ls[1..]);
      var g, gs := current + [ls[0]], Group([], ls[1..]);
      assert OneGroup(g) && Closed(g);
      assert ([g] + gs)[1..] == gs;
      GroupsCons(g, gs);
      assert current + ls == g + ls[1..];
    } else {
      GroupYieldsGroups(current + [ls[0]], ls[1..]);
      assert current + [ls[0]] + ls[1..] == current + ls;
    }
  }

  lemma {:induction false} JoinEachFlatten(groups: seq<seq<Line>>)
    ensures Flatten(JoinEach(groups)) == JoinLines(Concat(groups))
    ensures |JoinEach(groups)| == |groups|
    ensures forall k :: 0 <= k < |groups| ==> JoinEach(groups)[k] == JoinLines(groups[k])
  {
    if groups != [] {
      JoinEachFlatten(groups[1..]);
      JoinConcat(groups[0], Concat(groups[1..]));
    }
  }

  /** A list of line groups is what its own bytes decode to, provided the lines do not merge. */
  lemma RecordsOfGroups(groups: seq<seq<Line>>)
    requires Groups(groups) && WellFormed(Concat(groups))
    ensures Records(Flatten(JoinEach(groups))) == JoinEach(groups)
  {
    JoinEachFlatten(groups);
    var s := JoinLines(Concat(groups));
    LinesCharacterized(s, Concat(groups));
    RecordsAreGroupsOfLines(s);
    GroupOfConcat(groups);
  }
}
