/**
 * Printing a list of actions, and reading the text back, as the verifier does with the very bytes
 * whose hash was quoted (go/compose_manager.go:119-163, 209-212).
 */
module CanonicalActions {
  import opened Bytes
  import opened Wrappers
  import opened Json
  import opened Canonical

  // ----- The text -----

  /** Each part behind a comma. */
  function Behind(parts: seq<string>): string {
    if parts == [] then "" else "," + parts[0] + Behind(parts[1..])
  }

  /** The parts with commas between them. */
  function Joined(parts: seq<string>): string {
    if parts == [] then "" else parts[0] + Behind(parts[1..])
  }

  lemma {:induction false} BehindSnoc(parts: seq<string>, last: string)
    ensures Behind(parts + [last]) == Behind(parts) + ("," + last)
  {
    if parts == [] {
      assert [] + [last] == [last] && [last][1..] == [];
    } else {
      BehindSnoc(parts[1..], last);
      assert (parts + [last])[1..] == parts[1..] + [last];
      Assoc("," + parts[0], Behind(parts[1..]), "," + last);
    }
  }

  lemma JoinedSnoc(parts: seq<string>, last: string)
    ensures Joined(parts + [last]) == if parts == [] then last else Joined(parts) + ("," + last)
  {
    if parts == [] {
      assert [] + [last] == [last] && [last][1..] == [];
    } else {
      BehindSnoc(parts[1..], last);
      assert (parts + [last])[1..] == parts[1..] + [last];
      Assoc(parts[0], Behind(parts[1..]), "," + last);
    }
  }

  function QuotedAll(texts: seq<string>): seq<string> {
    seq(|texts|, i requires 0 <= i < |texts| => Quoted(texts[i]))
  }

  function FieldText(f: Field): string {
    match f
    case One(text) => Quoted(text)
    case Many(texts) => "[" + Joined(QuotedAll(texts)) + "]"
  }

  function MemberText(a: Action, key: string): string
    requires key in a
  {
    Quoted(key) + ":" + FieldText(a[key])
  }

  predicate AllIn(keys: seq<string>, a: Action) {
    forall i :: 0 <= i < |keys| ==> keys[i] in a
  }

  function MemberTexts(a: Action, keys: seq<string>): seq<string>
    requires AllIn(keys, a)
  {
    seq(|keys|, i requires 0 <= i < |keys| => MemberText(a, keys[i]))
  }

  /** An object with its members in the given order. */
  function ObjectText(a: Action, keys: seq<string>): string
    requires AllIn(keys, a)
  {
    "{" + Joined(MemberTexts(a, keys)) + "}"
  }

  ghost function ActionText(a: Action): string {
    var keys := SortedKeys(a.Keys);
    SortedInAction(a);
    ObjectText(a, keys)
  }

  lemma SortedInAction(a: Action)
    ensures AllIn(SortedKeys(a.Keys), a)
  {
    var keys := SortedKeys(a.Keys);
    forall i | 0 <= i < |keys| ensures keys[i] in a {
      assert keys[i] in Elements(keys);
    }
  }

  ghost function ActionTexts(actions: seq<Action>): seq<string> {
    seq(|actions|, i requires 0 <= i < |actions| => ActionText(actions[i]))
  }

  /** The canonical text: actions in their order, members by ascending key, no spaces. */
  ghost function CanonicalText(actions: seq<Action>): string {
    "[" + Joined(ActionTexts(actions)) + "]"
  }

  /** One action, written out: no spaces, its members in ascending order of their names. */
  lemma SampleText(action: string, image: string, timestamp: string)
    ensures var a: Action := map["timestamp" := One(timestamp), "services" := Many([image, image]), "action" := One(action)];
            var x := Quoted("action") + ":" + Quoted(action);
            var y := Quoted("services") + ":" + ("[" + (Quoted(image) + ("," + Quoted(image))) + "]");
            var z := Quoted("timestamp") + ":" + Quoted(timestamp);
            CanonicalText([a]) == "[" + ("{" + (x + ("," + y + ("," + z))) + "}") + "]"
  {
    hide Quoted, Joined, ActionText;
    var a: Action := map["timestamp" := One(timestamp), "services" := Many([image, image]), "action" := One(action)];
    ThreeMembers(a, "action", "services", "timestamp");
    JoinedTwo(Quoted(image), Quoted(image));
    assert QuotedAll([image, image]) == [Quoted(image), Quoted(image)];
    JoinedOne(ActionText(a));
    assert ActionTexts([a]) == [ActionText(a)];
  }

  lemma ThreeMembers(a: Action, first: string, second: string, third: string)
    requires a.Keys == {first, second, third} && Below(first, second) && Below(second, third)
    ensures ActionText(a) ==
            "{" + (MemberText(a, first) + ("," + MemberText(a, second) + ("," + MemberText(a, third)))) + "}"
  {
    hide Joined, MemberText;
    ThreeKeys(a, first, second, third);
    SortedInAction(a);
    var x, y, z := MemberText(a, first), MemberText(a, second), MemberText(a, third);
    assert MemberTexts(a, [first, second, third]) == [x, y, z];
    JoinedThree(x, y, z);
  }

  lemma ThreeKeys(a: Action, first: string, second: string, third: string)
    requires a.Keys == {first, second, third} && Below(first, second) && Below(second, third)
    ensures SortedKeys(a.Keys) == [first, second, third]
  {
    hide Below;
    var keys := [first, second, third];
    BelowIsTransitive(first, second, third);
    assert Elements(keys) == a.Keys by {
      assert keys[0] in Elements(keys) && keys[1] in Elements(keys) && keys[2] in Elements(keys);
    }
    AscendingUnique(keys, SortedKeys(a.Keys));
  }

  lemma JoinedOne(x: string)
    ensures Joined([x]) == x
  {
    assert [x][1..] == [];
    assert x + "" == x;
  }

  lemma JoinedTwo(x: string, y: string)
    ensures Joined([x, y]) == x + ("," + y)
  {
    hide Joined;
    JoinedOne(x);
    JoinedSnoc([x], y);
    assert [x] + [y] == [x, y];
  }

  lemma JoinedThree(x: string, y: string, z: string)
    ensures Joined([x, y, z]) == x + ("," + y + ("," + z))
  {
    hide Joined;
    JoinedTwo(x, y);
    JoinedSnoc([x, y], z);
    assert [x, y] + [z] == [x, y, z];
    Assoc(x, "," + y, "," + z);
  }

  // ----- The parser -----

  function ParseStringsTail(s: string): (r: Option<Parsed<seq<string>>>)
    ensures r.Some? ==> |r.value.rest| < |s|
    decreases |s|
  {
    if s == "" then None
    else if s[0] == ']' then Some(Parsed([], s[1..]))
    else if s[0] != ',' then None
    else
      match ParseString(s[1..])
      case None => None
      case Some(first) =>
        match ParseStringsTail(first.rest)
        case None => None
        case Some(more) => Some(Parsed([first.value] + more.value, more.rest))
  }

  function ParseField(s: string): (r: Option<Parsed<Field>>)
    ensures r.Some? ==> |r.value.rest| < |s|
  {
    if s == "" then None
    else if s[0] == '"' then
      match ParseString(s)
      case None => None
      case Some(text) => Some(Parsed(One(text.value), text.rest))
    else if s[0] != '[' || |s| == 1 then None
    else if s[1] == ']' then Some(Parsed(Many([]), s[2..]))
    else
      match ParseString(s[1..])
      case None => None
      case Some(first) =>
        match ParseStringsTail(first.rest)
        case None => None
        case Some(more) => Some(Parsed(Many([first.value] + more.value), more.rest))
  }

  datatype Member = Member(key: string, field: Field)

  function ParseMember(s: string): (r: Option<Parsed<Member>>)
    ensures r.Some? ==> |r.value.rest| < |s|
  {
    match ParseString(s)
    case None => None
    case Some(key) =>
      if key.rest == "" || key.rest[0] != ':' then None
      else
        match ParseField(key.rest[1..])
        case None => None
        case Some(field) => Some(Parsed(Member(key.value, field.value), field.rest))
  }

  /** Of two members with one name the later counts. */
  function ParseMembersTail(s: string): (r: Option<Parsed<Action>>)
    ensures r.Some? ==> |r.value.rest| < |s|
    decreases |s|
  {
    if s == "" then None
    else if s[0] == '}' then Some(Parsed(map[], s[1..]))
    else if s[0] != ',' then None
    else
      match ParseMember(s[1..])
      case None => None
      case Some(first) =>
        match ParseMembersTail(first.rest)
        case None => None
        case Some(more) => Some(Parsed(map[first.value.key := first.value.field] + more.value, more.rest))
  }

  function ParseAction(s: string): (r: Option<Parsed<Action>>)
    ensures r.Some? ==> |r.value.rest| < |s|
  {
    if |s| < 2 || s[0] != '{' then None
    else if s[1] == '}' then Some(Parsed(map[], s[2..]))
    else
      match ParseMember(s[1..])
      case None => None
      case Some(first) =>
        match ParseMembersTail(first.rest)
        case None => None
        case Some(more) => Some(Parsed(map[first.value.key := first.value.field] + more.value, more.rest))
  }

  function ParseActionsTail(s: string): (r: Option<Parsed<seq<Action>>>)
    ensures r.Some? ==> |r.value.rest| < |s|
    decreases |s|
  {
    if s == "" then None
    else if s[0] == ']' then Some(Parsed([], s[1..]))
    else if s[0] != ',' then None
    else
      match ParseAction(s[1..])
      case None => None
      case Some(first) =>
        match ParseActionsTail(first.rest)
        case None => None
        case Some(more) => Some(Parsed([first.value] + more.value, more.rest))
  }

  /** A whole text: an array of actions, each of which passes the check, and nothing after it. */
  function Parse(s: string): Option<seq<Action>> {
    if |s| < 2 || s[0] != '[' then None
    else if s[1] == ']' then if |s| == 2 then Some([]) else None
    else
      match ParseAction(s[1..])
      case None => None
      case Some(first) =>
        match ParseActionsTail(first.rest)
        case None => None
        case Some(more) =>
          var actions := [first.value] + more.value;
          if more.rest == "" && forall i :: 0 <= i < |actions| ==> ActionAllowed(actions[i]) then Some(actions) else None
  }

  // ----- Reading back what was printed -----

  lemma {:induction false} StringsTailRoundTrip(texts: seq<string>, rest: string)
    ensures ParseStringsTail(Behind(QuotedAll(texts)) + ("]" + rest)) == Some(Parsed(texts, rest))
  {
    hide Quoted, ParseString;
    var s := Behind(QuotedAll(texts)) + ("]" + rest);
    if texts == [] {
      assert s == "]" + rest;
    } else {
      var after := Behind(QuotedAll(texts[1..])) + ("]" + rest);
      assert QuotedAll(texts)[1..] == QuotedAll(texts[1..]);
      StringsTailRoundTrip(texts[1..], rest);
      StringRoundTrip(texts[0], after);
      assert s[1..] == Quoted(texts[0]) + after;
      assert [texts[0]] + texts[1..] == texts;
    }
  }

  lemma QuotedStarts(s: string)
    ensures Quoted(s) != "" && Quoted(s)[0] == '"'
  {
  }

  lemma FieldRoundTrip(f: Field, rest: string)
    ensures ParseField(FieldText(f) + rest) == Some(Parsed(f, rest))
  {
    hide Quoted, ParseString, ParseStringsTail;
    match f
    case One(text) =>
      QuotedStarts(text);
      StringRoundTrip(text, rest);
    case Many(texts) =>
      if texts == [] {
        assert ("[]" + rest)[2..] == rest;
      } else {
        ManyRoundTrip(texts, rest);
      }
  }

  lemma ManyRoundTrip(texts: seq<string>, rest: string)
    requires texts != []
    ensures ParseField(FieldText(Many(texts)) + rest) == Some(Parsed(Many(texts), rest))
  {
    hide Quoted, ParseString, ParseStringsTail, Behind;
    var s := FieldText(Many(texts)) + rest;
    var after := Behind(QuotedAll(texts[1..])) + ("]" + rest);
    assert QuotedAll(texts)[1..] == QuotedAll(texts[1..]);
    QuotedStarts(texts[0]);
    StringRoundTrip(texts[0], after);
    StringsTailRoundTrip(texts[1..], rest);
    assert s[0] == '[' && s[1] == '"' && s[1..] == Quoted(texts[0]) + after;
    assert [texts[0]] + texts[1..] == texts;
  }

  lemma MemberRoundTrip(a: Action, key: string, rest: string)
    requires key in a
    ensures ParseMember(MemberText(a, key) + rest) == Some(Parsed(Member(key, a[key]), rest))
  {
    hide Quoted, ParseString, ParseField, FieldText;
    var after := ":" + (FieldText(a[key]) + rest);
    assert MemberText(a, key) + rest == Quoted(key) + after;
    StringRoundTrip(key, after);
    FieldRoundTrip(a[key], rest);
    assert after[1..] == FieldText(a[key]) + rest;
  }

  lemma MemberStarts(a: Action, key: string)
    requires key in a
    ensures MemberText(a, key) != "" && MemberText(a, key)[0] == '"'
  {
    QuotedStarts(key);
  }

  function Restrict(a: Action, keys: seq<string>): Action
    requires AllIn(keys, a)
  {
    map key | key in keys :: a[key]
  }

  lemma {:induction false} MembersTailRoundTrip(a: Action, keys: seq<string>, rest: string)
    requires AllIn(keys, a)
    ensures ParseMembersTail(Behind(MemberTexts(a, keys)) + ("}" + rest)) == Some(Parsed(Restrict(a, keys), rest))
  {
    hide ParseMember, MemberText;
    var s := Behind(MemberTexts(a, keys)) + ("}" + rest);
    if keys == [] {
      assert s == "}" + rest;
      assert Restrict(a, keys) == map[];
    } else {
      var after := Behind(MemberTexts(a, keys[1..])) + ("}" + rest);
      assert MemberTexts(a, keys)[1..] == MemberTexts(a, keys[1..]);
      MembersTailRoundTrip(a, keys[1..], rest);
      MemberRoundTrip(a, keys[0], after);
      assert s[1..] == MemberText(a, keys[0]) + after;
      RestrictStep(a, keys);
    }
  }

  lemma RestrictStep(a: Action, keys: seq<string>)
    requires keys != [] && AllIn(keys, a)
    ensures map[keys[0] := a[keys[0]]] + Restrict(a, keys[1..]) == Restrict(a, keys)
  {
    assert forall key :: key in keys <==> key == keys[0] || key in keys[1..];
  }

  lemma ObjectRoundTrip(a: Action, keys: seq<string>, rest: string)
    requires AllIn(keys, a)
    ensures ParseAction(ObjectText(a, keys) + rest) == Some(Parsed(Restrict(a, keys), rest))
    ensures |ObjectText(a, keys)| >= 2 && ObjectText(a, keys)[0] == '{'
  {
    hide ParseMember, MemberText, ParseMembersTail;
    var s := ObjectText(a, keys) + rest;
    if keys == [] {
      assert s[2..] == rest;
      assert Restrict(a, keys) == map[];
    } else {
      var after := Behind(MemberTexts(a, keys[1..])) + ("}" + rest);
      assert MemberTexts(a, keys)[1..] == MemberTexts(a, keys[1..]);
      MemberStarts(a, keys[0]);
      MemberRoundTrip(a, keys[0], after);
      MembersTailRoundTrip(a, keys[1..], rest);
      assert s[1..] == MemberText(a, keys[0]) + after;
      RestrictStep(a, keys);
    }
  }

  lemma ActionRoundTrip(a: Action, rest: string)
    ensures ParseAction(ActionText(a) + rest) == Some(Parsed(a, rest))
    ensures |ActionText(a)| >= 2 && ActionText(a)[0] == '{'
  {
    hide ParseAction, ObjectText;
    var keys := SortedKeys(a.Keys);
    SortedInAction(a);
    ObjectRoundTrip(a, keys, rest);
    assert Restrict(a, keys) == a by {
      assert forall key :: key in a ==> key in Elements(keys);
    }
  }

  lemma {:induction false} ActionsTailRoundTrip(actions: seq<Action>)
    ensures ParseActionsTail(Behind(ActionTexts(actions)) + "]") == Some(Parsed(actions, ""))
  {
    hide ParseAction, ActionText;
    var s := Behind(ActionTexts(actions)) + "]";
    if actions == [] {
      assert s == "]";
    } else {
      var after := Behind(ActionTexts(actions[1..])) + "]";
      assert ActionTexts(actions)[1..] == ActionTexts(actions[1..]);
      ActionsTailRoundTrip(actions[1..]);
      ActionRoundTrip(actions[0], after);
      assert s[1..] == ActionText(actions[0]) + after;
      assert [actions[0]] + actions[1..] == actions;
    }
  }

  /** Parsing the canonical text of any list of allowed actions returns that list. */
  lemma CanonicalRoundTrip(actions: seq<Action>)
    requires forall i :: 0 <= i < |actions| ==> ActionAllowed(actions[i])
    ensures Parse(CanonicalText(actions)) == Some(actions)
  {
    hide ParseAction, ActionText, ParseActionsTail, ActionAllowed;
    if actions != [] {
      var s := CanonicalText(actions);
      var after := Behind(ActionTexts(actions[1..])) + "]";
      assert ActionTexts(actions)[1..] == ActionTexts(actions[1..]);
      ActionRoundTrip(actions[0], after);
      ActionsTailRoundTrip(actions[1..]);
      assert s[1..] == ActionText(actions[0]) + after;
      assert s[1] == '{';
      assert [actions[0]] + actions[1..] == actions;
    }
  }

  /** So the quoted hash is of a text that only one list of actions has. */
  lemma CanonicalInjective(a: seq<Action>, b: seq<Action>)
    requires forall i :: 0 <= i < |a| ==> ActionAllowed(a[i])
    requires forall i :: 0 <= i < |b| ==> ActionAllowed(b[i])
    ensures CanonicalText(a) == CanonicalText(b) <==> a == b
  {
    hide ActionAllowed;
    CanonicalRoundTrip(a);
    CanonicalRoundTrip(b);
  }

  // ----- Printing -----

  /** These actions are what the check makes of the given values. */
  ghost predicate Checked(raw: seq<map<string, Value>>, actions: seq<Action>) {
    && |raw| == |actions|
    && forall i :: 0 <= i < |raw| ==> ActionAllowed(actions[i]) && raw[i] == ActionValue(actions[i])
  }

  /** A text the check and the printer make of the given values. */
  ghost predicate Printed(raw: seq<map<string, Value>>, text: string) {
    exists actions :: Checked(raw, actions) && text == CanonicalText(actions)
  }

  /**
   * The values have one canonical text, however their maps are traversed, and reading it back, as
   * the verifier does, yields the actions those values stand for.
   */
  lemma PrintedIsReadBack(raw: seq<map<string, Value>>, text: string)
    requires Printed(raw, text)
    ensures Parse(text).Some? && Checked(raw, Parse(text).value)
    ensures forall other :: Printed(raw, other) ==> other == text
  {
    hide Parse, CanonicalText, ActionAllowed, ActionValue, Checked;
    var actions :| Checked(raw, actions) && text == CanonicalText(actions);
    CheckedAreAllowed(raw, actions);
    CanonicalRoundTrip(actions);
    forall other | Printed(raw, other) ensures other == text {
      var others :| Checked(raw, others) && other == CanonicalText(others);
      CheckedUnique(raw, actions, others);
    }
  }

  lemma CheckedAreAllowed(raw: seq<map<string, Value>>, actions: seq<Action>)
    requires Checked(raw, actions)
    ensures forall i :: 0 <= i < |actions| ==> ActionAllowed(actions[i])
  {
  }

  lemma CheckedUnique(raw: seq<map<string, Value>>, a: seq<Action>, b: seq<Action>)
    requires Checked(raw, a) && Checked(raw, b)
    ensures a == b
  {
    hide ActionAllowed, ActionValue;
    forall i | 0 <= i < |a| ensures a[i] == b[i] {
      assert raw[i] == ActionValue(a[i]) && raw[i] == ActionValue(b[i]);
      ActionValueInjective(a[i], b[i]);
    }
  }

  /**
   * `canonicalActions`: the canonical text of the actions, however their maps are traversed, or
   * nothing if some value is not an allowed action.
   */
  method PrintActions(raw: seq<map<string, Value>>) returns (r: Option<string>)
    ensures r.Some? ==> Printed(raw, r.value)
    ensures r.Some? ==> Parse(r.value).Some? && Checked(raw, Parse(r.value).value)
    ensures r.None? ==> forall actions :: !Checked(raw, actions)
  {
    hide *;
    var out := "[";
    ghost var actions: seq<Action> := [];
    Begun(raw);
    for i := 0 to |raw|
      invariant |actions| == i && Checked(raw[..i], actions)
      invariant out == "[" + Joined(ActionTexts(actions))
    {
      var action := UnmarshalAction(raw[i]);
      if action.None? {
        NotChecked(raw, i);
        return None;
      }
      var text := PrintAction(action.value);
      OneMoreAction(raw, i, actions, action.value);
      if i > 0 {
        out := out + ",";
      }
      out := out + text;
      actions := actions + [action.value];
    }
    assert raw[..|raw|] == raw;
    out := out + "]";
    IsCanonical(raw, actions, out);
    PrintedIsReadBack(raw, out);
    r := Some(out);
  }

  lemma Begun(raw: seq<map<string, Value>>)
    ensures Checked(raw[..0], []) && "[" == "[" + Joined(ActionTexts([]))
  {
  }

  lemma IsCanonical(raw: seq<map<string, Value>>, actions: seq<Action>, text: string)
    requires Checked(raw, actions) && text == "[" + Joined(ActionTexts(actions)) + "]"
    ensures Printed(raw, text)
  {
  }

  /** What one round of the loop does. */
  lemma OneMoreAction(raw: seq<map<string, Value>>, i: nat, actions: seq<Action>, a: Action)
    requires i < |raw| && |actions| == i && Checked(raw[..i], actions)
    requires ActionAllowed(a) && raw[i] == ActionValue(a)
    ensures Checked(raw[..i + 1], actions + [a])
    ensures "[" + Joined(ActionTexts(actions + [a]))
            == "[" + Joined(ActionTexts(actions)) + (if i > 0 then "," else "") + ActionText(a)
  {
    hide ActionText, Joined, ActionAllowed, ActionValue;
    CheckedSnoc(raw[..i], actions, raw[i], a);
    assert raw[..i + 1] == raw[..i] + [raw[i]];
    assert ActionTexts(actions + [a]) == ActionTexts(actions) + [ActionText(a)];
    JoinedSnoc(ActionTexts(actions), ActionText(a));
    Appended("[", Joined(ActionTexts(actions)), ActionText(a));
    NothingJoined();
  }

  lemma Appended(opening: string, joined: string, part: string)
    ensures opening + joined + "," + part == opening + (joined + ("," + part))
  {
  }

  lemma CheckedSnoc(raw: seq<map<string, Value>>, actions: seq<Action>, v: map<string, Value>, a: Action)
    requires Checked(raw, actions) && ActionAllowed(a) && v == ActionValue(a)
    ensures Checked(raw + [v], actions + [a])
  {
    hide ActionAllowed, ActionValue;
  }

  lemma NotChecked(raw: seq<map<string, Value>>, i: nat)
    requires i < |raw| && forall a :: ActionAllowed(a) ==> raw[i] != ActionValue(a)
    ensures forall actions :: !Checked(raw, actions)
  {
    hide ActionAllowed, ActionValue;
    forall actions ensures !Checked(raw, actions) {
      assert |actions| == |raw| && ActionAllowed(actions[i]) ==> raw[i] != ActionValue(actions[i]);
    }
  }

  /** One action: its keys in whatever order the map gives them, then sorted, then printed. */
  method PrintAction(a: Action) returns (out: string)
    ensures out == ActionText(a)
  {
    var keys: seq<string> := [];
    var todo := a.Keys;
    while todo != {}
      invariant todo <= a.Keys && Elements(keys) == a.Keys - todo
      decreases |todo|
    {
      var key :| key in todo;
      ElementsConcat(keys, [key]);
      ElementsOfOne(key);
      keys := keys + [key];
      todo := todo - {key};
    }
    keys := Sort(keys);
    AscendingUnique(keys, SortedKeys(a.Keys));
    SortedInAction(a);
    out := PrintObject(a, keys);
  }

  method PrintObject(a: Action, keys: seq<string>) returns (out: string)
    requires AllIn(keys, a)
    ensures out == ObjectText(a, keys)
  {
    hide MemberText, Joined;
    out := "{";
    ghost var parts := MemberTexts(a, keys);
    NothingJoined();
    for j := 0 to |keys|
      invariant out == "{" + Joined(parts[..j])
    {
      var member := PrintMember(a, keys[j]);
      JoinedSnoc(parts[..j], member);
      assert parts[..j + 1] == parts[..j] + [member];
      Appended("{", Joined(parts[..j]), member);
      if j > 0 {
        out := out + ",";
      }
      out := out + member;
    }
    assert parts[..|keys|] == parts;
    out := out + "}";
  }

  lemma NothingJoined()
    ensures Joined([]) == ""
  {
  }

  method PrintMember(a: Action, key: string) returns (out: string)
    requires key in a
    ensures out == MemberText(a, key)
  {
    var name := CanonicalString(key);
    var value: string;
    match a[key] {
      case One(text) => value := CanonicalString(text);
      case Many(texts) => value := PrintStrings(texts);
    }
    out := name + ":" + value;
  }

  method PrintStrings(texts: seq<string>) returns (out: string)
    ensures out == FieldText(Many(texts))
  {
    hide Quoted, Joined;
    out := "[";
    ghost var parts := QuotedAll(texts);
    NothingJoined();
    for k := 0 to |texts|
      invariant out == "[" + Joined(parts[..k])
    {
      var text := CanonicalString(texts[k]);
      JoinedSnoc(parts[..k], text);
      assert parts[..k + 1] == parts[..k] + [text];
      Appended("[", Joined(parts[..k]), text);
      if k > 0 {
        out := out + ",";
      }
      out := out + text;
    }
    assert parts[..|texts|] == parts;
    out := out + "]";
  }
}
