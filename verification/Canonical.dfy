/**
 * The canonical text of a compose manager's actions, whose hash is quoted
 * (go/compose_manager.go:56-175): printing, the check at the wire boundary, and parsing the text
 * back. Strings are sequences of Unicode scalar values; sorting by bytes of UTF-8, as Go does, is
 * sorting by scalar value.
 */
module Canonical {
  import opened Bytes
  import opened Hex
  import opened Wrappers
  import opened Json

  // ----- Strings -----

  function Escape(c: char): string {
    if c == '"' || c == '\\' then ['\\', c]
    else if c == '\U{8}' then "\\b"
    else if c == '\U{C}' then "\\f"
    else if c == '\n' then "\\n"
    else if c == '\r' then "\\r"
    else if c == '\t' then "\\t"
    else if c as nat < 32 then "\\u00" + [Digit(c as nat / 16), Digit(c as nat % 16)]
    else [c]
  }

  function EscapeAll(s: string): string {
    if s == "" then "" else Escape(s[0]) + EscapeAll(s[1..])
  }

  function Quoted(s: string): string {
    "\"" + EscapeAll(s) + "\""
  }

  lemma {:induction false} EscapeSnoc(s: string, c: char)
    ensures EscapeAll(s + [c]) == EscapeAll(s) + Escape(c)
  {
    hide Escape;
    if s == "" {
      assert [c][1..] == "" && s + [c] == [c];
      assert Escape(c) + "" == Escape(c) == "" + Escape(c);
    } else {
      EscapeSnoc(s[1..], c);
      assert (s + [c])[1..] == s[1..] + [c];
      Assoc(Escape(s[0]), EscapeAll(s[1..]), Escape(c));
    }
  }

  /** Nothing is escaped that need not be: neither `<`, `>` and `&` nor U+2028 and U+2029. */
  lemma {:induction false} PlainStaysPlain(s: string)
    requires forall i :: 0 <= i < |s| ==> s[i] != '"' && s[i] != '\\' && s[i] as nat >= 32
    ensures Quoted(s) == "\"" + s + "\""
  {
    if s != "" {
      assert forall i :: 0 <= i < |s[1..]| ==> s[1..][i] == s[i + 1];
      PlainStaysPlain(s[1..]);
      var rest := EscapeAll(s[1..]);
      assert ("\"" + rest + "\"")[1..|rest| + 1] == ("\"" + s[1..] + "\"")[1..|s|];
      assert s == [s[0]] + s[1..];
    }
  }

  /** What is escaped, and how: the short forms where there are any, else four lower-case digits. */
  lemma EscapedForms()
    ensures EscapeAll("\"") == "\\\"" && EscapeAll("\\") == "\\\\"
    ensures EscapeAll("\U{8}") == "\\b" && EscapeAll("\U{C}") == "\\f"
    ensures EscapeAll("\n") == "\\n" && EscapeAll("\r") == "\\r" && EscapeAll("\t") == "\\t"
    ensures EscapeAll("\U{0}") == "\\u0000" && EscapeAll("\U{1F}") == "\\u001f"
  {
    OneEscaped('"');
    OneEscaped('\\');
    OneEscaped('\U{8}');
    OneEscaped('\U{C}');
    OneEscaped('\n');
    OneEscaped('\r');
    OneEscaped('\t');
    OneEscaped('\U{0}');
    OneEscaped('\U{1F}');
    hide EscapeAll;
  }

  lemma OneEscaped(c: char)
    ensures EscapeAll([c]) == Escape(c)
  {
    assert [c][1..] == "";
  }

  lemma {:induction false} EscapeConcat(s: string, t: string)
    ensures EscapeAll(s + t) == EscapeAll(s) + EscapeAll(t)
  {
    hide Escape;
    if s == "" {
      assert s + t == t;
    } else {
      EscapeConcat(s[1..], t);
      assert (s + t)[1..] == s[1..] + t;
      Assoc(Escape(s[0]), EscapeAll(s[1..]), EscapeAll(t));
    }
  }

  /** `canonicalString`. */
  method CanonicalString(s: string) returns (out: string)
    ensures out == Quoted(s)
  {
    hide Escape, EscapeAll;
    out := "\"";
    assert s[..0] == "" && EscapeAll("") == "" by {
      EscapeNothing();
    }
    for i := 0 to |s|
      invariant out == "\"" + EscapeAll(s[..i])
    {
      var written := Written(s[i]);
      EscapeSnoc(s[..i], s[i]);
      assert s[..i + 1] == s[..i] + [s[i]];
      assert "\"" + (EscapeAll(s[..i]) + written) == out + written;
      out := out + written;
    }
    assert s[..|s|] == s;
    out := out + "\"";
  }

  lemma EscapeNothing()
    ensures EscapeAll("") == ""
  {
  }

  /** What the loop writes for one character. */
  method Written(c: char) returns (out: string)
    ensures out == Escape(c)
  {
    match c
    case '"' => out := "\\\"";
    case '\\' => out := "\\\\";
    case '\U{8}' => out := "\\b";
    case '\U{C}' => out := "\\f";
    case '\n' => out := "\\n";
    case '\r' => out := "\\r";
    case '\t' => out := "\\t";
    case _ =>
      if c as nat < 32 {
        out := "\\u00" + [Digit(c as nat / 16), Digit(c as nat % 16)];
      } else {
        out := [c];
      }
  }

  /** What a parser made of the front of a text, and what is left. */
  datatype Parsed<+T> = Parsed(value: T, rest: string)

  /** One character of a JSON string, escaped or not (RFC 8259 section 7). Surrogates are not scalar values. */
  function ParseChar(s: string): (r: Option<Parsed<char>>)
    ensures r.Some? ==> |r.value.rest| < |s|
  {
    if s == "" || s[0] == '"' || s[0] as nat < 32 then None
    else if s[0] != '\\' then Some(Parsed(s[0], s[1..]))
    else if |s| < 2 then None
    else
      match s[1]
      case '"' => Some(Parsed('"', s[2..]))
      case '\\' => Some(Parsed('\\', s[2..]))
      case '/' => Some(Parsed('/', s[2..]))
      case 'b' => Some(Parsed('\U{8}', s[2..]))
      case 'f' => Some(Parsed('\U{C}', s[2..]))
      case 'n' => Some(Parsed('\n', s[2..]))
      case 'r' => Some(Parsed('\r', s[2..]))
      case 't' => Some(Parsed('\t', s[2..]))
      case 'u' =>
        if |s| < 6 then None
        else
          var a, b, c, d := Nibble(s[2]), Nibble(s[3]), Nibble(s[4]), Nibble(s[5]);
          if a.None? || b.None? || c.None? || d.None? then None
          else
            var n := 4096 * a.value + 256 * b.value + 16 * c.value + d.value;
            if 0xD800 <= n < 0xE000 then None else Some(Parsed(n as char, s[6..]))
      case _ => None
  }

  /** The rest of a string, up to its closing quote. */
  function ParseChars(s: string): (r: Option<Parsed<string>>)
    ensures r.Some? ==> |r.value.rest| < |s|
    decreases |s|
  {
    if s == "" then None
    else if s[0] == '"' then Some(Parsed("", s[1..]))
    else
      match ParseChar(s)
      case None => None
      case Some(first) =>
        match ParseChars(first.rest)
        case None => None
        case Some(more) => Some(Parsed([first.value] + more.value, more.rest))
  }

  function ParseString(s: string): (r: Option<Parsed<string>>)
    ensures r.Some? ==> |r.value.rest| < |s|
  {
    if s == "" || s[0] != '"' then None else ParseChars(s[1..])
  }

  lemma CharRoundTrip(c: char, rest: string)
    ensures ParseChar(Escape(c) + rest) == Some(Parsed(c, rest))
    ensures Escape(c) != "" && (Escape(c) + rest)[0] != '"'
  {
    var s := Escape(c) + rest;
    if |Escape(c)| == 1 {
      assert s[1..] == rest;
    } else if |Escape(c)| == 2 {
      assert s[2..] == rest;
    } else {
      DigitRoundTrip(c as nat / 16);
      DigitRoundTrip(c as nat % 16);
      DigitRoundTrip(0);
      assert s[6..] == rest;
    }
  }

  lemma {:induction false} CharsRoundTrip(s: string, rest: string)
    ensures ParseChars(EscapeAll(s) + ("\"" + rest)) == Some(Parsed(s, rest))
  {
    hide Escape, ParseChar;
    if s == "" {
      assert EscapeAll(s) + ("\"" + rest) == "\"" + rest;
    } else {
      CharsRoundTrip(s[1..], rest);
      Assoc(Escape(s[0]), EscapeAll(s[1..]), "\"" + rest);
      OneMoreChar(s[0], EscapeAll(s[1..]) + ("\"" + rest), s[1..], rest);
      assert s == [s[0]] + s[1..];
    }
  }

  lemma OneMoreChar(c: char, more: string, s: string, rest: string)
    requires ParseChars(more) == Some(Parsed(s, rest))
    ensures ParseChars(Escape(c) + more) == Some(Parsed([c] + s, rest))
  {
    hide Escape, ParseChar;
    CharRoundTrip(c, more);
  }

  /** Every string of scalar values is read back from its canonical form, whatever follows. */
  lemma StringRoundTrip(s: string, rest: string)
    ensures ParseString(Quoted(s) + rest) == Some(Parsed(s, rest))
  {
    assert (Quoted(s) + rest)[1..] == EscapeAll(s) + ("\"" + rest);
    CharsRoundTrip(s, rest);
  }

  // ----- Actions -----

  /** A field of an action: a string, or an array of strings. */
  datatype Field = One(text: string) | Many(texts: seq<string>)

  type Action = map<string, Field>

  const STRING_FIELDS := {"action", "timestamp", "image", "commit", "file", "file_sha256"}

  /** The fields the check at the wire boundary lets through. */
  predicate FieldAllowed(key: string, f: Field) {
    match f
    case One(_) => key != "services"
    case Many(_) => key !in STRING_FIELDS
  }

  predicate ActionAllowed(a: Action) {
    && (forall key :: key in a ==> FieldAllowed(key, a[key]))
    && "action" in a && "timestamp" in a
  }

  /**
   * What the wire boundary asks of an object, member by member: strings and arrays of strings, with
   * six members that must be strings, of which two must be there, and one that must be an array.
   */
  predicate Acceptable(fields: map<string, Value>) {
    && "action" in fields && fields["action"].String?
    && "timestamp" in fields && fields["timestamp"].String?
    && ("image" in fields ==> fields["image"].String?)
    && ("commit" in fields ==> fields["commit"].String?)
    && ("file" in fields ==> fields["file"].String?)
    && ("file_sha256" in fields ==> fields["file_sha256"].String?)
    && ("services" in fields ==> fields["services"].Array?)
    && forall key :: key in fields ==> fields[key].String? || (fields[key].Array? && AllStrings(fields[key].items))
  }

  predicate AllStrings(items: seq<Value>) {
    forall i :: 0 <= i < |items| ==> items[i].String?
  }

  /** The action such an object stands for. */
  function ActionOf(fields: map<string, Value>): Action
    requires Acceptable(fields)
  {
    map key | key in fields :: FieldOf(fields[key])
  }

  function FieldOf(v: Value): Field
    requires v.String? || (v.Array? && AllStrings(v.items))
  {
    if v.String? then One(v.s) else Many(seq(|v.items|, i requires 0 <= i < |v.items| => v.items[i].s))
  }

  lemma AcceptableMeans(fields: map<string, Value>)
    ensures Acceptable(fields) <==> exists a :: ActionAllowed(a) && fields == ActionValue(a)
  {
    if Acceptable(fields) {
      var a := ActionOf(fields);
      forall key | key in fields ensures FieldValue(a[key]) == fields[key] && FieldAllowed(key, a[key]) {
        if fields[key].Array? {
          assert FieldValue(a[key]).items == fields[key].items;
        }
      }
      assert ActionValue(a) == fields;
    }
    if a :| ActionAllowed(a) && fields == ActionValue(a) {
      forall key | key in fields
        ensures fields[key].String? || (fields[key].Array? && AllStrings(fields[key].items))
        ensures key in STRING_FIELDS ==> fields[key].String?
        ensures key == "services" ==> fields[key].Array?
      {
        assert key in a && FieldAllowed(key, a[key]) && fields[key] == FieldValue(a[key]);
      }
    }
  }

  /** The JSON value of a field. */
  function FieldValue(f: Field): Value {
    match f
    case One(text) => String(text)
    case Many(texts) => Array(seq(|texts|, i requires 0 <= i < |texts| => String(texts[i])))
  }

  function ActionValue(a: Action): map<string, Value> {
    map key | key in a :: FieldValue(a[key])
  }

  /**
   * `UnmarshalJSON`: the members are checked and arrays rewritten in place, in whatever order the
   * map is traversed. It accepts exactly the values of allowed actions, and yields that action.
   */
  method UnmarshalAction(fields: map<string, Value>) returns (r: Option<Action>)
    ensures r.Some? ==> ActionAllowed(r.value) && fields == ActionValue(r.value)
    ensures r.None? ==> forall a :: ActionAllowed(a) ==> fields != ActionValue(a)
    ensures r.Some? <==> Acceptable(fields)
  {
    AcceptableMeans(fields);
    var action: Action := map[];
    var todo := fields.Keys;
    while todo != {}
      invariant todo <= fields.Keys
      invariant action.Keys == fields.Keys - todo
      invariant forall key :: key in action ==>
                  FieldAllowed(key, action[key]) && FieldValue(action[key]) == fields[key]
      decreases |todo|
    {
      var key :| key in todo;
      var value := fields[key];
      if value.String? {
        if key == "services" {
          BadField(fields, key);
          return None;
        }
        action := action[key := One(value.s)];
      } else if value.Array? {
        if key in STRING_FIELDS {
          BadField(fields, key);
          return None;
        }
        var strings := UnmarshalStrings(value.items);
        if strings.None? {
          BadField(fields, key);
          return None;
        }
        action := action[key := Many(strings.value)];
        assert FieldValue(Many(strings.value)).items == value.items;
      } else {
        BadField(fields, key);
        return None;
      }
      todo := todo - {key};
    }
    assert ActionValue(action) == fields;
    if !("action" in fields && fields["action"].String?) {
      MissingField(fields, "action");
      return None;
    }
    if !("timestamp" in fields && fields["timestamp"].String?) {
      MissingField(fields, "timestamp");
      return None;
    }
    r := Some(action);
  }

  method UnmarshalStrings(items: seq<Value>) returns (r: Option<seq<string>>)
    ensures r.Some? ==> |r.value| == |items| && forall i :: 0 <= i < |items| ==> items[i] == String(r.value[i])
    ensures r.None? ==> exists i :: 0 <= i < |items| && !items[i].String?
  {
    var strings: seq<string> := [];
    for i := 0 to |items|
      invariant |strings| == i && forall j :: 0 <= j < i ==> items[j] == String(strings[j])
    {
      if !items[i].String? {
        return None;
      }
      strings := strings + [items[i].s];
    }
    r := Some(strings);
  }

  /** A member no allowed action has the value of. */
  lemma BadField(fields: map<string, Value>, key: string)
    requires key in fields
    requires match fields[key]
             case String(_) => key == "services"
             case Array(items) => key in STRING_FIELDS || exists i :: 0 <= i < |items| && !items[i].String?
             case _ => true
    ensures forall a :: ActionAllowed(a) ==> fields != ActionValue(a)
  {
    forall a | ActionAllowed(a) ensures fields != ActionValue(a) {
      assert key in a ==> !(FieldAllowed(key, a[key]) && fields[key] == FieldValue(a[key]));
    }
  }

  lemma MissingField(fields: map<string, Value>, key: string)
    requires key == "action" || key == "timestamp"
    requires !(key in fields && fields[key].String?)
    ensures forall a :: ActionAllowed(a) ==> fields != ActionValue(a)
  {
    forall a | ActionAllowed(a) ensures fields != ActionValue(a) {
      assert key in a && FieldAllowed(key, a[key]);
      assert key in STRING_FIELDS;
    }
  }

  /** An action is determined by its JSON value. */
  lemma ActionValueInjective(a: Action, b: Action)
    requires ActionValue(a) == ActionValue(b)
    ensures a == b
  {
    assert a.Keys == ActionValue(a).Keys == b.Keys;
    forall key | key in a ensures a[key] == b[key] {
      assert FieldValue(a[key]) == ActionValue(a)[key] == FieldValue(b[key]);
      FieldValueInjective(a[key], b[key]);
    }
  }

  lemma FieldValueInjective(f: Field, g: Field)
    requires FieldValue(f) == FieldValue(g)
    ensures f == g
  {
    if f.Many? && g.Many? {
      var x, y := FieldValue(f).items, FieldValue(g).items;
      assert |x| == |y|;
      forall i | 0 <= i < |f.texts| ensures f.texts[i] == g.texts[i] {
        assert x[i] == String(f.texts[i]) && y[i] == String(g.texts[i]);
      }
    }
  }

  // ----- Sorted keys -----

  predicate Below(a: string, b: string) {
    if b == "" then false
    else if a == "" then true
    else a[0] < b[0] || (a[0] == b[0] && Below(a[1..], b[1..]))
  }

  lemma {:induction false} BelowIsTotal(a: string, b: string)
    ensures a == b || Below(a, b) || Below(b, a)
    ensures !(Below(a, b) && Below(b, a))
    ensures !Below(a, a)
  {
    if a != "" {
      BelowIsTotal(a[1..], a[1..]);
    }
    if a != "" && b != "" {
      BelowIsTotal(a[1..], b[1..]);
      if a[0] == b[0] && a[1..] == b[1..] {
        assert a == [a[0]] + a[1..] && b == [b[0]] + b[1..];
      }
    }
  }

  lemma {:induction false} BelowIsTransitive(a: string, b: string, c: string)
    requires Below(a, b) && Below(b, c)
    ensures Below(a, c)
  {
    if a != "" && a[0] == b[0] == c[0] {
      BelowIsTransitive(a[1..], b[1..], c[1..]);
    }
  }

  /** The order is by the first character in which two texts differ; a prefix comes first. */
  lemma {:induction false} BelowMeans(a: string, b: string)
    ensures Below(a, b) <==>
            exists k :: 0 <= k <= |a| && k < |b| && a[..k] == b[..k] && (k == |a| || a[k] < b[k])
  {
    if a == "" {
      if b != "" {
        assert a[..0] == b[..0];
      }
    } else if b != "" {
      BelowMeans(a[1..], b[1..]);
      if Below(a, b) {
        if a[0] < b[0] {
          assert a[..0] == b[..0];
        } else {
          var k :| 0 <= k <= |a[1..]| && k < |b[1..]| && a[1..][..k] == b[1..][..k] && (k == |a[1..]| || a[1..][k] < b[1..][k]);
          assert a[..k + 1] == [a[0]] + a[1..][..k] && b[..k + 1] == [b[0]] + b[1..][..k];
        }
      }
      if k :| 0 <= k <= |a| && k < |b| && a[..k] == b[..k] && (k == |a| || a[k] < b[k]) {
        if k > 0 {
          assert a[0] == a[..k][0] == b[..k][0] == b[0];
          assert a[1..][..k - 1] == a[..k][1..] && b[1..][..k - 1] == b[..k][1..];
        }
      }
    }
  }

  /** In strictly ascending order. */
  predicate Ascending(keys: seq<string>) {
    forall i, j :: 0 <= i < j < |keys| ==> Below(keys[i], keys[j])
  }

  function Elements(keys: seq<string>): set<string> {
    set i | 0 <= i < |keys| :: keys[i]
  }

  /** `sort.Strings` of distinct keys, by insertion. */
  method Sort(keys: seq<string>) returns (sorted: seq<string>)
    ensures Ascending(sorted) && Elements(sorted) == Elements(keys)
  {
    sorted := [];
    for i := 0 to |keys|
      invariant Ascending(sorted) && Elements(sorted) == Elements(keys[..i])
    {
      var key := keys[i];
      assert Elements(keys[..i + 1]) == Elements(keys[..i]) + {key};
      sorted := Insert(sorted, key);
    }
    assert keys[..|keys|] == keys;
  }

  method Insert(keys: seq<string>, key: string) returns (r: seq<string>)
    requires Ascending(keys)
    ensures Ascending(r) && Elements(r) == Elements(keys) + {key}
  {
    var at := 0;
    while at < |keys| && Below(keys[at], key)
      invariant 0 <= at <= |keys|
      invariant forall i :: 0 <= i < at ==> Below(keys[i], key)
    {
      at := at + 1;
    }
    if at < |keys| && keys[at] == key {
      assert Elements(keys) == Elements(keys) + {key};
      return keys;
    }
    r := keys[..at] + [key] + keys[at..];
    InsertedInOrder(keys, key, at);
  }

  lemma InsertedInOrder(keys: seq<string>, key: string, at: nat)
    requires Ascending(keys) && at <= |keys|
    requires forall i :: 0 <= i < at ==> Below(keys[i], key)
    requires at < |keys| ==> !Below(keys[at], key) && keys[at] != key
    ensures Ascending(keys[..at] + [key] + keys[at..])
    ensures Elements(keys[..at] + [key] + keys[at..]) == Elements(keys) + {key}
  {
    hide Below, Elements;
    var left, right := keys[..at], keys[at..];
    forall i | 0 <= i < |right| ensures Below(key, right[i]) {
      BelowIsTotal(keys[at], key);
      if i > 0 {
        BelowIsTransitive(key, keys[at], keys[at + i]);
      }
    }
    forall i, j | 0 <= i < |left| && 0 <= j < |right| ensures Below(left[i], right[j]) {
      BelowIsTransitive(left[i], key, right[j]);
    }
    AscendingConcat(left, [key]);
    AscendingConcat(left + [key], right);
    assert left + right == keys;
    ElementsConcat(left, right);
    ElementsConcat(left, [key]);
    ElementsConcat(left + [key], right);
    ElementsOfOne(key);
  }

  lemma AscendingConcat(a: seq<string>, b: seq<string>)
    requires Ascending(a) && Ascending(b)
    requires forall i, j :: 0 <= i < |a| && 0 <= j < |b| ==> Below(a[i], b[j])
    ensures Ascending(a + b)
  {
    hide Below;
  }

  lemma ElementsConcat(a: seq<string>, b: seq<string>)
    ensures Elements(a + b) == Elements(a) + Elements(b)
  {
    assert forall i :: 0 <= i < |a| ==> (a + b)[i] == a[i];
    assert forall i :: 0 <= i < |b| ==> (a + b)[|a| + i] == b[i];
  }

  lemma ElementsOfOne(key: string)
    ensures Elements([key]) == {key}
  {
    assert [key][0] == key;
  }

  /** A set of keys has one ascending enumeration: sorting forgets the order the map gave. */
  lemma {:induction false} AscendingUnique(a: seq<string>, b: seq<string>)
    requires Ascending(a) && Ascending(b) && Elements(a) == Elements(b)
    ensures a == b
    decreases |a|
  {
    assert |b| > 0 ==> b[0] in Elements(b);
    if a != [] {
      assert a[0] in Elements(b);
      var j :| 0 <= j < |b| && b[j] == a[0];
      assert b[0] in Elements(a);
      var i :| 0 <= i < |a| && a[i] == b[0];
      BelowIsTotal(a[0], b[0]);
      assert a[0] == b[0];
      RestElements(a);
      RestElements(b);
      AscendingUnique(a[1..], b[1..]);
      assert a == [a[0]] + a[1..] && b == [b[0]] + b[1..];
    }
  }

  lemma RestElements(a: seq<string>)
    requires a != [] && Ascending(a)
    ensures Ascending(a[1..]) && Elements(a[1..]) == Elements(a) - {a[0]}
  {
    forall k | k in Elements(a) - {a[0]} ensures k in Elements(a[1..]) {
      var i :| 0 <= i < |a| && a[i] == k;
      assert a[1..][i - 1] == k;
    }
    forall k | k in Elements(a[1..]) ensures k in Elements(a) - {a[0]} {
      var i :| 0 <= i < |a[1..]| && a[1..][i] == k;
      assert a[i + 1] == k && Below(a[0], a[i + 1]);
      BelowIsTotal(a[0], a[0]);
    }
  }

  lemma Position(keys: seq<string>, key: string) returns (at: nat)
    requires Ascending(keys) && key !in keys
    ensures at <= |keys|
    ensures forall i :: 0 <= i < at ==> Below(keys[i], key)
    ensures at < |keys| ==> !Below(keys[at], key) && keys[at] != key
  {
    at := 0;
    while at < |keys| && Below(keys[at], key)
      invariant at <= |keys|
      invariant forall i :: 0 <= i < at ==> Below(keys[i], key)
    {
      at := at + 1;
    }
  }

  lemma SortedExists(keys: set<string>) returns (sorted: seq<string>)
    ensures Ascending(sorted) && Elements(sorted) == keys
    decreases |keys|
  {
    if keys == {} {
      sorted := [];
    } else {
      var key :| key in keys;
      var rest := SortedExists(keys - {key});
      assert key !in Elements(rest);
      var at := Position(rest, key);
      InsertedInOrder(rest, key, at);
      sorted := rest[..at] + [key] + rest[at..];
    }
  }

  /** The ascending enumeration of a set of keys. */
  ghost function SortedKeys(keys: set<string>): (sorted: seq<string>)
    ensures Ascending(sorted) && Elements(sorted) == keys
  {
    assert exists sorted :: Ascending(sorted) && Elements(sorted) == keys by {
      var sorted := SortedExists(keys);
    }
    var sorted: seq<string> :| Ascending(sorted) && Elements(sorted) == keys;
    sorted
  }
}
