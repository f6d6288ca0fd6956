/**
 * The walk of rs/src/e2ee.rs:216-258, 347-421 over a response, as the program takes it: it opens
 * ciphertexts as it meets them, and each method says which part of the schema it carried out and
 * which ciphertexts it opened, in order.
 */
module E2eeWalk {
  import opened Bytes
  import opened Wrappers
  import opened Json
  import opened E2ee
  import E2eePaths

  /** The strings in the slots: what has to be opened. */
  function Ciphertexts(slots: seq<Slot>): seq<string> {
    if slots == [] then []
    else
      var last := slots[|slots| - 1];
      Ciphertexts(slots[..|slots| - 1]) + if last.value.String? then [last.value.s] else []
  }

  lemma {:induction false} CiphertextsConcat(a: seq<Slot>, b: seq<Slot>)
    ensures Ciphertexts(a + b) == Ciphertexts(a) + Ciphertexts(b)
    decreases |b|
  {
    if b == [] {
      assert a + b == a;
    } else {
      CiphertextsConcat(a, b[..|b| - 1]);
      assert (a + b)[..|a + b| - 1] == a + b[..|b| - 1];
    }
  }

  /** A method that was to carry out some fields of an object did, opening each of their ciphertexts once. */
  ghost predicate Walked(k: Cipher, fields: seq<Field>, v: Value, r: Option<Value>, log: seq<string>) {
    && v.Object?
    && r == ApplyFields(k, fields, v)
    && (r.Some? ==> log == Ciphertexts(FieldSlots(fields, v)))
  }

  ghost predicate WalkedItems(k: Cipher, fields: seq<Field>, items: seq<Value>, r: Option<seq<Value>>, log: seq<string>) {
    && r == ApplyItems(k, fields, items)
    && (r.Some? ==> log == Ciphertexts(ItemSlots(fields, items)))
  }

  ghost predicate WalkedValue(k: Cipher, shape: Shape, v: Value, r: Option<Value>, log: seq<string>) {
    && r == Apply(k, shape, v)
    && (r.Some? ==> log == Ciphertexts(Slots(shape, v)))
  }

  predicate Apart(a: seq<Field>, b: seq<Field>) {
    forall i, j :: 0 <= i < |a| && 0 <= j < |b| ==> a[i].name != b[j].name
  }

  lemma {:induction false} ThenApplies(k: Cipher, a: seq<Field>, b: seq<Field>, v: Value)
    requires v.Object? && Apart(a, b)
    ensures ApplyFields(k, a + b, v) ==
            match ApplyFields(k, a, v)
            case None => None
            case Some(w) => ApplyFields(k, b, w)
    decreases |b|
  {
    hide Apply;
    if b == [] {
      assert a + b == a;
    } else {
      var before := b[..|b| - 1];
      var last := b[|b| - 1];
      assert forall i :: 0 <= i < |before| ==> before[i] == b[i];
      assert (a + b)[..|a + b| - 1] == a + before;
      ThenApplies(k, a, before, v);
      assert !Names(a, last.name);
      Untouched(k, a, v, last.name);
    }
  }

  lemma {:induction false} SlotsAfter(k: Cipher, a: seq<Field>, b: seq<Field>, v: Value, w: Value)
    requires v.Object? && Apart(a, b) && ApplyFields(k, a, v) == Some(w)
    ensures FieldSlots(a + b, v) == FieldSlots(a, v) + FieldSlots(b, w)
    decreases |b|
  {
    if b == [] {
      assert a + b == a;
      assert FieldSlots(a, v) + [] == FieldSlots(a, v);
    } else {
      var before := b[..|b| - 1];
      var last := b[|b| - 1];
      assert forall i :: 0 <= i < |before| ==> before[i] == b[i];
      assert (a + b)[..|a + b| - 1] == a + before;
      SlotsAfter(k, a, before, v, w);
      assert !Names(a, last.name);
      Untouched(k, a, v, last.name);
      var tail := if last.name in v.fields then Slots(last.shape, v.fields[last.name]) else [];
      Assoc(FieldSlots(a, v), FieldSlots(before, w), tail);
    }
  }

  /** One part of a walk after another is the two parts' fields together. */
  lemma Then(k: Cipher, a: seq<Field>, b: seq<Field>, v: Value, w: Value, first: seq<string>, r: Option<Value>, second: seq<string>)
    requires Apart(a, b)
    requires Walked(k, a, v, Some(w), first) && Walked(k, b, w, r, second)
    ensures Walked(k, a + b, v, r, first + second)
  {
    ThenApplies(k, a, b, v);
    SlotsAfter(k, a, b, v, w);
    CiphertextsConcat(FieldSlots(a, v), FieldSlots(b, w));
  }

  /** The walk of a field list has come to field n, and takes it. */
  lemma NextField(k: Cipher, fields: seq<Field>, n: nat, v: Value, w: Value, first: seq<string>,
                  r: Option<Value>, second: seq<string>)
    requires Distinct(fields) && n < |fields|
    requires Walked(k, fields[..n], v, Some(w), first)
    requires Walked(k, [fields[n]], w, r, second)
    ensures Walked(k, fields[..n + 1], v, r, first + second)
    ensures if r.Some? then r.value.Object? && r.value.fields.Keys == v.fields.Keys
            else Walked(k, fields, v, None, first + second)
    ensures n + 1 == |fields| ==> Walked(k, fields, v, r, first + second)
  {
    hide FieldSlots;
    Then(k, fields[..n], [fields[n]], v, w, first, r, second);
    assert fields[..n + 1] == fields[..n] + [fields[n]];
    assert fields == fields[..n + 1] + fields[n + 1..];
    ThenApplies(k, fields[..n + 1], fields[n + 1..], v);
    if n + 1 == |fields| {
      assert fields[..n + 1] == fields;
    }
  }

  /** One field is its member's shape, or nothing if the member is absent. */
  lemma OneField(k: Cipher, f: Field, v: Value, r: Option<Value>, log: seq<string>)
    requires v.Object?
    requires if f.name !in v.fields then r == Some(v) && log == []
             else
               match Apply(k, f.shape, v.fields[f.name])
               case None => r == None
               case Some(x) => r == Some(Object(v.fields[f.name := x]))
                               && log == Ciphertexts(Slots(f.shape, v.fields[f.name]))
    ensures Walked(k, [f], v, r, log)
  {
    Alone(k, f, v);
  }

  lemma {:induction false} NextItem(k: Cipher, fields: seq<Field>, items: seq<Value>, e: Value,
                                    done: seq<Value>, first: seq<string>, r: Option<Value>, second: seq<string>)
    requires WalkedItems(k, fields, items, Some(done), first) && Walked(k, fields, e, r, second)
    ensures WalkedItems(k, fields, items + [e], if r.Some? then Some(done + [r.value]) else None, first + second)
  {
    ItemsSnoc(k, fields, items, e);
    CiphertextsConcat(ItemSlots(fields, items), FieldSlots(fields, e));
  }

  lemma {:induction false} ItemsSnoc(k: Cipher, fields: seq<Field>, items: seq<Value>, e: Value)
    requires e.Object?
    ensures ApplyItems(k, fields, items + [e]) ==
            var before := ApplyItems(k, fields, items);
            var last := ApplyFields(k, fields, e);
            if before.Some? && last.Some? then Some(before.value + [last.value]) else None
    ensures ItemSlots(fields, items + [e]) == ItemSlots(fields, items) + FieldSlots(fields, e)
  {
    if items == [] {
      assert [] + [e] == [e] && [e][1..] == [];
      assert FieldSlots(fields, e) + [] == FieldSlots(fields, e);
      assert ApplyItems(k, fields, [e][1..]) == Some([]);
      if ApplyFields(k, fields, e).Some? {
        assert [ApplyFields(k, fields, e).value] + [] == [] + [ApplyFields(k, fields, e).value];
      }
    } else {
      ItemsSnoc(k, fields, items[1..], e);
      assert (items + [e])[1..] == items[1..] + [e];
      Assoc(if items[0].Object? then FieldSlots(fields, items[0]) else [], ItemSlots(fields, items[1..]),
            FieldSlots(fields, e));
      var rest := ApplyItems(k, fields, items[1..]);
      if items[0].Object? && ApplyFields(k, fields, items[0]).Some? && rest.Some? && ApplyFields(k, fields, e).Some? {
        Assoc([ApplyFields(k, fields, items[0]).value], rest.value, [ApplyFields(k, fields, e).value]);
      }
    }
  }

  lemma {:induction false} ItemsStop(k: Cipher, fields: seq<Field>, items: seq<Value>, n: nat)
    requires n <= |items| && ApplyItems(k, fields, items[..n]).None?
    ensures ApplyItems(k, fields, items).None?
  {
    if items[0].Object? && n > 0 {
      assert items[..n][1..] == items[1..][..n - 1];
      if ApplyFields(k, fields, items[0]).Some? {
        ItemsStop(k, fields, items[1..], n - 1);
      }
    }
  }

  lemma {:induction false} NonObject(k: Cipher, fields: seq<Field>, items: seq<Value>, i: nat)
    requires i < |items| && !items[i].Object?
    ensures ApplyItems(k, fields, items).None?
  {
    if i > 0 {
      NonObject(k, fields, items[1..], i - 1);
    }
  }

  // ----- The walk -----

  function Texts(names: seq<string>): seq<Field> {
    seq(|names|, i requires 0 <= i < |names| => Field(names[i], Text))
  }

  /** `fields`: each named member, if it is there, is a string to open or null. */
  method Fields(k: Cipher, target: Value, names: seq<string>) returns (r: Option<Value>, log: seq<string>)
    requires target.Object?
    requires Distinct(Texts(names))
    ensures Walked(k, Texts(names), target, r, log)
  {
    var current := target;
    log := [];
    Untried(k, target);
    assert Texts(names)[..0] == [];
    for n := 0 to |names|
      invariant current.Object?
      invariant Walked(k, Texts(names)[..n], target, Some(current), log)
    {
      hide Walked, Distinct;
      var next, more := TextField(k, current, names[n]);
      NextField(k, Texts(names), n, target, current, log, next, more);
      log := log + more;
      if next.None? {
        return None, log;
      }
      current := next.value;
    }
    assert Texts(names)[..|names|] == Texts(names);
    r := Some(current);
  }

  /** Nothing walked, nothing opened. */
  lemma Untried(k: Cipher, v: Value)
    requires v.Object?
    ensures Walked(k, [], v, Some(v), [])
  {
  }

  method TextField(k: Cipher, target: Value, name: string) returns (r: Option<Value>, log: seq<string>)
    requires target.Object?
    ensures Walked(k, [Field(name, Text)], target, r, log)
  {
    r, log := Some(target), [];
    if name in target.fields {
      var value := target.fields[name];
      if value.String? {
        var text := Decrypt(k, value.s);
        log := [value.s];
        r := if text.Some? then Some(Object(target.fields[name := String(text.value)])) else None;
      } else if !value.Null? {
        r := None;
      } else {
        assert target.fields[name := value] == target.fields;
      }
      OneSlot(Text, value);
    }
    OneField(k, Field(name, Text), target, r, log);
  }

  lemma OneSlot(shape: Shape, v: Value)
    requires shape == Text || shape == Packed
    ensures Ciphertexts(Slots(shape, v)) == if v.String? then [v.s] else []
  {
    var slots := Slots(shape, v);
    assert slots[..0] == [];
    assert Ciphertexts(slots[..0]) == [];
  }

  /** `response_object`, then `fields`, on a member. */
  method ObjectField(k: Cipher, target: Value, name: string, names: seq<string>)
    returns (r: Option<Value>, log: seq<string>)
    requires target.Object?
    requires Distinct(Texts(names))
    ensures Walked(k, [Field(name, Record(Texts(names)))], target, r, log)
  {
    r, log := Some(target), [];
    if name in target.fields {
      var value := target.fields[name];
      if value.Object? {
        var inner, more := Fields(k, value, names);
        log := more;
        r := if inner.Some? then Some(Object(target.fields[name := inner.value])) else None;
      } else if !value.Null? {
        r := None;
      } else {
        assert target.fields[name := value] == target.fields;
      }
    }
    OneField(k, Field(name, Record(Texts(names))), target, r, log);
  }

  /** `response_objects`: no array is an empty one, and every entry must be an object. */
  function ResponseObjects(v: Value): Option<seq<Value>> {
    if v.Null? then Some([])
    else if v.Array? && forall i :: 0 <= i < |v.items| ==> v.items[i].Object? then Some(v.items)
    else None
  }

  /** What comes of a list when all its entries have been walked. */
  lemma ListWalked(k: Cipher, shape: Shape, fields: seq<Field>, v: Value, items: Option<seq<Value>>, log: seq<string>)
    requires shape != Content && Resolve(shape, v) == List(fields)
    requires ResponseObjects(v).Some? && WalkedItems(k, fields, ResponseObjects(v).value, items, log)
    ensures WalkedValue(k, shape, v,
              if v.Null? then Some(v) else if items.Some? then Some(Array(items.value)) else None, log)
  {
    assert v.Null? ==> ItemSlots(fields, []) == [];
  }

  lemma ListRefused(k: Cipher, shape: Shape, fields: seq<Field>, v: Value, log: seq<string>)
    requires shape != Content && Resolve(shape, v) == List(fields)
    requires ResponseObjects(v).None?
    ensures WalkedValue(k, shape, v, None, log)
  {
    if v.Array? {
      var i :| 0 <= i < |v.items| && !v.items[i].Object?;
      NonObject(k, fields, v.items, i);
    }
  }

  /** A member and what was made of its value. */
  lemma MemberWalked(k: Cipher, f: Field, target: Value, r: Option<Value>, log: seq<string>)
    requires target.Object? && f.name in target.fields
    requires WalkedValue(k, f.shape, target.fields[f.name], r, log)
    ensures Walked(k, [f], target, if r.Some? then Some(Object(target.fields[f.name := r.value])) else None, log)
  {
    OneField(k, f, target, if r.Some? then Some(Object(target.fields[f.name := r.value])) else None, log);
  }

  /** `decrypt_logprobs`. */
  method DecryptLogprobs(k: Cipher, value: Value) returns (r: Option<Value>, log: seq<string>)
    ensures WalkedValue(k, Logprobs, value, r, log)
    decreases value, 1
  {
    log := [];
    var entries := ResponseObjects(value);
    if entries.None? {
      ListRefused(k, Logprobs, LOGPROB, value, log);
      return None, log;
    }
    var items: seq<Value> := [];
    for i := 0 to |entries.value|
      invariant WalkedItems(k, LOGPROB, entries.value[..i], Some(items), log)
    {
      hide WalkedItems;
      var next, more := DecryptLogprob(k, entries.value[i]);
      NextItem(k, LOGPROB, entries.value[..i], entries.value[i], items, log, next, more);
      assert entries.value[..i + 1] == entries.value[..i] + [entries.value[i]];
      log := log + more;
      if next.None? {
        ItemsStuck(k, LOGPROB, entries.value, i + 1, log);
        ListWalked(k, Logprobs, LOGPROB, value, None, log);
        return None, log;
      }
      items := items + [next.value];
    }
    assert entries.value[..|entries.value|] == entries.value;
    ListWalked(k, Logprobs, LOGPROB, value, Some(items), log);
    r := Some(if value.Null? then value else Array(items));
  }

  lemma ItemsStuck(k: Cipher, fields: seq<Field>, items: seq<Value>, n: nat, log: seq<string>)
    requires n <= |items| && WalkedItems(k, fields, items[..n], None, log)
    ensures WalkedItems(k, fields, items, None, log)
  {
    ItemsStop(k, fields, items, n);
  }

  method DecryptLogprob(k: Cipher, entry: Value) returns (r: Option<Value>, log: seq<string>)
    requires entry.Object?
    ensures Walked(k, LOGPROB, entry, r, log)
    decreases entry, 0
  {
    hide Walked, WalkedValue;
    Untried(k, entry);
    assert LOGPROB[..0] == [];
    r, log := TextField(k, entry, "token");
    NextField(k, LOGPROB, 0, entry, entry, [], r, log);
    assert [] + log == log;
    if r.None? {
      return;
    }
    var halfway := r.value;
    var next, more := PackedField(k, halfway, "bytes");
    NextField(k, LOGPROB, 1, entry, halfway, log, next, more);
    r, log := next, log + more;
    if r.None? {
      return;
    }
    halfway := r.value;
    next, more := r, [];
    if "top_logprobs" in halfway.fields {
      StillThere(k, LOGPROB[..2], entry, "top_logprobs", r, log);
      var inner, last := DecryptLogprobs(k, entry.fields["top_logprobs"]);
      MemberWalked(k, LOGPROB[2], halfway, inner, last);
      next := if inner.Some? then Some(Object(halfway.fields["top_logprobs" := inner.value])) else None;
      more := last;
    } else {
      OneField(k, LOGPROB[2], halfway, next, more);
    }
    NextField(k, LOGPROB, 2, entry, halfway, log, next, more);
    r, log := next, log + more;
  }

  /** A member that a walk did not name is the one that was there. */
  lemma StillThere(k: Cipher, fields: seq<Field>, v: Value, name: string, r: Option<Value>, log: seq<string>)
    requires Walked(k, fields, v, r, log) && r.Some? && !Names(fields, name)
    requires v.Object? && name in v.fields
    ensures r.value.Object? && name in r.value.fields && r.value.fields[name] == v.fields[name]
  {
    Untouched(k, fields, v, name);
  }

  method PackedField(k: Cipher, target: Value, name: string) returns (r: Option<Value>, log: seq<string>)
    requires target.Object?
    ensures Walked(k, [Field(name, Packed)], target, r, log)
  {
    r, log := Some(target), [];
    if name in target.fields {
      var raw := target.fields[name];
      if raw.String? {
        log := [raw.s];
        var text := Decrypt(k, raw.s);
        var value := if text.Some? then k.parse(text.value) else None;
        r := if value.Some? then Some(Object(target.fields[name := value.value])) else None;
      } else if !raw.Null? {
        r := None;
      } else {
        assert target.fields[name := raw] == target.fields;
      }
      OneSlot(Packed, raw);
    }
    OneField(k, Field(name, Packed), target, r, log);
  }

  /** The parts of a content array, each an object with an encrypted text. */
  method DecryptParts(k: Cipher, parts: seq<Value>) returns (r: Option<seq<Value>>, log: seq<string>)
    ensures WalkedItems(k, PART, parts, r, log)
  {
    var items: seq<Value> := [];
    log := [];
    for i := 0 to |parts|
      invariant WalkedItems(k, PART, parts[..i], Some(items), log)
    {
      hide WalkedItems;
      if !parts[i].Object? {
        NonObject(k, PART, parts, i);
        Refused(k, PART, parts, log);
        return None, log;
      }
      var next, more := Fields(k, parts[i], ["text"]);
      assert Texts(["text"]) == PART;
      NextItem(k, PART, parts[..i], parts[i], items, log, next, more);
      assert parts[..i + 1] == parts[..i] + [parts[i]];
      log := log + more;
      if next.None? {
        ItemsStuck(k, PART, parts, i + 1, log);
        return None, log;
      }
      items := items + [next.value];
    }
    assert parts[..|parts|] == parts;
    r := Some(items);
  }

  lemma Refused(k: Cipher, fields: seq<Field>, items: seq<Value>, log: seq<string>)
    requires ApplyItems(k, fields, items).None?
    ensures WalkedItems(k, fields, items, None, log)
  {
  }

  /** Content is an array of parts, or else a field like the others. */
  method ContentField(k: Cipher, target: Value) returns (r: Option<Value>, log: seq<string>)
    requires target.Object?
    ensures Walked(k, [Field("content", Content)], target, r, log)
  {
    if "content" in target.fields && target.fields["content"].Array? {
      var parts, more := DecryptParts(k, target.fields["content"].items);
      r := if parts.Some? then Some(Object(target.fields["content" := Array(parts.value)])) else None;
      log := more;
      OneField(k, Field("content", Content), target, r, log);
    } else {
      r, log := TextField(k, target, "content");
      ContentIsText(k, target, r, log);
    }
  }

  lemma ContentIsText(k: Cipher, target: Value, r: Option<Value>, log: seq<string>)
    requires target.Object? && ("content" in target.fields ==> !target.fields["content"].Array?)
    requires Walked(k, [Field("content", Text)], target, r, log)
    ensures Walked(k, [Field("content", Content)], target, r, log)
  {
    Alone(k, Field("content", Text), target);
    Alone(k, Field("content", Content), target);
  }

  lemma Alone(k: Cipher, f: Field, v: Value)
    requires v.Object?
    ensures ApplyFields(k, [f], v) ==
            if f.name !in v.fields then Some(v)
            else
              match Apply(k, f.shape, v.fields[f.name])
              case None => None
              case Some(x) => Some(Object(v.fields[f.name := x]))
    ensures FieldSlots([f], v) == if f.name in v.fields then Slots(f.shape, v.fields[f.name]) else []
  {
    assert [f][..0] == [];
    assert ApplyFields(k, [], v) == Some(v) && FieldSlots([], v) == [];
    if f.name in v.fields {
      assert [] + Slots(f.shape, v.fields[f.name]) == Slots(f.shape, v.fields[f.name]);
    }
  }

  /** Each tool call's function, in a list of calls. */
  method DecryptCalls(k: Cipher, calls: Value) returns (r: Option<Value>, log: seq<string>)
    ensures WalkedValue(k, List(CALL), calls, r, log)
  {
    log := [];
    var entries := ResponseObjects(calls);
    if entries.None? {
      ListRefused(k, List(CALL), CALL, calls, log);
      return None, log;
    }
    var items: seq<Value> := [];
    for i := 0 to |entries.value|
      invariant WalkedItems(k, CALL, entries.value[..i], Some(items), log)
    {
      hide WalkedItems;
      var next, more := ObjectField(k, entries.value[i], "function", ["name", "arguments"]);
      assert Texts(["name", "arguments"]) == FUNCTION;
      NextItem(k, CALL, entries.value[..i], entries.value[i], items, log, next, more);
      assert entries.value[..i + 1] == entries.value[..i] + [entries.value[i]];
      log := log + more;
      if next.None? {
        ItemsStuck(k, CALL, entries.value, i + 1, log);
        ListWalked(k, List(CALL), CALL, calls, None, log);
        return None, log;
      }
      items := items + [next.value];
    }
    assert entries.value[..|entries.value|] == entries.value;
    ListWalked(k, List(CALL), CALL, calls, Some(items), log);
    r := Some(if calls.Null? then calls else Array(items));
  }

  method CallsField(k: Cipher, target: Value) returns (r: Option<Value>, log: seq<string>)
    requires target.Object?
    ensures Walked(k, [Field("tool_calls", List(CALL))], target, r, log)
  {
    if "tool_calls" in target.fields {
      var calls, more := DecryptCalls(k, target.fields["tool_calls"]);
      MemberWalked(k, Field("tool_calls", List(CALL)), target, calls, more);
      r := if calls.Some? then Some(Object(target.fields["tool_calls" := calls.value])) else None;
      log := more;
    } else {
      r, log := Some(target), [];
      OneField(k, Field("tool_calls", List(CALL)), target, r, log);
    }
  }

  method LogprobsField(k: Cipher, target: Value, name: string) returns (r: Option<Value>, log: seq<string>)
    requires target.Object?
    ensures Walked(k, [Field(name, Logprobs)], target, r, log)
  {
    if name in target.fields {
      var entries, more := DecryptLogprobs(k, target.fields[name]);
      MemberWalked(k, Field(name, Logprobs), target, entries, more);
      r := if entries.Some? then Some(Object(target.fields[name := entries.value])) else None;
      log := more;
    } else {
      r, log := Some(target), [];
      OneField(k, Field(name, Logprobs), target, r, log);
    }
  }

  /** The members of a message, by position. */
  lemma MessageAt(streaming: bool)
    ensures Distinct(Message(streaming)) && |Message(streaming)| == if streaming then 8 else 7
    ensures Message(streaming)[..3] == Texts(["reasoning_content", "reasoning", "refusal"])
    ensures Message(streaming)[3] == Field("content", Content)
    ensures Message(streaming)[4] == Field("audio", Record(Texts(["data"])))
    ensures Message(streaming)[5] == Field("tool_calls", List(CALL))
    ensures Message(streaming)[6] == Field("function_call", Record(Texts(["name", "arguments"])))
    ensures streaming ==> Message(streaming)[7] == Field("nearai_tool_result", Record(Texts(["output"])))
  {
    assert Texts(["name", "arguments"]) == FUNCTION;
    assert Texts(["data"]) == [Field("data", Text)];
    assert Texts(["output"]) == [Field("output", Text)];
  }

  lemma StoppedEarly(k: Cipher, fields: seq<Field>, n: nat, v: Value, r: Option<Value>, log: seq<string>)
    requires Distinct(fields) && n <= |fields|
    requires Walked(k, fields[..n], v, r, log)
    ensures if r.None? then Walked(k, fields, v, None, log) else r.value.Object?
  {
    assert fields == fields[..n] + fields[n..];
    ThenApplies(k, fields[..n], fields[n..], v);
  }

  /** A choice's message, or its delta when streaming. */
  method DecryptMessage(k: Cipher, message: Value, streaming: bool) returns (r: Option<Value>, log: seq<string>)
    requires message.Object?
    ensures Walked(k, Message(streaming), message, r, log)
  {
    hide Walked, Message, Distinct;
    ghost var all := Message(streaming);
    MessageAt(streaming);
    DistinctNames();
    r, log := Fields(k, message, ["reasoning_content", "reasoning", "refusal"]);
    StoppedEarly(k, all, 3, message, r, log);
    if r.None? {
      return;
    }
    var halfway := r.value;
    var next, more := ContentField(k, halfway);
    NextField(k, all, 3, message, halfway, log, next, more);
    r, log := next, log + more;
    if r.None? {
      return;
    }
    halfway := r.value;
    next, more := ObjectField(k, halfway, "audio", ["data"]);
    NextField(k, all, 4, message, halfway, log, next, more);
    r, log := next, log + more;
    if r.None? {
      return;
    }
    halfway := r.value;
    next, more := CallsField(k, halfway);
    NextField(k, all, 5, message, halfway, log, next, more);
    r, log := next, log + more;
    if r.None? {
      return;
    }
    halfway := r.value;
    next, more := ObjectField(k, halfway, "function_call", ["name", "arguments"]);
    NextField(k, all, 6, message, halfway, log, next, more);
    r, log := next, log + more;
    if r.None? || !streaming {
      return;
    }
    halfway := r.value;
    next, more := ObjectField(k, halfway, "nearai_tool_result", ["output"]);
    NextField(k, all, 7, message, halfway, log, next, more);
    r, log := next, log + more;
  }

  lemma DistinctNames()
    ensures Distinct(Texts(["reasoning_content", "reasoning", "refusal"]))
    ensures Distinct(Texts(["data"])) && Distinct(Texts(["output"])) && Distinct(Texts(["text"]))
    ensures Distinct(Texts(["name", "arguments"]))
  {
  }

  method MessageField(k: Cipher, choice: Value, name: string, streaming: bool)
    returns (r: Option<Value>, log: seq<string>)
    requires choice.Object?
    ensures Walked(k, [Field(name, Record(Message(streaming)))], choice, r, log)
  {
    hide Message;
    r, log := Some(choice), [];
    if name in choice.fields {
      var message := choice.fields[name];
      if message.Object? {
        var inner, more := DecryptMessage(k, message, streaming);
        log := more;
        r := if inner.Some? then Some(Object(choice.fields[name := inner.value])) else None;
      } else if !message.Null? {
        r := None;
      } else {
        assert choice.fields[name := message] == choice.fields;
      }
    }
    OneField(k, Field(name, Record(Message(streaming))), choice, r, log);
  }

  /** Both lists of a choice's log probabilities. */
  method LogprobsMember(k: Cipher, choice: Value) returns (r: Option<Value>, log: seq<string>)
    requires choice.Object?
    ensures Walked(k, [Field("logprobs", Record(LOGPROBS))], choice, r, log)
  {
    r, log := Some(choice), [];
    if "logprobs" in choice.fields {
      var logprobs := choice.fields["logprobs"];
      if logprobs.Object? {
        var inner, more := DecryptBoth(k, logprobs);
        log := more;
        r := if inner.Some? then Some(Object(choice.fields["logprobs" := inner.value])) else None;
      } else if !logprobs.Null? {
        r := None;
      } else {
        assert choice.fields["logprobs" := logprobs] == choice.fields;
      }
    }
    OneField(k, Field("logprobs", Record(LOGPROBS)), choice, r, log);
  }

  method DecryptBoth(k: Cipher, logprobs: Value) returns (r: Option<Value>, log: seq<string>)
    requires logprobs.Object?
    ensures Walked(k, LOGPROBS, logprobs, r, log)
  {
    hide Walked;
    Untried(k, logprobs);
    assert LOGPROBS[..0] == [];
    r, log := LogprobsField(k, logprobs, "content");
    NextField(k, LOGPROBS, 0, logprobs, logprobs, [], r, log);
    assert [] + log == log;
    if r.None? {
      return;
    }
    var halfway := r.value;
    var next, more := LogprobsField(k, halfway, "refusal");
    NextField(k, LOGPROBS, 1, logprobs, halfway, log, next, more);
    r, log := next, log + more;
  }

  method DecryptChoice(k: Cipher, choice: Value, streaming: bool) returns (r: Option<Value>, log: seq<string>)
    requires choice.Object?
    ensures Walked(k, Choice(streaming), choice, r, log)
  {
    hide Walked, Message;
    ghost var all := Choice(streaming);
    Untried(k, choice);
    assert all[..0] == [];
    r, log := MessageField(k, choice, if streaming then "delta" else "message", streaming);
    NextField(k, all, 0, choice, choice, [], r, log);
    assert [] + log == log;
    if r.None? {
      return;
    }
    var halfway := r.value;
    var next, more := LogprobsMember(k, halfway);
    NextField(k, all, 1, choice, halfway, log, next, more);
    r, log := next, log + more;
  }

  method DecryptChoices(k: Cipher, choices: Value, streaming: bool) returns (r: Option<Value>, log: seq<string>)
    ensures WalkedValue(k, List(Choice(streaming)), choices, r, log)
  {
    hide Choice;
    log := [];
    var entries := ResponseObjects(choices);
    if entries.None? {
      ListRefused(k, List(Choice(streaming)), Choice(streaming), choices, log);
      return None, log;
    }
    var items: seq<Value> := [];
    for i := 0 to |entries.value|
      invariant WalkedItems(k, Choice(streaming), entries.value[..i], Some(items), log)
    {
      hide WalkedItems;
      var next, more := DecryptChoice(k, entries.value[i], streaming);
      NextItem(k, Choice(streaming), entries.value[..i], entries.value[i], items, log, next, more);
      assert entries.value[..i + 1] == entries.value[..i] + [entries.value[i]];
      log := log + more;
      if next.None? {
        ItemsStuck(k, Choice(streaming), entries.value, i + 1, log);
        ListWalked(k, List(Choice(streaming)), Choice(streaming), choices, None, log);
        return None, log;
      }
      items := items + [next.value];
    }
    assert entries.value[..|entries.value|] == entries.value;
    ListWalked(k, List(Choice(streaming)), Choice(streaming), choices, Some(items), log);
    r := Some(if choices.Null? then choices else Array(items));
  }

  /**
   * `decrypt_response`. What stands at each position of the result, and when there is one, is said
   * by the names that lead there. And on success the outline of the body is as it was, every protected position
   * holds what its ciphertext opened to, and each ciphertext was opened exactly once, in order; it
   * succeeds exactly when the outline is right and every ciphertext opens. A body that is not an
   * object has no choices and is left alone.
   */
  method DecryptResponse(k: Cipher, body: Value, streaming: bool) returns (r: Option<Value>, log: seq<string>)
    ensures body.Object? ==> r == ApplyFields(k, Body(streaming), body)
    ensures body.Object? && r.Some? ==>
              r.value.Object? && OpenedFields(k, Body(streaming), body, r.value)
              && log == Ciphertexts(FieldSlots(Body(streaming), body))
    ensures body.Object? ==>
              (r.Some? <==> WellShapedFields(Body(streaming), body) && AllOpen(k, FieldSlots(Body(streaming), body)))
    ensures body.Object? && r.Some? ==>
              forall path :: E2eePaths.Placed(k, E2eePaths.InResponse(streaming, path), E2eePaths.Find(body, path),
                                              E2eePaths.Find(r.value, path))
    ensures body.Object? ==>
              (r.Some? <==>
                 forall path :: E2eePaths.Fits(k, E2eePaths.InResponse(streaming, path), E2eePaths.Find(body, path)))
    ensures !body.Object? ==> r == Some(body) && log == []
  {
    hide E2eePaths.Placed, E2eePaths.Fits, E2eePaths.InResponse, E2eePaths.Find;
    r, log := Some(body), [];
    if body.Object? {
      hide Choice, OpenedFields, WellShapedFields, AllOpen, TidyFields;
      if "choices" in body.fields {
        var choices, more := DecryptChoices(k, body.fields["choices"], streaming);
        MemberWalked(k, Field("choices", List(Choice(streaming))), body, choices, more);
        log := more;
        r := if choices.Some? then Some(Object(body.fields["choices" := choices.value])) else None;
      } else {
        OneField(k, Field("choices", List(Choice(streaming))), body, r, log);
      }
      BodyIsTidy(streaming);
      FieldsSucceedExactly(k, Body(streaming), body);
      E2eePaths.EveryPosition(k, body, streaming);
      if r.Some? {
        FieldsOpenExactly(k, Body(streaming), body);
      }
    }
  }
}
