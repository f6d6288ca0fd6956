/**
 * Decryption of a Chat response position by position, where a position is named by the members and
 * indices that lead to it: what rs/src/e2ee.rs:347-421 opens is listed here by the names it uses,
 * and the schema of `E2ee` is proved to mean that list.
 */
module E2eePaths {
  import opened Wrappers
  import opened Json
  import opened E2ee

  function Find(v: Value, path: seq<Crumb>): Option<Value>
    decreases |path|
  {
    if path == [] then Some(v)
    else
      var child := Child(v, path[0]);
      if child.None? then None else Find(child.value, path[1..])
  }

  function Child(v: Value, crumb: Crumb): Option<Value> {
    match crumb
    case Member(name) => Get(v, name)
    case At(index) => if v.Array? && index < |v.items| then Some(v.items[index]) else None
  }

  /**
   * What stands at a position. Secret: an encrypted string. Parts: an encrypted string, or an array
   * of parts. Bundle: encrypted JSON text, and Unpacked what is inside it. Entry: an object in a
   * list. Anything but an entry may be null.
   */
  datatype Role = Open | Secret | Parts | Bundle | Unpacked | AnObject | Objects | Entry

  // ----- The positions of a Chat response -----

  function InResponse(streaming: bool, path: seq<Crumb>): Role {
    if path == [] then AnObject
    else if path[0] == Member("choices") then InChoices(streaming, path[1..])
    else Open
  }

  function InChoices(streaming: bool, path: seq<Crumb>): Role {
    if path == [] then Objects
    else if !path[0].At? then Open
    else if |path| == 1 then Entry
    else if path[1] == Member(if streaming then "delta" else "message") then InMessage(streaming, path[2..])
    else if path[1] == Member("logprobs") then InLogprobs(path[2..])
    else Open
  }

  function InMessage(streaming: bool, path: seq<Crumb>): Role {
    if path == [] then AnObject
    else if path == [Member("reasoning_content")] || path == [Member("reasoning")] || path == [Member("refusal")] then Secret
    else if path[0] == Member("content") then InContent(path[1..])
    else if path[0] == Member("audio") then InObject(path[1..], "data", "data")
    else if path[0] == Member("function_call") then InObject(path[1..], "name", "arguments")
    else if path[0] == Member("tool_calls") then InCalls(path[1..])
    else if streaming && path[0] == Member("nearai_tool_result") then InObject(path[1..], "output", "output")
    else Open
  }

  /** A string, or parts with a text each. */
  function InContent(path: seq<Crumb>): Role {
    if path == [] then Parts
    else if !path[0].At? then Open
    else if |path| == 1 then Entry
    else if path[1..] == [Member("text")] then Secret
    else Open
  }

  function InCalls(path: seq<Crumb>): Role {
    if path == [] then Objects
    else if !path[0].At? then Open
    else if |path| == 1 then Entry
    else if path[1] == Member("function") then InObject(path[2..], "name", "arguments")
    else Open
  }

  /** An object with one or two secrets. */
  function InObject(path: seq<Crumb>, first: string, second: string): Role {
    if path == [] then AnObject
    else if path == [Member(first)] || path == [Member(second)] then Secret
    else Open
  }

  function InLogprobs(path: seq<Crumb>): Role {
    if path == [] then AnObject
    else if path[0] == Member("content") || path[0] == Member("refusal") then InEntries(path[1..])
    else Open
  }

  /** Each entry has further entries below it, to any depth. */
  function InEntries(path: seq<Crumb>): Role
    decreases |path|
  {
    if path == [] then Objects
    else if !path[0].At? then Open
    else if |path| == 1 then Entry
    else if path[1..] == [Member("token")] then Secret
    else if path[1..] == [Member("bytes")] then Bundle
    else if path[1] == Member("bytes") then Unpacked
    else if path[1] == Member("top_logprobs") then InEntries(path[2..])
    else Open
  }

  // ----- What becomes of a position, and what it must hold -----

  /** Both SDKs leave an empty string alone. */
  predicate OpensTo(k: Cipher, s: string, t: string) {
    if s == "" then t == "" else k.open(s) == Some(t)
  }

  predicate CanOpen(k: Cipher, s: string) {
    s == "" || k.open(s).Some?
  }

  /** The same kind of value: equal, or objects with the same members, or arrays of the same length. */
  predicate Alike(a: Value, b: Value) {
    match a
    case Object(fields) => b.Object? && b.fields.Keys == fields.Keys
    case Array(items) => b.Array? && |b.items| == |items|
    case _ => b == a
  }

  predicate PlacedValue(k: Cipher, role: Role, a: Value, b: Value) {
    match role
    case Secret => if a.String? then b.String? && OpensTo(k, a.s, b.s) else a == Null && b == Null
    case Parts => if a.String? then b.String? && OpensTo(k, a.s, b.s) else Alike(a, b)
    case Bundle =>
      if a.String? then CanOpen(k, a.s) && k.parse(if a.s == "" then "" else k.open(a.s).value) == Some(b)
      else a == Null && b == Null
    case Unpacked => true
    case _ => Alike(a, b)
  }

  /** What stands at a position after decryption. */
  predicate Placed(k: Cipher, role: Role, a: Option<Value>, b: Option<Value>) {
    role.Unpacked? || (a.None? && b.None?) || (a.Some? && b.Some? && PlacedValue(k, role, a.value, b.value))
  }

  /** What a position may hold for decryption to succeed. */
  predicate Fits(k: Cipher, role: Role, v: Option<Value>) {
    v.None? || FitsValue(k, role, v.value)
  }

  predicate FitsValue(k: Cipher, role: Role, v: Value) {
    match role
    case Secret => v.Null? || (v.String? && CanOpen(k, v.s))
    case Parts => v.Null? || v.Array? || (v.String? && CanOpen(k, v.s))
    case Bundle =>
      v.Null? || (v.String? && CanOpen(k, v.s) && k.parse(if v.s == "" then "" else k.open(v.s).value).Some?)
    case AnObject => v.Null? || v.Object?
    case Objects => v.Null? || v.Array?
    case Entry => v.Object?
    case _ => true
  }

  // ----- The positions of a schema -----

  function Named(fields: seq<Field>, name: string): Option<Shape> {
    if fields == [] then None
    else if fields[|fields| - 1].name == name then Some(fields[|fields| - 1].shape)
    else Named(fields[..|fields| - 1], name)
  }

  function RoleIn(shape: Shape, path: seq<Crumb>): Role
    decreases |path|
  {
    if path == [] then
      match shape
      case Text => Secret
      case Packed => Bundle
      case Record(_) => AnObject
      case List(_) => Objects
      case Content => Parts
      case Logprobs => Objects
    else
      match shape
      case Text => Open
      case Packed => Unpacked
      case Record(fields) => RoleInFields(fields, path)
      case List(fields) => RoleInItems(fields, path)
      case Content => RoleInItems(PART, path)
      case Logprobs => RoleInItems(LOGPROB, path)
  }

  function RoleInFields(fields: seq<Field>, path: seq<Crumb>): Role
    requires path != []
    decreases |path|, 0
  {
    if path[0].Member? && Named(fields, path[0].name).Some? then RoleIn(Named(fields, path[0].name).value, path[1..])
    else Open
  }

  function RoleInItems(fields: seq<Field>, path: seq<Crumb>): Role
    requires path != []
    decreases |path|, 0
  {
    if !path[0].At? then Open
    else if |path| == 1 then Entry
    else RoleInFields(fields, path[1..])
  }

  // ----- Decryption, position by position -----

  lemma {:induction false} FieldApplied(k: Cipher, fields: seq<Field>, v: Value, name: string)
    requires v.Object? && name in v.fields && ApplyFields(k, fields, v).Some?
    ensures var x := ApplyFields(k, fields, v).value.fields[name];
            match Named(fields, name)
            case None => x == v.fields[name]
            case Some(shape) => Apply(k, shape, v.fields[name]) == Some(x)
    decreases |fields|
  {
    hide Apply;
    if fields != [] {
      FieldApplied(k, fields[..|fields| - 1], v, name);
    }
  }

  lemma {:induction false} ItemApplied(k: Cipher, fields: seq<Field>, items: seq<Value>, i: nat)
    requires ApplyItems(k, fields, items).Some? && i < |items|
    ensures items[i].Object? && ApplyFields(k, fields, items[i]) == Some(ApplyItems(k, fields, items).value[i])
    decreases i
  {
    hide ApplyFields;
    if i > 0 {
      ItemApplied(k, fields, items[1..], i - 1);
    }
  }

  lemma {:induction false} AppliedAt(k: Cipher, shape: Shape, v: Value, w: Value, path: seq<Crumb>)
    requires Apply(k, shape, v) == Some(w)
    ensures Placed(k, RoleIn(shape, path), Find(v, path), Find(w, path))
    ensures Fits(k, RoleIn(shape, path), Find(v, path))
    decreases |path|, 1
  {
    hide ApplyFields, ApplyItems, Placed, Fits, RoleInFields, RoleInItems, Child;
    if path == [] {
      AppliedHere(k, shape, v, w);
    } else if v.Object? && Resolve(shape, v).Record? {
      FieldsAppliedAt(k, Resolve(shape, v).fields, v, w, path);
    } else if v.Array? && Resolve(shape, v).List? {
      ItemsAppliedAt(k, Resolve(shape, v).fields, v.items, w.items, path);
    } else if shape != Packed {
      NothingBelow(k, shape, v, w, path);
    } else {
      NothingAsked(k, Find(v, path), Find(w, path));
    }
  }

  lemma NothingAsked(k: Cipher, a: Option<Value>, b: Option<Value>)
    ensures Placed(k, Unpacked, a, b) && Fits(k, Unpacked, a)
  {
  }

  lemma NothingBelow(k: Cipher, shape: Shape, v: Value, w: Value, path: seq<Crumb>)
    requires path != [] && Apply(k, shape, v) == Some(w) && shape != Packed
    requires !(v.Object? && Resolve(shape, v).Record?) && !(v.Array? && Resolve(shape, v).List?)
    ensures Find(v, path) == None && Find(w, path) == None
    ensures forall role :: Placed(k, role, Find(v, path), Find(w, path)) && Fits(k, role, Find(v, path))
  {
    hide ApplyFields, ApplyItems;
  }

  lemma AppliedHere(k: Cipher, shape: Shape, v: Value, w: Value)
    requires Apply(k, shape, v) == Some(w)
    ensures Placed(k, RoleIn(shape, []), Find(v, []), Find(w, [])) && Fits(k, RoleIn(shape, []), Find(v, []))
  {
    hide ApplyFields, ApplyItems;
  }

  lemma {:induction false} FieldsAppliedAt(k: Cipher, fields: seq<Field>, v: Value, w: Value, path: seq<Crumb>)
    requires v.Object? && ApplyFields(k, fields, v) == Some(w) && path != []
    ensures Placed(k, RoleInFields(fields, path), Find(v, path), Find(w, path))
    ensures Fits(k, RoleInFields(fields, path), Find(v, path))
    decreases |path|, 0
  {
    hide Apply, ApplyFields, RoleIn, Named;
    if path[0].Member? && path[0].name in v.fields {
      var name := path[0].name;
      FieldApplied(k, fields, v, name);
      match Named(fields, name)
      case None => Same(k, Find(v, path));
      case Some(shape) => AppliedAt(k, shape, v.fields[name], w.fields[name], path[1..]);
    }
  }

  lemma Same(k: Cipher, a: Option<Value>)
    ensures Placed(k, Open, a, a) && Fits(k, Open, a)
  {
  }

  lemma {:induction false} ItemsAppliedAt(k: Cipher, fields: seq<Field>, items: seq<Value>, after: seq<Value>,
                                          path: seq<Crumb>)
    requires ApplyItems(k, fields, items) == Some(after) && path != []
    ensures Placed(k, RoleInItems(fields, path), Find(Array(items), path), Find(Array(after), path))
    ensures Fits(k, RoleInItems(fields, path), Find(Array(items), path))
    decreases |path|, 0
  {
    hide ApplyFields, ApplyItems, RoleInFields;
    if path[0].At? && path[0].index < |items| {
      var i := path[0].index;
      ItemApplied(k, fields, items, i);
      if |path| > 1 {
        FieldsAppliedAt(k, fields, items[i], after[i], path[1..]);
      }
    }
  }

  // ----- It succeeds whenever every position fits -----

  ghost predicate AllFit(k: Cipher, shape: Shape, v: Value) {
    forall path :: Fits(k, RoleIn(shape, path), Find(v, path))
  }

  lemma {:induction false} NamedByItself(fields: seq<Field>, i: nat)
    requires Distinct(fields) && i < |fields|
    ensures Named(fields, fields[i].name) == Some(fields[i].shape)
    decreases |fields|
  {
    var n := |fields| - 1;
    if i < n {
      assert fields[i].name != fields[n].name;
      NamedByItself(fields[..n], i);
    }
  }

  lemma {:induction false} FieldsApply(k: Cipher, fields: seq<Field>, v: Value)
    requires v.Object?
    requires forall i :: 0 <= i < |fields| && fields[i].name in v.fields ==> Apply(k, fields[i].shape, v.fields[fields[i].name]).Some?
    ensures ApplyFields(k, fields, v).Some?
    decreases |fields|
  {
    hide Apply;
    if fields != [] {
      var before := fields[..|fields| - 1];
      assert forall i :: 0 <= i < |before| ==> before[i] == fields[i];
      FieldsApply(k, before, v);
      assert fields[|fields| - 1].name in v.fields ==>
             Apply(k, fields[|fields| - 1].shape, v.fields[fields[|fields| - 1].name]).Some?;
    }
  }

  lemma {:induction false} ItemsApply(k: Cipher, fields: seq<Field>, items: seq<Value>)
    requires forall i :: 0 <= i < |items| ==> items[i].Object? && ApplyFields(k, fields, items[i]).Some?
    ensures ApplyItems(k, fields, items).Some?
    decreases |items|
  {
    hide ApplyFields;
    if items != [] {
      assert forall i :: 0 <= i < |items[1..]| ==> items[1..][i] == items[i + 1];
      ItemsApply(k, fields, items[1..]);
    }
  }

  /** Below a member of a record that fits, all fits. */
  lemma MemberFits(k: Cipher, fields: seq<Field>, v: Value, i: nat)
    requires v.Object? && Distinct(fields) && i < |fields| && fields[i].name in v.fields
    requires forall path :: path != [] ==> Fits(k, RoleInFields(fields, path), Find(v, path))
    ensures AllFit(k, fields[i].shape, v.fields[fields[i].name])
  {
    hide Fits, RoleIn, Named;
    NamedByItself(fields, i);
    forall path: seq<Crumb> ensures Fits(k, RoleIn(fields[i].shape, path), Find(v.fields[fields[i].name], path)) {
      var longer := [Member(fields[i].name)] + path;
      assert longer[1..] == path;
      assert RoleInFields(fields, longer) == RoleIn(fields[i].shape, path);
      assert Find(v, longer) == Find(v.fields[fields[i].name], path);
    }
  }

  /** An entry of a list that fits is an object, and below it all fits. */
  lemma EntryFits(k: Cipher, fields: seq<Field>, items: seq<Value>, i: nat)
    requires i < |items|
    requires forall path :: path != [] ==> Fits(k, RoleInItems(fields, path), Find(Array(items), path))
    ensures items[i].Object?
    ensures forall path :: path != [] ==> Fits(k, RoleInFields(fields, path), Find(items[i], path))
  {
    hide RoleInFields;
    var here := [At(i)];
    assert here[1..] == [];
    assert Fits(k, RoleInItems(fields, here), Find(Array(items), here));
    forall path: seq<Crumb> | path != [] ensures Fits(k, RoleInFields(fields, path), Find(items[i], path)) {
      hide Fits;
      var longer := here + path;
      assert longer[1..] == path;
      assert RoleInItems(fields, longer) == RoleInFields(fields, path);
      assert Find(Array(items), longer) == Find(items[i], path);
    }
  }

  lemma {:induction false} FittingApplies(k: Cipher, shape: Shape, v: Value)
    requires Tidy(shape) && AllFit(k, shape, v)
    ensures Apply(k, shape, v).Some?
    decreases v, 2
  {
    hide Fits, RoleInFields, RoleInItems, ApplyFields, ApplyItems;
    assert Fits(k, RoleIn(shape, []), Find(v, []));
    FitsHere(k, shape, v);
    ConstantsTidy();
    if v.Object? && Resolve(shape, v).Record? {
      var fields := Resolve(shape, v).fields;
      assert forall path :: path != [] ==> RoleIn(shape, path) == RoleInFields(fields, path);
      FittingFields(k, fields, v);
    } else if v.Array? && Resolve(shape, v).List? {
      var fields := Resolve(shape, v).fields;
      assert forall path :: path != [] ==> RoleIn(shape, path) == RoleInItems(fields, path);
      FittingItems(k, fields, v.items);
    }
  }

  lemma ConstantsTidy()
    ensures TidyFields(PART) && TidyFields(LOGPROB)
  {
  }

  lemma FitsHere(k: Cipher, shape: Shape, v: Value)
    requires Fits(k, RoleIn(shape, []), Find(v, []))
    ensures Apply(k, shape, v).Some? || (v.Object? && Resolve(shape, v).Record?) || (v.Array? && Resolve(shape, v).List?)
  {
    hide ApplyFields, ApplyItems;
  }

  lemma {:induction false} FittingFields(k: Cipher, fields: seq<Field>, v: Value)
    requires v.Object? && TidyFields(fields)
    requires forall path :: path != [] ==> Fits(k, RoleInFields(fields, path), Find(v, path))
    ensures ApplyFields(k, fields, v).Some?
    decreases v, 1
  {
    hide Fits, RoleInFields, Apply, ApplyFields, AllFit;
    forall i | 0 <= i < |fields| && fields[i].name in v.fields
      ensures Apply(k, fields[i].shape, v.fields[fields[i].name]).Some?
    {
      MemberFits(k, fields, v, i);
      FittingApplies(k, fields[i].shape, v.fields[fields[i].name]);
    }
    FieldsApply(k, fields, v);
  }

  lemma {:induction false} FittingItems(k: Cipher, fields: seq<Field>, items: seq<Value>)
    requires TidyFields(fields)
    requires forall path :: path != [] ==> Fits(k, RoleInItems(fields, path), Find(Array(items), path))
    ensures ApplyItems(k, fields, items).Some?
    decreases items, 1
  {
    hide Fits, RoleInFields, RoleInItems, ApplyFields;
    forall i | 0 <= i < |items| ensures items[i].Object? && ApplyFields(k, fields, items[i]).Some? {
      EntryFits(k, fields, items, i);
      FittingFields(k, fields, items[i]);
    }
    ItemsApply(k, fields, items);
  }

  // ----- The schema of a response means the list above -----

  lemma {:induction false} NotNamed(fields: seq<Field>, name: string)
    requires forall i :: 0 <= i < |fields| ==> fields[i].name != name
    ensures Named(fields, name) == None
    decreases |fields|
  {
    if fields != [] {
      var before := fields[..|fields| - 1];
      assert forall i :: 0 <= i < |before| ==> before[i] == fields[i];
      NotNamed(before, name);
    }
  }

  lemma NamedOne(f: Field, name: string)
    ensures Named([f], name) == if name == f.name then Some(f.shape) else None
  {
    if name != f.name {
      NotNamed([f], name);
    }
  }

  lemma NamedTwo(f: Field, g: Field, name: string)
    requires f.name != g.name
    ensures Named([f, g], name) == if name == f.name then Some(f.shape) else if name == g.name then Some(g.shape) else None
  {
    assert [f, g][..1] == [f];
    NamedOne(f, name);
  }

  lemma InText(path: seq<Crumb>)
    ensures RoleIn(Text, path) == if path == [] then Secret else Open
  {
  }

  lemma ObjectWith(first: string, second: string, path: seq<Crumb>)
    requires first != second
    ensures RoleIn(Record([Field(first, Text), Field(second, Text)]), path) == InObject(path, first, second)
  {
    if path != [] && path[0].Member? {
      NamedTwo(Field(first, Text), Field(second, Text), path[0].name);
      InText(path[1..]);
      assert path == [path[0]] + path[1..];
    }
  }

  lemma ObjectWithOne(name: string, path: seq<Crumb>)
    ensures RoleIn(Record([Field(name, Text)]), path) == InObject(path, name, name)
  {
    if path != [] && path[0].Member? {
      NamedOne(Field(name, Text), path[0].name);
      InText(path[1..]);
      assert path == [path[0]] + path[1..];
    }
  }

  /** An entry's position, and below it a member's. */
  lemma BelowEntry(fields: seq<Field>, path: seq<Crumb>)
    requires |path| > 1 && path[0].At?
    ensures path[1..][0] == path[1] && path[1..][1..] == path[2..] && path[1..] == [path[1]] + path[2..]
    ensures RoleInItems(fields, path) ==
            if path[1].Member? && Named(fields, path[1].name).Some? then RoleIn(Named(fields, path[1].name).value, path[2..])
            else Open
  {
    assert path[1..][0] == path[1] && path[1..][1..] == path[2..];
  }

  lemma ContentMeans(path: seq<Crumb>)
    ensures RoleIn(Content, path) == InContent(path)
  {
    if |path| > 1 && path[0].At? {
      BelowEntry(PART, path);
      if path[1].Member? {
        NamedOne(Field("text", Text), path[1].name);
        InText(path[2..]);
      }
    }
  }

  lemma CallsMean(path: seq<Crumb>)
    ensures RoleIn(List(CALL), path) == InCalls(path)
  {
    if |path| > 1 && path[0].At? {
      BelowEntry(CALL, path);
      if path[1].Member? {
        NamedOne(Field("function", Record(FUNCTION)), path[1].name);
        ObjectWith("name", "arguments", path[2..]);
      }
    }
  }

  lemma {:induction false} EntriesMean(path: seq<Crumb>)
    ensures RoleIn(Logprobs, path) == InEntries(path)
    decreases |path|
  {
    if |path| > 1 && path[0].At? {
      BelowEntry(LOGPROB, path);
      if path[1].Member? {
        NamedEntry(path[1].name);
        InText(path[2..]);
        EntriesMean(path[2..]);
      }
    }
  }

  lemma NamedEntry(name: string)
    ensures Named(LOGPROB, name) ==
            if name == "token" then Some(Text) else if name == "bytes" then Some(Packed)
            else if name == "top_logprobs" then Some(Logprobs) else None
  {
    assert Distinct(LOGPROB);
    if name == "token" {
      NamedByItself(LOGPROB, 0);
    } else if name == "bytes" {
      NamedByItself(LOGPROB, 1);
    } else if name == "top_logprobs" {
      NamedByItself(LOGPROB, 2);
    } else {
      NotNamed(LOGPROB, name);
    }
  }

  lemma LogprobsMean(path: seq<Crumb>)
    ensures RoleIn(Record(LOGPROBS), path) == InLogprobs(path)
  {
    if path != [] && path[0].Member? {
      NamedTwo(Field("content", Logprobs), Field("refusal", Logprobs), path[0].name);
      EntriesMean(path[1..]);
    }
  }

  lemma NamedInMessage(streaming: bool, name: string)
    ensures Named(Message(streaming), name) ==
            if name == "reasoning_content" || name == "reasoning" || name == "refusal" then Some(Text)
            else if name == "content" then Some(Content)
            else if name == "audio" then Some(Record([Field("data", Text)]))
            else if name == "tool_calls" then Some(List(CALL))
            else if name == "function_call" then Some(Record(FUNCTION))
            else if streaming && name == "nearai_tool_result" then Some(Record([Field("output", Text)]))
            else None
  {
    MessageIsTidy(streaming);
    if i :| 0 <= i < |Message(streaming)| && Message(streaming)[i].name == name {
      NamedByItself(Message(streaming), i);
    } else {
      assert Message(streaming)[0].name == "reasoning_content" && Message(streaming)[1].name == "reasoning";
      assert Message(streaming)[2].name == "refusal" && Message(streaming)[3].name == "content";
      assert Message(streaming)[4].name == "audio" && Message(streaming)[5].name == "tool_calls";
      assert Message(streaming)[6].name == "function_call";
      assert streaming ==> Message(streaming)[7].name == "nearai_tool_result";
      NotNamed(Message(streaming), name);
    }
  }

  lemma MessageMeans(streaming: bool, path: seq<Crumb>)
    ensures RoleIn(Record(Message(streaming)), path) == InMessage(streaming, path)
  {
    hide Message, InContent, InCalls, InObject;
    if path != [] && path[0].Member? {
      var rest := path[1..];
      assert path == [path[0]] + rest;
      NamedInMessage(streaming, path[0].name);
      InText(rest);
      ContentMeans(rest);
      CallsMean(rest);
      ObjectWithOne("data", rest);
      ObjectWithOne("output", rest);
      ObjectWith("name", "arguments", rest);
    }
  }

  lemma ChoicesMean(streaming: bool, path: seq<Crumb>)
    ensures RoleIn(List(Choice(streaming)), path) == InChoices(streaming, path)
  {
    hide Message, InMessage, InLogprobs;
    if |path| > 1 && path[0].At? {
      BelowEntry(Choice(streaming), path);
      if path[1].Member? {
        NamedTwo(Field(if streaming then "delta" else "message", Record(Message(streaming))),
                 Field("logprobs", Record(LOGPROBS)), path[1].name);
        MessageMeans(streaming, path[2..]);
        LogprobsMean(path[2..]);
      }
    }
  }

  lemma ResponseMeans(streaming: bool, path: seq<Crumb>)
    ensures RoleIn(Record(Body(streaming)), path) == InResponse(streaming, path)
  {
    hide Choice, InChoices;
    if path != [] && path[0].Member? {
      NamedOne(Field("choices", List(Choice(streaming))), path[0].name);
      ChoicesMean(streaming, path[1..]);
    }
  }

  // ----- So, of a response -----

  /**
   * On success every position of the response holds what it should: a secret what its own
   * ciphertext opens to, a bundle the JSON its ciphertext opens to, and everything else what stood
   * there before. Decryption succeeds exactly when every position holds what it may.
   */
  lemma EveryPosition(k: Cipher, body: Value, streaming: bool)
    requires body.Object?
    ensures var r := ApplyFields(k, Body(streaming), body);
            && (r.Some? ==>
                  forall path :: Placed(k, InResponse(streaming, path), Find(body, path), Find(r.value, path)))
            && (r.Some? <==> forall path :: Fits(k, InResponse(streaming, path), Find(body, path)))
  {
    hide Body, InResponse, ApplyFields, Placed, Fits;
    var shape := Record(Body(streaming));
    var r := ApplyFields(k, Body(streaming), body);
    assert Apply(k, shape, body) == r;
    forall path ensures RoleIn(shape, path) == InResponse(streaming, path) {
      ResponseMeans(streaming, path);
    }
    if r.Some? {
      forall path: seq<Crumb>
        ensures Placed(k, InResponse(streaming, path), Find(body, path), Find(r.value, path))
        ensures Fits(k, InResponse(streaming, path), Find(body, path))
      {
        AppliedAt(k, shape, body, r.value, path);
      }
    }
    if forall path :: Fits(k, InResponse(streaming, path), Find(body, path)) {
      BodyIsTidy(streaming);
      assert AllFit(k, shape, body);
      FittingApplies(k, shape, body);
    }
  }
}
