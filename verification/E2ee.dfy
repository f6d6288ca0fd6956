/**
 * Decrypting the protected fields of a Chat response (rs/src/e2ee.rs:216-258, 347-421,
 * go/e2ee.go:268-277, 340-471): which nodes of the tree are protected is a schema, and the
 * programs' walks are proved against what that schema means.
 *
 * The cipher is a parameter. Both SDKs leave an empty string alone.
 */
module E2ee {
  import opened Wrappers
  import opened Json

  datatype Cipher = Cipher(open: string -> Option<string>, parse: string -> Option<Value>)

  function Decrypt(k: Cipher, s: string): Option<string> {
    if s == "" then Some("") else k.open(s)
  }

  // ----- The schema -----

  /**
   * Text: a protected string. Packed: protected JSON text. Record: an object or null. List: an
   * array of objects or null. Content: an array of parts or a protected string. Logprobs: entries
   * that hold further Logprobs, to any depth.
   */
  datatype Shape = Text | Packed | Record(fields: seq<Field>) | List(fields: seq<Field>) | Content | Logprobs

  datatype Field = Field(name: string, shape: Shape)

  const FUNCTION := [Field("name", Text), Field("arguments", Text)]

  const PART := [Field("text", Text)]

  const CALL := [Field("function", Record(FUNCTION))]

  const LOGPROB := [Field("token", Text), Field("bytes", Packed), Field("top_logprobs", Logprobs)]

  const LOGPROBS := [Field("content", Logprobs), Field("refusal", Logprobs)]

  function Message(streaming: bool): seq<Field> {
    [Field("reasoning_content", Text), Field("reasoning", Text), Field("refusal", Text),
     Field("content", Content), Field("audio", Record([Field("data", Text)])), Field("tool_calls", List(CALL)),
     Field("function_call", Record(FUNCTION))]
    + if streaming then [Field("nearai_tool_result", Record([Field("output", Text)]))] else []
  }

  function Choice(streaming: bool): seq<Field> {
    [Field(if streaming then "delta" else "message", Record(Message(streaming))), Field("logprobs", Record(LOGPROBS))]
  }

  function Body(streaming: bool): seq<Field> {
    [Field("choices", List(Choice(streaming)))]
  }

  /** Content and Logprobs come down to the other shapes. */
  function Resolve(shape: Shape, v: Value): Shape {
    match shape
    case Content => if v.Array? then List(PART) else Text
    case Logprobs => List(LOGPROB)
    case _ => shape
  }

  // ----- What decryption does to a value -----

  /** None when the value does not have the shape or a ciphertext does not open. */
  function Apply(k: Cipher, shape: Shape, v: Value): Option<Value>
    decreases v, 2, 0
  {
    if v.Null? then Some(v)
    else
      match Resolve(shape, v)
      case Text => OpenText(k, v)
      case Packed => OpenPacked(k, v)
      case Record(fields) => if v.Object? then ApplyFields(k, fields, v) else None
      case List(fields) =>
        if v.Array? then
          match ApplyItems(k, fields, v.items)
          case None => None
          case Some(items) => Some(Array(items))
        else None
  }

  function OpenText(k: Cipher, v: Value): Option<Value> {
    if v.String? then
      match Decrypt(k, v.s)
      case None => None
      case Some(s) => Some(String(s))
    else None
  }

  function OpenPacked(k: Cipher, v: Value): Option<Value> {
    if v.String? && Decrypt(k, v.s).Some? then k.parse(Decrypt(k, v.s).value) else None
  }

  /** The fields one after the other; an absent one is left absent. */
  function ApplyFields(k: Cipher, fields: seq<Field>, v: Value): (r: Option<Value>)
    requires v.Object?
    ensures r.Some? ==> r.value.Object? && r.value.fields.Keys == v.fields.Keys
    decreases v, 1, |fields|
  {
    if fields == [] then Some(v)
    else
      var last := fields[|fields| - 1];
      match ApplyFields(k, fields[..|fields| - 1], v)
      case None => None
      case Some(before) =>
        if last.name !in v.fields then Some(before)
        else
          match Apply(k, last.shape, v.fields[last.name])
          case None => None
          case Some(x) => Some(Object(before.fields[last.name := x]))
  }

  function ApplyItems(k: Cipher, fields: seq<Field>, items: seq<Value>): (r: Option<seq<Value>>)
    ensures r.Some? ==> |r.value| == |items|
    decreases items, 1, 0
  {
    if items == [] then Some([])
    else if !items[0].Object? then None
    else
      var first := ApplyFields(k, fields, items[0]);
      var rest := ApplyItems(k, fields, items[1..]);
      if first.Some? && rest.Some? then Some([first.value] + rest.value) else None
  }

  // ----- The three views of a value under a schema -----

  /** The value with its protected leaves blanked: everything decryption must leave as it is. */
  function Mask(shape: Shape, v: Value): Value
    decreases v, 2, 0
  {
    if shape == Packed then Null
    else
      match Resolve(shape, v)
      case Text => if v.String? then String("") else v
      case Packed => Null
      case Record(fields) => if v.Object? then MaskFields(fields, v) else v
      case List(fields) => if v.Array? then Array(MaskItems(fields, v.items)) else v
  }

  function MaskFields(fields: seq<Field>, v: Value): (r: Value)
    requires v.Object?
    ensures r.Object? && r.fields.Keys == v.fields.Keys
    decreases v, 1, |fields|
  {
    if fields == [] then v
    else
      var last := fields[|fields| - 1];
      var before := MaskFields(fields[..|fields| - 1], v);
      if last.name !in v.fields then before
      else Object(before.fields[last.name := Mask(last.shape, v.fields[last.name])])
  }

  function MaskItems(fields: seq<Field>, items: seq<Value>): seq<Value>
    decreases items, 1, 0
  {
    if items == [] then []
    else [if items[0].Object? then MaskFields(fields, items[0]) else items[0]] + MaskItems(fields, items[1..])
  }

  /** A protected position and what stands there. */
  datatype Slot = Slot(packed: bool, value: Value)

  /** The protected positions, in the order the walks reach them. */
  function Slots(shape: Shape, v: Value): seq<Slot>
    decreases v, 2, 0
  {
    match Resolve(shape, v)
    case Text => [Slot(false, v)]
    case Packed => [Slot(true, v)]
    case Record(fields) => if v.Object? then FieldSlots(fields, v) else []
    case List(fields) => if v.Array? then ItemSlots(fields, v.items) else []
  }

  function FieldSlots(fields: seq<Field>, v: Value): seq<Slot>
    requires v.Object?
    decreases v, 1, |fields|
  {
    if fields == [] then []
    else
      var last := fields[|fields| - 1];
      FieldSlots(fields[..|fields| - 1], v)
      + if last.name in v.fields then Slots(last.shape, v.fields[last.name]) else []
  }

  function ItemSlots(fields: seq<Field>, items: seq<Value>): seq<Slot>
    decreases items, 1, 0
  {
    if items == [] then []
    else (if items[0].Object? then FieldSlots(fields, items[0]) else []) + ItemSlots(fields, items[1..])
  }

  /** The objects and arrays are where the schema wants them. What stands in a slot is not asked. */
  predicate WellShaped(shape: Shape, v: Value)
    decreases v, 2, 0
  {
    v.Null? ||
    match Resolve(shape, v)
    case Text => true
    case Packed => true
    case Record(fields) => v.Object? && WellShapedFields(fields, v)
    case List(fields) => v.Array? && WellShapedItems(fields, v.items)
  }

  predicate WellShapedFields(fields: seq<Field>, v: Value)
    requires v.Object?
    decreases v, 1, |fields|
  {
    fields == [] ||
    var last := fields[|fields| - 1];
    && WellShapedFields(fields[..|fields| - 1], v)
    && (last.name in v.fields ==> WellShaped(last.shape, v.fields[last.name]))
  }

  predicate WellShapedItems(fields: seq<Field>, items: seq<Value>)
    decreases items, 1, 0
  {
    items == [] ||
    (items[0].Object? && WellShapedFields(fields, items[0]) && WellShapedItems(fields, items[1..]))
  }

  /** A slot can be opened: it is null, or a string whose ciphertext opens (and then parses, if packed). */
  function OpenSlot(k: Cipher, slot: Slot): Option<Value> {
    if slot.value.Null? then Some(Null)
    else if slot.packed then OpenPacked(k, slot.value)
    else OpenText(k, slot.value)
  }

  predicate AllOpen(k: Cipher, slots: seq<Slot>) {
    forall i :: 0 <= i < |slots| ==> OpenSlot(k, slots[i]).Some?
  }

  /** Slot by slot, `plain` holds what `wire` opens to. */
  predicate OpenTo(k: Cipher, wire: seq<Slot>, plain: seq<Slot>) {
    && |wire| == |plain|
    && forall i :: 0 <= i < |wire| ==>
         wire[i].packed == plain[i].packed && OpenSlot(k, wire[i]) == Some(plain[i].value)
  }

  lemma AllOpenConcat(k: Cipher, a: seq<Slot>, b: seq<Slot>)
    ensures AllOpen(k, a + b) == (AllOpen(k, a) && AllOpen(k, b))
  {
    assert forall i :: 0 <= i < |a| ==> (a + b)[i] == a[i];
    assert forall i :: 0 <= i < |b| ==> (a + b)[|a| + i] == b[i];
  }

  lemma OpenToConcat(k: Cipher, a: seq<Slot>, b: seq<Slot>, a': seq<Slot>, b': seq<Slot>)
    requires OpenTo(k, a, a') && OpenTo(k, b, b')
    ensures OpenTo(k, a + b, a' + b')
  {
  }

  // ----- Decryption succeeds exactly when every slot opens -----

  lemma {:induction false} SucceedsExactly(k: Cipher, shape: Shape, v: Value)
    ensures Apply(k, shape, v).Some? <==> WellShaped(shape, v) && AllOpen(k, Slots(shape, v))
    decreases v, 2, 0
  {
    if !v.Null? {
      match Resolve(shape, v)
      case Text => assert AllOpen(k, Slots(shape, v)) == OpenSlot(k, Slots(shape, v)[0]).Some?;
      case Packed => assert AllOpen(k, Slots(shape, v)) == OpenSlot(k, Slots(shape, v)[0]).Some?;
      case Record(fields) => if v.Object? { FieldsSucceedExactly(k, fields, v); }
      case List(fields) => if v.Array? { ItemsSucceedExactly(k, fields, v.items); }
    }
  }

  lemma {:induction false} FieldsSucceedExactly(k: Cipher, fields: seq<Field>, v: Value)
    requires v.Object?
    ensures ApplyFields(k, fields, v).Some? <==> WellShapedFields(fields, v) && AllOpen(k, FieldSlots(fields, v))
    decreases v, 1, |fields|
  {
    if fields != [] {
      var last := fields[|fields| - 1];
      var before := fields[..|fields| - 1];
      FieldsSucceedExactly(k, before, v);
      if last.name in v.fields {
        SucceedsExactly(k, last.shape, v.fields[last.name]);
        AllOpenConcat(k, FieldSlots(before, v), Slots(last.shape, v.fields[last.name]));
      } else {
        assert FieldSlots(before, v) + [] == FieldSlots(before, v);
      }
    }
  }

  lemma {:induction false} ItemsSucceedExactly(k: Cipher, fields: seq<Field>, items: seq<Value>)
    ensures ApplyItems(k, fields, items).Some? <==> WellShapedItems(fields, items) && AllOpen(k, ItemSlots(fields, items))
    decreases items, 1, 0
  {
    if items != [] && items[0].Object? {
      FieldsSucceedExactly(k, fields, items[0]);
      ItemsSucceedExactly(k, fields, items[1..]);
      AllOpenConcat(k, FieldSlots(fields, items[0]), ItemSlots(fields, items[1..]));
    }
  }

  // ----- ... and then changes the slots, and nothing else -----

  /** A field list names each member once. */
  predicate Distinct(fields: seq<Field>) {
    forall i, j :: 0 <= i < j < |fields| ==> fields[i].name != fields[j].name
  }

  /** In every record, to any depth. */
  predicate Tidy(shape: Shape)
    decreases shape
  {
    match shape
    case Record(fields) => TidyFields(fields)
    case List(fields) => TidyFields(fields)
    case _ => true
  }

  predicate TidyFields(fields: seq<Field>)
    decreases fields
  {
    Distinct(fields) && forall i :: 0 <= i < |fields| ==> Tidy(fields[i].shape)
  }

  /** The result of opening keeps the outline and holds, slot by slot, what the ciphertexts opened to. */
  ghost predicate Opened(k: Cipher, shape: Shape, wire: Value, plain: Value) {
    && Mask(shape, plain) == Mask(shape, wire)
    && OpenTo(k, Slots(shape, wire), Slots(shape, plain))
  }

  ghost predicate OpenedFields(k: Cipher, fields: seq<Field>, wire: Value, plain: Value)
    requires wire.Object? && plain.Object?
  {
    && MaskFields(fields, plain) == MaskFields(fields, wire)
    && OpenTo(k, FieldSlots(fields, wire), FieldSlots(fields, plain))
  }

  predicate Names(fields: seq<Field>, name: string) {
    exists i :: 0 <= i < |fields| && fields[i].name == name
  }

  /** Members a field list does not name are untouched by it, and it does not look at them. */
  lemma {:induction false} Untouched(k: Cipher, fields: seq<Field>, v: Value, name: string)
    requires v.Object? && !Names(fields, name)
    ensures ApplyFields(k, fields, v).Some? && name in v.fields ==>
              ApplyFields(k, fields, v).value.fields[name] == v.fields[name]
    ensures name in v.fields ==> MaskFields(fields, v).fields[name] == v.fields[name]
    decreases |fields|
  {
    if fields != [] {
      var before := fields[..|fields| - 1];
      assert fields[|fields| - 1].name != name;
      assert forall i :: 0 <= i < |before| ==> before[i] == fields[i];
      Untouched(k, before, v, name);
    }
  }

  lemma {:induction false} NotLookedAt(fields: seq<Field>, v: Value, name: string, x: Value)
    requires v.Object? && !Names(fields, name) && name in v.fields
    ensures var v' := Object(v.fields[name := x]);
            && FieldSlots(fields, v') == FieldSlots(fields, v)
            && MaskFields(fields, v') == Object(MaskFields(fields, v).fields[name := x])
    decreases |fields|
  {
    var v' := Object(v.fields[name := x]);
    if fields != [] {
      var before := fields[..|fields| - 1];
      var last := fields[|fields| - 1];
      assert last.name != name;
      assert forall i :: 0 <= i < |before| ==> before[i] == fields[i];
      NotLookedAt(before, v, name, x);
      if last.name in v.fields {
        assert v'.fields[last.name] == v.fields[last.name];
        assert MaskFields(fields, v').fields == MaskFields(fields, v).fields[name := x];
      }
    }
  }

  lemma {:induction false} OpensExactly(k: Cipher, shape: Shape, wire: Value)
    requires Tidy(shape)
    requires Apply(k, shape, wire).Some?
    ensures Opened(k, shape, wire, Apply(k, shape, wire).value)
    decreases wire, 2, 0
  {
    var plain := Apply(k, shape, wire).value;
    if !wire.Null? {
      match Resolve(shape, wire)
      case Text => assert Resolve(shape, plain) == Text;
      case Packed =>
      case Record(fields) => FieldsOpenExactly(k, fields, wire);
      case List(fields) =>
        assert TidyFields(fields);
        ItemsOpenExactly(k, fields, wire.items);
    }
  }

  lemma {:induction false} FieldsOpenExactly(k: Cipher, fields: seq<Field>, wire: Value)
    requires wire.Object? && TidyFields(fields)
    requires ApplyFields(k, fields, wire).Some?
    ensures OpenedFields(k, fields, wire, ApplyFields(k, fields, wire).value)
    decreases wire, 1, |fields|
  {
    if fields != [] {
      var last := fields[|fields| - 1];
      var before := fields[..|fields| - 1];
      assert forall i :: 0 <= i < |before| ==> before[i] == fields[i];
      FieldsOpenExactly(k, before, wire);
      if last.name in wire.fields {
        var halfway := ApplyFields(k, before, wire).value;
        var x := Apply(k, last.shape, wire.fields[last.name]).value;
        OpensExactly(k, last.shape, wire.fields[last.name]);
        FieldOpened(k, before, last, wire, halfway, x);
        assert before + [last] == fields;
      } else {
        LastAbsent(before, last, wire);
        LastAbsent(before, last, ApplyFields(k, before, wire).value);
        assert before + [last] == fields;
      }
    }
  }

  lemma LastAbsent(before: seq<Field>, last: Field, v: Value)
    requires v.Object? && last.name !in v.fields
    ensures FieldSlots(before + [last], v) == FieldSlots(before, v)
    ensures MaskFields(before + [last], v) == MaskFields(before, v)
  {
    assert (before + [last])[..|before|] == before;
  }

  lemma LastPresent(before: seq<Field>, last: Field, v: Value)
    requires v.Object? && last.name in v.fields
    ensures FieldSlots(before + [last], v) == FieldSlots(before, v) + Slots(last.shape, v.fields[last.name])
    ensures MaskFields(before + [last], v)
            == Object(MaskFields(before, v).fields[last.name := Mask(last.shape, v.fields[last.name])])
  {
    assert (before + [last])[..|before|] == before;
  }

  lemma FieldOpened(k: Cipher, before: seq<Field>, last: Field, wire: Value, halfway: Value, x: Value)
    requires wire.Object? && halfway.Object? && wire.fields.Keys == halfway.fields.Keys
    requires last.name in wire.fields && !Names(before, last.name)
    requires OpenedFields(k, before, wire, halfway)
    requires Opened(k, last.shape, wire.fields[last.name], x)
    ensures OpenedFields(k, before + [last], wire, Object(halfway.fields[last.name := x]))
  {
    hide FieldSlots, MaskFields, Mask, Slots, OpenTo;
    var plain := Object(halfway.fields[last.name := x]);
    LastPresent(before, last, wire);
    LastPresent(before, last, plain);
    NotLookedAt(before, halfway, last.name, x);
    OpenToConcat(k, FieldSlots(before, wire), Slots(last.shape, wire.fields[last.name]),
                 FieldSlots(before, halfway), Slots(last.shape, x));
    var m := Mask(last.shape, x);
    assert MaskFields(before, halfway).fields[last.name := x][last.name := m]
        == MaskFields(before, halfway).fields[last.name := m];
  }

  lemma {:induction false} ItemsOpenExactly(k: Cipher, fields: seq<Field>, items: seq<Value>)
    requires TidyFields(fields)
    requires ApplyItems(k, fields, items).Some?
    ensures MaskItems(fields, ApplyItems(k, fields, items).value) == MaskItems(fields, items)
    ensures OpenTo(k, ItemSlots(fields, items), ItemSlots(fields, ApplyItems(k, fields, items).value))
    decreases items, 1, 0
  {
    if items != [] {
      var plain := ApplyItems(k, fields, items).value;
      FieldsOpenExactly(k, fields, items[0]);
      ItemsOpenExactly(k, fields, items[1..]);
      assert plain[1..] == ApplyItems(k, fields, items[1..]).value;
      OpenToConcat(k, FieldSlots(fields, items[0]), ItemSlots(fields, items[1..]),
                   FieldSlots(fields, plain[0]), ItemSlots(fields, plain[1..]));
    }
  }

  // ----- Decryption undoes encryption -----

  datatype Crumb = Member(name: string) | At(index: nat)

  /** An encryptor: a ciphertext may depend on where the leaf stands, so each leaf can have its own nonce. */
  datatype Sealer = Sealer(seal: (seq<Crumb>, string) -> string, write: Value -> string)

  ghost predicate Undoes(k: Cipher, e: Sealer) {
    && (forall path, s :: Decrypt(k, e.seal(path, s)) == Some(s))
    && (forall v :: k.parse(e.write(v)) == Some(v))
  }

  /** What a server does to a plain response: every protected string and every packed value is sealed. */
  function Encrypt(e: Sealer, path: seq<Crumb>, shape: Shape, v: Value): Value
    decreases v, 2, 0
  {
    if v.Null? then v
    else
      match Resolve(shape, v)
      case Text => if v.String? then String(e.seal(path, v.s)) else v
      case Packed => String(e.seal(path, e.write(v)))
      case Record(fields) => if v.Object? then EncryptFields(e, path, fields, v) else v
      case List(fields) => if v.Array? then Array(EncryptItems(e, path, fields, v.items)) else v
  }

  function EncryptFields(e: Sealer, path: seq<Crumb>, fields: seq<Field>, v: Value): (r: Value)
    requires v.Object?
    ensures r.Object? && r.fields.Keys == v.fields.Keys
    decreases v, 1, |fields|
  {
    if fields == [] then v
    else
      var last := fields[|fields| - 1];
      var before := EncryptFields(e, path, fields[..|fields| - 1], v);
      if last.name !in v.fields then before
      else
        Object(before.fields[last.name := Encrypt(e, path + [Member(last.name)], last.shape, v.fields[last.name])])
  }

  function EncryptItems(e: Sealer, path: seq<Crumb>, fields: seq<Field>, items: seq<Value>): seq<Value>
    decreases items, 1, 0
  {
    if items == [] then []
    else
      [if items[0].Object? then EncryptFields(e, path + [At(|items|)], fields, items[0]) else items[0]]
      + EncryptItems(e, path, fields, items[1..])
  }

  /** In a plain response a protected position holds a string or null, and a packed one anything. */
  predicate AllPlain(slots: seq<Slot>) {
    forall i :: 0 <= i < |slots| ==> slots[i].packed || slots[i].value.Null? || slots[i].value.String?
  }

  lemma AllPlainConcat(a: seq<Slot>, b: seq<Slot>)
    ensures AllPlain(a + b) == (AllPlain(a) && AllPlain(b))
  {
    assert forall i :: 0 <= i < |a| ==> (a + b)[i] == a[i];
    assert forall i :: 0 <= i < |b| ==> (a + b)[|a| + i] == b[i];
  }

  lemma {:induction false} ApplyNotLookedAt(k: Cipher, fields: seq<Field>, v: Value, name: string, x: Value)
    requires v.Object? && !Names(fields, name) && name in v.fields
    ensures ApplyFields(k, fields, Object(v.fields[name := x])) ==
            match ApplyFields(k, fields, v)
            case None => None
            case Some(r) => Some(Object(r.fields[name := x]))
    decreases |fields|
  {
    var v' := Object(v.fields[name := x]);
    if fields != [] {
      var before := fields[..|fields| - 1];
      var last := fields[|fields| - 1];
      assert last.name != name;
      assert forall i :: 0 <= i < |before| ==> before[i] == fields[i];
      ApplyNotLookedAt(k, before, v, name, x);
      if last.name in v.fields && ApplyFields(k, before, v).Some? && Apply(k, last.shape, v.fields[last.name]).Some? {
        var r := ApplyFields(k, before, v).value;
        var y := Apply(k, last.shape, v.fields[last.name]).value;
        assert r.fields[name := x][last.name := y] == r.fields[last.name := y][name := x];
      }
    }
  }

  /** Decryption returns every plain response, of any size and depth, from any of its encryptions. */
  lemma {:induction false} DecryptUndoesEncrypt(k: Cipher, e: Sealer, path: seq<Crumb>, shape: Shape, v: Value)
    requires Undoes(k, e) && Tidy(shape)
    requires WellShaped(shape, v) && AllPlain(Slots(shape, v))
    ensures Apply(k, shape, Encrypt(e, path, shape, v)) == Some(v)
    decreases v, 2, 0
  {
    if !v.Null? {
      match Resolve(shape, v)
      case Text => assert Slots(shape, v)[0].value == v;
      case Packed =>
      case Record(fields) => FieldsUndone(k, e, path, fields, v);
      case List(fields) =>
        assert TidyFields(fields);
        ItemsUndone(k, e, path, fields, v.items);
    }
  }

  lemma {:induction false} FieldsUndone(k: Cipher, e: Sealer, path: seq<Crumb>, fields: seq<Field>, v: Value)
    requires Undoes(k, e) && TidyFields(fields)
    requires v.Object? && WellShapedFields(fields, v) && AllPlain(FieldSlots(fields, v))
    ensures ApplyFields(k, fields, EncryptFields(e, path, fields, v)) == Some(v)
    decreases v, 1, |fields|
  {
    if fields != [] {
      var before := fields[..|fields| - 1];
      var last := fields[|fields| - 1];
      assert forall i :: 0 <= i < |before| ==> before[i] == fields[i];
      var name := last.name;
      var halfway := EncryptFields(e, path, before, v);
      if name in v.fields {
        AllPlainConcat(FieldSlots(before, v), Slots(last.shape, v.fields[name]));
        FieldsUndone(k, e, path, before, v);
        DecryptUndoesEncrypt(k, e, path + [Member(name)], last.shape, v.fields[name]);
        assert !Names(before, name);
        var x := Encrypt(e, path + [Member(name)], last.shape, v.fields[name]);
        ApplyNotLookedAt(k, before, halfway, name, x);
        assert v.fields[name := x][name := v.fields[name]] == v.fields;
      } else {
        assert FieldSlots(before, v) + [] == FieldSlots(before, v);
        FieldsUndone(k, e, path, before, v);
      }
    }
  }

  lemma {:induction false} ItemsUndone(k: Cipher, e: Sealer, path: seq<Crumb>, fields: seq<Field>, items: seq<Value>)
    requires Undoes(k, e) && TidyFields(fields)
    requires WellShapedItems(fields, items) && AllPlain(ItemSlots(fields, items))
    ensures ApplyItems(k, fields, EncryptItems(e, path, fields, items)) == Some(items)
    decreases items, 1, 0
  {
    if items != [] {
      AllPlainConcat(FieldSlots(fields, items[0]), ItemSlots(fields, items[1..]));
      FieldsUndone(k, e, path + [At(|items|)], fields, items[0]);
      ItemsUndone(k, e, path, fields, items[1..]);
      assert EncryptItems(e, path, fields, items)[1..] == EncryptItems(e, path, fields, items[1..]);
      assert [items[0]] + items[1..] == items;
    }
  }

  /** The schema of a Chat response names each member of each object once. */
  lemma BodyIsTidy(streaming: bool)
    ensures TidyFields(Body(streaming))
  {
    hide Message;
    MessageIsTidy(streaming);
    assert TidyFields(LOGPROBS);
    assert TidyFields(Choice(streaming));
  }

  lemma MessageIsTidy(streaming: bool)
    ensures TidyFields(Message(streaming))
  {
    assert TidyFields(PART) && TidyFields(FUNCTION);
    assert TidyFields(CALL);
    assert TidyFields([Field("data", Text)]) && TidyFields([Field("output", Text)]);
  }

  /** So a Chat response comes back whole from whatever encrypted it, with any number of choices and any depth of logprobs. */
  lemma ResponseRoundTrip(k: Cipher, e: Sealer, body: Value, streaming: bool)
    requires Undoes(k, e)
    requires body.Object? && WellShapedFields(Body(streaming), body) && AllPlain(FieldSlots(Body(streaming), body))
    ensures ApplyFields(k, Body(streaming), EncryptFields(e, [], Body(streaming), body)) == Some(body)
  {
    BodyIsTidy(streaming);
    FieldsUndone(k, e, [], Body(streaming), body);
  }
}
