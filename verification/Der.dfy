/**
 * The recursive search for an object identifier in the Intel SGX certificate extension
 * (go/internal/dcap/pck.go:60-177), over the definite-length encoding of X.690 sections 8.1 and
 * 10.1.
 */
module Der {
  import opened Bytes
  import opened Octets
  import opened Wrappers

  const SEQUENCE: byte := 0x30
  const OID: byte := 0x06

  // ----- Lengths -----

  datatype Sized = Sized(length: nat, octets: nat)

  /** A length and how many octets spell it. Indefinite lengths and those over four octets are refused. */
  function Length(data: bytes): (r: Option<Sized>)
    ensures r.Some? ==> 1 <= r.value.octets <= |data|
  {
    if data == [] then None
    else if data[0] < 0x80 then Some(Sized(data[0], 1))
    else
      var octets := data[0] - 0x80;
      if octets == 0 || octets > 4 || |data| < 1 + octets then None
      else Some(Sized(FromBigEndian(data[1..1 + octets]), 1 + octets))
  }

  /** One octet below 0x80, or one that announces one to four octets in network order, and these; nothing else. */
  lemma LengthMeans(data: bytes, n: nat, k: nat)
    ensures Length(data) == Some(Sized(n, k)) <==>
            || (k == 1 && |data| >= 1 && data[0] == n < 0x80)
            || (2 <= k <= 5 && |data| >= k && data[0] == 0x7f + k && FromBigEndian(data[1..k]) == n)
  {
  }

  method ParseLength(data: bytes) returns (r: Option<Sized>)
    ensures r == Length(data)
  {
    if |data| == 0 {
      return None;
    }
    if data[0] < 0x80 {
      return Some(Sized(data[0], 1));
    }
    var octets := data[0] % 0x80;
    assert octets == data[0] - 0x80;
    if octets == 0 || octets > 4 {
      return None;
    }
    if |data| < 1 + octets {
      return None;
    }
    var length: nat := 0;
    for i := 0 to octets
      invariant length == FromBigEndian(data[1..1 + i])
    {
      length := length * 256 + data[1 + i];
      assert data[1..2 + i][..i] == data[1..1 + i];
    }
    r := Some(Sized(length, 1 + octets));
  }

  // ----- Elements -----

  /** An element's tag and contents. */
  datatype Element = Element(tag: byte, contents: bytes)

  datatype Parsed = Parsed(element: Element, consumed: nat)

  /** The first element of some bytes, and how many of them it takes. */
  function First(data: bytes): (r: Option<Parsed>)
    ensures r.Some? ==> 2 + |r.value.element.contents| <= r.value.consumed <= |data|
  {
    if |data| < 2 then None
    else
      match Length(data[1..])
      case None => None
      case Some(size) =>
        var header := 1 + size.octets;
        if |data| < header + size.length then None
        else Some(Parsed(Element(data[0], data[header..header + size.length]), header + size.length))
  }

  method ParseElement(data: bytes) returns (r: Option<Parsed>)
    ensures r == First(data)
  {
    if |data| < 2 {
      return None;
    }
    var tag := data[0];
    var size := ParseLength(data[1..]);
    if size.None? {
      return None;
    }
    var Sized(length, octets) := size.value;
    var header := 1 + octets;
    if |data| < header + length {
      return None;
    }
    r := Some(Parsed(Element(tag, data[header..header + length]), header + length));
  }

  /** All the elements of some bytes, if they are nothing but elements. */
  function Children(data: bytes): (r: Option<seq<Element>>)
    ensures r.Some? ==> Size(r.value) <= |data|
    decreases |data|
  {
    if data == [] then Some([])
    else
      match First(data)
      case None => None
      case Some(first) =>
        match Children(data[first.consumed..])
        case None => None
        case Some(rest) => Some([first.element] + rest)
  }

  /** At least what the elements take when encoded. */
  function Size(elements: seq<Element>): nat {
    if elements == [] then 0 else 2 + |elements[0].contents| + Size(elements[1..])
  }

  method ParseChildren(data: bytes) returns (r: Option<seq<Element>>)
    ensures r == Children(data)
  {
    var children: seq<Element> := [];
    var offset := 0;
    Whole(data);
    while offset < |data|
      invariant 0 <= offset <= |data|
      invariant Children(data) == Prepended(children, Children(data[offset..]))
    {
      hide First;
      var first := ParseElement(data[offset..]);
      if first.None? {
        return None;
      }
      var Parsed(e, consumed) := first.value;
      DropDrop(data, offset, consumed);
      PrependedTwice(children, e, Children(data[offset + consumed..]));
      children := children + [e];
      offset := offset + consumed;
    }
    assert children + [] == children;
    r := Some(children);
  }

  function Prepended(before: seq<Element>, rest: Option<seq<Element>>): Option<seq<Element>> {
    match rest
    case None => None
    case Some(elements) => Some(before + elements)
  }

  lemma Whole(data: bytes)
    ensures Children(data) == Prepended([], Children(data[0..]))
  {
    assert data[0..] == data;
    if Children(data).Some? {
      assert [] + Children(data).value == Children(data).value;
    }
  }

  lemma PrependedTwice(before: seq<Element>, e: Element, rest: Option<seq<Element>>)
    ensures Prepended(before, Prepended([e], rest)) == Prepended(before + [e], rest)
  {
    if rest.Some? {
      Assoc(before, [e], rest.value);
    }
  }

  lemma DropDrop(data: bytes, a: nat, b: nat)
    requires a + b <= |data|
    ensures data[a..][b..] == data[a + b..]
  {
  }

  // ----- The search -----

  /** The contents of an element are searched if they are elements. */
  function Search(oid: bytes, contents: bytes): Option<bytes>
    decreases |contents|, 1
  {
    match Children(contents)
    case None => None
    case Some(children) => SearchAmong(oid, children)
  }

  function SearchAmong(oid: bytes, children: seq<Element>): Option<bytes>
    decreases Size(children), 0
  {
    if children == [] then None
    else
      match Answer(oid, children[0])
      case Found(value) => Some(value)
      case Deeper(contents) =>
        var found := Search(oid, contents);
        if found.Some? then found else SearchAmong(oid, children[1..])
      case Nothing => SearchAmong(oid, children[1..])
  }

  /** What one child says: it names the identifier, it holds a sequence to look into, or neither. */
  datatype Verdict = Found(value: bytes) | Deeper(contents: bytes) | Nothing

  function Answer(oid: bytes, child: Element): (r: Verdict)
    ensures r.Deeper? ==> |r.contents| < |child.contents|
  {
    if child.tag != SEQUENCE then Nothing
    else
      match Children(child.contents)
      case None => Nothing
      case Some(entry) =>
        if |entry| < 2 then Nothing
        else if entry[0] == Element(OID, oid) then Found(entry[1].contents)
        else if entry[1].tag == SEQUENCE then
          assert Size(entry) == 2 + |entry[0].contents| + Size(entry[1..]);
          Deeper(entry[1].contents)
        else Nothing
  }

  /** `findInSequenceValue`. It ends on every input, since what it looks into is always shorter. */
  method FindInSequenceValue(oid: bytes, contents: bytes) returns (r: Option<bytes>)
    ensures r == Search(oid, contents)
    decreases |contents|
  {
    var children := ParseChildren(contents);
    if children.None? {
      return None;
    }
    for i := 0 to |children.value|
      invariant Search(oid, contents) == SearchAmong(oid, children.value[i..])
      invariant Size(children.value[i..]) <= |contents|
    {
      var child := children.value[i];
      assert children.value[i..][1..] == children.value[i + 1..];
      if child.tag != SEQUENCE {
        continue;
      }
      var entry := ParseChildren(child.contents);
      if entry.None? || |entry.value| < 2 {
        continue;
      }
      var name, value := entry.value[0], entry.value[1];
      if name.tag == OID && name.contents == oid {
        return Some(value.contents);
      }
      if value.tag == SEQUENCE {
        assert Answer(oid, child) == Deeper(value.contents);
        var found := FindInSequenceValue(oid, value.contents);
        if found.Some? {
          return found;
        }
      }
    }
    r := None;
  }

  method FindRecursive(oid: bytes, data: bytes) returns (r: Option<bytes>)
    ensures r == match First(data)
                 case None => None
                 case Some(outer) =>
                   if outer.element.tag == SEQUENCE then Search(oid, outer.element.contents) else None
  {
    var outer := ParseElement(data);
    if outer.None? || outer.value.element.tag != SEQUENCE {
      return None;
    }
    r := FindInSequenceValue(oid, outer.value.element.contents);
  }

  // ----- Encoding -----

  /** The shortest definite form (X.690 section 10.1). */
  function EncodeLength(n: nat): bytes
    requires n < 0x1_0000_0000
  {
    if n < 0x80 then [n]
    else if n < 0x100 then [0x81] + BigEndian(n, 1)
    else if n < 0x1_0000 then [0x82] + BigEndian(n, 2)
    else if n < 0x100_0000 then [0x83] + BigEndian(n, 3)
    else [0x84] + BigEndian(n, 4)
  }

  lemma LengthRoundTrip(n: nat, rest: bytes)
    requires n < 0x1_0000_0000
    ensures Length(EncodeLength(n) + rest) == Some(Sized(n, |EncodeLength(n)|))
  {
    if n >= 0x80 {
      var octets := if n < 0x100 then 1 else if n < 0x1_0000 then 2 else if n < 0x100_0000 then 3 else 4;
      assert Pow256(1) == 0x100 && Pow256(2) == 0x1_0000 && Pow256(3) == 0x100_0000 && Pow256(4) == 0x1_0000_0000;
      BigEndianRoundTrip(n, octets);
      assert (EncodeLength(n) + rest)[1..1 + octets] == BigEndian(n, octets);
    }
  }

  function Encode(e: Element): bytes
    requires |e.contents| < 0x1_0000_0000
  {
    [e.tag] + EncodeLength(|e.contents|) + e.contents
  }

  /** An encoded element parses back to itself and is consumed exactly, whatever follows it. */
  lemma ElementRoundTrip(e: Element, rest: bytes)
    requires |e.contents| < 0x1_0000_0000
    ensures First(Encode(e) + rest) == Some(Parsed(e, |Encode(e)|))
  {
    hide EncodeLength, Length;
    var length := EncodeLength(|e.contents|);
    var data := Encode(e) + rest;
    LengthRoundTrip(|e.contents|, e.contents + rest);
    LengthNotEmpty(|e.contents|);
    assert data[1..] == length + (e.contents + rest);
    assert data[1 + |length|..1 + |length| + |e.contents|] == e.contents;
  }

  lemma LengthNotEmpty(n: nat)
    requires n < 0x1_0000_0000
    ensures EncodeLength(n) != []
  {
  }

  predicate AllFit(elements: seq<Element>) {
    forall i :: 0 <= i < |elements| ==> |elements[i].contents| < 0x1_0000_0000
  }

  function EncodeAll(elements: seq<Element>): bytes
    requires AllFit(elements)
  {
    if elements == [] then [] else Encode(elements[0]) + EncodeAll(elements[1..])
  }

  lemma {:induction false} ChildrenRoundTrip(elements: seq<Element>)
    requires AllFit(elements)
    ensures Children(EncodeAll(elements)) == Some(elements)
  {
    if elements != [] {
      var rest := EncodeAll(elements[1..]);
      ElementRoundTrip(elements[0], rest);
      ChildrenRoundTrip(elements[1..]);
      assert EncodeAll(elements)[|Encode(elements[0])|..] == rest;
      assert [elements[0]] + elements[1..] == elements;
    }
  }

  // ----- Trees of named values -----

  /** The extension: named values, some of which are again sequences of named values. */
  datatype Tree = Leaf(element: Element) | Branch(entries: seq<Entry>)
  datatype Entry = Entry(oid: bytes, value: Tree)

  /** Leaves are anything but sequences. */
  predicate Proper(entries: seq<Entry>) {
    forall i :: 0 <= i < |entries| ==> ProperTree(entries[i].value)
  }

  predicate ProperTree(t: Tree) {
    match t
    case Leaf(e) => e.tag != SEQUENCE
    case Branch(entries) => Proper(entries)
  }

  function TreeBytes(t: Tree): bytes
    decreases t, 0
  {
    match t
    case Leaf(e) => e.contents
    case Branch(entries) => EntriesBytes(entries)
  }

  function TreeElement(t: Tree): Element
    decreases t, 1
  {
    Element(if t.Leaf? then t.element.tag else SEQUENCE, TreeBytes(t))
  }

  /** What the encoder of one entry wraps: its name, then its value. Oversized parts have no encoding. */
  function EntryBytes(e: Entry): bytes {
    var parts := [Element(OID, e.oid), TreeElement(e.value)];
    if AllFit(parts) then EncodeAll(parts) else []
  }

  function EntriesBytes(entries: seq<Entry>): bytes {
    if entries == [] then []
    else
      var first := Element(SEQUENCE, EntryBytes(entries[0]));
      (if |first.contents| < 0x1_0000_0000 then Encode(first) else []) + EntriesBytes(entries[1..])
  }

  /** Every part of the tree is short enough for a four-octet length. */
  predicate Fits(entries: seq<Entry>) {
    forall i :: 0 <= i < |entries| ==> EntryFits(entries[i])
  }

  predicate EntryFits(e: Entry) {
    && |e.oid| < 0x1_0000_0000
    && |TreeBytes(e.value)| < 0x1_0000_0000
    && |EntryBytes(e)| < 0x1_0000_0000
    && (e.value.Branch? ==> Fits(e.value.entries))
  }

  /** The first entry with a name, in preorder: an entry before what it holds, and that before the next entry. */
  function FirstNamed(entries: seq<Entry>, oid: bytes): Option<bytes> {
    if entries == [] then None
    else if entries[0].oid == oid then Some(TreeBytes(entries[0].value))
    else
      match FirstBelow(entries[0].value, oid)
      case Some(value) => Some(value)
      case None => FirstNamed(entries[1..], oid)
  }

  function FirstBelow(t: Tree, oid: bytes): Option<bytes> {
    match t
    case Leaf(_) => None
    case Branch(entries) => FirstNamed(entries, oid)
  }

  function Elements(entries: seq<Entry>): seq<Element> {
    if entries == [] then [] else [Element(SEQUENCE, EntryBytes(entries[0]))] + Elements(entries[1..])
  }

  lemma {:induction false} EntriesChildren(entries: seq<Entry>)
    requires Fits(entries)
    ensures AllFit(Elements(entries)) && EntriesBytes(entries) == EncodeAll(Elements(entries))
    ensures Children(EntriesBytes(entries)) == Some(Elements(entries))
  {
    if entries != [] {
      assert EntryFits(entries[0]);
      EntriesChildren(entries[1..]);
      assert Elements(entries)[1..] == Elements(entries[1..]);
    }
    ChildrenRoundTrip(Elements(entries));
  }

  lemma EntryAnswer(e: Entry, oid: bytes)
    requires EntryFits(e)
    ensures Answer(oid, Element(SEQUENCE, EntryBytes(e))) ==
            if e.oid == oid then Found(TreeBytes(e.value))
            else if TreeElement(e.value).tag == SEQUENCE then Deeper(TreeBytes(e.value))
            else Nothing
  {
    var parts := [Element(OID, e.oid), TreeElement(e.value)];
    assert AllFit(parts);
    ChildrenRoundTrip(parts);
  }

  /** The search of an encoded tree finds the value of the first entry so named, in preorder, or nothing. */
  lemma {:induction false} SearchFindsFirst(entries: seq<Entry>, oid: bytes)
    requires Proper(entries) && Fits(entries)
    ensures Search(oid, EntriesBytes(entries)) == FirstNamed(entries, oid)
    decreases entries, 1
  {
    EntriesChildren(entries);
    AmongFindsFirst(entries, oid);
  }

  lemma {:induction false} AmongFindsFirst(entries: seq<Entry>, oid: bytes)
    requires Proper(entries) && Fits(entries)
    ensures SearchAmong(oid, Elements(entries)) == FirstNamed(entries, oid)
    decreases entries, 0
  {
    if entries != [] {
      var first := entries[0];
      assert EntryFits(first) && ProperTree(first.value);
      EntryAnswer(first, oid);
      AmongFindsFirst(entries[1..], oid);
      assert Elements(entries)[1..] == Elements(entries[1..]);
      if first.oid != oid && first.value.Branch? {
        SearchFindsFirst(first.value.entries, oid);
      }
    }
  }

  /** And so does the whole of `findRecursive`, whatever follows the extension's outer sequence. */
  lemma ExtensionLookup(entries: seq<Entry>, oid: bytes, trailing: bytes)
    requires Proper(entries) && Fits(entries) && |EntriesBytes(entries)| < 0x1_0000_0000
    ensures var data := Encode(Element(SEQUENCE, EntriesBytes(entries))) + trailing;
            match First(data)
            case None => false
            case Some(outer) =>
              outer.element.tag == SEQUENCE && Search(oid, outer.element.contents) == FirstNamed(entries, oid)
  {
    ElementRoundTrip(Element(SEQUENCE, EntriesBytes(entries)), trailing);
    SearchFindsFirst(entries, oid);
  }

  // ----- On any bytes at all -----

  /** Somewhere in `data` stands the identifier, and right after it an element with these contents. */
  ghost predicate NamedIn(data: bytes, oid: bytes, value: bytes) {
    exists i :: NamedAt(data, oid, value, i)
  }

  ghost predicate NamedAt(data: bytes, oid: bytes, value: bytes, i: int) {
    && 0 <= i <= |data|
    && First(data[i..]).Some?
    && First(data[i..]).value.element == Element(OID, oid)
    && var next := i + First(data[i..]).value.consumed;
       First(data[next..]).Some? && First(data[next..]).value.element.contents == value
  }

  /** Where an element of a run of elements stands. */
  lemma {:induction false} ChildStands(data: bytes, k: nat) returns (at: nat)
    requires Children(data).Some? && k < |Children(data).value|
    ensures at < |data| && First(data[at..]).Some? && First(data[at..]).value.element == Children(data).value[k]
    ensures k + 1 < |Children(data).value| ==>
              var next := at + First(data[at..]).value.consumed;
              First(data[next..]).Some? && First(data[next..]).value.element == Children(data).value[k + 1]
    decreases |data|
  {
    hide First;
    var consumed := First(data).value.consumed;
    var rest := data[consumed..];
    assert data[0..] == data;
    assert Children(data).value == [First(data).value.element] + Children(rest).value;
    if k == 0 {
      at := 0;
    } else {
      var inner := ChildStands(rest, k - 1);
      at := consumed + inner;
      DropDrop(data, consumed, inner);
      if k + 1 < |Children(data).value| {
        DropDrop(data, consumed, inner + First(data[at..]).value.consumed);
      }
    }
  }

  /** The contents of an element are a slice of the bytes it was read from. */
  lemma ContentsAreASlice(data: bytes, at: nat) returns (from: nat)
    requires at < |data| && First(data[at..]).Some?
    ensures var e := First(data[at..]).value.element;
            at <= from && from + |e.contents| <= |data| && e.contents == data[from..from + |e.contents|]
  {
    var rest := data[at..];
    var Sized(length, octets) := Length(rest[1..]).value;
    from := at + 1 + octets;
    assert rest[1 + octets..1 + octets + length] == data[from..from + length];
  }

  /** An element read within a slice reads the same where the slice came from. */
  lemma FirstExtends(data: bytes, rest: bytes)
    requires First(data).Some?
    ensures First(data + rest) == First(data)
  {
    var more := data + rest;
    assert more[1..] == data[1..] + rest;
    LengthExtends(data[1..], rest);
    var Sized(length, octets) := Length(data[1..]).value;
    assert more[1 + octets..1 + octets + length] == data[1 + octets..1 + octets + length];
  }

  lemma LengthExtends(data: bytes, rest: bytes)
    requires Length(data).Some?
    ensures Length(data + rest) == Length(data)
  {
    if data[0] >= 0x80 {
      var octets := data[0] - 0x80;
      assert (data + rest)[1..1 + octets] == data[1..1 + octets];
    }
  }

  lemma ReadsAlike(data: bytes, from: nat, to: nat, i: nat)
    requires from <= to <= |data| && i <= to - from
    requires First(data[from..to][i..]).Some?
    ensures First(data[from + i..]) == First(data[from..to][i..])
  {
    FirstExtends(data[from..to][i..], data[to..]);
    assert data[from..to][i..] + data[to..] == data[from + i..];
  }

  lemma NamedInSlice(data: bytes, from: nat, to: nat, oid: bytes, value: bytes)
    requires from <= to <= |data|
    requires NamedIn(data[from..to], oid, value)
    ensures NamedIn(data, oid, value)
  {
    hide First;
    var inner := data[from..to];
    var i :| NamedAt(inner, oid, value, i);
    ReadsAlike(data, from, to, i);
    ReadsAlike(data, from, to, i + First(inner[i..]).value.consumed);
    assert NamedAt(data, oid, value, from + i);
  }

  /** Whatever the search returns, on any bytes, stands in them right after the identifier asked for. */
  lemma {:induction false} FoundIsNamed(oid: bytes, contents: bytes)
    requires Search(oid, contents).Some?
    ensures NamedIn(contents, oid, Search(oid, contents).value)
    decreases |contents|, 1, 0
  {
    hide NamedIn;
    var children := Children(contents).value;
    assert children[0..] == children;
    AmongIsNamed(oid, contents, children, 0);
  }

  lemma {:induction false} AmongIsNamed(oid: bytes, contents: bytes, children: seq<Element>, k: nat)
    requires Children(contents) == Some(children) && k <= |children|
    requires SearchAmong(oid, children[k..]).Some?
    ensures NamedIn(contents, oid, SearchAmong(oid, children[k..]).value)
    decreases |contents|, 0, |children| - k
  {
    hide NamedIn, Answer;
    var child := children[k];
    var rest := children[k..];
    assert rest[1..] == children[k + 1..];
    var at := ChildStands(contents, k);
    var from := ContentsAreASlice(contents, at);
    match Answer(oid, child)
    case Found(value) =>
      EntryIsNamed(oid, child, value);
      NamedInSlice(contents, from, from + |child.contents|, oid, value);
    case Nothing =>
      AmongIsNamed(oid, contents, children, k + 1);
    case Deeper(inner) =>
      if Search(oid, inner).Some? {
        FoundIsNamed(oid, inner);
        DeeperIsWithin(oid, child, inner, Search(oid, inner).value);
        NamedInSlice(contents, from, from + |child.contents|, oid, Search(oid, inner).value);
      } else {
        AmongIsNamed(oid, contents, children, k + 1);
      }
  }

  lemma EntryIsNamed(oid: bytes, child: Element, value: bytes)
    requires Answer(oid, child) == Found(value)
    ensures NamedIn(child.contents, oid, value)
  {
    hide First;
    var at := ChildStands(child.contents, 0);
    assert NamedAt(child.contents, oid, value, at);
  }

  lemma DeeperIsWithin(oid: bytes, child: Element, inner: bytes, value: bytes)
    requires Answer(oid, child) == Deeper(inner)
    requires NamedIn(inner, oid, value)
    ensures NamedIn(child.contents, oid, value)
  {
    hide First, NamedIn;
    var at := ChildStands(child.contents, 1);
    var from := ContentsAreASlice(child.contents, at);
    NamedInSlice(child.contents, from, from + |inner|, oid, value);
  }
}
