/** Byte strings and the two facts about them that every other module uses. */
module Bytes {
  type byte = x: int | 0 <= x < 0x100

  type bytes = seq<byte>

  const CR: byte := 13
  const LF: byte := 10

  function Flatten(parts: seq<bytes>): bytes {
    if parts == [] then [] else parts[0] + Flatten(parts[1..])
  }

  lemma Assoc<T>(a: seq<T>, b: seq<T>, c: seq<T>)
    ensures (a + b) + c == a + (b + c)
  {
  }

  lemma SplitLast<T>(s: seq<T>)
    requires s != []
    ensures s == s[..|s| - 1] + [s[|s| - 1]]
  {
  }

  lemma SliceSplit<T>(s: seq<T>, a: nat, b: nat, c: nat)
    requires a <= b <= c <= |s|
    ensures s[a..c] == s[a..b] + s[b..c]
  {
  }

  lemma {:induction false} FlattenConcat(left: seq<bytes>, right: seq<bytes>)
    ensures Flatten(left + right) == Flatten(left) + Flatten(right)
  {
    if left == [] {
      assert left + right == right;
    } else {
      FlattenConcat(left[1..], right);
      assert (left + right)[1..] == left[1..] + right;
      Assoc(left[0], Flatten(left[1..]), Flatten(right));
    }
  }

  lemma FlattenSnoc(left: seq<bytes>, last: bytes)
    ensures Flatten(left + [last]) == Flatten(left) + last
  {
    FlattenConcat(left, [last]);
    assert Flatten([last]) == last + Flatten([last][1..]) == last;
  }
}
