/** Hexadecimal digits. */
module Hex {
  import opened Wrappers

  function Nibble(c: char): (r: Option<nat>)
    ensures r.Some? ==> r.value < 16
  {
    if '0' <= c <= '9' then Some(c as nat - '0' as nat)
    else if 'a' <= c <= 'f' then Some(c as nat - 'a' as nat + 10)
    else if 'A' <= c <= 'F' then Some(c as nat - 'A' as nat + 10)
    else None
  }

  /** A digit as both SDKs print it. */
  function Digit(n: nat): char
    requires n < 16
  {
    if n < 10 then '0' + n as char else 'a' + (n - 10) as char
  }

  lemma DigitRoundTrip(n: nat)
    requires n < 16
    ensures Nibble(Digit(n)) == Some(n)
  {
  }
}
