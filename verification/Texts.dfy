/** Numbers and bytes as text. */
module Texts {
  import opened Basics

  function Decimal(n: nat): string {
    if n < 10 then [('0' as nat + n) as char] else Decimal(n / 10) + [('0' as nat + n % 10) as char]
  }

  function HexDigit(n: nat): char
    requires n < 16
  {
    "0123456789abcdef"[n]
  }

  function Nibble(c: char): (r: Option<nat>)
    ensures r.Some? ==> r.value < 16
  {
    if '0' <= c <= '9' then Some(c as nat - '0' as nat)
    else if 'a' <= c <= 'f' then Some(c as nat - 'a' as nat + 10)
    else if 'A' <= c <= 'F' then Some(c as nat - 'A' as nat + 10)
    else None
  }

  function HexByte(b: Byte): (r: string)
    ensures |r| == 2
  {
    [HexDigit(b as nat / 16), HexDigit(b as nat % 16)]
  }

  function Hex(d: seq<Byte>): string {
    if d == [] then "" else Hex(d[..|d| - 1]) + HexByte(d[|d| - 1])
  }

  function Joined(hi: nat, lo: nat): Byte
    requires hi < 16 && lo < 16
  {
    (16 * hi + lo) as Byte
  }

  lemma ByteRoundTrip(b: Byte)
    ensures Nibble(HexByte(b)[0]) == Some(b as nat / 16) && Nibble(HexByte(b)[1]) == Some(b as nat % 16)
    ensures Joined(b as nat / 16, b as nat % 16) == b
  {
  }

  const LOWER_DIGITS: string := "0123456789abcdef"
  const UPPER_DIGITS: string := "0123456789ABCDEF"

  /** A hex digit is worth its place among the sixteen, in either case; nothing else is a digit. */
  lemma NibbleIs(c: char, n: nat)
    ensures Nibble(c) == Some(n) <==> n < 16 && (c == LOWER_DIGITS[n] || c == UPPER_DIGITS[n])
  {
  }
}
