/** The 16-byte integrity digest: two interleaved 64-bit multiply-xor lanes, and its hex text. */
module Digest {
  import opened Basics
  import opened Texts

  const TWO64: nat := 0x1_0000_0000_0000_0000
  const PRIME: nat := 0x100000001b3

  type Word = n: nat | n < TWO64

  const SEED_A: Word := 0xcbf29ce484222325
  const SEED_B: Word := 0x84222325cbf29ce4

  /** Bitwise exclusive or of the `width` low bits. */
  function Xor(a: nat, b: nat, width: nat): nat {
    if width == 0 then 0 else (a + b) % 2 + 2 * Xor(a / 2, b / 2, width - 1)
  }

  function Pow2(n: nat): nat {
    if n == 0 then 1 else 2 * Pow2(n - 1)
  }

  lemma LowBit(bit: nat, rest: nat)
    requires bit < 2
    ensures (bit + 2 * rest) % 2 == bit && (bit + 2 * rest) / 2 == rest
  {
  }

  lemma {:induction false} XorStep(a: nat, b: nat, width: nat)
    requires width > 0
    ensures Xor(a, b, width) % 2 == (a + b) % 2 && Xor(a, b, width) / 2 == Xor(a / 2, b / 2, width - 1)
  {
    LowBit((a + b) % 2, Xor(a / 2, b / 2, width - 1));
  }

  lemma Halved(a: nat, b: nat, x: nat, y: nat)
    requires x % 2 == (a + b) % 2 && y % 2 == (x + b) % 2 && y / 2 == a / 2
    ensures y == a
  {
  }

  lemma {:induction false} XorInverts(a: nat, b: nat, width: nat)
    requires a < Pow2(width)
    ensures Xor(a, b, width) < Pow2(width) && Xor(Xor(a, b, width), b, width) == a
  {
    if width > 0 {
      hide Xor;
      XorInverts(a / 2, b / 2, width - 1);
      var x := Xor(a, b, width);
      XorStep(a, b, width);
      XorStep(x, b, width);
      Halved(a, b, x, Xor(x, b, width));
    }
  }

  lemma {:induction false} XorCommutes(a: nat, b: nat, width: nat)
    ensures Xor(a, b, width) == Xor(b, a, width)
  {
    if width > 0 {
      XorCommutes(a / 2, b / 2, width - 1);
    }
  }

  lemma EightBits()
    ensures Pow2(8) == 256
  {
    assert Pow2(4) == 16;
  }

  function XorLow(n: nat, b: Byte): (r: nat)
    requires n < 256
    ensures r < 256
  {
    EightBits();
    XorInverts(n, b as nat, 8);
    Xor(n, b as nat, 8)
  }

  /** Exclusive or with a byte, which reaches the low eight bits only. */
  function XorByte(h: Word, b: Byte): Word {
    h / 256 * 256 + XorLow(h % 256, b)
  }

  /** Multiplication by the lane's prime, wrapping at 64 bits. */
  function Scale(h: Word): Word {
    h * PRIME % TWO64
  }

  /** One byte into one lane. */
  function Mix(h: Word, b: Byte): Word {
    Scale(XorByte(h, b))
  }

  function Lane(seed: Word, s: seq<Byte>): Word {
    if s == [] then seed else Mix(Lane(seed, s[..|s| - 1]), s[|s| - 1])
  }

  function Evens(s: seq<Byte>): seq<Byte> {
    seq((|s| + 1) / 2, k requires 0 <= k < (|s| + 1) / 2 => s[2 * k])
  }

  function Odds(s: seq<Byte>): seq<Byte> {
    seq(|s| / 2, k requires 0 <= k < |s| / 2 => s[2 * k + 1])
  }

  /** The `n` low bytes, least significant first. */
  function LowBytes(x: nat, n: nat): (r: seq<Byte>)
    ensures |r| == n
  {
    if n == 0 then [] else [(x % 256) as Byte] + LowBytes(x / 256, n - 1)
  }

  function LittleEndian(x: Word): (r: seq<Byte>)
    ensures |r| == 8
  {
    LowBytes(x, 8)
  }

  /** Bytes at even positions feed the first lane, bytes at odd positions the second. */
  function DigestOf(s: seq<Byte>): (r: seq<Byte>)
    ensures |r| == 16
  {
    LittleEndian(Lane(SEED_A, Evens(s))) + LittleEndian(Lane(SEED_B, Odds(s)))
  }

  lemma LaneAppend(seed: Word, s: seq<Byte>, b: Byte)
    ensures Lane(seed, s + [b]) == Mix(Lane(seed, s), b)
  {
    assert (s + [b])[..|s|] == s;
  }

  method DigestBytes(data: seq<Byte>) returns (out: seq<Byte>)
    ensures out == DigestOf(data)
  {
    hide Mix, LittleEndian, Lane;
    var a, b := SEED_A, SEED_B;
    assert a == Lane(SEED_A, Evens(data[..0])) && b == Lane(SEED_B, Odds(data[..0])) by { EmptyLanes(data); }
    for i := 0 to |data|
      invariant a == Lane(SEED_A, Evens(data[..i])) && b == Lane(SEED_B, Odds(data[..i]))
    {
      if i % 2 == 0 {
        assert Evens(data[..i + 1]) == Evens(data[..i]) + [data[i]];
        assert Odds(data[..i + 1]) == Odds(data[..i]);
        LaneAppend(SEED_A, Evens(data[..i]), data[i]);
        a := Mix(a, data[i]);
      } else {
        assert Evens(data[..i + 1]) == Evens(data[..i]);
        assert Odds(data[..i + 1]) == Odds(data[..i]) + [data[i]];
        LaneAppend(SEED_B, Odds(data[..i]), data[i]);
        b := Mix(b, data[i]);
      }
    }
    assert data[..|data|] == data;
    out := LittleEndian(a) + LittleEndian(b);
  }

  lemma EmptyLanes(data: seq<Byte>)
    ensures Lane(SEED_A, Evens(data[..0])) == SEED_A && Lane(SEED_B, Odds(data[..0])) == SEED_B
  {
    assert Evens(data[..0]) == [] && Odds(data[..0]) == [];
  }

  // ---------- what the digest detects ----------

  /** The prime is odd: 0xce965057aff6957b is its inverse modulo 2^64, so no two words collide. */
  lemma ScaleInjective(x: Word, y: Word)
    requires Scale(x) == Scale(y)
    ensures x == y
  {
    var k := x * PRIME / TWO64 - y * PRIME / TWO64;
    assert (x - y) * PRIME == k * TWO64;
    MultipleOfModulus(x - y, k);
  }

  lemma MultipleOfModulus(d: int, k: int)
    requires d * PRIME == k * TWO64
    ensures d == TWO64 * (k * 0xce965057aff6957b - 0xce9650590f * d)
  {
    assert PRIME * 0xce965057aff6957b == 1 + 0xce9650590f * TWO64;
  }

  lemma XorByteSplits(h: Word, b: Byte)
    ensures XorByte(h, b) / 256 == h / 256 && XorByte(h, b) % 256 == XorLow(h % 256, b)
  {
    hide XorLow;
  }

  lemma XorLowSeparates(m: nat, n: nat, b: Byte, c: Byte)
    requires m < 256 && n < 256
    ensures m != n ==> XorLow(m, b) != XorLow(n, b)
    ensures b != c ==> XorLow(m, b) != XorLow(m, c)
  {
    hide Xor;
    EightBits();
    XorInverts(m, b as nat, 8);
    XorInverts(n, b as nat, 8);
    XorCommutes(m, b as nat, 8);
    XorCommutes(m, c as nat, 8);
    XorInverts(b as nat, m, 8);
    XorInverts(c as nat, m, 8);
  }

  lemma XorByteSeparates(g: Word, h: Word, b: Byte, c: Byte)
    ensures g != h ==> XorByte(g, b) != XorByte(h, b)
    ensures b != c ==> XorByte(g, b) != XorByte(g, c)
  {
    hide XorLow, XorByte;
    XorByteSplits(g, b);
    XorByteSplits(h, b);
    XorByteSplits(g, c);
    XorLowSeparates(g % 256, h % 256, b, c);
  }

  /** Mixing one byte separates different lanes, and different bytes separate one lane. */
  lemma MixSeparates(g: Word, h: Word, b: Byte, c: Byte)
    ensures g != h ==> Mix(g, b) != Mix(h, b)
    ensures b != c ==> Mix(g, b) != Mix(g, c)
  {
    hide Scale, XorByte;
    XorByteSeparates(g, h, b, c);
    if Mix(g, b) == Mix(h, b) {
      ScaleInjective(XorByte(g, b), XorByte(h, b));
    }
    if Mix(g, b) == Mix(g, c) {
      ScaleInjective(XorByte(g, b), XorByte(g, c));
    }
  }

  /** Two lanes that differ in exactly one byte end differently, whatever follows. */
  lemma {:induction false} LaneDetects(seed: Word, s: seq<Byte>, t: seq<Byte>, i: nat)
    requires |s| == |t| && i < |s| && s[i] != t[i]
    requires forall k | 0 <= k < |s| && k != i :: s[k] == t[k]
    ensures Lane(seed, s) != Lane(seed, t)
  {
    hide Mix;
    var n := |s| - 1;
    if i == n {
      assert s[..n] == t[..n];
      MixSeparates(Lane(seed, s[..n]), Lane(seed, t[..n]), s[n], t[n]);
    } else {
      LaneDetects(seed, s[..n], t[..n], i);
      MixSeparates(Lane(seed, s[..n]), Lane(seed, t[..n]), s[n], t[n]);
    }
  }

  function Pow256(n: nat): nat {
    if n == 0 then 1 else 256 * Pow256(n - 1)
  }

  lemma {:induction false} LowBytesInjective(x: nat, y: nat, n: nat)
    requires x < Pow256(n) && y < Pow256(n) && LowBytes(x, n) == LowBytes(y, n)
    ensures x == y
  {
    if n > 0 {
      assert LowBytes(x, n)[0] == LowBytes(y, n)[0] && LowBytes(x, n)[1..] == LowBytes(y, n)[1..];
      assert LowBytes(x, n)[1..] == LowBytes(x / 256, n - 1) && LowBytes(y, n)[1..] == LowBytes(y / 256, n - 1);
      LowBytesInjective(x / 256, y / 256, n - 1);
    }
  }

  lemma LittleEndianInjective(x: Word, y: Word)
    requires LittleEndian(x) == LittleEndian(y)
    ensures x == y
  {
    hide LowBytes;
    assert Pow256(4) == 0x1_0000_0000;
    assert Pow256(8) == TWO64;
    LowBytesInjective(x, y, 8);
  }

  lemma EqualDigestsEqualLanes(s: seq<Byte>, t: seq<Byte>)
    requires DigestOf(s) == DigestOf(t)
    ensures Lane(SEED_A, Evens(s)) == Lane(SEED_A, Evens(t)) && Lane(SEED_B, Odds(s)) == Lane(SEED_B, Odds(t))
  {
    hide LittleEndian, Lane, Mix;
    var a, b := LittleEndian(Lane(SEED_A, Evens(s))), LittleEndian(Lane(SEED_B, Odds(s)));
    var c, d := LittleEndian(Lane(SEED_A, Evens(t))), LittleEndian(Lane(SEED_B, Odds(t)));
    assert (a + b)[..8] == a && (a + b)[8..] == b && (c + d)[..8] == c && (c + d)[8..] == d;
    LittleEndianInjective(Lane(SEED_A, Evens(s)), Lane(SEED_A, Evens(t)));
    LittleEndianInjective(Lane(SEED_B, Odds(s)), Lane(SEED_B, Odds(t)));
  }

  /** Position `i` is the only one of its parity at which `s` and `t` differ. */
  ghost predicate LoneInLane(s: seq<Byte>, t: seq<Byte>, i: nat) {
    && |s| == |t| && i < |s| && s[i] != t[i]
    && forall k | 0 <= k < |s| && k % 2 == i % 2 && k != i :: s[k] == t[k]
  }

  /** Equal-length strings that differ at exactly one even or exactly one odd position, whatever the
      other lane holds, have different digests. */
  lemma LoneChangeIsDetected(s: seq<Byte>, t: seq<Byte>, i: nat)
    requires LoneInLane(s, t, i)
    ensures DigestOf(s) != DigestOf(t)
  {
    hide LittleEndian, Lane, Mix, DigestOf;
    if i % 2 == 0 {
      LaneDetects(SEED_A, Evens(s), Evens(t), i / 2);
    } else {
      LaneDetects(SEED_B, Odds(s), Odds(t), i / 2);
    }
    if DigestOf(s) == DigestOf(t) {
      EqualDigestsEqualLanes(s, t);
    }
  }

  /** `t` is `s` with some of the two adjacent bytes at `i` and `i + 1` changed. */
  ghost predicate ChangedWithinPair(s: seq<Byte>, t: seq<Byte>, i: nat) {
    && |s| == |t| && s != t
    && forall k | 0 <= k < |s| && k != i && k != i + 1 :: s[k] == t[k]
  }

  /** A change confined to two adjacent bytes always changes the digest. */
  lemma PairChangeIsDetected(s: seq<Byte>, t: seq<Byte>, i: nat)
    requires ChangedWithinPair(s, t, i)
    ensures DigestOf(s) != DigestOf(t)
  {
    hide DigestOf;
    if i < |s| && s[i] != t[i] {
      LoneChangeIsDetected(s, t, i);
    } else {
      assert i + 1 < |s| && s[i + 1] != t[i + 1];
      LoneChangeIsDetected(s, t, i + 1);
    }
  }

  // ---------- hex text ----------

  predicate IsHex(s: string) {
    forall i | 0 <= i < |s| :: Nibble(s[i]).Some?
  }

  /** The bytes of the first `n` digit pairs of a text of hex digits. */
  function Pairs(s: string, n: nat): (r: seq<Byte>)
    requires 2 * n <= |s| && IsHex(s)
    ensures |r| == n
  {
    if n == 0 then [] else Pairs(s, n - 1) + [Joined(Nibble(s[2 * n - 2]).value, Nibble(s[2 * n - 1]).value)]
  }

  function FromHex(s: string): (r: Option<seq<Byte>>)
    ensures r.Some? ==> |r.value| == 16
  {
    if |s| == 32 && IsHex(s) then Some(Pairs(s, 16)) else None
  }

  method HexText(d: seq<Byte>) returns (out: string)
    ensures out == Hex(d)
  {
    out := "";
    for i := 0 to |d|
      invariant out == Hex(d[..i])
    {
      assert d[..i + 1][..i] == d[..i];
      out := out + HexByte(d[i]);
    }
    assert d[..|d|] == d;
  }

  method ParseHex(s: string) returns (r: Option<seq<Byte>>)
    ensures r == FromHex(s)
  {
    hide Nibble, Joined;
    if |s| != 32 {
      return None;
    }
    var out: seq<Byte> := [];
    for i := 0 to 16
      invariant IsHex(s[..2 * i]) && out == Pairs(s[..2 * i], i)
    {
      var hi, lo := Nibble(s[2 * i]), Nibble(s[2 * i + 1]);
      if hi.None? || lo.None? {
        return None;
      }
      PairsPrefix(s[..2 * i + 2], s[..2 * i], i);
      out := out + [Joined(hi.value, lo.value)];
    }
    assert s[..32] == s;
    r := Some(out);
  }

  lemma {:induction false} PairsPrefix(s: string, t: string, n: nat)
    requires 2 * n <= |t| <= |s| && t == s[..|t|] && IsHex(s)
    ensures IsHex(t) && Pairs(s, n) == Pairs(t, n)
  {
    hide Nibble, Joined;
    if n > 0 {
      PairsPrefix(s, t, n - 1);
    }
  }

  lemma {:induction false} PairsOfHex(d: seq<Byte>)
    ensures |Hex(d)| == 2 * |d| && IsHex(Hex(d)) && Pairs(Hex(d), |d|) == d
  {
    hide Nibble, Joined, HexDigit;
    if d != [] {
      var n := |d| - 1;
      PairsOfHex(d[..n]);
      ByteRoundTrip(d[n]);
      PairsPrefix(Hex(d), Hex(d[..n]), n);
      assert d == d[..n] + [d[n]];
    }
  }

  /** Sixteen bytes survive the trip through text. */
  lemma HexRoundTrip(d: seq<Byte>)
    requires |d| == 16
    ensures FromHex(Hex(d)) == Some(d)
  {
    hide Hex, Pairs;
    PairsOfHex(d);
  }

  function Lower(c: char): char {
    if 'A' <= c <= 'F' then (c as nat + 32) as char else c
  }

  lemma DigitRoundTrip(c: char, d: char)
    requires Nibble(c).Some? && Nibble(d).Some?
    ensures HexByte(Joined(Nibble(c).value, Nibble(d).value)) == [Lower(c), Lower(d)]
  {
    hide HexDigit;
    DigitOfNibble(c);
    DigitOfNibble(d);
  }

  lemma DigitOfNibble(c: char)
    requires Nibble(c).Some?
    ensures Nibble(c).value < 16 && HexDigit(Nibble(c).value) == Lower(c)
  {
  }

  lemma {:induction false} HexOfPairs(s: string, n: nat)
    requires 2 * n <= |s| && IsHex(s)
    ensures |Hex(Pairs(s, n))| == 2 * n
    ensures forall i | 0 <= i < 2 * n :: Hex(Pairs(s, n))[i] == Lower(s[i])
  {
    hide Nibble, Joined, HexDigit, Lower, HexByte;
    if n > 0 {
      HexOfPairs(s, n - 1);
      var p := Pairs(s, n);
      assert p[..n - 1] == Pairs(s, n - 1);
      DigitRoundTrip(s[2 * n - 2], s[2 * n - 1]);
    }
  }

  /** Only 32 hex digits parse, and printing what was parsed gives the same digits in lower case. */
  lemma ParsedHexPrintsBack(s: string)
    ensures FromHex(s).Some? <==> |s| == 32 && IsHex(s)
    ensures FromHex(s).Some? ==>
              && |Hex(FromHex(s).value)| == 32
              && forall i | 0 <= i < 32 :: Hex(FromHex(s).value)[i] == Lower(s[i])
  {
    hide Nibble, Joined, Lower, Hex;
    if |s| == 32 && IsHex(s) {
      HexOfPairs(s, 16);
    }
  }

  // ---------- the bytes of a lane ----------

  /** The number its bytes stand for, least significant first. */
  function ValueOf(s: seq<Byte>): nat {
    if s == [] then 0 else s[0] as nat + 256 * ValueOf(s[1..])
  }

  lemma {:induction false} LowBytesKeepValue(x: nat, n: nat)
    requires x < Pow256(n)
    ensures ValueOf(LowBytes(x, n)) == x
  {
    if n > 0 {
      LowBytesKeepValue(x / 256, n - 1);
      assert LowBytes(x, n)[1..] == LowBytes(x / 256, n - 1);
    }
  }

  /** The digest is the two lanes, each in eight bytes that stand for it. */
  lemma DigestHoldsLanes(s: seq<Byte>)
    ensures ValueOf(DigestOf(s)[..8]) == Lane(SEED_A, Evens(s)) && ValueOf(DigestOf(s)[8..]) == Lane(SEED_B, Odds(s))
  {
    hide Lane, Evens, Odds, LowBytes, ValueOf;
    assert Pow256(4) == 0x1_0000_0000;
    assert Pow256(8) == TWO64;
    LowBytesKeepValue(Lane(SEED_A, Evens(s)), 8);
    LowBytesKeepValue(Lane(SEED_B, Odds(s)), 8);
  }
}
