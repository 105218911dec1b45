/** `java.util.UUID` values and the version-4 UUID that `UUIDUtil.fastRandomUUID` packs
    from sixteen random bytes (section 4.4 of RFC 4122). The random source is replaced
    by the sixteen bytes it would have produced. */
module Uuids {
  import opened JavaString

  /** A UUID as its two 64-bit halves, bit patterns of Java `long`s. */
  datatype Uuid = Uuid(msb: bv64, lsb: bv64)

  // ----- UUID.toString: 8-4-4-4-12 lower-case hex digits -----

  function HexDigit(d: nat): (c: char)
    requires d < 16
    ensures !IsUpperAscii(c) && c != '[' && c != ']' && c != '-'
  {
    if d < 10 then ('0' as int + d) as char else ('a' as int + d - 10) as char
  }

  /** The low `n` hex digits of v, most significant first. */
  function Hex(v: nat, n: nat): (s: string)
    ensures |s| == n
    ensures IsLowerCase(s)
    ensures '[' !in s && ']' !in s && '-' !in s
  {
    if n == 0 then "" else Hex(v / 16, n - 1) + [HexDigit(v % 16)]
  }

  /** `UUID.toString()`. Being lower-case, it is a key the claim permission tables can hold. */
  function UuidToString(u: Uuid): (s: string)
    ensures |s| == 36
    ensures IsLowerCase(s)
    ensures s[0] != '['
  {
    HexGroups(u.msb as int, u.lsb as int)
  }

  /** The 8-4-4-4-12 grouping of the hex digits of the two halves. */
  function HexGroups(m: nat, l: nat): (s: string)
    ensures |s| == 36
    ensures IsLowerCase(s)
    ensures s[0] != '['
  {
    var g1, g2, g3, g4, g5 := Hex(m / 0x1_0000_0000, 8), Hex(m / 0x1_0000, 4), Hex(m, 4), Hex(l / 0x1_0000_0000_0000, 4), Hex(l, 12);
    var a := g1 + "-";
    LowerConcat(g1, "-");
    var b := a + g2;
    LowerConcat(a, g2);
    var c := b + "-";
    LowerConcat(b, "-");
    var d := c + g3;
    LowerConcat(c, g3);
    var e := d + "-";
    LowerConcat(d, "-");
    var f := e + g4;
    LowerConcat(e, g4);
    var g := f + "-";
    LowerConcat(f, "-");
    var h := g + g5;
    LowerConcat(g, g5);
    assert h[0] == g1[0];
    h
  }

  lemma LowerConcat(a: string, b: string)
    requires IsLowerCase(a) && IsLowerCase(b)
    ensures IsLowerCase(a + b)
  {
  }

  // ----- fastRandomUUID -----

  /** The sixteen bytes after the version and variant fields are overwritten. */
  function Masked(random: seq<bv8>): (m: seq<bv8>)
    requires |random| == 16
    ensures |m| == 16
    ensures forall i :: 0 <= i < 16 && i != 6 && i != 8 ==> m[i] == random[i]
  {
    random[6 := (random[6] & 0x0F) | 0x40][8 := (random[8] & 0x3F) | 0x80]
  }

  /** Left to right: shift the accumulator by a byte and or in the next byte, unsigned. */
  function Accumulate(bytes: seq<bv8>): bv64
    decreases |bytes|
  {
    if |bytes| == 0 then 0
    else (Accumulate(bytes[..|bytes| - 1]) << 8) | (bytes[|bytes| - 1] as bv64)
  }

  /** Eight bytes as a big-endian 64-bit value, byte 0 most significant. */
  function BigEndian(b0: bv8, b1: bv8, b2: bv8, b3: bv8, b4: bv8, b5: bv8, b6: bv8, b7: bv8): bv64
  {
    ((b0 as bv64) << 56) | ((b1 as bv64) << 48) | ((b2 as bv64) << 40) | ((b3 as bv64) << 32)
    | ((b4 as bv64) << 24) | ((b5 as bv64) << 16) | ((b6 as bv64) << 8) | (b7 as bv64)
  }

  /** Eight consecutive bytes of b, starting at k, as a big-endian value. */
  function BigEndianAt(b: seq<bv8>, k: nat): bv64
    requires k + 8 <= |b|
  {
    BigEndian(b[k], b[k + 1], b[k + 2], b[k + 3], b[k + 4], b[k + 5], b[k + 6], b[k + 7])
  }

  /** The UUID `fastRandomUUID` returns for the given random bytes. */
  function RandomUuid(random: seq<bv8>): Uuid
    requires |random| == 16
  {
    var m := Masked(random);
    Uuid(BigEndianAt(m, 0), BigEndianAt(m, 8))
  }

  lemma AccumulateStep(b: seq<bv8>, i: nat)
    requires i < |b|
    ensures Accumulate(b[..i + 1]) == (Accumulate(b[..i]) << 8) | (b[i] as bv64)
  {
    assert b[..i + 1][..i] == b[..i];
  }

  lemma {:induction false} AccumulateIsBigEndian(b: seq<bv8>)
    requires |b| == 8
    ensures Accumulate(b) == BigEndianAt(b, 0)
  {
    assert b[..0] == [];
    AccumulateStep(b, 0);
    AccumulateStep(b, 1);
    AccumulateStep(b, 2);
    AccumulateStep(b, 3);
    AccumulateStep(b, 4);
    AccumulateStep(b, 5);
    AccumulateStep(b, 6);
    AccumulateStep(b, 7);
    assert b[..8] == b;
    ShiftOrEight(b[0], b[1], b[2], b[3], b[4], b[5], b[6], b[7]);
  }

  lemma ShiftOrEight(b0: bv8, b1: bv8, b2: bv8, b3: bv8, b4: bv8, b5: bv8, b6: bv8, b7: bv8)
    ensures (((((((((((((((b0 as bv64) << 8) | (b1 as bv64)) << 8) | (b2 as bv64)) << 8) | (b3 as bv64)) << 8)
               | (b4 as bv64)) << 8) | (b5 as bv64)) << 8) | (b6 as bv64)) << 8) | (b7 as bv64))
         == BigEndian(b0, b1, b2, b3, b4, b5, b6, b7)
  {
  }

  /** `fastRandomUUID`: masks the byte array in place, then folds each half into a `long`. */
  method FastRandomUuid(random: seq<bv8>) returns (u: Uuid)
    requires |random| == 16
    ensures u == RandomUuid(random)
  {
    var bytes := new bv8[16](i requires 0 <= i < 16 => random[i]);
    assert bytes[..] == random;
    SetVersion(bytes);
    var msb := Fold(bytes, 0);
    var lsb := Fold(bytes, 8);
    u := Uuid(msb, lsb);
  }

  /** The masking: version 4 in byte 6, the variant bits in byte 8. */
  method SetVersion(bytes: array<bv8>)
    requires bytes.Length == 16
    modifies bytes
    ensures bytes[..] == Masked(old(bytes[..]))
  {
    bytes[6] := bytes[6] & 0x0F;
    bytes[6] := bytes[6] | 0x40;
    bytes[8] := bytes[8] & 0x3F;
    bytes[8] := bytes[8] | 0x80;
  }

  /** One of the two accumulation loops: `(x << 8) | (bytes[i] & 0xFF)` over eight bytes. */
  method Fold(bytes: array<bv8>, from: nat) returns (v: bv64)
    requires from + 8 <= bytes.Length
    ensures v == BigEndianAt(bytes[..], from)
  {
    v := 0;
    var i := from;
    while i < from + 8
      invariant from <= i <= from + 8
      invariant v == Accumulate(bytes[from..i])
    {
      assert bytes[from..i + 1][..i - from] == bytes[from..i];
      v := (v << 8) | (bytes[i] as bv64);
      i := i + 1;
    }
    AccumulateIsBigEndian(bytes[from..from + 8]);
  }

  /** The version field, bits 12-15 of the most significant half, is 4 (section 4.1.3 of RFC 4122). */
  lemma VersionIsFour(random: seq<bv8>)
    requires |random| == 16
    ensures (RandomUuid(random).msb >> 12) & 0xF == 4
  {
    var m := Masked(random);
    BigEndianBytes(m[0], m[1], m[2], m[3], m[4], m[5], m[6], m[7]);
    HighNibble(RandomUuid(random).msb, m[6]);
  }

  lemma HighNibble(v: bv64, b: bv8)
    requires (v >> 8) & 0xFF == b as bv64
    ensures (v >> 12) & 0xF == (b >> 4) as bv64
  {
  }

  /** The two top bits of the least significant half are binary 10, the IETF variant
      (section 4.1.1 of RFC 4122). */
  lemma VariantIsIetf(random: seq<bv8>)
    requires |random| == 16
    ensures RandomUuid(random).lsb >> 62 == 2
  {
    var m := Masked(random);
    BigEndianBytes(m[8], m[9], m[10], m[11], m[12], m[13], m[14], m[15]);
    TopBits(RandomUuid(random).lsb, m[8]);
  }

  lemma TopBits(v: bv64, b: bv8)
    requires v >> 56 == b as bv64
    ensures v >> 62 == (b >> 6) as bv64
  {
  }

  /** Apart from the version and variant bits, every byte of the two halves is the
      corresponding random byte, big-endian and unsigned: bytes 0-7 make the most
      significant half and bytes 8-15 the least. */
  lemma OtherBitsAreRandom(random: seq<bv8>)
    requires |random| == 16
    ensures var msb := RandomUuid(random).msb;
      msb >> 56 == random[0] as bv64 && (msb >> 48) & 0xFF == random[1] as bv64
      && (msb >> 40) & 0xFF == random[2] as bv64 && (msb >> 32) & 0xFF == random[3] as bv64
      && (msb >> 24) & 0xFF == random[4] as bv64 && (msb >> 16) & 0xFF == random[5] as bv64
      && (msb >> 8) & 0x0F == (random[6] & 0x0F) as bv64 && msb & 0xFF == random[7] as bv64
    ensures var lsb := RandomUuid(random).lsb;
      (lsb >> 56) & 0x3F == (random[8] & 0x3F) as bv64 && (lsb >> 48) & 0xFF == random[9] as bv64
      && (lsb >> 40) & 0xFF == random[10] as bv64 && (lsb >> 32) & 0xFF == random[11] as bv64
      && (lsb >> 24) & 0xFF == random[12] as bv64 && (lsb >> 16) & 0xFF == random[13] as bv64
      && (lsb >> 8) & 0xFF == random[14] as bv64 && lsb & 0xFF == random[15] as bv64
  {
    var m := Masked(random);
    BigEndianBytes(m[0], m[1], m[2], m[3], m[4], m[5], m[6], m[7]);
    BigEndianBytes(m[8], m[9], m[10], m[11], m[12], m[13], m[14], m[15]);
    LowBits(RandomUuid(random).msb >> 8, m[6], random[6], 0x0F);
    LowBits(RandomUuid(random).lsb >> 56, m[8], random[8], 0x3F);
  }

  lemma LowBits(v: bv64, b: bv8, r: bv8, mask: bv8)
    requires v & 0xFF == b as bv64 && b & mask == r & mask
    ensures v & (mask as bv64) == (r & mask) as bv64
  {
  }

  /** Each byte of a big-endian value can be read back, unsigned, at its position. */
  lemma BigEndianBytes(b0: bv8, b1: bv8, b2: bv8, b3: bv8, b4: bv8, b5: bv8, b6: bv8, b7: bv8)
    ensures var v := BigEndian(b0, b1, b2, b3, b4, b5, b6, b7);
      v >> 56 == b0 as bv64 && (v >> 48) & 0xFF == b1 as bv64 && (v >> 40) & 0xFF == b2 as bv64
      && (v >> 32) & 0xFF == b3 as bv64 && (v >> 24) & 0xFF == b4 as bv64 && (v >> 16) & 0xFF == b5 as bv64
      && (v >> 8) & 0xFF == b6 as bv64 && v & 0xFF == b7 as bv64
  {
  }
}
