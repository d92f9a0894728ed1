/** UTF-8 as the reader uses it: `u8_wc_toutf8` (encode one code point while decoding
    string escapes) and `u8_fgetc` (read one code point for a `#\` character constant).
    Neither helper is part of this model's source; both are specified from RFC 3629,
    section 3 (sequences of one to four bytes). */
module Utf8 {

  newtype Byte = x: int | 0 <= x < 256

  /** Largest code point RFC 3629 can encode. */
  const MaxCodePoint: int := 0x10FFFF

  /** Number of bytes RFC 3629 uses for a code point (0 when it has no encoding). */
  function EncodedLength(cp: nat): nat
  {
    if cp < 0x80 then 1
    else if cp < 0x800 then 2
    else if cp < 0x10000 then 3
    else if cp <= MaxCodePoint then 4
    else 0
  }

  /** `u8_wc_toutf8`: the bytes written for one code point; nothing for a value beyond
      U+10FFFF. */
  function Encode(cp: nat): (bs: seq<Byte>)
    ensures |bs| == EncodedLength(cp) && |bs| <= 4
    ensures |bs| == 1 ==> bs[0] as int == cp
    ensures |bs| > 1 ==> 0xC0 <= bs[0] as int && forall k :: 1 <= k < |bs| ==> 0x80 <= bs[k] as int < 0xC0
  {
    if cp < 0x80 then [cp as Byte]
    else if cp < 0x800 then
      [(0xC0 + cp / 64) as Byte, (0x80 + cp % 64) as Byte]
    else if cp < 0x10000 then
      [(0xE0 + cp / 4096) as Byte, (0x80 + (cp / 64) % 64) as Byte, (0x80 + cp % 64) as Byte]
    else if cp <= MaxCodePoint then
      [(0xF0 + cp / 262144) as Byte, (0x80 + (cp / 4096) % 64) as Byte,
       (0x80 + (cp / 64) % 64) as Byte, (0x80 + cp % 64) as Byte]
    else []
  }

  /** Length of the sequence a lead byte announces (RFC 3629 section 3). */
  function SequenceLength(lead: Byte): (n: nat)
    ensures 1 <= n <= 4
  {
    if lead < 0xC0 then 1 else if lead < 0xE0 then 2 else if lead < 0xF0 then 3 else 4
  }

  /** The bytes of a sequence gathered six bits at a time, as `u8_fgetc` does. */
  function Gather(bs: seq<Byte>): nat
  {
    if bs == [] then 0 else Gather(bs[..|bs| - 1]) * 64 + bs[|bs| - 1] as int
  }

  /** What the gathered value is offset by, per sequence length. */
  function Offset(n: nat): nat
  {
    if n <= 1 then 0 else if n == 2 then 0x3080 else if n == 3 then 0xE2080 else 0x3C82080
  }

  /** Code point read from one sequence (32-bit unsigned arithmetic). */
  function Decode(bs: seq<Byte>): (cp: nat)
    ensures cp < 0x1_0000_0000
  {
    (Gather(bs) - Offset(|bs|)) % 0x1_0000_0000
  }

  lemma GatherShort(a: Byte, b: Byte, c: Byte, d: Byte)
    ensures Gather([a]) == a as int
    ensures Gather([a, b]) == a as int * 64 + b as int
    ensures Gather([a, b, c]) == (a as int * 64 + b as int) * 64 + c as int
    ensures Gather([a, b, c, d]) == ((a as int * 64 + b as int) * 64 + c as int) * 64 + d as int
  {
    assert [a, b, c, d][..3] == [a, b, c];
    assert [a, b, c][..2] == [a, b];
    assert [a, b][..1] == [a];
    assert [a][..0] == [];
  }

  lemma TwoBytes(cp: nat)
    requires 0x80 <= cp < 0x800
    ensures SequenceLength(Encode(cp)[0]) == 2 && Decode(Encode(cp)) == cp
  {
    var q, r := cp / 64, cp % 64;
    GatherShort((0xC0 + q) as Byte, (0x80 + r) as Byte, 0, 0);
  }

  lemma ThreeBytes(cp: nat)
    requires 0x800 <= cp < 0x10000
    ensures SequenceLength(Encode(cp)[0]) == 3 && Decode(Encode(cp)) == cp
  {
    var q, m, r := cp / 4096, (cp / 64) % 64, cp % 64;
    assert cp == q * 4096 + m * 64 + r;
    GatherShort((0xE0 + q) as Byte, (0x80 + m) as Byte, (0x80 + r) as Byte, 0);
  }

  /** Dividing by 64 three times is dividing by 262144. */
  lemma DivideBy64(x: nat)
    ensures x / 4096 == (x / 64) / 64 && x / 262144 == ((x / 64) / 64) / 64
  {
  }

  lemma FourBytes(cp: nat)
    requires 0x10000 <= cp <= MaxCodePoint
    ensures SequenceLength(Encode(cp)[0]) == 4 && Decode(Encode(cp)) == cp
  {
    DivideBy64(cp);
    var a := cp / 64;
    var b := a / 64;
    var q, m1, m2, r := b / 64, b % 64, a % 64, cp % 64;
    assert cp == a * 64 + r && a == b * 64 + m2 && b == q * 64 + m1;
    assert q < 8;
    assert Encode(cp) == [(0xF0 + q) as Byte, (0x80 + m1) as Byte, (0x80 + m2) as Byte, (0x80 + r) as Byte];
    GatherShort((0xF0 + q) as Byte, (0x80 + m1) as Byte, (0x80 + m2) as Byte, (0x80 + r) as Byte);
  }

  /** Every code point RFC 3629 can encode is read back unchanged, and its lead byte
      announces exactly the length written. */
  lemma {:induction false} DecodeEncode(cp: nat)
    requires cp <= MaxCodePoint
    ensures 1 <= |Encode(cp)| <= 4
    ensures SequenceLength(Encode(cp)[0]) == |Encode(cp)|
    ensures Decode(Encode(cp)) == cp
  {
    if cp < 0x80 {
      GatherShort(cp as Byte, 0, 0, 0);
    } else if cp < 0x800 {
      TwoBytes(cp);
    } else if cp < 0x10000 {
      ThreeBytes(cp);
    } else {
      FourBytes(cp);
    }
  }
}
