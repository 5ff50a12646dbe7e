/** Byte strings, and the numbers they encode low byte first. */
module ByteStrings {
  type byte = x: int | 0 <= x < 256

  type Bytes = seq<byte>

  const WORD: nat := 0x1_0000_0000 // values of a 32-bit word

  lemma Associate(a: Bytes, b: Bytes, c: Bytes)
    ensures (a + b) + c == a + (b + c)
  {
  }

  /** Two to the power of `n`. */
  function Two(n: nat): (r: nat)
    ensures r > 0
  {
    if n == 0 then 1 else 2 * Two(n - 1)
  }

  function LittleEndian(b: Bytes): nat {
    if b == [] then 0 else b[0] + 256 * LittleEndian(b[1..])
  }

  /** The number of values of `n` bytes; masking to `n` bytes is taking the remainder by it. */
  function Values(n: nat): (r: nat)
    ensures r > 0
  {
    if n == 0 then 1 else 256 * Values(n - 1)
  }

  lemma TimesAssociate(a: nat, b: nat, c: nat)
    ensures a * (b * c) == (a * b) * c
  {
  }

  lemma TimesMonotone(m: nat, a: nat, b: nat)
    requires a <= b
    ensures m * a <= m * b
  {
  }

  lemma {:induction false} LittleEndianSplit(s: Bytes, n: nat)
    requires n <= |s|
    ensures LittleEndian(s) == LittleEndian(s[..n]) + Values(n) * LittleEndian(s[n..])
    ensures LittleEndian(s[..n]) < Values(n)
  {
    if n > 0 {
      LittleEndianSplit(s[1..], n - 1);
      assert s[..n][1..] == s[1..][..n - 1] && s[1..][n - 1..] == s[n..];
      TimesAssociate(256, Values(n - 1), LittleEndian(s[n..]));
    }
  }

  function Fixed32(v: nat): (s: Bytes)
    requires v < WORD
    ensures |s| == 4
  {
    [v % 0x100, v / 0x100 % 0x100, v / 0x1_0000 % 0x100, v / 0x100_0000]
  }

  function DecodeFixed32(s: Bytes): (v: nat)
    requires |s| == 4
    ensures v < WORD
  {
    LittleEndianSplit(s, 4);
    assert Values(4) == WORD && s[..4] == s;
    LittleEndian(s)
  }

  lemma Fixed32RoundTrip(v: nat)
    requires v < WORD
    ensures DecodeFixed32(Fixed32(v)) == v
  {
    var s := Fixed32(v);
    assert s[1..][1..][1..] == [s[3]] && [s[3]][1..] == [];
    assert LittleEndian([s[3]]) == s[3];
    assert LittleEndian(s[1..][1..]) == s[2] + 256 * LittleEndian([s[3]]);
    assert LittleEndian(s[1..]) == s[1] + 256 * LittleEndian(s[1..][1..]);
  }

  lemma Fixed32OfDecoded(s: Bytes)
    requires |s| == 4
    ensures Fixed32(DecodeFixed32(s)) == s
  {
    assert s[1..][1..][1..] == [s[3]] && [s[3]][1..] == [];
    assert LittleEndian([s[3]]) == s[3];
    assert LittleEndian(s[1..][1..]) == s[2] + 256 * LittleEndian([s[3]]);
    assert LittleEndian(s[1..]) == s[1] + 256 * LittleEndian(s[1..][1..]);
    FourDigits(s[0], s[1], s[2], s[3]);
  }

  lemma FourDigits(a: byte, b: byte, c: byte, d: byte)
    ensures var v := a + 0x100 * b + 0x1_0000 * c + 0x100_0000 * d; v < WORD && Fixed32(v) == [a, b, c, d]
  {
    var v := a + 0x100 * b + 0x1_0000 * c + 0x100_0000 * d;
    assert v / 0x100 == b + 0x100 * c + 0x1_0000 * d;
    assert v / 0x1_0000 == c + 0x100 * d;
  }

  /** Seven bits a byte, low bits first; the high bit says that more follow. */
  function Varint(v: nat): (s: Bytes)
    ensures 0 < |s|
  {
    if v < 128 then [v] else [v % 128 + 128] + Varint(v / 128)
  }

  lemma VarintStep(v: nat)
    ensures Varint(v) == if v < 128 then [v] else [v % 128 + 128] + Varint(v / 128)
  {
  }

  lemma VarintBytes(v: nat)
    requires v < WORD
    ensures v >= 0x80 && v < 0x4000 ==> Varint(v) == [v % 128 + 128, v / 0x80]
    ensures v >= 0x4000 && v < 0x20_0000 ==> Varint(v) == [v % 128 + 128, v / 0x80 % 128 + 128, v / 0x4000]
    ensures v >= 0x20_0000 && v < 0x1000_0000 ==>
      Varint(v) == [v % 128 + 128, v / 0x80 % 128 + 128, v / 0x4000 % 128 + 128, v / 0x20_0000]
    ensures v >= 0x1000_0000 ==>
      Varint(v) == [v % 128 + 128, v / 0x80 % 128 + 128, v / 0x4000 % 128 + 128, v / 0x20_0000 % 128 + 128, v / 0x1000_0000]
  {
    VarintStep(v);
    VarintStep(v / 0x80);
    VarintStep(v / 0x4000);
    VarintStep(v / 0x20_0000);
    VarintStep(v / 0x1000_0000);
    assert v / 0x80 / 128 == v / 0x4000 && v / 0x4000 / 128 == v / 0x20_0000 && v / 0x20_0000 / 128 == v / 0x1000_0000;
  }
}
