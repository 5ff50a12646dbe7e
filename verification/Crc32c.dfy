/** The checksum of log records: CRC-32C (section 12.1 of RFC 3720), and how it is stored (util/crc32c.h). */
module Crc32c {
  import opened ByteBits
  import opened ByteStrings

  const MASK_DELTA: nat := 0xa282_ead8

  /** The remainder after one more bit; the polynomial is written with its bits reflected. */
  function ShiftBit(l: bv32): bv32 {
    if l & 1 == 1 then (l >> 1) ^ 0x82f6_3b78 else l >> 1
  }

  function Word(b: byte): bv32 {
    Bits(b) as bv32
  }

  function AbsorbByte(l: bv32, b: byte): bv32 {
    ShiftBit(ShiftBit(ShiftBit(ShiftBit(ShiftBit(ShiftBit(ShiftBit(ShiftBit(l ^ Word(b)))))))))
  }

  function Absorb(l: bv32, data: Bytes): bv32
    decreases |data|
  {
    if data == [] then l else Absorb(AbsorbByte(l, data[0]), data[1..])
  }

  function Invert(l: bv32): bv32 {
    l ^ 0xffff_ffff
  }

  function Extend(crc: bv32, data: Bytes): bv32 {
    Invert(Absorb(Invert(crc), data))
  }

  function Value(data: Bytes): bv32 {
    Extend(0, data)
  }

  lemma {:induction false} AbsorbConcat(l: bv32, a: Bytes, b: Bytes)
    ensures Absorb(l, a + b) == Absorb(Absorb(l, a), b)
    decreases |a|
  {
    hide AbsorbByte;
    if a == [] {
      assert a + b == b;
    } else {
      assert (a + b)[1..] == a[1..] + b;
      AbsorbConcat(AbsorbByte(l, a[0]), a[1..], b);
    }
  }

  // ---- what it detects ----

  lemma XorShift(x: bv32, y: bv32)
    ensures (x >> 1) ^ (y >> 1) == (x ^ y) >> 1
  {
  }

  lemma XorLow(x: bv32, y: bv32)
    ensures (x ^ y) & 1 == (x & 1) ^ (y & 1)
    ensures x & 1 == 0 || x & 1 == 1
  {
  }

  lemma XorCancels(a: bv32, b: bv32, p: bv32)
    ensures (a ^ p) ^ (b ^ p) == a ^ b && (a ^ p) ^ b == (a ^ b) ^ p && a ^ (b ^ p) == (a ^ b) ^ p
  {
  }

  function Xor(x: bv32, y: bv32): bv32 {
    x ^ y
  }

  lemma ShiftIsLinear(x: bv32, y: bv32)
    ensures Xor(ShiftBit(x), ShiftBit(y)) == ShiftBit(Xor(x, y))
  {
    XorShift(x, y);
    XorLow(x, y);
    XorLow(y, x);
    XorCancels(x >> 1, y >> 1, 0x82f6_3b78);
  }

  function Shifts(x: bv32, n: nat): bv32 {
    if n == 0 then x else ShiftBit(Shifts(x, n - 1))
  }

  lemma {:induction false} ShiftsAreLinear(x: bv32, y: bv32, n: nat)
    ensures Xor(Shifts(x, n), Shifts(y, n)) == Shifts(Xor(x, y), n)
  {
    hide ShiftBit, Xor;
    if n > 0 {
      ShiftsAreLinear(x, y, n - 1);
      ShiftIsLinear(Shifts(x, n - 1), Shifts(y, n - 1));
    }
  }

  lemma EightShifts(x: bv32)
    ensures Shifts(x, 8) ==
            ShiftBit(ShiftBit(ShiftBit(ShiftBit(ShiftBit(ShiftBit(ShiftBit(ShiftBit(x))))))))
  {
    hide ShiftBit;
    assert Shifts(x, 1) == ShiftBit(x) && Shifts(x, 2) == ShiftBit(Shifts(x, 1));
    assert Shifts(x, 3) == ShiftBit(Shifts(x, 2)) && Shifts(x, 4) == ShiftBit(Shifts(x, 3));
    assert Shifts(x, 5) == ShiftBit(Shifts(x, 4)) && Shifts(x, 6) == ShiftBit(Shifts(x, 5));
    assert Shifts(x, 7) == ShiftBit(Shifts(x, 6)) && Shifts(x, 8) == ShiftBit(Shifts(x, 7));
  }

  /** The high byte shows whether anything but zeros was shifted out. */
  lemma HighByteTells(x: bv32)
    ensures Shifts(x, 8) & 0xff00_0000 == 0 ==> x & 0xff == 0 && Shifts(x, 8) == x >> 8
  {
    EightShifts(x);
  }

  /** Only the low `m` bytes are not zero. */
  predicate LowOnly(x: bv32, m: nat) {
    if m == 0 then x == 0
    else if m == 1 then x & 0xffff_ff00 == 0
    else if m == 2 then x & 0xffff_0000 == 0
    else if m == 3 then x & 0xff00_0000 == 0
    else true
  }

  lemma WordIsLow(b: byte)
    ensures Word(b) & 0xffff_ff00 == 0
  {
    hide Bits;
  }

  lemma WordTells(b: byte, c: byte)
    requires Word(b) == Word(c)
    ensures b == c
  {
    hide Bits;
    BitsTell(b, c);
  }

  lemma AbsorbByteIs(l: bv32, b: byte)
    ensures AbsorbByte(l, b) == Shifts(Xor(l, Word(b)), 8)
  {
    EightShifts(Xor(l, Word(b)));
    hide ShiftBit;
  }

  lemma XorAssociates(a: bv32, b: bv32, c: bv32)
    ensures Xor(Xor(a, b), c) == Xor(a, Xor(b, c))
  {
  }

  lemma XorCommutes(a: bv32, b: bv32)
    ensures Xor(a, b) == Xor(b, a)
  {
  }

  lemma XorSwaps(l: bv32, m: bv32, b: bv32, c: bv32)
    ensures Xor(Xor(l, b), Xor(m, c)) == Xor(Xor(l, m), Xor(b, c))
  {
    hide Xor;
    XorAssociates(l, b, Xor(m, c));
    XorAssociates(b, m, c);
    XorCommutes(b, m);
    XorAssociates(m, b, c);
    XorAssociates(l, m, Xor(b, c));
  }

  lemma XorIsZero(l: bv32, m: bv32)
    ensures Xor(l, m) == 0 <==> l == m
  {
  }

  lemma XorWithZero(l: bv32)
    ensures Xor(l, 0) == l && Xor(0, l) == l
  {
  }

  lemma XorIsLow(b: bv32, c: bv32)
    requires b & 0xffff_ff00 == 0 && c & 0xffff_ff00 == 0
    ensures Xor(b, c) & 0xffff_ff00 == 0
  {
  }

  /** Shifting a byte out backwards: what differs afterwards in few bytes differed before in one more. */
  lemma OneByteBack(d: bv32, e: bv32, m: nat)
    requires m < 4 && e & 0xffff_ff00 == 0 && LowOnly(Shifts(Xor(d, e), 8), m)
    ensures LowOnly(d, m + 1) && Xor(d, e) & 0xff == 0
  {
    HighByteTells(Xor(d, e));
    BackFrom(d, e, Shifts(Xor(d, e), 8), m);
  }

  lemma BackOne(d: bv32, e: bv32, y: bv32)
    requires e & 0xffff_ff00 == 0 && y == Xor(d, e) >> 8 && Xor(d, e) & 0xff == 0
    ensures y == 0 ==> d & 0xffff_ff00 == 0
    ensures y & 0xffff_ff00 == 0 ==> d & 0xffff_0000 == 0
    ensures y & 0xffff_0000 == 0 ==> d & 0xff00_0000 == 0
  {
  }

  lemma MaskTells(y: bv32)
    ensures y == 0 ==> y & 0xff00_0000 == 0
    ensures y & 0xffff_ff00 == 0 ==> y & 0xff00_0000 == 0
    ensures y & 0xffff_0000 == 0 ==> y & 0xff00_0000 == 0
  {
  }

  lemma LowIsLow(y: bv32, m: nat)
    requires m < 4 && LowOnly(y, m)
    ensures y & 0xff00_0000 == 0
  {
    MaskTells(y);
  }

  lemma BackFrom(d: bv32, e: bv32, y: bv32, m: nat)
    requires m < 4 && e & 0xffff_ff00 == 0 && LowOnly(y, m)
    requires y & 0xff00_0000 == 0 ==> Xor(d, e) & 0xff == 0 && y == Xor(d, e) >> 8
    ensures LowOnly(d, m + 1) && Xor(d, e) & 0xff == 0
  {
    LowIsLow(y, m);
    BackOne(d, e, y);
  }

  lemma Differ(l: bv32, m: bv32, b: byte, c: byte)
    ensures Xor(AbsorbByte(l, b), AbsorbByte(m, c)) == Shifts(Xor(Xor(l, m), Xor(Word(b), Word(c))), 8)
    ensures Xor(Word(b), Word(c)) & 0xffff_ff00 == 0
  {
    AbsorbByteIs(l, b);
    AbsorbByteIs(m, c);
    WordIsLow(b);
    WordIsLow(c);
    XorSwaps(l, m, Word(b), Word(c));
    XorIsLow(Word(b), Word(c));
    ShiftsAreLinear(Xor(l, Word(b)), Xor(m, Word(c)), 8);
    hide AbsorbByte, Shifts, Xor;
  }

  /** Remainders that few bytes make equal differ in few bytes. */
  lemma {:induction false} FewBytesBack(l: bv32, m: bv32, u: Bytes, w: Bytes)
    requires |u| == |w| <= 4 && Absorb(l, u) == Absorb(m, w)
    ensures LowOnly(Xor(l, m), |u|)
    decreases |u|
  {
    hide AbsorbByte, Shifts, Xor, LowOnly;
    if u == [] {
      XorIsZero(l, m);
      NothingLow();
    } else {
      FewBytesBack(AbsorbByte(l, u[0]), AbsorbByte(m, w[0]), u[1..], w[1..]);
      Differ(l, m, u[0], w[0]);
      OneByteBack(Xor(l, m), Xor(Word(u[0]), Word(w[0])), |u| - 1);
    }
  }

  lemma LowWithZero(d: bv32)
    requires LowOnly(d, 1) && Xor(d, 0) & 0xff == 0
    ensures d == 0
  {
  }

  lemma NothingLow()
    ensures LowOnly(0, 0)
  {
  }

  lemma LowByteZero(x: bv32)
    requires x & 0xffff_ff00 == 0 && x & 0xff == 0
    ensures x == 0
  {
  }

  /** Four bytes or fewer are told apart. */
  lemma {:induction false} FewBytesDiffer(l: bv32, u: Bytes, w: Bytes)
    requires |u| == |w| <= 4 && Absorb(l, u) == Absorb(l, w)
    ensures u == w
    decreases |u|
  {
    hide AbsorbByte, Shifts, Xor, LowOnly;
    if u != [] {
      FewBytesBack(AbsorbByte(l, u[0]), AbsorbByte(l, w[0]), u[1..], w[1..]);
      Differ(l, l, u[0], w[0]);
      XorIsZero(l, l);
      var e := Xor(Word(u[0]), Word(w[0]));
      XorWithZero(e);
      OneByteBack(0, e, |u| - 1);
      LowByteZero(e);
      XorIsZero(Word(u[0]), Word(w[0]));
      WordTells(u[0], w[0]);
      FewBytesDiffer(AbsorbByte(l, u[0]), u[1..], w[1..]);
      assert u == [u[0]] + u[1..] && w == [w[0]] + w[1..];
    }
  }

  /** Equal bytes leave different remainders different. */
  lemma {:induction false} SameBytesKeep(l: bv32, m: bv32, t: Bytes)
    requires Absorb(l, t) == Absorb(m, t)
    ensures l == m
    decreases |t|
  {
    hide AbsorbByte, Shifts, Xor;
    if t != [] {
      SameBytesKeep(AbsorbByte(l, t[0]), AbsorbByte(m, t[0]), t[1..]);
      Differ(l, m, t[0], t[0]);
      XorIsZero(AbsorbByte(l, t[0]), AbsorbByte(m, t[0]));
      XorIsZero(Word(t[0]), Word(t[0]));
      XorIsZero(l, m);
      NothingLow();
      OneByteBack(Xor(l, m), 0, 0);
      LowWithZero(Xor(l, m));
    }
  }

  lemma InvertTwice(x: bv32)
    ensures Invert(Invert(x)) == x
  {
  }

  /** Extending the checksum of `a` by `b` gives that of both. */
  lemma ExtendConcat(crc: bv32, a: Bytes, b: Bytes)
    ensures Extend(Extend(crc, a), b) == Extend(crc, a + b)
  {
    hide Absorb, Invert;
    AbsorbConcat(Invert(crc), a, b);
    InvertTwice(Absorb(Invert(crc), a));
  }

  /** A change that is confined to four bytes changes the checksum, wherever it is. */
  lemma ChangeIsDetected(front: Bytes, u: Bytes, w: Bytes, back: Bytes)
    requires |u| == |w| <= 4
    ensures Value(front + u + back) == Value(front + w + back) <==> u == w
  {
    hide Absorb, Invert;
    var l := Invert(0);
    AbsorbConcat(l, front + u, back);
    AbsorbConcat(l, front + w, back);
    AbsorbConcat(l, front, u);
    AbsorbConcat(l, front, w);
    if Value(front + u + back) == Value(front + w + back) {
      InvertTwice(Absorb(l, front + u + back));
      InvertTwice(Absorb(l, front + w + back));
      SameBytesKeep(Absorb(l, front + u), Absorb(l, front + w), back);
      FewBytesDiffer(Absorb(l, front), u, w);
    }
  }

  // ---- a published value ----

  lemma ZeroWord()
    ensures Word(0) == 0
  {
  }

  lemma AbsorbZero(l: bv32)
    ensures AbsorbByte(l, 0) == Shifts(l, 8)
  {
    ZeroWord();
    AbsorbByteIs(l, 0);
    XorWithZero(l);
  }

  lemma {:induction false} AbsorbZeros(l: bv32, n: nat)
    ensures Absorb(l, seq(n, _ => 0)) == Shifts(l, 8 * n)
  {
    hide AbsorbByte, ShiftBit;
    if n > 0 {
      AbsorbZeros(l, n - 1);
      var front := seq(n - 1, _ => 0);
      assert seq(n, _ => 0) == front + [0];
      AbsorbConcat(l, front, [0]);
      AbsorbZero(Absorb(l, front));
      ShiftsConcat(l, 8 * (n - 1), 8);
    }
  }

  lemma {:induction false} ShiftsConcat(l: bv32, m: nat, n: nat)
    ensures Shifts(Shifts(l, m), n) == Shifts(l, m + n)
  {
    hide ShiftBit;
    if n > 0 {
      ShiftsConcat(l, m, n - 1);
    }
  }

  lemma ThirtyTwo(l: bv32)
    ensures Shifts(l, 32) == Shifts(Shifts(Shifts(Shifts(l, 8), 8), 8), 8)
  {
    hide Shifts;
    ShiftsConcat(Shifts(Shifts(l, 8), 8), 8, 8);
    ShiftsConcat(Shifts(l, 8), 8, 16);
    ShiftsConcat(l, 8, 24);
  }

  lemma FourBytes(l: bv32, a: bv32, b: bv32, c: bv32, d: bv32)
    requires Shifts(l, 8) == a && Shifts(a, 8) == b && Shifts(b, 8) == c && Shifts(c, 8) == d
    ensures Shifts(l, 32) == d
  {
    ThirtyTwo(l);
    hide Shifts;
  }

  /** The remainders after every four bytes. */
  lemma ZeroRemainders()
    ensures Shifts(0xffff_ffff, 32) == 0xb798_b438
    ensures Shifts(0xb798_b438, 32) == 0x73d7_4d75
    ensures Shifts(0x73d7_4d75, 32) == 0xd49f_4aa2
    ensures Shifts(0xd49f_4aa2, 32) == 0xbd8f_6515
    ensures Shifts(0xbd8f_6515, 32) == 0x433a_a9c1
    ensures Shifts(0x433a_a9c1, 32) == 0x7b04_1311
    ensures Shifts(0x7b04_1311, 32) == 0x0836_3896
    ensures Shifts(0x0836_3896, 32) == 0x756e_c955
  {
    EightShifts(0xffff_ffff);
    EightShifts(0xad82_acae);
    EightShifts(0x0e9e_882d);
    EightShifts(0x9f9b_5c85);
    EightShifts(0xb798_b438);
    EightShifts(0xba8d_89ca);
    EightShifts(0xa8d5_8375);
    EightShifts(0x44c1_9592);
    EightShifts(0x73d7_4d75);
    EightShifts(0x441a_975c);
    EightShifts(0x1c22_0f94);
    EightShifts(0x552e_4907);
    EightShifts(0xd49f_4aa2);
    EightShifts(0x43a4_5a1b);
    EightShifts(0x8994_c80e);
    EightShifts(0xacf1_2bef);
    EightShifts(0xbd8f_6515);
    EightShifts(0x2512_5c16);
    EightShifts(0x36da_32db);
    EightShifts(0x4a6c_90a2);
    EightShifts(0x433a_a9c1);
    EightShifts(0x31a5_9f6e);
    EightShifts(0xcd8f_89da);
    EightShifts(0xb8fc_461a);
    EightShifts(0x7b04_1311);
    EightShifts(0xe24e_407f);
    EightShifts(0x2f69_2669);
    EightShifts(0x195b_2188);
    EightShifts(0x0836_3896);
    EightShifts(0xb401_2dc7);
    EightShifts(0x17f3_4302);
    EightShifts(0xe12c_83b4);
    FourBytes(0xffff_ffff, 0xad82_acae, 0x0e9e_882d, 0x9f9b_5c85, 0xb798_b438);
    FourBytes(0xb798_b438, 0xba8d_89ca, 0xa8d5_8375, 0x44c1_9592, 0x73d7_4d75);
    FourBytes(0x73d7_4d75, 0x441a_975c, 0x1c22_0f94, 0x552e_4907, 0xd49f_4aa2);
    FourBytes(0xd49f_4aa2, 0x43a4_5a1b, 0x8994_c80e, 0xacf1_2bef, 0xbd8f_6515);
    FourBytes(0xbd8f_6515, 0x2512_5c16, 0x36da_32db, 0x4a6c_90a2, 0x433a_a9c1);
    FourBytes(0x433a_a9c1, 0x31a5_9f6e, 0xcd8f_89da, 0xb8fc_461a, 0x7b04_1311);
    FourBytes(0x7b04_1311, 0xe24e_407f, 0x2f69_2669, 0x195b_2188, 0x0836_3896);
    FourBytes(0x0836_3896, 0xb401_2dc7, 0x17f3_4302, 0xe12c_83b4, 0x756e_c955);
  }

  /** The checksum of 32 bytes of zeros (section B.4 of RFC 3720). */
  lemma ZerosResult()
    ensures Value(seq(32, _ => 0)) == 0x8a91_36aa
  {
    hide Absorb, Shifts;
    AbsorbZeros(0xffff_ffff, 32);
    ShiftsConcat(0xffff_ffff, 32, 32);
    ShiftsConcat(0xffff_ffff, 64, 32);
    ShiftsConcat(0xffff_ffff, 96, 32);
    ShiftsConcat(0xffff_ffff, 128, 32);
    ShiftsConcat(0xffff_ffff, 160, 32);
    ShiftsConcat(0xffff_ffff, 192, 32);
    ShiftsConcat(0xffff_ffff, 224, 32);
    ZeroRemainders();
  }

  /** Rotated right by 15 bits, plus a constant. */
  function Mask(crc: nat): (m: nat)
    requires crc < WORD
    ensures m < WORD
  {
    (crc / 0x8000 + crc % 0x8000 * 0x2_0000 + MASK_DELTA) % WORD
  }

  function Unmask(masked: nat): (crc: nat)
    requires masked < WORD
    ensures crc < WORD
  {
    var rot := (masked + WORD - MASK_DELTA) % WORD;
    rot / 0x2_0000 + rot % 0x2_0000 * 0x8000
  }

  lemma MaskRoundTrip(crc: nat)
    requires crc < WORD
    ensures Unmask(Mask(crc)) == crc
  {
    var high, low := crc / 0x8000, crc % 0x8000;
    var rot := high + low * 0x2_0000;
    assert rot < WORD && (Mask(crc) + WORD - MASK_DELTA) % WORD == rot;
    assert rot / 0x2_0000 == low && rot % 0x2_0000 == high;
  }

  lemma UnmaskRoundTrip(masked: nat)
    requires masked < WORD
    ensures Mask(Unmask(masked)) == masked
  {
    var rot := (masked + WORD - MASK_DELTA) % WORD;
    var high, low := rot / 0x2_0000, rot % 0x2_0000;
    var crc := Unmask(masked);
    assert crc == high + low * 0x8000 && crc / 0x8000 == low && crc % 0x8000 == high;
    assert (rot + MASK_DELTA) % WORD == masked;
  }

  lemma MaskParts(crc: nat)
    requires crc < WORD
    ensures var low, high := crc % 0x8000, crc / 0x8000;
            && crc == low + 0x8000 * high && low < 0x8000 && high < 0x2_0000
            && (Mask(crc) + WORD - MASK_DELTA) % WORD == high + 0x2_0000 * low
  {
  }

  /** Without the constant, every bit of the masked checksum is the one 15 places up. */
  lemma MaskRotates(crc: nat, i: nat)
    requires crc < WORD && i < 32
    ensures Bit((Mask(crc) + WORD - MASK_DELTA) % WORD, i) <==> Bit(crc, (i + 15) % 32)
  {
    hide Mask, Two, Bit;
    MaskParts(crc);
    TwoIs();
    var low, high := crc % 0x8000, crc / 0x8000;
    if i < 17 {
      LowBit(high, low, 17, i);
      HighBit(low, high, 15, i);
    } else {
      HighBit(high, low, 17, i - 17);
      LowBit(low, high, 15, i - 17);
    }
  }
}
