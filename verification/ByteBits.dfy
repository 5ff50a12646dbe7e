/** The bits of bytes, words and other numbers. */
module ByteBits {
  import opened ByteStrings

  // ---- numbers ----

  function Bit(b: nat, i: nat): bool {
    if i == 0 then b % 2 == 1 else Bit(b / 2, i - 1)
  }

  /** The bit of weight 2^i. */
  lemma {:induction false} BitIs(b: nat, i: nat)
    ensures Bit(b, i) <==> b / Two(i) % 2 == 1
  {
    if i > 0 {
      BitIs(b / 2, i - 1);
      HalfThen(b, Two(i - 1));
    }
  }

  lemma HalfThen(b: nat, m: nat)
    requires m > 0
    ensures b / 2 / m == b / (2 * m)
  {
    var q, r := b / (2 * m), b % (2 * m);
    assert b == 2 * (m * q) + r;
    assert b / 2 == m * q + r / 2 && r / 2 < m;
    Quotient(m, q, r / 2);
  }

  lemma Quotient(m: nat, q: nat, r: nat)
    requires r < m
    ensures (m * q + r) / m == q
  {
    var d, e := (m * q + r) / m, (m * q + r) % m;
    assert m * d + e == m * q + r;
    Between(m, q - d, e - r);
  }

  lemma Between(m: nat, x: int, y: int)
    requires m * x == y && y < m && -y < m
    ensures x == 0
  {
  }

  lemma {:induction false} LowBit(low: nat, high: nat, n: nat, i: nat)
    requires low < Two(n) && i < n
    ensures Bit(low + Two(n) * high, i) <==> Bit(low, i)
    decreases i
  {
    var v, m := low + Two(n) * high, Two(n - 1) * high;
    assert Two(n) * high == 2 * m;
    assert v % 2 == low % 2 && v / 2 == low / 2 + m;
    if i > 0 {
      LowBit(low / 2, high, n - 1, i - 1);
    }
  }

  lemma {:induction false} HighBit(low: nat, high: nat, n: nat, i: nat)
    requires low < Two(n)
    ensures Bit(low + Two(n) * high, n + i) <==> Bit(high, i)
    decreases n
  {
    if n > 0 {
      var v, m := low + Two(n) * high, Two(n - 1) * high;
      assert Two(n) * high == 2 * m;
      assert v / 2 == low / 2 + m;
      HighBit(low / 2, high, n - 1, i);
    }
  }

  lemma TwoIs()
    ensures Two(15) == 0x8000 && Two(17) == 0x2_0000
  {
    assert Two(5) == 32 && Two(10) == 1024;
  }

  // ---- bytes ----

  function Bits(b: nat): bv8
    requires b < 256
  {
    b as bv8
  }

  function Number(x: bv8): nat {
    x as nat
  }

  lemma OneMore(x: bv8)
    requires x < 255
    ensures (x + 1) as int == x as int + 1
  {
  }

  /** Counting up reaches every byte. */
  lemma {:induction false} Counted(n: nat) returns (x: bv8)
    requires n < 256
    ensures x as int == n
  {
    x := 0;
    if n > 0 {
      var y := Counted(n - 1);
      OneMore(y);
      x := y + 1;
    }
  }

  lemma ThereAndBack(b: nat)
    requires b < 256
    ensures (b as bv8) as int == b
  {
    var x := Counted(b);
    assert (x as int) as bv8 == x;
  }

  lemma BitsAreNumber(b: nat)
    requires b < 256
    ensures Number(Bits(b)) == b
  {
    ThereAndBack(b);
  }

  /** Different bytes have different bits. */
  lemma BitsTell(b: nat, c: nat)
    requires b < 256 && c < 256 && Bits(b) == Bits(c)
    ensures b == c
  {
    hide Bits, Number;
    BitsAreNumber(b);
    BitsAreNumber(c);
  }

  // ---- words ----

  function WordNumber(x: bv32): nat {
    x as nat
  }

  function NumberWord(n: nat): bv32
    requires n < 0x1_0000_0000
  {
    n as bv32
  }

  lemma WordBack(x: bv32)
    ensures x as nat < 0x1_0000_0000 && (x as nat) as bv32 == x
  {
  }

  lemma WordNumberIs(x: bv32)
    ensures WordNumber(x) == x as nat < 0x1_0000_0000 && NumberWord(WordNumber(x)) == x
  {
    WordBack(x);
  }

  lemma SameNumber(x: bv32, y: bv32)
    requires WordNumber(x) == WordNumber(y)
    ensures x == y
  {
    hide WordNumber, NumberWord;
    WordNumberIs(x);
    WordNumberIs(y);
  }

  /** Different words are different numbers. */
  lemma WordsTell(x: bv32, y: bv32)
    ensures x as nat == y as nat ==> x == y
  {
    WordNumberIs(x);
    WordNumberIs(y);
    hide WordNumber, NumberWord;
    if WordNumber(x) == WordNumber(y) {
      SameNumber(x, y);
    }
  }
}
