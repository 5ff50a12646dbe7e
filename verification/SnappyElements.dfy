/** Every element of the Snappy format, as an encoder may write it, and what decoding makes of it: whatever a compressor
    emits, not just what this one does (snappy-internal.h, format_description.txt). */
module SnappyElements {
  import opened Wrappers
  import opened ByteStrings
  import opened SnappyFormat

  /** An element with the way it is written: a literal's length in the tag or in some bytes behind it, a copy's offset in
      eleven, sixteen or thirty-two bits. */
  datatype Token =
    | ShortLiteral(data: Bytes)
    | LongLiteral(data: Bytes, width: nat)
    | CopyOne(offset: nat, length: nat)
    | CopyTwo(offset: nat, length: nat)
    | CopyFour(offset: nat, length: nat)

  predicate Legal(t: Token) {
    match t
    case ShortLiteral(data) => 1 <= |data| <= 60
    case LongLiteral(data, width) => 1 <= width <= 4 && 1 <= |data| < WORD && |data| <= Values(width)
    case CopyOne(offset, length) => offset < 0x800 && 4 <= length <= 11
    case CopyTwo(offset, length) => offset < 0x1_0000 && 1 <= length <= 64
    case CopyFour(offset, length) => offset < WORD && 1 <= length <= 64
  }

  function TokenBytes(t: Token): (s: Bytes)
    requires Legal(t)
  {
    match t
    case ShortLiteral(data) => [(|data| - 1) * 4] + data
    case LongLiteral(data, width) => [(59 + width) * 4] + Fixed32(|data| - 1)[..width] + data
    case CopyOne(offset, length) => [offset / 256 * 32 + (length - 4) * 4 + 1, offset % 256]
    case CopyTwo(offset, length) => [(length - 1) * 4 + 2] + Fixed32(offset)[..2]
    case CopyFour(offset, length) => [(length - 1) * 4 + 3] + Fixed32(offset)
  }

  function Meant(t: Token): Element {
    match t
    case ShortLiteral(data) => Literal(data)
    case LongLiteral(data, _) => Literal(data)
    case CopyOne(offset, length) => Copy(offset, length)
    case CopyTwo(offset, length) => Copy(offset, length)
    case CopyFour(offset, length) => Copy(offset, length)
  }

  // ---- numbers in a few bytes ----

  lemma FewValues()
    ensures Values(0) == 1 && Values(1) == 0x100 && Values(2) == 0x1_0000 && Values(3) == 0x100_0000 && Values(4) == WORD
  {
    assert Values(2) == 256 * Values(1) && Values(3) == 256 * Values(2) && Values(4) == 256 * Values(3);
  }

  lemma NoMultiple(m: nat, x: nat, v: nat)
    requires m * x <= v < m
    ensures x == 0
  {
  }

  lemma FewBytes(v: nat, n: nat)
    requires n <= 4 && v < WORD && v < Values(n)
    ensures LittleEndian(Fixed32(v)[..n]) == v
  {
    var s := Fixed32(v);
    Fixed32RoundTrip(v);
    LittleEndianSplit(s, n);
    NoMultiple(Values(n), LittleEndian(s[n..]), v);
  }

  function DigitAt(s: Bytes, i: nat): byte {
    if i < |s| then s[i] else 0
  }

  lemma Digits(s: Bytes)
    requires |s| <= 4
    ensures LittleEndian(s) == DigitAt(s, 0) + 0x100 * DigitAt(s, 1) + 0x1_0000 * DigitAt(s, 2) + 0x100_0000 * DigitAt(s, 3)
  {
    assert |s| > 0 ==> LittleEndian(s) == s[0] + 256 * LittleEndian(s[1..]);
    assert |s| > 1 ==> LittleEndian(s[1..]) == s[1] + 256 * LittleEndian(s[2..]) && s[1..][1..] == s[2..];
    assert |s| > 2 ==> LittleEndian(s[2..]) == s[2] + 256 * LittleEndian(s[3..]) && s[2..][1..] == s[3..];
    assert |s| > 3 ==> LittleEndian(s[3..]) == s[3] + 256 * LittleEndian(s[4..]) && s[3..][1..] == s[4..];
  }

  /** The bytes that encode a number are its own. */
  lemma BytesOfNumber(s: Bytes)
    requires |s| <= 4
    ensures LittleEndian(s) < WORD && LittleEndian(s) < Values(|s|) && Fixed32(LittleEndian(s))[..|s|] == s
  {
    hide LittleEndian, Fixed32, Values;
    Digits(s);
    FourDigits(DigitAt(s, 0), DigitAt(s, 1), DigitAt(s, 2), DigitAt(s, 3));
    LittleEndianSplit(s, |s|);
    assert s[..|s|] == s;
  }

  // ---- one element ----

  lemma HeadOfLong(data: Bytes, width: nat, rest: Bytes)
    requires Legal(LongLiteral(data, width))
    ensures Head(TokenBytes(LongLiteral(data, width)) + rest) == Some(Item(Literal(data), 1 + width + |data|))
  {
    FewValues();
    FewBytes(|data| - 1, width);
    var tag, count := (59 + width) * 4, Fixed32(|data| - 1)[..width];
    hide LittleEndian, Fixed32, Values;
    var s := [tag] + count + data + rest;
    assert s[1..1 + width] == count && s[1 + width..1 + width + |data|] == data;
    assert Kind(tag) == 0 && tag / 4 == 59 + width && ExtraBytes(tag) == width;
  }

  lemma HeadOfCopyTag(t: Token, rest: Bytes)
    requires Legal(t) && (t.CopyOne? || t.CopyTwo? || t.CopyFour?)
    ensures var tag := TokenBytes(t)[0];
            && Kind(tag) == (if t.CopyOne? then 1 else if t.CopyTwo? then 2 else 3)
            && CopyLength(tag) == t.length && CopyHigh(tag) == if t.CopyOne? then t.offset / 256 else 0
  {
  }

  lemma HeadOfCopy(t: Token, rest: Bytes)
    requires Legal(t) && (t.CopyOne? || t.CopyTwo? || t.CopyFour?)
    ensures Head(TokenBytes(t) + rest) == Some(Item(Copy(t.offset, t.length), |TokenBytes(t)|))
  {
    FewValues();
    HeadOfCopyTag(t, rest);
    var s := TokenBytes(t) + rest;
    if t.CopyOne? {
      assert s[1..2] == [t.offset % 256];
      assert LittleEndian([t.offset % 256]) == t.offset % 256;
    } else if t.CopyTwo? {
      FewBytes(t.offset, 2);
      assert s[1..3] == Fixed32(t.offset)[..2];
    } else {
      FewBytes(t.offset, 4);
      assert s[1..5] == Fixed32(t.offset) == Fixed32(t.offset)[..4];
    }
    hide LittleEndian, Fixed32, Values, CopyLength, CopyHigh, Kind;
  }

  /** Whatever follows, the element is read back. */
  lemma HeadOfToken(t: Token, rest: Bytes)
    requires Legal(t)
    ensures Head(TokenBytes(t) + rest) == Some(Item(Meant(t), |TokenBytes(t)|))
  {
    match t
    case ShortLiteral(data) =>
      var s := TokenBytes(t) + rest;
      assert s[1..1] == [] && s[1..1 + |data|] == data;
    case LongLiteral(data, width) =>
      hide Head;
      HeadOfLong(data, width, rest);
    case _ =>
      hide Head, TokenBytes;
      HeadOfCopy(t, rest);
  }

  const WRAPPED: Bytes := [252, 255, 255, 255, 255]

  /** And nothing else is read as an element, but for a literal length of 2^32, which wraps around to 0. */
  lemma HeadIsToken(s: Bytes) returns (t: Token)
    requires Head(s).Some? && !(WRAPPED <= s)
    ensures Legal(t) && TokenBytes(t) <= s && Head(s) == Some(Item(Meant(t), |TokenBytes(t)|))
  {
    if Kind(s[0]) == 0 && s[0] / 4 < 60 {
      var data := Head(s).value.element.data;
      t := ShortLiteral(data);
      assert s[..1 + |data|] == [s[0]] + data;
    } else if Kind(s[0]) == 0 {
      t := LongToken(s);
    } else {
      t := CopyToken(s);
    }
  }

  lemma CopyToken(s: Bytes) returns (t: Token)
    requires Head(s).Some? && Kind(s[0]) != 0
    ensures Legal(t) && TokenBytes(t) <= s && Head(s) == Some(Item(Meant(t), |TokenBytes(t)|))
  {
    FewValues();
    var tag := s[0];
    var start := 1 + ExtraBytes(tag);
    var extra, e := s[1..start], Head(s).value.element;
    BytesOfNumber(extra);
    t := if Kind(tag) == 1 then CopyOne(e.offset, e.length) else if Kind(tag) == 2 then CopyTwo(e.offset, e.length)
         else CopyFour(e.offset, e.length);
    assert s[..start] == [tag] + extra;
    assert Kind(tag) == 1 ==> extra == [s[1]] && LittleEndian(extra) == s[1];
    hide LittleEndian, Fixed32, Values;
  }

  lemma LongParts(s: Bytes)
    requires Head(s).Some? && Kind(s[0]) == 0 && s[0] / 4 >= 60 && !(WRAPPED <= s)
    ensures var width := ExtraBytes(s[0]);
            && 1 <= width <= 4 && s[0] == (59 + width) * 4 && 1 + width <= |s|
            && var n := LittleEndian(s[1..1 + width]) + 1;
               n < WORD && 1 + width + n <= |s| && Head(s) == Some(Item(Literal(s[1 + width..1 + width + n]), 1 + width + n))
  {
    NotWrapped(s, 1 + ExtraBytes(s[0]));
    hide LittleEndian;
  }

  lemma LongToken(s: Bytes) returns (t: Token)
    requires Head(s).Some? && Kind(s[0]) == 0 && s[0] / 4 >= 60 && !(WRAPPED <= s)
    ensures Legal(t) && TokenBytes(t) <= s && Head(s) == Some(Item(Meant(t), |TokenBytes(t)|))
  {
    hide Head, LittleEndian, Fixed32, Values, ExtraBytes, Kind;
    LongParts(s);
    var width := ExtraBytes(s[0]);
    var extra := s[1..1 + width];
    BytesOfNumber(extra);
    var n := LittleEndian(extra) + 1;
    t := LongLiteral(s[1 + width..1 + width + n], width);
    assert s[..1 + width + n] == [s[0]] + extra + s[1 + width..1 + width + n];
  }

  lemma AllOnes(extra: Bytes)
    requires |extra| <= 4 && LittleEndian(extra) == WORD - 1
    ensures extra == [255, 255, 255, 255]
  {
    FewValues();
    BytesOfNumber(extra);
    FourDigits(255, 255, 255, 255);
  }

  lemma NotWrapped(s: Bytes, start: nat)
    requires s != [] && Kind(s[0]) == 0 && s[0] / 4 >= 60 && start == 1 + ExtraBytes(s[0]) <= |s| && !(WRAPPED <= s)
    ensures LittleEndian(s[1..start]) < WORD - 1
  {
    var extra := s[1..start];
    BytesOfNumber(extra);
    assert extra == [255, 255, 255, 255] ==> s[..start] == [s[0]] + extra == WRAPPED;
    if LittleEndian(extra) == WORD - 1 {
      AllOnes(extra);
    }
  }

  // ---- many elements ----

  predicate AllLegal(ts: seq<Token>) {
    forall t :: t in ts ==> Legal(t)
  }

  function Code(ts: seq<Token>): Bytes
    requires AllLegal(ts)
  {
    if ts == [] then [] else TokenBytes(ts[0]) + Code(ts[1..])
  }

  /** The output of the elements one after the other. */
  function Output(ts: seq<Token>, out: Bytes, limit: nat): Option<Bytes> {
    if ts == [] then Some(out)
    else match Apply(Meant(ts[0]), out, limit) {
      case None => None
      case Some(out') => Output(ts[1..], out', limit)
    }
  }

  /** Decoding what any encoder wrote is applying its elements. */
  lemma {:induction false} DecodeOfTokens(ts: seq<Token>, out: Bytes, limit: nat)
    requires AllLegal(ts)
    ensures Decode(Code(ts), out, limit) == Output(ts, out, limit)
    decreases |ts|
  {
    hide TokenBytes, Head, Apply;
    if ts != [] {
      var first, rest := TokenBytes(ts[0]), Code(ts[1..]);
      HeadOfToken(ts[0], rest);
      assert (first + rest)[|first|..] == rest;
      var applied := Apply(Meant(ts[0]), out, limit);
      if applied.Some? {
        DecodeOfTokens(ts[1..], applied.value, limit);
      }
    }
  }

  /** A length and elements, as any encoder may put them together, stand for the elements' output if that has the length. */
  lemma UncompressedIsOutput(n: nat, ts: seq<Token>)
    requires n < WORD && AllLegal(ts)
    ensures Uncompressed(Varint(n) + Code(ts)) ==
            match Output(ts, [], n)
            case Some(out) => if |out| == n then Some(out) else None
            case None => None
  {
    hide HeaderFrom, Varint, Decode, Code, Output;
    HeaderRoundTrip(n, 0, Code(ts));
    DecodeOfTokens(ts, [], n);
    var s := Varint(n) + Code(ts);
    assert s[|Varint(n)|..] == Code(ts);
  }
}
