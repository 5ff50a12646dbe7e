/** The Snappy byte format: what a compressed string means (the tags of snappy.cc). */
module SnappyFormat {
  import opened ByteStrings
  import opened Wrappers

  datatype Element = Literal(data: Bytes) | Copy(offset: nat, length: nat)

  /** An element and the number of bytes it was encoded in. */
  datatype Item = Item(element: Element, size: nat)

  // ---- tags: two bits of type, six bits of length or length and offset ----

  function Kind(tag: byte): nat {
    tag % 4
  }

  function ExtraBytes(tag: byte): (n: nat)
    ensures n <= 4
  {
    if Kind(tag) == 0 then (if tag / 4 < 60 then 0 else tag / 4 - 59)
    else if Kind(tag) == 1 then 1
    else if Kind(tag) == 2 then 2
    else 4
  }

  function CopyLength(tag: byte): (n: nat)
    ensures 1 <= n <= 64
  {
    if Kind(tag) == 1 then tag / 4 % 8 + 4 else tag / 4 + 1
  }

  function CopyHigh(tag: byte): nat {
    if Kind(tag) == 1 then tag / 32 else 0
  }

  /** A literal's length: in the tag, or one more than the bytes after it, in 32-bit arithmetic. */
  function LiteralLength(tag: byte, trailer: nat): nat {
    if tag / 4 < 60 then tag / 4 + 1 else (trailer + 1) % WORD
  }

  /** The first element of a compressed string, if all of it is there. */
  function Head(s: Bytes): (r: Option<Item>)
    ensures r.Some? ==> 0 < r.value.size <= |s|
  {
    if s == [] || |s| < 1 + ExtraBytes(s[0]) then None
    else
      var start := 1 + ExtraBytes(s[0]);
      var trailer := LittleEndian(s[1..start]);
      if Kind(s[0]) == 0 then
        var n := LiteralLength(s[0], trailer);
        if |s| < start + n then None else Some(Item(Literal(s[start..start + n]), start + n))
      else Some(Item(Copy(256 * CopyHigh(s[0]) + trailer, CopyLength(s[0])), start))
  }

  /** `n` bytes appended one at a time, each equal to the one `offset` before it: source and target may overlap. */
  function CopyBytes(out: Bytes, offset: nat, n: nat): (r: Bytes)
    requires 0 < offset <= |out|
    ensures |r| == |out| + n && r[..|out|] == out
    decreases n
  {
    if n == 0 then out else
      var r := CopyBytes(out + [out[|out| - offset]], offset, n - 1);
      assert out == (out + [out[|out| - offset]])[..|out|];
      r
  }

  /** The output after one more element, if it fits in `limit` bytes and refers to bytes already there. */
  function Apply(e: Element, out: Bytes, limit: nat): (r: Option<Bytes>)
    ensures r.Some? && |out| <= limit ==> |out| <= |r.value| <= limit
  {
    match e
    case Literal(data) => if |out| + |data| > limit then None else Some(out + data)
    case Copy(offset, n) =>
      if offset == 0 || offset > |out| || |out| + n > limit then None else Some(CopyBytes(out, offset, n))
  }

  /** The output of a sequence of elements. */
  function Decode(s: Bytes, out: Bytes, limit: nat): Option<Bytes>
    decreases |s|
  {
    if s == [] then Some(out)
    else match Head(s) {
      case None => None
      case Some(item) =>
        match Apply(item.element, out, limit)
        case None => None
        case Some(out') => Decode(s[item.size..], out', limit)
    }
  }

  // ---- the length header: seven bits a byte, low bits first, in at most five bytes ----

  datatype Length = Length(value: nat, size: nat)

  /** Seven bits shifted left to their place in a 32-bit word; the fifth group keeps only four of them. */
  function Group(bits: nat, i: nat): (r: nat)
    requires bits < 128 && i < 5
    ensures r < WORD
  {
    if i == 0 then bits
    else if i == 1 then bits * 0x80
    else if i == 2 then bits * 0x4000
    else if i == 3 then bits * 0x20_0000
    else bits * 0x1000_0000 % WORD
  }

  /** The header from its `i`th byte on. */
  function HeaderFrom(s: Bytes, i: nat): (r: Option<Length>)
    requires i <= 5
    ensures r.Some? ==> 0 < r.value.size <= |s| && r.value.value < WORD
    decreases 5 - i
  {
    if i == 5 || s == [] then None
    else if s[0] < 128 then Some(Length(Group(s[0], i), 1))
    else match HeaderFrom(s[1..], i + 1) {
      case None => None
      case Some(rest) => Some(Length((Group(s[0] - 128, i) + rest.value) % WORD, rest.size + 1))
    }
  }

  /** A number moved to the place of the `i`th group. */
  function Placed(v: nat, i: nat): nat
    requires i < 5
  {
    if i == 0 then v
    else if i == 1 then v * 0x80
    else if i == 2 then v * 0x4000
    else if i == 3 then v * 0x20_0000
    else v * 0x1000_0000
  }

  lemma PlacedParts(v: nat, i: nat)
    requires i < 5 && Placed(v, i) < WORD
    ensures v < 128 ==> Group(v, i) == Placed(v, i)
    ensures v >= 128 ==> i < 4 && Group(v % 128, i) + Placed(v / 128, i + 1) == Placed(v, i)
  {
    assert v == v % 128 + 128 * (v / 128);
  }

  /** The decoded header is the number encoded, whatever follows it. */
  lemma {:induction false} HeaderRoundTrip(v: nat, i: nat, rest: Bytes)
    requires i < 5 && Placed(v, i) < WORD
    ensures HeaderFrom(Varint(v) + rest, i) == Some(Length(Placed(v, i), |Varint(v)|))
    decreases v
  {
    hide Group, Placed;
    var s := Varint(v) + rest;
    PlacedParts(v, i);
    if v >= 128 {
      assert s[1..] == Varint(v / 128) + rest;
      HeaderRoundTrip(v / 128, i + 1, rest);
    }
  }

  /** What a whole compressed string stands for. */
  function Uncompressed(s: Bytes): Option<Bytes> {
    match HeaderFrom(s, 0)
    case None => None
    case Some(length) =>
      match Decode(s[length.size..], [], length.value)
      case None => None
      case Some(out) => if |out| == length.value then Some(out) else None
  }

  // ---- overlapping copies ----

  /** Every byte of `s` from `from` up to `to` repeats the one `offset` before it. */
  ghost predicate Repeats(s: Bytes, offset: nat, from: nat, to: nat) {
    && 0 < offset <= from && to <= |s|
    && forall k :: from <= k < to ==> s[k] == s[k - offset]
  }

  lemma {:induction false} CopyRepeats(out: Bytes, offset: nat, n: nat)
    requires 0 < offset <= |out|
    ensures Repeats(CopyBytes(out, offset, n), offset, |out|, |out| + n)
    decreases n
  {
    if n > 0 {
      CopyRepeats(out + [out[|out| - offset]], offset, n - 1);
      var r := CopyBytes(out, offset, n);
      assert r[..|out| + 1] == out + [out[|out| - offset]];
      assert r[|out|] == r[..|out| + 1][|out|] && r[|out| - offset] == r[..|out| + 1][|out| - offset];
    }
  }

  /** However it is computed, a string that extends `out` and repeats is the byte-by-byte copy. */
  lemma {:induction false} RepeatsIsCopy(out: Bytes, offset: nat, n: nat, r: Bytes)
    requires 0 < offset <= |out| && |r| == |out| + n && r[..|out|] == out
    requires Repeats(r, offset, |out|, |r|)
    ensures r == CopyBytes(out, offset, n)
    decreases n
  {
    if n == 0 {
      assert r == r[..|out|];
    } else {
      var next := out + [out[|out| - offset]];
      assert r[|out| - offset] == r[..|out|][|out| - offset];
      assert r[..|out| + 1] == next;
      RepeatsIsCopy(next, offset, n - 1, r);
    }
  }

  lemma {:induction false} CopyInTwo(out: Bytes, offset: nat, m: nat, n: nat)
    requires 0 < offset <= |out|
    ensures CopyBytes(CopyBytes(out, offset, m), offset, n) == CopyBytes(out, offset, m + n)
    decreases m
  {
    if m > 0 {
      CopyInTwo(out + [out[|out| - offset]], offset, m - 1, n);
    }
  }

  /** Within a repeating stretch, bytes any multiple of the offset apart agree. */
  lemma {:induction false} RepeatsManyTimes(s: Bytes, offset: nat, from: nat, to: nat, k: nat, times: nat)
    requires Repeats(s, offset, from, to)
    requires from - offset + offset * times <= k < to
    ensures 0 <= k - offset * times && s[k] == s[k - offset * times]
    decreases times
  {
    if times > 0 {
      assert offset * times == offset * (times - 1) + offset;
      RepeatsManyTimes(s, offset, from, to, k - offset, times - 1);
    }
  }
}
