/** The places decompressed bytes go: a flat array, or nowhere (snappy.cc). */
module SnappyWriters {
  import opened ByteStrings
  import opened Wrappers
  import opened SnappyFormat

  const MAX_INCREMENT_COPY_OVERFLOW: nat := 10

  /** One eight-byte load and one eight-byte store. */
  method UnalignedCopy64(a: array<byte>, src: nat, dst: nat)
    requires src + 8 <= a.Length && dst + 8 <= a.Length
    modifies a
    ensures forall k :: 0 <= k < a.Length ==> a[k] == old(if dst <= k < dst + 8 then a[src + k - dst] else a[k])
  {
    forall i | 0 <= i < 8 {
      a[dst + i] := a[src + i];
    }
  }

  /** `len` bytes from `src` to `op`, one at a time. */
  method IncrementalCopy(a: array<byte>, src: nat, op: nat, len: nat)
    requires src < op && 0 < len && op + len <= a.Length
    modifies a
    ensures Repeats(a[..], op - src, op, op + len)
    ensures forall k :: 0 <= k < op || op + len <= k < a.Length ==> a[k] == old(a[k])
  {
    var i := 0;
    while i < len
      invariant i <= len && Repeats(a[..], op - src, op, op + i)
      invariant forall k :: 0 <= k < op || op + i <= k < a.Length ==> a[k] == old(a[k])
    {
      a[op + i] := a[src + i];
      i := i + 1;
    }
  }

  /** A stretch followed by its first `n` bytes again still repeats: the distance is a multiple of the offset. */
  lemma RepeatsAfterBlock(s: Bytes, offset: nat, from: nat, op: nat, distance: nat, times: nat, n: nat)
    requires Repeats(s, offset, from, op) && from <= op && distance == offset * times && 0 < times
    requires n <= distance && distance <= op - (from - offset) && op + n <= |s|
    requires forall k :: op <= k < op + n ==> s[k] == s[k - distance]
    ensures Repeats(s, offset, from, op + n)
  {
    forall k | op <= k < op + n ensures s[k] == s[k - offset] {
      if k - offset < op {
        assert distance - offset == offset * (times - 1);
        RepeatsManyTimes(s, offset, from, op, k - offset, times - 1);
      } else {
        assert s[k - offset] == s[k - offset - distance];
        assert s[k - distance] == s[k - distance - offset];
      }
    }
  }

  /** The same copy eight bytes at a time, the pattern doubling first while it is shorter than that. It writes
      at most ten bytes more than asked. */
  method IncrementalCopyFastPath(a: array<byte>, from: nat, to: nat, length: nat)
    requires from < to && 0 < length && to + length + MAX_INCREMENT_COPY_OVERFLOW <= a.Length
    modifies a
    ensures Repeats(a[..], to - from, to, to + length)
    ensures forall k :: 0 <= k < to || to + length + MAX_INCREMENT_COPY_OVERFLOW <= k < a.Length ==> a[k] == old(a[k])
  {
    var src, op, len := from, to, length as int;
    ghost var offset, times := to - from, 1;
    while op - src < 8
      invariant src == from && to <= op && len == length - (op - to)
      invariant op - src == offset * times && times in {1, 2, 4, 8}
      invariant op - src < 8 ==> op <= to + 3
      invariant Repeats(a[..], offset, to, op)
      invariant forall k :: 0 <= k < to || to + 11 <= k < a.Length ==> a[k] == old(a[k])
      decreases 8 - (op - src)
    {
      var distance := op - src;
      UnalignedCopy64(a, src, op);
      RepeatsAfterBlock(a[..], offset, to, op, distance, times, distance);
      len := len - distance;
      op := op + distance;
      times := 2 * times;
    }
    var distance := op - src;
    while len > 0
      invariant op - src == distance == offset * times && distance >= 8 && from <= src
      invariant to <= op && len == length - (op - to)
      invariant Repeats(a[..], offset, to, op)
      invariant forall k :: 0 <= k < to || to + length + MAX_INCREMENT_COPY_OVERFLOW <= k < a.Length ==> a[k] == old(a[k])
      decreases len
    {
      UnalignedCopy64(a, src, op);
      RepeatsAfterBlock(a[..], offset, to, op, distance, times, 8);
      src := src + 8;
      op := op + 8;
      len := len - 8;
    }
  }

  /** The output after copying from itself, whichever way the copy was made. */
  lemma CopiedInPlace(before: Bytes, after: Bytes, op: nat, offset: nat, len: nat)
    requires 0 < offset <= op && op + len <= |after| == |before| && after[..op] == before[..op]
    requires Repeats(after, offset, op, op + len)
    ensures after[..op + len] == CopyBytes(before[..op], offset, len)
  {
    var r := after[..op + len];
    assert r[..op] == before[..op];
    RepeatsIsCopy(before[..op], offset, len, r);
  }

  /** Sixteen bytes in two stores; the second may read what the first one wrote. */
  method CopySixteen(a: array<byte>, op: nat, offset: nat)
    requires 8 <= offset <= op && op + 16 <= a.Length
    modifies a
    ensures Repeats(a[..], offset, op, op + 16)
    ensures forall k :: 0 <= k < op || op + 16 <= k < a.Length ==> a[k] == old(a[k])
  {
    UnalignedCopy64(a, op - offset, op);
    UnalignedCopy64(a, op - offset + 8, op + 8);
  }

  /** The three ways to copy `len` bytes from `offset` back, by how much space is left. */
  method CopyWithin(a: array<byte>, op: nat, offset: nat, len: nat, spaceLeft: nat) returns (ok: bool)
    requires 0 < offset <= op && 0 < len && op + spaceLeft <= a.Length
    modifies a
    ensures ok <==> len <= spaceLeft
    ensures ok ==> Repeats(a[..], offset, op, op + len)
    ensures forall k :: 0 <= k < op || op + spaceLeft <= k < a.Length ==> a[k] == old(a[k])
  {
    if len <= 16 && offset >= 8 && spaceLeft >= 16 {
      CopySixteen(a, op, offset);
    } else if spaceLeft >= len + MAX_INCREMENT_COPY_OVERFLOW {
      IncrementalCopyFastPath(a, op - offset, op, len);
    } else {
      if spaceLeft < len {
        return false;
      }
      IncrementalCopy(a, op - offset, op, len);
    }
    return true;
  }

  /** Writes to a flat array of exactly the expected length. */
  class SnappyArrayWriter {
    const dst: array<byte>
    var op: nat
    var opLimit: nat
    ghost var out: Bytes // everything appended

    ghost predicate Valid()
      reads this, dst
    {
      op <= opLimit <= dst.Length && dst[..op] == out
    }

    /** What lies past the limit. */
    ghost function Beyond(): Bytes
      reads this, dst
    {
      if opLimit <= dst.Length then dst[opLimit..] else []
    }

    constructor (dst: array<byte>)
      ensures Valid() && this.dst == dst && out == []
    {
      this.dst, op, opLimit, out := dst, 0, 0, [];
    }

    method SetExpectedLength(len: nat)
      requires Valid() && op + len <= dst.Length
      modifies this
      ensures Valid() && out == old(out) && opLimit == |out| + len
    {
      opLimit := op + len;
    }

    predicate CheckLength()
      reads this
    {
      op == opLimit
    }

    method Append(data: Bytes) returns (ok: bool)
      requires Valid()
      modifies this, dst
      ensures opLimit == old(opLimit) && Beyond() == old(Beyond())
      ensures ok <==> Apply(Literal(data), old(out), opLimit).Some?
      ensures ok ==> Valid() && out == old(out) + data
    {
      var spaceLeft := opLimit - op;
      if spaceLeft < |data| {
        return false;
      }
      forall i | 0 <= i < |data| {
        dst[op + i] := data[i];
      }
      op, out := op + |data|, out + data;
      return true;
    }

    /** Sixteen bytes are stored whatever the length, when both sides have the room. */
    method TryFastAppend(buffer: Bytes, ip: nat, available: nat, len: nat) returns (fast: bool)
      requires Valid() && ip + available <= |buffer|
      modifies this, dst
      ensures Valid() && opLimit == old(opLimit) && Beyond() == old(Beyond())
      ensures fast ==> len <= 16 <= available && out == old(out) + buffer[ip..ip + len] && |out| <= opLimit
      ensures !fast ==> out == old(out)
    {
      var spaceLeft := opLimit - op;
      if len <= 16 && available >= 16 && spaceLeft >= 16 {
        forall i | 0 <= i < 8 {
          dst[op + i] := buffer[ip + i];
        }
        forall i | 0 <= i < 8 {
          dst[op + 8 + i] := buffer[ip + 8 + i];
        }
        op, out := op + len, out + buffer[ip..ip + len];
        return true;
      }
      return false;
    }

    method AppendFromSelf(offset: nat, len: nat) returns (ok: bool)
      requires Valid() && 0 < len
      modifies this, dst
      ensures opLimit == old(opLimit) && Beyond() == old(Beyond())
      ensures ok <==> Apply(Copy(offset, len), old(out), opLimit).Some?
      ensures ok ==> Valid() && out == Apply(Copy(offset, len), old(out), opLimit).value
    {
      var spaceLeft := opLimit - op;
      if offset == 0 || op <= offset - 1 {
        return false;
      }
      ghost var before := dst[..];
      ok := CopyWithin(dst, op, offset, len, spaceLeft);
      if ok {
        CopiedInPlace(before, dst[..], op, offset, len);
        op, out := op + len, CopyBytes(out, offset, len);
        assert dst[..op] == dst[..][..op];
      }
    }
  }

  /** Counts bytes and drops them. */
  class SnappyDecompressionValidator {
    var expected: nat
    var produced: nat
    ghost var out: Bytes

    ghost predicate Valid()
      reads this
    {
      produced == |out| <= expected
    }

    constructor ()
      ensures Valid() && out == []
    {
      expected, produced, out := 0, 0, [];
    }

    method SetExpectedLength(len: nat)
      requires Valid() && out == []
      modifies this
      ensures Valid() && out == [] && expected == len
    {
      expected := len;
    }

    predicate CheckLength()
      reads this
    {
      expected == produced
    }

    method Append(data: Bytes) returns (ok: bool)
      requires Valid()
      modifies this
      ensures expected == old(expected)
      ensures ok <==> Apply(Literal(data), old(out), expected).Some?
      ensures ok ==> Valid() && out == old(out) + data
    {
      produced, out := produced + |data|, out + data;
      return produced <= expected;
    }

    method AppendFromSelf(offset: nat, len: nat) returns (ok: bool)
      requires Valid()
      modifies this
      ensures expected == old(expected)
      ensures ok <==> Apply(Copy(offset, len), old(out), expected).Some?
      ensures ok ==> Valid() && out == Apply(Copy(offset, len), old(out), expected).value
    {
      if offset == 0 || produced <= offset - 1 {
        return false;
      }
      produced, out := produced + len, CopyBytes(out, offset, len);
      return produced <= expected;
    }
  }

  /** What the decompressor writes to. */
  datatype Writer = ToArray(a: SnappyArrayWriter) | Validating(v: SnappyDecompressionValidator) {
    ghost function Repr(): set<object> {
      match this
      case ToArray(a) => {a, a.dst}
      case Validating(v) => {v}
    }

    ghost predicate Valid()
      reads Repr()
    {
      match this
      case ToArray(a) => a.Valid()
      case Validating(v) => v.Valid()
    }

    ghost function Out(): Bytes
      reads Repr()
    {
      match this
      case ToArray(a) => a.out
      case Validating(v) => v.out
    }

    ghost function Limit(): nat
      reads Repr()
    {
      match this
      case ToArray(a) => a.opLimit
      case Validating(v) => v.expected
    }

    ghost function Beyond(): Bytes
      reads Repr()
    {
      match this
      case ToArray(a) => a.Beyond()
      case Validating(_) => []
    }

    /** There is room for `len` bytes of output. */
    ghost predicate Fits(len: nat)
      reads Repr()
    {
      match this
      case ToArray(a) => a.op + len <= a.dst.Length
      case Validating(_) => true
    }

    method SetExpectedLength(len: nat)
      requires Valid() && Out() == [] && Fits(len)
      modifies Repr()
      ensures Valid() && Out() == [] && Limit() == len
      ensures ToArray? ==> a.dst[..] == old(a.dst[..]) && Beyond() == a.dst[len..]
    {
      match this
      case ToArray(a) => a.SetExpectedLength(len);
      case Validating(v) => v.SetExpectedLength(len);
    }

    method CheckLength() returns (complete: bool)
      requires Valid()
      ensures complete <==> |Out()| == Limit()
    {
      match this
      case ToArray(a) => complete := a.CheckLength();
      case Validating(v) => complete := v.CheckLength();
    }

    method Append(data: Bytes) returns (ok: bool)
      requires Valid()
      modifies Repr()
      ensures Limit() == old(Limit()) && Beyond() == old(Beyond())
      ensures ok <==> Apply(Literal(data), old(Out()), Limit()).Some?
      ensures ok ==> Valid() && Out() == old(Out()) + data
    {
      match this
      case ToArray(a) => ok := a.Append(data);
      case Validating(v) => ok := v.Append(data);
    }

    method TryFastAppend(buffer: Bytes, ip: nat, available: nat, len: nat) returns (fast: bool)
      requires Valid() && ip + available <= |buffer|
      modifies Repr()
      ensures Valid() && Limit() == old(Limit()) && Beyond() == old(Beyond())
      ensures fast ==> len <= 16 <= available && Out() == old(Out()) + buffer[ip..ip + len] && |Out()| <= Limit()
      ensures !fast ==> Out() == old(Out())
    {
      match this
      case ToArray(a) => fast := a.TryFastAppend(buffer, ip, available, len);
      case Validating(_) => fast := false;
    }

    method AppendFromSelf(offset: nat, len: nat) returns (ok: bool)
      requires Valid() && 0 < len
      modifies Repr()
      ensures Limit() == old(Limit()) && Beyond() == old(Beyond())
      ensures ok <==> Apply(Copy(offset, len), old(Out()), Limit()).Some?
      ensures ok ==> Valid() && Out() == Apply(Copy(offset, len), old(Out()), Limit()).value
    {
      match this
      case ToArray(a) => ok := a.AppendFromSelf(offset, len);
      case Validating(v) => ok := v.AppendFromSelf(offset, len);
    }
  }
}
