/** Decompression from a source that hands out its bytes in pieces (snappy.cc, snappy-sinksource.h). */
module SnappyDecompress {
  import opened ByteStrings
  import opened Wrappers
  import opened SnappyFormat
  import opened SnappyWriters

  /** Bytes to read, shown in regions of whatever sizes it likes. */
  class Source {
    var remaining: Bytes
    var regions: seq<nat> // a size for each region to come; then everything at once

    constructor (data: Bytes, regions: seq<nat>)
      ensures remaining == data && this.regions == regions
    {
      remaining, this.regions := data, regions;
    }

    method Available() returns (n: nat)
      ensures n == |remaining|
    {
      return |remaining|;
    }

    /** The next region: empty only at the end. */
    method Peek() returns (region: Bytes)
      ensures region <= remaining && (region == [] ==> remaining == [])
    {
      if regions == [] || |remaining| <= regions[0] {
        return remaining;
      }
      return remaining[..if regions[0] == 0 then 1 else regions[0]];
    }

    method Skip(n: nat)
      requires n <= |remaining|
      modifies this
      ensures remaining == old(remaining)[n..]
    {
      remaining := remaining[n..];
      regions := if regions == [] then [] else regions[1..];
    }
  }

  // ---- the table of tags, and loads masked to the bytes a tag asks for ----

  /** A tag's length, high offset bits and number of extra bytes in one 16-bit entry. */
  function CharTable(c: byte): nat {
    var len := if Kind(c) != 0 then CopyLength(c) else if c / 4 < 60 then c / 4 + 1 else 1;
    len + 256 * CopyHigh(c) + 2048 * ExtraBytes(c)
  }

  lemma CharTableFields(c: byte)
    ensures CharTable(c) / 2048 == ExtraBytes(c)
    ensures CharTable(c) / 256 % 8 == CopyHigh(c)
    ensures Kind(c) != 0 ==> CharTable(c) % 256 == CopyLength(c)
  {
    assert CopyHigh(c) < 8;
  }

  lemma MaskedLoad(s: Bytes, n: nat)
    requires n <= |s|
    ensures LittleEndian(s) % Values(n) == LittleEndian(s[..n])
  {
    LittleEndianSplit(s, n);
    Remainder(LittleEndian(s[..n]), Values(n), LittleEndian(s[n..]));
  }

  lemma Remainder(a: nat, m: nat, b: nat)
    requires a < m
    ensures (a + m * b) % m == a
  {
    var q, r := (a + m * b) / m, (a + m * b) % m;
    assert a + m * b == m * q + r;
    if q < b {
      TimesMonotone(m, q + 1, b);
    } else if q > b {
      TimesMonotone(m, b + 1, q);
    }
  }

  /** Load32(ip) & wordmask[n]. It touches four bytes, whatever `n`. */
  method MaskedLoad32(buffer: Bytes, ip: nat, n: nat) returns (v: nat)
    requires ip + 4 <= |buffer| && n <= 4
    ensures v == LittleEndian(buffer[ip..ip + n])
  {
    var word := buffer[ip..ip + 4];
    v := LittleEndian(word) % Values(n);
    MaskedLoad(word, n);
    assert word[..n] == buffer[ip..ip + n];
  }

  /** The first tag is complete. */
  ghost predicate Tag(s: Bytes) {
    s != [] && 1 + ExtraBytes(s[0]) <= |s|
  }

  /** What is left to decode, and the output so far. */
  datatype Progress = Progress(rest: Bytes, out: Bytes)

  /** One element decoded. */
  ghost function Advance(s: Bytes, out: Bytes, limit: nat): Option<Progress> {
    match Head(s)
    case None => None
    case Some(item) =>
      match Apply(item.element, out, limit)
      case None => None
      case Some(out') => Some(Progress(s[item.size..], out'))
  }

  /** Decoding goes one element at a time and succeeds only at the end of the input. */
  lemma DecodeStep(s: Bytes, out: Bytes, limit: nat)
    ensures s == [] ==> Decode(s, out, limit) == Some(out)
    ensures s != [] && !Tag(s) ==> Decode(s, out, limit) == None
    ensures s != [] ==>
      Decode(s, out, limit) ==
      match Advance(s, out, limit)
      case None => None
      case Some(p) => Decode(p.rest, p.out, limit)
    ensures Advance(s, out, limit).Some? ==> |Advance(s, out, limit).value.rest| < |s|
  {
  }

  lemma CopyAdvance(s: Bytes, out: Bytes, limit: nat, copy: Element)
    requires Tag(s) && Kind(s[0]) != 0
    requires copy == Copy(256 * CopyHigh(s[0]) + LittleEndian(s[1..1 + ExtraBytes(s[0])]), CopyLength(s[0]))
    ensures Advance(s, out, limit) ==
            match Apply(copy, out, limit)
            case None => None
            case Some(out') => Some(Progress(s[1 + ExtraBytes(s[0])..], out'))
  {
  }

  /** A literal succeeds if all of it is there and it fits. */
  lemma LiteralAdvance(s: Bytes, out: Bytes, limit: nat, length: nat)
    requires Tag(s) && Kind(s[0]) == 0
    requires length == LiteralLength(s[0], LittleEndian(s[1..1 + ExtraBytes(s[0])]))
    ensures var rest := s[1 + ExtraBytes(s[0])..];
            Advance(s, out, limit) ==
            if |rest| < length || |out| + length > limit then None
            else Some(Progress(rest[length..], out + rest[..length]))
  {
    if length <= |s| - (1 + ExtraBytes(s[0])) {
      var n := 1 + ExtraBytes(s[0]);
      assert s[n..][..length] == s[n..n + length] && s[n..][length..] == s[n + length..];
    }
  }

  /** The first `n` bytes of what is unread, and what follows them, when they are at hand. */
  lemma AtHand(unread: Bytes, buffer: Bytes, ip: nat, limit: nat, after: Bytes, n: nat)
    requires ip + n <= limit <= |buffer| && unread == buffer[ip..limit] + after
    ensures unread[..n] == buffer[ip..ip + n]
    ensures unread[n..] == buffer[ip + n..limit] + after
  {
    assert unread[..n] == buffer[ip..limit][..n];
  }

  /** The bytes of a tag after its first. */
  lemma Trailer(unread: Bytes, buffer: Bytes, ip: nat, limit: nat, after: Bytes, n: nat)
    requires ip + 1 + n <= limit <= |buffer| && unread == buffer[ip..limit] + after
    ensures unread[1..1 + n] == buffer[ip + 1..ip + 1 + n]
    ensures unread[1 + n..] == buffer[ip + 1 + n..limit] + after
    ensures unread[0] == buffer[ip]
  {
    AtHand(unread, buffer, ip, limit, after, 1 + n);
    assert unread[1..1 + n] == unread[..1 + n][1..];
  }

  /** `n` bytes went from the input to the output. */
  ghost predicate Transferred(s: Bytes, out: Bytes, n: nat, s': Bytes, out': Bytes) {
    n <= |s| && s' == s[n..] && out' == out + s[..n]
  }

  lemma TransferredTwice(s: Bytes, out: Bytes, m: nat, s': Bytes, out': Bytes, n: nat, s'': Bytes, out'': Bytes)
    requires Transferred(s, out, m, s', out') && Transferred(s', out', n, s'', out'')
    ensures Transferred(s, out, m + n, s'', out'')
  {
    assert s[..m] + s[m..][..n] == s[..m + n];
  }

  class SnappyDecompressor {
    const reader: Source
    var buffer: Bytes  // the memory `ip` points into: a region of the source, or `scratch`
    var ip: nat
    var ipLimit: nat
    var peeked: nat    // bytes of the source shown but not yet skipped
    var eof: bool
    var scratch: Bytes
    ghost var unread: Bytes // the bytes not yet decoded

    ghost predicate Valid()
      reads this, reader
    {
      && |scratch| == 5 && ip <= ipLimit <= |buffer| && peeked <= |reader.remaining|
      && ((buffer == scratch && peeked == 0) || (buffer == reader.remaining[..peeked] && ipLimit == peeked))
      && unread == buffer[ip..ipLimit] + reader.remaining[peeked..]
    }

    /** The whole of the next tag can be loaded, four bytes after the first one. */
    ghost predicate Ready()
      reads this, reader
    {
      Valid() && ip < ipLimit && ip + 1 + ExtraBytes(buffer[ip]) <= ipLimit && ip + 5 <= |buffer|
    }

    constructor (reader: Source)
      ensures Valid() && this.reader == reader && unread == reader.remaining && !eof
      ensures ip == ipLimit == peeked == 0 && buffer == []
    {
      this.reader, buffer, ip, ipLimit, peeked, eof, scratch := reader, [], 0, 0, 0, false, [0, 0, 0, 0, 0];
      unread := reader.remaining;
    }

    /** Brings the next tag into one stretch of memory, in `scratch` if it straddles regions or lies near the
        end of one. Fails at the end of the input (`eof`) or inside a tag cut off by it. */
    method RefillTag() returns (ok: bool)
      requires Valid() && !eof && ipLimit - ip < 5
      modifies this, reader
      ensures eof <==> old(unread) == []
      ensures ok <==> Tag(old(unread))
      ensures ok ==> Ready() && unread == old(unread)
    {
      if ip == ipLimit {
        NextRegion();
        if ipLimit == 0 {
          eof := true;
          return false;
        }
      }
      var needed := CharTable(buffer[ip]) / 2048 + 1;
      CharTableFields(buffer[ip]);
      var nbuf := ipLimit - ip;
      if nbuf < needed {
        ok := Stitch(nbuf, needed);
      } else {
        if nbuf < 5 {
          MoveToScratch(nbuf);
        }
        ok := true;
      }
    }

    /** Everything at hand is used up: on to the next region. */
    method NextRegion()
      requires Valid() && ip == ipLimit
      modifies this, reader
      ensures Valid() && unread == old(unread) && eof == old(eof)
      ensures ip == 0 && (ipLimit == 0 ==> unread == [])
    {
      reader.Skip(peeked);
      buffer := reader.Peek();
      ip, ipLimit, peeked := 0, |buffer|, |buffer|;
    }

    /** The tag is at hand, but loading four bytes after it might read past the region. */
    method MoveToScratch(nbuf: nat)
      requires Valid() && nbuf == ipLimit - ip < 5
      modifies this, reader
      ensures Valid() && unread == old(unread) && eof == old(eof)
      ensures |buffer| == 5 && ip == 0 && ipLimit == nbuf && buffer[..nbuf] == old(buffer[ip..ipLimit])
    {
      scratch := buffer[ip..ipLimit] + scratch[nbuf..];
      reader.Skip(peeked);
      buffer, ip, ipLimit, peeked := scratch, 0, nbuf, 0;
    }

    /** Collects the `needed` bytes of a tag in `scratch`, from the `nbuf` at hand and the source. */
    method Stitch(nbuf: nat, needed: nat) returns (ok: bool)
      requires Valid() && nbuf == ipLimit - ip && 0 < nbuf < needed <= 5
      requires needed == 1 + ExtraBytes(buffer[ip])
      modifies this, reader
      ensures eof == old(eof)
      ensures ok <==> needed <= |old(unread)|
      ensures ok ==> Ready() && unread == old(unread)
    {
      scratch := buffer[ip..ipLimit] + scratch[nbuf..];
      reader.Skip(peeked);
      peeked := 0;
      var n := nbuf;
      while n < needed
        invariant nbuf <= n <= needed && |scratch| == 5 && peeked == 0 && eof == old(eof) && unread == old(unread)
        invariant unread == scratch[..n] + reader.remaining && scratch[0] == unread[0]
        decreases needed - n
      {
        var added := AddToScratch(n, needed);
        if added == 0 {
          return false;
        }
        n := n + added;
      }
      buffer, ip, ipLimit := scratch, 0, needed;
      return true;
    }

    /** Moves what the next region has of the bytes needed to `scratch`. */
    method AddToScratch(n: nat, needed: nat) returns (added: nat)
      requires 0 < n < needed <= |scratch|
      modifies this`scratch, reader
      ensures |scratch| == |old(scratch)| && scratch[0] == old(scratch)[0] && n + added <= needed
      ensures scratch[..n + added] + reader.remaining == old(scratch)[..n] + old(reader.remaining)
      ensures added == 0 ==> old(reader.remaining) == []
    {
      var src := reader.Peek();
      added := if needed - n < |src| then needed - n else |src|;
      scratch := scratch[..n] + src[..added] + scratch[n + added..];
      assert scratch[..n + added] == old(scratch)[..n] + reader.remaining[..added];
      reader.Skip(added);
    }

    method MaybeRefill() returns (ok: bool)
      requires Valid() && !eof
      modifies this, reader
      ensures eof <==> old(unread) == []
      ensures ok <==> Tag(old(unread))
      ensures ok ==> Ready() && unread == old(unread)
    {
      if ipLimit - ip < 5 {
        ok := RefillTag();
      } else {
        ok := true;
      }
    }

    /** The copy that the tag at hand asks for. */
    method ReadCopy() returns (offset: nat, length: nat)
      requires Ready() && Kind(buffer[ip]) != 0
      modifies this`ip, this`unread
      ensures Valid() && 0 < length
      ensures var s := old(unread);
              var n := 1 + ExtraBytes(s[0]);
              && offset == 256 * CopyHigh(s[0]) + LittleEndian(s[1..n]) && length == CopyLength(s[0])
              && unread == s[n..]
    {
      hide LittleEndian;
      var c := buffer[ip];
      var entry := CharTable(c);
      CharTableFields(c);
      Trailer(unread, buffer, ip, ipLimit, reader.remaining[peeked..], ExtraBytes(c));
      ip := ip + 1;
      var trailer := MaskedLoad32(buffer, ip, entry / 2048);
      length := entry % 256;
      ip, unread := ip + entry / 2048, unread[1 + ExtraBytes(c)..];
      offset := entry / 256 % 8 * 256 + trailer;
    }

    method AppendCopy(writer: Writer) returns (ok: bool)
      requires Ready() && Kind(buffer[ip]) != 0 && writer.Valid() && this !in writer.Repr() && reader !in writer.Repr()
      modifies this, writer.Repr()
      ensures eof == old(eof) && writer.Limit() == old(writer.Limit()) && writer.Beyond() == old(writer.Beyond())
      ensures ok <==> Advance(old(unread), old(writer.Out()), writer.Limit()).Some?
      ensures ok ==> Valid() && writer.Valid()
                     && Advance(old(unread), old(writer.Out()), writer.Limit()) == Some(Progress(unread, writer.Out()))
    {
      hide Writer.Valid, Writer.Out, Writer.Limit, Writer.Beyond, Head, Decode, Apply;
      assert unread[0] == buffer[ip];
      var offset, length := ReadCopy();
      CopyAdvance(old(unread), writer.Out(), writer.Limit(), Copy(offset, length));
      ok := writer.AppendFromSelf(offset, length);
    }

    /** Appends `n` bytes that are at hand. */
    method AppendWindow(writer: Writer, n: nat) returns (ok: bool)
      requires Valid() && ip + n <= ipLimit && writer.Valid() && this !in writer.Repr() && reader !in writer.Repr()
      modifies this`ip, this`unread, writer.Repr()
      ensures writer.Limit() == old(writer.Limit()) && writer.Beyond() == old(writer.Beyond())
      ensures ok <==> |old(writer.Out())| + n <= writer.Limit()
      ensures ok ==> Valid() && writer.Valid() && ip == old(ip) + n
                     && Transferred(old(unread), old(writer.Out()), n, unread, writer.Out())
    {
      AtHand(unread, buffer, ip, ipLimit, reader.remaining[peeked..], n);
      ok := writer.Append(buffer[ip..ip + n]);
      if ok {
        ip, unread := ip + n, unread[n..];
      }
    }

    /** Appends all that is at hand, on the way to `left` bytes, and moves to the next region. */
    method AppendRegion(writer: Writer, left: nat) returns (ok: bool)
      requires Valid() && ipLimit - ip < left && writer.Valid() && this !in writer.Repr() && reader !in writer.Repr()
      modifies this, reader, writer.Repr()
      ensures eof == old(eof) && writer.Limit() == old(writer.Limit()) && writer.Beyond() == old(writer.Beyond())
      ensures !ok ==> left > |old(unread)| || |old(writer.Out())| + left > writer.Limit()
      ensures ok ==> Valid() && writer.Valid() && ip < ipLimit
                     && Transferred(old(unread), old(writer.Out()), old(ipLimit - ip), unread, writer.Out())
    {
      hide Writer.Valid, Writer.Out, Writer.Limit, Writer.Beyond, Transferred;
      ok := AppendWindow(writer, ipLimit - ip);
      if ok {
        NextRegion();
        ok := ipLimit > 0;
      }
    }

    /** Appends whole regions until the rest of the `length` bytes is at hand. */
    method AppendRegions(writer: Writer, length: nat) returns (ok: bool, left: nat)
      requires Valid() && writer.Valid() && this !in writer.Repr() && reader !in writer.Repr()
      modifies this, reader, writer.Repr()
      ensures eof == old(eof) && writer.Limit() == old(writer.Limit()) && writer.Beyond() == old(writer.Beyond())
      ensures !ok ==> length > |old(unread)| || |old(writer.Out())| + length > writer.Limit()
      ensures ok ==> Valid() && writer.Valid() && left <= length && left <= ipLimit - ip
                     && Transferred(old(unread), old(writer.Out()), length - left, unread, writer.Out())
    {
      hide Writer.Valid, Writer.Out, Writer.Limit, Writer.Beyond;
      ghost var s, out := unread, writer.Out();
      ok, left := true, length;
      while ok && ipLimit - ip < left
        invariant ok ==> Valid() && writer.Valid() && left <= length
        invariant ok ==> Transferred(s, out, length - left, unread, writer.Out())
        invariant !ok ==> length > |s| || |out| + length > writer.Limit()
        invariant eof == old(eof) && writer.Limit() == old(writer.Limit()) && writer.Beyond() == old(writer.Beyond())
        decreases ok, left, ip == ipLimit
      {
        ghost var s', out' := unread, writer.Out();
        var avail := ipLimit - ip;
        ok := AppendRegion(writer, left);
        if ok {
          TransferredTwice(s, out, length - left, s', out', avail, unread, writer.Out());
          left := left - avail;
        }
      }
    }

    /** Appends `length` bytes of input, wherever the regions end. */
    method AppendBytes(writer: Writer, length: nat) returns (ok: bool)
      requires Valid() && writer.Valid() && this !in writer.Repr() && reader !in writer.Repr()
      modifies this, reader, writer.Repr()
      ensures eof == old(eof) && writer.Limit() == old(writer.Limit()) && writer.Beyond() == old(writer.Beyond())
      ensures ok <==> length <= |old(unread)| && |old(writer.Out())| + length <= writer.Limit()
      ensures ok ==> Valid() && writer.Valid()
                     && Transferred(old(unread), old(writer.Out()), length, unread, writer.Out())
    {
      hide Writer.Valid, Writer.Out, Writer.Limit, Writer.Beyond;
      var left;
      ok, left := AppendRegions(writer, length);
      if ok {
        ghost var s', out' := unread, writer.Out();
        ok := AppendWindow(writer, left);
        if ok {
          TransferredTwice(old(unread), old(writer.Out()), length - left, s', out', left, unread, writer.Out());
        }
      }
    }

    method AppendLiteral(writer: Writer) returns (ok: bool)
      requires Ready() && Kind(buffer[ip]) == 0 && writer.Valid() && this !in writer.Repr() && reader !in writer.Repr()
      modifies this, reader, writer.Repr()
      ensures eof == old(eof) && writer.Limit() == old(writer.Limit()) && writer.Beyond() == old(writer.Beyond())
      ensures ok <==> Advance(old(unread), old(writer.Out()), writer.Limit()).Some?
      ensures ok ==> Valid() && writer.Valid()
                     && Advance(old(unread), old(writer.Out()), writer.Limit()) == Some(Progress(unread, writer.Out()))
    {
      hide Writer.Valid, Writer.Out, Writer.Limit, Writer.Beyond, Head, Decode, Apply;
      assert unread[0] == buffer[ip];
      var length := buffer[ip] / 4 + 1;
      ok := TryFastLiteral(writer, length);
      if ok {
        LiteralAdvance(old(unread), old(writer.Out()), writer.Limit(), length);
      } else {
        ok := AppendSlowly(writer);
      }
    }

    method AppendSlowly(writer: Writer) returns (ok: bool)
      requires Ready() && Kind(buffer[ip]) == 0 && writer.Valid() && this !in writer.Repr() && reader !in writer.Repr()
      modifies this, reader, writer.Repr()
      ensures eof == old(eof) && writer.Limit() == old(writer.Limit()) && writer.Beyond() == old(writer.Beyond())
      ensures ok <==> Advance(old(unread), old(writer.Out()), writer.Limit()).Some?
      ensures ok ==> Valid() && writer.Valid()
                     && Advance(old(unread), old(writer.Out()), writer.Limit()) == Some(Progress(unread, writer.Out()))
    {
      hide Writer.Valid, Writer.Out, Writer.Limit, Writer.Beyond, Head, Decode, Apply;
      assert unread[0] == buffer[ip];
      var length := ReadLiteralLength();
      LiteralAdvance(old(unread), writer.Out(), writer.Limit(), length);
      ok := AppendBytes(writer, length);
    }

    method TryFastLiteral(writer: Writer, length: nat) returns (fast: bool)
      requires Ready() && writer.Valid() && this !in writer.Repr() && reader !in writer.Repr()
      modifies this`ip, this`unread, writer.Repr()
      ensures Valid() && writer.Valid() && writer.Limit() == old(writer.Limit()) && writer.Beyond() == old(writer.Beyond())
      ensures !fast ==> ip == old(ip) && unread == old(unread) && writer.Out() == old(writer.Out())
      ensures fast ==> length <= 16 && |writer.Out()| <= writer.Limit()
      ensures fast ==> Transferred(old(unread)[1..], old(writer.Out()), length, unread, writer.Out())
    {
      hide Writer.Valid, Writer.Out, Writer.Limit, Writer.Beyond;
      fast := writer.TryFastAppend(buffer, ip + 1, ipLimit - (ip + 1), length);
      if fast {
        Trailer(unread, buffer, ip, ipLimit, reader.remaining[peeked..], length);
        assert unread[1..][..length] == unread[1..1 + length] && unread[1..][length..] == unread[1 + length..];
        ip, unread := ip + 1 + length, unread[1 + length..];
      }
    }

    /** A literal's length, from its tag or the one to four bytes after it. */
    method ReadLiteralLength() returns (length: nat)
      requires Ready() && Kind(buffer[ip]) == 0
      modifies this`ip, this`unread
      ensures Valid()
      ensures var s := old(unread);
              var n := 1 + ExtraBytes(s[0]);
              length == LiteralLength(s[0], LittleEndian(s[1..n])) && unread == s[n..]
    {
      hide LittleEndian;
      var c := buffer[ip];
      Trailer(unread, buffer, ip, ipLimit, reader.remaining[peeked..], ExtraBytes(c));
      ip := ip + 1;
      length := c / 4 + 1;
      if length >= 61 {
        var lengthLength := length - 60;
        var trailer := MaskedLoad32(buffer, ip, lengthLength);
        length := (trailer + 1) % WORD;
        ip := ip + lengthLength;
      }
      unread := unread[1 + ExtraBytes(c)..];
    }

    /** Decodes everything that is left. */
    method DecompressAllTags(writer: Writer)
      requires Valid() && !eof && writer.Valid() && this !in writer.Repr() && reader !in writer.Repr()
      modifies this, reader, writer.Repr()
      ensures writer.Limit() == old(writer.Limit()) && writer.Beyond() == old(writer.Beyond())
      ensures eof <==> Decode(old(unread), old(writer.Out()), writer.Limit()).Some?
      ensures eof ==> writer.Valid() && Decode(old(unread), old(writer.Out()), writer.Limit()) == Some(writer.Out())
    {
      hide Writer.Valid, Writer.Out, Writer.Limit, Writer.Beyond, Decode, Advance;
      ghost var result := Decode(unread, writer.Out(), writer.Limit());
      DecodeStep(unread, writer.Out(), writer.Limit());
      var more := MaybeRefill();
      while more
        invariant writer.Limit() == old(writer.Limit()) && writer.Beyond() == old(writer.Beyond())
        invariant more ==> Ready() && unread != [] && !eof && writer.Valid() && result == Decode(unread, writer.Out(), writer.Limit())
        invariant !more ==> if eof then writer.Valid() && result == Some(writer.Out()) else result == None
        decreases if more then 1 + |unread| else 0
      {
        DecodeStep(unread, writer.Out(), writer.Limit());
        if Kind(buffer[ip]) == 0 {
          more := AppendLiteral(writer);
        } else {
          more := AppendCopy(writer);
        }
        if more {
          DecodeStep(unread, writer.Out(), writer.Limit());
          more := MaybeRefill();
        }
      }
    }

    /** The length header, read byte by byte from the source before anything else. Bits above the 32nd are
        shifted out. */
    method ReadUncompressedLength() returns (length: Option<nat>)
      requires Valid() && buffer == [] && peeked == 0
      modifies this, reader
      ensures Valid() && eof == old(eof)
      ensures match HeaderFrom(old(unread), 0)
              case None => length == None
              case Some(header) => length == Some(header.value) && unread == old(unread)[header.size..]
    {
      hide HeaderFrom, Group;
      var i, result: nat := 0, 0;
      ghost var start, whole := unread, HeaderFrom(unread, 0);
      while i < 5
        invariant i <= 5 && Fits(result, i)
        invariant Valid() && buffer == [] && peeked == 0 && eof == old(eof)
        invariant i <= |start| && unread == start[i..]
        invariant whole == Continued(HeaderFrom(unread, i), result, i)
        decreases 5 - i
      {
        ghost var rest := unread;
        var c := ReadByte();
        if c == None {
          HeaderEnds(rest, i);
          return None;
        }
        var group := Group(c.value % 128, i);
        GroupFits(c.value % 128, i, result);
        HeaderStep(whole, rest, i, result);
        if c.value < 128 {
          return Some(result + group);
        }
        result := result + group;
        i := i + 1;
      }
      HeaderEnds(unread, 5);
      return None;
    }

    method ReadByte() returns (c: Option<byte>)
      requires Valid() && buffer == [] && peeked == 0
      modifies this`unread, reader
      ensures Valid()
      ensures if old(unread) == [] then c == None else c == Some(old(unread)[0]) && unread == old(unread)[1..]
    {
      var region := reader.Peek();
      if |region| == 0 {
        return None;
      }
      reader.Skip(1);
      unread := unread[1..];
      return Some(region[0]);
    }
  }

  lemma HeaderEnds(s: Bytes, i: nat)
    requires i <= 5 && (i == 5 || s == [])
    ensures HeaderFrom(s, i) == None
  {
  }

  lemma HeaderStep(whole: Option<Length>, rest: Bytes, i: nat, result: nat)
    requires i < 5 && rest != [] && whole == Continued(HeaderFrom(rest, i), result, i)
    requires result + Group(rest[0] % 128, i) < WORD
    ensures var next := result + Group(rest[0] % 128, i);
            whole == if rest[0] < 128 then Some(Length(next, i + 1))
                     else Continued(HeaderFrom(rest[1..], i + 1), next, i + 1)
  {
    hide Group;
    var group, tail := Group(rest[0] % 128, i), HeaderFrom(rest[1..], i + 1);
    assert rest[0] % 128 == if rest[0] < 128 then rest[0] else rest[0] - 128;
    if rest[0] >= 128 && tail.Some? {
      AddTwice(result, group, tail.value.value);
    }
  }

  lemma AddTwice(a: nat, b: nat, c: nat)
    ensures (a + (b + c) % WORD) % WORD == (a + b + c) % WORD
  {
  }

  /** A header whose first `i` bytes gave `result`. */
  ghost function Continued(rest: Option<Length>, result: nat, i: nat): Option<Length> {
    match rest
    case None => None
    case Some(r) => Some(Length((result + r.value) % WORD, i + r.size))
  }

  /** `i` groups of seven bits, as many as fit in 32. */
  ghost predicate Fits(result: nat, i: nat)
    requires i <= 5
  {
    if i == 0 then result == 0
    else if i == 1 then result < 0x80
    else if i == 2 then result < 0x4000
    else if i == 3 then result < 0x20_0000
    else if i == 4 then result < 0x1000_0000
    else result < WORD
  }

  /** The next seven bits land above those already read: adding them is or-ing them in. */
  lemma GroupFits(bits: nat, i: nat, result: nat)
    requires bits < 128 && i < 5 && Fits(result, i)
    ensures result + Group(bits, i) < WORD && Fits(result + Group(bits, i), i + 1)
  {
    if i == 4 {
      assert bits * 0x1000_0000 % WORD == bits % 16 * 0x1000_0000;
    }
  }

  // ---- entry points ----

  /** InternalUncompress: succeeds exactly on the compressed strings that stand for something, however the
      source splits them, and then writes just that. */
  method InternalUncompress(reader: Source, writer: Writer, maxLength: nat) returns (ok: bool)
    requires writer.Valid() && writer.Out() == [] && reader !in writer.Repr()
    requires var header := HeaderFrom(reader.remaining, 0);
             header.Some? && header.value.value <= maxLength ==> writer.Fits(header.value.value)
    modifies reader, writer.Repr()
    ensures var result := Uncompressed(old(reader.remaining));
            ok <==> result.Some? && |result.value| <= maxLength
    ensures ok ==> writer.Valid() && Uncompressed(old(reader.remaining)) == Some(writer.Out())
    ensures writer.ToArray? ==> Untouched(old(writer.a.dst[..]), writer.a.dst[..], HeaderFrom(old(reader.remaining), 0))
  {
    hide Decode, HeaderFrom, Head;
    ghost var input := reader.remaining;
    ghost var dst := if writer.ToArray? then writer.a.dst[..] else [];
    var decompressor := new SnappyDecompressor(reader);
    var length := decompressor.ReadUncompressedLength();
    if length == None || length.value > maxLength {
      return false;
    }
    writer.SetExpectedLength(length.value);
    decompressor.DecompressAllTags(writer);
    ok := decompressor.eof;
    if ok {
      ok := writer.CheckLength();
    }
  }

  /** Nothing past the length in the header has changed. */
  ghost predicate Untouched(before: Bytes, after: Bytes, header: Option<Length>) {
    && |before| == |after|
    && match header
       case None => before == after
       case Some(length) => length.value <= |before| ==> after[length.value..] == before[length.value..]
  }

  /** Decompresses into a caller's array, which must be as long as the header says. */
  method RawUncompress(reader: Source, dst: array<byte>) returns (ok: bool)
    requires var header := HeaderFrom(reader.remaining, 0); header.Some? ==> header.value.value <= dst.Length
    modifies reader, dst
    ensures ok <==> Uncompressed(old(reader.remaining)).Some?
    ensures ok ==> var out := Uncompressed(old(reader.remaining)).value; |out| <= dst.Length && dst[..|out|] == out
    ensures Untouched(old(dst[..]), dst[..], HeaderFrom(old(reader.remaining), 0))
  {
    var output := new SnappyArrayWriter(dst);
    var writer := ToArray(output);
    ok := InternalUncompress(reader, writer, WORD - 1);
  }

  /** Validation accepts exactly what decompression does. */
  method IsValidCompressedBuffer(compressed: Bytes) returns (ok: bool)
    ensures ok <==> Uncompressed(compressed).Some?
  {
    var reader := new Source(compressed, []);
    var validator := new SnappyDecompressionValidator();
    ok := InternalUncompress(reader, Validating(validator), WORD - 1);
  }

  /** The length header of a flat string: unlike the one read from a source, a fifth byte above 15 is refused. */
  method GetUncompressedLength(compressed: Bytes) returns (length: Option<nat>)
    ensures length.Some? ==> HeaderFrom(compressed, 0).Some? && length.value == HeaderFrom(compressed, 0).value.value
    ensures length.None? <==> HeaderFrom(compressed, 0).None? || LongFifthByte(compressed)
  {
    hide HeaderFrom, Group;
    var i, result: nat := 0, 0;
    ghost var whole := HeaderFrom(compressed, 0);
    while i < 5 && i < |compressed|
      invariant i <= 5 && i <= |compressed| && Fits(result, i)
      invariant forall j :: 0 <= j < i ==> compressed[j] >= 128
      invariant whole == Continued(HeaderFrom(compressed[i..], i), result, i)
    {
      var c := compressed[i];
      var group := Group(c % 128, i);
      GroupFits(c % 128, i, result);
      HeaderStep(whole, compressed[i..], i, result);
      if c < if i < 4 then 128 else 16 {
        return Some(result + group);
      }
      if c < 128 {
        return None;
      }
      result := result + group;
      i := i + 1;
    }
    HeaderEnds(compressed[i..], i);
    return None;
  }

  predicate LongFifthByte(s: Bytes) {
    |s| >= 5 && s[0] >= 128 && s[1] >= 128 && s[2] >= 128 && s[3] >= 128 && 16 <= s[4] < 128
  }

  /** Decompresses a flat string into a string of the right size. */
  method Uncompress(compressed: Bytes) returns (result: Option<Bytes>)
    ensures result == if LongFifthByte(compressed) then None else Uncompressed(compressed)
  {
    var length := GetUncompressedLength(compressed);
    if length == None {
      return None;
    }
    var reader := new Source(compressed, []);
    var uncompressed := new byte[length.value];
    var ok := RawUncompress(reader, uncompressed);
    if !ok {
      return None;
    }
    assert uncompressed[..] == uncompressed[..length.value];
    return Some(uncompressed[..]);
  }
}
