/** Blocks in a table file: handles, checksums, compression and the footer (table/format.cc, table/table_builder.cc). */
module TableFormat {
  import opened Wrappers
  import opened ByteStrings
  import opened Coding
  import ByteBits
  import Crc32c
  import SnappyFormat
  import SnappyDecompress
  import SnappyCompress
  import SnappyElements
  import SnappyGreedy

  // ---- handles ----

  datatype BlockHandle = BlockHandle(offset: nat, size: nat)

  predicate HandleFits(h: BlockHandle) {
    h.offset < WORD64 && h.size < WORD64
  }

  function HandleBytes(h: BlockHandle): Bytes {
    Varint(h.offset % WORD64) + Varint(h.size % WORD64)
  }

  function GetHandle(s: Bytes): Option<Read<BlockHandle>> {
    match GetNumber(s)
    case None => None
    case Some(offset) =>
      match GetNumber(offset.rest)
      case None => None
      case Some(size) => Some(Read(BlockHandle(offset.value, size.value), size.rest))
  }

  lemma HandleIsRead(h: BlockHandle, rest: Bytes)
    requires HandleFits(h)
    ensures GetHandle(HandleBytes(h) + rest) == Some(Read(h, rest))
  {
    hide Varint, GetNumber;
    assert h.offset % WORD64 == h.offset && h.size % WORD64 == h.size;
    assert HandleBytes(h) + rest == Varint(h.offset) + (Varint(h.size) + rest);
    NumberIsRead(h.offset, Varint(h.size) + rest);
    NumberIsRead(h.size, rest);
  }

  lemma HandleIsShort(h: BlockHandle)
    ensures |HandleBytes(h)| <= 20
  {
    hide Varint;
    VarintIsShort(h.offset % WORD64);
    VarintIsShort(h.size % WORD64);
  }

  lemma VarintIsShort(v: nat)
    requires v < WORD64
    ensures |Varint(v)| <= 10
  {
    hide Varint, VarintAt;
    Varint64RoundTrip(v, []);
    assert Varint(v) + [] == Varint(v);
  }

  // ---- the footer ----

  const FOOTER_LENGTH: nat := 48
  const MAGIC_LOW: nat := 0x8b80_fb57
  const MAGIC_HIGH: nat := 0xdb47_7524

  function Padding(n: nat): (s: Bytes)
    ensures |s| == n && forall i :: 0 <= i < n ==> s[i] == 0
  {
    seq(n, _ => 0)
  }

  /** Two handles, padding to forty bytes, and the magic number. */
  function FooterBytes(metaindex: BlockHandle, index: BlockHandle): (s: Bytes)
    ensures |s| == FOOTER_LENGTH
  {
    HandleIsShort(metaindex);
    HandleIsShort(index);
    var handles := HandleBytes(metaindex) + HandleBytes(index);
    handles + Padding(40 - |handles|) + Fixed32(MAGIC_LOW) + Fixed32(MAGIC_HIGH)
  }

  datatype Footer = Footer(metaindex: BlockHandle, index: BlockHandle)

  function GetFooter(s: Bytes): Option<Footer>
    requires |s| == FOOTER_LENGTH
  {
    if DecodeFixed32(s[40..44]) != MAGIC_LOW || DecodeFixed32(s[44..]) != MAGIC_HIGH then None
    else match GetHandle(s) {
      case None => None
      case Some(metaindex) =>
        match GetHandle(metaindex.rest)
        case None => None
        case Some(index) => Some(Footer(metaindex.value, index.value))
    }
  }

  /** A file that does not end in the magic number has no footer. */
  lemma FooterIsMagic(s: Bytes)
    requires |s| == FOOTER_LENGTH && GetFooter(s).Some?
    ensures s[40..] == Fixed32(MAGIC_LOW) + Fixed32(MAGIC_HIGH)
  {
    Fixed32OfDecoded(s[40..44]);
    Fixed32OfDecoded(s[44..]);
    assert s[40..] == s[40..44] + s[44..];
    hide Fixed32, DecodeFixed32, GetHandle;
  }

  lemma FooterParts(handles: Bytes, padding: Bytes, low: Bytes, high: Bytes)
    requires |handles| + |padding| == 40 && |low| == |high| == 4
    ensures var s := handles + padding + low + high;
            s[40..44] == low && s[44..] == high && s == handles + (padding + low + high)
  {
  }

  lemma FooterIsRead(metaindex: BlockHandle, index: BlockHandle)
    requires HandleFits(metaindex) && HandleFits(index)
    ensures GetFooter(FooterBytes(metaindex, index)) == Some(Footer(metaindex, index))
  {
    hide HandleBytes, GetHandle, Fixed32, DecodeFixed32, Padding;
    HandleIsShort(metaindex);
    HandleIsShort(index);
    var a, b := HandleBytes(metaindex), HandleBytes(index);
    var padding, low, high := Padding(40 - |a + b|), Fixed32(MAGIC_LOW), Fixed32(MAGIC_HIGH);
    Fixed32RoundTrip(MAGIC_LOW);
    Fixed32RoundTrip(MAGIC_HIGH);
    FooterParts(a + b, padding, low, high);
    var tail := padding + low + high;
    assert a + b + tail == a + (b + tail);
    HandleIsRead(metaindex, b + tail);
    HandleIsRead(index, tail);
  }

  // ---- blocks ----

  const NO_COMPRESSION: byte := 0
  const SNAPPY_COMPRESSION: byte := 1
  const TRAILER: nat := 5

  /** A block as it is stored: its contents, their type, and the masked checksum of both. */
  function RawBlock(contents: Bytes, kind: byte): (s: Bytes)
    ensures |s| == |contents| + TRAILER
  {
    contents + [kind] + Fixed32(Crc32c.Mask(Crc32c.Value(contents + [kind]) as nat))
  }

  /** The contents of this type stand for `raw`. */
  ghost predicate Means(contents: Bytes, kind: byte, raw: Bytes) {
    if kind == NO_COMPRESSION then contents == raw
    else kind == SNAPPY_COMPRESSION && SnappyFormat.Uncompressed(contents) == Some(raw) && !SnappyDecompress.LongFifthByte(contents)
  }

  ghost predicate StoredAs(file: Bytes, h: BlockHandle, contents: Bytes, kind: byte) {
    && h.size == |contents| && h.offset + h.size + TRAILER <= |file|
    && file[h.offset..h.offset + h.size + TRAILER] == RawBlock(contents, kind)
  }

  /** A block that stands for `raw` is in the file. */
  ghost predicate Stored(file: Bytes, h: BlockHandle, raw: Bytes) {
    exists contents, kind :: Means(contents, kind, raw) && StoredAs(file, h, contents, kind)
  }

  lemma StoredStays(file: Bytes, more: Bytes, h: BlockHandle, raw: Bytes)
    requires Stored(file, h, raw)
    ensures Stored(file + more, h, raw)
  {
    hide Means, RawBlock;
    var contents, kind :| Means(contents, kind, raw) && StoredAs(file, h, contents, kind);
    assert (file + more)[h.offset..h.offset + h.size + TRAILER] == file[h.offset..h.offset + h.size + TRAILER];
    assert StoredAs(file + more, h, contents, kind);
  }

  /** Appends a block with its trailer. */
  method WriteRawBlock(file: Bytes, contents: Bytes, kind: byte, ghost raw: Bytes) returns (file': Bytes, h: BlockHandle)
    requires Means(contents, kind, raw)
    ensures h == BlockHandle(|file|, |contents|) && |file'| == |file| + |contents| + TRAILER && file <= file'
    ensures Stored(file', h, raw) && file' == file + RawBlock(contents, kind)
  {
    hide Means, RawBlock, Fixed32, Crc32c.Mask, Crc32c.Extend;
    h := BlockHandle(|file|, |contents|);
    RawBlockIs(contents, kind);
    var crc := Crc32c.Value(contents);
    crc := Crc32c.Extend(crc, [kind]);
    file' := file + contents;
    file' := file' + ([kind] + Fixed32(Crc32c.Mask(crc as nat)));
    assert file' == file + RawBlock(contents, kind);
    assert file'[|file|..|file| + |contents| + TRAILER] == RawBlock(contents, kind);
    assert StoredAs(file', h, contents, kind);
  }

  lemma RawBlockIs(contents: Bytes, kind: byte)
    ensures Crc32c.Extend(Crc32c.Value(contents), [kind]) == Crc32c.Value(contents + [kind])
    ensures RawBlock(contents, kind) ==
            contents + ([kind] + Fixed32(Crc32c.Mask(Crc32c.Extend(Crc32c.Value(contents), [kind]) as nat)))
  {
    hide Crc32c.Mask, Fixed32, Crc32c.Absorb;
    Crc32c.ExtendConcat(0, contents, [kind]);
  }

  /** What the compressor makes of a block. */
  ghost function Packed(raw: Bytes): Bytes {
    Varint(|raw|) + SnappyElements.Code(SnappyGreedy.Chosen(raw))
  }

  /** WriteBlock: compressed if that saves an eighth, otherwise as it is. */
  method WriteBlock(file: Bytes, raw: Bytes, compress: bool) returns (file': Bytes, h: BlockHandle)
    requires |raw| < WORD
    ensures h.offset == |file| && h.size <= |raw| && |file'| == |file| + h.size + TRAILER && file <= file'
    ensures Stored(file', h, raw)
    ensures if compress && |Packed(raw)| < |raw| - |raw| / 8 then
              h.size == |Packed(raw)| && file' == file + RawBlock(Packed(raw), SNAPPY_COMPRESSION)
            else h.size == |raw| && file' == file + RawBlock(raw, NO_COMPRESSION)
  {
    hide Stored, RawBlock, SnappyFormat.Uncompressed, SnappyDecompress.LongFifthByte;
    if compress {
      var compressed := SnappyCompress.CompressString(raw);
      if |compressed| < |raw| - |raw| / 8 {
        file', h := WriteRawBlock(file, compressed, SNAPPY_COMPRESSION, raw);
        return;
      }
    }
    file', h := WriteRawBlock(file, raw, NO_COMPRESSION, raw);
  }

  /** What is to be made of the bytes that a handle points to: their meaning by their type, if, when that is asked for, the
      checksum is theirs. */
  ghost predicate ReadsAs(file: Bytes, h: BlockHandle, verify: bool, raw: Bytes) {
    && h.offset + h.size + TRAILER <= |file|
    && var data, n := file[h.offset..h.offset + h.size + TRAILER], h.size;
       Means(data[..n], data[n], raw) && (verify ==> data == RawBlock(data[..n], data[n]))
  }

  lemma StoredReads(file: Bytes, h: BlockHandle, verify: bool, raw: Bytes)
    requires Stored(file, h, raw)
    ensures ReadsAs(file, h, verify, raw)
  {
    hide Means, RawBlock;
    var contents, kind :| Means(contents, kind, raw) && StoredAs(file, h, contents, kind);
    RawBlockParts(contents, kind);
  }

  lemma RawBlockIff(data: Bytes, n: nat)
    requires |data| == n + TRAILER
    ensures data == RawBlock(data[..n], data[n]) <==>
            Crc32c.Unmask(DecodeFixed32(data[n + 1..])) == Crc32c.Value(data[..n + 1]) as nat
  {
    hide Crc32c.Mask, Crc32c.Unmask, Crc32c.Extend, DecodeFixed32, Fixed32;
    var crc := Crc32c.Value(data[..n + 1]) as nat;
    assert data[..n + 1] == data[..n] + [data[n]];
    RawBlockParts(data[..n], data[n]);
    Crc32c.UnmaskRoundTrip(DecodeFixed32(data[n + 1..]));
    Fixed32OfDecoded(data[n + 1..]);
    assert data == data[..n] + [data[n]] + data[n + 1..];
  }

  /** ReadBlock: the bytes the handle points to, checked if asked for, and uncompressed. */
  method ReadBlock(file: Bytes, h: BlockHandle, verify: bool) returns (r: Option<Bytes>)
    ensures forall raw :: r == Some(raw) <==> ReadsAs(file, h, verify, raw)
    ensures forall raw :: Stored(file, h, raw) ==> r == Some(raw)
  {
    hide SnappyFormat.Uncompressed, SnappyDecompress.LongFifthByte, RawBlock, Crc32c.Mask, Crc32c.Unmask, Crc32c.Extend, DecodeFixed32,
         Stored;
    forall raw | Stored(file, h, raw) ensures ReadsAs(file, h, verify, raw) {
      StoredReads(file, h, verify, raw);
    }
    var n := h.size;
    if h.offset + n + TRAILER > |file| {
      return None;
    }
    var data := file[h.offset..h.offset + n + TRAILER];
    RawBlockIff(data, n);
    if verify {
      var crc := Crc32c.Unmask(DecodeFixed32(data[n + 1..]));
      var actual := Crc32c.Value(data[..n + 1]);
      if actual as nat != crc {
        return None;
      }
    }
    if data[n] == NO_COMPRESSION {
      return Some(data[..n]);
    } else if data[n] == SNAPPY_COMPRESSION {
      r := SnappyDecompress.Uncompress(data[..n]);
    } else {
      return None;
    }
  }

  lemma DamagedBlock(data: Bytes, data': Bytes, n: nat, front: Bytes, u: Bytes, w: Bytes, back: Bytes)
    requires |data| == |data'| == n + TRAILER && data == RawBlock(data[..n], data[n])
    requires data[..n + 1] == front + u + back && data'[..n + 1] == front + w + back && data'[n + 1..] == data[n + 1..]
    requires |u| == |w| <= 4 && u != w
    ensures data' != RawBlock(data'[..n], data'[n])
  {
    hide RawBlock, Crc32c.Value, Crc32c.Unmask, DecodeFixed32;
    RawBlockIff(data, n);
    RawBlockIff(data', n);
    Crc32c.ChangeIsDetected(front, u, w, back);
    ByteBits.WordsTell(Crc32c.Value(front + u + back), Crc32c.Value(front + w + back));
  }

  /** The block at a handle, with its trailer. */
  function BlockAt(file: Bytes, h: BlockHandle): Bytes
    requires h.offset + h.size + TRAILER <= |file|
  {
    file[h.offset..h.offset + h.size + TRAILER]
  }

  /** A block of which up to four bytes in a row were changed, anywhere before its checksum, is not read when checksums are
      verified. */
  lemma DamageIsRefused(file: Bytes, h: BlockHandle, raw: Bytes, file': Bytes, front: Bytes, u: Bytes, w: Bytes, back: Bytes)
    requires ReadsAs(file, h, true, raw) && |file'| == |file| && |u| == |w| <= 4 && u != w
    requires BlockAt(file, h)[..h.size + 1] == front + u + back && BlockAt(file', h)[..h.size + 1] == front + w + back
    requires BlockAt(file', h)[h.size + 1..] == BlockAt(file, h)[h.size + 1..]
    ensures forall other :: !ReadsAs(file', h, true, other)
  {
    hide Means, RawBlock;
    DamagedBlock(BlockAt(file, h), BlockAt(file', h), h.size, front, u, w, back);
  }

  lemma RawBlockParts(contents: Bytes, kind: byte)
    ensures var data, n := RawBlock(contents, kind), |contents|;
            && data[..n] == contents && data[n] == kind
            && Crc32c.Unmask(DecodeFixed32(data[n + 1..])) == Crc32c.Value(data[..n + 1]) as nat
  {
    hide Crc32c.Mask, Crc32c.Unmask, Crc32c.Extend, Fixed32, DecodeFixed32;
    var crc := Crc32c.Value(contents + [kind]) as nat;
    Fixed32RoundTrip(Crc32c.Mask(crc));
    Crc32c.MaskRoundTrip(crc);
    var data, n := RawBlock(contents, kind), |contents|;
    assert data[..n + 1] == contents + [kind] && data[n + 1..] == Fixed32(Crc32c.Mask(crc));
  }
}
