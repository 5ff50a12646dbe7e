/** The write-ahead log: records cut into fragments that fill blocks of 32 KB (db/log_format.h). What a writer
    appends and what a reader makes of any bytes, as functions. */
module LogFormat {
  import opened ByteStrings
  import opened Wrappers
  import Crc32c

  const BLOCK_SIZE: nat := 32768
  const HEADER_SIZE: nat := 7

  const FULL: byte := 1
  const FIRST: byte := 2
  const MIDDLE: byte := 3
  const LAST: byte := 4

  // ---- writing ----

  function Checksum(kind: byte, data: Bytes): (crc: nat)
    ensures crc < WORD
  {
    Crc32c.Extend(Crc32c.Value([kind]), data) as nat
  }

  /** One fragment: masked checksum, length, type, data. */
  function Physical(kind: byte, data: Bytes): (s: Bytes)
    requires |data| < BLOCK_SIZE
    ensures |s| == HEADER_SIZE + |data|
  {
    Fixed32(Crc32c.Mask(Checksum(kind, data))) + [|data| % 256, |data| / 256, kind] + data
  }

  function Zeros(n: nat): (s: Bytes)
    ensures |s| == n
  {
    seq(n, _ => 0)
  }

  /** Bytes left in a block that cannot hold a header are filled with zeros. */
  function Trailer(offset: nat): (n: nat)
    requires offset <= BLOCK_SIZE
    ensures n < HEADER_SIZE
  {
    if BLOCK_SIZE - offset < HEADER_SIZE then BLOCK_SIZE - offset else 0
  }

  /** Where in its block the next fragment begins. */
  function Start(offset: nat): (start: nat)
    requires offset <= BLOCK_SIZE
    ensures start + HEADER_SIZE <= BLOCK_SIZE
  {
    if BLOCK_SIZE - offset < HEADER_SIZE then 0 else offset
  }

  function FragmentLength(offset: nat, left: nat): (n: nat)
    requires offset <= BLOCK_SIZE
    ensures n <= left && n < BLOCK_SIZE && Start(offset) + HEADER_SIZE + n <= BLOCK_SIZE
  {
    var avail := BLOCK_SIZE - Start(offset) - HEADER_SIZE;
    if left < avail then left else avail
  }

  function FragmentKind(begin: bool, end: bool): byte {
    if begin && end then FULL else if begin then FIRST else if end then LAST else MIDDLE
  }

  /** Next to be written at `offset`: the trailer if there is one, and a fragment. */
  function Fragment(offset: nat, data: Bytes, begin: bool): Bytes
    requires offset <= BLOCK_SIZE
  {
    var n := FragmentLength(offset, |data|);
    Zeros(Trailer(offset)) + Physical(FragmentKind(begin, n == |data|), data[..n])
  }

  function AfterFragment(offset: nat, left: nat): (offset': nat)
    requires offset <= BLOCK_SIZE
    ensures offset' <= BLOCK_SIZE
  {
    Start(offset) + HEADER_SIZE + FragmentLength(offset, left)
  }

  /** A record, or the rest of one, as written from `offset` on. A block that has just room for a header gets an
      empty fragment. */
  function Encoded(offset: nat, data: Bytes, begin: bool): Bytes
    requires offset <= BLOCK_SIZE
    decreases |data|, Start(offset) + HEADER_SIZE == BLOCK_SIZE
  {
    var n := FragmentLength(offset, |data|);
    if n == |data| then Fragment(offset, data, begin)
    else Fragment(offset, data, begin) + Encoded(AfterFragment(offset, |data|), data[n..], false)
  }

  function EndOffset(offset: nat, data: Bytes): (offset': nat)
    requires offset <= BLOCK_SIZE
    ensures offset' <= BLOCK_SIZE
    decreases |data|, Start(offset) + HEADER_SIZE == BLOCK_SIZE
  {
    var n := FragmentLength(offset, |data|);
    if n == |data| then AfterFragment(offset, |data|) else EndOffset(AfterFragment(offset, |data|), data[n..])
  }

  lemma EncodedUnfolds(offset: nat, data: Bytes, begin: bool)
    requires offset <= BLOCK_SIZE
    ensures var n := FragmentLength(offset, |data|);
            var next := AfterFragment(offset, |data|);
            if n == |data| then
              Encoded(offset, data, begin) == Fragment(offset, data, begin) && EndOffset(offset, data) == next
            else
              && Encoded(offset, data, begin) == Fragment(offset, data, begin) + Encoded(next, data[n..], false)
              && EndOffset(offset, data) == EndOffset(next, data[n..])
  {
  }

  /** A whole file of records. */
  function File(offset: nat, records: seq<Bytes>): Bytes
    requires offset <= BLOCK_SIZE
    decreases |records|
  {
    if records == [] then []
    else Encoded(offset, records[0], true) + File(EndOffset(offset, records[0]), records[1..])
  }

  /** Where in its block a file of records ends. */
  function FileEnd(offset: nat, records: seq<Bytes>): (offset': nat)
    requires offset <= BLOCK_SIZE
    ensures offset' <= BLOCK_SIZE
    decreases |records|
  {
    if records == [] then offset else FileEnd(EndOffset(offset, records[0]), records[1..])
  }

  /** One more record goes behind those that are there. */
  lemma {:induction false} FileGrows(offset: nat, records: seq<Bytes>, record: Bytes)
    requires offset <= BLOCK_SIZE
    ensures File(offset, records + [record]) == File(offset, records) + Encoded(FileEnd(offset, records), record, true)
    ensures FileEnd(offset, records + [record]) == EndOffset(FileEnd(offset, records), record)
    decreases |records|
  {
    hide Encoded, EndOffset;
    if records == [] {
      assert [record][1..] == [] && [] + [record] == [record];
      assert File(EndOffset(offset, record), []) == [];
    } else {
      var next := EndOffset(offset, records[0]);
      assert (records + [record])[1..] == records[1..] + [record];
      FileGrows(next, records[1..], record);
      Associate(Encoded(offset, records[0], true), File(next, records[1..]), Encoded(FileEnd(next, records[1..]), record, true));
    }
  }

  // ---- reading ----

  datatype Outcome = Found(kind: byte, data: Bytes) | Eof | Bad(reported: bool)

  /** What one read of a fragment finds, the bytes still unread, and where in its block the reader then is. */
  datatype PhysicalRead = PhysicalRead(outcome: Outcome, rest: Bytes, offset: nat)

  function Min(a: nat, b: nat): nat {
    if a < b then a else b
  }

  /** Reads the fragment at `offset` of a block. The file ends inside the block when fewer bytes are left than the
      block has room for; a fragment cut off there is no corruption. */
  function ReadPhysical(s: Bytes, offset: nat): (r: PhysicalRead)
    requires offset <= BLOCK_SIZE
    ensures r.offset <= BLOCK_SIZE && (!r.outcome.Eof? ==> |r.rest| < |s|)
    decreases |s|, offset
  {
    var room := BLOCK_SIZE - offset;
    var avail := Min(|s|, room);
    if avail < HEADER_SIZE then
      if |s| <= room then PhysicalRead(Eof, [], if |s| < room then offset else 0) else ReadPhysical(s[avail..], 0)
    else
      var length := s[4] as nat + 256 * s[5] as nat;
      if HEADER_SIZE + length > avail then
        if |s| < room then PhysicalRead(Eof, [], offset) else PhysicalRead(Bad(true), s[avail..], BLOCK_SIZE)
      else if s[6] == 0 && length == 0 then PhysicalRead(Bad(false), s[avail..], if |s| < room then offset else BLOCK_SIZE)
      else if Crc32c.Value(s[6..HEADER_SIZE + length]) as nat != Crc32c.Unmask(DecodeFixed32(s[..4])) then
        PhysicalRead(Bad(true), s[avail..], if |s| < room then offset else BLOCK_SIZE)
      else
        PhysicalRead(Found(s[6], s[HEADER_SIZE..HEADER_SIZE + length]), s[HEADER_SIZE + length..],
                     offset + HEADER_SIZE + length)
  }

  /** A block with less than a header left is followed by the next one. */
  lemma AtTrailer(buffer: Bytes, file: Bytes, offset: nat)
    requires offset <= BLOCK_SIZE && |buffer| == BLOCK_SIZE - offset < HEADER_SIZE
    ensures ReadPhysical(buffer + file, offset) == ReadPhysical(file, 0)
  {
    assert (buffer + file)[|buffer|..] == file;
    assert file == [] ==> ReadPhysical(file, 0) == PhysicalRead(Eof, [], 0);
  }

  /** In the last block it is the end of the file. */
  lemma AtEnd(buffer: Bytes, offset: nat)
    requires offset <= BLOCK_SIZE && |buffer| < HEADER_SIZE && |buffer| < BLOCK_SIZE - offset
    ensures ReadPhysical(buffer, offset) == PhysicalRead(Eof, [], offset)
  {
  }

  /** Reading depends on what is left of the block, and on whether the file ends in it. */
  lemma AtHeader(buffer: Bytes, file: Bytes, offset: nat)
    requires offset <= BLOCK_SIZE && HEADER_SIZE <= |buffer|
    requires if |buffer| < BLOCK_SIZE - offset then file == [] else |buffer| == BLOCK_SIZE - offset
    ensures var length := buffer[4] as nat + 256 * buffer[5] as nat;
            var eof := |buffer| < BLOCK_SIZE - offset;
            var dropped := if eof then offset else BLOCK_SIZE;
            ReadPhysical(buffer + file, offset) ==
            if HEADER_SIZE + length > |buffer| then
              if eof then PhysicalRead(Eof, [], offset) else PhysicalRead(Bad(true), file, dropped)
            else if buffer[6] == 0 && length == 0 then PhysicalRead(Bad(false), file, dropped)
            else if Crc32c.Value(buffer[6..HEADER_SIZE + length]) as nat != Crc32c.Unmask(DecodeFixed32(buffer[..4])) then
              PhysicalRead(Bad(true), file, dropped)
            else
              PhysicalRead(Found(buffer[6], buffer[HEADER_SIZE..HEADER_SIZE + length]),
                           buffer[HEADER_SIZE + length..] + file, offset + HEADER_SIZE + length)
  {
    hide Crc32c.Value, Crc32c.Unmask, DecodeFixed32;
    var s := buffer + file;
    var length := buffer[4] as nat + 256 * buffer[5] as nat;
    assert s[|buffer|..] == file && s[..4] == buffer[..4];
    if HEADER_SIZE + length <= |buffer| {
      assert s[6..HEADER_SIZE + length] == buffer[6..HEADER_SIZE + length];
      assert s[HEADER_SIZE..HEADER_SIZE + length] == buffer[HEADER_SIZE..HEADER_SIZE + length];
      assert s[HEADER_SIZE + length..] == buffer[HEADER_SIZE + length..] + file;
    }
  }

  datatype RecordRead = RecordRead(record: Option<Bytes>, rest: Bytes, offset: nat, reported: bool)

  /** Reads the next record: `scratch` holds the fragments of the one begun, if `inRecord`. */
  function ReadLogical(s: Bytes, offset: nat, scratch: Bytes, inRecord: bool): (r: RecordRead)
    requires offset <= BLOCK_SIZE
    ensures r.offset <= BLOCK_SIZE && (r.record.Some? ==> |r.rest| < |s|)
    decreases |s|
  {
    var p := ReadPhysical(s, offset);
    match p.outcome
    case Eof => RecordRead(None, p.rest, p.offset, false)
    case Bad(reported) => Reporting(ReadLogical(p.rest, p.offset, [], false), reported || inRecord)
    case Found(kind, data) =>
      if kind == FULL then RecordRead(Some(data), p.rest, p.offset, inRecord && scratch != [])
      else if kind == FIRST then Reporting(ReadLogical(p.rest, p.offset, data, true), inRecord && scratch != [])
      else if kind == MIDDLE then
        if inRecord then ReadLogical(p.rest, p.offset, scratch + data, true)
        else Reporting(ReadLogical(p.rest, p.offset, scratch, false), true)
      else if kind == LAST then
        if inRecord then RecordRead(Some(scratch + data), p.rest, p.offset, false)
        else Reporting(ReadLogical(p.rest, p.offset, scratch, false), true)
      else Reporting(ReadLogical(p.rest, p.offset, [], false), true)
  }

  function Reporting(r: RecordRead, reported: bool): RecordRead {
    r.(reported := r.reported || reported)
  }

  datatype LogRead = LogRead(records: seq<Bytes>, reported: bool)

  /** Reads records until there are no more. */
  function ReadAll(s: Bytes, offset: nat): LogRead
    requires offset <= BLOCK_SIZE
    decreases |s|
  {
    var r := ReadLogical(s, offset, [], false);
    if r.record.None? then LogRead([], r.reported)
    else
      var more := ReadAll(r.rest, r.offset);
      LogRead([r.record.value] + more.records, r.reported || more.reported)
  }

  // ---- reading what was written ----

  lemma ChecksumAgrees(kind: byte, data: Bytes)
    ensures Crc32c.Value([kind] + data) as nat == Checksum(kind, data)
  {
    Crc32c.ExtendConcat(0, [kind], data);
  }

  /** The header of a fragment says what it was written with. */
  lemma PhysicalHeader(kind: byte, data: Bytes, t: Bytes)
    requires |data| < BLOCK_SIZE && Physical(kind, data) <= t
    ensures t[4] as nat + 256 * t[5] as nat == |data| && t[6] == kind && t[HEADER_SIZE..HEADER_SIZE + |data|] == data
    ensures Crc32c.Value(t[6..HEADER_SIZE + |data|]) as nat == Crc32c.Unmask(DecodeFixed32(t[..4]))
  {
    var s := Physical(kind, data);
    assert t[..|s|] == s;
    assert t[..4] == s[..4] == Fixed32(Crc32c.Mask(Checksum(kind, data)));
    assert t[6..HEADER_SIZE + |data|] == s[6..] == [kind] + data;
    assert t[HEADER_SIZE..HEADER_SIZE + |data|] == s[HEADER_SIZE..] == data;
    Fixed32RoundTrip(Crc32c.Mask(Checksum(kind, data)));
    Crc32c.MaskRoundTrip(Checksum(kind, data));
    ChecksumAgrees(kind, data);
    assert t[4] == s[4] && t[5] == s[5] && t[6] == s[6];
  }

  /** A fragment that is there in full is read back; one that is cut off is the end of the file. */
  lemma ReadOfPhysical(kind: byte, data: Bytes, offset: nat, s: Bytes, more: Bytes)
    requires offset + HEADER_SIZE + |data| <= BLOCK_SIZE && kind != 0 && s <= Physical(kind, data) + more
    ensures var n := HEADER_SIZE + |data|;
            if n <= |s| then ReadPhysical(s, offset) == PhysicalRead(Found(kind, data), s[n..], offset + n)
            else ReadPhysical(s, offset).outcome == Eof
  {
    var t := Physical(kind, data) + more;
    PhysicalHeader(kind, data, t);
    if HEADER_SIZE <= |s| {
      assert s[4] == t[4] && s[5] == t[5];
      if HEADER_SIZE + |data| <= |s| {
        assert Physical(kind, data) <= s;
        PhysicalHeader(kind, data, s);
      }
    }
  }

  lemma DropPrefix(a: Bytes, b: Bytes, s: Bytes)
    requires s <= a + b && |a| <= |s|
    ensures s[|a|..] <= b
  {
    assert (a + b)[|a|..] == b;
  }

  lemma ReadOfFragment(offset: nat, data: Bytes, begin: bool, s: Bytes, more: Bytes)
    requires offset <= BLOCK_SIZE && s <= Fragment(offset, data, begin) + more
    ensures var n := FragmentLength(offset, |data|);
            var size := |Fragment(offset, data, begin)|;
            if size <= |s| then
              ReadPhysical(s, offset) ==
              PhysicalRead(Found(FragmentKind(begin, n == |data|), data[..n]), s[size..], AfterFragment(offset, |data|))
            else ReadPhysical(s, offset).outcome == Eof
  {
    hide ReadPhysical, Physical, Zeros;
    var n, pad := FragmentLength(offset, |data|), Trailer(offset);
    var kind := FragmentKind(begin, n == |data|);
    var physical := Physical(kind, data[..n]);
    assert Fragment(offset, data, begin) + more == Zeros(pad) + (physical + more);
    SkipTrailer(offset, s);
    if pad <= |s| {
      var t := s[pad..];
      DropPrefix(Zeros(pad), physical + more, s);
      ReadOfPhysical(kind, data[..n], Start(offset), t, more);
      assert HEADER_SIZE + n <= |t| ==> t[HEADER_SIZE + n..] == s[pad + HEADER_SIZE + n..];
    }
  }

  /** A reader passes over a trailer, whatever is in it. */
  lemma SkipTrailer(offset: nat, s: Bytes)
    requires offset <= BLOCK_SIZE
    ensures var pad := Trailer(offset);
            if pad <= |s| then
              ReadPhysical(s, offset) == ReadPhysical(s[pad..], Start(offset)) || (|s| == pad && ReadPhysical(s, offset).outcome == Eof)
            else ReadPhysical(s, offset).outcome == Eof
  {
    assert Trailer(offset) == 0 ==> s[0..] == s;
  }

  /** A record that is there in full is read back, and the reader is then where the writer was; one that is cut
      off anywhere is the end of the file. In neither case is anything reported. */
  lemma {:induction false} ReadOfEncoded(offset: nat, data: Bytes, begin: bool, scratch: Bytes, s: Bytes, more: Bytes)
    requires offset <= BLOCK_SIZE && s <= Encoded(offset, data, begin) + more && (begin ==> scratch == [])
    ensures var r, size := ReadLogical(s, offset, scratch, !begin), |Encoded(offset, data, begin)|;
            if size <= |s| then r == RecordRead(Some(scratch + data), s[size..], EndOffset(offset, data), false)
            else r.record == None && !r.reported
    decreases |data|, Start(offset) + HEADER_SIZE == BLOCK_SIZE
  {
    hide ReadPhysical, Fragment;
    var n := FragmentLength(offset, |data|);
    var first := Fragment(offset, data, begin);
    assert begin ==> scratch + data[..n] == data[..n];
    if n == |data| {
      ReadOfFragment(offset, data, begin, s, more);
      assert data[..n] == data;
    } else {
      var rest := Encoded(AfterFragment(offset, |data|), data[n..], false);
      assert (first + rest) + more == first + (rest + more);
      ReadOfFragment(offset, data, begin, s, rest + more);
      if |first| <= |s| {
        var t := s[|first|..];
        assert (first + (rest + more))[|first|..] == rest + more;
        ReadOfEncoded(AfterFragment(offset, |data|), data[n..], false, scratch + data[..n], t, more);
        assert (scratch + data[..n]) + data[n..] == scratch + data;
        assert |rest| <= |t| ==> t[|rest|..] == s[|first + rest|..];
      }
    }
  }

  /** How many whole records a prefix of a log of `size` bytes contains. */
  function WholeRecords(offset: nat, records: seq<Bytes>, size: nat): (k: nat)
    requires offset <= BLOCK_SIZE
    ensures k <= |records|
    decreases |records|
  {
    if records == [] then 0
    else
      var first := |Encoded(offset, records[0], true)|;
      if size < first then 0 else 1 + WholeRecords(EndOffset(offset, records[0]), records[1..], size - first)
  }

  lemma ReadOfNothing(offset: nat)
    requires offset <= BLOCK_SIZE
    ensures ReadAll([], offset) == LogRead([], false)
  {
  }

  /** Reading any prefix of a log returns exactly the records it contains in full, and reports no corruption. */
  lemma {:induction false} ReadOfPrefix(offset: nat, records: seq<Bytes>, s: Bytes)
    requires offset <= BLOCK_SIZE && s <= File(offset, records)
    ensures ReadAll(s, offset) == LogRead(records[..WholeRecords(offset, records, |s|)], false)
    decreases |records|
  {
    hide ReadLogical, Encoded, EndOffset;
    if records == [] {
      ReadOfNothing(offset);
    } else {
      var first := Encoded(offset, records[0], true);
      var offset' := EndOffset(offset, records[0]);
      ReadOfEncoded(offset, records[0], true, [], s, File(offset', records[1..]));
      assert records[..0] == [] && [] + records[0] == records[0];
      if |first| <= |s| {
        var t := s[|first|..];
        assert (first + File(offset', records[1..]))[|first|..] == File(offset', records[1..]);
        ReadOfPrefix(offset', records[1..], t);
        var k := WholeRecords(offset', records[1..], |t|);
        assert [records[0]] + records[1..][..k] == records[..1 + k];
      }
    }
  }

  lemma {:induction false} WholeFile(offset: nat, records: seq<Bytes>, size: nat)
    requires offset <= BLOCK_SIZE && size == |File(offset, records)|
    ensures WholeRecords(offset, records, size) == |records|
    decreases |records|
  {
    if records != [] {
      var first := |Encoded(offset, records[0], true)|;
      WholeFile(EndOffset(offset, records[0]), records[1..], size - first);
    }
  }

  /** Reading a log back returns the records written. */
  lemma ReadOfFile(records: seq<Bytes>)
    ensures ReadAll(File(0, records), 0) == LogRead(records, false)
  {
    ReadOfPrefix(0, records, File(0, records));
    WholeFile(0, records, |File(0, records)|);
    assert records[..|records|] == records;
  }

  /** A reader that has no block yet is at the start of one. */
  lemma {:induction false} ReadFromStart(s: Bytes)
    ensures ReadAll(s, BLOCK_SIZE) == ReadAll(s, 0)
  {
    AtTrailer([], s, BLOCK_SIZE);
    assert [] + s == s;
    assert ReadLogical(s, BLOCK_SIZE, [], false) == ReadLogical(s, 0, [], false);
  }
}
