/** Writing and reading a write-ahead log (db/log_writer.cc, db/log_reader.cc). */
module LogFiles {
  import opened ByteStrings
  import opened Wrappers
  import opened LogFormat
  import Crc32c

  class LogWriter {
    var dest: Bytes      // the file
    var blockOffset: nat
    const typeCrc: seq<bv32>
    ghost var records: seq<Bytes>

    ghost predicate Valid()
      reads this
    {
      Ready() && dest == File(0, records) && blockOffset == FileEnd(0, records)
    }

    ghost predicate Ready()
      reads this
    {
      && blockOffset <= BLOCK_SIZE
      && |typeCrc| == 5 && forall i: byte :: i < 5 ==> typeCrc[i] == Crc32c.Value([i])
    }

    constructor ()
      ensures Valid() && records == []
    {
      hide Crc32c.Value;
      dest, blockOffset, records := [], 0, [];
      typeCrc := [Crc32c.Value([0]), Crc32c.Value([1]), Crc32c.Value([2]), Crc32c.Value([3]), Crc32c.Value([4])];
    }

    /** Appends a record, cut into as many fragments as the blocks make necessary; an empty record takes one. */
    method AddRecord(record: Bytes)
      requires Valid()
      modifies this
      ensures Valid() && records == old(records) + [record]
      ensures dest == old(dest) + Encoded(old(blockOffset), record, true)
    {
      hide File, FileEnd, Encoded, EndOffset, Crc32c.Value;
      FileGrows(0, records, record);
      AddFragments(record);
      records := records + [record];
    }

    method AddFragments(record: Bytes)
      requires Ready()
      modifies this`dest, this`blockOffset
      ensures Ready() && dest == old(dest) + Encoded(old(blockOffset), record, true)
      ensures blockOffset == EndOffset(old(blockOffset), record)
    {
      hide Encoded, EndOffset, Fragment;
      ghost var all, end := dest + Encoded(blockOffset, record, true), EndOffset(blockOffset, record);
      var left := record;
      var begin, more := true, true;
      while more
        invariant Ready()
        invariant more ==> dest + Encoded(blockOffset, left, begin) == all && EndOffset(blockOffset, left) == end
        invariant !more ==> dest == all && blockOffset == end
        decreases more, |left|, Start(blockOffset) + HEADER_SIZE == BLOCK_SIZE
      {
        EncodedUnfolds(blockOffset, left, begin);
        ghost var before, offset, data := dest, blockOffset, left;
        var n := EmitFragment(left, begin);
        left := left[n..];
        more := |left| > 0;
        if more {
          assert dest + Encoded(blockOffset, left, false)
              == before + (Fragment(offset, data, begin) + Encoded(blockOffset, left, false));
        }
        begin := false;
      }
    }

    /** The next fragment, after a trailer where the block has no room for it. */
    method EmitFragment(left: Bytes, begin: bool) returns (fragmentLength: nat)
      requires Ready()
      modifies this`dest, this`blockOffset
      ensures Ready() && fragmentLength == FragmentLength(old(blockOffset), |left|)
      ensures dest == old(dest) + Fragment(old(blockOffset), left, begin)
      ensures blockOffset == AfterFragment(old(blockOffset), |left|)
    {
      hide Physical;
      var leftover := BLOCK_SIZE - blockOffset;
      if leftover < HEADER_SIZE {
        if leftover > 0 {
          dest := dest + Zeros(leftover);
        }
        blockOffset := 0;
      }
      var avail := BLOCK_SIZE - blockOffset - HEADER_SIZE;
      fragmentLength := if |left| < avail then |left| else avail;
      var end := |left| == fragmentLength;
      var kind := if begin && end then FULL else if begin then FIRST else if end then LAST else MIDDLE;
      EmitPhysicalRecord(kind, left[..fragmentLength]);
    }

    method EmitPhysicalRecord(kind: byte, data: Bytes)
      requires Ready() && kind < 5 && blockOffset + HEADER_SIZE + |data| <= BLOCK_SIZE
      modifies this`dest, this`blockOffset
      ensures Ready() && dest == old(dest) + Physical(kind, data)
      ensures blockOffset == old(blockOffset) + HEADER_SIZE + |data|
    {
      hide Crc32c.Extend, Crc32c.Value, Crc32c.Mask;
      var crc := Crc32c.Mask(Crc32c.Extend(typeCrc[kind], data) as nat);
      var header := Fixed32(crc) + [|data| % 256, |data| / 256, kind];
      dest := dest + header;
      dest := dest + data;
      blockOffset := blockOffset + HEADER_SIZE + |data|;
    }
  }

  class LogReader {
    var file: Bytes    // what has not been read from the file yet
    var buffer: Bytes  // the rest of the block read last
    var eof: bool      // that block was short
    var reported: bool // some corruption was reported
    ghost var offset: nat

    ghost predicate Valid()
      reads this
    {
      && offset <= BLOCK_SIZE
      && if eof then file == [] && |buffer| < BLOCK_SIZE - offset else |buffer| == BLOCK_SIZE - offset
    }

    ghost function Unread(): Bytes
      reads this
    {
      buffer + file
    }

    constructor (file: Bytes)
      ensures Valid() && Unread() == file && offset == BLOCK_SIZE && !reported
    {
      this.file, buffer, eof, reported, offset := file, [], false, false, BLOCK_SIZE;
    }

    /** The next block, or what there is of it. */
    method ReadBlock()
      requires Valid() && !eof && |buffer| < HEADER_SIZE
      modifies this
      ensures Valid() && Unread() == old(file) && offset == 0 && reported == old(reported)
      ensures eof <==> |old(file)| < BLOCK_SIZE
    {
      var n := Min(|file|, BLOCK_SIZE);
      buffer := file[..n];
      file := file[n..];
      eof := |buffer| < BLOCK_SIZE;
      offset := 0;
    }

    /** Reads one fragment. */
    method ReadPhysicalRecord() returns (r: Outcome)
      requires Valid()
      modifies this
      ensures Valid() && ReadPhysical(old(Unread()), old(offset)) == PhysicalRead(r, Unread(), offset)
      ensures reported == (old(reported) || r == Bad(true))
    {
      hide ReadPhysical, Crc32c.Value, Crc32c.Unmask, DecodeFixed32;
      ghost var result := ReadPhysical(Unread(), offset);
      while |buffer| < HEADER_SIZE
        invariant Valid() && reported == old(reported) && result == ReadPhysical(Unread(), offset)
        decreases !eof, BLOCK_SIZE - |buffer|
      {
        if eof {
          AtEnd(buffer, offset);
          assert buffer + file == buffer;
          buffer := [];
          return Eof;
        }
        AtTrailer(buffer, file, offset);
        ReadBlock();
      }
      AtHeader(buffer, file, offset);
      var length := buffer[4] as nat + 256 * buffer[5] as nat;
      var kind := buffer[6];
      if HEADER_SIZE + length > |buffer| {
        if !eof {
          Drop();
          return Bad(true);
        }
        buffer := [];
        return Eof;
      }
      if kind == 0 && length == 0 {
        buffer, offset := [], if eof then offset else BLOCK_SIZE;
        return Bad(false);
      }
      var expected := Crc32c.Unmask(DecodeFixed32(buffer[..4]));
      var actual := Crc32c.Value(buffer[6..HEADER_SIZE + length]) as nat;
      if actual != expected {
        Drop();
        return Bad(true);
      }
      r := Found(kind, buffer[HEADER_SIZE..HEADER_SIZE + length]);
      buffer, offset := buffer[HEADER_SIZE + length..], offset + HEADER_SIZE + length;
    }

    /** Gives up the rest of the block. */
    method Drop()
      requires Valid()
      modifies this
      ensures Valid() && buffer == [] && file == old(file) && eof == old(eof) && reported
      ensures offset == if eof then old(offset) else BLOCK_SIZE
    {
      buffer, reported := [], true;
      offset := if eof then offset else BLOCK_SIZE;
    }

    /** Reads one record, putting its fragments together in `scratch`. */
    method ReadRecord() returns (record: Option<Bytes>)
      requires Valid()
      modifies this
      ensures Valid()
      ensures var r := ReadLogical(old(Unread()), old(offset), [], false);
              && record == r.record && reported == (old(reported) || r.reported)
              && (record.Some? ==> Unread() == r.rest && offset == r.offset)
    {
      hide ReadPhysical;
      ghost var goal := ReadLogical(Unread(), offset, [], false);
      var scratch, inRecord := [], false;
      while true
        invariant Valid()
        invariant Reporting(goal, old(reported)) ==
                  Reporting(ReadLogical(Unread(), offset, scratch, inRecord), reported)
        decreases |Unread()|
      {
        var r := ReadPhysicalRecord();
        match r
        case Found(kind, data) =>
          if kind == FULL {
            if inRecord && scratch != [] {
              reported := true;
            }
            return Some(data);
          } else if kind == FIRST {
            if inRecord && scratch != [] {
              reported := true;
            }
            scratch, inRecord := data, true;
          } else if kind == MIDDLE {
            if !inRecord {
              reported := true;
            } else {
              scratch := scratch + data;
            }
          } else if kind == LAST {
            if !inRecord {
              reported := true;
            } else {
              return Some(scratch + data);
            }
          } else {
            reported, scratch, inRecord := true, [], false;
          }
        case Eof =>
          return None;
        case Bad(_) =>
          if inRecord {
            reported, inRecord := true, false;
          }
          scratch := [];
      }
    }
  }

  /** Reads all there is in a file. */
  method ReadLog(file: Bytes) returns (records: seq<Bytes>, reported: bool)
    ensures ReadAll(file, 0) == LogRead(records, reported)
  {
    hide ReadLogical;
    var reader := new LogReader(file);
    ReadFromStart(file);
    records := [];
    var more := true;
    while more
      invariant reader.Valid()
      invariant more ==> var rest := ReadAll(reader.Unread(), reader.offset);
                         ReadAll(file, 0) == LogRead(records + rest.records, reader.reported || rest.reported)
      invariant !more ==> ReadAll(file, 0) == LogRead(records, reader.reported)
      decreases more, |reader.Unread()|
    {
      var record := reader.ReadRecord();
      if record == None {
        more := false;
      } else {
        records := records + [record.value];
      }
    }
    reported := reader.reported;
  }

  /** Writes records to a new file. */
  method WriteLog(records: seq<Bytes>) returns (file: Bytes)
    ensures file == File(0, records)
  {
    hide Encoded, EndOffset, File, FileEnd;
    var writer := new LogWriter();
    for i := 0 to |records|
      invariant writer.Valid() && writer.records == records[..i]
    {
      writer.AddRecord(records[i]);
    }
    assert records[..|records|] == records;
    file := writer.dest;
  }

  /** A log that a crash has cut off at any byte is read back up to the last record it holds in full. */
  method CrashAndRead(records: seq<Bytes>, cut: nat) returns (read: seq<Bytes>, reported: bool)
    ensures !reported && read == records[..WholeRecords(0, records, Min(cut, |File(0, records)|))]
    ensures cut >= |File(0, records)| ==> read == records
  {
    var file := WriteLog(records);
    var left := if cut < |file| then file[..cut] else file;
    read, reported := ReadLog(left);
    ReadOfPrefix(0, records, left);
    WholeFile(0, records, |file|);
  }
}
