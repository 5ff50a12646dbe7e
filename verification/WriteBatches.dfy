/** Batches of writes as one byte string (db/write_batch.cc). */
module WriteBatches {
  import opened Wrappers
  import opened ByteStrings
  import opened Coding

  datatype Record = Put(key: Bytes, value: Bytes) | Delete(key: Bytes)

  const HEADER: nat := 12 // eight bytes of sequence number, four of count

  const TYPE_DELETION: byte := 0
  const TYPE_VALUE: byte := 1

  function RecordBytes(r: Record): (s: Bytes)
    ensures s != []
  {
    match r
    case Put(k, v) => [TYPE_VALUE] + (LengthPrefixed(k) + LengthPrefixed(v))
    case Delete(k) => [TYPE_DELETION] + LengthPrefixed(k)
  }

  function Data(records: seq<Record>): Bytes {
    if records == [] then [] else RecordBytes(records[0]) + Data(records[1..])
  }

  /** A whole batch: its sequence number, the number of its records, and the records. */
  function Encoded(sequence: nat, records: seq<Record>): Bytes
    requires sequence < WORD64
  {
    Fixed64(sequence) + Fixed32(|records| % WORD) + Data(records)
  }

  lemma EncodedParts(sequence: nat, records: seq<Record>)
    requires sequence < WORD64
    ensures var s := Encoded(sequence, records);
            && |s| >= HEADER && s[..8] == Fixed64(sequence) && s[8..HEADER] == Fixed32(|records| % WORD)
            && s[HEADER..] == Data(records)
  {
  }

  /** A batch with its count and its data replaced. */
  lemma EncodedExtends(sequence: nat, records: seq<Record>, more: seq<Record>, n: nat)
    requires sequence < WORD64 && n % WORD == |more| % WORD
    ensures var s, count := Encoded(sequence, records), (|records| % WORD + n) % WORD;
            && |s| >= HEADER
            && s[..8] + Fixed32(count) + s[HEADER..] + Data(more) == Encoded(sequence, records + more)
  {
    hide Data, Encoded, Fixed32, Fixed64;
    assert (|records| % WORD + n) % WORD == |records + more| % WORD by {
      SumModulo(|records|, n, |more|);
    }
    EncodedIs(sequence, records);
    EncodedIs(sequence, records + more);
    DataConcat(records, more);
    ReplaceHeader(Fixed64(sequence), Fixed32(|records| % WORD), Fixed32(|records + more| % WORD), Data(records), Data(more));
  }

  lemma ReplaceHeader(number: Bytes, before: Bytes, after: Bytes, data: Bytes, more: Bytes)
    requires |number| == 8 && |before| == |after| == 4
    ensures var s := number + before + data;
            |s| >= HEADER && s[..8] + after + s[HEADER..] + more == number + after + (data + more)
  {
    var s := number + before + data;
    assert s[..8] == number && s[HEADER..] == data;
  }

  lemma EncodedIs(sequence: nat, records: seq<Record>)
    requires sequence < WORD64
    ensures Encoded(sequence, records) == Fixed64(sequence) + Fixed32(|records| % WORD) + Data(records)
  {
  }

  lemma {:induction false} DataConcat(a: seq<Record>, b: seq<Record>)
    ensures Data(a + b) == Data(a) + Data(b)
  {
    hide RecordBytes;
    if a == [] {
      assert a + b == b;
    } else {
      DataConcat(a[1..], b);
      assert (a + b)[1..] == a[1..] + b && (a + b)[0] == a[0];
      Associate(RecordBytes(a[0]), Data(a[1..]), Data(b));
    }
  }

  /** What a handler is called with, and whether all of the data could be read. */
  datatype Calls = Calls(records: seq<Record>, ok: bool)

  /** The record at the front of the data, and what follows it. */
  function FirstRecord(s: Bytes): (r: Option<(Record, Bytes)>)
    ensures r.Some? ==> |r.value.1| < |s|
  {
    if s == [] then None
    else if s[0] == TYPE_VALUE then
      match GetLengthPrefixed(s[1..])
      case None => None
      case Some(key) =>
        match GetLengthPrefixed(key.rest)
        case None => None
        case Some(value) => Some((Put(key.value, value.value), value.rest))
    else if s[0] == TYPE_DELETION then
      match GetLengthPrefixed(s[1..])
      case None => None
      case Some(key) => Some((Delete(key.value), key.rest))
    else None
  }

  function Parse(s: Bytes): Calls
    decreases |s|
  {
    if s == [] then Calls([], true)
    else match FirstRecord(s) {
      case None => Calls([], false)
      case Some(first) => var rest := Parse(first.1); Calls([first.0] + rest.records, rest.ok)
    }
  }

  /** Lengths are written as 32-bit numbers. */
  predicate Small(r: Record) {
    |r.key| < WORD && (r.Put? ==> |r.value| < WORD)
  }

  lemma FirstRecordIsRead(r: Record, rest: Bytes)
    requires Small(r)
    ensures FirstRecord(RecordBytes(r) + rest) == Some((r, rest))
  {
    hide LengthPrefixed, GetLengthPrefixed;
    match r
    case Put(k, v) =>
      var s := RecordBytes(r) + rest;
      assert s[1..] == LengthPrefixed(k) + (LengthPrefixed(v) + rest);
      LengthPrefixedRoundTrip(k, LengthPrefixed(v) + rest);
      LengthPrefixedRoundTrip(v, rest);
    case Delete(k) =>
      var s := RecordBytes(r) + rest;
      assert s[1..] == LengthPrefixed(k) + rest;
      LengthPrefixedRoundTrip(k, rest);
  }

  /** The data of any records is read back as those records. */
  lemma {:induction false} DataIsRead(records: seq<Record>)
    requires forall r :: r in records ==> Small(r)
    ensures Parse(Data(records)) == Calls(records, true)
  {
    if records != [] {
      FirstRecordIsRead(records[0], Data(records[1..]));
      DataIsRead(records[1..]);
    }
  }

  /** Iterating over a batch: whoever reads it also checks the number of records. */
  function Iterated(rep: Bytes): Calls {
    if |rep| < HEADER then Calls([], false)
    else
      var calls := Parse(rep[HEADER..]);
      Calls(calls.records, calls.ok && |calls.records| % WORD == DecodeFixed32(rep[8..HEADER]))
  }

  lemma EncodedIsIterated(sequence: nat, records: seq<Record>)
    requires sequence < WORD64 && forall r :: r in records ==> Small(r)
    ensures Iterated(Encoded(sequence, records)) == Calls(records, true)
  {
    EncodedParts(sequence, records);
    DataIsRead(records);
    Fixed32RoundTrip(|records| % WORD);
  }

  class WriteBatch {
    var rep: Bytes
    ghost var sequence: nat
    ghost var records: seq<Record>

    ghost predicate Valid()
      reads this
    {
      sequence < WORD64 && rep == Encoded(sequence, records)
    }

    constructor ()
      ensures Valid() && sequence == 0 && records == []
    {
      new;
      Clear();
    }

    method Clear()
      modifies this
      ensures Valid() && sequence == 0 && records == []
    {
      rep := [0, 0, 0, 0, 0, 0, 0, 0, 0, 0, 0, 0];
      sequence, records := 0, [];
    }

    function Count(): (n: nat)
      requires Valid()
      reads this
      ensures n == |records| % WORD
    {
      EncodedParts(sequence, records);
      Fixed32RoundTrip(|records| % WORD);
      DecodeFixed32(rep[8..HEADER])
    }

    function Sequence(): (s: nat)
      requires Valid()
      reads this
      ensures s == sequence
    {
      EncodedParts(sequence, records);
      Fixed64RoundTrip(sequence);
      DecodeFixed64(rep[..8])
    }

    method SetSequence(s: nat)
      requires Valid() && s < WORD64
      modifies this
      ensures Valid() && sequence == s && records == old(records)
    {
      EncodedParts(sequence, records);
      rep := Fixed64(s) + rep[8..];
      sequence := s;
    }

    /** Adds to the count, and appends records. */
    method Extend(n: nat, data: Bytes, ghost more: seq<Record>)
      requires Valid() && n % WORD == |more| % WORD && data == Data(more)
      modifies this
      ensures Valid() && sequence == old(sequence) && records == old(records) + more
    {
      hide Encoded, Fixed32, Data;
      EncodedExtends(sequence, records, more, n);
      rep := rep[..8] + Fixed32((Count() + n) % WORD) + rep[HEADER..];
      rep := rep + data;
      records := records + more;
    }

    method Put(key: Bytes, value: Bytes)
      requires Valid()
      modifies this
      ensures Valid() && sequence == old(sequence) && records == old(records) + [Record.Put(key, value)]
    {
      ghost var more := [Record.Put(key, value)];
      assert Data(more) == RecordBytes(more[0]) + Data([]) == RecordBytes(more[0]);
      Extend(1, [TYPE_VALUE] + (LengthPrefixed(key) + LengthPrefixed(value)), more);
    }

    method Delete(key: Bytes)
      requires Valid()
      modifies this
      ensures Valid() && sequence == old(sequence) && records == old(records) + [Record.Delete(key)]
    {
      ghost var more := [Record.Delete(key)];
      assert Data(more) == RecordBytes(more[0]) + Data([]) == RecordBytes(more[0]);
      Extend(1, [TYPE_DELETION] + LengthPrefixed(key), more);
    }

    lemma Parts()
      requires Valid()
      ensures |rep| >= HEADER && rep[HEADER..] == Data(records)
    {
      EncodedParts(sequence, records);
    }

    /** All records of another batch, after those of this one. */
    method Append(src: WriteBatch)
      requires Valid() && src.Valid() && src != this
      modifies this
      ensures Valid() && sequence == old(sequence) && records == old(records) + src.records
    {
      hide Encoded, Data, Fixed32, Fixed64, DecodeFixed32;
      src.Parts();
      Extend(src.Count(), src.rep[HEADER..], src.records);
    }

    /** Calls a handler for each record; a malformed record ends the calls. */
    method Iterate() returns (calls: seq<Record>, ok: bool)
      ensures Calls(calls, ok) == Iterated(rep)
      ensures Valid() && (forall r :: r in records ==> Small(r)) ==> ok && calls == records
    {
      hide FirstRecord, Encoded;
      if Valid() && forall r :: r in records ==> Small(r) {
        EncodedIsIterated(sequence, records);
      }
      if |rep| < HEADER {
        return [], false;
      }
      var input := rep[HEADER..];
      calls := [];
      while input != []
        invariant Parse(rep[HEADER..]) == Calls(calls + Parse(input).records, Parse(input).ok)
        decreases |input|
      {
        var first := FirstRecord(input);
        if first == None {
          return calls, false;
        }
        calls, input := calls + [first.value.0], first.value.1;
      }
      ok := |calls| % WORD == DecodeFixed32(rep[8..HEADER]);
    }
  }

  lemma SumModulo(a: nat, b: nat, c: nat)
    requires b % WORD == c % WORD
    ensures (a % WORD + b) % WORD == (a + c) % WORD
  {
  }

  // ---- applying a batch ----

  /** What a memtable is given: a record and its sequence number. */
  datatype Addition = Addition(sequence: nat, record: Record)

  function Numbered(records: seq<Record>, first: nat): (a: seq<Addition>)
    ensures |a| == |records|
  {
    seq(|records|, i requires 0 <= i < |records| => Addition(first + i, records[i]))
  }

  class MemTable {
    var added: seq<Addition>

    constructor ()
      ensures added == []
    {
      added := [];
    }

    method Add(sequence: nat, record: Record)
      modifies this
      ensures added == old(added) + [Addition(sequence, record)]
    {
      added := added + [Addition(sequence, record)];
    }
  }

  /** Adds the records that can be read, counting sequence numbers up from the batch's own. */
  method InsertInto(b: WriteBatch, mem: MemTable) returns (ok: bool)
    requires b.Valid()
    modifies mem
    ensures ok == Iterated(b.rep).ok && mem.added == old(mem.added) + Numbered(Iterated(b.rep).records, b.sequence)
    ensures (forall r :: r in b.records ==> Small(r)) ==> ok && mem.added == old(mem.added) + Numbered(b.records, b.sequence)
  {
    hide Encoded, Iterated;
    var calls;
    calls, ok := b.Iterate();
    var sequence := b.Sequence();
    for i := 0 to |calls|
      invariant mem.added == old(mem.added) + Numbered(calls, b.sequence)[..i]
      invariant sequence == b.sequence + i
    {
      mem.Add(sequence, calls[i]);
      sequence := sequence + 1;
    }
  }
}
