/** Version edits, and how the MANIFEST writes them (db/version_edit.cc). */
module VersionEdits {
  import opened Wrappers
  import opened ByteStrings
  import opened Coding

  const NUM_LEVELS: nat := 7

  /** A table file: its keys are internal keys as byte strings. */
  datatype FileMetaData = FileMetaData(number: nat, fileSize: nat, smallest: Bytes, largest: Bytes)

  datatype LevelFile = LevelFile(level: nat, file: FileMetaData)
  datatype LevelNumber = LevelNumber(level: nat, number: nat)
  datatype LevelKey = LevelKey(level: nat, key: Bytes)

  datatype VersionEdit = VersionEdit(
    comparator: Option<Bytes>,
    logNumber: Option<nat>,
    prevLogNumber: Option<nat>,
    nextFileNumber: Option<nat>,
    lastSequence: Option<nat>,
    compactPointers: seq<LevelKey>,
    deletedFiles: set<LevelNumber>,
    newFiles: seq<LevelFile>)

  const CLEAR := VersionEdit(None, None, None, None, None, [], {}, [])

  /** One tagged field of a record. */
  datatype Field =
    | Comparator(name: Bytes)
    | LogNumber(number: nat)
    | NextFileNumber(number: nat)
    | LastSequence(number: nat)
    | CompactPointer(pointer: LevelKey)
    | DeletedFile(deleted: LevelNumber)
    | NewFile(added: LevelFile)
    | PrevLogNumber(number: nat)

  function FieldTag(f: Field): nat {
    match f
    case Comparator(_) => 1
    case LogNumber(_) => 2
    case NextFileNumber(_) => 3
    case LastSequence(_) => 4
    case CompactPointer(_) => 5
    case DeletedFile(_) => 6
    case NewFile(_) => 7
    case PrevLogNumber(_) => 9 // 8 is not used any more
  }

  function FileBytes(f: FileMetaData): Bytes {
    Varint(f.number) + (Varint(f.fileSize) + (LengthPrefixed(f.smallest) + LengthPrefixed(f.largest)))
  }

  function BodyBytes(f: Field): Bytes {
    match f
    case Comparator(name) => LengthPrefixed(name)
    case LogNumber(n) => Varint(n)
    case NextFileNumber(n) => Varint(n)
    case LastSequence(n) => Varint(n)
    case CompactPointer(p) => Varint(p.level) + LengthPrefixed(p.key)
    case DeletedFile(d) => Varint(d.level) + Varint(d.number)
    case NewFile(a) => Varint(a.level) + FileBytes(a.file)
    case PrevLogNumber(n) => Varint(n)
  }

  function FieldBytes(f: Field): (s: Bytes)
    ensures s != []
  {
    Varint(FieldTag(f)) + BodyBytes(f)
  }

  function AllBytes(fields: seq<Field>): Bytes {
    if fields == [] then [] else FieldBytes(fields[0]) + AllBytes(fields[1..])
  }

  // ---- reading ----

  function GetTag(s: Bytes): (r: Option<Read<nat>>)
    ensures r.Some? ==> |r.value.rest| < |s|
  {
    match GetVarint(s, 5, WORD)
    case None => None
    case Some(p) => Some(Read(p.value, s[p.size..]))
  }

  function GetLevel(s: Bytes): (r: Option<Read<nat>>)
    ensures r.Some? ==> |r.value.rest| < |s|
  {
    match GetTag(s)
    case None => None
    case Some(p) => if p.value < NUM_LEVELS then Some(p) else None
  }

  function GetFile(s: Bytes): (r: Option<Read<FileMetaData>>)
    ensures r.Some? ==> |r.value.rest| < |s|
  {
    match GetNumber(s)
    case None => None
    case Some(number) =>
      match GetNumber(number.rest)
      case None => None
      case Some(size) =>
        match GetLengthPrefixed(size.rest)
        case None => None
        case Some(smallest) =>
          match GetLengthPrefixed(smallest.rest)
          case None => None
          case Some(largest) =>
            Some(Read(FileMetaData(number.value, size.value, smallest.value, largest.value), largest.rest))
  }

  /** The body that belongs to a tag. */
  function GetBody(tag: nat, s: Bytes): (r: Option<Read<Field>>)
    ensures r.Some? ==> |r.value.rest| < |s|
  {
    if tag == 1 then
      match GetLengthPrefixed(s) case None => None case Some(p) => Some(Read(Comparator(p.value), p.rest))
    else if tag == 2 then
      match GetNumber(s) case None => None case Some(p) => Some(Read(LogNumber(p.value), p.rest))
    else if tag == 3 then
      match GetNumber(s) case None => None case Some(p) => Some(Read(NextFileNumber(p.value), p.rest))
    else if tag == 4 then
      match GetNumber(s) case None => None case Some(p) => Some(Read(LastSequence(p.value), p.rest))
    else if tag == 9 then
      match GetNumber(s) case None => None case Some(p) => Some(Read(PrevLogNumber(p.value), p.rest))
    else if tag == 5 then
      match GetLevel(s)
      case None => None
      case Some(level) =>
        (match GetLengthPrefixed(level.rest)
         case None => None
         case Some(key) => Some(Read(CompactPointer(LevelKey(level.value, key.value)), key.rest)))
    else if tag == 6 then
      match GetLevel(s)
      case None => None
      case Some(level) =>
        (match GetNumber(level.rest)
         case None => None
         case Some(number) => Some(Read(DeletedFile(LevelNumber(level.value, number.value)), number.rest)))
    else if tag == 7 then
      match GetLevel(s)
      case None => None
      case Some(level) =>
        (match GetFile(level.rest)
         case None => None
         case Some(file) => Some(Read(NewFile(LevelFile(level.value, file.value)), file.rest)))
    else None
  }

  function GetField(s: Bytes): (r: Option<Read<Field>>)
    ensures r.Some? ==> |r.value.rest| < |s|
  {
    match GetTag(s)
    case None => None
    case Some(tag) => GetBody(tag.value, tag.rest)
  }

  /** The fields of a record, if it is one. */
  function GetFields(s: Bytes): Option<seq<Field>>
    decreases |s|
  {
    if s == [] then Some([])
    else match GetField(s) {
      case None => None
      case Some(first) =>
        match GetFields(first.rest)
        case None => None
        case Some(more) => Some([first.value] + more)
    }
  }

  // ---- what is written is read ----

  /** Numbers have 64 bits, lengths have 32, and there are seven levels. */
  predicate FileFits(f: FileMetaData) {
    f.number < WORD64 && f.fileSize < WORD64 && |f.smallest| < WORD && |f.largest| < WORD
  }

  predicate FieldFits(f: Field) {
    match f
    case Comparator(name) => |name| < WORD
    case LogNumber(n) => n < WORD64
    case NextFileNumber(n) => n < WORD64
    case LastSequence(n) => n < WORD64
    case PrevLogNumber(n) => n < WORD64
    case CompactPointer(p) => p.level < NUM_LEVELS && |p.key| < WORD
    case DeletedFile(d) => d.level < NUM_LEVELS && d.number < WORD64
    case NewFile(a) => a.level < NUM_LEVELS && FileFits(a.file)
  }

  lemma TagIsRead(n: nat, rest: Bytes)
    requires n < WORD
    ensures GetTag(Varint(n) + rest) == Some(Read(n, rest))
  {
    Varint32RoundTrip(n, rest);
  }

  lemma FileIsRead(f: FileMetaData, rest: Bytes)
    requires FileFits(f)
    ensures GetFile(FileBytes(f) + rest) == Some(Read(f, rest))
  {
    hide Varint, LengthPrefixed, GetNumber, GetLengthPrefixed;
    var a, b, c, d := Varint(f.number), Varint(f.fileSize), LengthPrefixed(f.smallest), LengthPrefixed(f.largest);
    assert FileBytes(f) + rest == a + (b + (c + (d + rest)));
    NumberIsRead(f.number, b + (c + (d + rest)));
    NumberIsRead(f.fileSize, c + (d + rest));
    LengthPrefixedRoundTrip(f.smallest, d + rest);
    LengthPrefixedRoundTrip(f.largest, rest);
  }

  lemma BodyIsRead(f: Field, rest: Bytes)
    requires FieldFits(f)
    ensures GetBody(FieldTag(f), BodyBytes(f) + rest) == Some(Read(f, rest))
  {
    hide Varint, LengthPrefixed, GetNumber, GetLengthPrefixed, GetTag, GetFile, FileBytes;
    match f
    case Comparator(name) => LengthPrefixedRoundTrip(name, rest);
    case LogNumber(n) => NumberIsRead(n, rest);
    case NextFileNumber(n) => NumberIsRead(n, rest);
    case LastSequence(n) => NumberIsRead(n, rest);
    case PrevLogNumber(n) => NumberIsRead(n, rest);
    case CompactPointer(p) =>
      assert BodyBytes(f) + rest == Varint(p.level) + (LengthPrefixed(p.key) + rest);
      TagIsRead(p.level, LengthPrefixed(p.key) + rest);
      LengthPrefixedRoundTrip(p.key, rest);
    case DeletedFile(d) =>
      assert BodyBytes(f) + rest == Varint(d.level) + (Varint(d.number) + rest);
      TagIsRead(d.level, Varint(d.number) + rest);
      NumberIsRead(d.number, rest);
    case NewFile(a) =>
      assert BodyBytes(f) + rest == Varint(a.level) + (FileBytes(a.file) + rest);
      TagIsRead(a.level, FileBytes(a.file) + rest);
      FileIsRead(a.file, rest);
  }

  lemma FieldIsRead(f: Field, rest: Bytes)
    requires FieldFits(f)
    ensures GetField(FieldBytes(f) + rest) == Some(Read(f, rest))
  {
    hide GetBody, BodyBytes, GetTag, Varint;
    assert FieldBytes(f) + rest == Varint(FieldTag(f)) + (BodyBytes(f) + rest);
    TagIsRead(FieldTag(f), BodyBytes(f) + rest);
    BodyIsRead(f, rest);
  }

  lemma {:induction false} FieldsAreRead(fields: seq<Field>)
    requires forall f :: f in fields ==> FieldFits(f)
    ensures GetFields(AllBytes(fields)) == Some(fields)
  {
    hide GetField, FieldBytes;
    if fields != [] {
      FieldIsRead(fields[0], AllBytes(fields[1..]));
      FieldsAreRead(fields[1..]);
      assert [fields[0]] + fields[1..] == fields;
    }
  }

  // ---- edits ----

  function Noted(e: VersionEdit, f: Field): VersionEdit {
    match f
    case Comparator(name) => e.(comparator := Some(name))
    case LogNumber(n) => e.(logNumber := Some(n))
    case NextFileNumber(n) => e.(nextFileNumber := Some(n))
    case LastSequence(n) => e.(lastSequence := Some(n))
    case PrevLogNumber(n) => e.(prevLogNumber := Some(n))
    case CompactPointer(p) => e.(compactPointers := e.compactPointers + [p])
    case DeletedFile(d) => e.(deletedFiles := e.deletedFiles + {d})
    case NewFile(a) => e.(newFiles := e.newFiles + [a])
  }

  function AllNoted(e: VersionEdit, fields: seq<Field>): VersionEdit
    decreases |fields|
  {
    if fields == [] then e else AllNoted(Noted(e, fields[0]), fields[1..])
  }

  /** A record as an edit. */
  function Decoded(s: Bytes): Option<VersionEdit> {
    match GetFields(s)
    case None => None
    case Some(fields) => Some(AllNoted(CLEAR, fields))
  }

  predicate EditFits(e: VersionEdit) {
    && (e.comparator.Some? ==> |e.comparator.value| < WORD)
    && (e.logNumber.Some? ==> e.logNumber.value < WORD64) && (e.prevLogNumber.Some? ==> e.prevLogNumber.value < WORD64)
    && (e.nextFileNumber.Some? ==> e.nextFileNumber.value < WORD64)
    && (e.lastSequence.Some? ==> e.lastSequence.value < WORD64)
    && (forall p :: p in e.compactPointers ==> FieldFits(CompactPointer(p)))
    && (forall d :: d in e.deletedFiles ==> FieldFits(DeletedFile(d)))
    && forall a :: a in e.newFiles ==> FieldFits(NewFile(a))
  }

  /** DecodeFrom: fields one after the other, until one cannot be read or nothing is left. */
  method DecodeFrom(src: Bytes) returns (edit: Option<VersionEdit>)
    ensures edit == Decoded(src)
  {
    hide GetField, Noted;
    var input, e := src, CLEAR;
    while input != []
      invariant Decoded(src) == match GetFields(input) case None => None case Some(fields) => Some(AllNoted(e, fields))
      decreases |input|
    {
      var field := GetField(input);
      if field == None {
        return None;
      }
      ghost var rest := GetFields(field.value.rest);
      if rest.Some? {
        assert ([field.value.value] + rest.value)[1..] == rest.value;
      }
      e, input := Noted(e, field.value.value), field.value.rest;
    }
    return Some(e);
  }

  function PointerFields(ps: seq<LevelKey>): seq<Field> {
    if ps == [] then [] else PointerFields(ps[..|ps| - 1]) + [CompactPointer(ps[|ps| - 1])]
  }

  function DeletedFields(ds: seq<LevelNumber>): seq<Field> {
    if ds == [] then [] else DeletedFields(ds[..|ds| - 1]) + [DeletedFile(ds[|ds| - 1])]
  }

  function NewFields(fs: seq<LevelFile>): seq<Field> {
    if fs == [] then [] else NewFields(fs[..|fs| - 1]) + [NewFile(fs[|fs| - 1])]
  }

  /** The header fields of an edit that are there, in the order in which they are written. */
  function HeadFields(e: VersionEdit): seq<Field> {
    (if e.comparator.Some? then [Comparator(e.comparator.value)] else [])
    + (if e.logNumber.Some? then [LogNumber(e.logNumber.value)] else [])
    + (if e.prevLogNumber.Some? then [PrevLogNumber(e.prevLogNumber.value)] else [])
    + (if e.nextFileNumber.Some? then [NextFileNumber(e.nextFileNumber.value)] else [])
    + (if e.lastSequence.Some? then [LastSequence(e.lastSequence.value)] else [])
  }

  /** All fields, with the deleted files in some order. */
  function Fields(e: VersionEdit, order: seq<LevelNumber>): seq<Field> {
    HeadFields(e) + PointerFields(e.compactPointers) + DeletedFields(order) + NewFields(e.newFiles)
  }

  ghost predicate Lists(order: seq<LevelNumber>, s: set<LevelNumber>) {
    forall d :: d in order <==> d in s
  }

  lemma {:induction false} AllNotedConcat(e: VersionEdit, a: seq<Field>, b: seq<Field>)
    ensures AllNoted(e, a + b) == AllNoted(AllNoted(e, a), b)
    decreases |a|
  {
    hide Noted;
    if a == [] {
      assert a + b == b;
    } else {
      assert (a + b)[1..] == a[1..] + b && (a + b)[0] == a[0];
      AllNotedConcat(Noted(e, a[0]), a[1..], b);
    }
  }

  lemma OneNoted(e: VersionEdit, f: Field)
    ensures AllNoted(e, [f]) == Noted(e, f)
  {
    assert [f][1..] == [];
  }

  lemma {:induction false} PointersNoted(e: VersionEdit, ps: seq<LevelKey>)
    ensures AllNoted(e, PointerFields(ps)) == e.(compactPointers := e.compactPointers + ps)
    decreases |ps|
  {
    if ps != [] {
      var rest, p := ps[..|ps| - 1], ps[|ps| - 1];
      PointersNoted(e, rest);
      AllNotedConcat(e, PointerFields(rest), [CompactPointer(p)]);
      OneNoted(AllNoted(e, PointerFields(rest)), CompactPointer(p));
      assert e.compactPointers + ps == e.compactPointers + rest + [p];
    } else {
      assert e.compactPointers + ps == e.compactPointers;
    }
  }

  lemma {:induction false} DeletedNoted(e: VersionEdit, ds: seq<LevelNumber>)
    ensures AllNoted(e, DeletedFields(ds)) == e.(deletedFiles := e.deletedFiles + set d | d in ds)
    decreases |ds|
  {
    if ds != [] {
      var rest, d := ds[..|ds| - 1], ds[|ds| - 1];
      DeletedNoted(e, rest);
      AllNotedConcat(e, DeletedFields(rest), [DeletedFile(d)]);
      OneNoted(AllNoted(e, DeletedFields(rest)), DeletedFile(d));
      assert ds == rest + [d];
    }
  }

  lemma {:induction false} NewNoted(e: VersionEdit, fs: seq<LevelFile>)
    ensures AllNoted(e, NewFields(fs)) == e.(newFiles := e.newFiles + fs)
    decreases |fs|
  {
    if fs != [] {
      var rest, f := fs[..|fs| - 1], fs[|fs| - 1];
      NewNoted(e, rest);
      AllNotedConcat(e, NewFields(rest), [NewFile(f)]);
      OneNoted(AllNoted(e, NewFields(rest)), NewFile(f));
      assert e.newFiles + fs == e.newFiles + rest + [f];
    } else {
      assert e.newFiles + fs == e.newFiles;
    }
  }

  lemma HeadNoted(e: VersionEdit)
    ensures AllNoted(CLEAR, HeadFields(e)) == e.(compactPointers := [], deletedFiles := {}, newFiles := [])
  {
    var a := if e.comparator.Some? then [Comparator(e.comparator.value)] else [];
    var b := if e.logNumber.Some? then [LogNumber(e.logNumber.value)] else [];
    var c := if e.prevLogNumber.Some? then [PrevLogNumber(e.prevLogNumber.value)] else [];
    var d := if e.nextFileNumber.Some? then [NextFileNumber(e.nextFileNumber.value)] else [];
    var f := if e.lastSequence.Some? then [LastSequence(e.lastSequence.value)] else [];
    AllNotedConcat(CLEAR, a + b + c + d, f);
    AllNotedConcat(CLEAR, a + b + c, d);
    AllNotedConcat(CLEAR, a + b, c);
    AllNotedConcat(CLEAR, a, b);
    NotedOrNot(CLEAR, a);
    NotedOrNot(AllNoted(CLEAR, a), b);
    NotedOrNot(AllNoted(CLEAR, a + b), c);
    NotedOrNot(AllNoted(CLEAR, a + b + c), d);
    NotedOrNot(AllNoted(CLEAR, a + b + c + d), f);
    hide AllNoted;
  }

  lemma NotedOrNot(e: VersionEdit, fields: seq<Field>)
    requires |fields| <= 1
    ensures AllNoted(e, fields) == if fields == [] then e else Noted(e, fields[0])
  {
    if fields != [] {
      assert fields == [fields[0]];
      OneNoted(e, fields[0]);
    }
  }

  /** The fields of an edit give the edit back. */
  lemma FieldsNoted(e: VersionEdit, order: seq<LevelNumber>)
    requires Lists(order, e.deletedFiles)
    ensures AllNoted(CLEAR, Fields(e, order)) == e
  {
    var a, b, c, d := HeadFields(e), PointerFields(e.compactPointers), DeletedFields(order), NewFields(e.newFiles);
    hide AllNoted, HeadFields, PointerFields, DeletedFields, NewFields;
    AllNotedConcat(CLEAR, a + b + c, d);
    AllNotedConcat(CLEAR, a + b, c);
    AllNotedConcat(CLEAR, a, b);
    HeadNoted(e);
    PointersNoted(AllNoted(CLEAR, a), e.compactPointers);
    DeletedNoted(AllNoted(CLEAR, a + b), order);
    NewNoted(AllNoted(CLEAR, a + b + c), e.newFiles);
    assert (set x | x in order) == e.deletedFiles;
    assert [] + e.compactPointers == e.compactPointers && [] + e.newFiles == e.newFiles;
  }

  lemma {:induction false} BodyFieldsFit(ps: seq<LevelKey>, ds: seq<LevelNumber>, fs: seq<LevelFile>)
    requires forall p :: p in ps ==> FieldFits(CompactPointer(p))
    requires forall d :: d in ds ==> FieldFits(DeletedFile(d))
    requires forall a :: a in fs ==> FieldFits(NewFile(a))
    ensures forall f :: f in PointerFields(ps) + DeletedFields(ds) + NewFields(fs) ==> FieldFits(f)
    decreases |ps| + |ds| + |fs|
  {
    if ps != [] {
      BodyFieldsFit(ps[..|ps| - 1], ds, fs);
    } else if ds != [] {
      BodyFieldsFit(ps, ds[..|ds| - 1], fs);
    } else if fs != [] {
      BodyFieldsFit(ps, ds, fs[..|fs| - 1]);
    }
  }

  /** Whatever edit is written is the edit that is read. */
  lemma EditRoundTrip(e: VersionEdit, order: seq<LevelNumber>)
    requires EditFits(e) && Lists(order, e.deletedFiles)
    ensures Decoded(AllBytes(Fields(e, order))) == Some(e)
  {
    var fields := Fields(e, order);
    BodyFieldsFit(e.compactPointers, order, e.newFiles);
    forall f | f in fields ensures FieldFits(f) {
      if f !in HeadFields(e) {
        assert f in PointerFields(e.compactPointers) + DeletedFields(order) + NewFields(e.newFiles);
      }
    }
    hide Fields, AllNoted, GetFields, AllBytes, FieldFits;
    FieldsAreRead(fields);
    FieldsNoted(e, order);
  }

  lemma {:induction false} AllBytesAppend(a: seq<Field>, f: Field)
    ensures AllBytes(a + [f]) == AllBytes(a) + FieldBytes(f)
  {
    hide FieldBytes;
    if a == [] {
      assert [f][1..] == [];
    } else {
      AllBytesAppend(a[1..], f);
      assert (a + [f])[1..] == a[1..] + [f] && (a + [f])[0] == a[0];
      assert FieldBytes(a[0]) + (AllBytes(a[1..]) + FieldBytes(f)) == FieldBytes(a[0]) + AllBytes(a[1..]) + FieldBytes(f);
    }
  }

  predicate AtMost(a: LevelNumber, b: LevelNumber) {
    a.level < b.level || (a.level == b.level && a.number <= b.number)
  }

  predicate IsLeast(d: LevelNumber, s: set<LevelNumber>) {
    d in s && forall x :: x in s ==> AtMost(d, x)
  }

  lemma LeastExists(s: set<LevelNumber>) returns (d: LevelNumber)
    requires s != {}
    ensures IsLeast(d, s)
    decreases |s|
  {
    var x :| x in s;
    if s == {x} {
      d := x;
    } else {
      assert s - {x} != {} by {
        assert s == {x} + (s - {x});
      }
      var y := LeastExists(s - {x});
      d := if AtMost(x, y) then x else y;
    }
  }

  /** PutVarint32 of the tag and then the body. */
  method Append(dst: Bytes, f: Field, ghost before: seq<Field>) returns (r: Bytes)
    requires dst == AllBytes(before)
    ensures r == AllBytes(before + [f])
  {
    AllBytesAppend(before, f);
    hide BodyBytes;
    r := dst + (Varint(FieldTag(f)) + BodyBytes(f));
  }

  method EncodeHead(e: VersionEdit) returns (dst: Bytes)
    ensures dst == AllBytes(HeadFields(e))
  {
    hide AllBytes;
    NoBytes();
    dst := [];
    ghost var fields := [];
    if e.comparator.Some? {
      dst := Append(dst, Comparator(e.comparator.value), fields);
      fields := fields + [Comparator(e.comparator.value)];
    }
    if e.logNumber.Some? {
      dst := Append(dst, LogNumber(e.logNumber.value), fields);
      fields := fields + [LogNumber(e.logNumber.value)];
    }
    if e.prevLogNumber.Some? {
      dst := Append(dst, PrevLogNumber(e.prevLogNumber.value), fields);
      fields := fields + [PrevLogNumber(e.prevLogNumber.value)];
    }
    if e.nextFileNumber.Some? {
      dst := Append(dst, NextFileNumber(e.nextFileNumber.value), fields);
      fields := fields + [NextFileNumber(e.nextFileNumber.value)];
    }
    if e.lastSequence.Some? {
      dst := Append(dst, LastSequence(e.lastSequence.value), fields);
      fields := fields + [LastSequence(e.lastSequence.value)];
    }
    assert fields == HeadFields(e);
  }

  lemma NoBytes()
    ensures AllBytes([]) == []
  {
  }

  lemma PointerFieldsStep(ps: seq<LevelKey>, i: nat)
    requires i < |ps|
    ensures PointerFields(ps[..i + 1]) == PointerFields(ps[..i]) + [CompactPointer(ps[i])]
  {
    assert ps[..i + 1][..i] == ps[..i];
  }

  lemma NewFieldsStep(fs: seq<LevelFile>, i: nat)
    requires i < |fs|
    ensures NewFields(fs[..i + 1]) == NewFields(fs[..i]) + [NewFile(fs[i])]
  {
    assert fs[..i + 1][..i] == fs[..i];
  }

  lemma DeletedFieldsAppend(ds: seq<LevelNumber>, d: LevelNumber)
    ensures DeletedFields(ds + [d]) == DeletedFields(ds) + [DeletedFile(d)]
  {
    assert (ds + [d])[..|ds|] == ds;
  }

  lemma AssociateFields(a: seq<Field>, b: seq<Field>, c: seq<Field>)
    ensures a + b + c == a + (b + c)
  {
  }

  /** EncodeTo: what is there, in order of tag groups; deleted files by level and number. */
  method EncodeTo(e: VersionEdit) returns (dst: Bytes, ghost order: seq<LevelNumber>)
    ensures Lists(order, e.deletedFiles) && dst == AllBytes(Fields(e, order))
    ensures EditFits(e) ==> Decoded(dst) == Some(e)
  {
    hide AllBytes, PointerFields, DeletedFields, NewFields, HeadFields, EditFits, Decoded;
    dst := EncodeHead(e);
    ghost var head := HeadFields(e);
    EmptyFields();
    assert e.compactPointers[..0] == [] && head + [] == head;
    for i := 0 to |e.compactPointers|
      invariant dst == AllBytes(head + PointerFields(e.compactPointers[..i]))
    {
      PointerFieldsStep(e.compactPointers, i);
      AssociateFields(head, PointerFields(e.compactPointers[..i]), [CompactPointer(e.compactPointers[i])]);
      dst := Append(dst, CompactPointer(e.compactPointers[i]), head + PointerFields(e.compactPointers[..i]));
    }
    assert e.compactPointers[..|e.compactPointers|] == e.compactPointers;
    head := head + PointerFields(e.compactPointers);
    var rest := e.deletedFiles;
    order := [];
    assert head + [] == head;
    while rest != {}
      invariant dst == AllBytes(head + DeletedFields(order))
      invariant rest <= e.deletedFiles && Lists(order, e.deletedFiles - rest)
      decreases |rest|
    {
      ghost var least := LeastExists(rest);
      var d :| d in rest && IsLeast(d, rest);
      DeletedFieldsAppend(order, d);
      AssociateFields(head, DeletedFields(order), [DeletedFile(d)]);
      dst := Append(dst, DeletedFile(d), head + DeletedFields(order));
      rest := rest - {d};
      order := order + [d];
    }
    assert e.deletedFiles - rest == e.deletedFiles;
    head := head + DeletedFields(order);
    assert e.newFiles[..0] == [] && head + [] == head;
    for i := 0 to |e.newFiles|
      invariant dst == AllBytes(head + NewFields(e.newFiles[..i]))
    {
      NewFieldsStep(e.newFiles, i);
      AssociateFields(head, NewFields(e.newFiles[..i]), [NewFile(e.newFiles[i])]);
      dst := Append(dst, NewFile(e.newFiles[i]), head + NewFields(e.newFiles[..i]));
    }
    assert e.newFiles[..|e.newFiles|] == e.newFiles;
    if EditFits(e) {
      EditRoundTrip(e, order);
    }
  }

  lemma EmptyFields()
    ensures PointerFields([]) == [] && DeletedFields([]) == [] && NewFields([]) == []
  {
  }
}
