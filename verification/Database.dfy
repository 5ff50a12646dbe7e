/** The database as a state machine: writes, memtable switches, flushes, trivial moves, compactions that
    other steps interleave with, and crashes followed by recovery (db/db_impl.cc, db/version_set.cc). */
module Database {
  import opened Wrappers
  import opened ByteStrings
  import opened InternalKeys
  import opened Versions
  import opened Picking
  import opened CompactionWork
  import opened Edits
  import opened CompactionReads
  import Coding
  import Comparators
  import LogFormat
  import WriteBatches

  datatype Op = Put(key: UserKey, value: Bytes) | Delete(key: UserKey)

  /** A write group as one log record holds it: its operations stamped with consecutive sequence numbers. */
  type Batch = seq<Entry>

  function EntryOf(op: Op, sequence: SequenceNumber): Entry {
    match op
    case Put(k, value) => Entry(Key(k, sequence, Value), value)
    case Delete(k) => Entry(Key(k, sequence, Deletion), [])
  }

  function Stamp(ops: seq<Op>, first: nat): (b: Batch)
    requires first + |ops| <= MAX_SEQUENCE
    ensures IsStamped(b, first) && |b| == |ops|
  {
    seq(|ops|, i requires 0 <= i < |ops| => EntryOf(ops[i], first + i))
  }

  predicate IsStamped(b: Batch, first: nat) {
    forall i :: 0 <= i < |b| ==> b[i].key.sequence == first + i
  }

  ghost function OpOf(r: WriteBatches.Record): Op {
    match r
    case Put(k, v) => Put(Comparators.Rank(k), v)
    case Delete(k) => Delete(Comparators.Rank(k))
  }

  ghost function OpsOf(records: seq<WriteBatches.Record>): (ops: seq<Op>)
    ensures |ops| == |records|
  {
    seq(|records|, i requires 0 <= i < |records| => OpOf(records[i]))
  }

  /** What a log record is replayed as: the operations of its batch, stamped from its sequence number on. */
  ghost predicate Replays(record: Bytes, b: Batch) {
    && |record| >= WriteBatches.HEADER && WriteBatches.Iterated(record).ok
    && var first, records := Coding.DecodeFixed64(record[..8]), WriteBatches.Iterated(record).records;
    && first + |records| <= MAX_SEQUENCE && b == Stamp(OpsOf(records), first)
  }

  ghost predicate ReplayedAs(records: seq<Bytes>, log: seq<Batch>) {
    |records| == |log| && forall i :: 0 <= i < |log| ==> Replays(records[i], log[i])
  }

  ghost predicate InLog(log: seq<Batch>, e: Entry) {
    exists b :: b in log && e in b
  }

  ghost function LogContents(log: seq<Batch>): iset<Entry> {
    iset e | InLog(log, e)
  }

  /** A compaction under way: its inputs, the version it was picked from and its snapshot bound. */
  datatype Job = Job(level: nat, in0: seq<File>, in1: seq<File>, base: Version, snapshot: nat) {
    function All(): seq<File> {
      in0 + in1
    }
  }

  datatype DB = DB(
    memFile: seq<Bytes>,          // the records appended to the current log file
    mem: seq<Batch>,              // those applied to the memtable, as groups of writes
    immFile: seq<Bytes>,          // the previous log file, until its memtable is flushed
    imm: Option<seq<Batch>>,      // that memtable, while it waits to be flushed
    inflight: Option<Batch>,      // appended to the current log, not yet applied or acknowledged
    version: Version,
    lastSequence: nat,
    nextFile: nat,
    snapshots: seq<nat>,          // oldest first
    job: Option<Job>,
    manifestSequence: nat,        // LastSequence and NextFileNumber in the last MANIFEST record
    manifestNextFile: nat,
    history: seq<Batch>           // every acknowledged or recovered group, in order
  ) {
    function ImmLog(): seq<Batch> {
      if imm.Some? then imm.value else []
    }

    /** What the current log file holds. */
    function MemLog(): seq<Batch> {
      if inflight.Some? then mem + [inflight.value] else mem
    }

    /** The groups that no log file holds any more. */
    function Flushed(): seq<Batch> {
      var logged := |ImmLog() + mem|;
      if logged <= |history| then history[..|history| - logged] else []
    }

    ghost function Upper(): iset<Entry> {
      LogContents(ImmLog()) + LogContents(mem)
    }

    /** Everything a read can find. */
    ghost function Stored(): iset<Entry> {
      Upper() + Contents(version)
    }

    ghost function Written(): iset<Entry> {
      LogContents(history)
    }
  }

  datatype Step =
    | BeginWrite(records: seq<WriteBatches.Record>)
    | EndWrite
    | FailWrite(records: seq<WriteBatches.Record>)
    | SwitchMemtable
    | TakeSnapshot
    | ReleaseSnapshot(index: nat)
    | Flush(table: Option<File>, target: nat)
    | TrivialMove(moved: Inputs)
    | StartCompaction(inputs: Inputs)
    | FinishCompaction(input: seq<Entry>, outputs: seq<File>)
    | AbandonCompaction
    | Reopen(left: Bytes, tables: seq<File>, immTables: nat)

  ghost predicate Init(db: DB) {
    && db.memFile == [] && db.mem == [] && db.immFile == [] && db.imm == None
    && db.inflight == None && db.history == []
    && db.version == Version(seq(NUM_LEVELS, _ => []))
    && db.lastSequence == 0 && db.manifestSequence == 0
    && db.manifestNextFile <= db.nextFile && db.snapshots == [] && db.job == None
  }

  /** A table holding exactly the entries of these records. */
  ghost predicate TableOf(f: File, log: seq<Batch>) {
    f.Good() && forall e :: e in f.entries <==> InLog(log, e)
  }

  /** Where a flushed table may go: level 0, or below if it overlaps nothing on the way down. */
  ghost predicate FlushTarget(v: Version, f: File, target: nat) {
    && target <= MAX_MEM_COMPACT_LEVEL
    && (target > 0 ==> forall m, g :: 0 <= m <= target && m < |v.levels| && g in v.levels[m] ==> UserApart(f, g))
  }

  /** Consecutive pieces of a log, each written to a table of its own. */
  ghost predicate RecoveredTables(log: seq<Batch>, tables: seq<File>)
    decreases |tables|
  {
    if tables == [] then forall e :: !InLog(log, e)
    else exists n :: 0 < n <= |log| && TableOf(tables[0], log[..n]) && RecoveredTables(log[n..], tables[1..])
  }

  ghost predicate RisingNumbers(tables: seq<File>, low: nat, high: nat) {
    && (forall i :: 0 <= i < |tables| ==> low <= tables[i].number < high)
    && forall i, j :: 0 <= i < j < |tables| ==> tables[i].number < tables[j].number
  }

  /** The largest of the MANIFEST's sequence number and those in the logs. */
  ghost predicate RecoveredSequence(s: nat, manifestSequence: nat, log: seq<Batch>) {
    && manifestSequence <= s && (forall e :: InLog(log, e) ==> e.key.sequence <= s)
    && (s == manifestSequence || exists e :: InLog(log, e) && e.key.sequence == s)
  }

  // ---- the steps ----

  /** The MANIFEST record of every edit carries the counters of the moment. */
  function Logged(db: DB, v: Version, nextFile: nat): DB {
    db.(version := v, nextFile := nextFile, manifestSequence := db.lastSequence, manifestNextFile := nextFile)
  }

  ghost predicate FlushStep(db: DB, table: Option<File>, target: nat, db': DB) {
    && db.imm.Some?
    && match table
       case None =>
         && (forall e :: !InLog(db.imm.value, e))
         && db' == Logged(db, db.version, db.nextFile + 1).(imm := None, immFile := [])
       case Some(f) =>
         && TableOf(f, db.imm.value) && f.number == db.nextFile && FlushTarget(db.version, f, target)
         && Added(db.version, db'.version, target, f)
         && db' == Logged(db, db'.version, db.nextFile + 1).(imm := None, immFile := [])
  }

  ghost predicate TrivialMoveStep(db: DB, c: Inputs, db': DB) {
    && db.job.None? && Picked(db.version, c.level, c.in0, c.in1) && IsTrivialMove(c)
    && Moved(db.version, db'.version, c.level, c.in0, [], c.in0)
    && db' == Logged(db, db'.version, db.nextFile)
  }

  function SmallestSnapshot(db: DB): nat {
    if db.snapshots == [] then db.lastSequence else db.snapshots[0]
  }

  ghost predicate StartStep(db: DB, c: Inputs, db': DB) {
    && db.job.None? && Picked(db.version, c.level, c.in0, c.in1)
    && db' == db.(job := Some(Job(c.level, c.in0, c.in1, db.version, SmallestSnapshot(db))))
  }

  /** New table numbers come from the same counter as everything else's. */
  ghost predicate FreshNumbers(v: Version, outputs: seq<File>, nextFile: nat) {
    && (forall o :: o in outputs ==> o.number < nextFile)
    && (forall o, p :: o in outputs && p in outputs && o.number == p.number ==> o == p)
    && forall m, f, o :: 0 <= m < |v.levels| && f in v.levels[m] && o in outputs ==> f.number != o.number
  }

  ghost predicate FinishStep(db: DB, input: seq<Entry>, outputs: seq<File>, db': DB) {
    && db.job.Some?
    && var job := db.job.value;
    && IsMerge(input, job.All()) && Flatten(outputs) == Survivors(input, |input|, job.snapshot, job.base, job.level)
    && GoodFiles(outputs) && Disjoint(outputs)
    && db.nextFile <= db'.nextFile && FreshNumbers(db.version, outputs, db'.nextFile)
    && Moved(db.version, db'.version, job.level, job.in0, job.in1, outputs)
    && db' == Logged(db, db'.version, db'.nextFile).(job := None)
  }

  /** A crash cuts the current log file at any byte, but leaves what was acknowledged. */
  ghost predicate CrashLeaves(db: DB, left: Bytes) {
    && |db.mem| <= |db.memFile| && left <= LogFormat.File(0, db.memFile)
    && |LogFormat.File(0, db.memFile[..|db.mem|])| <= |left|
  }

  /** The version of the MANIFEST, plus the groups replayed from the two logs in level-0 tables. */
  ghost predicate Restored(db: DB, immLog: seq<Batch>, log: seq<Batch>, tables: seq<File>, immTables: nat, db': DB) {
    && immTables <= |tables|
    && RecoveredTables(immLog, tables[..immTables])
    && RecoveredTables(log, tables[immTables..])
    && RisingNumbers(tables, db.manifestNextFile, db'.nextFile)
    && |db'.version.levels| == |db.version.levels| == NUM_LEVELS
    && Replaced(db.version.levels[0], db'.version.levels[0], [], tables)
    && (forall m :: 1 <= m < NUM_LEVELS ==> db'.version.levels[m] == db.version.levels[m])
    && RecoveredSequence(db'.lastSequence, db.manifestSequence, immLog + log)
    && db.manifestNextFile <= db'.nextFile
    && db' == DB([], [], [], None, None, db'.version, db'.lastSequence, db'.nextFile, [], None,
                 db'.lastSequence, db'.nextFile, db.Flushed() + (immLog + log))
  }

  /** What a reader of a log file makes of its bytes. */
  ghost predicate ReplayedFrom(file: Bytes, log: seq<Batch>) {
    ReplayedAs(LogFormat.ReadAll(file, 0).records, log)
  }

  ghost predicate RestoredFrom(db: DB, immLog: seq<Batch>, left: Bytes, log: seq<Batch>, tables: seq<File>, immTables: nat, db': DB) {
    && ReplayedFrom(LogFormat.File(0, db.immFile), immLog) && ReplayedFrom(left, log)
    && Restored(db, immLog, log, tables, immTables, db')
  }

  /** A crash and a reopen: `left` is what is left of the current log file; the previous one is whole. */
  ghost predicate ReopenStep(db: DB, left: Bytes, tables: seq<File>, immTables: nat, db': DB) {
    CrashLeaves(db, left) && exists immLog, log :: RestoredFrom(db, immLog, left, log, tables, immTables, db')
  }

  ghost predicate Next(db: DB, step: Step, db': DB) {
    match step
    case BeginWrite(records) =>
      && db.inflight.None? && db.lastSequence + |records| + 1 < MAX_SEQUENCE
      && (forall r :: r in records ==> WriteBatches.Small(r))
      && db' == db.(memFile := db.memFile + [WriteBatches.Encoded(db.lastSequence + 1, records)],
                    inflight := Some(Stamp(OpsOf(records), db.lastSequence + 1)))
    case EndWrite =>
      && db.inflight.Some?
      && db' == db.(mem := db.mem + [db.inflight.value], inflight := None,
                    lastSequence := db.lastSequence + |db.inflight.value|,
                    history := db.history + [db.inflight.value])
    case FailWrite(records) => // the append fails and leaves nothing, but the sequence numbers are used up
      && db.inflight.None? && db.lastSequence + |records| + 1 < MAX_SEQUENCE
      && db' == db.(lastSequence := db.lastSequence + |records|)
    case SwitchMemtable =>
      && db.inflight.None? && db.imm.None?
      && db' == db.(memFile := [], mem := [], immFile := db.memFile, imm := Some(db.mem), nextFile := db.nextFile + 1)
    case TakeSnapshot =>
      db' == db.(snapshots := db.snapshots + [db.lastSequence])
    case ReleaseSnapshot(i) =>
      i < |db.snapshots| && db' == db.(snapshots := db.snapshots[..i] + db.snapshots[i + 1..])
    case Flush(table, target) => FlushStep(db, table, target, db')
    case TrivialMove(c) => TrivialMoveStep(db, c, db')
    case StartCompaction(c) => StartStep(db, c, db')
    case FinishCompaction(input, outputs) => FinishStep(db, input, outputs, db')
    case AbandonCompaction => db' == db.(job := None)
    case Reopen(left, tables, immTables) => ReopenStep(db, left, tables, immTables, db')
  }

  // ---- choosing the level of a flush ----

  lemma NoOverlapIsApart(files: seq<File>, f: File)
    requires GoodFiles(files) && f.Good()
    requires !exists g :: g in files && g.Touches(Some(f.smallest.user), Some(f.largest.user))
    ensures forall g :: g in files ==> UserApart(f, g)
  {
    forall g | g in files ensures UserApart(f, g) {
      assert !g.Touches(Some(f.smallest.user), Some(f.largest.user));
    }
  }

  ghost predicate OverlapsLevel(v: Version, level: nat, f: File) {
    level < |v.levels| && exists g :: g in v.levels[level] && !UserApart(f, g)
  }

  /** The table may sink below `level`: nothing to overlap there, and not too much one level further. */
  ghost predicate MaySink(v: Version, level: nat, f: File) {
    && !OverlapsLevel(v, level + 1, f)
    && (level + 2 < |v.levels| ==>
          TotalFileSize(Touching(v.levels[level + 2], Some(f.smallest.user), Some(f.largest.user))) <= MAX_GRANDPARENT_OVERLAP_BYTES)
  }

  method Overlaps(v: Version, level: nat, f: File) returns (overlap: bool)
    requires GoodVersion(v) && f.Good() && level < NUM_LEVELS
    ensures overlap <==> OverlapsLevel(v, level, f)
  {
    assert GoodFiles(v.levels[level]);
    overlap := SomeFileOverlapsRange(level > 0, v.levels[level], Some(f.smallest.user), Some(f.largest.user));
    if overlap {
      var g :| g in v.levels[level] && g.Touches(Some(f.smallest.user), Some(f.largest.user));
      assert !UserApart(f, g);
    } else {
      NoOverlapIsApart(v.levels[level], f);
    }
  }

  lemma SunkIsTarget(v: Version, f: File, level: nat)
    requires level <= MAX_MEM_COMPACT_LEVEL && forall m: nat :: m <= level ==> !OverlapsLevel(v, m, f)
    ensures FlushTarget(v, f, level)
  {
    forall m, g | 0 <= m <= level && m < |v.levels| && g in v.levels[m] ensures UserApart(f, g) {
      assert !OverlapsLevel(v, m, f);
    }
  }

  /** A new table that overlaps nothing in level 0 sinks as far as it may, at most to MAX_MEM_COMPACT_LEVEL. */
  ghost predicate SinksTo(v: Version, f: File, level: nat) {
    if OverlapsLevel(v, 0, f) then level == 0
    else
      && level <= MAX_MEM_COMPACT_LEVEL && (forall m: nat :: m < level ==> MaySink(v, m, f))
      && (level < MAX_MEM_COMPACT_LEVEL ==> !MaySink(v, level, f))
  }

  method PickLevelForMemTableOutput(v: Version, f: File) returns (level: nat)
    requires GoodVersion(v) && f.Good()
    ensures FlushTarget(v, f, level) && SinksTo(v, f, level)
  {
    level := 0;
    var overlap := Overlaps(v, 0, f);
    if !overlap {
      while level < MAX_MEM_COMPACT_LEVEL
        invariant level <= MAX_MEM_COMPACT_LEVEL
        invariant forall m: nat :: m <= level ==> !OverlapsLevel(v, m, f)
        invariant forall m: nat :: m < level ==> MaySink(v, m, f)
      {
        SunkIsTarget(v, f, level);
        overlap := Overlaps(v, level + 1, f);
        if overlap {
          return;
        }
        if level + 2 < NUM_LEVELS {
          assert GoodFiles(v.levels[level + 2]);
          var start, limit := SeekKey(f.smallest.user, MAX_SEQUENCE), Key(f.largest.user, 0, Deletion);
          var overlaps, _, _ := GetOverlappingInputs(v.levels[level + 2], level + 2, Some(start), Some(limit));
          if TotalFileSize(overlaps) > MAX_GRANDPARENT_OVERLAP_BYTES {
            return;
          }
        }
        level := level + 1;
      }
      SunkIsTarget(v, f, level);
    }
  }
}
