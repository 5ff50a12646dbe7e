/** Background work and recovery are never stuck (db/db_impl.cc). */
module Progress {
  import opened Wrappers
  import opened ByteStrings
  import opened InternalKeys
  import opened Versions
  import opened CompactionWork
  import opened Edits
  import opened CompactionReads
  import opened Database
  import opened Invariant
  import opened Recovery
  import opened LevelOrder
  import LogFormat

  // ---- tables for some entries ----

  lemma {:induction false} InsertEntry(rest: seq<Entry>, e: Entry) returns (s: seq<Entry>)
    requires Sorted(rest) && forall f :: f in rest ==> f.key != e.key
    ensures Sorted(s) && forall f :: f in s <==> f in rest || f == e
    decreases |rest|
  {
    if rest == [] {
      s := [e];
    } else {
      assert rest == [rest[0]] + rest[1..];
      LessIsStrictTotalOrder(e.key, rest[0].key, e.key);
      if Less(e.key, rest[0].key) {
        s := [e] + rest;
        forall f | f in rest ensures Less(e.key, f.key) {
          LessIsStrictTotalOrder(e.key, rest[0].key, f.key);
        }
      } else {
        var more := InsertEntry(rest[1..], e);
        s := [rest[0]] + more;
        forall f | f in more ensures Less(rest[0].key, f.key) {
        }
      }
    }
  }

  lemma {:induction false} SortedExists(es: set<Entry>) returns (s: seq<Entry>)
    requires forall e, f :: e in es && f in es && e.key.sequence == f.key.sequence ==> e == f
    ensures Sorted(s) && forall e :: e in s <==> e in es
    decreases |es|
  {
    if es == {} {
      s := [];
    } else {
      var e :| e in es;
      var rest := SortedExists(es - {e});
      s := InsertEntry(rest, e);
    }
  }

  ghost function LogSet(log: seq<Batch>): (es: set<Entry>)
    ensures forall e :: e in es <==> InLog(log, e)
  {
    set b, e | b in log && e in b :: e
  }

  /** The entries of a log, as a table. */
  lemma TableExists(log: seq<Batch>, number: nat) returns (f: File)
    requires DistinctSequences(LogContents(log)) && exists e :: InLog(log, e)
    ensures TableOf(f, log) && f.number == number
  {
    var s := SortedExists(LogSet(log));
    var e :| InLog(log, e);
    assert e in s;
    f := File(number, 0, s[0].key, s[|s| - 1].key, s);
  }

  lemma AddedExists(v: Version, f: File) returns (v': Version)
    requires |v.levels| > 0 && DistinctFiles(v) && forall m, g :: 0 <= m < |v.levels| && g in v.levels[m] ==> g.number != f.number
    ensures Added(v, v', 0, f)
  {
    var level := ReplacementExists(v.levels[0], [], [f]);
    v' := Version(v.levels[0 := level]);
  }

  lemma KnownFromInv(db: DB)
    requires Inv(db)
    ensures |db.version.levels| == NUM_LEVELS && Numbered(db) && DistinctSequences(Contents(db.version))
    ensures DistinctSequences(LogContents(db.ImmLog() + db.mem)) && DistinctSequences(LogContents(db.ImmLog()))
    ensures db.job.Some? ==> InputsIn(db.version, db.job.value.level, db.job.value.in0, db.job.value.in1)
  {
    LogConcat(db.Flushed(), db.ImmLog() + db.mem);
    LogConcat(db.ImmLog(), db.mem);
    hide LevelsOrdered, Layered, Numbered, Snapshots, ReadsRight, InputsIn, StaysNewer, RestClear, DeeperKnown, ReplayedAs;
  }

  /** A number from the counter is new. */
  lemma NextIsNew(db: DB, number: nat)
    requires Numbered(db) && db.manifestNextFile <= number
    ensures DistinctFiles(db.version)
    ensures forall m, g :: 0 <= m < |db.version.levels| && g in db.version.levels[m] ==> g.number != number
  {
  }

  lemma FlushTable(db: DB, f: File, v': Version)
    requires db.imm.Some? && TableOf(f, db.imm.value) && f.number == db.nextFile && Added(db.version, v', 0, f)
    ensures FlushStep(db, Some(f), 0, Logged(db, v', db.nextFile + 1).(imm := None, immFile := []))
  {
    hide TableOf, Added;
  }

  lemma FlushNothing(db: DB)
    requires db.imm.Some? && forall e :: !InLog(db.imm.value, e)
    ensures FlushStep(db, None, 0, Logged(db, db.version, db.nextFile + 1).(imm := None, immFile := []))
  {
  }

  lemma WaitingTable(db: DB) returns (f: File)
    requires Inv(db) && db.imm.Some? && exists e :: InLog(db.imm.value, e)
    ensures TableOf(f, db.imm.value) && f.number == db.nextFile
  {
    KnownFromInv(db);
    hide Inv;
    f := TableExists(db.imm.value, db.nextFile);
    hide TableOf;
  }

  lemma VersionWith(db: DB, f: File) returns (v': Version)
    requires Inv(db) && f.number == db.nextFile
    ensures Added(db.version, v', 0, f)
  {
    KnownFromInv(db);
    NextIsNew(db, db.nextFile);
    hide Inv;
    v' := AddedExists(db.version, f);
    hide Added;
  }

  /** A memtable that waits can be flushed. */
  lemma FlushIsPossible(db: DB) returns (table: Option<File>, db': DB)
    requires Inv(db) && db.imm.Some?
    ensures Next(db, Flush(table, 0), db')
  {
    hide Inv, FlushStep, TableOf, Added;
    if exists e :: InLog(db.imm.value, e) {
      var f := WaitingTable(db);
      var v' := VersionWith(db, f);
      table, db' := Some(f), Logged(db, v', db.nextFile + 1).(imm := None, immFile := []);
      FlushTable(db, f, v');
    } else {
      table, db' := None, Logged(db, db.version, db.nextFile + 1).(imm := None, immFile := []);
      FlushNothing(db);
    }
  }

  // ---- compactions ----

  lemma MergeExists(v: Version, l: nat, in0: seq<File>, in1: seq<File>) returns (input: seq<Entry>)
    requires InputsIn(v, l, in0, in1) && DistinctSequences(Contents(v))
    ensures IsMerge(input, in0 + in1)
  {
    var files := in0 + in1;
    var es := set f, e | f in files && e in f.entries :: e;
    forall e | e in es ensures e in Contents(v) {
      var f :| f in files && e in f.entries;
      assert At(v, if f in in0 then l else l + 1, e);
    }
    input := SortedExists(es);
  }

  lemma OutputsExist(input: seq<Entry>, snap: nat, base: Version, l: nat, number: nat) returns (outputs: seq<File>)
    requires Sorted(input)
    ensures Flatten(outputs) == Survivors(input, |input|, snap, base, l) && GoodFiles(outputs) && Disjoint(outputs)
    ensures |outputs| <= 1 && forall o :: o in outputs ==> o.number == number
  {
    if Survivors(input, |input|, snap, base, l) == [] {
      outputs := [];
    } else {
      var o := SingleOutput(input, snap, base, l, number);
      outputs := [o];
    }
  }

  lemma MovedExists(v: Version, l: nat, c0: seq<File>, c1: seq<File>, come: seq<File>, number: nat) returns (v': Version)
    requires l + 1 < |v.levels| && DistinctFiles(v) && |come| <= 1 && forall o :: o in come ==> o.number == number
    requires forall m, f :: 0 <= m < |v.levels| && f in v.levels[m] ==> f.number != number
    ensures Moved(v, v', l, c0, c1, come)
  {
    var upper := ReplacementExists(v.levels[l], c0, []);
    var lower := ReplacementExists(v.levels[l + 1], c1, come);
    v' := Version(v.levels[l := upper][l + 1 := lower]);
  }

  lemma InputExists(db: DB) returns (input: seq<Entry>)
    requires Inv(db) && db.job.Some?
    ensures IsMerge(input, db.job.value.All())
  {
    KnownFromInv(db);
    hide Inv;
    input := MergeExists(db.version, db.job.value.level, db.job.value.in0, db.job.value.in1);
    hide IsMerge;
  }

  lemma VersionAfter(db: DB, outputs: seq<File>) returns (v': Version)
    requires Inv(db) && db.job.Some? && |outputs| <= 1 && forall o :: o in outputs ==> o.number == db.nextFile
    ensures Moved(db.version, v', db.job.value.level, db.job.value.in0, db.job.value.in1, outputs)
  {
    KnownFromInv(db);
    NextIsNew(db, db.nextFile);
    hide Inv;
    v' := MovedExists(db.version, db.job.value.level, db.job.value.in0, db.job.value.in1, outputs, db.nextFile);
    hide Moved;
  }

  lemma OutputsAreFresh(db: DB, outputs: seq<File>)
    requires Inv(db) && |outputs| <= 1 && forall o :: o in outputs ==> o.number == db.nextFile
    ensures FreshNumbers(db.version, outputs, db.nextFile + 1)
  {
    KnownFromInv(db);
    NextIsNew(db, db.nextFile);
    hide Inv;
  }

  lemma FreshOutputs(db: DB, input: seq<Entry>) returns (outputs: seq<File>)
    requires Inv(db) && db.job.Some? && IsMerge(input, db.job.value.All())
    ensures Flatten(outputs) == Survivors(input, |input|, db.job.value.snapshot, db.job.value.base, db.job.value.level)
    ensures GoodFiles(outputs) && Disjoint(outputs) && FreshNumbers(db.version, outputs, db.nextFile + 1)
    ensures |outputs| <= 1 && forall o :: o in outputs ==> o.number == db.nextFile
  {
    hide Inv, Survivors, GoodFiles, Disjoint, Flatten, FreshNumbers;
    var job := db.job.value;
    outputs := OutputsExist(input, job.snapshot, job.base, job.level, db.nextFile);
    OutputsAreFresh(db, outputs);
  }

  lemma FinishWith(db: DB, input: seq<Entry>, outputs: seq<File>, v': Version)
    requires db.job.Some? && IsMerge(input, db.job.value.All()) && GoodFiles(outputs) && Disjoint(outputs)
    requires Flatten(outputs) == Survivors(input, |input|, db.job.value.snapshot, db.job.value.base, db.job.value.level)
    requires FreshNumbers(db.version, outputs, db.nextFile + 1)
    requires Moved(db.version, v', db.job.value.level, db.job.value.in0, db.job.value.in1, outputs)
    ensures FinishStep(db, input, outputs, Logged(db, v', db.nextFile + 1).(job := None))
  {
    hide IsMerge, GoodFiles, Disjoint, Survivors, Flatten, FreshNumbers, Moved;
  }

  /** A compaction under way can be finished. */
  lemma FinishIsPossible(db: DB) returns (input: seq<Entry>, outputs: seq<File>, db': DB)
    requires Inv(db) && db.job.Some?
    ensures Next(db, FinishCompaction(input, outputs), db')
  {
    hide Inv, IsMerge, Survivors, GoodFiles, Disjoint, Flatten, Moved, FreshNumbers, FinishStep;
    input := InputExists(db);
    outputs := FreshOutputs(db, input);
    var v' := VersionAfter(db, outputs);
    FinishWith(db, input, outputs, v');
    db' := Logged(db, v', db.nextFile + 1).(job := None);
  }

  // ---- recovery ----

  lemma {:induction false} LargestSequence(es: set<Entry>, m: nat) returns (s: nat)
    ensures m <= s && (forall e :: e in es ==> e.key.sequence <= s) && (s == m || exists e :: e in es && e.key.sequence == s)
    decreases |es|
  {
    if es == {} {
      s := m;
    } else {
      var e :| e in es;
      s := LargestSequence(es - {e}, m);
      if s < e.key.sequence {
        s := e.key.sequence;
      }
    }
  }

  lemma RecoveredExists(log: seq<Batch>, number: nat) returns (tables: seq<File>)
    requires DistinctSequences(LogContents(log))
    ensures RecoveredTables(log, tables) && |tables| <= 1 && forall f :: f in tables ==> f.number == number
  {
    if exists e :: InLog(log, e) {
      var f := TableExists(log, number);
      tables := [f];
      assert log[..|log|] == log && log[|log|..] == [] && tables[1..] == [];
      assert RecoveredTables(log[|log|..], tables[1..]);
    } else {
      tables := [];
    }
  }

  lemma NumbersRise(a: seq<File>, b: seq<File>, first: nat)
    requires |a| <= 1 && |b| <= 1 && (forall f :: f in a ==> f.number == first) && forall f :: f in b ==> f.number == first + 1
    ensures RisingNumbers(a + b, first, first + 2)
    ensures forall f, g :: f in a + b && g in a + b && f.number == g.number ==> f == g
  {
  }

  lemma LevelWith(db: DB, tables: seq<File>) returns (level: seq<File>)
    requires |db.version.levels| == NUM_LEVELS && Numbered(db) && RisingNumbers(tables, db.manifestNextFile, db.manifestNextFile + 2)
    requires forall f, g :: f in tables && g in tables && f.number == g.number ==> f == g
    ensures Replaced(db.version.levels[0], level, [], tables)
  {
    level := ReplacementExists(db.version.levels[0], [], tables);
  }

  lemma RestoredWith(db: DB, immLog: seq<Batch>, log: seq<Batch>, a: seq<File>, b: seq<File>, level: seq<File>, s: nat) returns (db': DB)
    requires |db.version.levels| == NUM_LEVELS && RecoveredTables(immLog, a) && RecoveredTables(log, b)
    requires RisingNumbers(a + b, db.manifestNextFile, db.manifestNextFile + 2)
    requires Replaced(db.version.levels[0], level, [], a + b) && RecoveredSequence(s, db.manifestSequence, immLog + log)
    ensures Restored(db, immLog, log, a + b, |a|, db')
  {
    hide RecoveredTables, Replaced, RisingNumbers, RecoveredSequence;
    assert (a + b)[..|a|] == a && (a + b)[|a|..] == b;
    var first := db.manifestNextFile;
    var v' := Version(db.version.levels[0 := level]);
    db' := DB([], [], [], None, None, v', s, first + 2, [], None, s, first + 2, db.Flushed() + (immLog + log));
  }

  lemma SequenceExists(log: seq<Batch>, m: nat) returns (s: nat)
    ensures RecoveredSequence(s, m, log)
  {
    s := LargestSequence(LogSet(log), m);
  }

  lemma RestoredExists(db: DB, immLog: seq<Batch>, log: seq<Batch>) returns (tables: seq<File>, immTables: nat, db': DB)
    requires |db.version.levels| == NUM_LEVELS && Numbered(db) && DistinctSequences(LogContents(immLog + log))
    ensures Restored(db, immLog, log, tables, immTables, db')
  {
    LogConcat(immLog, log);
    var a := RecoveredExists(immLog, db.manifestNextFile);
    var b := RecoveredExists(log, db.manifestNextFile + 1);
    NumbersRise(a, b, db.manifestNextFile);
    hide RecoveredTables, Replaced, RisingNumbers, RecoveredSequence, Numbered, DistinctSequences, Restored;
    var level := LevelWith(db, a + b);
    var s := SequenceExists(immLog + log, db.manifestSequence);
    db' := RestoredWith(db, immLog, log, a, b, level, s);
    tables, immTables := a + b, |a|;
  }

  /** Wherever the crash cut the log, the database can be opened again. */
  lemma ReopenIsPossible(db: DB, left: Bytes) returns (tables: seq<File>, immTables: nat, db': DB)
    requires Inv(db) && CrashLeaves(db, left)
    ensures Next(db, Reopen(left, tables, immTables), db')
  {
    hide GoodVersion, Numbered, Layered, Sequenced, ReadsRight, JobRight, LogFormat.File, LogFormat.ReadAll, Restored;
    CrashedLogIsReplayed(db, left);
    LogFormat.ReadOfFile(db.immFile);
    var log := if left == LogFormat.File(0, db.memFile) then db.MemLog() else db.mem;
    if db.inflight.Some? {
      var applied := Applied(db);
      KnownFromInv(applied);
    }
    KnownFromInv(db);
    tables, immTables, db' := RestoredExists(db, db.ImmLog(), log);
    assert RestoredFrom(db, db.ImmLog(), left, log, tables, immTables, db');
  }

  lemma Applied(db: DB) returns (applied: DB)
    requires Inv(db) && db.inflight.Some?
    ensures Inv(applied) && applied.ImmLog() == db.ImmLog() && applied.mem == db.MemLog()
  {
    applied := db.(mem := db.mem + [db.inflight.value], inflight := None,
                   lastSequence := db.lastSequence + |db.inflight.value|,
                   history := db.history + [db.inflight.value]);
    hide Inv;
    EndWriteKeepsInv(db, applied);
  }
}
