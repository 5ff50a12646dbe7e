/** Crashes and reopening: no acknowledged write is lost, and only the record being written may appear. */
module Recovery {
  import opened Wrappers
  import opened ByteStrings
  import opened InternalKeys
  import opened Versions
  import opened Edits
  import opened CompactionReads
  import opened Database
  import opened Invariant
  import LogFormat

  /** Tables recovered from an ascending log hold exactly its entries, later tables the later ones. */
  lemma {:induction false} RecoveredInOrder(log: seq<Batch>, tables: seq<File>)
    requires RecoveredTables(log, tables) && Ascending(log)
    ensures GoodFiles(tables) && LevelContents(tables) == LogContents(log)
    ensures forall i, j :: 0 <= i < j < |tables| ==> Older(tables[i], tables[j])
    decreases |tables|
  {
    if tables == [] {
      assert LevelContents(tables) == iset{};
    } else {
      var n :| 0 < n <= |log| && TableOf(tables[0], log[..n]) && RecoveredTables(log[n..], tables[1..]);
      hide LogContents, LevelContents, GoodFiles, TableOf, Ascending, RecoveredTables, Older;
      assert log == log[..n] + log[n..];
      AscendingParts(log[..n], log[n..]);
      RecoveredInOrder(log[n..], tables[1..]);
      MoreTablesContents(tables, log[..n], log[n..]);
      MoreTablesOrder(tables, log[..n], log[n..]);
    }
  }

  lemma MoreTablesOrder(tables: seq<File>, a: seq<Batch>, b: seq<Batch>)
    requires tables != [] && TableOf(tables[0], a) && LevelContents(tables[1..]) == LogContents(b)
    requires Above(LogContents(b), LogContents(a))
    requires forall i, j :: 0 <= i < j < |tables[1..]| ==> Older(tables[1..][i], tables[1..][j])
    ensures forall i, j :: 0 <= i < j < |tables| ==> Older(tables[i], tables[j])
  {
    hide LogContents, LevelContents, TableOf, Older, Above;
    forall i, j | 0 <= i < j < |tables| ensures Older(tables[i], tables[j]) {
      if i == 0 {
        FirstIsOlder(tables[0], tables[1..], a, b, j - 1);
      } else {
        assert tables[i] == tables[1..][i - 1] && tables[j] == tables[1..][j - 1];
      }
    }
  }

  lemma MoreTablesContents(tables: seq<File>, a: seq<Batch>, b: seq<Batch>)
    requires tables != [] && TableOf(tables[0], a) && GoodFiles(tables[1..]) && LevelContents(tables[1..]) == LogContents(b)
    ensures GoodFiles(tables) && LevelContents(tables) == LogContents(a + b)
  {
    LogConcat(a, b);
    assert tables == [tables[0]] + tables[1..];
    forall e ensures Holds(tables, e) <==> InLog(a + b, e) {
      OneMoreTable(tables[0], tables[1..], e);
      assert e in LogContents(a + b) <==> e in LogContents(a) || e in LogContents(b);
      assert e in LevelContents(tables[1..]) <==> e in LogContents(b);
    }
  }

  lemma OneMoreTable(f: File, rest: seq<File>, e: Entry)
    ensures Holds([f] + rest, e) <==> e in f.entries || Holds(rest, e)
  {
    HoldsConcat([f], rest, e);
    assert Holds([f], e) <==> e in f.entries by {
      assert f in [f];
    }
  }

  lemma FirstIsOlder(f: File, rest: seq<File>, a: seq<Batch>, b: seq<Batch>, j: nat)
    requires TableOf(f, a) && LevelContents(rest) == LogContents(b) && Above(LogContents(b), LogContents(a))
    requires j < |rest|
    ensures Older(f, rest[j])
  {
    forall x, y | x in f.entries && y in rest[j].entries ensures x.key.sequence < y.key.sequence {
      assert Holds(rest, y);
      assert y in LogContents(b) && x in LogContents(a);
    }
  }

  /** The same for two logs in a row. */
  lemma RecoveredFromTwoLogs(a: seq<Batch>, b: seq<Batch>, tables: seq<File>, n: nat)
    requires n <= |tables| && RecoveredTables(a, tables[..n]) && RecoveredTables(b, tables[n..]) && Ascending(a + b)
    ensures GoodFiles(tables) && LevelContents(tables) == LogContents(a + b)
    ensures forall i, j :: 0 <= i < j < |tables| ==> Older(tables[i], tables[j])
  {
    AscendingParts(a, b);
    LogConcat(a, b);
    RecoveredInOrder(a, tables[..n]);
    RecoveredInOrder(b, tables[n..]);
    TwoLogsContents(tables, n, a, b);
    forall i, j | 0 <= i < j < |tables| ensures Older(tables[i], tables[j]) {
      if j < n {
        assert tables[i] == tables[..n][i] && tables[j] == tables[..n][j];
      } else if i >= n {
        assert tables[i] == tables[n..][i - n] && tables[j] == tables[n..][j - n];
      } else {
        AcrossLogs(tables[..n], tables[n..], a, b, i, j - n);
      }
    }
  }

  lemma TwoLogsContents(tables: seq<File>, n: nat, a: seq<Batch>, b: seq<Batch>)
    requires n <= |tables| && GoodFiles(tables[..n]) && GoodFiles(tables[n..])
    requires LevelContents(tables[..n]) == LogContents(a) && LevelContents(tables[n..]) == LogContents(b)
    ensures GoodFiles(tables) && LevelContents(tables) == LogContents(a + b)
  {
    LogConcat(a, b);
    assert tables == tables[..n] + tables[n..];
    forall e ensures Holds(tables, e) <==> e in LogContents(a + b) {
      HoldsConcat(tables[..n], tables[n..], e);
      assert e in LevelContents(tables[..n]) <==> e in LogContents(a);
      assert e in LevelContents(tables[n..]) <==> e in LogContents(b);
    }
  }

  lemma AcrossLogs(front: seq<File>, back: seq<File>, a: seq<Batch>, b: seq<Batch>, i: nat, j: nat)
    requires LevelContents(front) == LogContents(a) && LevelContents(back) == LogContents(b)
    requires Above(LogContents(b), LogContents(a)) && i < |front| && j < |back|
    ensures Older(front[i], back[j])
  {
    forall x, y | x in front[i].entries && y in back[j].entries ensures x.key.sequence < y.key.sequence {
      assert Holds(front, x) && Holds(back, y);
      assert x in LogContents(a) && y in LogContents(b);
    }
  }

  /** New level-0 tables that are newer than everything, in rising order, keep the version good. */
  lemma RecoveredLevelZero(before: seq<File>, after: seq<File>, tables: seq<File>, low: nat, high: nat)
    requires Replaced(before, after, [], tables) && RisingNumbers(tables, low, high)
    requires forall f :: f in before ==> f.number < low
    requires DistinctNumbers(before) && LevelZeroOrdered(before)
    requires Above(LevelContents(tables), LevelContents(before))
    requires forall i, j :: 0 <= i < j < |tables| ==> Older(tables[i], tables[j])
    ensures DistinctNumbers(after) && LevelZeroOrdered(after)
  {
    forall f, g | f in after && g in after && f.number < g.number ensures Older(f, g) {
      if g in before {
        assert f in before;
      } else if f in before {
        forall x, y | x in f.entries && y in g.entries ensures x.key.sequence < y.key.sequence {
          assert Holds(before, x) && Holds(tables, y);
          assert x in LevelContents(before) && y in LevelContents(tables);
        }
      } else {
        var i :| 0 <= i < |tables| && tables[i] == f;
        var j :| 0 <= j < |tables| && tables[j] == g;
        assert i < j;
      }
    }
  }

  /** Level 0 gains the recovered tables; nothing else changes. */
  ghost predicate Recovered(before: Version, after: Version, tables: seq<File>) {
    && |after.levels| == |before.levels| == NUM_LEVELS
    && Replaced(before.levels[0], after.levels[0], [], tables)
    && forall m :: 1 <= m < NUM_LEVELS ==> after.levels[m] == before.levels[m]
  }

  lemma RecoveredAt(before: Version, after: Version, tables: seq<File>, m: nat, e: Entry)
    requires Recovered(before, after, tables)
    ensures At(after, m, e) <==> At(before, m, e) || (m == 0 && Holds(tables, e))
  {
    if m == 0 {
      assert forall f :: f in after.levels[0] <==> f in before.levels[0] || f in tables;
    }
  }

  lemma RecoveredContents(before: Version, after: Version, tables: seq<File>)
    requires Recovered(before, after, tables)
    ensures Contents(after) == Contents(before) + LevelContents(tables)
  {
    forall e ensures e in Contents(after) <==> e in Contents(before) || Holds(tables, e) {
      if m: nat :| At(after, m, e) {
        RecoveredAt(before, after, tables, m, e);
      }
      if m: nat :| At(before, m, e) {
        RecoveredAt(before, after, tables, m, e);
      }
      RecoveredAt(before, after, tables, 0, e);
    }
  }

  lemma RecoveredKeepsOrder(before: Version, after: Version, tables: seq<File>)
    requires LevelsOrdered(before) && Recovered(before, after, tables)
    requires Above(LevelContents(tables), Contents(before))
    ensures LevelsOrdered(after)
  {
    forall m: nat, n: nat, x, y | m < n && At(after, m, x) && At(after, n, y) && x.key.user == y.key.user
      ensures y.key.sequence < x.key.sequence
    {
      RecoveredAt(before, after, tables, m, x);
      RecoveredAt(before, after, tables, n, y);
      if !At(before, m, x) {
        assert x in LevelContents(tables) && y in Contents(before);
      }
    }
  }

  lemma ReopenVersion(db: DB, tables: seq<File>, immTables: nat, db': DB)
    requires GoodVersion(db.version) && Numbered(db) && Layered(db) && Restored(db, db.ImmLog(), db.mem, tables, immTables, db')
    ensures GoodVersion(db'.version) && Contents(db'.version) == db.Stored()
  {
    var v, v' := db.version, db'.version;
    RecoveredFromTwoLogs(db.ImmLog(), db.mem, tables, immTables);
    LogConcat(db.ImmLog(), db.mem);
    assert LevelContents(tables) == db.Upper();
    RecoveredKeepsOrder(v, v', tables);
    RecoveredContents(v, v', tables);
    RecoveredLevels(db, v, v', tables, db'.nextFile);
  }

  lemma RecoveredLevels(db: DB, v: Version, v': Version, tables: seq<File>, high: nat)
    requires GoodVersion(v) && Recovered(v, v', tables) && GoodFiles(tables) && RisingNumbers(tables, db.manifestNextFile, high)
    requires v == db.version && Numbered(db) && Above(LevelContents(tables), Contents(v))
    requires forall i, j :: 0 <= i < j < |tables| ==> Older(tables[i], tables[j])
    ensures GoodLevels(v')
  {
    forall e | Holds(v.levels[0], e) ensures e in Contents(v) {
      assert At(v, 0, e);
    }
    RecoveredLevelZero(v.levels[0], v'.levels[0], tables, db.manifestNextFile, high);
    forall m | 0 <= m < NUM_LEVELS ensures GoodFiles(v'.levels[m]) && (m > 0 ==> Disjoint(v'.levels[m])) {
      assert GoodFiles(v.levels[m]) && (m > 0 ==> Disjoint(v.levels[m]));
    }
  }

  lemma RisingDistinct(tables: seq<File>, low: nat, high: nat, f: File, g: File)
    requires RisingNumbers(tables, low, high) && f in tables
    ensures low <= f.number < high
    ensures g in tables && f.number == g.number ==> f == g
  {
    var i :| 0 <= i < |tables| && tables[i] == f;
    if g in tables {
      var j :| 0 <= j < |tables| && tables[j] == g;
    }
  }

  lemma RecoveredNumbers(v: Version, v': Version, tables: seq<File>, low: nat, high: nat)
    requires Recovered(v, v', tables) && RisingNumbers(tables, low, high) && low <= high && DistinctFiles(v)
    requires forall l, f :: 0 <= l < |v.levels| && f in v.levels[l] ==> f.number < low
    ensures DistinctFiles(v') && forall l, f :: 0 <= l < |v'.levels| && f in v'.levels[l] ==> f.number < high
  {
    forall f, g | f in tables ensures low <= f.number < high && (g in tables && f.number == g.number ==> f == g) {
      RisingDistinct(tables, low, high, f, g);
    }
    forall m, f | 0 <= m < NUM_LEVELS && f in v'.levels[m]
      ensures f in v.levels[m] || (m == 0 && f in tables)
    {
    }
  }

  lemma ReopenNumbered(db: DB, tables: seq<File>, immTables: nat, db': DB)
    requires Numbered(db) && Restored(db, db.ImmLog(), db.mem, tables, immTables, db')
    ensures Numbered(db')
  {
    RecoveredNumbers(db.version, db'.version, tables, db.manifestNextFile, db'.nextFile);
  }

  lemma RestoredContents(db: DB, tables: seq<File>, immTables: nat, db': DB)
    requires Logs(db) && Restored(db, db.ImmLog(), db.mem, tables, immTables, db')
    ensures db'.history == db.history && db'.Written() == db.Written()
    ensures db'.Upper() == iset{} && db'.Stored() == Contents(db'.version)
  {
    hide RecoveredTables, RecoveredSequence, Replaced, RisingNumbers, Replays;
    assert LogContents([]) == iset{};
  }

  /** The recovered sequence number is not below any that was acknowledged. */
  lemma ReopenSequenced(db: DB, tables: seq<File>, immTables: nat, db': DB)
    requires Logs(db) && Sequenced(db) && Contents(db'.version) == db.Stored() && Restored(db, db.ImmLog(), db.mem, tables, immTables, db')
    ensures Sequenced(db') && db'.history == db.history
    ensures db'.lastSequence <= db.lastSequence && UpTo(db.Written(), db'.lastSequence)
    ensures db'.Stored() == db.Stored() && db'.Written() == db.Written() && db'.Upper() == iset{}
  {
    hide RecoveredTables, RecoveredSequence, Replaced, RisingNumbers, Logs, DistinctSequences;
    RestoredContents(db, tables, immTables, db');
    RecoveredBounds(db, db'.lastSequence);
  }

  lemma RecoveredBounds(db: DB, s: nat)
    requires Sequenced(db) && RecoveredSequence(s, db.manifestSequence, db.ImmLog() + db.mem)
    ensures s <= db.lastSequence && UpTo(db.Written(), s)
  {
    LogConcat(db.ImmLog(), db.mem);
    assert forall e :: InLog(db.ImmLog() + db.mem, e) <==> e in db.Upper();
    assert db.Upper() <= db.Stored();
  }

  /** Above all entries, every sequence number reads the same. */
  lemma SameAboveAll(es: iset<Entry>, k: UserKey, s: nat, t: nat)
    requires DistinctSequences(es) && UpTo(es, s) && s <= t
    ensures View(es, k, s) == View(es, k, t)
  {
    SameVisibleSameView(es, es, k, s, t);
  }

  lemma ReopenReads(db: DB, db': DB)
    requires ReadsRight(db) && DistinctSequences(db.Written()) && db.Stored() <= db.Written()
    requires db'.Stored() == db.Stored() && db'.Written() == db.Written() && UpTo(db.Written(), db'.lastSequence)
    requires db'.snapshots == [] && db'.lastSequence <= db.lastSequence
    ensures ReadsRight(db')
  {
    hide DistinctSequences, View;
    SubsetIsDistinct(db.Stored(), db.Written());
    forall k, s: nat | Readable(db', s) ensures View(db'.Stored(), k, s) == View(db'.Written(), k, s) {
      var t := if s < db.lastSequence then db.lastSequence else s;
      assert Readable(db, t);
      SameAboveAll(db.Stored(), k, s, t);
      SameAboveAll(db.Written(), k, s, t);
    }
  }

  lemma PlainReopenKeepsInv(db: DB, tables: seq<File>, immTables: nat, db': DB)
    requires Inv(db) && Restored(db, db.ImmLog(), db.mem, tables, immTables, db')
    ensures Inv(db') && UpTo(db.Written(), db'.lastSequence) && db'.history == db.history
  {
    hide Restored, Logs, GoodVersion, Numbered, Sequenced, ReadsRight;
    ReopenVersion(db, tables, immTables, db');
    ReopenNumbered(db, tables, immTables, db');
    ReopenSequenced(db, tables, immTables, db');
    ReopenRest(db, tables, immTables, db');
    WrittenIsDistinct(db);
    ReopenReads(db, db');
  }

  lemma WrittenIsDistinct(db: DB)
    requires Sequenced(db)
    ensures DistinctSequences(db.Written()) && db.Stored() <= db.Written()
  {
  }

  lemma ReopenRest(db: DB, tables: seq<File>, immTables: nat, db': DB)
    requires Restored(db, db.ImmLog(), db.mem, tables, immTables, db')
    ensures Logs(db') && Snapshots(db') && JobRight(db') && Ascending(db'.ImmLog() + db'.mem)
    ensures db'.snapshots == [] && db'.mem == [] && db'.imm == None
  {
    hide RecoveredTables, RecoveredSequence, Replaced, RisingNumbers, Replays;
  }

  /** A crash that leaves the unfinished record in the log is a crash right after that record was applied. */
  lemma KeptRecordWasApplied(db: DB, tables: seq<File>, immTables: nat, db': DB) returns (applied: DB)
    requires db.inflight.Some? && Logs(db) && Restored(db, db.ImmLog(), db.MemLog(), tables, immTables, db')
    ensures Next(db, EndWrite, applied) && Restored(applied, applied.ImmLog(), applied.mem, tables, immTables, db')
    ensures applied.history == db.history + [db.inflight.value]
  {
    hide RecoveredTables, RecoveredSequence, Replaced, RisingNumbers, Replays;
    applied := db.(mem := db.mem + [db.inflight.value], inflight := None,
                   lastSequence := db.lastSequence + |db.inflight.value|,
                   history := db.history + [db.inflight.value]);
    assert applied.Flushed() == db.Flushed();
  }

  // ---- the bytes a crash leaves ----

  /** A prefix with room for the first `k` records has at least those, and all of them only if it is the whole log. */
  lemma {:induction false} WholeRecordsBounds(offset: nat, records: seq<Bytes>, k: nat, size: nat)
    requires offset <= LogFormat.BLOCK_SIZE && k <= |records| && |LogFormat.File(offset, records[..k])| <= size
    ensures k <= LogFormat.WholeRecords(offset, records, size)
    ensures LogFormat.WholeRecords(offset, records, size) == |records| ==> |LogFormat.File(offset, records)| <= size
    decreases |records|
  {
    hide LogFormat.Encoded, LogFormat.EndOffset;
    if records != [] {
      var offset' := LogFormat.EndOffset(offset, records[0]);
      var first := |LogFormat.Encoded(offset, records[0], true)|;
      if k > 0 {
        assert records[..k][0] == records[0] && records[..k][1..] == records[1..][..k - 1];
        WholeRecordsBounds(offset', records[1..], k - 1, size - first);
      } else if first <= size {
        assert records[1..][..0] == [];
        WholeRecordsBounds(offset', records[1..], 0, size - first);
      }
    }
  }

  lemma ReplaysOnce(records: seq<Bytes>, a: seq<Batch>, k: nat, b: seq<Batch>)
    requires ReplayedAs(records, a) && k <= |records| && ReplayedAs(records[..k], b)
    ensures b == a[..k]
  {
    forall i | 0 <= i < k ensures b[i] == a[i] {
      assert Replays(records[..k][i], b[i]) && Replays(records[i], a[i]);
    }
  }

  /** Whatever a crash leaves of the current log file, no corruption is reported and exactly the acknowledged groups
      are replayed from it, and after them the group being written just if its record is there to the last byte. */
  lemma CrashedLogIsReplayed(db: DB, left: Bytes)
    requires Logs(db) && CrashLeaves(db, left)
    ensures var log := if left == LogFormat.File(0, db.memFile) then db.MemLog() else db.mem;
            && LogFormat.ReadAll(left, 0) == LogFormat.LogRead(db.memFile[..|log|], false)
            && ReplayedFrom(left, log) && forall other :: ReplayedFrom(left, other) ==> other == log
  {
    hide LogFormat.File, LogFormat.ReadAll, LogFormat.WholeRecords, Replays;
    var file, whole := LogFormat.File(0, db.memFile), LogFormat.WholeRecords(0, db.memFile, |left|);
    LogFormat.ReadOfPrefix(0, db.memFile, left);
    WholeRecordsBounds(0, db.memFile, |db.mem|, |left|);
    if left == file {
      LogFormat.WholeFile(0, db.memFile, |left|);
    }
    var log := if left == file then db.MemLog() else db.mem;
    assert |file| <= |left| ==> left == file;
    assert whole == |log| && log == db.MemLog()[..whole];
    forall other | ReplayedFrom(left, other) ensures other == log {
      ReplaysOnce(db.memFile, db.MemLog(), whole, other);
    }
    assert ReplayedAs(db.memFile[..whole], log);
  }

  /** The previous log file is replayed in full. */
  lemma PreviousLogIsReplayed(db: DB, log: seq<Batch>)
    requires Logs(db) && ReplayedFrom(LogFormat.File(0, db.immFile), log)
    ensures LogFormat.ReadAll(LogFormat.File(0, db.immFile), 0) == LogFormat.LogRead(db.immFile, false)
    ensures log == db.ImmLog()
  {
    hide Replays;
    LogFormat.ReadOfFile(db.immFile);
    assert db.immFile[..|db.immFile|] == db.immFile;
    ReplaysOnce(db.immFile, db.ImmLog(), |db.immFile|, log);
  }

  /** A crash at the level of bytes is one at the level of groups. */
  lemma ReopenIsRestore(db: DB, left: Bytes, tables: seq<File>, immTables: nat, db': DB)
    requires Logs(db) && ReopenStep(db, left, tables, immTables, db')
    ensures var log := if left == LogFormat.File(0, db.memFile) then db.MemLog() else db.mem;
            Restored(db, db.ImmLog(), log, tables, immTables, db')
  {
    hide LogFormat.File, LogFormat.ReadAll, Replays, Restored;
    var immLog, log :| RestoredFrom(db, immLog, left, log, tables, immTables, db');
    PreviousLogIsReplayed(db, immLog);
    CrashedLogIsReplayed(db, left);
  }

  lemma ReopenKeepsInv(db: DB, left: Bytes, tables: seq<File>, immTables: nat, db': DB)
    requires Inv(db) && ReopenStep(db, left, tables, immTables, db')
    ensures Inv(db')
    ensures UpTo(db'.Written(), db'.lastSequence)
    ensures db'.history == if db.inflight.Some? && left == LogFormat.File(0, db.memFile) then db.history + [db.inflight.value]
                           else db.history
  {
    hide ReopenStep, Restored, LogFormat.File;
    ReopenIsRestore(db, left, tables, immTables, db');
    if db.inflight.Some? && left == LogFormat.File(0, db.memFile) {
      var applied := KeptRecordWasApplied(db, tables, immTables, db');
      EndWriteKeepsInv(db, applied);
      PlainReopenKeepsInv(applied, tables, immTables, db');
    } else {
      PlainReopenKeepsInv(db, tables, immTables, db');
    }
  }

  /** After a crash that cuts the log at any byte and a reopen, reads return every acknowledged group and at most the
      one being written, which is there if and only if all of its record is; and no later write gets a sequence number
      that one of them has. */
  lemma ReopenIsDurable(db: DB, left: Bytes, tables: seq<File>, immTables: nat, db': DB, k: UserKey)
    requires Inv(db) && Next(db, Reopen(left, tables, immTables), db')
    ensures !LogFormat.ReadAll(left, 0).reported && !LogFormat.ReadAll(LogFormat.File(0, db.immFile), 0).reported
    ensures var recovered := if db.inflight.Some? && left == LogFormat.File(0, db.memFile) then db.history + [db.inflight.value]
                             else db.history;
            && db'.history == recovered
            && View(db'.Stored(), k, db'.lastSequence) == View(LogContents(recovered), k, db'.lastSequence)
            && forall e :: InLog(recovered, e) ==> e.key.sequence <= db'.lastSequence
  {
    hide LogFormat.File, LogFormat.ReadAll, Restored, GoodVersion, Numbered, Layered, Sequenced, JobRight;
    ReopenKeepsInv(db, left, tables, immTables, db');
    CrashedLogIsReplayed(db, left);
    LogFormat.ReadOfFile(db.immFile);
    assert Readable(db', db'.lastSequence);
  }
}
