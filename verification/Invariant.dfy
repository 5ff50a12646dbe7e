/** What every step of the database keeps, and so what holds over every run. */
module Invariant {
  import opened Wrappers
  import opened ByteStrings
  import opened InternalKeys
  import opened Versions
  import opened Picking
  import opened CompactionWork
  import opened Edits
  import opened CompactionReads
  import opened Boundaries
  import opened Database
  import Coding
  import WriteBatches

  /** All entries of `a` are newer than all entries of `b`, whatever their keys. */
  ghost predicate Above(a: iset<Entry>, b: iset<Entry>) {
    forall x, y :: x in a && y in b ==> y.key.sequence < x.key.sequence
  }

  ghost predicate UpTo(es: iset<Entry>, s: nat) {
    forall e :: e in es ==> e.key.sequence <= s
  }

  /** A number names one table, in one level. */
  ghost predicate DistinctFiles(v: Version) {
    forall l, m, f, g | 0 <= l < |v.levels| && 0 <= m < |v.levels| && f in v.levels[l] && g in v.levels[m] ::
      f.number == g.number ==> l == m && f == g
  }

  ghost predicate Numbered(db: DB) {
    && db.manifestNextFile <= db.nextFile
    && (forall l, f :: 0 <= l < |db.version.levels| && f in db.version.levels[l] ==> f.number < db.manifestNextFile)
    && DistinctFiles(db.version)
  }

  ghost predicate RecordAbove(b: Batch, a: Batch) {
    forall x, y :: x in b && y in a ==> y.key.sequence < x.key.sequence
  }

  /** Later records of a log are newer. */
  ghost predicate Ascending(log: seq<Batch>) {
    forall i, j :: 0 <= i < j < |log| ==> RecordAbove(log[j], log[i])
  }

  lemma AscendingParts(a: seq<Batch>, b: seq<Batch>)
    requires Ascending(a + b)
    ensures Ascending(a) && Ascending(b) && Above(LogContents(b), LogContents(a))
  {
    var log := a + b;
    assert forall i :: 0 <= i < |a| ==> log[i] == a[i];
    assert forall i :: 0 <= i < |b| ==> log[|a| + i] == b[i];
    forall x, y | InLog(b, x) && InLog(a, y) ensures y.key.sequence < x.key.sequence {
      var j :| 0 <= j < |b| && x in b[j];
      var i :| 0 <= i < |a| && y in a[i];
      assert RecordAbove(log[|a| + j], log[i]);
    }
  }

  lemma AscendingAppend(log: seq<Batch>, b: Batch)
    requires Ascending(log) && Above((iset e | e in b), LogContents(log))
    ensures Ascending(log + [b])
  {
    forall i | 0 <= i < |log| ensures RecordAbove(b, log[i]) {
      forall x, y | x in b && y in log[i] ensures y.key.sequence < x.key.sequence {
        assert log[i] in log && InLog(log, y);
      }
    }
  }

  lemma LogConcat(a: seq<Batch>, b: seq<Batch>)
    ensures LogContents(a + b) == LogContents(a) + LogContents(b)
  {
    forall e ensures InLog(a + b, e) <==> InLog(a, e) || InLog(b, e) {
      if InLog(a, e) {
        var c :| c in a && e in c;
        assert c in a + b;
      }
      if InLog(b, e) {
        var c :| c in b && e in c;
        assert c in a + b;
      }
    }
  }

  ghost predicate Layered(db: DB) {
    Above(db.Upper(), Contents(db.version)) && Ascending(db.ImmLog() + db.mem)
  }

  ghost predicate Sequenced(db: DB) {
    && DistinctSequences(db.Written()) && db.Stored() <= db.Written()
    && UpTo(db.Written(), db.lastSequence) && db.lastSequence < MAX_SEQUENCE
    && UpTo(Contents(db.version), db.manifestSequence) && db.manifestSequence <= db.lastSequence
    && (forall e :: e in db.Written() ==> e.key.sequence <= db.manifestSequence || e in db.Upper())
    && (db.inflight.Some? ==> IsStamped(db.inflight.value, db.lastSequence + 1)
                              && db.lastSequence + |db.inflight.value| < MAX_SEQUENCE)
  }

  ghost predicate Snapshots(db: DB) {
    && (forall i, j :: 0 <= i < j < |db.snapshots| ==> db.snapshots[i] <= db.snapshots[j])
    && forall s :: s in db.snapshots ==> s <= db.lastSequence
  }

  /** The sequence numbers readers may use: live snapshots, and the present or later. */
  predicate Readable(db: DB, s: nat) {
    s in db.snapshots || db.lastSequence <= s
  }

  /** Reads return what was written: the newest acknowledged write at or below the sequence number. */
  ghost predicate ReadsRight(db: DB) {
    forall k, s: nat :: Readable(db, s) ==> View(db.Stored(), k, s) == View(db.Written(), k, s)
  }

  ghost predicate JobRight(db: DB) {
    db.job.Some? ==>
      var job := db.job.value;
      && InputsIn(db.version, job.level, job.in0, job.in1)
      && StaysNewer(db.version, job.level, job.in0, job.in1, job.snapshot, job.base)
      && RestClear(db.version, job.level, job.in0, job.in1, job.snapshot, job.base)
      && DeeperKnown(db.version, job.base, job.level, job.All())
      && (forall s :: s in db.snapshots ==> job.snapshot <= s)
      && job.snapshot <= db.lastSequence
  }

  /** The log files hold what they should: the groups that are not in tables yet, the newest of the history, and
      the group in flight. */
  ghost predicate Logs(db: DB) {
    && ReplayedAs(db.immFile, db.ImmLog()) && ReplayedAs(db.memFile, db.MemLog())
    && db.history == db.Flushed() + (db.ImmLog() + db.mem)
  }

  ghost predicate Inv(db: DB) {
    && GoodVersion(db.version) && Numbered(db) && Layered(db) && Sequenced(db)
    && Snapshots(db) && ReadsRight(db) && JobRight(db) && Logs(db)
  }

  // ---- the logs ----

  /** A record is replayed as the group it was written for. */
  lemma WrittenIsReplayed(records: seq<WriteBatches.Record>, first: nat)
    requires first + |records| <= MAX_SEQUENCE && forall r :: r in records ==> WriteBatches.Small(r)
    ensures Replays(WriteBatches.Encoded(first, records), Stamp(OpsOf(records), first))
  {
    hide WriteBatches.Encoded, WriteBatches.Iterated, OpsOf, Stamp;
    WriteBatches.EncodedParts(first, records);
    WriteBatches.EncodedIsIterated(first, records);
    Coding.Fixed64RoundTrip(first);
  }

  lemma LogsExtend(records: seq<Bytes>, log: seq<Batch>, r: Bytes, b: Batch)
    requires ReplayedAs(records, log) && Replays(r, b)
    ensures ReplayedAs(records + [r], log + [b])
  {
    hide Replays;
  }

  lemma BeginWriteLogs(db: DB, records: seq<WriteBatches.Record>, db': DB)
    requires Logs(db) && Next(db, BeginWrite(records), db')
    ensures Logs(db')
  {
    hide Replays, ReplayedAs, WriteBatches.Encoded, OpsOf, Stamp;
    WrittenIsReplayed(records, db.lastSequence + 1);
    hide WriteBatches.Small;
    assert db'.MemLog() == db.MemLog() + [db'.inflight.value];
    LogsExtend(db.memFile, db.MemLog(), WriteBatches.Encoded(db.lastSequence + 1, records), db'.inflight.value);
    assert db'.Flushed() == db.Flushed();
  }

  lemma EndWriteLogs(db: DB, db': DB)
    requires Logs(db) && Next(db, EndWrite, db')
    ensures Logs(db')
  {
    hide Replays;
    var b := db.inflight.value;
    assert db'.MemLog() == db.MemLog();
    assert db'.history == db.Flushed() + (db'.ImmLog() + db'.mem);
  }

  lemma SwitchLogs(db: DB, db': DB)
    requires Logs(db) && Next(db, SwitchMemtable, db')
    ensures Logs(db')
  {
    hide Replays;
    assert db'.ImmLog() + db'.mem == db.ImmLog() + db.mem;
  }

  /** Once the older of two logs is flushed, the newer one is what is left of the history. */
  lemma FlushedGrows(history: seq<Batch>, flushed: seq<Batch>, imm: seq<Batch>, mem: seq<Batch>)
    requires history == flushed + (imm + mem)
    ensures |mem| <= |history| && history[..|history| - |mem|] == flushed + imm
    ensures history == history[..|history| - |mem|] + ([] + mem)
  {
    assert history == (flushed + imm) + mem && [] + mem == mem;
  }

  lemma FlushLogs(db: DB, table: Option<File>, target: nat, db': DB)
    requires Logs(db) && FlushStep(db, table, target, db')
    ensures Logs(db')
  {
    hide Replays, TableOf, FlushTarget, Added;
    FlushedGrows(db.history, db.Flushed(), db.ImmLog(), db.mem);
    assert [] + db.mem == db.mem;
  }

  /** The other steps leave the log files alone. */
  lemma SameLogs(db: DB, db': DB)
    requires Logs(db) && db'.memFile == db.memFile && db'.mem == db.mem && db'.immFile == db.immFile && db'.imm == db.imm
    requires db'.inflight == db.inflight && db'.history == db.history
    ensures Logs(db')
  {
  }

  // ---- writes ----

  lemma LogAppend(log: seq<Batch>, b: Batch)
    ensures LogContents(log + [b]) == LogContents(log) + iset e | e in b
  {
    forall e ensures InLog(log + [b], e) <==> InLog(log, e) || e in b {
      if InLog(log, e) {
        var c :| c in log && e in c;
        assert c in log + [b];
      }
      if e in b {
        assert b in log + [b];
      }
    }
  }

  lemma StampedIsNew(b: Batch, first: nat)
    requires IsStamped(b, first)
    ensures forall e :: e in b ==> first <= e.key.sequence < first + |b|
    ensures forall e, f :: e in b && f in b && e.key.sequence == f.key.sequence ==> e == f
  {
  }

  /** A group of writes becomes visible to later readers and to nobody before. */
  lemma AppendKeepsViews(stored: iset<Entry>, written: iset<Entry>, more: iset<Entry>, last: nat, k: UserKey, s: nat)
    requires DistinctSequences(written + more) && stored <= written
    requires UpTo(written, last) && forall e :: e in more ==> last < e.key.sequence
    requires View(stored, k, s) == View(written, k, s)
    ensures View(stored + more, k, s) == View(written + more, k, s)
  {
    if exists e :: Visible(more, k, s, e) {
      var e :| Visible(more, k, s, e);
      NewestExists(more, k, s, e);
      var n :| Newest(more, k, s, n);
      assert Newest(stored + more, k, s, n) && Newest(written + more, k, s, n) by {
        assert forall f :: Visible(written + more, k, s, f) ==> f in written || Visible(more, k, s, f);
        assert forall f :: Visible(stored + more, k, s, f) ==> Visible(written + more, k, s, f);
      }
      ViewOfNewest(stored + more, k, s, n);
      ViewOfNewest(written + more, k, s, n);
    } else {
      NothingVisibleAdded(stored, more, k, s);
      NothingVisibleAdded(written, more, k, s);
    }
  }

  lemma NothingVisibleAdded(es: iset<Entry>, more: iset<Entry>, k: UserKey, s: nat)
    requires DistinctSequences(es + more) && forall e :: !Visible(more, k, s, e)
    ensures View(es + more, k, s) == View(es, k, s)
  {
    forall d ensures Visible(es + more, k, s, d) ==> d in es {
      assert !Visible(more, k, s, d);
    }
    DroppingRedundantKeepsView(es + more, es, k, s);
  }

  lemma SameReads(db: DB, db': DB)
    requires ReadsRight(db) && db'.Stored() == db.Stored() && db'.Written() == db.Written()
    requires forall s: nat :: Readable(db', s) ==> Readable(db, s)
    ensures ReadsRight(db')
  {
    forall k, s: nat | Readable(db', s) ensures View(db'.Stored(), k, s) == View(db'.Written(), k, s) {
      assert Readable(db, s);
    }
  }

  /** What applying the group in flight does to the sets of entries. */
  lemma EndWriteContents(db: DB, db': DB)
    requires Next(db, EndWrite, db')
    ensures var more := iset e | e in db.inflight.value;
            && LogContents(db'.mem) == LogContents(db.mem) + more
            && db'.Upper() == db.Upper() + more && db'.Stored() == db.Stored() + more
            && db'.Written() == db.Written() + more
  {
    LogAppend(db.mem, db.inflight.value);
    LogAppend(db.history, db.inflight.value);
  }

  lemma EndWriteNewer(db: DB, db': DB)
    requires Sequenced(db) && Next(db, EndWrite, db')
    ensures var more := iset e | e in db.inflight.value;
            && (forall e :: e in more ==> db.lastSequence < e.key.sequence <= db'.lastSequence)
            && (forall e, f :: e in more && f in more && e.key.sequence == f.key.sequence ==> e == f)
  {
    StampedIsNew(db.inflight.value, db.lastSequence + 1);
  }

  lemma EndWriteSequenced(db: DB, db': DB)
    requires Sequenced(db) && Next(db, EndWrite, db')
    ensures Sequenced(db')
    ensures var more := iset e | e in db.inflight.value; forall e :: e in more ==> db.lastSequence < e.key.sequence
  {
    EndWriteContents(db, db');
    EndWriteNewer(db, db');
  }

  lemma EndWriteReads(db: DB, db': DB)
    requires Sequenced(db) && ReadsRight(db) && Next(db, EndWrite, db')
    ensures ReadsRight(db')
  {
    var more := iset e | e in db.inflight.value;
    EndWriteContents(db, db');
    EndWriteSequenced(db, db');
    forall k, s: nat | Readable(db', s) ensures View(db'.Stored(), k, s) == View(db'.Written(), k, s) {
      assert Readable(db, s);
      AppendKeepsViews(db.Stored(), db.Written(), more, db.lastSequence, k, s);
    }
  }

  lemma EndWriteLayered(db: DB, db': DB)
    requires Layered(db) && Sequenced(db) && Next(db, EndWrite, db')
    ensures Layered(db')
  {
    EndWriteContents(db, db');
    EndWriteSequenced(db, db');
    assert db.Upper() <= db.Stored() && Contents(db.version) <= db.Stored();
    var b := db.inflight.value;
    LogConcat(db.ImmLog(), db.mem);
    AscendingAppend(db.ImmLog() + db.mem, b);
    assert db'.ImmLog() + db'.mem == db.ImmLog() + db.mem + [b];
  }

  lemma EndWriteKeepsInv(db: DB, db': DB)
    requires Inv(db) && Next(db, EndWrite, db')
    ensures Inv(db')
  {
    hide Logs, GoodVersion, JobRight, Layered, Sequenced, ReadsRight, Numbered;
    EndWriteSequenced(db, db');
    EndWriteReads(db, db');
    EndWriteLayered(db, db');
    EndWriteLogs(db, db');
    EndWriteRest(db, db');
  }

  lemma EndWriteRest(db: DB, db': DB)
    requires Numbered(db) && Snapshots(db) && JobRight(db) && Next(db, EndWrite, db')
    ensures Numbered(db') && Snapshots(db') && JobRight(db')
  {
  }

  // ---- the small steps ----

  lemma RemovedKeepsOrder(a: seq<nat>, i: nat)
    requires i < |a| && forall j, k :: 0 <= j < k < |a| ==> a[j] <= a[k]
    ensures var b := a[..i] + a[i + 1..];
            (forall j, k :: 0 <= j < k < |b| ==> b[j] <= b[k]) && forall s :: s in b ==> s in a
  {
    var b := a[..i] + a[i + 1..];
    forall j, k | 0 <= j < k < |b| ensures b[j] <= b[k] {
      assert b[j] == (if j < i then a[j] else a[j + 1]) && b[k] == if k < i then a[k] else a[k + 1];
    }
  }

  lemma SnapshotStep(db: DB, step: Step, db': DB)
    requires Snapshots(db) && JobRight(db) && Next(db, step, db')
    requires step.TakeSnapshot? || step.ReleaseSnapshot?
    ensures Snapshots(db') && JobRight(db')
    ensures forall s :: s in db'.snapshots ==> s in db.snapshots || s == db.lastSequence
  {
    hide InputsIn, StaysNewer, RestClear, DeeperKnown;
    if step.ReleaseSnapshot? {
      RemovedKeepsOrder(db.snapshots, step.index);
    } else {
      assert forall j :: 0 <= j < |db.snapshots| ==> db.snapshots[j] in db.snapshots;
    }
  }

  lemma SnapshotStepsKeepInv(db: DB, step: Step, db': DB)
    requires Inv(db) && Next(db, step, db')
    requires step.TakeSnapshot? || step.ReleaseSnapshot?
    ensures Inv(db')
  {
    hide Logs, GoodVersion;
    SameLogs(db, db');
    SnapshotStep(db, step, db');
    assert db'.Upper() == db.Upper();
    SameReads(db, db');
  }

  lemma SwitchKeepsInv(db: DB, db': DB)
    requires Inv(db) && Next(db, SwitchMemtable, db')
    ensures Inv(db')
  {
    hide Logs, GoodVersion, JobRight;
    SwitchLogs(db, db');
    assert LogContents([]) == iset{};
    assert db'.Upper() == db.Upper();
    assert db'.ImmLog() + db'.mem == db.ImmLog() + db.mem;
    SameReads(db, db');
    assert JobRight(db') by {
      SameJob(db, db');
    }
  }

  lemma SameJob(db: DB, db': DB)
    requires JobRight(db) && db'.job == db.job && db'.version == db.version && db'.snapshots == db.snapshots
    requires db.lastSequence <= db'.lastSequence
    ensures JobRight(db')
  {
  }

  lemma BeginWriteKeepsInv(db: DB, records: seq<WriteBatches.Record>, db': DB)
    requires Inv(db) && Next(db, BeginWrite(records), db')
    ensures Inv(db')
  {
    hide Logs, GoodVersion, JobRight, Stamp, OpsOf, WriteBatches.Encoded;
    BeginWriteLogs(db, records, db');
    SameJob(db, db');
    assert db'.Upper() == db.Upper();
    SameReads(db, db');
  }

  lemma FailWriteKeepsInv(db: DB, records: seq<WriteBatches.Record>, db': DB)
    requires Inv(db) && Next(db, FailWrite(records), db')
    ensures Inv(db')
  {
    hide Logs, GoodVersion, JobRight, Layered, ReadsRight;
    SameLogs(db, db');
    SameJob(db, db');
    FailWriteLayered(db, records, db');
    SameReads(db, db');
  }

  lemma FailWriteLayered(db: DB, records: seq<WriteBatches.Record>, db': DB)
    requires Layered(db) && Next(db, FailWrite(records), db')
    ensures Layered(db') && db'.Upper() == db.Upper() && db'.Stored() == db.Stored() && db'.Written() == db.Written()
  {
  }

  lemma AbandonKeepsInv(db: DB, db': DB)
    requires Inv(db) && Next(db, AbandonCompaction, db')
    ensures Inv(db')
  {
    hide Logs, GoodVersion;
    SameLogs(db, db');
    assert db'.Upper() == db.Upper();
    SameReads(db, db');
  }

  // ---- flushes ----

  /** A range that touches none of a gapless set of files lies to one side of all of them. */
  lemma GaplessOutside(f: File, inputs: seq<File>)
    requires f.Good() && GoodFiles(inputs) && Gapless(inputs)
    requires forall g :: g in inputs ==> UserApart(f, g)
    ensures UserOutside(f, inputs)
  {
    FileRange(f);
    assert !Spans(inputs, f.smallest.user);
    if g :| g in inputs && g.largest.user < f.smallest.user {
      forall h | h in inputs ensures h.largest.user < f.smallest.user {
        FileRange(g);
        assert f.smallest.user <= h.largest.user ==> Spans(inputs, f.smallest.user);
      }
    }
  }

  lemma AddedContents(before: Version, after: Version, l: nat, f: File)
    requires Added(before, after, l, f)
    ensures Contents(after) == Contents(before) + Elements(f.entries)
  {
    forall e ensures e in Contents(after) <==> e in Contents(before) || e in f.entries {
      if m: nat :| At(after, m, e) {
        var g :| g in after.levels[m] && e in g.entries;
        assert g == f || At(before, m, e);
      }
      if m: nat :| At(before, m, e) {
        var g :| g in before.levels[m] && e in g.entries;
        assert g in after.levels[m];
        assert At(after, m, e);
      }
      if e in f.entries {
        assert f in after.levels[l];
        assert At(after, l, e);
      }
    }
  }

  /** Flushing moves the immutable memtable's entries and changes no set of entries a read sees. */
  lemma FlushContents(db: DB, table: Option<File>, target: nat, db': DB)
    requires FlushStep(db, table, target, db')
    ensures db'.Upper() == LogContents(db.mem)
    ensures Contents(db'.version) == Contents(db.version) + LogContents(db.imm.value)
    ensures db'.Stored() == db.Stored()
  {
    assert LogContents([]) == iset{};
    match table
    case None =>
      assert LogContents(db.imm.value) == iset{};
    case Some(f) =>
      AddedContents(db.version, db'.version, target, f);
      assert Elements(f.entries) == LogContents(db.imm.value);
  }

  lemma FlushAbove(db: DB, f: File, target: nat, db': DB)
    requires Layered(db) && FlushStep(db, Some(f), target, db')
    ensures Above(Elements(f.entries), Contents(db.version))
  {
    forall e | e in f.entries ensures e in db.Upper() {
      assert InLog(db.imm.value, e);
    }
  }

  lemma FlushGood(db: DB, f: File, target: nat, db': DB)
    requires GoodVersion(db.version) && Numbered(db) && Layered(db) && FlushStep(db, Some(f), target, db')
    ensures GoodVersion(db'.version)
  {
    FlushAbove(db, f, target, db');
    forall m: nat, x, e | At(db.version, m, x) && e in f.entries ensures x.key.sequence < e.key.sequence {
      assert e in Elements(f.entries) && x in Contents(db.version);
    }
    AddedKeepsGood(db.version, db'.version, target, f);
  }

  lemma FlushNumbered(db: DB, f: File, target: nat, db': DB)
    requires Numbered(db) && FlushStep(db, Some(f), target, db') && |db.version.levels| == NUM_LEVELS
    ensures Numbered(db')
  {
    forall l, g | 0 <= l < NUM_LEVELS && g in db'.version.levels[l]
      ensures (g == f && l == target) || g in db.version.levels[l]
    {
    }
  }

  lemma AddedInputs(v: Version, v': Version, target: nat, f: File, l: nat, c0: seq<File>, c1: seq<File>)
    requires InputsIn(v, l, c0, c1) && Added(v, v', target, f)
    ensures InputsIn(v', l, c0, c1)
  {
  }

  lemma AddedClear(v: Version, v': Version, target: nat, f: File, l: nat, c0: seq<File>, c1: seq<File>, snap: nat, base: Version)
    requires RestClear(v, l, c0, c1, snap, base) && Added(v, v', target, f)
    requires target == l + 1 ==> Clear(f, Surviving(c0 + c1, snap, base, l))
    ensures RestClear(v', l, c0, c1, snap, base)
  {
    hide Clear;
  }

  lemma AddedDeeper(v: Version, v': Version, target: nat, f: File, base: Version, l: nat, inputs: seq<File>)
    requires DeeperKnown(v, base, l, inputs) && Added(v, v', target, f)
    requires target >= l + 2 ==> forall g :: g in inputs ==> UserApart(f, g)
    ensures DeeperKnown(v', base, l, inputs)
  {
  }

  lemma FlushApart(v: Version, f: File, target: nat, l: nat, c0: seq<File>, c1: seq<File>)
    requires GoodVersion(v) && InputsIn(v, l, c0, c1) && f.Good() && FlushTarget(v, f, target) && target > l
    ensures GoodFiles(c0 + c1) && forall g :: g in c0 + c1 ==> UserApart(f, g)
  {
    GoodInputs(v, l, c0, c1);
    forall g | g in c0 + c1 ensures UserApart(f, g) {
      assert g in v.levels[l] || g in v.levels[l + 1];
    }
  }

  /** A flush does not go between what survives of a running compaction into the level the outputs go to. Both sides are
      known before the flush. */
  ghost predicate FlushIsClear(f: File, target: nat, job: Job) {
    target == job.level + 1 ==> Clear(f, Surviving(job.All(), job.snapshot, job.base, job.level))
  }

  /** Inputs without a gap, as PickCompaction picks them, leave no place for a flush to go between. */
  lemma GaplessIsClear(v: Version, f: File, target: nat, job: Job)
    requires GoodVersion(v) && InputsIn(v, job.level, job.in0, job.in1) && f.Good() && FlushTarget(v, f, target)
    requires Gapless(job.All())
    ensures FlushIsClear(f, target, job)
    ensures target == job.level + 1 ==> UserClear(f, Surviving(job.All(), job.snapshot, job.base, job.level))
  {
    if target == job.level + 1 {
      FlushApart(v, f, target, job.level, job.in0, job.in1);
      GaplessOutside(f, job.All());
      FileRange(f);
      assert Outside(f, job.All());
      OutsideIsClear(f, job.All(), job.snapshot, job.base, job.level);
    }
  }

  lemma FlushFits(v: Version, v': Version, f: File, target: nat, job: Job)
    requires GoodVersion(v) && f.Good() && Added(v, v', target, f) && FlushTarget(v, f, target)
    requires InputsIn(v, job.level, job.in0, job.in1) && Above(Elements(f.entries), Contents(v))
    requires StaysNewer(v, job.level, job.in0, job.in1, job.snapshot, job.base)
    requires RestClear(v, job.level, job.in0, job.in1, job.snapshot, job.base) && FlushIsClear(f, target, job)
    ensures InputsIn(v', job.level, job.in0, job.in1)
    ensures StaysNewer(v', job.level, job.in0, job.in1, job.snapshot, job.base)
    ensures RestClear(v', job.level, job.in0, job.in1, job.snapshot, job.base)
  {
    hide GoodVersion, FlushTarget, RestClear, Surviving, Clear;
    AddedInputs(v, v', target, f, job.level, job.in0, job.in1);
    FlushedIsNewer(v, v', f, target, job.level, job.in0, job.in1);
    SurvivingAreInputs(job.All(), job.snapshot, job.base, job.level);
    AddedClear(v, v', target, f, job.level, job.in0, job.in1, job.snapshot, job.base);
  }

  lemma FlushDeeper(db: DB, f: File, target: nat, db': DB, job: Job)
    requires GoodVersion(db.version) && FlushStep(db, Some(f), target, db') && db.job == Some(job)
    requires InputsIn(db.version, job.level, job.in0, job.in1)
    requires DeeperKnown(db.version, job.base, job.level, job.All())
    ensures DeeperKnown(db'.version, job.base, job.level, job.All())
  {
    if target > job.level {
      FlushApart(db.version, f, target, job.level, job.in0, job.in1);
    }
    AddedDeeper(db.version, db'.version, target, f, job.base, job.level, job.All());
  }

  lemma FlushJob(db: DB, f: File, target: nat, db': DB)
    requires GoodVersion(db.version) && Layered(db) && JobRight(db) && FlushStep(db, Some(f), target, db')
    requires Guarded(db, Flush(Some(f), target))
    ensures JobRight(db')
  {
    if db.job.Some? {
      FlushAbove(db, f, target, db');
      FlushFits(db.version, db'.version, f, target, db.job.value);
      FlushDeeper(db, f, target, db', db.job.value);
    }
  }

  /** A flush only leaves newer entries beside the inputs of a running compaction. */
  lemma FlushedIsNewer(v: Version, v': Version, f: File, target: nat, l: nat, c0: seq<File>, c1: seq<File>)
    requires InputsIn(v, l, c0, c1) && Added(v, v', target, f) && Above(Elements(f.entries), Contents(v))
    ensures forall x, y :: x in f.entries && Holds(c0 + c1, y) ==> y.key.sequence < x.key.sequence
    ensures forall x :: x in Left(v'.levels[l], c0) ==> x in Left(v.levels[l], c0) || x in f.entries
    ensures forall x :: x in Left(v'.levels[l + 1], c1) ==> x in Left(v.levels[l + 1], c1) || x in f.entries
  {
    forall x, y | x in f.entries && Holds(c0 + c1, y) ensures y.key.sequence < x.key.sequence {
      InputIsAt(v, l, c0, c1, y);
      assert x in Elements(f.entries) && y in Contents(v);
    }
    forall m, c, x | m in {l, l + 1} && x in Left(v'.levels[m], c)
      ensures x in Left(v.levels[m], c) || x in f.entries
    {
      var g :| g in v'.levels[m] && g !in c && x in g.entries;
      assert g == f || g in v.levels[m];
    }
  }

  lemma FlushKeepsFits(v: Version, v': Version, f: File, target: nat, l: nat, c0: seq<File>, c1: seq<File>)
    requires JobFits(v, l, c0, c1) && Added(v, v', target, f) && Above(Elements(f.entries), Contents(v))
    ensures JobFits(v', l, c0, c1)
  {
    AddedInputs(v, v', target, f, l, c0, c1);
    FlushedIsNewer(v, v', f, target, l, c0, c1);
    forall y ensures Holds(c0, y) ==> Holds(c0 + c1, y) {
      HoldsConcat(c0, c1, y);
    }
  }

  lemma FlushSequenced(db: DB, table: Option<File>, target: nat, db': DB)
    requires Sequenced(db) && FlushStep(db, table, target, db')
    ensures Sequenced(db')
  {
    hide DistinctSequences, TableOf, FlushTarget, Added;
    FlushContents(db, table, target, db');
  }

  lemma FlushLayered(db: DB, table: Option<File>, target: nat, db': DB)
    requires Layered(db) && FlushStep(db, table, target, db')
    ensures Layered(db')
  {
    FlushContents(db, table, target, db');
    AscendingParts(db.imm.value, db.mem);
    assert db'.ImmLog() + db'.mem == db.mem;
  }

  lemma FlushKeepsInv(db: DB, table: Option<File>, target: nat, db': DB)
    requires Inv(db) && FlushStep(db, table, target, db') && Guarded(db, Flush(table, target))
    ensures Inv(db')
  {
    assert |db.version.levels| == NUM_LEVELS;
    hide Logs, FlushStep, GoodVersion, Sequenced, Layered, Numbered, Guarded, ReadsRight;
    FlushLogs(db, table, target, db');
    FlushContents(db, table, target, db');
    FlushSequenced(db, table, target, db');
    FlushLayered(db, table, target, db');
    FlushRest(db, table, target, db');
    SameReads(db, db');
    if table.Some? {
      FlushGood(db, table.value, target, db');
      FlushNumbered(db, table.value, target, db');
      FlushJob(db, table.value, target, db');
    }
  }

  lemma FlushRest(db: DB, table: Option<File>, target: nat, db': DB)
    requires Snapshots(db) && FlushStep(db, table, target, db')
    ensures Snapshots(db') && db'.snapshots == db.snapshots && db'.lastSequence == db.lastSequence
    ensures db'.Written() == db.Written()
    ensures table.None? ==> db'.version == db.version && (Numbered(db) ==> Numbered(db')) && (JobRight(db) ==> JobRight(db'))
  {
  }

  // ---- trivial moves and compactions ----

  /** No reader will see an older value because a tombstone is dropped from in front of it. */
  ghost predicate UncoversNothing(db: DB, job: Job) {
    forall s: nat | Readable(db, s) ::
      NothingUncovered(db.Upper(), db.version, job.level, job.in0, job.in1, job.snapshot, job.base, s)
  }

  /** The hypotheses on steps, each of them exact and known before the step. A trivial move leaves no file in its level
      that begins with the user key the moved one ends with; nothing that stays beside the inputs of a compaction is
      older than what will survive of them; a finished compaction drops no tombstone from in front of an older value;
      and a flush does not go between what survives of a running compaction. */
  ghost predicate Guarded(db: DB, step: Step) {
    match step
    case TrivialMove(c) => c.level > 0 && c.level < |db.version.levels| ==> NoBoundarySplit(db.version.levels[c.level], c.in0)
    case StartCompaction(c) => StaysNewer(db.version, c.level, c.in0, c.in1, SmallestSnapshot(db), db.version)
    case FinishCompaction(_, _) =>
      db.job.Some? ==> UncoversNothing(db, db.job.value)
    case Flush(table, target) => table.Some? && db.job.Some? ==> FlushIsClear(table.value, target, db.job.value)
    case _ => true
  }

  lemma StoredIsDistinct(db: DB)
    requires Sequenced(db)
    ensures DistinctSequences(db.Stored()) && DistinctSequences(Contents(db.version))
    ensures UpTo(Contents(db.version), db.lastSequence)
  {
    assert Contents(db.version) <= db.Stored();
  }

  lemma TrivialMoveVersion(db: DB, c: Inputs, db': DB)
    requires GoodVersion(db.version) && Sequenced(db) && Numbered(db)
    requires TrivialMoveStep(db, c, db') && Guarded(db, TrivialMove(c))
    ensures GoodVersion(db'.version) && Contents(db'.version) == Contents(db.version) && Numbered(db')
  {
    var f := c.in0[0];
    assert c.in0 == [f] && c.in1 == [];
    StoredIsDistinct(db);
    TrivialMoveIsGood(db.version, db'.version, c.level, f);
    TrivialMoveNumbered(db, c, db');
  }

  lemma TrivialMoveNumbered(db: DB, c: Inputs, db': DB)
    requires Numbered(db) && TrivialMoveStep(db, c, db')
    ensures Numbered(db')
  {
    assert c.in1 == [];
    MovedNumbered(db.version, db'.version, c.level, c.in0, [], c.in0);
    MovedRange(db.version, db'.version, c.level, c.in0, [], c.in0, db.manifestNextFile);
  }

  lemma MovedRange(v: Version, v': Version, l: nat, c0: seq<File>, c1: seq<File>, come: seq<File>, bound: nat)
    requires Moved(v, v', l, c0, c1, come)
    requires forall m, f :: 0 <= m < |v.levels| && f in v.levels[m] ==> f.number < bound
    requires (forall f :: f in come ==> f.number < bound) || (come == c0 && forall f :: f in c0 ==> f in v.levels[l])
    ensures forall m, f :: 0 <= m < |v'.levels| && f in v'.levels[m] ==> f.number < bound
  {
    forall m, f | 0 <= m < |v'.levels| && f in v'.levels[m] ensures f.number < bound {
      assert f in come || f in v.levels[m];
    }
  }

  lemma TrivialMoveKeepsInv(db: DB, c: Inputs, db': DB)
    requires Inv(db) && TrivialMoveStep(db, c, db') && Guarded(db, TrivialMove(c))
    ensures Inv(db')
  {
    assert GoodVersion(db.version);
    hide Logs, GoodVersion, Numbered, Sequenced, Layered, Guarded, ReadsRight, Snapshots, JobRight, TrivialMoveStep;
    TrivialMoveVersion(db, c, db');
    TrivialMoveRest(db, c, db');
    SameReads(db, db');
  }

  lemma TrivialMoveRest(db: DB, c: Inputs, db': DB)
    requires Layered(db) && Sequenced(db) && Snapshots(db) && Logs(db) && TrivialMoveStep(db, c, db')
    requires Contents(db'.version) == Contents(db.version)
    ensures Layered(db') && Sequenced(db') && Snapshots(db') && Logs(db') && JobRight(db')
    ensures db'.Stored() == db.Stored() && db'.Written() == db.Written()
    ensures db'.snapshots == db.snapshots && db'.lastSequence == db.lastSequence
  {
    hide DistinctSequences, Ascending, ReplayedAs, Moved, Picked;
    assert db'.Upper() == db.Upper();
    StoredIsDistinct(db);
  }

  lemma MovedNumbered(v: Version, v': Version, l: nat, c0: seq<File>, c1: seq<File>, come: seq<File>)
    requires Moved(v, v', l, c0, c1, come) && DistinctFiles(v)
    requires forall f :: f in c0 ==> f in v.levels[l]
    requires come == c0 || forall o, p :: o in come && p in come && o.number == p.number ==> o == p
    requires come == c0 || forall m, f, o :: 0 <= m < |v.levels| && f in v.levels[m] && o in come ==> f.number != o.number
    ensures DistinctFiles(v')
  {
    forall m, f | 0 <= m < |v'.levels| && f in v'.levels[m]
      ensures (m == l + 1 && f in come) || (f in v.levels[m] && (m == l ==> f !in c0))
    {
    }
  }

  lemma PickedGood(v: Version, c: Inputs)
    requires GoodLevels(v) && Picked(v, c.level, c.in0, c.in1)
    ensures c.level + 1 < |v.levels| && GoodFiles(v.levels[c.level + 1]) && Disjoint(v.levels[c.level + 1])
    ensures GoodFiles(c.in0) && TouchingHull(v.levels[c.level + 1], c.in0, c.in1)
  {
    assert GoodFiles(v.levels[c.level]);
  }

  lemma StartJob(db: DB, c: Inputs, db': DB)
    requires GoodVersion(db.version) && Snapshots(db)
    requires StartStep(db, c, db') && Guarded(db, StartCompaction(c))
    ensures JobRight(db')
  {
    hide Surviving, Clear, RestClear;
    PickedGood(db.version, c);
    PickedIsClear(db.version, c.level, c.in0, c.in1, SmallestSnapshot(db), db.version);
    StartSnapshot(db);
  }

  lemma StartSnapshot(db: DB)
    requires Snapshots(db)
    ensures SmallestSnapshot(db) <= db.lastSequence && forall s :: s in db.snapshots ==> SmallestSnapshot(db) <= s
  {
    if db.snapshots != [] {
      assert db.snapshots[0] in db.snapshots;
    }
  }

  /** Starting or abandoning a compaction changes nothing a reader or a crash could see. */
  lemma OnlyJobChanges(db: DB, db': DB)
    requires db' == db.(job := db'.job)
    ensures db'.Upper() == db.Upper() && db'.Stored() == db.Stored() && db'.Written() == db.Written()
    ensures Numbered(db) ==> Numbered(db')
    ensures Layered(db) ==> Layered(db')
    ensures Sequenced(db) ==> Sequenced(db')
    ensures Snapshots(db) ==> Snapshots(db')
  {
  }

  lemma StartKeepsInv(db: DB, c: Inputs, db': DB)
    requires Inv(db) && StartStep(db, c, db') && Guarded(db, StartCompaction(c))
    ensures Inv(db')
  {
    hide Logs;
    SameLogs(db, db');
    OnlyJobChanges(db, db');
    StartJob(db, c, db');
    assert ReadsRight(db') by {
      SameReads(db, db');
    }
  }

  lemma FinishIsCompaction(db: DB, input: seq<Entry>, outputs: seq<File>, db': DB)
    requires GoodVersion(db.version) && Layered(db) && Sequenced(db) && JobRight(db) && FinishStep(db, input, outputs, db')
    ensures var job := db.job.value;
            CompactedUnder(db.Upper(), db.version, db'.version, job.level, job.in0, job.in1, outputs, input, job.snapshot, job.base)
  {
    StoredIsDistinct(db);
  }

  lemma FinishContents(db: DB, input: seq<Entry>, outputs: seq<File>, db': DB)
    requires GoodVersion(db.version) && Layered(db) && Sequenced(db) && JobRight(db) && FinishStep(db, input, outputs, db')
    ensures GoodVersion(db'.version) && Contents(db'.version) <= Contents(db.version)
    ensures db'.Upper() == db.Upper() && db'.Stored() <= db.Stored()
  {
    hide GoodVersion, Layered, Sequenced, StaysNewer, RestClear, DeeperKnown, Moved, Survivors, Flatten, IsMerge;
    var job := db.job.value;
    FinishIsCompaction(db, input, outputs, db');
    CompactedIsGood(db.version, db'.version, job.level, job.in0, job.in1, outputs, input, job.snapshot, job.base);
    NowWasThere(db.Upper(), db.version, db'.version, job.level, job.in0, job.in1, outputs, input, job.snapshot, job.base);
    assert db'.Upper() == db.Upper();
  }

  lemma FinishUncoversNothing(db: DB, input: seq<Entry>, outputs: seq<File>)
    requires db.job.Some? && Guarded(db, FinishCompaction(input, outputs))
    ensures UncoversNothing(db, db.job.value)
  {
  }

  lemma FinishReads(db: DB, input: seq<Entry>, outputs: seq<File>, db': DB)
    requires GoodVersion(db.version) && JobRight(db) && FinishStep(db, input, outputs, db')
    requires Layered(db) && Sequenced(db) && ReadsRight(db) && Guarded(db, FinishCompaction(input, outputs))
    ensures ReadsRight(db')
  {
    hide GoodVersion, Layered, Sequenced, StaysNewer, RestClear, DeeperKnown, Moved, Survivors, Flatten, IsMerge, NothingUncovered;
    var job := db.job.value;
    assert db'.Upper() == db.Upper() && db'.Written() == db.Written();
    FinishIsCompaction(db, input, outputs, db');
    FinishUncoversNothing(db, input, outputs);
    hide Guarded;
    forall k, s: nat | Readable(db', s) ensures View(db'.Stored(), k, s) == View(db'.Written(), k, s) {
      assert Readable(db, s) && job.snapshot <= s;
      CompactionKeepsView(db.Upper(), db.version, db'.version, job.level, job.in0, job.in1, outputs, input,
                          job.snapshot, job.base, k, s);
    }
  }

  lemma FinishNumbered(db: DB, input: seq<Entry>, outputs: seq<File>, db': DB)
    requires Numbered(db) && JobRight(db) && FinishStep(db, input, outputs, db')
    ensures Numbered(db')
  {
    hide IsMerge, Survivors, Flatten, StaysNewer, RestClear, DeeperKnown, Moved, GoodFiles, Disjoint, DistinctFiles;
    var job := db.job.value;
    MovedNumbered(db.version, db'.version, job.level, job.in0, job.in1, outputs);
    MovedRange(db.version, db'.version, job.level, job.in0, job.in1, outputs, db'.nextFile);
  }

  lemma FinishRest(db: DB, input: seq<Entry>, outputs: seq<File>, db': DB)
    requires Layered(db) && Sequenced(db) && Snapshots(db) && FinishStep(db, input, outputs, db')
    requires Contents(db'.version) <= Contents(db.version)
    requires db'.Upper() == db.Upper() && db'.Stored() <= db.Stored()
    ensures Layered(db') && Sequenced(db') && Snapshots(db') && JobRight(db')
  {
    hide DistinctSequences, IsMerge, Moved, FreshNumbers, Survivors, Flatten;
    StoredIsDistinct(db);
    assert db'.ImmLog() + db'.mem == db.ImmLog() + db.mem;
    assert db'.Written() == db.Written();
  }

  lemma FinishKeepsInv(db: DB, input: seq<Entry>, outputs: seq<File>, db': DB)
    requires Inv(db) && FinishStep(db, input, outputs, db') && Guarded(db, FinishCompaction(input, outputs))
    ensures Inv(db')
  {
    hide GoodVersion, Layered, Sequenced, Numbered, JobRight, ReadsRight, Snapshots, Logs, Guarded;
    SameLogs(db, db');
    FinishContents(db, input, outputs, db');
    FinishReads(db, input, outputs, db');
    FinishNumbered(db, input, outputs, db');
    FinishRest(db, input, outputs, db');
  }
}
