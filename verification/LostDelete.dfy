/** A run of the database, from the empty one, after which a deleted key can be read again (db/db_impl.cc). */
module LostDelete {
  import opened Wrappers
  import opened ByteStrings
  import opened InternalKeys
  import opened Versions
  import opened Picking
  import opened CompactionWork
  import opened Edits
  import opened CompactionReads
  import opened Database
  import opened Invariant
  import opened Runs
  import Comparators
  import R = StaleRead
  import W = WriteBatches

  // Two user keys are used: the empty one, and a long one that comes after it.

  ghost function Older(k: Bytes, v: Bytes): Entry {
    Entry(Key(Comparators.Rank(k), 1, Value), v)
  }

  ghost function Tombstone(k: Bytes): Entry {
    Entry(Key(Comparators.Rank(k), 3, Deletion), [])
  }

  /** A write of the empty key. */
  ghost function Front(sequence: SequenceNumber): Entry {
    Entry(Key(0.0, sequence, Value), [])
  }

  ghost function Table(number: nat, size: nat, es: seq<Entry>): File
    requires es != []
  {
    File(number, size, es[0].key, es[|es| - 1].key, es)
  }

  ghost function First(k: Bytes, v: Bytes): File {
    Table(3, |k| + |v|, [Older(k, v)])
  }

  ghost function Second(number: nat, k: Bytes): File {
    Table(number, |k|, [Front(2), Tombstone(k)])
  }

  ghost function Third(number: nat): File {
    Table(number, 0, [Front(4)])
  }

  /** The older version in a table of its own. */
  ghost function Rest(k: Bytes, v: Bytes): File {
    Table(7, |k| + |v|, [Older(k, v)])
  }

  ghost function Levels(l1: seq<File>, l2: seq<File>): Version {
    R.Top([], l1, l2)
  }

  // ---- a write, from the log to a table ----

  ghost function Appended(db: DB, record: Bytes, b: Batch): DB {
    db.(memFile := [record], inflight := Some(b))
  }

  ghost function Applied(db: DB, record: Bytes, b: Batch): DB {
    db.(memFile := [record], mem := [b], lastSequence := db.lastSequence + |b|, history := db.history + [b])
  }

  ghost function Switched(db: DB, record: Bytes, b: Batch): DB {
    db.(immFile := [record], imm := Some([b]), nextFile := db.nextFile + 1, lastSequence := db.lastSequence + |b|,
        history := db.history + [b])
  }

  ghost function Flushed(db: DB, b: Batch, version: Version): DB {
    db.(version := version, nextFile := db.nextFile + 2, lastSequence := db.lastSequence + |b|, history := db.history + [b],
        manifestSequence := db.lastSequence + |b|, manifestNextFile := db.nextFile + 2)
  }

  predicate Rests(db: DB) {
    db.memFile == [] && db.mem == [] && db.immFile == [] && db.imm == None && db.inflight == None
  }

  lemma WriteCycle(db: DB, records: seq<W.Record>, b: Batch, f: File, target: nat, version: Version)
    requires Rests(db) && db.lastSequence + |records| + 1 < MAX_SEQUENCE && forall r :: r in records ==> W.Small(r)
    requires b == Stamp(OpsOf(records), db.lastSequence + 1)
    requires TableOf(f, [b]) && f.number == db.nextFile + 1 && FlushTarget(db.version, f, target)
    requires Added(db.version, version, target, f)
    ensures var record := W.Encoded(db.lastSequence + 1, records);
            && Next(db, BeginWrite(records), Appended(db, record, b))
            && Next(Appended(db, record, b), EndWrite, Applied(db, record, b))
            && Next(Applied(db, record, b), SwitchMemtable, Switched(db, record, b))
            && Next(Switched(db, record, b), Flush(Some(f), target), Flushed(db, b, version))
  {
    hide TableOf, FlushTarget, Added, Stamp, OpsOf, W.Encoded, W.Small;
    var record := W.Encoded(db.lastSequence + 1, records);
    assert [] + [record] == [record] && [] + [b] == [b];
  }

  // ---- a compaction ----

  ghost function Started(db: DB, c: Inputs): DB {
    db.(job := Some(Job(c.level, c.in0, c.in1, db.version, SmallestSnapshot(db))))
  }

  ghost function Finished(db: DB, version: Version, outputs: nat): DB {
    db.(version := version, nextFile := db.nextFile + outputs, manifestSequence := db.lastSequence,
        manifestNextFile := db.nextFile + outputs, job := None)
  }

  lemma FinishedIsLogged(db: DB, c: Inputs, version: Version, outputs: nat)
    ensures Finished(db, version, outputs) == Logged(Started(db, c), version, db.nextFile + outputs).(job := None)
  {
    hide SmallestSnapshot;
  }

  lemma Finishes(db: DB, c: Inputs, input: seq<Entry>, outputs: seq<File>, version: Version)
    requires IsMerge(input, c.All())
    requires Flatten(outputs) == Survivors(input, |input|, SmallestSnapshot(db), db.version, c.level)
    requires GoodFiles(outputs) && Disjoint(outputs) && FreshNumbers(db.version, outputs, db.nextFile + |outputs|)
    requires Moved(db.version, version, c.level, c.in0, c.in1, outputs)
    ensures Next(Started(db, c), FinishCompaction(input, outputs), Finished(db, version, |outputs|))
  {
    hide IsMerge, Survivors, Flatten, Moved, GoodFiles, Disjoint, FreshNumbers, SmallestSnapshot;
    FinishedIsLogged(db, c, version, |outputs|);
    var job := Job(c.level, c.in0, c.in1, db.version, SmallestSnapshot(db));
    var running := Started(db, c);
    assert running.job == Some(job) && running.version == db.version && running.nextFile == db.nextFile && job.All() == c.All();
    var done := Finished(db, version, |outputs|);
    assert done.version == version && done.nextFile == db.nextFile + |outputs|;
    hide Started, Finished, Logged;
    assert FinishStep(running, input, outputs, done);
  }

  // ---- the states between writes and compactions ----

  ghost function Empty(): DB {
    DB([], [], [], None, None, Levels([], []), 0, 2, [], None, 0, 2, [])
  }

  /** The key is written, and its table sinks to level 2. */
  ghost function OnceWritten(k: Bytes, v: Bytes): DB {
    Flushed(Empty(), [Older(k, v)], Levels([], [First(k, v)]))
  }

  ghost function Pinned(k: Bytes, v: Bytes): DB {
    OnceWritten(k, v).(snapshots := [1])
  }

  /** It is deleted, together with a write in front of it; their table sinks to level 1. */
  ghost function Deleted(k: Bytes, v: Bytes): DB {
    Flushed(Pinned(k, v), [Front(2), Tombstone(k)], Levels([Second(5, k)], [First(k, v)]))
  }

  /** A compaction of the two tables cuts its output between the versions. */
  ghost function Cut(k: Bytes, v: Bytes): DB {
    Finished(Deleted(k, v), Levels([], [Second(6, k), Rest(k, v)]), 2)
  }

  ghost function Loose(k: Bytes, v: Bytes): DB {
    Cut(k, v).(snapshots := [])
  }

  /** After the snapshot is released, a table with another write in front sinks to level 1. */
  ghost function Again(k: Bytes, v: Bytes): DB {
    Flushed(Loose(k, v), [Front(4)], Levels([Third(9)], [Second(6, k), Rest(k, v)]))
  }

  /** A compaction of it takes only the first table of level 2, and drops the tombstone. */
  ghost function Lost(k: Bytes, v: Bytes): DB {
    Finished(Again(k, v), Levels([], [Third(10), Rest(k, v)]), 1)
  }

  function FirstRecords(k: Bytes, v: Bytes): seq<W.Record> {
    [W.Put(k, v)]
  }

  function SecondRecords(k: Bytes): seq<W.Record> {
    [W.Put([], []), W.Delete(k)]
  }

  function ThirdRecords(): seq<W.Record> {
    [W.Put([], [])]
  }

  ghost function CutInputs(k: Bytes, v: Bytes): Inputs {
    Inputs(1, [Second(5, k)], [First(k, v)], [])
  }

  ghost function LostInputs(k: Bytes): Inputs {
    Inputs(1, [Third(9)], [Second(6, k)], [])
  }

  /** Sizes: a key of at least 2 MB, that does not compress, makes a compaction cut its output after the tombstone; key and
      value stay below the size at which level 1 is compacted on its own. */
  predicate Fits(k: Bytes, v: Bytes) {
    TARGET_FILE_SIZE <= |k| && |k| + |v| < R.LEVEL_ONE_LIMIT
  }

  // ---- what was stamped ----

  lemma Stamps(k: Bytes, v: Bytes)
    ensures Stamp(OpsOf(FirstRecords(k, v)), 1) == [Older(k, v)]
    ensures Stamp(OpsOf(SecondRecords(k)), 2) == [Front(2), Tombstone(k)]
    ensures Stamp(OpsOf(ThirdRecords()), 4) == [Front(4)]
  {
    hide Comparators.Rank;
    ZeroRank();
    assert OpsOf(FirstRecords(k, v)) == [Put(Comparators.Rank(k), v)];
    assert OpsOf(SecondRecords(k)) == [Put(0.0, []), Delete(Comparators.Rank(k))];
    assert OpsOf(ThirdRecords()) == [Put(0.0, [])];
  }

  lemma ZeroRank()
    ensures Comparators.Rank([]) == 0.0
  {
  }

  lemma LongComesAfter(k: Bytes)
    requires k != []
    ensures 0.0 < Comparators.Rank(k)
  {
    Comparators.RankEmbedsCompare([], k);
    ZeroRank();
  }

  // ---- tables ----

  lemma TableIs(number: nat, size: nat, es: seq<Entry>)
    requires es != [] && Sorted(es)
    ensures TableOf(Table(number, size, es), [es])
  {
    assert es in [es];
  }

  /** The tables of the run, by where their user keys lie. */
  lemma TableShapes(k: Bytes, v: Bytes)
    requires k != []
    ensures Sorted([Older(k, v)]) && Sorted([Front(2), Tombstone(k)]) && Sorted([Front(4)])
    ensures Less(Tombstone(k).key, Older(k, v).key) && Less(Front(4).key, Older(k, v).key) && Less(Front(2).key, Older(k, v).key)
  {
    LongComesAfter(k);
    hide Comparators.Rank;
  }

  lemma ComesIn(before: seq<File>, f: File)
    requires before == []
    ensures Replaced(before, [f], [], [f])
  {
  }

  lemma TouchesOne(f: File, lo: UserKey, hi: UserKey)
    ensures Touching([f], Some(lo), Some(hi)) == if f.Touches(Some(lo), Some(hi)) then [f] else []
  {
    assert [f][..0] == [];
  }

  lemma TouchesTwo(f: File, g: File, lo: UserKey, hi: UserKey)
    ensures Touching([f, g], Some(lo), Some(hi)) ==
            (if f.Touches(Some(lo), Some(hi)) then [f] else []) + (if g.Touches(Some(lo), Some(hi)) then [g] else [])
  {
    TouchesOne(f, lo, hi);
    assert [f, g][..1] == [f];
  }

  lemma OneSize(f: File)
    ensures TotalFileSize([f]) == f.size
  {
    assert [f][..0] == [];
  }

  // ---- the three writes ----

  lemma FirstSinks(k: Bytes, v: Bytes)
    ensures SinksTo(Empty().version, First(k, v), 2) && FlushTarget(Empty().version, First(k, v), 2)
  {
    hide Comparators.Rank;
  }

  lemma FirstWrite(k: Bytes, v: Bytes)
    requires Fits(k, v)
    ensures var db, b, record := Empty(), [Older(k, v)], W.Encoded(1, FirstRecords(k, v));
            && Next(db, BeginWrite(FirstRecords(k, v)), Appended(db, record, b))
            && Next(Appended(db, record, b), EndWrite, Applied(db, record, b))
            && Next(Applied(db, record, b), SwitchMemtable, Switched(db, record, b))
            && Next(Switched(db, record, b), Flush(Some(First(k, v)), 2), OnceWritten(k, v))
  {
    hide Comparators.Rank, Stamp, OpsOf, W.Encoded, TableOf, FlushTarget, SinksTo;
    Stamps(k, v);
    TableShapes(k, v);
    TableIs(3, |k| + |v|, [Older(k, v)]);
    FirstSinks(k, v);
    ComesIn([], First(k, v));
    WriteCycle(Empty(), FirstRecords(k, v), [Older(k, v)], First(k, v), 2, Levels([], [First(k, v)]));
  }

  lemma SecondSinks(k: Bytes, v: Bytes)
    requires Fits(k, v)
    ensures SinksTo(Pinned(k, v).version, Second(5, k), 1) && FlushTarget(Pinned(k, v).version, Second(5, k), 1)
  {
    LongComesAfter(k);
    hide Comparators.Rank;
    var first, f := First(k, v), Second(5, k);
    TouchesOne(first, 0.0, Comparators.Rank(k));
    OneSize(first);
    assert !UserApart(f, first) && first in Pinned(k, v).version.levels[2];
  }

  lemma SecondWrite(k: Bytes, v: Bytes)
    requires Fits(k, v)
    ensures var db, b, record := Pinned(k, v), [Front(2), Tombstone(k)], W.Encoded(2, SecondRecords(k));
            && Next(db, BeginWrite(SecondRecords(k)), Appended(db, record, b))
            && Next(Appended(db, record, b), EndWrite, Applied(db, record, b))
            && Next(Applied(db, record, b), SwitchMemtable, Switched(db, record, b))
            && Next(Switched(db, record, b), Flush(Some(Second(5, k)), 1), Deleted(k, v))
  {
    hide Comparators.Rank, Stamp, OpsOf, W.Encoded, TableOf, FlushTarget, SinksTo;
    Stamps(k, v);
    TableShapes(k, v);
    TableIs(5, |k|, [Front(2), Tombstone(k)]);
    SecondSinks(k, v);
    ComesIn([], Second(5, k));
    WriteCycle(Pinned(k, v), SecondRecords(k), [Front(2), Tombstone(k)], Second(5, k), 1, Levels([Second(5, k)], [First(k, v)]));
  }

  lemma ThirdSinks(k: Bytes, v: Bytes)
    requires Fits(k, v)
    ensures SinksTo(Loose(k, v).version, Third(9), 1) && FlushTarget(Loose(k, v).version, Third(9), 1)
  {
    LongComesAfter(k);
    hide Comparators.Rank;
    var front, f := Second(6, k), Third(9);
    TouchesTwo(front, Rest(k, v), 0.0, 0.0);
    OneSize(front);
    assert !UserApart(f, front) && front in Loose(k, v).version.levels[2];
  }

  lemma ThirdWrite(k: Bytes, v: Bytes)
    requires Fits(k, v)
    ensures var db, b, record := Loose(k, v), [Front(4)], W.Encoded(4, ThirdRecords());
            && Next(db, BeginWrite(ThirdRecords()), Appended(db, record, b))
            && Next(Appended(db, record, b), EndWrite, Applied(db, record, b))
            && Next(Applied(db, record, b), SwitchMemtable, Switched(db, record, b))
            && Next(Switched(db, record, b), Flush(Some(Third(9)), 1), Again(k, v))
  {
    hide Comparators.Rank, Stamp, OpsOf, W.Encoded, TableOf, FlushTarget, SinksTo;
    Stamps(k, v);
    TableShapes(k, v);
    TableIs(9, 0, [Front(4)]);
    ThirdSinks(k, v);
    ComesIn([], Third(9));
    WriteCycle(Loose(k, v), ThirdRecords(), [Front(4)], Third(9), 1, Levels([Third(9)], [Second(6, k), Rest(k, v)]));
  }

  // ---- the compaction that cuts between the versions ----

  lemma CutStarts(k: Bytes, v: Bytes)
    requires k != []
    ensures Next(Deleted(k, v), StartCompaction(CutInputs(k, v)), Started(Deleted(k, v), CutInputs(k, v)))
  {
    CutPicked(k, v);
    hide Comparators.Rank, Picked, SmallestSnapshot, Levels;
  }

  lemma CutPicked(k: Bytes, v: Bytes)
    requires k != []
    ensures Picked(Levels([Second(5, k)], [First(k, v)]), 1, [Second(5, k)], [First(k, v)])
  {
    LongComesAfter(k);
    hide Comparators.Rank;
    var second, first := Second(5, k), First(k, v);
    TouchesOne(first, 0.0, Comparators.Rank(k));
    assert second in [second];
    assert Hull([second], 0.0, Comparators.Rank(k));
  }

  lemma OneAndOne(f: File, g: File, es: seq<Entry>)
    requires Sorted(es) && forall e :: e in es <==> e in f.entries || e in g.entries
    ensures IsMerge(es, [f] + [g])
  {
    var files := [f] + [g];
    assert files[0] == f && files[1] == g && f in files && g in files;
  }

  lemma ThreeSurvive(k: Bytes, v: Bytes, base: Version)
    requires k != []
    ensures var input := [Front(2), Tombstone(k), Older(k, v)];
            Sorted(input) && Survivors(input, 3, 1, base, 1) == input
  {
    TableShapes(k, v);
    LongComesAfter(k);
    hide Comparators.Rank;
    var input := [Front(2), Tombstone(k), Older(k, v)];
    assert Survivors(input, 0, 1, base, 1) == [];
    assert Survivors(input, 1, 1, base, 1) == [input[0]];
    assert Survivors(input, 2, 1, base, 1) == [input[0], input[1]];
  }

  lemma OneFlat(f: File)
    ensures Flatten([f]) == f.entries
  {
    assert [f][..0] == [];
    assert Flatten([f]) == Flatten([]) + f.entries;
  }

  lemma GoesOut(f: File)
    ensures Replaced([f], [], [f], [])
  {
  }

  lemma CutMoves(k: Bytes, v: Bytes)
    requires k != []
    ensures Moved(Deleted(k, v).version, Cut(k, v).version, 1, [Second(5, k)], [First(k, v)], [Second(6, k), Rest(k, v)])
    ensures GoodFiles([Second(6, k), Rest(k, v)]) && Disjoint([Second(6, k), Rest(k, v)])
    ensures FreshNumbers(Deleted(k, v).version, [Second(6, k), Rest(k, v)], 8)
  {
    TableShapes(k, v);
    LongComesAfter(k);
    hide Comparators.Rank;
    GoesOut(Second(5, k));
    assert Replaced([First(k, v)], [Second(6, k), Rest(k, v)], [First(k, v)], [Second(6, k), Rest(k, v)]);
  }

  lemma CutFinishes(k: Bytes, v: Bytes)
    requires k != []
    ensures Next(Started(Deleted(k, v), CutInputs(k, v)),
                 FinishCompaction([Front(2), Tombstone(k), Older(k, v)], [Second(6, k), Rest(k, v)]), Cut(k, v))
  {
    ThreeSurvive(k, v, Deleted(k, v).version);
    OneAndOne(Second(5, k), First(k, v), [Front(2), Tombstone(k), Older(k, v)]);
    R.OutputsCut(Second(6, k), Rest(k, v));
    CutMoves(k, v);
    hide Comparators.Rank, IsMerge, Survivors, Flatten, Moved, GoodFiles, Disjoint, FreshNumbers, Next;
    Finishes(Deleted(k, v), CutInputs(k, v), [Front(2), Tombstone(k), Older(k, v)], [Second(6, k), Rest(k, v)], Cut(k, v).version);
  }

  // ---- the compaction that drops the tombstone ----

  lemma LostPicked(k: Bytes, v: Bytes)
    requires k != []
    ensures Picked(Levels([Third(9)], [Second(6, k), Rest(k, v)]), 1, [Third(9)], [Second(6, k)])
  {
    LongComesAfter(k);
    hide Comparators.Rank;
    var third := Third(9);
    TouchesTwo(Second(6, k), Rest(k, v), 0.0, 0.0);
    assert third in [third];
    assert Hull([third], 0.0, 0.0);
  }

  lemma LostStarts(k: Bytes, v: Bytes)
    requires k != []
    ensures Next(Again(k, v), StartCompaction(LostInputs(k)), Started(Again(k, v), LostInputs(k)))
  {
    LostPicked(k, v);
    hide Comparators.Rank, Picked, SmallestSnapshot, Levels;
  }

  lemma OneSurvives(k: Bytes, base: Version)
    requires k != [] && |base.levels| == NUM_LEVELS && forall m :: 3 <= m < NUM_LEVELS ==> base.levels[m] == []
    ensures var input := [Front(4), Front(2), Tombstone(k)];
            Sorted(input) && Survivors(input, 3, 4, base, 1) == [Front(4)]
  {
    TableShapes(k, []);
    LongComesAfter(k);
    hide Comparators.Rank;
    var input := [Front(4), Front(2), Tombstone(k)];
    assert Survivors(input, 0, 4, base, 1) == [];
    assert Survivors(input, 1, 4, base, 1) == [input[0]];
    assert Survivors(input, 2, 4, base, 1) == [input[0]];
    assert Dropped(input, 2, 4, base, 1);
  }

  lemma LostMoves(k: Bytes, v: Bytes)
    requires k != []
    ensures Moved(Again(k, v).version, Lost(k, v).version, 1, [Third(9)], [Second(6, k)], [Third(10)])
    ensures GoodFiles([Third(10)]) && Disjoint([Third(10)])
    ensures FreshNumbers(Again(k, v).version, [Third(10)], 11)
  {
    TableShapes(k, v);
    LongComesAfter(k);
    hide Comparators.Rank;
    GoesOut(Third(9));
    assert Replaced([Second(6, k), Rest(k, v)], [Third(10), Rest(k, v)], [Second(6, k)], [Third(10)]);
  }

  lemma LostFinishes(k: Bytes, v: Bytes)
    requires k != []
    ensures Next(Started(Again(k, v), LostInputs(k)), FinishCompaction([Front(4), Front(2), Tombstone(k)], [Third(10)]), Lost(k, v))
  {
    OneSurvives(k, Again(k, v).version);
    OneAndOne(Third(9), Second(6, k), [Front(4), Front(2), Tombstone(k)]);
    OneFlat(Third(10));
    LostMoves(k, v);
    hide Comparators.Rank, IsMerge, Survivors, Flatten, Moved, GoodFiles, Disjoint, FreshNumbers, Next;
    Finishes(Again(k, v), LostInputs(k), [Front(4), Front(2), Tombstone(k)], [Third(10)], Lost(k, v).version);
  }

  // ---- what is read at the end ----

  lemma LastReads(k: Bytes, v: Bytes)
    requires k != []
    ensures var key := Comparators.Rank(k);
            && View(Lost(k, v).Written(), key, 4) == None && View(Lost(k, v).Stored(), key, 4) == Some(v)
            && FirstHit(Lost(k, v).version, key, 4, Some(Older(k, v)))
  {
    LongComesAfter(k);
    hide Comparators.Rank;
    var log := [[Older(k, v)], [Front(2), Tombstone(k)], [Front(4)]];
    assert Lost(k, v).history == log;
    HistoryHolds(k, v);
    ViewOfNewest(LogContents(log), Comparators.Rank(k), 4, Tombstone(k));
    LastHolds(k, v);
    ViewOfNewest(Lost(k, v).Stored(), Comparators.Rank(k), 4, Older(k, v));
    OlderIsFound(k, v);
  }

  lemma HistoryHolds(k: Bytes, v: Bytes)
    requires k != []
    ensures var es := LogContents([[Older(k, v)], [Front(2), Tombstone(k)], [Front(4)]]);
            DistinctSequences(es) && Newest(es, Comparators.Rank(k), 4, Tombstone(k))
  {
    LongComesAfter(k);
    hide Comparators.Rank;
    var log := [[Older(k, v)], [Front(2), Tombstone(k)], [Front(4)]];
    assert log[1] in log && Tombstone(k) in log[1];
    assert InLog(log, Tombstone(k));
    forall e | InLog(log, e) ensures e == Older(k, v) || e == Front(2) || e == Tombstone(k) || e == Front(4) {
      var b :| b in log && e in b;
    }
  }

  lemma LastHolds(k: Bytes, v: Bytes)
    requires k != []
    ensures var es := Lost(k, v).Stored();
            DistinctSequences(es) && Newest(es, Comparators.Rank(k), 4, Older(k, v))
  {
    LongComesAfter(k);
    hide Comparators.Rank;
    var db := Lost(k, v);
    assert Rest(k, v) in db.version.levels[2] && Older(k, v) in Rest(k, v).entries;
    assert At(db.version, 2, Older(k, v));
    forall e | e in db.Stored() ensures e == Older(k, v) || e == Front(4) {
      var m: nat :| At(db.version, m, e);
      assert m == 2;
    }
  }

  lemma OlderIsFound(k: Bytes, v: Bytes)
    requires k != []
    ensures FirstHit(Lost(k, v).version, Comparators.Rank(k), 4, Some(Older(k, v)))
  {
    LongComesAfter(k);
    hide Comparators.Rank;
    var version := Lost(k, v).version;
    assert Rest(k, v) in version.levels[2] && Older(k, v) in Rest(k, v).entries;
    assert version.levels[0] == [] && version.levels[1] == [];
    assert Resolves(LevelContents(version.levels[2]), Comparators.Rank(k), 4, Some(Older(k, v)));
  }

  // ---- the run ----

  ghost function States(k: Bytes, v: Bytes): (r: seq<DB>)
    ensures |r| == 19
  {
    var one, two, three := W.Encoded(1, FirstRecords(k, v)), W.Encoded(2, SecondRecords(k)), W.Encoded(4, ThirdRecords());
    var a, b, c := [Older(k, v)], [Front(2), Tombstone(k)], [Front(4)];
    [Empty(), Appended(Empty(), one, a), Applied(Empty(), one, a), Switched(Empty(), one, a), OnceWritten(k, v),
     Pinned(k, v), Appended(Pinned(k, v), two, b), Applied(Pinned(k, v), two, b), Switched(Pinned(k, v), two, b),
     Deleted(k, v), Started(Deleted(k, v), CutInputs(k, v)), Cut(k, v),
     Loose(k, v), Appended(Loose(k, v), three, c), Applied(Loose(k, v), three, c), Switched(Loose(k, v), three, c),
     Again(k, v), Started(Again(k, v), LostInputs(k)), Lost(k, v)]
  }

  ghost function Steps(k: Bytes, v: Bytes): (r: seq<Step>)
    ensures |r| == 18
  {
    [BeginWrite(FirstRecords(k, v)), EndWrite, SwitchMemtable, Flush(Some(First(k, v)), 2),
     TakeSnapshot, BeginWrite(SecondRecords(k)), EndWrite, SwitchMemtable, Flush(Some(Second(5, k)), 1),
     StartCompaction(CutInputs(k, v)),
     FinishCompaction([Front(2), Tombstone(k), Older(k, v)], [Second(6, k), Rest(k, v)]),
     ReleaseSnapshot(0), BeginWrite(ThirdRecords()), EndWrite, SwitchMemtable, Flush(Some(Third(9)), 1),
     StartCompaction(LostInputs(k)), FinishCompaction([Front(4), Front(2), Tombstone(k)], [Third(10)])]
  }

  lemma SnapshotSteps(k: Bytes, v: Bytes)
    ensures Next(OnceWritten(k, v), TakeSnapshot, Pinned(k, v)) && Next(Cut(k, v), ReleaseSnapshot(0), Loose(k, v))
    ensures Init(Empty())
  {
    hide Comparators.Rank;
    assert Levels([], []).levels == seq(NUM_LEVELS, _ => []);
  }

  lemma LongKey(k: Bytes, v: Bytes)
    requires Fits(k, v)
    ensures k != []
  {
  }

  lemma AllSteps(k: Bytes, v: Bytes)
    requires Fits(k, v)
    ensures forall i :: 0 <= i < 18 ==> Next(States(k, v)[i], Steps(k, v)[i], States(k, v)[i + 1])
  {
    hide Next, Empty, Appended, Applied, Switched, Flushed, OnceWritten, Pinned, Deleted, Cut, Loose, Again, Lost, Started, Finished,
         First, Second, Third, Rest, Older, Tombstone, Front, CutInputs, LostInputs, FirstRecords, SecondRecords, ThirdRecords,
         W.Encoded, Init, Comparators.Rank;
    LongKey(k, v);
    SnapshotSteps(k, v);
    FirstWrite(k, v);
    SecondWrite(k, v);
    CutStarts(k, v);
    CutFinishes(k, v);
    ThirdWrite(k, v);
    LostStarts(k, v);
    LostFinishes(k, v);
  }

  lemma GuardedStarts(k: Bytes, v: Bytes)
    ensures Guarded(Deleted(k, v), StartCompaction(CutInputs(k, v))) && Guarded(Again(k, v), StartCompaction(LostInputs(k)))
  {
    hide Comparators.Rank, Surviving;
  }

  lemma GuardedCut(k: Bytes, v: Bytes, input: seq<Entry>, outputs: seq<File>)
    ensures Guarded(Started(Deleted(k, v), CutInputs(k, v)), FinishCompaction(input, outputs))
  {
    hide Comparators.Rank, View, Newest;
    var files := [Second(5, k)] + [First(k, v)];
    forall d | Holds(files, d) ensures d.key.kind.Value? || d.key.sequence > 1 {
    }
  }

  lemma GuardedFlushes(k: Bytes, v: Bytes)
    ensures Guarded(Switched(Empty(), W.Encoded(1, FirstRecords(k, v)), [Older(k, v)]), Flush(Some(First(k, v)), 2))
    ensures Guarded(Switched(Pinned(k, v), W.Encoded(2, SecondRecords(k)), [Front(2), Tombstone(k)]), Flush(Some(Second(5, k)), 1))
    ensures Guarded(Switched(Loose(k, v), W.Encoded(4, ThirdRecords()), [Front(4)]), Flush(Some(Third(9)), 1))
  {
    hide Comparators.Rank, W.Encoded;
  }

  lemma OthersGuarded(db: DB, step: Step)
    requires !step.Flush? && !step.TrivialMove? && !step.StartCompaction? && !step.FinishCompaction?
    ensures Guarded(db, step)
  {
  }

  lemma GuardedButLast(k: Bytes, v: Bytes)
    ensures forall i :: 0 <= i < 17 ==> Guarded(States(k, v)[i], Steps(k, v)[i])
  {
    hide Guarded, Empty, Appended, Applied, Switched, Flushed, OnceWritten, Pinned, Deleted, Cut, Loose, Again, Lost, Started, Finished,
         First, Second, Third, Rest, Older, Tombstone, Front, CutInputs, LostInputs, FirstRecords, SecondRecords, ThirdRecords,
         W.Encoded, Comparators.Rank;
    GuardedStarts(k, v);
    GuardedCut(k, v, [Front(2), Tombstone(k), Older(k, v)], [Second(6, k), Rest(k, v)]);
    GuardedFlushes(k, v);
    forall i | 0 <= i < 17 ensures Guarded(States(k, v)[i], Steps(k, v)[i]) {
      var step := Steps(k, v)[i];
      if !step.Flush? && !step.StartCompaction? && !step.FinishCompaction? {
        OthersGuarded(States(k, v)[i], step);
      }
    }
  }

  /** A step after which a read is wrong is not guarded. */
  lemma WrongReadIsNotGuarded(states: seq<DB>, steps: seq<Step>, n: nat, key: UserKey, s: nat)
    requires IsRun(states, steps) && |steps| == n + 1
    requires forall i :: 0 <= i < n ==> Guarded(states[i], steps[i])
    requires Readable(states[n + 1], s) && View(states[n + 1].Stored(), key, s) != View(states[n + 1].Written(), key, s)
    ensures !Guarded(states[n], steps[n])
  {
    hide Guarded, Next, Init, View;
    if Guarded(states[n], steps[n]) {
      RunReadsHistory(states, steps, n + 1);
    }
  }

  /** A deleted key can be read again. It was written, and deleted after a snapshot was taken; a manual compaction cuts its
      output after the tombstone, which is larger than 2 MB because the key is; the snapshot is released; and a compaction
      that takes the table with the tombstone but not the one behind it drops the tombstone, although no snapshot is live.
      All the flushes go where PickLevelForMemTableOutput sends them, and the compactions are what CompactRange picks for
      level 1. Only the last step is not guarded. */
  lemma LostDeleteRun(k: Bytes, v: Bytes) returns (states: seq<DB>, steps: seq<Step>)
    requires Fits(k, v)
    ensures IsRun(states, steps) && |steps| == 18
    ensures forall i | 0 <= i < 18 && steps[i].Flush? ::
              steps[i].table.Some? && SinksTo(states[i].version, steps[i].table.value, steps[i].target)
    ensures forall i | 0 <= i < 18 && steps[i].StartCompaction? ::
              steps[i].inputs.level == 1 < |states[i].version.levels| && steps[i].inputs.in0 == states[i].version.levels[1]
    ensures steps[10].FinishCompaction? && |steps[10].outputs| == 2 && steps[10].outputs[0].size >= TARGET_FILE_SIZE
            && steps[10].outputs[0].largest == Tombstone(k).key
    ensures forall i :: 0 <= i < 17 ==> Guarded(states[i], steps[i])
    ensures steps[17].FinishCompaction? && !Guarded(states[17], steps[17])
    ensures var last, key := states[18], Comparators.Rank(k);
            && last.mem == [] && last.imm == None && last.snapshots == [] && Readable(last, 4)
            && View(last.Written(), key, 4) == None && FirstHit(last.version, key, 4, Some(Older(k, v)))
  {
    states, steps := States(k, v), Steps(k, v);
    hide Guarded, Next, Init, SinksTo, View, FirstHit, Comparators.Rank, W.Encoded;
    SnapshotSteps(k, v);
    AllSteps(k, v);
    GuardedButLast(k, v);
    FirstSinks(k, v);
    SecondSinks(k, v);
    ThirdSinks(k, v);
    LongKey(k, v);
    LastReads(k, v);
    WrongReadIsNotGuarded(states, steps, 17, Comparators.Rank(k), 4);
  }
}
