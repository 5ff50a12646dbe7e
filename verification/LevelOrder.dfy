/** The order of the tables within the levels, over every run: it needs far less than reads do (db/version_set.cc,
    db/db_impl.cc). */
module LevelOrder {
  import opened Wrappers
  import opened ByteStrings
  import opened InternalKeys
  import opened Versions
  import opened Picking
  import opened CompactionWork
  import opened Edits
  import opened CompactionReads
  import opened Boundaries
  import opened Database
  import opened Invariant
  import opened Recovery
  import opened Runs

  /** Every table is good, and above level 0 they lie in order, no two overlapping as internal keys. */
  ghost predicate SortedLevels(v: Version) {
    && |v.levels| == NUM_LEVELS
    && (forall m :: 0 <= m < NUM_LEVELS ==> GoodFiles(v.levels[m]))
    && (forall m :: 1 <= m < NUM_LEVELS ==> Disjoint(v.levels[m]))
  }

  /** The inputs of a compaction are there, and the tables left in the level it writes to are clear of what survives. */
  ghost predicate InputsThere(v: Version, job: Job) {
    && job.level + 1 < |v.levels|
    && (forall f :: f in job.in0 ==> f in v.levels[job.level])
    && (forall f :: f in job.in1 ==> f in v.levels[job.level + 1])
    && RestClear(v, job.level, job.in0, job.in1, job.snapshot, job.base)
  }

  ghost predicate Tidy(db: DB) {
    SortedLevels(db.version) && Numbered(db) && (db.job.Some? ==> InputsThere(db.version, db.job.value))
  }

  // ---- one edit ----

  lemma AddedSorted(v: Version, v': Version, l: nat, f: File)
    requires SortedLevels(v) && Added(v, v', l, f) && f.Good()
    requires l > 0 ==> forall g :: g in v.levels[l] ==> UserApart(f, g)
    ensures SortedLevels(v')
  {
    assert GoodFiles(v.levels[l]);
    if l > 0 {
      assert Disjoint(v.levels[l]);
      forall g | g in v.levels[l] ensures Apart(g, f) {
        assert UserApart(f, g);
      }
      ReplacedIsDisjoint(v.levels[l], v'.levels[l], [], [f]);
    }
    forall m | 0 <= m < NUM_LEVELS ensures GoodFiles(v'.levels[m]) && (m > 0 ==> Disjoint(v'.levels[m])) {
      assert GoodFiles(v.levels[m]) && (m > 0 ==> Disjoint(v.levels[m]));
    }
  }

  lemma MovedSorted(v: Version, v': Version, l: nat, c0: seq<File>, c1: seq<File>, come: seq<File>)
    requires SortedLevels(v) && Moved(v, v', l, c0, c1, come)
    requires GoodFiles(come) && Disjoint(come) && ApartFrom(v.levels[l + 1], c1, come)
    ensures SortedLevels(v')
  {
    forall m | 0 <= m < NUM_LEVELS ensures GoodFiles(v'.levels[m]) && (m > 0 ==> Disjoint(v'.levels[m])) {
      assert GoodFiles(v.levels[m]) && (m > 0 ==> Disjoint(v.levels[m]));
      if m == l + 1 {
        ReplacedIsDisjoint(v.levels[m], v'.levels[m], c1, come);
      } else if m == l && m > 0 {
        ReplacedIsDisjoint(v.levels[m], v'.levels[m], c0, []);
      }
    }
  }

  // ---- the steps ----

  lemma FlushTidy(db: DB, table: Option<File>, target: nat, db': DB)
    requires Tidy(db) && FlushStep(db, table, target, db') && Guarded(db, Flush(table, target))
    ensures Tidy(db')
  {
    if table.Some? {
      var f := table.value;
      AddedSorted(db.version, db'.version, target, f);
      FlushNumbered(db, f, target, db');
      if db.job.Some? {
        FlushInputs(db.version, db'.version, f, target, db.job.value);
      }
    }
  }

  lemma FlushInputs(v: Version, v': Version, f: File, target: nat, job: Job)
    requires InputsThere(v, job) && Added(v, v', target, f) && FlushIsClear(f, target, job)
    ensures InputsThere(v', job)
  {
    hide Clear;
    AddedClear(v, v', target, f, job.level, job.in0, job.in1, job.snapshot, job.base);
  }

  lemma TrivialMoveTidy(db: DB, c: Inputs, db': DB)
    requires Tidy(db) && TrivialMoveStep(db, c, db')
    ensures Tidy(db')
  {
    var f := c.in0[0];
    assert c.in0 == [f] && c.in1 == [];
    assert f in db.version.levels[c.level] && GoodFiles(db.version.levels[c.level]);
    MovedFileFits(db.version.levels[c.level + 1], f);
    MovedSorted(db.version, db'.version, c.level, c.in0, [], c.in0);
    TrivialMoveNumbered(db, c, db');
  }

  lemma StartTidy(db: DB, c: Inputs, db': DB)
    requires Tidy(db) && StartStep(db, c, db')
    ensures Tidy(db')
  {
    hide SortedLevels, RestClear, Numbered, Picked, SmallestSnapshot;
    StartNumbered(db, c, db');
    PickedThere(db.version, c, SmallestSnapshot(db));
  }

  lemma StartNumbered(db: DB, c: Inputs, db': DB)
    requires Numbered(db) && StartStep(db, c, db')
    ensures Numbered(db')
  {
    hide Picked, SmallestSnapshot;
  }

  lemma PickedThere(v: Version, c: Inputs, snap: nat)
    requires SortedLevels(v) && Picked(v, c.level, c.in0, c.in1)
    ensures InputsThere(v, Job(c.level, c.in0, c.in1, v, snap))
  {
    hide RestClear;
    assert GoodFiles(v.levels[c.level]) && Disjoint(v.levels[c.level + 1]);
    PickedIsClear(v, c.level, c.in0, c.in1, snap, v);
  }

  lemma FinishTidy(db: DB, input: seq<Entry>, outputs: seq<File>, db': DB)
    requires Tidy(db) && FinishStep(db, input, outputs, db')
    ensures Tidy(db')
  {
    var job := db.job.value;
    OutputsApart(db.version.levels[job.level + 1], job.All(), job.in1, outputs, input, job.snapshot, job.base, job.level);
    MovedSorted(db.version, db'.version, job.level, job.in0, job.in1, outputs);
    MovedNumbered(db.version, db'.version, job.level, job.in0, job.in1, outputs);
    MovedRange(db.version, db'.version, job.level, job.in0, job.in1, outputs, db'.nextFile);
  }

  lemma {:induction false} RecoveredGood(log: seq<Batch>, tables: seq<File>)
    requires RecoveredTables(log, tables)
    ensures GoodFiles(tables)
    decreases |tables|
  {
    if tables != [] {
      var n :| 0 < n <= |log| && TableOf(tables[0], log[..n]) && RecoveredTables(log[n..], tables[1..]);
      RecoveredGood(log[n..], tables[1..]);
    }
  }

  lemma ReopenTidy(db: DB, left: Bytes, tables: seq<File>, immTables: nat, db': DB)
    requires Tidy(db) && ReopenStep(db, left, tables, immTables, db')
    ensures Tidy(db')
  {
    hide CrashLeaves, ReplayedFrom, Restored, Tidy;
    var immLog, log :| RestoredFrom(db, immLog, left, log, tables, immTables, db');
    RestoredTidy(db, immLog, log, tables, immTables, db');
  }

  lemma RestoredTidy(db: DB, immLog: seq<Batch>, log: seq<Batch>, tables: seq<File>, immTables: nat, db': DB)
    requires Tidy(db) && Restored(db, immLog, log, tables, immTables, db')
    ensures Tidy(db')
  {
    hide RecoveredTables, RecoveredSequence, RisingNumbers, SortedLevels, DistinctFiles;
    RecoveredGood(immLog, tables[..immTables]);
    RecoveredGood(log, tables[immTables..]);
    assert tables == tables[..immTables] + tables[immTables..];
    RestoredSorted(db.version, db'.version, tables);
    RecoveredNumbers(db.version, db'.version, tables, db.manifestNextFile, db'.nextFile);
  }

  lemma RestoredSorted(v: Version, v': Version, tables: seq<File>)
    requires SortedLevels(v) && Recovered(v, v', tables) && GoodFiles(tables)
    ensures SortedLevels(v')
  {
    forall m | 0 <= m < NUM_LEVELS ensures GoodFiles(v'.levels[m]) && (m > 0 ==> Disjoint(v'.levels[m])) {
      assert GoodFiles(v.levels[m]) && (m > 0 ==> Disjoint(v.levels[m]));
    }
  }

  lemma StepKeepsTidy(db: DB, step: Step, db': DB)
    requires Tidy(db) && Next(db, step, db') && (step.Flush? ==> Guarded(db, step))
    ensures Tidy(db')
  {
    hide FlushStep, TrivialMoveStep, StartStep, FinishStep, ReopenStep, SortedLevels, InputsThere, Guarded, OpsOf, Stamp;
    match step
    case Flush(table, target) => FlushTidy(db, table, target, db');
    case TrivialMove(c) => TrivialMoveTidy(db, c, db');
    case StartCompaction(c) => StartTidy(db, c, db');
    case FinishCompaction(input, outputs) => FinishTidy(db, input, outputs, db');
    case Reopen(left, tables, immTables) => ReopenTidy(db, left, tables, immTables, db');
    case _ =>
  }

  /** Over every run, whatever user keys the picked inputs split: as long as no flush goes between the survivors of
      a running compaction, the levels above 0 stay sorted and disjoint by internal key. */
  lemma {:induction false} RunKeepsLevelsSorted(states: seq<DB>, steps: seq<Step>, i: nat)
    requires IsRun(states, steps) && i < |states|
    requires forall j :: 0 <= j < |steps| && steps[j].Flush? ==> Guarded(states[j], steps[j])
    ensures Tidy(states[i])
    ensures forall m :: 1 <= m < NUM_LEVELS ==> Disjoint(states[i].version.levels[m])
  {
    hide Next, Guarded;
    if i == 0 {
    } else {
      RunKeepsLevelsSorted(states, steps, i - 1);
      StepKeepsTidy(states[i - 1], steps[i - 1], states[i]);
    }
  }

  // ---- exactly when a flush leaves room ----

  lemma BySmallestIsOrder(f: File, g: File, h: File)
    ensures f.number != g.number ==> BySmallest(f, g) || BySmallest(g, f)
    ensures BySmallest(f, g) && BySmallest(g, h) ==> BySmallest(f, h)
  {
    LessIsStrictTotalOrder(f.smallest, g.smallest, h.smallest);
  }

  lemma {:induction false} InsertBySmallest(rest: seq<File>, f: File) returns (level: seq<File>)
    requires SortedBySmallest(rest) && forall g :: g in rest ==> g.number != f.number
    ensures SortedBySmallest(level) && forall g :: g in level <==> g in rest || g == f
    decreases |rest|
  {
    if rest == [] {
      level := [f];
    } else {
      assert rest == [rest[0]] + rest[1..];
      BySmallestIsOrder(f, rest[0], f);
      if BySmallest(f, rest[0]) {
        level := [f] + rest;
        forall g | g in rest ensures BySmallest(f, g) {
          BySmallestIsOrder(f, rest[0], g);
        }
      } else {
        var more := InsertBySmallest(rest[1..], f);
        level := [rest[0]] + more;
        forall g | g in more ensures BySmallest(rest[0], g) {
        }
      }
    }
  }

  /** Tables with different numbers can be put in the order of a level. */
  lemma {:induction false} LevelExists(files: set<File>) returns (level: seq<File>)
    requires forall f, g :: f in files && g in files && f.number == g.number ==> f == g
    ensures SortedBySmallest(level) && forall f :: f in level <==> f in files
    decreases |files|
  {
    if files == {} {
      level := [];
    } else {
      var f :| f in files;
      var rest := LevelExists(files - {f});
      level := InsertBySmallest(rest, f);
    }
  }

  lemma ReplacementExists(before: seq<File>, gone: seq<File>, come: seq<File>) returns (after: seq<File>)
    requires forall f, g :: f in before + come && g in before + come && f.number == g.number ==> f == g
    ensures Replaced(before, after, gone, come)
  {
    after := LevelExists((set f | f in before && f !in gone) + set f | f in come);
  }

  lemma MoveExists(v: Version, l: nat, c0: seq<File>, c1: seq<File>, o: File) returns (v': Version)
    requires l + 1 < |v.levels| && DistinctFiles(v)
    requires forall m, f :: 0 <= m < |v.levels| && f in v.levels[m] ==> f.number != o.number
    ensures Moved(v, v', l, c0, c1, [o])
  {
    var upper := ReplacementExists(v.levels[l], c0, []);
    var lower := ReplacementExists(v.levels[l + 1], c1, [o]);
    v' := Version(v.levels[l := upper][l + 1 := lower]);
  }

  /** The compaction's one output, if it is not cut at all. */
  lemma SingleOutput(input: seq<Entry>, snap: nat, base: Version, l: nat, number: nat) returns (o: File)
    requires Sorted(input) && Survivors(input, |input|, snap, base, l) != []
    ensures o.number == number && o.entries == Survivors(input, |input|, snap, base, l)
    ensures GoodFiles([o]) && Disjoint([o]) && Flatten([o]) == o.entries
  {
    var s := Survivors(input, |input|, snap, base, l);
    SurvivorsSorted(input, |input|, snap, base, l);
    o := File(number, 0, s[0].key, s[|s| - 1].key, s);
    assert [o][..0] == [] && Flatten([o]) == Flatten([o][..0]) + o.entries;
  }

  lemma NotClearOverlaps(f: File, o: File, es: iset<Entry>)
    requires o.Good() && (forall e :: e in es <==> e in o.entries) && !Clear(f, es)
    ensures !Apart(f, o)
  {
    var low: Entry :| low in es && !Less(f.largest, low.key);
    var high: Entry :| high in es && !Less(high.key, f.smallest);
    FileBounds(o, low);
    FileBounds(o, high);
    LessIsStrictTotalOrder(f.largest, o.smallest, low.key);
    LessIsStrictTotalOrder(o.largest, f.smallest, high.key);
    LessIsStrictTotalOrder(o.smallest, low.key, f.largest);
    LessIsStrictTotalOrder(high.key, o.largest, f.smallest);
  }

  /** Installing one table under the next number. */
  lemma OneTableInstalls(db: DB, input: seq<Entry>, o: File) returns (after: DB)
    requires Numbered(db) && db.job.Some? && db.job.value.level + 1 < |db.version.levels|
    requires IsMerge(input, db.job.value.All()) && o.number == db.nextFile && GoodFiles([o]) && Disjoint([o])
    requires var job := db.job.value; Flatten([o]) == Survivors(input, |input|, job.snapshot, job.base, job.level)
    ensures FinishStep(db, input, [o], after)
  {
    hide IsMerge, Flatten, Survivors;
    var job := db.job.value;
    var v := MoveExists(db.version, job.level, job.in0, job.in1, o);
    after := Logged(db, v, db.nextFile + 1).(job := None);
    hide Moved;
  }

  /** A flush that does go between the survivors: the compaction may put them all in one table, which overlaps it. */
  lemma FlushIntoGap(db: DB, f: File, target: nat, flushed: DB) returns (input: seq<Entry>, outputs: seq<File>, after: DB)
    requires Tidy(db) && db.job.Some? && FlushStep(db, Some(f), target, flushed)
    requires !FlushIsClear(f, target, db.job.value)
    ensures target == db.job.value.level + 1
    ensures FinishStep(flushed, input, outputs, after) && !Disjoint(after.version.levels[target])
  {
    hide Clear, TableOf, FlushTarget, RestClear, Survivors, Surviving, IsMerge;
    var job := db.job.value;
    var e := SomethingSurvives(f, Surviving(job.All(), job.snapshot, job.base, job.level));
    input := MergeOf(e, job);
    SurvivorsSurvive(job.All(), input, job.snapshot, job.base, job.level);
    var o := SingleOutput(input, job.snapshot, job.base, job.level, flushed.nextFile);
    NotClearOverlaps(f, o, Surviving(job.All(), job.snapshot, job.base, job.level));
    FlushNumbered(db, f, target, flushed);
    outputs := [o];
    after := OneTableInstalls(flushed, input, o);
    assert f in flushed.version.levels[target] && f !in job.in1;
    BothThere(flushed, f, o, input, after);
  }

  lemma BothThere(db: DB, f: File, o: File, input: seq<Entry>, after: DB)
    requires FinishStep(db, input, [o], after) && !Apart(f, o) && f != o
    requires f in db.version.levels[db.job.value.level + 1] && f !in db.job.value.in1
    ensures !Disjoint(after.version.levels[db.job.value.level + 1])
  {
    hide IsMerge, Flatten, Survivors, FreshNumbers;
    assert f in after.version.levels[db.job.value.level + 1] && o in after.version.levels[db.job.value.level + 1];
    DisjointIsApart(after.version.levels[db.job.value.level + 1]);
  }

  lemma SomethingSurvives(f: File, es: iset<Entry>) returns (e: Entry)
    requires !Clear(f, es)
    ensures e in es
  {
    e :| e in es;
  }

  lemma MergeOf(e: Entry, job: Job) returns (input: seq<Entry>)
    requires e in Surviving(job.All(), job.snapshot, job.base, job.level)
    ensures IsMerge(input, job.All()) && Sorted(input) && Survivors(input, |input|, job.snapshot, job.base, job.level) != []
  {
    input :| IsMerge(input, job.All()) && e in Survivors(input, |input|, job.snapshot, job.base, job.level);
  }

  ghost predicate LevelInOrder(v: Version, m: nat) {
    m < |v.levels| && Disjoint(v.levels[m])
  }

  lemma FinishLevel(db: DB, input: seq<Entry>, outputs: seq<File>, after: DB)
    requires Tidy(db) && FinishStep(db, input, outputs, after)
    ensures db.job.Some? && LevelInOrder(after.version, db.job.value.level + 1)
  {
    FinishTidy(db, input, outputs, after);
  }

  /** After a flush, every way the running compaction can be cut and installed leaves its output level in order if
      and only if the table did not go to that level or lies to one side of all that survives of the inputs. */
  lemma FlushLeavesRoomIff(db: DB, f: File, target: nat, flushed: DB)
    requires Tidy(db) && db.job.Some? && FlushStep(db, Some(f), target, flushed)
    ensures FlushIsClear(f, target, db.job.value) <==>
      forall input, outputs, after :: FinishStep(flushed, input, outputs, after) ==>
        LevelInOrder(after.version, db.job.value.level + 1)
  {
    hide FinishStep, FlushIsClear, InputsThere, Numbered;
    assert flushed.job == db.job;
    if FlushIsClear(f, target, db.job.value) {
      FlushTidy(db, Some(f), target, flushed);
      forall input, outputs, after | FinishStep(flushed, input, outputs, after)
        ensures LevelInOrder(after.version, db.job.value.level + 1)
      {
        FinishLevel(flushed, input, outputs, after);
      }
    } else {
      var input, outputs, after := FlushIntoGap(db, f, target, flushed);
    }
  }

  // ---- exactly when a compaction keeps the order of the levels ----

  ghost predicate JobStaysNewer(v: Version, job: Job) {
    StaysNewer(v, job.level, job.in0, job.in1, job.snapshot, job.base)
  }

  lemma StaysNewerKeepsOrder(db: DB, input: seq<Entry>, outputs: seq<File>, after: DB)
    requires Tidy(db) && LevelsOrdered(db.version) && FinishStep(db, input, outputs, after)
    requires JobStaysNewer(db.version, db.job.value)
    ensures LevelsOrdered(after.version)
  {
    hide LevelsOrdered, Surviving, NewerThan;
    var job := db.job.value;
    OutputsFromInputs(job.All(), outputs, input, job.snapshot, job.base, job.level);
    forall e | Holds(outputs, e) ensures Holds(job.in0, e) || Holds(job.in1, e) {
      HoldsConcat(job.in0, job.in1, e);
    }
    StaysNewerThanOutputs(db.version, job.level, job.in0, job.in1, outputs, input, job.snapshot, job.base);
    MovedKeepsOrder(db.version, after.version, job.level, job.in0, job.in1, outputs);
  }

  lemma OlderStays(db: DB, input: seq<Entry>, outputs: seq<File>, after: DB, x: Entry, y: Entry)
    requires FinishStep(db, input, outputs, after)
    requires var job := db.job.value;
             && y in Left(db.version.levels[job.level], job.in0)
             && x in Surviving(job.All(), job.snapshot, job.base, job.level)
    requires x.key.user == y.key.user && !(x.key.sequence < y.key.sequence)
    ensures !LevelsOrdered(after.version)
  {
    var job := db.job.value;
    SurvivorsSurvive(job.All(), input, job.snapshot, job.base, job.level);
    FlattenHolds(outputs, x);
    var f :| f in outputs && x in f.entries;
    var g :| g in db.version.levels[job.level] && g !in job.in0 && y in g.entries;
    assert g in after.version.levels[job.level] && f in after.version.levels[job.level + 1];
    assert At(after.version, job.level, y) && At(after.version, job.level + 1, x);
  }

  /** Every way a compaction can finish keeps newer entries above older ones if and only if nothing that stays in the
      level it reads from is older than a survivor of its user key. */
  lemma CompactionKeepsOrderIff(db: DB)
    requires Tidy(db) && LevelsOrdered(db.version) && db.job.Some?
    ensures JobStaysNewer(db.version, db.job.value) <==>
      forall input, outputs, after :: FinishStep(db, input, outputs, after) ==> LevelsOrdered(after.version)
  {
    hide FinishStep, LevelsOrdered, Surviving, SortedLevels, Numbered, RestClear;
    var job := db.job.value;
    if JobStaysNewer(db.version, job) {
      forall input, outputs, after | FinishStep(db, input, outputs, after) ensures LevelsOrdered(after.version) {
        JobOfFinish(db, input, outputs, after);
        StaysNewerKeepsOrder(db, input, outputs, after);
      }
    } else {
      var y, x :| y in Left(db.version.levels[job.level], job.in0)
                  && x in Surviving(job.All(), job.snapshot, job.base, job.level)
                  && y.key.user == x.key.user && !(x.key.sequence < y.key.sequence);
      var input := MergeOf(x, job);
      var o := SingleOutput(input, job.snapshot, job.base, job.level, db.nextFile);
      var after := OneTableInstalls(db, input, o);
      OlderStays(db, input, [o], after, x, y);
    }
  }

  lemma JobOfFinish(db: DB, input: seq<Entry>, outputs: seq<File>, after: DB)
    requires FinishStep(db, input, outputs, after)
    ensures db.job.Some?
  {
  }
}
