/** Reads over whole runs of the database. */
module Runs {
  import opened Wrappers
  import opened ByteStrings
  import opened InternalKeys
  import opened Versions
  import opened Picking
  import opened CompactionWork
  import opened Edits
  import opened CompactionReads
  import opened Boundaries
  import opened Database
  import opened Invariant
  import opened Recovery

  ghost predicate IsRun(states: seq<DB>, steps: seq<Step>) {
    && |states| == |steps| + 1 && Init(states[0])
    && forall i :: 0 <= i < |steps| ==> Next(states[i], steps[i], states[i + 1])
  }

  lemma InitIsEmpty(db: DB)
    requires Init(db)
    ensures Contents(db.version) == db.Upper() == db.Stored() == db.Written() == iset{}
  {
    assert LogContents([]) == iset{};
    forall l: nat, e ensures !At(db.version, l, e) {
    }
  }

  lemma InitKeepsInv(db: DB)
    requires Init(db)
    ensures Inv(db) && KeysApart(db) && Unsplit(db)
  {
    hide Layered, Sequenced, GoodVersion, Numbered, KeysApart;
    InitIsEmpty(db);
    InitLayered(db);
    InitVersion(db);
    forall k, s: nat ensures View(db.Stored(), k, s) == View(db.Written(), k, s) {
    }
  }

  lemma InitVersion(db: DB)
    requires Init(db)
    ensures GoodVersion(db.version) && Numbered(db) && KeysApart(db)
  {
    forall l: nat, e ensures !At(db.version, l, e) {
    }
  }

  lemma InitLayered(db: DB)
    requires Init(db)
    ensures Layered(db) && Sequenced(db)
  {
    InitIsEmpty(db);
  }

  lemma StepKeepsInv(db: DB, step: Step, db': DB)
    requires Inv(db) && Next(db, step, db') && Guarded(db, step)
    ensures Inv(db')
  {
    hide Inv, OpsOf, FlushStep, TrivialMoveStep, StartStep, FinishStep, ReopenStep;
    match step
    case EndWrite => EndWriteKeepsInv(db, db');
    case SwitchMemtable => SwitchKeepsInv(db, db');
    case FailWrite(records) => FailWriteKeepsInv(db, records, db');
    case TakeSnapshot => SnapshotStepsKeepInv(db, step, db');
    case ReleaseSnapshot(_) => SnapshotStepsKeepInv(db, step, db');
    case Flush(table, target) => FlushKeepsInv(db, table, target, db');
    case TrivialMove(c) => TrivialMoveKeepsInv(db, c, db');
    case StartCompaction(c) => StartKeepsInv(db, c, db');
    case FinishCompaction(input, outputs) => FinishKeepsInv(db, input, outputs, db');
    case Reopen(left, tables, immTables) => ReopenKeepsInv(db, left, tables, immTables, db');
    case BeginWrite(records) => BeginWriteKeepsInv(db, records, db');
    case AbandonCompaction => AbandonKeepsInv(db, db');
  }

  /** Over every run whose steps are guarded, the levels stay ordered and every read at a live
      snapshot or at the present returns the newest acknowledged write it may see. */
  lemma {:induction false} RunReadsHistory(states: seq<DB>, steps: seq<Step>, i: nat)
    requires IsRun(states, steps) && i < |states|
    requires forall j :: 0 <= j < |steps| ==> Guarded(states[j], steps[j])
    ensures Inv(states[i])
    ensures forall k, s: nat :: Readable(states[i], s) ==>
      View(states[i].Stored(), k, s) == View(states[i].Written(), k, s)
  {
    if i == 0 {
      InitKeepsInv(states[0]);
    } else {
      RunReadsHistory(states, steps, i - 1);
      StepKeepsInv(states[i - 1], steps[i - 1], states[i]);
    }
  }

  // ---- runs in which no picked input splits a user key ----

  /** What can be read off the tables next to the picked ones: no user key is split between a picked table and one left
      behind it in its level. A flush is guarded as before. */
  ghost predicate Careful(db: DB, step: Step) {
    match step
    case TrivialMove(c) => Guarded(db, step)
    case StartCompaction(c) =>
      && (c.level > 0 && c.level < |db.version.levels| ==> NoBoundarySplit(db.version.levels[c.level], c.in0))
      && (c.level + 1 < |db.version.levels| ==> NoBoundarySplit(db.version.levels[c.level + 1], c.in1))
    case Flush(table, target) => Guarded(db, step)
    case _ => true
  }

  /** Nothing beside the inputs of a running compaction is older than they are. */
  ghost predicate Unsplit(db: DB) {
    db.job.Some? ==> JobFits(db.version, db.job.value.level, db.job.value.in0, db.job.value.in1)
  }

  lemma ReopenDropsJob(db: DB, left: Bytes, tables: seq<File>, immTables: nat, db': DB)
    requires ReopenStep(db, left, tables, immTables, db')
    ensures db'.job == None
  {
    hide CrashLeaves, ReplayedFrom, RecoveredTables, RecoveredSequence, RisingNumbers, Replaced;
  }

  /** Only starting a compaction brings a new one, and only a flush changes the tables under a running one. */
  lemma StepKeepsJob(db: DB, step: Step, db': DB)
    requires Next(db, step, db') && !step.StartCompaction?
    ensures db'.job == None || (db'.job == db.job && (!step.Flush? ==> db'.version == db.version))
  {
    hide ReopenStep, Moved, Added, IsMerge, FlushTarget, TableOf, OpsOf, Stamp, Picked, FreshNumbers;
    match step
    case Reopen(left, tables, immTables) => ReopenDropsJob(db, left, tables, immTables, db');
    case _ =>
  }

  lemma PickedLevel(v: Version, c: Inputs)
    requires Picked(v, c.level, c.in0, c.in1)
    ensures c.level + 1 < |v.levels|
  {
  }

  lemma StartUnsplit(db: DB, c: Inputs, db': DB)
    requires GoodVersion(db.version) && Sequenced(db) && StartStep(db, c, db') && Careful(db, StartCompaction(c))
    ensures Guarded(db, StartCompaction(c)) && Unsplit(db')
  {
    assert LevelsOrdered(db.version);
    hide GoodVersion, LevelsOrdered, Sequenced, Surviving, JobFits, Picked, StaysNewer, NoBoundarySplit;
    PickedLevel(db.version, c);
    StoredIsDistinct(db);
    PickedFits(db.version, c.level, c.in0, c.in1);
    FitsStaysNewer(db.version, c.level, c.in0, c.in1, SmallestSnapshot(db), db.version);
  }

  lemma FlushUnsplit(db: DB, table: Option<File>, target: nat, db': DB)
    requires Layered(db) && Unsplit(db) && FlushStep(db, table, target, db')
    ensures Unsplit(db')
  {
    if table.Some? && db.job.Some? {
      FlushAbove(db, table.value, target, db');
      FlushKeepsFits(db.version, db'.version, table.value, target, db.job.value.level, db.job.value.in0, db.job.value.in1);
    }
  }

  lemma CarefulStep(db: DB, step: Step, db': DB)
    requires Inv(db) && Unsplit(db) && Next(db, step, db') && Careful(db, step)
    ensures Guarded(db, step) && Unsplit(db')
  {
    hide GoodVersion, Sequenced, Layered, JobRight, ReadsRight, Numbered, Snapshots, Logs, JobFits, NothingUncovered;
    if step.StartCompaction? {
      StartUnsplit(db, step.inputs, db');
    } else if step.Flush? {
      FlushUnsplit(db, step.table, step.target, db');
    } else {
      StepKeepsJob(db, step, db');
      hide Next;
      if step.FinishCompaction? && db.job.Some? {
        FinishIsGuarded(db);
      }
    }
  }

  lemma FinishIsGuarded(db: DB)
    requires GoodVersion(db.version) && JobRight(db) && Unsplit(db) && db.job.Some?
    ensures UncoversNothing(db, db.job.value)
  {
    hide JobFits, StaysNewer, RestClear, DeeperKnown, NothingUncovered;
    var job := db.job.value;
    forall s: nat | Readable(db, s)
      ensures NothingUncovered(db.Upper(), db.version, job.level, job.in0, job.in1, job.snapshot, job.base, s)
    {
      FitsUncoversNothing(db.Upper(), db.version, job.level, job.in0, job.in1, job.snapshot, job.base, s);
    }
  }

  /** Over every run whose picked inputs split no user key, every step is guarded. */
  lemma {:induction false} CarefulRun(states: seq<DB>, steps: seq<Step>, i: nat)
    requires IsRun(states, steps) && i < |states|
    requires forall j :: 0 <= j < |steps| ==> Careful(states[j], steps[j])
    ensures Inv(states[i]) && Unsplit(states[i])
    ensures i < |steps| ==> Guarded(states[i], steps[i])
    ensures forall k, s: nat :: Readable(states[i], s) ==>
      View(states[i].Stored(), k, s) == View(states[i].Written(), k, s)
  {
    hide Careful, Next, Guarded, Unsplit;
    if i == 0 {
      InitKeepsInv(states[0]);
    } else {
      CarefulRun(states, steps, i - 1);
      hide Inv;
      StepKeepsInv(states[i - 1], steps[i - 1], states[i]);
      CarefulStep(states[i - 1], steps[i - 1], states[i]);
    }
    if i < |steps| {
      CarefulStep(states[i], steps[i], states[i + 1]);
    }
    ReadsOfInv(states[i]);
  }

  lemma ReadsOfInv(db: DB)
    requires Inv(db)
    ensures forall k, s: nat :: Readable(db, s) ==> View(db.Stored(), k, s) == View(db.Written(), k, s)
  {
  }

  // ---- runs in which no compaction starts under a live snapshot ----

  ghost predicate SnapshotFree(db: DB, step: Step) {
    step.StartCompaction? ==> db.snapshots == []
  }

  /** By user key too, the tables that a compaction leaves in the level it writes to do not lie between its
      survivors. */
  ghost predicate RestUserClear(v: Version, job: Job) {
    job.level + 1 < |v.levels| ==>
      forall g :: g in v.levels[job.level + 1] && g !in job.in1
        ==> UserClear(g, Surviving(job.All(), job.snapshot, job.base, job.level))
  }

  /** A compaction's snapshot bound covers its inputs, so it keeps one entry for each user key. */
  ghost predicate CoversInputs(job: Job) {
    forall e :: Holds(job.All(), e) ==> e.key.sequence <= job.snapshot
  }

  /** Levels are disjoint by user key, and a running compaction will keep them so. */
  ghost predicate KeysApart(db: DB) {
    && UserDisjointLevels(db.version)
    && (db.job.Some? ==> CoversInputs(db.job.value) && RestUserClear(db.version, db.job.value))
  }

  lemma PickedHasNoSplit(v: Version, c: Inputs)
    requires GoodVersion(v) && UserDisjointLevels(v) && Picked(v, c.level, c.in0, c.in1)
    ensures NoBoundarySplit(v.levels[c.level + 1], c.in1)
    ensures c.level > 0 ==> NoBoundarySplit(v.levels[c.level], c.in0)
  {
    assert GoodFiles(v.levels[c.level]) && GoodFiles(v.levels[c.level + 1]);
    UserDisjointHasNoSplit(v.levels[c.level + 1], c.in1);
    if c.level > 0 {
      UserDisjointHasNoSplit(v.levels[c.level], c.in0);
    }
  }

  lemma MoveIsGuarded(db: DB, c: Inputs, db': DB)
    requires GoodVersion(db.version) && UserDisjointLevels(db.version) && TrivialMoveStep(db, c, db')
    ensures Careful(db, TrivialMove(c))
  {
    PickedHasNoSplit(db.version, c);
  }

  lemma StartIsGuarded(db: DB, c: Inputs, db': DB)
    requires GoodVersion(db.version) && UserDisjointLevels(db.version) && StartStep(db, c, db')
    ensures Careful(db, StartCompaction(c))
  {
    PickedHasNoSplit(db.version, c);
  }

  lemma KeysApartIsCareful(db: DB, step: Step, db': DB)
    requires GoodVersion(db.version) && KeysApart(db) && Next(db, step, db')
    requires step.Flush? ==> Guarded(db, step)
    ensures Careful(db, step)
  {
    hide KeysApart, GoodVersion;
    match step
    case TrivialMove(c) => KeysApartLevels(db); MoveIsGuarded(db, c, db');
    case StartCompaction(c) => KeysApartLevels(db); StartIsGuarded(db, c, db');
    case _ =>
  }

  lemma KeysApartLevels(db: DB)
    requires KeysApart(db)
    ensures UserDisjointLevels(db.version)
  {
  }

  lemma FlushKeepsUserDisjoint(v: Version, v': Version, target: nat, f: File)
    requires GoodVersion(v) && UserDisjointLevels(v) && f.Good() && FlushTarget(v, f, target) && Added(v, v', target, f)
    ensures UserDisjointLevels(v')
  {
    AddedKeepsUserDisjoint(v, v', target, f);
  }

  lemma FlushKeepsUserClear(v: Version, v': Version, target: nat, f: File, job: Job)
    requires GoodVersion(v) && InputsIn(v, job.level, job.in0, job.in1) && RestUserClear(v, job)
    requires FlushIsClear(f, target, job)
    requires f.Good() && FlushTarget(v, f, target) && Added(v, v', target, f)
    ensures RestUserClear(v', job)
  {
    hide UserClear, Clear, GoodVersion, FlushTarget, Surviving;
    if target == job.level + 1 {
      FlushApart(v, f, target, job.level, job.in0, job.in1);
      ClearIsUserClear(f, job.All(), job.snapshot, job.base, job.level);
    }
  }

  lemma JobInputs(db: DB)
    requires JobRight(db) && db.job.Some?
    ensures InputsIn(db.version, db.job.value.level, db.job.value.in0, db.job.value.in1)
  {
  }

  lemma FlushKeepsKeysApart(db: DB, table: Option<File>, target: nat, db': DB)
    requires GoodVersion(db.version) && JobRight(db) && KeysApart(db) && FlushStep(db, table, target, db')
    requires Guarded(db, Flush(table, target))
    ensures KeysApart(db')
  {
    hide GoodVersion, JobRight, RestUserClear, CoversInputs, UserDisjointLevels, FlushTarget, Added, FlushIsClear, InputsIn;
    if table.Some? {
      FlushKeepsUserDisjoint(db.version, db'.version, target, table.value);
      if db.job.Some? {
        JobInputs(db);
        FlushKeepsUserClear(db.version, db'.version, target, table.value, db.job.value);
      }
    }
  }

  lemma MoveKeepsUserDisjoint(v: Version, v': Version, l: nat, c0: seq<File>)
    requires GoodVersion(v) && UserDisjointLevels(v) && Picked(v, l, c0, []) && Moved(v, v', l, c0, [], c0) && |c0| == 1
    ensures UserDisjointLevels(v')
  {
    var next := v.levels[l + 1];
    assert GoodFiles(v.levels[l]) && GoodFiles(next) && Disjoint(next) && GoodFiles(c0);
    forall g, h | g in next && h in c0 ensures UserApart(g, h) {
      NextLevelOutside(next, c0, [], g);
    }
    MovedKeepsUserDisjoint(v, v', l, c0, [], c0);
  }

  lemma TrivialMoveKeepsKeysApart(db: DB, c: Inputs, db': DB)
    requires GoodVersion(db.version) && KeysApart(db) && TrivialMoveStep(db, c, db')
    ensures KeysApart(db')
  {
    assert c.in1 == [];
    MoveKeepsUserDisjoint(db.version, db'.version, c.level, c.in0);
  }

  /** Freshly picked inputs are covered by the present, and the next level's other files lie clear of them. */
  lemma PickedInputsApart(v: Version, job: Job)
    requires GoodVersion(v) && UserDisjointLevels(v) && Picked(v, job.level, job.in0, job.in1)
    requires UpTo(Contents(v), job.snapshot)
    ensures CoversInputs(job) && RestUserClear(v, job)
  {
    var l := job.level;
    forall e | Holds(job.All(), e) ensures e.key.sequence <= job.snapshot {
      HoldsConcat(job.in0, job.in1, e);
      assert At(v, l, e) || At(v, l + 1, e);
      assert e in Contents(v);
    }
    assert GoodFiles(v.levels[l]) && GoodFiles(v.levels[l + 1]) && Disjoint(v.levels[l + 1]) && GoodFiles(job.in0);
    forall g | g in v.levels[l + 1] && g !in job.in1
      ensures UserClear(g, Surviving(job.All(), job.snapshot, job.base, l))
    {
      NextLevelOutside(v.levels[l + 1], job.in0, job.in1, g);
      OutsideIsClear(g, job.All(), job.snapshot, job.base, l);
    }
  }

  lemma StartKeepsKeysApart(db: DB, c: Inputs, db': DB)
    requires GoodVersion(db.version) && UpTo(Contents(db.version), db.lastSequence)
    requires KeysApart(db) && StartStep(db, c, db') && db.snapshots == []
    ensures KeysApart(db')
  {
    PickedInputsApart(db.version, db'.job.value);
  }

  lemma InstallKeepsUserDisjoint(v: Version, v': Version, job: Job, input: seq<Entry>, outputs: seq<File>)
    requires GoodVersion(v) && InputsIn(v, job.level, job.in0, job.in1)
    requires UserDisjointLevels(v) && CoversInputs(job) && RestUserClear(v, job)
    requires IsMerge(input, job.All()) && Flatten(outputs) == Survivors(input, |input|, job.snapshot, job.base, job.level)
    requires GoodFiles(outputs) && Moved(v, v', job.level, job.in0, job.in1, outputs)
    ensures UserDisjointLevels(v')
  {
    GoodInputs(v, job.level, job.in0, job.in1);
    OutputsUserApart(v.levels[job.level + 1], job.All(), job.in1, outputs, input, job.snapshot, job.base, job.level);
    MovedKeepsUserDisjoint(v, v', job.level, job.in0, job.in1, outputs);
  }

  lemma FinishKeepsKeysApart(db: DB, input: seq<Entry>, outputs: seq<File>, db': DB)
    requires GoodVersion(db.version) && JobRight(db) && KeysApart(db) && FinishStep(db, input, outputs, db')
    ensures KeysApart(db')
  {
    JobInputs(db);
    InstallKeepsUserDisjoint(db.version, db'.version, db.job.value, input, outputs);
  }

  lemma StepKeepsKeysApart(db: DB, step: Step, db': DB)
    requires Inv(db) && KeysApart(db) && Next(db, step, db') && SnapshotFree(db, step)
    requires step.Flush? ==> Guarded(db, step)
    ensures KeysApart(db')
  {
    hide GoodVersion, FlushStep, TrivialMoveStep, StartStep, FinishStep;
    match step
    case Flush(table, target) => FlushKeepsKeysApart(db, table, target, db');
    case TrivialMove(c) => TrivialMoveKeepsKeysApart(db, c, db');
    case StartCompaction(c) =>
      StoredIsDistinct(db);
      StartKeepsKeysApart(db, c, db');
    case FinishCompaction(input, outputs) => FinishKeepsKeysApart(db, input, outputs, db');
    case _ =>
  }

  /** One step of a run without live snapshots. */
  lemma SnapshotFreeStep(db: DB, step: Step, db': DB)
    requires Inv(db) && KeysApart(db) && Unsplit(db) && Next(db, step, db') && SnapshotFree(db, step)
    requires step.Flush? ==> Guarded(db, step)
    ensures Guarded(db, step) && Inv(db') && KeysApart(db') && Unsplit(db')
  {
    assert GoodVersion(db.version);
    hide Inv, KeysApart, Unsplit, Careful, Next, Guarded;
    KeysApartIsCareful(db, step, db');
    CarefulStep(db, step, db');
    StepKeepsInv(db, step, db');
    StepKeepsKeysApart(db, step, db');
  }

  /** When no snapshot is live at the start of any compaction, levels above 0 stay disjoint by user key, so no picked
      input ever splits one. Reads are then right on flushes that do not go between what survives of a compaction. */
  lemma {:induction false} SnapshotFreeRun(states: seq<DB>, steps: seq<Step>, i: nat)
    requires IsRun(states, steps) && i < |states|
    requires forall j :: 0 <= j < |steps| ==> SnapshotFree(states[j], steps[j])
    requires forall j :: 0 <= j < |steps| && steps[j].Flush? ==> Guarded(states[j], steps[j])
    ensures Inv(states[i]) && KeysApart(states[i]) && Unsplit(states[i])
    ensures i < |steps| ==> Guarded(states[i], steps[i])
    ensures forall k, s: nat :: Readable(states[i], s) ==>
      View(states[i].Stored(), k, s) == View(states[i].Written(), k, s)
  {
    hide KeysApart, Unsplit, SnapshotFree, Guarded, Next, Init;
    if i == 0 {
      InitKeepsInv(states[0]);
    } else {
      SnapshotFreeRun(states, steps, i - 1);
      SnapshotFreeStep(states[i - 1], steps[i - 1], states[i]);
    }
    if i < |steps| {
      SnapshotFreeStep(states[i], steps[i], states[i + 1]);
    }
    ReadsOfInv(states[i]);
  }

  // ---- runs in which every compaction is picked by PickCompaction ----

  /** PickCompaction leaves no gap between its inputs; a manual compaction may. */
  ghost predicate Automatic(step: Step) {
    step.StartCompaction? ==> Gapless(step.inputs.All())
  }

  ghost predicate GaplessJob(db: DB) {
    db.job.Some? ==> Gapless(db.job.value.All())
  }

  lemma StepKeepsGapless(db: DB, step: Step, db': DB)
    requires GaplessJob(db) && Next(db, step, db') && Automatic(step)
    ensures GaplessJob(db')
  {
    if step.StartCompaction? {
      hide Gapless, Picked;
    } else {
      StepKeepsJob(db, step, db');
      hide Gapless, Next;
    }
  }

  lemma GaplessJobGuards(db: DB, step: Step, db': DB)
    requires Inv(db) && GaplessJob(db) && Next(db, step, db') && step.Flush?
    ensures Guarded(db, step)
  {
    hide GoodVersion, Gapless, FlushTarget, FlushIsClear;
    if step.table.Some? && db.job.Some? {
      JobInputs(db);
      GaplessIsClear(db.version, step.table.value, step.target, db.job.value);
    }
  }

  /** Automatic compactions leave no place for a flush to go between, so only the split boundaries are left to rule
      out. */
  lemma {:induction false} AutomaticRun(states: seq<DB>, steps: seq<Step>, i: nat)
    requires IsRun(states, steps) && i < |states|
    requires forall j :: 0 <= j < |steps| ==> Automatic(steps[j]) && (steps[j].Flush? || Guarded(states[j], steps[j]))
    ensures Inv(states[i]) && GaplessJob(states[i])
    ensures i < |steps| ==> Guarded(states[i], steps[i])
    ensures forall k, s: nat :: Readable(states[i], s) ==>
      View(states[i].Stored(), k, s) == View(states[i].Written(), k, s)
  {
    hide Guarded, Next;
    if i == 0 {
      InitKeepsInv(states[0]);
    } else {
      AutomaticRun(states, steps, i - 1);
      hide Inv, GaplessJob, Automatic;
      StepKeepsInv(states[i - 1], steps[i - 1], states[i]);
      StepKeepsGapless(states[i - 1], steps[i - 1], states[i]);
    }
    if i < |steps| && steps[i].Flush? {
      GaplessJobGuards(states[i], steps[i], states[i + 1]);
    }
    ReadsOfInv(states[i]);
  }

  /** With automatic compactions only, and no snapshot live when one starts, reads are right without any hypothesis
      on the tables. */
  lemma {:induction false} AutomaticSnapshotFreeRun(states: seq<DB>, steps: seq<Step>, i: nat)
    requires IsRun(states, steps) && i < |states|
    requires forall j :: 0 <= j < |steps| ==> Automatic(steps[j]) && SnapshotFree(states[j], steps[j])
    ensures Inv(states[i]) && KeysApart(states[i]) && Unsplit(states[i]) && GaplessJob(states[i])
    ensures forall k, s: nat :: Readable(states[i], s) ==>
      View(states[i].Stored(), k, s) == View(states[i].Written(), k, s)
  {
    hide KeysApart, Unsplit, SnapshotFree, Guarded, Next;
    if i == 0 {
      InitKeepsInv(states[0]);
    } else {
      AutomaticSnapshotFreeRun(states, steps, i - 1);
      hide Inv, GaplessJob, Automatic;
      if steps[i - 1].Flush? {
        GaplessJobGuards(states[i - 1], steps[i - 1], states[i]);
      }
      SnapshotFreeStep(states[i - 1], steps[i - 1], states[i]);
      StepKeepsGapless(states[i - 1], steps[i - 1], states[i]);
    }
    ReadsOfInv(states[i]);
  }

  // ---- reading ----

  /** The sorted entries of a memtable. */
  ghost predicate MemtableOf(table: seq<Entry>, log: seq<Batch>) {
    Sorted(table) && forall e :: e in table <==> InLog(log, e)
  }

  /** DBImpl::Get: the memtable, then the immutable memtable, then the version. `mem` and `imm` are the
      memtables' contents. */
  method Get(db: DB, mem: seq<Entry>, imm: seq<Entry>, k: UserKey, s: SequenceNumber) returns (r: Option<Bytes>)
    requires Inv(db) && MemtableOf(mem, db.mem) && MemtableOf(imm, db.ImmLog())
    ensures r == View(db.Stored(), k, s)
    ensures Readable(db, s) ==> r == View(db.Written(), k, s)
  {
    AscendingParts(db.ImmLog(), db.mem);
    var found := SearchTable(mem, k, s);
    if found.None? {
      found := SearchTable(imm, k, s);
      if found.None? {
        var fromTables, _, _ := Versions.Get(db.version, k, s);
        found := fromTables;
      }
    }
    FirstLayerWins(db, mem, imm, k, s, found);
    StoredIsDistinct(db);
    ResolvedView(db.Stored(), k, s, found);
    r := if found.Some? then Meaning(found.value) else None;
  }

  lemma FirstLayerWins(db: DB, mem: seq<Entry>, imm: seq<Entry>, k: UserKey, s: SequenceNumber, r: Option<Entry>)
    requires Layered(db) && Above(LogContents(db.mem), LogContents(db.ImmLog()))
    requires MemtableOf(mem, db.mem) && MemtableOf(imm, db.ImmLog())
    requires var inMem, inImm := SearchTable(mem, k, s), SearchTable(imm, k, s);
             if inMem.Some? then r == inMem else if inImm.Some? then r == inImm else Resolves(Contents(db.version), k, s, r)
    ensures Resolves(db.Stored(), k, s, r)
  {
    assert Elements(mem) == LogContents(db.mem) && Elements(imm) == LogContents(db.ImmLog());
    var a, b, c := LogContents(db.mem), LogContents(db.ImmLog()), Contents(db.version);
    forall e | Visible(db.Stored(), k, s, e) ensures Visible(a, k, s, e) || Visible(b, k, s, e) || Visible(c, k, s, e) {
    }
    if r.Some? {
      forall e | Visible(db.Stored(), k, s, e) ensures e.key.sequence <= r.value.key.sequence {
      }
    }
  }

  /** A live snapshot always reads the same: no step changes what is visible at it. */
  lemma SnapshotIsStable(db: DB, step: Step, db': DB, k: UserKey, s: nat)
    requires Inv(db) && Next(db, step, db') && Guarded(db, step)
    requires s in db.snapshots && s in db'.snapshots
    ensures View(db'.Stored(), k, s) == View(db.Stored(), k, s)
  {
    StepKeepsInv(db, step, db');
    assert Readable(db, s) && Readable(db', s);
    WrittenIsStable(db, step, db', k, s);
  }

  lemma WrittenIsStable(db: DB, step: Step, db': DB, k: UserKey, s: nat)
    requires Sequenced(db) && Next(db, step, db') && s <= db.lastSequence && !step.Reopen?
    ensures View(db'.Written(), k, s) == View(db.Written(), k, s)
  {
    if step.EndWrite? {
      EndWriteContents(db, db');
      EndWriteSequenced(db, db');
      NewerEntriesAreInvisible(db.Written(), (iset e | e in db.inflight.value), k, s);
    }
  }
}
