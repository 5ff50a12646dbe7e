/** The hypotheses on the steps of a run are exact: a step keeps the invariant if and only if it is guarded
    (db/db_impl.cc, db/version_set.cc). */
module Exactness {
  import opened Wrappers
  import opened InternalKeys
  import opened Versions
  import opened Picking
  import opened Edits
  import opened CompactionReads
  import opened Boundaries
  import opened Database
  import opened Invariant
  import opened Runs

  /** A move after which the levels are still ordered has split no boundary. */
  lemma GoodMoveIsGuarded(db: DB, c: Inputs, db': DB)
    requires GoodVersion(db.version) && Sequenced(db) && TrivialMoveStep(db, c, db') && GoodVersion(db'.version)
    requires Contents(db'.version) == Contents(db.version)
    ensures Guarded(db, TrivialMove(c))
  {
    StoredIsDistinct(db);
    var f := c.in0[0];
    assert c.in0 == [f] && c.in1 == [];
    if c.level > 0 {
      hide GoodVersion, Picked, Moved, DistinctSequences, FirstHit, NoBoundarySplit;
      forall k, s: nat, r ensures FirstHit(db.version, k, s, r) <==> FirstHit(db'.version, k, s, r) {
        GoodMovesKeepReads(db.version, db'.version, k, s, r);
      }
      TrivialMoveKeepsReadsIff(db.version, db'.version, c.level, f);
    }
  }

  /** A flush after which the inputs of the running compaction are still clear of what lies beside them. */
  lemma ClearFlushIsGuarded(db: DB, f: File, target: nat, db': DB)
    requires Numbered(db) && FlushStep(db, Some(f), target, db') && db.job.Some? && |db.version.levels| == NUM_LEVELS
    requires JobRight(db) && JobRight(db')
    ensures FlushIsClear(f, target, db.job.value)
  {
    hide TableOf, FlushTarget, Surviving, Clear, StaysNewer, DeeperKnown;
    var job := db.job.value;
    assert db'.job == db.job && f in db'.version.levels[target];
    assert f !in job.in1;
  }

  /** A compaction after which all reads are right has uncovered nothing. */
  lemma RightFinishIsGuarded(db: DB, input: seq<Entry>, outputs: seq<File>, db': DB)
    requires GoodVersion(db.version) && JobRight(db) && FinishStep(db, input, outputs, db')
    requires Layered(db) && Sequenced(db) && ReadsRight(db) && ReadsRight(db')
    ensures UncoversNothing(db, db.job.value)
  {
    hide GoodVersion, Layered, Sequenced, StaysNewer, RestClear, DeeperKnown, NothingUncovered, CompactedUnder, View;
    var job := db.job.value;
    FinishIsCompaction(db, input, outputs, db');
    SameWritten(db, input, outputs, db');
    hide FinishStep;
    forall s: nat | Readable(db, s)
      ensures NothingUncovered(db.Upper(), db.version, job.level, job.in0, job.in1, job.snapshot, job.base, s)
    {
      assert Readable(db', s) && job.snapshot <= s;
      forall k ensures View(db.Upper() + Contents(db'.version), k, s) == View(db.Upper() + Contents(db.version), k, s) {
        assert View(db'.Stored(), k, s) == View(db'.Written(), k, s);
      }
      CompactionKeepsViewsAtIff(db.Upper(), db.version, db'.version, job.level, job.in0, job.in1, outputs, input,
                                job.snapshot, job.base, s);
    }
  }

  lemma SameWritten(db: DB, input: seq<Entry>, outputs: seq<File>, db': DB)
    requires FinishStep(db, input, outputs, db')
    ensures db'.Upper() == db.Upper() && db'.Written() == db.Written()
    ensures db'.snapshots == db.snapshots && db'.lastSequence == db.lastSequence
  {
  }

  lemma StartIsGuardedIf(db: DB, c: Inputs, db': DB)
    requires StartStep(db, c, db') && JobRight(db')
    ensures Guarded(db, StartCompaction(c))
  {
  }

  lemma UnguardedKinds(db: DB, step: Step)
    requires !Guarded(db, step)
    ensures step.TrivialMove? || step.StartCompaction? || (step.FinishCompaction? && db.job.Some?)
            || (step.Flush? && step.table.Some? && db.job.Some?)
  {
  }

  lemma MoveContents(db: DB, c: Inputs, db': DB)
    requires TrivialMoveStep(db, c, db')
    ensures Contents(db'.version) == Contents(db.version)
  {
    assert c.in0 == [c.in0[0]] && c.in1 == [];
    SameContents(db.version, db'.version, c.level, c.in0[0]);
  }

  lemma InvGives(db: DB)
    requires Inv(db)
    ensures GoodVersion(db.version) && Numbered(db) && Layered(db) && Sequenced(db) && ReadsRight(db) && JobRight(db)
    ensures |db.version.levels| == NUM_LEVELS
  {
  }

  /** Where the invariant holds, a step keeps it if and only if it is guarded: the guards give away nothing. */
  lemma StepKeepsInvIff(db: DB, step: Step, db': DB)
    requires Inv(db) && Next(db, step, db')
    ensures Inv(db') <==> Guarded(db, step)
  {
    if Guarded(db, step) {
      StepKeepsInv(db, step, db');
    } else if Inv(db') {
      UnguardedKinds(db, step);
      InvGives(db);
      InvGives(db');
      hide Inv, GoodVersion, Numbered, Layered, Sequenced, ReadsRight, JobRight, TrivialMoveStep, FlushStep, StartStep, FinishStep,
           UncoversNothing, FlushIsClear;
      match step
      case TrivialMove(c) =>
        MoveContents(db, c, db');
        GoodMoveIsGuarded(db, c, db');
      case StartCompaction(c) => StartIsGuardedIf(db, c, db');
      case FinishCompaction(input, outputs) => RightFinishIsGuarded(db, input, outputs, db');
      case Flush(table, target) => ClearFlushIsGuarded(db, table.value, target, db');
    }
  }
}
