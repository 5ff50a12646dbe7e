/** Iterators over the database: what DBImpl hands to a MergingIterator, and what a DBIter over it reads (db/db_impl.cc,
    db/version_set.cc). */
module Iterators {
  import opened Wrappers
  import opened ByteStrings
  import opened InternalKeys
  import opened Versions
  import opened CompactionWork
  import opened Edits
  import opened CompactionReads
  import opened Database
  import opened Invariant
  import opened Runs
  import M = Merging
  import U = UserIterator

  // ---- sorted runs ----

  /** Sorted runs that share nothing and hold exactly these entries. */
  ghost predicate GoodRuns(runs: seq<seq<Entry>>, es: iset<Entry>) {
    && (forall i :: 0 <= i < |runs| ==> Sorted(runs[i]))
    && (forall i, j, e :: 0 <= i < |runs| && 0 <= j < |runs| && i != j && e in runs[i] ==> e !in runs[j])
    && (forall i, e :: 0 <= i < |runs| && e in runs[i] ==> e in es)
    && forall e :: e in es ==> InSome(runs, e)
  }

  ghost predicate InSome(runs: seq<seq<Entry>>, e: Entry) {
    exists i :: 0 <= i < |runs| && e in runs[i]
  }

  lemma MoreRuns(a: seq<seq<Entry>>, x: iset<Entry>, b: seq<seq<Entry>>, y: iset<Entry>)
    requires GoodRuns(a, x) && GoodRuns(b, y) && forall e :: e in x ==> e !in y
    ensures GoodRuns(a + b, x + y)
  {
    var c := a + b;
    forall i | 0 <= i < |c| ensures Sorted(c[i]) && forall e :: e in c[i] ==> e in if i < |a| then x else y {
      assert c[i] == if i < |a| then a[i] else b[i - |a|];
    }
    forall i, j, e | 0 <= i < |c| && 0 <= j < |c| && i != j && e in c[i] ensures e !in c[j] {
      assert c[i] == if i < |a| then a[i] else b[i - |a|];
      assert c[j] == if j < |a| then a[j] else b[j - |a|];
    }
    forall e | e in x + y ensures InSome(c, e) {
      if e in x {
        var i :| 0 <= i < |a| && e in a[i];
        assert e in c[i];
      } else {
        var i :| 0 <= i < |b| && e in b[i];
        assert e in c[|a| + i];
      }
    }
  }

  lemma OneRun(run: seq<Entry>, es: iset<Entry>)
    requires Sorted(run) && forall e :: e in run <==> e in es
    ensures GoodRuns([run], es)
  {
    forall e | e in es ensures InSome([run], e) {
      assert e in [run][0];
    }
  }

  // ---- the runs of the database ----

  function TableRuns(files: seq<File>): (runs: seq<seq<Entry>>)
    ensures |runs| == |files| && forall i :: 0 <= i < |runs| ==> runs[i] == files[i].entries
  {
    seq(|files|, i requires 0 <= i < |files| => files[i].entries)
  }

  /** A concatenating iterator for every level from 1 on that has files. */
  function LevelRuns(levels: seq<seq<File>>, n: nat): seq<seq<Entry>>
    requires n <= |levels|
  {
    if n <= 1 then [] else LevelRuns(levels, n - 1) + if levels[n - 1] == [] then [] else [Flatten(levels[n - 1])]
  }

  function ChildRuns(mem: seq<Entry>, imm: Option<seq<Entry>>, v: Version): seq<seq<Entry>>
    requires |v.levels| == NUM_LEVELS
  {
    [mem] + (if imm.Some? then [imm.value] else []) + TableRuns(v.levels[0]) + LevelRuns(v.levels, NUM_LEVELS)
  }

  /** The files of a level in order are one sorted run. */
  lemma {:induction false} LevelIsSorted(files: seq<File>)
    requires GoodFiles(files) && Disjoint(files)
    ensures Sorted(Flatten(files))
  {
    if files != [] {
      var front, last := files[..|files| - 1], files[|files| - 1];
      LevelIsSorted(front);
      assert last in files && Sorted(last.entries);
      var a, b := Flatten(front), last.entries;
      forall x, y | x in a && y in b ensures Less(x.key, y.key) {
        FlattenHolds(front, x);
        var f :| f in front && x in f.entries;
        var i :| 0 <= i < |front| && front[i] == f;
        assert files[i] == f;
        FileBounds(f, x);
        FileBounds(last, y);
        assert Less(files[i].largest, last.smallest);
      }
      SortedConcat(a, b);
    }
  }

  lemma SortedConcat(a: seq<Entry>, b: seq<Entry>)
    requires Sorted(a) && Sorted(b) && forall x, y :: x in a && y in b ==> Less(x.key, y.key)
    ensures Sorted(a + b)
  {
    var c := a + b;
    forall i, j | 0 <= i < j < |c| ensures Less(c[i].key, c[j].key) {
      assert c[i] == if i < |a| then a[i] else b[i - |a|];
      assert c[j] == if j < |a| then a[j] else b[j - |a|];
    }
  }

  ghost function Below(v: Version, n: nat): iset<Entry> {
    iset m: nat, e | 1 <= m < n && At(v, m, e) :: e
  }

  lemma {:induction false} LevelRunsGood(v: Version, n: nat)
    requires GoodVersion(v) && n <= NUM_LEVELS
    ensures GoodRuns(LevelRuns(v.levels, n), Below(v, n))
  {
    if n > 1 {
      LevelRunsGood(v, n - 1);
      var files := v.levels[n - 1];
      assert GoodFiles(files) && Disjoint(files);
      LevelIsSorted(files);
      forall e ensures e in Flatten(files) <==> e in LevelContents(files) {
        FlattenHolds(files, e);
      }
      OneRun(Flatten(files), LevelContents(files));
      forall e | e in Below(v, n - 1) ensures e !in LevelContents(files) {
        var m: nat :| 1 <= m < n - 1 && At(v, m, e);
        assert At(v, n - 1, e) ==> false;
      }
      BelowStep(v, n);
      if files == [] {
        assert LevelContents(files) == iset{};
        assert LevelRuns(v.levels, n - 1) + [] == LevelRuns(v.levels, n - 1);
      } else {
        MoreRuns(LevelRuns(v.levels, n - 1), Below(v, n - 1), [Flatten(files)], LevelContents(files));
      }
    }
  }

  lemma BelowStep(v: Version, n: nat)
    requires 1 < n <= |v.levels|
    ensures Below(v, n) == Below(v, n - 1) + LevelContents(v.levels[n - 1])
  {
    forall e ensures e in Below(v, n) <==> e in Below(v, n - 1) || Holds(v.levels[n - 1], e) {
      if Holds(v.levels[n - 1], e) {
        assert At(v, n - 1, e);
      }
    }
  }

  /** The tables of level 0, no table being listed twice. */
  lemma TableRunsGood(files: seq<File>)
    requires GoodFiles(files) && SortedBySmallest(files) && DistinctNumbers(files) && LevelZeroOrdered(files)
    ensures GoodRuns(TableRuns(files), LevelContents(files))
  {
    var runs := TableRuns(files);
    forall i | 0 <= i < |runs| ensures Sorted(runs[i]) && forall e :: e in runs[i] ==> e in LevelContents(files) {
      assert files[i] in files;
    }
    forall i, j, e | 0 <= i < |runs| && 0 <= j < |runs| && i != j && e in runs[i] ensures e !in runs[j] {
      NotTwice(files, i, j, e);
    }
    forall e | e in LevelContents(files) ensures InSome(runs, e) {
      var f :| f in files && e in f.entries;
      var i :| 0 <= i < |files| && files[i] == f;
      assert e in runs[i];
    }
  }

  lemma NotTwice(files: seq<File>, i: nat, j: nat, e: Entry)
    requires SortedBySmallest(files) && DistinctNumbers(files) && LevelZeroOrdered(files)
    requires i < |files| && j < |files| && i != j && e in files[i].entries
    ensures e !in files[j].entries
  {
    var f, g := files[i], files[j];
    assert f in files && g in files;
    assert BySmallest(f, g) || BySmallest(g, f);
    LessIsStrictTotalOrder(f.smallest, f.smallest, f.smallest);
    assert f.number != g.number;
  }

  lemma VersionRunsGood(v: Version)
    requires GoodVersion(v) && SortedBySmallest(v.levels[0])
    ensures GoodRuns(TableRuns(v.levels[0]) + LevelRuns(v.levels, NUM_LEVELS), Contents(v))
  {
    assert GoodFiles(v.levels[0]);
    TableRunsGood(v.levels[0]);
    LevelRunsGood(v, NUM_LEVELS);
    forall e | e in LevelContents(v.levels[0]) ensures e !in Below(v, NUM_LEVELS) {
      assert At(v, 0, e);
    }
    MoreRuns(TableRuns(v.levels[0]), LevelContents(v.levels[0]), LevelRuns(v.levels, NUM_LEVELS), Below(v, NUM_LEVELS));
    forall e ensures e in Contents(v) <==> e in LevelContents(v.levels[0]) || e in Below(v, NUM_LEVELS) {
      if m: nat :| At(v, m, e) {
        assert m == 0 || e in Below(v, NUM_LEVELS);
      }
      if Holds(v.levels[0], e) {
        assert At(v, 0, e);
      }
    }
  }

  /** The memtables' contents, as MemTable iterators give them. */
  ghost predicate MemtablesOf(db: DB, mem: seq<Entry>, imm: Option<seq<Entry>>) {
    && MemtableOf(mem, db.mem) && (imm.Some? <==> db.imm.Some?)
    && (imm.Some? ==> MemtableOf(imm.value, db.imm.value))
  }

  lemma UpperRunsGood(db: DB, mem: seq<Entry>, imm: Option<seq<Entry>>)
    requires Ascending(db.ImmLog() + db.mem) && MemtablesOf(db, mem, imm)
    ensures GoodRuns([mem] + (if imm.Some? then [imm.value] else []), db.Upper())
  {
    AscendingParts(db.ImmLog(), db.mem);
    OneRun(mem, LogContents(db.mem));
    if imm.Some? {
      OneRun(imm.value, LogContents(db.ImmLog()));
      MoreRuns([mem], LogContents(db.mem), [imm.value], LogContents(db.ImmLog()));
      assert db.Upper() == LogContents(db.mem) + LogContents(db.ImmLog());
    } else {
      assert LogContents([]) == iset{} && db.Upper() == LogContents(db.mem);
      assert [mem] + [] == [mem];
    }
  }

  /** All children together hold what the database stores, each entry once. */
  lemma ChildRunsGood(db: DB, mem: seq<Entry>, imm: Option<seq<Entry>>)
    requires GoodVersion(db.version) && Layered(db) && SortedBySmallest(db.version.levels[0]) && MemtablesOf(db, mem, imm)
    ensures GoodRuns(ChildRuns(mem, imm, db.version), db.Stored())
  {
    hide GoodVersion, GoodRuns, MemtablesOf;
    var upper := [mem] + (if imm.Some? then [imm.value] else []);
    assert |db.version.levels| == NUM_LEVELS by {
      LevelCount(db.version);
    }
    UpperRunsGood(db, mem, imm);
    VersionRunsGood(db.version);
    var lower := TableRuns(db.version.levels[0]) + LevelRuns(db.version.levels, NUM_LEVELS);
    MoreRuns(upper, db.Upper(), lower, Contents(db.version));
    assert ChildRuns(mem, imm, db.version) == upper + lower;
  }

  lemma LevelCount(v: Version)
    requires GoodVersion(v)
    ensures |v.levels| == NUM_LEVELS
  {
  }

  /** Good runs of a database have one sorted union. */
  lemma RunsMerge(runs: seq<seq<Entry>>, es: iset<Entry>) returns (merged: seq<Entry>)
    requires GoodRuns(runs, es) && DistinctSequences(es)
    ensures M.IsUnion(runs, merged) && Elements(merged) == es
  {
    forall i, j, e, f | 0 <= i < j < |runs| && e in runs[i] && f in runs[j] ensures e.key != f.key {
      assert e in es && f in es;
    }
    merged := M.UnionExists(runs);
    forall e ensures e in merged <==> e in es {
      if e in es {
        var i :| 0 <= i < |runs| && e in runs[i];
        var j :| 0 <= j < |runs[i]| && runs[i][j] == e;
      }
    }
  }

  // ---- over runs of the database ----

  /** No table is listed twice in level 0: every edit leaves it sorted. */
  lemma StepKeepsListed(db: DB, step: Step, db': DB)
    requires |db.version.levels| == NUM_LEVELS && SortedBySmallest(db.version.levels[0]) && Next(db, step, db')
    ensures |db'.version.levels| == NUM_LEVELS && SortedBySmallest(db'.version.levels[0])
  {
    hide SortedBySmallest, IsMerge, FlushTarget, TableOf, FreshNumbers, OpsOf, Stamp, CrashLeaves, ReplayedFrom,
         RecoveredTables, RecoveredSequence, RisingNumbers;
    match step
    case Flush(table, target) => FlushListed(db, table, target, db');
    case TrivialMove(c) => MoveListed(db.version, db'.version, c.level, c.in0, [], c.in0);
    case FinishCompaction(_, outputs) =>
      var job := db.job.value;
      MoveListed(db.version, db'.version, job.level, job.in0, job.in1, outputs);
    case Reopen(left, tables, immTables) => ReopenListed(db, left, tables, immTables, db');
    case _ =>
  }

  lemma FlushListed(db: DB, table: Option<File>, target: nat, db': DB)
    requires |db.version.levels| == NUM_LEVELS && SortedBySmallest(db.version.levels[0]) && FlushStep(db, table, target, db')
    ensures |db'.version.levels| == NUM_LEVELS && SortedBySmallest(db'.version.levels[0])
  {
  }

  lemma MoveListed(v: Version, v': Version, l: nat, c0: seq<File>, c1: seq<File>, come: seq<File>)
    requires |v.levels| == NUM_LEVELS && SortedBySmallest(v.levels[0]) && Moved(v, v', l, c0, c1, come)
    ensures |v'.levels| == NUM_LEVELS && SortedBySmallest(v'.levels[0])
  {
  }

  lemma ReopenListed(db: DB, left: Bytes, tables: seq<File>, immTables: nat, db': DB)
    requires ReopenStep(db, left, tables, immTables, db')
    ensures |db'.version.levels| == NUM_LEVELS && SortedBySmallest(db'.version.levels[0])
  {
    hide CrashLeaves, ReplayedFrom, RecoveredTables, RecoveredSequence, RisingNumbers;
  }

  lemma {:induction false} RunKeepsListed(states: seq<DB>, steps: seq<Step>, i: nat)
    requires IsRun(states, steps) && i < |states|
    ensures |states[i].version.levels| == NUM_LEVELS && SortedBySmallest(states[i].version.levels[0])
  {
    hide Next, SortedBySmallest;
    if i == 0 {
      InitListed(states[0]);
    } else {
      RunKeepsListed(states, steps, i - 1);
      StepKeepsListed(states[i - 1], steps[i - 1], states[i]);
    }
  }

  lemma InitListed(db: DB)
    requires Init(db)
    ensures |db.version.levels| == NUM_LEVELS && SortedBySmallest(db.version.levels[0])
  {
  }

  /** In every state of a guarded run an iterator can be made. */
  lemma RunIsIterable(states: seq<DB>, steps: seq<Step>, i: nat)
    requires IsRun(states, steps) && i < |states|
    requires forall j :: 0 <= j < |steps| ==> Guarded(states[j], steps[j])
    ensures Inv(states[i]) && SortedBySmallest(states[i].version.levels[0])
  {
    hide Inv, IsRun, Guarded, SortedBySmallest;
    RunReadsHistory(states, steps, i);
    RunKeepsListed(states, steps, i);
  }

  /** DBImpl::NewIterator: a merging iterator over the memtables, the tables of level 0 and one iterator for each other
      level, and a DBIter over that. It is a cursor over what the database holds at the sequence number, and at a live
      snapshot or the present that is the acknowledged history. */
  method NewIterator(db: DB, mem: seq<Entry>, imm: Option<seq<Entry>>, s: SequenceNumber) returns (it: U.DBIter)
    requires Inv(db) && SortedBySmallest(db.version.levels[0]) && MemtablesOf(db, mem, imm)
    ensures fresh(it) && it.Ok() && !it.valid && it.sequence == s
    ensures forall k :: it.Read(k) == View(db.Stored(), k, s)
    ensures Readable(db, s) ==> forall k :: it.Read(k) == View(db.Written(), k, s)
  {
    hide Inv, GoodRuns, View, DistinctSequences, M.IsUnion, MemtablesOf, ChildRuns, GoodVersion;
    InvParts(db);
    ChildRunsGood(db, mem, imm);
    ghost var merged := RunsMerge(ChildRuns(mem, imm, db.version), db.Stored());
    RunsApart(ChildRuns(mem, imm, db.version), db.Stored());
    var runs := ChildRuns(mem, imm, db.version);
    var children: seq<M.Cursor> := [];
    for i := 0 to |runs|
      invariant |children| == i
      invariant forall c :: c in children ==> fresh(c) && c.Ok()
      invariant forall j :: 0 <= j < i ==> children[j].entries == runs[j]
      invariant forall j, k :: 0 <= j < k < i ==> children[j] != children[k]
    {
      var child := new M.Cursor(runs[i]);
      children := children + [child];
    }
    assert seq(|children|, i requires 0 <= i < |children| => children[i].entries) == runs;
    var merging := new M.MergingIterator(children, merged);
    it := new U.DBIter(merging, s);
  }

  lemma RunsApart(runs: seq<seq<Entry>>, es: iset<Entry>)
    requires GoodRuns(runs, es)
    ensures forall i :: 0 <= i < |runs| ==> Sorted(runs[i])
    ensures forall i, j, e :: 0 <= i < |runs| && 0 <= j < |runs| && i != j && e in runs[i] ==> e !in runs[j]
  {
  }

  lemma InvParts(db: DB)
    requires Inv(db)
    ensures GoodVersion(db.version) && |db.version.levels| == NUM_LEVELS && Layered(db) && DistinctSequences(db.Stored())
    ensures forall k, s: nat :: Readable(db, s) ==> View(db.Stored(), k, s) == View(db.Written(), k, s)
  {
    StoredIsDistinct(db);
  }
}
