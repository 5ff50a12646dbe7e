/** A run of the database, from the empty one, after which a read misses the newest write (db/version_set.cc,
    db/db_impl.cc). */
module StaleRead {
  import opened Wrappers
  import opened ByteStrings
  import opened InternalKeys
  import opened Versions
  import opened Picking
  import opened CompactionWork
  import opened Edits
  import opened CompactionReads
  import opened Boundaries
  import opened Database
  import opened Invariant
  import opened Runs
  import Comparators
  import LogFormat
  import W = WriteBatches

  // Level 1 is due for compaction from this many bytes on.
  const LEVEL_ONE_LIMIT: nat := 10 * 1048576

  // The two versions of the empty user key.
  const FIRST_KEY := Key(0.0, 1, Value)
  const SECOND_KEY := Key(0.0, 2, Value)

  function First(value: Bytes): Entry {
    Entry(FIRST_KEY, value)
  }

  function Second(value: Bytes): Entry {
    Entry(SECOND_KEY, value)
  }

  function Top(l0: seq<File>, l1: seq<File>, l2: seq<File>): Version {
    Version([l0, l1, l2, [], [], [], []])
  }

  function One(number: nat, e: Entry): File {
    File(number, |e.value|, e.key, e.key, [e])
  }

  ghost function Record(sequence: nat, value: Bytes): Bytes
    requires sequence < 3
  {
    W.Encoded(sequence, [W.Put([], value)])
  }

  /** The states of the run: a write, a crash after which recovery puts it in level 0, a snapshot, a write of the same key,
      a flush that stays in level 0, where it overlaps, a manual compaction of level 0 that cuts its output between the two
      versions, and a trivial move of the first output, because level 1 has grown too large. */
  ghost function State(i: nat, v: Bytes, w: Bytes): DB
    requires i <= 11
  {
    var e, f := First(v), Second(w);
    var one, two := One(2, e), One(4, f);
    var none, both, cut := Top([], [], []), Top([two, one], [], []), Top([], [One(5, f), One(6, e)], []);
    if i == 0 then DB([], [], [], None, None, none, 0, 2, [], None, 0, 2, [])
    else if i == 1 then DB([Record(1, v)], [], [], None, Some([e]), none, 0, 2, [], None, 0, 2, [])
    else if i == 2 then DB([Record(1, v)], [[e]], [], None, None, none, 1, 2, [], None, 0, 2, [[e]])
    else if i == 3 then DB([], [], [], None, None, Top([one], [], []), 1, 3, [], None, 1, 3, [[e]])
    else if i == 4 then DB([], [], [], None, None, Top([one], [], []), 1, 3, [1], None, 1, 3, [[e]])
    else if i == 5 then DB([Record(2, w)], [], [], None, Some([f]), Top([one], [], []), 1, 3, [1], None, 1, 3, [[e]])
    else if i == 6 then DB([Record(2, w)], [[f]], [], None, None, Top([one], [], []), 2, 3, [1], None, 1, 3, [[e], [f]])
    else if i == 7 then DB([], [], [Record(2, w)], Some([[f]]), None, Top([one], [], []), 2, 4, [1], None, 1, 3, [[e], [f]])
    else if i == 8 then DB([], [], [], None, None, both, 2, 5, [1], None, 2, 5, [[e], [f]])
    else if i == 9 then DB([], [], [], None, None, both, 2, 5, [1], Some(Job(0, [two, one], [], both, 1)), 2, 5, [[e], [f]])
    else if i == 10 then DB([], [], [], None, None, cut, 2, 7, [1], None, 2, 7, [[e], [f]])
    else DB([], [], [], None, None, Top([], [One(6, e)], [One(5, f)]), 2, 7, [1], None, 2, 7, [[e], [f]])
  }

  ghost function Taken(i: nat, v: Bytes, w: Bytes): Step
    requires i < 11
  {
    var e, f := First(v), Second(w);
    if i == 0 then BeginWrite([W.Put([], v)])
    else if i == 1 then EndWrite
    else if i == 2 then Reopen(LogFormat.File(0, [Record(1, v)]), [One(2, e)], 0)
    else if i == 3 then TakeSnapshot
    else if i == 4 then BeginWrite([W.Put([], w)])
    else if i == 5 then EndWrite
    else if i == 6 then SwitchMemtable
    else if i == 7 then Flush(Some(One(4, f)), 0)
    else if i == 8 then StartCompaction(Inputs(0, [One(4, f), One(2, e)], [], []))
    else if i == 9 then FinishCompaction([f, e], [One(5, f), One(6, e)])
    else TrivialMove(Inputs(1, [One(5, f)], [], []))
  }

  ghost predicate Steps(i: nat, v: Bytes, w: Bytes)
    requires i < 11
  {
    Next(State(i, v, w), Taken(i, v, w), State(i + 1, v, w))
  }

  lemma Begins(v: Bytes, w: Bytes)
    ensures Init(State(0, v, w))
  {
    assert Top([], [], []).levels == seq(NUM_LEVELS, _ => []);
  }

  lemma Stamped(value: Bytes)
    ensures Stamp(OpsOf([W.Put([], value)]), 1) == [First(value)]
    ensures Stamp(OpsOf([W.Put([], value)]), 2) == [Second(value)]
  {
    assert Comparators.Rank([]) == 0.0;
    assert OpsOf([W.Put([], value)]) == [Put(0.0, value)];
  }

  lemma FirstWrite(v: Bytes, w: Bytes)
    requires |v| < WORD && |w| < WORD
    ensures Steps(0, v, w) && Steps(1, v, w) && Steps(3, v, w)
  {
    hide W.Encoded, Stamp, OpsOf;
    Stamped(v);
    assert [] + [Record(1, v)] == [Record(1, v)] && [] + [[First(v)]] == [[First(v)]];
  }

  lemma SecondWrite(v: Bytes, w: Bytes)
    requires |v| < WORD && |w| < WORD
    ensures Steps(4, v, w) && Steps(5, v, w) && Steps(6, v, w)
  {
    hide W.Encoded, Stamp, OpsOf;
    Stamped(w);
    assert [] + [Record(2, w)] == [Record(2, w)] && [] + [[Second(w)]] == [[Second(w)]];
    assert [[First(v)]] + [[Second(w)]] == [[First(v)], [Second(w)]];
  }

  lemma OneIsTable(number: nat, e: Entry)
    ensures TableOf(One(number, e), [[e]]) && SortedBySmallest([One(number, e)])
  {
    assert [e] in [[e]];
  }

  lemma OneIsRecovered(number: nat, e: Entry)
    ensures RecoveredTables([[e]], [One(number, e)]) && RecoveredTables([], [])
  {
    OneIsTable(number, e);
    var log, tables := [[e]], [One(number, e)];
    assert log[..1] == log && log[1..] == [] && tables[1..] == [];
    assert RecoveredTables([], []);
  }

  lemma AllCome(come: seq<File>)
    requires SortedBySmallest(come)
    ensures Replaced([], come, [], come)
  {
  }

  lemma RecoveredIs(e: Entry, s: nat)
    requires e.key.sequence == s
    ensures RecoveredSequence(s, 0, [] + [[e]])
  {
    assert [] + [[e]] == [[e]] && [e] in [[e]] && e in [e];
    assert InLog([[e]], e);
  }

  lemma Restores(v: Bytes, w: Bytes)
    ensures Restored(State(2, v, w), [], [[First(v)]], [One(2, First(v))], 0, State(3, v, w))
  {
    hide RecoveredTables, RecoveredSequence, Replaced;
    var e := First(v);
    var tables := [One(2, e)];
    OneIsRecovered(2, e);
    OneIsTable(2, e);
    AllCome(tables);
    RecoveredIs(e, 1);
    assert tables[..0] == [] && tables[0..] == tables;
    assert [] + ([] + [[e]]) == [[e]] && State(2, v, w).Flushed() == [];
  }

  lemma Replayed(v: Bytes)
    requires |v| < WORD
    ensures ReplayedFrom(LogFormat.File(0, [Record(1, v)]), [[First(v)]]) && ReplayedFrom(LogFormat.File(0, []), [])
  {
    hide LogFormat.File, LogFormat.ReadAll, W.Encoded, Replays, Stamp, OpsOf;
    Stamped(v);
    WrittenIsReplayed([W.Put([], v)], 1);
    LogFormat.ReadOfFile([Record(1, v)]);
    LogFormat.ReadOfFile([]);
  }

  lemma Reopens(v: Bytes, w: Bytes)
    requires |v| < WORD
    ensures Steps(2, v, w)
  {
    hide LogFormat.File, ReplayedFrom, Restored, W.Encoded;
    Replayed(v);
    Restores(v, w);
    var db := State(2, v, w);
    assert db.memFile[..1] == db.memFile;
    assert RestoredFrom(db, [], LogFormat.File(0, [Record(1, v)]), [[First(v)]], [One(2, First(v))], 0, State(3, v, w));
  }

  lemma Flushes(v: Bytes, w: Bytes)
    ensures Steps(7, v, w) && OverlapsLevel(State(7, v, w).version, 0, One(4, Second(w)))
  {
    var one, two := One(2, First(v)), One(4, Second(w));
    OneIsTable(4, Second(w));
    assert SortedBySmallest([two, one]);
    assert Replaced([one], [two, one], [], [two]);
    hide Replaced, TableOf;
    assert Added(Top([one], [], []), Top([two, one], [], []), 0, two);
    assert one in State(7, v, w).version.levels[0] && !UserApart(two, one);
  }

  lemma PicksAll(c0: seq<File>)
    requires c0 != [] && forall f :: f in c0 ==> f.smallest.user == 0.0 && f.largest.user == 0.0
    ensures TouchingHull([], c0, [])
  {
    assert c0[0] in c0;
    assert Hull(c0, 0.0, 0.0) && Touching([], Some(0.0), Some(0.0)) == [];
  }

  lemma Starts(v: Bytes, w: Bytes)
    ensures Steps(8, v, w)
  {
    PicksAll([One(4, Second(w)), One(2, First(v))]);
    hide TouchingHull;
  }

  /** Neither version may be dropped: the snapshot needs the older one. */
  lemma BothSurvive(v: Bytes, w: Bytes, base: Version)
    ensures Survivors([Second(w), First(v)], 2, 1, base, 0) == [Second(w), First(v)]
  {
    var input := [Second(w), First(v)];
    assert Survivors(input, 1, 1, base, 0) == Survivors(input, 0, 1, base, 0) + [input[0]] == [input[0]];
    assert Survivors(input, 2, 1, base, 0) == Survivors(input, 1, 1, base, 0) + [input[1]];
  }

  lemma OutputsCut(one: File, two: File)
    ensures Flatten([one, two]) == one.entries + two.entries
  {
    assert [one, two][..1] == [one] && [one][..0] == [];
    assert Flatten([one]) == Flatten([]) + one.entries == one.entries;
  }

  lemma Merges(v: Bytes, w: Bytes)
    ensures IsMerge([Second(w), First(v)], [One(4, Second(w)), One(2, First(v))] + [])
  {
    var files := [One(4, Second(w)), One(2, First(v))];
    assert files + [] == files && files[0] in files && files[1] in files;
  }

  lemma AllGone(files: seq<File>)
    ensures Replaced(files, [], files, []) && SortedBySmallest([])
  {
  }

  lemma OutputNumbers(l0: seq<File>, one: File, two: File)
    requires one.number == 5 && two.number == 6 && forall f :: f in l0 ==> f.number < 5
    ensures FreshNumbers(Top(l0, [], []), [one, two], 7)
  {
    assert Top(l0, [], []).levels == [l0, [], [], [], [], [], []];
  }

  lemma OutputsInOrder(v: Bytes, w: Bytes)
    ensures var outputs := [One(5, Second(w)), One(6, First(v))];
            GoodFiles(outputs) && Disjoint(outputs) && SortedBySmallest(outputs) && Flatten(outputs) == [Second(w), First(v)]
  {
    OutputsCut(One(5, Second(w)), One(6, First(v)));
  }

  lemma Finishes(v: Bytes, w: Bytes)
    ensures Steps(9, v, w)
  {
    hide IsMerge, Survivors, Flatten, Replaced, FreshNumbers, GoodFiles, Disjoint, SortedBySmallest;
    var l0 := [One(4, Second(w)), One(2, First(v))];
    Merges(v, w);
    BothSurvive(v, w, Top(l0, [], []));
    OutputsInOrder(v, w);
    AllGone(l0);
    AllCome([One(5, Second(w)), One(6, First(v))]);
    OutputNumbers(l0, One(5, Second(w)), One(6, First(v)));
  }

  lemma Moves(v: Bytes, w: Bytes)
    ensures Steps(10, v, w)
  {
    var one, two := One(5, Second(w)), One(6, First(v));
    PicksAll([one]);
    assert Replaced([one, two], [two], [one], []) by {
      assert SortedBySmallest([two]);
    }
    AllCome([one]);
    hide Replaced, TouchingHull;
    assert Moved(Top([], [one, two], []), Top([], [two], [one]), 1, [one], [], [one]);
  }

  lemma LastReads(v: Bytes, w: Bytes)
    ensures View(State(11, v, w).Written(), 0.0, 2) == Some(w)
    ensures FirstHit(State(11, v, w).version, 0.0, 2, Some(First(v)))
  {
    NewestWritten(First(v), Second(w));
    FoundFirst(One(6, First(v)), One(5, Second(w)), First(v));
  }

  lemma NewestWritten(e: Entry, f: Entry)
    requires e.key == FIRST_KEY && f.key == SECOND_KEY
    ensures View(LogContents([[e], [f]]), 0.0, 2) == Some(f.value)
  {
    var log := [[e], [f]];
    assert log[0] in log && log[1] in log;
    assert InLog(log, f) && forall x :: InLog(log, x) ==> x == e || x == f;
    ViewOfNewest(LogContents(log), 0.0, 2, f);
  }

  lemma FoundFirst(two: File, one: File, e: Entry)
    requires two.entries == [e] && e.key == FIRST_KEY
    ensures FirstHit(Top([], [two], [one]), 0.0, 2, Some(e))
  {
    var version := Top([], [two], [one]);
    assert two in version.levels[1] && e in two.entries;
    assert Resolves(LevelContents(version.levels[1]), 0.0, 2, Some(e));
    assert version.levels[0] == [];
  }

  lemma GuardedButLast(v: Bytes, w: Bytes)
    ensures forall i :: 0 <= i < 10 ==> Guarded(State(i, v, w), Taken(i, v, w))
    ensures !Guarded(State(10, v, w), Taken(10, v, w))
  {
    hide StaysNewer, NothingUncovered, FlushIsClear, W.Encoded, LogFormat.File;
    StartIsGuarded(v, w);
    FinishIsGuarded(v, w);
    LastIsNotGuarded(v, w);
  }

  lemma LastIsNotGuarded(v: Bytes, w: Bytes)
    ensures !Guarded(State(10, v, w), Taken(10, v, w))
  {
    var one, two := One(5, Second(w)), One(6, First(v));
    assert one in [one] && two in [one, two] && two !in [one] && Less(one.largest, two.smallest);
  }

  lemma StartIsGuarded(v: Bytes, w: Bytes)
    ensures Guarded(State(8, v, w), Taken(8, v, w))
  {
  }

  lemma FinishIsGuarded(v: Bytes, w: Bytes)
    ensures Guarded(State(9, v, w), Taken(9, v, w))
  {
    hide View, Newest;
    var files := [One(4, Second(w)), One(2, First(v))];
    assert files + [] == files;
    forall d | Holds(files, d) ensures d.key.kind.Value? {
    }
  }

  /** Two versions of one user key end up in two files of a level, and the file with the newer one moves down alone.
      From then on the search finds the older one first, although the newer was acknowledged. The steps are those of two
      writes, a crash, a snapshot and a call of CompactRange. The second value has 10 MB or more, and does not compress: that
      is why the compaction cuts its output right after it, and why level 1 is due for compaction afterwards, beginning with
      its first file, since no pointer is set for level 1 yet. Only the last step is not guarded. */
  lemma StaleReadRun(v: Bytes, w: Bytes) returns (states: seq<DB>, steps: seq<Step>)
    requires |v| < WORD && LEVEL_ONE_LIMIT <= |w| < WORD
    ensures IsRun(states, steps) && |steps| == 11
    ensures forall i :: 0 <= i < 10 ==> Guarded(states[i], steps[i])
    ensures steps[7].Flush? && steps[7].table.Some? && SinksTo(states[7].version, steps[7].table.value, steps[7].target)
    ensures steps[8].StartCompaction? && steps[8].inputs.in0 == states[8].version.levels[0]
    ensures steps[9].FinishCompaction? && |steps[9].outputs| == 2 && steps[9].outputs[0].size >= TARGET_FILE_SIZE
    ensures var full := states[10].version.levels[1];
            && Score(full, 1) >= 1.0 && Fullest(states[10].version, 1, Score(full, 1))
            && steps[10].TrivialMove? && |steps[10].moved.in0| == 1 && NextInTurn(full, None, steps[10].moved.in0[0])
    ensures !Guarded(states[10], steps[10])
    ensures var last := states[11];
            && last.mem == [] && last.imm == None && Readable(last, 2)
            && View(last.Written(), 0.0, 2) == Some(w)
            && FirstHit(last.version, 0.0, 2, Some(First(v)))
  {
    hide Next, Init, Guarded, W.Encoded, LogFormat.File, OverlapsLevel, FirstHit, View, Fullest, Score, NextInTurn;
    states := seq(12, i requires 0 <= i < 12 => State(i, v, w));
    steps := seq(11, i requires 0 <= i < 11 => Taken(i, v, w));
    Begins(v, w);
    AllSteps(v, w);
    Flushes(v, w);
    LastReads(v, w);
    GuardedButLast(v, w);
    LevelOneIsFull(One(5, Second(w)), One(6, First(v)));
  }

  lemma TwoSizes(one: File, two: File)
    ensures TotalFileSize([one, two]) == one.size + two.size
  {
    assert [one, two][..1] == [one] && [one][..0] == [];
    assert TotalFileSize([one]) == one.size;
  }

  lemma LevelOneIsFull(one: File, two: File)
    requires one.size >= LEVEL_ONE_LIMIT
    ensures Score([one, two], 1) >= 1.0 && Fullest(Top([], [one, two], []), 1, Score([one, two], 1))
    ensures NextInTurn([one, two], None, one)
  {
    TwoSizes(one, two);
    hide TotalFileSize;
    assert MaxBytesForLevel(1) == LEVEL_ONE_LIMIT as real;
    var v := Top([], [one, two], []);
    assert forall l: nat :: l + 1 < NUM_LEVELS && l != 1 ==> v.levels[l] == [];
    assert one in [one, two] && IsPast(None, one);
  }

  lemma AllSteps(v: Bytes, w: Bytes)
    requires |v| < WORD && |w| < WORD
    ensures forall i :: 0 <= i < 11 ==> Next(State(i, v, w), Taken(i, v, w), State(i + 1, v, w))
  {
    hide Next, State, Taken;
    FirstWrite(v, w);
    SecondWrite(v, w);
    Reopens(v, w);
    Flushes(v, w);
    Starts(v, w);
    Finishes(v, w);
    Moves(v, w);
    forall i | 0 <= i < 11 ensures Next(State(i, v, w), Taken(i, v, w), State(i + 1, v, w)) {
      assert Steps(i, v, w);
    }
  }
}
