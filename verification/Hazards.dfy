/** Concrete inputs on which the picking code loses a guarantee (db/version_set.cc, db/db_impl.cc). */
module Hazards {
  import opened Wrappers
  import opened ByteStrings
  import opened InternalKeys
  import opened Versions
  import opened Picking
  import opened CompactionWork
  import opened Edits
  import opened CompactionReads
  import opened Boundaries
  import opened Database
  import opened Invariant

  function One(number: nat, e: Entry): File {
    File(number, 1, e.key, e.key, [e])
  }

  function Levels(l0: seq<File>, l1: seq<File>, l2: seq<File>): Version {
    Version([l0, l1, l2, [], [], [], []])
  }

  lemma OneIsGood(number: nat, e: Entry)
    ensures One(number, e).Good()
  {
  }

  lemma ThreeLevelsGood(l0: seq<File>, l1: seq<File>, l2: seq<File>)
    requires GoodFiles(l0) && GoodFiles(l1) && GoodFiles(l2) && Disjoint(l1) && Disjoint(l2)
    requires DistinctNumbers(l0) && LevelZeroOrdered(l0)
    requires NewerThan(LevelContents(l0), LevelContents(l1))
    requires NewerThan(LevelContents(l0), LevelContents(l2))
    requires NewerThan(LevelContents(l1), LevelContents(l2))
    ensures GoodVersion(Levels(l0, l1, l2))
  {
    var v := Levels(l0, l1, l2);
    forall m: nat, e | At(v, m, e) ensures (m == 0 && Holds(l0, e)) || (m == 1 && Holds(l1, e)) || (m == 2 && Holds(l2, e)) {
      assert v.levels[m] != [];
    }
  }

  lemma NothingIsNewer(files: seq<File>)
    ensures NewerThan(LevelContents([]), LevelContents(files)) && NewerThan(LevelContents(files), LevelContents([]))
  {
  }

  lemma HeldByOne(number: nat, e: Entry)
    ensures LevelContents([One(number, e)]) == iset{e}
  {
    assert One(number, e) in [One(number, e)] && e in One(number, e).entries;
  }

  lemma SplitGood(newer: Entry, older: Entry)
    requires newer.key == Key(1.0, 5, Value) && older.key == Key(1.0, 3, Value)
    ensures var v := Levels([], [One(10, newer), One(11, older)], []); GoodVersion(v) && DistinctSequences(Contents(v))
  {
    var files := [One(10, newer), One(11, older)];
    var v := Levels([], files, []);
    OneIsGood(10, newer);
    OneIsGood(11, older);
    NothingIsNewer(files);
    NothingIsNewer([]);
    assert GoodFiles(files) && Disjoint(files);
    forall e | e in Contents(v) ensures e in {newer, older} {
      var m: nat :| At(v, m, e);
      assert v.levels[m] != [];
    }
    hide NewerThan, GoodVersion, LevelContents, Contents;
    ThreeLevelsGood([], files, []);
  }

  lemma SplitMoved(f: File, g: File, newer: Entry, older: Entry)
    requires newer.key == Key(1.0, 5, Value) && older.key == Key(1.0, 3, Value)
    requires f == One(10, newer) && g == One(11, older)
    ensures TriviallyMoved(Levels([], [f, g], []), Levels([], [g], [f]), 1, f)
  {
    hide GoodVersion, DistinctSequences;
    SplitGood(newer, older);
    assert Hull([f], 1.0, 1.0) && Touching([], Some(1.0), Some(1.0)) == [];
    assert TouchingHull([], [f], []);
  }

  /** Two versions of user key 1.0 in two files of level 1. The file with the newer one can be picked alone
      and trivially moved; afterwards a read finds the older version first. */
  lemma SplitBoundaryInput(newer: Entry, older: Entry)
    requires newer.key == Key(1.0, 5, Value) && older.key == Key(1.0, 3, Value)
    ensures var f, g := One(10, newer), One(11, older);
            var before, after := Levels([], [f, g], []), Levels([], [g], [f]);
            && TriviallyMoved(before, after, 1, f) && !NoBoundarySplit(before.levels[1], [f])
            && FirstHit(before, 1.0, 5, Some(newer)) && !FirstHit(after, 1.0, 5, Some(newer))
  {
    var f, g := One(10, newer), One(11, older);
    var before, after := Levels([], [f, g], []), Levels([], [g], [f]);
    SplitMoved(f, g, newer, older);
    SplitBoundaryServesStaleRead(before, after, 1, f, g);
  }

  /** A manual compaction of level 0 whose inputs leave a gap, and a memtable flushed into that gap while it runs. The
      table sinks to level 1, where a file of level 2 stops it, and then the compaction's single output overlaps it.
      `LevelOrder.FlushLeavesRoomIff` says exactly when that happens. */
  lemma FlushIntoGapInput(low: Entry, high: Entry, deep: Entry, between: Entry)
    requires GapKeys(low, high, deep, between)
    ensures var a, b, d, f, o := One(10, low), One(11, high), One(9, deep), One(12, between), Both(low, high);
            var picked, flushed, after := Levels([a, b], [], [d]), Levels([a, b], [f], [d]), Levels([], [o, f], [d]);
            && GoodVersion(picked) && Picked(picked, 0, [a, b], []) && !Gapless([a, b])
            && !OverlapsLevel(picked, 0, f) && MaySink(picked, 0, f) && !MaySink(picked, 1, f)
            && (forall snapshot :: !FlushIsClear(f, 1, Job(0, [a, b], [], picked, snapshot)))
            && FlushTarget(picked, f, 1) && Added(picked, flushed, 1, f) && GoodVersion(flushed)
            && IsMerge([low, high], [a, b]) && o.Good() && Moved(flushed, after, 0, [a, b], [], [o])
            && !Disjoint(after.levels[1])
  {
    var a, b, d, f, o := One(10, low), One(11, high), One(9, deep), One(12, between), Both(low, high);
    var picked := Levels([a, b], [], [d]);
    GapVersions(low, high, deep, between);
    GapPicked(a, b, d, low, high);
    MergeOfTwo(a, b, low, high);
    GapFlushed(low, high, deep, between);
    GapSinks(low, high, deep, between);
    forall snapshot ensures !FlushIsClear(f, 1, Job(0, [a, b], [], picked, snapshot)) {
      GapSurvivors(a, b, f, low, high, between, snapshot, picked);
    }
    GapInstalled(low, high, deep, between);
  }

  predicate GapKeys(low: Entry, high: Entry, deep: Entry, between: Entry) {
    && low.key == Key(1.0, 1, Value) && high.key == Key(9.0, 2, Value)
    && deep.key == Key(5.0, 3, Value) && between.key == Key(5.0, 4, Value)
  }

  function Both(low: Entry, high: Entry): File {
    File(13, 1, low.key, high.key, [low, high])
  }

  /** Both entries survive, and the table lies between them. */
  lemma GapSurvivors(a: File, b: File, f: File, low: Entry, high: Entry, between: Entry, snapshot: nat, base: Version)
    requires low.key == Key(1.0, 1, Value) && high.key == Key(9.0, 2, Value) && between.key == Key(5.0, 4, Value)
    requires a == One(10, low) && b == One(11, high) && f == One(12, between)
    ensures !Clear(f, Surviving([a, b] + [], snapshot, base, 0))
  {
    var input := [low, high];
    assert [a, b] + [] == [a, b];
    MergeOfTwo(a, b, low, high);
    SurvivorsSurvive([a, b], input, snapshot, base, 0);
    SurvivorsKeep(input, 2, snapshot, base, 0, 0);
    SurvivorsKeep(input, 2, snapshot, base, 0, 1);
  }

  lemma GapFlushed(low: Entry, high: Entry, deep: Entry, between: Entry)
    requires GapKeys(low, high, deep, between)
    ensures var a, b, d, f := One(10, low), One(11, high), One(9, deep), One(12, between);
            FlushTarget(Levels([a, b], [], [d]), f, 1) && Added(Levels([a, b], [], [d]), Levels([a, b], [f], [d]), 1, f)
  {
  }

  /** The level that the flush picks is 1. */
  lemma GapSinks(low: Entry, high: Entry, deep: Entry, between: Entry)
    requires GapKeys(low, high, deep, between)
    ensures var v, f := Levels([One(10, low), One(11, high)], [], [One(9, deep)]), One(12, between);
            !OverlapsLevel(v, 0, f) && MaySink(v, 0, f) && !MaySink(v, 1, f)
  {
    var d, f := One(9, deep), One(12, between);
    assert [d][..0] == [] && Touching([d], Some(5.0), Some(5.0)) == [d];
    assert TotalFileSize([d]) == 1;
    assert d in [d] && !UserApart(f, d);
  }

  lemma GapPicked(a: File, b: File, d: File, low: Entry, high: Entry)
    requires a == One(10, low) && b == One(11, high) && low.key.user == 1.0 && high.key.user == 9.0
    ensures Picked(Levels([a, b], [], [d]), 0, [a, b], []) && !Gapless([a, b])
  {
    assert a in [a, b] && b in [a, b];
    assert Hull([a, b], 1.0, 9.0);
    assert TouchingHull([], [a, b], []);
    assert !Spans([a, b], 5.0);
  }

  lemma GapInstalled(low: Entry, high: Entry, deep: Entry, between: Entry)
    requires GapKeys(low, high, deep, between)
    ensures var a, b, d, f, o := One(10, low), One(11, high), One(9, deep), One(12, between), Both(low, high);
            && Moved(Levels([a, b], [f], [d]), Levels([], [o, f], [d]), 0, [a, b], [], [o])
            && o.Good() && !Disjoint([o, f])
  {
    var f, o := One(12, between), Both(low, high);
    assert SortedBySmallest([o, f]) && SortedBySmallest([]);
    assert [o, f][0] == o && [o, f][1] == f;
  }

  lemma GapLevelZero(low: Entry, high: Entry)
    requires low.key == Key(1.0, 1, Value) && high.key == Key(9.0, 2, Value)
    ensures var files := [One(10, low), One(11, high)];
            && GoodFiles(files) && DistinctNumbers(files) && LevelZeroOrdered(files)
            && forall e :: Holds(files, e) ==> e == low || e == high
  {
    OneIsGood(10, low);
    OneIsGood(11, high);
  }

  lemma GapVersions(low: Entry, high: Entry, deep: Entry, between: Entry)
    requires GapKeys(low, high, deep, between)
    ensures var l0, d, f := [One(10, low), One(11, high)], One(9, deep), One(12, between);
            GoodVersion(Levels(l0, [], [d])) && GoodVersion(Levels(l0, [f], [d]))
  {
    var l0, d, f := [One(10, low), One(11, high)], One(9, deep), One(12, between);
    hide NewerThan, GoodVersion, LevelContents;
    GapLevelZero(low, high);
    OneIsGood(9, deep);
    OneIsGood(12, between);
    GapNewer(low, high, deep, between);
    NothingIsNewer(l0);
    NothingIsNewer([d]);
    ThreeLevelsGood(l0, [], [d]);
    ThreeLevelsGood(l0, [f], [d]);
  }

  lemma GapNewer(low: Entry, high: Entry, deep: Entry, between: Entry)
    requires GapKeys(low, high, deep, between)
    ensures var l0, l1, l2 := [One(10, low), One(11, high)], [One(12, between)], [One(9, deep)];
            && NewerThan(LevelContents(l0), LevelContents(l1)) && NewerThan(LevelContents(l0), LevelContents(l2))
            && NewerThan(LevelContents(l1), LevelContents(l2))
  {
    GapLevelZero(low, high);
    HeldByOne(12, between);
    HeldByOne(9, deep);
    hide Holds;
  }

  lemma MergeOfTwo(a: File, b: File, low: Entry, high: Entry)
    requires a.entries == [low] && b.entries == [high] && Less(low.key, high.key)
    ensures IsMerge([low, high], [a, b])
  {
    forall e ensures e in [low, high] <==> Holds([a, b], e) {
      if e == low {
        assert a in [a, b] && e in a.entries;
      }
      if e == high {
        assert b in [a, b] && e in b.entries;
      }
    }
  }

  // ---- a tombstone dropped from in front of an older version ----

  predicate TombKeys(x: Entry, y: Entry, tomb: Entry, older: Entry) {
    && x.key == Key(0.0, 9, Value) && y.key == Key(0.0, 1, Value)
    && tomb.key == Key(1.0, 5, Deletion) && older.key == Key(1.0, 3, Value)
  }

  function Two(number: nat, first: Entry, last: Entry): File {
    File(number, 1, first.key, last.key, [first, last])
  }

  lemma TombLevel(x: Entry, y: Entry, tomb: Entry, older: Entry)
    requires TombKeys(x, y, tomb, older)
    ensures var f, g, o := Two(11, y, tomb), One(12, older), One(13, x);
            && GoodFiles([f, g]) && Disjoint([f, g]) && GoodFiles([o, g]) && Disjoint([o, g])
            && LevelContents([f, g]) == iset{y, tomb, older}
  {
    var f, g := Two(11, y, tomb), One(12, older);
    OneIsGood(12, older);
    OneIsGood(13, x);
    assert f.Good();
    assert f in [f, g] && g in [f, g];
  }

  lemma TombGood(x: Entry, y: Entry, tomb: Entry, older: Entry)
    requires TombKeys(x, y, tomb, older)
    ensures var a, f, g, o := One(10, x), Two(11, y, tomb), One(12, older), One(13, x);
            && GoodVersion(Levels([], [a], [f, g])) && GoodVersion(Levels([], [], [o, g]))
            && Contents(Levels([], [a], [f, g])) == iset{x, y, tomb, older}
  {
    hide GoodVersion, Contents, LevelContents, Disjoint, GoodFiles;
    var a, f, g, o := One(10, x), Two(11, y, tomb), One(12, older), One(13, x);
    OneIsGood(10, x);
    TombLevel(x, y, tomb, older);
    HeldByOne(10, x);
    NothingIsNewer([a]);
    NothingIsNewer([f, g]);
    NothingIsNewer([o, g]);
    NothingIsNewer([]);
    TombContents(a, [f, g], iset{x}, iset{y, tomb, older});
    assert iset{x} + iset{y, tomb, older} == iset{x, y, tomb, older};
    assert NewerThan(LevelContents([a]), LevelContents([f, g]));
    OneFileGood(a);
    hide NewerThan;
    ThreeLevelsGood([], [a], [f, g]);
    ThreeLevelsGood([], [], [o, g]);
  }

  lemma OneFileGood(f: File)
    requires f.Good()
    ensures GoodFiles([f]) && Disjoint([f]) && GoodFiles([]) && Disjoint([]) && DistinctNumbers([]) && LevelZeroOrdered([])
  {
  }

  lemma TombContents(a: File, l2: seq<File>, upper: iset<Entry>, lower: iset<Entry>)
    requires LevelContents([a]) == upper && LevelContents(l2) == lower
    ensures Contents(Levels([], [a], l2)) == upper + lower
  {
    var v := Levels([], [a], l2);
    assert v.levels == [[], [a], l2, [], [], [], []];
    forall e ensures e in Contents(v) <==> e in upper || e in lower {
      assert Holds([a], e) ==> At(v, 1, e);
      assert Holds(l2, e) ==> At(v, 2, e);
      if m: nat :| At(v, m, e) {
        assert v.levels[m] != [];
      }
    }
  }

  lemma TombTouches(f: File, g: File)
    requires f.smallest.user == 0.0 && f.largest.user == 1.0 && g.smallest.user == 1.0 && g.largest.user == 1.0
    ensures Touching([f, g], Some(0.0), Some(0.0)) == [f]
  {
    assert [f, g][..1] == [f] && [f][..0] == [];
    assert Touching([f], Some(0.0), Some(0.0)) == [f];
  }

  lemma TombPicked(x: Entry, y: Entry, tomb: Entry, older: Entry)
    requires TombKeys(x, y, tomb, older)
    ensures var a, f, g := One(10, x), Two(11, y, tomb), One(12, older);
            Picked(Levels([], [a], [f, g]), 1, [a], [f]) && !NoBoundarySplit([f, g], [f])
  {
    var a, f, g := One(10, x), Two(11, y, tomb), One(12, older);
    TombTouches(f, g);
    assert a in [a] && Hull([a], 0.0, 0.0);
    assert TouchingHull([f, g], [a], [f]);
    hide Touching, TouchingHull;
    assert f in [f] && g in [f, g] && g !in [f] && Less(f.largest, g.smallest);
  }

  lemma NothingDeeper(l0: seq<File>, l1: seq<File>, l2: seq<File>, k: UserKey)
    ensures !KeyInDeeperRange(Levels(l0, l1, l2), 3, k)
  {
    var v := Levels(l0, l1, l2);
    assert v.levels[3] == [] && v.levels[4] == [] && v.levels[5] == [] && v.levels[6] == [];
  }

  lemma TombMerged(x: Entry, y: Entry, tomb: Entry, older: Entry, base: Version)
    requires TombKeys(x, y, tomb, older) && base == Levels([], [One(10, x)], [Two(11, y, tomb), One(12, older)])
    ensures var a, f, input := One(10, x), Two(11, y, tomb), [x, y, tomb];
            && IsMerge(input, [a] + [f]) && Survivors(input, 3, 9, base, 1) == [x] && Obsolete(tomb, 9, base, 1)
  {
    var a, f, input := One(10, x), Two(11, y, tomb), [x, y, tomb];
    assert [a] + [f] == [a, f] && a in [a, f] && f in [a, f];
    NothingDeeper([], [a], [f, One(12, older)], 1.0);
    hide KeyInDeeperRange;
    assert Survivors(input, 1, 9, base, 1) == Survivors(input, 0, 9, base, 1) + [x] == [x];
    assert Survivors(input, 2, 9, base, 1) == [x];
    assert Survivors(input, 3, 9, base, 1) == [x];
  }

  lemma TombMoved(x: Entry, y: Entry, tomb: Entry, older: Entry)
    requires TombKeys(x, y, tomb, older)
    ensures var a, f, g, o := One(10, x), Two(11, y, tomb), One(12, older), One(13, x);
            && Moved(Levels([], [a], [f, g]), Levels([], [], [o, g]), 1, [a], [f], [o]) && Flatten([o]) == [x]
  {
    var g, o := One(12, older), One(13, x);
    assert SortedBySmallest([o, g]) && SortedBySmallest([]);
    assert [o][..0] == [] && Flatten([o]) == Flatten([o][..0]) + o.entries;
  }

  lemma TombCompacted(x: Entry, y: Entry, tomb: Entry, older: Entry)
    requires TombKeys(x, y, tomb, older)
    ensures var a, f, g, o := One(10, x), Two(11, y, tomb), One(12, older), One(13, x);
            var before, after := Levels([], [a], [f, g]), Levels([], [], [o, g]);
            CompactedUnder(iset{}, before, after, 1, [a], [f], [o], [x, y, tomb], 9, before)
  {
    hide GoodVersion, Moved, IsMerge, Flatten, Survivors, DistinctSequences, Contents, InputsIn, DeeperKnown;
    var a, f, g := One(10, x), Two(11, y, tomb), One(12, older);
    var before := Levels([], [a], [f, g]);
    TombGood(x, y, tomb, older);
    TombMerged(x, y, tomb, older, before);
    TombMoved(x, y, tomb, older);
    TombDistinct(x, y, tomb, older, Contents(before));
    TombInputs(a, f, g);
    SameBaseKnown(before, 1, [a] + [f]);
    assert iset{} + Contents(before) == Contents(before);
  }

  lemma TombInputs(a: File, f: File, g: File)
    ensures InputsIn(Levels([], [a], [f, g]), 1, [a], [f])
  {
    assert f in [f, g];
  }

  lemma SameBaseKnown(v: Version, l: nat, inputs: seq<File>)
    ensures DeeperKnown(v, v, l, inputs)
  {
  }

  lemma TombDistinct(x: Entry, y: Entry, tomb: Entry, older: Entry, es: iset<Entry>)
    requires TombKeys(x, y, tomb, older) && es == iset{x, y, tomb, older}
    ensures DistinctSequences(es) && Newest(es, 1.0, 9, tomb)
  {
  }

  lemma TombBehind(x: Entry, y: Entry, tomb: Entry, older: Entry)
    requires TombKeys(x, y, tomb, older)
    ensures var a, f, g := One(10, x), Two(11, y, tomb), One(12, older);
            View(Behind(Levels([], [a], [f, g]), 1, [a], [f]), 1.0, 9) == Some(older.value)
  {
    var a, f, g := One(10, x), Two(11, y, tomb), One(12, older);
    var behind := Behind(Levels([], [a], [f, g]), 1, [a], [f]);
    assert g in [f, g] && g !in [f] && older in g.entries;
    assert older in Left([f, g], [f]);
    forall e | e in behind ensures e == older {
    }
    ViewOfNewest(behind, 1.0, 9, older);
  }

  /** A compaction whose output level splits user key 1.0 between a picked file, which ends with its tombstone, and the one
      behind it, which begins with an older value. The tombstone counts as obsolete, because only deeper levels are
      asked, and the deleted value is back. `CompactionReads.CompactionKeepsViewsIff` says exactly when that happens. */
  lemma DroppedTombstoneInput(x: Entry, y: Entry, tomb: Entry, older: Entry)
    requires TombKeys(x, y, tomb, older)
    ensures var a, f, g, o := One(10, x), Two(11, y, tomb), One(12, older), One(13, x);
            var before, after := Levels([], [a], [f, g]), Levels([], [], [o, g]);
            && Picked(before, 1, [a], [f]) && !NoBoundarySplit(before.levels[2], [f])
            && CompactedUnder(iset{}, before, after, 1, [a], [f], [o], [x, y, tomb], 9, before) && GoodVersion(after)
            && Uncovers(iset{}, before, 1, [a], [f], 9, before, 9, tomb)
            && View(Contents(before), 1.0, 9) == None && View(Contents(after), 1.0, 9) == Some(older.value)
  {
    hide GoodVersion, Picked, NoBoundarySplit, CompactedUnder, Obsolete, View, Behind, Contents, Newest;
    var a, f, g, o := One(10, x), Two(11, y, tomb), One(12, older), One(13, x);
    var before, after := Levels([], [a], [f, g]), Levels([], [], [o, g]);
    TombGood(x, y, tomb, older);
    TombPicked(x, y, tomb, older);
    TombMerged(x, y, tomb, older, before);
    TombCompacted(x, y, tomb, older);
    TombDistinct(x, y, tomb, older, Contents(before));
    TombBehind(x, y, tomb, older);
    assert iset{} + Contents(before) == Contents(before) && iset{} + Contents(after) == Contents(after);
    ViewAfterObsolete(iset{}, before, after, 1, [a], [f], [o], [x, y, tomb], 9, before, 2, 9);
  }
}
