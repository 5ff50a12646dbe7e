/** Choosing the inputs of a compaction (db/version_set.cc). */
module Picking {
  import opened Wrappers
  import opened InternalKeys
  import opened Versions

  const EXPANDED_COMPACTION_BYTE_SIZE_LIMIT: nat := 25 * 2 * 1048576
  const MAX_GRANDPARENT_OVERLAP_BYTES: nat := 10 * 2 * 1048576
  const TARGET_FILE_SIZE: nat := 2 * 1048576

  function TotalFileSize(files: seq<File>): nat {
    if files == [] then 0 else TotalFileSize(files[..|files| - 1]) + files[|files| - 1].size
  }

  // ---- ranges ----

  /** [lo, hi] is the hull of the files' user key ranges. */
  ghost predicate Hull(files: seq<File>, lo: UserKey, hi: UserKey) {
    && (forall f :: f in files ==> lo <= f.smallest.user && f.largest.user <= hi)
    && (exists f :: f in files && f.smallest.user == lo)
    && (exists f :: f in files && f.largest.user == hi)
  }

  ghost predicate Spans(files: seq<File>, p: UserKey) {
    exists f :: f in files && f.smallest.user <= p <= f.largest.user
  }

  /** Between any two of the files there is no user key that none of them covers. */
  ghost predicate Gapless(files: seq<File>) {
    forall f, g, p | f in files && g in files && f.smallest.user <= p <= g.largest.user :: Spans(files, p)
  }

  ghost predicate LargestKey(files: seq<File>, k: Key) {
    (exists f :: f in files && f.largest == k) && (forall f :: f in files ==> AtMost(f.largest, k))
  }

  /** The minimal internal key range covering the files. */
  method GetRange(files: seq<File>) returns (smallest: Key, largest: Key)
    requires GoodFiles(files) && files != []
    ensures Hull(files, smallest.user, largest.user)
    ensures LargestKey(files, largest)
  {
    smallest, largest := files[0].smallest, files[0].largest;
    for i := 1 to |files|
      invariant exists f :: f in files && f.smallest == smallest
      invariant exists f :: f in files && f.largest == largest
      invariant forall j :: 0 <= j < i ==> AtMost(smallest, files[j].smallest) && AtMost(files[j].largest, largest)
    {
      if Less(files[i].smallest, smallest) {
        smallest := files[i].smallest;
      }
      if Less(largest, files[i].largest) {
        largest := files[i].largest;
      }
    }
  }

  /** Adding files that touch a range the others cover leaves no gap. */
  lemma TouchingKeepsGapless(files: seq<File>, lo: UserKey, hi: UserKey)
    requires forall p :: lo <= p <= hi ==> Spans(files, p)
    requires forall f :: f in files ==> f.Touches(Some(lo), Some(hi))
    ensures Gapless(files)
  {
    forall f, g, p | f in files && g in files && f.smallest.user <= p <= g.largest.user ensures Spans(files, p) {
      assert f.Touches(Some(lo), Some(hi)) && g.Touches(Some(lo), Some(hi));
    }
  }

  lemma GaplessSpansHull(files: seq<File>, lo: UserKey, hi: UserKey, p: UserKey)
    requires Gapless(files) && Hull(files, lo, hi) && lo <= p <= hi
    ensures Spans(files, p)
  {
  }

  // ---- picked inputs ----

  /** Level-0 inputs leave nothing behind that they overlap. */
  ghost predicate OverlapClosedInputs(files: seq<File>, inputs: seq<File>) {
    forall f, g :: f in inputs && g in files && g !in inputs ==>
      f.largest.user < g.smallest.user || g.largest.user < f.smallest.user
  }

  /** `c1` is everything in `next` that touches the hull of `c0`. */
  ghost predicate TouchingHull(next: seq<File>, c0: seq<File>, c1: seq<File>) {
    exists lo, hi :: Hull(c0, lo, hi) && c1 == Touching(next, Some(lo), Some(hi))
  }

  /** What every way of picking establishes about the inputs `c0` and `c1` of a compaction of `level`. */
  ghost predicate Picked(v: Version, level: nat, c0: seq<File>, c1: seq<File>) {
    && level + 1 < NUM_LEVELS == |v.levels|
    && c0 != []
    && (forall f :: f in c0 ==> f in v.levels[level])
    && (forall f :: f in c1 ==> f in v.levels[level + 1])
    && (level == 0 ==> OverlapClosedInputs(v.levels[0], c0))
    && TouchingHull(v.levels[level + 1], c0, c1)
  }

  /** A wider range touches at least as many files, and if no more then the same. */
  lemma {:induction false} TouchingMonotone(files: seq<File>, lo: Option<UserKey>, hi: Option<UserKey>,
                                            lo': Option<UserKey>, hi': Option<UserKey>)
    requires Wider(lo', hi', lo, hi)
    ensures |Touching(files, lo, hi)| <= |Touching(files, lo', hi')|
    ensures |Touching(files, lo, hi)| == |Touching(files, lo', hi')| ==> Touching(files, lo, hi) == Touching(files, lo', hi')
  {
    if files != [] {
      TouchingMonotone(files[..|files| - 1], lo, hi, lo', hi');
    }
  }

  lemma ClosedRangeInputs(files: seq<File>, lo: Option<UserKey>, hi: Option<UserKey>)
    requires GoodFiles(files) && OverlapClosed(files, lo, hi)
    ensures OverlapClosedInputs(files, Touching(files, lo, hi))
  {
    forall f, g | f in Touching(files, lo, hi) && g in files && g !in Touching(files, lo, hi)
      ensures f.largest.user < g.smallest.user || g.largest.user < f.smallest.user
    {
      FileRange(g);
      assert Wider(lo, hi, Some(f.smallest.user), Some(f.largest.user));
    }
  }

  lemma HullContains(files: seq<File>, more: seq<File>, lo: UserKey, hi: UserKey, lo': UserKey, hi': UserKey)
    requires Hull(files, lo, hi) && Hull(more, lo', hi')
    requires forall f :: f in files ==> f in more
    ensures lo' <= lo && hi <= hi'
  {
  }

  lemma HullIsOne(files: seq<File>, lo: UserKey, hi: UserKey, lo': UserKey, hi': UserKey)
    requires Hull(files, lo, hi) && Hull(files, lo', hi')
    ensures lo == lo' && hi == hi'
  {
  }

  // ---- taking more of the level ----

  /** The files of the level that overlap the range of all inputs. */
  ghost predicate OverlapsAll(level: nat, here: seq<File>, in0: seq<File>, c1: seq<File>, more: seq<File>) {
    exists start, limit :: Hull(in0 + c1, start, limit) && IsOverlapping(here, level, Some(start), Some(limit), more)
  }

  /** There are more of them, they touch no more of the next level, and the compaction stays small. */
  ghost predicate MayExpand(next: seq<File>, in0: seq<File>, c1: seq<File>, more: seq<File>) {
    && |more| > |in0| && TouchingHull(next, more, c1)
    && TotalFileSize(c1) + TotalFileSize(more) < EXPANDED_COMPACTION_BYTE_SIZE_LIMIT
  }

  /** The inputs are expanded if they may be, and if there is anything in the next level at all. */
  ghost predicate IsExpansion(level: nat, here: seq<File>, next: seq<File>, in0: seq<File>, c1: seq<File>, c0: seq<File>) {
    if c1 == [] then c0 == in0
    else exists more :: OverlapsAll(level, here, in0, c1, more) && c0 == if MayExpand(next, in0, c1, more) then more else in0
  }

  lemma NoExpansion(next: seq<File>, in0: seq<File>, c1: seq<File>, more: seq<File>, lo: UserKey, hi: UserKey)
    requires Hull(more, lo, hi) && |Touching(next, Some(lo), Some(hi))| != |c1|
    ensures !MayExpand(next, in0, c1, more)
  {
    forall x, y | Hull(more, x, y) ensures c1 != Touching(next, Some(x), Some(y)) {
      HullIsOne(more, lo, hi, x, y);
    }
  }

  /** Tries to take more files of the level without taking more of the next one. `here` and `next` are
      the two levels; [smallest, largest] is the range of `in0` and [allStart, allLimit] that of all inputs. */
  method Expand(level: nat, here: seq<File>, next: seq<File>, in0: seq<File>, c1: seq<File>,
                smallest: Key, largest: Key, allStart: Key, allLimit: Key)
    returns (c0: seq<File>, limit: Key)
    requires GoodFiles(here) && GoodFiles(c1) && in0 != [] && forall f :: f in in0 ==> f in here
    requires level == 0 ==> OverlapClosedInputs(here, in0)
    requires Hull(in0, smallest.user, largest.user) && LargestKey(in0, largest)
    requires c1 == Touching(next, Some(smallest.user), Some(largest.user)) && GoodFiles(next)
    requires Hull(in0 + c1, allStart.user, allLimit.user) && allStart.user <= allLimit.user && c1 != []
    ensures IsExpansion(level, here, next, in0, c1, c0)
    ensures c0 != [] && GoodFiles(c0)
    ensures forall f :: f in in0 ==> f in c0
    ensures forall f :: f in c0 ==> f in here
    ensures level == 0 ==> OverlapClosedInputs(here, c0)
    ensures TouchingHull(next, c0, c1)
    ensures Gapless(in0 + c1) ==> Gapless(c0 + c1)
    ensures LargestKey(c0, limit)
  {
    c0, limit := in0, largest;
    var expanded0, lo, hi := GetOverlappingInputs(here, level, Some(allStart), Some(allLimit));
    ExpandedContains(here, in0, c1, allStart.user, allLimit.user, lo, hi);
    assert OverlapsAll(level, here, in0, c1, expanded0);
    if |expanded0| > |in0| && TotalFileSize(c1) + TotalFileSize(expanded0) < EXPANDED_COMPACTION_BYTE_SIZE_LIMIT {
      var newStart, newLimit := GetRange(expanded0);
      var expanded1, _, _ := GetOverlappingInputs(next, level + 1, Some(newStart), Some(newLimit));
      if |expanded1| == |c1| {
        HullContains(in0, expanded0, smallest.user, largest.user, newStart.user, newLimit.user);
        TouchingMonotone(next, Some(smallest.user), Some(largest.user), Some(newStart.user), Some(newLimit.user));
        if level == 0 {
          ClosedRangeInputs(here, lo, hi);
        }
        ExpandedGapless(here, in0, c1, expanded0, allStart.user, allLimit.user, lo, hi);
        c0, limit := expanded0, newLimit;
        assert MayExpand(next, in0, c1, expanded0);
      } else {
        NoExpansion(next, in0, c1, expanded0, newStart.user, newLimit.user);
      }
    }
  }

  /** The level+2 files within the range of all inputs. */
  method Grandparents(v: Version, level: nat, c0: seq<File>, c1: seq<File>) returns (r: seq<File>)
    requires GoodVersion(v) && Picked(v, level, c0, c1)
    ensures level + 2 < NUM_LEVELS ==> TouchingHull(v.levels[level + 2], c0 + c1, r)
    ensures level + 2 >= NUM_LEVELS ==> r == []
  {
    r := [];
    if level + 2 < NUM_LEVELS {
      assert GoodFiles(v.levels[level]) && GoodFiles(v.levels[level + 1]) && GoodFiles(v.levels[level + 2]);
      assert GoodFiles(c0 + c1);
      var allStart, allLimit := GetRange(c0 + c1);
      var overlapping, _, _ := GetOverlappingInputs(v.levels[level + 2], level + 2, Some(allStart), Some(allLimit));
      r := overlapping;
    }
  }

  datatype Inputs = Inputs(level: nat, in0: seq<File>, in1: seq<File>, grandparents: seq<File>) {
    function All(): seq<File> {
      in0 + in1
    }
  }

  /** The level+1 inputs, and possibly more level inputs as long as that adds nothing at level+1. */
  method SetupOtherInputs(v: Version, level: nat, in0: seq<File>) returns (c: Inputs, largest: Key)
    requires GoodVersion(v) && level + 1 < NUM_LEVELS
    requires in0 != [] && forall f :: f in in0 ==> f in v.levels[level]
    requires level == 0 ==> OverlapClosedInputs(v.levels[0], in0)
    ensures c.level == level && Picked(v, level, c.in0, c.in1)
    ensures forall f :: f in in0 ==> f in c.in0
    ensures Gapless(in0) ==> Gapless(c.All())
    ensures LargestKey(c.in0, largest)
    ensures CompletedFrom(v, level, in0, c)
  {
    hide GoodVersion, GoodFiles, Gapless, Hull, TouchingHull, IsExpansion, OverlapClosedInputs, LargestKey, Touching, Picked,
         CompletedFrom;
    TwoGoodLevels(v, level);
    var here, next := v.levels[level], v.levels[level + 1];
    var c1, smallest, allStart, allLimit;
    c1, smallest, largest, allStart, allLimit := NextLevelInputs(level, here, next, in0);
    var c0 := in0;
    NotExpanded(level, here, next, in0);
    if c1 != [] {
      c0, largest := Expand(level, here, next, in0, c1, smallest, largest, allStart, allLimit);
    }
    InputsArePicked(v, level, c0, c1);
    var grandparents := Grandparents(v, level, c0, c1);
    c := Inputs(level, c0, c1, grandparents);
    InputsComplete(v, level, in0, c);
  }

  lemma TwoGoodLevels(v: Version, level: nat)
    requires GoodVersion(v) && level + 1 < NUM_LEVELS
    ensures |v.levels| == NUM_LEVELS && GoodFiles(v.levels[level]) && GoodFiles(v.levels[level + 1])
  {
  }

  lemma InputsArePicked(v: Version, level: nat, c0: seq<File>, c1: seq<File>)
    requires level + 1 < NUM_LEVELS == |v.levels| && c0 != []
    requires forall f :: f in c0 ==> f in v.levels[level]
    requires forall f :: f in c1 ==> f in v.levels[level + 1]
    requires level == 0 ==> OverlapClosedInputs(v.levels[0], c0)
    requires TouchingHull(v.levels[level + 1], c0, c1)
    ensures Picked(v, level, c0, c1)
  {
  }

  lemma InputsComplete(v: Version, level: nat, in0: seq<File>, c: Inputs)
    requires c.level == level && level + 1 < NUM_LEVELS == |v.levels| && TouchingHull(v.levels[level + 1], in0, c.in1)
    requires IsExpansion(level, v.levels[level], v.levels[level + 1], in0, c.in1, c.in0)
    requires level + 2 < NUM_LEVELS ==> TouchingHull(v.levels[level + 2], c.in0 + c.in1, c.grandparents)
    requires level + 2 >= NUM_LEVELS ==> c.grandparents == []
    ensures CompletedFrom(v, level, in0, c)
  {
  }

  method NextLevelInputs(level: nat, here: seq<File>, next: seq<File>, in0: seq<File>)
    returns (c1: seq<File>, smallest: Key, largest: Key, allStart: Key, allLimit: Key)
    requires GoodFiles(here) && GoodFiles(next) && in0 != [] && forall f :: f in in0 ==> f in here
    ensures Hull(in0, smallest.user, largest.user) && LargestKey(in0, largest) && GoodFiles(c1) && GoodFiles(in0)
    ensures c1 == Touching(next, Some(smallest.user), Some(largest.user)) && TouchingHull(next, in0, c1)
    ensures forall f :: f in c1 ==> f in next
    ensures Hull(in0 + c1, allStart.user, allLimit.user) && allStart.user <= allLimit.user
    ensures Gapless(in0) ==> Gapless(in0 + c1)
  {
    assert GoodFiles(in0);
    hide Gapless, Grown, OverlapClosed, IsOverlapping;
    smallest, largest := GetRange(in0);
    var overlapping, _, _ := GetOverlappingInputs(next, level + 1, Some(smallest), Some(largest));
    c1 := overlapping;
    assert GoodFiles(in0 + c1);
    allStart, allLimit := GetRange(in0 + c1);
    FileRange(in0[0]);
    assert in0[0] in in0 && in0[0] in in0 + c1;
    if Gapless(in0) {
      FirstInputsGapless(in0, c1, smallest.user, largest.user);
    }
  }

  lemma NotExpanded(level: nat, here: seq<File>, next: seq<File>, in0: seq<File>)
    ensures IsExpansion(level, here, next, in0, [], in0)
  {
  }

  lemma FirstInputsGapless(in0: seq<File>, c1: seq<File>, lo: UserKey, hi: UserKey)
    requires Gapless(in0) && Hull(in0, lo, hi) && lo <= hi && GoodFiles(in0)
    requires forall f :: f in c1 ==> f.Touches(Some(lo), Some(hi))
    ensures Gapless(in0 + c1)
  {
    forall p | lo <= p <= hi ensures Spans(in0 + c1, p) {
      GaplessSpansHull(in0, lo, hi, p);
      var f :| f in in0 && f.smallest.user <= p <= f.largest.user;
      assert f in in0 + c1;
    }
    forall f | f in in0 + c1 ensures f.Touches(Some(lo), Some(hi)) {
      if f in in0 {
        FileRange(f);
      }
    }
    TouchingKeepsGapless(in0 + c1, lo, hi);
  }

  lemma ExpandedContains(files: seq<File>, in0: seq<File>, c1: seq<File>, start: UserKey, limit: UserKey,
                         lo: Option<UserKey>, hi: Option<UserKey>)
    requires GoodFiles(in0) && forall f :: f in in0 ==> f in files
    requires Hull(in0 + c1, start, limit) && Wider(lo, hi, Some(start), Some(limit))
    ensures forall f :: f in in0 ==> f in Touching(files, lo, hi)
  {
    forall f | f in in0 ensures f in Touching(files, lo, hi) {
      FileRange(f);
      assert f in in0 + c1;
    }
  }

  lemma ExpandedGapless(files: seq<File>, in0: seq<File>, c1: seq<File>, expanded0: seq<File>,
                        start: UserKey, limit: UserKey, lo: Option<UserKey>, hi: Option<UserKey>)
    requires GoodFiles(files) && GoodFiles(c1) && start <= limit
    requires Hull(in0 + c1, start, limit)
    requires expanded0 == Touching(files, lo, hi) && Wider(lo, hi, Some(start), Some(limit))
    requires lo.Some? && hi.Some?
    requires Covered(files, Some(start), Some(limit), lo, hi)
    requires forall f :: f in in0 ==> f in expanded0
    ensures Gapless(in0 + c1) ==> Gapless(expanded0 + c1)
  {
    var all := expanded0 + c1;
    forall p | Gapless(in0 + c1) && lo.value <= p <= hi.value ensures Spans(all, p) {
      if start <= p <= limit {
        GaplessSpansHull(in0 + c1, start, limit, p);
        var f :| f in in0 + c1 && f.smallest.user <= p <= f.largest.user;
        assert f in all;
      } else {
        assert InRange(p, lo, hi) && !InRange(p, Some(start), Some(limit));
        var f :| f in files && f.Touches(lo, hi) && f.smallest.user <= p <= f.largest.user;
        assert f in all;
      }
    }
    forall f | f in all ensures f.Touches(lo, hi) {
      if f in c1 {
        FileRange(f);
        assert f in in0 + c1;
      }
    }
    if Gapless(in0 + c1) {
      TouchingKeepsGapless(all, lo.value, hi.value);
    }
  }

  lemma OneFileGapless(f: File)
    requires f.Good()
    ensures Gapless([f])
  {
  }

  /** A level-0 seed file grows to everything it is connected to by overlaps. */
  lemma SeedGapless(files: seq<File>, seed: File, lo: UserKey, hi: UserKey)
    requires GoodFiles(files) && seed in files
    requires Grown(files, Some(seed.smallest.user), Some(seed.largest.user), Some(lo), Some(hi))
    ensures Gapless(Touching(files, Some(lo), Some(hi))) && seed in Touching(files, Some(lo), Some(hi))
  {
    var all := Touching(files, Some(lo), Some(hi));
    FileRange(seed);
    assert seed in all;
    forall p | lo <= p <= hi ensures Spans(all, p) {
      if !(seed.smallest.user <= p <= seed.largest.user) {
        assert InRange(p, Some(lo), Some(hi)) && !InRange(p, Some(seed.smallest.user), Some(seed.largest.user));
        var f :| f in files && f.Touches(Some(lo), Some(hi)) && f.smallest.user <= p <= f.largest.user;
        assert f in all;
      }
    }
    TouchingKeepsGapless(all, lo, hi);
  }

  /** The inputs that begin with these files of a level. */
  ghost predicate CompletedFrom(v: Version, level: nat, in0: seq<File>, c: Inputs)
    requires level + 1 < |v.levels|
  {
    && c.level == level && TouchingHull(v.levels[level + 1], in0, c.in1)
    && IsExpansion(level, v.levels[level], v.levels[level + 1], in0, c.in1, c.in0)
    && if level + 2 < |v.levels| then TouchingHull(v.levels[level + 2], c.All(), c.grandparents) else c.grandparents == []
  }

  /** A single file with nothing below it may move down as it is, unless it overlaps too much further down. */
  predicate IsTrivialMove(c: Inputs) {
    |c.in0| == 1 && |c.in1| == 0 && TotalFileSize(c.grandparents) <= MAX_GRANDPARENT_OVERLAP_BYTES
  }

  // ---- which level, and which file ----

  const L0_COMPACTION_TRIGGER: nat := 4

  function MaxBytesForLevel(level: nat): (r: real)
    ensures r >= 10485760.0
  {
    if level <= 1 then 10.0 * 1048576.0 else 10.0 * MaxBytesForLevel(level - 1)
  }

  /** How full a level is: level 0 goes by the number of its files. */
  function Score(files: seq<File>, level: nat): (r: real)
    ensures r >= 0.0 && (files == [] ==> r == 0.0)
  {
    if level == 0 then |files| as real / L0_COMPACTION_TRIGGER as real
    else TotalFileSize(files) as real / MaxBytesForLevel(level)
  }

  /** A level is full from four files on in level 0, and from 10 MB on in level 1, ten times as much in every level below. */
  lemma IsFullIff(files: seq<File>, level: nat)
    requires level + 1 < NUM_LEVELS
    ensures Score(files, level) >= 1.0 <==>
            if level == 0 then |files| >= 4 else TotalFileSize(files) >= 10485760 * [0, 1, 10, 100, 1000, 10000][level]
  {
    hide TotalFileSize;
    if level > 0 {
      LevelLimits();
      AtLeastOne(TotalFileSize(files) as real, MaxBytesForLevel(level));
    }
  }

  lemma LevelLimits()
    ensures forall l :: 1 <= l <= 5 ==> MaxBytesForLevel(l) == (10485760 * [0, 1, 10, 100, 1000, 10000][l]) as real
  {
    assert MaxBytesForLevel(2) == 10.0 * MaxBytesForLevel(1) && MaxBytesForLevel(3) == 10.0 * MaxBytesForLevel(2);
    assert MaxBytesForLevel(4) == 10.0 * MaxBytesForLevel(3) && MaxBytesForLevel(5) == 10.0 * MaxBytesForLevel(4);
  }

  lemma AtLeastOne(x: real, y: real)
    requires y > 0.0
    ensures x / y >= 1.0 <==> x >= y
  {
  }

  /** The uppermost of the fullest levels; the last one is never compacted. */
  ghost predicate Fullest(v: Version, level: nat, score: real)
    requires |v.levels| == NUM_LEVELS
  {
    && level + 1 < NUM_LEVELS && score == Score(v.levels[level], level)
    && forall l: nat :: l + 1 < NUM_LEVELS ==> Score(v.levels[l], l) <= score && (l < level ==> Score(v.levels[l], l) < score)
  }

  method Finalize(v: Version) returns (bestLevel: nat, bestScore: real)
    requires |v.levels| == NUM_LEVELS
    ensures Fullest(v, bestLevel, bestScore)
  {
    hide Score;
    bestLevel, bestScore := 0, -1.0;
    for level := 0 to NUM_LEVELS - 1
      invariant level == 0 ==> bestLevel == 0 && bestScore == -1.0
      invariant level > 0 ==> bestLevel < level && bestScore == Score(v.levels[bestLevel], bestLevel)
      invariant forall l: nat :: l < level ==> Score(v.levels[l], l) <= bestScore
      invariant forall l: nat :: l < bestLevel ==> Score(v.levels[l], l) < bestScore
    {
      var score := Score(v.levels[level], level);
      if score > bestScore {
        bestLevel, bestScore := level, score;
      }
    }
  }

  predicate IsPast(pointer: Option<Key>, f: File) {
    pointer.Some? ==> Less(pointer.value, f.largest)
  }

  /** The first file that ends past the pointer or, when none does, the first of all. */
  ghost predicate NextInTurn(files: seq<File>, pointer: Option<Key>, f: File) {
    if exists g :: g in files && IsPast(pointer, g) then
      exists i :: 0 <= i < |files| && files[i] == f && IsPast(pointer, f) && forall j :: 0 <= j < i ==> !IsPast(pointer, files[j])
    else
      files != [] && f == files[0]
  }

  /** An automatic compaction begins with one file; in level 0, with all it is connected to by overlaps. */
  ghost predicate BeginsWith(files: seq<File>, level: nat, f: File, in0: seq<File>) {
    if level > 0 then in0 == [f]
    else IsOverlapping(files, 0, Some(f.smallest.user), Some(f.largest.user), in0)
  }

  /** The first of the files that touch a range, in order, up to a size: enough of them to reach it and no more, or all. */
  ghost predicate FirstInRange(files: seq<File>, begin: Option<UserKey>, end: Option<UserKey>, limit: nat, in0: seq<File>) {
    && in0 != [] && (forall f :: f in in0 ==> f in files && f.Touches(begin, end))
    && Disjoint(in0) && (forall f, g :: f in in0 && g in files && g.Touches(begin, end) && g !in in0 ==> Less(f.largest, g.smallest))
    && (TotalFileSize(in0) >= limit || forall g :: g in files && g.Touches(begin, end) ==> g in in0)
    && (|in0| == 1 || TotalFileSize(in0[..|in0| - 1]) < limit)
  }

  /** What a manual compaction begins with: in level 0 everything that overlaps the range, below it the first of it. */
  ghost predicate BeginsInRange(files: seq<File>, level: nat, begin: Option<UserKey>, end: Option<UserKey>, in0: seq<File>) {
    if level == 0 then IsOverlapping(files, 0, begin, end, in0) && forall f :: f in files && f.Touches(begin, end) ==> f in in0
    else FirstInRange(files, begin, end, TARGET_FILE_SIZE, in0)
  }

  lemma PrefixIsFirst(files: seq<File>, begin: Option<UserKey>, end: Option<UserKey>, limit: nat, in0: seq<File>)
    requires GoodFiles(files) && Disjoint(files) && in0 != [] && in0 <= Touching(files, begin, end)
    requires in0 == Touching(files, begin, end) || TotalFileSize(in0) >= limit
    requires |in0| == 1 || TotalFileSize(in0[..|in0| - 1]) < limit
    ensures FirstInRange(files, begin, end, limit, in0)
  {
    hide TotalFileSize, Touching;
    TouchingInOrder(files, begin, end);
    var all := Touching(files, begin, end);
    assert forall i :: 0 <= i < |in0| ==> in0[i] == all[i];
    forall f, g | f in in0 && g in files && g.Touches(begin, end) && g !in in0 ensures Less(f.largest, g.smallest) {
      var i :| 0 <= i < |in0| && in0[i] == f;
      assert g in all;
      var j :| 0 <= j < |all| && all[j] == g;
      assert |in0| <= j;
    }
  }

  /** The pointer of the compacted level is moved to the end of its inputs, and no other. */
  ghost predicate PointerMoved(before: seq<Option<Key>>, after: seq<Option<Key>>, c: Inputs) {
    c.level < |before| && exists k :: LargestKey(c.in0, k) && after == before[c.level := Some(k)]
  }

  /** One for every 16 KB, but at least a hundred. */
  function AllowedSeeks(f: File): (n: int)
    ensures n >= 100 && f.size < 16384 * (n + 1) && (n == 100 || 16384 * n <= f.size)
  {
    if f.size / 16384 < 100 then 100 else f.size / 16384
  }

  /** The current version, where the next compaction of each level starts, and the file that reads have sought too often. */
  class VersionSet {
    var current: Version
    var compactPointer: seq<Option<Key>>
    var compactionLevel: nat
    var compactionScore: real
    var allowedSeeks: map<nat, int> // left to the files charged so far, by number
    var fileToCompact: Option<(nat, File)>

    constructor (v: Version)
      requires |v.levels| == NUM_LEVELS
      ensures Valid() && current == v && compactPointer == seq(NUM_LEVELS, _ => None) && fileToCompact == None && allowedSeeks == map[]
    {
      current := v;
      compactPointer := seq(NUM_LEVELS, _ => None);
      allowedSeeks, fileToCompact := map[], None;
      new;
      compactionLevel, compactionScore := Finalize(v);
    }

    ghost predicate Valid()
      reads this
    {
      && |compactPointer| == NUM_LEVELS == |current.levels| && Fullest(current, compactionLevel, compactionScore)
      && (fileToCompact.Some? ==> Compactable(fileToCompact.value))
    }

    ghost predicate Compactable(c: (nat, File))
      reads this
    {
      c.0 + 1 < NUM_LEVELS == |current.levels| && c.1 in current.levels[c.0]
    }

    /** Charges the file that a read looked in for nothing; the first to use up its seeks is to be compacted. */
    method UpdateStats(charged: Option<(nat, File)>) returns (due: bool)
      requires Valid() && (charged.Some? ==> Compactable(charged.value))
      modifies this`allowedSeeks, this`fileToCompact
      ensures Valid()
      ensures charged.None? ==> !due && allowedSeeks == old(allowedSeeks)
      ensures charged.Some? ==> allowedSeeks == old(allowedSeeks)[charged.value.1.number := old(SeeksLeft(charged.value.1)) - 1]
      ensures due <==> charged.Some? && SeeksLeft(charged.value.1) <= 0 && old(fileToCompact).None?
      ensures fileToCompact == if due then charged else old(fileToCompact)
    {
      due := false;
      if charged.Some? {
        var f := charged.value.1;
        allowedSeeks := allowedSeeks[f.number := SeeksLeft(f) - 1];
        if SeeksLeft(f) <= 0 && fileToCompact.None? {
          fileToCompact, due := charged, true;
        }
      }
    }

    function SeeksLeft(f: File): int
      reads this`allowedSeeks
    {
      if f.number in allowedSeeks then allowedSeeks[f.number] else AllowedSeeks(f)
    }

    /** Completes the inputs from the chosen level's files and moves that level's compaction pointer to
        their end. */
    method Setup(level: nat, in0: seq<File>) returns (c: Inputs)
      requires Valid() && GoodVersion(current) && level + 1 < NUM_LEVELS
      requires in0 != [] && forall f :: f in in0 ==> f in current.levels[level]
      requires level == 0 ==> OverlapClosedInputs(current.levels[0], in0)
      modifies this`compactPointer
      ensures Valid()
      ensures c.level == level && Picked(current, level, c.in0, c.in1)
      ensures forall f :: f in in0 ==> f in c.in0
      ensures CompletedFrom(current, level, in0, c)
      ensures Gapless(in0) ==> Gapless(c.All())
      ensures PointerMoved(old(compactPointer), compactPointer, c)
    {
      hide GoodVersion, CompletedFrom, Picked, OverlapClosedInputs, LargestKey, Gapless, Fullest;
      var largest;
      c, largest := SetupOtherInputs(current, level, in0);
      compactPointer := compactPointer[level := Some(largest)];
    }

    /** The file an automatic compaction begins with: of the fullest level, if it is full, the one whose turn it is; else
        the one charged with too many seeks. */
    ghost predicate IsDue(pointers: seq<Option<Key>>, level: nat, f: File)
      reads this
    {
      && |pointers| == NUM_LEVELS == |current.levels| && level + 1 < NUM_LEVELS && f in current.levels[level]
      && if compactionScore >= 1.0 then level == compactionLevel && NextInTurn(current.levels[level], pointers[level], f)
         else fileToCompact == Some((level, f))
    }

    /** The next automatic compaction, if one is due. Its inputs leave no gap. */
    method PickCompaction() returns (c: Option<Inputs>)
      requires Valid() && GoodVersion(current)
      modifies this`compactPointer
      ensures Valid()
      ensures c.None? <==> compactionScore < 1.0 && fileToCompact.None?
      ensures c.Some? ==> Picked(current, c.value.level, c.value.in0, c.value.in1) && Gapless(c.value.All())
      ensures c.Some? ==> exists f, in0 :: IsDue(old(compactPointer), c.value.level, f)
                                           && BeginsWith(current.levels[c.value.level], c.value.level, f, in0)
                                           && CompletedFrom(current, c.value.level, in0, c.value)
      ensures if c.Some? then PointerMoved(old(compactPointer), compactPointer, c.value) else compactPointer == old(compactPointer)
    {
      hide GoodVersion, Fullest, NextInTurn, BeginsWith, CompletedFrom, Picked, PointerMoved, Gapless, OverlapClosedInputs;
      if compactionScore < 1.0 && fileToCompact.None? {
        return None;
      }
      var level, f := FileDue();
      var in0 := FirstInputs(level, f);
      var inputs := Setup(level, in0);
      c := Some(inputs);
      assert IsDue(old(compactPointer), level, f);
    }

    method FileDue() returns (level: nat, f: File)
      requires Valid() && (compactionScore >= 1.0 || fileToCompact.Some?)
      ensures IsDue(compactPointer, level, f)
    {
      if compactionScore >= 1.0 {
        level := compactionLevel;
        f := FileInTurn(level);
      } else {
        level, f := fileToCompact.value.0, fileToCompact.value.1;
      }
    }

    method FirstInputs(level: nat, f: File) returns (in0: seq<File>)
      requires Valid() && GoodVersion(current) && level < NUM_LEVELS && f in current.levels[level]
      ensures f in in0 && BeginsWith(current.levels[level], level, f, in0) && Gapless(in0)
      ensures forall g :: g in in0 ==> g in current.levels[level]
      ensures level == 0 ==> OverlapClosedInputs(current.levels[0], in0)
    {
      assert GoodFiles(current.levels[level]) && f.Good();
      OneFileGapless(f);
      if level == 0 {
        in0 := PickLevelZero(f);
      } else {
        in0 := [f];
      }
    }

    method FileInTurn(level: nat) returns (f: File)
      requires |compactPointer| == NUM_LEVELS == |current.levels| && level < NUM_LEVELS && current.levels[level] != []
      ensures f in current.levels[level] && NextInTurn(current.levels[level], compactPointer[level], f)
    {
      var files, pointer := current.levels[level], compactPointer[level];
      for i := 0 to |files|
        invariant forall j :: 0 <= j < i ==> !IsPast(pointer, files[j])
      {
        if IsPast(pointer, files[i]) {
          return files[i];
        }
      }
      f := files[0];
    }

    method PickLevelZero(f: File) returns (in0: seq<File>)
      requires Valid() && GoodVersion(current) && f in current.levels[0] && f.Good()
      ensures f in in0 && forall g :: g in in0 ==> g in current.levels[0]
      ensures BeginsWith(current.levels[0], 0, f, in0)
      ensures Gapless(in0) && OverlapClosedInputs(current.levels[0], in0)
    {
      assert GoodFiles(current.levels[0]);
      var files, lo, hi := GetOverlappingInputs(current.levels[0], 0, Some(f.smallest), Some(f.largest));
      SeedGapless(current.levels[0], f, lo.value, hi.value);
      ClosedRangeInputs(current.levels[0], lo, hi);
      in0 := files;
    }

    /** A manual compaction of the files touching a caller's range; above level 0 only the first
        TARGET_FILE_SIZE bytes of them. */
    method CompactRange(level: nat, begin: Option<Key>, end: Option<Key>) returns (c: Option<Inputs>)
      requires Valid() && GoodVersion(current) && level + 1 < NUM_LEVELS
      modifies this`compactPointer
      ensures Valid()
      ensures c.None? <==> forall f :: f in current.levels[level] ==> !f.Touches(UserPart(begin), UserPart(end))
      ensures c.Some? ==> Picked(current, level, c.value.in0, c.value.in1)
      ensures c.Some? ==> exists in0 :: BeginsInRange(current.levels[level], level, UserPart(begin), UserPart(end), in0)
                                        && (forall f :: f in in0 ==> f in c.value.in0) && CompletedFrom(current, level, in0, c.value)
      ensures if c.Some? then PointerMoved(old(compactPointer), compactPointer, c.value) else compactPointer == old(compactPointer)
    {
      hide GoodVersion, BeginsInRange, CompletedFrom, Picked, PointerMoved, Gapless, OverlapClosedInputs, Fullest;
      var in0 := InputsInRange(level, begin, end);
      if in0 == [] {
        return None;
      }
      var picked := Setup(level, in0);
      c := Some(picked);
    }

    method InputsInRange(level: nat, begin: Option<Key>, end: Option<Key>) returns (in0: seq<File>)
      requires Valid() && GoodVersion(current) && level < NUM_LEVELS
      ensures in0 == [] <==> forall f :: f in current.levels[level] ==> !f.Touches(UserPart(begin), UserPart(end))
      ensures in0 != [] ==> BeginsInRange(current.levels[level], level, UserPart(begin), UserPart(end), in0)
      ensures forall f :: f in in0 ==> f in current.levels[level]
      ensures level == 0 ==> OverlapClosedInputs(current.levels[0], in0)
    {
      assert GoodFiles(current.levels[level]) && (level > 0 ==> Disjoint(current.levels[level]));
      hide GoodVersion, Grown, OverlapClosed, IsOverlapping, FirstInRange, OverlapClosedInputs;
      var files := current.levels[level];
      var inputs, lo, hi := GetOverlappingInputs(files, level, begin, end);
      RangeInputs(files, UserPart(begin), UserPart(end), lo, hi);
      in0 := inputs;
      if level == 0 {
        ClosedRangeInputs(files, lo, hi);
      } else if inputs != [] {
        in0 := FirstBytes(inputs, TARGET_FILE_SIZE);
        PrefixIsFirst(files, lo, hi, TARGET_FILE_SIZE, in0);
      }
    }
  }

  lemma RangeInputs(files: seq<File>, begin: Option<UserKey>, end: Option<UserKey>, lo: Option<UserKey>, hi: Option<UserKey>)
    requires GoodFiles(files) && Grown(files, begin, end, lo, hi)
    ensures forall f :: f in files && f.Touches(begin, end) ==> f in Touching(files, lo, hi)
    ensures (forall f :: f in files ==> !f.Touches(begin, end)) <==> Touching(files, lo, hi) == []
  {
    assert Wider(begin, end, begin, end);
    if forall f :: f in files ==> !f.Touches(begin, end) {
      assert OverlapClosed(files, begin, end);
      var all := Touching(files, lo, hi);
      assert forall f :: f in all ==> f.Touches(begin, end);
      assert forall i :: 0 <= i < |all| ==> all[i] in all;
    }
  }

  /** The shortest prefix holding `limit` bytes, or everything. */
  method FirstBytes(inputs: seq<File>, limit: nat) returns (r: seq<File>)
    requires inputs != []
    ensures r != [] && r <= inputs
    ensures r == inputs || TotalFileSize(r) >= limit
    ensures TotalFileSize(r[..|r| - 1]) < limit || |r| == 1
  {
    var total := 0;
    for i := 0 to |inputs|
      invariant total == TotalFileSize(inputs[..i])
      invariant i > 0 ==> total < limit
    {
      total := total + inputs[i].size;
      assert inputs[..i + 1][..i] == inputs[..i];
      if total >= limit {
        return inputs[..i + 1];
      }
    }
    assert inputs[..|inputs|] == inputs;
    return inputs;
  }
}
