/** A compaction preserves every read at or above its snapshot (db/db_impl.cc, db/version_set.cc). */
module CompactionReads {
  import opened Wrappers
  import opened InternalKeys
  import opened Versions
  import opened Picking
  import opened CompactionWork
  import opened Edits

  // ---- what picking leaves behind ----

  /** No file left behind starts with the user key a picked file before it ends with. A caller can check
      this on the files next to the picked ones. */
  ghost predicate NoBoundarySplit(files: seq<File>, picked: seq<File>) {
    forall f, g :: f in picked && g in files && g !in picked && Less(f.largest, g.smallest)
      ==> f.largest.user < g.smallest.user
  }

  lemma BoundaryPair(g: File, f: File, x: Entry, y: Entry)
    requires g.Good() && f.Good() && Apart(g, f)
    requires Less(f.largest, g.smallest) ==> f.largest.user < g.smallest.user
    requires x in g.entries && y in f.entries && x.key.user == y.key.user
    requires x.key.sequence == y.key.sequence ==> x == y
    ensures y.key.sequence < x.key.sequence
  {
    FileBounds(g, x);
    FileBounds(f, y);
    assert Less(x.key, y.key);
  }

  /** With no split boundary, what is left of a level is newer than what is picked from it. */
  lemma LeftIsNewer(files: seq<File>, picked: seq<File>)
    requires GoodFiles(files) && Disjoint(files) && DistinctSequences(LevelContents(files))
    requires (forall f :: f in picked ==> f in files) && NoBoundarySplit(files, picked)
    ensures NewerThan(Left(files, picked), LevelContents(picked))
  {
    DisjointIsApart(files);
    forall x, y | x in Left(files, picked) && y in LevelContents(picked) && x.key.user == y.key.user
      ensures y.key.sequence < x.key.sequence
    {
      var g :| g in files && g !in picked && x in g.entries;
      var f :| f in picked && y in f.entries;
      assert Holds(files, x) && Holds(files, y);
      BoundaryPair(g, f, x, y);
    }
  }

  lemma LeftOfLevelZero(files: seq<File>, picked: seq<File>)
    requires GoodFiles(files) && OverlapClosedInputs(files, picked)
    requires forall f :: f in picked ==> f in files
    ensures NewerThan(Left(files, picked), LevelContents(picked))
  {
    forall x, y | x in Left(files, picked) && y in LevelContents(picked)
      ensures x.key.user != y.key.user
    {
      var g :| g in files && g !in picked && x in g.entries;
      var f :| f in picked && y in f.entries;
      UserApartShareNothing(f, g, y, x);
    }
  }

  /** `g` lies before all the files, or after all of them. */
  ghost predicate Outside(g: File, files: seq<File>) {
    || (forall f :: f in files ==> Less(g.largest, f.smallest))
    || (forall f :: f in files ==> Less(f.largest, g.smallest))
  }

  ghost predicate UserOutside(g: File, files: seq<File>) {
    || (forall f :: f in files ==> g.largest.user < f.smallest.user)
    || (forall f :: f in files ==> f.largest.user < g.smallest.user)
  }

  lemma NextLevelOutside(next: seq<File>, c0: seq<File>, c1: seq<File>, g: File)
    requires GoodFiles(next) && Disjoint(next) && GoodFiles(c0) && TouchingHull(next, c0, c1)
    requires g in next && g !in c1
    ensures Outside(g, c0 + c1)
    ensures UserDisjoint(next) ==> UserOutside(g, c0 + c1)
    ensures forall f :: f in c0 ==> UserApart(g, f)
  {
    var lo, hi :| Hull(c0, lo, hi) && c1 == Touching(next, Some(lo), Some(hi));
    FileRange(g);
    DisjointIsApart(next);
    forall f | f in c0 + c1
      ensures g.largest.user < lo ==> Less(g.largest, f.smallest)
      ensures g.smallest.user > hi ==> Less(f.largest, g.smallest)
      ensures UserDisjoint(next) && g.largest.user < lo ==> g.largest.user < f.smallest.user
      ensures UserDisjoint(next) && g.smallest.user > hi ==> f.largest.user < g.smallest.user
    {
      if f in c1 {
        FileRange(f);
        assert Apart(g, f);
        assert UserDisjoint(next) ==> UserApart(g, f);
      }
    }
  }

  /** The inputs of a compaction of level `l` are tables of its two levels. */
  ghost predicate InputsIn(v: Version, l: nat, c0: seq<File>, c1: seq<File>) {
    && l + 1 < |v.levels|
    && c0 != [] && (forall f :: f in c0 ==> f in v.levels[l]) && (forall f :: f in c1 ==> f in v.levels[l + 1])
  }

  /** What is not picked from the two levels is newer than the inputs. */
  ghost predicate JobFits(v: Version, l: nat, c0: seq<File>, c1: seq<File>) {
    && InputsIn(v, l, c0, c1)
    && NewerThan(Left(v.levels[l], c0), LevelContents(c0))
    && NewerThan(Left(v.levels[l + 1], c1), LevelContents(c0 + c1))
  }

  lemma HoldsConcat(a: seq<File>, b: seq<File>, e: Entry)
    ensures Holds(a + b, e) <==> Holds(a, e) || Holds(b, e)
  {
    if Holds(a, e) {
      var f :| f in a && e in f.entries;
      assert f in a + b;
    }
    if Holds(b, e) {
      var f :| f in b && e in f.entries;
      assert f in a + b;
    }
  }

  /** Freshly picked inputs fit the version they were picked from, if no boundary is split. */
  lemma PickedFits(v: Version, l: nat, c0: seq<File>, c1: seq<File>)
    requires GoodVersion(v) && Picked(v, l, c0, c1) && DistinctSequences(Contents(v))
    requires l > 0 ==> NoBoundarySplit(v.levels[l], c0)
    requires NoBoundarySplit(v.levels[l + 1], c1)
    ensures JobFits(v, l, c0, c1)
  {
    LevelDistinct(v, l);
    LevelDistinct(v, l + 1);
    LevelNewer(v.levels[l], l, c0);
    NextLevelNewer(v.levels[l + 1], c0, c1);
  }

  lemma LevelDistinct(v: Version, l: nat)
    requires GoodVersion(v) && l < NUM_LEVELS && DistinctSequences(Contents(v))
    ensures GoodFiles(v.levels[l]) && (l > 0 ==> Disjoint(v.levels[l])) && DistinctSequences(LevelContents(v.levels[l]))
  {
    forall e, f | Holds(v.levels[l], e) && Holds(v.levels[l], f) && e.key.sequence == f.key.sequence ensures e == f {
      assert At(v, l, e) && At(v, l, f);
    }
  }

  lemma LevelNewer(here: seq<File>, l: nat, c0: seq<File>)
    requires GoodFiles(here) && (l > 0 ==> Disjoint(here)) && DistinctSequences(LevelContents(here))
    requires forall f :: f in c0 ==> f in here
    requires if l > 0 then NoBoundarySplit(here, c0) else OverlapClosedInputs(here, c0)
    ensures GoodFiles(c0) && NewerThan(Left(here, c0), LevelContents(c0))
  {
    if l > 0 {
      LeftIsNewer(here, c0);
    } else {
      LeftOfLevelZero(here, c0);
    }
  }

  lemma NextLevelNewer(next: seq<File>, c0: seq<File>, c1: seq<File>)
    requires GoodFiles(next) && Disjoint(next) && DistinctSequences(LevelContents(next))
    requires GoodFiles(c0) && TouchingHull(next, c0, c1) && NoBoundarySplit(next, c1)
    ensures NewerThan(Left(next, c1), LevelContents(c0 + c1))
  {
    LeftIsNewer(next, c1);
    forall x, y | x in Left(next, c1) && y in LevelContents(c0) ensures x.key.user != y.key.user {
      var g :| g in next && g !in c1 && x in g.entries;
      var f :| f in c0 && y in f.entries;
      NextLevelOutside(next, c0, c1, g);
      UserApartShareNothing(g, f, x, y);
    }
    forall y ensures y in LevelContents(c0 + c1) <==> y in LevelContents(c0) || y in LevelContents(c1) {
      HoldsConcat(c0, c1, y);
    }
  }

  /** The merged input: all entries of the picked files, in order. */
  ghost predicate IsMerge(input: seq<Entry>, files: seq<File>) {
    Sorted(input) && forall e :: e in input <==> Holds(files, e)
  }

  /** Deeper files either were there when the compaction started or share no key with its inputs. */
  ghost predicate DeeperKnown(v: Version, base: Version, l: nat, inputs: seq<File>) {
    && |base.levels| == |v.levels|
    && forall m, g :: l + 2 <= m < |v.levels| && g in v.levels[m] ==>
      g in base.levels[m] || forall f :: f in inputs ==> UserApart(g, f)
  }

  lemma {:induction false} SurvivorsKeep(input: seq<Entry>, n: nat, snap: nat, v: Version, level: nat, i: nat)
    requires i < n <= |input|
    ensures !Dropped(input, i, snap, v, level) ==> input[i] in Survivors(input, n, snap, v, level)
  {
    if i < n - 1 {
      SurvivorsKeep(input, n - 1, snap, v, level, i);
    }
  }

  lemma {:induction false} SurvivorsNotDropped(input: seq<Entry>, n: nat, snap: nat, v: Version, level: nat, e: Entry)
    requires n <= |input| && e in Survivors(input, n, snap, v, level)
    ensures exists i :: 0 <= i < n && input[i] == e && !Dropped(input, i, snap, v, level)
  {
    if n > 0 {
      if e in Survivors(input, n - 1, snap, v, level) {
        SurvivorsNotDropped(input, n - 1, snap, v, level, e);
      } else {
        assert input[n - 1] == e;
      }
    }
  }

  /** Rule (A) in the long run: below an entry at or under the snapshot, nothing of its key survives. */
  lemma {:induction false} NothingOlderSurvives(input: seq<Entry>, snap: nat, v: Version, level: nat, i: nat, j: nat)
    requires Sorted(input) && i < j < |input|
    requires input[i].key.user == input[j].key.user && input[i].key.sequence <= snap
    ensures Dropped(input, j, snap, v, level)
  {
    assert Less(input[i].key, input[j].key);
    if i < j - 1 {
      assert Less(input[i].key, input[j - 1].key) && Less(input[j - 1].key, input[j].key);
    }
  }

  /** What the drop rule leaves of the inputs of a compaction; it is known as soon as the inputs are. */
  ghost function Surviving(inputs: seq<File>, snap: nat, base: Version, l: nat): iset<Entry> {
    iset input: seq<Entry>, e | IsMerge(input, inputs) && e in Survivors(input, |input|, snap, base, l) :: e
  }

  /** A file does not lie between surviving entries: it comes before all of them, or after all of them. */
  ghost predicate Clear(g: File, es: iset<Entry>) {
    || (forall e :: e in es ==> Less(g.largest, e.key))
    || (forall e :: e in es ==> Less(e.key, g.smallest))
  }

  ghost predicate UserClear(g: File, es: iset<Entry>) {
    || (forall e :: e in es ==> g.largest.user < e.key.user)
    || (forall e :: e in es ==> e.key.user < g.smallest.user)
  }

  /** The files that a compaction leaves in the level it writes to do not lie between its survivors. */
  ghost predicate RestClear(v: Version, l: nat, c0: seq<File>, c1: seq<File>, snap: nat, base: Version) {
    l + 1 < |v.levels| && forall g :: g in v.levels[l + 1] && g !in c1 ==> Clear(g, Surviving(c0 + c1, snap, base, l))
  }

  lemma MergeIsUnique(a: seq<Entry>, b: seq<Entry>, files: seq<File>)
    requires IsMerge(a, files) && IsMerge(b, files)
    ensures a == b
  {
    SortedIsUnique(a, b);
  }

  lemma {:induction false} SortedIsUnique(a: seq<Entry>, b: seq<Entry>)
    requires Sorted(a) && Sorted(b) && forall e :: e in a <==> e in b
    ensures a == b
    decreases |a|
  {
    SameEmptiness(a, b);
    if a != [] {
      assert a[0] in b && b[0] in a;
      assert a == [a[0]] + a[1..] && b == [b[0]] + b[1..];
      LessIsStrictTotalOrder(a[0].key, b[0].key, a[0].key);
      assert a[0] == b[0];
      forall e ensures e in a[1..] <==> e in b[1..] {
        LessIsStrictTotalOrder(a[0].key, a[0].key, a[0].key);
        assert e in a <==> e == a[0] || e in a[1..];
        assert e in b <==> e == b[0] || e in b[1..];
      }
      SortedIsUnique(a[1..], b[1..]);
    }
  }

  lemma SameEmptiness(a: seq<Entry>, b: seq<Entry>)
    requires forall e :: e in b ==> e in a
    ensures b != [] ==> a != []
  {
    if b != [] {
      assert b[0] in b;
    }
  }

  lemma SurvivorsSurvive(inputs: seq<File>, input: seq<Entry>, snap: nat, base: Version, l: nat)
    requires IsMerge(input, inputs)
    ensures forall e :: e in Surviving(inputs, snap, base, l) <==> e in Survivors(input, |input|, snap, base, l)
  {
    forall other | IsMerge(other, inputs) ensures other == input {
      MergeIsUnique(other, input, inputs);
    }
  }

  lemma {:induction false} SurvivorsAreInput(input: seq<Entry>, n: nat, snap: nat, base: Version, l: nat)
    requires n <= |input|
    ensures forall e :: e in Survivors(input, n, snap, base, l) ==> e in input
  {
    if n > 0 {
      SurvivorsAreInput(input, n - 1, snap, base, l);
    }
  }

  lemma SurvivingAreInputs(inputs: seq<File>, snap: nat, base: Version, l: nat)
    ensures forall e :: e in Surviving(inputs, snap, base, l) ==> Holds(inputs, e)
  {
    forall input, e | IsMerge(input, inputs) && e in Survivors(input, |input|, snap, base, l) ensures Holds(inputs, e) {
      SurvivorsAreInput(input, |input|, snap, base, l);
    }
  }

  /** Outside the inputs is clear of whatever survives of them. */
  lemma OutsideIsClear(g: File, inputs: seq<File>, snap: nat, base: Version, l: nat)
    requires GoodFiles(inputs) && Outside(g, inputs)
    ensures Clear(g, Surviving(inputs, snap, base, l))
    ensures UserOutside(g, inputs) ==> UserClear(g, Surviving(inputs, snap, base, l))
  {
    SurvivingAreInputs(inputs, snap, base, l);
    forall e | e in Surviving(inputs, snap, base, l) ensures exists f :: f in inputs && Brackets(f, e) {
      var f :| f in inputs && e in f.entries;
      FileBounds(f, e);
      assert Brackets(f, e);
    }
  }

  /** Next to inputs that share no user key with it, clear is clear by user key. */
  lemma ClearIsUserClear(g: File, inputs: seq<File>, snap: nat, base: Version, l: nat)
    requires GoodFiles(inputs) && g.Good() && forall f :: f in inputs ==> UserApart(g, f)
    requires Clear(g, Surviving(inputs, snap, base, l))
    ensures UserClear(g, Surviving(inputs, snap, base, l))
  {
    SurvivingAreInputs(inputs, snap, base, l);
    FileRange(g);
    forall e | e in Surviving(inputs, snap, base, l)
      ensures e.key.user < g.smallest.user || g.largest.user < e.key.user
    {
      var f :| f in inputs && e in f.entries;
      FileBounds(f, e);
    }
  }

  predicate Brackets(f: File, e: Entry) {
    AtMost(f.smallest, e.key) && AtMost(e.key, f.largest) && f.smallest.user <= e.key.user <= f.largest.user
  }

  lemma PickedIsClear(v: Version, l: nat, c0: seq<File>, c1: seq<File>, snap: nat, base: Version)
    requires l + 1 < |v.levels| && GoodFiles(v.levels[l + 1]) && Disjoint(v.levels[l + 1])
    requires GoodFiles(c0) && TouchingHull(v.levels[l + 1], c0, c1)
    ensures RestClear(v, l, c0, c1, snap, base)
  {
    forall g | g in v.levels[l + 1] && g !in c1 ensures Clear(g, Surviving(c0 + c1, snap, base, l)) {
      NextLevelOutside(v.levels[l + 1], c0, c1, g);
      OutsideIsClear(g, c0 + c1, snap, base, l);
    }
  }

  /** The outputs fit between the files left in their level. */
  lemma OutputsApart(next: seq<File>, inputs: seq<File>, c1: seq<File>, come: seq<File>, input: seq<Entry>, snap: nat,
                     base: Version, l: nat)
    requires GoodFiles(come) && IsMerge(input, inputs) && Flatten(come) == Survivors(input, |input|, snap, base, l)
    requires forall g :: g in next && g !in c1 ==> Clear(g, Surviving(inputs, snap, base, l))
    ensures ApartFrom(next, c1, come)
  {
    SurvivorsSurvive(inputs, input, snap, base, l);
    forall g, h | g in next && g !in c1 && h in come ensures Apart(g, h) {
      var first, last := h.entries[0], h.entries[|h.entries| - 1];
      assert Holds(come, first) && Holds(come, last);
      FlattenHolds(come, first);
      FlattenHolds(come, last);
      assert first in Surviving(inputs, snap, base, l) && last in Surviving(inputs, snap, base, l);
    }
  }

  /** What stays in the level a compaction reads from is newer than what will survive of the inputs. It is known as
      soon as the inputs are. */
  ghost predicate StaysNewer(v: Version, l: nat, c0: seq<File>, c1: seq<File>, snap: nat, base: Version) {
    l < |v.levels| && NewerThan(Left(v.levels[l], c0), Surviving(c0 + c1, snap, base, l))
  }

  /** `after` is `before` with a finished compaction installed: `input` is the merge of its inputs and the
      outputs are what the drop rule left of it, judged by the version the compaction started from. */
  ghost predicate Compacted(before: Version, after: Version, l: nat, c0: seq<File>, c1: seq<File>, come: seq<File>,
                            input: seq<Entry>, snap: nat, base: Version)
  {
    && GoodVersion(before) && Moved(before, after, l, c0, c1, come)
    && InputsIn(before, l, c0, c1) && DeeperKnown(before, base, l, c0 + c1)
    && IsMerge(input, c0 + c1) && Flatten(come) == Survivors(input, |input|, snap, base, l)
  }

  lemma OutputsFromInputs(inputs: seq<File>, come: seq<File>, input: seq<Entry>, snap: nat, base: Version, l: nat)
    requires IsMerge(input, inputs) && Flatten(come) == Survivors(input, |input|, snap, base, l)
    ensures forall e :: Holds(come, e) ==> Holds(inputs, e)
    ensures forall e :: Holds(come, e) <==> exists i :: 0 <= i < |input| && input[i] == e && !Dropped(input, i, snap, base, l)
  {
    forall e
      ensures Holds(come, e) ==> exists i :: 0 <= i < |input| && input[i] == e && !Dropped(input, i, snap, base, l)
    {
      FlattenHolds(come, e);
      if Holds(come, e) {
        SurvivorsNotDropped(input, |input|, snap, base, l, e);
      }
    }
    forall i | 0 <= i < |input| && !Dropped(input, i, snap, base, l) ensures Holds(come, input[i]) {
      FlattenHolds(come, input[i]);
      SurvivorsKeep(input, |input|, snap, base, l, i);
    }
  }

  /** Installing a compaction keeps the version good. */
  lemma CompactedIsGood(before: Version, after: Version, l: nat, c0: seq<File>, c1: seq<File>, come: seq<File>,
                        input: seq<Entry>, snap: nat, base: Version)
    requires Compacted(before, after, l, c0, c1, come, input, snap, base) && GoodFiles(come) && Disjoint(come)
    requires StaysNewer(before, l, c0, c1, snap, base) && RestClear(before, l, c0, c1, snap, base)
    ensures GoodVersion(after)
  {
    hide Clear, NewerThan, GoodVersion, Survivors, Surviving;
    OutputsFromInputs(c0 + c1, come, input, snap, base, l);
    forall e | Holds(come, e) ensures Holds(c0, e) || Holds(c1, e) {
      HoldsConcat(c0, c1, e);
    }
    GoodInputs(before, l, c0, c1);
    OutputsApart(before.levels[l + 1], c0 + c1, c1, come, input, snap, base, l);
    StaysNewerThanOutputs(before, l, c0, c1, come, input, snap, base);
    MovedKeepsGood(before, after, l, c0, c1, come);
  }

  lemma StaysNewerThanOutputs(v: Version, l: nat, c0: seq<File>, c1: seq<File>, come: seq<File>, input: seq<Entry>,
                              snap: nat, base: Version)
    requires StaysNewer(v, l, c0, c1, snap, base) && IsMerge(input, c0 + c1)
    requires Flatten(come) == Survivors(input, |input|, snap, base, l)
    ensures NewerThan(Left(v.levels[l], c0), LevelContents(come))
  {
    SurvivorsSurvive(c0 + c1, input, snap, base, l);
    forall e | Holds(come, e) ensures e in Surviving(c0 + c1, snap, base, l) {
      FlattenHolds(come, e);
    }
    hide Surviving, Survivors;
  }

  /** Only entries of picked files can disappear. */
  lemma LostWasInput(before: Version, after: Version, l: nat, c0: seq<File>, c1: seq<File>, come: seq<File>, d: Entry)
    requires Moved(before, after, l, c0, c1, come)
    requires d in Contents(before) && d !in Contents(after)
    ensures Holds(c0 + c1, d) && !Holds(come, d)
  {
    var m: nat :| At(before, m, d);
    var f :| f in before.levels[m] && d in f.entries;
    assert !At(after, m, d) && !At(after, l + 1, d);
    assert f !in after.levels[m];
    assert f in c0 + c1;
    assert forall g :: g in come ==> g in after.levels[l + 1];
  }

  /** An entry that is gone was dropped by the rule. */
  lemma LostWasDropped(before: Version, after: Version, l: nat, c0: seq<File>, c1: seq<File>, come: seq<File>,
                       input: seq<Entry>, snap: nat, base: Version, d: Entry) returns (i: nat)
    requires Moved(before, after, l, c0, c1, come)
    requires IsMerge(input, c0 + c1) && Flatten(come) == Survivors(input, |input|, snap, base, l)
    requires d in Contents(before) && d !in Contents(after)
    ensures i < |input| && input[i] == d && Dropped(input, i, snap, base, l)
  {
    LostWasInput(before, after, l, c0, c1, come, d);
    i :| 0 <= i < |input| && input[i] == d;
    OutputsFromInputs(c0 + c1, come, input, snap, base, l);
  }

  /** Nothing appears that was not there. */
  lemma NothingAppears(before: Version, after: Version, l: nat, c0: seq<File>, c1: seq<File>, come: seq<File>,
                       input: seq<Entry>, snap: nat, base: Version, e: Entry)
    requires Compacted(before, after, l, c0, c1, come, input, snap, base) && e in Contents(after)
    ensures e in Contents(before)
  {
    var m: nat :| At(after, m, e);
    var f :| f in after.levels[m] && e in f.entries;
    if f in come && m == l + 1 {
      OutputsFromInputs(c0 + c1, come, input, snap, base, l);
      assert Holds(come, e);
      InputIsAt(before, l, c0, c1, e);
    } else {
      assert At(before, m, e);
    }
  }

  lemma InputIsAt(before: Version, l: nat, c0: seq<File>, c1: seq<File>, d: Entry)
    requires InputsIn(before, l, c0, c1) && Holds(c0 + c1, d)
    ensures Holds(c0, d) ==> At(before, l, d)
    ensures Holds(c1, d) ==> At(before, l + 1, d)
    ensures Holds(c0, d) || Holds(c1, d)
  {
    HoldsConcat(c0, c1, d);
  }

  /** What stays in the two levels or lies above them is newer than the inputs. */
  lemma StayingIsNewer(before: Version, l: nat, c0: seq<File>, c1: seq<File>, m: nat, e: Entry, d: Entry)
    requires LevelsOrdered(before) && JobFits(before, l, c0, c1)
    requires Holds(c0 + c1, d) && e.key.user == d.key.user
    requires || (m < l && At(before, m, e))
             || (m == l && e in Left(before.levels[l], c0))
             || (m == l + 1 && e in Left(before.levels[l + 1], c1))
    ensures d.key.sequence < e.key.sequence
  {
    InputIsAt(before, l, c0, c1, d);
    if m < l {
      assert LevelsOrdered(before);
    } else if m == l {
      assert At(before, l, e);
      if Holds(c0, d) {
        assert d in LevelContents(c0);
      }
    } else {
      assert d in LevelContents(c0 + c1);
    }
  }

  /** Where an entry of the new version that no output holds was before. */
  lemma NotMoved(before: Version, after: Version, l: nat, c0: seq<File>, c1: seq<File>, come: seq<File>, m: nat, f: File, e: Entry)
    requires Moved(before, after, l, c0, c1, come)
    requires m < |after.levels| && f in after.levels[m] && e in f.entries && (m == l + 1 ==> f !in come)
    ensures m < l ==> At(before, m, e)
    ensures m == l ==> e in Left(before.levels[l], c0)
    ensures m == l + 1 ==> e in Left(before.levels[l + 1], c1)
    ensures m > l + 1 ==> f in before.levels[m]
  {
  }

  lemma GoodInputs(v: Version, l: nat, c0: seq<File>, c1: seq<File>)
    requires GoodVersion(v) && InputsIn(v, l, c0, c1)
    ensures GoodFiles(c0 + c1)
  {
    assert GoodFiles(v.levels[l]) && GoodFiles(v.levels[l + 1]);
  }

  lemma DeeperSharesNothing(before: Version, base: Version, l: nat, inputs: seq<File>, m: nat, f: File, e: Entry, d: Entry)
    requires DeeperKnown(before, base, l, inputs) && GoodFiles(inputs) && Holds(inputs, d)
    requires l + 2 <= m < |before.levels| && f in before.levels[m] && f.Good() && e in f.entries
    requires !KeyInDeeperRange(base, l + 2, d.key.user)
    ensures e.key.user != d.key.user
  {
    FileBounds(f, e);
    if f in base.levels[m] {
      assert f.Touches(Some(e.key.user), Some(e.key.user));
      assert KeyInDeeperRange(base, l + 2, e.key.user);
    } else {
      var g :| g in inputs && d in g.entries;
      UserApartShareNothing(f, g, e, d);
    }
  }

  lemma InputInContents(before: Version, l: nat, c0: seq<File>, c1: seq<File>, input: seq<Entry>, i: nat)
    requires InputsIn(before, l, c0, c1) && IsMerge(input, c0 + c1) && i < |input|
    ensures input[i] in Contents(before)
  {
    assert Holds(c0 + c1, input[i]);
    InputIsAt(before, l, c0, c1, input[i]);
  }

  lemma InputOrder(before: Version, l: nat, c0: seq<File>, c1: seq<File>, input: seq<Entry>, i: nat)
    requires InputsIn(before, l, c0, c1) && IsMerge(input, c0 + c1) && DistinctSequences(Contents(before))
    requires 0 < i < |input| && input[i - 1].key.user == input[i].key.user
    ensures input[i - 1] in Contents(before) && input[i].key.sequence < input[i - 1].key.sequence
  {
    var p, d := input[i - 1], input[i];
    assert Less(p.key, d.key) && Holds(c0 + c1, p) && Holds(c0 + c1, d);
    InputIsAt(before, l, c0, c1, p);
    InputIsAt(before, l, c0, c1, d);
    assert p in Contents(before) && d in Contents(before);
  }

  /** A tombstone that the drop rule takes for obsolete: nothing of its key lies deeper than the output level. */
  ghost predicate Obsolete(d: Entry, snap: nat, base: Version, l: nat) {
    d.key.kind.Deletion? && d.key.sequence <= snap && !KeyInDeeperRange(base, l + 2, d.key.user)
  }

  /** What a compaction leaves behind in its two levels. */
  ghost function Behind(v: Version, l: nat, c0: seq<File>, c1: seq<File>): iset<Entry>
    requires l + 1 < |v.levels|
  {
    Left(v.levels[l], c0) + Left(v.levels[l + 1], c1)
  }

  lemma BehindStays(before: Version, after: Version, l: nat, c0: seq<File>, c1: seq<File>, come: seq<File>)
    requires Moved(before, after, l, c0, c1, come)
    ensures Behind(before, l, c0, c1) <= Contents(after) && Behind(before, l, c0, c1) <= Contents(before)
  {
    forall m, c, e | ((m == l && c == c0) || (m == l + 1 && c == c1)) && e in Left(before.levels[m], c)
      ensures e in Contents(after) && e in Contents(before)
    {
      var f :| f in before.levels[m] && f !in c && e in f.entries;
      assert At(before, m, e) && At(after, m, e);
    }
  }

  /** An output is not an obsolete tombstone, and newer than every one of its key. */
  lemma SurvivorIsNewer(before: Version, l: nat, c0: seq<File>, c1: seq<File>, come: seq<File>, input: seq<Entry>,
                        snap: nat, base: Version, i: nat, e: Entry)
    requires InputsIn(before, l, c0, c1) && DistinctSequences(Contents(before))
    requires IsMerge(input, c0 + c1) && Flatten(come) == Survivors(input, |input|, snap, base, l)
    requires i < |input| && Obsolete(input[i], snap, base, l) && Holds(come, e) && e.key.user == input[i].key.user
    ensures input[i].key.sequence < e.key.sequence
  {
    OutputsFromInputs(c0 + c1, come, input, snap, base, l);
    var j :| 0 <= j < |input| && input[j] == e && !Dropped(input, j, snap, base, l);
    if i < j {
      NothingOlderSurvives(input, snap, base, l, i, j);
    } else {
      assert Less(input[j].key, input[i].key);
      InputInContents(before, l, c0, c1, input, i);
      InputInContents(before, l, c0, c1, input, j);
    }
  }

  /** What remains of an obsolete tombstone's key and is not newer than it was left behind in the two levels. */
  lemma RemainsIsBehind(upper: iset<Entry>, before: Version, after: Version, l: nat, c0: seq<File>, c1: seq<File>,
                        come: seq<File>, input: seq<Entry>, snap: nat, base: Version, i: nat, x: Entry)
    requires Compacted(before, after, l, c0, c1, come, input, snap, base) && DistinctSequences(Contents(before))
    requires forall x, y :: x in upper && y in Contents(before) ==> y.key.sequence < x.key.sequence
    requires i < |input| && Obsolete(input[i], snap, base, l)
    requires x in upper + Contents(after) && x.key.user == input[i].key.user && x.key.sequence <= input[i].key.sequence
    ensures x in Behind(before, l, c0, c1)
  {
    InputInContents(before, l, c0, c1, input, i);
    assert Holds(c0 + c1, input[i]);
    InputIsAt(before, l, c0, c1, input[i]);
    var m: nat :| At(after, m, x);
    var f :| f in after.levels[m] && x in f.entries;
    if m == l + 1 && f in come {
      assert Holds(come, x);
      SurvivorIsNewer(before, l, c0, c1, come, input, snap, base, i, x);
    } else {
      NotMoved(before, after, l, c0, c1, come, m, f, x);
      if m > l + 1 {
        GoodInputs(before, l, c0, c1);
        assert GoodFiles(before.levels[m]);
        DeeperSharesNothing(before, base, l, c0 + c1, m, f, x, input[i]);
      }
    }
  }

  /** Reads of two sets agree where the same entries are visible. */
  lemma SameVisibleSameView(a: iset<Entry>, b: iset<Entry>, k: UserKey, s: nat, t: nat)
    requires DistinctSequences(a) && DistinctSequences(b)
    requires forall e :: Visible(a, k, s, e) <==> Visible(b, k, t, e)
    ensures View(a, k, s) == View(b, k, t)
  {
    if e :| Newest(a, k, s, e) {
      assert Newest(b, k, t, e);
      ViewOfNewest(a, k, s, e);
      ViewOfNewest(b, k, t, e);
    } else if e :| Newest(b, k, t, e) {
      assert Newest(a, k, s, e);
    }
  }

  lemma SubsetIsDistinct(a: iset<Entry>, b: iset<Entry>)
    requires DistinctSequences(b) && a <= b
    ensures DistinctSequences(a)
  {
  }

  /** What the theorems about reads ask of a compaction and of the memtables, whose entries are newer. */
  ghost predicate CompactedUnder(upper: iset<Entry>, before: Version, after: Version, l: nat, c0: seq<File>, c1: seq<File>,
                                 come: seq<File>, input: seq<Entry>, snap: nat, base: Version)
  {
    && Compacted(before, after, l, c0, c1, come, input, snap, base)
    && DistinctSequences(upper + Contents(before))
    && forall x, y :: x in upper && y in Contents(before) ==> y.key.sequence < x.key.sequence
  }

  lemma NowWasThere(upper: iset<Entry>, before: Version, after: Version, l: nat, c0: seq<File>, c1: seq<File>,
                    come: seq<File>, input: seq<Entry>, snap: nat, base: Version)
    requires CompactedUnder(upper, before, after, l, c0, c1, come, input, snap, base)
    ensures Contents(after) <= Contents(before) && Behind(before, l, c0, c1) <= Contents(after)
    ensures DistinctSequences(Contents(before)) && DistinctSequences(upper + Contents(after))
    ensures DistinctSequences(Behind(before, l, c0, c1))
  {
    hide GoodVersion, DeeperKnown, IsMerge, Moved, DistinctSequences, Survivors, Flatten;
    forall e | e in Contents(after) ensures e in Contents(before) {
      NothingAppears(before, after, l, c0, c1, come, input, snap, base, e);
    }
    BehindStays(before, after, l, c0, c1, come);
    SubsetIsDistinct(Contents(before), upper + Contents(before));
    SubsetIsDistinct(upper + Contents(after), upper + Contents(before));
    SubsetIsDistinct(Behind(before, l, c0, c1), Contents(before));
  }

  /** Where an obsolete tombstone was the newest entry, a read afterwards sees what was left behind. */
  lemma ViewAfterObsolete(upper: iset<Entry>, before: Version, after: Version, l: nat, c0: seq<File>, c1: seq<File>,
                          come: seq<File>, input: seq<Entry>, snap: nat, base: Version, i: nat, s: nat)
    requires CompactedUnder(upper, before, after, l, c0, c1, come, input, snap, base) && snap <= s
    requires i < |input| && Obsolete(input[i], snap, base, l)
    requires Newest(upper + Contents(before), input[i].key.user, s, input[i])
    ensures View(upper + Contents(after), input[i].key.user, s) == View(Behind(before, l, c0, c1), input[i].key.user, snap)
    ensures View(upper + Contents(before), input[i].key.user, s) == None
  {
    var k := input[i].key.user;
    var was, now, behind := upper + Contents(before), upper + Contents(after), Behind(before, l, c0, c1);
    NowWasThere(upper, before, after, l, c0, c1, come, input, snap, base);
    forall e ensures Visible(now, k, s, e) <==> Visible(behind, k, snap, e) {
      if Visible(now, k, s, e) {
        assert Visible(was, k, s, e);
        RemainsIsBehind(upper, before, after, l, c0, c1, come, input, snap, base, i, e);
      }
    }
    SameVisibleSameView(now, behind, k, s, snap);
    ViewOfNewest(was, k, s, input[i]);
  }

  /** The newest entry of a key at or above the snapshot is only lost if it is an obsolete tombstone. */
  lemma NewestLost(upper: iset<Entry>, before: Version, after: Version, l: nat, c0: seq<File>, c1: seq<File>,
                   come: seq<File>, input: seq<Entry>, snap: nat, base: Version, k: UserKey, s: nat, e: Entry)
    returns (i: nat)
    requires CompactedUnder(upper, before, after, l, c0, c1, come, input, snap, base) && snap <= s
    requires Newest(upper + Contents(before), k, s, e) && e !in upper + Contents(after)
    ensures i < |input| && input[i] == e && Obsolete(e, snap, base, l)
  {
    NowWasThere(upper, before, after, l, c0, c1, come, input, snap, base);
    i := LostWasDropped(before, after, l, c0, c1, come, input, snap, base, e);
    if i > 0 && input[i - 1].key.user == k && input[i - 1].key.sequence <= snap {
      InputOrder(before, l, c0, c1, input, i);
      assert Visible(upper + Contents(before), k, s, input[i - 1]);
    }
  }

  /** A tombstone is dropped from in front of an older version that stays: it is obsolete, a reader at `s` would have
      found it, and what is left behind in the two levels has a value for its key. All of this is known before the outputs
      are installed. */
  ghost predicate Uncovers(upper: iset<Entry>, v: Version, l: nat, c0: seq<File>, c1: seq<File>, snap: nat, base: Version,
                           s: nat, d: Entry)
  {
    && l + 1 < |v.levels| && Obsolete(d, snap, base, l) && Newest(upper + Contents(v), d.key.user, s, d)
    && View(Behind(v, l, c0, c1), d.key.user, snap) != None
  }

  ghost predicate NothingUncovered(upper: iset<Entry>, v: Version, l: nat, c0: seq<File>, c1: seq<File>, snap: nat,
                                   base: Version, s: nat)
  {
    forall d :: Holds(c0 + c1, d) ==> !Uncovers(upper, v, l, c0, c1, snap, base, s, d)
  }

  /** What is uncovered for a later reader is uncovered for the snapshot. */
  lemma UncoveredEarlier(upper: iset<Entry>, v: Version, l: nat, c0: seq<File>, c1: seq<File>, snap: nat, base: Version, s: nat)
    requires snap <= s && NothingUncovered(upper, v, l, c0, c1, snap, base, snap)
    ensures NothingUncovered(upper, v, l, c0, c1, snap, base, s)
  {
    hide View, Behind;
    forall d | Holds(c0 + c1, d) ensures !Uncovers(upper, v, l, c0, c1, snap, base, s, d) {
      var k := d.key.user;
      assert Newest(upper + Contents(v), k, s, d) && d.key.sequence <= snap ==> Newest(upper + Contents(v), k, snap, d);
    }
  }

  lemma CompactionKeepsView(upper: iset<Entry>, before: Version, after: Version, l: nat, c0: seq<File>, c1: seq<File>,
                            come: seq<File>, input: seq<Entry>, snap: nat, base: Version, k: UserKey, s: nat)
    requires CompactedUnder(upper, before, after, l, c0, c1, come, input, snap, base) && snap <= s
    requires NothingUncovered(upper, before, l, c0, c1, snap, base, s)
    ensures View(upper + Contents(after), k, s) == View(upper + Contents(before), k, s)
  {
    hide GoodVersion, DeeperKnown, IsMerge, Moved, DistinctSequences, Survivors, Flatten, View, Behind;
    var was, now := upper + Contents(before), upper + Contents(after);
    NowWasThere(upper, before, after, l, c0, c1, come, input, snap, base);
    if e :| Newest(was, k, s, e) {
      if e in now {
        assert Newest(now, k, s, e);
        ViewOfNewest(was, k, s, e);
        ViewOfNewest(now, k, s, e);
      } else {
        var i := NewestLost(upper, before, after, l, c0, c1, come, input, snap, base, k, s, e);
        ViewAfterObsolete(upper, before, after, l, c0, c1, come, input, snap, base, i, s);
        MergeHolds(input, c0 + c1, i);
      }
    } else {
      NothingNewest(was, now, k, s);
    }
  }

  lemma MergeHolds(input: seq<Entry>, files: seq<File>, i: nat)
    requires IsMerge(input, files) && i < |input|
    ensures Holds(files, input[i])
  {
  }

  lemma NothingNewest(was: iset<Entry>, now: iset<Entry>, k: UserKey, s: nat)
    requires DistinctSequences(was) && DistinctSequences(now) && now <= was && forall e :: !Newest(was, k, s, e)
    ensures View(was, k, s) == View(now, k, s)
  {
    forall e ensures !Visible(was, k, s, e) {
      if Visible(was, k, s, e) {
        NewestExists(was, k, s, e);
      }
    }
    assert forall e :: Visible(now, k, s, e) ==> Visible(was, k, s, e);
    SameVisibleSameView(was, now, k, s, s);
  }

  /** A compaction preserves the reads at a sequence number if and only if it uncovers nothing there. `upper` stands for
      the memtables, whose entries are newer. */
  lemma CompactionKeepsViewsAtIff(upper: iset<Entry>, before: Version, after: Version, l: nat, c0: seq<File>, c1: seq<File>,
                                  come: seq<File>, input: seq<Entry>, snap: nat, base: Version, s: nat)
    requires CompactedUnder(upper, before, after, l, c0, c1, come, input, snap, base) && snap <= s
    ensures (forall k :: View(upper + Contents(after), k, s) == View(upper + Contents(before), k, s))
            <==> NothingUncovered(upper, before, l, c0, c1, snap, base, s)
  {
    hide Compacted, View, Behind, DistinctSequences;
    if NothingUncovered(upper, before, l, c0, c1, snap, base, s) {
      forall k ensures View(upper + Contents(after), k, s) == View(upper + Contents(before), k, s) {
        CompactionKeepsView(upper, before, after, l, c0, c1, come, input, snap, base, k, s);
      }
    } else {
      var d :| Holds(c0 + c1, d) && Uncovers(upper, before, l, c0, c1, snap, base, s, d);
      var i := PlaceInMerge(before, after, l, c0, c1, come, input, snap, base, d);
      ViewAfterObsolete(upper, before, after, l, c0, c1, come, input, snap, base, i, s);
    }
  }

  /** It preserves every read at or above its snapshot if and only if it uncovers nothing at the snapshot. */
  lemma CompactionKeepsViewsIff(upper: iset<Entry>, before: Version, after: Version, l: nat, c0: seq<File>, c1: seq<File>,
                                come: seq<File>, input: seq<Entry>, snap: nat, base: Version)
    requires CompactedUnder(upper, before, after, l, c0, c1, come, input, snap, base)
    ensures (forall k, s: nat :: snap <= s ==> View(upper + Contents(after), k, s) == View(upper + Contents(before), k, s))
            <==> NothingUncovered(upper, before, l, c0, c1, snap, base, snap)
  {
    hide CompactedUnder, View, NothingUncovered;
    CompactionKeepsViewsAtIff(upper, before, after, l, c0, c1, come, input, snap, base, snap);
    if NothingUncovered(upper, before, l, c0, c1, snap, base, snap) {
      forall k, s: nat | snap <= s
        ensures View(upper + Contents(after), k, s) == View(upper + Contents(before), k, s)
      {
        UncoveredEarlier(upper, before, l, c0, c1, snap, base, s);
        CompactionKeepsView(upper, before, after, l, c0, c1, come, input, snap, base, k, s);
      }
    }
  }

  lemma PlaceInMerge(before: Version, after: Version, l: nat, c0: seq<File>, c1: seq<File>, come: seq<File>,
                     input: seq<Entry>, snap: nat, base: Version, d: Entry) returns (i: nat)
    requires Compacted(before, after, l, c0, c1, come, input, snap, base) && Holds(c0 + c1, d)
    ensures i < |input| && input[i] == d
  {
    i :| i < |input| && input[i] == d;
  }

  /** What is newer than all inputs is newer than what survives of them. */
  lemma FitsStaysNewer(v: Version, l: nat, c0: seq<File>, c1: seq<File>, snap: nat, base: Version)
    requires LevelsOrdered(v) && JobFits(v, l, c0, c1)
    ensures StaysNewer(v, l, c0, c1, snap, base)
  {
    SurvivingAreInputs(c0 + c1, snap, base, l);
    forall x, y | x in Left(v.levels[l], c0) && y in Surviving(c0 + c1, snap, base, l) && x.key.user == y.key.user
      ensures y.key.sequence < x.key.sequence
    {
      StayingIsNewer(v, l, c0, c1, l, x, y);
    }
  }

  lemma BehindIsNewer(v: Version, l: nat, c0: seq<File>, c1: seq<File>, d: Entry, y: Entry)
    requires LevelsOrdered(v) && JobFits(v, l, c0, c1) && Holds(c0 + c1, d)
    requires y in Behind(v, l, c0, c1) && y.key.user == d.key.user
    ensures d.key.sequence < y.key.sequence && y in Contents(v)
  {
    var m := if y in Left(v.levels[l], c0) then l else l + 1;
    StayingIsNewer(v, l, c0, c1, m, y, d);
    var f :| f in v.levels[m] && y in f.entries;
    assert At(v, m, y);
  }

  /** Where nothing left behind is older than the inputs, nothing is uncovered. */
  lemma FitsUncoversNothing(upper: iset<Entry>, v: Version, l: nat, c0: seq<File>, c1: seq<File>, snap: nat, base: Version,
                            s: nat)
    requires LevelsOrdered(v) && JobFits(v, l, c0, c1) && snap <= s
    ensures NothingUncovered(upper, v, l, c0, c1, snap, base, s)
  {
    forall d | Holds(c0 + c1, d) ensures !Uncovers(upper, v, l, c0, c1, snap, base, s, d) {
      forall y | y in Behind(v, l, c0, c1) && y.key.user == d.key.user
        ensures d.key.sequence < y.key.sequence && y in Contents(v)
      {
        BehindIsNewer(v, l, c0, c1, d, y);
      }
      hide Behind;
      forall y | Newest(Behind(v, l, c0, c1), d.key.user, snap, y)
        ensures Visible(upper + Contents(v), d.key.user, s, y) && d.key.sequence < y.key.sequence
      {
        assert Visible(Behind(v, l, c0, c1), d.key.user, snap, y);
      }
    }
  }

  /** A compaction preserves every read at or above its snapshot, although it drops hidden entries and obsolete
      tombstones, when nothing left behind in its two levels is older than its inputs. */
  lemma CompactionKeepsViews(upper: iset<Entry>, before: Version, after: Version, l: nat, c0: seq<File>, c1: seq<File>,
                             come: seq<File>, input: seq<Entry>, snap: nat, base: Version, k: UserKey, s: nat)
    requires CompactedUnder(upper, before, after, l, c0, c1, come, input, snap, base) && snap <= s
    requires JobFits(before, l, c0, c1)
    ensures View(upper + Contents(after), k, s) == View(upper + Contents(before), k, s)
  {
    FitsUncoversNothing(upper, before, l, c0, c1, snap, base, s);
    CompactionKeepsView(upper, before, after, l, c0, c1, come, input, snap, base, k, s);
  }
}
