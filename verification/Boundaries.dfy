/** User keys whose versions straddle two files of a level: when a move is safe, and why runs without
    live snapshots never create them (db/version_set.cc, db/db_impl.cc). */
module Boundaries {
  import opened Wrappers
  import opened InternalKeys
  import opened Versions
  import opened Picking
  import opened CompactionWork
  import opened Edits
  import opened CompactionReads

  // ---- trivial moves ----

  /** With ordered levels, a level-by-level search and the specification agree in both directions. */
  lemma NewestIsFirstHit(v: Version, k: UserKey, s: nat, r: Option<Entry>)
    requires GoodVersion(v) && Resolves(Contents(v), k, s, r)
    ensures FirstHit(v, k, s, r)
  {
    match r
    case None =>
      forall l: nat | l < |v.levels| ensures Resolves(LevelContents(v.levels[l]), k, s, None) {
        forall e ensures !Visible(LevelContents(v.levels[l]), k, s, e) {
          assert Holds(v.levels[l], e) ==> At(v, l, e);
          assert !Visible(Contents(v), k, s, e);
        }
      }
    case Some(e) =>
      var l: nat :| At(v, l, e);
      assert Resolves(LevelContents(v.levels[l]), k, s, r) by {
        forall f | Visible(LevelContents(v.levels[l]), k, s, f) ensures f.key.sequence <= e.key.sequence {
          assert At(v, l, f);
          assert Visible(Contents(v), k, s, f);
        }
      }
      forall m: nat | m < l ensures Resolves(LevelContents(v.levels[m]), k, s, None) {
        forall f ensures !Visible(LevelContents(v.levels[m]), k, s, f) {
          assert Holds(v.levels[m], f) ==> At(v, m, f);
          assert At(v, m, f) && f.key.user == k ==> e.key.sequence < f.key.sequence;
          assert At(v, m, f) && Visible(LevelContents(v.levels[m]), k, s, f) ==> Visible(Contents(v), k, s, f);
        }
      }
  }

  /** Moving `f` from level `l` to the next, where nothing overlaps it. */
  ghost predicate TriviallyMoved(before: Version, after: Version, l: nat, f: File) {
    && GoodVersion(before) && DistinctSequences(Contents(before))
    && Picked(before, l, [f], []) && Moved(before, after, l, [f], [], [f])
  }

  lemma MovedFileFits(next: seq<File>, f: File)
    requires GoodFiles(next) && Disjoint(next) && f.Good() && TouchingHull(next, [f], [])
    ensures ApartFrom(next, [], [f])
  {
    forall g | g in next ensures Apart(g, f) {
      NextLevelOutside(next, [f], [], g);
      assert f in [f] + [];
    }
  }

  lemma TrivialMoveIsGood(before: Version, after: Version, l: nat, f: File)
    requires TriviallyMoved(before, after, l, f)
    requires l > 0 ==> NoBoundarySplit(before.levels[l], [f])
    ensures GoodVersion(after) && Contents(after) == Contents(before)
  {
    hide GoodVersion, Disjoint, DistinctSequences, NewerThan, ApartFrom, TouchingHull, Moved, NoBoundarySplit;
    LevelDistinct(before, l);
    LevelDistinct(before, l + 1);
    LevelNewer(before.levels[l], l, [f]);
    assert f in [f];
    MovedFileFits(before.levels[l + 1], f);
    MovedKeepsGood(before, after, l, [f], [], [f]);
    SameContents(before, after, l, f);
  }

  lemma SameContents(before: Version, after: Version, l: nat, f: File)
    requires Moved(before, after, l, [f], [], [f]) && f in before.levels[l]
    ensures Contents(after) == Contents(before)
  {
    forall e ensures e in Contents(after) <==> e in Contents(before) {
      if m: nat :| At(after, m, e) {
        var g :| g in after.levels[m] && e in g.entries;
        assert At(before, m, e) || At(before, l, e);
      }
      if m: nat :| At(before, m, e) {
        var g :| g in before.levels[m] && e in g.entries;
        assert At(after, m, e) || At(after, l + 1, e);
      }
    }
  }

  lemma FoundBefore(v: Version, l: nat, f: File, x: Entry)
    requires GoodVersion(v) && l < NUM_LEVELS && f in v.levels[l] && x in f.entries
    requires DistinctSequences(Contents(v))
    ensures FirstHit(v, x.key.user, x.key.sequence, Some(x))
  {
    assert At(v, l, x);
    NewestIsFirstHit(v, x.key.user, x.key.sequence, Some(x));
  }

  /** Once an older version of `x`'s key stays in level `l` and `x` itself is in no level up to `l`, the
      search cannot reach it. */
  lemma NotFoundAfter(v: Version, l: nat, x: Entry, y: Entry)
    requires At(v, l, y) && y.key.user == x.key.user && y.key.sequence <= x.key.sequence
    requires forall m: nat :: m <= l ==> !At(v, m, x)
    ensures !FirstHit(v, x.key.user, x.key.sequence, Some(x))
  {
    assert Visible(LevelContents(v.levels[l]), x.key.user, x.key.sequence, y);
    forall m: nat | m < |v.levels| && Resolves(LevelContents(v.levels[m]), x.key.user, x.key.sequence, Some(x))
      ensures l < m
    {
      assert At(v, m, x);
    }
  }

  lemma OnlyInItsFile(v: Version, l: nat, f: File, x: Entry, m: nat, h: File)
    requires GoodVersion(v) && 0 < l < NUM_LEVELS && f in v.levels[l] && x in f.entries
    requires m <= l && h in v.levels[m] && x in h.entries
    ensures m == l && h == f
  {
    assert GoodFiles(v.levels[l]) && Disjoint(v.levels[l]);
    assert At(v, l, x) && At(v, m, x);
    DisjointIsApart(v.levels[l]);
    if m == l && h != f {
      FileBounds(h, x);
      FileBounds(f, x);
      assert false;
    }
  }

  /** The entry a split boundary would hide is found before the move and not after it. */
  lemma SplitBoundaryServesStaleRead(before: Version, after: Version, l: nat, f: File, g: File)
    requires TriviallyMoved(before, after, l, f) && l > 0
    requires g in before.levels[l] && g != f && Less(f.largest, g.smallest) && f.largest.user == g.smallest.user
    ensures |f.entries| > 0
    ensures var x := f.entries[|f.entries| - 1];
            && FirstHit(before, x.key.user, x.key.sequence, Some(x))
            && !FirstHit(after, x.key.user, x.key.sequence, Some(x))
  {
    assert GoodFiles(before.levels[l]) && f.Good() && g.Good();
    var x, y := f.entries[|f.entries| - 1], g.entries[0];
    FoundBefore(before, l, f, x);
    assert g in after.levels[l] && Holds(after.levels[l], y);
    forall m: nat | m <= l ensures !At(after, m, x) {
      forall h | h in after.levels[m] ensures x !in h.entries {
        assert h in before.levels[m] && (m == l ==> h != f);
        if x in h.entries {
          OnlyInItsFile(before, l, f, x, m, h);
        }
      }
    }
    NotFoundAfter(after, l, x, y);
  }

  lemma GoodMovesKeepReads(before: Version, after: Version, k: UserKey, s: nat, r: Option<Entry>)
    requires GoodVersion(before) && GoodVersion(after) && Contents(after) == Contents(before)
    ensures FirstHit(before, k, s, r) <==> FirstHit(after, k, s, r)
  {
    if FirstHit(before, k, s, r) {
      FirstHitIsNewest(before, k, s, r);
      NewestIsFirstHit(after, k, s, r);
    }
    if FirstHit(after, k, s, r) {
      FirstHitIsNewest(after, k, s, r);
      NewestIsFirstHit(before, k, s, r);
    }
  }

  /** A trivial move keeps every read exactly when no file left in the level starts with the user key the
      moved file ends with. The picking code has no step that ensures it. */
  lemma TrivialMoveKeepsReadsIff(before: Version, after: Version, l: nat, f: File)
    requires TriviallyMoved(before, after, l, f) && l > 0
    ensures (forall k, s: nat, r :: FirstHit(before, k, s, r) <==> FirstHit(after, k, s, r))
            <==> NoBoundarySplit(before.levels[l], [f])
  {
    if NoBoundarySplit(before.levels[l], [f]) {
      TrivialMoveIsGood(before, after, l, f);
      forall k, s: nat, r ensures FirstHit(before, k, s, r) <==> FirstHit(after, k, s, r) {
        GoodMovesKeepReads(before, after, k, s, r);
      }
    } else {
      var g :| g in before.levels[l] && g != f && Less(f.largest, g.smallest) && f.largest.user >= g.smallest.user;
      SplitBoundaryServesStaleRead(before, after, l, f, g);
    }
  }

  // ---- levels that are disjoint by user key ----

  ghost predicate UserDisjointLevels(v: Version) {
    forall l :: 1 <= l < |v.levels| ==> UserDisjoint(v.levels[l])
  }

  lemma UserDisjointHasNoSplit(files: seq<File>, picked: seq<File>)
    requires UserDisjoint(files) && GoodFiles(files) && forall f :: f in picked ==> f in files
    ensures NoBoundarySplit(files, picked)
  {
    DisjointIsApart(files);
    forall f, g | f in picked && g in files && g !in picked && Less(f.largest, g.smallest)
      ensures f.largest.user < g.smallest.user
    {
      assert UserApart(f, g);
      FileRange(f);
      FileRange(g);
    }
  }

  /** When everything merged is at or below the snapshot, at most one version of each key survives. */
  lemma OneSurvivorPerKey(input: seq<Entry>, n: nat, snap: nat, v: Version, level: nat)
    requires Sorted(input) && n <= |input|
    requires forall i :: 0 <= i < n ==> input[i].key.sequence <= snap
    ensures var r := Survivors(input, n, snap, v, level);
            forall i, j :: 0 <= i < j < |r| ==> r[i].key.user < r[j].key.user
  {
    if n > 0 {
      OneSurvivorPerKey(input, n - 1, snap, v, level);
      var r := Survivors(input, n - 1, snap, v, level);
      if !Dropped(input, n - 1, snap, v, level) {
        forall j | 0 <= j < |r| ensures r[j].key.user < input[n - 1].key.user {
          SurvivorsSorted(input, n - 1, snap, v, level);
          assert r[j] in r;
          var i :| 0 <= i < n - 1 && input[i] == r[j];
          assert Less(input[i].key, input[n - 1].key);
          if input[i].key.user == input[n - 1].key.user {
            NothingOlderSurvives(input, snap, v, level, i, n - 1);
          }
        }
      }
    }
  }

  lemma {:induction false} UserSlices(files: seq<File>)
    requires GoodFiles(files)
    requires forall i, j :: 0 <= i < j < |Flatten(files)| ==> Flatten(files)[i].key.user < Flatten(files)[j].key.user
    ensures UserDisjoint(files)
  {
    if files != [] {
      var front, last := files[..|files| - 1], files[|files| - 1];
      var all := Flatten(files);
      assert all == Flatten(front) + last.entries;
      assert forall i :: 0 <= i < |Flatten(front)| ==> all[i] == Flatten(front)[i];
      UserSlices(front);
      forall i | 0 <= i < |front| ensures front[i].largest.user < last.smallest.user {
        assert front[i] in front && front[i].Good();
        var e := front[i].entries[|front[i].entries| - 1];
        FlattenHolds(front, e);
        var j :| 0 <= j < |Flatten(front)| && Flatten(front)[j] == e;
        assert last.Good() && all[|Flatten(front)|] == last.entries[0];
      }
    }
  }

  lemma AddedKeepsUserDisjoint(before: Version, after: Version, l: nat, f: File)
    requires |before.levels| == NUM_LEVELS && Added(before, after, l, f) && UserDisjointLevels(before)
    requires f.Good() && forall m :: 0 <= m < NUM_LEVELS ==> GoodFiles(before.levels[m])
    requires l > 0 ==> forall g :: g in before.levels[l] ==> UserApart(f, g)
    ensures UserDisjointLevels(after)
  {
    forall m | 1 <= m < |after.levels| ensures UserDisjoint(after.levels[m]) {
      if m == l {
        assert GoodFiles(before.levels[l]) && UserDisjoint(before.levels[l]);
        DisjointIsApart(before.levels[l]);
        SortedApartIsDisjoint(after.levels[l]);
      } else {
        assert UserDisjoint(before.levels[m]);
      }
    }
  }

  lemma MovedKeepsUserDisjoint(before: Version, after: Version, l: nat, c0: seq<File>, c1: seq<File>, come: seq<File>)
    requires |before.levels| == NUM_LEVELS && Moved(before, after, l, c0, c1, come) && UserDisjointLevels(before)
    requires forall m :: 0 <= m < NUM_LEVELS ==> GoodFiles(before.levels[m])
    requires GoodFiles(come) && UserDisjoint(come)
    requires forall g, h :: g in before.levels[l + 1] && g !in c1 && h in come ==> UserApart(g, h)
    ensures UserDisjointLevels(after)
  {
    forall m | 1 <= m < |after.levels| ensures UserDisjoint(after.levels[m]) {
      assert GoodFiles(before.levels[m]) && UserDisjoint(before.levels[m]);
      DisjointIsApart(before.levels[m]);
      DisjointIsApart(come);
      if m == l || m == l + 1 {
        SortedApartIsDisjoint(after.levels[m]);
      }
    }
  }

  /** The outputs of a compaction whose inputs are all at or below its snapshot are disjoint by user key
      among themselves and from the files left in their level. */
  lemma OutputsUserApart(next: seq<File>, inputs: seq<File>, c1: seq<File>, come: seq<File>, input: seq<Entry>,
                         snap: nat, base: Version, l: nat)
    requires GoodFiles(inputs) && GoodFiles(come)
    requires IsMerge(input, inputs) && Flatten(come) == Survivors(input, |input|, snap, base, l)
    requires forall e :: Holds(inputs, e) ==> e.key.sequence <= snap
    requires forall g :: g in next && g !in c1 ==> UserClear(g, Surviving(inputs, snap, base, l))
    ensures UserDisjoint(come)
    ensures forall g, h :: g in next && g !in c1 && h in come ==> UserApart(g, h)
  {
    OneSurvivorPerKey(input, |input|, snap, base, l);
    UserSlices(come);
    SurvivorsSurvive(inputs, input, snap, base, l);
    forall g, h | g in next && g !in c1 && h in come ensures UserApart(g, h) {
      var first, last := h.entries[0], h.entries[|h.entries| - 1];
      assert Holds(come, first) && Holds(come, last);
      FlattenHolds(come, first);
      FlattenHolds(come, last);
      assert first in Surviving(inputs, snap, base, l) && last in Surviving(inputs, snap, base, l);
    }
  }
}
