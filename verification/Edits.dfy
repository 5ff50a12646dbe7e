/** What a version edit does to the levels, and when it keeps them in order (db/version_set.cc,
    db/db_impl.cc). */
module Edits {
  import opened InternalKeys
  import opened Versions
  import opened Picking
  import opened CompactionWork

  /** Builder::BySmallestKey: by smallest key, then by number. */
  predicate BySmallest(f: File, g: File) {
    Less(f.smallest, g.smallest) || (f.smallest == g.smallest && f.number < g.number)
  }

  ghost predicate SortedBySmallest(files: seq<File>) {
    forall i, j :: 0 <= i < j < |files| ==> BySmallest(files[i], files[j])
  }

  /** A level after deleting `gone` and adding `come`. */
  ghost predicate Replaced(before: seq<File>, after: seq<File>, gone: seq<File>, come: seq<File>) {
    && SortedBySmallest(after)
    && forall f :: f in after <==> (f in before && f !in gone) || f in come
  }

  /** `after` is `before` with `f` added to level `l`. */
  ghost predicate Added(before: Version, after: Version, l: nat, f: File) {
    && l < |before.levels| == |after.levels|
    && Replaced(before.levels[l], after.levels[l], [], [f])
    && forall m :: 0 <= m < |before.levels| && m != l ==> after.levels[m] == before.levels[m]
  }

  /** `after` is `before` with `c0` gone from level `l` and `c1` gone from the next, which gets `come`. */
  ghost predicate Moved(before: Version, after: Version, l: nat, c0: seq<File>, c1: seq<File>, come: seq<File>) {
    && l + 1 < |before.levels| == |after.levels|
    && Replaced(before.levels[l], after.levels[l], c0, [])
    && Replaced(before.levels[l + 1], after.levels[l + 1], c1, come)
    && forall m :: 0 <= m < |before.levels| && m != l && m != l + 1 ==> after.levels[m] == before.levels[m]
  }

  // ---- one level ----

  predicate Apart(f: File, g: File) {
    Less(f.largest, g.smallest) || Less(g.largest, f.smallest)
  }

  predicate UserApart(f: File, g: File) {
    f.largest.user < g.smallest.user || g.largest.user < f.smallest.user
  }

  ghost predicate AllApart(files: seq<File>) {
    forall f, g :: f in files && g in files && f != g ==> Apart(f, g)
  }

  ghost predicate AllUserApart(files: seq<File>) {
    forall f, g :: f in files && g in files && f != g ==> UserApart(f, g)
  }

  lemma SortedApartIsDisjoint(files: seq<File>)
    requires GoodFiles(files) && SortedBySmallest(files)
    ensures AllApart(files) ==> Disjoint(files)
    ensures AllUserApart(files) ==> UserDisjoint(files)
  {
    forall i, j | 0 <= i < j < |files|
      ensures AllApart(files) ==> Less(files[i].largest, files[j].smallest)
      ensures AllUserApart(files) ==> files[i].largest.user < files[j].smallest.user
    {
      assert BySmallest(files[i], files[j]);
      FileRange(files[i]);
      FileRange(files[j]);
    }
  }

  lemma DisjointIsApart(files: seq<File>)
    ensures Disjoint(files) ==> AllApart(files)
    ensures UserDisjoint(files) ==> AllUserApart(files)
  {
    forall f, g | f in files && g in files && f != g
      ensures Disjoint(files) ==> Apart(f, g)
      ensures UserDisjoint(files) ==> UserApart(f, g)
    {
      var i :| 0 <= i < |files| && files[i] == f;
      var j :| 0 <= j < |files| && files[j] == g;
    }
  }

  /** Every file of `stay` that is not picked lies apart from every new one. */
  ghost predicate ApartFrom(stay: seq<File>, gone: seq<File>, come: seq<File>) {
    forall f, g :: f in stay && f !in gone && g in come ==> Apart(f, g)
  }

  lemma ReplacedIsDisjoint(before: seq<File>, after: seq<File>, gone: seq<File>, come: seq<File>)
    requires GoodFiles(before) && Disjoint(before) && GoodFiles(come) && Disjoint(come)
    requires Replaced(before, after, gone, come) && ApartFrom(before, gone, come)
    ensures GoodFiles(after) && Disjoint(after)
  {
    DisjointIsApart(before);
    DisjointIsApart(come);
    SortedApartIsDisjoint(after);
  }

  // ---- order between levels ----

  /** Entries of `newer` are newer than those of `older` for every shared user key. */
  ghost predicate NewerThan(newer: iset<Entry>, older: iset<Entry>) {
    forall x, y :: x in newer && y in older && x.key.user == y.key.user ==> y.key.sequence < x.key.sequence
  }

  /** The entries of the files of a level that are not picked. */
  ghost function Left(files: seq<File>, picked: seq<File>): iset<Entry> {
    iset f, e | f in files && f !in picked && e in f.entries :: e
  }

  /** A new table that is newer than everything may be added to a level if it overlaps no level above
      it nor that level; in level 0 it must also have the largest number. */
  lemma AddedKeepsGood(before: Version, after: Version, l: nat, f: File)
    requires GoodVersion(before) && f.Good() && Added(before, after, l, f)
    requires forall m: nat, x :: At(before, m, x) ==> forall e :: e in f.entries ==> x.key.sequence < e.key.sequence
    requires l == 0 ==> forall g :: g in before.levels[0] ==> g.number < f.number
    requires l > 0 ==> forall m, g :: 0 <= m <= l && g in before.levels[m] ==> UserApart(f, g)
    ensures GoodVersion(after)
  {
    forall m | 0 <= m < NUM_LEVELS ensures GoodFiles(after.levels[m]) {
      assert GoodFiles(before.levels[m]);
    }
    if l > 0 {
      assert GoodFiles(before.levels[l]) && Disjoint(before.levels[l]);
      forall g | g in before.levels[l] ensures Apart(g, f) {
        assert UserApart(f, g);
      }
      ReplacedIsDisjoint(before.levels[l], after.levels[l], [], [f]);
    } else {
      AddedKeepsLevelZero(before, after, f);
    }
    forall m | 1 <= m < NUM_LEVELS ensures Disjoint(after.levels[m]) {
      assert m != l ==> Disjoint(before.levels[m]);
    }
    AddedKeepsOrder(before, after, l, f);
  }

  lemma AddedKeepsLevelZero(before: Version, after: Version, f: File)
    requires GoodVersion(before) && f.Good() && Added(before, after, 0, f)
    requires forall m: nat, x :: At(before, m, x) ==> forall e :: e in f.entries ==> x.key.sequence < e.key.sequence
    requires forall g :: g in before.levels[0] ==> g.number < f.number
    ensures DistinctNumbers(after.levels[0]) && LevelZeroOrdered(after.levels[0])
  {
    forall g, h | g in after.levels[0] && h in after.levels[0] && g.number < h.number ensures Older(g, h) {
      forall x, y | x in g.entries && y in h.entries && x.key.user == y.key.user
        ensures x.key.sequence < y.key.sequence
      {
        assert g in before.levels[0];
        if h == f {
          assert At(before, 0, x);
        } else {
          assert Older(g, h);
        }
      }
    }
  }

  lemma UserApartShareNothing(f: File, g: File, x: Entry, y: Entry)
    requires f.Good() && g.Good() && UserApart(f, g) && x in f.entries && y in g.entries
    ensures x.key.user != y.key.user
  {
    FileBounds(f, x);
    FileBounds(g, y);
  }

  lemma AddedKeepsOrder(before: Version, after: Version, l: nat, f: File)
    requires GoodVersion(before) && f.Good() && Added(before, after, l, f)
    requires forall m: nat, x :: At(before, m, x) ==> forall e :: e in f.entries ==> x.key.sequence < e.key.sequence
    requires l > 0 ==> forall m, g :: 0 <= m <= l && g in before.levels[m] ==> UserApart(f, g)
    ensures LevelsOrdered(after)
  {
    forall m: nat, n: nat, x, y | m < n && At(after, m, x) && At(after, n, y) && x.key.user == y.key.user
      ensures y.key.sequence < x.key.sequence
    {
      var g :| g in after.levels[m] && x in g.entries;
      var h :| h in after.levels[n] && y in h.entries;
      if n == l && h == f {
        // then `x` would be in a level that `f` does not overlap
        assert g in before.levels[m] && GoodFiles(before.levels[m]);
        UserApartShareNothing(f, g, y, x);
      } else {
        assert At(before, n, y);
        if m == l && g == f {
        } else {
          assert At(before, m, x);
        }
      }
    }
  }

  /** Moving `c0` and `c1` into new tables of the lower of their two levels keeps the version good, if
      what stays behind in the upper level is newer than what arrives, and the new tables fit in. */
  lemma MovedKeepsGood(before: Version, after: Version, l: nat, c0: seq<File>, c1: seq<File>, come: seq<File>)
    requires GoodVersion(before) && Moved(before, after, l, c0, c1, come)
    requires GoodFiles(come) && Disjoint(come) && ApartFrom(before.levels[l + 1], c1, come)
    requires forall f :: f in c0 ==> f in before.levels[l]
    requires forall f :: f in c1 ==> f in before.levels[l + 1]
    requires forall e :: Holds(come, e) ==> Holds(c0, e) || Holds(c1, e)
    requires NewerThan(Left(before.levels[l], c0), LevelContents(come))
    ensures GoodVersion(after)
  {
    assert GoodFiles(before.levels[l]) && GoodFiles(before.levels[l + 1]);
    ReplacedIsDisjoint(before.levels[l + 1], after.levels[l + 1], c1, come);
    if l > 0 {
      ReplacedIsDisjoint(before.levels[l], after.levels[l], c0, []);
    } else {
      forall f, g | f in after.levels[0] && g in after.levels[0] && f.number < g.number ensures Older(f, g) {
        assert f in before.levels[0] && g in before.levels[0];
      }
    }
    forall m | 0 <= m < NUM_LEVELS
      ensures GoodFiles(after.levels[m]) && (m > 0 ==> Disjoint(after.levels[m]))
    {
      assert m != l && m != l + 1 ==> GoodFiles(before.levels[m]) && (m > 0 ==> Disjoint(before.levels[m]));
    }
    MovedKeepsOrder(before, after, l, c0, c1, come);
  }

  /** Where an entry of the new version was before. */
  lemma MovedFrom(before: Version, after: Version, l: nat, c0: seq<File>, c1: seq<File>, come: seq<File>, m: nat, e: Entry)
    requires Moved(before, after, l, c0, c1, come) && At(after, m, e)
    requires forall x :: Holds(come, x) ==> Holds(c0, x) || Holds(c1, x)
    requires forall f :: f in c0 ==> f in before.levels[l]
    requires forall f :: f in c1 ==> f in before.levels[l + 1]
    ensures m != l + 1 ==> At(before, m, e)
    ensures m == l ==> e in Left(before.levels[l], c0)
    ensures m == l + 1 ==> At(before, l + 1, e) || e in LevelContents(c0)
  {
    var f :| f in after.levels[m] && e in f.entries;
    if m == l + 1 {
      if f in come {
        assert Holds(come, e);
        if Holds(c1, e) {
          var g :| g in c1 && e in g.entries;
          assert At(before, l + 1, e);
        }
      } else {
        assert At(before, l + 1, e);
      }
    } else if m == l {
      assert f in before.levels[l];
    }
  }

  lemma ArrivedOrThere(before: Version, after: Version, l: nat, c0: seq<File>, c1: seq<File>, come: seq<File>, n: nat, y: Entry)
    requires Moved(before, after, l, c0, c1, come) && At(after, n, y)
    ensures At(before, n, y) || (n == l + 1 && y in LevelContents(come))
  {
    var f :| f in after.levels[n] && y in f.entries;
    assert f in before.levels[n] || (n == l + 1 && f in come);
  }

  lemma MovedKeepsOrder(before: Version, after: Version, l: nat, c0: seq<File>, c1: seq<File>, come: seq<File>)
    requires LevelsOrdered(before) && Moved(before, after, l, c0, c1, come)
    requires forall f :: f in c0 ==> f in before.levels[l]
    requires forall f :: f in c1 ==> f in before.levels[l + 1]
    requires forall e :: Holds(come, e) ==> Holds(c0, e) || Holds(c1, e)
    requires NewerThan(Left(before.levels[l], c0), LevelContents(come))
    ensures LevelsOrdered(after)
  {
    forall m: nat, n: nat, x, y | m < n && At(after, m, x) && At(after, n, y) && x.key.user == y.key.user
      ensures y.key.sequence < x.key.sequence
    {
      MovedFrom(before, after, l, c0, c1, come, m, x);
      MovedFrom(before, after, l, c0, c1, come, n, y);
      ArrivedOrThere(before, after, l, c0, c1, come, n, y);
      if Holds(c0, x) {
        assert At(before, l, x);
      }
      if Holds(c0, y) {
        assert At(before, l, y);
      }
    }
  }
}
