/** Versions saved by a builder, logged in the MANIFEST, and rebuilt from it (db/version_set.cc). */
module Manifests {
  import opened Wrappers
  import opened ByteStrings
  import opened Coding
  import opened VersionEdits
  import opened Comparators

  // ---- the order of files ----

  /** By smallest key, then by number. */
  predicate FileBefore(f: FileMetaData, g: FileMetaData) {
    KeyBefore(f.smallest, g.smallest) || (!KeyBefore(g.smallest, f.smallest) && f.number < g.number)
  }

  lemma FileOrder(f: FileMetaData, g: FileMetaData, h: FileMetaData)
    ensures !FileBefore(f, f)
    ensures FileBefore(f, g) ==> !FileBefore(g, f)
    ensures f.number != g.number ==> FileBefore(f, g) || FileBefore(g, f)
    ensures FileBefore(f, g) && FileBefore(g, h) ==> FileBefore(f, h)
  {
    KeyOrder(f.smallest, f.smallest);
    KeyOrder(f.smallest, g.smallest);
    KeyOrder(g.smallest, f.smallest);
    KeyOrder(g.smallest, h.smallest);
    KeyOrder(h.smallest, g.smallest);
    KeyOrder(f.smallest, h.smallest);
    KeyOrder(h.smallest, f.smallest);
  }

  type Files = seq<FileMetaData>

  ghost predicate InOrder(files: Files) {
    forall i, j :: 0 <= i < j < |files| ==> FileBefore(files[i], files[j])
  }

  ghost predicate OneEach(files: Files) {
    forall i, j :: 0 <= i < j < |files| ==> files[i].number != files[j].number
  }

  lemma OrderTail(files: Files)
    requires files != [] && InOrder(files)
    ensures InOrder(files[1..]) && forall g :: g in files[1..] ==> FileBefore(files[0], g)
  {
  }

  lemma OrderCons(f: FileMetaData, rest: Files)
    requires InOrder(rest) && forall g :: g in rest ==> FileBefore(f, g)
    ensures InOrder([f] + rest)
  {
    var files := [f] + rest;
    forall i, j | 0 <= i < j < |files| ensures FileBefore(files[i], files[j]) {
      assert files[j] == rest[j - 1];
      if i > 0 {
        assert files[i] == rest[i - 1];
      }
    }
  }

  lemma SameLengthZero(a: Files, b: Files)
    requires forall f :: f in b ==> f in a
    ensures b != [] ==> a != []
  {
    if b != [] {
      assert b[0] in b;
    }
  }

  /** Files in order are determined by which files they are. */
  lemma {:induction false} OrderIsUnique(a: Files, b: Files)
    requires InOrder(a) && InOrder(b) && forall f :: f in a <==> f in b
    ensures a == b
    decreases |a|
  {
    hide FileBefore, InOrder;
    SameLengthZero(a, b);
    if a != [] {
      assert a[0] in b && b != [] && b[0] in a;
      OrderTail(a);
      OrderTail(b);
      assert a == [a[0]] + a[1..] && b == [b[0]] + b[1..];
      FileOrder(a[0], b[0], a[0]);
      FileOrder(a[0], a[0], a[0]);
      assert a[0] == b[0];
      FileOrder(b[0], b[0], b[0]);
      forall f ensures f in a[1..] <==> f in b[1..] {
        assert f in a <==> f == a[0] || f in a[1..];
        assert f in b <==> f == b[0] || f in b[1..];
      }
      OrderIsUnique(a[1..], b[1..]);
    }
  }

  // ---- what a builder keeps of one level ----

  datatype LevelState = LevelState(deleted: set<nat>, added: Files)

  /** Inserting into a set ordered by FileBefore; an equivalent file that is there already stays. */
  function Insert(added: Files, f: FileMetaData): Files {
    if added == [] then [f]
    else if FileBefore(f, added[0]) then [f] + added
    else if FileBefore(added[0], f) then [added[0]] + Insert(added[1..], f)
    else added
  }

  lemma {:induction false} InsertKeepsOrder(added: Files, f: FileMetaData)
    requires InOrder(added)
    ensures InOrder(Insert(added, f))
    ensures forall g :: g in Insert(added, f) ==> g in added || g == f
    ensures forall g :: g in added ==> g in Insert(added, f)
    ensures (forall g :: g in added ==> g.number != f.number) ==> f in Insert(added, f)
    decreases |added|
  {
    hide FileBefore, InOrder;
    if added == [] {
      OrderCons(f, []) by {
        EmptyOrder();
      }
      assert [f] + [] == [f];
    } else {
      OrderTail(added);
      assert added == [added[0]] + added[1..];
      FileOrder(f, added[0], f);
      if FileBefore(f, added[0]) {
        forall g | g in added ensures FileBefore(f, g) {
          FileOrder(f, added[0], g);
        }
        OrderCons(f, added);
      } else if FileBefore(added[0], f) {
        InsertKeepsOrder(added[1..], f);
        OrderCons(added[0], Insert(added[1..], f));
      }
    }
  }

  lemma EmptyOrder()
    ensures InOrder([])
  {
  }

  function NumbersAt(deleted: set<LevelNumber>, level: nat): set<nat> {
    set d | d in deleted && d.level == level :: d.number
  }

  function AddFile(s: LevelState, f: FileMetaData): LevelState {
    LevelState(s.deleted - {f.number}, Insert(s.added, f))
  }

  function AddFiles(s: LevelState, news: seq<LevelFile>, level: nat): LevelState {
    if news == [] then s
    else
      var before := AddFiles(s, news[..|news| - 1], level);
      if news[|news| - 1].level == level then AddFile(before, news[|news| - 1].file) else before
  }

  /** What one edit does to a level. */
  function Edited(s: LevelState, e: VersionEdit, level: nat): LevelState {
    AddFiles(s.(deleted := s.deleted + NumbersAt(e.deletedFiles, level)), e.newFiles, level)
  }

  // ---- the files of a new version ----

  /** Two ordered lists made one; of equivalent files, those of the base come first. */
  function Merge(base: Files, added: Files): Files {
    if added == [] then base
    else if base == [] then added
    else if FileBefore(added[0], base[0]) then [added[0]] + Merge(base, added[1..])
    else [base[0]] + Merge(base[1..], added)
  }

  function Kept(files: Files, deleted: set<nat>): Files {
    if files == [] then []
    else Kept(files[..|files| - 1], deleted) + if files[|files| - 1].number in deleted then [] else [files[|files| - 1]]
  }

  function Saved(base: Files, s: LevelState): Files {
    Kept(Merge(base, s.added), s.deleted)
  }

  lemma {:induction false} MergeKeepsOrder(base: Files, added: Files)
    requires InOrder(base) && InOrder(added)
    requires forall f, g :: f in base && g in added ==> f.number != g.number
    ensures InOrder(Merge(base, added)) && forall f :: f in Merge(base, added) <==> f in base || f in added
    decreases |base| + |added|
  {
    hide FileBefore, InOrder;
    if added != [] && base != [] {
      var a, b := added[0], base[0];
      assert a in added && b in base;
      OrderTail(added);
      OrderTail(base);
      FileOrder(a, b, a);
      assert added == [a] + added[1..] && base == [b] + base[1..];
      if FileBefore(a, b) {
        MergeKeepsOrder(base, added[1..]);
        forall g | g in Merge(base, added[1..]) ensures FileBefore(a, g) {
          FileOrder(a, b, g);
        }
        OrderCons(a, Merge(base, added[1..]));
      } else {
        MergeKeepsOrder(base[1..], added);
        forall g | g in Merge(base[1..], added) ensures FileBefore(b, g) {
          FileOrder(b, a, g);
        }
        OrderCons(b, Merge(base[1..], added));
      }
    }
  }

  lemma {:induction false} KeptFiles(files: Files, deleted: set<nat>)
    ensures forall f :: f in Kept(files, deleted) <==> f in files && f.number !in deleted
    ensures InOrder(files) ==> InOrder(Kept(files, deleted))
    decreases |files|
  {
    hide FileBefore;
    if files != [] {
      var n := |files| - 1;
      KeptFiles(files[..n], deleted);
      assert files == files[..n] + [files[n]];
      if InOrder(files) {
        assert InOrder(files[..n]);
        forall f | f in files[..n] ensures FileBefore(f, files[n]) {
        }
      }
    }
  }

  /** A saved level is in order, and holds what was there or was added and is not deleted. */
  lemma SavedFiles(base: Files, s: LevelState)
    requires InOrder(base) && InOrder(s.added)
    requires forall f, g :: f in base && g in s.added ==> f.number != g.number
    ensures InOrder(Saved(base, s))
    ensures forall f :: f in Saved(base, s) <==> (f in base || f in s.added) && f.number !in s.deleted
  {
    MergeKeepsOrder(base, s.added);
    KeptFiles(Merge(base, s.added), s.deleted);
  }

  // ---- one builder for many edits ----

  ghost predicate Unused(files: Files, number: nat) {
    forall f :: f in files ==> f.number != number
  }

  /** The files that an edit adds to a level are none that was added before, nor the same one twice. */
  ghost predicate Fresh(added: Files, news: seq<LevelFile>, level: nat) {
    && (forall a :: a in news && a.level == level ==> Unused(added, a.file.number))
    && forall i, j :: 0 <= i < j < |news| && news[i].level == news[j].level == level ==> news[i].file.number != news[j].file.number
  }

  predicate NewAt(news: seq<LevelFile>, level: nat, f: FileMetaData) {
    LevelFile(level, f) in news
  }

  lemma {:induction false} AddedFiles(s: LevelState, news: seq<LevelFile>, level: nat)
    requires InOrder(s.added) && Fresh(s.added, news, level)
    ensures var r := AddFiles(s, news, level);
            && InOrder(r.added)
            && (forall f :: f in r.added <==> f in s.added || NewAt(news, level, f))
            && forall n :: n in r.deleted <==> n in s.deleted && forall f :: NewAt(news, level, f) ==> f.number != n
    decreases |news|
  {
    hide InOrder, Insert;
    if news != [] {
      var n := |news| - 1;
      var a, before := news[n], AddFiles(s, news[..n], level);
      assert news == news[..n] + [a];
      AddedFiles(s, news[..n], level);
      if a.level == level {
        forall g | g in before.added ensures g.number != a.file.number {
          if NewAt(news[..n], level, g) {
            var i :| 0 <= i < n && news[i] == LevelFile(level, g);
          }
        }
        InsertKeepsOrder(before.added, a.file);
      }
    }
  }

  /** What an edit deletes from a level, if it does not add it again. */
  lemma DeletedByEdit(e: VersionEdit, level: nat)
    requires Fresh([], e.newFiles, level)
    ensures forall n :: n in Edited(LevelState({}, []), e, level).deleted <==>
      LevelNumber(level, n) in e.deletedFiles && forall f :: NewAt(e.newFiles, level, f) ==> f.number != n
  {
    var s := LevelState({}, []);
    AddedFiles(s.(deleted := s.deleted + NumbersAt(e.deletedFiles, level)), e.newFiles, level);
  }

  lemma AppliedFiles(s: LevelState, e: VersionEdit, level: nat)
    requires InOrder(s.added) && Fresh(s.added, e.newFiles, level)
    ensures var r := Edited(s, e, level);
            && InOrder(r.added)
            && (forall f :: f in r.added <==> f in s.added || NewAt(e.newFiles, level, f))
            && forall f :: f in r.added ==>
                 (f.number in r.deleted <==>
                  !NewAt(e.newFiles, level, f) && (f.number in s.deleted || LevelNumber(level, f.number) in e.deletedFiles))
  {
    AddedFiles(s.(deleted := s.deleted + NumbersAt(e.deletedFiles, level)), e.newFiles, level);
  }

  /** What an edit does to the files of a level. */
  lemma EditReplaces(base: Files, e: VersionEdit, level: nat)
    requires InOrder(base) && Fresh(base, e.newFiles, level)
    ensures var after := Saved(base, Edited(LevelState({}, []), e, level));
            && InOrder(after)
            && forall f :: f in after <==>
                 (f in base && LevelNumber(level, f.number) !in e.deletedFiles) || NewAt(e.newFiles, level, f)
  {
    var s := Edited(LevelState({}, []), e, level);
    EmptyOrder();
    FreshFromNothing(base, e.newFiles, level);
    AppliedFiles(LevelState({}, []), e, level);
    DeletedByEdit(e, level);
    hide InOrder, Saved, Edited, Fresh;
    forall f, g | f in base && NewAt(e.newFiles, level, g) ensures f.number != g.number {
      FreshAt(base, e.newFiles, level, f, g);
    }
    SavedFiles(base, s);
  }

  lemma FreshFromNothing(added: Files, news: seq<LevelFile>, level: nat)
    requires Fresh(added, news, level)
    ensures Fresh([], news, level)
  {
  }

  lemma FreshAt(added: Files, news: seq<LevelFile>, level: nat, f: FileMetaData, g: FileMetaData)
    requires Fresh(added, news, level) && f in added && NewAt(news, level, g)
    ensures f.number != g.number
  {
  }


  /** Deleting a file and adding it back is where one builder for both edits differs from one builder for each: the
      file of the base shows again beside the added one. */
  lemma AddedTwiceShowsTwice(f: FileMetaData)
    ensures var delete := CLEAR.(deletedFiles := {LevelNumber(1, f.number)});
            var add := CLEAR.(newFiles := [LevelFile(1, f)]);
            var none := LevelState({}, []);
            && Saved([f], Edited(Edited(none, delete, 1), add, 1)) == [f, f]
            && Saved(Saved([f], Edited(none, delete, 1)), Edited(none, add, 1)) == [f]
  {
    var delete := CLEAR.(deletedFiles := {LevelNumber(1, f.number)});
    var add := CLEAR.(newFiles := [LevelFile(1, f)]);
    var none := LevelState({}, []);
    FileOrder(f, f, f);
    assert NumbersAt(delete.deletedFiles, 1) == {f.number} by {
      assert LevelNumber(1, f.number) in delete.deletedFiles;
    }
    assert Edited(none, delete, 1) == LevelState({f.number}, []);
    assert NumbersAt(add.deletedFiles, 1) == {};
    var once := LevelState({}, [f]);
    var s := LevelState({f.number}, []);
    AddsOne(s, f);
    AddsOne(none, f);
    assert Edited(s, add, 1) == once by {
      assert s.deleted + {} == s.deleted && s.deleted - {f.number} == {};
    }
    assert Edited(none, add, 1) == once by {
      assert none.deleted + {} == none.deleted && none.deleted - {f.number} == {};
    }
    KeepsAll([f]);
    KeepsAll([f, f]);
    assert Merge([f], [f]) == [f, f] by {
      assert [f][1..] == [];
    }
    assert Kept([f], {f.number}) == [] by {
      assert [f][..0] == [];
    }
    assert Merge([], [f]) == [f];
  }

  // ---- exactly when one builder will do ----

  /** Inserting into what is added is merging last, whatever the base. */
  lemma {:induction false} InsertIsMerge(base: Files, added: Files, f: FileMetaData)
    requires forall g :: g in added ==> g.number != f.number
    ensures Merge(base, Insert(added, f)) == Merge(Merge(base, added), [f])
    decreases |base| + |added|
  {
    hide FileBefore;
    if added == [] {
    } else {
      var a := added[0];
      assert added == [a] + added[1..] && a in added;
      FileOrder(f, a, f);
      if base == [] {
        InsertAlone(added, f);
      } else {
        var b := base[0];
        FileOrder(f, a, b);
        FileOrder(a, f, b);
        if FileBefore(a, b) {
          InsertIsMerge(base, added[1..], f);
        } else {
          InsertIsMerge(base[1..], added, f);
        }
      }
    }
  }

  lemma {:induction false} InsertAlone(added: Files, f: FileMetaData)
    requires forall g :: g in added ==> g.number != f.number
    ensures Insert(added, f) == Merge(added, [f])
    decreases |added|
  {
    hide FileBefore;
    if added != [] {
      assert added == [added[0]] + added[1..];
      FileOrder(f, added[0], f);
      InsertAlone(added[1..], f);
    }
  }

  /** Adding files to what a builder has is giving them to a builder over what it would save. */
  lemma {:induction false} AddFilesIsMerge(base: Files, s: LevelState, t: LevelState, news: seq<LevelFile>, level: nat)
    requires InOrder(s.added) && Fresh(s.added, news, level) && t.added == []
    ensures Merge(base, AddFiles(s, news, level).added) == Merge(Merge(base, s.added), AddFiles(t, news, level).added)
    decreases |news|
  {
    hide InOrder, Insert, Merge;
    if news == [] {
      MergeWithNothing(Merge(base, s.added));
    } else {
      var n := |news| - 1;
      var a := news[n];
      assert news == news[..n] + [a];
      AddFilesIsMerge(base, s, t, news[..n], level);
      if a.level == level {
        var before, alone := AddFiles(s, news[..n], level), AddFiles(t, news[..n], level);
        NotYetAdded(s, news, level);
        EmptyOrder();
        NotYetAdded(t, news, level);
        InsertIsMerge(base, before.added, a.file);
        InsertIsMerge(Merge(base, s.added), alone.added, a.file);
      }
    }
  }

  lemma NotYetAdded(s: LevelState, news: seq<LevelFile>, level: nat)
    requires InOrder(s.added) && Fresh(s.added, news, level) && news != [] && news[|news| - 1].level == level
    ensures forall g :: g in AddFiles(s, news[..|news| - 1], level).added ==> g.number != news[|news| - 1].file.number
  {
    hide InOrder;
    var n := |news| - 1;
    AddedFiles(s, news[..n], level);
    forall g | g in AddFiles(s, news[..n], level).added ensures g.number != news[n].file.number {
      if NewAt(news[..n], level, g) {
        var i :| 0 <= i < n && news[i] == LevelFile(level, g);
      } else {
        assert news[n] in news;
      }
    }
  }

  lemma {:induction false} KeptConcat(a: Files, b: Files, deleted: set<nat>)
    ensures Kept(a + b, deleted) == Kept(a, deleted) + Kept(b, deleted)
    decreases |b|
  {
    if b == [] {
      assert a + b == a;
    } else {
      var n := |b| - 1;
      assert (a + b)[..|a + b| - 1] == a + b[..n];
      KeptConcat(a, b[..n], deleted);
    }
  }

  lemma KeptHead(files: Files, deleted: set<nat>)
    requires files != []
    ensures Kept(files, deleted) == (if files[0].number in deleted then [] else [files[0]]) + Kept(files[1..], deleted)
  {
    assert files == [files[0]] + files[1..];
    KeptConcat([files[0]], files[1..], deleted);
    assert [files[0]][..0] == [];
  }

  /** No file comes before one that is listed earlier. */
  ghost predicate NoneBefore(files: Files) {
    forall i, j :: 0 <= i < j < |files| ==> !FileBefore(files[j], files[i])
  }

  lemma TailNoneBefore(files: Files)
    requires NoneBefore(files) && files != []
    ensures NoneBefore(files[1..]) && forall g :: g in files[1..] ==> !FileBefore(g, files[0])
  {
  }

  lemma ConsNoneBefore(f: FileMetaData, rest: Files)
    requires NoneBefore(rest) && forall g :: g in rest ==> !FileBefore(g, f)
    ensures NoneBefore([f] + rest)
  {
  }

  lemma NotBeforeEither(f: FileMetaData, g: FileMetaData, h: FileMetaData)
    ensures FileBefore(f, g) ==> FileBefore(f, h) || FileBefore(h, g)
  {
    KeyOrder(f.smallest, g.smallest);
    KeyOrder(g.smallest, f.smallest);
    KeyOrder(f.smallest, h.smallest);
    KeyOrder(h.smallest, f.smallest);
    KeyOrder(h.smallest, g.smallest);
    KeyOrder(g.smallest, h.smallest);
  }

  lemma {:induction false} MergeNoneBefore(base: Files, added: Files)
    requires NoneBefore(base) && NoneBefore(added)
    ensures NoneBefore(Merge(base, added)) && forall f :: f in Merge(base, added) ==> f in base || f in added
    decreases |base| + |added|
  {
    hide FileBefore, NoneBefore;
    if added != [] && base != [] {
      var a, b := added[0], base[0];
      TailNoneBefore(added);
      TailNoneBefore(base);
      assert added == [a] + added[1..] && base == [b] + base[1..];
      FileOrder(a, b, a);
      if FileBefore(a, b) {
        MergeNoneBefore(base, added[1..]);
        forall g | g in Merge(base, added[1..]) ensures !FileBefore(g, a) {
          FileOrder(g, a, b);
          FileOrder(a, b, g);
        }
        ConsNoneBefore(a, Merge(base, added[1..]));
      } else {
        MergeNoneBefore(base[1..], added);
        forall g | g in Merge(base[1..], added) ensures !FileBefore(g, b) {
          NotBeforeEither(g, b, a);
          FileOrder(b, b, b);
        }
        ConsNoneBefore(b, Merge(base[1..], added));
      }
    }
  }

  lemma OrderNoneBefore(files: Files)
    requires InOrder(files)
    ensures NoneBefore(files)
  {
    hide FileBefore;
    forall i, j | 0 <= i < j < |files| ensures !FileBefore(files[j], files[i]) {
      FileOrder(files[i], files[j], files[i]);
    }
  }

  /** A file that stands before the first of a list stands before the first that is kept of it. */
  lemma MergeAfterHead(base: Files, added: Files, deleted: set<nat>)
    requires NoneBefore(base) && NoneBefore(added) && base != [] && added != []
    ensures FileBefore(added[0], base[0]) && added[0].number !in deleted ==>
      Merge(Kept(base, deleted), Kept(added, deleted)) == [added[0]] + Merge(Kept(base, deleted), Kept(added[1..], deleted))
    ensures !FileBefore(added[0], base[0]) && base[0].number !in deleted ==>
      Merge(Kept(base, deleted), Kept(added, deleted)) == [base[0]] + Merge(Kept(base[1..], deleted), Kept(added, deleted))
  {
    hide FileBefore, NoneBefore;
    KeptHead(base, deleted);
    KeptHead(added, deleted);
    TailNoneBefore(base);
    TailNoneBefore(added);
    KeptFiles(base, deleted);
    KeptFiles(added, deleted);
    var b, a := Kept(base, deleted), Kept(added, deleted);
    if b != [] {
      assert b[0] in b;
      NotBeforeEither(added[0], base[0], b[0]);
    }
    if a != [] {
      assert a[0] in a;
      NotBeforeEither(a[0], base[0], added[0]);
    }
  }

  /** Deleting after merging is merging what is left of both. */
  lemma {:induction false} KeptMerge(base: Files, added: Files, deleted: set<nat>)
    requires NoneBefore(base) && NoneBefore(added)
    ensures Kept(Merge(base, added), deleted) == Merge(Kept(base, deleted), Kept(added, deleted))
    decreases |base| + |added|
  {
    hide FileBefore, NoneBefore, Kept;
    KeptNothing(deleted);
    if added == [] {
      MergeWithNothing(Kept(base, deleted));
    } else if base == [] {
      MergeOntoNothing(Kept(added, deleted));
    } else {
      TailNoneBefore(base);
      TailNoneBefore(added);
      MergeAfterHead(base, added, deleted);
      KeptHead(base, deleted);
      KeptHead(added, deleted);
      KeptHead(Merge(base, added), deleted);
      assert [] + Kept(added[1..], deleted) == Kept(added[1..], deleted) && [] + Kept(base[1..], deleted) == Kept(base[1..], deleted);
      if FileBefore(added[0], base[0]) {
        KeptMerge(base, added[1..], deleted);
        assert Merge(base, added)[1..] == Merge(base, added[1..]);
        assert [] + Kept(Merge(base, added[1..]), deleted) == Kept(Merge(base, added[1..]), deleted);
      } else {
        KeptMerge(base[1..], added, deleted);
        assert Merge(base, added)[1..] == Merge(base[1..], added);
        assert [] + Kept(Merge(base[1..], added), deleted) == Kept(Merge(base[1..], added), deleted);
      }
    }
  }

  lemma KeptNothing(deleted: set<nat>)
    ensures Kept([], deleted) == []
  {
  }

  lemma MergeOntoNothing(added: Files)
    ensures Merge([], added) == added
  {
  }

  lemma {:induction false} KeptTwice(files: Files, a: set<nat>, b: set<nat>)
    ensures Kept(Kept(files, a), b) == Kept(files, a + b)
    decreases |files|
  {
    if files != [] {
      var n := |files| - 1;
      KeptTwice(files[..n], a, b);
      KeptConcat(Kept(files[..n], a), if files[n].number in a then [] else [files[n]], b);
      assert [files[n]][..0] == [];
    }
  }

  /** Deleting more leaves as much only if nothing of it was there. */
  lemma {:induction false} KeptLess(files: Files, fewer: set<nat>, more: set<nat>)
    requires fewer <= more
    ensures |Kept(files, more)| <= |Kept(files, fewer)|
    ensures |Kept(files, more)| == |Kept(files, fewer)| <==> forall n :: n in more && n !in fewer ==> Unused(files, n)
    ensures |Kept(files, more)| == |Kept(files, fewer)| ==> Kept(files, more) == Kept(files, fewer)
    decreases |files|
  {
    if files != [] {
      var last := |files| - 1;
      KeptLess(files[..last], fewer, more);
      forall n ensures Unused(files, n) <==> Unused(files[..last], n) && files[last].number != n {
        UnusedInFront(files, n);
      }
      hide Unused;
    }
  }

  lemma UnusedInFront(files: Files, number: nat)
    requires files != []
    ensures Unused(files, number) <==> Unused(files[..|files| - 1], number) && files[|files| - 1].number != number
  {
    var n := |files| - 1;
    assert files == files[..n] + [files[n]];
    assert files[n] in files;
  }

  lemma {:induction false} MergeLength(base: Files, added: Files)
    ensures |Merge(base, added)| == |base| + |added|
    decreases |base| + |added|
  {
    hide FileBefore;
    if added != [] && base != [] {
      if FileBefore(added[0], base[0]) {
        MergeLength(base, added[1..]);
      } else {
        MergeLength(base[1..], added);
      }
    }
  }

  /** The edit adds a file of this number to the level. */
  ghost predicate Adds(news: seq<LevelFile>, level: nat, number: nat) {
    exists f :: NewAt(news, level, f) && f.number == number
  }

  /** What the two ways of saving come to: the same files but for numbers that were deleted and are added again. */
  lemma TwoWays(base: Files, s: LevelState, e: VersionEdit, level: nat) returns (all: Files, fewer: set<nat>, more: set<nat>, news: Files)
    requires InOrder(base) && InOrder(s.added) && Fresh(s.added, e.newFiles, level)
    ensures all == Merge(base, s.added) && fewer <= more
    ensures Saved(base, Edited(s, e, level)) == Merge(Kept(all, fewer), news)
    ensures Saved(Saved(base, s), Edited(LevelState({}, []), e, level)) == Merge(Kept(all, more), news)
    ensures forall n :: n in more && n !in fewer <==> n in s.deleted && Adds(e.newFiles, level, n)
  {
    hide InOrder, Merge, NumbersAt, FileBefore, NoneBefore, Kept;
    var numbers := NumbersAt(e.deletedFiles, level);
    var t, u := s.(deleted := s.deleted + numbers), LevelState({} + numbers, []);
    FreshFromNothing(s.added, e.newFiles, level);
    EmptyOrder();
    AddedFiles(t, e.newFiles, level);
    AddedFiles(u, e.newFiles, level);
    AddFilesIsMerge(base, t, u, e.newFiles, level);
    var one, two := AddFiles(t, e.newFiles, level), AddFiles(u, e.newFiles, level);
    all, fewer, more, news := Merge(base, s.added), one.deleted, s.deleted + two.deleted, two.added;
    OrderNoneBefore(base);
    OrderNoneBefore(s.added);
    OrderNoneBefore(news);
    MergeNoneBefore(base, s.added);
    KeptMerge(all, news, fewer);
    NothingKept(news, fewer);
    KeptNoneBefore(all, s.deleted);
    KeptMerge(Kept(all, s.deleted), news, two.deleted);
    NothingKept(news, two.deleted);
    KeptTwice(all, s.deleted, two.deleted);
    forall n ensures n in more && n !in fewer <==> n in s.deleted && Adds(e.newFiles, level, n) {
      assert Adds(e.newFiles, level, n) <==> !(forall f :: NewAt(e.newFiles, level, f) ==> f.number != n);
    }
  }

  lemma NothingKept(files: Files, deleted: set<nat>)
    requires forall f :: f in files ==> f.number !in deleted
    ensures Kept(files, deleted) == files
  {
    KeptLess(files, {}, deleted);
    forall n | n in deleted ensures Unused(files, n) {
    }
    KeepsAll(files);
  }

  lemma {:induction false} KeptNoneBefore(files: Files, deleted: set<nat>)
    requires NoneBefore(files)
    ensures NoneBefore(Kept(files, deleted))
    decreases |files|
  {
    hide FileBefore, NoneBefore;
    if files != [] {
      TailNoneBefore(files);
      KeptHead(files, deleted);
      KeptNoneBefore(files[1..], deleted);
      KeptFiles(files[1..], deleted);
      assert [] + Kept(files[1..], deleted) == Kept(files[1..], deleted);
      if files[0].number !in deleted {
        ConsNoneBefore(files[0], Kept(files[1..], deleted));
      }
    } else {
      KeptNothing(deleted);
    }
  }

  /** One builder for one more edit saves the same files as one builder for each if and only if the edit adds no number to
      the level that was deleted there before while the base holds it. */
  lemma OneBuilderIff(base: Files, s: LevelState, e: VersionEdit, level: nat)
    requires InOrder(base) && InOrder(s.added) && Fresh(s.added, e.newFiles, level)
    ensures Saved(base, Edited(s, e, level)) == Saved(Saved(base, s), Edited(LevelState({}, []), e, level))
            <==> forall n :: n in s.deleted && Adds(e.newFiles, level, n) ==> Unused(base, n)
  {
    hide InOrder, Saved, Edited, Merge, Kept, Unused, Adds, Fresh;
    var all, fewer, more, news := TwoWays(base, s, e, level);
    KeptLess(all, fewer, more);
    MergeLength(Kept(all, fewer), news);
    MergeLength(Kept(all, more), news);
    forall n | n in s.deleted && Adds(e.newFiles, level, n) ensures Unused(all, n) <==> Unused(base, n) {
      UnusedInMerge(base, s.added, e.newFiles, level, n);
    }
  }

  /** Saving after one more edit is saving first, and giving the edit to a builder over the result. */
  lemma OneMoreEdit(s: LevelState, e: VersionEdit, level: nat)
    requires InOrder(s.added) && Fresh(s.added, e.newFiles, level)
    ensures Saved([], Edited(s, e, level)) == Saved(Saved([], s), Edited(LevelState({}, []), e, level))
  {
    hide Saved, Edited, Fresh;
    EmptyOrder();
    OneBuilderIff([], s, e, level);
  }

  lemma UnusedInMerge(base: Files, added: Files, news: seq<LevelFile>, level: nat, n: nat)
    requires Fresh(added, news, level) && Adds(news, level, n)
    ensures Unused(Merge(base, added), n) <==> Unused(base, n)
  {
    assert Unused(added, n);
    MergeHolds(base, added);
  }

  lemma {:induction false} MergeHolds(base: Files, added: Files)
    ensures forall f :: f in Merge(base, added) <==> f in base || f in added
    decreases |base| + |added|
  {
    hide FileBefore;
    if added != [] && base != [] {
      assert added == [added[0]] + added[1..] && base == [base[0]] + base[1..];
      if FileBefore(added[0], base[0]) {
        MergeHolds(base, added[1..]);
      } else {
        MergeHolds(base[1..], added);
      }
    }
  }

  lemma MergeWithNothing(base: Files)
    ensures Merge(base, []) == base
  {
  }

  lemma AddsOne(s: LevelState, f: FileMetaData)
    requires s.added == []
    ensures AddFiles(s, [LevelFile(1, f)], 1) == LevelState(s.deleted - {f.number}, [f])
  {
    assert [LevelFile(1, f)][..0] == [];
  }

  lemma {:induction false} KeepsAll(files: Files)
    ensures Kept(files, {}) == files
    decreases |files|
  {
    if files != [] {
      KeepsAll(files[..|files| - 1]);
    }
  }

  // ---- the builder ----

  /** The first place from `i` on whose file comes after `f`. */
  method UpperBound(base: Files, i: nat, f: FileMetaData) returns (right: nat)
    requires InOrder(base) && i <= |base|
    ensures i <= right <= |base|
    ensures forall k :: i <= k < right ==> !FileBefore(f, base[k])
    ensures forall k :: right <= k < |base| ==> FileBefore(f, base[k])
  {
    hide FileBefore;
    var left := i;
    right := |base|;
    while left < right
      invariant i <= left <= right <= |base|
      invariant forall k :: i <= k < left ==> !FileBefore(f, base[k])
      invariant forall k :: right <= k < |base| ==> FileBefore(f, base[k])
    {
      var mid := (left + right) / 2;
      if FileBefore(f, base[mid]) {
        forall k | mid < k < |base| ensures FileBefore(f, base[k]) {
          FileOrder(f, base[mid], base[k]);
        }
        right := mid;
      } else {
        forall k | i <= k < mid ensures !FileBefore(f, base[k]) {
          FileOrder(f, base[k], base[mid]);
        }
        left := mid + 1;
      }
    }
  }

  method MaybeAddFile(files: Files, f: FileMetaData, deleted: set<nat>, ghost done: Files) returns (r: Files)
    requires files == Kept(done, deleted)
    ensures r == Kept(done + [f], deleted)
  {
    assert (done + [f])[..|done|] == done;
    r := if f.number in deleted then files else files + [f];
  }

  lemma MergeStep(base: Files, added: Files)
    ensures base != [] && (added == [] || !FileBefore(added[0], base[0])) ==> Merge(base, added) == [base[0]] + Merge(base[1..], added)
    ensures added != [] && (base == [] || FileBefore(added[0], base[0])) ==> Merge(base, added) == [added[0]] + Merge(base, added[1..])
  {
    if added == [] && base != [] {
      assert base == [base[0]] + base[1..];
    } else if base == [] && added != [] {
      assert added == [added[0]] + added[1..];
    }
  }

  method AddBaseFiles(base: Files, from: nat, to: nat, rest: Files, deleted: set<nat>, files: Files, ghost done: Files)
    returns (r: Files, ghost done': Files)
    requires from <= to <= |base| && files == Kept(done, deleted)
    requires rest == [] || forall k :: from <= k < to ==> !FileBefore(rest[0], base[k])
    ensures r == Kept(done', deleted) && done' + Merge(base[to..], rest) == done + Merge(base[from..], rest)
  {
    hide FileBefore, Merge, Kept;
    r, done' := files, done;
    for i := from to to
      invariant r == Kept(done', deleted)
      invariant done' + Merge(base[i..], rest) == done + Merge(base[from..], rest)
    {
      MergeStep(base[i..], rest);
      assert base[i..][0] == base[i] && base[i..][1..] == base[i + 1..];
      r := MaybeAddFile(r, base[i], deleted, done');
      assert done' + ([base[i]] + Merge(base[i + 1..], rest)) == (done' + [base[i]]) + Merge(base[i + 1..], rest);
      done' := done' + [base[i]];
    }
  }

  /** One level of SaveTo: the base files and the added ones in one order, without the deleted ones. */
  method SaveLevel(base: Files, s: LevelState) returns (files: Files)
    requires InOrder(base)
    ensures files == Saved(base, s)
  {
    hide FileBefore, InOrder, Merge;
    var i := 0;
    files := [];
    ghost var done: Files := [];
    assert base[0..] == base && s.added[0..] == s.added;
    for j := 0 to |s.added|
      invariant i <= |base| && files == Kept(done, s.deleted)
      invariant done + Merge(base[i..], s.added[j..]) == Merge(base, s.added)
    {
      var f := s.added[j];
      assert s.added[j..][0] == f && s.added[j..][1..] == s.added[j + 1..];
      var bpos := UpperBound(base, i, f);
      files, done := AddBaseFiles(base, i, bpos, s.added[j..], s.deleted, files, done);
      i := bpos;
      MergeStep(base[i..], s.added[j..]);
      assert i < |base| ==> base[i..][0] == base[i];
      files := MaybeAddFile(files, f, s.deleted, done);
      assert done + ([f] + Merge(base[i..], s.added[j + 1..])) == (done + [f]) + Merge(base[i..], s.added[j + 1..]);
      done := done + [f];
    }
    files, done := AddBaseFiles(base, i, |base|, [], s.deleted, files, done);
    MergeNothing();
    assert s.added[|s.added|..] == [] && base[|base|..] == [] && done + [] == done;
  }

  lemma MergeNothing()
    ensures Merge([], []) == []
  {
  }

  function SetPointers(pointers: seq<Bytes>, ps: seq<LevelKey>): (r: seq<Bytes>)
    ensures |r| == |pointers|
  {
    if ps == [] then pointers
    else
      var before, p := SetPointers(pointers, ps[..|ps| - 1]), ps[|ps| - 1];
      if p.level < |before| then before[p.level := p.key] else before
  }

  predicate LevelsFit(e: VersionEdit) {
    && (forall p :: p in e.compactPointers ==> p.level < NUM_LEVELS)
    && (forall d :: d in e.deletedFiles ==> d.level < NUM_LEVELS)
    && forall a :: a in e.newFiles ==> a.level < NUM_LEVELS
  }

  lemma PointersStep(pointers: seq<Bytes>, ps: seq<LevelKey>, i: nat)
    requires i < |ps| && ps[i].level < |pointers|
    ensures ps[i] in ps && SetPointers(pointers, ps[..i + 1]) == SetPointers(pointers, ps[..i])[ps[i].level := ps[i].key]
  {
    assert ps[..i + 1][..i] == ps[..i];
  }

  lemma PointersStart(pointers: seq<Bytes>)
    ensures SetPointers(pointers, []) == pointers
  {
  }

  lemma NoNumbers()
    ensures forall l :: NumbersAt({}, l) == {}
  {
  }

  /** The deletions that a builder has taken note of. */
  ghost predicate DeletesMarked(before: seq<LevelState>, after: seq<LevelState>, done: set<LevelNumber>) {
    && |before| == |after| == NUM_LEVELS
    && forall l :: 0 <= l < NUM_LEVELS ==> after[l] == before[l].(deleted := before[l].deleted + NumbersAt(done, l))
  }

  lemma NothingMarked(levels: seq<LevelState>)
    requires |levels| == NUM_LEVELS
    ensures DeletesMarked(levels, levels, {})
  {
    hide NumbersAt;
    NoNumbers();
    assert forall l :: 0 <= l < NUM_LEVELS ==> levels[l].deleted + {} == levels[l].deleted;
  }

  lemma OneMoreMarked(before: seq<LevelState>, after: seq<LevelState>, done: set<LevelNumber>, d: LevelNumber)
    requires DeletesMarked(before, after, done) && d.level < NUM_LEVELS
    ensures DeletesMarked(before, after[d.level := after[d.level].(deleted := after[d.level].deleted + {d.number})], done + {d})
  {
    hide NumbersAt;
    OneMoreNumber(done, d);
    forall l | 0 <= l < NUM_LEVELS
      ensures after[d.level := after[d.level].(deleted := after[d.level].deleted + {d.number})][l]
           == before[l].(deleted := before[l].deleted + NumbersAt(done + {d}, l))
    {
      var all, at := before[l].deleted, NumbersAt(done, l);
      assert (all + at) + {d.number} == all + (at + {d.number});
    }
  }

  lemma WhatIsMarked(before: seq<LevelState>, after: seq<LevelState>, done: set<LevelNumber>)
    requires DeletesMarked(before, after, done)
    ensures forall l :: 0 <= l < NUM_LEVELS ==> after[l] == before[l].(deleted := before[l].deleted + NumbersAt(done, l))
  {
  }

  class Builder {
    const base: seq<Files>
    var levels: seq<LevelState>
    var pointers: seq<Bytes> // the compaction pointers of the version set

    constructor (base: seq<Files>, pointers: seq<Bytes>)
      ensures this.base == base && this.pointers == pointers
      ensures levels == seq(NUM_LEVELS, _ => LevelState({}, []))
    {
      this.base, this.pointers := base, pointers;
      levels := seq(NUM_LEVELS, _ => LevelState({}, []));
    }

    /** Applies an edit: deletions first, then additions, which undo deletions of the same number. */
    method Apply(e: VersionEdit)
      requires |levels| == NUM_LEVELS == |pointers| && LevelsFit(e)
      modifies this
      ensures |levels| == NUM_LEVELS && forall l :: 0 <= l < NUM_LEVELS ==> levels[l] == Edited(old(levels[l]), e, l)
      ensures pointers == SetPointers(old(pointers), e.compactPointers)
    {
      hide NumbersAt, AddFiles, SetPointers;
      PointersStart(pointers);
      assert e.compactPointers[..0] == [];
      for i := 0 to |e.compactPointers|
        invariant pointers == SetPointers(old(pointers), e.compactPointers[..i])
        modifies this`pointers
      {
        var p := e.compactPointers[i];
        assert p in e.compactPointers;
        PointersStep(old(pointers), e.compactPointers, i);
        pointers := pointers[p.level := p.key];
      }
      assert e.compactPointers[..|e.compactPointers|] == e.compactPointers;
      DeleteFiles(e);
      AddNewFiles(e);
    }

    method DeleteFiles(e: VersionEdit)
      requires |levels| == NUM_LEVELS && LevelsFit(e)
      modifies this`levels
      ensures |levels| == NUM_LEVELS
      ensures forall l :: 0 <= l < NUM_LEVELS ==>
        levels[l] == old(levels[l]).(deleted := old(levels[l]).deleted + NumbersAt(e.deletedFiles, l))
    {
      hide DeletesMarked;
      NothingMarked(levels);
      var rest, ls := e.deletedFiles, levels;
      ghost var done: set<LevelNumber> := {};
      while rest != {}
        invariant |ls| == NUM_LEVELS && rest <= e.deletedFiles && done + rest == e.deletedFiles
        invariant DeletesMarked(levels, ls, done)
        decreases |rest|
        modifies {}
      {
        var d :| d in rest;
        OneMoreMarked(levels, ls, done, d);
        ls := ls[d.level := ls[d.level].(deleted := ls[d.level].deleted + {d.number})];
        rest, done := rest - {d}, done + {d};
      }
      assert done == e.deletedFiles;
      WhatIsMarked(levels, ls, done);
      levels := ls;
    }

    method AddNewFiles(e: VersionEdit)
      requires |levels| == NUM_LEVELS && LevelsFit(e)
      modifies this`levels
      ensures |levels| == NUM_LEVELS && forall l :: 0 <= l < NUM_LEVELS ==> levels[l] == AddFiles(old(levels[l]), e.newFiles, l)
    {
      hide AddFile;
      for i := 0 to |e.newFiles|
        invariant |levels| == NUM_LEVELS
        invariant forall l :: 0 <= l < NUM_LEVELS ==> levels[l] == AddFiles(old(levels[l]), e.newFiles[..i], l)
      {
        var a := e.newFiles[i];
        assert a in e.newFiles && e.newFiles[..i + 1][..i] == e.newFiles[..i];
        levels := levels[a.level := AddFile(levels[a.level], a.file)];
      }
      assert e.newFiles[..|e.newFiles|] == e.newFiles;
    }

    method SaveTo() returns (files: seq<Files>)
      requires |levels| == NUM_LEVELS == |base| && forall l :: 0 <= l < NUM_LEVELS ==> InOrder(base[l])
      ensures |files| == NUM_LEVELS && forall l :: 0 <= l < NUM_LEVELS ==> files[l] == Saved(base[l], levels[l])
    {
      files := [];
      for l := 0 to NUM_LEVELS
        invariant |files| == l && forall k :: 0 <= k < l ==> files[k] == Saved(base[k], levels[k])
      {
        var level := SaveLevel(base[l], levels[l]);
        files := files + [level];
      }
    }
  }

  lemma OneMoreNumber(deleted: set<LevelNumber>, d: LevelNumber)
    ensures forall l :: NumbersAt(deleted + {d}, l) == NumbersAt(deleted, l) + if d.level == l then {d.number} else {}
  {
    forall l, n ensures n in NumbersAt(deleted + {d}, l) <==> n in NumbersAt(deleted, l) || (d.level == l && n == d.number) {
      if n in NumbersAt(deleted, l) {
        assert LevelNumber(l, n) in deleted + {d};
      }
    }
  }

  // ---- replaying a MANIFEST ----

  datatype Replayed = Replayed(levels: seq<LevelState>, pointers: seq<Bytes>, logNumber: Option<nat>, prevLogNumber: Option<nat>,
                               nextFile: Option<nat>, lastSequence: Option<nat>)

  function Latest(before: Option<nat>, now: Option<nat>): Option<nat> {
    if now.Some? then now else before
  }

  function ReplayOne(r: Replayed, e: VersionEdit): (r': Replayed)
    requires |r.levels| == NUM_LEVELS
    ensures |r'.levels| == NUM_LEVELS
  {
    Replayed(seq(NUM_LEVELS, l requires 0 <= l < NUM_LEVELS => Edited(r.levels[l], e, l)), SetPointers(r.pointers, e.compactPointers),
             Latest(r.logNumber, e.logNumber), Latest(r.prevLogNumber, e.prevLogNumber),
             Latest(r.nextFile, e.nextFileNumber), Latest(r.lastSequence, e.lastSequence))
  }

  function NothingReplayed(): (r: Replayed)
    ensures |r.levels| == NUM_LEVELS
  {
    Replayed(seq(NUM_LEVELS, _ => LevelState({}, [])), seq(NUM_LEVELS, _ => []), None, None, None, None)
  }

  /** All edits given to one builder over nothing. */
  function Replay(edits: seq<VersionEdit>): (r: Replayed)
    ensures |r.levels| == NUM_LEVELS
  {
    if edits == [] then NothingReplayed() else ReplayOne(Replay(edits[..|edits| - 1]), edits[|edits| - 1])
  }

  lemma ReplayMore(edits: seq<VersionEdit>, e: VersionEdit)
    ensures Replay(edits + [e]) == ReplayOne(Replay(edits), e)
  {
    assert (edits + [e])[..|edits|] == edits;
  }

  predicate ComparatorAgrees(e: VersionEdit, name: Bytes) {
    e.comparator.Some? ==> e.comparator.value == name
  }

  /** The records are these edits, and of this comparator. */
  ghost predicate Records(records: seq<Bytes>, edits: seq<VersionEdit>, name: Bytes) {
    && |records| == |edits|
    && forall i :: 0 <= i < |records| ==> Decoded(records[i]) == Some(edits[i]) && ComparatorAgrees(edits[i], name)
  }

  ghost predicate Readable(records: seq<Bytes>, name: Bytes) {
    forall s :: s in records ==> Decoded(s).Some? && ComparatorAgrees(Decoded(s).value, name)
  }

  predicate WellFormed(f: Field) {
    match f
    case CompactPointer(p) => p.level < NUM_LEVELS
    case DeletedFile(d) => d.level < NUM_LEVELS
    case NewFile(a) => a.level < NUM_LEVELS
    case _ => true
  }

  lemma {:induction false} ReadFieldsFit(s: Bytes)
    ensures GetFields(s).Some? ==> forall f :: f in GetFields(s).value ==> WellFormed(f)
    decreases |s|
  {
    if GetFields(s).Some? && s != [] {
      var first := GetField(s).value;
      ReadFieldsFit(first.rest);
      assert WellFormed(first.value) by {
        var tag := GetTag(s).value;
        assert GetBody(tag.value, tag.rest) == Some(first);
      }
    }
  }

  lemma {:induction false} NotedFits(e: VersionEdit, fields: seq<Field>)
    requires LevelsFit(e) && forall f :: f in fields ==> WellFormed(f)
    ensures LevelsFit(AllNoted(e, fields))
    decreases |fields|
  {
    if fields != [] {
      assert fields[0] in fields;
      NotedFits(Noted(e, fields[0]), fields[1..]);
    }
  }

  /** Levels are checked when a record is read. */
  lemma DecodedFits(s: Bytes)
    ensures Decoded(s).Some? ==> LevelsFit(Decoded(s).value)
  {
    ReadFieldsFit(s);
    if GetFields(s).Some? {
      NotedFits(CLEAR, GetFields(s).value);
    }
  }

  // ---- the snapshot that starts a MANIFEST ----

  function AtLevel(files: Files, level: nat): (r: seq<LevelFile>)
    ensures |r| == |files| && forall i :: 0 <= i < |files| ==> r[i] == LevelFile(level, files[i])
  {
    seq(|files|, i requires 0 <= i < |files| => LevelFile(level, files[i]))
  }

  function FilesFrom(levels: seq<Files>, level: nat): seq<LevelFile>
    requires level <= |levels|
    decreases |levels| - level
  {
    if level == |levels| then [] else AtLevel(levels[level], level) + FilesFrom(levels, level + 1)
  }

  function PointersFrom(pointers: seq<Bytes>, level: nat): seq<LevelKey>
    requires level <= |pointers|
    decreases |pointers| - level
  {
    if level == |pointers| then []
    else (if pointers[level] != [] then [LevelKey(level, pointers[level])] else []) + PointersFrom(pointers, level + 1)
  }

  function Snapshot(name: Bytes, levels: seq<Files>, pointers: seq<Bytes>): VersionEdit {
    CLEAR.(comparator := Some(name), compactPointers := PointersFrom(pointers, 0), newFiles := FilesFrom(levels, 0))
  }

  lemma {:induction false} FilesFromHas(levels: seq<Files>, from: nat, l: nat)
    requires from <= |levels| && l < |levels|
    ensures forall f :: NewAt(FilesFrom(levels, from), l, f) <==> from <= l && f in levels[l]
    ensures forall a :: a in FilesFrom(levels, from) ==> from <= a.level < |levels| && a.file in levels[a.level]
    decreases |levels| - from
  {
    if from < |levels| {
      FilesFromHas(levels, from + 1, l);
      var here := AtLevel(levels[from], from);
      forall f | f in levels[from] ensures LevelFile(from, f) in here {
        var i :| 0 <= i < |levels[from]| && levels[from][i] == f;
        assert here[i] == LevelFile(from, f);
      }
    }
  }

  lemma {:induction false} FilesFromFresh(levels: seq<Files>, from: nat, l: nat)
    requires from <= |levels| && l < |levels| && OneEach(levels[l])
    ensures Fresh([], FilesFrom(levels, from), l)
    decreases |levels| - from
  {
    if from < |levels| {
      FilesFromFresh(levels, from + 1, l);
      FilesFromHas(levels, from + 1, l);
      var here, rest := AtLevel(levels[from], from), FilesFrom(levels, from + 1);
      var all := here + rest;
      assert forall k :: 0 <= k < |rest| ==> rest[k].level > from;
      forall i, j | 0 <= i < j < |all| && all[i].level == all[j].level == l ensures all[i].file.number != all[j].file.number {
        if i >= |here| {
          assert all[i] == rest[i - |here|] && all[j] == rest[j - |here|];
        }
      }
    }
  }

  /** The snapshot gives every level back. */
  lemma SnapshotLevel(name: Bytes, levels: seq<Files>, pointers: seq<Bytes>, l: nat)
    requires l < |levels| && InOrder(levels[l]) && OneEach(levels[l])
    ensures Edited(LevelState({}, []), Snapshot(name, levels, pointers), l) == LevelState({}, levels[l])
    ensures Saved([], LevelState({}, levels[l])) == levels[l]
  {
    var none, e := LevelState({}, []), Snapshot(name, levels, pointers);
    EmptyOrder();
    FilesFromFresh(levels, 0, l);
    FilesFromHas(levels, 0, l);
    hide InOrder, OneEach, FilesFrom, Merge;
    assert NumbersAt(e.deletedFiles, l) == {};
    AddedFiles(none.(deleted := none.deleted + {}), e.newFiles, l);
    OrderIsUnique(Edited(none, e, l).added, levels[l]);
    assert Edited(none, e, l).deleted == {};
    KeepsAll(levels[l]);
    MergeIntoNothing(levels[l]);
  }

  lemma MergeIntoNothing(files: Files)
    ensures Merge([], files) == files
  {
  }

  // ---- pointers ----

  /** The pointer that a level ends with: the last one set, or what it was. */
  function LastFor(before: Bytes, ps: seq<LevelKey>, level: nat): Bytes {
    if ps == [] then before
    else if ps[|ps| - 1].level == level then ps[|ps| - 1].key
    else LastFor(before, ps[..|ps| - 1], level)
  }

  lemma {:induction false} SetPointersAt(pointers: seq<Bytes>, ps: seq<LevelKey>, l: nat)
    requires l < |pointers|
    ensures SetPointers(pointers, ps)[l] == LastFor(pointers[l], ps, l)
    decreases |ps|
  {
    if ps != [] {
      SetPointersAt(pointers, ps[..|ps| - 1], l);
    }
  }

  lemma {:induction false} LastForTwice(before: Bytes, ps: seq<LevelKey>, l: nat)
    ensures LastFor(LastFor(before, ps, l), ps, l) == LastFor(before, ps, l)
    ensures forall other: Bytes :: (exists p :: p in ps && p.level == l) ==> LastFor(other, ps, l) == LastFor(before, ps, l)
    ensures (forall p :: p in ps ==> p.level != l) ==> LastFor(before, ps, l) == before
    decreases |ps|
  {
    if ps != [] {
      var rest := ps[..|ps| - 1];
      LastForTwice(before, rest, l);
      assert ps == rest + [ps[|ps| - 1]];
      forall other: Bytes | exists p :: p in ps && p.level == l ensures LastFor(other, ps, l) == LastFor(before, ps, l) {
        if ps[|ps| - 1].level != l {
          var p :| p in ps && p.level == l;
          assert p in rest;
        }
      }
    }
  }

  /** Setting the same pointers again changes nothing. */
  lemma PointersTwice(pointers: seq<Bytes>, ps: seq<LevelKey>)
    ensures SetPointers(SetPointers(pointers, ps), ps) == SetPointers(pointers, ps)
  {
    var once := SetPointers(pointers, ps);
    forall l | 0 <= l < |pointers| ensures SetPointers(once, ps)[l] == once[l] {
      SetPointersAt(pointers, ps, l);
      SetPointersAt(once, ps, l);
      LastForTwice(pointers[l], ps, l);
    }
  }

  lemma {:induction false} PointersFromHas(pointers: seq<Bytes>, from: nat, l: nat)
    requires from <= |pointers| && l < |pointers|
    ensures forall p :: p in PointersFrom(pointers, from) ==> from <= p.level < |pointers| && p.key == pointers[p.level]
    ensures from <= l && pointers[l] != [] ==> LevelKey(l, pointers[l]) in PointersFrom(pointers, from)
    decreases |pointers| - from
  {
    if from < |pointers| {
      PointersFromHas(pointers, from + 1, l);
    }
  }

  lemma {:induction false} LastForOnly(before: Bytes, ps: seq<LevelKey>, l: nat, key: Bytes)
    requires forall p :: p in ps && p.level == l ==> p.key == key
    requires (exists p :: p in ps && p.level == l) || before == key
    ensures LastFor(before, ps, l) == key
    decreases |ps|
  {
    if ps != [] && ps[|ps| - 1].level != l {
      var rest := ps[..|ps| - 1];
      assert ps == rest + [ps[|ps| - 1]];
      LastForOnly(before, rest, l, key);
    } else if ps != [] {
      assert ps[|ps| - 1] in ps;
    }
  }

  /** The snapshot gives the pointers back. */
  lemma SnapshotPointers(pointers: seq<Bytes>)
    requires |pointers| == NUM_LEVELS
    ensures SetPointers(seq(NUM_LEVELS, _ => []), PointersFrom(pointers, 0)) == pointers
  {
    var none: seq<Bytes>, ps := seq(NUM_LEVELS, _ => []), PointersFrom(pointers, 0);
    forall l | 0 <= l < NUM_LEVELS ensures SetPointers(none, ps)[l] == pointers[l] {
      SetPointersAt(none, ps, l);
      PointersFromHas(pointers, 0, l);
      if pointers[l] != [] {
        assert LevelKey(l, pointers[l]) in ps;
      }
      LastForOnly(none[l], ps, l, pointers[l]);
    }
  }

  // ---- the version set ----

  lemma OneEachOfDistinct(files: Files)
    requires InOrder(files) && forall f, g :: f in files && g in files && f.number == g.number ==> f == g
    ensures OneEach(files)
  {
    forall i, j | 0 <= i < j < |files| ensures files[i].number != files[j].number {
      FileOrder(files[i], files[i], files[i]);
    }
  }

  lemma DistinctOfOneEach(files: Files)
    requires OneEach(files)
    ensures forall f, g :: f in files && g in files && f.number == g.number ==> f == g
  {
  }

  /** A level in memory is what the builder that replays the log would save. */
  ghost predicate LevelAgrees(files: Files, s: LevelState) {
    InOrder(s.added) && OneEach(s.added) && files == Saved([], s)
  }

  lemma LevelIsGood(files: Files, s: LevelState)
    requires LevelAgrees(files, s)
    ensures InOrder(files) && OneEach(files) && forall f :: f in files ==> f in s.added
  {
    EmptyOrder();
    SavedFiles([], s);
    DistinctOfOneEach(s.added);
    hide Saved, InOrder;
    OneEachOfDistinct(files);
  }

  lemma EditKeepsLevel(files: Files, s: LevelState, e: VersionEdit, l: nat)
    requires LevelAgrees(files, s) && Fresh(s.added, e.newFiles, l)
    ensures LevelAgrees(Saved(files, Edited(LevelState({}, []), e, l)), Edited(s, e, l))
  {
    OneMoreEdit(s, e, l);
    AppliedFiles(s, e, l);
    DistinctOfOneEach(s.added);
    var added := Edited(s, e, l).added;
    hide InOrder, Saved, Edited, Unused;
    forall f, g | f in added && g in added && f.number == g.number ensures f == g {
      if f in s.added && g !in s.added {
        FreshAt(s.added, e.newFiles, l, f, g);
      } else if g in s.added && f !in s.added {
        FreshAt(s.added, e.newFiles, l, g, f);
      } else if f !in s.added {
        NewOnce(s.added, e.newFiles, l, f, g);
      }
    }
    OneEachOfDistinct(added);
  }

  lemma NewOnce(added: Files, news: seq<LevelFile>, l: nat, f: FileMetaData, g: FileMetaData)
    requires Fresh(added, news, l) && NewAt(news, l, f) && NewAt(news, l, g) && f.number == g.number
    ensures f == g
  {
    var i :| 0 <= i < |news| && news[i] == LevelFile(l, f);
    var j :| 0 <= j < |news| && news[j] == LevelFile(l, g);
  }

  ghost predicate Agrees(levels: seq<Files>, pointers: seq<Bytes>, logNumber: nat, prevLogNumber: nat, r: Replayed) {
    && |levels| == |r.levels| == NUM_LEVELS && (forall l :: 0 <= l < NUM_LEVELS ==> LevelAgrees(levels[l], r.levels[l]))
    && pointers == r.pointers && r.logNumber == Some(logNumber) && r.prevLogNumber == Some(prevLogNumber)
    && r.nextFile.Some? && r.lastSequence.Some?
  }

  /** Everything fits the words that it is written in. */
  ghost predicate StateFits(levels: seq<Files>, pointers: seq<Bytes>, name: Bytes) {
    && |levels| == NUM_LEVELS == |pointers| && |name| < WORD
    && (forall l, f :: 0 <= l < NUM_LEVELS && f in levels[l] ==> FileFits(f))
    && forall l :: 0 <= l < NUM_LEVELS ==> |pointers[l]| < WORD
  }

  /** What LogAndApply adds to an edit. */
  function Filled(e: VersionEdit, logNumber: nat, prevLogNumber: nat, nextFile: nat, lastSequence: nat): VersionEdit {
    e.(logNumber := if e.logNumber.Some? then e.logNumber else Some(logNumber),
       prevLogNumber := if e.prevLogNumber.Some? then e.prevLogNumber else Some(prevLogNumber),
       nextFileNumber := Some(nextFile), lastSequence := Some(lastSequence))
  }

  lemma SnapshotFits(name: Bytes, levels: seq<Files>, pointers: seq<Bytes>)
    requires StateFits(levels, pointers, name)
    ensures EditFits(Snapshot(name, levels, pointers))
  {
    var e := Snapshot(name, levels, pointers);
    FilesFromHas(levels, 0, 0);
    PointersFromHas(pointers, 0, 0);
    assert forall a :: a in e.newFiles ==> a.level < NUM_LEVELS && FileFits(a.file);
    assert forall p :: p in e.compactPointers ==> p.level < NUM_LEVELS && |p.key| < WORD;
  }

  /** After the snapshot, the levels agree, and the pointers are those in memory. */
  lemma SnapshotReplays(name: Bytes, levels: seq<Files>, pointers: seq<Bytes>)
    requires |levels| == NUM_LEVELS == |pointers| && forall l :: 0 <= l < NUM_LEVELS ==> InOrder(levels[l]) && OneEach(levels[l])
    ensures var r := Replay([Snapshot(name, levels, pointers)]);
            && r.pointers == pointers
            && forall l :: 0 <= l < NUM_LEVELS ==> r.levels[l].added == levels[l] && LevelAgrees(levels[l], r.levels[l])
  {
    var e := Snapshot(name, levels, pointers);
    assert [e][..0] == [];
    SnapshotPointers(pointers);
    assert e.compactPointers == PointersFrom(pointers, 0);
    hide Edited, Saved, Snapshot, InOrder, OneEach;
    forall l | 0 <= l < NUM_LEVELS
      ensures Replay([e]).levels[l].added == levels[l] && LevelAgrees(levels[l], Replay([e]).levels[l])
    {
      SnapshotLevel(name, levels, pointers, l);
    }
  }

  /** One more record keeps the agreement of memory and MANIFEST. */
  lemma EditReplays(edits: seq<VersionEdit>, e: VersionEdit, levels: seq<Files>, levels': seq<Files>, pointers': seq<Bytes>)
    requires |levels| == NUM_LEVELS == |levels'| && e.logNumber.Some? && e.prevLogNumber.Some?
    requires e.nextFileNumber.Some? && e.lastSequence.Some?
    requires forall l :: 0 <= l < NUM_LEVELS ==>
      LevelAgrees(levels[l], Replay(edits).levels[l]) && Fresh(Replay(edits).levels[l].added, e.newFiles, l)
    requires forall l :: 0 <= l < NUM_LEVELS ==> levels'[l] == Saved(levels[l], Edited(LevelState({}, []), e, l))
    requires pointers' == SetPointers(Replay(edits).pointers, e.compactPointers)
    ensures Agrees(levels', pointers', e.logNumber.value, e.prevLogNumber.value, Replay(edits + [e]))
    ensures Replay(edits + [e]).nextFile == e.nextFileNumber && Replay(edits + [e]).lastSequence == e.lastSequence
  {
    hide Edited, Saved, LevelAgrees, Replay, Fresh, SetPointers;
    ReplayMore(edits, e);
    forall l | 0 <= l < NUM_LEVELS ensures LevelAgrees(levels'[l], Replay(edits + [e]).levels[l]) {
      EditKeepsLevel(levels[l], Replay(edits).levels[l], e, l);
    }
  }

  lemma SnapshotIs(name: Bytes, levels: seq<Files>, pointers: seq<Bytes>)
    ensures Snapshot(name, levels, pointers) ==
            CLEAR.(comparator := Some(name), compactPointers := PointersFrom(pointers, 0), newFiles := FilesFrom(levels, 0))
  {
  }

  method ListPointers(pointers: seq<Bytes>) returns (ps: seq<LevelKey>)
    ensures ps == PointersFrom(pointers, 0)
  {
    ps := [];
    for level := 0 to |pointers|
      invariant ps + PointersFrom(pointers, level) == PointersFrom(pointers, 0)
    {
      if pointers[level] != [] {
        ps := ps + [LevelKey(level, pointers[level])];
      }
    }
  }

  method AppendLevel(fs: seq<LevelFile>, files: Files, level: nat) returns (r: seq<LevelFile>)
    ensures r == fs + AtLevel(files, level)
  {
    r := fs;
    ghost var all := AtLevel(files, level);
    hide AtLevel;
    for i := 0 to |files|
      invariant r == fs + all[..i]
    {
      r := r + [LevelFile(level, files[i])];
    }
  }

  lemma FilesFromStep(levels: seq<Files>, level: nat)
    requires level <= |levels|
    ensures FilesFrom(levels, level) == if level == |levels| then [] else AtLevel(levels[level], level) + FilesFrom(levels, level + 1)
  {
  }

  method ListFiles(levels: seq<Files>) returns (fs: seq<LevelFile>)
    ensures fs == FilesFrom(levels, 0)
  {
    hide FilesFrom, AtLevel;
    fs := [];
    for level := 0 to |levels|
      invariant fs + FilesFrom(levels, level) == FilesFrom(levels, 0)
    {
      FilesFromStep(levels, level);
      var start, rest := fs, FilesFrom(levels, level + 1);
      assert start + (AtLevel(levels[level], level) + rest) == (start + AtLevel(levels[level], level)) + rest;
      fs := AppendLevel(fs, levels[level], level);
    }
    FilesFromStep(levels, |levels|);
  }

  class VersionSet {
    const comparator: Bytes
    var levels: seq<Files>  // the files of the current version
    var pointers: seq<Bytes>
    var logNumber: nat
    var prevLogNumber: nat
    var nextFileNumber: nat
    var lastSequence: nat
    var manifestFileNumber: nat
    var descriptor: Option<seq<Bytes>> // the records of the current MANIFEST
    ghost var edits: seq<VersionEdit>  // what they say

    ghost predicate Valid()
      reads this
    {
      && StateFits(levels, pointers, comparator)
      && logNumber < WORD64 && prevLogNumber < WORD64 && nextFileNumber < WORD64 && lastSequence < WORD64
      && match descriptor
         case None => edits == [] && forall l :: 0 <= l < NUM_LEVELS ==> InOrder(levels[l]) && OneEach(levels[l])
         case Some(records) =>
           && Records(records, edits, comparator) && Agrees(levels, pointers, logNumber, prevLogNumber, Replay(edits))
           && Replay(edits).nextFile.value < WORD64 - 1 && Replay(edits).lastSequence.value < WORD64
    }

    /** The files that the MANIFEST has ever put on a level. */
    ghost function EverAdded(l: nat): Files
      requires l < |levels| == NUM_LEVELS
      reads this
    {
      if descriptor.None? then levels[l] else Replay(edits).levels[l].added
    }

    constructor (comparator: Bytes)
      requires |comparator| < WORD
      ensures Valid() && this.comparator == comparator && descriptor == None
      ensures levels == seq(NUM_LEVELS, _ => []) && pointers == seq(NUM_LEVELS, _ => [])
      ensures logNumber == 0 && prevLogNumber == 0 && nextFileNumber == 2 && lastSequence == 0
    {
      this.comparator := comparator;
      levels, pointers := seq(NUM_LEVELS, _ => []), seq(NUM_LEVELS, _ => []);
      logNumber, prevLogNumber, nextFileNumber, lastSequence, manifestFileNumber := 0, 0, 2, 0, 0;
      descriptor, edits := None, [];
    }

    method NewFileNumber() returns (number: nat)
      requires Valid() && nextFileNumber + 1 < WORD64
      modifies this`nextFileNumber
      ensures Valid() && number == old(nextFileNumber) && nextFileNumber == number + 1
    {
      number := nextFileNumber;
      nextFileNumber := nextFileNumber + 1;
    }

    method SetLastSequence(s: nat)
      requires Valid() && lastSequence <= s < WORD64
      modifies this`lastSequence
      ensures Valid() && lastSequence == s
    {
      lastSequence := s;
    }

    /** A record that says what the current version is. */
    method WriteSnapshot() returns (record: Bytes)
      requires StateFits(levels, pointers, comparator)
      ensures Decoded(record) == Some(Snapshot(comparator, levels, pointers))
    {
      SnapshotFits(comparator, levels, pointers);
      hide Snapshot, EditFits, Decoded, Lists, Fields, PointersFrom, FilesFrom;
      var ps := ListPointers(pointers);
      var fs := ListFiles(levels);
      SnapshotIs(comparator, levels, pointers);
      ghost var order;
      record, order := EncodeTo(CLEAR.(comparator := Some(comparator), compactPointers := ps, newFiles := fs));
    }

    /** The log says what the levels are; `added` is what it has ever put on each. */
    ghost predicate Logged(added: seq<Files>)
      reads this
    {
      && |levels| == NUM_LEVELS == |added| && descriptor.Some? && Records(descriptor.value, edits, comparator)
      && forall l :: 0 <= l < NUM_LEVELS ==>
        LevelAgrees(levels[l], Replay(edits).levels[l]) && Replay(edits).levels[l].added == added[l]
    }

    ghost function AllEverAdded(): (r: seq<Files>)
      requires |levels| == NUM_LEVELS
      reads this
      ensures |r| == NUM_LEVELS && forall l :: 0 <= l < NUM_LEVELS ==> r[l] == EverAdded(l)
    {
      seq(NUM_LEVELS, l requires 0 <= l < NUM_LEVELS reads this requires |levels| == NUM_LEVELS => EverAdded(l))
    }

    lemma CurrentLevels()
      requires Valid()
      ensures |levels| == NUM_LEVELS == |pointers| && forall l :: 0 <= l < NUM_LEVELS ==> InOrder(levels[l]) && OneEach(levels[l])
      ensures descriptor.Some? ==> Logged(AllEverAdded()) && pointers == Replay(edits).pointers
    {
      hide InOrder, OneEach, LevelAgrees, Replay, Records;
      if descriptor.Some? {
        forall l | 0 <= l < NUM_LEVELS ensures InOrder(levels[l]) && OneEach(levels[l]) {
          LevelIsGood(levels[l], Replay(edits).levels[l]);
        }
      }
    }

    /** The version and the pointers after an edit. */
    method Build(e: VersionEdit) returns (v: seq<Files>, ptrs: seq<Bytes>)
      requires |levels| == NUM_LEVELS == |pointers| && LevelsFit(e)
      requires forall l :: 0 <= l < NUM_LEVELS ==> InOrder(levels[l])
      ensures |v| == NUM_LEVELS && forall l :: 0 <= l < NUM_LEVELS ==> v[l] == Saved(levels[l], Edited(LevelState({}, []), e, l))
      ensures ptrs == SetPointers(pointers, e.compactPointers)
    {
      hide InOrder, Saved, Edited, SetPointers, LevelsFit;
      var builder := new Builder(levels, pointers);
      builder.Apply(e);
      v := builder.SaveTo();
      ptrs := builder.pointers;
    }

    /** A new MANIFEST, if there is none yet, begins with a snapshot of the current version. */
    method StartDescriptor(ghost added: seq<Files>)
      requires StateFits(levels, pointers, comparator) && |added| == NUM_LEVELS
      requires descriptor.Some? ==> Logged(added)
      requires descriptor.None? ==> added == levels && forall l :: 0 <= l < NUM_LEVELS ==> InOrder(levels[l]) && OneEach(levels[l])
      modifies this`descriptor, this`edits
      ensures Logged(added)
      ensures old(descriptor).Some? ==> edits == old(edits)
      ensures old(descriptor).None? ==> Replay(edits).pointers == pointers
    {
      hide InOrder, OneEach, LevelAgrees, Replay, Snapshot;
      if descriptor == None {
        var snapshot := WriteSnapshot();
        SnapshotReplays(comparator, levels, pointers);
        SnapshotIs(comparator, levels, pointers);
        descriptor := Some([snapshot]);
        edits := [Snapshot(comparator, levels, pointers)];
      }
    }

    /** Logs an edit that leads from the current levels to `v`. The compaction pointers are those after the edit. */
    method LogEdit(e: VersionEdit, v: seq<Files>, ghost added: seq<Files>, ghost before: seq<Bytes>)
      requires StateFits(levels, pointers, comparator) && |added| == NUM_LEVELS == |v| && EditFits(e) && e.comparator == None
      requires e.logNumber.Some? && e.prevLogNumber.Some? && e.nextFileNumber.Some? && e.lastSequence.Some?
      requires descriptor.Some? ==> Logged(added) && Replay(edits).pointers == before
      requires descriptor.None? ==> added == levels && forall l :: 0 <= l < NUM_LEVELS ==> InOrder(levels[l]) && OneEach(levels[l])
      requires pointers == SetPointers(before, e.compactPointers)
      requires forall l :: 0 <= l < NUM_LEVELS ==> Fresh(added[l], e.newFiles, l)
      requires forall l :: 0 <= l < NUM_LEVELS ==> v[l] == Saved(levels[l], Edited(LevelState({}, []), e, l))
      modifies this`descriptor, this`edits
      ensures descriptor.Some? && Records(descriptor.value, edits, comparator)
      ensures Agrees(v, pointers, e.logNumber.value, e.prevLogNumber.value, Replay(edits))
      ensures Replay(edits).nextFile == e.nextFileNumber && Replay(edits).lastSequence == e.lastSequence
    {
      hide InOrder, OneEach, LevelAgrees, Replay, Saved, SetPointers, Fresh, StateFits, EditFits, Records, Agrees;
      PointersTwice(before, e.compactPointers);
      StartDescriptor(added);
      var record;
      ghost var order;
      record, order := EncodeTo(e);
      EditReplays(edits, e, levels, v, pointers);
      OneMoreRecord(descriptor.value, edits, comparator, record, e);
      descriptor := Some(descriptor.value + [record]);
      edits := edits + [e];
    }

    /** Makes the version that an edit leads to, and logs the edit; the first time, a new MANIFEST begins with a
        snapshot. No file number may come to a level twice. */
    method LogAndApply(edit: VersionEdit)
      requires Valid() && EditFits(edit) && edit.comparator == None && nextFileNumber < WORD64 - 1
      requires edit.logNumber.Some? ==> logNumber <= edit.logNumber.value < nextFileNumber
      requires |levels| == NUM_LEVELS && forall l :: 0 <= l < NUM_LEVELS ==> Fresh(EverAdded(l), edit.newFiles, l)
      modifies this
      ensures Valid() && descriptor.Some? && |levels| == NUM_LEVELS
      ensures forall l :: 0 <= l < NUM_LEVELS ==> levels[l] == Saved(old(levels)[l], Edited(LevelState({}, []), edit, l))
      ensures pointers == SetPointers(old(pointers), edit.compactPointers)
      ensures logNumber == (if edit.logNumber.Some? then edit.logNumber.value else old(logNumber))
      ensures prevLogNumber == (if edit.prevLogNumber.Some? then edit.prevLogNumber.value else old(prevLogNumber))
      ensures nextFileNumber == old(nextFileNumber) && lastSequence == old(lastSequence)
      ensures Replay(edits).nextFile == Some(nextFileNumber) && Replay(edits).lastSequence == Some(lastSequence)
    {
      hide InOrder, OneEach, LevelAgrees, Replay, Saved, SetPointers, Fresh, LevelsFit, StateFits, EditFits, Records;
      ghost var added := AllEverAdded();
      CurrentLevels();
      var e := Filled(edit, logNumber, prevLogNumber, nextFileNumber, lastSequence);
      FilledFits(edit, logNumber, prevLogNumber, nextFileNumber, lastSequence);
      SameEdits(edit, e);
      var v, ptrs := Build(e);
      AfterEditFits(levels, v, pointers, ptrs, e, comparator);
      pointers := ptrs;
      LogEdit(e, v, added, old(pointers));
      levels := v;
      logNumber := e.logNumber.value;
      prevLogNumber := e.prevLogNumber.value;
    }

    /** Rebuilds the version from a MANIFEST: every edit goes to one builder over nothing. */
    method Recover(records: seq<Bytes>) returns (ok: bool)
      requires levels == seq(NUM_LEVELS, _ => []) && pointers == seq(NUM_LEVELS, _ => []) && descriptor == None
      modifies this
      ensures ok <==> Recoverable(records, comparator)
      ensures descriptor == None && edits == old(edits)
      ensures ok ==> var r := Replay(EditsOf(records));
                     && |levels| == NUM_LEVELS && (forall l :: 0 <= l < NUM_LEVELS ==> levels[l] == Saved([], r.levels[l]))
                     && pointers == r.pointers && logNumber == r.logNumber.value && lastSequence == r.lastSequence.value
                     && prevLogNumber == (if r.prevLogNumber.Some? then r.prevLogNumber.value else 0)
                     && manifestFileNumber == r.nextFile.value && nextFileNumber == r.nextFile.value + 1
    {
      hide Edited, Saved, SetPointers, Decoded, LevelsFit, Readable, Replay;
      EmptyOrder();
      var builder := new Builder(levels, pointers);
      var read, counters := ReplayRecords(builder, records, comparator);
      if !read || counters.next == None || counters.log == None || counters.last == None {
        return false;
      }
      var v := builder.SaveTo();
      levels, pointers := v, builder.pointers;
      manifestFileNumber, nextFileNumber := counters.next.value, counters.next.value + 1;
      lastSequence, logNumber := counters.last.value, counters.log.value;
      prevLogNumber := if counters.prev.Some? then counters.prev.value else 0;
      return true;
    }
  }

  datatype Counters = Counters(log: Option<nat>, prev: Option<nat>, next: Option<nat>, last: Option<nat>)

  lemma NothingToReplay()
    ensures Replay([]) == NothingReplayed()
  {
  }

  /** Gives the edits of all records to a builder, and remembers the latest of each counter. */
  method ReplayRecords(builder: Builder, records: seq<Bytes>, name: Bytes) returns (read: bool, c: Counters)
    requires builder.levels == seq(NUM_LEVELS, _ => LevelState({}, [])) && builder.pointers == seq(NUM_LEVELS, _ => [])
    modifies builder
    ensures read <==> Readable(records, name)
    ensures read ==> Replay(EditsOf(records)) == Replayed(builder.levels, builder.pointers, c.log, c.prev, c.next, c.last)
    ensures |builder.levels| == NUM_LEVELS
  {
    hide Edited, SetPointers, Decoded, LevelsFit, Replay;
    c := Counters(None, None, None, None);
    NothingToReplay();
    for i := 0 to |records|
      invariant |builder.levels| == NUM_LEVELS == |builder.pointers|
      invariant Readable(records[..i], name)
      invariant Replay(EditsOf(records[..i])) == Replayed(builder.levels, builder.pointers, c.log, c.prev, c.next, c.last)
    {
      var edit := DecodeFrom(records[i]);
      DecodedFits(records[i]);
      if edit == None || !ComparatorAgrees(edit.value, name) {
        assert records[i] in records;
        return false, c;
      }
      assert records[..i + 1] == records[..i] + [records[i]];
      EditsOfMore(records[..i], records[i]);
      ReplayMore(EditsOf(records[..i]), edit.value);
      builder.Apply(edit.value);
      c := Counters(Latest(c.log, edit.value.logNumber), Latest(c.prev, edit.value.prevLogNumber),
                    Latest(c.next, edit.value.nextFileNumber), Latest(c.last, edit.value.lastSequence));
    }
    assert records[..|records|] == records;
    return true, c;
  }

  predicate Readables(records: seq<Bytes>) {
    forall s :: s in records ==> Decoded(s).Some?
  }

  function EditsOf(records: seq<Bytes>): (edits: seq<VersionEdit>)
    requires Readables(records)
    ensures |edits| == |records| && forall i :: 0 <= i < |edits| ==> edits[i] == Decoded(records[i]).value
  {
    seq(|records|, i requires 0 <= i < |records| => Decoded(records[i]).value)
  }

  lemma EditsOfMore(records: seq<Bytes>, record: Bytes)
    requires Readables(records) && Decoded(record).Some?
    ensures EditsOf(records + [record]) == EditsOf(records) + [Decoded(record).value]
  {
  }

  /** Every record can be read and is of this comparator, and the counters are there. */
  ghost predicate Recoverable(records: seq<Bytes>, name: Bytes) {
    && Readable(records, name)
    && var r := Replay(EditsOf(records)); r.nextFile.Some? && r.logNumber.Some? && r.lastSequence.Some?
  }

  /** Closing and opening again: the version set rebuilt from the MANIFEST has the files, the log numbers and the
      compaction pointers of the one that wrote it, and the counters of its last record. */
  method Reopen(before: VersionSet) returns (after: VersionSet)
    requires before.Valid() && before.descriptor.Some?
    ensures fresh(after) && after.Valid() && after.comparator == before.comparator
    ensures after.levels == before.levels && after.pointers == before.pointers
    ensures after.logNumber == before.logNumber && after.prevLogNumber == before.prevLogNumber
    ensures after.lastSequence == Replay(before.edits).lastSequence.value
    ensures after.nextFileNumber == Replay(before.edits).nextFile.value + 1
  {
    hide Replay, Records, LevelAgrees, InOrder, OneEach;
    before.CurrentLevels();
    RecordsAreEdits(before.descriptor.value, before.edits, before.comparator);
    after := new VersionSet(before.comparator);
    var ok := after.Recover(before.descriptor.value);
    forall l | 0 <= l < NUM_LEVELS ensures after.levels[l] == before.levels[l] {
      LevelAgreesSaved(before.levels[l], Replay(before.edits).levels[l]);
    }
    assert after.levels == before.levels;
  }

  lemma LevelAgreesSaved(files: Files, s: LevelState)
    requires LevelAgrees(files, s)
    ensures files == Saved([], s)
  {
  }

  lemma RecordsAreEdits(records: seq<Bytes>, edits: seq<VersionEdit>, name: Bytes)
    requires Records(records, edits, name)
    ensures Readable(records, name) && EditsOf(records) == edits
  {
    hide Decoded;
  }

  lemma FilledFits(edit: VersionEdit, logNumber: nat, prevLogNumber: nat, nextFile: nat, lastSequence: nat)
    requires EditFits(edit) && logNumber < WORD64 && prevLogNumber < WORD64 && nextFile < WORD64 && lastSequence < WORD64
    ensures EditFits(Filled(edit, logNumber, prevLogNumber, nextFile, lastSequence))
    ensures LevelsFit(Filled(edit, logNumber, prevLogNumber, nextFile, lastSequence))
    ensures edit.logNumber.Some? ==> edit.logNumber.value < WORD64
    ensures edit.prevLogNumber.Some? ==> edit.prevLogNumber.value < WORD64
  {
    var e := Filled(edit, logNumber, prevLogNumber, nextFile, lastSequence);
    assert forall p :: p in e.compactPointers ==> FieldFits(CompactPointer(p));
    assert forall d :: d in e.deletedFiles ==> FieldFits(DeletedFile(d));
    assert forall a :: a in e.newFiles ==> FieldFits(NewFile(a));
  }

  lemma SameEdits(e: VersionEdit, e': VersionEdit)
    requires e.newFiles == e'.newFiles && e.deletedFiles == e'.deletedFiles
    ensures forall s, l: nat :: Edited(s, e, l) == Edited(s, e', l)
  {
  }

  lemma OneMoreRecord(records: seq<Bytes>, edits: seq<VersionEdit>, name: Bytes, record: Bytes, e: VersionEdit)
    requires Records(records, edits, name) && Decoded(record) == Some(e) && ComparatorAgrees(e, name)
    ensures Records(records + [record], edits + [e], name)
  {
    hide Decoded;
  }

  /** What an edit brings fits, and so does what was there. */
  lemma AfterEditFits(levels: seq<Files>, v: seq<Files>, pointers: seq<Bytes>, ptrs: seq<Bytes>, e: VersionEdit, name: Bytes)
    requires StateFits(levels, pointers, name) && EditFits(e) && |v| == NUM_LEVELS
    requires forall l :: 0 <= l < NUM_LEVELS ==> InOrder(levels[l]) && v[l] == Saved(levels[l], Edited(LevelState({}, []), e, l))
    requires ptrs == SetPointers(pointers, e.compactPointers)
    ensures StateFits(v, ptrs, name) && StateFits(levels, ptrs, name)
  {
    forall l, f | 0 <= l < NUM_LEVELS && f in v[l] ensures FileFits(f) {
      var s := Edited(LevelState({}, []), e, l);
      KeptFiles(Merge(levels[l], s.added), s.deleted);
      MergeHolds(levels[l], s.added);
      AddMembers(LevelState({} + NumbersAt(e.deletedFiles, l), []), e.newFiles, l);
      if f !in levels[l] {
        assert FieldFits(NewFile(LevelFile(l, f)));
      }
    }
    forall l | 0 <= l < NUM_LEVELS ensures |ptrs[l]| < WORD {
      SetPointersAt(pointers, e.compactPointers, l);
      forall p | p in e.compactPointers ensures |p.key| < WORD {
        assert FieldFits(CompactPointer(p));
      }
      LastForShort(pointers[l], e.compactPointers, l);
    }
  }

  lemma {:induction false} LastForShort(before: Bytes, ps: seq<LevelKey>, l: nat)
    requires |before| < WORD && forall p :: p in ps ==> |p.key| < WORD
    ensures |LastFor(before, ps, l)| < WORD
    decreases |ps|
  {
    if ps != [] {
      LastForShort(before, ps[..|ps| - 1], l);
    }
  }

  lemma {:induction false} InsertMembers(added: Files, f: FileMetaData)
    ensures forall g :: g in Insert(added, f) ==> g in added || g == f
    decreases |added|
  {
    hide FileBefore;
    if added != [] {
      InsertMembers(added[1..], f);
    }
  }

  lemma {:induction false} AddMembers(s: LevelState, news: seq<LevelFile>, level: nat)
    ensures forall f :: f in AddFiles(s, news, level).added ==> f in s.added || NewAt(news, level, f)
    decreases |news|
  {
    if news != [] {
      var n := |news| - 1;
      AddMembers(s, news[..n], level);
      InsertMembers(AddFiles(s, news[..n], level).added, news[n].file);
    }
  }
}
