/** The versions that LogAndApply saves, as the tables that reads and compactions see (db/version_set.cc). */
module ManifestVersions {
  import opened ByteStrings
  import opened InternalKeys
  import Comparators
  import E = VersionEdits
  import M = Manifests
  import Versions
  import Edits

  /** Eight bytes of tag, of which the lowest is one of the two types. */
  predicate IsKey(k: Bytes) {
    Comparators.TagPart(k) % 256 < 2 && Comparators.TagPart(k) / 256 <= MAX_SEQUENCE
  }

  /** The internal key that a byte string encodes. */
  ghost function KeyOf(k: Bytes): Key
    requires IsKey(k)
  {
    Key(Comparators.Rank(Comparators.UserPart(k)), Comparators.TagPart(k) / 256,
        if Comparators.TagPart(k) % 256 == 1 then Value else Deletion)
  }

  /** The two orders on internal keys are one. */
  lemma KeyOrderAgrees(a: Bytes, b: Bytes)
    requires IsKey(a) && IsKey(b)
    ensures Comparators.KeyBefore(a, b) <==> Less(KeyOf(a), KeyOf(b))
  {
    Comparators.KeyOrder(a, b);
    assert Tag(KeyOf(a)) == Comparators.TagPart(a) && Tag(KeyOf(b)) == Comparators.TagPart(b);
  }

  predicate HasKeys(files: M.Files) {
    forall f :: f in files ==> IsKey(f.smallest) && IsKey(f.largest)
  }

  /** The table that metadata describes; a table file never changes, so its number determines its contents. */
  ghost function TableOf(f: E.FileMetaData, contents: nat -> seq<Entry>): Versions.File
    requires IsKey(f.smallest) && IsKey(f.largest)
  {
    Versions.File(f.number, f.fileSize, KeyOf(f.smallest), KeyOf(f.largest), contents(f.number))
  }

  ghost function TablesOf(files: M.Files, contents: nat -> seq<Entry>): (r: seq<Versions.File>)
    requires HasKeys(files)
    ensures |r| == |files| && forall i :: 0 <= i < |r| ==> r[i] == TableOf(files[i], contents)
  {
    seq(|files|, i requires 0 <= i < |files| => TableOf(files[i], contents))
  }

  lemma FileOrderAgrees(f: E.FileMetaData, g: E.FileMetaData, contents: nat -> seq<Entry>)
    requires IsKey(f.smallest) && IsKey(f.largest) && IsKey(g.smallest) && IsKey(g.largest)
    ensures M.FileBefore(f, g) <==> Edits.BySmallest(TableOf(f, contents), TableOf(g, contents))
  {
    hide IsKey, Comparators.KeyBefore;
    KeyOrderAgrees(f.smallest, g.smallest);
    KeyOrderAgrees(g.smallest, f.smallest);
    LessIsStrictTotalOrder(KeyOf(f.smallest), KeyOf(g.smallest), KeyOf(f.smallest));
  }

  lemma OrderAgrees(files: M.Files, contents: nat -> seq<Entry>)
    requires HasKeys(files) && M.InOrder(files)
    ensures Edits.SortedBySmallest(TablesOf(files, contents))
  {
    hide IsKey, M.FileBefore, Edits.BySmallest;
    var tables := TablesOf(files, contents);
    forall i, j | 0 <= i < j < |tables| ensures Edits.BySmallest(tables[i], tables[j]) {
      assert files[i] in files && files[j] in files;
      FileOrderAgrees(files[i], files[j], contents);
    }
  }

  /** The files that an edit deletes from a level. */
  function Gone(files: M.Files, e: E.VersionEdit, level: nat): (r: M.Files)
    ensures forall f :: f in r <==> f in files && E.LevelNumber(level, f.number) in e.deletedFiles
  {
    if files == [] then []
    else
      var rest := Gone(files[..|files| - 1], e, level);
      if E.LevelNumber(level, files[|files| - 1].number) in e.deletedFiles then rest + [files[|files| - 1]] else rest
  }

  function Come(news: seq<E.LevelFile>, level: nat): (r: M.Files)
    ensures forall f :: f in r <==> M.NewAt(news, level, f)
  {
    if news == [] then []
    else
      var rest := Come(news[..|news| - 1], level);
      if news[|news| - 1].level == level then rest + [news[|news| - 1].file] else rest
  }

  lemma InTables(files: M.Files, contents: nat -> seq<Entry>, t: Versions.File)
    requires HasKeys(files)
    ensures t in TablesOf(files, contents) <==>
      exists f :: f in files && IsKey(f.smallest) && IsKey(f.largest) && TableOf(f, contents) == t
  {
    hide IsKey;
    if f :| f in files && IsKey(f.smallest) && IsKey(f.largest) && TableOf(f, contents) == t {
      var i :| 0 <= i < |files| && files[i] == f;
      assert TablesOf(files, contents)[i] == t;
    }
    if t in TablesOf(files, contents) {
      var i :| 0 <= i < |files| && TablesOf(files, contents)[i] == t;
      assert files[i] in files;
    }
  }

  /** What LogAndApply makes of a level is what the state machine of the database calls replacing the tables that
      an edit deletes by those that it adds. */
  lemma SavedIsReplaced(base: M.Files, e: E.VersionEdit, level: nat, contents: nat -> seq<Entry>)
    requires M.InOrder(base) && M.Fresh(base, e.newFiles, level) && HasKeys(base) && HasKeys(Come(e.newFiles, level))
    ensures var after := M.Saved(base, M.Edited(M.LevelState({}, []), e, level));
            && HasKeys(after)
            && Edits.Replaced(TablesOf(base, contents), TablesOf(after, contents), TablesOf(Gone(base, e, level), contents),
                              TablesOf(Come(e.newFiles, level), contents))
  {
    hide IsKey, M.Saved, M.Edited, M.InOrder, M.Fresh;
    var after := M.Saved(base, M.Edited(M.LevelState({}, []), e, level));
    var gone, come := Gone(base, e, level), Come(e.newFiles, level);
    M.EditReplaces(base, e, level);
    OrderAgrees(after, contents);
    forall t
      ensures t in TablesOf(after, contents) <==>
        (t in TablesOf(base, contents) && t !in TablesOf(gone, contents)) || t in TablesOf(come, contents)
    {
      InTables(after, contents, t);
      InTables(base, contents, t);
      InTables(gone, contents, t);
      InTables(come, contents, t);
    }
  }
}
