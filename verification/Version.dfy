/** Versions: the table files of every level, how a read searches them, and which files a key range
    touches (db/version_set.cc). A table is represented by its sorted entries. */
module Versions {
  import opened Wrappers
  import opened ByteStrings
  import opened InternalKeys

  const NUM_LEVELS: nat := 7
  const MAX_MEM_COMPACT_LEVEL: nat := 2

  datatype File = File(number: nat, size: nat, smallest: Key, largest: Key, entries: seq<Entry>) {
    /** The metadata brackets the contents. */
    ghost predicate Good() {
      && |entries| > 0 && Sorted(entries)
      && smallest == entries[0].key && largest == entries[|entries| - 1].key
    }

    /** Some user key may be in both the file and [lo, hi]; None is an open end. */
    predicate Touches(lo: Option<UserKey>, hi: Option<UserKey>) {
      && (lo.Some? ==> lo.value <= largest.user)
      && (hi.Some? ==> smallest.user <= hi.value)
    }
  }

  datatype Version = Version(levels: seq<seq<File>>)

  // ---- structure ----

  ghost predicate GoodFiles(files: seq<File>) {
    forall f :: f in files ==> f.Good()
  }

  /** Levels above 0: sorted by key range, no two ranges overlapping as internal keys. */
  ghost predicate Disjoint(files: seq<File>) {
    forall i, j :: 0 <= i < j < |files| ==> Less(files[i].largest, files[j].smallest)
  }

  /** The same by user key: no user key has versions in two files of the level. */
  ghost predicate UserDisjoint(files: seq<File>) {
    forall i, j :: 0 <= i < j < |files| ==> files[i].largest.user < files[j].smallest.user
  }

  /** `e` is stored in one of these tables. */
  ghost predicate Holds(files: seq<File>, e: Entry) {
    exists f :: f in files && e in f.entries
  }

  ghost predicate At(v: Version, l: nat, e: Entry) {
    l < |v.levels| && Holds(v.levels[l], e)
  }

  ghost function Contents(v: Version): iset<Entry> {
    iset l: nat, e | At(v, l, e) :: e
  }

  /** Entries never hop across levels: a lower-numbered level holds the newer entries of a key. */
  ghost predicate LevelsOrdered(v: Version) {
    forall l: nat, m: nat, x, y ::
      l < m && At(v, l, x) && At(v, m, y) && x.key.user == y.key.user ==> y.key.sequence < x.key.sequence
  }

  /** For every shared user key, all of `g`'s entries are newer than all of `f`'s. */
  ghost predicate Older(f: File, g: File) {
    forall x, y :: x in f.entries && y in g.entries && x.key.user == y.key.user ==> x.key.sequence < y.key.sequence
  }

  /** In level 0 the file with the larger number holds the newer entries of a key. */
  ghost predicate LevelZeroOrdered(files: seq<File>) {
    forall f, g :: f in files && g in files && f.number < g.number ==> Older(f, g)
  }

  ghost predicate DistinctNumbers(files: seq<File>) {
    forall f, g :: f in files && g in files && f.number == g.number ==> f == g
  }

  /** Each level is in order on its own. */
  ghost predicate GoodLevels(v: Version) {
    && |v.levels| == NUM_LEVELS
    && (forall l :: 0 <= l < NUM_LEVELS ==> GoodFiles(v.levels[l]))
    && (forall l :: 1 <= l < NUM_LEVELS ==> Disjoint(v.levels[l]))
    && DistinctNumbers(v.levels[0]) && LevelZeroOrdered(v.levels[0])
  }

  ghost predicate GoodVersion(v: Version) {
    GoodLevels(v) && LevelsOrdered(v)
  }

  // ---- files by key ----

  lemma FileBounds(f: File, e: Entry)
    requires f.Good() && e in f.entries
    ensures AtMost(f.smallest, e.key) && AtMost(e.key, f.largest)
    ensures f.smallest.user <= e.key.user <= f.largest.user
    ensures AtMost(f.smallest, f.largest) && f.smallest.user <= f.largest.user
  {
    var i :| 0 <= i < |f.entries| && f.entries[i] == e;
    assert i > 0 ==> Less(f.entries[0].key, f.entries[i].key);
    assert i < |f.entries| - 1 ==> Less(f.entries[i].key, f.entries[|f.entries| - 1].key);
  }

  lemma FileRange(f: File)
    requires f.Good()
    ensures AtMost(f.smallest, f.largest) && f.smallest.user <= f.largest.user
  {
    FileBounds(f, f.entries[0]);
  }

  /** The first file whose largest key is at or after `key`, by binary search. */
  method FindFile(files: seq<File>, key: Key) returns (right: nat)
    requires GoodFiles(files) && Disjoint(files)
    ensures right <= |files|
    ensures forall i :: 0 <= i < right ==> Less(files[i].largest, key)
    ensures right < |files| ==> AtMost(key, files[right].largest)
  {
    var left := 0;
    right := |files|;
    while left < right
      invariant 0 <= left <= right <= |files|
      invariant forall i :: 0 <= i < left ==> Less(files[i].largest, key)
      invariant right < |files| ==> AtMost(key, files[right].largest)
    {
      var mid := (left + right) / 2;
      if Less(files[mid].largest, key) {
        forall i | 0 <= i < mid ensures Less(files[i].largest, key) {
          FileRange(files[mid]);
          assert Less(files[i].largest, files[mid].smallest);
        }
        left := mid + 1;
      } else {
        right := mid;
      }
    }
  }

  // A missing bound is before, respectively after, every key.
  predicate AfterFile(key: Option<UserKey>, f: File) {
    key.Some? && key.value > f.largest.user
  }

  predicate BeforeFile(key: Option<UserKey>, f: File) {
    key.Some? && key.value < f.smallest.user
  }

  /** Does any file touch [lo, hi]? Disjoint levels are binary searched, others scanned. */
  method SomeFileOverlapsRange(disjointSorted: bool, files: seq<File>, lo: Option<UserKey>, hi: Option<UserKey>)
    returns (overlap: bool)
    requires GoodFiles(files) && (disjointSorted ==> Disjoint(files))
    ensures overlap <==> exists f :: f in files && f.Touches(lo, hi)
  {
    if !disjointSorted {
      for i := 0 to |files|
        invariant forall j :: 0 <= j < i ==> !files[j].Touches(lo, hi)
      {
        if !AfterFile(lo, files[i]) && !BeforeFile(hi, files[i]) {
          assert files[i].Touches(lo, hi);
          return true;
        }
      }
      return false;
    }
    var index := 0;
    if lo.Some? {
      var small := SeekKey(lo.value, MAX_SEQUENCE);
      index := FindFile(files, small);
    }
    if index >= |files| {
      return false;
    }
    forall i | index < i < |files| ensures files[index].smallest.user <= files[i].smallest.user {
      FileRange(files[index]);
    }
    assert !BeforeFile(hi, files[index]) ==> files[index].Touches(lo, hi);
    return !BeforeFile(hi, files[index]);
  }

  // ---- the files a range touches ----

  /** The files touching [lo, hi], in level order. */
  function Touching(files: seq<File>, lo: Option<UserKey>, hi: Option<UserKey>): (r: seq<File>)
    ensures forall f :: f in r <==> f in files && f.Touches(lo, hi)
  {
    if files == [] then []
    else
      var rest := Touching(files[..|files| - 1], lo, hi);
      if files[|files| - 1].Touches(lo, hi) then rest + [files[|files| - 1]] else rest
  }

  function UserPart(k: Option<Key>): Option<UserKey> {
    if k.Some? then Some(k.value.user) else None
  }

  /** [lo, hi] contains [innerLo, innerHi]. */
  predicate Wider(lo: Option<UserKey>, hi: Option<UserKey>, innerLo: Option<UserKey>, innerHi: Option<UserKey>) {
    && (lo.Some? ==> innerLo.Some? && lo.value <= innerLo.value)
    && (hi.Some? ==> innerHi.Some? && innerHi.value <= hi.value)
  }

  /** No file sticks out of the range it touches. */
  ghost predicate OverlapClosed(files: seq<File>, lo: Option<UserKey>, hi: Option<UserKey>) {
    forall f :: f in files && f.Touches(lo, hi) ==>
      Wider(lo, hi, Some(f.smallest.user), Some(f.largest.user))
  }

  /** [lo, hi] is the smallest overlap-closed range around [begin, end]. */
  ghost predicate LeastClosed(files: seq<File>, begin: Option<UserKey>, end: Option<UserKey>,
                              lo: Option<UserKey>, hi: Option<UserKey>)
  {
    forall x, y :: Wider(x, y, begin, end) && OverlapClosed(files, x, y) ==> Wider(x, y, lo, hi)
  }

  predicate InRange(p: UserKey, lo: Option<UserKey>, hi: Option<UserKey>) {
    (lo.Some? ==> lo.value <= p) && (hi.Some? ==> p <= hi.value)
  }

  /** Every point of [lo, hi] lies in [begin, end] or in some file touching [lo, hi]. */
  ghost predicate Covered(files: seq<File>, begin: Option<UserKey>, end: Option<UserKey>,
                          lo: Option<UserKey>, hi: Option<UserKey>)
  {
    forall p | InRange(p, lo, hi) && !InRange(p, begin, end) ::
      exists f :: f in files && f.Touches(lo, hi) && f.smallest.user <= p <= f.largest.user
  }

  /** What the level-0 scan has established about the range it has grown to. */
  ghost predicate Grown(files: seq<File>, begin: Option<UserKey>, end: Option<UserKey>,
                        lo: Option<UserKey>, hi: Option<UserKey>)
  {
    && Wider(lo, hi, begin, end) && (begin.Some? ==> lo.Some?) && (end.Some? ==> hi.Some?)
    && LeastClosed(files, begin, end, lo, hi)
    && Covered(files, begin, end, lo, hi)
  }

  /** The files of a level that overlap a range of user keys; in level 0, of the least range around it that no file sticks
      out of. */
  ghost predicate IsOverlapping(files: seq<File>, level: nat, begin: Option<UserKey>, end: Option<UserKey>, inputs: seq<File>) {
    exists lo, hi :: inputs == Touching(files, lo, hi) && IsRange(files, level, begin, end, lo, hi)
  }

  ghost predicate IsRange(files: seq<File>, level: nat, begin: Option<UserKey>, end: Option<UserKey>,
                          lo: Option<UserKey>, hi: Option<UserKey>)
  {
    && (level > 0 ==> lo == begin && hi == end)
    && (level == 0 ==> OverlapClosed(files, lo, hi) && Grown(files, begin, end, lo, hi))
  }

  /** Touching files come in the order of the level. */
  lemma {:induction false} TouchingInOrder(files: seq<File>, lo: Option<UserKey>, hi: Option<UserKey>)
    requires Disjoint(files)
    ensures Disjoint(Touching(files, lo, hi))
  {
    if files != [] {
      var front := files[..|files| - 1];
      TouchingInOrder(front, lo, hi);
      var r := Touching(front, lo, hi);
      forall i | 0 <= i < |r| ensures Less(r[i].largest, files[|files| - 1].smallest) {
        assert r[i] in r;
        var j :| 0 <= j < |front| && front[j] == r[i];
        assert files[j] == r[i];
      }
    }
  }

  /** The number of file ends outside the range: the measure that makes the restarts terminate. */
  function Sticking(files: seq<File>, lo: Option<UserKey>, hi: Option<UserKey>): nat {
    if files == [] then 0
    else
      var f := files[|files| - 1];
      Sticking(files[..|files| - 1], lo, hi)
      + (if lo.Some? && f.smallest.user < lo.value then 1 else 0)
      + (if hi.Some? && f.largest.user > hi.value then 1 else 0)
  }

  lemma {:induction false} StickingShrinks(files: seq<File>, i: nat, lo: Option<UserKey>, hi: Option<UserKey>,
                                           lo': Option<UserKey>, hi': Option<UserKey>)
    requires Wider(lo', hi', lo, hi) && (lo'.None? ==> lo.None?) && (hi'.None? ==> hi.None?)
    ensures Sticking(files, lo', hi') <= Sticking(files, lo, hi)
    ensures i < |files| && ((lo.Some? && lo'.value <= files[i].smallest.user < lo.value)
                         || (hi.Some? && hi.value < files[i].largest.user <= hi'.value))
            ==> Sticking(files, lo', hi') < Sticking(files, lo, hi)
  {
    if files != [] {
      StickingShrinks(files[..|files| - 1], i, lo, hi, lo', hi');
    }
  }

  /** Growing the range to include a touching file keeps what is known about it. */
  lemma GrowRange(files: seq<File>, begin: Option<UserKey>, end: Option<UserKey>,
                  lo: Option<UserKey>, hi: Option<UserKey>, i: nat,
                  lo': Option<UserKey>, hi': Option<UserKey>)
    requires GoodFiles(files) && i < |files| && files[i].Touches(lo, hi)
    requires Grown(files, begin, end, lo, hi)
    requires || (lo.Some? && files[i].smallest.user < lo.value && lo' == Some(files[i].smallest.user) && hi' == hi)
             || (hi.Some? && files[i].largest.user > hi.value && lo' == lo && hi' == Some(files[i].largest.user))
    ensures Grown(files, begin, end, lo', hi')
    ensures Sticking(files, lo', hi') < Sticking(files, lo, hi)
  {
    var f := files[i];
    FileRange(f);
    StickingShrinks(files, i, lo, hi, lo', hi');
    forall x, y | Wider(x, y, begin, end) && OverlapClosed(files, x, y) ensures Wider(x, y, lo', hi') {
      assert f.Touches(x, y);
    }
    forall p | InRange(p, lo', hi') && !InRange(p, begin, end)
      ensures exists g :: g in files && g.Touches(lo', hi') && g.smallest.user <= p <= g.largest.user
    {
      if InRange(p, lo, hi) {
        var g :| g in files && g.Touches(lo, hi) && g.smallest.user <= p <= g.largest.user;
        assert g.Touches(lo', hi');
      } else {
        assert f.Touches(lo', hi') && f.smallest.user <= p <= f.largest.user;
      }
    }
  }

  /** What the scan of [begin, end] knows after looking at the first `i` files with the current range. */
  ghost predicate Scanned(files: seq<File>, i: nat, level: nat, begin: Option<UserKey>, end: Option<UserKey>,
                          lo: Option<UserKey>, hi: Option<UserKey>, inputs: seq<File>)
  {
    && i <= |files| && inputs == Touching(files[..i], lo, hi)
    && (level == 0 ==> OverlapClosed(files[..i], lo, hi))
    && (level > 0 ==> lo == begin && hi == end)
    && Grown(files, begin, end, lo, hi)
  }

  lemma ScanFile(files: seq<File>, i: nat, level: nat, begin: Option<UserKey>, end: Option<UserKey>,
                 lo: Option<UserKey>, hi: Option<UserKey>, inputs: seq<File>)
    requires Scanned(files, i, level, begin, end, lo, hi, inputs) && i < |files|
    requires level == 0 && files[i].Touches(lo, hi) ==> Wider(lo, hi, Some(files[i].smallest.user), Some(files[i].largest.user))
    ensures Scanned(files, i + 1, level, begin, end, lo, hi, if files[i].Touches(lo, hi) then inputs + [files[i]] else inputs)
  {
    assert files[..i + 1] == files[..i] + [files[i]];
    assert files[..i + 1][..i] == files[..i];
  }

  /** Extends the range by a file that sticks out of it on the left, else on the right. */
  method GrowAround(files: seq<File>, i: nat, begin: Option<UserKey>, end: Option<UserKey>,
                    lo: Option<UserKey>, hi: Option<UserKey>, ghost inputs: seq<File>)
    returns (lo': Option<UserKey>, hi': Option<UserKey>)
    requires GoodFiles(files) && Scanned(files, i, 0, begin, end, lo, hi, inputs)
    requires i < |files| && files[i].Touches(lo, hi)
    requires (lo.Some? && files[i].smallest.user < lo.value) || (hi.Some? && files[i].largest.user > hi.value)
    ensures Scanned(files, 0, 0, begin, end, lo', hi', [])
    ensures Sticking(files, lo', hi') < Sticking(files, lo, hi)
  {
    if lo.Some? && files[i].smallest.user < lo.value {
      lo', hi' := Some(files[i].smallest.user), hi;
    } else {
      lo', hi' := lo, Some(files[i].largest.user);
    }
    GrowRange(files, begin, end, lo, hi, i, lo', hi');
  }

  /** All files of a level overlapping the user keys of [begin, end]. Level-0 files may overlap each
      other, so there the range grows to the least one that no file sticks out of, restarting the scan
      whenever a file extends it. The ghost results name that range. */
  method GetOverlappingInputs(files: seq<File>, level: nat, begin: Option<Key>, end: Option<Key>)
    returns (inputs: seq<File>, ghost lo: Option<UserKey>, ghost hi: Option<UserKey>)
    requires GoodFiles(files)
    ensures inputs == Touching(files, lo, hi)
    ensures level > 0 ==> lo == UserPart(begin) && hi == UserPart(end)
    ensures level == 0 ==> OverlapClosed(files, lo, hi)
    ensures Grown(files, UserPart(begin), UserPart(end), lo, hi)
    ensures IsOverlapping(files, level, UserPart(begin), UserPart(end), inputs)
  {
    var userBegin, userEnd := UserPart(begin), UserPart(end);
    inputs := [];
    var i := 0;
    while i < |files|
      invariant Scanned(files, i, level, UserPart(begin), UserPart(end), userBegin, userEnd, inputs)
      decreases Sticking(files, userBegin, userEnd), |files| - i
    {
      var f := files[i];
      if userBegin.Some? && f.largest.user < userBegin.value {
        ScanFile(files, i, level, UserPart(begin), UserPart(end), userBegin, userEnd, inputs);
        i := i + 1;
      } else if userEnd.Some? && f.smallest.user > userEnd.value {
        ScanFile(files, i, level, UserPart(begin), UserPart(end), userBegin, userEnd, inputs);
        i := i + 1;
      } else if level == 0 && ((userBegin.Some? && f.smallest.user < userBegin.value)
                               || (userEnd.Some? && f.largest.user > userEnd.value)) {
        userBegin, userEnd := GrowAround(files, i, UserPart(begin), UserPart(end), userBegin, userEnd, inputs);
        inputs, i := [], 0;
      } else {
        ScanFile(files, i, level, UserPart(begin), UserPart(end), userBegin, userEnd, inputs);
        inputs := inputs + [f];
        i := i + 1;
      }
    }
    assert files[..i] == files;
    lo, hi := userBegin, userEnd;
    assert IsRange(files, level, UserPart(begin), UserPart(end), lo, hi);
  }

  // ---- reading ----

  /** `r` is the newest entry of `k` visible at `s` among `es`, or None when there is none. */
  ghost predicate Resolves(es: iset<Entry>, k: UserKey, s: nat, r: Option<Entry>) {
    match r
    case Some(e) => Newest(es, k, s, e)
    case None => forall e :: !Visible(es, k, s, e)
  }

  lemma ResolvedView(es: iset<Entry>, k: UserKey, s: nat, r: Option<Entry>)
    requires DistinctSequences(es) && Resolves(es, k, s, r)
    ensures View(es, k, s) == if r.Some? then Meaning(r.value) else None
  {
    if r.Some? {
      ViewOfNewest(es, k, s, r.value);
    } else {
      assert forall e :: Newest(es, k, s, e) ==> Visible(es, k, s, e);
    }
  }

  /** Where a seek lands: the first entry at or after the target. */
  function LowerBound(es: seq<Entry>, target: Key): (i: nat)
    ensures i <= |es|
    ensures forall j :: 0 <= j < i ==> Less(es[j].key, target)
    ensures i < |es| ==> AtMost(target, es[i].key)
  {
    if |es| == 0 || AtMost(target, es[0].key) then 0 else 1 + LowerBound(es[1..], target)
  }

  /** One seek in one sorted table, then a user key comparison, answers a read of that table. */
  function SearchTable(es: seq<Entry>, k: UserKey, s: SequenceNumber): (r: Option<Entry>)
    ensures r.Some? ==> r.value in es
    ensures Sorted(es) ==> Resolves(Elements(es), k, s, r)
  {
    var i := LowerBound(es, SeekKey(k, s));
    assert forall j :: Sorted(es) && i < j < |es| ==> Less(es[i].key, es[j].key);
    if i < |es| && es[i].key.user == k then Some(es[i]) else None
  }

  ghost function LevelContents(files: seq<File>): iset<Entry> {
    iset e | Holds(files, e)
  }

  function InsertNewestFirst(f: File, files: seq<File>): (r: seq<File>)
    requires forall i, j :: 0 <= i < j < |files| ==> files[i].number >= files[j].number
    ensures forall i, j :: 0 <= i < j < |r| ==> r[i].number >= r[j].number
    ensures forall g :: g in r <==> g == f || g in files
  {
    if files == [] then [f]
    else if f.number >= files[0].number then [f] + files
    else
      assert files == [files[0]] + files[1..];
      var rest := InsertNewestFirst(f, files[1..]);
      assert forall i :: 0 <= i < |rest| ==> rest[i] in rest;
      [files[0]] + rest
  }

  function NewestFirst(files: seq<File>): (r: seq<File>)
    ensures forall i, j :: 0 <= i < j < |r| ==> r[i].number >= r[j].number
    ensures forall g :: g in r <==> g in files
  {
    if files == [] then [] else
      assert files == [files[0]] + files[1..];
      InsertNewestFirst(files[0], NewestFirst(files[1..]))
  }

  ghost predicate Misses(files: seq<File>, k: UserKey, s: nat) {
    forall f :: f in files ==> Resolves(Elements(f.entries), k, s, None)
  }

  /** `tmp` lists the files that may hold `k`, newest first. */
  ghost predicate Candidates(files: seq<File>, tmp: seq<File>, k: UserKey) {
    && (forall m, n :: 0 <= m < n < |tmp| ==> tmp[m].number >= tmp[n].number)
    && (forall f :: f in tmp <==> f in files && f.Touches(Some(k), Some(k)))
  }

  lemma LevelZeroHit(files: seq<File>, tmp: seq<File>, k: UserKey, s: SequenceNumber, i: nat, r: Entry)
    requires GoodFiles(files) && DistinctNumbers(files) && LevelZeroOrdered(files)
    requires Candidates(files, tmp, k) && i < |tmp| && Misses(tmp[..i], k, s)
    requires Resolves(Elements(tmp[i].entries), k, s, Some(r))
    ensures Resolves(LevelContents(files), k, s, Some(r))
  {
    assert tmp[i] in files;
    assert Holds(files, r);
    forall e | Visible(LevelContents(files), k, s, e) ensures e.key.sequence <= r.key.sequence {
      var f :| f in files && e in f.entries;
      NotNewerThanHit(files, tmp, k, s, i, r, f, e);
    }
  }

  lemma NotNewerThanHit(files: seq<File>, tmp: seq<File>, k: UserKey, s: SequenceNumber, i: nat, r: Entry, f: File, e: Entry)
    requires GoodFiles(files) && DistinctNumbers(files) && LevelZeroOrdered(files)
    requires Candidates(files, tmp, k) && i < |tmp| && Misses(tmp[..i], k, s)
    requires Resolves(Elements(tmp[i].entries), k, s, Some(r))
    requires f in files && e in f.entries && e.key.user == k && e.key.sequence <= s
    ensures e.key.sequence <= r.key.sequence
  {
    hide Sorted, Less, Older;
    FileBounds(f, e);
    assert f in tmp && tmp[i] in files;
    var j :| 0 <= j < |tmp| && tmp[j] == f;
    assert Visible(Elements(f.entries), k, s, e);
    var earlier := tmp[..i];
    assert j < i ==> f in earlier;
    assert f.number != tmp[i].number ==> Older(f, tmp[i]);
    OlderIsBelow(f, tmp[i], e, r);
  }

  lemma OlderIsBelow(f: File, g: File, e: Entry, r: Entry)
    requires e in f.entries && r in g.entries && e.key.user == r.key.user
    ensures Older(f, g) ==> e.key.sequence < r.key.sequence
  {
  }

  lemma LevelZeroMiss(files: seq<File>, tmp: seq<File>, k: UserKey, s: SequenceNumber)
    requires GoodFiles(files) && Candidates(files, tmp, k) && Misses(tmp, k, s)
    ensures Resolves(LevelContents(files), k, s, None)
  {
    forall e ensures !Visible(LevelContents(files), k, s, e) {
      if Holds(files, e) && e.key.user == k {
        var f :| f in files && e in f.entries;
        FileBounds(f, e);
        assert f in tmp;
        assert !Visible(Elements(f.entries), k, s, e);
      }
    }
  }

  method CollectCandidates(files: seq<File>, k: UserKey) returns (tmp: seq<File>)
    ensures Candidates(files, tmp, k) && tmp == NewestFirst(Touching(files, Some(k), Some(k)))
  {
    tmp := NewestFirst(Touching(files, Some(k), Some(k)));
  }

  /** The file of a level that ends at or after a key, if it begins at or before the user key. */
  function FirstFrom(files: seq<File>, target: Key, k: UserKey): (r: seq<File>)
    ensures forall f :: f in r ==> f in files
  {
    if files == [] then []
    else if Less(files[0].largest, target) then FirstFrom(files[1..], target, k)
    else if files[0].smallest.user <= k then [files[0]] else []
  }

  lemma {:induction false} FirstFromIs(files: seq<File>, target: Key, k: UserKey, index: nat)
    requires index <= |files| && forall i :: 0 <= i < index ==> Less(files[i].largest, target)
    requires index < |files| ==> AtMost(target, files[index].largest)
    ensures FirstFrom(files, target, k) == if index < |files| && files[index].smallest.user <= k then [files[index]] else []
    decreases index
  {
    if index > 0 {
      FirstFromIs(files[1..], target, k, index - 1);
    }
  }

  /** The files of a level that a read looks in until it has found something, in order. */
  function CandidatesAt(files: seq<File>, level: nat, k: UserKey, s: SequenceNumber): seq<File> {
    if level == 0 then NewestFirst(Touching(files, Some(k), Some(k))) else FirstFrom(files, SeekKey(k, s), k)
  }

  /** It has looked in all of them for nothing, or in some until it found `r` in the last. */
  ghost predicate LooksIn(candidates: seq<File>, read: seq<File>, k: UserKey, s: nat, r: Option<Entry>) {
    match r
    case None => read == candidates && Misses(read, k, s)
    case Some(e) => read != [] && read <= candidates && Misses(read[..|read| - 1], k, s) && e in read[|read| - 1].entries
  }

  lemma NoMisses(tmp: seq<File>, k: UserKey, s: nat)
    ensures Misses(tmp[..0], k, s) && tmp[..|tmp|] == tmp
  {
  }

  lemma OneMoreMiss(tmp: seq<File>, i: nat, k: UserKey, s: nat)
    requires i < |tmp| && Misses(tmp[..i], k, s) && Resolves(Elements(tmp[i].entries), k, s, None)
    ensures Misses(tmp[..i + 1], k, s)
  {
    hide Resolves;
    assert tmp[..i + 1] == tmp[..i] + [tmp[i]];
  }

  lemma CandidateIsGood(files: seq<File>, tmp: seq<File>, k: UserKey, i: nat)
    requires GoodFiles(files) && Candidates(files, tmp, k) && i < |tmp|
    ensures Sorted(tmp[i].entries) && forall f :: f in tmp ==> f in files
  {
    assert tmp[i] in files && tmp[i].Good();
  }

  lemma LooksInHit(candidates: seq<File>, i: nat, k: UserKey, s: nat, e: Entry)
    requires i < |candidates| && Misses(candidates[..i], k, s) && e in candidates[i].entries
    ensures LooksIn(candidates, candidates[..i + 1], k, s, Some(e))
  {
    assert candidates[..i + 1][..i] == candidates[..i];
  }

  lemma LooksInAll(candidates: seq<File>, k: UserKey, s: nat)
    requires Misses(candidates, k, s)
    ensures LooksIn(candidates, candidates, k, s, None)
  {
  }

  lemma ZeroCandidates(files: seq<File>, k: UserKey, s: SequenceNumber)
    ensures CandidatesAt(files, 0, k, s) == NewestFirst(Touching(files, Some(k), Some(k)))
  {
  }

  /** Level 0: files that may hold the key, newest first; the first hit wins. `read` are the files looked in. */
  method SearchLevelZero(files: seq<File>, k: UserKey, s: SequenceNumber) returns (r: Option<Entry>, read: seq<File>)
    requires GoodFiles(files) && DistinctNumbers(files) && LevelZeroOrdered(files)
    ensures Resolves(LevelContents(files), k, s, r)
    ensures (forall f :: f in read ==> f in files) && LooksIn(CandidatesAt(files, 0, k, s), read, k, s, r)
  {
    hide Misses, Candidates, NewestFirst, Touching, CandidatesAt, LooksIn, GoodFiles, DistinctNumbers, LevelZeroOrdered, Resolves,
         Sorted, SearchTable;
    var tmp := CollectCandidates(files, k);
    ZeroCandidates(files, k, s);
    NoMisses(tmp, k, s);
    for i := 0 to |tmp|
      invariant Misses(tmp[..i], k, s) && (i > 0 ==> forall f :: f in tmp ==> f in files)
    {
      CandidateIsGood(files, tmp, k, i);
      r := SearchTable(tmp[i].entries, k, s);
      if r.Some? {
        LevelZeroHit(files, tmp, k, s, i, r.value);
        LooksInHit(tmp, i, k, s, r.value);
        return r, tmp[..i + 1];
      }
      OneMoreMiss(tmp, i, k, s);
    }
    LevelZeroMiss(files, tmp, k, s);
    LooksInAll(tmp, k, s);
    r, read := None, tmp;
  }

  /** Past the file a binary search selects, nothing visible is newer. */
  lemma OnlyOneFile(files: seq<File>, k: UserKey, s: SequenceNumber, index: nat, j: nat, e: Entry)
    requires GoodFiles(files) && Disjoint(files) && index <= |files|
    requires forall i :: 0 <= i < index ==> Less(files[i].largest, SeekKey(k, s))
    requires index < |files| ==> AtMost(SeekKey(k, s), files[index].largest)
    requires j < |files| && e in files[j].entries && e.key.user == k && e.key.sequence <= s
    ensures index < |files| && files[index].smallest.user <= k
    ensures SearchTable(files[index].entries, k, s).Some?
    ensures e.key.sequence <= SearchTable(files[index].entries, k, s).value.key.sequence
  {
    FileBounds(files[j], e);
    var f := files[index];
    if index == j {
      assert Visible(Elements(f.entries), k, s, e);
    } else {
      assert Less(f.largest, files[j].smallest);
      FileRange(f);
      var last := f.entries[|f.entries| - 1];
      assert Visible(Elements(f.entries), k, s, last);
    }
  }

  /** Levels above 0: at most one file can hold the answer. */
  method SearchLevel(files: seq<File>, k: UserKey, s: SequenceNumber) returns (r: Option<Entry>, read: seq<File>)
    requires GoodFiles(files) && Disjoint(files)
    ensures Resolves(LevelContents(files), k, s, r)
    ensures (forall f :: f in read ==> f in files) && |read| <= 1
    ensures forall level :: level > 0 ==> LooksIn(CandidatesAt(files, level, k, s), read, k, s, r)
  {
    var target := SeekKey(k, s);
    var index := FindFile(files, target);
    FirstFromIs(files, target, k, index);
    r, read := None, [];
    if index < |files| && files[index].smallest.user <= k {
      assert files[index].Good();
      read := [files[index]];
      r := SearchTable(files[index].entries, k, s);
      assert r.Some? ==> Holds(files, r.value);
    }
    forall e | Visible(LevelContents(files), k, s, e)
      ensures r.Some? && e.key.sequence <= r.value.key.sequence
    {
      var j :| 0 <= j < |files| && e in files[j].entries;
      OnlyOneFile(files, k, s, index, j, e);
    }
  }

  /** `r` comes from the first level that has anything visible. */
  ghost predicate FirstHit(v: Version, k: UserKey, s: nat, r: Option<Entry>) {
    match r
    case Some(e) => exists l: nat :: l < |v.levels| && Resolves(LevelContents(v.levels[l]), k, s, r)
                                  && forall m: nat :: m < l ==> Resolves(LevelContents(v.levels[m]), k, s, None)
    case None => forall l: nat :: l < |v.levels| ==> Resolves(LevelContents(v.levels[l]), k, s, None)
  }

  function AtLevel(level: nat, files: seq<File>): (r: seq<(nat, File)>)
    ensures |r| == |files| && forall i :: 0 <= i < |r| ==> r[i] == (level, files[i])
  {
    seq(|files|, i requires 0 <= i < |files| => (level, files[i]))
  }

  /** The candidates of the first levels. */
  function CandidatesTo(v: Version, n: nat, k: UserKey, s: SequenceNumber): seq<(nat, File)>
    requires n <= |v.levels|
  {
    if n == 0 then [] else CandidatesTo(v, n - 1, k, s) + AtLevel(n - 1, CandidatesAt(v.levels[n - 1], n - 1, k, s))
  }

  ghost predicate AllMiss(looked: seq<(nat, File)>, k: UserKey, s: nat) {
    forall i :: 0 <= i < |looked| ==> Resolves(Elements(looked[i].1.entries), k, s, None)
  }

  /** The files that a read looks in: all candidates, or those up to the one with the answer. */
  ghost predicate Looked(v: Version, looked: seq<(nat, File)>, k: UserKey, s: SequenceNumber, r: Option<Entry>) {
    && |v.levels| == NUM_LEVELS
    && match r
       case None => looked == CandidatesTo(v, NUM_LEVELS, k, s) && AllMiss(looked, k, s)
       case Some(e) =>
         && looked != [] && looked <= CandidatesTo(v, NUM_LEVELS, k, s) && AllMiss(looked[..|looked| - 1], k, s)
         && e in looked[|looked| - 1].1.entries
  }

  lemma {:induction false} CandidatesGrow(v: Version, n: nat, m: nat, k: UserKey, s: SequenceNumber)
    requires n <= m <= |v.levels|
    ensures CandidatesTo(v, n, k, s) <= CandidatesTo(v, m, k, s)
    decreases m
  {
    if n < m {
      CandidatesGrow(v, n, m - 1, k, s);
    }
  }

  lemma HitIsLooked(v: Version, level: nat, looked: seq<(nat, File)>, read: seq<File>, k: UserKey, s: SequenceNumber, r: Option<Entry>)
    requires level < NUM_LEVELS == |v.levels| && looked == CandidatesTo(v, level, k, s) && AllMiss(looked, k, s)
    requires LooksIn(CandidatesAt(v.levels[level], level, k, s), read, k, s, r)
    ensures r.Some? ==> Looked(v, looked + AtLevel(level, read), k, s, r)
    ensures r.None? ==> looked + AtLevel(level, read) == CandidatesTo(v, level + 1, k, s) && AllMiss(looked + AtLevel(level, read), k, s)
  {
    hide CandidatesAt, Resolves;
    if r.Some? {
      CandidatesGrow(v, level + 1, NUM_LEVELS, k, s);
      var here := CandidatesAt(v.levels[level], level, k, s);
      assert AtLevel(level, read) <= AtLevel(level, here);
      assert looked + AtLevel(level, read) <= CandidatesTo(v, level + 1, k, s);
    }
  }

  /** A read searches level by level and stops at the first hit. If it looks in more than one file, the first is charged a
      seek; there was nothing to find in it, and it is not in the last level. */
  method Get(v: Version, k: UserKey, s: SequenceNumber)
    returns (r: Option<Entry>, charged: Option<(nat, File)>, ghost looked: seq<(nat, File)>)
    requires GoodLevels(v)
    ensures FirstHit(v, k, s, r)
    ensures GoodVersion(v) ==> Resolves(Contents(v), k, s, r)
    ensures Looked(v, looked, k, s, r)
    ensures charged == if |looked| > 1 then Some(looked[0]) else None
    ensures charged.Some? ==> charged.value.0 + 1 < NUM_LEVELS && charged.value.1 in v.levels[charged.value.0]
  {
    hide CandidatesTo, AllMiss, Looked, LooksIn, CandidatesAt;
    var first: Option<(nat, File)> := None;
    charged, looked := None, [];
    NothingLooked(v, k, s);
    for level := 0 to NUM_LEVELS
      invariant forall l: nat :: l < level ==> Resolves(LevelContents(v.levels[l]), k, s, None)
      invariant looked == CandidatesTo(v, level, k, s) && AllMiss(looked, k, s)
      invariant first == if looked == [] then None else Some(looked[0])
      invariant first.Some? ==> first.value.0 < level && first.value.1 in v.levels[first.value.0]
      invariant charged == if |looked| > 1 then first else None
      invariant charged.Some? ==> first.value.0 + 1 < NUM_LEVELS
    {
      var read;
      if level == 0 {
        r, read := SearchLevelZero(v.levels[0], k, s);
      } else {
        r, read := SearchLevel(v.levels[level], k, s);
      }
      HitIsLooked(v, level, looked, read, k, s, r);
      if read != [] && first.Some? {
        charged := first;
      } else if read != [] {
        first := Some((level, read[0]));
        charged := if |read| > 1 then first else None;
      }
      looked := looked + AtLevel(level, read);
      if r.Some? {
        FirstHitIsNewest(v, k, s, r);
        return;
      }
    }
    r := None;
    AllLooked(v, looked, k, s);
    FirstHitIsNewest(v, k, s, r);
  }

  lemma NothingLooked(v: Version, k: UserKey, s: SequenceNumber)
    ensures CandidatesTo(v, 0, k, s) == [] && AllMiss([], k, s)
  {
  }

  lemma AllLooked(v: Version, looked: seq<(nat, File)>, k: UserKey, s: SequenceNumber)
    requires |v.levels| == NUM_LEVELS && looked == CandidatesTo(v, NUM_LEVELS, k, s) && AllMiss(looked, k, s)
    ensures Looked(v, looked, k, s, None)
  {
  }

  /** Because entries never hop across levels, the first hit is the newest entry of the whole version. */
  lemma FirstHitIsNewest(v: Version, k: UserKey, s: nat, r: Option<Entry>)
    requires FirstHit(v, k, s, r)
    ensures LevelsOrdered(v) ==> Resolves(Contents(v), k, s, r)
  {
    match r
    case Some(_) =>
      if LevelsOrdered(v) {
        var level: nat :| level < |v.levels| && Resolves(LevelContents(v.levels[level]), k, s, r)
                          && forall m: nat :: m < level ==> Resolves(LevelContents(v.levels[m]), k, s, None);
        assert At(v, level, r.value);
        forall e | Visible(Contents(v), k, s, e) ensures e.key.sequence <= r.value.key.sequence {
          var l: nat :| At(v, l, e);
          assert Visible(LevelContents(v.levels[l]), k, s, e);
          assert level <= l;
        }
      }
    case None =>
      forall e ensures !Visible(Contents(v), k, s, e) {
        if l: nat :| At(v, l, e) {
          assert !Visible(LevelContents(v.levels[l]), k, s, e);
        }
      }
  }
}
