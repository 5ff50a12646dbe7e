/** What the level-by-level search finds after a compaction, whatever user keys its inputs split (db/version_set.cc,
    db/db_impl.cc). */
module CompactionSearch {
  import opened Wrappers
  import opened ByteStrings
  import opened InternalKeys
  import opened Versions
  import opened Picking
  import opened CompactionWork
  import opened Edits
  import opened CompactionReads
  import opened Boundaries

  function ValueOf(r: Option<Entry>): Option<Bytes> {
    if r.Some? then Meaning(r.value) else None
  }

  ghost predicate SomethingVisible(es: iset<Entry>, k: UserKey, s: nat) {
    exists e :: Visible(es, k, s, e)
  }

  /** What a read finds: the memtables come first, then the levels, and the first hit ends the search. */
  ghost predicate Reads(upper: iset<Entry>, v: Version, k: UserKey, s: nat, r: Option<Entry>) {
    if SomethingVisible(upper, k, s) then Resolves(upper, k, s, r) else FirstHit(v, k, s, r)
  }

  lemma ReadsOnce(upper: iset<Entry>, v: Version, k: UserKey, s: nat, r: Option<Entry>, r': Option<Entry>)
    requires DistinctSequences(upper + Contents(v)) && Reads(upper, v, k, s, r) && Reads(upper, v, k, s, r')
    ensures r == r'
  {
    if SomethingVisible(upper, k, s) {
    } else {
      HitOnce(v, k, s, r, r');
      HitOnce(v, k, s, r', r);
    }
  }

  lemma HitOnce(v: Version, k: UserKey, s: nat, r: Option<Entry>, r': Option<Entry>)
    requires DistinctSequences(Contents(v)) && FirstHit(v, k, s, r) && FirstHit(v, k, s, r')
    ensures r.Some? ==> r' == r
  {
    if r.Some? {
      var l: nat :| l < |v.levels| && Resolves(LevelContents(v.levels[l]), k, s, r)
                    && forall m: nat :: m < l ==> Resolves(LevelContents(v.levels[m]), k, s, None);
      assert Visible(LevelContents(v.levels[l]), k, s, r.value);
      assert At(v, l, r.value);
      if r'.Some? {
        var m: nat :| m < |v.levels| && Resolves(LevelContents(v.levels[m]), k, s, r')
                      && forall n: nat :: n < m ==> Resolves(LevelContents(v.levels[n]), k, s, None);
        assert Visible(LevelContents(v.levels[m]), k, s, r'.value);
        assert At(v, m, r'.value);
      }
    }
  }

  /** With ordered levels a read finds the newest visible entry. */
  lemma NewestIsRead(upper: iset<Entry>, v: Version, k: UserKey, s: nat, r: Option<Entry>)
    requires GoodVersion(v) && Resolves(upper + Contents(v), k, s, r)
    requires forall x, y :: x in upper && y in Contents(v) ==> y.key.sequence < x.key.sequence
    ensures Reads(upper, v, k, s, r)
  {
    hide GoodVersion;
    if SomethingVisible(upper, k, s) {
      var x :| Visible(upper, k, s, x);
      assert Visible(upper + Contents(v), k, s, x);
      assert forall e :: Visible(upper, k, s, e) ==> Visible(upper + Contents(v), k, s, e);
    } else {
      forall e ensures Visible(upper + Contents(v), k, s, e) <==> Visible(Contents(v), k, s, e) {
        assert !Visible(upper, k, s, e);
      }
      NewestIsFirstHit(v, k, s, r);
    }
  }

  // ---- after a compaction ----

  lemma LevelsAfter(before: Version, after: Version, l: nat, c0: seq<File>, c1: seq<File>, come: seq<File>)
    requires Moved(before, after, l, c0, c1, come)
    ensures LevelContents(after.levels[l]) == Left(before.levels[l], c0)
    ensures LevelContents(after.levels[l + 1]) == Left(before.levels[l + 1], c1) + LevelContents(come)
  {
    forall e ensures Holds(after.levels[l], e) <==> e in Left(before.levels[l], c0) {
      if e in Left(before.levels[l], c0) {
        var f :| f in before.levels[l] && f !in c0 && e in f.entries;
        assert f in after.levels[l];
      }
    }
    forall e ensures Holds(after.levels[l + 1], e) <==> e in Left(before.levels[l + 1], c1) || Holds(come, e) {
      if e in Left(before.levels[l + 1], c1) {
        var f :| f in before.levels[l + 1] && f !in c1 && e in f.entries;
        assert f in after.levels[l + 1];
      }
      if Holds(come, e) {
        var f :| f in come && e in f.entries;
        assert f in after.levels[l + 1];
      }
    }
  }

  /** What lies above the level of `n` afterwards is newer than `n`. */
  lemma AboveIsNewer(before: Version, after: Version, l: nat, c0: seq<File>, c1: seq<File>, come: seq<File>,
                     m: nat, x: Entry, at: nat, n: Entry)
    requires LevelsOrdered(before) && Moved(before, after, l, c0, c1, come) && InputsIn(before, l, c0, c1)
    requires forall e :: Holds(come, e) ==> Holds(c0, e) || Holds(c1, e)
    requires At(before, at, n) && At(after, m, x) && m < at && x.key.user == n.key.user
    ensures n.key.sequence < x.key.sequence && x in Contents(before)
  {
    MovedFrom(before, after, l, c0, c1, come, m, x);
    if m == l + 1 && !At(before, m, x) {
      var f :| f in c0 && x in f.entries;
      assert At(before, l, x);
    }
  }

  lemma NothingAbove(before: Version, after: Version, l: nat, c0: seq<File>, c1: seq<File>, come: seq<File>,
                     m: nat, n: Entry, at: nat, s: nat)
    requires LevelsOrdered(before) && Moved(before, after, l, c0, c1, come) && InputsIn(before, l, c0, c1)
    requires forall e :: Holds(come, e) ==> Holds(c0, e) || Holds(c1, e)
    requires At(before, at, n) && m < at && m < |after.levels|
    requires forall x :: Visible(Contents(before), n.key.user, s, x) ==> x.key.sequence <= n.key.sequence
    ensures Resolves(LevelContents(after.levels[m]), n.key.user, s, None)
  {
    forall x | Holds(after.levels[m], x) && x.key.user == n.key.user
      ensures n.key.sequence < x.key.sequence && x in Contents(before)
    {
      assert At(after, m, x);
      AboveIsNewer(before, after, l, c0, c1, come, m, x, at, n);
    }
    hide Moved, LevelsOrdered, Contents, Holds;
    forall x ensures !Visible(LevelContents(after.levels[m]), n.key.user, s, x) {
      assert Visible(Contents(before), n.key.user, s, x) ==> x.key.sequence <= n.key.sequence;
    }
  }

  /** An entry that no input held is found where it was. */
  lemma OthersStayFound(upper: iset<Entry>, before: Version, after: Version, l: nat, c0: seq<File>, c1: seq<File>,
                        come: seq<File>, input: seq<Entry>, snap: nat, base: Version, k: UserKey, s: nat, n: Entry)
    requires CompactedUnder(upper, before, after, l, c0, c1, come, input, snap, base)
    requires Newest(Contents(before), k, s, n) && !Holds(c0 + c1, n)
    ensures FirstHit(after, k, s, Some(n))
  {
    hide Compacted, DistinctSequences;
    CompactedParts(before, after, l, c0, c1, come, input, snap, base);
    NowWasThere(upper, before, after, l, c0, c1, come, input, snap, base);
    OutputsHeld(before, after, l, c0, c1, come, input, snap, base);
    var at: nat :| At(before, at, n);
    OtherIsThere(before, after, l, c0, c1, come, at, n);
    forall m: nat | m < at ensures Resolves(LevelContents(after.levels[m]), k, s, None) {
      NothingAbove(before, after, l, c0, c1, come, m, n, at, s);
    }
    hide Moved, LevelsOrdered, InputsIn;
    forall x | Visible(LevelContents(after.levels[at]), k, s, x) ensures x.key.sequence <= n.key.sequence {
      assert At(after, at, x);
      assert Visible(Contents(before), k, s, x);
    }
    assert Resolves(LevelContents(after.levels[at]), k, s, Some(n));
  }

  lemma OtherIsThere(before: Version, after: Version, l: nat, c0: seq<File>, c1: seq<File>, come: seq<File>, at: nat, n: Entry)
    requires Moved(before, after, l, c0, c1, come) && InputsIn(before, l, c0, c1)
    requires At(before, at, n) && !Holds(c0 + c1, n)
    ensures At(after, at, n)
  {
    var g :| g in before.levels[at] && n in g.entries;
    InputHolds(before, l, c0, c1, at, g, n);
    assert g in after.levels[at];
  }

  lemma InputHolds(v: Version, l: nat, c0: seq<File>, c1: seq<File>, at: nat, g: File, n: Entry)
    requires InputsIn(v, l, c0, c1) && at < |v.levels| && g in v.levels[at] && n in g.entries && !Holds(c0 + c1, n)
    ensures g !in c0 && g !in c1
  {
    assert g in c0 || g in c1 ==> g in c0 + c1;
  }

  lemma OutputsHeld(before: Version, after: Version, l: nat, c0: seq<File>, c1: seq<File>, come: seq<File>,
                    input: seq<Entry>, snap: nat, base: Version)
    requires Compacted(before, after, l, c0, c1, come, input, snap, base)
    ensures forall e :: Holds(come, e) ==> Holds(c0, e) || Holds(c1, e)
  {
    OutputsFromInputs(c0 + c1, come, input, snap, base, l);
    forall e | Holds(come, e) ensures Holds(c0, e) || Holds(c1, e) {
      HoldsConcat(c0, c1, e);
    }
  }

  /** What the search finds once an input entry that was the newest is compacted. */
  ghost function FoundInstead(v: Version, l: nat, c0: seq<File>, c1: seq<File>, snap: nat, base: Version, d: Entry, s: nat): Option<Bytes>
    requires l + 1 < |v.levels|
  {
    if SomethingVisible(Left(v.levels[l], c0), d.key.user, s) then View(Left(v.levels[l], c0), d.key.user, s)
    else if Obsolete(d, snap, base, l) then View(Left(v.levels[l + 1], c1), d.key.user, s)
    else Meaning(d)
  }

  lemma HitInLevel(v: Version, l: nat, k: UserKey, s: nat) returns (r: Option<Entry>)
    requires l < |v.levels| && SomethingVisible(LevelContents(v.levels[l]), k, s)
    requires DistinctSequences(LevelContents(v.levels[l]))
    requires forall m: nat :: m < l ==> Resolves(LevelContents(v.levels[m]), k, s, None)
    ensures FirstHit(v, k, s, r) && r.Some? && Newest(LevelContents(v.levels[l]), k, s, r.value)
    ensures ValueOf(r) == View(LevelContents(v.levels[l]), k, s)
  {
    var x :| Visible(LevelContents(v.levels[l]), k, s, x);
    NewestExists(LevelContents(v.levels[l]), k, s, x);
    var n :| Newest(LevelContents(v.levels[l]), k, s, n);
    r := Some(n);
    ViewOfNewest(LevelContents(v.levels[l]), k, s, n);
  }

  lemma LevelIsDistinct(v: Version, es: iset<Entry>, l: nat)
    requires DistinctSequences(es) && Contents(v) <= es && l < |v.levels|
    ensures DistinctSequences(LevelContents(v.levels[l])) && LevelContents(v.levels[l]) <= Contents(v)
  {
    forall e | Holds(v.levels[l], e) ensures e in Contents(v) {
      assert At(v, l, e);
    }
  }

  /** The newest entry of a key, an input, is an output unless it is an obsolete tombstone. */
  lemma NewestSurvives(upper: iset<Entry>, before: Version, after: Version, l: nat, c0: seq<File>, c1: seq<File>,
                       come: seq<File>, input: seq<Entry>, snap: nat, base: Version, i: nat, s: nat)
    requires CompactedUnder(upper, before, after, l, c0, c1, come, input, snap, base) && snap <= s && i < |input|
    requires Newest(Contents(before), input[i].key.user, s, input[i]) && !Obsolete(input[i], snap, base, l)
    ensures Holds(come, input[i])
  {
    NowWasThere(upper, before, after, l, c0, c1, come, input, snap, base);
    OutputsFromInputs(c0 + c1, come, input, snap, base, l);
    if i > 0 && input[i - 1].key.user == input[i].key.user && input[i - 1].key.sequence <= snap {
      InputOrder(before, l, c0, c1, input, i);
      assert Visible(Contents(before), input[i].key.user, s, input[i - 1]);
    }
    assert !Dropped(input, i, snap, base, l);
  }

  lemma UpperIsInvisible(upper: iset<Entry>, v: Version, k: UserKey, s: nat, d: Entry)
    requires forall x, y :: x in upper && y in Contents(v) ==> y.key.sequence < x.key.sequence
    requires Newest(upper + Contents(v), k, s, d) && d in Contents(v)
    ensures !SomethingVisible(upper, k, s) && Newest(Contents(v), k, s, d)
  {
    forall x ensures !Visible(upper, k, s, x) {
      assert Visible(upper, k, s, x) ==> Visible(upper + Contents(v), k, s, x);
    }
    forall x | Visible(Contents(v), k, s, x) ensures x.key.sequence <= d.key.sequence {
      assert Visible(upper + Contents(v), k, s, x);
    }
  }

  lemma FoundAfter(upper: iset<Entry>, before: Version, after: Version, l: nat, c0: seq<File>, c1: seq<File>,
                   come: seq<File>, input: seq<Entry>, snap: nat, base: Version, i: nat, s: nat)
    returns (r: Option<Entry>)
    requires CompactedUnder(upper, before, after, l, c0, c1, come, input, snap, base) && snap <= s && i < |input|
    requires Newest(Contents(before), input[i].key.user, s, input[i])
    ensures FirstHit(after, input[i].key.user, s, r)
    ensures ValueOf(r) == FoundInstead(before, l, c0, c1, snap, base, input[i], s)
  {
    hide Compacted, View, IsMerge, DistinctSequences, Obsolete, FirstHit, Visible, Left, LevelContents;
    var k := input[i].key.user;
    CompactedParts(before, after, l, c0, c1, come, input, snap, base);
    NowWasThere(upper, before, after, l, c0, c1, come, input, snap, base);
    NothingAboveInputs(before, after, l, c0, c1, come, input, snap, base, i, s);
    LevelsAfter(before, after, l, c0, c1, come);
    LevelIsDistinct(after, Contents(before), l);
    LevelIsDistinct(after, Contents(before), l + 1);
    if SomethingVisible(Left(before.levels[l], c0), k, s) {
      r := HitInLevel(after, l, k, s);
    } else {
      NothingIsNone(LevelContents(after.levels[l]), k, s);
      if !Obsolete(input[i], snap, base, l) {
        NewestSurvives(upper, before, after, l, c0, c1, come, input, snap, base, i, s);
        r := FoundInOutputs(before, after, l, come, k, s, input[i]);
      } else {
        r := FoundBehind(upper, before, after, l, c0, c1, come, input, snap, base, i, s);
      }
    }
  }

  lemma CompactedParts(before: Version, after: Version, l: nat, c0: seq<File>, c1: seq<File>, come: seq<File>,
                       input: seq<Entry>, snap: nat, base: Version)
    requires Compacted(before, after, l, c0, c1, come, input, snap, base)
    ensures Moved(before, after, l, c0, c1, come) && InputsIn(before, l, c0, c1) && LevelsOrdered(before)
    ensures l + 1 < |before.levels| == |after.levels|
  {
  }

  lemma NothingIsNone(es: iset<Entry>, k: UserKey, s: nat)
    requires !SomethingVisible(es, k, s)
    ensures Resolves(es, k, s, None)
  {
  }

  lemma NothingAboveInputs(before: Version, after: Version, l: nat, c0: seq<File>, c1: seq<File>, come: seq<File>,
                           input: seq<Entry>, snap: nat, base: Version, i: nat, s: nat)
    requires Compacted(before, after, l, c0, c1, come, input, snap, base) && i < |input|
    requires Newest(Contents(before), input[i].key.user, s, input[i])
    ensures forall m: nat :: m < l ==> Resolves(LevelContents(after.levels[m]), input[i].key.user, s, None)
  {
    OutputsHeld(before, after, l, c0, c1, come, input, snap, base);
    MergeHolds(input, c0 + c1, i);
    InputIsAt(before, l, c0, c1, input[i]);
    var at := if Holds(c0, input[i]) then l else l + 1;
    forall m: nat | m < l ensures Resolves(LevelContents(after.levels[m]), input[i].key.user, s, None) {
      NothingAbove(before, after, l, c0, c1, come, m, input[i], at, s);
    }
  }

  lemma FoundInOutputs(before: Version, after: Version, l: nat, come: seq<File>, k: UserKey, s: nat, d: Entry)
    returns (r: Option<Entry>)
    requires l + 1 < |after.levels| && LevelContents(come) <= LevelContents(after.levels[l + 1]) && Holds(come, d)
    requires Contents(after) <= Contents(before) && Newest(Contents(before), k, s, d)
    requires forall m: nat :: m < l ==> Resolves(LevelContents(after.levels[m]), k, s, None)
    requires Resolves(LevelContents(after.levels[l]), k, s, None)
    ensures FirstHit(after, k, s, r) && r == Some(d)
  {
    r := Some(d);
    assert d in LevelContents(come);
    forall x | Visible(LevelContents(after.levels[l + 1]), k, s, x) ensures x.key.sequence <= d.key.sequence {
      assert At(after, l + 1, x);
      assert Visible(Contents(before), k, s, x);
    }
    assert Resolves(LevelContents(after.levels[l + 1]), k, s, r);
  }

  lemma VisibleBehind(upper: iset<Entry>, before: Version, after: Version, l: nat, c0: seq<File>, c1: seq<File>,
                      come: seq<File>, input: seq<Entry>, snap: nat, base: Version, i: nat, s: nat, x: Entry)
    requires CompactedUnder(upper, before, after, l, c0, c1, come, input, snap, base) && i < |input|
    requires Newest(Contents(before), input[i].key.user, s, input[i]) && Obsolete(input[i], snap, base, l)
    requires !SomethingVisible(Left(before.levels[l], c0), input[i].key.user, s)
    requires Visible(Contents(after), input[i].key.user, s, x)
    ensures Visible(Left(before.levels[l + 1], c1), input[i].key.user, s, x)
  {
    hide Compacted, DistinctSequences, Left;
    CompactedParts(before, after, l, c0, c1, come, input, snap, base);
    NowWasThere(upper, before, after, l, c0, c1, come, input, snap, base);
    assert Visible(Contents(before), input[i].key.user, s, x);
    RemainsIsBehind(upper, before, after, l, c0, c1, come, input, snap, base, i, x);
    assert !Visible(Left(before.levels[l], c0), input[i].key.user, s, x);
  }

  /** Once everything visible lies in `left`, which is part of level `l`, the search finds what `left` has. */
  lemma FoundInPart(v: Version, l: nat, left: iset<Entry>, k: UserKey, s: nat) returns (r: Option<Entry>)
    requires l < |v.levels| && left <= LevelContents(v.levels[l]) && DistinctSequences(LevelContents(v.levels[l]))
    requires forall m: nat :: m < l ==> Resolves(LevelContents(v.levels[m]), k, s, None)
    requires forall x :: Visible(Contents(v), k, s, x) ==> Visible(left, k, s, x)
    ensures FirstHit(v, k, s, r) && ValueOf(r) == View(left, k, s)
  {
    hide DistinctSequences, View;
    SubsetIsDistinct(left, LevelContents(v.levels[l]));
    forall m: nat, e | m < |v.levels| && Visible(LevelContents(v.levels[m]), k, s, e) ensures Visible(left, k, s, e) {
      assert At(v, m, e);
      assert Visible(Contents(v), k, s, e);
    }
    if x :| Visible(left, k, s, x) {
      assert Visible(LevelContents(v.levels[l]), k, s, x);
      r := HitInLevel(v, l, k, s);
      SameVisibleSameView(LevelContents(v.levels[l]), left, k, s, s);
    } else {
      r := None;
      NothingView(left, k, s);
      forall m: nat | m < |v.levels| ensures Resolves(LevelContents(v.levels[m]), k, s, None) {
        forall e ensures !Visible(LevelContents(v.levels[m]), k, s, e) {
          assert Holds(v.levels[m], e) ==> At(v, m, e);
          assert !Visible(left, k, s, e);
          assert Visible(LevelContents(v.levels[m]), k, s, e) ==> Visible(Contents(v), k, s, e);
        }
      }
    }
  }

  lemma NothingView(es: iset<Entry>, k: UserKey, s: nat)
    requires forall e :: !Visible(es, k, s, e)
    ensures View(es, k, s) == None
  {
    assert forall e :: Newest(es, k, s, e) ==> Visible(es, k, s, e);
  }

  lemma FoundBehind(upper: iset<Entry>, before: Version, after: Version, l: nat, c0: seq<File>, c1: seq<File>,
                    come: seq<File>, input: seq<Entry>, snap: nat, base: Version, i: nat, s: nat)
    returns (r: Option<Entry>)
    requires CompactedUnder(upper, before, after, l, c0, c1, come, input, snap, base) && i < |input|
    requires Newest(Contents(before), input[i].key.user, s, input[i]) && Obsolete(input[i], snap, base, l)
    requires !SomethingVisible(Left(before.levels[l], c0), input[i].key.user, s)
    requires forall m: nat :: m <= l ==> Resolves(LevelContents(after.levels[m]), input[i].key.user, s, None)
    ensures FirstHit(after, input[i].key.user, s, r)
    ensures ValueOf(r) == View(Left(before.levels[l + 1], c1), input[i].key.user, s)
  {
    hide Compacted, DistinctSequences, Left, View, SomethingVisible, FirstHit;
    CompactedParts(before, after, l, c0, c1, come, input, snap, base);
    NowWasThere(upper, before, after, l, c0, c1, come, input, snap, base);
    LevelsAfter(before, after, l, c0, c1, come);
    LevelIsDistinct(after, Contents(before), l + 1);
    forall x | Visible(Contents(after), input[i].key.user, s, x)
      ensures Visible(Left(before.levels[l + 1], c1), input[i].key.user, s, x)
    {
      VisibleBehind(upper, before, after, l, c0, c1, come, input, snap, base, i, s, x);
    }
    r := FoundInPart(after, l + 1, Left(before.levels[l + 1], c1), input[i].key.user, s);
  }

  // ---- exactly when reads are kept ----

  function Max(a: nat, b: nat): nat {
    if a < b then b else a
  }

  /** Reading at the snapshot or, if it is newer, at the input entry `d` itself, the entry was the newest, and the search
      will find something else instead. Known from the picked tables and their neighbours before installing. */
  ghost predicate Spoils(upper: iset<Entry>, v: Version, l: nat, c0: seq<File>, c1: seq<File>, snap: nat, base: Version,
                         d: Entry)
  {
    && l + 1 < |v.levels|
    && Newest(upper + Contents(v), d.key.user, Max(snap, d.key.sequence), d)
    && FoundInstead(v, l, c0, c1, snap, base, d, Max(snap, d.key.sequence)) != Meaning(d)
  }

  ghost predicate NothingSpoiled(upper: iset<Entry>, v: Version, l: nat, c0: seq<File>, c1: seq<File>, snap: nat,
                                 base: Version)
  {
    forall d :: Holds(c0 + c1, d) ==> !Spoils(upper, v, l, c0, c1, snap, base, d)
  }

  /** The search finds the same value before and after. */
  ghost predicate ReadsAgree(upper: iset<Entry>, before: Version, after: Version, k: UserKey, s: nat) {
    forall r, r' :: Reads(upper, before, k, s, r) && Reads(upper, after, k, s, r') ==> ValueOf(r) == ValueOf(r')
  }

  /** What is found instead is the same at all sequence numbers at which the entry is the newest. */
  lemma FoundInsteadStable(v: Version, l: nat, c0: seq<File>, c1: seq<File>, snap: nat, base: Version, d: Entry, s: nat)
    requires l + 1 < |v.levels| && DistinctSequences(Contents(v)) && Newest(Contents(v), d.key.user, s, d) && snap <= s
    ensures FoundInstead(v, l, c0, c1, snap, base, d, s) ==
            FoundInstead(v, l, c0, c1, snap, base, d, Max(snap, d.key.sequence))
  {
    var k, t := d.key.user, Max(snap, d.key.sequence);
    forall m, c | (m == l && c == c0) || (m == l + 1 && c == c1)
      ensures View(Left(v.levels[m], c), k, s) == View(Left(v.levels[m], c), k, t)
      ensures SomethingVisible(Left(v.levels[m], c), k, s) <==> SomethingVisible(Left(v.levels[m], c), k, t)
    {
      var left := Left(v.levels[m], c);
      forall e ensures e in left ==> e in Contents(v) {
        if e in left {
          var f :| f in v.levels[m] && f !in c && e in f.entries;
          assert At(v, m, e);
        }
      }
      SubsetIsDistinct(left, Contents(v));
      forall e ensures Visible(left, k, s, e) <==> Visible(left, k, t, e) {
        assert Visible(left, k, s, e) ==> Visible(Contents(v), k, s, e);
      }
      SameVisibleSameView(left, left, k, s, t);
    }
  }

  lemma ReadsKept(upper: iset<Entry>, before: Version, after: Version, l: nat, c0: seq<File>, c1: seq<File>,
                  come: seq<File>, input: seq<Entry>, snap: nat, base: Version, k: UserKey, s: nat)
    requires CompactedUnder(upper, before, after, l, c0, c1, come, input, snap, base) && snap <= s
    requires NothingSpoiled(upper, before, l, c0, c1, snap, base)
    ensures ReadsAgree(upper, before, after, k, s)
  {
    hide DistinctSequences, GoodVersion, Moved, FirstHit, FoundInstead, IsMerge, Left, Survivors, Flatten, Resolves;
    NowWasThere(upper, before, after, l, c0, c1, come, input, snap, base);
    forall r, r' | Reads(upper, before, k, s, r) && Reads(upper, after, k, s, r') ensures ValueOf(r) == ValueOf(r') {
      if SomethingVisible(upper, k, s) {
        ResolvesOnce(upper, before, k, s, r, r');
      } else if x :| Visible(Contents(before), k, s, x) {
        NewestExists(Contents(before), k, s, x);
        var n :| Newest(Contents(before), k, s, n);
        NewestHere(upper, before, k, s, n);
        NewestIsRead(upper, before, k, s, Some(n)) by {
          SomeResolves(upper + Contents(before), k, s, n);
        }
        ReadsOnce(upper, before, k, s, r, Some(n));
        var after' := ReadAfter(upper, before, after, l, c0, c1, come, input, snap, base, k, s, n);
        ReadsOnce(upper, after, k, s, r', after');
      } else {
        NothingToRead(before, after, k, s);
        ReadsOnce(upper, before, k, s, r, None);
        ReadsOnce(upper, after, k, s, r', None);
      }
    }
  }

  lemma SomeResolves(es: iset<Entry>, k: UserKey, s: nat, n: Entry)
    requires Newest(es, k, s, n)
    ensures Resolves(es, k, s, Some(n))
  {
  }

  lemma ResolvesOnce(upper: iset<Entry>, v: Version, k: UserKey, s: nat, r: Option<Entry>, r': Option<Entry>)
    requires DistinctSequences(upper + Contents(v)) && SomethingVisible(upper, k, s)
    requires Resolves(upper, k, s, r) && Resolves(upper, k, s, r')
    ensures r == r'
  {
  }

  lemma NewestHere(upper: iset<Entry>, v: Version, k: UserKey, s: nat, n: Entry)
    requires !SomethingVisible(upper, k, s) && Newest(Contents(v), k, s, n)
    ensures Newest(upper + Contents(v), k, s, n)
  {
    forall e | Visible(upper + Contents(v), k, s, e) ensures e.key.sequence <= n.key.sequence {
      assert !Visible(upper, k, s, e);
      assert Visible(Contents(v), k, s, e);
    }
  }

  lemma NothingToRead(before: Version, after: Version, k: UserKey, s: nat)
    requires Contents(after) <= Contents(before) && forall x :: !Visible(Contents(before), k, s, x)
    ensures FirstHit(before, k, s, None) && FirstHit(after, k, s, None)
  {
    forall v, l: nat, e | (v == before || v == after) && l < |v.levels|
      ensures !Visible(LevelContents(v.levels[l]), k, s, e)
    {
      if Holds(v.levels[l], e) {
        assert At(v, l, e);
        assert !Visible(Contents(before), k, s, e);
      }
    }
  }

  lemma ReadAfter(upper: iset<Entry>, before: Version, after: Version, l: nat, c0: seq<File>, c1: seq<File>,
                  come: seq<File>, input: seq<Entry>, snap: nat, base: Version, k: UserKey, s: nat, n: Entry)
    returns (r: Option<Entry>)
    requires CompactedUnder(upper, before, after, l, c0, c1, come, input, snap, base) && snap <= s
    requires NothingSpoiled(upper, before, l, c0, c1, snap, base)
    requires Newest(Contents(before), k, s, n) && !SomethingVisible(upper, k, s)
    ensures FirstHit(after, k, s, r) && ValueOf(r) == Meaning(n)
  {
    hide DistinctSequences, GoodVersion, Moved, FirstHit, FoundInstead, IsMerge, Left, Survivors, Flatten;
    if Holds(c0 + c1, n) {
      var i := PlaceInMerge(before, after, l, c0, c1, come, input, snap, base, n);
      r := FoundAfter(upper, before, after, l, c0, c1, come, input, snap, base, i, s);
      NowWasThere(upper, before, after, l, c0, c1, come, input, snap, base);
      FoundInsteadStable(before, l, c0, c1, snap, base, n, s);
      NewestHere(upper, before, k, s, n);
      assert Newest(upper + Contents(before), k, Max(snap, n.key.sequence), n);
      assert !Spoils(upper, before, l, c0, c1, snap, base, n);
    } else {
      r := Some(n);
      OthersStayFound(upper, before, after, l, c0, c1, come, input, snap, base, k, s, n);
    }
  }

  lemma SpoiledRead(upper: iset<Entry>, before: Version, after: Version, l: nat, c0: seq<File>, c1: seq<File>,
                    come: seq<File>, input: seq<Entry>, snap: nat, base: Version, d: Entry)
    requires CompactedUnder(upper, before, after, l, c0, c1, come, input, snap, base)
    requires Holds(c0 + c1, d) && Spoils(upper, before, l, c0, c1, snap, base, d)
    ensures !ReadsAgree(upper, before, after, d.key.user, Max(snap, d.key.sequence))
  {
    hide DistinctSequences, Moved, FirstHit, FoundInstead, IsMerge, Left, Survivors, Flatten;
    var s := Max(snap, d.key.sequence);
    var i := PlaceInMerge(before, after, l, c0, c1, come, input, snap, base, d);
    InputInContents(before, l, c0, c1, input, i);
    UpperIsInvisible(upper, before, d.key.user, s, d);
    var r := FoundAfter(upper, before, after, l, c0, c1, come, input, snap, base, i, s);
    NewestIsRead(upper, before, d.key.user, s, Some(d));
    assert Reads(upper, after, d.key.user, s, r);
  }

  /** A compaction preserves what the search finds, for every key and every sequence number at or above its snapshot, if
      and only if it spoils nothing: this holds of all compactions the code can pick, whatever keys they split. */
  lemma CompactionKeepsReadsIff(upper: iset<Entry>, before: Version, after: Version, l: nat, c0: seq<File>, c1: seq<File>,
                                come: seq<File>, input: seq<Entry>, snap: nat, base: Version)
    requires CompactedUnder(upper, before, after, l, c0, c1, come, input, snap, base)
    ensures (forall k, s: nat :: snap <= s ==> ReadsAgree(upper, before, after, k, s))
            <==> NothingSpoiled(upper, before, l, c0, c1, snap, base)
  {
    hide CompactedUnder, ReadsAgree, Spoils;
    if NothingSpoiled(upper, before, l, c0, c1, snap, base) {
      forall k, s: nat | snap <= s ensures ReadsAgree(upper, before, after, k, s) {
        ReadsKept(upper, before, after, l, c0, c1, come, input, snap, base, k, s);
      }
    } else {
      var d :| Holds(c0 + c1, d) && Spoils(upper, before, l, c0, c1, snap, base, d);
      SpoiledRead(upper, before, after, l, c0, c1, come, input, snap, base, d);
    }
  }

  // ---- when the levels stay ordered ----

  lemma ReadIsView(upper: iset<Entry>, v: Version, k: UserKey, s: nat) returns (r: Option<Entry>)
    requires GoodVersion(v) && DistinctSequences(upper + Contents(v))
    requires forall x, y :: x in upper && y in Contents(v) ==> y.key.sequence < x.key.sequence
    ensures Reads(upper, v, k, s, r) && ValueOf(r) == View(upper + Contents(v), k, s)
  {
    hide GoodVersion, DistinctSequences, View;
    var all := upper + Contents(v);
    if x :| Visible(all, k, s, x) {
      NewestExists(all, k, s, x);
      var n :| Newest(all, k, s, n);
      r := Some(n);
    } else {
      r := None;
    }
    NewestIsRead(upper, v, k, s, r);
    ResolvedView(all, k, s, r);
  }

  lemma AgreeIsSameView(upper: iset<Entry>, before: Version, after: Version, k: UserKey, s: nat)
    requires GoodVersion(before) && GoodVersion(after) && Contents(after) <= Contents(before)
    requires DistinctSequences(upper + Contents(before)) && DistinctSequences(upper + Contents(after))
    requires forall x, y :: x in upper && y in Contents(before) ==> y.key.sequence < x.key.sequence
    ensures ReadsAgree(upper, before, after, k, s) <==>
            View(upper + Contents(after), k, s) == View(upper + Contents(before), k, s)
  {
    hide GoodVersion, DistinctSequences, View, Reads;
    var a := ReadIsView(upper, before, k, s);
    var b := ReadIsView(upper, after, k, s);
    forall r, r' | Reads(upper, before, k, s, r) && Reads(upper, after, k, s, r') ensures r == a && r' == b {
      ReadsOnce(upper, before, k, s, r, a);
      ReadsOnce(upper, after, k, s, r', b);
    }
  }

  /** If the levels are ordered afterwards, all that can go wrong is that a dropped tombstone uncovers a value. */
  lemma OrderedCompactionKeepsReadsIff(upper: iset<Entry>, before: Version, after: Version, l: nat, c0: seq<File>,
                                       c1: seq<File>, come: seq<File>, input: seq<Entry>, snap: nat, base: Version)
    requires CompactedUnder(upper, before, after, l, c0, c1, come, input, snap, base) && GoodVersion(after)
    ensures (forall k, s: nat :: snap <= s ==> ReadsAgree(upper, before, after, k, s))
            <==> NothingUncovered(upper, before, l, c0, c1, snap, base, snap)
  {
    assert GoodVersion(before);
    hide GoodVersion, ReadsAgree, DistinctSequences, NothingUncovered;
    NowWasThere(upper, before, after, l, c0, c1, come, input, snap, base);
    forall k, s: nat
      ensures ReadsAgree(upper, before, after, k, s) <==> View(upper + Contents(after), k, s) == View(upper + Contents(before), k, s)
    {
      AgreeIsSameView(upper, before, after, k, s);
    }
    CompactionKeepsViewsIff(upper, before, after, l, c0, c1, come, input, snap, base);
  }
}
