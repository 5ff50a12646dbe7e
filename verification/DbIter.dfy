/** The user's iterator: one entry for each key that a reader may see, in key order, forwards and backwards
    (db/db_iter.cc). */
module UserIterator {
  import opened ByteStrings
  import opened Wrappers
  import opened InternalKeys
  import opened Merging

  // ---- live entries ----

  predicate Seen(es: seq<Entry>, i: nat, s: nat)
    requires i < |es|
  {
    es[i].key.sequence <= s
  }

  /** Entry `i` is a value, and the first of its user key that a reader at `s` sees. */
  ghost predicate Live(es: seq<Entry>, i: nat, s: nat) {
    && i < |es| && Seen(es, i, s) && es[i].key.kind.Value?
    && forall j :: 0 <= j < i && Seen(es, j, s) ==> es[j].key.user != es[i].key.user
  }

  lemma UserOrder(es: seq<Entry>, i: nat, j: nat)
    requires Sorted(es) && i < |es| && j < |es|
    ensures i <= j ==> es[i].key.user <= es[j].key.user
    ensures es[i].key.user < es[j].key.user ==> i < j
  {
    if i < j {
      assert Less(es[i].key, es[j].key);
    }
    if j < i {
      assert Less(es[j].key, es[i].key);
    }
  }

  /** Live entries are what the specification of a read finds. */
  lemma LiveIsView(es: seq<Entry>, i: nat, s: nat)
    requires Sorted(es) && DistinctSequences(Elements(es)) && Live(es, i, s)
    ensures View(Elements(es), es[i].key.user, s) == Some(es[i].value)
  {
    var k := es[i].key.user;
    forall f | Visible(Elements(es), k, s, f) ensures f.key.sequence <= es[i].key.sequence {
      var j :| 0 <= j < |es| && es[j] == f;
      assert j >= i;
      if j > i {
        assert Less(es[i].key, es[j].key);
      }
    }
    assert Newest(Elements(es), k, s, es[i]);
    ViewOfNewest(Elements(es), k, s, es[i]);
  }

  lemma ViewIsLive(es: seq<Entry>, k: UserKey, s: nat)
    requires Sorted(es) && DistinctSequences(Elements(es)) && View(Elements(es), k, s).Some?
    ensures exists i: nat :: Live(es, i, s) && es[i].key.user == k
  {
    var e: Entry :| Newest(Elements(es), k, s, e);
    ViewOfNewest(Elements(es), k, s, e);
    var i :| 0 <= i < |es| && es[i] == e;
    forall j | 0 <= j < i && Seen(es, j, s) ensures es[j].key.user != k {
      assert Less(es[j].key, es[i].key);
      assert es[j].key.user == k ==> Visible(Elements(es), k, s, es[j]);
    }
    assert Live(es, i, s);
  }

  lemma AbsentUnlessLive(es: seq<Entry>, s: nat, k: UserKey)
    requires Sorted(es) && DistinctSequences(Elements(es))
    requires forall i: nat :: Live(es, i, s) ==> es[i].key.user != k
    ensures View(Elements(es), k, s) == None
  {
    if View(Elements(es), k, s).Some? {
      ViewIsLive(es, k, s);
    }
  }

  // ---- scanning forward ----

  /** Entry `i` is still to be yielded by a forward scan: its key is not one to skip. */
  ghost predicate Wanted(es: seq<Entry>, i: nat, s: nat, skip: Option<UserKey>) {
    Live(es, i, s) && (skip.Some? ==> es[i].key.user > skip.value)
  }

  /** From `at` on: a key with a visible entry before `at` is skipped, and nothing visible comes before the key
      to skip. */
  ghost predicate ReadyFrom(es: seq<Entry>, at: nat, s: nat, skip: Option<UserKey>) {
    && (forall i, j :: 0 <= j < at <= i < |es| && Seen(es, j, s) && es[j].key.user == es[i].key.user ==>
          skip.Some? && es[i].key.user <= skip.value)
    && (skip.Some? ==> forall i :: at <= i < |es| && Seen(es, i, s) ==> skip.value <= es[i].key.user)
  }

  /** A forward scan that began at `from`, skipping `skip0`, has come to `at` and now skips `skip`. */
  ghost predicate Scanning(es: seq<Entry>, from: nat, skip0: Option<UserKey>, at: nat, skip: Option<UserKey>, s: nat) {
    && from <= at <= |es| && ReadyFrom(es, at, s, skip)
    && (forall i :: from <= i < at ==> !Wanted(es, i, s, skip0))
    && (skip0.Some? ==> skip.Some? && skip0.value <= skip.value)
    && forall i :: at <= i < |es| && Live(es, i, s) && skip.Some? && es[i].key.user <= skip.value ==>
         skip0.Some? && es[i].key.user <= skip0.value
  }

  lemma ScanBegins(es: seq<Entry>, at: nat, skip: Option<UserKey>, s: nat)
    requires at <= |es| && ReadyFrom(es, at, s, skip)
    ensures Scanning(es, at, skip, at, skip, s)
  {
  }

  lemma ScanKnows(es: seq<Entry>, from: nat, skip0: Option<UserKey>, at: nat, skip: Option<UserKey>, s: nat)
    requires Scanning(es, from, skip0, at, skip, s)
    ensures from <= at <= |es| && forall i :: from <= i < at ==> !Wanted(es, i, s, skip0)
  {
  }

  /** A visible value that is not skipped is the next to yield. */
  lemma YieldsNext(es: seq<Entry>, from: nat, skip0: Option<UserKey>, at: nat, skip: Option<UserKey>, s: nat)
    requires Sorted(es) && Scanning(es, from, skip0, at, skip, s) && at < |es|
    requires Seen(es, at, s) && es[at].key.kind.Value? && !(skip.Some? && es[at].key.user <= skip.value)
    ensures Wanted(es, at, s, skip0)
  {
  }

  /** Anything else is passed by; a visible tombstone hides the rest of its key. */
  lemma PassesBy(es: seq<Entry>, from: nat, skip0: Option<UserKey>, at: nat, skip: Option<UserKey>, s: nat)
    requires Sorted(es) && Scanning(es, from, skip0, at, skip, s) && at < |es|
    requires Seen(es, at, s) && es[at].key.kind.Value? ==> skip.Some? && es[at].key.user <= skip.value
    ensures var skip' := if Seen(es, at, s) && es[at].key.kind.Deletion? then Some(es[at].key.user) else skip;
            Scanning(es, from, skip0, at + 1, skip', s)
  {
    forall i: nat | at < i < |es| ensures es[at].key.user <= es[i].key.user {
      UserOrder(es, at, i);
    }
  }

  // ---- scanning backwards ----

  /** A backward scan that began at `from` has come down to `at`. `hit` is the last visible entry it met, unless
      that was a tombstone or there was none. */
  ghost predicate Scanned(es: seq<Entry>, at: int, from: int, s: nat, hit: Option<nat>) {
    && -1 <= at <= from < |es|
    && (forall i :: at < i <= from && Live(es, i, s) ==> hit == Some(i))
    && (hit.Some? ==>
          var q := hit.value;
          && at < q <= from && Seen(es, q, s) && es[q].key.kind.Value?
          && forall j :: at < j < q ==> !Seen(es, j, s))
  }

  /** The scan goes on while it meets entries of the same key, or has no value. */
  lemma ScansOn(es: seq<Entry>, at: nat, from: int, s: nat, hit: Option<nat>)
    requires Sorted(es) && Scanned(es, at, from, s, hit)
    requires Seen(es, at, s) && hit.Some? ==> es[hit.value].key.user <= es[at].key.user
    ensures var hit' := if !Seen(es, at, s) then hit else if es[at].key.kind.Value? then Some(at) else None;
            Scanned(es, at - 1, from, s, hit')
  {
    if hit.Some? {
      UserOrder(es, at, hit.value);
    }
  }

  /** It ends at a visible entry of an earlier key, or at the beginning: then the value it has is live. */
  lemma ScanEnds(es: seq<Entry>, at: int, from: int, s: nat, hit: Option<nat>)
    requires Sorted(es) && Scanned(es, at, from, s, hit) && hit.Some?
    requires at >= 0 ==> es[at].key.user < es[hit.value].key.user
    ensures Live(es, hit.value, s)
  {
    forall j | 0 <= j < hit.value && Seen(es, j, s) ensures es[j].key.user != es[hit.value].key.user {
      if at >= 0 {
        UserOrder(es, j, at);
      }
    }
  }

  lemma ScanDown(es: seq<Entry>, from: int, s: nat)
    requires 0 <= from < |es|
    ensures Scanned(es, from, from, s, None)
  {
  }

  lemma NoHit(es: seq<Entry>, from: int, s: nat)
    requires Scanned(es, -1, from, s, None)
    ensures forall i :: 0 <= i <= from ==> !Live(es, i, s)
  {
  }

  lemma HitKnows(es: seq<Entry>, at: int, from: int, s: nat, hit: nat)
    requires Scanned(es, at, from, s, Some(hit))
    ensures at < hit <= from && forall i :: hit < i <= from ==> !Live(es, i, s)
    ensures forall j :: at < j < hit ==> !Seen(es, j, s)
  {
  }

  lemma WhenLive(es: seq<Entry>, i: nat, s: nat)
    requires Live(es, i, s)
    ensures i < |es|
  {
  }

  /** The entries from `a` to `b` are of one user key. */
  ghost predicate SameUser(es: seq<Entry>, a: int, b: nat)
    requires 0 <= a && b < |es|
  {
    forall j :: a <= j <= b ==> es[j].key.user == es[b].key.user
  }

  lemma SameUserSelf(es: seq<Entry>, b: nat)
    requires b < |es|
    ensures SameUser(es, b, b)
  {
  }

  lemma SameUserAll(es: seq<Entry>, a: nat, b: nat)
    requires b < |es| && SameUser(es, a, b)
    ensures forall j :: a <= j <= b ==> es[j].key.user == es[b].key.user
  {
  }

  lemma SameUserMore(es: seq<Entry>, a: nat, b: nat)
    requires a < b < |es| && SameUser(es, a + 1, b) && es[a].key.user >= es[b].key.user
    requires forall j :: 0 <= j < b ==> es[j].key.user <= es[b].key.user
    ensures SameUser(es, a, b)
  {
  }

  lemma BeforePlace(es: seq<Entry>, at: int, was: nat)
    requires Sorted(es) && was < |es| && at < |es|
    ensures forall j :: 0 <= j < was ==> es[j].key.user <= es[was].key.user
    ensures at >= 0 && es[at].key.user < es[was].key.user ==> at < was
  {
    forall j | 0 <= j < was ensures es[j].key.user <= es[was].key.user {
      UserOrder(es, j, was);
    }
    if at >= 0 {
      UserOrder(es, at, was);
    }
  }

  /** After the live entry `was`, whether coming from it or from before it. */
  lemma ReadyAfter(es: seq<Entry>, at: nat, was: nat, s: nat)
    requires Sorted(es) && Live(es, was, s) && at <= was
    requires forall j :: at <= j < was ==> !Seen(es, j, s)
    requires forall j :: 0 <= j < at ==> es[j].key.user <= es[was].key.user
    ensures ReadyFrom(es, at, s, Some(es[was].key.user))
  {
    forall i: nat | was <= i < |es| ensures es[was].key.user <= es[i].key.user {
      UserOrder(es, was, i);
    }
  }

  /** A forward scan past `was` that ends at `end` misses nothing. */
  lemma LeastAbove(es: seq<Entry>, was: nat, at: nat, end: nat, s: nat)
    requires Sorted(es) && DistinctSequences(Elements(es)) && at <= was < |es| && end <= |es|
    requires forall i :: at <= i < end ==> !Wanted(es, i, s, Some(es[was].key.user))
    ensures forall k :: es[was].key.user < k && (end < |es| ==> k < es[end].key.user) ==> View(Elements(es), k, s) == None
  {
    forall k | es[was].key.user < k && (end < |es| ==> k < es[end].key.user) ensures View(Elements(es), k, s) == None {
      forall i: nat | Live(es, i, s) ensures es[i].key.user != k {
        UserOrder(es, i, was);
        if end < |es| {
          UserOrder(es, end, i);
        }
        assert at <= i < end ==> !Wanted(es, i, s, Some(es[was].key.user));
      }
      AbsentUnlessLive(es, s, k);
    }
  }

  /** A backward scan from below `was` that ends at `end` misses nothing. */
  lemma GreatestBelow(es: seq<Entry>, was: nat, from: int, end: int, s: nat)
    requires Sorted(es) && DistinctSequences(Elements(es)) && -1 <= end <= from < was < |es|
    requires forall i :: end < i <= from ==> !Live(es, i, s)
    requires forall i :: from < i < was && Seen(es, i, s) ==> es[i].key.user >= es[was].key.user
    ensures forall k :: k < es[was].key.user && (end >= 0 ==> es[end].key.user < k) ==> View(Elements(es), k, s) == None
  {
    forall k | k < es[was].key.user && (end >= 0 ==> es[end].key.user < k) ensures View(Elements(es), k, s) == None {
      forall i: nat | Live(es, i, s) ensures es[i].key.user != k {
        UserOrder(es, was, i);
        if end >= 0 {
          UserOrder(es, i, end);
        }
        assert end < i <= from ==> !Live(es, i, s);
      }
      AbsentUnlessLive(es, s, k);
    }
  }

  lemma SeekReady(es: seq<Entry>, at: nat, target: UserKey, s: SequenceNumber)
    requires Sorted(es) && at <= |es|
    requires forall m :: 0 <= m < |es| ==> (m < at <==> Less(es[m].key, SeekKey(target, s)))
    ensures ReadyFrom(es, at, s, None)
    ensures forall j :: 0 <= j < at && Seen(es, j, s) ==> es[j].key.user < target
    ensures forall i :: at <= i < |es| ==> target <= es[i].key.user
  {
    forall j | 0 <= j < at && Seen(es, j, s) ensures es[j].key.user < target {
      assert Less(es[j].key, SeekKey(target, s));
    }
    forall i | at <= i < |es| ensures target <= es[i].key.user {
      assert !Less(es[i].key, SeekKey(target, s));
    }
  }

  /** A forward scan from the first entry that can matter misses nothing. */
  lemma LeastFrom(es: seq<Entry>, target: Option<UserKey>, at: nat, end: nat, s: nat)
    requires Sorted(es) && DistinctSequences(Elements(es)) && at <= |es| && end <= |es|
    requires forall j :: 0 <= j < at && Seen(es, j, s) ==> target.Some? && es[j].key.user < target.value
    requires forall i :: at <= i < end ==> !Wanted(es, i, s, None)
    ensures forall k :: (target.Some? ==> target.value <= k) && (end < |es| ==> k < es[end].key.user) ==>
      View(Elements(es), k, s) == None
  {
    forall k | (target.Some? ==> target.value <= k) && (end < |es| ==> k < es[end].key.user)
      ensures View(Elements(es), k, s) == None
    {
      forall i: nat | Live(es, i, s) ensures es[i].key.user != k {
        if end < |es| {
          UserOrder(es, end, i);
        }
        assert at <= i < end ==> !Wanted(es, i, s, None);
      }
      AbsentUnlessLive(es, s, k);
    }
  }

  lemma GreatestOfAll(es: seq<Entry>, end: int, s: nat)
    requires Sorted(es) && DistinctSequences(Elements(es)) && -1 <= end < |es|
    requires forall i :: end < i < |es| ==> !Live(es, i, s)
    ensures forall k :: (end >= 0 ==> es[end].key.user < k) ==> View(Elements(es), k, s) == None
  {
    forall k | end >= 0 ==> es[end].key.user < k ensures View(Elements(es), k, s) == None {
      forall i: nat | Live(es, i, s) ensures es[i].key.user != k {
        if end >= 0 {
          UserOrder(es, i, end);
        }
        assert end < i < |es| ==> !Live(es, i, s);
      }
      AbsentUnlessLive(es, s, k);
    }
  }

  class DBIter {
    const iter: MergingIterator
    const sequence: SequenceNumber
    var savedKey: Option<UserKey> // the key to skip going forward, or the current key going backwards
    var savedValue: Bytes         // the current value going backwards
    var direction: Direction
    var valid: bool
    ghost var place: nat          // the live entry that is current

    ghost predicate Sound()
      reads this, iter, iter.children
    {
      && iter.Ok() && this as object != iter && this as object !in iter.children
      && DistinctSequences(Elements(iter.merged))
    }

    /** Where the internal iterator stands; -1 if it is not valid. */
    ghost function At(): int
      reads this, iter
    {
      if iter.Valid() then iter.at else -1
    }

    /** Going forward the internal iterator stands at the current entry. Going backwards it stands at the first
        visible entry of an earlier key, or at none. */
    ghost predicate Ok()
      reads this, iter, iter.children
    {
      && Sound()
      && (valid ==>
            && Live(iter.merged, place, sequence)
            && match direction
               case Forward => iter.Valid() && iter.at == place
               case Reverse =>
                 && savedKey == Some(iter.merged[place].key.user) && savedValue == iter.merged[place].value
                 && At() < place && (forall j :: At() < j < place ==> !Seen(iter.merged, j, sequence))
                 && (iter.Valid() ==> Seen(iter.merged, iter.at, sequence)
                                      && iter.merged[iter.at].key.user < iter.merged[place].key.user))
    }

    constructor (iter: MergingIterator, sequence: SequenceNumber)
      requires iter.Ok() && DistinctSequences(Elements(iter.merged))
      ensures Ok() && !valid && this.iter == iter && this.sequence == sequence
    {
      this.iter, this.sequence, savedKey, savedValue, direction, valid := iter, sequence, None, [], Forward, false;
    }

    /** Goes forward to the first entry wanted. */
    method FindNextUserEntry(skip: Option<UserKey>)
      requires Sound() && iter.Valid() && direction == Forward
      requires ReadyFrom(iter.merged, iter.at, sequence, skip)
      modifies this, iter, iter.children
      ensures Ok() && (valid ==> direction == Forward && old(iter.at) <= place && Wanted(iter.merged, place, sequence, skip))
      ensures forall i :: old(iter.at) <= i < (if valid then place else |iter.merged|) ==> !Wanted(iter.merged, i, sequence, skip)
    {
      hide MergingIterator.Ok, Scanning, ReadyFrom, Live, Wanted;
      ghost var from, es := iter.at, iter.merged;
      var skipping := skip;
      iter.WhenOk();
      ScanBegins(es, from, skip, sequence);
      while true
        invariant Sound() && iter.Valid() && iter.at < |es| && direction == Forward
        invariant Scanning(es, from, skip, iter.at, skipping, sequence)
        decreases |es| - iter.at
      {
        ghost var at, skipped := iter.at, skipping;
        iter.WhenOk();
        var e := iter.Current();
        if e.key.sequence <= sequence {
          match e.key.kind
          case Deletion =>
            skipping := Some(e.key.user);
          case Value =>
            if skipping.Some? && e.key.user <= skipping.value {
              // hidden
            } else {
              ScanKnows(es, from, skip, at, skipping, sequence);
              YieldsNext(es, from, skip, at, skipping, sequence);
              valid, savedKey, place := true, None, at;
              return;
            }
        }
        PassesBy(es, from, skip, at, skipped, sequence);
        iter.Next();
        if !iter.Valid() {
          ScanKnows(es, from, skip, at + 1, skipping, sequence);
          break;
        }
      }
      savedKey, valid := None, false;
    }

    /** Scans down to a visible entry of an earlier key than the value saved, or to the beginning. */
    method ScanBackward() returns (found: bool, ghost hit: Option<nat>)
      requires Sound() && direction == Reverse && iter.Valid()
      modifies this`savedKey, this`savedValue, iter, iter.children
      ensures Sound() && -1 <= At() <= old(iter.at) < |iter.merged|
      ensures Scanned(iter.merged, At(), old(iter.at), sequence, hit) && (found <==> hit.Some?)
      ensures !found ==> At() == -1
      ensures found ==> hit.value < |iter.merged| && savedKey == Some(iter.merged[hit.value].key.user)
      ensures found ==> savedValue == iter.merged[hit.value].value
      ensures found && At() >= 0 ==> Seen(iter.merged, At(), sequence)
                                     && iter.merged[At()].key.user < iter.merged[hit.value].key.user
    {
      hide MergingIterator.Ok, Scanned, Live;
      ghost var es, from := iter.merged, iter.at;
      found, hit := false, None; // value_type is a deletion
      iter.WhenOk();
      ScanDown(es, from, sequence);
      while true
        invariant Sound() && iter.Valid() && iter.at < |es| && iter.at <= from
        invariant Scanned(es, iter.at, from, sequence, hit) && (found <==> hit.Some?)
        invariant found ==> hit.value < |es| && savedKey == Some(es[hit.value].key.user) && savedValue == es[hit.value].value
        decreases iter.at
      {
        iter.WhenOk();
        var e := iter.Current();
        if e.key.sequence <= sequence && found && e.key.user < savedKey.value {
          return;
        }
        ScansOn(es, iter.at, from, sequence, hit);
        if e.key.sequence <= sequence {
          found := e.key.kind.Value?;
          hit := if found then Some(iter.at) else None;
          savedKey := if found then Some(e.key.user) else None;
          savedValue := if found then e.value else [];
        }
        iter.Prev();
        iter.WhenOk();
        if !iter.Valid() {
          return;
        }
      }
    }

    /** Goes backwards to the last live entry up to where the internal iterator stands. */
    method FindPrevUserEntry()
      requires Sound() && direction == Reverse
      modifies this, iter, iter.children
      ensures Ok() && (valid ==> direction == Reverse && place <= old(At()))
      ensures forall i :: (if valid then place else -1) < i <= old(At()) ==> !Live(iter.merged, i, sequence)
    {
      hide MergingIterator.Ok, Scanned, Live;
      ghost var es, from, hit: Option<nat> := iter.merged, At(), None;
      var found := false;
      if iter.Valid() {
        found, hit := ScanBackward();
      }
      if found {
        iter.WhenOk();
        ScanEnds(es, At(), from, sequence, hit);
        HitKnows(es, At(), from, sequence, hit.value);
        valid, place := true, hit.value;
      } else {
        if from >= 0 {
          NoHit(es, from, sequence);
        }
        valid, savedKey, savedValue, direction := false, None, [], Forward;
      }
    }

    function Key(): UserKey
      requires Ok() && valid
      reads this, iter, iter.children
      ensures Key() == iter.merged[place].key.user
    {
      match direction
      case Forward => iter.Current().key.user
      case Reverse => savedKey.value
    }

    function Value(): Bytes
      requires Ok() && valid
      reads this, iter, iter.children
      ensures Value() == iter.merged[place].value
    {
      match direction
      case Forward => iter.Current().value
      case Reverse => savedValue
    }

    /** What the reader's snapshot holds for `k`. */
    ghost function Read(k: UserKey): Option<Bytes> {
      View(Elements(iter.merged), k, sequence)
    }

    /** The current pair is one that the snapshot holds. */
    lemma YieldsRead()
      requires Ok() && valid
      ensures Read(Key()) == Some(Value())
    {
      LiveIsView(iter.merged, place, sequence);
    }

    /** To the next key of the snapshot, or to none if there is no later one. */
    method Next()
      requires Ok() && valid
      modifies this, iter, iter.children
      ensures Ok() && (valid ==> old(Key()) < Key() && Read(Key()) == Some(Value()))
      ensures forall k :: old(Key()) < k && (valid ==> k < Key()) ==> Read(k) == None
    {
      hide MergingIterator.Ok, Scanning, ReadyFrom, Live;
      ghost var es, was := iter.merged, place;
      iter.WhenOk();
      WhenLive(es, was, sequence);
      var key;
      if direction == Reverse {
        direction := Forward;
        key := savedKey.value;
        if !iter.Valid() {
          iter.SeekToFirst();
        } else {
          iter.Next();
        }
        iter.WhenOk();
        BeforePlace(es, old(At()), was);
      } else {
        key := iter.Current().key.user;
        BeforePlace(es, -1, was);
      }
      if !iter.Valid() {
        assert false; // the entry left a moment ago is still ahead
      } else {
        ghost var at := iter.at;
        ReadyAfter(es, at, was, sequence);
        FindNextUserEntry(Some(key));
        if valid {
          WhenLive(es, place, sequence);
          YieldsRead();
        }
        LeastAbove(es, was, at, if valid then place else |es|, sequence);
      }
    }

    /** One step back from an entry of the key at `was`: to another one of that key, or past all of them. */
    method StepBack(ghost was: nat)
      requires Sound() && iter.Valid() && iter.at <= was < |iter.merged| && SameUser(iter.merged, iter.at, was)
      modifies iter, iter.children
      ensures Sound() && At() == old(iter.at) - 1
      ensures iter.Valid() && iter.merged[iter.at].key.user >= iter.merged[was].key.user ==> SameUser(iter.merged, iter.at, was)
    {
      hide MergingIterator.Ok, SameUser;
      ghost var es, from := iter.merged, iter.at;
      iter.Prev();
      if iter.Valid() {
        iter.WhenOk();
        BeforePlace(es, iter.at, was);
        if es[iter.at].key.user >= es[was].key.user {
          SameUserMore(es, iter.at, was);
        }
      }
    }

    /** Steps back over the entries of the current key. */
    method LeaveCurrentKey()
      requires Ok() && valid && direction == Forward
      modifies this`savedKey, iter, iter.children
      ensures Sound() && savedKey == Some(iter.merged[place].key.user) && At() < place
      ensures forall j :: At() < j <= place ==> iter.merged[j].key.user == iter.merged[place].key.user
      ensures iter.Valid() ==> iter.merged[iter.at].key.user < iter.merged[place].key.user
    {
      hide MergingIterator.Ok, Live, SameUser;
      ghost var es := iter.merged;
      iter.WhenOk();
      SameUserSelf(es, place);
      savedKey := Some(iter.Current().key.user);
      while true
        invariant Sound() && iter.Valid() && iter.at <= place < |es| && savedKey == Some(es[place].key.user)
        invariant SameUser(es, iter.at, place)
        decreases iter.at
        modifies iter, iter.children
      {
        SameUserAll(es, iter.at, place);
        StepBack(place);
        if !iter.Valid() {
          return;
        }
        iter.WhenOk();
        if iter.Current().key.user < savedKey.value {
          return;
        }
      }
    }

    /** Turns round: the internal iterator leaves the entries of the current key backwards, unless there are no others. */
    method TurnBack() returns (ended: bool)
      requires Ok() && valid && direction == Forward
      modifies this`savedKey, this`direction, iter, iter.children
      ensures Sound() && At() < place && (ended <==> !iter.Valid()) && (!ended ==> direction == Reverse)
      ensures !ended ==> iter.merged[iter.at].key.user < iter.merged[place].key.user
      ensures forall i :: At() < i < place && Seen(iter.merged, i, sequence) ==>
        iter.merged[i].key.user >= iter.merged[place].key.user
    {
      hide MergingIterator.Ok, Live, Seen;
      LeaveCurrentKey();
      ended := !iter.Valid();
      if !ended {
        direction := Reverse;
      }
    }

    /** To the previous key of the snapshot, or to none if there is no earlier one. */
    method Prev()
      requires Ok() && valid
      modifies this, iter, iter.children
      ensures Ok() && (valid ==> Key() < old(Key()) && Read(Key()) == Some(Value()))
      ensures forall k :: k < old(Key()) && (valid ==> Key() < k) ==> Read(k) == None
    {
      hide MergingIterator.Ok, Scanned, Live;
      ghost var es, was := iter.merged, place;
      iter.WhenOk();
      WhenLive(es, was, sequence);
      if direction == Forward {
        var ended := TurnBack();
        if ended {
          GreatestBelow(es, was, -1, -1, sequence);
          valid, savedKey, savedValue := false, None, [];
          return;
        }
      }
      ghost var from := At();
      FindPrevUserEntry();
      if valid {
        UserOrder(es, place, from);
        assert es[place].key.user < es[was].key.user;
        WhenLive(es, place, sequence);
        YieldsRead();
      }
      GreatestBelow(es, was, from, if valid then place else -1, sequence);
    }

    method Seek(target: UserKey)
      requires Ok()
      modifies this, iter, iter.children
      ensures Ok() && (valid ==> target <= Key() && Read(Key()) == Some(Value()))
      ensures forall k :: target <= k && (valid ==> k < Key()) ==> Read(k) == None
    {
      hide MergingIterator.Ok, Scanning, ReadyFrom, Live;
      ghost var es := iter.merged;
      direction, savedValue, savedKey := Forward, [], None;
      iter.Seek(SeekKey(target, sequence));
      iter.WhenOk();
      ghost var at := if iter.Valid() then iter.at else |es|;
      SeekReady(es, at, target, sequence);
      if iter.Valid() {
        FindNextUserEntry(None);
        if valid {
          WhenLive(es, place, sequence);
          YieldsRead();
        }
      } else {
        valid := false;
      }
      LeastFrom(es, Some(target), at, if valid then place else |es|, sequence);
    }

    method SeekToFirst()
      requires Ok()
      modifies this, iter, iter.children
      ensures Ok() && (valid ==> Read(Key()) == Some(Value()))
      ensures forall k :: (valid ==> k < Key()) ==> Read(k) == None
    {
      hide MergingIterator.Ok, Scanning, Live;
      ghost var es := iter.merged;
      direction, savedValue := Forward, [];
      iter.SeekToFirst();
      iter.WhenOk();
      if iter.Valid() {
        FindNextUserEntry(None);
        if valid {
          WhenLive(es, place, sequence);
          YieldsRead();
        }
      } else {
        valid := false;
      }
      LeastFrom(es, None, 0, if valid then place else |es|, sequence);
    }

    method SeekToLast()
      requires Ok()
      modifies this, iter, iter.children
      ensures Ok() && (valid ==> Read(Key()) == Some(Value()))
      ensures forall k :: (valid ==> Key() < k) ==> Read(k) == None
    {
      hide MergingIterator.Ok, Scanned, Live;
      ghost var es := iter.merged;
      direction, savedValue := Reverse, [];
      iter.SeekToLast();
      iter.WhenOk();
      FindPrevUserEntry();
      if valid {
        WhenLive(es, place, sequence);
        YieldsRead();
      }
      GreatestOfAll(es, if valid then place else -1, sequence);
    }
  }
}
