/** Internal keys, entries and the read specification (db/dbformat.h, db/dbformat.cc). */
module InternalKeys {
  import opened Wrappers
  import opened ByteStrings

  /** User keys are represented by their rank in the user comparator's order. Byte strings are
      countable, so every comparator order embeds in the reals; `Comparators.RankEmbedsCompare`
      exhibits the embedding for the default bytewise comparator. */
  type UserKey = real

  datatype ValueType = Deletion | Value

  // Eight bits of the packed tag are reserved for the type, so sequence numbers have 56.
  const MAX_SEQUENCE: nat := 0xFF_FFFF_FFFF_FFFF

  type SequenceNumber = x: nat | x <= MAX_SEQUENCE

  datatype Key = Key(user: UserKey, sequence: SequenceNumber, kind: ValueType)

  datatype Entry = Entry(key: Key, value: Bytes)

  /** The sequence number and the type packed into one number. */
  function Tag(k: Key): nat {
    k.sequence * 256 + if k.kind.Value? then 1 else 0
  }

  /** Increasing user key, then decreasing tag. */
  predicate Less(a: Key, b: Key) {
    a.user < b.user || (a.user == b.user && Tag(a) > Tag(b))
  }

  predicate AtMost(a: Key, b: Key) {
    !Less(b, a)
  }

  /** The key a reader at sequence `s` seeks to: it precedes exactly the entries of `k` it may see. */
  function SeekKey(k: UserKey, s: SequenceNumber): Key {
    Key(k, s, Value)
  }

  lemma LessIsStrictTotalOrder(a: Key, b: Key, c: Key)
    ensures !Less(a, a)
    ensures Less(a, b) || a == b || Less(b, a)
    ensures Less(a, b) ==> !Less(b, a)
    ensures Less(a, b) && Less(b, c) ==> Less(a, c)
  {
    if a.user == b.user && Tag(a) == Tag(b) {
      assert a.sequence == b.sequence;
    }
  }

  predicate Sorted(es: seq<Entry>) {
    forall i, j :: 0 <= i < j < |es| ==> Less(es[i].key, es[j].key)
  }

  // ---- what a reader at a sequence number should see ----

  ghost function Elements(es: seq<Entry>): iset<Entry> {
    iset e | e in es
  }

  ghost predicate Visible(es: iset<Entry>, k: UserKey, s: nat, e: Entry) {
    e in es && e.key.user == k && e.key.sequence <= s
  }

  /** `e` is the newest entry of `k` that a reader at `s` may see. */
  ghost predicate Newest(es: iset<Entry>, k: UserKey, s: nat, e: Entry) {
    Visible(es, k, s, e) && forall f :: Visible(es, k, s, f) ==> f.key.sequence <= e.key.sequence
  }

  /** A sequence number names at most one write. */
  ghost predicate DistinctSequences(es: iset<Entry>) {
    forall e, f :: e in es && f in es && e.key.sequence == f.key.sequence ==> e == f
  }

  /** The specification of a read: the value of the newest visible entry, or absent. */
  ghost function View(es: iset<Entry>, k: UserKey, s: nat): Option<Bytes> {
    if exists e :: Newest(es, k, s, e) then
      var e :| Newest(es, k, s, e);
      if e.key.kind.Value? then Some(e.value) else None
    else None
  }

  /** The value a single entry stands for. */
  function Meaning(e: Entry): Option<Bytes> {
    if e.key.kind.Value? then Some(e.value) else None
  }

  lemma ViewOfNewest(es: iset<Entry>, k: UserKey, s: nat, e: Entry)
    requires DistinctSequences(es) && Newest(es, k, s, e)
    ensures View(es, k, s) == Meaning(e)
  {
    var f: Entry :| Newest(es, k, s, f) && View(es, k, s) == Meaning(f);
    assert Newest(es, k, s, f);
  }

  /** Whenever something is visible, something is newest. */
  lemma {:induction false} NewestExists(es: iset<Entry>, k: UserKey, s: nat, e: Entry)
    requires Visible(es, k, s, e)
    ensures exists f :: Newest(es, k, s, f)
    decreases s
  {
    if f :| Visible(es, k, s, f) && f.key.sequence == s {
      assert Newest(es, k, s, f);
    } else {
      assert Visible(es, k, s - 1, e);
      NewestExists(es, k, s - 1, e);
      var g :| Newest(es, k, s - 1, g);
      assert Newest(es, k, s, g) by {
        forall h | Visible(es, k, s, h) ensures h.key.sequence <= g.key.sequence {
          assert Visible(es, k, s - 1, h);
        }
      }
    }
  }

  /** `d` may be thrown away without readers at `s` noticing: either a newer entry of the same key
      that `s` can see remains to hide it, or it is a tombstone and nothing older of its key remains. */
  ghost predicate Redundant(before: iset<Entry>, after: iset<Entry>, s: nat, d: Entry) {
    || (exists e :: e in before && e.key.user == d.key.user && d.key.sequence < e.key.sequence <= s)
    || (d.key.kind.Deletion?
        && forall e :: e in after && e.key.user == d.key.user ==> d.key.sequence < e.key.sequence)
  }

  /** Dropping redundant entries leaves every read at `s` unchanged. */
  lemma DroppingRedundantKeepsView(before: iset<Entry>, after: iset<Entry>, k: UserKey, s: nat)
    requires DistinctSequences(before) && after <= before
    requires forall d :: Visible(before, k, s, d) && d !in after ==> Redundant(before, after, s, d)
    ensures View(after, k, s) == View(before, k, s)
  {
    assert forall f :: Visible(after, k, s, f) ==> Visible(before, k, s, f);
    if e :| Newest(before, k, s, e) {
      ViewOfNewest(before, k, s, e);
      if e in after {
        assert Newest(after, k, s, e);
        ViewOfNewest(after, k, s, e);
      } else {
        // nothing newer hides `e`, so it is a tombstone with nothing older left
        assert forall f :: f in before && f.key.user == k && e.key.sequence < f.key.sequence ==> !Visible(before, k, s, f);
        assert forall f :: !Visible(after, k, s, f);
        assert forall f :: Newest(after, k, s, f) ==> Visible(after, k, s, f);
      }
    } else {
      forall f ensures !Newest(after, k, s, f) {
        assert Newest(after, k, s, f) ==> Visible(before, k, s, f);
        if Visible(before, k, s, f) {
          NewestExists(before, k, s, f);
          assert false;
        }
      }
    }
  }

  /** Entries above the snapshot do not matter to it. */
  lemma NewerEntriesAreInvisible(es: iset<Entry>, more: iset<Entry>, k: UserKey, s: nat)
    requires DistinctSequences(es + more)
    requires forall e :: e in more ==> s < e.key.sequence
    ensures View(es + more, k, s) == View(es, k, s)
  {
    DroppingRedundantKeepsView(es + more, es, k, s);
  }
}
