/** What readers see of acknowledged writes: all of them at once, and through a snapshot those acknowledged when it was
    taken, until it is released (db/db_impl.cc, db/snapshot.h). */
module AcknowledgedReads {
  import opened Wrappers
  import opened ByteStrings
  import opened InternalKeys
  import opened CompactionReads
  import opened Database
  import opened Invariant
  import opened Runs
  import Comparators
  import W = WriteBatches

  /** The newest acknowledged write of a key, whatever its sequence number. */
  ghost function Acknowledged(db: DB, k: UserKey): Option<Bytes> {
    View(db.Written(), k, MAX_SEQUENCE)
  }

  /** Everything acknowledged is at or below the last sequence number. */
  lemma PresentSeesAll(db: DB, k: UserKey)
    requires Sequenced(db)
    ensures View(db.Written(), k, db.lastSequence) == Acknowledged(db, k)
  {
    SameVisibleSameView(db.Written(), db.Written(), k, db.lastSequence, MAX_SEQUENCE);
  }

  // ---- writes ----

  /** What a key holds after these records, if it held `before`. */
  function Updated(records: seq<W.Record>, k: Bytes, before: Option<Bytes>): Option<Bytes> {
    if records == [] then before
    else match records[|records| - 1] {
      case Put(key, value) => if key == k then Some(value) else Updated(records[..|records| - 1], k, before)
      case Delete(key) => if key == k then None else Updated(records[..|records| - 1], k, before)
    }
  }

  ghost function Stamped(records: seq<W.Record>, first: nat): iset<Entry>
    requires first + |records| <= MAX_SEQUENCE
  {
    iset e | e in Stamp(OpsOf(records), first)
  }

  lemma StampFront(records: seq<W.Record>, first: nat)
    requires records != [] && first + |records| <= MAX_SEQUENCE
    ensures var n := |records| - 1;
            Stamped(records, first) == Stamped(records[..n], first) + iset{EntryOf(OpOf(records[n]), first + n)}
  {
    var n := |records| - 1;
    var all, front := Stamp(OpsOf(records), first), Stamp(OpsOf(records[..n]), first);
    assert OpsOf(records)[..n] == OpsOf(records[..n]);
    assert all == front + [EntryOf(OpOf(records[n]), first + n)];
  }

  /** Newer records take effect in order over what was there. */
  lemma {:induction false} StampedOver(es: iset<Entry>, records: seq<W.Record>, first: nat, k: Bytes)
    requires first + |records| <= MAX_SEQUENCE && DistinctSequences(es + Stamped(records, first))
    requires forall e :: e in es ==> e.key.sequence < first
    ensures View(es + Stamped(records, first), Comparators.Rank(k), MAX_SEQUENCE) ==
            Updated(records, k, View(es, Comparators.Rank(k), MAX_SEQUENCE))
  {
    hide Comparators.Rank, View, Stamp, OpsOf;
    if records == [] {
      assert es + Stamped(records, first) == es;
    } else {
      var n := |records| - 1;
      var last := EntryOf(OpOf(records[n]), first + n);
      StampFront(records, first);
      var before := es + Stamped(records[..n], first);
      assert es + Stamped(records, first) == before + iset{last};
      SubsetIsDistinct(before, before + iset{last});
      StampedOver(es, records[..n], first, k);
      StampedBelow(records[..n], first);
      Comparators.RankEmbedsCompare(records[n].key, k);
      hide Stamped;
      OneMore(before, last, Comparators.Rank(k));
    }
  }

  lemma StampedBelow(records: seq<W.Record>, first: nat)
    requires first + |records| <= MAX_SEQUENCE
    ensures forall e :: e in Stamped(records, first) ==> e.key.sequence < first + |records|
  {
  }

  lemma OneMore(before: iset<Entry>, last: Entry, k: UserKey)
    requires DistinctSequences(before + iset{last}) && forall e :: e in before ==> e.key.sequence < last.key.sequence
    ensures View(before + iset{last}, k, MAX_SEQUENCE) ==
            if last.key.user == k then Meaning(last) else View(before, k, MAX_SEQUENCE)
  {
    if last.key.user == k {
      assert Newest(before + iset{last}, k, MAX_SEQUENCE, last);
      ViewOfNewest(before + iset{last}, k, MAX_SEQUENCE, last);
    } else {
      SubsetIsDistinct(before, before + iset{last});
      SameVisibleSameView(before + iset{last}, before, k, MAX_SEQUENCE, MAX_SEQUENCE);
    }
  }

  /** The end of a write makes all its records visible at once, in their order, and changes no other key. */
  lemma WriteIsSeen(db: DB, records: seq<W.Record>, db': DB, k: Bytes)
    requires Inv(db) && Next(db, EndWrite, db') && db.lastSequence + 1 + |records| <= MAX_SEQUENCE
    requires db.inflight == Some(Stamp(OpsOf(records), db.lastSequence + 1))
    ensures var key := Comparators.Rank(k);
            && Acknowledged(db', key) == Updated(records, k, Acknowledged(db, key))
            && View(db'.Stored(), key, db'.lastSequence) == Updated(records, k, View(db.Stored(), key, db.lastSequence))
  {
    hide Comparators.Rank, View, Stamp, OpsOf, Updated;
    StepKeepsInv(db, EndWrite, db');
    EndWriteContents(db, db');
    var key, b := Comparators.Rank(k), Stamped(records, db.lastSequence + 1);
    assert db'.Written() == db.Written() + b;
    PresentSeesAll(db, key);
    PresentSeesAll(db', key);
    assert Readable(db, db.lastSequence) && Readable(db', db'.lastSequence);
    StampedOver(db.Written(), records, db.lastSequence + 1, k);
  }

  // ---- snapshots ----

  lemma TakenIsPresent(db: DB, db': DB)
    requires Next(db, TakeSnapshot, db')
    ensures |db'.snapshots| == |db.snapshots| + 1 && db.snapshots <= db'.snapshots
    ensures db'.snapshots[|db.snapshots|] == db.lastSequence && db'.Stored() == db.Stored()
  {
  }

  /** A new snapshot comes after those that are there, and reads of every key its newest acknowledged write. */
  lemma TakenSeesAcknowledged(db: DB, db': DB, k: UserKey)
    requires Inv(db) && Next(db, TakeSnapshot, db')
    ensures |db'.snapshots| == |db.snapshots| + 1 && db.snapshots <= db'.snapshots
    ensures View(db'.Stored(), k, db'.snapshots[|db.snapshots|]) == Acknowledged(db, k)
  {
    TakenIsPresent(db, db');
    hide Inv, Next;
    PresentSeesAll(db, k);
  }

  /** Where the snapshot at place `p` of the list stands after a step: releasing it takes it out, and so does a crash. */
  function PlaceAfter(step: Step, p: nat): Option<nat> {
    match step
    case ReleaseSnapshot(i) => if i == p then None else if i < p then Some(p - 1) else Some(p)
    case Reopen(_, _, _) => None
    case _ => Some(p)
  }

  /** A step keeps every snapshot that it does not release, with what it reads. */
  lemma StepKeepsSnapshot(db: DB, step: Step, db': DB, p: nat, k: UserKey)
    requires Inv(db) && Next(db, step, db') && Guarded(db, step)
    requires p < |db.snapshots| && PlaceAfter(step, p).Some?
    ensures var q := PlaceAfter(step, p).value;
            && q < |db'.snapshots| && db'.snapshots[q] == db.snapshots[p]
            && View(db'.Stored(), k, db'.snapshots[q]) == View(db.Stored(), k, db.snapshots[p])
  {
    PlaceIsKept(db, step, db', p);
    hide Inv, Next, Guarded;
    assert db.snapshots[p] in db.snapshots && db'.snapshots[PlaceAfter(step, p).value] in db'.snapshots;
    SnapshotIsStable(db, step, db', k, db.snapshots[p]);
  }

  lemma PlaceIsKept(db: DB, step: Step, db': DB, p: nat)
    requires Next(db, step, db') && p < |db.snapshots| && PlaceAfter(step, p).Some?
    ensures var q := PlaceAfter(step, p).value; q < |db'.snapshots| && db'.snapshots[q] == db.snapshots[p]
  {
  }

  /** Releasing a snapshot takes out that one: the others are all there, and read what they read. */
  lemma ReleaseTakesOne(db: DB, i: nat, db': DB, p: nat, k: UserKey)
    requires Inv(db) && Next(db, ReleaseSnapshot(i), db') && p < |db.snapshots| && p != i
    ensures |db'.snapshots| == |db.snapshots| - 1
    ensures var q := if p < i then p else p - 1;
            View(db'.Stored(), k, db'.snapshots[q]) == View(db.Stored(), k, db.snapshots[p])
  {
    hide Inv;
    StepKeepsSnapshot(db, ReleaseSnapshot(i), db', p, k);
  }

  /** Where the snapshot that step `i` takes at place `p` stands in state `j`, if it is still held. */
  function Place(steps: seq<Step>, i: nat, p: nat, j: nat): Option<nat>
    requires i < j <= |steps|
  {
    if j == i + 1 then Some(p)
    else match Place(steps, i, p, j - 1) {
      case None => None
      case Some(q) => PlaceAfter(steps[j - 1], q)
    }
  }

  /** Over every guarded run, for as long as a snapshot is held, it reads of every key the write that was the newest
      acknowledged one when it was taken. */
  lemma {:induction false} SnapshotSeesItsMoment(states: seq<DB>, steps: seq<Step>, i: nat, j: nat, k: UserKey)
    requires IsRun(states, steps) && i < j < |states| && steps[i].TakeSnapshot?
    requires forall m :: 0 <= m < |steps| ==> Guarded(states[m], steps[m])
    requires Place(steps, i, |states[i].snapshots|, j).Some?
    ensures var q := Place(steps, i, |states[i].snapshots|, j).value;
            && q < |states[j].snapshots|
            && View(states[j].Stored(), k, states[j].snapshots[q]) == Acknowledged(states[i], k)
    decreases j
  {
    hide Inv, Guarded, Next, Acknowledged;
    if j == i + 1 {
      RunReadsHistory(states, steps, i);
      TakenSeesAcknowledged(states[i], states[j], k);
    } else {
      SnapshotSeesItsMoment(states, steps, i, j - 1, k);
      RunReadsHistory(states, steps, j - 1);
      StepKeepsSnapshot(states[j - 1], steps[j - 1], states[j], Place(steps, i, |states[i].snapshots|, j - 1).value, k);
    }
  }
}
