/** A memtable as a skip list of arena records, and what iterators and reads over it see (db/memtable.cc). */
module Memtables {
  import opened Wrappers
  import opened ByteStrings
  import opened InternalKeys
  import opened Database
  import opened ManifestVersions
  import opened TableLookups
  import B = Blocks
  import C = Comparators
  import Coding
  import Runs
  import S = SkipLists
  import V = Versions
  import W = WriteBatches

  // ---- internal keys as ranks ----

  /** The position of a user key followed by more: in base 257, where 0 ends the user key. */
  ghost function RankThen(user: Bytes, tail: real): (r: real)
    requires 0.0 <= tail < 1.0
    ensures 0.0 <= r < 1.0
  {
    if user == [] then tail / 257.0 else (user[0] as real + 1.0 + RankThen(user[1..], tail)) / 257.0
  }

  lemma {:induction false} BeforeRaisesRankThen(a: Bytes, x: real, b: Bytes, y: real)
    requires C.Before(a, b) && 0.0 <= x < 1.0 && 0.0 <= y < 1.0
    ensures RankThen(a, x) < RankThen(b, y)
    decreases |a|
  {
    if a != [] && a[0] == b[0] {
      BeforeRaisesRankThen(a[1..], x, b[1..], y);
    }
  }

  lemma {:induction false} TailRaisesRankThen(user: Bytes, x: real, y: real)
    requires 0.0 <= x < y < 1.0
    ensures RankThen(user, x) < RankThen(user, y)
  {
    if user != [] {
      TailRaisesRankThen(user[1..], x, y);
    }
  }

  /** Larger tags come first. */
  ghost function TagRank(tag: nat): (r: real)
    requires tag < Coding.WORD64
    ensures 0.0 <= r < 1.0
  {
    (Coding.WORD64 - 1 - tag) as real / Coding.WORD64 as real
  }

  lemma TagRankFalls(s: nat, t: nat)
    requires s < t < Coding.WORD64
    ensures TagRank(t) < TagRank(s)
  {
  }

  /** The position of an internal key among all internal keys, which is the key of its skip list node. */
  ghost function InternalRank(k: Bytes): (r: S.Rank)
    requires IsKey(k)
  {
    RankThen(C.UserPart(k), TagRank(C.TagPart(k)))
  }

  lemma KeyBeforeRaisesRank(a: Bytes, b: Bytes)
    requires IsKey(a) && IsKey(b) && C.KeyBefore(a, b)
    ensures InternalRank(a) < InternalRank(b)
  {
    hide C.TagPart, C.UserPart, RankThen, TagRank;
    var x, y := TagRank(C.TagPart(a)), TagRank(C.TagPart(b));
    if C.Before(C.UserPart(a), C.UserPart(b)) {
      BeforeRaisesRankThen(C.UserPart(a), x, C.UserPart(b), y);
    } else {
      TagRankFalls(C.TagPart(b), C.TagPart(a));
      TailRaisesRankThen(C.UserPart(a), x, y);
    }
  }

  predicate SameKey(a: Bytes, b: Bytes) {
    C.UserPart(a) == C.UserPart(b) && C.TagPart(a) == C.TagPart(b)
  }

  /** Ordering the nodes by rank is what the memtable's KeyComparator does. */
  lemma InternalRankEmbedsOrder(a: Bytes, b: Bytes)
    requires IsKey(a) && IsKey(b)
    ensures C.KeyBefore(a, b) <==> InternalRank(a) < InternalRank(b)
    ensures SameKey(a, b) <==> InternalRank(a) == InternalRank(b)
  {
    hide InternalRank, IsKey;
    OneOfThree(a, b);
    if C.KeyBefore(a, b) {
      KeyBeforeRaisesRank(a, b);
    } else if C.KeyBefore(b, a) {
      KeyBeforeRaisesRank(b, a);
    } else {
      SameRank(a, b);
    }
  }

  lemma OneOfThree(a: Bytes, b: Bytes)
    ensures C.KeyBefore(a, b) || SameKey(a, b) || C.KeyBefore(b, a)
    ensures SameKey(a, b) ==> !C.KeyBefore(a, b) && !C.KeyBefore(b, a)
    ensures !(C.KeyBefore(a, b) && C.KeyBefore(b, a))
  {
    hide C.TagPart, C.UserPart, C.Rank;
    C.KeyOrder(a, b);
    C.KeyOrder(b, a);
    C.RankEmbedsCompare(C.UserPart(a), C.UserPart(b));
  }

  lemma SameRank(a: Bytes, b: Bytes)
    requires IsKey(a) && IsKey(b) && SameKey(a, b)
    ensures InternalRank(a) == InternalRank(b)
  {
  }

  // ---- records ----

  /** MemTable::Add: the internal key and the value, as the arena holds them. */
  function RecordOf(a: W.Addition): B.Entry
    requires a.sequence <= MAX_SEQUENCE
  {
    match a.record
    case Put(k, v) => B.Entry(k + Coding.Fixed64(a.sequence * 256 + W.TYPE_VALUE), v)
    case Delete(k) => B.Entry(k + Coding.Fixed64(a.sequence * 256 + W.TYPE_DELETION), [])
  }

  ghost function Added(a: W.Addition): Entry
    requires a.sequence <= MAX_SEQUENCE
  {
    EntryOf(OpOf(a.record), a.sequence)
  }

  lemma KeyParts(user: Bytes, tag: nat)
    requires tag < Coding.WORD64
    ensures C.UserPart(user + Coding.Fixed64(tag)) == user && C.TagPart(user + Coding.Fixed64(tag)) == tag
  {
    hide Coding.Fixed64, Coding.DecodeFixed64;
    Coding.Fixed64RoundTrip(tag);
    var bytes := Coding.Fixed64(tag);
    assert (user + bytes)[|user|..] == bytes && (user + bytes)[..|user|] == user;
  }

  /** The bytes of a record stand for its entry. */
  lemma RecordIsEntry(a: W.Addition)
    requires a.sequence <= MAX_SEQUENCE
    ensures IsKey(RecordOf(a).key) && Ranked(RecordOf(a)) == Added(a)
  {
    hide Coding.Fixed64, C.TagPart, C.UserPart, C.Rank;
    KeyParts(a.record.key, a.sequence * 256 + if a.record.Put? then 1 else 0);
  }

  ghost predicate InRange(adds: seq<W.Addition>) {
    forall a :: a in adds ==> a.sequence <= MAX_SEQUENCE
  }

  ghost function Entries(adds: seq<W.Addition>): (es: seq<Entry>)
    requires InRange(adds)
    ensures |es| == |adds| && forall i :: 0 <= i < |es| ==> es[i] == Added(adds[i])
  {
    seq(|adds|, i requires 0 <= i < |adds| => Added(adds[i]))
  }

  function Joined(log: seq<Batch>): (es: seq<Entry>)
    ensures forall e :: e in es <==> InLog(log, e)
  {
    if log == [] then []
    else
      assert log == log[..|log| - 1] + [log[|log| - 1]];
      Joined(log[..|log| - 1]) + log[|log| - 1]
  }

  /** Inserting a batch adds the group of writes that the log record stands for. */
  lemma ApplyKeepsJoined(log: seq<Batch>, adds: seq<W.Addition>, records: seq<W.Record>, first: nat)
    requires InRange(adds) && Joined(log) == Entries(adds) && first + |records| <= MAX_SEQUENCE
    ensures var more := adds + W.Numbered(records, first);
            InRange(more) && Joined(log + [Stamp(OpsOf(records), first)]) == Entries(more)
  {
    var b, more := Stamp(OpsOf(records), first), adds + W.Numbered(records, first);
    forall a | a in more ensures a.sequence <= MAX_SEQUENCE {
    }
    assert (log + [b])[..|log|] == log;
    assert Joined(log + [b]) == Joined(log) + b;
    assert Entries(more) == Entries(adds) + b;
  }

  // ---- the nodes of the list are the records added ----

  ghost function RankOf(a: W.Addition): S.Rank
    requires a.sequence <= MAX_SEQUENCE
  {
    RecordIsEntry(a);
    InternalRank(RecordOf(a).key)
  }

  /** Node n holds the n-th record added. */
  ghost predicate Holds(s: S.List, adds: seq<W.Addition>) {
    && InRange(adds) && |s.nodes| == |adds| + 1
    && forall n :: 1 <= n < |s.nodes| ==> s.nodes[n].key == RankOf(adds[n - 1])
  }

  /** The keys inserted, in order. */
  function Inserted(steps: seq<S.Step>): seq<S.Rank> {
    if steps == [] then []
    else
      var front, last := Inserted(steps[..|steps| - 1]), steps[|steps| - 1];
      if last.BeginInsert? then front + [last.key] else front
  }

  function NodeKeys(s: S.List): (r: seq<S.Rank>)
    ensures |s.nodes| > 0 ==> |r| == |s.nodes| - 1 && forall i :: 0 <= i < |r| ==> r[i] == s.nodes[i + 1].key
  {
    if |s.nodes| == 0 then [] else seq(|s.nodes| - 1, i requires 0 <= i < |s.nodes| - 1 => s.nodes[i + 1].key)
  }

  /** The key whose node is not allocated yet. */
  function Awaited(w: S.Writer): seq<S.Rank> {
    match w
    case Searching(key, _, _, _, _) => [key]
    case Raising(key, _, _) => [key]
    case Allocating(key, _, _) => [key]
    case _ => []
  }

  lemma StepKeepsKeys(s: S.List, step: S.Step, s': S.List)
    requires |s.nodes| > 0 && S.Next(s, step, s')
    ensures |s'.nodes| > 0
    ensures NodeKeys(s') + Awaited(s'.writer) == NodeKeys(s) + Awaited(s.writer) + if step.BeginInsert? then [step.key] else []
  {
    hide S.Fresh;
    if step.WriterStep? && s.writer.Allocating? {
      assert NodeKeys(s') == NodeKeys(s) + [s.writer.key];
    } else {
      assert NodeKeys(s') == NodeKeys(s);
    }
  }

  lemma InitKeys(s: S.List)
    requires S.Init(s)
    ensures |s.nodes| > 0 && NodeKeys(s) + Awaited(s.writer) == []
  {
  }

  lemma {:induction false} RunKeepsKeys(states: seq<S.List>, steps: seq<S.Step>, i: nat)
    requires S.IsRun(states, steps) && i < |states|
    ensures |states[i].nodes| > 0 && NodeKeys(states[i]) + Awaited(states[i].writer) == Inserted(steps[..i])
  {
    hide S.Next, S.Init, NodeKeys, Awaited;
    if i == 0 {
      InitKeys(states[0]);
    } else {
      RunKeepsKeys(states, steps, i - 1);
      StepKeepsKeys(states[i - 1], steps[i - 1], states[i]);
      assert steps[..i][..i - 1] == steps[..i - 1];
    }
  }

  /** The skip list of a memtable to which these records have been added, one after the other, while readers read. */
  ghost predicate IsMemTable(states: seq<S.List>, steps: seq<S.Step>, i: nat, adds: seq<W.Addition>) {
    && S.IsRun(states, steps) && i < |states| && states[i].writer.Idle? && InRange(adds)
    && |Inserted(steps[..i])| == |adds| && forall n :: 0 <= n < |adds| ==> Inserted(steps[..i])[n] == RankOf(adds[n])
  }

  lemma MemTableHolds(states: seq<S.List>, steps: seq<S.Step>, i: nat, adds: seq<W.Addition>)
    requires IsMemTable(states, steps, i, adds)
    ensures i < |states| && Holds(states[i], adds) && S.Right(states[i])
    ensures forall n: nat :: S.InList(states[i], n) <==> 1 <= n <= |adds|
  {
    hide RankOf, S.Next, S.Links;
    RunKeepsKeys(states, steps, i);
    S.RunKeepsInv(states, steps, i);
    var s := states[i];
    assert NodeKeys(s) == Inserted(steps[..i]);
    forall n | 1 <= n < |s.nodes| ensures s.nodes[n].key == RankOf(adds[n - 1]) {
      assert NodeKeys(s)[n - 1] == s.nodes[n].key;
    }
  }

  /** A record whose sequence number is new can be inserted: nothing in the list compares equal to it. */
  lemma AddIsFresh(s: S.List, adds: seq<W.Addition>, a: W.Addition)
    requires Holds(s, adds) && a.sequence <= MAX_SEQUENCE && forall b :: b in adds ==> b.sequence != a.sequence
    ensures S.Fresh(S.MemoryOf(s), RankOf(a))
  {
    forall n | 1 <= n < |s.nodes| ensures s.nodes[n].key != RankOf(a) {
      var b := adds[n - 1];
      assert b in adds;
      RankTells(a, b);
    }
  }

  lemma RankTells(a: W.Addition, b: W.Addition)
    requires a.sequence <= MAX_SEQUENCE && b.sequence <= MAX_SEQUENCE
    ensures RankOf(a) < RankOf(b) <==> Less(Added(a).key, Added(b).key)
    ensures RankOf(a) == RankOf(b) ==> a.sequence == b.sequence
  {
    hide IsKey, C.KeyBefore, InternalRank, RecordOf, Ranked;
    RecordIsEntry(a);
    RecordIsEntry(b);
    var x, y := RecordOf(a).key, RecordOf(b).key;
    InternalRankEmbedsOrder(x, y);
    InternalRankEmbedsOrder(y, x);
    KeyOrderAgrees(x, y);
    KeyOrderAgrees(y, x);
    RankedKey(RecordOf(a));
    RankedKey(RecordOf(b));
    LessIsStrictTotalOrder(KeyOf(x), KeyOf(y), KeyOf(x));
  }

  lemma RankedKey(e: B.Entry)
    requires IsKey(e.key)
    ensures Ranked(e).key == KeyOf(e.key)
  {
  }

  // ---- iterating ----

  /** The entries met along the nodes after the head. */
  ghost function Along(adds: seq<W.Addition>, c: seq<nat>): (es: seq<Entry>)
    requires InRange(adds) && |c| > 0 && forall i :: 1 <= i < |c| ==> 1 <= c[i] <= |adds|
    ensures |es| == |c| - 1 && forall i :: 0 <= i < |es| ==> es[i] == Added(adds[c[i + 1] - 1])
  {
    seq(|c| - 1, i requires 0 <= i < |c| - 1 => Added(adds[c[i + 1] - 1]))
  }

  lemma ChainNodes(s: S.List, c: seq<nat>)
    requires S.Right(s) && S.IsChain(S.MemoryOf(s), S.HEAD, 0, c)
    ensures |c| > 0 && c[0] == S.HEAD && forall i :: 1 <= i < |c| ==> S.InList(s, c[i])
    ensures forall i, j :: 1 <= i < j < |c| ==> c[i] < |s.nodes| && c[j] < |s.nodes| && s.nodes[c[i]].key < s.nodes[c[j]].key
    ensures forall n: nat :: S.InList(s, n) ==> n in c && n != c[0]
  {
    S.ChainIsLevel(S.MemoryOf(s), S.HEAD, 0, c);
    hide S.Links, S.Shape, S.WriterOk;
    forall i | 1 <= i < |c| ensures S.InList(s, c[i]) {
      assert S.Precedes(S.MemoryOf(s), c[0], c[i]);
    }
  }

  /** A memtable's iterator goes through exactly the entries that its log holds, in order. */
  lemma IteratorIsMemtable(states: seq<S.List>, steps: seq<S.Step>, i: nat, adds: seq<W.Addition>, log: seq<Batch>,
                           c: seq<nat>)
    requires IsMemTable(states, steps, i, adds) && Joined(log) == Entries(adds)
    requires S.IsChain(S.MemoryOf(states[i]), S.HEAD, 0, c)
    ensures forall j :: 1 <= j < |c| ==> 1 <= c[j] <= |adds|
    ensures |c| > 0 && Runs.MemtableOf(Along(adds, c), log)
  {
    hide IsMemTable, S.Right, S.IsChain, RankOf, Added;
    MemTableHolds(states, steps, i, adds);
    var s := states[i];
    ChainNodes(s, c);
    hide S.InList;
    var es := Along(adds, c);
    forall j, k | 0 <= j < k < |es| ensures Less(es[j].key, es[k].key) {
      assert s.nodes[c[j + 1]].key < s.nodes[c[k + 1]].key;
      RankTells(adds[c[j + 1] - 1], adds[c[k + 1] - 1]);
    }
    forall e ensures e in es <==> InLog(log, e) {
      AlongHolds(s, adds, c, e);
    }
  }

  lemma AlongHolds(s: S.List, adds: seq<W.Addition>, c: seq<nat>, e: Entry)
    requires InRange(adds) && |c| > 0 && forall i :: 1 <= i < |c| ==> 1 <= c[i] <= |adds|
    requires forall n: nat :: 1 <= n <= |adds| ==> n in c && n != c[0]
    ensures e in Along(adds, c) <==> e in Entries(adds)
  {
    hide Added;
    if e in Entries(adds) {
      var n :| 0 <= n < |adds| && Entries(adds)[n] == e;
      var node: nat := n + 1;
      assert node in c && node != c[0];
      var i :| 0 <= i < |c| && c[i] == node;
      assert Along(adds, c)[i - 1] == e;
    }
    if e in Along(adds, c) {
      var i :| 0 <= i < |c| - 1 && Along(adds, c)[i] == e;
      assert Entries(adds)[c[i + 1] - 1] == e;
    }
  }

  // ---- reading ----

  /** MemTable::Get: what a finished seek has found, if it is of the user key, is what a search of the sorted entries
      finds. */
  lemma GetIsSearch(states: seq<S.List>, steps: seq<S.Step>, i: nat, adds: seq<W.Addition>, c: seq<nat>, k: Bytes,
                    s: SequenceNumber, node: Option<nat>)
    requires IsMemTable(states, steps, i, adds) && S.IsChain(S.MemoryOf(states[i]), S.HEAD, 0, c)
    requires IsLookup(k, s) && S.Finds(states[i], S.AtOrAfter(InternalRank(k)), node)
    ensures |c| > 0 && forall j :: 1 <= j < |c| ==> 1 <= c[j] <= |adds|
    ensures node.Some? ==> 1 <= node.value <= |adds|
    ensures V.SearchTable(Along(adds, c), C.Rank(C.UserPart(k)), s) ==
            if node.Some? && adds[node.value - 1].record.key == C.UserPart(k) then Some(Added(adds[node.value - 1])) else None
  {
    hide IsMemTable, S.Right, S.IsChain, RankOf, Added, InternalRank, IsLookup, IsKey, C.Rank, C.UserPart,
         S.Finds, S.InList, V.LowerBound, V.SearchTable, Less;
    MemTableHolds(states, steps, i, adds);
    var l := states[i];
    ChainNodes(l, c);
    LookupIsSeekKey(k, s);
    var es, target := Along(adds, c), SeekKey(C.Rank(C.UserPart(k)), s);
    forall j | 0 <= j < |es| ensures Less(es[j].key, target) <==> l.nodes[c[j + 1]].key < InternalRank(k) {
      TargetTells(adds[c[j + 1] - 1], k);
    }
    var p := SeekLands(l, c, es, target, InternalRank(k), node);
    SearchAt(es, C.Rank(C.UserPart(k)), s, p - 1);
    NodeIsAdded(l, adds, S.AtOrAfter(InternalRank(k)), node);
    if node.Some? {
      assert es[p - 1] == Added(adds[node.value - 1]);
      AddedUser(adds[node.value - 1], C.UserPart(k));
    }
  }

  /** Along nodes of rising keys, the one that a seek finds is the first not before the target. */
  lemma SeekLands(l: S.List, c: seq<nat>, es: seq<Entry>, target: Key, rank: S.Rank, node: Option<nat>) returns (p: nat)
    requires S.Finds(l, S.AtOrAfter(rank), node) && |c| == |es| + 1
    requires forall i :: 1 <= i < |c| ==> S.InList(l, c[i]) && c[i] < |l.nodes|
    requires forall i, j :: 1 <= i < j < |c| ==> l.nodes[c[i]].key < l.nodes[c[j]].key
    requires forall n: nat :: S.InList(l, n) ==> n in c && n != c[0]
    requires forall j :: 0 <= j < |es| ==> (Less(es[j].key, target) <==> l.nodes[c[j + 1]].key < rank)
    ensures 1 <= p <= |c| && V.LowerBound(es, target) == p - 1
    ensures if node.Some? then p < |c| && c[p] == node.value else p == |c|
  {
    hide V.LowerBound, S.InList, Less;
    p := |c|;
    if node.Some? {
      assert node.value in c;
      p :| 0 <= p < |c| && c[p] == node.value;
    }
    forall j | 0 <= j < |es| ensures j < p - 1 <==> Less(es[j].key, target) {
      assert S.InList(l, c[j + 1]);
    }
    IsLowerBound(es, target, p - 1);
  }

  lemma NodeIsAdded(l: S.List, adds: seq<W.Addition>, goal: S.Goal, node: Option<nat>)
    requires S.Finds(l, goal, node) && forall n: nat :: S.InList(l, n) <==> 1 <= n <= |adds|
    ensures node.Some? ==> 1 <= node.value <= |adds|
  {
  }

  lemma SearchAt(es: seq<Entry>, user: UserKey, s: SequenceNumber, p: nat)
    requires V.LowerBound(es, SeekKey(user, s)) == p
    ensures V.SearchTable(es, user, s) == if p < |es| && es[p].key.user == user then Some(es[p]) else None
  {
  }

  lemma TargetTells(a: W.Addition, k: Bytes)
    requires a.sequence <= MAX_SEQUENCE && IsKey(k)
    ensures RankOf(a) < InternalRank(k) <==> Less(Added(a).key, KeyOf(k))
  {
    hide IsKey, C.KeyBefore, InternalRank, RecordOf, Ranked;
    RecordIsEntry(a);
    InternalRankEmbedsOrder(RecordOf(a).key, k);
    KeyOrderAgrees(RecordOf(a).key, k);
    RankedKey(RecordOf(a));
  }

  lemma AddedUser(a: W.Addition, user: Bytes)
    requires a.sequence <= MAX_SEQUENCE
    ensures Added(a).key.user == C.Rank(user) <==> a.record.key == user
  {
    C.RankEmbedsCompare(a.record.key, user);
  }
}
