/** The queue of writers: one of them writes for several (db/db_impl.cc). */
module GroupCommit {
  import opened Wrappers
  import opened ByteStrings
  import opened InternalKeys
  import opened WriteBatches
  import D = Database

  // ---- which writers one of them writes for ----

  /** What a writer asks for; one without a batch only waits for the writes before it. */
  datatype Request = Request(batch: Option<seq<Record>>, sync: bool) {
    function Records(): seq<Record> {
      if batch.Some? then batch.value else []
    }

    function ByteSize(): nat {
      if batch.Some? then HEADER + |Data(batch.value)| else 0
    }
  }

  const SMALL_GROUP: nat := 0x2_0000 // 128 KB
  const LARGE_GROUP: nat := 0x10_0000 // 1 MB

  /** A small write is not held up by much more than itself. */
  function MaxSize(size: nat): nat {
    if size <= SMALL_GROUP then size + SMALL_GROUP else LARGE_GROUP
  }

  function TotalSize(rs: seq<Request>): nat {
    if rs == [] then 0 else TotalSize(rs[..|rs| - 1]) + rs[|rs| - 1].ByteSize()
  }

  /** A writer may join those before it: a sync writer only under a sync leader, and a batch only if there is room. */
  predicate Joins(rs: seq<Request>, i: nat)
    requires i < |rs|
  {
    && (rs[i].sync ==> rs[0].sync)
    && (rs[i].batch.Some? ==> TotalSize(rs[..i + 1]) <= MaxSize(rs[0].ByteSize()))
  }

  /** The first `n` writers form a group: each may join, and the next may not. */
  predicate IsGroup(rs: seq<Request>, n: nat) {
    && 1 <= n <= |rs| && (forall i :: 1 <= i < n ==> Joins(rs, i)) && (n < |rs| ==> !Joins(rs, n))
  }

  /** The records of all of them, in order. */
  function Gathered(rs: seq<Request>): seq<Record> {
    if rs == [] then [] else Gathered(rs[..|rs| - 1]) + rs[|rs| - 1].Records()
  }

  /** A writer in the queue. */
  datatype Writer = Writer(batch: WriteBatch?, sync: bool)

  ghost predicate Sound(writers: seq<Writer>)
    reads set w | w in writers && w.batch != null :: w.batch
  {
    forall w :: w in writers && w.batch != null ==> w.batch.Valid()
  }

  ghost function RequestOf(w: Writer): Request
    reads if w.batch != null then {w.batch} else {}
  {
    Request(if w.batch != null then Some(w.batch.records) else None, w.sync)
  }

  ghost function Requests(writers: seq<Writer>): (rs: seq<Request>)
    reads set w | w in writers && w.batch != null :: w.batch
    ensures |rs| == |writers| && forall i :: 0 <= i < |rs| ==> rs[i] == RequestOf(writers[i])
  {
    if writers == [] then [] else Requests(writers[..|writers| - 1]) + [RequestOf(writers[|writers| - 1])]
  }

  lemma OneMore(rs: seq<Request>, n: nat)
    requires n < |rs|
    ensures TotalSize(rs[..n + 1]) == TotalSize(rs[..n]) + rs[n].ByteSize()
    ensures Gathered(rs[..n + 1]) == Gathered(rs[..n]) + rs[n].Records()
  {
    assert rs[..n + 1][..n] == rs[..n];
  }

  lemma {:induction false} GroupFits(rs: seq<Request>, n: nat, limit: nat)
    requires 1 <= n <= |rs| && forall i :: 1 <= i < n ==> Joins(rs, i)
    requires rs[0].ByteSize() <= limit && MaxSize(rs[0].ByteSize()) <= limit
    ensures TotalSize(rs[..n]) <= limit
    decreases n
  {
    OneMore(rs, n - 1);
    if n == 1 {
      assert rs[..0] == [];
    } else {
      GroupFits(rs, n - 1, limit);
      assert Joins(rs, n - 1);
    }
  }

  /** A small write is held up by at most 128 KB of others, and no group is larger than 1 MB unless its leader's write is.
      Whoever is left out needs a sync that the leader does not do, or would have made the group larger than that. */
  lemma GroupIsBounded(rs: seq<Request>, n: nat)
    requires rs != [] && IsGroup(rs, n)
    ensures var leader, total := rs[0].ByteSize(), TotalSize(rs[..n]);
            && (leader <= 131072 ==> total <= leader + 131072) && (total <= 1048576 || total == leader)
            && (n < |rs| ==> (rs[n].sync && !rs[0].sync)
                             || TotalSize(rs[..n + 1]) > if leader <= 131072 then leader + 131072 else 1048576)
  {
    var leader := rs[0].ByteSize();
    OneMore(rs, 0);
    assert rs[..0] == [];
    if leader <= 1048576 {
      GroupFits(rs, n, if leader <= 131072 then leader + 131072 else 1048576);
    } else {
      GroupFits(rs, n, leader);
      TotalGrows(rs, n);
    }
  }

  lemma {:induction false} TotalGrows(rs: seq<Request>, n: nat)
    requires 1 <= n <= |rs|
    ensures TotalSize(rs[..n]) >= rs[0].ByteSize()
    decreases n
  {
    OneMore(rs, n - 1);
    if n > 1 {
      TotalGrows(rs, n - 1);
    }
  }

  /** The batch to write for the writer at the front and those that join it. A single batch is written as it is;
      several are copied into `tmp`, so that no caller's batch changes. */
  method BuildBatchGroup(writers: seq<Writer>, tmp: WriteBatch) returns (result: WriteBatch, last: nat)
    requires writers != [] && writers[0].batch != null && Sound(writers)
    requires tmp.Valid() && tmp.records == [] && forall w :: w in writers ==> w.batch != tmp
    modifies tmp
    ensures Requests(writers) == old(Requests(writers)) && Sound(writers)
    ensures IsGroup(Requests(writers), last + 1)
    ensures result.Valid() && result.records == Gathered(Requests(writers)[..last + 1])
    ensures result == tmp || result == writers[0].batch
  {
    hide Joins, TotalSize, Gathered, Data, Encoded;
    var first := writers[0];
    assert first in writers;
    result := first.batch;
    ghost var rs := Requests(writers);
    OneMore(rs, 0);
    NoSizeYet();
    EncodedSize(first.batch);
    var size := |first.batch.rep|;
    var maxSize := MaxSize(size);
    last := 0;
    var i := 1;
    while i < |writers|
      invariant 1 <= i <= |writers| && last == i - 1
      invariant Requests(writers) == rs && Sound(writers) && tmp.Valid()
      invariant forall j :: 1 <= j < i ==> Joins(rs, j)
      invariant size == TotalSize(rs[..i])
      invariant result == tmp || (result == first.batch && tmp.records == [])
      invariant result.Valid() && result.records == Gathered(rs[..i])
    {
      var w := writers[i];
      assert rs[i] == RequestOf(w);
      OneMore(rs, i);
      JoinsWhen(rs, i);
      if w.sync && !first.sync {
        break;
      }
      if w.batch != null {
        EncodedSize(w.batch);
        size := size + |w.batch.rep|;
        if size > maxSize {
          break;
        }
        result := AppendTo(result, first.batch, w.batch, tmp);
      }
      last := i;
      i := i + 1;
    }
  }

  /** Appends to the group's batch, which until now may be the first caller's own. */
  method AppendTo(group: WriteBatch, first: WriteBatch, more: WriteBatch, tmp: WriteBatch) returns (result: WriteBatch)
    requires group == tmp || (group == first && tmp.records == [])
    requires first != tmp && more != tmp && first.Valid() && more.Valid() && tmp.Valid()
    modifies tmp
    ensures result == tmp && tmp.Valid() && tmp.records == old(group.records) + more.records
  {
    hide Encoded;
    result := group;
    if result == first {
      result := tmp;
      result.Append(first);
      assert result.records == [] + first.records;
    }
    result.Append(more);
  }

  lemma NoSizeYet()
    ensures TotalSize([]) == 0 && Gathered([]) == []
  {
  }

  lemma EncodedSize(b: WriteBatch)
    requires b.Valid()
    ensures |b.rep| == HEADER + |Data(b.records)|
  {
    EncodedParts(b.sequence, b.records);
  }

  lemma JoinsWhen(rs: seq<Request>, i: nat)
    requires i < |rs|
    ensures Joins(rs, i) <==> (rs[i].sync ==> rs[0].sync) && (rs[i].batch.Some? ==> TotalSize(rs[..i + 1]) <= MaxSize(rs[0].ByteSize()))
  {
  }

  // ---- the queue as a state machine ----

  type Id = nat

  datatype Waiting = Waiting(id: Id, request: Request)

  function RequestsIn(ws: seq<Waiting>): (rs: seq<Request>)
    ensures |rs| == |ws| && forall i :: 0 <= i < |rs| ==> rs[i] == ws[i].request
  {
    seq(|ws|, i requires 0 <= i < |ws| => ws[i].request)
  }

  /** The mutex is released while the record is appended, synced and applied. */
  datatype Phase = Appending | Syncing | Inserting(inserted: nat) | Decided(ok: bool)

  /** What the writer at the front is doing for the first `size` writers. */
  datatype Current = Current(size: nat, entries: D.Batch, place: Option<nat>, phase: Phase)

  /** A finished group; `place` is its record's index in the log, if it was appended. */
  datatype Group = Group(members: seq<Waiting>, entries: D.Batch, place: Option<nat>, ok: bool)

  datatype State = State(
    queue: seq<Waiting>,
    current: Option<Current>,
    log: seq<D.Batch>,      // records appended
    synced: nat,            // how many of them are known to be on disk
    mem: seq<Entry>,        // everything the memtables were given, in order
    lastSequence: nat,
    failed: bool,           // the background error
    arrived: seq<Id>,
    answers: map<Id, bool>, // the status returned to each writer that was let go
    done: seq<Group>)

  datatype Step =
    | Arrive(waiting: Waiting)
    | Lead(size: nat, room: bool)
    | Append(appended: bool)
    | Sync(synced: bool)
    | InsertEntry
    | Finish

  ghost predicate Init(s: State) {
    s == State([], None, [], 0, [], 0, false, [], map[], [])
  }

  function GatheredFrom(ws: seq<Waiting>): seq<Record> {
    Gathered(RequestsIn(ws))
  }

  ghost function EntriesOf(ws: seq<Waiting>, lastSequence: nat): D.Batch
    requires lastSequence + |GatheredFrom(ws)| < MAX_SEQUENCE
  {
    D.Stamp(D.OpsOf(GatheredFrom(ws)), lastSequence + 1)
  }

  /** The writer at the front begins. Without room, or with no batch of its own, it writes nothing for anybody else. */
  ghost predicate LeadStep(s: State, size: nat, room: bool, s': State) {
    && s.current.None? && s.queue != []
    && (room ==> !s.failed)
    && if !room || s.queue[0].request.batch.None? then
         size == 1 && s' == s.(current := Some(Current(1, [], None, Decided(room))))
       else
         && IsGroup(RequestsIn(s.queue), size)
         && s.lastSequence + |GatheredFrom(s.queue[..size])| < MAX_SEQUENCE
         && s' == s.(current := Some(Current(size, EntriesOf(s.queue[..size], s.lastSequence), None, Appending)))
  }

  ghost predicate AppendStep(s: State, appended: bool, s': State) {
    && s.current.Some? && s.current.value.phase.Appending? && s.queue != []
    && var c := s.current.value;
    if appended then
      s' == s.(log := s.log + [c.entries],
               current := Some(c.(place := Some(|s.log|), phase := if s.queue[0].request.sync then Syncing else Inserting(0))))
    else s' == s.(current := Some(c.(phase := Decided(false))))
  }

  /** After a failed sync nobody knows what the log holds, so every later write fails. */
  ghost predicate SyncStep(s: State, synced: bool, s': State) {
    && s.current.Some? && s.current.value.phase.Syncing?
    && var c := s.current.value;
    if synced then s' == s.(synced := |s.log|, current := Some(c.(phase := Inserting(0))))
    else s' == s.(failed := true, current := Some(c.(phase := Decided(false))))
  }

  ghost predicate InsertStep(s: State, s': State) {
    && s.current.Some? && s.current.value.phase.Inserting?
    && var c := s.current.value;
    && c.phase.inserted < |c.entries|
    && s' == s.(mem := s.mem + [c.entries[c.phase.inserted]],
                current := Some(c.(phase := Inserting(c.phase.inserted + 1))))
  }

  predicate IsDecided(c: Current) {
    match c.phase
    case Inserting(n) => n == |c.entries|
    case Decided(_) => true
    case _ => false
  }

  function Verdict(c: Current): bool {
    c.phase.Inserting? || (c.phase.Decided? && c.phase.ok)
  }

  function Answer(answers: map<Id, bool>, ws: seq<Waiting>, ok: bool): map<Id, bool> {
    if ws == [] then answers else Answer(answers, ws[..|ws| - 1], ok)[ws[|ws| - 1].id := ok]
  }

  /** The leader moves the sequence number on, and lets its whole group go with its own status. */
  ghost predicate FinishStep(s: State, s': State) {
    && s.current.Some? && IsDecided(s.current.value) && s.current.value.size <= |s.queue|
    && var c := s.current.value;
    var members := s.queue[..c.size];
    s' == s.(queue := s.queue[c.size..], current := None, lastSequence := s.lastSequence + |c.entries|,
             answers := Answer(s.answers, members, Verdict(c)),
             done := s.done + [Group(members, c.entries, c.place, Verdict(c))])
  }

  ghost predicate Next(s: State, step: Step, s': State) {
    match step
    case Arrive(w) => w.id !in s.arrived && s' == s.(queue := s.queue + [w], arrived := s.arrived + [w.id])
    case Lead(size, room) => LeadStep(s, size, room, s')
    case Append(appended) => AppendStep(s, appended, s')
    case Sync(synced) => SyncStep(s, synced, s')
    case InsertEntry => InsertStep(s, s')
    case Finish => FinishStep(s, s')
  }

  // ---- what every run keeps ----

  function Ids(ws: seq<Waiting>): (ids: seq<Id>)
    ensures |ids| == |ws| && forall i :: 0 <= i < |ids| ==> ids[i] == ws[i].id
  {
    seq(|ws|, i requires 0 <= i < |ws| => ws[i].id)
  }

  /** The writers of the finished groups, in order. */
  function Released(done: seq<Group>): seq<Id> {
    if done == [] then [] else Released(done[..|done| - 1]) + Ids(done[|done| - 1].members)
  }

  /** What the finished groups that did not fail wrote, in order. */
  function Applied(done: seq<Group>): seq<Entry> {
    if done == [] then []
    else Applied(done[..|done| - 1]) + if done[|done| - 1].ok then done[|done| - 1].entries else []
  }

  /** Sequence numbers used up by the finished groups. */
  function Used(done: seq<Group>): nat {
    if done == [] then 0 else Used(done[..|done| - 1]) + |done[|done| - 1].entries|
  }

  predicate Distinct(ids: seq<Id>) {
    forall i, j :: 0 <= i < j < |ids| ==> ids[i] != ids[j]
  }

  /** Every writer is in exactly one place of the line that finished groups and the queue make together. */
  ghost predicate InLine(done: seq<Group>, queue: seq<Waiting>, arrived: seq<Id>, answers: map<Id, bool>) {
    && Released(done) + Ids(queue) == arrived && Distinct(arrived)
    && answers.Keys == set id | id in Released(done)
  }

  /** A group in progress or finished, whose entries are numbered from `before + 1` on. */
  ghost predicate GroupWrites(members: seq<Waiting>, entries: D.Batch, before: nat) {
    && members != []
    && (forall m :: m in members && m.request.sync ==> members[0].request.sync)
    && (entries == [] || (before + |GatheredFrom(members)| < MAX_SEQUENCE && entries == EntriesOf(members, before)))
    && D.IsStamped(entries, before + 1)
  }

  /** A group that has not failed wrote the records of all its members. */
  ghost predicate Complete(members: seq<Waiting>, entries: D.Batch) {
    |entries| == |GatheredFrom(members)|
  }

  ghost predicate LoggedAt(log: seq<D.Batch>, place: Option<nat>, entries: D.Batch) {
    place.Some? ==> place.value < |log| && log[place.value] == entries
  }

  ghost predicate GoodGroup(g: Group, before: nat, log: seq<D.Batch>, synced: nat) {
    && GroupWrites(g.members, g.entries, before) && LoggedAt(log, g.place, g.entries)
    && (g.ok ==> Complete(g.members, g.entries))
    && (g.ok && g.place.None? ==> g.entries == [])
    && (g.ok && g.place.Some? && g.members[0].request.sync ==> g.place.value < synced)
  }

  ghost predicate GoodCurrent(c: Current, members: seq<Waiting>, lastSequence: nat, log: seq<D.Batch>, synced: nat) {
    && GroupWrites(members, c.entries, lastSequence) && LoggedAt(log, c.place, c.entries)
    && match c.phase
       case Appending => members[0].request.batch.Some? && Complete(members, c.entries)
       case Syncing => members[0].request.batch.Some? && Complete(members, c.entries) && c.place.Some?
       case Inserting(n) =>
         && Complete(members, c.entries) && n <= |c.entries| && c.place.Some?
         && (members[0].request.sync ==> c.place.value < synced)
       case Decided(ok) => ok ==> c.place.None? && Complete(members, c.entries) && c.entries == []
  }

  function Inserted(current: Option<Current>): seq<Entry> {
    match current
    case None => []
    case Some(c) =>
      if c.phase.Inserting? && c.phase.inserted <= |c.entries| then c.entries[..c.phase.inserted] else []
  }

  ghost predicate GoodGroups(done: seq<Group>, log: seq<D.Batch>, synced: nat) {
    synced <= |log| && forall i :: 0 <= i < |done| ==> GoodGroup(done[i], Used(done[..i]), log, synced)
  }

  ghost predicate AllAnswered(done: seq<Group>, answers: map<Id, bool>) {
    forall g, m :: g in done && m in g.members ==> m.id in answers && answers[m.id] == g.ok
  }

  ghost predicate Inv(s: State) {
    && InLine(s.done, s.queue, s.arrived, s.answers)
    && AllAnswered(s.done, s.answers)
    && s.lastSequence == Used(s.done)
    && s.mem == Applied(s.done) + Inserted(s.current)
    && GoodGroups(s.done, s.log, s.synced)
    && (s.current.Some? ==>
          && 1 <= s.current.value.size <= |s.queue|
          && GoodCurrent(s.current.value, s.queue[..s.current.value.size], s.lastSequence, s.log, s.synced))
  }

  lemma InitInv(s: State)
    requires Init(s)
    ensures Inv(s)
  {
  }

  lemma ArriveInLine(done: seq<Group>, queue: seq<Waiting>, arrived: seq<Id>, answers: map<Id, bool>, w: Waiting)
    requires InLine(done, queue, arrived, answers) && w.id !in arrived
    ensures InLine(done, queue + [w], arrived + [w.id], answers)
  {
    var r := Released(done);
    assert Ids(queue + [w]) == Ids(queue) + [w.id];
    assert r + (Ids(queue) + [w.id]) == (r + Ids(queue)) + [w.id];
  }

  lemma ArriveKeepsInv(s: State, w: Waiting, s': State)
    requires Inv(s) && Next(s, Arrive(w), s')
    ensures Inv(s')
  {
    hide InLine, AllAnswered, GoodGroups, GoodCurrent, Released, Used, Applied, Inserted;
    ArriveInLine(s.done, s.queue, s.arrived, s.answers, w);
    if s.current.Some? {
      assert s'.queue[..s.current.value.size] == s.queue[..s.current.value.size];
    }
  }

  /** No sync writer joins a leader that does not sync. */
  lemma GroupSyncs(ws: seq<Waiting>, n: nat, m: Waiting)
    requires IsGroup(RequestsIn(ws), n) && m in ws[..n] && m.request.sync
    ensures ws[0].request.sync
  {
    var i :| 0 <= i < n && ws[i] == m;
    if i > 0 {
      assert Joins(RequestsIn(ws), i);
    }
  }

  lemma GathersNothing(w: Waiting)
    requires w.request.batch.None?
    ensures GatheredFrom([w]) == []
  {
    var rs := [w.request];
    assert RequestsIn([w]) == rs;
    assert rs[..0] == [] && Gathered(rs) == Gathered(rs[..0]) + rs[0].Records();
  }

  lemma LeadWithout(w: Waiting, lastSequence: nat, log: seq<D.Batch>, synced: nat, room: bool)
    requires room ==> w.request.batch.None?
    ensures GoodCurrent(Current(1, [], None, Decided(room)), [w], lastSequence, log, synced)
  {
    if room {
      GathersNothing(w);
    }
  }

  lemma LeadGroup(queue: seq<Waiting>, size: nat, lastSequence: nat, log: seq<D.Batch>, synced: nat)
    requires IsGroup(RequestsIn(queue), size) && queue != [] && queue[0].request.batch.Some?
    requires lastSequence + |GatheredFrom(queue[..size])| < MAX_SEQUENCE
    ensures GoodCurrent(Current(size, EntriesOf(queue[..size], lastSequence), None, Appending), queue[..size], lastSequence, log, synced)
  {
    var members := queue[..size];
    forall m | m in members && m.request.sync ensures members[0].request.sync {
      GroupSyncs(queue, size, m);
    }
    hide Gathered, IsGroup;
  }

  lemma LeadKeepsInv(s: State, size: nat, room: bool, s': State)
    requires Inv(s) && Next(s, Lead(size, room), s')
    ensures Inv(s')
  {
    if !room || s.queue[0].request.batch.None? {
      LeadWithout(s.queue[0], s.lastSequence, s.log, s.synced, room);
      assert s.queue[..1] == [s.queue[0]];
    } else {
      LeadGroup(s.queue, size, s.lastSequence, s.log, s.synced);
    }
    hide InLine, AllAnswered, GoodGroups, GoodCurrent, Released, Used, Applied, GatheredFrom;
  }

  /** More in the log, and more of it synced, leaves finished groups as good as they were. */
  lemma LogGrows(done: seq<Group>, log: seq<D.Batch>, synced: nat, log': seq<D.Batch>, synced': nat)
    requires GoodGroups(done, log, synced) && log <= log' && synced <= synced' <= |log'|
    ensures GoodGroups(done, log', synced')
  {
    hide GroupWrites, Complete, Used;
    forall i | 0 <= i < |done| ensures GoodGroup(done[i], Used(done[..i]), log', synced') {
      assert GoodGroup(done[i], Used(done[..i]), log, synced);
    }
  }

  lemma AppendKeepsInv(s: State, appended: bool, s': State)
    requires Inv(s) && Next(s, Append(appended), s')
    ensures Inv(s')
  {
    hide InLine, AllAnswered, GoodGroups, GroupWrites, Complete, Released, Used, Applied;
    LogIsNoSmaller(s);
    LogGrows(s.done, s.log, s.synced, s'.log, s'.synced);
    assert s.current.value.entries[..0] == [];
  }

  lemma LogIsNoSmaller(s: State)
    requires Inv(s)
    ensures s.synced <= |s.log|
  {
  }

  lemma SyncKeepsInv(s: State, synced: bool, s': State)
    requires Inv(s) && Next(s, Sync(synced), s')
    ensures Inv(s')
  {
    hide InLine, AllAnswered, GoodGroups, GroupWrites, Complete, Released, Used, Applied;
    LogIsNoSmaller(s);
    LogGrows(s.done, s.log, s.synced, s'.log, s'.synced);
    assert s.current.value.entries[..0] == [];
  }

  lemma InsertKeepsInv(s: State, s': State)
    requires Inv(s) && Next(s, InsertEntry, s')
    ensures Inv(s')
  {
    hide InLine, AllAnswered, GoodGroups, GroupWrites, Complete, Released, Used, Applied;
    var c := s.current.value;
    var i := c.phase.inserted;
    assert c.entries[..i + 1] == c.entries[..i] + [c.entries[i]];
    var a := Applied(s.done);
    assert a + (c.entries[..i] + [c.entries[i]]) == (a + c.entries[..i]) + [c.entries[i]];
  }

  lemma OneMoreGroup(done: seq<Group>, g: Group)
    ensures Released(done + [g]) == Released(done) + Ids(g.members)
    ensures Applied(done + [g]) == Applied(done) + if g.ok then g.entries else []
    ensures Used(done + [g]) == Used(done) + |g.entries|
  {
    assert (done + [g])[..|done|] == done;
  }

  lemma {:induction false} Answered(answers: map<Id, bool>, ws: seq<Waiting>, ok: bool)
    ensures Answer(answers, ws, ok).Keys == answers.Keys + set id | id in Ids(ws)
    ensures forall w :: w in ws ==> w.id in Answer(answers, ws, ok) && Answer(answers, ws, ok)[w.id] == ok
    ensures forall id :: id in answers && id !in Ids(ws) ==> id in Answer(answers, ws, ok) && Answer(answers, ws, ok)[id] == answers[id]
    decreases |ws|
  {
    if ws != [] {
      var n := |ws| - 1;
      Answered(answers, ws[..n], ok);
      assert ws == ws[..n] + [ws[n]];
      assert Ids(ws) == Ids(ws[..n]) + [ws[n].id];
    }
  }

  /** Those let go are not among those let go before. */
  lemma NotYetReleased(a: seq<Id>, b: seq<Id>, c: seq<Id>, id: Id)
    requires Distinct(a + (b + c)) && id in a
    ensures id !in b
  {
    var all := a + (b + c);
    var i :| 0 <= i < |a| && a[i] == id;
    assert all[i] == id;
    forall j | 0 <= j < |b| ensures b[j] != id {
      assert all[|a| + j] == b[j];
    }
  }

  lemma IdsOf(ws: seq<Waiting>, n: nat)
    requires n <= |ws|
    ensures Ids(ws) == Ids(ws[..n]) + Ids(ws[n..])
    ensures forall w :: w in ws[..n] ==> w.id in Ids(ws[..n])
  {
    forall w | w in ws[..n] ensures w.id in Ids(ws[..n]) {
      var i :| 0 <= i < n && ws[..n][i] == w;
      assert Ids(ws[..n])[i] == w.id;
    }
  }

  /** A group leaves the front of the line; the answers given before stand. */
  lemma FinishInLine(done: seq<Group>, queue: seq<Waiting>, arrived: seq<Id>, answers: map<Id, bool>, n: nat, g: Group)
    requires InLine(done, queue, arrived, answers) && n <= |queue| && g.members == queue[..n]
    ensures InLine(done + [g], queue[n..], arrived, Answer(answers, g.members, g.ok))
    ensures forall id :: id in answers ==> id in Answer(answers, g.members, g.ok) && Answer(answers, g.members, g.ok)[id] == answers[id]
  {
    var a, b, c := Released(done), Ids(g.members), Ids(queue[n..]);
    OneMoreGroup(done, g);
    Answered(answers, g.members, g.ok);
    IdsOf(queue, n);
    forall id | id in answers ensures id !in b {
      assert a + (b + c) == arrived;
      NotYetReleased(a, b, c, id);
    }
    hide Released, Answer, Distinct, Ids;
    LineMoves(a, b, c);
  }

  lemma LineMoves(a: seq<Id>, b: seq<Id>, c: seq<Id>)
    ensures (a + b) + c == a + (b + c)
    ensures (set id | id in a + b) == (set id | id in a) + set id | id in b
  {
  }

  lemma FinishAllAnswered(done: seq<Group>, answers: map<Id, bool>, g: Group)
    requires AllAnswered(done, answers)
    requires forall id :: id in answers ==> id in Answer(answers, g.members, g.ok) && Answer(answers, g.members, g.ok)[id] == answers[id]
    ensures AllAnswered(done + [g], Answer(answers, g.members, g.ok))
  {
    Answered(answers, g.members, g.ok);
    hide Answer;
    forall h, m | h in done + [g] && m in h.members
      ensures m.id in Answer(answers, g.members, g.ok) && Answer(answers, g.members, g.ok)[m.id] == h.ok
    {
      if h in done {
        assert m.id in answers;
      }
    }
  }

  lemma FinishGoodGroups(done: seq<Group>, log: seq<D.Batch>, synced: nat, g: Group)
    requires GoodGroups(done, log, synced) && GoodGroup(g, Used(done), log, synced)
    ensures GoodGroups(done + [g], log, synced)
  {
    hide GoodGroup, Used;
    var done' := done + [g];
    forall i | 0 <= i < |done'| ensures GoodGroup(done'[i], Used(done'[..i]), log, synced) {
      assert done'[..i] == done[..i];
      if i == |done| {
        assert done[..i] == done;
      }
    }
  }

  lemma FinishedIsGood(c: Current, members: seq<Waiting>, lastSequence: nat, log: seq<D.Batch>, synced: nat)
    requires GoodCurrent(c, members, lastSequence, log, synced) && IsDecided(c)
    ensures GoodGroup(Group(members, c.entries, c.place, Verdict(c)), lastSequence, log, synced)
    ensures Verdict(c) ==> Inserted(Some(c)) == c.entries
    ensures !Verdict(c) ==> Inserted(Some(c)) == []
  {
    hide GroupWrites, LoggedAt;
  }

  lemma FinishKeepsInv(s: State, s': State)
    requires Inv(s) && Next(s, Finish, s')
    ensures Inv(s')
  {
    hide InLine, AllAnswered, GoodGroups, GoodGroup, GoodCurrent, Released, Used, Applied, Answer, Inserted, Verdict;
    var c := s.current.value;
    var members := s.queue[..c.size];
    var g := Group(members, c.entries, c.place, Verdict(c));
    assert s'.done == s.done + [g] && s'.queue == s.queue[c.size..] && s'.answers == Answer(s.answers, members, g.ok);
    assert s'.arrived == s.arrived && s'.log == s.log && s'.synced == s.synced && s'.mem == s.mem && s'.current == None;
    assert s'.lastSequence == s.lastSequence + |c.entries|;
    hide Next, FinishStep;
    FinishInLine(s.done, s.queue, s.arrived, s.answers, c.size, g);
    FinishAllAnswered(s.done, s.answers, g);
    FinishedIsGood(c, members, s.lastSequence, s.log, s.synced);
    FinishGoodGroups(s.done, s.log, s.synced, g);
    OneMoreGroup(s.done, g);
    InsertedNothing();
  }

  lemma InsertedNothing()
    ensures Inserted(None) == []
  {
  }

  lemma StepKeepsInv(s: State, step: Step, s': State)
    requires Inv(s) && Next(s, step, s')
    ensures Inv(s')
  {
    hide Inv, LeadStep, AppendStep, SyncStep, InsertStep, FinishStep;
    match step
    case Arrive(w) => ArriveKeepsInv(s, w, s');
    case Lead(size, room) => LeadKeepsInv(s, size, room, s');
    case Append(appended) => AppendKeepsInv(s, appended, s');
    case Sync(synced) => SyncKeepsInv(s, synced, s');
    case InsertEntry => InsertKeepsInv(s, s');
    case Finish => FinishKeepsInv(s, s');
  }

  // ---- runs ----

  ghost predicate IsRun(states: seq<State>, steps: seq<Step>) {
    && |states| == |steps| + 1 && Init(states[0])
    && forall i :: 0 <= i < |steps| ==> Next(states[i], steps[i], states[i + 1])
  }

  lemma {:induction false} RunKeepsInv(states: seq<State>, steps: seq<Step>, i: nat)
    requires IsRun(states, steps) && i < |states|
    ensures Inv(states[i])
  {
    hide Inv, Next, Init;
    if i == 0 {
      InitInv(states[0]);
    } else {
      RunKeepsInv(states, steps, i - 1);
      StepKeepsInv(states[i - 1], steps[i - 1], states[i]);
    }
  }

  /** Lines, logs and finished groups only grow, and an answer once given stays. */
  ghost predicate Later(s: State, s': State) {
    && s.arrived <= s'.arrived && s.done <= s'.done && s.log <= s'.log && s.synced <= s'.synced
    && forall id :: id in s.answers ==> id in s'.answers && s'.answers[id] == s.answers[id]
  }

  lemma FinishIsLater(s: State, s': State)
    requires Inv(s) && FinishStep(s, s')
    ensures Later(s, s')
  {
    hide InLine, AllAnswered, GoodGroups, GoodCurrent, Released, Used, Applied, Answer, Inserted, Verdict;
    var c := s.current.value;
    var g := Group(s.queue[..c.size], c.entries, c.place, Verdict(c));
    FinishInLine(s.done, s.queue, s.arrived, s.answers, c.size, g);
  }

  lemma StepIsLater(s: State, step: Step, s': State)
    requires Inv(s) && Next(s, step, s')
    ensures Later(s, s')
  {
    hide InLine, AllAnswered, GoodGroups, GoodCurrent, Released, Used, Applied, Answer, Inserted, FinishStep;
    LogIsNoSmaller(s);
    if step.Finish? {
      FinishIsLater(s, s');
    }
  }

  lemma {:induction false} RunGrows(states: seq<State>, steps: seq<Step>, i: nat, j: nat)
    requires IsRun(states, steps) && i <= j < |states|
    ensures Later(states[i], states[j])
    decreases j
  {
    hide Inv, Next, Init;
    if i < j {
      RunGrows(states, steps, i, j - 1);
      RunKeepsInv(states, steps, j - 1);
      StepIsLater(states[j - 1], steps[j - 1], states[j]);
    }
  }

  /** Every writer let go was let go in its turn, once, and with the status it got then. */
  lemma ReleasedInTurn(states: seq<State>, steps: seq<Step>, i: nat, j: nat)
    requires IsRun(states, steps) && i <= j < |states|
    ensures Released(states[i].done) <= Released(states[j].done) <= states[j].arrived && Distinct(states[j].arrived)
    ensures forall id :: id in states[j].answers <==> id in Released(states[j].done)
    ensures forall id :: id in states[i].answers ==> id in states[j].answers && states[j].answers[id] == states[i].answers[id]
  {
    RunKeepsInv(states, steps, j);
    RunGrows(states, steps, i, j);
    hide IsRun, AllAnswered, GoodGroups, GoodCurrent, Used, Applied, Answer, Inserted;
    ReleasedGrows(states[i].done, states[j].done);
  }

  lemma {:induction false} ReleasedGrows(a: seq<Group>, b: seq<Group>)
    requires a <= b
    ensures Released(a) <= Released(b)
    decreases |b|
  {
    if a != b {
      ReleasedGrows(a, b[..|b| - 1]);
    }
  }

  // ---- what readers see ----

  lemma {:induction false} UsedGrows(done: seq<Group>, n: nat)
    requires n <= |done|
    ensures Used(done[..n]) <= Used(done)
    decreases |done|
  {
    if n < |done| {
      assert done[..|done| - 1][..n] == done[..n];
      UsedGrows(done[..|done| - 1], n);
    } else {
      assert done[..n] == done;
    }
  }

  ghost predicate StampedInTurn(done: seq<Group>) {
    forall i :: 0 <= i < |done| ==> D.IsStamped(done[i].entries, Used(done[..i]) + 1)
  }

  /** The sequence numbers say which groups an entry may come from. */
  lemma {:induction false} AppliedUpTo(done: seq<Group>, n: nat, e: Entry)
    requires StampedInTurn(done) && n <= |done| && e in Applied(done)
    ensures e.key.sequence <= Used(done[..n]) <==> e in Applied(done[..n])
    ensures 0 < e.key.sequence <= Used(done)
    decreases |done|
  {
    var last := |done| - 1;
    var rest := done[..last];
    assert StampedInTurn(rest) by {
      forall i | 0 <= i < last ensures D.IsStamped(rest[i].entries, Used(rest[..i]) + 1) {
        assert rest[..i] == done[..i];
      }
    }
    UsedGrows(done, n);
    if e in Applied(rest) {
      AppliedUpTo(rest, if n <= last then n else last, e);
      if n <= last {
        assert rest[..n] == done[..n];
      } else {
        assert done[..n] == done && rest[..last] == rest;
      }
    } else {
      assert D.IsStamped(done[last].entries, Used(done[..last]) + 1);
      if n <= last {
        assert rest[..n] == done[..n];
        UsedGrows(rest, n);
        AppliedSubset(rest, n);
      } else {
        assert done[..n] == done;
      }
    }
  }

  lemma {:induction false} AppliedSubset(done: seq<Group>, n: nat)
    requires n <= |done|
    ensures forall e :: e in Applied(done[..n]) ==> e in Applied(done)
    decreases |done|
  {
    if n < |done| {
      AppliedSubset(done[..|done| - 1], n);
      assert done[..|done| - 1][..n] == done[..n];
    } else {
      assert done[..n] == done;
    }
  }

  lemma Stamps(s: State)
    requires Inv(s)
    ensures StampedInTurn(s.done)
    ensures forall e :: e in Inserted(s.current) ==> e.key.sequence > s.lastSequence
    ensures s.lastSequence == Used(s.done) && s.mem == Applied(s.done) + Inserted(s.current)
  {
    hide InLine, AllAnswered, Complete, Used, Applied, LoggedAt;
    forall i | 0 <= i < |s.done| ensures D.IsStamped(s.done[i].entries, Used(s.done[..i]) + 1) {
      assert GoodGroup(s.done[i], Used(s.done[..i]), s.log, s.synced);
    }
  }

  /** A reader that takes the sequence number at one moment and reads at any later one sees exactly the groups that
      were finished when it took it: no group in part, and nothing of those after. */
  lemma SnapshotSeesWholeGroups(states: seq<State>, steps: seq<Step>, i: nat, j: nat, e: Entry)
    requires IsRun(states, steps) && i <= j < |states|
    ensures e in states[j].mem && e.key.sequence <= states[i].lastSequence <==> e in Applied(states[i].done)
  {
    RunKeepsInv(states, steps, i);
    RunKeepsInv(states, steps, j);
    RunGrows(states, steps, i, j);
    var a, b := states[i], states[j];
    Stamps(a);
    Stamps(b);
    hide IsRun, Inv, Applied, Used, Inserted, StampedInTurn;
    var n := |a.done|;
    assert b.done[..n] == a.done;
    UsedGrows(b.done, n);
    AppliedSubset(b.done, n);
    if e in Applied(b.done) {
      AppliedUpTo(b.done, n, e);
    }
  }

  /** The memtables are given entries in increasing order of sequence number, so none twice. */
  lemma EachEntryOnce(s: State, i: nat, j: nat)
    requires Inv(s) && i < j < |s.mem|
    ensures s.mem[i].key.sequence < s.mem[j].key.sequence
  {
    Stamps(s);
    var a, b := Applied(s.done), Inserted(s.current);
    if j < |a| {
      AppliedIncreases(s.done, i, j);
    } else if i < |a| {
      assert s.mem[i] in a && s.mem[j] in b;
      AppliedUpTo(s.done, |s.done|, s.mem[i]);
    } else {
      InsertedIncreases(s);
    }
  }

  lemma InsertedIncreases(s: State)
    requires Inv(s)
    ensures forall i, j :: 0 <= i < j < |Inserted(s.current)| ==>
      Inserted(s.current)[i].key.sequence < Inserted(s.current)[j].key.sequence
  {
    hide InLine, AllAnswered, Complete, Used, Applied, LoggedAt, GoodGroups;
  }

  lemma {:induction false} AppliedIncreases(done: seq<Group>, i: nat, j: nat)
    requires StampedInTurn(done) && i < j < |Applied(done)|
    ensures Applied(done)[i].key.sequence < Applied(done)[j].key.sequence
    decreases |done|
  {
    var last := |done| - 1;
    var rest := done[..last];
    assert StampedInTurn(rest) by {
      forall k | 0 <= k < last ensures D.IsStamped(rest[k].entries, Used(rest[..k]) + 1) {
        assert rest[..k] == done[..k];
      }
    }
    var a := Applied(rest);
    if j < |a| {
      AppliedIncreases(rest, i, j);
    } else {
      assert D.IsStamped(done[last].entries, Used(done[..last]) + 1);
      if i < |a| {
        assert a[i] in a;
        AppliedUpTo(rest, last, a[i]);
      }
    }
  }

  // ---- what an answer means ----

  lemma {:induction false} GatheredHas(ws: seq<Waiting>, i: nat) returns (before: seq<Record>, after: seq<Record>)
    requires i < |ws|
    ensures GatheredFrom(ws) == before + ws[i].request.Records() + after
    decreases |ws|
  {
    var n := |ws| - 1;
    assert RequestsIn(ws)[..n] == RequestsIn(ws[..n]);
    assert GatheredFrom(ws) == GatheredFrom(ws[..n]) + ws[n].request.Records();
    if i == n {
      before, after := GatheredFrom(ws[..n]), [];
    } else {
      var rest;
      before, rest := GatheredHas(ws[..n], i);
      after := rest + ws[n].request.Records();
    }
  }

  /** A writer's records, one after the other under consecutive sequence numbers. */
  ghost predicate Writes(entries: seq<Entry>, at: nat, records: seq<Record>, first: nat) {
    && at + |records| <= |entries| && first + |records| <= MAX_SEQUENCE
    && forall k :: 0 <= k < |records| ==> entries[at + k] == D.EntryOf(D.OpOf(records[k]), first + k)
  }

  lemma GroupHasWriter(g: Group, before: nat, i: nat) returns (at: nat)
    requires GroupWrites(g.members, g.entries, before) && Complete(g.members, g.entries) && i < |g.members|
    requires g.members[i].request.Records() != []
    ensures Writes(g.entries, at, g.members[i].request.Records(), before + 1 + at)
  {
    hide Gathered, GatheredFrom, D.OpsOf;
    var front, back := GatheredHas(g.members, i);
    assert |g.entries| == |GatheredFrom(g.members)|;
    at := |front|;
    StampedPart(front, g.members[i].request.Records(), back, before + 1);
  }

  lemma StampedPart(front: seq<Record>, records: seq<Record>, back: seq<Record>, first: nat)
    requires first + |front + records + back| <= MAX_SEQUENCE
    ensures Writes(D.Stamp(D.OpsOf(front + records + back), first), |front|, records, first + |front|)
  {
    var all := front + records + back;
    forall k | 0 <= k < |records|
      ensures D.Stamp(D.OpsOf(all), first)[|front| + k] == D.EntryOf(D.OpOf(records[k]), first + |front| + k)
    {
      assert all[|front| + k] == records[k];
      StampedAt(all, first, |front| + k);
    }
  }

  lemma StampedAt(records: seq<Record>, first: nat, i: nat)
    requires first + |records| <= MAX_SEQUENCE && i < |records|
    ensures D.Stamp(D.OpsOf(records), first)[i] == D.EntryOf(D.OpOf(records[i]), first + i)
  {
  }

  lemma {:induction false} AppliedHas(done: seq<Group>, i: nat) returns (at: nat)
    requires i < |done| && done[i].ok
    ensures at + |done[i].entries| <= |Applied(done)| && Applied(done)[at..at + |done[i].entries|] == done[i].entries
    decreases |done|
  {
    var last := |done| - 1;
    if i == last {
      at := |Applied(done[..last])|;
    } else {
      at := AppliedHas(done[..last], i);
    }
  }

  /** What the writer that was answered asked for: the ids in the line are distinct, so there is one. */
  ghost predicate Asked(s: State, id: Id, request: Request) {
    exists i, j :: 0 <= i < |s.done| && 0 <= j < |s.done[i].members| && s.done[i].members[j] == Waiting(id, request)
  }

  lemma WhereAsked(s: State, id: Id, request: Request) returns (i: nat, j: nat)
    requires Inv(s) && Asked(s, id, request) && id in s.answers && s.answers[id]
    ensures i < |s.done| && j < |s.done[i].members| && s.done[i].members[j] == Waiting(id, request) && s.done[i].ok
  {
    hide InLine, GoodGroups, GoodCurrent, Used, Applied, Inserted;
    i, j :| i < |s.done| && j < |s.done[i].members| && s.done[i].members[j] == Waiting(id, request);
    assert s.done[i] in s.done && s.done[i].members[j] in s.done[i].members;
  }

  lemma GroupAt(s: State, i: nat)
    requires Inv(s) && i < |s.done|
    ensures GoodGroup(s.done[i], Used(s.done[..i]), s.log, s.synced)
    ensures s.lastSequence == Used(s.done) && s.mem == Applied(s.done) + Inserted(s.current)
  {
  }

  /** A writer answered with success: its records are in the memtables in order, in one piece, under numbers that
      readers already see; and if it asked for a sync, they are in one record of the log that is on disk. */
  lemma SuccessMeansWritten(s: State, id: Id, request: Request) returns (at: nat, first: nat, place: nat, offset: nat)
    requires Inv(s) && Asked(s, id, request) && id in s.answers && s.answers[id] && request.Records() != []
    ensures Writes(s.mem, at, request.Records(), first) && first + |request.Records()| <= s.lastSequence + 1
    ensures place < |s.log| && Writes(s.log[place], offset, request.Records(), first)
    ensures request.sync ==> place < s.synced
  {
    hide Inv, Used, Applied, Inserted, Asked, GoodGroup, GroupWrites, Complete, Writes;
    var i, j := WhereAsked(s, id, request);
    var g, records := s.done[i], request.Records();
    GroupAt(s, i);
    ParticipantWrites(g, Used(s.done[..i]), s.log, s.synced);
    offset := GroupHasWriter(g, Used(s.done[..i]), j);
    WritesFit(g.entries, offset, records, Used(s.done[..i]) + 1 + offset);
    WithBatchIsLogged(g, Used(s.done[..i]), s.log, s.synced, j);
    first, place := Used(s.done[..i]) + 1 + offset, g.place.value;
    var start := AppliedHas(s.done, i);
    at := start + offset;
    WritesWithin(Applied(s.done), start, g.entries, offset, Inserted(s.current), records, first);
    UsedOneMore(s.done, i);
  }

  lemma WritesFit(entries: seq<Entry>, at: nat, records: seq<Record>, first: nat)
    requires Writes(entries, at, records, first)
    ensures at + |records| <= |entries|
  {
  }

  lemma ParticipantWrites(g: Group, before: nat, log: seq<D.Batch>, synced: nat)
    requires GoodGroup(g, before, log, synced) && g.ok
    ensures GroupWrites(g.members, g.entries, before) && Complete(g.members, g.entries)
  {
  }

  lemma WithBatchIsLogged(g: Group, before: nat, log: seq<D.Batch>, synced: nat, j: nat)
    requires GoodGroup(g, before, log, synced) && g.ok && j < |g.members| && g.entries != []
    ensures g.place.Some? && g.place.value < |log| && log[g.place.value] == g.entries
    ensures g.members[j].request.sync ==> g.place.value < synced
    ensures GroupWrites(g.members, g.entries, before) && Complete(g.members, g.entries)
  {
    hide Complete, Gathered;
    assert g.members[j] in g.members;
  }

  lemma WritesWithin(all: seq<Entry>, start: nat, part: seq<Entry>, offset: nat, rest: seq<Entry>, records: seq<Record>, first: nat)
    requires start + |part| <= |all| && all[start..start + |part|] == part && Writes(part, offset, records, first)
    ensures Writes(all + rest, start + offset, records, first)
  {
    forall k | 0 <= k < |records| ensures (all + rest)[start + offset + k] == D.EntryOf(D.OpOf(records[k]), first + k) {
      assert all[start..start + |part|][offset + k] == part[offset + k];
    }
  }

  lemma UsedOneMore(done: seq<Group>, i: nat)
    requires i < |done|
    ensures Used(done[..i]) + |done[i].entries| <= Used(done)
  {
    UsedGrows(done, i + 1);
    assert done[..i + 1][..i] == done[..i];
  }

  // ---- the groups are the writes of the database ----

  ghost predicate LastLogged(log: seq<D.Batch>, entries: D.Batch) {
    log != [] && log[|log| - 1] == entries
  }

  /** The database has the same sequence number, and the record that is in the log but not yet visible. After a failed
      sync that record stays as it is for good, its sequence numbers used up: a crash may or may not bring it back. */
  ghost predicate Simulates(s: State, db: D.DB) {
    if s.failed then
      && s.log != [] && db.inflight == Some(s.log[|s.log| - 1])
      && match s.current
         case None => s.lastSequence == db.lastSequence + |s.log[|s.log| - 1]|
         case Some(c) =>
           && c.phase == Decided(false)
           && if c.place.Some? then LastLogged(s.log, c.entries) && s.lastSequence == db.lastSequence
              else c.entries == [] && s.lastSequence == db.lastSequence + |s.log[|s.log| - 1]|
    else
      && db.lastSequence == s.lastSequence
      && match s.current
         case None => db.inflight == None
         case Some(c) =>
           if c.phase.Syncing? || c.phase.Inserting? then LastLogged(s.log, c.entries) && db.inflight == Some(c.entries)
           else db.inflight == None
  }

  /** The group is let go without having been written, although it had taken its sequence numbers. */
  predicate GivesUp(s: State, step: Step) {
    && step.Finish? && !s.failed && s.current.Some? && s.current.value.phase.Decided? && s.current.value.entries != []
    && s.current.value.size <= |s.queue|
  }

  /** What a step of the queue is to the database: appending a group's record begins a write, letting the group go ends
      it or, if the append failed, uses up its sequence numbers, and everything else is invisible. */
  lemma StepIsWrite(s: State, step: Step, s': State, db: D.DB) returns (db': D.DB)
    requires Inv(s) && Next(s, step, s') && Simulates(s, db)
    requires s.lastSequence + (if s.current.Some? then |s.current.value.entries| else 0) + 1 < MAX_SEQUENCE
    requires forall w, r :: w in s.queue && r in w.request.Records() ==> Small(r)
    ensures Simulates(s', db')
    ensures step.Append? && step.appended ==> D.Next(db, D.BeginWrite(GatheredFrom(s.queue[..s.current.value.size])), db')
    ensures step.Finish? && s.current.value.phase.Inserting? ==>
      D.Next(db, D.EndWrite, db') && db'.history == db.history + [s.current.value.entries]
    ensures GivesUp(s, step) ==> D.Next(db, D.FailWrite(GatheredFrom(s.queue[..s.current.value.size])), db')
    ensures !(step.Append? && step.appended) && !(step.Finish? && s.current.value.phase.Inserting?) && !GivesUp(s, step) ==>
      db' == db
  {
    hide InLine, AllAnswered, GoodGroups, Used, Applied, Gathered, IsGroup, Answer, LoggedAt, Encoded, D.OpsOf, D.Stamp;
    db' := db;
    if step.Append? && step.appended {
      CurrentEntries(s);
      var records := GatheredFrom(s.queue[..s.current.value.size]);
      GatheredAreAsked(RequestsIn(s.queue[..s.current.value.size]));
      db' := db.(memFile := db.memFile + [Encoded(db.lastSequence + 1, records)], inflight := Some(s.current.value.entries));
    } else if step.Finish? {
      var c := s.current.value;
      if c.phase.Inserting? {
        db' := db.(mem := db.mem + [c.entries], inflight := None, lastSequence := db.lastSequence + |c.entries|,
                   history := db.history + [c.entries]);
      } else if GivesUp(s, step) {
        db' := db.(lastSequence := db.lastSequence + |c.entries|);
      }
    }
  }

  lemma {:induction false} GatheredAreAsked(rs: seq<Request>)
    ensures forall r :: r in Gathered(rs) ==> exists request :: request in rs && r in request.Records()
  {
    if rs != [] {
      GatheredAreAsked(rs[..|rs| - 1]);
    }
  }

  lemma CurrentEntries(s: State)
    requires Inv(s) && s.current.Some? && s.current.value.phase.Appending? && s.lastSequence < MAX_SEQUENCE
    ensures s.current.value.size <= |s.queue|
    ensures var members := s.queue[..s.current.value.size];
            && s.lastSequence + |GatheredFrom(members)| < MAX_SEQUENCE
            && s.current.value.entries == EntriesOf(members, s.lastSequence)
  {
    hide InLine, AllAnswered, GoodGroups, Used, Applied, Gathered, LoggedAt;
    var members := s.queue[..s.current.value.size];
    assert |s.current.value.entries| == |GatheredFrom(members)|;
    if s.current.value.entries == [] {
      assert EntriesOf(members, s.lastSequence) == [];
    }
  }
}
