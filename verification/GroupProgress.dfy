/** The queue of writers comes to an end: something can always go on, and every writer is answered (db/db_impl.cc). */
module GroupProgress {
  import opened Wrappers
  import opened InternalKeys
  import opened WriteBatches
  import opened GroupCommit
  import D = Database

  // ---- a leader always finds a group ----

  lemma {:induction false} GroupFrom(rs: seq<Request>, n: nat) returns (size: nat)
    requires 1 <= n <= |rs| && forall i :: 1 <= i < n ==> Joins(rs, i)
    ensures IsGroup(rs, size)
    decreases |rs| - n
  {
    if n < |rs| && Joins(rs, n) {
      size := GroupFrom(rs, n + 1);
    } else {
      size := n;
    }
  }

  // ---- what is left to do ----

  /** What the writer at the front still has before it, counted down. */
  function Stage(c: Option<Current>): nat {
    match c
    case None => 4
    case Some(c) =>
      match c.phase
      case Appending => 3
      case Syncing => 2
      case Inserting(_) => 1
      case Decided(_) => 0
  }

  function ToInsert(c: Option<Current>): nat {
    if c.Some? && c.value.phase.Inserting? && c.value.phase.inserted <= |c.value.entries| then
      |c.value.entries| - c.value.phase.inserted
    else 0
  }

  ghost predicate Less(s': State, s: State) {
    || |s'.queue| < |s.queue|
    || (|s'.queue| == |s.queue| && Stage(s'.current) < Stage(s.current))
    || (|s'.queue| == |s.queue| && Stage(s'.current) == Stage(s.current) && ToInsert(s'.current) < ToInsert(s.current))
  }

  /** Whatever happens, short of a new arrival, brings the queue nearer to its end. */
  lemma StepMovesOn(s: State, step: Step, s': State)
    requires Inv(s) && Next(s, step, s') && !step.Arrive?
    ensures Less(s', s)
  {
    hide InLine, AllAnswered, GoodGroups, GroupWrites, Applied, Used, Inserted, Answer, IsGroup, EntriesOf, GatheredFrom;
  }

  // ---- what can go on ----

  /** There are sequence numbers left for everything that was asked for. */
  ghost predicate Numbered(s: State) {
    s.lastSequence + |GatheredFrom(s.queue)| < MAX_SEQUENCE
  }

  lemma {:induction false} GatheredSplit(a: seq<Waiting>, b: seq<Waiting>)
    ensures GatheredFrom(a + b) == GatheredFrom(a) + GatheredFrom(b)
    decreases |b|
  {
    if b == [] {
      assert a + b == a;
    } else {
      var n := |b| - 1;
      GatheredSplit(a, b[..n]);
      var ab := a + b;
      assert ab[..|ab| - 1] == a + b[..n];
      assert RequestsIn(ab)[..|ab| - 1] == RequestsIn(a + b[..n]) && RequestsIn(b)[..n] == RequestsIn(b[..n]);
      assert GatheredFrom(ab) == GatheredFrom(a + b[..n]) + b[n].request.Records();
    }
  }

  /** Nothing has gone wrong. */
  predicate Smooth(s: State) {
    !s.failed && (s.current.Some? ==> s.current.value.phase != Decided(false))
  }

  lemma LeaderLeads(s: State) returns (step: Step, s': State)
    requires Inv(s) && s.queue != [] && Numbered(s) && s.current.None?
    ensures Next(s, step, s') && !step.Arrive? && (Smooth(s) ==> Smooth(s'))
  {
    hide Inv, Answer, FinishStep;
    if s.failed || s.queue[0].request.batch.None? {
      step := Lead(1, !s.failed);
      s' := s.(current := Some(Current(1, [], None, Decided(!s.failed))));
    } else {
      var rs := RequestsIn(s.queue);
      var n := GroupFrom(rs, 1);
      assert s.queue == s.queue[..n] + s.queue[n..];
      GatheredSplit(s.queue[..n], s.queue[n..]);
      hide IsGroup, GatheredFrom;
      step := Lead(n, true);
      s' := s.(current := Some(Current(n, EntriesOf(s.queue[..n], s.lastSequence), None, Appending)));
    }
  }

  function Finished(s: State, c: Current): State
    requires c.size <= |s.queue|
  {
    var members := s.queue[..c.size];
    s.(queue := s.queue[c.size..], current := None, lastSequence := s.lastSequence + |c.entries|,
       answers := Answer(s.answers, members, Verdict(c)),
       done := s.done + [Group(members, c.entries, c.place, Verdict(c))])
  }

  /** As long as anybody waits, something other than an arrival can happen; and it need not be a failure. */
  lemma StepIsPossible(s: State) returns (step: Step, s': State)
    requires Inv(s) && s.queue != [] && Numbered(s)
    ensures Next(s, step, s') && !step.Arrive? && (Smooth(s) ==> Smooth(s'))
  {
    if s.current.None? {
      step, s' := LeaderLeads(s);
      return;
    }
    var c := s.current.value;
    hide GroupWrites, InLine, AllAnswered, GoodGroups, Applied, Used, Inserted, Answer;
    match c.phase
    case Appending =>
      step := Append(true);
      s' := s.(log := s.log + [c.entries],
               current := Some(c.(place := Some(|s.log|), phase := if s.queue[0].request.sync then Syncing else Inserting(0))));
    case Syncing =>
      step := Sync(true);
      s' := s.(synced := |s.log|, current := Some(c.(phase := Inserting(0))));
    case Inserting(n) =>
      if n < |c.entries| {
        step := InsertEntry;
        s' := s.(mem := s.mem + [c.entries[n]], current := Some(c.(phase := Inserting(n + 1))));
      } else {
        step, s' := Finish, Finished(s, c);
      }
    case Decided(_) =>
      step, s' := Finish, Finished(s, c);
  }

  /** Finishing uses up no more numbers than were asked for. */
  lemma FinishKeepsNumbered(s: State, s': State)
    requires Inv(s) && Numbered(s) && FinishStep(s, s')
    ensures Numbered(s')
  {
    var c := s.current.value;
    var members := s.queue[..c.size];
    GatheredSplit(members, s.queue[c.size..]);
    assert s.queue == members + s.queue[c.size..];
    hide InLine, AllAnswered, GoodGroups, Applied, Used, Inserted, Answer, Gathered;
    assert GroupWrites(members, c.entries, s.lastSequence);
  }

  lemma StepKeepsNumbered(s: State, step: Step, s': State)
    requires Inv(s) && Numbered(s) && Next(s, step, s') && !step.Arrive?
    ensures Numbered(s')
  {
    if step.Finish? {
      FinishKeepsNumbered(s, s');
    }
    hide Inv, FinishStep, GatheredFrom;
  }

  /** Whoever has an answer keeps it; and where nothing has gone wrong, new answers say so. */
  ghost predicate Answers(s: State, s': State) {
    && s'.arrived == s.arrived
    && (forall id :: id in s.answers ==> id in s'.answers && s'.answers[id] == s.answers[id])
    && (Smooth(s) ==> forall id :: id in s'.answers && id !in s.answers ==> s'.answers[id])
  }

  lemma FinishAnswers(s: State, s': State)
    requires FinishStep(s, s') && forall id :: id in s.answers ==> id in s'.answers && s'.answers[id] == s.answers[id]
    ensures Answers(s, s')
  {
    var c := s.current.value;
    Answered(s.answers, s.queue[..c.size], Verdict(c));
    hide Answer, Ids;
    forall id | Smooth(s) && id in s'.answers && id !in s.answers ensures s'.answers[id] {
      var k :| 0 <= k < c.size && s.queue[k].id == id;
      assert s.queue[k] in s.queue[..c.size];
    }
  }

  lemma StepAnswers(s: State, step: Step, s': State)
    requires Inv(s) && Next(s, step, s') && !step.Arrive?
    ensures Answers(s, s')
  {
    hide Inv, Answer, Smooth, FinishStep;
    StepIsLater(s, step, s');
    if step.Finish? {
      FinishAnswers(s, s');
    }
  }

  lemma WorkedOff(s: State, s': State)
    requires Inv(s) && Inv(s') && s'.arrived == s.arrived && s'.queue == []
    ensures forall w :: w in s.queue ==> w.id in s'.answers
  {
    hide AllAnswered, GoodGroups, GoodCurrent, Used, Applied, Inserted, Released;
    forall w | w in s.queue ensures w.id in s'.answers {
      var k :| 0 <= k < |s.queue| && s.queue[k] == w;
      assert Ids(s.queue)[k] == w.id;
      assert w.id in Released(s.done) + Ids(s.queue);
      assert Released(s'.done) + Ids([]) == Released(s'.done);
    }
  }

  /** From any state of any run in which nobody else arrives, the queue can be worked off, and then everybody in it has an
      answer: of success, if nothing has gone wrong so far. By StepMovesOn there is no other way than to work it off. */
  lemma {:induction false} QueueEnds(s: State) returns (states: seq<State>, steps: seq<Step>)
    requires Inv(s) && Numbered(s)
    ensures |states| == |steps| + 1 && states[0] == s && states[|steps|].queue == []
    ensures forall i :: 0 <= i < |steps| ==> Next(states[i], steps[i], states[i + 1]) && !steps[i].Arrive?
    ensures Inv(states[|steps|]) && Answers(s, states[|steps|])
    ensures forall w :: w in s.queue ==> w.id in states[|steps|].answers
    decreases |s.queue|, Stage(s.current), ToInsert(s.current)
  {
    hide Inv, Numbered, Next, Smooth;
    if s.queue == [] {
      states, steps := [s], [];
    } else {
      var step, s' := StepIsPossible(s);
      StepKeepsInv(s, step, s');
      StepKeepsNumbered(s, step, s');
      StepMovesOn(s, step, s');
      StepAnswers(s, step, s');
      var rest, more := QueueEnds(s');
      states, steps := [s] + rest, [step] + more;
      WorkedOff(s, states[|steps|]);
    }
  }
}
