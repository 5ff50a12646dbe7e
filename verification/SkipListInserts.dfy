/** What a whole insertion into the skip list does, and that insertions and walks come to an end (db/skiplist.h). */
module SkipListInserts {
  import opened Wrappers
  import opened SkipLists

  // ---- what an insertion does ----

  function Max(a: nat, b: nat): nat {
    if a < b then b else a
  }

  /** The nodes of `s0`, with their keys and heights, and one node more. */
  ghost predicate Added(s0: List, key: Rank, height: nat, s: List) {
    && |s.nodes| == |s0.nodes| + 1 && s.maxHeight == Max(s0.maxHeight, height)
    && (forall n :: 0 <= n < |s0.nodes| ==> s.nodes[n].key == s0.nodes[n].key && |s.nodes[n].links| == |s0.nodes[n].links|)
    && s.nodes[|s0.nodes|].key == key && |s.nodes[|s0.nodes|].links| == height
  }

  /** How far an insertion that began in `s0` has come. */
  ghost predicate Inserting(s0: List, key: Rank, height: nat, s: List) {
    match s.writer
    case Idle => Added(s0, key, height, s)
    case Searching(k, h, _, _, _) => k == key && h == height && s.nodes == s0.nodes && s.maxHeight == s0.maxHeight
    case Raising(k, h, _) => k == key && h == height && s.nodes == s0.nodes && s.maxHeight == s0.maxHeight < h
    case Allocating(k, h, _) => k == key && h == height && s.nodes == s0.nodes && s.maxHeight == Max(s0.maxHeight, height)
    case Loading(node, _, _) => node == |s0.nodes| && Added(s0, key, height, s)
    case Storing(node, _, _, _) => node == |s0.nodes| && Added(s0, key, height, s)
    case Publishing(node, _, _) => node == |s0.nodes| && Added(s0, key, height, s)
  }

  lemma StepKeepsInserting(s0: List, key: Rank, height: nat, s: List, step: Step, s': List)
    requires Inserting(s0, key, height, s) && !s.writer.Idle? && Next(s, step, s')
    ensures Inserting(s0, key, height, s')
  {
  }

  lemma {:induction false} InsertingSoFar(states: seq<List>, steps: seq<Step>, i: nat, key: Rank, height: nat, j: nat)
    requires IsRun(states, steps) && i < j < |states| && steps[i] == BeginInsert(key, height)
    requires forall k :: i < k < j ==> !states[k].writer.Idle?
    ensures Inserting(states[i], key, height, states[j])
    decreases j
  {
    if i + 1 < j {
      InsertingSoFar(states, steps, i, key, height, j - 1);
      StepKeepsInserting(states[i], key, height, states[j - 1], steps[j - 1], states[j]);
    }
  }

  lemma AllPresent(s: List)
    requires Right(s) && s.writer.Idle?
    ensures forall n: nat :: n in Present(s) <==> 1 <= n < |s.nodes|
  {
    assert forall n: nat :: 1 <= n < |s.nodes| ==> Linked(MemoryOf(s), n, 0);
  }

  /** Over any interleaving, an insertion adds one node with its key to every level below its height, and leaves the keys,
      the heights and the presence of all others as they were. */
  lemma InsertAddsOne(states: seq<List>, steps: seq<Step>, i: nat, key: Rank, height: nat, j: nat)
    requires IsRun(states, steps) && i < j < |states| && steps[i] == BeginInsert(key, height)
    requires (forall k :: i < k < j ==> !states[k].writer.Idle?) && states[j].writer.Idle?
    ensures Added(states[i], key, height, states[j])
    ensures forall l: nat :: Linked(MemoryOf(states[j]), |states[i].nodes|, l) <==> l < height
    ensures Present(states[j]) == Present(states[i]) + {|states[i].nodes|}
  {
    InsertingSoFar(states, steps, i, key, height, j);
    RunKeepsInv(states, steps, i);
    RunKeepsInv(states, steps, j);
    assert Next(states[i], steps[i], states[i + 1]);
    AllPresent(states[i]);
    AllPresent(states[j]);
  }

  // ---- walks end ----

  /** What the nodes that lie ahead are. */
  ghost function Ahead(s: List, n: nat): set<nat> {
    if n < |s.nodes| then Later(MemoryOf(s), n) else {}
  }

  lemma AheadShrinks(s: List, n: nat, next: nat)
    requires n < |s.nodes| && next < |s.nodes| && Precedes(MemoryOf(s), n, next)
    ensures Ahead(s, next) < Ahead(s, n)
  {
    assert next in Ahead(s, n) && next !in Ahead(s, next);
  }

  /** One more load brings a walk down, or forward, or to rest. */
  lemma WalkMovesOn(s: List, r: Reader)
    requires Right(s) && ReaderOk(s, r) && r.position.Walking?
    ensures var x, level, r' := r.position.x, r.position.level, Walked(s, r);
            r'.position.Walking? ==>
              && r'.position.goal == r.position.goal
              && (r'.position.level < level
                  || (r'.position.level == level && x < |s.nodes| && r'.position.x < |s.nodes|
                      && Precedes(MemoryOf(s), x, r'.position.x)))
  {
    assert LinkRight(MemoryOf(s), r.position.x, r.position.level);
  }

  /** A walk that nobody interferes with. */
  ghost predicate IsWalk(s: List, walk: seq<Reader>) {
    && walk != [] && (forall i :: 0 <= i < |walk| - 1 ==> walk[i].position.Walking? && walk[i + 1] == Walked(s, walk[i]))
    && walk[|walk| - 1].position.Resting?
  }

  /** From any state of any run, a walk comes to rest at what it is for if left alone. */
  lemma {:induction false} WalkEnds(s: List, r: Reader) returns (walk: seq<Reader>)
    requires Right(s) && ReaderOk(s, r) && r.position.Walking?
    ensures IsWalk(s, walk) && walk[0] == r && Finds(s, r.position.goal, walk[|walk| - 1].position.node)
    decreases r.position.level, Ahead(s, r.position.x)
  {
    hide Right, ReaderOk, Finds;
    var r' := Walked(s, r);
    if r'.position.Resting? {
      WalkIsExact(s, r);
      walk := [r, r'];
    } else {
      WalkMovesOn(s, r);
      WalkKeepsReader(s, r);
      if r'.position.level == r.position.level {
        AheadShrinks(s, r.position.x, r'.position.x);
      }
      var rest := WalkEnds(s, r');
      walk := [r] + rest;
    }
  }

  // ---- insertions end ----

  /** The stage of an insertion, counted down. */
  function Stage(w: Writer): nat {
    match w
    case Idle => 0
    case Searching(_, _, _, _, _) => 4
    case Raising(_, _, _) => 3
    case Allocating(_, _, _) => 2
    case _ => 1
  }

  /** Levels still to be done. */
  function ToDo(s: List): nat {
    match s.writer
    case Searching(_, _, _, level, _) => level
    case Loading(node, i, _) => if node < |s.nodes| then Less(|s.nodes[node].links|, i) else 0
    case Storing(node, i, _, _) => if node < |s.nodes| then Less(|s.nodes[node].links|, i) else 0
    case Publishing(node, i, _) => if node < |s.nodes| then Less(|s.nodes[node].links|, i) else 0
    case _ => 0
  }

  function Less(a: nat, b: nat): nat {
    if a < b then 0 else a - b
  }

  /** Loads and stores still to be done at the level, or nodes still ahead. */
  ghost function ToDoHere(s: List): set<nat> {
    match s.writer
    case Searching(_, _, x, _, _) => Ahead(s, x)
    case Loading(_, _, _) => {0, 1}
    case Storing(_, _, _, _) => {0}
    case _ => {}
  }

  lemma SearchMovesOn(s: List, s': List)
    requires Right(s) && s.writer.Searching? && s' == WriterStepped(s)
    ensures s'.writer.Searching? ==>
      s'.writer.level < s.writer.level || (s'.writer.level == s.writer.level && ToDoHere(s') < ToDoHere(s))
  {
    var m, w := MemoryOf(s), s.writer;
    assert LinkRight(m, w.x, w.level);
    if KeyIsAfterNode(s, w.key, Load(s, w.x, w.level)) {
      AheadShrinks(s, w.x, s'.writer.x);
      assert Ahead(s', s'.writer.x) == Ahead(s, s'.writer.x);
    }
  }

  /** Every step of the writer brings an insertion nearer to its end. */
  lemma InsertMovesOn(s: List, s': List)
    requires Right(s) && !s.writer.Idle? && s' == WriterStepped(s)
    ensures Stage(s'.writer) < Stage(s.writer) || (Stage(s'.writer) == Stage(s.writer) &&
              (ToDo(s') < ToDo(s) || (ToDo(s') == ToDo(s) && ToDoHere(s') < ToDoHere(s))))
  {
    if s.writer.Searching? {
      SearchMovesOn(s, s');
    }
  }

  /** From any state of any run, an insertion ends if the writer goes on. */
  lemma {:induction false} InsertEnds(s: List) returns (states: seq<List>)
    requires Right(s)
    ensures states != [] && states[0] == s && states[|states| - 1].writer.Idle?
    ensures forall i :: 0 <= i < |states| - 1 ==> !states[i].writer.Idle? && Next(states[i], WriterStep, states[i + 1])
    decreases Stage(s.writer), ToDo(s), ToDoHere(s)
  {
    hide Right, Stage, ToDo, ToDoHere;
    if s.writer.Idle? {
      states := [s];
    } else {
      var s' := WriterStepped(s);
      StepKeepsRight(s, WriterStep, s');
      InsertMovesOn(s, s');
      var rest := InsertEnds(s');
      states := [s] + rest;
    }
  }
}
