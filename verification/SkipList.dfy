/** The skip list of a memtable: one writer, any number of readers without locks, interleaved at single loads
    and stores (db/skiplist.h). */
module SkipLists {
  import opened Wrappers

  const MAX_HEIGHT: nat := 12
  const HEAD: nat := 0

  /** Keys are given by their rank in the comparator's order. */
  type Rank = real

  datatype Link = Uninitialised | Null | To(node: nat)

  /** As many links as the node is high; what the arena held before is not a link. */
  datatype Node = Node(key: Rank, links: seq<Link>)

  // ---- the programs' states: what each has loaded so far ----

  datatype Writer =
    | Idle
    | Searching(key: Rank, height: nat, x: nat, level: nat, prev: map<nat, nat>)
    | Raising(key: Rank, height: nat, prev: map<nat, nat>)
    | Allocating(key: Rank, height: nat, prev: map<nat, nat>)
    | Loading(node: nat, i: nat, prev: map<nat, nat>)
    | Storing(node: nat, i: nat, prev: map<nat, nat>, next: Link)
    | Publishing(node: nat, i: nat, prev: map<nat, nat>)

  datatype Goal = AtOrAfter(target: Rank) | Before(target: Rank) | Last

  datatype Position = Resting(node: Option<nat>) | Walking(goal: Goal, x: nat, level: nat)

  /** What a scan from `from` on has been through: the nodes in the list when it began, and those it yielded. */
  datatype Scan = NoScan | Scan(from: Option<Rank>, begun: set<nat>, visited: seq<nat>)

  datatype Reader = Reader(position: Position, scan: Scan)

  datatype List = List(nodes: seq<Node>, maxHeight: nat, writer: Writer, readers: seq<Reader>)

  // ---- structure ----

  /** The nodes, and the one that is being linked in with the number of levels it has reached. */
  datatype Memory = Memory(nodes: seq<Node>, pending: nat, reached: nat)

  function MemoryOf(s: List): Memory {
    match s.writer
    case Loading(node, i, _) => Memory(s.nodes, node, i)
    case Storing(node, i, _, _) => Memory(s.nodes, node, i)
    case Publishing(node, i, _) => Memory(s.nodes, node, i)
    case _ => Memory(s.nodes, HEAD, 0)
  }

  predicate Linked(m: Memory, n: nat, l: nat) {
    n < |m.nodes| && l < |m.nodes[n].links| && !(n == m.pending != HEAD && l >= m.reached)
  }

  /** The order of the list; the head comes before every key. */
  predicate Precedes(m: Memory, a: nat, b: nat)
    requires a < |m.nodes| && b < |m.nodes|
  {
    b != HEAD && (a == HEAD || m.nodes[a].key < m.nodes[b].key)
  }

  predicate BeforeKey(m: Memory, n: nat, key: Rank)
    requires n < |m.nodes|
  {
    n == HEAD || m.nodes[n].key < key
  }

  /** A link leads to the next of the nodes linked at its level. */
  ghost predicate LinkRight(m: Memory, n: nat, l: nat)
    requires n < |m.nodes| && l < |m.nodes[n].links|
  {
    match m.nodes[n].links[l]
    case Uninitialised => false
    case Null => forall k :: Linked(m, k, l) ==> !Precedes(m, n, k)
    case To(next) =>
      && Linked(m, next, l) && Precedes(m, n, next)
      && forall k :: Linked(m, k, l) && Precedes(m, n, k) ==> k == next || Precedes(m, next, k)
  }

  ghost predicate Links(m: Memory) {
    forall n, l :: Linked(m, n, l) ==> LinkRight(m, n, l)
  }

  ghost predicate Shape(m: Memory, maxHeight: nat) {
    && |m.nodes| > 0 && |m.nodes[HEAD].links| == MAX_HEIGHT && 1 <= maxHeight <= MAX_HEIGHT
    && (forall n :: 1 <= n < |m.nodes| ==> 1 <= |m.nodes[n].links| <= maxHeight)
    && forall a, b :: 1 <= a < b < |m.nodes| ==> m.nodes[a].key != m.nodes[b].key
  }

  ghost predicate Fresh(m: Memory, key: Rank) {
    forall n :: 1 <= n < |m.nodes| ==> m.nodes[n].key != key
  }

  /** `p` is the last node at level `l` before a key. */
  ghost predicate LastBefore(m: Memory, key: Rank, p: nat, l: nat) {
    && Linked(m, p, l) && BeforeKey(m, p, key)
    && forall k :: Linked(m, k, l) && BeforeKey(m, k, key) ==> k == p || Precedes(m, k, p) || k == HEAD
  }

  ghost predicate Prevs(m: Memory, key: Rank, prev: map<nat, nat>, from: nat, to: nat) {
    forall l :: from <= l < to ==> l in prev && LastBefore(m, key, prev[l], l)
  }

  ghost predicate WriterOk(m: Memory, maxHeight: nat, w: Writer) {
    match w
    case Idle => true
    case Searching(key, height, x, level, prev) =>
      && 1 <= height <= MAX_HEIGHT && level < maxHeight && Fresh(m, key)
      && Linked(m, x, level) && BeforeKey(m, x, key) && Prevs(m, key, prev, level + 1, maxHeight)
    case Raising(key, height, prev) =>
      maxHeight < height <= MAX_HEIGHT && Fresh(m, key) && Prevs(m, key, prev, 0, maxHeight)
    case Allocating(key, height, prev) =>
      1 <= height <= maxHeight && Fresh(m, key) && Prevs(m, key, prev, 0, height)
    case Loading(node, i, prev) => InsertOk(m, node, i, prev)
    case Storing(node, i, prev, next) => InsertOk(m, node, i, prev) && next == m.nodes[prev[i]].links[i]
    case Publishing(node, i, prev) => InsertOk(m, node, i, prev) && m.nodes[node].links[i] == m.nodes[prev[i]].links[i]
  }

  ghost predicate InsertOk(m: Memory, node: nat, i: nat, prev: map<nat, nat>) {
    && 1 <= node < |m.nodes| && i < |m.nodes[node].links| && m.pending == node && m.reached == i
    && Prevs(m, m.nodes[node].key, prev, i, |m.nodes[node].links|)
  }

  // ---- steps: each loads or stores one link, or the height ----

  /** A link load. Beyond a node's height lies no link. */
  function Load(s: List, n: nat, l: nat): Link {
    if n < |s.nodes| && l < |s.nodes[n].links| then s.nodes[n].links[l] else Uninitialised
  }

  function Store(s: List, n: nat, l: nat, link: Link): List {
    if n < |s.nodes| && l < |s.nodes[n].links| then
      s.(nodes := s.nodes[n := s.nodes[n].(links := s.nodes[n].links[l := link])])
    else s
  }

  predicate KeyIsAfterNode(s: List, key: Rank, link: Link) {
    link.To? && link.node < |s.nodes| && s.nodes[link.node].key < key
  }

  datatype Step =
    | BeginInsert(key: Rank, height: nat)
    | WriterStep
    | BeginSeek(reader: nat, goal: Goal)
    | BeginFirst(reader: nat)
    | ReaderNext(reader: nat)
    | ReaderStep(reader: nat)

  /** The writer after one more load of its search. */
  function Searched(s: List): Writer
    requires s.writer.Searching?
  {
    var w := s.writer;
    var next := Load(s, w.x, w.level);
    if KeyIsAfterNode(s, w.key, next) then w.(x := next.node)
    else if w.level > 0 then w.(level := w.level - 1, prev := w.prev[w.level := w.x])
    else
      var prev := w.prev[0 := w.x];
      if w.height > s.maxHeight then Raising(w.key, w.height, prev) else Allocating(w.key, w.height, prev)
  }

  /** Levels above the old height start at the head. */
  function Raised(prev: map<nat, nat>, maxHeight: nat, height: nat): map<nat, nat> {
    map l: nat | l < height :: if l < maxHeight && l in prev then prev[l] else HEAD
  }

  function At(prev: map<nat, nat>, i: nat): nat {
    if i in prev then prev[i] else HEAD
  }

  function WriterStepped(s: List): List {
    match s.writer
    case Idle => s
    case Searching(_, _, _, _, _) => s.(writer := Searched(s))
    case Raising(key, height, prev) =>
      s.(maxHeight := height, writer := Allocating(key, height, Raised(prev, s.maxHeight, height)))
    case Allocating(key, height, prev) =>
      s.(nodes := s.nodes + [Node(key, seq(height, _ => Uninitialised))], writer := Loading(|s.nodes|, 0, prev))
    case Loading(node, i, prev) => s.(writer := Storing(node, i, prev, Load(s, At(prev, i), i)))
    case Storing(node, i, prev, next) => Store(s, node, i, next).(writer := Publishing(node, i, prev))
    case Publishing(node, i, prev) =>
      Store(s, At(prev, i), i, To(node))
      .(writer := if node < |s.nodes| && i + 1 < |s.nodes[node].links| then Loading(node, i + 1, prev) else Idle)
  }

  function Present(s: List): set<nat> {
    set n: nat | 1 <= n < |s.nodes| && Linked(MemoryOf(s), n, 0)
  }

  /** A reader that has just found `node` on its way forward. */
  function Yielded(r: Reader, node: Option<nat>): Reader {
    Reader(Resting(node),
           if r.scan.Scan? && node.Some? then r.scan.(visited := r.scan.visited + [node.value]) else r.scan)
  }

  function AsOption(link: Link): Option<nat> {
    if link.To? then Some(link.node) else None
  }

  function Continues(s: List, goal: Goal, link: Link): bool {
    match goal
    case AtOrAfter(target) => KeyIsAfterNode(s, target, link)
    case Before(target) => KeyIsAfterNode(s, target, link)
    case Last => link.To?
  }

  /** A reader after one more load of its walk. */
  function Walked(s: List, r: Reader): Reader
    requires r.position.Walking?
  {
    var Walking(goal, x, level) := r.position;
    var next := Load(s, x, level);
    if Continues(s, goal, next) && next.To? then r.(position := Walking(goal, next.node, level))
    else if level > 0 then r.(position := Walking(goal, x, level - 1))
    else if goal.AtOrAfter? then Yielded(r, AsOption(next))
    else r.(position := Resting(if x == HEAD then None else Some(x)))
  }

  function Begun(s: List, goal: Goal): Reader {
    Reader(Walking(goal, HEAD, if s.maxHeight > 0 then s.maxHeight - 1 else 0),
           if goal.AtOrAfter? then Scan(Some(goal.target), Present(s), []) else NoScan)
  }

  ghost predicate Next(s: List, step: Step, s': List) {
    match step
    case BeginInsert(key, height) =>
      && s.writer.Idle? && 1 <= height <= MAX_HEIGHT && Fresh(MemoryOf(s), key) && s.maxHeight > 0
      && s' == s.(writer := Searching(key, height, HEAD, s.maxHeight - 1, map[]))
    case WriterStep => s' == WriterStepped(s)
    case BeginSeek(r, goal) =>
      r < |s.readers| && s' == s.(readers := s.readers[r := Begun(s, goal)])
    case BeginFirst(r) =>
      && r < |s.readers|
      && s' == s.(readers := s.readers[r := Yielded(Reader(Resting(None), Scan(None, Present(s), [])), AsOption(Load(s, HEAD, 0)))])
    case ReaderNext(r) =>
      && r < |s.readers| && s.readers[r].position.Resting? && s.readers[r].position.node.Some?
      && s' == s.(readers := s.readers[r := Yielded(s.readers[r], AsOption(Load(s, s.readers[r].position.node.value, 0)))])
    case ReaderStep(r) =>
      && r < |s.readers| && s.readers[r].position.Walking?
      && s' == s.(readers := s.readers[r := Walked(s, s.readers[r])])
  }

  ghost predicate Init(s: List) {
    && |s.nodes| == 1 && s.nodes[HEAD].links == seq(MAX_HEIGHT, _ => Null)
    && s.maxHeight == 1 && s.writer == Idle
    && forall r :: r in s.readers ==> r == Reader(Resting(None), NoScan)
  }

  // ---- the writer ----

  ghost predicate Right(s: List) {
    Shape(MemoryOf(s), s.maxHeight) && Links(MemoryOf(s)) && WriterOk(MemoryOf(s), s.maxHeight, s.writer)
  }

  lemma InitIsRight(s: List)
    requires Init(s)
    ensures Right(s)
  {
  }

  /** The next node at a level that does not reach the key ends the search there. */
  lemma SearchSettles(m: Memory, maxHeight: nat, key: Rank, x: nat, l: nat)
    requires Shape(m, maxHeight) && Links(m) && Linked(m, x, l) && BeforeKey(m, x, key)
    requires match m.nodes[x].links[l]
             case To(next) => next < |m.nodes| ==> m.nodes[next].key >= key
             case _ => true
    ensures LastBefore(m, key, x, l)
  {
    assert LinkRight(m, x, l);
    forall k | Linked(m, k, l) && BeforeKey(m, k, key) ensures k == x || Precedes(m, k, x) || k == HEAD {
      assert !Precedes(m, x, k);
    }
  }

  lemma SearchKeepsRight(s: List, s': List)
    requires Right(s) && s.writer.Searching? && s' == WriterStepped(s)
    ensures Right(s')
  {
    var m, w := MemoryOf(s), s.writer;
    assert LinkRight(m, w.x, w.level);
    if !KeyIsAfterNode(s, w.key, Load(s, w.x, w.level)) {
      SearchSettles(m, s.maxHeight, w.key, w.x, w.level);
    }
  }

  lemma RaiseKeepsRight(s: List, s': List)
    requires Right(s) && s.writer.Raising? && s' == WriterStepped(s)
    ensures Right(s')
  {
    var m, w := MemoryOf(s), s.writer;
    forall l: nat | s.maxHeight <= l < w.height ensures LastBefore(m, w.key, HEAD, l) {
    }
    forall l | 0 <= l < s.maxHeight ensures LastBefore(m, w.key, w.prev[l], l) {
      assert l in w.prev;
    }
  }

  /** The same nodes are linked at level `l`, with the same keys. */
  ghost predicate SameLevel(m: Memory, m': Memory, l: nat) {
    && |m.nodes| <= |m'.nodes|
    && (forall n: nat :: n < |m.nodes| ==> m'.nodes[n].key == m.nodes[n].key)
    && forall n: nat :: Linked(m', n, l) <==> Linked(m, n, l)
  }

  lemma SameLevelSameLinks(m: Memory, m': Memory, l: nat, n: nat)
    requires SameLevel(m, m', l) && Linked(m, n, l) && LinkRight(m, n, l) && m'.nodes[n].links[l] == m.nodes[n].links[l]
    ensures LinkRight(m', n, l)
  {
  }

  lemma SameLevelSamePrev(m: Memory, m': Memory, l: nat, key: Rank, p: nat)
    requires SameLevel(m, m', l) && LastBefore(m, key, p, l)
    ensures LastBefore(m', key, p, l)
  {
  }

  /** A new node is nowhere in the list yet. */
  lemma AllocateKeepsRight(s: List, s': List)
    requires Right(s) && s.writer.Allocating? && s' == WriterStepped(s)
    ensures Right(s')
  {
    var m, m', w := MemoryOf(s), MemoryOf(s'), s.writer;
    assert forall n: nat :: n < |m.nodes| ==> m'.nodes[n] == m.nodes[n];
    forall n: nat, l: nat | Linked(m', n, l) ensures LinkRight(m', n, l) {
      SameLevelSameLinks(m, m', l, n);
    }
    forall l | 0 <= l < w.height ensures LastBefore(m', w.key, w.prev[l], l) {
      assert l in w.prev;
      SameLevelSamePrev(m, m', l, w.key, w.prev[l]);
    }
  }

  lemma LoadKeepsRight(s: List, s': List)
    requires Right(s) && s.writer.Loading? && s' == WriterStepped(s)
    ensures Right(s') && s'.writer.next != Uninitialised
  {
    var m, w := MemoryOf(s), s.writer;
    assert LastBefore(m, m.nodes[w.node].key, w.prev[w.i], w.i);
    assert LinkRight(m, w.prev[w.i], w.i);
  }

  /** Storing into the new node changes nothing that can be reached. */
  lemma StoreKeepsRight(s: List, s': List)
    requires Right(s) && s.writer.Storing? && s' == WriterStepped(s)
    ensures Right(s')
  {
    var m, m', w := MemoryOf(s), MemoryOf(s'), s.writer;
    var node := m.nodes[w.node];
    assert m'.nodes == m.nodes[w.node := node.(links := node.links[w.i := w.next])];
    assert forall l: nat :: SameLevel(m, m', l);
    forall n: nat, l: nat | Linked(m', n, l) ensures LinkRight(m', n, l) {
      SameLevelSameLinks(m, m', l, n);
    }
    forall l: nat | w.i <= l < |node.links| ensures LastBefore(m', node.key, w.prev[l], l) {
      assert l in w.prev;
      SameLevelSamePrev(m, m', l, node.key, w.prev[l]);
    }
    assert LastBefore(m, node.key, w.prev[w.i], w.i);
  }

  /** At level `l` exactly `node` has been added, after its predecessor `p`. */
  ghost predicate Published(m: Memory, m': Memory, l: nat, p: nat, node: nat) {
    && 1 <= node < |m.nodes| == |m'.nodes| && !Linked(m, node, l) && LastBefore(m, m.nodes[node].key, p, l)
    && (forall n: nat :: n < |m.nodes| ==> m'.nodes[n].key == m.nodes[n].key && |m'.nodes[n].links| == |m.nodes[n].links|)
    && (forall n: nat :: Linked(m', n, l) <==> Linked(m, n, l) || n == node)
    && m'.nodes[p].links[l] == To(node) && m'.nodes[node].links[l] == m.nodes[p].links[l]
    && forall n: nat :: Linked(m, n, l) && n != p ==> m'.nodes[n].links[l] == m.nodes[n].links[l]
  }

  lemma PublishedLinks(m: Memory, m': Memory, maxHeight: nat, l: nat, p: nat, node: nat, n: nat)
    requires Shape(m, maxHeight) && Links(m) && Published(m, m', l, p, node) && Linked(m', n, l)
    ensures LinkRight(m', n, l)
  {
    assert LinkRight(m, p, l);
    assert n != p && n != node ==> LinkRight(m, n, l);
    hide Links;
    forall k: nat | Linked(m, k, l) ensures Precedes(m, p, k) ==> Precedes(m, node, k) {
      assert m.nodes[k].key != m.nodes[node].key || k == HEAD;
    }
    hide Shape;
    if n != p && n != node {
      assert BeforeKey(m, n, m.nodes[node].key) ==> Precedes(m, n, p);
    }
  }

  lemma PublishIsPublished(s: List, s': List)
    requires Right(s) && s.writer.Publishing? && s' == WriterStepped(s)
    ensures var w := s.writer; Published(MemoryOf(s), MemoryOf(s'), w.i, w.prev[w.i], w.node)
    ensures forall l: nat :: l != s.writer.i ==> SameLevel(MemoryOf(s), MemoryOf(s'), l)
    ensures forall n: nat, l: nat :: l != s.writer.i && Linked(MemoryOf(s), n, l) ==>
      s'.nodes[n].links[l] == s.nodes[n].links[l]
    ensures Shape(MemoryOf(s'), s'.maxHeight)
  {
    var m, w := MemoryOf(s), s.writer;
    var p := w.prev[w.i];
    assert LastBefore(m, m.nodes[w.node].key, p, w.i);
    assert s'.nodes == s.nodes[p := s.nodes[p].(links := s.nodes[p].links[w.i := To(w.node)])];
  }

  /** The moment a level's link is stored, the node is in that level's list. */
  lemma PublishKeepsRight(s: List, s': List)
    requires Right(s) && s.writer.Publishing? && s' == WriterStepped(s)
    ensures Right(s')
  {
    var m, m', w := MemoryOf(s), MemoryOf(s'), s.writer;
    PublishIsPublished(s, s');
    hide Published, Shape;
    forall n: nat, l: nat | Linked(m', n, l) ensures LinkRight(m', n, l) {
      if l == w.i {
        PublishedLinks(m, m', s.maxHeight, l, w.prev[l], w.node, n);
      } else {
        SameLevelSameLinks(m, m', l, n);
      }
    }
    var key, height := m.nodes[w.node].key, |m.nodes[w.node].links|;
    assert m'.nodes[w.node].key == key && |m'.nodes[w.node].links| == height by {
      PublishedNode(m, m', w.i, w.prev[w.i], w.node);
    }
    forall l: nat | w.i < l < height ensures l in w.prev && LastBefore(m', key, w.prev[l], l) {
      SameLevelSamePrev(m, m', l, key, w.prev[l]);
    }
  }

  lemma PublishedNode(m: Memory, m': Memory, l: nat, p: nat, node: nat)
    requires Published(m, m', l, p, node)
    ensures m'.nodes[node].key == m.nodes[node].key && |m'.nodes[node].links| == |m.nodes[node].links|
  {
  }

  /** Every store of the writer keeps every level a sorted list of the nodes linked there, however far the
      insertion has got. */
  lemma StepKeepsRight(s: List, step: Step, s': List)
    requires Right(s) && Next(s, step, s')
    ensures Right(s')
  {
    if step.WriterStep? {
      match s.writer
      case Idle =>
      case Searching(_, _, _, _, _) => SearchKeepsRight(s, s');
      case Raising(_, _, _) => RaiseKeepsRight(s, s');
      case Allocating(_, _, _) => AllocateKeepsRight(s, s');
      case Loading(_, _, _) => LoadKeepsRight(s, s');
      case Storing(_, _, _, _) => StoreKeepsRight(s, s');
      case Publishing(_, _, _) => PublishKeepsRight(s, s');
    }
  }

  // ---- what a step changes for readers: links appear, and none goes away ----

  ghost predicate Grows(s: List, s': List) {
    && |s.nodes| <= |s'.nodes|
    && (forall n: nat :: n < |s.nodes| ==> s'.nodes[n].key == s.nodes[n].key)
    && forall n: nat, l: nat :: Linked(MemoryOf(s), n, l) ==> Linked(MemoryOf(s'), n, l)
  }

  lemma PublishGrows(s: List, s': List)
    requires Right(s) && s.writer.Publishing? && s' == WriterStepped(s)
    ensures Grows(s, s') && s.maxHeight <= s'.maxHeight
  {
    PublishIsPublished(s, s');
    hide Right, Shape;
    var w := s.writer;
    forall n: nat, l: nat | Linked(MemoryOf(s), n, l) ensures Linked(MemoryOf(s'), n, l) {
      if l != w.i {
        assert SameLevel(MemoryOf(s), MemoryOf(s'), l);
      }
    }
  }

  lemma StepGrows(s: List, step: Step, s': List)
    requires Right(s) && Next(s, step, s')
    ensures Grows(s, s') && s.maxHeight <= s'.maxHeight
  {
    if step.WriterStep? && s.writer.Publishing? {
      hide Next, Right, Shape;
      PublishGrows(s, s');
    }
  }

  // ---- readers ----

  /** A scan from `from` that stands at `node` must have met `b`. */
  predicate Passed(s: List, from: Option<Rank>, node: Option<nat>, b: nat) {
    && b < |s.nodes| && (from.Some? ==> from.value <= s.nodes[b].key)
    && (node.Some? ==> node.value < |s.nodes| && s.nodes[b].key <= s.nodes[node.value].key)
  }

  ghost predicate Rising(s: List, visited: seq<nat>) {
    && (forall i :: 0 <= i < |visited| ==> visited[i] < |s.nodes|)
    && forall i, j :: 0 <= i < j < |visited| ==> s.nodes[visited[i]].key < s.nodes[visited[j]].key
  }

  ghost predicate ScanOk(s: List, r: Reader)
    requires r.scan.Scan?
  {
    var Scan(from, begun, visited) := r.scan;
    && (forall b :: b in begun ==> Linked(MemoryOf(s), b, 0) && b != HEAD)
    && (forall i :: 0 <= i < |visited| ==> Linked(MemoryOf(s), visited[i], 0) && visited[i] != HEAD)
    && Rising(s, visited)
    && (forall i :: 0 <= i < |visited| && from.Some? ==> from.value <= s.nodes[visited[i]].key)
    && match r.position
       case Resting(node) =>
         && (node.Some? ==> visited != [] && visited[|visited| - 1] == node.value)
         && forall b :: b in begun && Passed(s, from, node, b) ==> b in visited
       case Walking(goal, _, _) => visited == [] && from.Some? && goal == AtOrAfter(from.value)
  }

  ghost predicate ReaderOk(s: List, r: Reader) {
    && (match r.position
        case Resting(node) => node.Some? ==> node.value != HEAD && Linked(MemoryOf(s), node.value, 0)
        case Walking(goal, x, level) =>
          && Linked(MemoryOf(s), x, level)
          && (goal.Last? || BeforeKey(MemoryOf(s), x, goal.target)))
    && (r.scan.Scan? ==> ScanOk(s, r))
  }

  lemma GrowthKeepsReader(s: List, s': List, r: Reader)
    requires Grows(s, s') && ReaderOk(s, r)
    ensures ReaderOk(s', r)
  {
  }

  /** A reader never follows a link that was not stored, and never looks beyond a node's height. */
  lemma NeverUninitialised(s: List, r: Reader)
    requires Right(s) && ReaderOk(s, r)
    ensures match r.position
            case Walking(_, x, level) => Load(s, x, level) != Uninitialised
            case Resting(Some(n)) => Load(s, n, 0) != Uninitialised
            case Resting(None) => true
  {
    match r.position
    case Walking(_, x, level) => assert LinkRight(MemoryOf(s), x, level);
    case Resting(Some(n)) => assert LinkRight(MemoryOf(s), n, 0);
    case _ =>
  }

  ghost predicate InList(s: List, n: nat) {
    Linked(MemoryOf(s), n, 0) && n != HEAD
  }

  /** `node` is what a walk with this goal should find in the list as it is now. */
  ghost predicate Finds(s: List, goal: Goal, node: Option<nat>) {
    && (node.Some? ==> InList(s, node.value))
    && match goal
       case AtOrAfter(target) =>
         && (node.Some? ==> target <= s.nodes[node.value].key)
         && forall k: nat :: InList(s, k) && target <= s.nodes[k].key ==>
              node.Some? && s.nodes[node.value].key <= s.nodes[k].key
       case Before(target) =>
         && (node.Some? ==> s.nodes[node.value].key < target)
         && forall k: nat :: InList(s, k) && s.nodes[k].key < target ==>
              node.Some? && s.nodes[k].key <= s.nodes[node.value].key
       case Last =>
         forall k: nat :: InList(s, k) ==> node.Some? && s.nodes[k].key <= s.nodes[node.value].key
  }

  /** A walk is exact at its last load, whatever was inserted while it was under way. */
  lemma WalkIsExact(s: List, r: Reader)
    requires Right(s) && ReaderOk(s, r) && r.position.Walking? && Walked(s, r).position.Resting?
    ensures Finds(s, r.position.goal, Walked(s, r).position.node)
  {
    var m := MemoryOf(s);
    assert LinkRight(m, r.position.x, 0);
    hide Shape, Links, WriterOk;
  }

  lemma WalkKeepsPosition(s: List, r: Reader)
    requires Right(s) && ReaderOk(s, r) && r.position.Walking?
    ensures ReaderOk(s, Walked(s, r).(scan := NoScan))
  {
    assert LinkRight(MemoryOf(s), r.position.x, r.position.level);
  }

  lemma WalkKeepsReader(s: List, r: Reader)
    requires Right(s) && ReaderOk(s, r) && r.position.Walking?
    ensures ReaderOk(s, Walked(s, r))
  {
    WalkKeepsPosition(s, r);
    var r' := Walked(s, r);
    if r'.scan.Scan? && r'.position.Resting? {
      WalkIsExact(s, r);
      forall b | b in r'.scan.begun && Passed(s, r'.scan.from, r'.position.node, b) ensures b in r'.scan.visited {
        assert InList(s, b);
        SameKeySameNode(s, b, r'.position.node.value);
      }
    }
  }

  lemma SameKeySameNode(s: List, a: nat, b: nat)
    requires Right(s) && InList(s, a) && InList(s, b) && s.nodes[a].key == s.nodes[b].key
    ensures a == b
  {
  }

  /** Moving on loads the next node of the list as it is now. */
  lemma NextIsExact(s: List, n: nat)
    requires Right(s) && Linked(MemoryOf(s), n, 0)
    ensures var next := AsOption(Load(s, n, 0));
            && (next.Some? ==> InList(s, next.value) && Precedes(MemoryOf(s), n, next.value))
            && forall k: nat :: InList(s, k) && Precedes(MemoryOf(s), n, k) ==>
                 next.Some? && s.nodes[next.value].key <= s.nodes[k].key
  {
    assert LinkRight(MemoryOf(s), n, 0);
  }

  lemma NextKeepsReader(s: List, r: Reader)
    requires Right(s) && ReaderOk(s, r) && r.position.Resting? && r.position.node.Some?
    ensures ReaderOk(s, Yielded(r, AsOption(Load(s, r.position.node.value, 0))))
  {
    hide Right;
    var n := r.position.node.value;
    var r' := Yielded(r, AsOption(Load(s, n, 0)));
    NextIsExact(s, n);
    if r.scan.Scan? {
      forall b | b in r'.scan.begun && Passed(s, r'.scan.from, r'.position.node, b) ensures b in r'.scan.visited {
        assert InList(s, b);
        if s.nodes[b].key <= s.nodes[n].key {
          assert Passed(s, r.scan.from, r.position.node, b);
          assert b in r.scan.visited;
        } else {
          SameKeySameNode(s, b, r'.position.node.value);
        }
      }
    }
  }

  lemma FirstKeepsReader(s: List)
    requires Right(s)
    ensures ReaderOk(s, Yielded(Reader(Resting(None), Scan(None, Present(s), [])), AsOption(Load(s, HEAD, 0))))
  {
    var r' := Yielded(Reader(Resting(None), Scan(None, Present(s), [])), AsOption(Load(s, HEAD, 0)));
    NextIsExact(s, HEAD);
    forall b | b in r'.scan.begun && Passed(s, None, r'.position.node, b) ensures b in r'.scan.visited {
      assert InList(s, b);
      SameKeySameNode(s, b, r'.position.node.value);
    }
  }

  // ---- runs ----

  ghost predicate Inv(s: List) {
    Right(s) && forall r :: r in s.readers ==> ReaderOk(s, r)
  }

  lemma ReaderStepKeepsReader(s: List, step: Step, s': List, i: nat)
    requires Inv(s) && Next(s, step, s') && i < |s.readers|
    ensures |s'.readers| == |s.readers| && (MemoryOf(s') == MemoryOf(s) || s'.readers == s.readers)
    ensures s'.readers[i] != s.readers[i] ==> ReaderOk(s, s'.readers[i])
  {
    if s'.readers[i] != s.readers[i] {
      assert s.readers[i] in s.readers;
      match step
      case BeginSeek(_, goal) =>
      case BeginFirst(_) => FirstKeepsReader(s);
      case ReaderNext(_) => NextKeepsReader(s, s.readers[i]);
      case ReaderStep(_) => WalkKeepsReader(s, s.readers[i]);
    }
  }

  lemma StepKeepsInv(s: List, step: Step, s': List)
    requires Inv(s) && Next(s, step, s')
    ensures Inv(s')
  {
    StepKeepsRight(s, step, s');
    StepGrows(s, step, s');
    forall r | r in s'.readers ensures ReaderOk(s', r) {
      var i :| 0 <= i < |s'.readers| && s'.readers[i] == r;
      ReaderStepKeepsReader(s, step, s', i);
      assert s.readers[i] in s.readers;
      GrowthKeepsReader(s, s', r);
    }
  }

  ghost predicate IsRun(states: seq<List>, steps: seq<Step>) {
    && |states| == |steps| + 1 && Init(states[0])
    && forall i :: 0 <= i < |steps| ==> Next(states[i], steps[i], states[i + 1])
  }

  /** Over every interleaving of the writer's and the readers' loads and stores. */
  lemma {:induction false} RunKeepsInv(states: seq<List>, steps: seq<Step>, i: nat)
    requires IsRun(states, steps) && i < |states|
    ensures Inv(states[i])
  {
    if i == 0 {
      InitIsRight(states[0]);
      assert forall r :: r in states[0].readers ==> ReaderOk(states[0], r);
    } else {
      RunKeepsInv(states, steps, i - 1);
      StepKeepsInv(states[i - 1], steps[i - 1], states[i]);
    }
  }

  /** What a reader's scan from a key, or from the beginning, amounts to: it has yielded nodes of rising keys in
      its range, and by its end every node of the range that was in the list when it began. */
  lemma ScanMissesNothing(states: seq<List>, steps: seq<Step>, i: nat, r: Reader)
    requires IsRun(states, steps) && i < |states| && r in states[i].readers && r.scan.Scan?
    ensures var s, Scan(from, begun, visited) := states[i], r.scan;
            && (forall v :: v in visited ==> InList(s, v) && (from.Some? ==> from.value <= s.nodes[v].key))
            && Rising(s, visited)
            && (r.position == Resting(None) ==>
                  forall b :: b in begun && (from.Some? ==> b < |s.nodes| && from.value <= s.nodes[b].key) ==> b in visited)
  {
    RunKeepsInv(states, steps, i);
    assert ReaderOk(states[i], r) && ScanOk(states[i], r);
    if r.position == Resting(None) {
      forall b | b in r.scan.begun && (r.scan.from.Some? ==> b < |states[i].nodes| && r.scan.from.value <= states[i].nodes[b].key)
        ensures b in r.scan.visited
      {
        assert Passed(states[i], r.scan.from, None, b);
      }
    }
  }

  /** Only one store makes a difference to what is in the list: the one that links a new node at level 0. */
  lemma OnlyPublishingAdds(s: List, step: Step, s': List)
    requires Right(s) && Next(s, step, s')
    ensures Present(s') ==
            if step.WriterStep? && s.writer.Publishing? && s.writer.i == 0 then Present(s) + {s.writer.node} else Present(s)
  {
    if step.WriterStep? && s.writer.Publishing? {
      PublishingAdds(s, s');
    } else {
      assert forall n: nat :: Linked(MemoryOf(s'), n, 0) <==> Linked(MemoryOf(s), n, 0);
    }
  }

  lemma PublishingAdds(s: List, s': List)
    requires Right(s) && s.writer.Publishing? && s' == WriterStepped(s)
    ensures Present(s') == if s.writer.i == 0 then Present(s) + {s.writer.node} else Present(s)
  {
    PublishIsPublished(s, s');
    hide Right, LastBefore;
    assert forall n: nat :: Linked(MemoryOf(s'), n, 0) <==>
      Linked(MemoryOf(s), n, 0) || (s.writer.i == 0 && n == s.writer.node);
  }

  // ---- the levels as lists ----

  /** The nodes met from `n` on by following the links of level `l`. */
  ghost predicate IsChain(m: Memory, n: nat, l: nat, c: seq<nat>) {
    && c != [] && c[0] == n && (forall i :: 0 <= i < |c| ==> Linked(m, c[i], l))
    && (forall i :: 0 <= i < |c| - 1 ==> m.nodes[c[i]].links[l] == To(c[i + 1]))
    && m.nodes[c[|c| - 1]].links[l] == Null
  }

  ghost function Later(m: Memory, n: nat): set<nat>
    requires n < |m.nodes|
  {
    set k: nat | k < |m.nodes| && Precedes(m, n, k)
  }

  /** Following the links comes to an end. */
  lemma ChainExists(m: Memory, n: nat, l: nat) returns (c: seq<nat>)
    requires Links(m) && Linked(m, n, l)
    ensures IsChain(m, n, l, c)
    decreases Later(m, n)
  {
    assert LinkRight(m, n, l);
    if m.nodes[n].links[l] == Null {
      c := [n];
    } else {
      var next := m.nodes[n].links[l].node;
      assert next in Later(m, n) && next !in Later(m, next);
      assert Later(m, next) <= Later(m, n);
      var rest := ChainExists(m, next, l);
      c := [n] + rest;
    }
  }

  /** It meets every node linked at the level, in increasing order. */
  lemma {:induction false} ChainIsLevel(m: Memory, n: nat, l: nat, c: seq<nat>)
    requires Links(m) && IsChain(m, n, l, c)
    ensures forall k :: k in c <==> k == n || (Linked(m, k, l) && Precedes(m, n, k))
    ensures forall i, j :: 0 <= i < j < |c| ==> Precedes(m, c[i], c[j])
    decreases |c|
  {
    assert LinkRight(m, n, l);
    if |c| > 1 {
      var rest := c[1..];
      assert IsChain(m, c[1], l, rest) by {
        assert forall i :: 0 <= i < |rest| ==> rest[i] == c[i + 1];
      }
      ChainIsLevel(m, c[1], l, rest);
      assert c == [n] + rest;
      forall i, j | 0 <= i < j < |c| ensures Precedes(m, c[i], c[j]) {
        assert c[j] == rest[j - 1] && rest[j - 1] in rest;
        if i > 0 {
          assert c[i] == rest[i - 1];
        }
      }
    }
  }

  /** At every moment, each level's list is a sublist of the one below it. */
  lemma LevelsAreSublists(s: List, l: nat, upper: seq<nat>, lower: seq<nat>)
    requires Right(s) && IsChain(MemoryOf(s), HEAD, l + 1, upper) && IsChain(MemoryOf(s), HEAD, l, lower)
    ensures forall i, j :: 0 <= i < j < |upper| ==>
      exists i', j' :: 0 <= i' < j' < |lower| && lower[i'] == upper[i] && lower[j'] == upper[j]
  {
    var m := MemoryOf(s);
    ChainIsLevel(m, HEAD, l + 1, upper);
    ChainIsLevel(m, HEAD, l, lower);
    forall i, j | 0 <= i < j < |upper|
      ensures exists i', j' :: 0 <= i' < j' < |lower| && lower[i'] == upper[i] && lower[j'] == upper[j]
    {
      assert upper[i] in upper && upper[j] in upper;
      assert upper[i] in lower && upper[j] in lower;
      var i' :| 0 <= i' < |lower| && lower[i'] == upper[i];
      var j' :| 0 <= j' < |lower| && lower[j'] == upper[j];
      assert Precedes(m, upper[i], upper[j]);
      assert i' < j';
    }
  }
}
