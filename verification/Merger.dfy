/** Iterators over sorted entries, and the iterator that merges several of them (table/merger.cc). */
module Merging {
  import opened ByteStrings
  import opened InternalKeys

  /** A child iterator: a position in a sorted run of entries, or at none of them. */
  class Cursor {
    const entries: seq<Entry>
    var pos: nat

    ghost predicate Ok()
      reads this
    {
      Sorted(entries) && pos <= |entries|
    }

    constructor (entries: seq<Entry>)
      requires Sorted(entries)
      ensures Ok() && this.entries == entries && pos == |entries|
    {
      this.entries, pos := entries, |entries|;
    }

    predicate Valid()
      reads this
    {
      pos < |entries|
    }

    function Current(): Entry
      requires Valid()
      reads this
    {
      entries[pos]
    }

    method SeekToFirst()
      requires Ok()
      modifies this
      ensures Ok() && pos == 0
    {
      pos := 0;
    }

    method SeekToLast()
      requires Ok()
      modifies this
      ensures Ok() && pos == if entries == [] then 0 else |entries| - 1
    {
      pos := if entries == [] then 0 else |entries| - 1;
    }

    /** To the first entry at or after `target`. */
    method Seek(target: Key)
      requires Ok()
      modifies this
      ensures Ok() && forall j :: 0 <= j < |entries| ==> (j < pos <==> Less(entries[j].key, target))
    {
      pos := 0;
      while pos < |entries| && Less(entries[pos].key, target)
        invariant pos <= |entries| && forall j :: 0 <= j < pos ==> Less(entries[j].key, target)
      {
        pos := pos + 1;
      }
    }

    method Next()
      requires Ok() && Valid()
      modifies this
      ensures Ok() && pos == old(pos) + 1
    {
      pos := pos + 1;
    }

    method Prev()
      requires Ok() && Valid()
      modifies this
      ensures Ok() && pos == if old(pos) == 0 then |entries| else old(pos) - 1
    {
      pos := if pos == 0 then |entries| else pos - 1;
    }
  }

  /** `p` of these entries lie among the first `n` of the merged ones. */
  ghost predicate Splits(entries: seq<Entry>, p: nat, merged: seq<Entry>, n: nat) {
    && p <= |entries| && n <= |merged|
    && forall j :: 0 <= j < |entries| ==> (j < p <==> n == |merged| || Less(entries[j].key, merged[n].key))
  }

  /** What `merged` must be: the sorted union of the children's entries, which have no key in common. */
  ghost predicate IsUnion(children: seq<seq<Entry>>, merged: seq<Entry>) {
    && Sorted(merged)
    && (forall i, j :: 0 <= i < |children| && 0 <= j < |children[i]| ==> children[i][j] in merged)
    && (forall e :: e in merged ==> exists i :: 0 <= i < |children| && e in children[i])
  }

  function MergeTwo(a: seq<Entry>, b: seq<Entry>): seq<Entry>
    decreases |a| + |b|
  {
    if a == [] then b
    else if b == [] then a
    else if Less(a[0].key, b[0].key) then [a[0]] + MergeTwo(a[1..], b)
    else [b[0]] + MergeTwo(a, b[1..])
  }

  lemma {:induction false} MergeTwoIsUnion(a: seq<Entry>, b: seq<Entry>)
    requires Sorted(a) && Sorted(b) && forall e, f :: e in a && f in b ==> e.key != f.key
    ensures Sorted(MergeTwo(a, b)) && forall e :: e in MergeTwo(a, b) <==> e in a || e in b
    decreases |a| + |b|
  {
    if a != [] && b != [] {
      if Less(a[0].key, b[0].key) {
        MergeTwoIsUnion(a[1..], b);
        FirstOfAll(a, b, MergeTwo(a[1..], b));
      } else {
        LessIsStrictTotalOrder(a[0].key, b[0].key, a[0].key);
        MergeTwoIsUnion(a, b[1..]);
        FirstOfAll(b, a, MergeTwo(a, b[1..]));
      }
    }
  }

  lemma FirstOfAll(a: seq<Entry>, b: seq<Entry>, rest: seq<Entry>)
    requires a != [] && b != [] && Sorted(a) && Sorted(b) && Less(a[0].key, b[0].key)
    requires Sorted(rest) && forall e :: e in rest <==> e in a[1..] || e in b
    ensures Sorted([a[0]] + rest) && forall e :: e in [a[0]] + rest <==> e in a || e in b
  {
    assert a == [a[0]] + a[1..];
    forall i | 0 <= i < |rest| ensures Less(a[0].key, rest[i].key) {
      assert rest[i] in rest;
      if rest[i] in b {
        var j :| 0 <= j < |b| && b[j] == rest[i];
        LessIsStrictTotalOrder(a[0].key, b[0].key, b[j].key);
      }
    }
  }

  /** Sorted runs without a common key have a sorted union. */
  lemma {:induction false} UnionExists(children: seq<seq<Entry>>) returns (merged: seq<Entry>)
    requires forall i :: 0 <= i < |children| ==> Sorted(children[i])
    requires forall i, j, e, f :: 0 <= i < j < |children| && e in children[i] && f in children[j] ==> e.key != f.key
    ensures IsUnion(children, merged)
  {
    if children == [] {
      merged := [];
    } else {
      var last := |children| - 1;
      var rest := UnionExists(children[..last]);
      forall e, f | e in rest && f in children[last] ensures e.key != f.key {
        var i :| 0 <= i < last && e in children[..last][i];
      }
      MergeTwoIsUnion(rest, children[last]);
      merged := MergeTwo(rest, children[last]);
      forall i, j | 0 <= i < |children| && 0 <= j < |children[i]| ensures children[i][j] in merged {
        assert i < last ==> children[..last][i][j] in rest;
      }
      forall e | e in merged ensures exists i :: 0 <= i < |children| && e in children[i] {
        if e in rest {
          var i :| 0 <= i < last && e in children[..last][i];
          assert e in children[i];
        }
      }
    }
  }

  /** How many entries a child moving backwards has not passed yet; it points at the last of them. */
  function Remaining(pos: nat, length: nat): nat {
    if pos == length then 0 else pos + 1
  }

  // ---- positions ----

  lemma SortedIndex(merged: seq<Entry>, e: Entry, f: Entry)
    requires Sorted(merged) && e in merged && f in merged
    ensures Less(e.key, f.key) || e == f || Less(f.key, e.key)
    ensures !(Less(e.key, f.key) && Less(f.key, e.key)) && !Less(e.key, e.key)
  {
    LessIsStrictTotalOrder(e.key, f.key, e.key);
  }

  /** A child ready to move forward from `n` stands at `merged[n]` if it has it, and after it otherwise. */
  lemma ForwardChild(entries: seq<Entry>, p: nat, merged: seq<Entry>, n: nat)
    requires Sorted(entries) && Sorted(merged) && Splits(entries, p, merged, n)
    ensures p < |entries| ==> n < |merged| && !Less(entries[p].key, merged[n].key)
    ensures n < |merged| && merged[n] in entries ==> p < |entries| && entries[p] == merged[n]
  {
    if p < |entries| {
      assert entries[p] in entries;
    }
    if n < |merged| && merged[n] in entries {
      var j :| 0 <= j < |entries| && entries[j] == merged[n];
      LessIsStrictTotalOrder(merged[n].key, merged[n].key, merged[n].key);
      assert j >= p;
    }
  }

  /** One that does not have `merged[n]` is also ready to move forward from the next place. */
  lemma PassBy(entries: seq<Entry>, p: nat, merged: seq<Entry>, n: nat)
    requires Sorted(merged) && n < |merged| && merged[n] !in entries && (forall e :: e in entries ==> e in merged)
    requires p <= |entries|
    ensures Splits(entries, p, merged, n) <==> Splits(entries, p, merged, n + 1)
  {
    forall j | 0 <= j < |entries|
      ensures Less(entries[j].key, merged[n].key) <==> n + 1 == |merged| || Less(entries[j].key, merged[n + 1].key)
    {
      assert entries[j] in merged;
      var m :| 0 <= m < |merged| && merged[m] == entries[j];
      OrderIsIndexOrder(merged, m, n);
      if n + 1 < |merged| {
        OrderIsIndexOrder(merged, m, n + 1);
      }
    }
  }

  lemma OrderIsIndexOrder(merged: seq<Entry>, i: nat, j: nat)
    requires Sorted(merged) && i < |merged| && j < |merged|
    ensures Less(merged[i].key, merged[j].key) <==> i < j
  {
    LessIsStrictTotalOrder(merged[i].key, merged[j].key, merged[i].key);
    if i > j {
      assert Less(merged[j].key, merged[i].key);
    }
  }

  /** The one that has it passes it by moving. */
  lemma StepOver(entries: seq<Entry>, p: nat, merged: seq<Entry>, n: nat)
    requires Sorted(entries) && Sorted(merged) && p < |entries| && n < |merged| && entries[p] == merged[n]
    requires forall e :: e in entries ==> e in merged
    ensures Splits(entries, p, merged, n) && Splits(entries, p + 1, merged, n + 1)
  {
    forall j | 0 <= j < |entries|
      ensures j < p <==> Less(entries[j].key, merged[n].key)
      ensures j < p + 1 <==> n + 1 == |merged| || Less(entries[j].key, merged[n + 1].key)
    {
      OrderIsIndexOrder(entries, j, p);
      assert entries[j] in merged;
      var m :| 0 <= m < |merged| && merged[m] == entries[j];
      OrderIsIndexOrder(merged, m, n);
      if n + 1 < |merged| {
        OrderIsIndexOrder(merged, m, n + 1);
      }
    }
  }

  /** Seeking everything to the same key splits everything at the same place. */
  lemma SeekSplits(entries: seq<Entry>, p: nat, merged: seq<Entry>, n: nat, target: Key)
    requires Sorted(merged) && p <= |entries| && n <= |merged| && forall e :: e in entries ==> e in merged
    requires forall j :: 0 <= j < |entries| ==> (j < p <==> Less(entries[j].key, target))
    requires forall m :: 0 <= m < |merged| ==> (m < n <==> Less(merged[m].key, target))
    ensures Splits(entries, p, merged, n)
  {
    forall j | 0 <= j < |entries| ensures j < p <==> n == |merged| || Less(entries[j].key, merged[n].key) {
      assert entries[j] in merged;
      var m :| 0 <= m < |merged| && merged[m] == entries[j];
      if n < |merged| {
        OrderIsIndexOrder(merged, m, n);
      }
    }
  }

  lemma EndsSplit(entries: seq<Entry>, merged: seq<Entry>)
    requires Sorted(merged) && forall e :: e in entries ==> e in merged
    ensures Splits(entries, 0, merged, 0) && Splits(entries, |entries|, merged, |merged|)
  {
    forall j | 0 <= j < |entries| ensures |merged| > 0 && !Less(entries[j].key, merged[0].key) {
      assert entries[j] in merged;
      var m :| 0 <= m < |merged| && merged[m] == entries[j];
      OrderIsIndexOrder(merged, m, 0);
    }
  }

  lemma PlaceOf(merged: seq<Entry>, target: Key) returns (n: nat)
    requires Sorted(merged)
    ensures n <= |merged| && forall m :: 0 <= m < |merged| ==> (m < n <==> Less(merged[m].key, target))
  {
    n := |merged|;
    while n > 0 && !Less(merged[n - 1].key, target)
      invariant n <= |merged| && forall m :: n <= m < |merged| ==> !Less(merged[m].key, target)
    {
      n := n - 1;
    }
    if n > 0 {
      forall m | 0 <= m < n ensures Less(merged[m].key, target) {
        if m < n - 1 {
          LessIsStrictTotalOrder(merged[m].key, merged[n - 1].key, target);
        }
      }
    }
  }

  datatype Direction = Forward | Reverse

  class MergingIterator {
    const children: seq<Cursor>
    var current: int // the child that yields key() and value(), or -1
    var direction: Direction
    ghost const merged: seq<Entry>
    ghost var at: nat // the place of the current entry in `merged`

    /** The children's entries, and nothing else, make up `merged`. */
    ghost predicate Sound()
      reads this, children
    {
      && -1 <= current < |children|
      && (forall i, j :: 0 <= i < j < |children| ==> children[i] != children[j])
      && (forall c :: c in children ==> c.Ok() && c as object != this)
      && IsUnion(Lists(), merged) && Apart()
    }

    ghost function Lists(): seq<seq<Entry>> {
      seq(|children|, i requires 0 <= i < |children| => children[i].entries)
    }

    ghost predicate Apart() {
      forall i, j, e :: 0 <= i < |children| && 0 <= j < |children| && i != j && e in children[i].entries ==> e !in children[j].entries
    }

    ghost predicate ForwardFrom(n: nat)
      reads this, children
    {
      forall i :: 0 <= i < |children| ==> Splits(children[i].entries, children[i].pos, merged, n)
    }

    ghost predicate BackwardFrom(n: nat)
      reads this, children
    {
      forall i :: 0 <= i < |children| ==>
        Splits(children[i].entries, Remaining(children[i].pos, |children[i].entries|), merged, n)
    }

    ghost predicate Ok()
      reads this, children
    {
      && Sound()
      && (current >= 0 ==>
            && children[current].Valid() && at < |merged| && children[current].Current() == merged[at]
            && match direction
               case Forward => ForwardFrom(at)
               case Reverse => BackwardFrom(at + 1))
    }

    lemma WhenOk()
      requires Ok()
      ensures Sorted(merged) && (Valid() ==> at < |merged|)
    {
    }

    predicate Valid()
      reads this
    {
      current >= 0
    }

    function Current(): Entry
      requires Ok() && Valid()
      reads this, children
      ensures Current() == merged[at]
    {
      children[current].Current()
    }

    constructor (children: seq<Cursor>, ghost merged: seq<Entry>)
      requires forall i, j :: 0 <= i < j < |children| ==> children[i] != children[j]
      requires forall c :: c in children ==> c.Ok()
      requires IsUnion(seq(|children|, i requires 0 <= i < |children| => children[i].entries), merged)
      requires forall i, j, e :: 0 <= i < |children| && 0 <= j < |children| && i != j && e in children[i].entries ==>
        e !in children[j].entries
      ensures Ok() && !Valid() && this.children == children && this.merged == merged
    {
      this.children, current, direction, this.merged, at := children, -1, Forward, merged, 0;
    }

    lemma InMerged(i: nat)
      requires Sound() && i < |children|
      ensures forall e :: e in children[i].entries ==> e in merged
      ensures Sorted(children[i].entries) && children[i].pos <= |children[i].entries|
    {
      assert children[i] in children && Lists()[i] == children[i].entries;
    }

    lemma SmallestIsNext(smallest: int, n: nat)
      requires Sound() && n <= |merged| && ForwardFrom(n)
      requires -1 <= smallest < |children| && (smallest >= 0 ==> children[smallest].Valid())
      requires forall j :: 0 <= j < |children| && children[j].Valid() ==>
        smallest >= 0 && !Less(children[j].Current().key, children[smallest].Current().key)
      ensures smallest >= 0 <==> n < |merged|
      ensures smallest >= 0 ==> children[smallest].Current() == merged[n]
    {
      if smallest >= 0 {
        InMerged(smallest);
        ForwardChild(children[smallest].entries, children[smallest].pos, merged, n);
      }
      if n < |merged| {
        assert merged[n] in merged;
        var k :| 0 <= k < |children| && merged[n] in Lists()[k];
        InMerged(k);
        ForwardChild(children[k].entries, children[k].pos, merged, n);
        assert children[k].Valid();
        SortedIndex(merged, children[smallest].Current(), merged[n]);
      }
    }

    /** The valid child with the smallest key, the first one if several have it. */
    method FindSmallest(ghost n: nat)
      requires Sound() && n <= |merged| && ForwardFrom(n)
      modifies this`current
      ensures Sound() && (current >= 0 <==> n < |merged|)
      ensures current >= 0 ==> children[current].Valid() && children[current].Current() == merged[n]
    {
      var smallest := -1;
      for i := 0 to |children|
        invariant -1 <= smallest < i && (smallest >= 0 ==> children[smallest].Valid())
        invariant forall j :: 0 <= j < i && children[j].Valid() ==>
          smallest >= 0 && !Less(children[j].Current().key, children[smallest].Current().key)
      {
        if children[i].Valid() {
          if smallest == -1 {
            smallest := i;
          } else if Less(children[i].Current().key, children[smallest].Current().key) {
            smallest := i;
          }
        }
      }
      SmallestIsNext(smallest, n);
      current := smallest;
    }

    lemma BackwardChild(i: nat, n: nat)
      requires Sound() && i < |children| && n <= |merged| && BackwardFrom(n)
      ensures children[i].Valid() ==> n > 0 && !Less(merged[n - 1].key, children[i].Current().key)
      ensures n > 0 && merged[n - 1] in children[i].entries ==>
        children[i].Valid() && children[i].Current() == merged[n - 1]
    {
      InMerged(i);
      var entries, p := children[i].entries, Remaining(children[i].pos, |children[i].entries|);
      assert Splits(entries, p, merged, n);
      if children[i].Valid() {
        assert entries[p - 1] in merged;
        var m :| 0 <= m < |merged| && merged[m] == entries[p - 1];
        if n < |merged| {
          OrderIsIndexOrder(merged, m, n);
        }
        OrderIsIndexOrder(merged, n - 1, m);
      }
      if n > 0 && merged[n - 1] in entries {
        var j :| 0 <= j < |entries| && entries[j] == merged[n - 1];
        if n < |merged| {
          OrderIsIndexOrder(merged, n - 1, n);
        }
        assert j < p;
        OrderIsIndexOrder(entries, j, p - 1);
      }
    }

    lemma LargestIsPrevious(largest: int, n: nat)
      requires Sound() && n <= |merged| && BackwardFrom(n)
      requires -1 <= largest < |children| && (largest >= 0 ==> children[largest].Valid())
      requires forall j :: 0 <= j < |children| && children[j].Valid() ==>
        largest >= 0 && !Less(children[largest].Current().key, children[j].Current().key)
      ensures largest >= 0 <==> n > 0
      ensures largest >= 0 ==> children[largest].Current() == merged[n - 1]
    {
      if largest >= 0 {
        InMerged(largest);
        BackwardChild(largest, n);
      }
      if n > 0 {
        assert merged[n - 1] in merged;
        var k :| 0 <= k < |children| && merged[n - 1] in Lists()[k];
        BackwardChild(k, n);
        assert children[k].Valid();
        SortedIndex(merged, children[largest].Current(), merged[n - 1]);
      }
    }

    /** The valid child with the largest key, the last one if several have it. */
    method FindLargest(ghost n: nat)
      requires Sound() && n <= |merged| && BackwardFrom(n)
      modifies this`current
      ensures Sound() && (current >= 0 <==> n > 0)
      ensures current >= 0 ==> children[current].Valid() && children[current].Current() == merged[n - 1]
    {
      var largest := -1;
      for i := |children| downto 0
        invariant largest == -1 || i <= largest < |children|
        invariant largest >= 0 ==> children[largest].Valid()
        invariant forall j :: i <= j < |children| && children[j].Valid() ==>
          largest >= 0 && !Less(children[largest].Current().key, children[j].Current().key)
      {
        if children[i].Valid() {
          if largest == -1 {
            largest := i;
          } else if Less(children[largest].Current().key, children[i].Current().key) {
            largest := i;
          }
        }
      }
      LargestIsPrevious(largest, n);
      current := largest;
    }

    method SeekToFirst()
      requires Ok()
      modifies this, children
      ensures Ok() && (Valid() <==> merged != []) && (Valid() ==> at == 0)
    {
      for i := 0 to |children|
        invariant Sound()
        invariant forall j :: 0 <= j < i ==> Splits(children[j].entries, children[j].pos, merged, 0)
      {
        children[i].SeekToFirst();
        InMerged(i);
        EndsSplit(children[i].entries, merged);
      }
      FindSmallest(0);
      direction, at := Forward, 0;
    }

    method SeekToLast()
      requires Ok()
      modifies this, children
      ensures Ok() && (Valid() <==> merged != []) && (Valid() ==> at == |merged| - 1)
    {
      for i := 0 to |children|
        invariant Sound()
        invariant forall j :: 0 <= j < i ==>
          Splits(children[j].entries, Remaining(children[j].pos, |children[j].entries|), merged, |merged|)
      {
        children[i].SeekToLast();
        InMerged(i);
        EndsSplit(children[i].entries, merged);
      }
      FindLargest(|merged|);
      direction, at := Reverse, if merged == [] then 0 else |merged| - 1;
    }

    /** To the first entry at or after `target`. */
    method Seek(target: Key)
      requires Ok()
      modifies this, children
      ensures Ok() && if Valid() then !Less(merged[at].key, target) && forall m :: 0 <= m < at ==> Less(merged[m].key, target)
                      else forall m :: 0 <= m < |merged| ==> Less(merged[m].key, target)
    {
      ghost var n := PlaceOf(merged, target);
      for i := 0 to |children|
        invariant Sound()
        invariant forall j :: 0 <= j < i ==> Splits(children[j].entries, children[j].pos, merged, n)
      {
        children[i].Seek(target);
        InMerged(i);
        SeekSplits(children[i].entries, children[i].pos, merged, n, target);
      }
      FindSmallest(n);
      direction, at := Forward, n;
    }


    /** A key is in one child only. */
    lemma OnlyInCurrent(i: nat, p: nat)
      requires Sound() && 0 <= current < |children| && children[current].Valid() && at < |merged|
      requires children[current].Current() == merged[at] && i < |children| && i != current
      ensures merged[at] !in children[i].entries
      ensures p < |children[i].entries| ==> children[i].entries[p].key != merged[at].key
    {
      assert merged[at] in children[current].entries;
      if p < |children[i].entries| {
        InMerged(i);
        SortedIndex(merged, children[i].entries[p], merged[at]);
      }
    }

    lemma SeekToCurrent(i: nat, p: nat)
      requires Sound() && at < |merged| && i < |children| && p <= |children[i].entries|
      requires forall j :: 0 <= j < |children[i].entries| ==> (j < p <==> Less(children[i].entries[j].key, merged[at].key))
      ensures Splits(children[i].entries, p, merged, at)
    {
      InMerged(i);
      forall m | 0 <= m < |merged| ensures m < at <==> Less(merged[m].key, merged[at].key) {
        OrderIsIndexOrder(merged, m, at);
      }
      SeekSplits(children[i].entries, p, merged, at, merged[at].key);
    }

    /** Sound, with the current entry in place; the other children may be anywhere. */
    ghost predicate AtCurrent()
      reads this, children
    {
      Sound() && current >= 0 && children[current].Valid() && at < |merged| && children[current].Current() == merged[at]
    }

    /** Repositions the other children after the current key, as if they had been moving forward. */
    method TurnForward()
      requires Ok() && Valid() && direction == Reverse
      modifies this`direction, children
      ensures Ok() && direction == Forward && children[current].pos == old(children[current].pos)
    {
      var key := children[current].Current().key;
      for i := 0 to |children|
        invariant AtCurrent() && key == merged[at].key && children[current].pos == old(children[current].pos)
        invariant forall j :: 0 <= j < i ==> Splits(children[j].entries, children[j].pos, merged, at)
      {
        if i != current {
          children[i].Seek(key);
          SeekToCurrent(i, children[i].pos);
          ghost var p := children[i].pos;
          if children[i].Valid() && children[i].Current().key == key {
            children[i].Next();
          }
          OnlyInCurrent(i, p);
        } else {
          InMerged(i);
          StepOver(children[i].entries, children[i].pos, merged, at);
        }
      }
      direction := Forward;
    }

    /** Repositions the other children before the current key, as if they had been moving backwards. */
    method TurnBackward()
      requires Ok() && Valid() && direction == Forward
      modifies this`direction, children
      ensures Ok() && direction == Reverse && children[current].pos == old(children[current].pos)
    {
      hide Splits;
      var key := children[current].Current().key;
      for i := 0 to |children|
        invariant AtCurrent() && key == merged[at].key && children[current].pos == old(children[current].pos)
        invariant forall j :: 0 <= j < i ==>
          Splits(children[j].entries, Remaining(children[j].pos, |children[j].entries|), merged, at + 1)
      {
        InMerged(i);
        if i != current {
          children[i].Seek(key);
          SeekToCurrent(i, children[i].pos);
          ghost var p := children[i].pos;
          OnlyInCurrent(i, p);
          PassBy(children[i].entries, p, merged, at);
          if children[i].Valid() {
            children[i].Prev();
          } else {
            children[i].SeekToLast();
          }
        } else {
          StepOver(children[i].entries, children[i].pos, merged, at);
        }
      }
      direction := Reverse;
    }

    /** Moving the current child forward readies all for the next place. */
    lemma ReadyForNext()
      requires Ok() && Valid() && direction == Forward
      ensures forall i :: 0 <= i < |children| ==>
        Splits(children[i].entries, children[i].pos + if i == current then 1 else 0, merged, at + 1)
    {
      forall i | 0 <= i < |children|
        ensures Splits(children[i].entries, children[i].pos + if i == current then 1 else 0, merged, at + 1)
      {
        InMerged(i);
        if i == current {
          StepOver(children[i].entries, children[i].pos, merged, at);
        } else {
          OnlyInCurrent(i, 0);
          PassBy(children[i].entries, children[i].pos, merged, at);
        }
      }
    }

    /** Moving the current child back readies all for the previous place. */
    lemma ReadyForPrev()
      requires Ok() && Valid() && direction == Reverse
      ensures forall i :: 0 <= i < |children| ==>
        Splits(children[i].entries, if i == current then children[i].pos else Remaining(children[i].pos, |children[i].entries|),
               merged, at)
    {
      forall i | 0 <= i < |children|
        ensures Splits(children[i].entries, if i == current then children[i].pos else Remaining(children[i].pos, |children[i].entries|),
                       merged, at)
      {
        InMerged(i);
        if i == current {
          StepOver(children[i].entries, children[i].pos, merged, at);
        } else {
          OnlyInCurrent(i, 0);
          PassBy(children[i].entries, Remaining(children[i].pos, |children[i].entries|), merged, at);
        }
      }
    }

    method Next()
      requires Ok() && Valid()
      modifies this, children
      ensures Ok() && (Valid() <==> old(at) + 1 < |merged|) && (Valid() ==> at == old(at) + 1)
    {
      hide Splits;
      if direction != Forward {
        TurnForward();
      }
      ReadyForNext();
      children[current].Next();
      FindSmallest(at + 1);
      at := at + 1;
    }

    method Prev()
      requires Ok() && Valid()
      modifies this, children
      ensures Ok() && (Valid() <==> old(at) > 0) && (Valid() ==> at == old(at) - 1)
    {
      hide Splits;
      if direction != Reverse {
        TurnBackward();
      }
      ReadyForPrev();
      children[current].Prev();
      FindLargest(at);
      at := if at > 0 then at - 1 else 0;
    }
  }
}
