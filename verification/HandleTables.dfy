/** The hash table of a cache: buckets of chained entries (util/cache.cc). */
module HandleTables {
  import opened ByteStrings
  import opened LruMemory

  class Memory {
    var heap: Heap
    var nextAddress: Address // nothing from here on has been allocated yet

    constructor ()
      ensures heap == map[LRU := LRUHandle([], 0, 0, 0, 0, NULL, LRU, LRU)] && nextAddress == 2
    {
      heap, nextAddress := map[LRU := LRUHandle([], 0, 0, 0, 0, NULL, LRU, LRU)], 2;
    }
  }

  function Tail(c: seq<Address>, j: nat): seq<Address> {
    if j < |c| then c[j + 1..] else []
  }

  /** Where a search for a key stops: at its entry, or at the end of the chain. */
  ghost predicate StopsAt(m: Heap, c: seq<Address>, j: nat, key: Bytes, hash: nat) {
    && j <= |c| && (forall k :: 0 <= k < |c| ==> c[k] in m)
    && (forall k :: 0 <= k < j ==> !SameKey(m[c[k]], key, hash))
    && (j < |c| ==> SameKey(m[c[j]], key, hash))
  }

  /** The heap after storing `link` into the slot before place `j` of a chain, if that is not the bucket itself. */
  function SlotHeap(m: Heap, c: seq<Address>, j: nat, link: Address): Heap
    requires 0 < j <= |c| ==> c[j - 1] in m
  {
    if 0 < j <= |c| then SetNextHash(m, c[j - 1], link) else m
  }

  function SlotList(list: seq<Address>, b: nat, j: nat, link: Address): seq<Address>
    requires b < |list|
  {
    if j == 0 then list[b := link] else list
  }

  /** Storing a tail of its own bucket into a slot keeps the table. */
  lemma SpliceTable(m: Heap, list: seq<Address>, chains: seq<seq<Address>>, b: nat, j: nat, d: seq<Address>)
    requires IsTable(m, list, chains) && b < |list| && j <= |chains[b]|
    requires IsChain(m, |list|, b, First(d, 0), d) && forall i :: 0 <= i < j ==> Differs(m, chains[b][i], d)
    ensures IsTable(SlotHeap(m, chains[b], j, First(d, 0)), SlotList(list, b, j, First(d, 0)), chains[b := chains[b][..j] + d])
  {
    var c := chains[b];
    assert c[..0] + d == d;
    if j > 0 {
      SpliceChain(m, |list|, b, list[b], c, j, d);
      OtherChains(m, list, chains, b, c[j - 1], First(d, 0));
    }
  }

  lemma TailDiffers(m: Heap, length: nat, bucket: nat, head: Address, c: seq<Address>, j: nat)
    requires length > 0 && IsChain(m, length, bucket, head, c) && j <= |c|
    ensures forall i :: 0 <= i < j ==> Differs(m, c[i], Tail(c, j))
    ensures IsChain(m, length, bucket, First(Tail(c, j), 0), Tail(c, j))
  {
    ChainMembersDiffer(m, length, bucket, head, c);
    if j < |c| {
      ChainTail(m, length, bucket, head, c, j + 1);
    }
  }

  lemma RemoveKeepsTable(m: Heap, list: seq<Address>, chains: seq<seq<Address>>, b: nat, j: nat)
    requires IsTable(m, list, chains) && b < |list| && j < |chains[b]|
    ensures var c := chains[b];
            var link := m[c[j]].nextHash;
            && link == First(Tail(c, j), 0)
            && IsTable(SlotHeap(m, c, j, link), SlotList(list, b, j, link), chains[b := Without(c, j)])
  {
    var c := chains[b];
    TailDiffers(m, |list|, b, list[b], c, j);
    SpliceTable(m, list, chains, b, j, Tail(c, j));
  }

  /** The heap with `h` linked to what follows place `j`. */
  function Prepared(m: Heap, c: seq<Address>, j: nat, h: Address): Heap
    requires h in m && forall k :: 0 <= k < |c| ==> c[k] in m
  {
    SetNextHash(m, h, if j < |c| then m[c[j]].nextHash else NULL)
  }

  lemma InsertKeepsTable(m: Heap, list: seq<Address>, chains: seq<seq<Address>>, b: nat, j: nat, h: Address)
    requires IsTable(m, list, chains) && b < |list| && h in m && h != NULL && h != LRU && h !in chains[b]
    requires b == Bucket(m[h].hash, |list|) && StopsAt(m, chains[b], j, m[h].key, m[h].hash)
    ensures var c := chains[b];
            IsTable(SlotHeap(Prepared(m, c, j, h), c, j, h), SlotList(list, b, j, h), chains[b := c[..j] + ([h] + Tail(c, j))])
  {
    var c := chains[b];
    var m', d := Prepared(m, c, j, h), [h] + Tail(c, j);
    TailDiffers(m, |list|, b, list[b], c, j);
    SameHashChain(m, m', |list|, b, First(Tail(c, j), 0), Tail(c, j));
    SameHashChain(m, m', |list|, b, list[b], c);
    OtherChains(m, list, chains, b, h, m'[h].nextHash);
    forall k | 0 <= k < |Tail(c, j)| ensures !SameKey(m'[h], m'[Tail(c, j)[k]].key, m'[Tail(c, j)[k]].hash) {
      assert Tail(c, j)[k] == c[j + 1 + k];
      assert !SameKey(m[c[j]], m[c[j + 1 + k]].key, m[c[j + 1 + k]].hash);
    }
    ChainCons(m', |list|, b, h, Tail(c, j));
    forall i | 0 <= i < j ensures Differs(m', c[i], d) {
      assert Differs(m, c[i], Tail(c, j));
    }
    assert IsTable(m', list, chains);
    SpliceTable(m', list, chains, b, j, d);
  }

  // ---- what the table holds ----

  ghost function Members(m: Heap, chains: seq<seq<Address>>): set<Address> {
    set a | a in m && InTable(m, chains, a)
  }

  /** A bucket's chain before and after one of its places is taken by other entries, or by none. */
  lemma SplicedMembers(m: Heap, m': Heap, list: seq<Address>, chains: seq<seq<Address>>, b: nat, j: nat, come: set<Address>, c': seq<Address>)
    requires IsTable(m, list, chains) && HashLinksOnly(m, m') && b < |list| && j <= |chains[b]|
    requires forall a :: a in come ==> a in m && Bucket(m[a].hash, |list|) == b
    requires forall a :: a in c' <==> (a in chains[b] && !(j < |chains[b]| && a == chains[b][j])) || a in come
    ensures Members(m', chains[b := c']) == Members(m, chains) - (if j < |chains[b]| then {chains[b][j]} else {}) + come
  {
    var c := chains[b];
    forall a | a in m
      ensures a in Members(m', chains[b := c']) <==> (a in Members(m, chains) && !(j < |c| && a == c[j])) || a in come
    {
      if Bucket(m[a].hash, |list|) != b && j < |c| {
        assert Bucket(m[c[j]].hash, |list|) == b;
      }
    }
  }

  predicate IsLength(n: nat) {
    n == 4 || (n > 4 && n % 2 == 0 && IsLength(n / 2))
  }

  lemma TableBucket(m: Heap, list: seq<Address>, chains: seq<seq<Address>>, hash: nat)
    requires IsTable(m, list, chains)
    ensures |list| == |chains| > 0
    ensures var b := Bucket(hash, |list|); b < |list| && IsChain(m, |list|, b, list[b], chains[b])
  {
  }

  /** The least length with a bucket for every entry. */
  predicate Fits(n: nat, elems: nat) {
    IsLength(n) && elems <= n && (n > 4 ==> n / 2 < elems)
  }

  /** Where an entry, or the end of a chain, is pointed to from. */
  datatype Slot = InBucket(bucket: nat) | InEntry(entry: Address)

  class HandleTable {
    const memory: Memory
    var list: seq<Address> // the heads of the buckets; their number is a power of two
    var elems: nat
    ghost var chains: seq<seq<Address>>

    ghost predicate Valid()
      reads this, memory
    {
      IsTable(memory.heap, list, chains) && elems == Total(chains) && IsLength(|list|) && elems <= |list|
    }

    ghost function Entries(): set<Address>
      reads this, memory
    {
      Members(memory.heap, chains)
    }

    constructor (memory: Memory)
      ensures Valid() && Entries() == {} && this.memory == memory
    {
      this.memory, list, elems, chains := memory, [NULL, NULL, NULL, NULL], 0, [[], [], [], []];
      new;
      assert Total([[], [], [], []]) == 0;
    }

    /** The slot that points to the entry for a key, or to the end of its bucket's chain. */
    method FindPointer(key: Bytes, hash: nat) returns (slot: Slot, ptr: Address, ghost j: nat)
      requires Valid()
      ensures |list| == |chains| > 0
      ensures var b := Bucket(hash, |list|);
              && StopsAt(memory.heap, chains[b], j, key, hash) && ptr == First(chains[b], j)
              && slot == if j == 0 then InBucket(b) else InEntry(chains[b][j - 1])
    {
      hide IsTable, Total, IsLength, SameKey;
      TableBucket(memory.heap, list, chains, hash);
      var b, heap := Bucket(hash, |list|), memory.heap;
      ghost var c := chains[b];
      slot, ptr, j := InBucket(b), list[b], 0;
      while ptr != NULL && !SameKey(heap[ptr], key, hash)
        invariant j <= |c| && ptr == First(c, j)
        invariant slot == if j == 0 then InBucket(b) else InEntry(c[j - 1])
        invariant forall k :: 0 <= k < j ==> !SameKey(heap[c[k]], key, hash)
        decreases |c| - j
      {
        slot, ptr, j := InEntry(ptr), heap[ptr].nextHash, j + 1;
      }
    }

    /** Stores into a slot. */
    method Assign(slot: Slot, link: Address)
      requires match slot case InBucket(b) => b < |list| case InEntry(a) => a in memory.heap
      modifies this`list, memory
      ensures memory.nextAddress == old(memory.nextAddress)
      ensures match slot
              case InBucket(b) => list == old(list)[b := link] && memory.heap == old(memory.heap)
              case InEntry(a) => list == old(list) && memory.heap == SetNextHash(old(memory.heap), a, link)
    {
      match slot
      case InBucket(b) => list := list[b := link];
      case InEntry(a) => memory.heap := SetNextHash(memory.heap, a, link);
    }

    method Lookup(key: Bytes, hash: nat) returns (e: Address)
      requires Valid()
      ensures e != NULL ==> e in Entries() && SameKey(memory.heap[e], key, hash)
      ensures e == NULL ==> forall a :: a in Entries() ==> !SameKey(memory.heap[a], key, hash)
    {
      var slot, ptr;
      ghost var j;
      slot, ptr, j := FindPointer(key, hash);
      Found(memory.heap, list, chains, j, key, hash);
      e := ptr;
    }

    method Remove(key: Bytes, hash: nat) returns (result: Address)
      requires Valid()
      modifies this, memory
      ensures Valid() && HashLinksOnly(old(memory.heap), memory.heap) && memory.nextAddress == old(memory.nextAddress)
      ensures result != NULL ==> result in old(Entries()) && SameKey(old(memory.heap)[result], key, hash)
      ensures result == NULL ==> forall a :: a in old(Entries()) ==> !SameKey(old(memory.heap)[a], key, hash)
      ensures Entries() == old(Entries()) - {result}
      ensures |list| == |old(list)| && elems == old(elems) - if result == NULL then 0 else 1
    {
      hide IsTable, Total, Members, StopsAt, HashLinksOnly, IsLength, SameKey, Bucket;
      var slot, ptr;
      ghost var j;
      slot, ptr, j := FindPointer(key, hash);
      Found(memory.heap, list, chains, j, key, hash);
      SameTable(memory.heap);
      result := ptr;
      if result != NULL {
        ghost var b, m := Bucket(hash, |list|), memory.heap;
        TableBucket(m, list, chains, hash);
        RemoveWhere(m, list, chains, b);
        RemoveKeepsTable(m, list, chains, b, j);
        RemoveMembers(m, list, chains, b, j);
        Assign(slot, memory.heap[result].nextHash);
        elems := elems - 1;
        chains := chains[b := Without(chains[b], j)];
      }
    }

    /** Puts `h` in, in the place of an entry with the same key if there is one; otherwise the table may grow. */
    method Insert(h: Address) returns (replaced: Address)
      requires Valid() && h in memory.heap && h != NULL && h != LRU && h !in Entries()
      modifies this, memory
      ensures Valid() && HashLinksOnly(old(memory.heap), memory.heap) && memory.nextAddress == old(memory.nextAddress)
      ensures replaced != NULL ==>
        replaced in old(Entries()) && SameKey(old(memory.heap)[replaced], memory.heap[h].key, memory.heap[h].hash)
      ensures replaced == NULL ==>
        forall a :: a in old(Entries()) ==> !SameKey(old(memory.heap)[a], memory.heap[h].key, memory.heap[h].hash)
      ensures Entries() == old(Entries()) - {replaced} + {h}
      ensures elems == old(elems) + if replaced == NULL then 1 else 0
      ensures if elems > |old(list)| then Fits(|list|, elems) else |list| == |old(list)|
    {
      hide IsTable, Total, Members, StopsAt, HashLinksOnly, IsLength, SameKey, Bucket;
      var slot;
      ghost var j;
      var key, hash := memory.heap[h].key, memory.heap[h].hash;
      slot, replaced, j := FindPointer(key, hash);
      ghost var b, m := Bucket(hash, |list|), memory.heap;
      Found(m, list, chains, j, key, hash);
      InsertWhere(m, list, chains, j, h, b);
      InsertKeepsTable(m, list, chains, b, j, h);
      InsertMembers(m, list, chains, j, h, b);
      var link := if replaced == NULL then NULL else memory.heap[replaced].nextHash;
      memory.heap := SetNextHash(memory.heap, h, link);
      Assign(slot, h);
      chains := Inserted(chains, b, j, h);
      if replaced == NULL {
        elems := elems + 1;
        if elems > |list| {
          ghost var m' := memory.heap;
          Resize();
          HashLinksTwice(m, m', memory.heap);
        }
      }
      KeysKept(m, memory.heap, h);
    }

    /** Moves every entry to a table with room for all. */
    method Resize()
      requires IsTable(memory.heap, list, chains) && elems == Total(chains)
      modifies this, memory
      ensures Valid() && HashLinksOnly(old(memory.heap), memory.heap) && memory.nextAddress == old(memory.nextAddress)
      ensures Entries() == old(Entries()) && elems == old(elems) && Fits(|list|, elems)
    {
      var newLength := 4;
      while newLength < elems
        invariant IsLength(newLength) && (newLength > 4 ==> newLength / 2 < elems)
      {
        newLength := newLength * 2;
      }
      var heap, newList;
      ghost var newChains;
      heap, newList, newChains := MoveAll(memory.heap, list, newLength, chains);
      memory.heap, list, chains := heap, newList, newChains;
    }
  }

  /** Rebuilds a table with `newLength` buckets. */
  method MoveAll(m0: Heap, list: seq<Address>, newLength: nat, ghost chains: seq<seq<Address>>)
    returns (m: Heap, newList: seq<Address>, ghost newChains: seq<seq<Address>>)
    requires IsTable(m0, list, chains) && 0 < newLength
    ensures IsTable(m, newList, newChains) && HashLinksOnly(m0, m) && Members(m, newChains) == Members(m0, chains)
    ensures |newList| == newLength && Total(newChains) == Total(chains)
  {
    hide IsTable, Rehashing, Total, Bucket, Members, HashLinksOnly, Moved, InTable;
    m, newList, newChains := m0, seq(newLength, _ => NULL), seq(newLength, _ => []);
    var count := 0;
    RehashBegins(m0, list, chains, newLength);
    for i := 0 to |list|
      invariant Rehashing(m0, list, chains, i, 0, m, newList, newChains)
      invariant |newList| == newLength && count == Total(chains[..i]) == Total(newChains)
    {
      var moved;
      m, newList, moved, newChains := MoveChain(m, list[i], newList, m0, list, chains, i, newChains);
      count := count + moved;
      ChainDone(m0, list, chains, i, m, newList, newChains);
    }
    assert chains[..|list|] == chains;
    Rehashed(m0, list, chains, m, newList, newChains);
  }

  /** Moves the entries of a chain to the front of their new chains, one after the other. */
  method MoveChain(heap: Heap, head: Address, newList: seq<Address>, ghost m0: Heap, ghost list: seq<Address>,
                   ghost chains: seq<seq<Address>>, ghost i: nat, ghost newChains: seq<seq<Address>>)
    returns (m: Heap, newList': seq<Address>, moved: nat, ghost newChains': seq<seq<Address>>)
    requires i < |list| && head == list[i] && Rehashing(m0, list, chains, i, 0, heap, newList, newChains)
    ensures |newList'| == |newList| && |list| == |chains|
    ensures moved == |chains[i]| && Total(newChains') == Total(newChains) + moved
    ensures Rehashing(m0, list, chains, i, |chains[i]|, m, newList', newChains')
  {
    ChainStart(m0, list, chains, i, heap, newList, newChains);
    hide IsTable, Rehashing, Total, Bucket, Members, HashLinksOnly, Moved, InTable;
    var h := head;
    m, newList', moved, newChains' := heap, newList, 0, newChains;
    while h != NULL
      invariant moved <= |chains[i]| && h == First(chains[i], moved)
      invariant Rehashing(m0, list, chains, i, moved, m, newList', newChains')
      invariant |newList'| == |newList| && Total(newChains') == Total(newChains) + moved
      decreases |chains[i]| - moved
    {
      NextToMove(m0, list, chains, i, moved, m, newList', newChains');
      var next := m[h].nextHash;
      var b := Bucket(m[h].hash, |newList|);
      RehashOne(m0, list, chains, i, moved, m, newList', newChains', h, b);
      TotalUpdate(newChains', b, [h] + newChains'[b]);
      m := SetNextHash(m, h, newList'[b]);
      newList', newChains' := newList'[b := h], newChains'[b := [h] + newChains'[b]];
      h, moved := next, moved + 1;
    }
  }

  /** A search finds the one entry for the key, if there is one. */
  lemma Found(m: Heap, list: seq<Address>, chains: seq<seq<Address>>, j: nat, key: Bytes, hash: nat)
    requires IsTable(m, list, chains) && StopsAt(m, chains[Bucket(hash, |list|)], j, key, hash)
    ensures var e := First(chains[Bucket(hash, |list|)], j);
            if e != NULL then j < |chains[Bucket(hash, |list|)]| && e in Members(m, chains) && SameKey(m[e], key, hash)
            else
              && j == |chains[Bucket(hash, |list|)]|
              && (forall a :: a in Members(m, chains) ==> !SameKey(m[a], key, hash)) && e !in Members(m, chains)
  {
    var b := Bucket(hash, |list|);
    assert IsChain(m, |list|, b, list[b], chains[b]);
    if j == |chains[b]| {
      forall a | a in Members(m, chains) ensures !SameKey(m[a], key, hash) && a != NULL {
        var b' := Bucket(m[a].hash, |list|);
        assert IsChain(m, |list|, b', list[b'], chains[b']);
        var k :| 0 <= k < |chains[b']| && chains[b'][k] == a;
      }
    }
  }

  function Inserted(chains: seq<seq<Address>>, b: nat, j: nat, h: Address): seq<seq<Address>>
    requires b < |chains| && j <= |chains[b]|
  {
    chains[b := chains[b][..j] + ([h] + Tail(chains[b], j))]
  }

  /** The heap after linking `h` in. */
  function InsertedHeap(m: Heap, c: seq<Address>, j: nat, h: Address): Heap
    requires h in m && forall k :: 0 <= k < |c| ==> c[k] in m
  {
    SlotHeap(Prepared(m, c, j, h), c, j, h)
  }

  lemma InsertWhere(m: Heap, list: seq<Address>, chains: seq<seq<Address>>, j: nat, h: Address, b: nat)
    requires IsTable(m, list, chains) && h in m && h !in Members(m, chains)
    requires b == Bucket(m[h].hash, |list|) && StopsAt(m, chains[b], j, m[h].key, m[h].hash)
    ensures b < |list| == |chains| && h !in chains[b] && j <= |chains[b]|
    ensures forall k :: 0 <= k < |chains[b]| ==> chains[b][k] in m && chains[b][k] != NULL
  {
    assert IsChain(m, |list|, b, list[b], chains[b]);
  }

  /** What linking `h` into a table does to its entries and their number. */
  lemma InsertMembers(m: Heap, list: seq<Address>, chains: seq<seq<Address>>, j: nat, h: Address, b: nat)
    requires IsTable(m, list, chains) && h in m && h !in Members(m, chains) && b == Bucket(m[h].hash, |list|)
    requires b < |list| == |chains| && j <= |chains[b]| && forall k :: 0 <= k < |chains[b]| ==> chains[b][k] in m
    ensures HashLinksOnly(m, InsertedHeap(m, chains[b], j, h))
    ensures Members(InsertedHeap(m, chains[b], j, h), Inserted(chains, b, j, h)) ==
            Members(m, chains) - (if j < |chains[b]| then {chains[b][j]} else {}) + {h}
    ensures Total(Inserted(chains, b, j, h)) == Total(chains) + if j < |chains[b]| then 0 else 1
  {
    var c := chains[b];
    var c' := c[..j] + ([h] + Tail(c, j));
    assert HashLinksOnly(m, InsertedHeap(m, c, j, h));
    PutMembers(m, list, chains, b, j, h);
    SplicedMembers(m, InsertedHeap(m, c, j, h), list, chains, b, j, {h}, c');
    TotalUpdate(chains, b, c');
  }

  lemma SameTable(m: Heap)
    ensures HashLinksOnly(m, m)
  {
  }

  lemma RemoveWhere(m: Heap, list: seq<Address>, chains: seq<seq<Address>>, b: nat)
    requires IsTable(m, list, chains) && b < |list|
    ensures |list| == |chains| && forall k :: 0 <= k < |chains[b]| ==> chains[b][k] in m && chains[b][k] != NULL
  {
    assert IsChain(m, |list|, b, list[b], chains[b]);
  }

  /** What unlinking an entry does to the table's entries and their number. */
  lemma RemoveMembers(m: Heap, list: seq<Address>, chains: seq<seq<Address>>, b: nat, j: nat)
    requires IsTable(m, list, chains) && b < |list| == |chains| && j < |chains[b]|
    requires forall k :: 0 <= k < |chains[b]| ==> chains[b][k] in m
    ensures var c := chains[b];
            var m' := SlotHeap(m, c, j, m[c[j]].nextHash);
            && HashLinksOnly(m, m') && Members(m', chains[b := Without(c, j)]) == Members(m, chains) - {c[j]}
            && Total(chains[b := Without(c, j)]) == Total(chains) - 1
  {
    var c := chains[b];
    var m' := SlotHeap(m, c, j, m[c[j]].nextHash);
    assert HashLinksOnly(m, m');
    TotalUpdate(chains, b, Without(c, j));
    ChainMembersDiffer(m, |list|, b, list[b], c);
    WithoutMembers(c, j);
    SplicedMembers(m, m', list, chains, b, j, {}, Without(c, j));
  }

  lemma HashLinksTwice(m: Heap, m': Heap, m'': Heap)
    requires HashLinksOnly(m, m') && HashLinksOnly(m', m'')
    ensures HashLinksOnly(m, m'')
  {
  }

  lemma KeysKept(m: Heap, m': Heap, h: Address)
    requires HashLinksOnly(m, m') && h in m
    ensures h in m' && m'[h].key == m[h].key && m'[h].hash == m[h].hash
  {
  }

  lemma PutMembers(m: Heap, list: seq<Address>, chains: seq<seq<Address>>, b: nat, j: nat, h: Address)
    requires IsTable(m, list, chains) && b < |list| && j <= |chains[b]|
    ensures forall a :: a in chains[b][..j] + ([h] + Tail(chains[b], j)) <==>
      (a in chains[b] && !(j < |chains[b]| && a == chains[b][j])) || a == h
  {
    var c := chains[b];
    assert IsChain(m, |list|, b, list[b], c);
    ChainMembersDiffer(m, |list|, b, list[b], c);
    if j < |c| {
      WithoutMembers(c, j);
      assert Without(c, j) == c[..j] + Tail(c, j);
    } else {
      assert c[..j] == c;
    }
  }

  // ---- growing the table ----

  /** An entry of the old table that has been moved: it comes before place `j` of chain `i`. */
  ghost predicate Moved(m0: Heap, chains: seq<seq<Address>>, i: nat, j: nat, a: Address) {
    && |chains| > 0 && a in m0
    && var b := Bucket(m0[a].hash, |chains|);
       && a in chains[b] && (b < i || (b == i && j <= |chains[b]| && a in chains[b][..j]))
  }

  /** The old table, taken over up to place `j` of chain `i`; the rest of its chains is still in place. */
  ghost predicate Rehashing(m0: Heap, list: seq<Address>, chains: seq<seq<Address>>, i: nat, j: nat,
                            m: Heap, list': seq<Address>, chains': seq<seq<Address>>) {
    && IsTable(m0, list, chains) && IsTable(m, list', chains') && HashLinksOnly(m0, m)
    && i <= |list| && (i < |list| ==> j <= |chains[i]|)
    && (forall a :: a in m0 ==> (InTable(m, chains', a) <==> Moved(m0, chains, i, j, a)))
    && forall a :: a in m0 && InTable(m0, chains, a) && !Moved(m0, chains, i, j, a) ==> m[a].nextHash == m0[a].nextHash
  }

  lemma {:induction false} NothingTotal(length: nat)
    ensures Total(seq(length, _ => [])) == 0
  {
    if length > 0 {
      NothingTotal(length - 1);
      assert seq<seq<Address>>(length, _ => [])[1..] == seq<seq<Address>>(length - 1, _ => []);
    }
  }

  lemma {:induction false} TotalOfMore(chains: seq<seq<Address>>, i: nat)
    requires i < |chains|
    ensures Total(chains[..i + 1]) == Total(chains[..i]) + |chains[i]|
    decreases |chains|
  {
    if i > 0 {
      TotalOfMore(chains[1..], i - 1);
      assert chains[..i + 1][1..] == chains[1..][..i] && chains[..i][1..] == chains[1..][..i - 1];
    } else {
      assert chains[..1] == [chains[0]] && chains[..1][1..] == [];
    }
  }

  lemma RehashBegins(m0: Heap, list: seq<Address>, chains: seq<seq<Address>>, length: nat)
    requires IsTable(m0, list, chains) && length > 0
    ensures var list', chains' := seq(length, _ => NULL), seq(length, _ => []);
            Rehashing(m0, list, chains, 0, 0, m0, list', chains')
    ensures Total(seq(length, _ => [])) == 0 == Total(chains[..0]) && |list| == |chains|
  {
    NothingTotal(length);
  }

  lemma ChainStart(m0: Heap, list: seq<Address>, chains: seq<seq<Address>>, i: nat,
                   m: Heap, list': seq<Address>, chains': seq<seq<Address>>)
    requires Rehashing(m0, list, chains, i, 0, m, list', chains') && i < |list|
    ensures |list| == |chains| && |list'| == |chains'| && list[i] == First(chains[i], 0) && NULL !in chains[i]
  {
    assert IsChain(m0, |list|, i, list[i], chains[i]);
  }

  lemma NextToMove(m0: Heap, list: seq<Address>, chains: seq<seq<Address>>, i: nat, j: nat,
                   m: Heap, list': seq<Address>, chains': seq<seq<Address>>)
    requires Rehashing(m0, list, chains, i, j, m, list', chains') && i < |list| && j < |chains[i]|
    ensures var h := chains[i][j];
            && h in m0 && h in m && h != NULL && h != LRU && !Moved(m0, chains, i, j, h) && !InTable(m, chains', h)
            && m[h].nextHash == First(chains[i], j + 1) && m[h].hash == m0[h].hash && Bucket(m0[h].hash, |list|) == i
            && |list'| == |chains'| > 0 && |list| == |chains|
  {
    assert IsChain(m0, |list|, i, list[i], chains[i]);
    ChainMembersDiffer(m0, |list|, i, list[i], chains[i]);
    NotMovedYet(m0, chains, i, j);
  }

  /** The new table with one more entry at the front of its chain. */
  lemma RehashTable(m0: Heap, list: seq<Address>, chains: seq<seq<Address>>, i: nat, j: nat,
                    m: Heap, list': seq<Address>, chains': seq<seq<Address>>, h: Address, b: nat)
    requires Rehashing(m0, list, chains, i, j, m, list', chains') && i < |list| && j < |chains[i]| && h == chains[i][j]
    requires h in m && h != NULL && h != LRU && !InTable(m, chains', h) && |list'| == |chains'| > 0 && b == Bucket(m[h].hash, |list'|)
    ensures IsTable(SetNextHash(m, h, list'[b]), list'[b := h], chains'[b := [h] + chains'[b]])
  {
    MovedKeysDiffer(m0, list, chains, i, j, m, list', chains', b);
    assert IsTable(m, list', chains') && h !in chains'[b];
    hide Rehashing, IsTable, Bucket, InTable;
    PrependToTable(m, list', chains', h, b);
  }

  lemma PrependToTable(m: Heap, list: seq<Address>, chains: seq<seq<Address>>, h: Address, b: nat)
    requires IsTable(m, list, chains) && h in m && h != NULL && h != LRU && b == Bucket(m[h].hash, |list|)
    requires h !in chains[b] && forall k :: 0 <= k < |chains[b]| ==>
      chains[b][k] in m && !SameKey(m[h], m[chains[b][k]].key, m[chains[b][k]].hash)
    ensures IsTable(SetNextHash(m, h, list[b]), list[b := h], chains[b := [h] + chains[b]])
  {
    var m' := SetNextHash(m, h, list[b]);
    TableBucket(m, list, chains, m[h].hash);
    ChainHead(m, |list|, b, list[b], chains[b]);
    SameHashChain(m, m', |list|, b, list[b], chains[b]);
    OtherChains(m, list, chains, b, h, list[b]);
    ChainCons(m', |list|, b, h, chains[b]);
    hide IsTable, Bucket, IsChain;
    ReplacedChain(m', list, chains, b, h, [h] + chains[b]);
  }

  lemma ReplacedChain(m: Heap, list: seq<Address>, chains: seq<seq<Address>>, b: nat, head: Address, c: seq<Address>)
    requires |list| == |chains| > 0 && b < |list| && IsChain(m, |list|, b, head, c)
    requires forall i :: 0 <= i < |list| && i != b ==> IsChain(m, |list|, i, list[i], chains[i])
    ensures IsTable(m, list[b := head], chains[b := c])
  {
    hide IsChain;
  }

  lemma OneMoreInTable(m: Heap, chains: seq<seq<Address>>, h: Address, b: nat, link: Address)
    requires h in m && |chains| > 0 && b == Bucket(m[h].hash, |chains|)
    ensures forall a :: InTable(SetNextHash(m, h, link), chains[b := [h] + chains[b]], a) <==> InTable(m, chains, a) || a == h
  {
  }

  /** One more entry moves to the front of its new chain. */
  lemma RehashOne(m0: Heap, list: seq<Address>, chains: seq<seq<Address>>, i: nat, j: nat,
                  m: Heap, list': seq<Address>, chains': seq<seq<Address>>, h: Address, b: nat)
    requires Rehashing(m0, list, chains, i, j, m, list', chains') && i < |list| == |chains| && j < |chains[i]|
    requires h == chains[i][j] && h in m && |list'| == |chains'| > 0 && b == Bucket(m[h].hash, |list'|)
    ensures Rehashing(m0, list, chains, i, j + 1, SetNextHash(m, h, list'[b]), list'[b := h], chains'[b := [h] + chains'[b]])
  {
    hide IsTable, Moved, InTable, Bucket;
    NextToMove(m0, list, chains, i, j, m, list', chains');
    RehashTable(m0, list, chains, i, j, m, list', chains', h, b);
    OneMoreInTable(m, chains', h, b, list'[b]);
    MovedOneMore(m0, chains, i, j);
  }

  /** The next entry is not among those moved. */
  lemma NotMovedYet(m0: Heap, chains: seq<seq<Address>>, i: nat, j: nat)
    requires i < |chains| && j < |chains[i]| && chains[i][j] in m0 && Bucket(m0[chains[i][j]].hash, |chains|) == i
    requires NoDuplicates(chains[i])
    ensures !Moved(m0, chains, i, j, chains[i][j]) && InTable(m0, chains, chains[i][j])
  {
  }

  lemma MovedKeysDiffer(m0: Heap, list: seq<Address>, chains: seq<seq<Address>>, i: nat, j: nat,
                        m: Heap, list': seq<Address>, chains': seq<seq<Address>>, b: nat)
    requires Rehashing(m0, list, chains, i, j, m, list', chains') && i < |list| && j < |chains[i]| && b < |list'|
    ensures forall k :: 0 <= k < |chains'[b]| ==>
      chains'[b][k] in m && chains[i][j] in m && !SameKey(m[chains[i][j]], m[chains'[b][k]].key, m[chains'[b][k]].hash)
  {
    var h, c := chains[i][j], chains[i];
    assert IsChain(m0, |list|, i, list[i], c) && IsChain(m, |list'|, b, list'[b], chains'[b]);
    forall k | 0 <= k < |chains'[b]| ensures !SameKey(m[h], m[chains'[b][k]].key, m[chains'[b][k]].hash) {
      var a := chains'[b][k];
      assert InTable(m, chains', a);
      assert Moved(m0, chains, i, j, a);
      if m0[a].hash == m0[h].hash {
        var l :| 0 <= l < j && c[l] == a;
        assert !SameKey(m0[c[l]], m0[c[j]].key, m0[c[j]].hash);
      }
    }
  }

  lemma PrefixOneMore(c: seq<Address>, j: nat)
    requires j < |c|
    ensures forall a :: a in c[..j + 1] <==> a in c[..j] || a == c[j]
  {
    assert c[..j + 1] == c[..j] + [c[j]];
  }

  lemma MovedOneMore(m0: Heap, chains: seq<seq<Address>>, i: nat, j: nat)
    requires i < |chains| && j < |chains[i]| && chains[i][j] in m0 && Bucket(m0[chains[i][j]].hash, |chains|) == i
    ensures forall a :: Moved(m0, chains, i, j + 1, a) <==> Moved(m0, chains, i, j, a) || a == chains[i][j]
  {
    PrefixOneMore(chains[i], j);
  }

  lemma AllOfChainMoved(m0: Heap, chains: seq<seq<Address>>, i: nat)
    requires i < |chains|
    ensures forall a :: Moved(m0, chains, i + 1, 0, a) <==> Moved(m0, chains, i, |chains[i]|, a)
  {
    hide Bucket;
    assert chains[i][..|chains[i]|] == chains[i];
  }

  lemma ChainDone(m0: Heap, list: seq<Address>, chains: seq<seq<Address>>, i: nat,
                  m: Heap, list': seq<Address>, chains': seq<seq<Address>>)
    requires i < |list| && |list| == |chains| && Rehashing(m0, list, chains, i, |chains[i]|, m, list', chains')
    ensures Rehashing(m0, list, chains, i + 1, 0, m, list', chains')
    ensures Total(chains[..i + 1]) == Total(chains[..i]) + |chains[i]|
  {
    hide IsTable, Moved, InTable;
    TotalOfMore(chains, i);
    AllOfChainMoved(m0, chains, i);
  }

  lemma Rehashed(m0: Heap, list: seq<Address>, chains: seq<seq<Address>>,
                 m: Heap, list': seq<Address>, chains': seq<seq<Address>>)
    requires Rehashing(m0, list, chains, |list|, 0, m, list', chains')
    ensures IsTable(m, list', chains') && HashLinksOnly(m0, m) && Members(m, chains') == Members(m0, chains)
  {
    forall a | a in m0 ensures a in Members(m, chains') <==> a in Members(m0, chains) {
      assert Moved(m0, chains, |list|, 0, a) <==> InTable(m0, chains, a);
    }
  }
}
