/** The entries of a cache in memory: a ring in order of use, and chains by hash (util/cache.cc). */
module LruMemory {
  import opened ByteStrings

  /** An address stands for one allocation. */
  type Address = nat

  const NULL: Address := 0
  const LRU: Address := 1 // the dummy head of the ring

  datatype LRUHandle = LRUHandle(key: Bytes, hash: nat, value: int, charge: nat, refs: nat,
                                 nextHash: Address, next: Address, prev: Address)

  /** What is allocated; freeing an entry takes it out. */
  type Heap = map<Address, LRUHandle>

  predicate NoDuplicates(s: seq<Address>) {
    forall i, j :: 0 <= i < j < |s| ==> s[i] != s[j]
  }

  function Without(s: seq<Address>, i: nat): (r: seq<Address>)
    requires i < |s|
  {
    s[..i] + s[i + 1..]
  }

  lemma WithoutMembers(s: seq<Address>, i: nat)
    requires i < |s| && NoDuplicates(s)
    ensures NoDuplicates(Without(s, i))
    ensures forall a :: a in Without(s, i) <==> a in s && a != s[i]
  {
    assert s == s[..i] + [s[i]] + s[i + 1..];
  }

  // ---- the ring ----

  function After(order: seq<Address>, i: int): Address
    requires -1 <= i < |order|
  {
    if i + 1 < |order| then order[i + 1] else LRU
  }

  function Before(order: seq<Address>, i: nat): Address
    requires i <= |order|
  {
    if i > 0 then order[i - 1] else LRU
  }

  /** The ring goes through `order`, oldest first, and the dummy, in both directions. */
  predicate IsRing(m: Heap, order: seq<Address>) {
    && NoDuplicates(order) && LRU !in order && NULL !in order && LRU in m
    && (forall i :: 0 <= i < |order| ==> order[i] in m)
    && m[LRU].next == After(order, -1) && m[LRU].prev == Before(order, |order|)
    && forall i :: 0 <= i < |order| ==> m[order[i]].next == After(order, i) && m[order[i]].prev == Before(order, i)
  }

  function SetNext(m: Heap, a: Address, next: Address): Heap
    requires a in m
  {
    m[a := m[a].(next := next)]
  }

  function SetPrev(m: Heap, a: Address, prev: Address): Heap
    requires a in m
  {
    m[a := m[a].(prev := prev)]
  }

  function SetRefs(m: Heap, a: Address, refs: nat): Heap
    requires a in m
  {
    m[a := m[a].(refs := refs)]
  }

  function SetNextHash(m: Heap, a: Address, nextHash: Address): Heap
    requires a in m
  {
    m[a := m[a].(nextHash := nextHash)]
  }

  /** Taking an entry out: its neighbours are linked to each other. */
  function Unlinked(m: Heap, e: Address): Heap
    requires e in m && m[e].next in m && m[e].prev in m
  {
    SetNext(SetPrev(m, m[e].next, m[e].prev), m[e].prev, m[e].next)
  }

  lemma RingNeighbours(m: Heap, order: seq<Address>, i: nat)
    requires IsRing(m, order) && i < |order|
    ensures m[order[i]].next in m && m[order[i]].prev in m
  {
  }

  lemma UnlinkedLinks(m: Heap, e: Address)
    requires e in m && m[e].next in m && m[e].prev in m
    ensures Unlinked(m, e).Keys == m.Keys
    ensures forall a :: a in m ==>
      && Unlinked(m, e)[a].next == (if a == m[e].prev then m[e].next else m[a].next)
      && Unlinked(m, e)[a].prev == (if a == m[e].next then m[e].prev else m[a].prev)
  {
  }

  lemma WithoutNeighbours(order: seq<Address>, i: nat, j: nat)
    requires NoDuplicates(order) && LRU !in order && i < |order| && j < |order| && i != j
    ensures var order', k := Without(order, i), if j < i then j else j - 1;
            && order'[k] == order[j]
            && After(order', k) == (if order[j] == Before(order, i) then After(order, i) else After(order, j))
            && Before(order', k) == (if order[j] == After(order, i) then Before(order, i) else Before(order, j))
  {
  }

  lemma WithoutEnds(order: seq<Address>, i: nat)
    requires NoDuplicates(order) && LRU !in order && i < |order|
    ensures var order' := Without(order, i);
            && After(order', -1) == (if Before(order, i) == LRU then After(order, i) else After(order, -1))
            && Before(order', |order'|) == (if After(order, i) == LRU then Before(order, i) else Before(order, |order|))
  {
  }

  lemma UnlinkedRingAt(m: Heap, order: seq<Address>, i: nat, j: nat)
    requires IsRing(m, order) && i < |order| && j < |order| && i != j && m[order[i]].next in m && m[order[i]].prev in m
    ensures var m', order', k := Unlinked(m, order[i]), Without(order, i), if j < i then j else j - 1;
            k < |order'| && order'[k] in m' && m'[order'[k]].next == After(order', k) && m'[order'[k]].prev == Before(order', k)
  {
    UnlinkedLinks(m, order[i]);
    WithoutNeighbours(order, i, j);
    hide Unlinked, Without, After, Before, NoDuplicates;
  }

  lemma UnlinkedRing(m: Heap, order: seq<Address>, i: nat)
    requires IsRing(m, order) && i < |order| && m[order[i]].next in m && m[order[i]].prev in m
    ensures IsRing(Unlinked(m, order[i]), Without(order, i))
  {
    var m', order' := Unlinked(m, order[i]), Without(order, i);
    UnlinkedLinks(m, order[i]);
    WithoutMembers(order, i);
    WithoutEnds(order, i);
    assert |order'| == |order| - 1;
    forall k | 0 <= k < |order'|
      ensures order'[k] in m' && m'[order'[k]].next == After(order', k) && m'[order'[k]].prev == Before(order', k)
    {
      UnlinkedRingAt(m, order, i, if k < i then k else k + 1);
    }
    hide Unlinked, Without, After, Before, NoDuplicates;
  }

  /** Putting an entry in as the newest, just before the dummy. */
  function Appended(m: Heap, e: Address): Heap
    requires e in m && LRU in m && m[LRU].prev in m
  {
    var last := m[LRU].prev;
    SetPrev(SetNext(SetPrev(SetNext(m, e, LRU), e, last), last, e), LRU, e)
  }

  lemma AppendedRing(m: Heap, order: seq<Address>, e: Address)
    requires IsRing(m, order) && e in m && e !in order && e != LRU && e != NULL && m[LRU].prev in m
    ensures IsRing(Appended(m, e), order + [e])
  {
    var m', order' := Appended(m, e), order + [e];
    forall j | 0 <= j < |order'|
      ensures order'[j] in m' && m'[order'[j]].next == After(order', j) && m'[order'[j]].prev == Before(order', j)
    {
      if j < |order| {
        assert order'[j] == order[j];
      }
    }
  }

  /** Whatever does not touch the ring's links keeps it. */
  ghost predicate SameLinks(m: Heap, m': Heap, s: seq<Address>) {
    forall a :: a in m && (a in s || a == LRU) ==> a in m' && m'[a].next == m[a].next && m'[a].prev == m[a].prev
  }

  lemma SameLinksRing(m: Heap, m': Heap, order: seq<Address>)
    requires IsRing(m, order) && SameLinks(m, m', order)
    ensures IsRing(m', order)
  {
  }

  // ---- the chains of the hash table ----

  /** The length is a power of two, so masking the hash is taking the remainder. */
  function Bucket(hash: nat, length: nat): (b: nat)
    requires length > 0
    ensures b < length
  {
    hash % length
  }

  function First(c: seq<Address>, j: nat): Address {
    if j < |c| then c[j] else NULL
  }

  /** A bucket's chain: entries of that bucket, no two for the same key. */
  predicate IsChain(m: Heap, length: nat, bucket: nat, head: Address, c: seq<Address>)
    requires length > 0
  {
    && head == First(c, 0) && NULL !in c && LRU !in c
    && (forall j :: 0 <= j < |c| ==> c[j] in m && Bucket(m[c[j]].hash, length) == bucket && m[c[j]].nextHash == First(c, j + 1))
    && forall j, k :: 0 <= j < k < |c| ==> !SameKey(m[c[j]], m[c[k]].key, m[c[k]].hash)
  }

  predicate SameKey(h: LRUHandle, key: Bytes, hash: nat) {
    h.hash == hash && h.key == key
  }

  function Total(chains: seq<seq<Address>>): nat {
    if chains == [] then 0 else |chains[0]| + Total(chains[1..])
  }

  ghost predicate IsTable(m: Heap, list: seq<Address>, chains: seq<seq<Address>>) {
    && |list| == |chains| > 0
    && forall i :: 0 <= i < |list| ==> IsChain(m, |list|, i, list[i], chains[i])
  }

  /** The table holds this entry. */
  ghost predicate InTable(m: Heap, chains: seq<seq<Address>>, a: Address) {
    |chains| > 0 && a in m && a in chains[Bucket(m[a].hash, |chains|)]
  }

  lemma {:induction false} TotalUpdate(chains: seq<seq<Address>>, i: nat, c: seq<Address>)
    requires i < |chains|
    ensures Total(chains[i := c]) + |chains[i]| == Total(chains) + |c|
    decreases |chains|
  {
    if i > 0 {
      TotalUpdate(chains[1..], i - 1, c);
      assert chains[i := c][1..] == chains[1..][i - 1 := c];
    } else {
      assert chains[i := c][1..] == chains[1..];
    }
  }

  ghost predicate SameHash(m: Heap, m': Heap, c: seq<Address>) {
    forall a :: a in c && a in m ==>
      a in m' && m'[a].key == m[a].key && m'[a].hash == m[a].hash && m'[a].nextHash == m[a].nextHash
  }

  lemma SameHashChain(m: Heap, m': Heap, length: nat, bucket: nat, head: Address, c: seq<Address>)
    requires length > 0 && IsChain(m, length, bucket, head, c) && SameHash(m, m', c)
    ensures IsChain(m', length, bucket, head, c)
  {
  }

  /** The part of a chain from `j` on is a chain. */
  lemma ChainTail(m: Heap, length: nat, bucket: nat, head: Address, c: seq<Address>, j: nat)
    requires length > 0 && IsChain(m, length, bucket, head, c) && j <= |c|
    ensures IsChain(m, length, bucket, First(c, j), c[j..])
  {
  }

  lemma ChainCons(m: Heap, length: nat, bucket: nat, a: Address, c: seq<Address>)
    requires length > 0 && IsChain(m, length, bucket, First(c, 0), c)
    requires a != NULL && a != LRU && a in m && Bucket(m[a].hash, length) == bucket && m[a].nextHash == First(c, 0)
    requires forall k :: 0 <= k < |c| ==> !SameKey(m[a], m[c[k]].key, m[c[k]].hash)
    ensures IsChain(m, length, bucket, a, [a] + c)
  {
    var d := [a] + c;
    forall j | 0 <= j < |d| ensures d[j] in m && Bucket(m[d[j]].hash, length) == bucket && m[d[j]].nextHash == First(d, j + 1) {
      if j > 0 {
        assert d[j] == c[j - 1] && First(d, j + 1) == First(c, j);
      }
    }
    forall j, k | 0 <= j < k < |d| ensures !SameKey(m[d[j]], m[d[k]].key, m[d[k]].hash) {
      assert d[k] == c[k - 1];
      if j > 0 {
        assert d[j] == c[j - 1];
      }
    }
  }

  lemma ChainMembersDiffer(m: Heap, length: nat, bucket: nat, head: Address, c: seq<Address>)
    requires length > 0 && IsChain(m, length, bucket, head, c)
    ensures NoDuplicates(c)
  {
    forall i, j | 0 <= i < j < |c| ensures c[i] != c[j] {
      assert !SameKey(m[c[i]], m[c[j]].key, m[c[j]].hash);
    }
  }

  /** An entry of the chain that the new tail does not repeat. */
  ghost predicate Differs(m: Heap, a: Address, d: seq<Address>) {
    a in m && forall k :: 0 <= k < |d| ==> d[k] in m && a != d[k] && !SameKey(m[a], m[d[k]].key, m[d[k]].hash)
  }

  /** Storing another tail after the first entry. */
  lemma SpliceFirst(m: Heap, length: nat, bucket: nat, c: seq<Address>, d: seq<Address>)
    requires length > 0 && c != [] && IsChain(m, length, bucket, c[0], c) && IsChain(m, length, bucket, First(d, 0), d)
    requires Differs(m, c[0], d)
    ensures IsChain(SetNextHash(m, c[0], First(d, 0)), length, bucket, c[0], [c[0]] + d)
  {
    hide Bucket;
    var m' := SetNextHash(m, c[0], First(d, 0));
    SameHashChain(m, m', length, bucket, First(d, 0), d);
    ChainCons(m', length, bucket, c[0], d);
  }

  /** The first entry in front of a chain that was changed further on. */
  lemma SpliceLater(m: Heap, length: nat, bucket: nat, c: seq<Address>, l: nat, e: seq<Address>, d: seq<Address>, link: Address)
    requires length > 0 && 0 < l < |c| && IsChain(m, length, bucket, c[0], c) && Differs(m, c[0], d)
    requires IsChain(SetNextHash(m, c[l], link), length, bucket, c[1], e)
    requires forall a :: a in e ==> a in c[1..] || a in d
    ensures IsChain(SetNextHash(m, c[l], link), length, bucket, c[0], [c[0]] + e)
  {
    ChainMembersDiffer(m, length, bucket, c[0], c);
    hide Bucket;
    var m' := SetNextHash(m, c[l], link);
    forall k | 0 <= k < |e| ensures !SameKey(m'[c[0]], m'[e[k]].key, m'[e[k]].hash) {
      assert e[k] in e;
      if e[k] in d {
        var i :| 0 <= i < |d| && d[i] == e[k];
      } else {
        var i :| 0 <= i < |c| - 1 && c[1..][i] == e[k];
        assert e[k] == c[i + 1];
      }
    }
    ChainCons(m', length, bucket, c[0], e);
  }

  lemma ChainHead(m: Heap, length: nat, bucket: nat, head: Address, c: seq<Address>)
    requires length > 0 && IsChain(m, length, bucket, head, c)
    ensures head == First(c, 0) && forall i :: 0 <= i < |c| ==> c[i] in m
  {
  }

  lemma SpliceSequences(c: seq<Address>, j: nat, d: seq<Address>)
    requires 1 <= j <= |c|
    ensures c[..j] + d == [c[0]] + (c[1..][..j - 1] + d)
    ensures j > 1 ==> c[1..][j - 2] == c[j - 1]
    ensures forall a :: a in c[1..][..j - 1] + d ==> a in c[1..] || a in d
  {
  }

  /** Storing another tail into the slot before `j > 0`. */
  lemma {:induction false} SpliceChain(m: Heap, length: nat, bucket: nat, head: Address, c: seq<Address>, j: nat, d: seq<Address>)
    requires length > 0 && IsChain(m, length, bucket, head, c) && 0 < j <= |c|
    requires IsChain(m, length, bucket, First(d, 0), d)
    requires forall i :: 0 <= i < j ==> Differs(m, c[i], d)
    ensures c[j - 1] in m && IsChain(SetNextHash(m, c[j - 1], First(d, 0)), length, bucket, head, c[..j] + d)
    decreases j
  {
    hide IsChain, Differs, SetNextHash;
    ChainHead(m, length, bucket, head, c);
    SpliceSequences(c, j, d);
    if j == 1 {
      SpliceFirst(m, length, bucket, c, d);
      assert c[1..][..0] + d == d;
    } else {
      ChainTail(m, length, bucket, head, c, 1);
      var rest := c[1..];
      SpliceChain(m, length, bucket, First(c, 1), rest, j - 1, d);
      SpliceLater(m, length, bucket, c, j - 1, rest[..j - 1] + d, d, First(d, 0));
    }
  }

  // ---- what a table operation may change ----

  /** Only links of chains differ. */
  ghost predicate HashLinksOnly(m: Heap, m': Heap) {
    m'.Keys == m.Keys && forall a :: a in m ==> m'[a] == m[a].(nextHash := m'[a].nextHash)
  }

  lemma HashLinksRing(m: Heap, m': Heap, order: seq<Address>)
    requires IsRing(m, order) && HashLinksOnly(m, m')
    ensures IsRing(m', order)
  {
    assert SameLinks(m, m', order);
    SameLinksRing(m, m', order);
  }

  /** In a bucket of its own, a chain does not notice a link set in another. */
  lemma OtherChains(m: Heap, list: seq<Address>, chains: seq<seq<Address>>, b: nat, a: Address, link: Address)
    requires IsTable(m, list, chains) && b < |list| && a in m && Bucket(m[a].hash, |list|) == b
    ensures forall i :: 0 <= i < |list| && i != b ==> IsChain(SetNextHash(m, a, link), |list|, i, list[i], chains[i])
  {
    forall i | 0 <= i < |list| && i != b ensures IsChain(SetNextHash(m, a, link), |list|, i, list[i], chains[i]) {
      SameHashChain(m, SetNextHash(m, a, link), |list|, i, list[i], chains[i]);
    }
  }
}
