/** A cache with least-recently-used eviction and counted references (util/cache.cc). */
module LruCaches {
  import opened ByteStrings
  import opened LruMemory
  import opened HandleTables

  // ---- accounts ----

  /** The charges of these entries. */
  function Charges(m: Heap, s: seq<Address>): nat
    requires forall a :: a in s ==> a in m
  {
    if s == [] then 0 else m[s[0]].charge + Charges(m, s[1..])
  }

  lemma {:induction false} ChargesSame(m: Heap, m': Heap, s: seq<Address>)
    requires forall a :: a in s ==> a in m && a in m' && m'[a].charge == m[a].charge
    ensures Charges(m', s) == Charges(m, s)
  {
    if s != [] {
      ChargesSame(m, m', s[1..]);
    }
  }

  lemma {:induction false} ChargesAppend(m: Heap, s: seq<Address>, e: Address)
    requires e in m && forall a :: a in s ==> a in m
    ensures Charges(m, s + [e]) == Charges(m, s) + m[e].charge
  {
    if s == [] {
      assert [e][1..] == [];
    } else {
      assert (s + [e])[1..] == s[1..] + [e];
      ChargesAppend(m, s[1..], e);
    }
  }

  lemma {:induction false} ChargesWithout(m: Heap, s: seq<Address>, i: nat)
    requires i < |s| && forall a :: a in s ==> a in m
    ensures forall a :: a in Without(s, i) ==> a in m
    ensures Charges(m, Without(s, i)) + m[s[i]].charge == Charges(m, s)
    decreases |s|
  {
    if i == 0 {
      assert Without(s, 0) == s[1..];
    } else {
      ChargesWithout(m, s[1..], i - 1);
      assert Without(s, i)[1..] == Without(s[1..], i - 1) && Without(s, i)[0] == s[0];
    }
  }

  /** What is allocated: the dummy and the live entries. Every address handed out is either live or freed, and
      freed once. */
  ghost predicate Allocations(m: Heap, live: seq<Address>, freed: seq<Address>, nextAddress: Address) {
    && NoDuplicates(live) && NoDuplicates(freed) && LRU in m && LRU < nextAddress
    && (forall a :: a in m <==> a == LRU || a in live)
    && (forall a :: a in live || a in freed <==> LRU < a < nextAddress)
    && forall a :: a in live ==> a !in freed
  }

  /** A live entry's references: one from the cache while it is in it, one for every handle a client holds, and
      those about to be dropped. */
  ghost predicate Counted(m: Heap, order: seq<Address>, live: seq<Address>, held: multiset<Address>) {
    && (forall a :: a in live ==> a in m && m[a].refs == held[a] + (if a in order then 1 else 0) && m[a].refs > 0)
    && forall a :: a in held ==> a in live
  }

  ghost predicate Books(m: Heap, order: seq<Address>, live: seq<Address>, freed: seq<Address>, held: multiset<Address>,
                        nextAddress: Address, usage: nat) {
    && Allocations(m, live, freed, nextAddress) && Counted(m, order, live, held) && IsRing(m, order)
    && usage == Charges(m, live) && forall a :: a in order ==> a in live
  }

  /** Changing links keeps the accounts. */
  ghost predicate SameAccounts(m: Heap, m': Heap) {
    m'.Keys == m.Keys && forall a :: a in m ==> m'[a].refs == m[a].refs && m'[a].charge == m[a].charge
  }

  lemma AccountsOfLinks(m: Heap, e: Address)
    requires e in m && LRU in m
    ensures m[e].next in m && m[e].prev in m ==> SameAccounts(m, Unlinked(m, e))
    ensures m[LRU].prev in m ==> SameAccounts(m, Appended(m, e))
  {
  }

  lemma SameAllocations(m: Heap, m': Heap, live: seq<Address>, freed: seq<Address>, nextAddress: Address)
    requires Allocations(m, live, freed, nextAddress) && m'.Keys == m.Keys
    ensures Allocations(m', live, freed, nextAddress)
  {
  }

  /** The order gains and loses entries as the references do. */
  lemma SameCounts(m: Heap, m': Heap, order: seq<Address>, order': seq<Address>, live: seq<Address>,
                   held: multiset<Address>, held': multiset<Address>)
    requires Counted(m, order, live, held) && SameAccounts(m, m')
    requires forall a :: a in live ==> held'[a] + (if a in order' then 1 else 0) == held[a] + if a in order then 1 else 0
    requires forall a :: a in held' ==> a in live
    ensures Counted(m', order', live, held')
  {
  }

  lemma SameAccountsBooks(m: Heap, m': Heap, order: seq<Address>, live: seq<Address>, freed: seq<Address>,
                          held: multiset<Address>, nextAddress: Address, usage: nat)
    requires Books(m, order, live, freed, held, nextAddress, usage) && SameAccounts(m, m') && IsRing(m', order)
    ensures Books(m', order, live, freed, held, nextAddress, usage)
  {
    ChargesSame(m, m', live);
  }

  lemma LiveInHeap(m: Heap, live: seq<Address>, freed: seq<Address>, nextAddress: Address)
    requires Allocations(m, live, freed, nextAddress)
    ensures forall a :: a in live ==> a in m && a != LRU && a != NULL && a < nextAddress
    ensures LRU in m
  {
  }

  /** Taking an entry out of the ring leaves its reference to be dropped. */
  lemma RemoveBooks(m: Heap, order: seq<Address>, live: seq<Address>, freed: seq<Address>, held: multiset<Address>,
                    nextAddress: Address, usage: nat, i: nat)
    requires Books(m, order, live, freed, held, nextAddress, usage) && i < |order|
    requires order[i] in m && m[order[i]].next in m && m[order[i]].prev in m
    ensures Books(Unlinked(m, order[i]), Without(order, i), live, freed, held + multiset{order[i]}, nextAddress, usage)
  {
    var e, order', m' := order[i], Without(order, i), Unlinked(m, order[i]);
    RingMembers(m, order);
    WithoutMembers(order, i);
    UnlinkedRing(m, order, i);
    LiveInHeap(m, live, freed, nextAddress);
    AccountsOfLinks(m, e);
    hide Allocations, Counted, IsRing, Unlinked, Without, NoDuplicates;
    SameAllocations(m, m', live, freed, nextAddress);
    SameCounts(m, m', order, order', live, held, held + multiset{e});
    ChargesSame(m, m', live);
  }

  lemma RingMembers(m: Heap, order: seq<Address>)
    requires IsRing(m, order)
    ensures NoDuplicates(order) && LRU !in order && NULL !in order && LRU in m && forall a :: a in order ==> a in m
  {
  }

  /** Putting an entry that is not in the ring back at its newest end takes up one reference. */
  lemma AppendBooks(m: Heap, order: seq<Address>, live: seq<Address>, freed: seq<Address>, held: multiset<Address>,
                    nextAddress: Address, usage: nat, e: Address)
    requires Books(m, order, live, freed, held, nextAddress, usage) && e in held && e !in order && LRU in m && e in m
    requires m[LRU].prev in m
    ensures Books(Appended(m, e), order + [e], live, freed, held - multiset{e}, nextAddress, usage)
  {
    var order', m' := order + [e], Appended(m, e);
    assert e in live;
    LiveInHeap(m, live, freed, nextAddress);
    AppendedRing(m, order, e);
    AccountsOfLinks(m, e);
    hide Allocations, IsRing, Appended;
    SameAllocations(m, m', live, freed, nextAddress);
    SameCounts(m, m', order, order', live, held, held - multiset{e});
    hide Counted;
    ChargesSame(m, m', live);
  }

  /** One more reference for one more handle. */
  lemma RefBooks(m: Heap, order: seq<Address>, live: seq<Address>, freed: seq<Address>, held: multiset<Address>,
                 nextAddress: Address, usage: nat, e: Address)
    requires Books(m, order, live, freed, held, nextAddress, usage) && e in live && e in m
    ensures Books(SetRefs(m, e, m[e].refs + 1), order, live, freed, held + multiset{e}, nextAddress, usage)
  {
    var m' := SetRefs(m, e, m[e].refs + 1);
    SameLinksRing(m, m', order);
    LiveInHeap(m, live, freed, nextAddress);
    SameAllocations(m, m', live, freed, nextAddress);
    hide Allocations, IsRing;
    ChargesSame(m, m', live);
  }

  /** One reference less, while another is left. */
  lemma UnrefBooks(m: Heap, order: seq<Address>, live: seq<Address>, freed: seq<Address>, held: multiset<Address>,
                   nextAddress: Address, usage: nat, e: Address)
    requires Books(m, order, live, freed, held, nextAddress, usage) && e in held && e in m && m[e].refs > 1
    ensures Books(SetRefs(m, e, m[e].refs - 1), order, live, freed, held - multiset{e}, nextAddress, usage)
  {
    var m' := SetRefs(m, e, m[e].refs - 1);
    SameLinksRing(m, m', order);
    LiveInHeap(m, live, freed, nextAddress);
    SameAllocations(m, m', live, freed, nextAddress);
    hide Allocations, IsRing;
    ChargesSame(m, m', live);
  }

  /** A new entry, with one reference for the cache and one for the handle returned. */
  function NewEntry(key: Bytes, hash: nat, value: int, charge: nat): LRUHandle {
    LRUHandle(key, hash, value, charge, 2, NULL, NULL, NULL)
  }

  lemma AllocateAllocations(m: Heap, live: seq<Address>, freed: seq<Address>, e: Address, h: LRUHandle)
    requires Allocations(m, live, freed, e)
    ensures Allocations(m[e := h], live + [e], freed, e + 1)
    ensures e !in m && e !in live
  {
    var live' := live + [e];
    assert e !in live;
    forall a ensures a in live' <==> a in live || a == e {
    }
    assert NoDuplicates(live');
    hide NoDuplicates;
  }

  lemma AllocateCounted(m: Heap, order: seq<Address>, live: seq<Address>, held: multiset<Address>, e: Address, h: LRUHandle)
    requires Counted(m, order, live, held) && e !in live && e !in order && h.refs == 2
    ensures Counted(m[e := h], order, live + [e], held + multiset{e, e})
  {
    assert e !in held;
    forall a | a in live + [e]
      ensures a in m[e := h] && m[e := h][a].refs == (held + multiset{e, e})[a] + (if a in order then 1 else 0)
      ensures m[e := h][a].refs > 0
    {
    }
  }

  lemma AllocateBooks(m: Heap, order: seq<Address>, live: seq<Address>, freed: seq<Address>, held: multiset<Address>,
                      e: Address, usage: nat, h: LRUHandle)
    requires Books(m, order, live, freed, held, e, usage) && h.refs == 2
    ensures e !in m && e !in order
    ensures Books(m[e := h], order, live + [e], freed, held + multiset{e, e}, e + 1, usage + h.charge)
  {
    var m' := m[e := h];
    LiveInHeap(m, live, freed, e);
    AllocateAllocations(m, live, freed, e, h);
    AllocateCounted(m, order, live, held, e, h);
    SameLinksRing(m, m', order);
    hide Allocations, Counted, IsRing;
    ChargesSame(m, m', live);
    ChargesAppend(m', live, e);
  }

  /** The last reference dropped: the entry is freed, and its charge no longer counts. */
  lemma FreeBooks(m: Heap, order: seq<Address>, live: seq<Address>, freed: seq<Address>, held: multiset<Address>,
                  nextAddress: Address, usage: nat, i: nat)
    requires Books(m, order, live, freed, held, nextAddress, usage) && i < |live|
    requires live[i] in held && live[i] in m && m[live[i]].refs == 1
    ensures m[live[i]].charge <= usage && live[i] !in order
    ensures Books(m - {live[i]}, order, Without(live, i), freed + [live[i]], held - multiset{live[i]}, nextAddress,
                  usage - m[live[i]].charge)
  {
    var e := live[i];
    var m', live' := m - {e}, Without(live, i);
    assert held[e] == 1 && e !in order;
    LiveInHeap(m, live, freed, nextAddress);
    FreeAllocations(m, live, freed, nextAddress, i);
    WithoutMembers(live, i);
    RingMembers(m, order);
    SameLinksRing(m, m', order);
    ChargesWithout(m, live, i);
    hide Allocations, IsRing, Without, NoDuplicates;
    FreeCounted(m, order, live, live', held, e);
    hide Counted;
    ChargesSame(m, m', live');
  }

  lemma FreeCounted(m: Heap, order: seq<Address>, live: seq<Address>, live': seq<Address>, held: multiset<Address>, e: Address)
    requires Counted(m, order, live, held) && held[e] == 1 && e !in order
    requires forall a :: a in live' <==> a in live && a != e
    ensures Counted(m - {e}, order, live', held - multiset{e})
  {
  }

  lemma FreeAllocations(m: Heap, live: seq<Address>, freed: seq<Address>, nextAddress: Address, i: nat)
    requires Allocations(m, live, freed, nextAddress) && i < |live|
    ensures Allocations(m - {live[i]}, Without(live, i), freed + [live[i]], nextAddress)
    ensures NoDuplicates(live)
  {
    var e, live', freed' := live[i], Without(live, i), freed + [live[i]];
    WithoutMembers(live, i);
    hide Without;
    assert e in live;
    assert LRU < e < nextAddress && e !in freed && e in m;
    assert NoDuplicates(freed');
    hide NoDuplicates;
    forall a ensures a in freed' <==> a in freed || a == e {
    }
    forall a ensures a in live' || a in freed' <==> LRU < a < nextAddress {
      assert a in live || a in freed <==> LRU < a < nextAddress;
    }
    forall a | a in live' ensures a !in freed' {
    }
    forall a ensures a in m - {e} <==> a == LRU || a in live' {
    }
    assert LRU in m - {e};
  }

  // ---- what was inserted, and what was deleted ----

  /** What a deleter is called with. */
  datatype Item = Item(key: Bytes, value: int)

  predicate SameEntry(a: LRUHandle, b: LRUHandle) {
    a.key == b.key && a.hash == b.hash && a.value == b.value && a.charge == b.charge
  }

  /** Live entries are as they were inserted, and the deleter was called once for each freed one. */
  ghost predicate Records(m: Heap, live: seq<Address>, freed: seq<Address>, inserted: map<Address, LRUHandle>,
                          deleted: seq<Item>) {
    && (forall a :: a in live ==> a in m && a in inserted && SameEntry(m[a], inserted[a]))
    && |deleted| == |freed|
    && forall i :: 0 <= i < |freed| ==>
      freed[i] in inserted && deleted[i] == Item(inserted[freed[i]].key, inserted[freed[i]].value)
  }

  /** Nothing but links and references differs. */
  ghost predicate LinksOnly(m: Heap, m': Heap) {
    m'.Keys == m.Keys && forall a :: a in m ==>
      SameEntry(m'[a], m[a]) && m'[a].nextHash == m[a].nextHash
  }

  lemma RingLinksOnly(m: Heap, e: Address)
    requires e in m && LRU in m
    ensures m[e].next in m && m[e].prev in m ==> LinksOnly(m, Unlinked(m, e))
    ensures m[LRU].prev in m ==> LinksOnly(m, Appended(m, e))
    ensures forall refs: nat :: LinksOnly(m, SetRefs(m, e, refs))
  {
  }

  lemma SameRecords(m: Heap, m': Heap, live: seq<Address>, freed: seq<Address>, inserted: map<Address, LRUHandle>,
                    deleted: seq<Item>)
    requires Records(m, live, freed, inserted, deleted)
    requires LinksOnly(m, m') || HashLinksOnly(m, m')
    ensures Records(m', live, freed, inserted, deleted)
  {
  }

  lemma FreeRecords(m: Heap, live: seq<Address>, i: nat, freed: seq<Address>, inserted: map<Address, LRUHandle>,
                    deleted: seq<Item>)
    requires Records(m, live, freed, inserted, deleted) && i < |live| && NoDuplicates(live) && live[i] in m
    ensures Records(m - {live[i]}, Without(live, i), freed + [live[i]], inserted,
                    deleted + [Item(m[live[i]].key, m[live[i]].value)])
    ensures live[i] in inserted && inserted[live[i]].charge == m[live[i]].charge
  {
    assert live[i] in live;
    WithoutMembers(live, i);
    hide Without;
  }

  lemma AllocateRecords(m: Heap, live: seq<Address>, e: Address, freed: seq<Address>, inserted: map<Address, LRUHandle>,
                        deleted: seq<Item>, h: LRUHandle)
    requires Records(m, live, freed, inserted, deleted) && e !in live && e !in freed
    ensures Records(m[e := h], live + [e], freed, inserted[e := h], deleted)
  {
    forall i | 0 <= i < |freed| ensures freed[i] != e {
    }
  }

  // ---- the table beside the ring ----

  /** A table whose own entries are as they were keeps them. */
  lemma TableKept(m: Heap, m': Heap, list: seq<Address>, chains: seq<seq<Address>>)
    requires IsTable(m, list, chains)
    requires forall a :: a in Members(m, chains) ==>
      a in m' && m'[a].key == m[a].key && m'[a].hash == m[a].hash && m'[a].nextHash == m[a].nextHash
    ensures IsTable(m', list, chains) && Members(m', chains) == Members(m, chains)
  {
    forall i, a | 0 <= i < |list| && a in chains[i] ensures a in Members(m, chains) {
      assert IsChain(m, |list|, i, list[i], chains[i]);
    }
    forall i | 0 <= i < |list| ensures IsChain(m', |list|, i, list[i], chains[i]) {
      SameHashChain(m, m', |list|, i, list[i], chains[i]);
    }
  }

  lemma KeysDiffer(m: Heap, list: seq<Address>, chains: seq<seq<Address>>, a: Address, b: Address)
    requires IsTable(m, list, chains) && a in Members(m, chains) && b in Members(m, chains)
    requires SameKey(m[a], m[b].key, m[b].hash)
    ensures a == b
  {
    var i := Bucket(m[a].hash, |list|);
    assert IsChain(m, |list|, i, list[i], chains[i]);
    var j :| 0 <= j < |chains[i]| && chains[i][j] == a;
    var k :| 0 <= k < |chains[i]| && chains[i][k] == b;
  }

  // ---- everything together ----

  /** The bookkeeping of a cache: entries least recently used first, everything allocated, everything freed in order,
      the references beside the cache's own, and the entries as they were inserted. */
  datatype Ledger = Ledger(order: seq<Address>, live: seq<Address>, freed: seq<Address>, held: multiset<Address>,
                           nextAddress: Address, usage: nat, inserted: map<Address, LRUHandle>, deleted: seq<Item>)

  /** The table holds `entries`, and the ring, the references, the charges and the deletions agree with the ledger. */
  ghost predicate Held(m: Heap, list: seq<Address>, chains: seq<seq<Address>>, entries: set<Address>, l: Ledger) {
    && IsTable(m, list, chains) && Members(m, chains) == entries
    && Books(m, l.order, l.live, l.freed, l.held, l.nextAddress, l.usage)
    && Records(m, l.live, l.freed, l.inserted, l.deleted)
  }

  lemma MembersInHeap(m: Heap, chains: seq<seq<Address>>)
    ensures forall a :: a in Members(m, chains) ==> a in m
  {
  }

  /** Links and references set aside, the table is the same. */
  lemma HeldLinks(m: Heap, m': Heap, list: seq<Address>, chains: seq<seq<Address>>, entries: set<Address>, l: Ledger, l': Ledger)
    requires Held(m, list, chains, entries, l) && LinksOnly(m, m')
    requires l' == l.(order := l'.order, held := l'.held)
    requires Books(m', l'.order, l'.live, l'.freed, l'.held, l'.nextAddress, l'.usage)
    ensures Held(m', list, chains, entries, l')
  {
    MembersInHeap(m, chains);
    hide IsTable, Members, Books, Records, IsRing;
    TableKept(m, m', list, chains);
    SameRecords(m, m', l.live, l.freed, l.inserted, l.deleted);
  }

  lemma HeldFacts(m: Heap, list: seq<Address>, chains: seq<seq<Address>>, entries: set<Address>, l: Ledger, e: Address)
    requires Held(m, list, chains, entries, l) && e in l.held
    ensures e in m && e in l.live && e in l.inserted && SameEntry(m[e], l.inserted[e])
    ensures m[e].refs == l.held[e] + (if e in l.order then 1 else 0) && LRU in m
  {
  }

  lemma HeldUnref(m: Heap, list: seq<Address>, chains: seq<seq<Address>>, entries: set<Address>, l: Ledger, e: Address)
    requires Held(m, list, chains, entries, l) && e in l.held && e in m && m[e].refs > 1
    ensures Held(SetRefs(m, e, m[e].refs - 1), list, chains, entries, l.(held := l.held - multiset{e}))
  {
    HeldFacts(m, list, chains, entries, l, e);
    UnrefBooks(m, l.order, l.live, l.freed, l.held, l.nextAddress, l.usage, e);
    RingLinksOnly(m, e);
    hide Held;
    HeldLinks(m, SetRefs(m, e, m[e].refs - 1), list, chains, entries, l, l.(held := l.held - multiset{e}));
  }

  lemma HeldRef(m: Heap, list: seq<Address>, chains: seq<seq<Address>>, entries: set<Address>, l: Ledger, e: Address)
    requires Held(m, list, chains, entries, l) && e in l.order && e in m
    ensures Held(SetRefs(m, e, m[e].refs + 1), list, chains, entries, l.(held := l.held + multiset{e}))
  {
    RefBooks(m, l.order, l.live, l.freed, l.held, l.nextAddress, l.usage, e);
    RingLinksOnly(m, e);
    hide Held;
    HeldLinks(m, SetRefs(m, e, m[e].refs + 1), list, chains, entries, l, l.(held := l.held + multiset{e}));
  }

  lemma HeldRing(m: Heap, list: seq<Address>, chains: seq<seq<Address>>, entries: set<Address>, l: Ledger)
    requires Held(m, list, chains, entries, l)
    ensures IsRing(m, l.order)
  {
  }

  lemma HeldRemove(m: Heap, list: seq<Address>, chains: seq<seq<Address>>, entries: set<Address>, l: Ledger, i: nat)
    requires Held(m, list, chains, entries, l) && i < |l.order|
    ensures var e := l.order[i];
            && e in m && m[e].next in m && m[e].prev in m && m[e].next != e
            && Held(Unlinked(m, e), list, chains, entries, l.(order := Without(l.order, i), held := l.held + multiset{e}))
  {
    HeldRing(m, list, chains, entries, l);
    RingNeighbours(m, l.order, i);
    RemoveBooks(m, l.order, l.live, l.freed, l.held, l.nextAddress, l.usage, i);
    RingLinksOnly(m, l.order[i]);
    hide Held, Without, Unlinked;
    HeldLinks(m, Unlinked(m, l.order[i]), list, chains, entries, l,
              l.(order := Without(l.order, i), held := l.held + multiset{l.order[i]}));
  }

  lemma RingEnds(m: Heap, order: seq<Address>)
    requires IsRing(m, order)
    ensures LRU in m && m[LRU].prev in m && (m[LRU].prev == LRU || m[LRU].prev in order)
    ensures m[LRU].next == if order == [] then LRU else order[0]
    ensures LRU !in order && NULL !in order
  {
  }

  lemma HeldAppend(m: Heap, list: seq<Address>, chains: seq<seq<Address>>, entries: set<Address>, l: Ledger, e: Address)
    requires Held(m, list, chains, entries, l) && e in l.held && e !in l.order
    ensures e in m && e != LRU && LRU in m && m[LRU].prev in m && m[LRU].prev != e
    ensures Held(Appended(m, e), list, chains, entries, l.(order := l.order + [e], held := l.held - multiset{e}))
  {
    HeldFacts(m, list, chains, entries, l, e);
    HeldRing(m, list, chains, entries, l);
    RingEnds(m, l.order);
    LiveInHeap(m, l.live, l.freed, l.nextAddress);
    AppendBooks(m, l.order, l.live, l.freed, l.held, l.nextAddress, l.usage, e);
    RingLinksOnly(m, e);
    hide Held, Appended;
    HeldLinks(m, Appended(m, e), list, chains, entries, l, l.(order := l.order + [e], held := l.held - multiset{e}));
  }

  function Freed(l: Ledger, i: nat): Ledger
    requires i < |l.live| && l.live[i] in l.inserted && l.inserted[l.live[i]].charge <= l.usage
  {
    var e := l.live[i];
    l.(live := Without(l.live, i), freed := l.freed + [e], held := l.held - multiset{e},
       usage := l.usage - l.inserted[e].charge,
       deleted := l.deleted + [Item(l.inserted[e].key, l.inserted[e].value)])
  }

  lemma HeldFree(m: Heap, list: seq<Address>, chains: seq<seq<Address>>, entries: set<Address>, l: Ledger, i: nat)
    requires Held(m, list, chains, entries, l) && i < |l.live| && entries == ToSet(l.order)
    requires l.live[i] in l.held && l.live[i] in m && m[l.live[i]].refs == 1
    ensures var e := l.live[i];
            && e !in l.order && e in l.inserted && l.inserted[e].charge <= l.usage
            && Held(m - {e}, list, chains, entries, Freed(l, i))
  {
    var e := l.live[i];
    FreeBooks(m, l.order, l.live, l.freed, l.held, l.nextAddress, l.usage, i);
    assert NoDuplicates(l.live);
    FreeRecords(m, l.live, i, l.freed, l.inserted, l.deleted);
    MembersInHeap(m, chains);
    HeldFacts(m, list, chains, entries, l, e);
    hide IsTable, Members, Books, Records, Without, NoDuplicates;
    TableKept(m, m - {e}, list, chains);
  }

  function Allocated(l: Ledger, h: LRUHandle): Ledger {
    var e := l.nextAddress;
    l.(live := l.live + [e], held := l.held + multiset{e, e}, nextAddress := e + 1, usage := l.usage + h.charge,
       inserted := l.inserted[e := h])
  }

  lemma HeldAllocate(m: Heap, list: seq<Address>, chains: seq<seq<Address>>, entries: set<Address>, l: Ledger, h: LRUHandle)
    requires Held(m, list, chains, entries, l) && h.refs == 2
    ensures var e := l.nextAddress;
            e !in m && e !in l.order && e !in l.live && e !in l.freed && e !in entries && e > LRU &&
            Held(m[e := h], list, chains, entries, Allocated(l, h))
  {
    var e := l.nextAddress;
    AllocateBooks(m, l.order, l.live, l.freed, l.held, e, l.usage, h);
    assert e !in l.live && e !in l.freed && e > LRU;
    AllocateRecords(m, l.live, e, l.freed, l.inserted, l.deleted, h);
    MembersInHeap(m, chains);
    hide IsTable, Members, Books, Records;
    TableKept(m, m[e := h], list, chains);
  }

  /** What a table operation changes. */
  lemma HeldTable(m: Heap, list: seq<Address>, chains: seq<seq<Address>>, entries: set<Address>, l: Ledger,
                  m': Heap, list': seq<Address>, chains': seq<seq<Address>>)
    requires Held(m, list, chains, entries, l) && HashLinksOnly(m, m') && IsTable(m', list', chains')
    ensures Held(m', list', chains', Members(m', chains'), l)
  {
    HeldRing(m, list, chains, entries, l);
    HashLinksRing(m, m', l.order);
    SameRecords(m, m', l.live, l.freed, l.inserted, l.deleted);
    assert SameAccounts(m, m');
    hide IsTable, Members, Books, Records;
    SameAccountsBooks(m, m', l.order, l.live, l.freed, l.held, l.nextAddress, l.usage);
  }

  lemma HeldDiffer(m: Heap, list: seq<Address>, chains: seq<seq<Address>>, entries: set<Address>, l: Ledger, a: Address, b: Address)
    requires Held(m, list, chains, entries, l) && a in entries && b in entries && a in m && b in m
    requires SameKey(m[a], m[b].key, m[b].hash)
    ensures a == b
  {
    KeysDiffer(m, list, chains, a, b);
  }

  function ToSet(s: seq<Address>): set<Address> {
    set a | a in s
  }

  lemma ToSetOps(s: seq<Address>, i: nat, e: Address)
    requires NoDuplicates(s)
    ensures i < |s| ==> ToSet(Without(s, i)) == ToSet(s) - {s[i]}
    ensures ToSet(s + [e]) == ToSet(s) + {e}
  {
    if i < |s| {
      WithoutMembers(s, i);
    }
  }

  /** A sequence without an address. */
  function Dropping(s: seq<Address>, e: Address): seq<Address> {
    if s == [] then [] else if s[0] == e then s[1..] else [s[0]] + Dropping(s[1..], e)
  }

  lemma {:induction false} DroppingIsWithout(s: seq<Address>, i: nat)
    requires NoDuplicates(s) && i < |s|
    ensures Dropping(s, s[i]) == Without(s, i)
  {
    if i > 0 {
      DroppingIsWithout(s[1..], i - 1);
      assert Without(s, i) == [s[0]] + Without(s[1..], i - 1);
    }
  }

  lemma {:induction false} DroppingNothing(s: seq<Address>, e: Address)
    requires e !in s
    ensures Dropping(s, e) == s
  {
    if s != [] {
      DroppingNothing(s[1..], e);
    }
  }

  /** Those without a handle, in order. */
  function Unheld(s: seq<Address>, handles: multiset<Address>): seq<Address> {
    if s == [] then []
    else (if handles[s[0]] == 0 then [s[0]] else []) + Unheld(s[1..], handles)
  }

  lemma {:induction false} UnheldAppend(s: seq<Address>, e: Address, handles: multiset<Address>)
    ensures Unheld(s + [e], handles) == Unheld(s, handles) + Unheld([e], handles)
  {
    if s != [] {
      UnheldAppend(s[1..], e, handles);
      assert (s + [e])[1..] == s[1..] + [e];
    } else {
      assert [] + [e] == [e];
    }
  }

  /** The entry was inserted under this key. */
  predicate HasKey(inserted: map<Address, LRUHandle>, a: Address, key: Bytes, hash: nat) {
    a in inserted && SameKey(inserted[a], key, hash)
  }

  lemma HeldKeys(m: Heap, list: seq<Address>, chains: seq<seq<Address>>, entries: set<Address>, l: Ledger,
                 key: Bytes, hash: nat)
    requires Held(m, list, chains, entries, l)
    ensures forall a :: a in l.order <==> a in ToSet(l.order)
    ensures forall a :: a in l.order ==> a in m && (SameKey(m[a], key, hash) <==> HasKey(l.inserted, a, key, hash))
  {
  }

  lemma HeldOldest(m: Heap, list: seq<Address>, chains: seq<seq<Address>>, entries: set<Address>, l: Ledger)
    requires Held(m, list, chains, entries, l) && l.order != []
    ensures LRU in m && m[LRU].next == l.order[0] && l.order[0] in l.order && l.order[0] in ToSet(l.order)
    ensures Dropping(l.order, l.order[0]) == l.order[1..]
  {
  }

  lemma RingEmpty(m: Heap, list: seq<Address>, chains: seq<seq<Address>>, l: Ledger)
    requires Held(m, list, chains, ToSet(l.order), l)
    ensures LRU in m && (m[LRU].next == LRU <==> l.order == [])
  {
    HeldRing(m, list, chains, ToSet(l.order), l);
    RingEnds(m, l.order);
  }

  lemma ToSetMembers(s: seq<Address>)
    ensures forall a :: a in ToSet(s) <==> a in s
  {
  }

  /** What is known of a new entry `e`, in the ring but not yet in the table, and of those in both. */
  ghost predicate EnteredFacts(m: Heap, order: seq<Address>, inserted: map<Address, LRUHandle>, e: Address, key: Bytes, hash: nat) {
    && e in m && m[e].key == key && m[e].hash == hash && e != LRU && e != NULL && e !in ToSet(order)
    && (forall a :: a in ToSet(order) ==> a in order && a in m && (SameKey(m[a], key, hash) <==> HasKey(inserted, a, key, hash)))
    && (forall a :: a in order ==> a in ToSet(order))
    && ToSet(order + [e]) == ToSet(order) + {e} && Dropping(order + [e], NULL) == order + [e] && NULL !in ToSet(order)
  }

  lemma Appending(m: Heap, list: seq<Address>, chains: seq<seq<Address>>, l: Ledger, order: seq<Address>,
                  inserted: map<Address, LRUHandle>, e: Address, key: Bytes, hash: nat)
    requires Held(m, list, chains, ToSet(order), l) && e in l.held && l.order == order + [e] && e !in order
    requires e in l.inserted && l.inserted == inserted[e := l.inserted[e]]
    requires l.inserted[e].key == key && l.inserted[e].hash == hash
    ensures EnteredFacts(m, order, inserted, e, key, hash)
  {
    HeldOrder(m, list, chains, ToSet(order), l);
    HeldKeys(m, list, chains, ToSet(order), l, key, hash);
    HeldFacts(m, list, chains, ToSet(order), l, e);
    assert e in l.order;
    forall a | a in order ensures a in l.order && a != e {
    }
    ToSetMembers(order);
    hide Held, ToSet, Dropping, NoDuplicates;
    DroppingNothing(l.order, NULL);
    ToSetAppend(order, e);
  }

  lemma ToSetAppend(s: seq<Address>, e: Address)
    ensures ToSet(s + [e]) == ToSet(s) + {e}
  {
  }

  lemma UnheldOne(e: Address, handles: multiset<Address>)
    ensures Unheld([e], handles) == if handles[e] == 0 then [e] else []
  {
  }

  lemma GoneOneMore(gone: seq<Address>, all: seq<Address>, i: nat, handles: multiset<Address>)
    requires i < |all|
    ensures Unheld(gone + all[..i + 1], handles) == Unheld(gone + all[..i], handles) + Unheld([all[i]], handles)
    ensures all[i..][1..] == all[i + 1..] && all[i..][0] == all[i]
  {
    UnheldAppend(gone + all[..i], all[i], handles);
    assert gone + all[..i + 1] == gone + all[..i] + [all[i]];
  }

  lemma UnheldNothing(handles: multiset<Address>)
    ensures Unheld([], handles) == []
  {
  }

  /** A search for the key of an entry that is in the table finds that entry. */
  lemma OnlyOneRemoved(m: Heap, list: seq<Address>, chains: seq<seq<Address>>, entries: set<Address>, l: Ledger,
                       e: Address, result: Address)
    requires Held(m, list, chains, entries, l) && e in entries && e in m && forall a :: a in entries ==> a in m
    requires result != NULL ==> result in entries && SameKey(m[result], m[e].key, m[e].hash)
    requires result == NULL ==> forall a :: a in entries ==> !SameKey(m[a], m[e].key, m[e].hash)
    ensures result == e
  {
    if result != NULL {
      HeldDiffer(m, list, chains, entries, l, result, e);
    } else {
      assert SameKey(m[e], m[e].key, m[e].hash);
    }
  }

  lemma SameSet(s: seq<Address>, s': seq<Address>, e: Address)
    requires e in s && ToSet(s') == ToSet(s) - {e}
    ensures ToSet(s' + [e]) == ToSet(s)
  {
    assert forall a :: a in s' <==> a in ToSet(s');
    assert forall a :: a in s' + [e] <==> a in s' || a == e;
    assert forall a :: a in ToSet(s) <==> a in s;
  }

  lemma HeldTableState(m: Heap, list: seq<Address>, chains: seq<seq<Address>>, entries: set<Address>, l: Ledger)
    requires Held(m, list, chains, entries, l)
    ensures IsTable(m, list, chains) && Members(m, chains) == entries && forall a :: a in entries ==> a in m
  {
  }

  lemma HeldOrder(m: Heap, list: seq<Address>, chains: seq<seq<Address>>, entries: set<Address>, l: Ledger)
    requires Held(m, list, chains, entries, l)
    ensures NoDuplicates(l.order) && LRU !in l.order && NULL !in l.order && LRU in m
    ensures forall a :: a in l.order ==> a in m && a in l.live && a in l.inserted && SameEntry(m[a], l.inserted[a])
    ensures m[LRU].next == if l.order == [] then LRU else l.order[0]
  {
  }

  lemma DroppedAt(s: seq<Address>, i: nat)
    requires NoDuplicates(s) && i < |s|
    ensures Dropping(s, s[i]) == Without(s, i) && s[i] !in Without(s, i)
    ensures ToSet(Without(s, i)) == ToSet(s) - {s[i]}
  {
    DroppingIsWithout(s, i);
    WithoutMembers(s, i);
    ToSetOps(s, i, s[i]);
  }

  lemma UnlinkedInSteps(m: Heap, e: Address)
    requires e in m && m[e].next in m && m[e].prev in m && m[e].next != e
    ensures var m' := SetPrev(m, m[e].next, m[e].prev);
            e in m' && m'[e].prev in m' && SetNext(m', m'[e].prev, m'[e].next) == Unlinked(m, e)
  {
  }

  lemma RemoveStep(m: Heap, list: seq<Address>, chains: seq<seq<Address>>, entries: set<Address>, l: Ledger, e: Address)
    requires Held(m, list, chains, entries, l) && e in l.order
    ensures e in m && m[e].next in m && m[e].prev in m
    ensures var order', m' := Dropping(l.order, e), SetPrev(m, m[e].next, m[e].prev);
            && e !in order' && ToSet(order') == ToSet(l.order) - {e} && e in m' && m'[e].prev in m'
            && Held(SetNext(m', m'[e].prev, m'[e].next), list, chains, entries, l.(order := order', held := l.held + multiset{e}))
  {
    HeldOrder(m, list, chains, entries, l);
    hide Held, NoDuplicates, Dropping, Without, Unlinked, ToSet;
    var i :| 0 <= i < |l.order| && l.order[i] == e;
    HeldRemove(m, list, chains, entries, l, i);
    DroppedAt(l.order, i);
    UnlinkedInSteps(m, e);
  }

  lemma AppendedInSteps(m: Heap, e: Address)
    requires e in m && e != LRU && LRU in m && m[LRU].prev in m && m[LRU].prev != e
    ensures var m1 := SetNext(m, e, LRU);
            LRU in m1 &&
            var m2 := SetPrev(m1, e, m1[LRU].prev);
            e in m2 && m2[e].prev in m2 &&
            var m3 := SetNext(m2, m2[e].prev, e);
            e in m3 && m3[e].next in m3 && SetPrev(m3, m3[e].next, e) == Appended(m, e)
  {
  }

  class LRUCache {
    const memory: Memory
    const table: HandleTable
    var capacity: nat
    var usage: nat
    var deleted: seq<Item>               // the calls of the deleter
    ghost var order: seq<Address>        // the entries in the cache, least recently used first
    ghost var live: seq<Address>         // everything allocated
    ghost var freed: seq<Address>        // everything freed, in order
    ghost var handles: multiset<Address> // the handles that clients hold
    ghost var inserted: map<Address, LRUHandle> // the entries as they were inserted

    ghost function Account(held: multiset<Address>): Ledger
      reads this, memory
    {
      Ledger(order, live, freed, held, memory.nextAddress, usage, inserted, deleted)
    }

    /** The table holds `entries`, and the references are `held` beside the cache's own. */
    ghost predicate Consistent(entries: set<Address>, held: multiset<Address>)
      reads this, memory, table
    {
      && table.memory == memory && table.elems == Total(table.chains) && IsLength(|table.list|) && table.elems <= |table.list|
      && Held(memory.heap, table.list, table.chains, entries, Account(held))
    }

    /** The table and the ring hold the same entries, and every other reference is a client's. */
    ghost predicate Valid()
      reads this, memory, table
    {
      Consistent(ToSet(order), handles)
    }

    constructor (capacity: nat)
      ensures Valid() && fresh(memory) && fresh(table)
      ensures order == [] && handles == multiset{} && freed == [] && deleted == [] && usage == 0 && this.capacity == capacity
    {
      var mem := new Memory();
      var tab := new HandleTable(mem);
      memory, table := mem, tab;
      this.capacity, usage, deleted := capacity, 0, [];
      order, live, freed, handles, inserted := [], [], [], multiset{}, map[];
    }

    /** Takes an entry out of the ring; the cache's reference to it is still to be dropped. */
    method RingRemove(e: Address, ghost entries: set<Address>, ghost held: multiset<Address>)
      requires Consistent(entries, held) && e in order
      modifies this`order, memory`heap
      ensures Consistent(entries, held + multiset{e})
      ensures order == Dropping(old(order), e) && e !in order && ToSet(order) == ToSet(old(order)) - {e}
    {
      hide Held, Total, IsLength, ToSet, Dropping, SetPrev, SetNext;
      RemoveStep(memory.heap, table.list, table.chains, entries, Account(held), e);
      memory.heap := SetPrev(memory.heap, memory.heap[e].next, memory.heap[e].prev);
      memory.heap := SetNext(memory.heap, memory.heap[e].prev, memory.heap[e].next);
      order := Dropping(order, e);
    }

    /** Puts an entry into the ring as the newest, which takes up one of its references. */
    method RingAppend(e: Address, ghost entries: set<Address>, ghost held: multiset<Address>)
      requires Consistent(entries, held) && e in held && e !in order
      modifies this`order, memory`heap
      ensures Consistent(entries, held - multiset{e}) && order == old(order) + [e]
    {
      hide Held, Total, IsLength, Appended, ToSet;
      HeldAppend(memory.heap, table.list, table.chains, entries, Account(held), e);
      AppendedInSteps(memory.heap, e);
      memory.heap := SetNext(memory.heap, e, LRU);
      memory.heap := SetPrev(memory.heap, e, memory.heap[LRU].prev);
      memory.heap := SetNext(memory.heap, memory.heap[e].prev, e);
      memory.heap := SetPrev(memory.heap, memory.heap[e].next, e);
      order := order + [e];
    }

    /** Drops a reference; the last one frees the entry. */
    method Unref(e: Address, ghost held: multiset<Address>)
      requires Consistent(ToSet(order), held) && e in held
      modifies this`usage, this`deleted, this`live, this`freed, memory`heap
      ensures Consistent(ToSet(order), held - multiset{e}) && e in inserted
      ensures freed == old(freed) + (if held[e] == 1 && e !in order then [e] else [])
      ensures usage == old(usage) - (if held[e] == 1 && e !in order then inserted[e].charge else 0)
    {
      hide Held, Total, IsLength, ToSet;
      ghost var m, l := memory.heap, Account(held);
      HeldFacts(m, table.list, table.chains, ToSet(order), l, e);
      memory.heap := SetRefs(memory.heap, e, memory.heap[e].refs - 1);
      if memory.heap[e].refs <= 0 {
        ghost var i :| 0 <= i < |live| && live[i] == e;
        HeldFree(m, table.list, table.chains, ToSet(order), l, i);
        usage := usage - memory.heap[e].charge;
        deleted := deleted + [Item(memory.heap[e].key, memory.heap[e].value)];
        memory.heap := memory.heap - {e};
        live, freed := Without(live, i), freed + [e];
        assert memory.heap == m - {e};
        assert Account(held - multiset{e}) == Freed(l, i);
      } else {
        HeldUnref(m, table.list, table.chains, ToSet(order), l, e);
      }
    }

    method TableRemove(key: Bytes, hash: nat, ghost entries: set<Address>, ghost held: multiset<Address>) returns (result: Address)
      requires Consistent(entries, held)
      modifies table, memory
      ensures Consistent(entries - {result}, held)
      ensures HashLinksOnly(old(memory.heap), memory.heap) && memory.nextAddress == old(memory.nextAddress)
      ensures forall a :: a in entries ==> a in old(memory.heap)
      ensures result != NULL ==> result in entries && SameKey(old(memory.heap)[result], key, hash)
      ensures result == NULL ==> forall a :: a in entries ==> !SameKey(old(memory.heap)[a], key, hash)
    {
      hide Held, Total, IsLength, IsTable, Members, SameKey;
      ghost var m, list, chains := memory.heap, table.list, table.chains;
      HeldTableState(m, list, chains, entries, Account(held));
      result := table.Remove(key, hash);
      HeldTable(m, list, chains, entries, Account(held), memory.heap, table.list, table.chains);
    }

    method TableInsert(e: Address, ghost entries: set<Address>, ghost held: multiset<Address>) returns (replaced: Address)
      requires Consistent(entries, held) && e in memory.heap && e != NULL && e != LRU && e !in entries
      modifies table, memory
      ensures Consistent(entries - {replaced} + {e}, held) && e in memory.heap
      ensures HashLinksOnly(old(memory.heap), memory.heap) && memory.nextAddress == old(memory.nextAddress)
      ensures forall a :: a in entries ==> a in old(memory.heap)
      ensures replaced != NULL ==>
        replaced in entries && SameKey(old(memory.heap)[replaced], old(memory.heap)[e].key, old(memory.heap)[e].hash)
      ensures replaced == NULL ==>
        forall a :: a in entries ==> !SameKey(old(memory.heap)[a], old(memory.heap)[e].key, old(memory.heap)[e].hash)
    {
      hide Held, Total, IsLength, IsTable, Members, SameKey;
      ghost var m, list, chains := memory.heap, table.list, table.chains;
      HeldTableState(m, list, chains, entries, Account(held));
      replaced := table.Insert(e);
      HeldTable(m, list, chains, entries, Account(held), memory.heap, table.list, table.chains);
    }

    /** The entry for a key, which becomes the most recently used and gets one more handle. */
    method Lookup(key: Bytes, hash: nat) returns (e: Address)
      requires Valid()
      modifies this`order, this`handles, memory`heap
      ensures Valid()
      ensures e == NULL ==> order == old(order) && handles == old(handles) && forall a :: a in order ==> !HasKey(inserted, a, key, hash)
      ensures e != NULL ==> e in old(order) && HasKey(inserted, e, key, hash)
      ensures e != NULL ==> order == Dropping(old(order), e) + [e] && handles == old(handles) + multiset{e}
    {
      hide Held, Total, IsLength, IsTable, Members, ToSet, NoDuplicates, Dropping, SameKey;
      ghost var entries := ToSet(order);
      HeldTableState(memory.heap, table.list, table.chains, entries, Account(handles));
      HeldKeys(memory.heap, table.list, table.chains, entries, Account(handles), key, hash);
      e := table.Lookup(key, hash);
      if e != NULL {
        HeldRef(memory.heap, table.list, table.chains, entries, Account(handles), e);
        memory.heap := SetRefs(memory.heap, e, memory.heap[e].refs + 1);
        handles := handles + multiset{e};
        RingRemove(e, entries, handles);
        ghost var order' := order;
        assert (handles + multiset{e}) - multiset{e} == handles;
        RingAppend(e, entries, handles + multiset{e});
        SameSet(old(order), order', e);
      }
    }

    /** Gives a handle back. */
    method Release(e: Address)
      requires Valid() && e in handles
      modifies this`usage, this`deleted, this`live, this`freed, this`handles, memory`heap
      ensures Valid() && handles == old(handles) - multiset{e} && e in inserted
      ensures freed == old(freed) + (if old(handles)[e] == 1 && e !in order then [e] else [])
    {
      hide Held, Total, IsLength, ToSet;
      Unref(e, handles);
      handles := handles - multiset{e};
    }

    /** Takes the entry for a key, if there is one, out of the cache; it is freed unless a client holds it. */
    method Erase(key: Bytes, hash: nat) returns (ghost removed: Address)
      requires Valid()
      modifies this`usage, this`deleted, this`live, this`freed, this`order, memory, table
      ensures Valid()
      ensures removed == NULL ==> order == old(order) && freed == old(freed) && forall a :: a in order ==> !HasKey(inserted, a, key, hash)
      ensures removed != NULL ==> removed in old(order) && HasKey(inserted, removed, key, hash)
      ensures order == Dropping(old(order), removed)
      ensures removed != NULL ==> freed == old(freed) + Unheld([removed], handles)
    {
      hide Held, Total, IsLength, IsTable, Members, ToSet, NoDuplicates, Dropping, SameKey;
      HeldOrder(memory.heap, table.list, table.chains, ToSet(order), Account(handles));
      DroppingNothing(order, NULL);
      HeldKeys(memory.heap, table.list, table.chains, ToSet(order), Account(handles), key, hash);
      var e := TableRemove(key, hash, ToSet(order), handles);
      removed := e;
      if e == NULL {
        assert ToSet(order) - {e} == ToSet(order);
      } else {
        RingRemove(e, ToSet(order) - {e}, handles);
        assert (handles + multiset{e}) - multiset{e} == handles;
        Unref(e, handles + multiset{e});
      }
    }

    /** Takes the least recently used entry out of the cache; it is freed unless a client holds it. */
    method EvictOldest()
      requires Valid() && order != []
      modifies this`usage, this`deleted, this`live, this`freed, this`order, memory, table
      ensures Valid() && order == old(order)[1..] && old(order)[0] in inserted
      ensures memory.nextAddress == old(memory.nextAddress)
      ensures freed == old(freed) + Unheld([old(order)[0]], handles)
      ensures usage == old(usage) - if handles[old(order)[0]] == 0 then inserted[old(order)[0]].charge else 0
    {
      hide Held, Total, IsLength, IsTable, Members, ToSet, NoDuplicates, SameKey;
      ghost var entries := ToSet(order);
      HeldOldest(memory.heap, table.list, table.chains, entries, Account(handles));
      var e := memory.heap[LRU].next;
      RingRemove(e, entries, handles);
      ghost var held := handles + multiset{e};
      HeldFacts(memory.heap, table.list, table.chains, entries, Account(held), e);
      ghost var m, list, chains := memory.heap, table.list, table.chains;
      var result := TableRemove(memory.heap[e].key, memory.heap[e].hash, entries, held);
      OnlyOneRemoved(m, list, chains, entries, old(Account(handles)).(order := order, held := held), e, result);
      assert held - multiset{e} == handles;
      Unref(e, held);
    }

    /** Makes a new entry, with one reference for the cache and one for the handle to be returned. */
    method Allocate(key: Bytes, hash: nat, value: int, charge: nat) returns (e: Address)
      requires Valid()
      modifies this`usage, this`live, this`inserted, memory
      ensures e == old(memory.nextAddress) && e !in order && e !in old(live) && e !in freed && e > LRU && e !in ToSet(order)
      ensures inserted == old(inserted)[e := NewEntry(key, hash, value, charge)]
      ensures e in memory.heap && SameKey(memory.heap[e], key, hash)
      ensures Consistent(ToSet(order), handles + multiset{e, e})
      ensures usage == old(usage) + charge
    {
      hide Held, Total, IsLength, ToSet;
      HeldAllocate(memory.heap, table.list, table.chains, ToSet(order), Account(handles), NewEntry(key, hash, value, charge));
      e := memory.nextAddress;
      memory.heap := memory.heap[e := NewEntry(key, hash, value, charge)];
      memory.nextAddress := e + 1;
      usage := usage + charge;
      live := live + [e];
      inserted := inserted[e := NewEntry(key, hash, value, charge)];
      assert Account(handles + multiset{e, e}) == Allocated(old(Account(handles)), NewEntry(key, hash, value, charge));
    }

    /** Puts the new entry in, in the place of an entry with the same key if there is one. */
    method Enter(key: Bytes, hash: nat, value: int, charge: nat) returns (e: Address, replaced: Address)
      requires Valid()
      modifies this`usage, this`deleted, this`live, this`freed, this`order, this`handles, this`inserted, memory, table
      ensures Valid() && e != NULL && e !in old(live) && e !in old(freed)
      ensures handles == old(handles) + multiset{e} && inserted == old(inserted)[e := NewEntry(key, hash, value, charge)]
      ensures replaced == NULL ==> forall a :: a in old(order) ==> !HasKey(old(inserted), a, key, hash)
      ensures replaced != NULL ==> replaced in old(order) && HasKey(old(inserted), replaced, key, hash)
      ensures order == Dropping(old(order) + [e], replaced)
      ensures freed == old(freed) + if replaced == NULL then [] else Unheld([replaced], handles)
    {
      hide Held, Total, IsLength, IsTable, Members, ToSet, NoDuplicates, SameKey, Dropping, HasKey, HashLinksOnly, Unheld, EnteredFacts;
      ghost var entries := ToSet(order);
      e := Allocate(key, hash, value, charge);
      assert handles + multiset{e, e} - multiset{e} == handles + multiset{e};
      RingAppend(e, entries, handles + multiset{e, e});
      handles := handles + multiset{e};
      Appending(memory.heap, table.list, table.chains, Account(handles), old(order), old(inserted), e, key, hash);
      replaced := Replace(e, key, hash, old(order), old(inserted));
    }

    /** Enters an entry that is in the ring already into the table; one it replaces there leaves the ring. */
    method Replace(e: Address, key: Bytes, hash: nat, ghost before: seq<Address>, ghost known: map<Address, LRUHandle>)
      returns (replaced: Address)
      requires Consistent(ToSet(before), handles) && order == before + [e] && EnteredFacts(memory.heap, before, known, e, key, hash)
      modifies this`usage, this`deleted, this`live, this`freed, this`order, memory, table
      ensures Valid()
      ensures replaced == NULL ==> forall a :: a in before ==> !HasKey(known, a, key, hash)
      ensures replaced != NULL ==> replaced in before && HasKey(known, replaced, key, hash)
      ensures order == Dropping(old(order), replaced)
      ensures freed == old(freed) + if replaced == NULL then [] else Unheld([replaced], handles)
    {
      hide Held, Total, IsLength, IsTable, Members, ToSet, NoDuplicates, SameKey, Dropping, HasKey, HashLinksOnly, Unheld;
      ghost var entries := ToSet(before);
      replaced := TableInsert(e, entries, handles);
      if replaced == NULL {
        assert entries - {replaced} + {e} == ToSet(order);
      } else {
        RingRemove(replaced, entries - {replaced} + {e}, handles);
        assert entries - {replaced} + {e} == ToSet(order);
        assert handles + multiset{replaced} - multiset{replaced} == handles;
        UnheldOne(replaced, handles);
        Unref(replaced, handles + multiset{replaced});
      }
    }

    /** Puts a new entry in, and evicts the oldest ones while the charges exceed the capacity. */
    method Insert(key: Bytes, hash: nat, value: int, charge: nat) returns (e: Address, ghost replaced: Address, ghost evicted: nat)
      requires Valid()
      modifies this`usage, this`deleted, this`live, this`freed, this`order, this`handles, this`inserted, memory, table
      ensures Valid() && e != NULL && e !in old(live) && e !in old(freed)
      ensures handles == old(handles) + multiset{e} && inserted == old(inserted)[e := NewEntry(key, hash, value, charge)]
      ensures replaced == NULL ==> forall a :: a in old(order) ==> !HasKey(old(inserted), a, key, hash)
      ensures replaced != NULL ==> replaced in old(order) && HasKey(old(inserted), replaced, key, hash)
      // the ring: the new entry is the newest, the replaced one is gone, and so are the oldest, no more than needed
      ensures var all := Dropping(old(order) + [e], replaced);
              && evicted <= |all| && order == all[evicted..]
              && (evicted > 0 ==> all[evicted - 1] in inserted && usage + inserted[all[evicted - 1]].charge > capacity)
              && freed == old(freed) + Unheld((if replaced == NULL then [] else [replaced]) + all[..evicted], handles)
      ensures usage <= capacity || order == []
    {
      hide Held, Total, IsLength, IsTable, Members, ToSet, NoDuplicates, SameKey, Dropping, HasKey, Unheld;
      var old_;
      e, old_ := Enter(key, hash, value, charge);
      replaced := old_;
      ghost var all, gone := order, if replaced == NULL then [] else [replaced];
      evicted := 0;
      assert Unheld([], handles) == [] by {
        UnheldNothing(handles);
      }
      assert gone + all[..0] == gone;
      RingEmpty(memory.heap, table.list, table.chains, Account(handles));
      while usage > capacity && memory.heap[LRU].next != LRU
        invariant Valid() && evicted <= |all| && order == all[evicted..]
        invariant LRU in memory.heap && (memory.heap[LRU].next == LRU <==> order == [])
        invariant evicted > 0 ==> all[evicted - 1] in inserted && usage + inserted[all[evicted - 1]].charge > capacity
        invariant freed == old(freed) + Unheld(gone + all[..evicted], handles)
        decreases |all| - evicted
        modifies this`usage, this`deleted, this`live, this`freed, this`order, memory, table
      {
        GoneOneMore(gone, all, evicted, handles);
        EvictOldest();
        evicted := evicted + 1;
        RingEmpty(memory.heap, table.list, table.chains, Account(handles));
      }
    }
  }
}
