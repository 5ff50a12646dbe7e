/** Table files: building one, opening it, and moving through it (table/table_builder.cc, table/table.cc,
    table/two_level_iterator.cc). */
module Tables {
  import opened Wrappers
  import opened ByteStrings
  import opened Coding
  import opened Comparators
  import opened Blocks
  import opened TableFormat
  import opened Filters

  // ---- how entries are laid out ----

  function Flatten(blocks: seq<seq<Entry>>): seq<Entry> {
    if blocks == [] then [] else Flatten(blocks[..|blocks| - 1]) + blocks[|blocks| - 1]
  }

  /** How many entries come before the `b`th block. */
  function EntriesBefore(blocks: seq<seq<Entry>>, b: nat): nat
    requires b <= |blocks|
  {
    |Flatten(blocks[..b])|
  }

  lemma {:induction false} FlattenAt(blocks: seq<seq<Entry>>, b: nat)
    requires b < |blocks|
    ensures EntriesBefore(blocks, b + 1) == EntriesBefore(blocks, b) + |blocks[b]| <= |Flatten(blocks)|
    ensures Flatten(blocks)[EntriesBefore(blocks, b)..EntriesBefore(blocks, b + 1)] == blocks[b]
    decreases |blocks|
  {
    var n := |blocks| - 1;
    assert blocks[..b + 1][..b] == blocks[..b];
    if b < n {
      FlattenAt(blocks[..n], b);
      assert blocks[..n][..b] == blocks[..b] && blocks[..n][..b + 1] == blocks[..b + 1];
      var from, to := EntriesBefore(blocks, b), EntriesBefore(blocks, b + 1);
      assert Flatten(blocks)[from..to] == Flatten(blocks[..n])[from..to];
    } else {
      assert blocks[..b + 1] == blocks;
    }
  }

  lemma FlattenMore(blocks: seq<seq<Entry>>, block: seq<Entry>)
    ensures Flatten(blocks + [block]) == Flatten(blocks) + block
  {
    assert (blocks + [block])[..|blocks|] == blocks;
  }

  const LESS: Order := (a, b) => KeyBefore(a, b)

  lemma LessIsTransitive()
    ensures Transitive(LESS)
  {
    hide KeyBefore, Rank;
    forall a, b, c | LESS(a, b) && LESS(b, c) ensures LESS(a, c) {
      KeyOrder(a, b);
      KeyOrder(b, c);
      KeyOrder(a, c);
    }
  }

  /** The keys of a block are at most its index key. */
  ghost predicate AtMostKey(block: seq<Entry>, key: Bytes) {
    forall e :: e in block ==> !KeyBefore(key, e.key)
  }

  function LastKey(block: seq<Entry>): Bytes {
    if block == [] then [] else block[|block| - 1].key
  }

  /** A key comes after an index key; and if that is not the last key of its block, it is before the user key too. */
  predicate ComesAfter(last: Bytes, indexKey: Bytes, key: Bytes) {
    KeyBefore(indexKey, key) && (indexKey == last || Before(UserPart(indexKey), UserPart(key)))
  }

  /** The keys of a block come after an index key. */
  ghost predicate AfterKey(last: Bytes, indexKey: Bytes, block: seq<Entry>) {
    forall e :: e in block ==> ComesAfter(last, indexKey, e.key)
  }

  /** Index keys separate the blocks: each is at or after everything in its own block, and before everything later. */
  ghost predicate Separates(index: seq<Entry>, blocks: seq<seq<Entry>>) {
    && |index| <= |blocks|
    && (forall b :: 0 <= b < |index| ==> AtMostKey(blocks[b], index[b].key))
    && forall b, c :: 0 <= b < |index| && b < c < |blocks| ==> AfterKey(LastKey(blocks[b]), index[b].key, blocks[c])
  }

  /** What is written behind leaves the blocks as they are. */
  lemma StillIndexed(file: Bytes, file': Bytes, blocks: seq<seq<Entry>>, handles: seq<BlockHandle>, index: seq<Entry>, interval: nat)
    requires Indexed(file, blocks, handles, index, interval) && file <= file'
    ensures Indexed(file', blocks, handles, index, interval)
  {
    hide Stored, BlockOf;
    forall b | 0 <= b < |blocks| ensures Stored(file', handles[b], BlockOf(blocks[b], interval)) {
      assert file' == file + file'[|file|..];
      StoredStays(file, file'[|file|..], handles[b], BlockOf(blocks[b], interval));
    }
  }

  /** One more block, at the end of the file. */
  lemma IndexedMore(file: Bytes, file': Bytes, blocks: seq<seq<Entry>>, handles: seq<BlockHandle>, index: seq<Entry>, interval: nat,
                    block: seq<Entry>, h: BlockHandle)
    requires Indexed(file, blocks, handles, index, interval) && file < file' && |index| == |blocks|
    requires block != [] && |BlockOf(block, interval)| < WORD && HandleFits(h) && h.offset == |file|
    requires Stored(file', h, BlockOf(block, interval))
    ensures Indexed(file', blocks + [block], handles + [h], index, interval)
  {
    hide Stored, BlockOf, HandleBytes;
    StillIndexed(file, file', blocks, handles, index, interval);
  }

  /** Where the blocks are, and what the index says of it. */
  ghost predicate Indexed(file: Bytes, blocks: seq<seq<Entry>>, handles: seq<BlockHandle>, index: seq<Entry>, interval: nat) {
    && interval > 0 && |index| <= |handles| == |blocks|
    && (forall b :: 0 <= b < |blocks| ==>
          && blocks[b] != [] && |BlockOf(blocks[b], interval)| < WORD && HandleFits(handles[b])
          && Stored(file, handles[b], BlockOf(blocks[b], interval)) && handles[b].offset < |file|)
    && (forall b, c :: 0 <= b < c < |blocks| ==> handles[b].offset < handles[c].offset)
    && forall b :: 0 <= b < |index| ==> index[b].value == HandleBytes(handles[b])
  }

  // ---- building ----

  lemma IncreasingParts(entries: seq<Entry>, more: seq<Entry>)
    ensures Increasing(entries + more, LESS) ==> Increasing(entries, LESS) && Increasing(more, LESS)
  {
    forall i, j | Increasing(entries + more, LESS) && 0 <= i < j < |entries| ensures LESS(entries[i].key, entries[j].key) {
      assert (entries + more)[i] == entries[i] && (entries + more)[j] == entries[j];
    }
    forall i, j | Increasing(entries + more, LESS) && 0 <= i < j < |more| ensures LESS(more[i].key, more[j].key) {
      assert (entries + more)[|entries| + i] == more[i] && (entries + more)[|entries| + j] == more[j];
    }
  }

  lemma IncreasingAppend(entries: seq<Entry>, e: Entry)
    requires Increasing(entries, LESS) && (entries != [] ==> KeyBefore(entries[|entries| - 1].key, e.key))
    ensures Increasing(entries + [e], LESS)
  {
    LessIsTransitive();
    forall i | 0 <= i < |entries| ensures LESS(entries[i].key, e.key) {
      if i < |entries| - 1 {
        assert LESS(entries[i].key, entries[|entries| - 1].key) && LESS(entries[|entries| - 1].key, e.key);
      }
    }
  }

  /** A key at or after the last of some increasing keys is at or after all of them. */
  lemma AtMostLast(block: seq<Entry>, key: Bytes)
    requires block != [] && Increasing(block, LESS) && !KeyBefore(key, block[|block| - 1].key)
    ensures AtMostKey(block, key)
  {
    hide KeyBefore, Rank;
    var last := block[|block| - 1].key;
    forall e | e in block ensures !KeyBefore(key, e.key) {
      var i :| 0 <= i < |block| && block[i] == e;
      if i < |block| - 1 {
        assert LESS(e.key, last);
        KeyOrder(key, e.key);
        KeyOrder(e.key, last);
        KeyOrder(key, last);
      }
    }
  }

  /** The index entry for the last block is added when the next key is known. */
  lemma SeparatesMore(index: seq<Entry>, blocks: seq<seq<Entry>>, e: Entry)
    requires |index| + 1 == |blocks| && Separates(index, blocks) && AtMostKey(blocks[|index|], e.key)
    ensures Separates(index + [e], blocks)
  {
    hide AtMostKey, AfterKey;
  }

  lemma SeparatesNext(index: seq<Entry>, blocks: seq<seq<Entry>>, block: seq<Entry>)
    requires Separates(index, blocks) && forall b :: 0 <= b < |index| ==> AfterKey(LastKey(blocks[b]), index[b].key, block)
    ensures Separates(index, blocks + [block])
  {
    hide AtMostKey, AfterKey;
    var blocks' := blocks + [block];
    forall b, c | 0 <= b < |index| && b < c < |blocks'| ensures AfterKey(LastKey(blocks'[b]), index[b].key, blocks'[c]) {
      assert blocks'[b] == blocks[b];
      assert c < |blocks| ==> blocks'[c] == blocks[c];
    }
  }

  lemma AfterMore(last: Bytes, indexKey: Bytes, block: seq<Entry>, e: Entry)
    requires AfterKey(last, indexKey, block) && ComesAfter(last, indexKey, e.key)
    ensures AfterKey(last, indexKey, block + [e])
  {
    hide ComesAfter;
  }

  /** Index keys increase with their blocks. */
  lemma IndexIncreases(index: seq<Entry>, blocks: seq<seq<Entry>>)
    requires Separates(index, blocks) && forall b :: 0 <= b < |blocks| ==> blocks[b] != []
    ensures Increasing(index, LESS)
  {
    hide KeyBefore, Rank;
    forall b, c | 0 <= b < c < |index| ensures LESS(index[b].key, index[c].key) {
      var e := blocks[c][0];
      assert AfterKey(LastKey(blocks[b]), index[b].key, blocks[c]) && AtMostKey(blocks[c], index[c].key) && e in blocks[c];
      assert ComesAfter(LastKey(blocks[b]), index[b].key, e.key);
      KeyOrder(index[b].key, e.key);
      KeyOrder(index[c].key, e.key);
      KeyOrder(index[b].key, index[c].key);
    }
  }

  /** A table under construction: the blocks written, the entries of the next one, and an index entry that may still
      be missing for the last block. */
  ghost predicate Building(file: Bytes, blocks: seq<seq<Entry>>, handles: seq<BlockHandle>, index: seq<Entry>, data: seq<Entry>,
                           entries: seq<Entry>, pending: Option<BlockHandle>, lastKey: Bytes, interval: nat) {
    && Indexed(file, blocks, handles, index, interval) && Separates(index, blocks)
    && entries == Flatten(blocks) + data && Increasing(entries, LESS)
    && (match pending
        case Some(h) => data == [] && |index| + 1 == |blocks| && h == handles[|index|]
        case None => |index| == |blocks|)
    && (entries != [] ==> lastKey == entries[|entries| - 1].key)
    && forall b :: 0 <= b < |index| ==> AfterKey(LastKey(blocks[b]), index[b].key, data)
  }

  lemma LastOfFlatten(blocks: seq<seq<Entry>>)
    requires blocks != [] && blocks[|blocks| - 1] != []
    ensures Flatten(blocks) != [] && Flatten(blocks)[|Flatten(blocks)| - 1] == blocks[|blocks| - 1][|blocks[|blocks| - 1]| - 1]
  {
  }

  /** The index entry for the last block, with a key between its last key and whatever follows. */
  lemma IndexAdded(file: Bytes, blocks: seq<seq<Entry>>, handles: seq<BlockHandle>, index: seq<Entry>, entries: seq<Entry>,
                   h: BlockHandle, lastKey: Bytes, interval: nat, key: Bytes)
    requires Building(file, blocks, handles, index, [], entries, Some(h), lastKey, interval) && !KeyBefore(key, lastKey)
    ensures Building(file, blocks, handles, index + [Entry(key, HandleBytes(h))], [], entries, None, lastKey, interval)
  {
    hide KeyBefore, HandleBytes, Stored, BlockOf, Increasing;
    var last := blocks[|index|];
    LastOfFlatten(blocks);
    assert Flatten(blocks) + [] == Flatten(blocks);
    LastBlockIncreases(blocks);
    AtMostLast(last, key);
    SeparatesMore(index, blocks, Entry(key, HandleBytes(h)));
    hide Separates, AfterKey, AtMostKey;
    forall b | 0 <= b < |index| + 1 ensures AfterKey(LastKey(blocks[b]), (index + [Entry(key, HandleBytes(h))])[b].key, []) {
      AfterNothing(LastKey(blocks[b]), (index + [Entry(key, HandleBytes(h))])[b].key);
    }
  }

  lemma AfterNothing(last: Bytes, indexKey: Bytes)
    ensures AfterKey(last, indexKey, [])
  {
  }

  lemma LastBlockIncreases(blocks: seq<seq<Entry>>)
    requires blocks != [] && Increasing(Flatten(blocks), LESS)
    ensures Increasing(blocks[|blocks| - 1], LESS)
  {
    IncreasingParts(Flatten(blocks[..|blocks| - 1]), blocks[|blocks| - 1]);
  }

  /** One more entry for the next block. */
  lemma EntryAdded(file: Bytes, blocks: seq<seq<Entry>>, handles: seq<BlockHandle>, index: seq<Entry>, data: seq<Entry>,
                   entries: seq<Entry>, lastKey: Bytes, interval: nat, e: Entry)
    requires Building(file, blocks, handles, index, data, entries, None, lastKey, interval)
    requires entries != [] ==> KeyBefore(lastKey, e.key)
    requires forall b :: 0 <= b < |index| ==> ComesAfter(LastKey(blocks[b]), index[b].key, e.key)
    ensures Building(file, blocks, handles, index, data + [e], entries + [e], None, e.key, interval)
  {
    hide KeyBefore, HandleBytes, Stored, BlockOf;
    IncreasingAppend(entries, e);
    hide Increasing, Separates, Indexed;
    assert Flatten(blocks) + (data + [e]) == (Flatten(blocks) + data) + [e];
    forall b | 0 <= b < |index| ensures AfterKey(LastKey(blocks[b]), index[b].key, data + [e]) {
      AfterMore(LastKey(blocks[b]), index[b].key, data, e);
    }
  }

  /** The next block is written. */
  lemma BlockAdded(file: Bytes, file': Bytes, blocks: seq<seq<Entry>>, handles: seq<BlockHandle>, index: seq<Entry>, data: seq<Entry>,
                   entries: seq<Entry>, lastKey: Bytes, interval: nat, h: BlockHandle)
    requires Building(file, blocks, handles, index, data, entries, None, lastKey, interval)
    requires file < file' && data != [] && |BlockOf(data, interval)| < WORD && HandleFits(h) && h.offset == |file|
    requires Stored(file', h, BlockOf(data, interval))
    ensures Building(file', blocks + [data], handles + [h], index, [], entries, Some(h), lastKey, interval)
  {
    hide KeyBefore, HandleBytes, Stored, BlockOf, Increasing;
    IndexedMore(file, file', blocks, handles, index, interval, data, h);
    SeparatesNext(index, blocks, data);
    FlattenMore(blocks, data);
    hide Indexed, Separates, AfterKey, Flatten;
    assert Flatten(blocks) + data + [] == Flatten(blocks) + data;
    forall b | 0 <= b < |index| ensures AfterKey(LastKey(blocks[b]), index[b].key, []) {
      AfterNothing(LastKey(blocks[b]), index[b].key);
    }
  }

  lemma BuildingNothing(interval: nat)
    requires interval > 0
    ensures Building([], [], [], [], [], [], None, [], interval)
  {
  }

  /** The block without an index entry is the last one. */
  lemma PendingIsLast(file: Bytes, blocks: seq<seq<Entry>>, handles: seq<BlockHandle>, index: seq<Entry>, data: seq<Entry>,
                      entries: seq<Entry>, pending: Option<BlockHandle>, lastKey: Bytes, interval: nat)
    requires Building(file, blocks, handles, index, data, entries, pending, lastKey, interval)
    ensures pending.Some? ==> |blocks| == |index| + 1 && lastKey == LastKey(blocks[|index|])
    ensures pending.None? ==> |blocks| == |index|
  {
    hide Stored, BlockOf, HandleBytes, Separates, Increasing, AfterKey, Flatten;
    if pending.Some? {
      LastOfFlatten(blocks);
      assert Flatten(blocks) + [] == Flatten(blocks);
    }
  }

  /** Every index key comes before a key that comes after the last one. */
  lemma IndexBeforeNext(file: Bytes, blocks: seq<seq<Entry>>, handles: seq<BlockHandle>, index: seq<Entry>, data: seq<Entry>,
                        entries: seq<Entry>, pending: Option<BlockHandle>, lastKey: Bytes, interval: nat, key: Bytes)
    requires Building(file, blocks, handles, index, data, entries, pending, lastKey, interval)
    requires data != [] || pending.Some? || index == []
    requires entries != [] ==> KeyBefore(lastKey, key)
    ensures forall b :: 0 <= b < |index| ==> ComesAfter(LastKey(blocks[b]), index[b].key, key)
  {
    hide KeyBefore, HandleBytes, Stored, BlockOf, Increasing, ComesAfter;
    if index != [] {
      var x := if data != [] then data[|data| - 1] else blocks[|blocks| - 1][|blocks[|blocks| - 1]| - 1];
      if data != [] {
        assert entries[|entries| - 1] == x && x in data;
      } else {
        LastOfFlatten(blocks);
        assert Flatten(blocks) + [] == Flatten(blocks);
        assert x in blocks[|blocks| - 1];
      }
      forall b | 0 <= b < |index| ensures ComesAfter(LastKey(blocks[b]), index[b].key, key) {
        assert AfterKey(LastKey(blocks[b]), index[b].key, if data != [] then data else blocks[|blocks| - 1]);
        StillComesAfter(LastKey(blocks[b]), index[b].key, lastKey, key);
      }
    }
  }

  lemma StillComesAfter(last: Bytes, indexKey: Bytes, key: Bytes, next: Bytes)
    requires ComesAfter(last, indexKey, key) && KeyBefore(key, next)
    ensures ComesAfter(last, indexKey, next)
  {
    KeyOrder(indexKey, key);
    KeyOrder(key, next);
    KeyOrder(indexKey, next);
    RankEmbedsCompare(UserPart(indexKey), UserPart(key));
    RankEmbedsCompare(UserPart(indexKey), UserPart(next));
    hide KeyBefore, Before, Rank, UserPart, TagPart;
  }

  // ---- a finished table ----

  datatype Layout = Layout(blocks: seq<seq<Entry>>, handles: seq<BlockHandle>, index: seq<Entry>, interval: nat,
                           indexHandle: BlockHandle, metaHandle: BlockHandle, filterHandle: Option<BlockHandle>, filter: Bytes) {
    /** Everything in the table, in order. */
    function Entries(): seq<Entry> {
      Flatten(blocks)
    }
  }

  function FilterName(name: Bytes): Bytes {
    [102, 105, 108, 116, 101, 114, 46] + name // "filter."
  }

  function MetaEntries(l: Layout, name: Bytes): seq<Entry> {
    if l.filterHandle.Some? then [Entry(FilterName(name), HandleBytes(l.filterHandle.value))] else []
  }

  ghost predicate HasFooter(file: Bytes, metaHandle: BlockHandle, indexHandle: BlockHandle) {
    |file| >= FOOTER_LENGTH && GetFooter(file[|file| - FOOTER_LENGTH..]) == Some(Footer(metaHandle, indexHandle))
  }

  ghost predicate IsTable(file: Bytes, l: Layout, name: Bytes) {
    && Indexed(file, l.blocks, l.handles, l.index, l.interval) && |l.index| == |l.blocks|
    && Separates(l.index, l.blocks) && Increasing(l.Entries(), LESS)
    && HasFooter(file, l.metaHandle, l.indexHandle)
    && |BlockOf(l.index, 1)| < WORD && Stored(file, l.indexHandle, BlockOf(l.index, 1))
    && |BlockOf(MetaEntries(l, name), l.interval)| < WORD && Stored(file, l.metaHandle, BlockOf(MetaEntries(l, name), l.interval))
    && (l.filterHandle.Some? ==> HandleFits(l.filterHandle.value) && Stored(file, l.filterHandle.value, l.filter))
  }

  /** The filter says of every user key in a block that it may be there. */
  ghost predicate FilterServes(l: Layout, hash: HashFunction) {
    l.filterHandle.Some? ==>
      forall b, e :: 0 <= b < |l.blocks| && b < |l.handles| && e in l.blocks[b] ==> MayMatch(hash, l.filter, l.handles[b].offset, e.key)
  }

  /** Not long enough to be written, however many of the entries one takes. */
  predicate ShortBlock(es: seq<Entry>, interval: nat, blockSize: nat)
    requires interval > 0
  {
    forall n :: 0 < n <= |es| ==> |BlockOf(es[..n], interval)| < blockSize
  }

  /** Just long enough: without its last entry it was not. */
  predicate FullBlock(es: seq<Entry>, interval: nat, blockSize: nat)
    requires interval > 0
  {
    es != [] && |BlockOf(es, interval)| >= blockSize && ShortBlock(es[..|es| - 1], interval, blockSize)
  }

  lemma LongerBlock(es: seq<Entry>, e: Entry, interval: nat, blockSize: nat)
    requires interval > 0 && ShortBlock(es, interval, blockSize)
    ensures if |BlockOf(es + [e], interval)| >= blockSize then FullBlock(es + [e], interval, blockSize)
            else ShortBlock(es + [e], interval, blockSize)
  {
    hide BlockOf;
    var more := es + [e];
    assert more[..|more| - 1] == es;
    forall n | 0 < n <= |more| && |BlockOf(more, interval)| < blockSize ensures |BlockOf(more[..n], interval)| < blockSize {
      if n <= |es| {
        assert more[..n] == es[..n];
      } else {
        assert more[..n] == more;
      }
    }
  }

  lemma NoneIsShort(interval: nat, blockSize: nat)
    requires interval > 0
    ensures ShortBlock([], interval, blockSize)
  {
  }

  /** What comes after the `b`th block, when `data` comes after the last. */
  function Following(blocks: seq<seq<Entry>>, data: seq<Entry>, b: nat): seq<Entry> {
    if b + 1 < |blocks| then blocks[b + 1] else data
  }

  ghost predicate ShortKey(last: Bytes, next: seq<Entry>, key: Bytes) {
    next != [] && IsInternalSeparator(last, next[0].key, key)
  }

  /** Index keys are as short as a separator of the two keys about them makes them. */
  ghost predicate ShortKeys(index: seq<Entry>, blocks: seq<seq<Entry>>, data: seq<Entry>) {
    forall b: nat :: b < |index| && b < |blocks| ==> ShortKey(LastKey(blocks[b]), Following(blocks, data, b), index[b].key)
  }

  /** And the last one as short as a successor makes it. */
  ghost predicate AllShortKeys(index: seq<Entry>, blocks: seq<seq<Entry>>) {
    && |index| == |blocks|
    && (blocks != [] ==>
          var n := |blocks| - 1;
          ShortKeys(index[..n], blocks, []) && IsInternalSuccessor(LastKey(blocks[n]), index[n].key))
  }

  lemma ShortKeysAppend(index: seq<Entry>, blocks: seq<seq<Entry>>, data: seq<Entry>, e: Entry)
    requires ShortKeys(index, blocks, data) && |index| <= |blocks| && (|index| == |blocks| > 0 ==> data != [])
    ensures ShortKeys(index, blocks, data + [e])
  {
    hide IsInternalSeparator, LastKey;
    forall b: nat | b < |index| && b < |blocks|
      ensures ShortKey(LastKey(blocks[b]), Following(blocks, data + [e], b), index[b].key)
    {
      assert ShortKey(LastKey(blocks[b]), Following(blocks, data, b), index[b].key);
      assert data != [] ==> (data + [e])[0] == data[0];
    }
  }

  lemma ShortKeysSeparator(index: seq<Entry>, blocks: seq<seq<Entry>>, separator: Entry, e: Entry)
    requires ShortKeys(index, blocks, []) && |blocks| == |index| + 1
    requires IsInternalSeparator(LastKey(blocks[|index|]), e.key, separator.key)
    ensures ShortKeys(index + [separator], blocks, [e])
  {
    hide IsInternalSeparator, LastKey;
    var index' := index + [separator];
    forall b: nat | b < |index'| && b < |blocks| ensures ShortKey(LastKey(blocks[b]), Following(blocks, [e], b), index'[b].key) {
      if b < |index| {
        assert ShortKey(LastKey(blocks[b]), Following(blocks, [], b), index[b].key);
      }
    }
  }

  lemma ShortKeysFlush(index: seq<Entry>, blocks: seq<seq<Entry>>, data: seq<Entry>)
    requires ShortKeys(index, blocks, data) && |index| <= |blocks|
    ensures |index| < |blocks + [data]| && ShortKeys(index, blocks + [data], [])
  {
    hide IsInternalSeparator, LastKey;
    var blocks' := blocks + [data];
    forall b: nat | b < |index| && b < |blocks'|
      ensures ShortKey(LastKey(blocks'[b]), Following(blocks', [], b), index[b].key)
    {
      assert ShortKey(LastKey(blocks[b]), Following(blocks, data, b), index[b].key);
    }
  }

  lemma ShortKeysLast(index: seq<Entry>, blocks: seq<seq<Entry>>, successor: Entry)
    requires ShortKeys(index, blocks, []) && |blocks| == |index| + 1
    requires IsInternalSuccessor(LastKey(blocks[|index|]), successor.key)
    ensures AllShortKeys(index + [successor], blocks)
  {
    hide IsInternalSeparator, IsInternalSuccessor, LastKey;
    assert (index + [successor])[..|index|] == index;
  }

  lemma NoShortKeys()
    ensures AllShortKeys([], [])
  {
  }

  class TableBuilder {
    const interval: nat
    const blockSize: nat
    const compress: bool
    const filterName: Bytes
    const filterBlock: FilterBlockBuilder?
    const dataBlock: BlockBuilder
    const indexBlock: BlockBuilder
    var file: Bytes
    var lastKey: Bytes
    var numEntries: nat
    var closed: bool
    var pending: Option<BlockHandle> // the last block, while it has no index entry
    ghost var blocks: seq<seq<Entry>>
    ghost var handles: seq<BlockHandle>
    ghost var entries: seq<Entry>

    ghost predicate Separate() {
      && dataBlock != indexBlock
      && dataBlock.interval == interval && indexBlock.interval == 1
    }

    /** The filter in progress has the keys of the next block, and the others those of the blocks written. */
    ghost predicate Filtered()
      reads this, dataBlock, filterBlock
    {
      filterBlock != null ==>
        && filterBlock.Valid() && |filterBlock.groups| == |file| / FILTER_BASE && |handles| == |blocks|
        && (forall b, e :: 0 <= b < |blocks| && e in blocks[b] ==> filterBlock.Holds(handles[b].offset / FILTER_BASE, e.key))
        && forall e :: e in dataBlock.entries ==> filterBlock.Holds(|filterBlock.groups|, e.key)
    }

    ghost predicate Valid()
      reads this, dataBlock, indexBlock, filterBlock
    {
      && Separate() && interval > 0
      && dataBlock.Valid() && !dataBlock.finished && indexBlock.Valid() && !indexBlock.finished
      && Building(file, blocks, handles, indexBlock.entries, dataBlock.entries, entries, pending, lastKey, interval)
      && (pending.None? && dataBlock.entries == [] ==> blocks == [])
      && Filtered() && numEntries == |entries|
    }

    /** Blocks are written as soon as they are long enough, and index keys are short. */
    ghost predicate Cut()
      reads this, dataBlock, indexBlock
    {
      && ShortKeys(indexBlock.entries, blocks, dataBlock.entries)
      && interval > 0 && (forall b :: 0 <= b < |blocks| ==> FullBlock(blocks[b], interval, blockSize))
      && ShortBlock(dataBlock.entries, interval, blockSize)
    }

    constructor (interval: nat, blockSize: nat, compress: bool, filterName: Bytes, filter: Option<HashFunction>, bitsPerKey: nat)
      requires interval >= 1
      ensures Valid() && Cut() && this.interval == interval && this.blockSize == blockSize
      ensures !closed && entries == [] && fresh(dataBlock) && fresh(indexBlock) && (filterBlock != null ==> fresh(filterBlock))
      ensures filterBlock == null <==> filter == None
      ensures filterBlock != null ==> filterBlock.hash == filter.value
      ensures this.filterName == filterName
    {
      hide Building, Serves, Flat, Built, Buffer, BlockOf;
      BuildingNothing(interval);
      var data := new BlockBuilder(interval);
      var index := new BlockBuilder(1);
      dataBlock, indexBlock := data, index;
      this.interval, this.blockSize, this.compress, this.filterName := interval, blockSize, compress, filterName;
      if filter.Some? {
        var f := new FilterBlockBuilder(filter.value, bitsPerKey);
        f.StartBlock(0);
        filterBlock := f;
      } else {
        filterBlock := null;
      }
      file, lastKey, numEntries, closed, pending := [], [], 0, false, None;
      blocks, handles, entries := [], [], [];
    }

    /** The index entry for the last block: `key` is at or after the last key added. */
    method AddIndexEntry(key: Bytes)
      requires Separate() && indexBlock.Valid() && !indexBlock.finished && pending.Some? && !KeyBefore(key, lastKey)
      requires Building(file, blocks, handles, indexBlock.entries, [], entries, pending, lastKey, interval)
      modifies this`pending, indexBlock
      ensures Separate() && indexBlock.Valid() && !indexBlock.finished && pending == None
      ensures indexBlock.entries == old(indexBlock.entries) + [Entry(key, HandleBytes(old(pending).value))]
      ensures Building(file, blocks, handles, indexBlock.entries, [], entries, None, lastKey, interval)
    {
      hide KeyBefore, HandleBytes, Building;
      IndexAdded(file, blocks, handles, indexBlock.entries, entries, pending.value, lastKey, interval, key);
      indexBlock.Add(key, HandleBytes(pending.value));
      pending := None;
    }

    /** Appends to the data block, and to the filter in progress. */
    method Append(key: Bytes, value: Bytes)
      requires Separate() && interval > 0 && dataBlock.Valid() && !dataBlock.finished && Filtered() && numEntries == |entries|
      requires Building(file, blocks, handles, indexBlock.entries, dataBlock.entries, entries, None, lastKey, interval)
      requires entries != [] ==> KeyBefore(lastKey, key)
      requires |indexBlock.entries| <= |blocks|
      requires forall b :: 0 <= b < |indexBlock.entries| ==> ComesAfter(LastKey(blocks[b]), indexBlock.entries[b].key, key)
      modifies this`lastKey, this`numEntries, this`entries, dataBlock, filterBlock
      ensures dataBlock.Valid() && !dataBlock.finished && Filtered() && numEntries == |entries|
      ensures entries == old(entries) + [Entry(key, value)] && dataBlock.entries == old(dataBlock.entries) + [Entry(key, value)]
      ensures Building(file, blocks, handles, indexBlock.entries, dataBlock.entries, entries, None, lastKey, interval)
    {
      hide KeyBefore, Building, Serves, Flat, Built, Buffer, BlockOf;
      EntryAdded(file, blocks, handles, indexBlock.entries, dataBlock.entries, entries, lastKey, interval, Entry(key, value));
      if filterBlock != null {
        filterBlock.AddKey(key);
      }
      lastKey := key;
      numEntries := numEntries + 1;
      dataBlock.Add(key, value);
      entries := entries + [Entry(key, value)];
    }

    /** The next block is short enough for 32-bit offsets, and the file for 64-bit ones. */
    ghost predicate Room(data: seq<Entry>)
      requires interval > 0
      reads this`file
    {
      |BlockOf(data, interval)| < WORD && |file| + |BlockOf(data, interval)| < WORD64
    }

    /** Writes the entries collected as a block. */
    method Flush()
      requires Valid() && !closed && Room(dataBlock.entries)
      modifies this`file, this`pending, this`blocks, this`handles, dataBlock, filterBlock
      ensures Valid() && dataBlock.entries == [] && old(file) <= file
      ensures blocks == old(blocks) + if old(dataBlock.entries) == [] then [] else [old(dataBlock.entries)]
      ensures |file| <= |old(file)| + |BlockOf(old(dataBlock.entries), interval)| + TRAILER
    {
      hide KeyBefore, Building, Serves, Flat, Built, Buffer, BlockOf, Stored, Packed, RawBlock;
      var empty := dataBlock.IsEmpty();
      if !empty {
        ghost var before, data := file, dataBlock.entries;
        DataHasNoPending();
        var raw := dataBlock.Finish();
        var h;
        file, h := WriteBlock(file, raw, compress);
        BlockAdded(before, file, blocks, handles, indexBlock.entries, data, entries, lastKey, interval, h);
        dataBlock.Reset();
        pending := Some(h);
        blocks, handles := blocks + [data], handles + [h];
        if filterBlock != null {
          filterBlock.StartBlock(|file|);
        }
      }
    }

    lemma DataHasNoPending()
      requires Valid() && dataBlock.entries != []
      ensures pending == None && |handles| == |blocks|
    {
    }

    /** Adds an entry. Now that its key is known, the last block gets its index entry, with a short key that separates the
        two; and if the block is long enough, it is written. */
    method Add(key: Bytes, value: Bytes)
      requires Valid() && Cut() && !closed && (entries != [] ==> KeyBefore(lastKey, key))
      requires Room(dataBlock.entries + [Entry(key, value)])
      modifies this, dataBlock, indexBlock, filterBlock
      ensures Valid() && Cut() && !closed && entries == old(entries) + [Entry(key, value)]
    {
      hide KeyBefore, Building, Serves, Flat, Built, Buffer, BlockOf, HandleBytes, ShortBlock, FullBlock, ShortKeys,
           IsInternalSeparator, LastKey;
      LongerBlock(dataBlock.entries, Entry(key, value), interval, blockSize);
      NoneIsShort(interval, blockSize);
      IndexKeysBefore(key);
      ghost var e := Entry(key, value);
      KeysStayShort(e);
      if pending.Some? {
        PendingHasNoData();
        LastKeyIs();
        var separator := FindShortestInternalSeparator(lastKey, key);
        ShortKeysSeparator(indexBlock.entries, blocks, Entry(separator, HandleBytes(pending.value)), e);
        AddIndexEntry(separator);
        assert dataBlock.entries + [e] == [e];
      }
      Append(key, value);
      ShortKeysFlush(indexBlock.entries, blocks, dataBlock.entries);
      var estimated := dataBlock.CurrentSizeEstimate();
      if estimated >= blockSize {
        Flush();
      }
    }

    lemma KeysFitTheBlocks()
      requires Valid()
      ensures |indexBlock.entries| <= |blocks|
    {
    }

    lemma KeysStayShort(e: Entry)
      requires Valid() && Cut()
      ensures pending.None? ==> ShortKeys(indexBlock.entries, blocks, dataBlock.entries + [e])
    {
      ShortKeysAppend(indexBlock.entries, blocks, dataBlock.entries, e);
    }

    lemma IndexKeysBefore(key: Bytes)
      requires Valid() && (entries != [] ==> KeyBefore(lastKey, key))
      ensures |indexBlock.entries| <= |blocks|
      ensures forall b :: 0 <= b < |indexBlock.entries| ==> ComesAfter(LastKey(blocks[b]), indexBlock.entries[b].key, key)
    {
      IndexBeforeNext(file, blocks, handles, indexBlock.entries, dataBlock.entries, entries, pending, lastKey, interval, key);
    }

    lemma LastKeyIs()
      requires Valid() && pending.Some?
      ensures |blocks| == |indexBlock.entries| + 1 && lastKey == LastKey(blocks[|blocks| - 1])
    {
      hide Building, Filtered;
      PendingIsLast(file, blocks, handles, indexBlock.entries, dataBlock.entries, entries, pending, lastKey, interval);
    }

    lemma PendingHasNoData()
      requires Valid() && pending.Some?
      ensures dataBlock.entries == [] && entries != []
    {
      LastOfFlatten(blocks);
    }

    /** The filters, as a block of their own. */
    method WriteFilter() returns (h: Option<BlockHandle>, filter: Bytes)
      requires Valid() && dataBlock.entries == []
      modifies this`file, filterBlock
      ensures old(file) <= file && (h.Some? <==> filterBlock != null)
      ensures h.Some? ==> Stored(file, h.value, filter) && h.value.offset + h.value.size < |file|
      ensures h.Some? && |filter| < WORD ==> |handles| == |blocks| && forall b, e :: 0 <= b < |blocks| && e in blocks[b] ==>
        MayMatch(filterBlock.hash, filter, handles[b].offset, e.key)
    {
      hide Building, Serves, Flat, Stored, MayMatch, Means;
      h, filter := None, [];
      if filterBlock != null {
        filter := filterBlock.Finish();
        var handle;
        MeansItself(filter);
        file, handle := WriteRawBlock(file, filter, NO_COMPRESSION, filter);
        h := Some(handle);
      }
    }

    /** A block that says where the filters are. */
    method WriteMeta(filterHandle: Option<BlockHandle>) returns (h: BlockHandle, ghost entries: seq<Entry>)
      requires interval > 0 && |filterName| + 128 < WORD
      modifies this`file
      ensures old(file) <= file && h.offset + h.size < |file|
      ensures entries == if filterHandle.Some? then [Entry(FilterName(filterName), HandleBytes(filterHandle.value))] else []
      ensures |BlockOf(entries, interval)| < WORD && Stored(file, h, BlockOf(entries, interval))
    {
      hide BlockOf, Stored, HandleBytes;
      EmptyBlock(interval);
      var meta := new BlockBuilder(interval);
      entries := [];
      if filterHandle.Some? {
        var e := Entry(FilterName(filterName), HandleBytes(filterHandle.value));
        meta.Add(e.key, e.value);
        HandleIsShort(filterHandle.value);
        BlockGrows([], interval, e);
        assert [] + [e] == [e];
        entries := [e];
      }
      var raw := meta.Finish();
      file, h := WriteBlock(file, raw, compress);
    }

    /** The last index entry, and the index. */
    method WriteIndex() returns (h: BlockHandle)
      requires Separate() && indexBlock.Valid() && !indexBlock.finished
      requires Building(file, blocks, handles, indexBlock.entries, [], entries, pending, lastKey, interval)
      requires |BlockOf(indexBlock.entries, 1)| + |lastKey| + 64 < WORD
      requires ShortKeys(indexBlock.entries, blocks, []) && (pending.None? ==> blocks == [])
      modifies this`file, this`pending, indexBlock
      ensures old(file) <= file && h.offset + h.size < |file| && pending == None
      ensures Building(file, blocks, handles, indexBlock.entries, [], entries, None, lastKey, interval)
      ensures |BlockOf(indexBlock.entries, 1)| < WORD && Stored(file, h, BlockOf(indexBlock.entries, 1))
      ensures AllShortKeys(indexBlock.entries, blocks)
    {
      hide KeyBefore, Building, BlockOf, HandleBytes, Stored, IsInternalSuccessor, ShortKeys, AllShortKeys, Packed, RawBlock, LastKey;
      PendingIsLast(file, blocks, handles, indexBlock.entries, [], entries, pending, lastKey, interval);
      NoShortKeys();
      if pending.Some? {
        var successor := FindShortInternalSuccessor(lastKey);
        HandleIsShort(pending.value);
        BlockGrows(indexBlock.entries, 1, Entry(successor, HandleBytes(pending.value)));
        SuccessorIsShort(lastKey, successor);
        ShortKeysLast(indexBlock.entries, blocks, Entry(successor, HandleBytes(pending.value)));
        AddIndexEntry(successor);
      }
      var raw := indexBlock.Finish();
      ghost var before := file;
      file, h := WriteBlock(file, raw, compress);
      StillBuilding(before, file, blocks, handles, indexBlock.entries, entries, None, lastKey, interval);
    }

    /** Writes what is left of the entries, the filters, the block about them, the index and the footer. */
    method Finish() returns (ghost l: Layout)
      requires Valid() && Cut() && !closed && Room(dataBlock.entries)
      requires |BlockOf(indexBlock.entries, 1)| + |lastKey| + 64 < WORD && |filterName| + 128 < WORD
      modifies this, dataBlock, indexBlock, filterBlock
      ensures closed && l.Entries() == old(entries) && entries == old(entries) && l.interval == interval > 0
      ensures forall b :: 0 <= b < |l.blocks| ==>
        FullBlock(l.blocks[b], interval, blockSize) || (b == |l.blocks| - 1 && ShortBlock(l.blocks[b], interval, blockSize))
      ensures AllShortKeys(l.index, l.blocks)
      ensures |file| < WORD64 ==> IsTable(file, l, filterName)
      ensures l.filterHandle.Some? <==> filterBlock != null
      ensures filterBlock != null && |l.filter| < WORD ==> FilterServes(l, filterBlock.hash)
    {
      hide KeyBefore, Building, Serves, Flat, Built, Buffer, BlockOf, HandleBytes, Stored, MayMatch, IsTable, FilterServes, ShortBlock,
           FullBlock, ShortKeys, AllShortKeys;
      KeysFitTheBlocks();
      ShortKeysFlush(indexBlock.entries, blocks, dataBlock.entries);
      assert blocks + [] == blocks;
      Flush();
      closed := true;
      l := WriteTail();
    }

    /** Everything after the last data block. */
    method WriteTail() returns (ghost l: Layout)
      requires Valid() && dataBlock.entries == [] && ShortKeys(indexBlock.entries, blocks, [])
      requires |BlockOf(indexBlock.entries, 1)| + |lastKey| + 64 < WORD && |filterName| + 128 < WORD
      modifies this`file, this`pending, indexBlock, filterBlock
      ensures l.Entries() == entries && l.blocks == blocks && l.interval == interval && AllShortKeys(l.index, l.blocks)
      ensures |file| < WORD64 ==> IsTable(file, l, filterName)
      ensures l.filterHandle.Some? <==> filterBlock != null
      ensures filterBlock != null && |l.filter| < WORD ==> FilterServes(l, filterBlock.hash)
    {
      hide KeyBefore, Building, Serves, Flat, Built, Buffer, BlockOf, HandleBytes, Stored, MayMatch, IsTable, ShortKeys, AllShortKeys;
      FlushedIsPending();
      ghost var file0 := file;
      var filterHandle, filter := WriteFilter();
      ghost var file1 := file;
      var metaHandle;
      ghost var metaEntries;
      metaHandle, metaEntries := WriteMeta(filterHandle);
      ghost var file2 := file;
      StillBuilding(file0, file, blocks, handles, indexBlock.entries, entries, pending, lastKey, interval);
      var indexHandle := WriteIndex();
      ghost var file3 := file;
      file := file + FooterBytes(metaHandle, indexHandle);
      l := Layout(blocks, handles, indexBlock.entries, interval, indexHandle, metaHandle, filterHandle, filter);
      if |file| < WORD64 {
        TableIs(file1, file2, file3, file, l, filterName, entries, lastKey);
      }
      BuildingEntries(file3, blocks, handles, indexBlock.entries, entries, lastKey, interval);
    }

    lemma FlushedIsPending()
      requires Valid() && dataBlock.entries == []
      ensures Building(file, blocks, handles, indexBlock.entries, [], entries, pending, lastKey, interval)
      ensures pending.None? ==> blocks == []
    {
    }
  }

  lemma MeansItself(contents: Bytes)
    ensures Means(contents, NO_COMPRESSION, contents)
  {
  }

  lemma SuccessorIsShort(key: Bytes, successor: Bytes)
    requires successor == key || (successor == Earliest(UserPart(successor)) && |UserPart(successor)| < |UserPart(key)|)
    ensures |successor| <= |key|
  {
  }

  lemma StillBuilding(file: Bytes, file': Bytes, blocks: seq<seq<Entry>>, handles: seq<BlockHandle>, index: seq<Entry>,
                      entries: seq<Entry>, pending: Option<BlockHandle>, lastKey: Bytes, interval: nat)
    requires Building(file, blocks, handles, index, [], entries, pending, lastKey, interval) && file <= file'
    ensures Building(file', blocks, handles, index, [], entries, pending, lastKey, interval)
  {
    StillIndexed(file, file', blocks, handles, index, interval);
    hide Indexed, Separates, Increasing, AfterKey;
  }

  lemma BuildingEntries(file: Bytes, blocks: seq<seq<Entry>>, handles: seq<BlockHandle>, index: seq<Entry>, entries: seq<Entry>,
                        lastKey: Bytes, interval: nat)
    requires Building(file, blocks, handles, index, [], entries, None, lastKey, interval)
    ensures entries == Flatten(blocks) && Increasing(entries, LESS) && |index| == |blocks| == |handles|
    ensures Indexed(file, blocks, handles, index, interval) && Separates(index, blocks)
  {
    IndexedSizes(file, blocks, handles, index, interval);
    hide Indexed, Separates, Increasing, AfterKey;
    assert Flatten(blocks) + [] == Flatten(blocks);
  }

  lemma IndexedSizes(file: Bytes, blocks: seq<seq<Entry>>, handles: seq<BlockHandle>, index: seq<Entry>, interval: nat)
    requires Indexed(file, blocks, handles, index, interval)
    ensures |handles| == |blocks| && interval > 0
  {
  }

  lemma StoredInLonger(file: Bytes, file': Bytes, h: BlockHandle, raw: Bytes)
    requires Stored(file, h, raw) && file <= file'
    ensures Stored(file', h, raw)
  {
    hide Stored;
    assert file' == file + file'[|file|..];
    StoredStays(file, file'[|file|..], h, raw);
  }

  /** The pieces of a finished file make a table. */
  lemma TableIs(file1: Bytes, file2: Bytes, file3: Bytes, file: Bytes, l: Layout, name: Bytes, entries: seq<Entry>, lastKey: Bytes)
    requires file1 <= file2 <= file3 && file == file3 + FooterBytes(l.metaHandle, l.indexHandle) && |file| < WORD64
    requires l.interval > 0 && Building(file3, l.blocks, l.handles, l.index, [], entries, None, lastKey, l.interval)
    requires l.filterHandle.Some? ==> Stored(file1, l.filterHandle.value, l.filter) && l.filterHandle.value.offset + l.filterHandle.value.size < |file1|
    requires |BlockOf(MetaEntries(l, name), l.interval)| < WORD && Stored(file2, l.metaHandle, BlockOf(MetaEntries(l, name), l.interval))
    requires l.metaHandle.offset + l.metaHandle.size < |file2|
    requires |BlockOf(l.index, 1)| < WORD && Stored(file3, l.indexHandle, BlockOf(l.index, 1)) && l.indexHandle.offset + l.indexHandle.size < |file3|
    ensures IsTable(file, l, name)
  {
    hide Building, BlockOf, Stored, FooterBytes, GetFooter, Separates, Increasing, Indexed, MetaEntries;
    BuildingEntries(file3, l.blocks, l.handles, l.index, entries, lastKey, l.interval);
    StillIndexed(file3, file, l.blocks, l.handles, l.index, l.interval);
    FooterIsRead(l.metaHandle, l.indexHandle);
    assert file[|file| - FOOTER_LENGTH..] == FooterBytes(l.metaHandle, l.indexHandle);
    StoredInLonger(file3, file, l.indexHandle, BlockOf(l.index, 1));
    StoredInLonger(file2, file, l.metaHandle, BlockOf(MetaEntries(l, name), l.interval));
    if l.filterHandle.Some? {
      StoredInLonger(file1, file, l.filterHandle.value, l.filter);
    }
  }

  // ---- reading ----

  /** The place of the first entry that is not before the target. */
  ghost predicate IsSought(entries: seq<Entry>, target: Bytes, p: nat) {
    && p <= |entries|
    && (forall i :: 0 <= i < p ==> KeyBefore(entries[i].key, target))
    && forall i :: p <= i < |entries| ==> !KeyBefore(entries[i].key, target)
  }

  /** What is sought is there, and is of the user key asked for. */
  ghost predicate SoughtOfUser(entries: seq<Entry>, k: Bytes, p: nat) {
    IsSought(entries, k, p) && p < |entries| && UserPart(entries[p].key) == UserPart(k)
  }

  lemma IsSoughtWhen(entries: seq<Entry>, target: Bytes, p: nat)
    requires p <= |entries| && forall i :: 0 <= i < p ==> LESS(entries[i].key, target)
    requires p < |entries| ==> forall i :: p <= i < |entries| ==> !LESS(entries[i].key, target)
    ensures IsSought(entries, target, p)
  {
    hide KeyBefore;
  }

  lemma SoughtAt(entries: seq<Entry>, target: Bytes, p: nat)
    requires Increasing(entries, LESS) && p <= |entries|
    requires p > 0 ==> KeyBefore(entries[p - 1].key, target)
    requires p < |entries| ==> !KeyBefore(entries[p].key, target)
    ensures IsSought(entries, target, p)
  {
    hide KeyBefore, Rank;
    forall i | 0 <= i < p ensures KeyBefore(entries[i].key, target) {
      if i < p - 1 {
        assert LESS(entries[i].key, entries[p - 1].key);
        KeyOrder(entries[i].key, entries[p - 1].key);
        KeyOrder(entries[p - 1].key, target);
        KeyOrder(entries[i].key, target);
      }
    }
    forall i | p <= i < |entries| ensures !KeyBefore(entries[i].key, target) {
      if p < i {
        assert LESS(entries[p].key, entries[i].key);
        KeyOrder(entries[p].key, entries[i].key);
        KeyOrder(entries[p].key, target);
        KeyOrder(entries[i].key, target);
      }
    }
  }

  lemma EntryAt(blocks: seq<seq<Entry>>, b: nat, i: nat)
    requires b < |blocks| && i < |blocks[b]|
    ensures EntriesBefore(blocks, b) + i < |Flatten(blocks)| && Flatten(blocks)[EntriesBefore(blocks, b) + i] == blocks[b][i]
  {
    FlattenAt(blocks, b);
    hide EntriesBefore, Flatten;
    var from, to := EntriesBefore(blocks, b), EntriesBefore(blocks, b + 1);
    assert Flatten(blocks)[from..to][i] == Flatten(blocks)[from + i];
  }

  lemma PieceIncreases(blocks: seq<seq<Entry>>, b: nat)
    requires b < |blocks| && Increasing(Flatten(blocks), LESS)
    ensures Increasing(blocks[b], LESS)
  {
    hide KeyBefore, EntriesBefore, Flatten;
    forall i, j | 0 <= i < j < |blocks[b]| ensures LESS(blocks[b][i].key, blocks[b][j].key) {
      EntryAt(blocks, b, i);
      EntryAt(blocks, b, j);
    }
  }

  lemma EndOfBlocks(blocks: seq<seq<Entry>>)
    ensures EntriesBefore(blocks, |blocks|) == |Flatten(blocks)|
  {
    assert blocks[..|blocks|] == blocks;
  }

  lemma NothingBefore(blocks: seq<seq<Entry>>)
    ensures EntriesBefore(blocks, 0) == 0
  {
  }

  lemma InOwnBlock(index: seq<Entry>, blocks: seq<seq<Entry>>, b: nat, i: nat)
    requires Separates(index, blocks) && b < |index| && i < |blocks[b]|
    ensures !KeyBefore(index[b].key, blocks[b][i].key)
  {
    hide KeyBefore;
    assert blocks[b][i] in blocks[b];
  }

  lemma InLaterBlock(index: seq<Entry>, blocks: seq<seq<Entry>>, b: nat, c: nat, i: nat)
    requires Separates(index, blocks) && b < |index| && b < c < |blocks| && i < |blocks[c]|
    ensures ComesAfter(LastKey(blocks[b]), index[b].key, blocks[c][i].key)
  {
    hide ComesAfter;
    assert blocks[c][i] in blocks[c];
  }

  lemma ComesBefore(a: Bytes, b: Bytes, c: Bytes)
    ensures !KeyBefore(b, a) && KeyBefore(b, c) ==> KeyBefore(a, c)
    ensures KeyBefore(b, a) && !KeyBefore(b, c) ==> !KeyBefore(a, c)
  {
    hide KeyBefore, Rank;
    KeyOrder(a, b);
    KeyOrder(b, a);
    KeyOrder(a, c);
    KeyOrder(b, c);
  }

  lemma IsSoughtAt(entries: seq<Entry>, target: Bytes, p: nat)
    requires IsSought(entries, target, p)
    ensures p <= |entries| && (p > 0 ==> KeyBefore(entries[p - 1].key, target)) && (p < |entries| ==> !KeyBefore(entries[p].key, target))
  {
  }

  /** The last entry before a block is before the target, if the index key of the block before it is. */
  lemma BeforeBlock(index: seq<Entry>, blocks: seq<seq<Entry>>, b: nat, target: Bytes)
    requires Separates(index, blocks) && |index| == |blocks| && 0 < b <= |blocks| && blocks[b - 1] != []
    requires IsSought(index, target, b)
    ensures 0 < EntriesBefore(blocks, b) <= |Flatten(blocks)|
    ensures KeyBefore(Flatten(blocks)[EntriesBefore(blocks, b) - 1].key, target)
  {
    hide KeyBefore, EntriesBefore, Flatten, Separates, IsSought;
    var last: nat := |blocks[b - 1]| - 1;
    FlattenAt(blocks, b - 1);
    EntryAt(blocks, b - 1, last);
    IsSoughtAt(index, target, b);
    InOwnBlock(index, blocks, b - 1, last);
    ComesBefore(blocks[b - 1][last].key, index[b - 1].key, target);
  }

  /** The first entry after a block is not before the target, if the block's index key is not. */
  lemma AfterBlock(index: seq<Entry>, blocks: seq<seq<Entry>>, b: nat, target: Bytes)
    requires Separates(index, blocks) && |index| == |blocks| && b + 1 < |blocks| && blocks[b + 1] != []
    requires IsSought(index, target, b)
    ensures EntriesBefore(blocks, b + 1) < |Flatten(blocks)|
    ensures !KeyBefore(Flatten(blocks)[EntriesBefore(blocks, b + 1)].key, target)
  {
    hide KeyBefore, EntriesBefore, Flatten, Separates, IsSought;
    EntryAt(blocks, b + 1, 0);
    IsSoughtAt(index, target, b);
    InLaterBlock(index, blocks, b, b + 1, 0);
    ComesBefore(blocks[b + 1][0].key, index[b].key, target);
  }

  /** What is sought is found in the block that the index says, or at the beginning of the next one. */
  lemma SoughtBlock(index: seq<Entry>, blocks: seq<seq<Entry>>, b: nat, i: nat, target: Bytes)
    requires Separates(index, blocks) && |index| == |blocks| && b < |blocks| && forall c :: 0 <= c < |blocks| ==> blocks[c] != []
    requires Increasing(Flatten(blocks), LESS)
    requires IsSought(index, target, b) && IsSought(blocks[b], target, i)
    ensures IsSought(Flatten(blocks), target, EntriesBefore(blocks, b) + i)
  {
    hide KeyBefore, EntriesBefore, Flatten, Separates, IsSought, Increasing;
    FlattenAt(blocks, b);
    EndOfBlocks(blocks);
    NothingBefore(blocks);
    IsSoughtAt(blocks[b], target, i);
    var p := EntriesBefore(blocks, b) + i;
    if i > 0 {
      EntryAt(blocks, b, i - 1);
    } else if b > 0 {
      BeforeBlock(index, blocks, b, target);
    }
    if i < |blocks[b]| {
      EntryAt(blocks, b, i);
    } else if b + 1 < |blocks| {
      AfterBlock(index, blocks, b, target);
    }
    SoughtAt(Flatten(blocks), target, p);
  }

  lemma SoughtNone(index: seq<Entry>, blocks: seq<seq<Entry>>, target: Bytes)
    requires Separates(index, blocks) && |index| == |blocks| && forall c :: 0 <= c < |blocks| ==> blocks[c] != []
    requires Increasing(Flatten(blocks), LESS) && IsSought(index, target, |index|)
    ensures IsSought(Flatten(blocks), target, |Flatten(blocks)|)
  {
    hide KeyBefore, EntriesBefore, Flatten, Separates, IsSought, Increasing;
    EndOfBlocks(blocks);
    NothingBefore(blocks);
    if blocks != [] {
      BeforeBlock(index, blocks, |blocks|, target);
    }
    SoughtAt(Flatten(blocks), target, |Flatten(blocks)|);
  }

  lemma SoughtOnce(entries: seq<Entry>, target: Bytes, p: nat)
    requires IsSought(entries, target, p)
    ensures forall q: nat :: IsSought(entries, target, q) ==> q == p
  {
    hide KeyBefore;
    IsSoughtAt(entries, target, p);
    forall q: nat | IsSought(entries, target, q) ensures q == p {
      IsSoughtAt(entries, target, q);
    }
  }

  lemma {:induction false} SoughtIn(entries: seq<Entry>, target: Bytes) returns (p: nat)
    requires Increasing(entries, LESS)
    ensures IsSought(entries, target, p)
  {
    hide KeyBefore;
    p := 0;
    while p < |entries| && KeyBefore(entries[p].key, target)
      invariant p <= |entries| && (p > 0 ==> KeyBefore(entries[p - 1].key, target))
    {
      p := p + 1;
    }
    SoughtAt(entries, target, p);
  }

  lemma SoughtFits(entries: seq<Entry>, target: Bytes, p: nat)
    requires IsSought(entries, target, p)
    ensures p <= |entries|
  {
  }

  lemma FilterKnows(l: Layout, hash: HashFunction, b: nat, i: nat, k: Bytes)
    requires FilterServes(l, hash) && l.filterHandle.Some? && b < |l.blocks| && b < |l.handles| && i < |l.blocks[b]|
    requires UserPart(l.blocks[b][i].key) == UserPart(k)
    ensures MayMatch(hash, l.filter, l.handles[b].offset, k)
  {
    hide UserPart, MayMatch;
    assert l.blocks[b][i] in l.blocks[b];
    MatchIsByUser(hash, l.filter, l.handles[b].offset, l.blocks[b][i].key, k);
  }

  lemma MatchIsByUser(hash: HashFunction, filter: Bytes, offset: nat, key: Bytes, k: Bytes)
    requires UserPart(key) == UserPart(k)
    ensures MayMatch(hash, filter, offset, key) == MayMatch(hash, filter, offset, k)
  {
    hide UserPart, Matches, DecodeFixed32, FilterIndex;
  }

  lemma UserOrder(k: Bytes, indexKey: Bytes, key: Bytes)
    requires !KeyBefore(indexKey, k) && Before(UserPart(indexKey), UserPart(key))
    ensures UserPart(key) != UserPart(k)
  {
    KeyOrder(indexKey, k);
    RankEmbedsCompare(UserPart(indexKey), UserPart(key));
    hide KeyBefore, Before, Rank, UserPart, TagPart;
  }

  /** When what is sought is not in the block that the index says, the next entry is of another user key. */
  lemma NextIsAnotherUser(index: seq<Entry>, blocks: seq<seq<Entry>>, b: nat, k: Bytes)
    requires Separates(index, blocks) && |index| == |blocks| && b < |blocks| && forall c :: 0 <= c < |blocks| ==> blocks[c] != []
    requires IsSought(index, k, b) && IsSought(blocks[b], k, |blocks[b]|)
    ensures var p := EntriesBefore(blocks, b) + |blocks[b]|;
            p < |Flatten(blocks)| ==> UserPart(Flatten(blocks)[p].key) != UserPart(k)
  {
    hide KeyBefore, Before, EntriesBefore, Flatten, Separates, IsSought, UserPart;
    FlattenAt(blocks, b);
    EndOfBlocks(blocks);
    if b + 1 < |blocks| {
      EntryAt(blocks, b + 1, 0);
      InLaterBlock(index, blocks, b, b + 1, 0);
      IsSoughtAt(index, k, b);
      IsSoughtAt(blocks[b], k, |blocks[b]|);
      if index[b].key != LastKey(blocks[b]) {
        UserOrder(k, index[b].key, blocks[b + 1][0].key);
      }
    }
  }

  /** Opens a block that is in the file, and makes an iterator over it. */
  method OpenBlock(raw: Bytes, less: Order, ghost entries: seq<Entry>, ghost interval: nat) returns (it: BlockIter)
    requires interval > 0 && raw == BlockOf(entries, interval) && |raw| < WORD
    ensures fresh(it) && it.Valid() && it.entries == entries && it.less == less && it.pos == |entries|
  {
    BlockOpens(raw, |Buffer(entries, interval)|, |Starts(|entries|, interval)|, entries, interval);
    hide Open, BlockOf, Buffer, Starts;
    var found := Open(raw);
    it := new BlockIter(raw, found.restarts, found.numRestarts, less, entries, interval);
  }

  datatype Policy = Policy(name: Bytes, hash: HashFunction)

  class Table {
    const file: Bytes
    const indexBlock: Bytes
    const policy: Option<Policy>
    const filter: Option<Bytes>
    ghost const layout: Layout
    ghost const name: Bytes // the filter policy's that the table was built with

    ghost predicate Valid() {
      && IsTable(file, layout, name) && indexBlock == BlockOf(layout.index, 1)
      && (filter.Some? ==> layout.filterHandle.Some? && filter.value == layout.filter && policy.Some?)
    }

    /** Reads the footer and the index, and the filters if they were made by the same policy. */
    constructor (file: Bytes, paranoid: bool, policy: Option<Policy>, ghost layout: Layout, ghost name: Bytes)
      requires IsTable(file, layout, name)
      ensures Valid() && this.file == file && this.layout == layout && this.policy == policy
      ensures filter.Some? <==> policy.Some? && layout.filterHandle.Some? && policy.value.name == name
    {
      hide Stored, BlockOf, Indexed, Separates, Increasing, GetFooter, GetHandle, HandleBytes, MetaEntries;
      this.file, this.policy, this.layout, this.name := file, policy, layout, name;
      var footer := GetFooter(file[|file| - FOOTER_LENGTH..]).value;
      var contents := ReadBlock(file, footer.index, paranoid);
      indexBlock := contents.value;
      var f := ReadMeta(file, footer.metaindex, paranoid, policy, layout, name);
      filter := f;
    }

    method NewIndexIterator() returns (it: BlockIter)
      requires Valid()
      ensures fresh(it) && it.Valid() && it.entries == layout.index && it.less == LESS && it.pos == |layout.index|
    {
      hide BlockOf, Stored, Indexed, Separates, Increasing;
      it := OpenBlock(indexBlock, LESS, layout.index, 1);
    }

    /** An iterator over the block that an index entry points to. */
    method BlockReader(indexValue: Bytes, verify: bool, ghost b: nat) returns (it: BlockIter)
      requires Valid() && b < |layout.blocks| && indexValue == HandleBytes(layout.handles[b])
      ensures fresh(it) && it.Valid() && it.entries == layout.blocks[b] && it.less == LESS && it.pos == |layout.blocks[b]|
    {
      hide BlockOf, Stored, Separates, Increasing, HandleBytes, GetHandle;
      HandleIsRead(layout.handles[b], []);
      assert indexValue + [] == indexValue;
      var handle := GetHandle(indexValue);
      var contents := ReadBlock(file, handle.value.value, verify);
      it := OpenBlock(contents.value, LESS, layout.blocks[b], layout.interval);
    }

    /** Calls for the entry that a lookup is after: the first one in the block that the index says, unless the filter knows
        that the user key is not there. */
    method InternalGet(k: Bytes, verify: bool) returns (saved: Option<Entry>)
      requires Valid() && (filter.Some? ==> FilterServes(layout, policy.value.hash))
      ensures saved.Some? ==> exists p: nat :: IsSought(layout.Entries(), k, p) && p < |layout.Entries()| && layout.Entries()[p] == saved.value
      ensures forall p: nat :: SoughtOfUser(layout.Entries(), k, p) ==> saved == Some(layout.Entries()[p])
    {
      hide IsTable, HandleBytes, BlockIter.Valid, EntriesBefore, Flatten, Transitive, Increasing, LESS, KeyBefore, IsSought,
           Separates, UserPart, MayMatch, FilterServes, GetHandle;
      LessIsTransitive();
      Orders();
      Sizes();
      saved := None;
      var iiter := NewIndexIterator();
      iiter.Seek(k);
      IsSoughtWhen(layout.index, k, iiter.pos);
      var valid := iiter.IsValid();
      if !valid {
        SoughtNone(layout.index, layout.blocks, k);
        SoughtOnce(layout.Entries(), k, |layout.Entries()|);
        return;
      }
      ghost var b := iiter.pos;
      var handleValue := iiter.Value();
      HandleDecodes(b);
      var handle := GetHandle(handleValue);
      if filter.Some? && !FilterMayMatch(handle.value.value.offset, k) {
        NotFiltered(b, k);
        return;
      }
      saved := LookInBlock(handleValue, verify, b, k);
    }

    /** The first entry of a block that is not before the key looked up. */
    method LookInBlock(handleValue: Bytes, verify: bool, ghost b: nat, k: Bytes) returns (saved: Option<Entry>)
      requires Valid() && b < |layout.blocks| == |layout.index| == |layout.handles| && handleValue == HandleBytes(layout.handles[b])
      requires IsSought(layout.index, k, b)
      ensures saved.Some? ==> exists p: nat :: IsSought(layout.Entries(), k, p) && p < |layout.Entries()| && layout.Entries()[p] == saved.value
      ensures forall p: nat :: SoughtOfUser(layout.Entries(), k, p) ==> saved == Some(layout.Entries()[p])
    {
      hide IsTable, HandleBytes, BlockIter.Valid, EntriesBefore, Flatten, Transitive, Increasing, LESS, KeyBefore, IsSought,
           Separates, UserPart;
      LessIsTransitive();
      Orders();
      Sizes();
      saved := None;
      var blockIter := BlockReader(handleValue, verify, b);
      BlockOrders(b);
      blockIter.Seek(k);
      IsSoughtWhen(layout.blocks[b], k, blockIter.pos);
      SoughtBlock(layout.index, layout.blocks, b, blockIter.pos, k);
      SoughtOnce(layout.Entries(), k, EntriesBefore(layout.blocks, b) + blockIter.pos);
      var found := blockIter.IsValid();
      if found {
        var key := blockIter.Key();
        var value := blockIter.Value();
        saved := Some(Entry(key, value));
        EntryAt(layout.blocks, b, blockIter.pos);
      } else {
        NextIsAnotherUser(layout.index, layout.blocks, b, k);
      }
    }

    function FilterMayMatch(offset: nat, k: Bytes): bool
      requires filter.Some? && policy.Some?
    {
      MayMatch(policy.value.hash, filter.value, offset, k)
    }

    lemma HandleDecodes(b: nat)
      requires Valid() && b < |layout.blocks| == |layout.handles|
      ensures GetHandle(HandleBytes(layout.handles[b])) == Some(Read(layout.handles[b], []))
    {
      hide BlockOf, Stored, Separates, Increasing, HandleBytes, GetHandle;
      HandleIsRead(layout.handles[b], []);
      assert HandleBytes(layout.handles[b]) + [] == HandleBytes(layout.handles[b]);
    }

    /** If the filter does not match, the entry that is sought is of another user key. */
    lemma NotFiltered(b: nat, k: Bytes)
      requires Valid() && filter.Some? && FilterServes(layout, policy.value.hash)
      requires b < |layout.blocks| == |layout.index| == |layout.handles| && IsSought(layout.index, k, b)
      requires !MayMatch(policy.value.hash, filter.value, layout.handles[b].offset, k)
      ensures forall p: nat :: !SoughtOfUser(layout.Entries(), k, p)
    {
      hide IsTable, EntriesBefore, Flatten, Increasing, LESS, KeyBefore, IsSought, Separates, UserPart, MayMatch, FilterServes, HandleBytes;
      Orders();
      Sizes();
      BlockOrders(b);
      var i := SoughtIn(layout.blocks[b], k);
      SoughtBlock(layout.index, layout.blocks, b, i, k);
      SoughtOnce(layout.Entries(), k, EntriesBefore(layout.blocks, b) + i);
      SoughtFits(layout.blocks[b], k, i);
      if i < |layout.blocks[b]| {
        EntryAt(layout.blocks, b, i);
        if UserPart(layout.blocks[b][i].key) == UserPart(k) {
          FilterKnows(layout, policy.value.hash, b, i, k);
        }
      } else {
        NextIsAnotherUser(layout.index, layout.blocks, b, k);
      }
    }

    lemma Orders()
      requires Valid()
      ensures Increasing(layout.index, LESS) && Increasing(layout.Entries(), LESS) && Separates(layout.index, layout.blocks)
    {
      IndexIncreases(layout.index, layout.blocks);
    }

    lemma BlockOrders(b: nat)
      requires Valid() && b < |layout.blocks|
      ensures Increasing(layout.blocks[b], LESS)
    {
      Orders();
      hide IsTable, Separates, Valid;
      PieceIncreases(layout.blocks, b);
    }

    lemma Sizes()
      requires Valid()
      ensures |layout.index| == |layout.blocks| == |layout.handles| && layout.interval > 0
      ensures forall b :: 0 <= b < |layout.blocks| ==> layout.blocks[b] != [] && layout.index[b].value == HandleBytes(layout.handles[b])
    {
    }

    /** Handles are different for different blocks. */
    lemma HandlesDiffer(b: nat, c: nat)
      requires Valid() && b < |layout.blocks| && c < |layout.blocks| && |layout.handles| == |layout.blocks|
      requires HandleBytes(layout.handles[b]) == HandleBytes(layout.handles[c])
      ensures b == c
    {
      hide BlockOf, Stored, Separates, Increasing, HandleBytes, GetHandle;
      HandleIsRead(layout.handles[b], []);
      HandleIsRead(layout.handles[c], []);
      assert layout.handles[b] == layout.handles[c];
    }
  }

  /** A cursor over all entries of a table: one over its index, and one over the block that the first is at. */
  class TwoLevelIterator {
    const table: Table
    const verify: bool // whether checksums are compared
    const indexIter: BlockIter
    var dataIter: BlockIter?
    var dataBlockHandle: Bytes
    ghost var block: nat // the one dataIter is over

    ghost predicate Core()
      reads this, indexIter, dataIter
    {
      && table.Valid() && |table.layout.index| == |table.layout.blocks| == |table.layout.handles|
      && indexIter.Valid() && indexIter.entries == table.layout.index && indexIter.less == LESS
      && (dataIter != null ==>
            && dataIter != indexIter && block < |table.layout.blocks|
            && dataIter.Valid() && dataIter.entries == table.layout.blocks[block] && dataIter.less == LESS
            && dataBlockHandle == HandleBytes(table.layout.handles[block]))
    }

    /** The block iterator is over the block the index iterator is at. */
    ghost predicate Aligned()
      reads this, indexIter, dataIter
    {
      && Core()
      && if indexIter.pos < |table.layout.blocks| then dataIter != null && block == indexIter.pos else dataIter == null
    }

    ghost predicate Valid()
      reads this, indexIter, dataIter
    {
      Aligned() && (dataIter != null ==> dataIter.pos < |table.layout.blocks[block]|)
    }

    ghost function Entries(): seq<Entry> {
      table.layout.Entries()
    }

    /** The place among all entries; their number when there is no entry. */
    ghost function Pos(): nat
      requires Aligned()
      reads this, indexIter, dataIter
    {
      if dataIter == null then |Entries()| else EntriesBefore(table.layout.blocks, block) + dataIter.pos
    }

    /** The iterator is at this entry. */
    ghost predicate IsAt(e: Entry)
      requires Aligned()
      reads this, indexIter, dataIter
    {
      Pos() < |Entries()| && Entries()[Pos()] == e
    }

    constructor (table: Table, verify: bool)
      requires table.Valid()
      ensures Valid() && this.table == table && this.verify == verify && fresh(indexIter) && dataIter == null
    {
      hide IsTable, HandleBytes, BlockIter.Valid, Table.Valid;
      this.table, this.verify := table, verify;
      var it := table.NewIndexIterator();
      indexIter, dataIter, dataBlockHandle, block := it, null, [], 0;
      table.Sizes();
    }

    method IsValid() returns (valid: bool)
      requires Valid()
      ensures valid <==> Pos() < |Entries()|
    {
      hide IsTable, HandleBytes, BlockIter.Valid, Table.Valid, EntriesBefore, Flatten;
      if dataIter == null {
        return false;
      }
      FlattenAt(table.layout.blocks, block);
      valid := dataIter.IsValid();
    }

    method Current() returns (key: Bytes, value: Bytes)
      requires Valid() && dataIter != null
      ensures IsAt(Entry(key, value))
    {
      hide IsTable, HandleBytes, BlockIter.Valid, Table.Valid, EntriesBefore, Flatten;
      FlattenAt(table.layout.blocks, block);
      key := dataIter.Key();
      value := dataIter.Value();
      ghost var from, to := EntriesBefore(table.layout.blocks, block), EntriesBefore(table.layout.blocks, block + 1);
      assert Entries()[from..to][dataIter.pos] == Entries()[Pos()];
    }

    /** The iterator over the block that the index iterator is at; the one at hand is kept if it is over that block. */
    method InitDataBlock()
      requires Core()
      modifies this
      ensures Aligned() && indexIter.pos == old(indexIter.pos)
      ensures dataIter == null || dataIter == old(dataIter) || fresh(dataIter)
    {
      hide IsTable, HandleBytes, BlockIter.Valid, Table.Valid, EntriesBefore, Flatten;
      table.Sizes();
      var valid := indexIter.IsValid();
      if !valid {
        dataIter := null;
      } else {
        var handle := indexIter.Value();
        if dataIter != null && handle == dataBlockHandle {
          table.HandlesDiffer(block, indexIter.pos);
        } else {
          var it := table.BlockReader(handle, verify, indexIter.pos);
          dataBlockHandle := handle;
          dataIter := it;
          block := indexIter.pos;
        }
      }
    }

    /** On to the first entry of a later block, if this block has no more. */
    method SkipEmptyDataBlocksForward()
      requires Aligned()
      modifies this, indexIter, dataIter
      ensures Valid() && Pos() == old(Pos())
      ensures dataIter == null || dataIter == old(dataIter) || fresh(dataIter)
    {
      hide IsTable, HandleBytes, BlockIter.Valid, Table.Valid, EntriesBefore, Flatten;
      var skip := AtNoEntry();
      while skip
        invariant Aligned() && Pos() == old(Pos()) && (skip <==> !Valid() || dataIter == null)
        invariant skip && dataIter != null ==> dataIter.pos == |table.layout.blocks[block]|
        invariant dataIter == null || dataIter == old(dataIter) || fresh(dataIter)
        decreases |table.layout.blocks| - indexIter.pos, skip
      {
        var valid := indexIter.IsValid();
        if !valid {
          dataIter := null;
          return;
        }
        NextBlockFollows();
        indexIter.Next();
        InitDataBlock();
        if dataIter != null {
          dataIter.SeekToFirst();
        }
        skip := AtNoEntry();
      }
    }

    method AtNoEntry() returns (none: bool)
      requires Aligned()
      ensures none <==> dataIter == null || !Valid()
      ensures none && dataIter != null ==> dataIter.pos == |table.layout.blocks[block]|
    {
      hide IsTable, HandleBytes, BlockIter.Valid, Table.Valid, EntriesBefore, Flatten;
      if dataIter == null {
        return true;
      }
      var valid := dataIter.IsValid();
      none := !valid;
    }

    /** Back to the last entry of an earlier block, if this block has no earlier one. */
    method SkipEmptyDataBlocksBackward()
      requires Aligned()
      modifies this, indexIter, dataIter
      ensures Valid()
      ensures old(dataIter) != null && old(Valid()) ==> Pos() == old(Pos())
      ensures old(dataIter) == null ==> Pos() == |Entries()|
      ensures old(dataIter) != null && !old(Valid()) ==>
        Pos() == if old(block) == 0 then |Entries()| else EntriesBefore(table.layout.blocks, old(block)) - 1
      ensures dataIter == null || dataIter == old(dataIter) || fresh(dataIter)
    {
      hide IsTable, HandleBytes, BlockIter.Valid, Table.Valid, EntriesBefore, Flatten;
      ghost var b := block;
      var skip := AtNoEntry();
      while skip
        invariant Aligned() && (skip <==> !Valid() || dataIter == null)
        invariant dataIter == null || dataIter == old(dataIter) || fresh(dataIter)
        invariant !skip ==> (if old(Valid()) then Pos() == old(Pos()) else b > 0 && Pos() == EntriesBefore(table.layout.blocks, b) - 1)
        invariant skip && dataIter != null ==> dataIter == old(dataIter) && block == b
        invariant skip && dataIter == null ==> old(dataIter) == null || (!old(Valid()) && b == 0)
        decreases skip, if dataIter == null then 0 else indexIter.pos + 1
      {
        var valid := indexIter.IsValid();
        if !valid {
          dataIter := null;
          return;
        }
        if block > 0 {
          PreviousBlockEnds();
        }
        indexIter.Prev();
        InitDataBlock();
        if dataIter != null {
          dataIter.SeekToLast();
        }
        skip := AtNoEntry();
      }
    }

    lemma PreviousBlockEnds()
      requires Aligned() && dataIter != null && block > 0
      ensures table.layout.blocks[block - 1] != []
      ensures EntriesBefore(table.layout.blocks, block) ==
              EntriesBefore(table.layout.blocks, block - 1) + |table.layout.blocks[block - 1]|
    {
      hide IsTable, HandleBytes, BlockIter.Valid, Flatten;
      table.Sizes();
      FlattenAt(table.layout.blocks, block - 1);
    }

    method Next()
      requires Valid() && dataIter != null
      modifies this, indexIter, dataIter
      ensures Valid() && Pos() == old(Pos()) + 1
    {
      hide IsTable, HandleBytes, BlockIter.Valid, Table.Valid, EntriesBefore, Flatten;
      dataIter.Next();
      SkipEmptyDataBlocksForward();
    }

    method Prev()
      requires Valid() && dataIter != null
      modifies this, indexIter, dataIter
      ensures Valid() && Pos() == if old(Pos()) == 0 then |Entries()| else old(Pos()) - 1
    {
      hide IsTable, HandleBytes, BlockIter.Valid, Table.Valid, EntriesBefore, Flatten;
      FirstHasNoneBefore();
      dataIter.Prev();
      SkipEmptyDataBlocksBackward();
    }

    lemma FirstHasNoneBefore()
      requires Aligned() && dataIter != null
      ensures EntriesBefore(table.layout.blocks, block) == 0 <==> block == 0
    {
      hide IsTable, HandleBytes, BlockIter.Valid;
      if block > 0 {
        PreviousBlockEnds();
      }
    }

    method SeekToFirst()
      requires Valid()
      modifies this, indexIter, dataIter
      ensures Valid() && Pos() == 0
    {
      hide IsTable, HandleBytes, BlockIter.Valid, Table.Valid, EntriesBefore, Flatten;
      NoEntriesBeforeFirst();
      indexIter.SeekToFirst();
      InitDataBlock();
      if dataIter != null {
        dataIter.SeekToFirst();
      }
      SkipEmptyDataBlocksForward();
    }

    lemma NoEntriesBeforeFirst()
      ensures EntriesBefore(table.layout.blocks, 0) == 0
      ensures table.layout.blocks == [] ==> Entries() == []
    {
    }

    method SeekToLast()
      requires Valid()
      modifies this, indexIter, dataIter
      ensures Valid() && Pos() == if |Entries()| == 0 then 0 else |Entries()| - 1
    {
      hide IsTable, HandleBytes, BlockIter.Valid, Table.Valid, EntriesBefore, Flatten;
      NoEntriesBeforeFirst();
      indexIter.SeekToLast();
      InitDataBlock();
      if dataIter != null {
        dataIter.SeekToLast();
        LastBlockEnds();
      }
      SkipEmptyDataBlocksBackward();
    }

    lemma LastBlockEnds()
      requires Aligned() && dataIter != null
      ensures table.layout.blocks[block] != []
      ensures block == |table.layout.blocks| - 1 ==>
        |Entries()| == EntriesBefore(table.layout.blocks, block) + |table.layout.blocks[block]|
    {
      hide IsTable, HandleBytes, BlockIter.Valid, Flatten;
      table.Sizes();
      FlattenAt(table.layout.blocks, block);
      assert table.layout.blocks[..|table.layout.blocks|] == table.layout.blocks;
    }

    /** The first entry that is not before the target: the index says in which block it is, or that it is the first of the
        next one. */
    method Seek(target: Bytes)
      requires Valid()
      modifies this, indexIter, dataIter
      ensures Valid() && IsSought(Entries(), target, Pos())
    {
      hide IsTable, HandleBytes, BlockIter.Valid, Table.Valid, EntriesBefore, Flatten, Transitive, Increasing, LESS, KeyBefore, IsSought;
      LessIsTransitive();
      table.Orders();
      table.Sizes();
      indexIter.Seek(target);
      IsSoughtWhen(table.layout.index, target, indexIter.pos);
      InitDataBlock();
      if dataIter != null {
        ghost var b := block;
        table.BlockOrders(b);
        dataIter.Seek(target);
        IsSoughtWhen(table.layout.blocks[b], target, dataIter.pos);
        SoughtBlock(table.layout.index, table.layout.blocks, b, dataIter.pos, target);
      } else {
        SoughtNone(table.layout.index, table.layout.blocks, target);
      }
      SkipEmptyDataBlocksForward();
    }

    /** The end of a block is the beginning of the next one. */
    lemma NextBlockFollows()
      requires Aligned() && dataIter != null
      ensures EntriesBefore(table.layout.blocks, block + 1) == EntriesBefore(table.layout.blocks, block) + |table.layout.blocks[block]|
      ensures EntriesBefore(table.layout.blocks, |table.layout.blocks|) == |Entries()|
    {
      hide IsTable, HandleBytes, BlockIter.Valid, Table.Valid, Flatten;
      FlattenAt(table.layout.blocks, block);
      assert table.layout.blocks[..|table.layout.blocks|] == table.layout.blocks;
    }
  }

  const BYTEWISE: Order := (a, b) => Before(a, b)

  lemma BytewiseIsOrder(key: Bytes)
    ensures Transitive(BYTEWISE) && !Before(key, key)
  {
    hide Before, Rank;
    forall a, b, c | BYTEWISE(a, b) && BYTEWISE(b, c) ensures BYTEWISE(a, c) {
      RankEmbedsCompare(a, b);
      RankEmbedsCompare(b, c);
      RankEmbedsCompare(a, c);
    }
    RankEmbedsCompare(key, key);
  }

  lemma NamesDiffer(name: Bytes, name': Bytes)
    ensures FilterName(name) == FilterName(name') <==> name == name'
  {
    assert FilterName(name)[7..] == name && FilterName(name')[7..] == name';
  }

  /** Looks for the filters of this policy in the block about them. */
  method ReadMeta(file: Bytes, metaHandle: BlockHandle, paranoid: bool, policy: Option<Policy>, ghost l: Layout, ghost name: Bytes)
    returns (filter: Option<Bytes>)
    requires IsTable(file, l, name) && metaHandle == l.metaHandle
    ensures filter.Some? <==> policy.Some? && l.filterHandle.Some? && policy.value.name == name
    ensures filter.Some? ==> filter.value == l.filter
  {
    hide Stored, BlockOf, Separates, Increasing, GetFooter, GetHandle, HandleBytes, Before, FilterName, Transitive;
    filter := None;
    if policy == None {
      return;
    }
    var contents := ReadBlock(file, metaHandle, paranoid);
    ghost var entries := MetaEntries(l, name);
    var key := FilterName(policy.value.name);
    BytewiseIsOrder(key);
    NamesDiffer(policy.value.name, name);
    AtMostOneIncreases(entries);
    var iter := OpenBlock(contents.value, BYTEWISE, entries, l.interval);
    iter.Seek(key);
    var valid := iter.IsValid();
    if valid {
      var found := iter.Key();
      if found == key {
        var value := iter.Value();
        filter := ReadFilter(file, value, paranoid, l);
      }
    }
  }

  lemma AtMostOneIncreases(entries: seq<Entry>)
    requires |entries| <= 1
    ensures Increasing(entries, BYTEWISE)
  {
  }

  method ReadFilter(file: Bytes, value: Bytes, paranoid: bool, ghost l: Layout) returns (filter: Option<Bytes>)
    requires l.filterHandle.Some? && HandleFits(l.filterHandle.value) && value == HandleBytes(l.filterHandle.value)
    requires Stored(file, l.filterHandle.value, l.filter)
    ensures filter == Some(l.filter)
  {
    hide Stored, HandleBytes, GetHandle;
    HandleIsRead(l.filterHandle.value, []);
    assert value + [] == value;
    var handle := GetHandle(value);
    filter := ReadBlock(file, handle.value.value, paranoid);
  }
}
