/** Bloom filters, and the filter block of a table (util/bloom.cc, table/filter_block.cc). */
module Filters {
  import opened Wrappers
  import opened ByteBits
  import opened ByteStrings
  import opened Coding
  import opened Comparators

  // ---- bits of a byte ----

  function SetBit(b: nat, i: nat): nat {
    if i == 0 then b - b % 2 + 1 else b % 2 + 2 * SetBit(b / 2, i - 1)
  }

  lemma HalfOfSet(b: nat, i: nat)
    requires i > 0
    ensures SetBit(b, i) / 2 == SetBit(b / 2, i - 1) && SetBit(b, i) % 2 == b % 2
  {
  }

  /** Setting a bit sets it, and changes no other. */
  lemma {:induction false} SetBitSets(b: nat, i: nat, j: nat)
    ensures Bit(SetBit(b, i), j) <==> i == j || Bit(b, j)
    decreases i
  {
    if i > 0 {
      HalfOfSet(b, i);
      hide SetBit;
      if j > 0 {
        SetBitSets(b / 2, i - 1, j - 1);
      }
    }
  }

  lemma {:induction false} SetBitFits(b: nat, i: nat, n: nat)
    requires i < n && b < Two(n)
    ensures SetBit(b, i) < Two(n)
    decreases i
  {
    if i > 0 {
      SetBitFits(b / 2, i - 1, n - 1);
    }
  }

  lemma EightBits()
    ensures Two(8) == 256
  {
    assert Two(3) == 8 && Two(6) == 64;
  }

  // ---- Bloom filters ----

  type HashFunction = Bytes -> nat

  /** Probes step by the hash rotated right by 17 bits. */
  function Delta(h: nat): nat {
    (h / 0x2_0000 + h % 0x2_0000 * 0x8000) % WORD
  }

  predicate BitAt(bits: Bytes, position: nat) {
    position / 8 < |bits| && Bit(bits[position / 8], position % 8)
  }

  /** The hash of the `j`th probe. */
  function HashAt(h: nat, delta: nat, j: nat): (r: nat)
    ensures h < WORD ==> r < WORD
  {
    if j == 0 then h else (HashAt(h, delta, j - 1) + delta) % WORD
  }

  /** The probes of a hash, `k` of them, all find their bits set. */
  predicate Probes(bits: Bytes, h: nat, k: nat)
    requires |bits| > 0
  {
    forall j :: 0 <= j < k ==> BitAt(bits, HashAt(h, Delta(h), j) % (8 * |bits|))
  }

  /** Where the `j`th probe of a hash goes in an array of bytes. */
  function Position(h: nat, j: nat, bytes: nat): (p: nat)
    requires bytes > 0
    ensures p < 8 * bytes
  {
    (h + j * Delta(h)) % WORD % (8 * bytes)
  }

  lemma OneMoreTime(j: nat, d: nat)
    requires j > 0
    ensures j * d == (j - 1) * d + d
  {
  }

  lemma WrapOnce(x: nat, d: nat)
    ensures (x % WORD + d) % WORD == (x + d) % WORD
  {
  }

  lemma {:induction false} HashAtIs(h: nat, delta: nat, j: nat)
    requires h < WORD
    ensures HashAt(h, delta, j) == (h + j * delta) % WORD
  {
    if j > 0 {
      HashAtIs(h, delta, j - 1);
      OneMoreTime(j, delta);
      WrapOnce(h + (j - 1) * delta, delta);
    }
  }

  lemma DeltaParts(h: nat)
    requires h < WORD
    ensures var low, high := h % 0x2_0000, h / 0x2_0000;
            && Delta(h) == high + 0x8000 * low < WORD && h == low + 0x2_0000 * high && low < 0x2_0000 && high < 0x8000
  {
  }

  /** The step is the hash turned right by 17 places: every bit of it is the one 17 places up. */
  lemma DeltaRotates(h: nat, i: nat)
    requires h < WORD && i < 32
    ensures Delta(h) < WORD && (Bit(Delta(h), i) <==> Bit(h, (i + 17) % 32))
  {
    hide Delta, Two, Bit;
    DeltaParts(h);
    TwoIs();
    var low, high := h % 0x2_0000, h / 0x2_0000;
    if i < 15 {
      LowBit(high, low, 15, i);
      HighBit(low, high, 17, i);
    } else {
      HighBit(high, low, 15, i - 15);
      LowBit(low, high, 17, i - 15);
    }
  }

  method SetBitAt(bits: Bytes, position: nat) returns (r: Bytes)
    requires position < 8 * |bits|
    ensures |r| == |bits| && forall p: nat :: BitAt(r, p) <==> BitAt(bits, p) || p == position
  {
    var i, b := position / 8, bits[position / 8];
    EightBits();
    SetBitFits(b, position % 8, 8);
    r := bits[i := SetBit(b, position % 8)];
    forall p: nat ensures BitAt(r, p) <==> BitAt(bits, p) || p == position {
      SetBitSets(b, position % 8, p % 8);
    }
  }

  /** What a filter says of a key; a number of probes above 30 is kept for other encodings. */
  predicate Matches(hash: HashFunction, key: Bytes, filter: Bytes) {
    |filter| >= 2
    && var n := |filter| - 1;
       filter[n] > 30 || Probes(filter[..n], hash(key) % WORD, filter[n])
  }

  /** The number of probes: 0.69 for each bit, rounded down, but between 1 and 30. */
  function NumProbes(bitsPerKey: nat): (k: nat)
    ensures 1 <= k <= 30
    ensures k == 1 || k as real <= bitsPerKey as real * 0.69
    ensures k == 30 || bitsPerKey as real * 0.69 < k as real + 1.0
  {
    var k := (bitsPerKey as real * 0.69).Floor;
    if k < 1 then 1 else if k > 30 then 30 else k
  }

  /** The bytes of a filter before the last: about `bitsPerKey` bits for each key, and at least 64. */
  function FilterBytes(keys: nat, bitsPerKey: nat): (n: nat)
    ensures n >= 8 && 8 * n >= keys * bitsPerKey && (8 * n < keys * bitsPerKey + 8 || n == 8)
  {
    if keys * bitsPerKey < 64 then 8 else (keys * bitsPerKey + 7) / 8
  }

  /** Some probe of some key goes here. */
  ghost predicate Probed(hash: HashFunction, keys: seq<Bytes>, k: nat, bytes: nat, p: nat)
    requires bytes > 0
  {
    exists key, j: nat :: key in keys && j < k && p == Position(hash(key) % WORD, j, bytes)
  }

  /** The filter for these keys: the bits set are those that are probed, and the last byte is the number of probes. */
  ghost predicate IsFilter(hash: HashFunction, bitsPerKey: nat, keys: seq<Bytes>, filter: Bytes) {
    var n := FilterBytes(|keys|, bitsPerKey);
    && |filter| == n + 1 && filter[n] == NumProbes(bitsPerKey)
    && forall p: nat :: p < 8 * n ==> (filter[p / 8] / Two(p % 8) % 2 == 1 <==> Probed(hash, keys, NumProbes(bitsPerKey), n, p))
  }

  /** All probes of the key go where some key of the filter's probes. */
  ghost predicate Admits(hash: HashFunction, bitsPerKey: nat, keys: seq<Bytes>, key: Bytes) {
    var n, k := FilterBytes(|keys|, bitsPerKey), NumProbes(bitsPerKey);
    forall j: nat :: j < k ==> Probed(hash, keys, k, n, Position(hash(key) % WORD, j, n))
  }

  lemma OwnAreAdmitted(hash: HashFunction, bitsPerKey: nat, keys: seq<Bytes>, key: Bytes)
    requires key in keys
    ensures Admits(hash, bitsPerKey, keys, key)
  {
    hide Position;
  }

  /** The filter matches a key exactly when it admits it. */
  lemma FilterMatchesIff(hash: HashFunction, bitsPerKey: nat, keys: seq<Bytes>, filter: Bytes, key: Bytes)
    requires IsFilter(hash, bitsPerKey, keys, filter)
    ensures Matches(hash, key, filter) <==> Admits(hash, bitsPerKey, keys, key)
  {
    hide Position, Probed, NumProbes, FilterBytes, Delta, HashAt, Bit;
    var n, k, h := FilterBytes(|keys|, bitsPerKey), NumProbes(bitsPerKey), hash(key) % WORD;
    forall j: nat | j < k
      ensures BitAt(filter[..n], HashAt(h, Delta(h), j) % (8 * n)) <==> Probed(hash, keys, k, n, Position(h, j, n))
    {
      ProbePosition(h, j, n);
      var p := Position(h, j, n);
      BitIs(filter[p / 8], p % 8);
    }
  }

  lemma ProbePosition(h: nat, j: nat, bytes: nat)
    requires h < WORD && bytes > 0
    ensures HashAt(h, Delta(h), j) % (8 * bytes) == Position(h, j, bytes)
  {
    HashAtIs(h, Delta(h), j);
  }

  /** Sets the bits of one key. */
  method AddToFilter(bits: Bytes, h0: nat, k: nat) returns (r: Bytes)
    requires |bits| > 0 && h0 < WORD
    ensures |r| == |bits|
    ensures forall p: nat :: BitAt(r, p) <==> BitAt(bits, p) || exists j: nat :: j < k && p == Position(h0, j, |bits|)
  {
    hide BitAt, Delta, HashAt, Position;
    r := bits;
    var h, delta := h0, Delta(h0);
    HashStarts(h0, delta);
    for j := 0 to k
      invariant h == HashAt(h0, delta, j) && |r| == |bits|
      invariant forall p: nat :: BitAt(r, p) <==> BitAt(bits, p) || exists m: nat :: m < j && p == Position(h0, m, |bits|)
    {
      ProbePosition(h0, j, |bits|);
      r := SetBitAt(r, h % (8 * |r|));
      h := (h + delta) % WORD;
      HashSteps(h0, delta, j);
    }
  }

  lemma HashStarts(h: nat, delta: nat)
    ensures HashAt(h, delta, 0) == h
  {
  }

  lemma HashSteps(h: nat, delta: nat, j: nat)
    ensures HashAt(h, delta, j + 1) == (HashAt(h, delta, j) + delta) % WORD
  {
  }

  /** A filter for keys: an array of bits, and the number of probes. */
  method CreateFilter(hash: HashFunction, bitsPerKey: nat, keys: seq<Bytes>) returns (filter: Bytes)
    ensures IsFilter(hash, bitsPerKey, keys, filter)
  {
    hide BitAt, Delta, HashAt, Position;
    var k := NumProbes(bitsPerKey);
    var size := |keys| * bitsPerKey;
    if size < 64 {
      size := 64;
    }
    ghost var n := FilterBytes(|keys|, bitsPerKey);
    var bits: Bytes := seq((size + 7) / 8, _ => 0);
    NoBits(bits);
    for i := 0 to |keys|
      invariant |bits| == n
      invariant forall p: nat :: BitAt(bits, p) <==> Probed(hash, keys[..i], k, n, p)
    {
      bits := AddToFilter(bits, hash(keys[i]) % WORD, k);
      assert keys[..i + 1] == keys[..i] + [keys[i]];
    }
    assert keys[..|keys|] == keys;
    filter := bits + [k];
    forall p: nat | p < 8 * n ensures filter[p / 8] / Two(p % 8) % 2 == 1 <==> Probed(hash, keys, k, n, p) {
      BitInFront(bits, k, p);
    }
  }

  lemma NoBits(bits: Bytes)
    requires forall i :: 0 <= i < |bits| ==> bits[i] == 0
    ensures forall p: nat :: !BitAt(bits, p)
  {
    forall p: nat ensures !BitAt(bits, p) {
      BitIs(0, p % 8);
      ZeroQuotient(Two(p % 8));
    }
  }

  lemma ZeroQuotient(m: nat)
    requires m > 0
    ensures 0 / m == 0
  {
  }

  lemma BitInFront(bits: Bytes, k: byte, p: nat)
    requires p < 8 * |bits|
    ensures BitAt(bits, p) <==> (bits + [k])[p / 8] / Two(p % 8) % 2 == 1
  {
    BitIs(bits[p / 8], p % 8);
  }

  method KeyMayMatch(hash: HashFunction, key: Bytes, filter: Bytes) returns (may: bool)
    ensures may <==> Matches(hash, key, filter)
  {
    hide BitAt, Delta;
    if |filter| < 2 {
      return false;
    }
    var bits, k := filter[..|filter| - 1], filter[|filter| - 1];
    if k > 30 {
      return true;
    }
    var h0 := hash(key) % WORD;
    var h, delta := h0, Delta(h0);
    for j := 0 to k
      invariant h == HashAt(h0, delta, j) && Probes(bits, h0, j)
    {
      var position := h % (8 * |bits|);
      if !BitAt(bits, position) {
        return false;
      }
      h := (h + delta) % WORD;
    }
    return true;
  }

  // ---- the filter block ----

  const FILTER_BASE_LG: byte := 11
  const FILTER_BASE: nat := 2048 // one filter for every 2 KB of blocks

  function Flat(keys: seq<Bytes>): Bytes {
    if keys == [] then [] else Flat(keys[..|keys| - 1]) + keys[|keys| - 1]
  }

  lemma {:induction false} FlatPiece(keys: seq<Bytes>, i: nat)
    requires i < |keys|
    ensures |Flat(keys[..i])| <= |Flat(keys[..i + 1])| <= |Flat(keys)|
    ensures Flat(keys)[|Flat(keys[..i])|..|Flat(keys[..i + 1])|] == keys[i]
    decreases |keys|
  {
    var n := |keys| - 1;
    if i < n {
      FlatPiece(keys[..n], i);
      assert keys[..n][..i] == keys[..i] && keys[..n][..i + 1] == keys[..i + 1];
      var a, b := |Flat(keys[..i])|, |Flat(keys[..i + 1])|;
      assert Flat(keys)[a..b] == Flat(keys[..n])[a..b];
    } else {
      assert keys[..i + 1] == keys;
    }
  }

  /** Where the `i`th filter ends. */
  function EndOf(offsets: seq<nat>, size: nat, i: nat): nat
    requires i < |offsets|
  {
    if i + 1 < |offsets| then offsets[i + 1] else size
  }

  function UserParts(keys: seq<Bytes>): (r: seq<Bytes>)
    ensures |r| == |keys| && forall i :: 0 <= i < |r| ==> r[i] == UserPart(keys[i])
  {
    seq(|keys|, i requires 0 <= i < |keys| => UserPart(keys[i]))
  }

  /** The filter of the user keys of a group; no keys have no filter. */
  ghost predicate IsGroupFilter(hash: HashFunction, bitsPerKey: nat, keys: seq<Bytes>, filter: Bytes) {
    if keys == [] then filter == [] else IsFilter(hash, bitsPerKey, UserParts(keys), filter)
  }

  /** The filters lie one after the other, one for each group. */
  ghost predicate Serves(hash: HashFunction, bitsPerKey: nat, result: Bytes, offsets: seq<nat>, groups: seq<seq<Bytes>>) {
    && |groups| == |offsets|
    && (forall i :: 0 <= i < |offsets| ==> offsets[i] <= EndOf(offsets, |result|, i) <= |result|)
    && forall i :: 0 <= i < |offsets| ==>
      IsGroupFilter(hash, bitsPerKey, groups[i], result[offsets[i]..EndOf(offsets, |result|, i)])
  }

  lemma ServesMore(hash: HashFunction, bitsPerKey: nat, result: Bytes, offsets: seq<nat>, groups: seq<seq<Bytes>>, filter: Bytes,
                   keys: seq<Bytes>)
    requires Serves(hash, bitsPerKey, result, offsets, groups) && IsGroupFilter(hash, bitsPerKey, keys, filter)
    ensures Serves(hash, bitsPerKey, result + filter, offsets + [|result|], groups + [keys])
  {
    hide IsGroupFilter;
    var result', offsets', groups' := result + filter, offsets + [|result|], groups + [keys];
    forall i | 0 <= i < |offsets'|
      ensures IsGroupFilter(hash, bitsPerKey, groups'[i], result'[offsets'[i]..EndOf(offsets', |result'|, i)])
    {
      if i < |offsets| {
        assert EndOf(offsets', |result'|, i) == EndOf(offsets, |result|, i);
        assert result'[offsets[i]..EndOf(offsets, |result|, i)] == result[offsets[i]..EndOf(offsets, |result|, i)];
      } else {
        assert result'[|result|..|result'|] == filter;
      }
    }
  }

  /** What the filters of these groups say of a key in a block: yes if there is no filter for the block, else whether its
      group admits the user key. */
  ghost predicate GroupAdmits(hash: HashFunction, bitsPerKey: nat, groups: seq<seq<Bytes>>, blockOffset: nat, key: Bytes) {
    var i := blockOffset / FILTER_BASE;
    i >= |groups| || (groups[i] != [] && Admits(hash, bitsPerKey, UserParts(groups[i]), UserPart(key)))
  }

  lemma GroupFilterMatches(hash: HashFunction, bitsPerKey: nat, keys: seq<Bytes>, filter: Bytes, key: Bytes)
    requires IsGroupFilter(hash, bitsPerKey, keys, filter)
    ensures Matches(hash, UserPart(key), filter) <==> keys != [] && Admits(hash, bitsPerKey, UserParts(keys), UserPart(key))
  {
    if keys != [] {
      FilterMatchesIff(hash, bitsPerKey, UserParts(keys), filter, UserPart(key));
    }
  }

  /** Which filter is for the block at this offset. */
  function FilterIndex(blockOffset: nat, lg: nat): nat {
    if lg == 0 then blockOffset else FilterIndex(blockOffset / 2, lg - 1)
  }

  /** FilterBlockReader: what the filter for a block says of a key; without a usable filter the key may be there. */
  predicate MayMatch(hash: HashFunction, contents: Bytes, blockOffset: nat, key: Bytes) {
    var n := |contents|;
    if n < 5 then true
    else
      var index, last := FilterIndex(blockOffset, contents[n - 1]), DecodeFixed32(contents[n - 5..n - 1]);
      if last > n - 5 || index >= (n - 5 - last) / 4 then true
      else
        var start, limit := DecodeFixed32(contents[last + 4 * index..last + 4 * index + 4]), DecodeFixed32(contents[last + 4 * index + 4..last + 4 * index + 8]);
        if start <= limit <= last then Matches(hash, UserPart(key), contents[start..limit]) else start != limit
  }

  class FilterBlockBuilder {
    const hash: HashFunction
    const bitsPerKey: nat
    var keys: Bytes     // those for the next filter, one after the other
    var start: seq<nat> // where each begins
    var result: Bytes   // the filters made so far
    var offsets: seq<nat>
    ghost var groups: seq<seq<Bytes>> // the keys of each of them
    ghost var pending: seq<Bytes>

    ghost predicate Valid()
      reads this
    {
      && Serves(hash, bitsPerKey, result, offsets, groups)
      && keys == Flat(pending) && |start| == |pending| && forall i :: 0 <= i < |start| ==> start[i] == |Flat(pending[..i])|
    }

    /** The key is among those of the `i`th filter, made or still to be made. */
    ghost predicate Holds(i: nat, key: Bytes)
      reads this
    {
      (i < |groups| && key in groups[i]) || (i == |groups| && key in pending)
    }

    /** The groups, if there were no more keys to come. */
    ghost function AllGroups(): seq<seq<Bytes>>
      reads this
    {
      if pending == [] then groups else groups + [pending]
    }

    constructor (hash: HashFunction, bitsPerKey: nat)
      ensures Valid() && groups == [] && pending == [] && this.hash == hash && this.bitsPerKey == bitsPerKey
    {
      this.hash, this.bitsPerKey := hash, bitsPerKey;
      keys, start, result, offsets, groups, pending := [], [], [], [], [], [];
    }

    method GenerateFilter()
      requires Valid()
      modifies this
      ensures Valid() && groups == old(groups) + [old(pending)] && pending == []
    {
      hide Serves, IsFilter, Flat;
      EmptyFlat();
      if start == [] {
        ServesMore(hash, bitsPerKey, result, offsets, groups, [], pending);
        assert result + [] == result;
        offsets := offsets + [|result|];
      } else {
        var ends := start + [|keys|];
        var tmpKeys: seq<Bytes> := [];
        assert pending[..|pending|] == pending;
        for i := 0 to |start|
          invariant |tmpKeys| == i && forall j :: 0 <= j < i ==> tmpKeys[j] == UserPart(pending[j])
          modifies {}
        {
          FlatPiece(pending, i);
          var key := keys[ends[i]..ends[i + 1]];
          assert key == pending[i];
          tmpKeys := tmpKeys + [UserPart(key)];
        }
        var filter := CreateFilter(hash, bitsPerKey, tmpKeys);
        assert tmpKeys == UserParts(pending);
        ServesMore(hash, bitsPerKey, result, offsets, groups, filter, pending);
        offsets := offsets + [|result|];
        result := result + filter;
      }
      groups, pending := groups + [pending], [];
      keys, start := [], [];
    }

    /** The block that begins here belongs to the filter of its 2 KB of the file. */
    method StartBlock(blockOffset: nat)
      requires Valid() && blockOffset / FILTER_BASE >= |groups|
      modifies this
      ensures Valid() && |groups| == blockOffset / FILTER_BASE && old(groups) <= groups
      ensures forall i :: old(|groups|) <= i < |groups| ==> groups[i] == if i == old(|groups|) then old(pending) else []
      ensures pending == if |groups| > old(|groups|) then [] else old(pending)
      ensures forall i: nat, key :: old(Holds(i, key)) ==> Holds(i, key)
    {
      hide Serves, Flat;
      var index := blockOffset / FILTER_BASE;
      OneOffsetEach();
      while index > |offsets|
        invariant Valid() && |groups| == |offsets| <= index && old(groups) <= groups
        invariant forall i :: old(|groups|) <= i < |groups| ==> groups[i] == if i == old(|groups|) then old(pending) else []
        invariant pending == if |groups| > old(|groups|) then [] else old(pending)
        invariant forall i: nat, key :: old(Holds(i, key)) ==> Holds(i, key)
        decreases index - |offsets|
      {
        GenerateFilter();
        OneOffsetEach();
      }
    }

    method AddKey(key: Bytes)
      requires Valid()
      modifies this
      ensures Valid() && groups == old(groups) && pending == old(pending) + [key] && Holds(|groups|, key)
      ensures forall i: nat, k :: old(Holds(i, k)) ==> Holds(i, k)
    {
      hide Serves;
      assert (pending + [key])[..|pending|] == pending;
      forall i | 0 <= i < |pending| ensures (pending + [key])[..i] == pending[..i] {
      }
      start := start + [|keys|];
      keys := keys + key;
      pending := pending + [key];
    }

    /** Appends where the filters begin, where that list begins, and the size of a filter's range. */
    method Finish() returns (contents: Bytes)
      requires Valid()
      modifies this
      ensures |contents| < WORD ==> forall key, blockOffset: nat ::
        MayMatch(hash, contents, blockOffset, key) <==> GroupAdmits(hash, bitsPerKey, old(AllGroups()), blockOffset, key)
      ensures |contents| < WORD ==> forall i: nat, key, blockOffset: nat ::
        old(Holds(i, key)) && blockOffset / FILTER_BASE == i ==> MayMatch(hash, contents, blockOffset, key)
    {
      hide Serves, Flat, Words, MayMatch, GroupAdmits;
      if start != [] {
        GenerateFilter();
      }
      assert groups == old(AllGroups());
      OneOffsetEach();
      var arrayOffset := |result|;
      ghost var filters := result;
      EmptyWords();
      assert filters + [] == filters;
      for i := 0 to |offsets|
        invariant result == filters + Words(offsets[..i])
        modifies this`result
      {
        assert offsets[..i + 1][..i] == offsets[..i];
        WordsMore(offsets[..i], offsets[i]);
        assert offsets[..i + 1] == offsets[..i] + [offsets[i]];
        result := result + Fixed32(offsets[i] % WORD);
      }
      assert offsets[..|offsets|] == offsets;
      result := result + Fixed32(arrayOffset % WORD);
      result := result + [FILTER_BASE_LG];
      contents := result;
      WordsLength(offsets);
      if |contents| < WORD {
        forall key, blockOffset: nat
          ensures MayMatch(hash, contents, blockOffset, key) <==> GroupAdmits(hash, bitsPerKey, groups, blockOffset, key)
        {
          ServedMatches(hash, bitsPerKey, filters, offsets, groups, key, blockOffset);
        }
        forall i: nat, key, blockOffset: nat | old(Holds(i, key)) && blockOffset / FILTER_BASE == i
          ensures MayMatch(hash, contents, blockOffset, key)
        {
          HeldIsAdmitted(hash, bitsPerKey, groups, blockOffset, key);
        }
      }
    }

    lemma OneOffsetEach()
      requires Valid()
      ensures |groups| == |offsets|
    {
    }
  }

  lemma EmptyFlat()
    ensures Flat([]) == []
  {
  }

  lemma EmptyWords()
    ensures Words([]) == []
  {
  }

  lemma WordsAre(ws: seq<nat>, front: Bytes, back: Bytes, r: nat)
    requires r < |ws| && ws[r] < WORD
    ensures var s := front + Words(ws) + back;
            |front| + 4 * r + 4 <= |s| && DecodeFixed32(s[|front| + 4 * r..|front| + 4 * r + 4]) == ws[r]
  {
    hide Fixed32, DecodeFixed32;
    WordsAt(ws, r);
    SmallWord(ws[r], ws[r]);
    WordIn(front, Words(ws), back, r, ws[r]);
  }

  lemma IndexOf(blockOffset: nat)
    ensures FilterIndex(blockOffset, FILTER_BASE_LG) == blockOffset / FILTER_BASE
  {
    FourShifts(blockOffset, 7);
    FourShifts(blockOffset / 16, 3);
    assert FilterIndex(blockOffset / 16 / 16, 3) == FilterIndex(blockOffset / 16 / 16 / 2, 2)
        == FilterIndex(blockOffset / 16 / 16 / 2 / 2, 1) == FilterIndex(blockOffset / 16 / 16 / 2 / 2 / 2, 0);
    assert blockOffset / 16 / 16 == blockOffset / 256 && blockOffset / 256 / 2 == blockOffset / 512;
    assert blockOffset / 512 / 2 == blockOffset / 1024 && blockOffset / 1024 / 2 == blockOffset / 2048;
  }

  lemma FourShifts(o: nat, lg: nat)
    ensures FilterIndex(o, lg + 4) == FilterIndex(o / 16, lg)
  {
    assert FilterIndex(o, lg + 4) == FilterIndex(o / 2, lg + 3) == FilterIndex(o / 2 / 2, lg + 2);
    assert FilterIndex(o / 2 / 2, lg + 2) == FilterIndex(o / 2 / 2 / 2, lg + 1) == FilterIndex(o / 2 / 2 / 2 / 2, lg);
    assert o / 2 / 2 == o / 4 && o / 4 / 2 == o / 8 && o / 8 / 2 == o / 16;
  }

  function FilterBlock(filters: Bytes, offsets: seq<nat>): Bytes {
    filters + Words(offsets) + Fixed32(|filters| % WORD) + [FILTER_BASE_LG]
  }

  /** The offset of the list of offsets is the last word of that list. */
  lemma FilterBlockIs(filters: Bytes, offsets: seq<nat>)
    ensures FilterBlock(filters, offsets) == filters + Words(offsets + [|filters|]) + [FILTER_BASE_LG]
    ensures |FilterBlock(filters, offsets)| == |filters| + 4 * |offsets| + 5
  {
    WordsLength(offsets);
    WordsMore(offsets, |filters|);
    hide Words, Fixed32;
    Associate(filters, Words(offsets), Fixed32(|filters| % WORD));
  }

  /** Each word of the list is where a filter begins, or the last one ends. */
  lemma FilterBlockWord(filters: Bytes, offsets: seq<nat>, r: nat)
    requires r <= |offsets| && |filters| < WORD && (r < |offsets| ==> offsets[r] <= |filters|)
    ensures var s, at := FilterBlock(filters, offsets), |filters| + 4 * r;
            at + 4 <= |s| && DecodeFixed32(s[at..at + 4]) == if r < |offsets| then offsets[r] else |filters|
  {
    hide Words, Fixed32, DecodeFixed32, FilterBlock;
    FilterBlockIs(filters, offsets);
    WordsAre(offsets + [|filters|], filters, [FILTER_BASE_LG], r);
  }

  lemma HeldIsAdmitted(hash: HashFunction, bitsPerKey: nat, groups: seq<seq<Bytes>>, blockOffset: nat, key: Bytes)
    requires var i := blockOffset / FILTER_BASE; i < |groups| && key in groups[i]
    ensures GroupAdmits(hash, bitsPerKey, groups, blockOffset, key)
  {
    var keys := groups[blockOffset / FILTER_BASE];
    var j :| 0 <= j < |keys| && keys[j] == key;
    assert UserParts(keys)[j] in UserParts(keys);
    OwnAreAdmitted(hash, bitsPerKey, UserParts(keys), UserPart(key));
  }

  /** The reader finds the filter for a block where the builder put it. */
  lemma ServedMatches(hash: HashFunction, bitsPerKey: nat, filters: Bytes, offsets: seq<nat>, groups: seq<seq<Bytes>>, key: Bytes,
                      blockOffset: nat)
    requires Serves(hash, bitsPerKey, filters, offsets, groups) && |filters| + 4 * |offsets| + 5 < WORD
    ensures MayMatch(hash, FilterBlock(filters, offsets), blockOffset, key) <==>
            GroupAdmits(hash, bitsPerKey, groups, blockOffset, key)
  {
    hide DecodeFixed32, FilterIndex, FilterBlock, Serves, MayMatch, Admits;
    IndexOf(blockOffset);
    var i, m := blockOffset / FILTER_BASE, |offsets|;
    FilterBlockIs(filters, offsets);
    LastByte(filters, offsets);
    FilterBlockWord(filters, offsets, m);
    OneForEach(hash, bitsPerKey, filters, offsets, groups);
    if i < m {
      ServedFound(hash, bitsPerKey, filters, offsets, groups, key, blockOffset, i);
    } else {
      FilterNotThere(hash, FilterBlock(filters, offsets), blockOffset, key, |filters|, m, i);
    }
  }

  lemma OneForEach(hash: HashFunction, bitsPerKey: nat, filters: Bytes, offsets: seq<nat>, groups: seq<seq<Bytes>>)
    requires Serves(hash, bitsPerKey, filters, offsets, groups)
    ensures |groups| == |offsets|
  {
  }

  lemma LastByte(filters: Bytes, offsets: seq<nat>)
    ensures var s := FilterBlock(filters, offsets); s[|s| - 1] == FILTER_BASE_LG && filters <= s
  {
    hide Words, Fixed32;
  }

  lemma ServedFound(hash: HashFunction, bitsPerKey: nat, filters: Bytes, offsets: seq<nat>, groups: seq<seq<Bytes>>, key: Bytes,
                    blockOffset: nat, i: nat)
    requires Serves(hash, bitsPerKey, filters, offsets, groups) && |filters| + 4 * |offsets| + 5 < WORD
    requires i < |offsets| && FilterIndex(blockOffset, FILTER_BASE_LG) == blockOffset / FILTER_BASE == i
    ensures MayMatch(hash, FilterBlock(filters, offsets), blockOffset, key) <==>
            GroupAdmits(hash, bitsPerKey, groups, blockOffset, key)
  {
    hide DecodeFixed32, Matches, FilterIndex, FilterBlock, MayMatch, IsGroupFilter, Admits;
    var start, limit, m := offsets[i], EndOf(offsets, |filters|, i), |offsets|;
    assert i + 1 < m ==> offsets[i + 1] <= EndOf(offsets, |filters|, i + 1);
    FilterBlockIs(filters, offsets);
    LastByte(filters, offsets);
    FilterBlockWord(filters, offsets, m);
    FilterBlockWord(filters, offsets, i);
    FilterBlockWord(filters, offsets, i + 1);
    SameSlice(FilterBlock(filters, offsets), filters, start, limit);
    GroupFilterMatches(hash, bitsPerKey, groups[i], filters[start..limit], key);
    hide Serves;
    FilterFound(hash, FilterBlock(filters, offsets), blockOffset, key, |filters|, m, i, start, limit);
  }

  lemma FilterNotThere(hash: HashFunction, contents: Bytes, blockOffset: nat, key: Bytes, last: nat, m: nat, i: nat)
    requires |contents| == last + 4 * m + 5 && m <= i && contents[|contents| - 1] == FILTER_BASE_LG
    requires DecodeFixed32(contents[last + 4 * m..last + 4 * m + 4]) == last && FilterIndex(blockOffset, FILTER_BASE_LG) == i
    ensures MayMatch(hash, contents, blockOffset, key)
  {
    hide DecodeFixed32, Matches, FilterIndex;
    assert (|contents| - 5 - last) / 4 == m;
  }

  lemma SameSlice(contents: Bytes, filters: Bytes, start: nat, limit: nat)
    requires filters <= contents && start <= limit <= |filters|
    ensures contents[start..limit] == filters[start..limit]
  {
  }

  lemma FilterFound(hash: HashFunction, contents: Bytes, blockOffset: nat, key: Bytes, last: nat, m: nat, i: nat, start: nat, limit: nat)
    requires |contents| == last + 4 * m + 5 && i < m && contents[|contents| - 1] == FILTER_BASE_LG
    requires DecodeFixed32(contents[last + 4 * m..last + 4 * m + 4]) == last
    requires DecodeFixed32(contents[last + 4 * i..last + 4 * i + 4]) == start <= limit <= last
    requires DecodeFixed32(contents[last + 4 * (i + 1)..last + 4 * (i + 1) + 4]) == limit
    requires FilterIndex(blockOffset, FILTER_BASE_LG) == i
    ensures MayMatch(hash, contents, blockOffset, key) <==> Matches(hash, UserPart(key), contents[start..limit])
  {
    hide DecodeFixed32, Matches, FilterIndex;
    assert (|contents| - 5 - last) / 4 == m;
  }
}
