/** Prefix-compressed blocks: building one, and moving through one (table/block_builder.cc, table/block.cc). */
module Blocks {
  import opened Wrappers
  import opened ByteStrings
  import opened Coding

  datatype Entry = Entry(key: Bytes, value: Bytes)

  /** Whether one key comes before another. */
  type Order = (Bytes, Bytes) -> bool

  ghost predicate Transitive(less: Order) {
    forall a, b, c :: less(a, b) && less(b, c) ==> less(a, c)
  }

  ghost predicate Increasing(entries: seq<Entry>, less: Order) {
    forall i, j :: 0 <= i < j < |entries| ==> less(entries[i].key, entries[j].key)
  }

  // ---- the format ----

  /** The length of the longest common prefix. */
  function Common(a: Bytes, b: Bytes): (n: nat)
    ensures n <= |a| && n <= |b| && a[..n] == b[..n]
    ensures n < |a| && n < |b| ==> a[n] != b[n]
  {
    if a == [] || b == [] || a[0] != b[0] then 0
    else
      var n := Common(a[1..], b[1..]);
      assert a[..n + 1] == [a[0]] + a[1..][..n] && b[..n + 1] == [b[0]] + b[1..][..n];
      n + 1
  }

  /** An entry that leaves out the first `shared` bytes of its key. */
  function EntryBytes(e: Entry, shared: nat): Bytes
    requires shared <= |e.key|
  {
    Varint(shared % WORD) + (Varint((|e.key| - shared) % WORD) + (Varint(|e.value| % WORD) + (e.key[shared..] + e.value)))
  }

  /** Every `interval`th entry is at a restart point. */
  predicate IsStart(i: nat, interval: nat)
    requires interval > 0
  {
    i % interval == 0
  }

  /** How much the `i`th entry shares with the one before: nothing at a restart point. */
  function SharedAt(entries: seq<Entry>, interval: nat, i: nat): (n: nat)
    requires interval > 0 && i < |entries|
    ensures n <= |entries[i].key| && (i > 0 ==> n <= |entries[i - 1].key| && entries[i - 1].key[..n] == entries[i].key[..n])
    ensures if i == 0 || IsStart(i, interval) then n == 0
            else n < |entries[i - 1].key| && n < |entries[i].key| ==> entries[i - 1].key[n] != entries[i].key[n]
  {
    if i == 0 || IsStart(i, interval) then 0 else Common(entries[i - 1].key, entries[i].key)
  }

  function Buffer(entries: seq<Entry>, interval: nat): Bytes
    requires interval > 0
  {
    if entries == [] then []
    else
      var n := |entries| - 1;
      Buffer(entries[..n], interval) + EntryBytes(entries[n], SharedAt(entries, interval, n))
  }

  /** Where the `i`th entry begins. */
  function Offset(entries: seq<Entry>, interval: nat, i: nat): nat
    requires interval > 0 && i <= |entries|
  {
    |Buffer(entries[..i], interval)|
  }

  lemma SharedAtPrefix(entries: seq<Entry>, interval: nat, n: nat, i: nat)
    requires interval > 0 && i < n <= |entries|
    ensures SharedAt(entries[..n], interval, i) == SharedAt(entries, interval, i)
  {
  }

  /** Entries do not depend on what follows them. */
  lemma {:induction false} BufferPrefix(entries: seq<Entry>, interval: nat, i: nat)
    requires interval > 0 && i <= |entries|
    ensures Offset(entries, interval, i) <= |Buffer(entries, interval)|
    ensures Buffer(entries, interval)[..Offset(entries, interval, i)] == Buffer(entries[..i], interval)
    decreases |entries|
  {
    hide EntryBytes, SharedAt;
    if i < |entries| {
      var n := |entries| - 1;
      BufferPrefix(entries[..n], interval, i);
      assert entries[..n][..i] == entries[..i];
    } else {
      assert entries[..i] == entries;
    }
  }

  lemma OffsetStep(entries: seq<Entry>, interval: nat, i: nat)
    requires interval > 0 && i < |entries|
    ensures Buffer(entries[..i + 1], interval) ==
            Buffer(entries[..i], interval) + EntryBytes(entries[i], SharedAt(entries, interval, i))
    ensures Offset(entries, interval, i) + 3 <= Offset(entries, interval, i + 1)
  {
    assert entries[..i + 1][..i] == entries[..i];
    SharedAtPrefix(entries, interval, i + 1, i);
  }

  /** The bytes of the `i`th entry, in their place. */
  lemma EntryIsThere(entries: seq<Entry>, interval: nat, i: nat)
    requires interval > 0 && i < |entries|
    ensures Offset(entries, interval, i) < Offset(entries, interval, i + 1) <= |Buffer(entries, interval)|
    ensures Buffer(entries, interval)[Offset(entries, interval, i)..Offset(entries, interval, i + 1)] ==
            EntryBytes(entries[i], SharedAt(entries, interval, i))
  {
    hide Buffer, EntryBytes, SharedAt;
    OffsetStep(entries, interval, i);
    BufferPrefix(entries, interval, i + 1);
    var all, a, b := Buffer(entries, interval), Buffer(entries[..i], interval), Buffer(entries[..i + 1], interval);
    assert all[|a|..|b|] == all[..|b|][|a|..];
  }

  lemma {:induction false} OffsetsIncrease(entries: seq<Entry>, interval: nat, i: nat, j: nat)
    requires interval > 0 && i < j <= |entries|
    ensures Offset(entries, interval, i) < Offset(entries, interval, j)
    decreases j
  {
    hide Buffer;
    OffsetStep(entries, interval, j - 1);
    if i < j - 1 {
      OffsetsIncrease(entries, interval, i, j - 1);
    }
  }

  // ---- decoding one entry ----

  datatype Header = Header(shared: nat, nonShared: nat, valueLength: nat, size: nat)

  function ThreeVarints(s: Bytes): Option<Header> {
    match GetVarint(s, 5, WORD)
    case None => None
    case Some(a) =>
      match GetVarint(s[a.size..], 5, WORD)
      case None => None
      case Some(b) =>
        match GetVarint(s[a.size + b.size..], 5, WORD)
        case None => None
        case Some(c) => Some(Header(a.value, b.value, c.value, a.size + b.size + c.size))
  }

  /** DecodeEntry: three small numbers take a byte each; the lengths are added as 32-bit words. */
  function DecodeEntry(s: Bytes): (r: Option<Header>)
  {
    if |s| < 3 then None
    else
      var h := if s[0] < 128 && s[1] < 128 && s[2] < 128 then Some(Header(s[0], s[1], s[2], 3)) else ThreeVarints(s);
      if h == None || |s| - h.value.size < (h.value.nonShared + h.value.valueLength) % WORD then None else h
  }

  lemma VarintHead(v: nat, rest: Bytes)
    ensures (Varint(v) + rest)[0] < 128 <==> v < 128
    ensures v < 128 ==> Varint(v) == [v] && (Varint(v) + rest)[1..] == rest
  {
  }

  lemma VarintThere(v: nat, rest: Bytes)
    requires v < WORD
    ensures var s := Varint(v) + rest;
            GetVarint(s, 5, WORD) == Some(Parsed(v, |Varint(v)|)) && s[|Varint(v)|..] == rest
  {
    Varint32RoundTrip(v, rest);
  }

  lemma DropTwice(s: Bytes, a: nat, b: nat)
    requires a + b <= |s|
    ensures s[a + b..] == s[a..][b..]
  {
  }

  lemma ThreeAreRead(a: nat, b: nat, c: nat, rest: Bytes)
    requires a < WORD && b < WORD && c < WORD
    ensures ThreeVarints(Varint(a) + (Varint(b) + (Varint(c) + rest))) ==
            Some(Header(a, b, c, |Varint(a)| + |Varint(b)| + |Varint(c)|))
  {
    hide Varint, GetVarint;
    var s3 := Varint(c) + rest;
    var s2 := Varint(b) + s3;
    var s := Varint(a) + s2;
    VarintThere(a, s2);
    VarintThere(b, s3);
    VarintThere(c, rest);
    DropTwice(s, |Varint(a)|, |Varint(b)|);
  }

  /** The first three bytes are small exactly if the three numbers are, and are those numbers then. */
  lemma FirstThree(a: nat, b: nat, c: nat, rest: Bytes)
    ensures var s := Varint(a) + (Varint(b) + (Varint(c) + rest));
            && |s| == |Varint(a)| + |Varint(b)| + |Varint(c)| + |rest| >= 3
            && (s[0] < 128 && s[1] < 128 && s[2] < 128 ==> s[0] == a && s[1] == b && s[2] == c && |Varint(a)| + |Varint(b)| + |Varint(c)| == 3)
  {
    var s3 := Varint(c) + rest;
    var s2 := Varint(b) + s3;
    var s := Varint(a) + s2;
    VarintHead(a, s2);
    VarintHead(b, s3);
    VarintHead(c, rest);
    hide Varint;
    if a < 128 {
      assert s[1] == s[1..][0] == s2[0];
      if b < 128 {
        assert s[2] == s2[1] == s2[1..][0] == s3[0];
      }
    }
  }

  lemma HeaderIsDecoded(a: nat, b: nat, c: nat, rest: Bytes)
    requires a < WORD && b + c < WORD && b + c <= |rest|
    ensures DecodeEntry(Varint(a) + (Varint(b) + (Varint(c) + rest))) ==
            Some(Header(a, b, c, |Varint(a)| + |Varint(b)| + |Varint(c)|))
  {
    hide Varint, ThreeVarints, DecodeEntry;
    FirstThree(a, b, c, rest);
    ThreeAreRead(a, b, c, rest);
    DecodesTo(Varint(a) + (Varint(b) + (Varint(c) + rest)), Header(a, b, c, |Varint(a)| + |Varint(b)| + |Varint(c)|));
  }

  lemma DecodesTo(s: Bytes, h: Header)
    requires |s| >= 3 && ThreeVarints(s) == Some(h)
    requires s[0] < 128 && s[1] < 128 && s[2] < 128 ==> s[0] == h.shared && s[1] == h.nonShared && s[2] == h.valueLength && h.size == 3
    requires h.nonShared + h.valueLength < WORD && h.size + h.nonShared + h.valueLength <= |s|
    ensures DecodeEntry(s) == Some(h)
  {
    hide ThreeVarints;
  }

  lemma EntrySplit(e: Entry, shared: nat, rest: Bytes)
    requires shared <= |e.key| && |e.key| + |e.value| < WORD
    ensures EntryBytes(e, shared) + rest ==
            Varint(shared) + (Varint(|e.key| - shared) + (Varint(|e.value|) + (e.key[shared..] + (e.value + rest))))
    ensures |EntryBytes(e, shared)| ==
            |Varint(shared)| + |Varint(|e.key| - shared)| + |Varint(|e.value|)| + (|e.key| - shared) + |e.value|
  {
    hide Varint;
  }

  lemma SlicesOf(a: Bytes, b: Bytes, c: Bytes, key: Bytes, value: Bytes, rest: Bytes)
    ensures var s, n := a + (b + (c + (key + (value + rest)))), |a| + |b| + |c|;
            s[n..n + |key|] == key && s[n + |key|..n + |key| + |value|] == value
  {
    var s, n := a + (b + (c + (key + (value + rest)))), |a| + |b| + |c|;
    assert s == (a + b + c) + (key + (value + rest));
  }

  /** An entry is decoded as what it was made of, whatever follows. */
  lemma EntryIsDecoded(e: Entry, shared: nat, rest: Bytes)
    requires shared <= |e.key| && |e.key| + |e.value| < WORD
    ensures var s, h := EntryBytes(e, shared) + rest, DecodeEntry(EntryBytes(e, shared) + rest);
            && h.Some? && h.value.shared == shared && h.value.nonShared == |e.key| - shared && h.value.valueLength == |e.value|
            && h.value.size + h.value.nonShared + h.value.valueLength == |EntryBytes(e, shared)|
            && s[h.value.size..h.value.size + h.value.nonShared] == e.key[shared..]
            && s[h.value.size + h.value.nonShared..|EntryBytes(e, shared)|] == e.value
  {
    hide Varint, DecodeEntry, EntryBytes;
    var key := e.key[shared..];
    EntrySplit(e, shared, rest);
    HeaderIsDecoded(shared, |key|, |e.value|, key + (e.value + rest));
    SlicesOf(Varint(shared), Varint(|key|), Varint(|e.value|), key, e.value, rest);
  }

  // ---- restart points ----

  /** The entries that restart points are at: there is always one at the beginning, and one every `interval` entries. */
  function Starts(n: nat, interval: nat): (starts: seq<nat>)
    requires interval > 0
    ensures |starts| > 0 && starts[0] == 0 && forall r :: 0 <= r < |starts| ==> starts[r] <= n
  {
    if n == 0 then [0]
    else Starts(n - 1, interval) + if n - 1 > 0 && IsStart(n - 1, interval) then [n - 1] else []
  }

  lemma {:induction false} StartsAre(n: nat, interval: nat)
    requires interval > 0
    ensures var starts := Starts(n, interval);
            && (forall r, q :: 0 <= r < q < |starts| ==> starts[r] < starts[q])
            && (forall r :: 0 <= r < |starts| ==> IsStart(starts[r], interval) && (starts[r] < n || starts[r] == 0))
  {
    assert IsStart(0, interval);
    hide IsStart;
    if n > 0 {
      StartsAre(n - 1, interval);
      var before, starts := Starts(n - 1, interval), Starts(n, interval);
      StartsMore(n - 1, interval);
      hide Starts;
      forall r, q | 0 <= r < q < |starts| ensures starts[r] < starts[q] {
        if q == |before| {
          assert starts[r] == before[r];
        }
      }
    }
  }

  lemma StartsMore(n: nat, interval: nat)
    requires interval > 0
    ensures Starts(n + 1, interval) == Starts(n, interval) + if n > 0 && IsStart(n, interval) then [n] else []
  {
  }

  lemma RemainderAfter(a: nat, k: nat, m: nat)
    requires m > 0 && a % m == 0
    ensures (a + k) % m == k % m
  {
    assert a == m * (a / m);
    SameRemainder(a + k, k, a / m, m);
  }

  /** The last restart point is at most an interval back, and exactly an interval back when the next is due. */
  lemma {:induction false} LastStart(n: nat, interval: nat)
    requires interval > 0 && n > 0
    ensures var last := Starts(n, interval)[|Starts(n, interval)| - 1];
            last < n <= last + interval && (IsStart(n, interval) <==> n == last + interval)
  {
    hide IsStart, Starts;
    StartsAre(n, interval);
    StartsMore(n - 1, interval);
    if n > 1 {
      LastStart(n - 1, interval);
    }
    var last := Starts(n, interval)[|Starts(n, interval)| - 1];
    StartAfter(last, n - last, interval);
  }

  lemma StartAfter(last: nat, k: nat, interval: nat)
    requires interval > 0 && IsStart(last, interval) && 0 < k
    ensures k < interval ==> !IsStart(last + k, interval)
    ensures IsStart(last + interval, interval)
  {
    RemainderAfter(last, k, interval);
    RemainderAfter(last, interval, interval);
  }

  /** Where the restart points are in the block, as 32-bit words. */
  function Restarts(entries: seq<Entry>, interval: nat): (rs: seq<nat>)
    requires interval > 0
    ensures |rs| == |Starts(|entries|, interval)|
  {
    var starts := Starts(|entries|, interval);
    seq(|starts|, r requires 0 <= r < |starts| => Offset(entries, interval, starts[r]) % WORD)
  }

  /** A finished block: the entries, the restart points, and their number. */
  function BlockOf(entries: seq<Entry>, interval: nat): Bytes
    requires interval > 0
  {
    Buffer(entries, interval) + Words(Restarts(entries, interval)) + Fixed32(|Restarts(entries, interval)| % WORD)
  }

  lemma RestartsMore(entries: seq<Entry>, interval: nat, e: Entry)
    requires interval > 0
    ensures var n := |entries|;
            Restarts(entries + [e], interval) ==
            Restarts(entries, interval) + if n > 0 && IsStart(n, interval) then [|Buffer(entries, interval)| % WORD] else []
  {
    var n, entries' := |entries|, entries + [e];
    var starts := Starts(n, interval);
    assert entries'[..n] == entries;
    hide Buffer, IsStart;
    forall r | 0 <= r < |starts| ensures entries'[..starts[r]] == entries[..starts[r]] {
    }
  }

  method SharedLength(lastKey: Bytes, key: Bytes) returns (shared: nat)
    ensures shared == Common(lastKey, key)
    ensures shared <= |lastKey| && shared <= |key| && lastKey[..shared] == key[..shared]
  {
    shared := 0;
    var minLength := if |lastKey| < |key| then |lastKey| else |key|;
    while shared < minLength && lastKey[shared] == key[shared]
      invariant shared <= minLength && lastKey[..shared] == key[..shared]
    {
      shared := shared + 1;
    }
    CommonIs(lastKey, key, shared);
  }

  lemma CommonNothing(key: Bytes)
    ensures Common([], key) == 0
  {
  }

  /** The three lengths, what is left of the key, and the value. */
  method AppendEntry(buffer: Bytes, key: Bytes, value: Bytes, shared: nat) returns (r: Bytes)
    requires shared <= |key|
    ensures r == buffer + EntryBytes(Entry(key, value), shared)
  {
    InParts(buffer, Entry(key, value), shared);
    hide Varint, EntryBytes;
    r := buffer + Varint(shared % WORD);
    r := r + Varint((|key| - shared) % WORD);
    r := r + Varint(|value| % WORD);
    r := r + key[shared..];
    r := r + value;
  }

  ghost predicate Built(entries: seq<Entry>, interval: nat, restarts: seq<nat>, counter: nat, lastKey: Bytes)
    requires interval > 0
  {
    && restarts == Restarts(entries, interval)
    && lastKey == (if entries == [] then [] else entries[|entries| - 1].key)
    && var starts := Starts(|entries|, interval);
       starts[|starts| - 1] + counter == |entries|
  }

  lemma BuiltMore(entries: seq<Entry>, interval: nat, restarts: seq<nat>, counter: nat, lastKey: Bytes, e: Entry)
    requires interval > 0 && Built(entries, interval, restarts, counter, lastKey)
    ensures var entries', due := entries + [e], counter >= interval;
            var shared := if due then 0 else Common(lastKey, e.key);
            && Buffer(entries', interval) == Buffer(entries, interval) + EntryBytes(e, shared)
            && Built(entries', interval, if due then restarts + [|Buffer(entries, interval)| % WORD] else restarts,
                     if due then 1 else counter + 1, e.key)
  {
    hide Buffer, EntryBytes, Common, Restarts, IsStart, SharedAt;
    var n := |entries|;
    CounterMore(n, interval, counter);
    AddMore(entries, interval, e);
    RestartsMore(entries, interval, e);
    CommonNothing(e.key);
    hide Starts;
    if n > 0 && counter >= interval {
      assert IsStart(n, interval);
    }
  }

  lemma CounterMore(n: nat, interval: nat, counter: nat)
    requires interval > 0 && Starts(n, interval)[|Starts(n, interval)| - 1] + counter == n
    ensures n == 0 ==> counter == 0
    ensures n > 0 ==> (counter >= interval <==> IsStart(n, interval))
    ensures Starts(n + 1, interval)[|Starts(n + 1, interval)| - 1] + (if counter >= interval then 1 else counter + 1) == n + 1
  {
    DueWhen(n, interval, counter);
    StartsMore(n, interval);
    hide Starts, IsStart;
  }

  lemma BufferEmpty(entries: seq<Entry>, interval: nat)
    requires interval > 0
    ensures Buffer(entries, interval) == [] <==> entries == []
  {
    if entries != [] {
      OffsetStep(entries, interval, |entries| - 1);
      assert entries[..|entries|] == entries;
    }
  }

  lemma BuiltNothing(interval: nat)
    requires interval > 0
    ensures Built([], interval, [0], 0, []) && Buffer([], interval) == []
  {
  }

  class BlockBuilder {
    const interval: nat
    var buffer: Bytes
    var restarts: seq<nat>
    var counter: nat // entries since the last restart point
    var finished: bool
    var lastKey: Bytes
    ghost var entries: seq<Entry>

    ghost predicate Valid()
      reads this
    {
      && interval > 0 && buffer == (if finished then BlockOf(entries, interval) else Buffer(entries, interval))
      && Built(entries, interval, restarts, counter, lastKey)
    }

    constructor (interval: nat)
      requires interval >= 1
      ensures Valid() && !finished && entries == [] && this.interval == interval
    {
      this.interval := interval;
      buffer, restarts, counter, finished, lastKey, entries := [], [0], 0, false, [], [];
    }

    method Reset()
      requires Valid()
      modifies this
      ensures Valid() && !finished && entries == []
    {
      BuiltNothing(interval);
      hide Built, Buffer, BlockOf;
      buffer, restarts, counter, finished, lastKey, entries := [], [0], 0, false, [], [];
    }

    method IsEmpty() returns (empty: bool)
      requires Valid() && !finished
      ensures empty <==> entries == []
    {
      hide Built, BlockOf, EntryBytes;
      BufferEmpty(entries, interval);
      empty := buffer == [];
    }

    /** How long the block would be if it were finished now. */
    method CurrentSizeEstimate() returns (size: nat)
      requires Valid() && !finished
      ensures size == |BlockOf(entries, interval)|
    {
      WordsLength(restarts);
      hide Buffer, Restarts, Words, Fixed32, Starts;
      size := |buffer| + |restarts| * 4 + 4;
    }

    /** Adds an entry: what its key shares with the last one is left out, unless a restart point is due. */
    method Add(key: Bytes, value: Bytes)
      requires Valid() && !finished
      modifies this
      ensures Valid() && !finished && entries == old(entries) + [Entry(key, value)]
    {
      hide Buffer, EntryBytes, Common, BlockOf, Built;
      ghost var e := Entry(key, value);
      BuiltMore(entries, interval, restarts, counter, lastKey, e);
      var shared: nat := 0;
      if counter < interval {
        shared := SharedLength(lastKey, key);
      } else {
        restarts := restarts + [|buffer| % WORD];
        counter := 0;
      }
      buffer := AppendEntry(buffer, key, value, shared);
      lastKey := lastKey[..shared] + key[shared..];
      assert lastKey == key;
      counter := counter + 1;
      entries := entries + [e];
    }

    /** Appends the restart points and their number. */
    method Finish() returns (block: Bytes)
      requires Valid() && !finished
      modifies this
      ensures Valid() && finished && entries == old(entries) && block == BlockOf(entries, interval)
    {
      hide Buffer, Restarts, Starts;
      assert buffer + [] == buffer;
      for i := 0 to |restarts|
        invariant buffer == Buffer(entries, interval) + Words(restarts[..i])
        modifies this`buffer
      {
        assert restarts[..i + 1][..i] == restarts[..i];
        buffer := buffer + Fixed32(restarts[i] % WORD);
      }
      assert restarts[..|restarts|] == restarts;
      buffer := buffer + Fixed32(|restarts| % WORD);
      finished := true;
      return buffer;
    }
  }

  lemma InParts(buffer: Bytes, e: Entry, shared: nat)
    requires shared <= |e.key|
    ensures buffer + Varint(shared % WORD) + Varint((|e.key| - shared) % WORD) + Varint(|e.value| % WORD) + e.key[shared..] + e.value
            == buffer + EntryBytes(e, shared)
  {
    hide Varint;
  }

  /** A restart point is due exactly when the counter has reached the interval. */
  lemma DueWhen(n: nat, interval: nat, counter: nat)
    requires interval > 0 && Starts(n, interval)[|Starts(n, interval)| - 1] + counter == n
    ensures n == 0 ==> counter == 0
    ensures n > 0 ==> (counter >= interval <==> IsStart(n, interval))
  {
    if n > 0 {
      LastStart(n, interval);
    }
  }

  lemma SameSoFar(a: Bytes, b: Bytes, n: nat)
    requires n <= |a| && n <= |b| && a[..n] == b[..n]
    ensures forall k :: 0 <= k < n ==> a[k] == b[k]
  {
    forall k | 0 <= k < n ensures a[k] == b[k] {
      assert a[..n][k] == b[..n][k];
    }
  }

  lemma CommonIs(a: Bytes, b: Bytes, n: nat)
    requires n <= |a| && n <= |b| && a[..n] == b[..n] && (n < |a| && n < |b| ==> a[n] != b[n])
    ensures Common(a, b) == n
  {
    var m := Common(a, b);
    SameSoFar(a, b, n);
    SameSoFar(a, b, m);
  }

  lemma AddMore(entries: seq<Entry>, interval: nat, e: Entry)
    requires interval > 0
    ensures var n := |entries|;
            && SharedAt(entries + [e], interval, n) <= |e.key|
            && Buffer(entries + [e], interval) == Buffer(entries, interval) + EntryBytes(e, SharedAt(entries + [e], interval, n))
            && SharedAt(entries + [e], interval, n) == if n == 0 || IsStart(n, interval) then 0 else Common(entries[n - 1].key, e.key)
  {
    assert (entries + [e])[..|entries|] == entries;
  }

  // ---- opening a block ----

  datatype Opened = Corrupt | Empty | Ready(restarts: nat, numRestarts: nat)

  /** Block's constructor and NewIterator: the number of restart points is the last word, and there must be room for them. */
  function Open(data: Bytes): Opened {
    if |data| < 4 then Corrupt
    else
      var num := DecodeFixed32(data[|data| - 4..]);
      if num > (|data| - 4) / 4 then Corrupt
      else if num == 0 then Empty
      else Ready(|data| - (1 + num) * 4, num)
  }

  /** A block is as its last word says, and refused only if there is no room for as many restart points. */
  lemma OpenedParts(data: Bytes)
    ensures match Open(data)
            case Ready(restarts, n) => 0 < n < WORD && restarts + 4 * n + 4 == |data| && data[|data| - 4..] == Fixed32(n)
            case Empty => |data| >= 4 && data[|data| - 4..] == Fixed32(0)
            case Corrupt => forall n: nat | n < WORD && |data| >= 4 && data[|data| - 4..] == Fixed32(n) :: 4 * n + 4 > |data|
  {
    if |data| >= 4 {
      var last := data[|data| - 4..];
      Fixed32OfDecoded(last);
      forall n: nat | n < WORD && last == Fixed32(n) ensures n == DecodeFixed32(last) {
        Fixed32RoundTrip(n);
      }
    }
    hide Fixed32, DecodeFixed32;
  }

  /** A finished block that is small enough for 32-bit offsets. */
  ghost predicate IsBlock(data: Bytes, restarts: nat, numRestarts: nat, entries: seq<Entry>, interval: nat) {
    && interval > 0 && data == BlockOf(entries, interval) && |data| < WORD
    && restarts == |Buffer(entries, interval)| && numRestarts == |Starts(|entries|, interval)|
  }

  /** Opening a finished block finds where its restart points are and how many. */
  lemma BlockOpens(data: Bytes, restarts: nat, numRestarts: nat, entries: seq<Entry>, interval: nat)
    requires IsBlock(data, restarts, numRestarts, entries, interval)
    ensures Open(data) == Ready(restarts, numRestarts)
  {
    hide DecodeFixed32, Buffer, Restarts, Words, Starts, Open;
    var rs := Restarts(entries, interval);
    WordsAt(rs, 0);
    OpensAs(Buffer(entries, interval), Words(rs), |rs|);
  }

  lemma OpensAs(buffer: Bytes, points: Bytes, n: nat)
    requires 0 < n && |points| == 4 * n && |buffer| + |points| + 4 < WORD
    ensures Open(buffer + points + Fixed32(n % WORD)) == Ready(|buffer|, n)
  {
    hide Fixed32, DecodeFixed32;
    Fixed32RoundTrip(n);
    ThreeParts(buffer, points, Fixed32(n));
  }

  function RestartPoint(data: Bytes, restarts: nat, r: nat): nat
    requires restarts + 4 * r + 4 <= |data|
  {
    DecodeFixed32(data[restarts + 4 * r..restarts + 4 * r + 4])
  }

  /** The restart points in a block are the offsets of their entries. */
  lemma RestartPointIs(data: Bytes, restarts: nat, numRestarts: nat, entries: seq<Entry>, interval: nat, r: nat)
    requires IsBlock(data, restarts, numRestarts, entries, interval) && r < numRestarts
    ensures restarts + 4 * r + 4 <= |data|
    ensures Starts(|entries|, interval)[r] <= |entries|
    ensures RestartPoint(data, restarts, r) == Offset(entries, interval, Starts(|entries|, interval)[r])
  {
    hide DecodeFixed32, Buffer, Words, Starts;
    var rs := Restarts(entries, interval);
    var start := Starts(|entries|, interval)[r];
    WordsAt(rs, r);
    BufferPrefix(entries, interval, start);
    assert rs[r] == Offset(entries, interval, start) % WORD;
    assert Offset(entries, interval, start) < WORD;
    hide Restarts, Offset, BlockOf;
    SmallWord(rs[r], Offset(entries, interval, start));
    WordIn(Buffer(entries, interval), Words(rs), Fixed32(|rs| % WORD), r, Offset(entries, interval, start));
  }

  /** No key is longer than what has been written when it has been. */
  lemma {:induction false} KeysFit(entries: seq<Entry>, interval: nat, i: nat)
    requires interval > 0 && i < |entries|
    ensures |entries[i].key| + |entries[i].value| < Offset(entries, interval, i + 1)
    decreases i
  {
    hide Buffer, SharedAt;
    OffsetStep(entries, interval, i);
    if i > 0 {
      KeysFit(entries, interval, i - 1);
    }
    var e, shared := entries[i], SharedAt(entries, interval, i);
    SharedBound(entries, interval, i);
    EntryBound(e, shared);
  }

  lemma SharedBound(entries: seq<Entry>, interval: nat, i: nat)
    requires interval > 0 && i < |entries|
    ensures SharedAt(entries, interval, i) <= if i == 0 then 0 else |entries[i - 1].key|
  {
  }

  lemma EntryBound(e: Entry, shared: nat)
    requires shared <= |e.key|
    ensures |EntryBytes(e, shared)| > |e.key| - shared + |e.value|
  {
    hide Varint;
  }

  // ---- moving through a block ----

  /** What is decoded at the beginning of the `i`th entry. */
  lemma ParsedAt(data: Bytes, restarts: nat, numRestarts: nat, entries: seq<Entry>, interval: nat, i: nat)
    requires IsBlock(data, restarts, numRestarts, entries, interval) && i < |entries|
    ensures var from, to, e, shared := Offset(entries, interval, i), Offset(entries, interval, i + 1), entries[i], SharedAt(entries, interval, i);
            && from < to <= restarts <= |data|
            && var r := DecodeEntry(data[from..restarts]);
            r.Some? && var h := r.value;
            && h.shared == shared && h.nonShared == |e.key| - shared && h.valueLength == |e.value|
            && from + h.size + h.nonShared + h.valueLength == to
            && data[from + h.size..from + h.size + h.nonShared] == e.key[shared..]
            && data[from + h.size + h.nonShared..to] == e.value
  {
    hide DecodeEntry, EntryBytes, SharedAt, Buffer, Words, Restarts, Starts, Fixed32;
    var buffer := Buffer(entries, interval);
    ThreeParts(buffer, Words(Restarts(entries, interval)), Fixed32(|Restarts(entries, interval)| % WORD));
    EntryIsThere(entries, interval, i);
    KeysFit(entries, interval, i);
    var from, to := Offset(entries, interval, i), Offset(entries, interval, i + 1);
    hide IsBlock, Offset;
    DecodedFrom(data, restarts, buffer, from, to, entries[i], SharedAt(entries, interval, i));
  }

  lemma DecodedFrom(data: Bytes, restarts: nat, buffer: Bytes, from: nat, to: nat, e: Entry, shared: nat)
    requires restarts <= |data| && data[..restarts] == buffer && from < to <= |buffer|
    requires shared <= |e.key| && |e.key| + |e.value| < WORD && buffer[from..to] == EntryBytes(e, shared)
    ensures var r := DecodeEntry(data[from..restarts]);
            r.Some? && var h := r.value;
            && h.shared == shared && h.nonShared == |e.key| - shared && h.valueLength == |e.value|
            && from + h.size + h.nonShared + h.valueLength == to
            && data[from + h.size..from + h.size + h.nonShared] == e.key[shared..]
            && data[from + h.size + h.nonShared..to] == e.value
  {
    hide DecodeEntry, EntryBytes;
    EntryIsDecoded(e, shared, buffer[to..]);
    PieceOf(data, restarts, buffer, from, to, EntryBytes(e, shared));
    var h := DecodeEntry(data[from..restarts]).value;
    SliceOfSlice(data, from, restarts, h.size, h.size + h.nonShared);
    SliceOfSlice(data, from, restarts, h.size + h.nonShared, to - from);
  }

  lemma PieceOf(data: Bytes, restarts: nat, buffer: Bytes, from: nat, to: nat, piece: Bytes)
    requires restarts <= |data| && data[..restarts] == buffer && from < to <= |buffer| && buffer[from..to] == piece
    ensures data[from..restarts] == piece + buffer[to..]
  {
    assert data[from..restarts] == buffer[from..];
  }

  lemma OffsetOfAll(entries: seq<Entry>, interval: nat)
    requires interval > 0
    ensures Offset(entries, interval, |entries|) == |Buffer(entries, interval)|
    ensures Offset(entries, interval, 0) == 0
  {
    assert entries[..|entries|] == entries;
  }

  /** Offsets are in the order of their entries. */
  lemma OffsetsOrdered(entries: seq<Entry>, interval: nat, i: nat, j: nat)
    requires interval > 0 && i <= |entries| && j <= |entries|
    ensures Offset(entries, interval, i) < Offset(entries, interval, j) <==> i < j
    ensures Offset(entries, interval, i) == Offset(entries, interval, j) <==> i == j
  {
    if i < j {
      OffsetsIncrease(entries, interval, i, j);
    } else if j < i {
      OffsetsIncrease(entries, interval, j, i);
    }
  }

  lemma StartsOrdered(n: nat, interval: nat, r: nat, q: nat)
    requires interval > 0 && r < q < |Starts(n, interval)|
    ensures Starts(n, interval)[r] < Starts(n, interval)[q]
  {
    StartsAre(n, interval);
  }

  lemma StartIs(n: nat, interval: nat, r: nat)
    requires interval > 0 && r < |Starts(n, interval)|
    ensures IsStart(Starts(n, interval)[r], interval)
    ensures Starts(n, interval)[r] < n || Starts(n, interval)[r] == 0
  {
    StartsAre(n, interval);
  }

  class BlockIter {
    const data: Bytes
    const restarts: nat    // where the restart points begin, and the entries end
    const numRestarts: nat
    const less: Order
    var current: nat       // where the current entry begins
    var restartIndex: nat
    var key: Bytes
    var valueAt: nat       // the value is a piece of the data
    var valueLength: nat
    ghost const entries: seq<Entry>
    ghost const interval: nat
    ghost var pos: nat     // the entry the iterator is at; their number when it is at none

    ghost predicate Good() {
      interval > 0 && IsBlock(data, restarts, numRestarts, entries, interval)
    }

    ghost function StartOf(r: nat): nat
      requires Good() && r < numRestarts
    {
      Starts(|entries|, interval)[r]
    }

    /** The restart point in use is not after the `i`th entry. */
    ghost predicate NotAfter(i: nat)
      requires Good()
      reads this`restartIndex
    {
      restartIndex < numRestarts && StartOf(restartIndex) <= i
    }

    /** The next one is not before it. */
    ghost predicate CaughtUp(i: nat)
      requires Good()
      reads this`restartIndex
    {
      restartIndex + 1 < numRestarts ==> i <= StartOf(restartIndex + 1)
    }

    ghost predicate Valid()
      reads this
    {
      && Good() && pos <= |entries|
      && if pos == |entries| then current == restarts && restartIndex == numRestarts
         else
           && current == Offset(entries, interval, pos) && key == entries[pos].key
           && valueAt + valueLength == Offset(entries, interval, pos + 1) <= |data|
           && data[valueAt..valueAt + valueLength] == entries[pos].value
           && NotAfter(pos) && CaughtUp(pos)
    }

    /** The next entry to be parsed is the `i`th, and what it needs of the key before it is there. */
    ghost predicate Before(i: nat)
      reads this
    {
      && Good() && i <= |entries| && valueAt + valueLength == Offset(entries, interval, i) && NotAfter(i)
      && (i < |entries| ==>
            SharedAt(entries, interval, i) == 0 || (i > 0 && key == entries[i - 1].key))
    }

    constructor (data: Bytes, restarts: nat, numRestarts: nat, less: Order, ghost entries: seq<Entry>, ghost interval: nat)
      requires IsBlock(data, restarts, numRestarts, entries, interval)
      ensures Valid() && pos == |entries| && this.entries == entries && this.less == less && this.interval == interval && this.data == data
    {
      this.data, this.restarts, this.numRestarts, this.less := data, restarts, numRestarts, less;
      current, restartIndex, key, valueAt, valueLength := restarts, numRestarts, [], 0, 0;
      this.entries, this.interval, pos := entries, interval, |entries|;
    }

    method IsValid() returns (valid: bool)
      requires Valid()
      ensures if valid then pos < |entries| else pos == |entries|
    {
      OffsetOfAll(entries, interval);
      if pos < |entries| {
        OffsetsOrdered(entries, interval, pos, |entries|);
      }
      valid := current < restarts;
    }

    method Key() returns (k: Bytes)
      requires Valid() && pos < |entries|
      ensures k == entries[pos].key
    {
      k := key;
    }

    method Value() returns (v: Bytes)
      requires Valid() && pos < |entries|
      ensures v == entries[pos].value
    {
      v := data[valueAt..valueAt + valueLength];
    }

    method SeekToRestartPoint(index: nat)
      requires Good() && index < numRestarts
      modifies this`key, this`restartIndex, this`valueAt, this`valueLength
      ensures Before(StartOf(index)) && restartIndex == index
    {
      RestartPointIs(data, restarts, numRestarts, entries, interval, index);
      StartsAre(|entries|, interval);
      key := [];
      restartIndex := index;
      valueAt, valueLength := RestartPoint(data, restarts, index), 0;
    }

    /** Moves the restart index up to the last one before the current entry. */
    method CatchUp()
      requires Good() && pos < |entries| && current == Offset(entries, interval, pos) && NotAfter(pos)
      modifies this`restartIndex
      ensures NotAfter(pos) && CaughtUp(pos)
    {
      hide Offset, Starts, RestartPoint;
      while restartIndex + 1 < numRestarts && GetRestartPoint(restartIndex + 1) < current
        invariant NotAfter(pos)
        decreases numRestarts - restartIndex
      {
        RestartPointIs(data, restarts, numRestarts, entries, interval, restartIndex + 1);
        OffsetsOrdered(entries, interval, StartOf(restartIndex + 1), pos);
        restartIndex := restartIndex + 1;
      }
      if restartIndex + 1 < numRestarts {
        NotBefore(StartOf(restartIndex + 1), pos);
      }
    }

    lemma NotBefore(i: nat, j: nat)
      requires Good() && i <= |entries| && j <= |entries| && Offset(entries, interval, i) >= Offset(entries, interval, j)
      ensures j <= i
    {
      hide Offset;
      if i < j {
        OffsetsIncrease(entries, interval, i, j);
      }
    }

    function GetRestartPoint(index: nat): (r: nat)
      requires Good() && index < numRestarts
      ensures StartOf(index) <= |entries| && r == Offset(entries, interval, StartOf(index))
    {
      RestartPointIs(data, restarts, numRestarts, entries, interval, index);
      RestartPoint(data, restarts, index)
    }

    /** Parses the next entry; after the last one there is none. */
    method ParseNextKey(ghost i: nat) returns (ok: bool)
      requires Before(i)
      modifies this
      ensures Valid() && pos == i && ok == (i < |entries|)
      ensures ok ==> valueAt + valueLength == Offset(entries, interval, i + 1)
    {
      hide Offset, Starts, SharedAt, DecodeEntry, IsBlock;
      OffsetOfAll(entries, interval);
      OffsetsOrdered(entries, interval, i, |entries|);
      pos := i;
      current := valueAt + valueLength;
      EntriesEnd();
      if current >= restarts {
        current := restarts;
        restartIndex := numRestarts;
        return false;
      }
      TakeEntry(i);
      CatchUp();
      return true;
    }

    /** Decodes the entry that begins at the current offset. */
    method TakeEntry(ghost i: nat)
      requires Good() && i < |entries| && current == Offset(entries, interval, i)
      requires SharedAt(entries, interval, i) == 0 || (i > 0 && key == entries[i - 1].key)
      modifies this`key, this`valueAt, this`valueLength
      ensures key == entries[i].key && valueAt + valueLength == Offset(entries, interval, i + 1) <= |data|
      ensures data[valueAt..valueAt + valueLength] == entries[i].value
    {
      hide Offset, Starts, SharedAt, DecodeEntry, IsBlock;
      ParsedAt(data, restarts, numRestarts, entries, interval, i);
      KeyIs(entries, interval, i, key);
      var header := DecodeEntry(data[current..restarts]);
      if header == None || |key| < header.value.shared {
        assert false;
      } else {
        var h := header.value;
        key := key[..h.shared] + data[current + h.size..current + h.size + h.nonShared];
        valueAt, valueLength := current + h.size + h.nonShared, h.valueLength;
      }
    }

    method Next()
      requires Valid() && pos < |entries|
      modifies this
      ensures Valid() && pos == old(pos) + 1
    {
      hide Offset, Starts, SharedAt, IsBlock;
      var ok := ParseNextKey(pos + 1);
    }

    /** Back to the restart point before the current entry, and forward to the entry that ends where it begins. */
    method Prev()
      requires Valid() && pos < |entries|
      modifies this
      ensures Valid() && pos == if old(pos) == 0 then |entries| else old(pos) - 1
    {
      hide Offset, Starts, SharedAt, IsBlock;
      ghost var i := pos;
      var original := current;
      FirstStart();
      while GetRestartPoint(restartIndex) >= original
        invariant NotAfter(i) && Good()
        decreases restartIndex
        modifies this`restartIndex, this`current, this`pos
      {
        OffsetsOrdered(entries, interval, StartOf(restartIndex), i);
        if restartIndex == 0 {
          current := restarts;
          restartIndex := numRestarts;
          pos := |entries|;
          return;
        }
        StartsRise(restartIndex - 1, restartIndex);
        restartIndex := restartIndex - 1;
      }
      OffsetsOrdered(entries, interval, StartOf(restartIndex), i);
      SeekToRestartPoint(restartIndex);
      ghost var j := StartOf(restartIndex);
      var ok := ParseNextKey(j);
      while ok && valueAt + valueLength < original
        invariant Valid() && pos == j < i && ok && valueAt + valueLength == Offset(entries, interval, j + 1)
        decreases i - j
      {
        OffsetsOrdered(entries, interval, j + 1, i);
        ok := ParseNextKey(j + 1);
        j := j + 1;
      }
      OffsetsOrdered(entries, interval, j + 1, i);
    }

    method SeekToFirst()
      requires Valid()
      modifies this
      ensures Valid() && pos == 0
    {
      hide Offset, Starts, SharedAt, IsBlock;
      FirstStart();
      SeekToRestartPoint(0);
      var ok := ParseNextKey(0);
    }

    method SeekToLast()
      requires Valid()
      modifies this
      ensures Valid() && pos == if |entries| == 0 then 0 else |entries| - 1
    {
      hide Offset, Starts, SharedAt, IsBlock;
      FirstStart();
      EntriesEnd();
      SeekToRestartPoint(numRestarts - 1);
      ghost var j := StartOf(numRestarts - 1);
      LastStartIs();
      var ok := ParseNextKey(j);
      while ok && valueAt + valueLength < restarts
        invariant Valid() && pos == j && (ok ==> j < |entries| && valueAt + valueLength == Offset(entries, interval, j + 1))
        invariant !ok ==> |entries| == 0
        decreases |entries| - j
      {
        OffsetsOrdered(entries, interval, j + 1, |entries|);
        ok := ParseNextKey(j + 1);
        j := j + 1;
      }
      if ok {
        OffsetsOrdered(entries, interval, j + 1, |entries|);
      }
    }

    /** The first entry whose key is not before the target: by binary search among the restart points, and then one by one. */
    method Seek(target: Bytes)
      requires Valid() && Transitive(less) && Increasing(entries, less)
      modifies this
      ensures Valid() && pos <= |entries|
      ensures forall i :: 0 <= i < pos ==> less(entries[i].key, target)
      ensures pos < |entries| ==> forall i :: pos <= i < |entries| ==> !less(entries[i].key, target)
    {
      hide Offset, Starts, SharedAt, IsBlock, DecodeEntry, Transitive, Increasing;
      FirstStart();
      var left: nat, right: nat := 0, numRestarts - 1;
      while left < right
        invariant left <= right < numRestarts && Good() && StartOf(left) <= |entries|
        invariant forall i :: 0 <= i < StartOf(left) ==> less(entries[i].key, target)
      {
        var mid := (left + right + 1) / 2;
        var regionOffset := GetRestartPoint(mid);
        ghost var m := StartOf(mid);
        StartsRise(0, mid);
        StartIsEntry(mid);
        ParsedAt(data, restarts, numRestarts, entries, interval, m);
        var header := DecodeEntry(data[regionOffset..restarts]);
        if header == None || header.value.shared != 0 {
          assert false;
        } else {
          var midKey := data[regionOffset + header.value.size..regionOffset + header.value.size + header.value.nonShared];
          assert midKey == entries[m].key;
          if less(midKey, target) {
            AllBefore(entries, less, m, target);
            left := mid;
          } else {
            right := mid - 1;
          }
        }
      }
      SeekToRestartPoint(left);
      ghost var j := StartOf(left);
      while true
        invariant Before(j) && j <= |entries|
        invariant forall i :: 0 <= i < j ==> less(entries[i].key, target)
        decreases |entries| - j
      {
        var ok := ParseNextKey(j);
        if !ok {
          return;
        }
        if !less(key, target) {
          NoneBefore(entries, less, j, target);
          return;
        }
        j := j + 1;
      }
    }

    lemma FirstStart()
      requires Good()
      ensures numRestarts > 0 && StartOf(0) == 0
    {
    }

    lemma StartsRise(r: nat, q: nat)
      requires Good() && r < q < numRestarts
      ensures StartOf(r) < StartOf(q)
    {
      StartsOrdered(|entries|, interval, r, q);
    }

    /** A restart point is at an entry, and that entry shares nothing. */
    lemma StartIsEntry(r: nat)
      requires Good() && r < numRestarts && StartOf(r) > 0
      ensures StartOf(r) < |entries| && SharedAt(entries, interval, StartOf(r)) == 0
    {
      StartIs(|entries|, interval, r);
      hide Starts, IsStart, BlockOf, Buffer, SharedAt, Common;
    }

    lemma LastStartIs()
      requires Good() && numRestarts > 0
      ensures |entries| > 0 ==> StartOf(numRestarts - 1) < |entries|
      ensures |entries| == 0 ==> StartOf(numRestarts - 1) == 0
    {
      StartsAre(|entries|, interval);
    }

    lemma EntriesEnd()
      requires Good()
      ensures restarts == Offset(entries, interval, |entries|) && restarts <= |data|
    {
      OffsetOfAll(entries, interval);
    }
  }

  lemma AllBefore(entries: seq<Entry>, less: Order, m: nat, target: Bytes)
    requires Transitive(less) && Increasing(entries, less) && m < |entries| && less(entries[m].key, target)
    ensures forall i :: 0 <= i < m ==> less(entries[i].key, target)
  {
  }

  lemma NoneBefore(entries: seq<Entry>, less: Order, m: nat, target: Bytes)
    requires Transitive(less) && Increasing(entries, less) && m < |entries| && !less(entries[m].key, target)
    ensures forall i :: m <= i < |entries| ==> !less(entries[i].key, target)
  {
    forall i | m < i < |entries| ensures !less(entries[i].key, target) {
      assert less(entries[m].key, entries[i].key);
    }
  }

  /** What is kept of the key before, and the rest, make the key. */
  lemma KeyIs(entries: seq<Entry>, interval: nat, i: nat, before: Bytes)
    requires interval > 0 && i < |entries|
    requires SharedAt(entries, interval, i) == 0 || (i > 0 && before == entries[i - 1].key)
    ensures var shared := SharedAt(entries, interval, i);
            shared <= |before| && before[..shared] + entries[i].key[shared..] == entries[i].key
  {
  }

  // ---- how long a block is ----

  lemma WordIsShort(v: nat)
    ensures |Varint(v % WORD)| <= 5
  {
    hide Varint, VarintAt;
    Varint32RoundTrip(v % WORD, []);
    assert Varint(v % WORD) + [] == Varint(v % WORD);
  }

  lemma EntryIsShort(e: Entry, shared: nat)
    requires shared <= |e.key|
    ensures |EntryBytes(e, shared)| <= 15 + |e.key| + |e.value|
  {
    hide Varint;
    WordIsShort(shared);
    WordIsShort(|e.key| - shared);
    WordIsShort(|e.value|);
  }

  /** One more entry makes a block longer by little more than its key and its value. */
  lemma BlockGrows(entries: seq<Entry>, interval: nat, e: Entry)
    requires interval > 0
    ensures |BlockOf(entries + [e], interval)| <= |BlockOf(entries, interval)| + |e.key| + |e.value| + 19
  {
    hide Buffer, EntryBytes, SharedAt, Restarts, Words, Fixed32, IsStart;
    AddMore(entries, interval, e);
    EntryIsShort(e, SharedAt(entries + [e], interval, |entries|));
    RestartsMore(entries, interval, e);
    WordsLength(Restarts(entries, interval));
    WordsLength(Restarts(entries + [e], interval));
  }

  lemma EmptyBlock(interval: nat)
    requires interval > 0
    ensures |BlockOf([], interval)| == 8
  {
    WordsLength(Restarts([], interval));
    hide Words, Fixed32;
  }
}
