/** The merge step of a compaction: which entries survive and how they are cut into files
    (db/db_impl.cc, db/version_set.cc). */
module CompactionWork {
  import opened Wrappers
  import opened ByteStrings
  import opened InternalKeys
  import opened Versions
  import opened Picking

  /** Some level from `first` on has a file whose range contains `k`. */
  ghost predicate KeyInDeeperRange(v: Version, first: nat, k: UserKey) {
    exists l: nat, f :: first <= l < |v.levels| && f in v.levels[l] && f.Touches(Some(k), Some(k))
  }

  // ---- how much of the grandparents an output lies over ----

  /** How many of the files end before a key. */
  function PassedBy(files: seq<File>, k: Key): (n: nat)
    ensures n <= |files|
  {
    if files == [] || AtMost(k, files[0].largest) then 0 else 1 + PassedBy(files[1..], k)
  }

  lemma {:induction false} PassedByIs(files: seq<File>, k: Key, n: nat)
    requires n <= |files| && forall i :: 0 <= i < n ==> Less(files[i].largest, k)
    requires n < |files| ==> AtMost(k, files[n].largest)
    ensures PassedBy(files, k) == n
    decreases n
  {
    if n > 0 {
      PassedByIs(files[1..], k, n - 1);
    }
  }

  lemma {:induction false} PassedByMonotone(files: seq<File>, k: Key, k': Key)
    requires AtMost(k, k')
    ensures PassedBy(files, k) <= PassedBy(files, k')
  {
    if files != [] && Less(files[0].largest, k) {
      LessIsStrictTotalOrder(files[0].largest, k, k');
      PassedByMonotone(files[1..], k, k');
    }
  }

  /** After the first `n` keys, the file from which on the data passed is counted: the counting begins with the first key,
      and again with every key that a new output is begun for. */
  function CountedFrom(files: seq<File>, input: seq<Entry>, n: nat): (m: nat)
    requires n <= |input|
    ensures m <= |files|
    decreases n, 0
  {
    if n == 0 then 0
    else
      var from, to := CountedFrom(files, input, n - 1), PassedBy(files, input[n - 1].key);
      if n == 1 || StopsBefore(files, input, n - 1) then to else from
  }

  /** More data than allowed was passed since the counting began. */
  function StopsBefore(files: seq<File>, input: seq<Entry>, i: nat): bool
    requires i < |input|
    decreases i, 1
  {
    var from, to := CountedFrom(files, input, i), PassedBy(files, input[i].key);
    i > 0 && from <= to && TotalFileSize(files[from..to]) > MAX_GRANDPARENT_OVERLAP_BYTES
  }

  /** The cursor state of one compaction over the levels below its output. */
  class Compaction {
    const level: nat
    const version: Version
    const levelPtrs: array<nat>
    ghost var lastKey: Option<UserKey>
    const grandparents: seq<File>
    var grandparentIndex: nat
    var seenKey: bool
    var overlappedBytes: nat

    /** After the first `n` keys of the input. */
    ghost predicate Counts(input: seq<Entry>, n: nat)
      reads this
    {
      && n <= |input| && (seenKey <==> n > 0)
      && grandparentIndex == (if n > 0 then PassedBy(grandparents, input[n - 1].key) else 0)
      && CountedFrom(grandparents, input, n) <= grandparentIndex
      && overlappedBytes == TotalFileSize(grandparents[CountedFrom(grandparents, input, n)..grandparentIndex])
    }

    /** Whether the output being built lies over too much data of the grandparents to take one more key. */
    method ShouldStopBefore(k: Key, ghost input: seq<Entry>, ghost i: nat) returns (stop: bool)
      requires Sorted(input) && i < |input| && input[i].key == k && Counts(input, i)
      modifies this`grandparentIndex, this`seenKey, this`overlappedBytes
      ensures Counts(input, i + 1) && stop == StopsBefore(grandparents, input, i)
    {
      hide PassedBy, TotalFileSize, CountedFrom, StopsBefore;
      ghost var from := CountedFrom(grandparents, input, i);
      NoFiles(grandparents, from);
      assert grandparents[from..from] == [];
      while grandparentIndex < |grandparents| && Less(grandparents[grandparentIndex].largest, k)
        invariant old(grandparentIndex) <= grandparentIndex <= |grandparents| && seenKey == old(seenKey)
        invariant forall j :: old(grandparentIndex) <= j < grandparentIndex ==> Less(grandparents[j].largest, k)
        invariant overlappedBytes == if seenKey then TotalFileSize(grandparents[from..grandparentIndex]) else 0
        decreases |grandparents| - grandparentIndex
      {
        if seenKey {
          overlappedBytes := overlappedBytes + grandparents[grandparentIndex].size;
          OneMoreFile(grandparents, from, grandparentIndex);
        }
        grandparentIndex := grandparentIndex + 1;
      }
      PassedNow(input, i, old(grandparentIndex));
      CountedNext(grandparents, input, i);
      seenKey := true;
      stop := overlappedBytes > MAX_GRANDPARENT_OVERLAP_BYTES;
      if stop {
        overlappedBytes := 0;
      }
    }

    lemma PassedNow(input: seq<Entry>, i: nat, before: nat)
      requires Sorted(input) && i < |input| && before <= grandparentIndex <= |grandparents|
      requires before == if i > 0 then PassedBy(grandparents, input[i - 1].key) else 0
      requires forall j :: before <= j < grandparentIndex ==> Less(grandparents[j].largest, input[i].key)
      requires grandparentIndex < |grandparents| ==> AtMost(input[i].key, grandparents[grandparentIndex].largest)
      ensures PassedBy(grandparents, input[i].key) == grandparentIndex
    {
      if i > 0 {
        PassedAreBefore(grandparents, input[i - 1].key);
        forall j | 0 <= j < before ensures Less(grandparents[j].largest, input[i].key) {
          LessIsStrictTotalOrder(grandparents[j].largest, input[i - 1].key, input[i].key);
        }
      }
      PassedByIs(grandparents, input[i].key, grandparentIndex);
    }

    /** Files before a level's pointer end before the last key asked about. */
    ghost predicate Valid()
      reads this, levelPtrs
    {
      && GoodVersion(version) && levelPtrs.Length == NUM_LEVELS
      && forall l :: level + 2 <= l < NUM_LEVELS ==> PassedOnly(l, levelPtrs[l], lastKey)
    }

    ghost predicate PassedOnly(l: nat, ptr: nat, k: Option<UserKey>)
      requires l < |version.levels|
    {
      && ptr <= |version.levels[l]|
      && forall i :: 0 <= i < ptr ==> k.Some? && version.levels[l][i].largest.user < k.value
    }

    constructor (level: nat, version: Version, grandparents: seq<File>)
      requires GoodVersion(version)
      ensures Valid() && fresh(levelPtrs)
      ensures this.level == level && this.version == version && lastKey == None
      ensures this.grandparents == grandparents && forall input :: Counts(input, 0)
    {
      this.level, this.version, this.grandparents := level, version, grandparents;
      grandparentIndex, seenKey, overlappedBytes := 0, false, 0;
      levelPtrs := new nat[NUM_LEVELS](_ => 0);
      lastKey := None;
    }

    /** Skips the files of one level that end before `k` and tells whether the next one contains it. */
    method AdvanceLevel(l: nat, k: UserKey) returns (inRange: bool)
      requires GoodVersion(version) && levelPtrs.Length == NUM_LEVELS && 1 <= l < NUM_LEVELS
      requires PassedOnly(l, levelPtrs[l], lastKey)
      requires lastKey.Some? ==> lastKey.value <= k
      modifies levelPtrs
      ensures PassedOnly(l, levelPtrs[l], Some(k))
      ensures forall m :: 0 <= m < NUM_LEVELS && m != l ==> levelPtrs[m] == old(levelPtrs[m])
      ensures inRange <==> exists f :: f in version.levels[l] && f.Touches(Some(k), Some(k))
    {
      var files := version.levels[l];
      assert GoodFiles(files) && Disjoint(files);
      inRange := false;
      while levelPtrs[l] < |files|
        invariant PassedOnly(l, levelPtrs[l], Some(k))
        invariant forall m :: 0 <= m < NUM_LEVELS && m != l ==> levelPtrs[m] == old(levelPtrs[m])
        decreases |files| - levelPtrs[l]
      {
        var f := files[levelPtrs[l]];
        if k <= f.largest.user {
          inRange := k >= f.smallest.user;
          assert inRange ==> f in files && f.Touches(Some(k), Some(k));
          if !inRange {
            NothingTouches(files, levelPtrs[l], k);
          }
          return;
        }
        levelPtrs[l] := levelPtrs[l] + 1;
      }
    }

    /** No level from level+2 on can hold `user_key`, by its files' ranges. Callers ask about
        non-decreasing keys. */
    method IsBaseLevelForKey(k: UserKey) returns (base: bool)
      requires Valid() && (lastKey.Some? ==> lastKey.value <= k)
      modifies this`lastKey, levelPtrs
      ensures Valid() && lastKey == Some(k)
      ensures base <==> !KeyInDeeperRange(version, level + 2, k)
    {
      var lvl := level + 2;
      while lvl < NUM_LEVELS
        invariant level + 2 <= lvl && lastKey == old(lastKey)
        invariant forall m :: lvl <= m < NUM_LEVELS ==> PassedOnly(m, levelPtrs[m], lastKey)
        invariant forall m :: level + 2 <= m < lvl && m < NUM_LEVELS ==> PassedOnly(m, levelPtrs[m], Some(k))
        invariant forall m: nat, f :: level + 2 <= m < lvl && m < NUM_LEVELS && f in version.levels[m] ==> !f.Touches(Some(k), Some(k))
      {
        var inRange := AdvanceLevel(lvl, k);
        if inRange {
          lastKey := Some(k);
          return false;
        }
        lvl := lvl + 1;
      }
      lastKey := Some(k);
      return true;
    }
  }

  lemma NoFiles(files: seq<File>, n: nat)
    requires n <= |files|
    ensures TotalFileSize(files[n..n]) == 0 && CountedFrom(files, [], 0) == 0
    ensures forall input :: CountedFrom(files, input, 0) == 0
  {
  }

  lemma CountedNext(files: seq<File>, input: seq<Entry>, i: nat)
    requires i < |input|
    ensures var from, to := CountedFrom(files, input, i), PassedBy(files, input[i].key);
            && CountedFrom(files, input, i + 1) == (if i == 0 || StopsBefore(files, input, i) then to else from)
            && StopsBefore(files, input, i) ==
               (i > 0 && from <= to && TotalFileSize(files[from..to]) > MAX_GRANDPARENT_OVERLAP_BYTES)
            && TotalFileSize(files[to..to]) == 0
  {
  }

  lemma OneMoreFile(files: seq<File>, from: nat, to: nat)
    requires from <= to < |files|
    ensures TotalFileSize(files[from..to + 1]) == TotalFileSize(files[from..to]) + files[to].size
  {
    assert files[from..to + 1][..to - from] == files[from..to];
  }

  lemma {:induction false} PassedAreBefore(files: seq<File>, k: Key)
    ensures forall j :: 0 <= j < PassedBy(files, k) ==> Less(files[j].largest, k)
  {
    if files != [] && Less(files[0].largest, k) {
      PassedAreBefore(files[1..], k);
      forall j | 0 <= j < PassedBy(files, k) ensures Less(files[j].largest, k) {
        assert j > 0 ==> files[j] == files[1..][j - 1];
      }
    }
  }

  lemma NothingTouches(files: seq<File>, ptr: nat, k: UserKey)
    requires GoodFiles(files) && Disjoint(files) && ptr < |files|
    requires forall i :: 0 <= i < ptr ==> files[i].largest.user < k
    requires k < files[ptr].smallest.user
    ensures forall f :: f in files ==> !f.Touches(Some(k), Some(k))
  {
    forall f | f in files ensures !f.Touches(Some(k), Some(k)) {
      var i :| 0 <= i < |files| && files[i] == f;
      FileRange(files[ptr]);
      assert ptr < i ==> Less(files[ptr].largest, files[i].smallest);
    }
  }

  // ---- the drop rule ----

  /** Entry `i` of the merged input is not copied to the output: a newer entry of its key is already
      at or below the snapshot, or it is a tombstone at or below it with nothing of its key deeper. */
  ghost predicate Dropped(input: seq<Entry>, i: nat, snap: nat, v: Version, level: nat)
    requires i < |input|
  {
    var k := input[i].key;
    || (i > 0 && input[i - 1].key.user == k.user && input[i - 1].key.sequence <= snap)
    || (k.kind.Deletion? && k.sequence <= snap && !KeyInDeeperRange(v, level + 2, k.user))
  }

  /** What is left of the first `n` entries. */
  ghost function Survivors(input: seq<Entry>, n: nat, snap: nat, v: Version, level: nat): seq<Entry>
    requires n <= |input|
  {
    if n == 0 then []
    else if Dropped(input, n - 1, snap, v, level) then Survivors(input, n - 1, snap, v, level)
    else Survivors(input, n - 1, snap, v, level) + [input[n - 1]]
  }

  function Flatten(files: seq<File>): seq<Entry> {
    if files == [] then [] else Flatten(files[..|files| - 1]) + files[|files| - 1].entries
  }

  /** Metadata and contents agree, whatever the order of the contents. */
  ghost predicate Bracketed(f: File) {
    && |f.entries| > 0
    && f.smallest == f.entries[0].key && f.largest == f.entries[|f.entries| - 1].key
  }

  // ---- where the outputs are cut ----

  /** The size of a table so far and when it is finished, the size from which on it takes no more, and the numbers that the
      outputs get, in turn. */
  datatype OutputRule = OutputRule(built: seq<Entry> -> nat, fileSize: seq<Entry> -> nat, maxFileSize: nat, numberOf: nat -> nat)

  /** Between two entries a key was met that no output may hold together with what came before. */
  ghost predicate StopsBetween(gps: seq<File>, input: seq<Entry>, x: Key, y: Key) {
    exists i :: 0 <= i < |input| && StopsBefore(gps, input, i) && Less(x, input[i].key) && AtMost(input[i].key, y)
  }

  /** No more of the grandparents lies between two keys than an output may lie over. */
  predicate LiesWithin(gps: seq<File>, x: Key, y: Key) {
    var from, to := PassedBy(gps, x), PassedBy(gps, y);
    from <= to ==> TotalFileSize(gps[from..to]) <= MAX_GRANDPARENT_OVERLAP_BYTES
  }

  /** Nothing would have ended this output earlier. */
  ghost predicate Undivided(gps: seq<File>, input: seq<Entry>, es: seq<Entry>, rule: OutputRule) {
    && es != [] && LiesWithin(gps, es[0].key, es[|es| - 1].key)
    && (forall n :: 0 < n < |es| ==> rule.built(es[..n]) < rule.maxFileSize)
    && forall n :: 0 <= n < |es| - 1 ==> !StopsBetween(gps, input, es[n].key, es[n + 1].key)
  }

  /** An output is full, or may not take the next entry. */
  ghost predicate EndsBefore(gps: seq<File>, input: seq<Entry>, es: seq<Entry>, rule: OutputRule, next: Key) {
    es != [] && (rule.built(es) >= rule.maxFileSize || StopsBetween(gps, input, es[|es| - 1].key, next))
  }

  ghost predicate RightlyCut(gps: seq<File>, input: seq<Entry>, outputs: seq<File>, rule: OutputRule) {
    && (forall j :: 0 <= j < |outputs| ==> Undivided(gps, input, outputs[j].entries, rule))
    && forall j :: 0 <= j < |outputs| - 1 ==> EndsBefore(gps, input, outputs[j].entries, rule, outputs[j + 1].smallest)
  }

  /** The last output is full, or one of the first `n` keys stopped it. */
  ghost predicate Ended(gps: seq<File>, input: seq<Entry>, n: nat, es: seq<Entry>, rule: OutputRule) {
    && n <= |input| && es != []
    && (rule.built(es) >= rule.maxFileSize
        || exists m :: 0 <= m < n && StopsBefore(gps, input, m) && Less(es[|es| - 1].key, input[m].key))
  }

  /** The output being built, when the first `n` keys have been looked at. */
  ghost predicate Open(gps: seq<File>, input: seq<Entry>, n: nat, es: seq<Entry>, rule: OutputRule) {
    && n <= |input| && Undivided(gps, input, es, rule) && rule.built(es) < rule.maxFileSize
    && (forall m :: 0 <= m < n && StopsBefore(gps, input, m) ==> AtMost(input[m].key, es[|es| - 1].key))
    && CountedFrom(gps, input, n) <= PassedBy(gps, es[0].key)
  }

  /** The state of the outputs and of the one being built, if any, when the first `n` keys have been looked at. */
  ghost predicate Cutting(gps: seq<File>, input: seq<Entry>, n: nat, outputs: seq<File>, builder: seq<Entry>, rule: OutputRule) {
    && RightlyCut(gps, input, outputs, rule)
    && (builder != [] ==> Open(gps, input, n, builder, rule))
    && (outputs != [] ==>
          var last := outputs[|outputs| - 1].entries;
          if builder == [] then Ended(gps, input, n, last, rule) else EndsBefore(gps, input, last, rule, builder[0].key))
  }

  lemma {:induction false} SuffixIsSmaller(files: seq<File>, a: nat, b: nat, c: nat)
    requires a <= b <= c <= |files|
    ensures TotalFileSize(files[b..c]) <= TotalFileSize(files[a..c])
    decreases c
  {
    if b == c {
      assert files[b..c] == [];
    } else {
      SuffixIsSmaller(files, a, b, c - 1);
      OneMoreFile(files, a, c - 1);
      OneMoreFile(files, b, c - 1);
    }
  }

  /** From what is counted to the key just looked at there is no more than allowed. */
  lemma CountedIsWithin(gps: seq<File>, input: seq<Entry>, i: nat, x: Key)
    requires i < |input| && CountedFrom(gps, input, i + 1) <= PassedBy(gps, x)
    ensures LiesWithin(gps, x, input[i].key)
  {
    hide CountedFrom, StopsBefore, PassedBy, TotalFileSize;
    CountedNext(gps, input, i);
    var counted, from, to := CountedFrom(gps, input, i + 1), PassedBy(gps, x), PassedBy(gps, input[i].key);
    if from <= to {
      SuffixIsSmaller(gps, counted, from, to);
    }
  }

  lemma CloseOutput(gps: seq<File>, input: seq<Entry>, n: nat, outputs: seq<File>, builder: seq<Entry>, rule: OutputRule, f: File)
    requires RightlyCut(gps, input, outputs, rule) && Undivided(gps, input, builder, rule)
    requires f.entries == builder && f.smallest == builder[0].key
    requires outputs != [] ==> EndsBefore(gps, input, outputs[|outputs| - 1].entries, rule, builder[0].key)
    ensures RightlyCut(gps, input, outputs + [f], rule)
  {
    hide Undivided, EndsBefore;
  }

  /** One more key is looked at: if it stops the output being built, that is closed. */
  lemma LookedAt(gps: seq<File>, input: seq<Entry>, i: nat, outputs: seq<File>, builder: seq<Entry>, rule: OutputRule, f: File)
    requires Sorted(input) && i < |input| && Cutting(gps, input, i, outputs, builder, rule)
    requires forall e :: e in builder ==> e in input[..i]
    requires builder != [] ==> f.entries == builder && f.smallest == builder[0].key
    ensures if builder != [] && StopsBefore(gps, input, i) then Cutting(gps, input, i + 1, outputs + [f], [], rule)
            else Cutting(gps, input, i + 1, outputs, builder, rule)
  {
    hide CountedFrom, StopsBefore, PassedBy, Undivided, RightlyCut, EndsBefore;
    CountedNext(gps, input, i);
    if builder != [] && StopsBefore(gps, input, i) {
      CloseOutput(gps, input, i, outputs, builder, rule, f);
      BeforeNext(input, i, builder);
      UndividedIsSome(gps, input, builder, rule);
    }
    if builder != [] {
      assert builder[0] in builder;
    }
  }

  lemma UndividedIsSome(gps: seq<File>, input: seq<Entry>, es: seq<Entry>, rule: OutputRule)
    requires Undivided(gps, input, es, rule)
    ensures es != []
  {
  }

  lemma BeforeNext(input: seq<Entry>, i: nat, builder: seq<Entry>)
    requires Sorted(input) && i < |input| && builder != [] && forall e :: e in builder ==> e in input[..i]
    ensures Less(builder[|builder| - 1].key, input[i].key)
  {
    assert builder[|builder| - 1] in builder;
  }

  /** The entry just looked at goes into the output being built, or into a new one. */
  lemma TakesOneMore(gps: seq<File>, input: seq<Entry>, i: nat, outputs: seq<File>, builder: seq<Entry>, rule: OutputRule)
    requires Sorted(input) && i < |input| && Cutting(gps, input, i + 1, outputs, builder, rule)
    requires forall e :: e in builder ==> e in input[..i]
    requires builder != [] ==> !StopsBefore(gps, input, i)
    ensures var more := builder + [input[i]];
            && Undivided(gps, input, more, rule)
            && (rule.built(more) < rule.maxFileSize ==> Open(gps, input, i + 1, more, rule))
            && (outputs != [] ==> EndsBefore(gps, input, outputs[|outputs| - 1].entries, rule, more[0].key))
  {
    hide CountedFrom, StopsBefore, PassedBy, LiesWithin, RightlyCut;
    var more := builder + [input[i]];
    LessIsStrictTotalOrder(input[i].key, input[i].key, input[i].key);
    if builder == [] {
      CountedNext(gps, input, i);
      CountedAtMost(gps, input, i);
      FirstIsUndivided(gps, input, i, rule);
      if outputs != [] {
        EndedEnds(gps, input, i, outputs[|outputs| - 1].entries, rule);
      }
    } else {
      BeforeNext(input, i, builder);
      CountedIsWithin(gps, input, i, builder[0].key);
      MoreIsUndivided(gps, input, i, builder, rule);
    }
    forall m | 0 <= m < i + 1 && StopsBefore(gps, input, m) ensures AtMost(input[m].key, input[i].key) {
      if m < i {
        LessIsStrictTotalOrder(input[m].key, input[i].key, input[m].key);
      }
    }
  }

  lemma CountedAtMost(gps: seq<File>, input: seq<Entry>, i: nat)
    requires Sorted(input) && i < |input|
    ensures CountedFrom(gps, input, i + 1) <= PassedBy(gps, input[i].key)
  {
    if i > 0 {
      CountedAtMost(gps, input, i - 1);
      LessIsStrictTotalOrder(input[i - 1].key, input[i].key, input[i].key);
      PassedByMonotone(gps, input[i - 1].key, input[i].key);
    }
    hide PassedBy;
    CountedNext(gps, input, i);
  }

  lemma FirstIsUndivided(gps: seq<File>, input: seq<Entry>, i: nat, rule: OutputRule)
    requires i < |input|
    ensures Undivided(gps, input, [input[i]], rule)
  {
    hide PassedBy;
    var n := PassedBy(gps, input[i].key);
    NoFiles(gps, n);
  }

  lemma EndedEnds(gps: seq<File>, input: seq<Entry>, i: nat, es: seq<Entry>, rule: OutputRule)
    requires Sorted(input) && i < |input| && Ended(gps, input, i + 1, es, rule)
    ensures EndsBefore(gps, input, es, rule, input[i].key)
  {
    hide StopsBefore;
    if rule.built(es) < rule.maxFileSize {
      var m :| 0 <= m < i + 1 && StopsBefore(gps, input, m) && Less(es[|es| - 1].key, input[m].key);
      LessIsStrictTotalOrder(input[m].key, input[i].key, input[m].key);
    }
  }

  lemma MoreIsUndivided(gps: seq<File>, input: seq<Entry>, i: nat, builder: seq<Entry>, rule: OutputRule)
    requires Sorted(input) && i < |input| && builder != [] && Open(gps, input, i + 1, builder, rule)
    requires !StopsBefore(gps, input, i) && LiesWithin(gps, builder[0].key, input[i].key)
    ensures Undivided(gps, input, builder + [input[i]], rule)
  {
    hide StopsBefore, LiesWithin, CountedFrom, PassedBy;
    var more, last := builder + [input[i]], builder[|builder| - 1];
    forall n | 0 < n < |more| ensures rule.built(more[..n]) < rule.maxFileSize {
      assert more[..n] == builder[..n];
      assert n == |builder| ==> builder[..n] == builder;
    }
    forall m | 0 <= m < |input| && StopsBefore(gps, input, m) && Less(last.key, input[m].key)
      ensures !AtMost(input[m].key, input[i].key)
    {
      assert m > i;
    }
    assert !StopsBetween(gps, input, last.key, input[i].key);
    hide StopsBetween;
    forall n | 0 <= n < |more| - 1 ensures !StopsBetween(gps, input, more[n].key, more[n + 1].key) {
      assert n < |builder| - 1 ==> !StopsBetween(gps, input, builder[n].key, builder[n + 1].key);
    }
  }

  // ---- the merge ----

  /** Runs the merge. */
  method DoCompactionWork(c: Compaction, input: seq<Entry>, smallestSnapshot: nat, rule: OutputRule)
    returns (outputs: seq<File>)
    requires c.Valid() && c.lastKey == None && c.Counts(input, 0) && Sorted(input)
    requires smallestSnapshot < MAX_SEQUENCE
    modifies c, c.levelPtrs
    ensures Flatten(outputs) == Survivors(input, |input|, smallestSnapshot, c.version, c.level)
    ensures GoodFiles(outputs) && Disjoint(outputs)
    ensures RightlyCut(c.grandparents, input, outputs, rule)
    ensures forall i :: 0 <= i < |outputs| ==> outputs[i].number == rule.numberOf(i) && outputs[i].size == rule.fileSize(outputs[i].entries)
  {
    hide RightlyCut, Cutting, StopsBefore, FinishedOutputs, Flatten, GoodFiles, Disjoint;
    NoOutputs(rule);
    outputs := [];
    var builder: seq<Entry> := [];  // empty when no output file is open
    var currentUserKey: Option<UserKey> := None;
    var lastSequenceForKey: nat := MAX_SEQUENCE;
    NothingCut(c.grandparents, input, rule);
    for i := 0 to |input|
      invariant c.Valid() && c.Counts(input, i)
      invariant i == 0 ==> c.lastKey == None && currentUserKey == None
      invariant i > 0 ==> currentUserKey == Some(input[i - 1].key.user) && lastSequenceForKey == input[i - 1].key.sequence
      invariant i > 0 && c.lastKey.Some? ==> c.lastKey.value <= input[i - 1].key.user
      invariant Flatten(outputs) + builder == Survivors(input, i, smallestSnapshot, c.version, c.level)
      invariant FinishedOutputs(outputs, rule)
      invariant Cutting(c.grandparents, input, i, outputs, builder, rule) && forall e :: e in builder ==> e in input[..i]
    {
      var e := input[i];
      assert i > 0 ==> Less(input[i - 1].key, e.key);
      assert forall d :: d in input[..i] ==> d in input[..i + 1];
      outputs, builder := StopOutput(c, outputs, builder, e.key, input, i, rule);
      if currentUserKey != Some(e.key.user) {
        currentUserKey := Some(e.key.user);
        lastSequenceForKey := MAX_SEQUENCE;
      }
      var drop := false;
      if lastSequenceForKey <= smallestSnapshot {
        drop := true;
      } else if e.key.kind.Deletion? && e.key.sequence <= smallestSnapshot {
        drop := c.IsBaseLevelForKey(e.key.user);
      }
      assert drop <==> Dropped(input, i, smallestSnapshot, c.version, c.level);
      lastSequenceForKey := e.key.sequence;
      if !drop {
        outputs, builder := AddToOutput(outputs, builder, e, c.grandparents, input, i, rule);
      }
    }
    CuttingGives(c.grandparents, input, |input|, outputs, builder, rule);
    if builder != [] {
      CloseOutput(c.grandparents, input, |input|, outputs, builder, rule, OutputOf(outputs, builder, rule));
      outputs, builder := FinishOutput(outputs, builder, rule);
    }
    FinishedGives(outputs, rule);
    OutputsInOrder(input, smallestSnapshot, c.version, c.level, outputs);
  }

  lemma NoOutputs(rule: OutputRule)
    ensures FinishedOutputs([], rule) && Flatten([]) == []
  {
  }

  lemma FinishedGives(outputs: seq<File>, rule: OutputRule)
    requires FinishedOutputs(outputs, rule)
    ensures forall i :: 0 <= i < |outputs| ==>
      Bracketed(outputs[i]) && outputs[i].number == rule.numberOf(i) && outputs[i].size == rule.fileSize(outputs[i].entries)
  {
  }

  lemma NothingCut(gps: seq<File>, input: seq<Entry>, rule: OutputRule)
    ensures Cutting(gps, input, 0, [], [], rule)
  {
  }

  ghost predicate FinishedOutputs(outputs: seq<File>, rule: OutputRule) {
    forall j :: 0 <= j < |outputs| ==>
      Bracketed(outputs[j]) && outputs[j].number == rule.numberOf(j) && outputs[j].size == rule.fileSize(outputs[j].entries)
  }

  function OutputOf(outputs: seq<File>, builder: seq<Entry>, rule: OutputRule): File
    requires builder != []
  {
    File(rule.numberOf(|outputs|), rule.fileSize(builder), builder[0].key, builder[|builder| - 1].key, builder)
  }

  /** Closes the output being built. */
  method FinishOutput(outputs: seq<File>, builder: seq<Entry>, rule: OutputRule)
    returns (outputs': seq<File>, builder': seq<Entry>)
    requires FinishedOutputs(outputs, rule) && builder != []
    ensures outputs' == outputs + [OutputOf(outputs, builder, rule)] && builder' == []
    ensures Flatten(outputs') == Flatten(outputs) + builder && FinishedOutputs(outputs', rule)
  {
    var f := File(rule.numberOf(|outputs|), rule.fileSize(builder), builder[0].key, builder[|builder| - 1].key, builder);
    outputs', builder' := outputs + [f], [];
    assert outputs'[..|outputs'| - 1] == outputs;
  }

  /** Looks at the next key, and closes the output being built if that may not take it. */
  method StopOutput(c: Compaction, outputs: seq<File>, builder: seq<Entry>, k: Key, ghost input: seq<Entry>, ghost i: nat,
                    rule: OutputRule)
    returns (outputs': seq<File>, builder': seq<Entry>)
    requires Sorted(input) && i < |input| && input[i].key == k && c.Counts(input, i) && FinishedOutputs(outputs, rule)
    requires Cutting(c.grandparents, input, i, outputs, builder, rule) && forall e :: e in builder ==> e in input[..i]
    modifies c`grandparentIndex, c`seenKey, c`overlappedBytes
    ensures c.Counts(input, i + 1) && FinishedOutputs(outputs', rule)
    ensures Flatten(outputs') + builder' == Flatten(outputs) + builder && (forall e :: e in builder' ==> e in input[..i])
    ensures Cutting(c.grandparents, input, i + 1, outputs', builder', rule)
    ensures builder' != [] ==> !StopsBefore(c.grandparents, input, i)
  {
    hide Cutting, StopsBefore, FinishedOutputs;
    var stop := c.ShouldStopBefore(k, input, i);
    outputs', builder' := outputs, builder;
    if builder == [] {
      LookedAt(c.grandparents, input, i, outputs, builder, rule, File(0, 0, k, k, []));
    } else {
      LookedAt(c.grandparents, input, i, outputs, builder, rule, OutputOf(outputs, builder, rule));
      if stop {
        outputs', builder' := FinishOutput(outputs, builder, rule);
      }
    }
  }

  /** Adds an entry, and closes the output if it is big enough. */
  method AddToOutput(outputs: seq<File>, builder: seq<Entry>, e: Entry, ghost gps: seq<File>, ghost input: seq<Entry>, ghost i: nat,
                     rule: OutputRule)
    returns (outputs': seq<File>, builder': seq<Entry>)
    requires Sorted(input) && i < |input| && input[i] == e && FinishedOutputs(outputs, rule)
    requires Cutting(gps, input, i + 1, outputs, builder, rule) && forall d :: d in builder ==> d in input[..i]
    requires builder != [] ==> !StopsBefore(gps, input, i)
    ensures Flatten(outputs') + builder' == Flatten(outputs) + builder + [e] && FinishedOutputs(outputs', rule)
    ensures Cutting(gps, input, i + 1, outputs', builder', rule) && forall d :: d in builder' ==> d in input[..i + 1]
  {
    hide Cutting, StopsBefore, FinishedOutputs, Sorted;
    Appended(gps, input, i, outputs, builder, rule, OutputOf(outputs, builder + [e], rule));
    outputs', builder' := outputs, builder + [e];
    if rule.built(builder') >= rule.maxFileSize {
      outputs', builder' := FinishOutput(outputs', builder', rule);
    }
  }

  /** What the outputs are after one more entry, whether that fills the one being built or not. */
  lemma Appended(gps: seq<File>, input: seq<Entry>, i: nat, outputs: seq<File>, builder: seq<Entry>, rule: OutputRule, f: File)
    requires Sorted(input) && i < |input| && Cutting(gps, input, i + 1, outputs, builder, rule)
    requires forall e :: e in builder ==> e in input[..i]
    requires builder != [] ==> !StopsBefore(gps, input, i)
    requires var more := builder + [input[i]]; f.entries == more && f.smallest == more[0].key
    ensures var more := builder + [input[i]];
            if rule.built(more) >= rule.maxFileSize then Cutting(gps, input, i + 1, outputs + [f], [], rule)
            else Cutting(gps, input, i + 1, outputs, more, rule)
  {
    hide Undivided, RightlyCut, EndsBefore, StopsBefore, Open;
    TakesOneMore(gps, input, i, outputs, builder, rule);
    CuttingGives(gps, input, i + 1, outputs, builder, rule);
    if rule.built(f.entries) >= rule.maxFileSize {
      CloseOutput(gps, input, i + 1, outputs, f.entries, rule, f);
    }
  }

  lemma CuttingGives(gps: seq<File>, input: seq<Entry>, n: nat, outputs: seq<File>, builder: seq<Entry>, rule: OutputRule)
    requires Cutting(gps, input, n, outputs, builder, rule)
    ensures RightlyCut(gps, input, outputs, rule)
    ensures builder != [] ==> Undivided(gps, input, builder, rule)
    ensures builder != [] && outputs != [] ==> EndsBefore(gps, input, outputs[|outputs| - 1].entries, rule, builder[0].key)
  {
  }

  /** Survivors come from the input, in its order. */
  lemma {:induction false} SurvivorsSorted(input: seq<Entry>, n: nat, snap: nat, v: Version, level: nat)
    requires n <= |input| && Sorted(input)
    ensures Sorted(Survivors(input, n, snap, v, level))
    ensures forall e :: e in Survivors(input, n, snap, v, level) ==> exists i :: 0 <= i < n && input[i] == e
  {
    if n > 0 {
      SurvivorsSorted(input, n - 1, snap, v, level);
      var before := Survivors(input, n - 1, snap, v, level);
      forall j | 0 <= j < |before| ensures Less(before[j].key, input[n - 1].key) {
        assert before[j] in before;
      }
    }
  }

  lemma OutputsInOrder(input: seq<Entry>, snap: nat, v: Version, level: nat, outputs: seq<File>)
    requires Sorted(input) && Flatten(outputs) == Survivors(input, |input|, snap, v, level)
    requires forall j :: 0 <= j < |outputs| ==> Bracketed(outputs[j])
    ensures GoodFiles(outputs) && Disjoint(outputs)
  {
    SurvivorsSorted(input, |input|, snap, v, level);
    SlicesAreDisjoint(outputs);
  }

  lemma SliceOrder(front: seq<Entry>, back: seq<Entry>)
    requires Sorted(front + back)
    ensures Sorted(front) && Sorted(back)
    ensures forall x, y :: x in front && y in back ==> Less(x.key, y.key)
  {
    var all := front + back;
    assert forall i :: 0 <= i < |front| ==> all[i] == front[i];
    assert forall i :: 0 <= i < |back| ==> all[|front| + i] == back[i];
  }

  lemma {:induction false} FlattenHolds(files: seq<File>, e: Entry)
    ensures e in Flatten(files) <==> Holds(files, e)
  {
    if files != [] {
      var front, last := files[..|files| - 1], files[|files| - 1];
      FlattenHolds(front, e);
      assert files == front + [last];
    }
  }

  /** Consecutive slices of a sorted sequence are sorted files in order. */
  lemma {:induction false} SlicesAreDisjoint(files: seq<File>)
    requires Sorted(Flatten(files)) && forall j :: 0 <= j < |files| ==> Bracketed(files[j])
    ensures GoodFiles(files) && Disjoint(files)
  {
    if files != [] {
      var front, last := files[..|files| - 1], files[|files| - 1];
      SliceOrder(Flatten(front), last.entries);
      SlicesAreDisjoint(front);
      forall i | 0 <= i < |front| ensures Less(front[i].largest, last.smallest) {
        assert front[i] in front;
        var e := front[i].entries[|front[i].entries| - 1];
        FlattenHolds(front, e);
      }
      assert last.Good();
    }
  }
}
