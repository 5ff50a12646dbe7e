/** The bytewise order of user keys and the shortening of index keys (util/comparator.cc, db/dbformat.cc). */
module Comparators {
  import opened ByteStrings
  import opened Coding
  import opened InternalKeys

  /** Lexicographic order on unsigned bytes; a proper prefix comes first. */
  predicate Before(a: Bytes, b: Bytes) {
    b != [] && (a == [] || a[0] < b[0] || (a[0] == b[0] && Before(a[1..], b[1..])))
  }

  /** The position of a byte string among all byte strings, as a fraction in base 257. */
  ghost function Rank(s: Bytes): (r: real)
    ensures 0.0 <= r < 1.0
  {
    if s == [] then 0.0 else (s[0] as real + 1.0 + Rank(s[1..])) / 257.0
  }

  lemma {:induction false} BeforeIsTotal(a: Bytes, b: Bytes)
    ensures Before(a, b) || a == b || Before(b, a)
    decreases |a|
  {
    if a != [] && b != [] && a[0] == b[0] {
      BeforeIsTotal(a[1..], b[1..]);
      assert a == [a[0]] + a[1..] && b == [b[0]] + b[1..];
    }
  }

  lemma {:induction false} BeforeRaisesRank(a: Bytes, b: Bytes)
    requires Before(a, b)
    ensures Rank(a) < Rank(b)
    decreases |a|
  {
    if a != [] && a[0] == b[0] {
      BeforeRaisesRank(a[1..], b[1..]);
    }
  }

  /** Ordering user keys by rank is ordering them bytewise, so reals stand for them faithfully. */
  lemma RankEmbedsCompare(a: Bytes, b: Bytes)
    ensures Before(a, b) <==> Rank(a) < Rank(b)
    ensures a == b <==> Rank(a) == Rank(b)
  {
    BeforeIsTotal(a, b);
    if Before(a, b) {
      BeforeRaisesRank(a, b);
    }
    if Before(b, a) {
      BeforeRaisesRank(b, a);
    }
  }

  predicate CommonPrefix(a: Bytes, b: Bytes, n: nat) {
    n <= |a| && n <= |b| && forall i :: 0 <= i < n ==> a[i] == b[i]
  }

  /** After a common prefix the order is decided by what follows. */
  lemma {:induction false} BeforeAfterPrefix(a: Bytes, b: Bytes, i: nat)
    requires CommonPrefix(a, b, i)
    ensures Before(a, b) <==> Before(a[i..], b[i..])
    decreases i
  {
    if i == 0 {
      assert a[0..] == a && b[0..] == b;
    } else {
      assert a[1..][i - 1..] == a[i..] && b[1..][i - 1..] == b[i..];
      BeforeAfterPrefix(a[1..], b[1..], i - 1);
    }
  }

  /** Slice::compare: the common length bytewise, then the lengths. */
  method Compare(a: Bytes, b: Bytes) returns (r: int)
    ensures r < 0 <==> Before(a, b)
    ensures r == 0 <==> a == b
    ensures r > 0 <==> Before(b, a)
  {
    var i := 0;
    while i < |a| && i < |b| && a[i] == b[i]
      invariant CommonPrefix(a, b, i)
    {
      i := i + 1;
    }
    BeforeAfterPrefix(a, b, i);
    BeforeAfterPrefix(b, a, i);
    if i < |a| && i < |b| {
      return a[i] as int - b[i] as int;
    }
    return if i < |b| then -1 else if i < |a| then 1 else 0;
  }

  /** The first byte that differs, if it can grow without reaching the limit's. */
  predicate CanGrow(start: Bytes, limit: Bytes, i: nat) {
    i < |start| && i < |limit| && CommonPrefix(start, limit, i) && start[i] as int + 1 < limit[i]
  }

  /** `r` ends at the first byte that differs, which is one more; unless it cannot grow. */
  ghost predicate IsSeparator(start: Bytes, limit: Bytes, r: Bytes) {
    if exists i: nat :: CanGrow(start, limit, i) then
      exists i: nat :: CanGrow(start, limit, i) && r == start[..i] + [start[i] + 1]
    else r == start
  }

  lemma SeparatorAt(start: Bytes, limit: Bytes, i: nat, r: Bytes)
    requires CanGrow(start, limit, i) && r == start[..i] + [start[i] + 1]
    ensures Before(start, r) && Before(r, limit)
  {
    BeforeAfterPrefix(start, r, i);
    BeforeAfterPrefix(r, limit, i);
  }

  /** A key from `start` up to but excluding `limit`, cut after the first byte that leaves room to grow. */
  method FindShortestSeparator(start: Bytes, limit: Bytes) returns (r: Bytes)
    ensures r == start || (|r| <= |start| && Before(start, r) && Before(r, limit))
    ensures IsSeparator(start, limit, r) && (r != start <==> exists i: nat :: CanGrow(start, limit, i))
  {
    var diff := 0;
    while diff < |start| && diff < |limit| && start[diff] == limit[diff]
      invariant CommonPrefix(start, limit, diff)
    {
      diff := diff + 1;
    }
    r := start;
    if diff < |start| && diff < |limit| {
      if start[diff] < 0xff && start[diff] as int + 1 < limit[diff] {
        assert CanGrow(start, limit, diff);
        r := start[..diff] + [start[diff] + 1];
        SeparatorAt(start, limit, diff, r);
        assert r[diff] != start[diff];
      }
    }
  }

  lemma ShorterIsBefore(t: Bytes, key: Bytes, i: nat)
    requires |t| < i <= |key| && forall j :: 0 <= j < i ==> key[j] == 0xff || j == i - 1
    ensures Before(t, key)
    decreases i
  {
    if t != [] && t[0] == key[0] {
      ShorterIsBefore(t[1..], key[1..], i - 1);
    }
  }

  /** The first byte that is not 0xff. */
  predicate FirstToGrow(key: Bytes, i: nat) {
    i < |key| && key[i] < 0xff && forall j :: 0 <= j < i ==> key[j] == 0xff
  }

  ghost predicate IsSuccessor(key: Bytes, r: Bytes) {
    if exists i: nat :: FirstToGrow(key, i) then exists i: nat :: FirstToGrow(key, i) && r == key[..i] + [key[i] + 1]
    else r == key
  }

  /** The shortest key at or after `key`, grown at its first byte that is not 0xff. */
  method FindShortSuccessor(key: Bytes) returns (r: Bytes)
    ensures IsSuccessor(key, r)
    ensures r == key || Before(key, r)
    ensures forall t: Bytes :: |t| < |r| ==> Before(t, key)
    ensures r == key <==> forall i :: 0 <= i < |key| ==> key[i] == 0xff
  {
    var i := 0;
    while i < |key|
      invariant i <= |key| && forall j :: 0 <= j < i ==> key[j] == 0xff
    {
      if key[i] != 0xff {
        assert FirstToGrow(key, i);
        r := key[..i] + [key[i] + 1];
        BeforeAfterPrefix(key, r, i);
        forall t: Bytes | |t| < |r| ensures Before(t, key) {
          ShorterIsBefore(t, key, i + 1);
        }
        return;
      }
      i := i + 1;
    }
    r := key;
    forall t: Bytes | |t| < |r| ensures Before(t, key) {
      ShorterIsBefore(t, key, |key|);
    }
  }

  // ---- internal keys over byte strings ----

  /** An internal key ends in eight bytes of sequence number and type. */
  function UserPart(key: Bytes): Bytes {
    if |key| >= 8 then key[..|key| - 8] else []
  }

  function TagPart(key: Bytes): nat {
    if |key| >= 8 then DecodeFixed64(key[|key| - 8..]) else 0
  }

  /** By user key, then by decreasing tag. */
  predicate KeyBefore(a: Bytes, b: Bytes) {
    Before(UserPart(a), UserPart(b)) || (UserPart(a) == UserPart(b) && TagPart(a) > TagPart(b))
  }

  lemma KeyOrder(a: Bytes, b: Bytes)
    ensures KeyBefore(a, b) <==> Rank(UserPart(a)) < Rank(UserPart(b)) ||
                                 (Rank(UserPart(a)) == Rank(UserPart(b)) && TagPart(a) > TagPart(b))
  {
    RankEmbedsCompare(UserPart(a), UserPart(b));
  }

  /** The shortened key carries the largest tag, so it precedes every entry of its own user key. */
  function Earliest(user: Bytes): (key: Bytes)
    ensures UserPart(key) == user && TagPart(key) == MAX_SEQUENCE * 256 + 1
  {
    Fixed64RoundTrip(MAX_SEQUENCE * 256 + 1);
    user + Fixed64(MAX_SEQUENCE * 256 + 1)
  }

  /** The user key is shortened if that makes it shorter. */
  ghost predicate IsInternalSeparator(start: Bytes, limit: Bytes, r: Bytes) {
    exists tmp :: IsSeparator(UserPart(start), UserPart(limit), tmp) &&
      r == if |tmp| < |UserPart(start)| then Earliest(tmp) else start
  }

  ghost predicate IsInternalSuccessor(key: Bytes, r: Bytes) {
    exists tmp :: IsSuccessor(UserPart(key), tmp) && r == if |tmp| < |UserPart(key)| then Earliest(tmp) else key
  }

  /** Separates two adjacent blocks of a table. */
  method FindShortestInternalSeparator(start: Bytes, limit: Bytes) returns (r: Bytes)
    requires KeyBefore(start, limit)
    ensures IsInternalSeparator(start, limit, r) && !KeyBefore(r, start) && KeyBefore(r, limit)
    ensures r == start || (r == Earliest(UserPart(r)) && |UserPart(r)| < |UserPart(start)| &&
                           Before(UserPart(start), UserPart(r)) && Before(UserPart(r), UserPart(limit)))
  {
    hide TagPart, DecodeFixed64, IsSeparator;
    var userStart, userLimit := UserPart(start), UserPart(limit);
    var tmp := FindShortestSeparator(userStart, userLimit);
    var c := Compare(userStart, tmp);
    KeyOrder(start, start);
    if |tmp| < |userStart| && c < 0 {
      r := Earliest(tmp);
      RankEmbedsCompare(userStart, tmp);
      RankEmbedsCompare(tmp, userLimit);
      KeyOrder(r, start);
      KeyOrder(r, limit);
    } else {
      r := start;
    }
  }

  /** Closes the last block of a table. */
  method FindShortInternalSuccessor(key: Bytes) returns (r: Bytes)
    ensures IsInternalSuccessor(key, r) && !KeyBefore(r, key)
    ensures r == key || (r == Earliest(UserPart(r)) && |UserPart(r)| < |UserPart(key)| && Before(UserPart(key), UserPart(r)))
  {
    hide TagPart, DecodeFixed64, IsSuccessor;
    var user := UserPart(key);
    var tmp := FindShortSuccessor(user);
    var c := Compare(user, tmp);
    KeyOrder(key, key);
    if |tmp| < |user| && c < 0 {
      r := Earliest(tmp);
      RankEmbedsCompare(user, tmp);
      KeyOrder(r, key);
    } else {
      r := key;
    }
  }
}
