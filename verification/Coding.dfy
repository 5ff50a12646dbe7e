/** Numbers and strings of varying length (util/coding.cc). */
module Coding {
  import opened Wrappers
  import opened ByteStrings

  const WORD64: nat := WORD * WORD

  function Place(i: nat): (p: nat)
    ensures p > 0
  {
    if i == 0 then 1 else 128 * Place(i - 1)
  }

  datatype Parsed = Parsed(value: nat, size: nat)

  /** What a varint's bytes from the `i`th on add up to, of at most `count` bytes. */
  function VarintAt(s: Bytes, i: nat, count: nat): (r: Option<Parsed>)
    ensures r.Some? ==> i < r.value.size <= |s| && r.value.size <= count
    decreases count - i
  {
    if i >= count || i >= |s| then None
    else if s[i] < 128 then Some(Parsed(s[i] * Place(i), i + 1))
    else match VarintAt(s, i + 1, count) {
      case None => None
      case Some(p) => Some(Parsed(s[i] % 128 * Place(i) + p.value, p.size))
    }
  }

  /** A varint at the front of a string, in words with `modulus` values: bits beyond the word are lost. */
  function GetVarint(s: Bytes, count: nat, modulus: nat): (r: Option<Parsed>)
    requires modulus > 0
    ensures r.Some? ==> 0 < r.value.size <= |s| && r.value.value < modulus
  {
    match VarintAt(s, 0, count)
    case None => None
    case Some(p) => Some(Parsed(p.value % modulus, p.size))
  }

  lemma SmallProduct(m: int, d: int)
    requires m > 0 && -m < m * d < m
    ensures d == 0
  {
    if d > 0 {
      AtLeast(m, d);
    } else if d < 0 {
      AtLeast(m, -d);
    }
  }

  lemma AtLeast(m: int, d: int)
    requires m > 0 && d > 0
    ensures m * d >= m
  {
  }

  lemma Distribute(m: int, a: int, b: int)
    ensures m * (a - b) == m * a - m * b
  {
  }

  lemma SameRemainder(x: nat, y: nat, k: int, m: nat)
    requires m > 0 && x == y + m * k
    ensures x % m == y % m
  {
    var q, q' := x / m, y / m;
    assert x == m * q + x % m && y == m * q' + y % m;
    Distribute(m, q, q');
    Distribute(m, q - q', k);
    SmallProduct(m, q - q' - k);
  }

  lemma AddModulo(a: nat, b: nat, m: nat)
    requires m > 0
    ensures (a % m + b) % m == (a + b) % m
  {
    assert a == a % m + m * (a / m);
    SameRemainder(a + b, a % m + b, a / m, m);
  }

  /** GetVarint32Ptr and GetVarint64Ptr: the groups have no bits in common, so combining them is adding. */
  method GetVarintPtr(s: Bytes, count: nat, modulus: nat) returns (r: Option<Parsed>)
    requires modulus > 0
    ensures r == GetVarint(s, count, modulus)
  {
    var result, i: nat := 0, 0;
    ghost var exact: nat := 0;
    while i < count && i < |s|
      invariant i <= |s| && result == exact % modulus
      invariant VarintAt(s, 0, count) == Added(exact, VarintAt(s, i, count))
    {
      var group := s[i] % 128 * Place(i);
      AddModulo(exact, group, modulus);
      exact := exact + group;
      if s[i] < 128 {
        return Some(Parsed((result + group) % modulus, i + 1));
      }
      result := (result + group) % modulus;
      i := i + 1;
    }
    return None;
  }

  function Added(n: nat, r: Option<Parsed>): Option<Parsed> {
    match r
    case None => None
    case Some(p) => Some(Parsed(n + p.value, p.size))
  }

  /** A number moved to the place of the `i`th group. */
  function Scaled(v: nat, i: nat): nat {
    v * Place(i)
  }

  lemma ScaledParts(v: nat, i: nat)
    ensures v < 128 ==> Scaled(v, i) == v * Place(i)
    ensures v >= 128 ==> (v % 128 + 128) % 128 * Place(i) + Scaled(v / 128, i + 1) == Scaled(v, i) && Scaled(v, i) >= Place(i + 1)
  {
    var p := Place(i);
    assert v == v % 128 + 128 * (v / 128);
    TimesAssociate(v / 128, 128, p);
    Spread(p, v % 128, 128 * (v / 128));
    if v >= 128 {
      Spread(p, 128, v - 128);
    }
  }

  lemma Spread(p: nat, a: nat, b: nat)
    ensures (a + b) * p == a * p + b * p
  {
  }

  lemma VarintBegins(v: nat, before: Bytes, after: Bytes)
    ensures var s, i := before + Varint(v) + after, |before|;
            && i < |s| && s[i] == (if v < 128 then v else v % 128 + 128)
            && |Varint(v)| == (if v < 128 then 1 else 1 + |Varint(v / 128)|)
            && (v >= 128 ==> s == (before + [s[i]]) + Varint(v / 128) + after)
  {
  }

  lemma {:induction false} VarintRoundTripAt(v: nat, before: Bytes, after: Bytes, count: nat)
    requires Scaled(v, |before|) < Place(count) && |before| < count
    ensures VarintAt(before + Varint(v) + after, |before|, count) ==
            Some(Parsed(Scaled(v, |before|), |before| + |Varint(v)|))
    decreases v
  {
    hide Place, Scaled, Varint;
    var s, i := before + Varint(v) + after, |before|;
    ScaledParts(v, i);
    VarintBegins(v, before, after);
    if v >= 128 {
      if i + 1 >= count {
        PlaceGrows(count, i + 1);
        assert false;
      }
      VarintRoundTripAt(v / 128, before + [s[i]], after, count);
    }
  }

  lemma ScaledByOne(v: nat, m: nat)
    requires v < m
    ensures Scaled(v, 0) == v && v % m == v
  {
  }

  /** A number written as a varint is read back, whatever follows it. */
  lemma VarintRoundTrip(v: nat, after: Bytes, count: nat, modulus: nat)
    requires v < modulus <= Place(count) && count > 0
    ensures GetVarint(Varint(v) + after, count, modulus) == Some(Parsed(v, |Varint(v)|))
  {
    hide Place, Scaled, Varint, VarintAt;
    ScaledByOne(v, modulus);
    VarintRoundTripAt(v, [], after, count);
    assert [] + Varint(v) + after == Varint(v) + after;
  }

  lemma {:induction false} PlaceGrows(i: nat, j: nat)
    requires i <= j
    ensures Place(i) <= Place(j)
  {
    if i < j {
      PlaceGrows(i, j - 1);
    }
  }

  // ---- strings ----

  function LengthPrefixed(b: Bytes): Bytes {
    Varint(|b| % WORD) + b
  }

  /** A value read from the front of a string, and what is left. */
  datatype Slice = Slice(value: Bytes, rest: Bytes)

  function GetLengthPrefixed(s: Bytes): (r: Option<Slice>)
    ensures r.Some? ==> |r.value.rest| < |s|
  {
    match GetVarint(s, 5, WORD)
    case None => None
    case Some(p) =>
      if |s| - p.size >= p.value then Some(Slice(s[p.size..p.size + p.value], s[p.size + p.value..])) else None
  }

  lemma FiveBytes()
    ensures WORD <= Place(5)
  {
    assert Place(1) == 128 && Place(2) == 128 * Place(1) && Place(3) == 128 * Place(2) && Place(4) == 128 * Place(3);
  }

  lemma TenBytes()
    ensures WORD64 <= Place(10)
  {
    FiveBytes();
    assert Place(6) == 128 * Place(5) && Place(7) == 128 * Place(6) && Place(8) == 128 * Place(7) && Place(9) == 128 * Place(8);
  }

  lemma LengthPrefixedRoundTrip(b: Bytes, rest: Bytes)
    requires |b| < WORD
    ensures GetLengthPrefixed(LengthPrefixed(b) + rest) == Some(Slice(b, rest))
  {
    hide Varint, GetVarint, Place;
    FiveBytes();
    VarintRoundTrip(|b|, b + rest, 5, WORD);
    assert LengthPrefixed(b) + rest == Varint(|b|) + (b + rest);
    var s, n := Varint(|b|) + (b + rest), |Varint(|b|)|;
    assert s[n..n + |b|] == b && s[n + |b|..] == rest;
  }

  lemma Varint64RoundTrip(v: nat, rest: Bytes)
    requires v < WORD64
    ensures GetVarint(Varint(v) + rest, 10, WORD64) == Some(Parsed(v, |Varint(v)|))
    ensures (Varint(v) + rest)[|Varint(v)|..] == rest
  {
    hide Varint, GetVarint, Place;
    TenBytes();
    VarintRoundTrip(v, rest, 10, WORD64);
  }

  lemma Varint32RoundTrip(v: nat, rest: Bytes)
    requires v < WORD
    ensures GetVarint(Varint(v) + rest, 5, WORD) == Some(Parsed(v, |Varint(v)|))
    ensures (Varint(v) + rest)[|Varint(v)|..] == rest
  {
    hide Varint, GetVarint, Place;
    FiveBytes();
    VarintRoundTrip(v, rest, 5, WORD);
  }

  function Fixed64(v: nat): (s: Bytes)
    requires v < WORD64
    ensures |s| == 8
  {
    Fixed32(v % WORD) + Fixed32(v / WORD)
  }

  function DecodeFixed64(s: Bytes): (v: nat)
    requires |s| == 8
  {
    DecodeFixed32(s[..4]) + WORD * DecodeFixed32(s[4..])
  }

  lemma Fixed64RoundTrip(v: nat)
    requires v < WORD64
    ensures DecodeFixed64(Fixed64(v)) == v
  {
    Fixed32RoundTrip(v % WORD);
    Fixed32RoundTrip(v / WORD);
    assert Fixed64(v)[..4] == Fixed32(v % WORD) && Fixed64(v)[4..] == Fixed32(v / WORD);
  }

  /** Something read from the front of a string, and what is left. */
  datatype Read<T> = Read(value: T, rest: Bytes)

  function GetNumber(s: Bytes): (r: Option<Read<nat>>)
    ensures r.Some? ==> |r.value.rest| < |s|
  {
    match GetVarint(s, 10, WORD64)
    case None => None
    case Some(p) => Some(Read(p.value, s[p.size..]))
  }

  lemma NumberIsRead(n: nat, rest: Bytes)
    requires n < WORD64
    ensures GetNumber(Varint(n) + rest) == Some(Read(n, rest))
  {
    Varint64RoundTrip(n, rest);
  }

  /** Numbers as 32-bit words, one after the other. */
  function Words(restarts: seq<nat>): Bytes {
    if restarts == [] then [] else Words(restarts[..|restarts| - 1]) + Fixed32(restarts[|restarts| - 1] % WORD)
  }

  lemma {:induction false} WordsAt(rs: seq<nat>, r: nat)
    requires r < |rs|
    ensures |Words(rs)| == 4 * |rs|
    ensures Words(rs)[4 * r..4 * r + 4] == Fixed32(rs[r] % WORD)
    decreases |rs|
  {
    var n := |rs| - 1;
    var before, last := Words(rs[..n]), Fixed32(rs[n] % WORD);
    hide Fixed32;
    if n > 0 {
      WordsAt(rs[..n], if r < n then r else 0);
    }
    assert Words(rs) == before + last && |before| == 4 * n;
    if r < n {
      assert (before + last)[4 * r..4 * r + 4] == before[4 * r..4 * r + 4];
    }
  }

  lemma SliceOfSlice(s: Bytes, a: nat, b: nat, c: nat, d: nat)
    requires a <= b <= |s| && c <= d <= b - a
    ensures s[a..b][c..d] == s[a + c..a + d]
  {
    forall k | 0 <= k < d - c ensures s[a..b][c..d][k] == s[a + c..a + d][k] {
      assert s[a..b][c + k] == s[a + c + k];
    }
  }

  lemma ThreeParts(buffer: Bytes, middle: Bytes, last: Bytes)
    ensures var s := buffer + middle + last;
            && s[..|buffer|] == buffer && s[|buffer|..|buffer| + |middle|] == middle && s[|buffer| + |middle|..] == last
  {
  }

  lemma SmallWord(w: nat, v: nat)
    requires v < WORD && w == v % WORD
    ensures w == v && w % WORD == v
  {
  }

  /** A word among others, read from its place. */
  lemma WordIn(buffer: Bytes, points: Bytes, last: Bytes, r: nat, v: nat)
    requires 4 * r + 4 <= |points| && v < WORD && points[4 * r..4 * r + 4] == Fixed32(v)
    ensures |buffer| + 4 * r + 4 <= |buffer + points + last|
    ensures DecodeFixed32((buffer + points + last)[|buffer| + 4 * r..|buffer| + 4 * r + 4]) == v
  {
    hide Fixed32, DecodeFixed32;
    Fixed32RoundTrip(v);
    ThreeParts(buffer, points, last);
    SliceOfSlice(buffer + points + last, |buffer|, |buffer| + |points|, 4 * r, 4 * r + 4);
  }

  lemma {:induction false} WordsLength(ws: seq<nat>)
    ensures |Words(ws)| == 4 * |ws|
    decreases |ws|
  {
    if ws != [] {
      WordsLength(ws[..|ws| - 1]);
    }
  }

  lemma WordsMore(ws: seq<nat>, w: nat)
    ensures Words(ws + [w]) == Words(ws) + Fixed32(w % WORD)
  {
    assert (ws + [w])[..|ws|] == ws;
  }
}
