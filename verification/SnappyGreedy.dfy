/** What the compressor makes of a block: which matches it finds through its hash table, and which elements it writes
    (the choices in snappy.cc, apart from the bytes they are written in). */
module SnappyGreedy {
  import opened ByteStrings
  import opened Wrappers
  import opened SnappyFormat
  import opened SnappyElements
  import opened SnappyMatch

  const BLOCK_SIZE: nat := 0x1_0000
  const INPUT_MARGIN_BYTES: nat := 15

  type uint16 = x: nat | x < 0x1_0000

  // ---- literals ----

  /** Bytes needed to write `n`: the fewest that can; none for zero. */
  function LengthBytes(n: nat): (count: nat)
    ensures n < Values(count) && (count > 0 ==> Values(count - 1) <= n)
  {
    if n == 0 then 0 else 1 + LengthBytes(n / 256)
  }

  lemma FourLengthBytes(n: nat)
    requires 0 < n < WORD
    ensures 1 <= LengthBytes(n) <= 4
    ensures n < 0x1_0000 ==> LengthBytes(n) <= 2
    ensures n < 0x100 ==> LengthBytes(n) <= 1
  {
    FewValues();
    ValuesGrow(1, LengthBytes(n) - 1);
    ValuesGrow(2, LengthBytes(n) - 1);
    ValuesGrow(4, LengthBytes(n) - 1);
  }

  lemma {:induction false} ValuesGrow(m: nat, n: int)
    ensures m <= n ==> Values(m) <= Values(n)
    decreases n
  {
    if m < n {
      ValuesGrow(m, n - 1);
    }
  }

  function LiteralToken(data: Bytes): (t: Token)
    requires 0 < |data| < WORD
    ensures Legal(t) && Meant(t) == Literal(data)
  {
    if |data| <= 60 then ShortLiteral(data)
    else
      FourLengthBytes(|data| - 1);
      LongLiteral(data, LengthBytes(|data| - 1))
  }

  /** What is left of a block, as a literal. */
  function LastLiteral(block: Bytes, from: nat): (ts: seq<Token>)
    requires from <= |block| < WORD
    ensures AllLegal(ts)
  {
    if from == |block| then [] else [LiteralToken(block[from..])]
  }

  // ---- copies ----

  /** A copy of at most 64 bytes: two bytes if both numbers are small, otherwise three. */
  function Piece(offset: nat, len: nat): (t: Token)
    requires 4 <= len <= 64 && 0 < offset < 0x1_0000
    ensures Legal(t) && Meant(t) == Copy(offset, len) && 2 <= |TokenBytes(t)| <= 3
  {
    if len < 12 && offset < 2048 then CopyOne(offset, len) else CopyTwo(offset, len)
  }

  /** A copy of any length: pieces of 64 bytes as long as at least four are left for the rest, which takes one piece,
      or two if it is too long for one. */
  function Pieces(offset: nat, len: nat): (ts: seq<Token>)
    requires 4 <= len && 0 < offset < 0x1_0000
    ensures AllLegal(ts)
  {
    if len >= 68 then [Piece(offset, 64)] + Pieces(offset, len - 64)
    else if len > 64 then [Piece(offset, 60), Piece(offset, len - 60)]
    else [Piece(offset, len)]
  }

  lemma {:induction false} CodeConcat(a: seq<Token>, b: seq<Token>)
    requires AllLegal(a) && AllLegal(b)
    ensures AllLegal(a + b) && Code(a + b) == Code(a) + Code(b)
  {
    hide TokenBytes, Legal;
    if a == [] {
      assert a + b == b;
    } else {
      assert (a + b)[1..] == a[1..] + b;
      CodeConcat(a[1..], b);
    }
  }

  lemma {:induction false} OutputThen(a: seq<Token>, b: seq<Token>, out: Bytes, limit: nat)
    requires Output(a, out, limit).Some?
    ensures Output(a + b, out, limit) == Output(b, Output(a, out, limit).value, limit)
    decreases |a|
  {
    hide Apply, Meant;
    if a == [] {
      assert a + b == b;
    } else {
      assert (a + b)[1..] == a[1..] + b;
      OutputThen(a[1..], b, Apply(Meant(a[0]), out, limit).value, limit);
    }
  }

  /** In however many pieces, a copy means one overlapping copy. */
  lemma {:induction false} PiecesCopy(offset: nat, len: nat, out: Bytes, limit: nat)
    requires 4 <= len && 0 < offset < 0x1_0000 && offset <= |out| && |out| + len <= limit
    ensures Output(Pieces(offset, len), out, limit) == Some(CopyBytes(out, offset, len))
    decreases len
  {
    hide CopyBytes, Piece;
    if len >= 68 {
      CopyInTwo(out, offset, 64, len - 64);
      PiecesCopy(offset, len - 64, CopyBytes(out, offset, 64), limit);
      OutputThen([Piece(offset, 64)], Pieces(offset, len - 64), out, limit);
    } else if len > 64 {
      CopyInTwo(out, offset, 60, len - 60);
      OutputThen([Piece(offset, 60)], [Piece(offset, len - 60)], out, limit);
      assert [Piece(offset, 60)] + [Piece(offset, len - 60)] == Pieces(offset, len);
    }
  }

  /** The code of a copy is shorter than what it stands for. */
  lemma {:induction false} PiecesAreShorter(offset: nat, len: nat)
    requires 4 <= len && 0 < offset < 0x1_0000
    ensures 0 < |Code(Pieces(offset, len))| < len
  {
    hide TokenBytes, Piece;
    if len >= 68 {
      PiecesAreShorter(offset, len - 64);
      CodeConcat([Piece(offset, 64)], Pieces(offset, len - 64));
    } else if len > 64 {
      CodeConcat([Piece(offset, 60)], [Piece(offset, len - 60)]);
      assert [Piece(offset, 60)] + [Piece(offset, len - 60)] == Pieces(offset, len);
    }
  }

  // ---- the hash table ----

  function ShiftedRight(word: nat, unit: nat): nat
    requires 0 < unit
  {
    word / unit
  }

  function HashBytes(bytes: nat, shift: nat): nat {
    ShiftedRight(bytes * 0x1e35a7bd % WORD, Two(shift))
  }

  function Hash(input: Bytes, at: nat, shift: nat): nat
    requires at + 4 <= |input|
  {
    HashBytes(Load(input, at, 4), shift)
  }

  /** Hashes shifted by this are indices of a table of this size. */
  ghost predicate GoodSize(size: nat, shift: nat) {
    size * Two(shift) == WORD
  }

  lemma HashFits(input: Bytes, at: nat, size: nat, shift: nat)
    requires at + 4 <= |input| && GoodSize(size, shift)
    ensures Hash(input, at, shift) < size
  {
    QuotientFits(Load(input, at, 4) * 0x1e35a7bd % WORD, size, Two(shift));
  }

  lemma QuotientFits(h: nat, size: nat, unit: nat)
    requires 0 < unit && h < size * unit
    ensures h / unit < size
  {
    if h / unit >= size {
      TimesMonotone(unit, size, h / unit);
    }
  }

  /** The least power of two from 2^8 to 2^14 that is as large as the block, or the last of them. */
  function TableSize(n: nat): nat {
    if n <= 0x100 then 0x100
    else if n <= 0x200 then 0x200
    else if n <= 0x400 then 0x400
    else if n <= 0x800 then 0x800
    else if n <= 0x1000 then 0x1000
    else if n <= 0x2000 then 0x2000
    else 0x4000
  }

  /** The bits of a 32-bit hash that do not fit the table. */
  function TableShift(n: nat): nat {
    if n <= 0x100 then 24
    else if n <= 0x200 then 23
    else if n <= 0x400 then 22
    else if n <= 0x800 then 21
    else if n <= 0x1000 then 20
    else if n <= 0x2000 then 19
    else 18
  }

  lemma TableIsGood(n: nat)
    ensures GoodSize(TableSize(n), TableShift(n))
  {
    assert Two(18) == 0x4_0000 by {
      assert Two(6) == 64 && Two(12) == 64 * 64;
    }
    assert Two(19) == 2 * Two(18) && Two(20) == 2 * Two(19) && Two(21) == 2 * Two(20);
    assert Two(22) == 2 * Two(21) && Two(23) == 2 * Two(22) && Two(24) == 2 * Two(23);
  }

  function Cleared(size: nat): seq<uint16> {
    seq(size, _ => 0)
  }

  /** Every position in the table lies before `ip`. */
  ghost predicate Below(table: seq<uint16>, ip: nat) {
    forall h :: 0 <= h < |table| ==> table[h] < ip
  }

  lemma BelowLater(table: seq<uint16>, ip: nat, ip': nat)
    requires Below(table, ip) && ip <= ip'
    ensures Below(table, ip')
  {
  }

  // ---- finding matches ----

  /** The input from `ip` on begins with the four bytes it has at `candidate`; and the table then. */
  datatype Hit = Hit(ip: nat, candidate: nat, table: seq<uint16>)

  ghost predicate Matches(input: Bytes, hit: Hit, shift: nat) {
    && hit.candidate < hit.ip && hit.ip + INPUT_MARGIN_BYTES < |input| <= BLOCK_SIZE
    && Load(input, hit.ip, 4) == Load(input, hit.candidate, 4)
    && GoodSize(|hit.table|, shift) && Below(hit.table, hit.ip + 1)
  }

  ghost predicate MaySearch(input: Bytes, ip: nat, table: seq<uint16>, shift: nat) {
    && ip + INPUT_MARGIN_BYTES <= |input| + 1 && INPUT_MARGIN_BYTES <= |input| <= BLOCK_SIZE
    && GoodSize(|table|, shift) && Below(table, ip)
  }

  /** The first match from `ip` on, as far as the table knows; it is asked at every position at first, and after every
      32 questions one byte more is passed over each time. */
  ghost function SearchFrom(input: Bytes, ip: nat, skip: nat, table: seq<uint16>, shift: nat): (hit: Option<Hit>)
    requires MaySearch(input, ip, table, shift) && 32 <= skip
    ensures hit.Some? ==> ip <= hit.value.ip && Matches(input, hit.value, shift)
    decreases |input| - ip
  {
    if ip + skip / 32 + INPUT_MARGIN_BYTES > |input| then None
    else
      HashFits(input, ip, |table|, shift);
      var h := Hash(input, ip, shift);
      var candidate, table' := table[h], table[h := ip];
      if Load(input, ip, 4) == Load(input, candidate, 4) then Some(Hit(ip, candidate, table'))
      else SearchFrom(input, ip + skip / 32, skip + 1, table', shift)
  }

  lemma OneMore(input: Bytes, s1: nat, s2: nat, n: nat)
    requires s1 < s2 < |input| && input[s1] == input[s2] && MatchLength(input, s1 + 1, s2 + 1, |input|, n)
    ensures MatchLength(input, s1, s2, |input|, 1 + n)
  {
    assert input[s1..s1 + 1] == [input[s1]] && input[s2..s2 + 1] == [input[s2]];
    MatchFurther(input, s1, s2, 1, n);
  }

  /** How far the input from `s1` agrees with the input from `s2`. */
  function CommonLength(input: Bytes, s1: nat, s2: nat): (n: nat)
    requires s1 < s2 <= |input|
    ensures MatchLength(input, s1, s2, |input|, n)
    decreases |input| - s2
  {
    if s2 < |input| && input[s1] == input[s2] then
      OneMore(input, s1, s2, CommonLength(input, s1 + 1, s2 + 1));
      1 + CommonLength(input, s1 + 1, s2 + 1)
    else 0
  }

  lemma AgreeAt(input: Bytes, s1: nat, s2: nat, n: nat, k: nat)
    requires s1 + n <= |input| && s2 + n <= |input| && input[s1..s1 + n] == input[s2..s2 + n]
    ensures k < n ==> input[s1 + k] == input[s2 + k]
  {
    assert k < n ==> input[s1..s1 + n][k] == input[s2..s2 + n][k];
  }

  lemma OneMatchLength(input: Bytes, s1: nat, s2: nat, m: nat, n: nat)
    requires MatchLength(input, s1, s2, |input|, m) && MatchLength(input, s1, s2, |input|, n)
    ensures m == n
  {
    AgreeAt(input, s1, s2, n, m);
    AgreeAt(input, s1, s2, m, n);
  }

  lemma FourAgree(input: Bytes, hit: Hit, shift: nat)
    requires Matches(input, hit, shift)
    ensures CommonLength(input, hit.candidate, hit.ip) >= 4
  {
    hide LittleEndian, CommonLength;
    EqualWords(input[hit.ip..hit.ip + 4], input[hit.candidate..hit.candidate + 4]);
    AgreeAt(input, hit.candidate, hit.ip, 4, CommonLength(input, hit.candidate, hit.ip));
  }

  /** The table after a copy that ends at `ip`, and what it knew of the bytes there: the last position copied and this
      one go in. */
  ghost function Again(input: Bytes, ip: nat, table: seq<uint16>, shift: nat): (hit: Hit)
    requires 0 < ip && ip + INPUT_MARGIN_BYTES < |input| <= BLOCK_SIZE && GoodSize(|table|, shift) && Below(table, ip)
    ensures hit.ip == ip && hit.candidate < ip && |hit.table| == |table| && Below(hit.table, ip + 1)
  {
    HashFits(input, ip - 1, |table|, shift);
    HashFits(input, ip, |table|, shift);
    var table' := table[Hash(input, ip - 1, shift) := ip - 1];
    var h := Hash(input, ip, shift);
    Hit(ip, table'[h], table'[h := ip])
  }

  /** The rest of the block from a match on: a copy as long as the match goes on, and if the next bytes match as well
      another, until the search begins again or the block is nearly at its end. */
  ghost function CopiesFrom(input: Bytes, hit: Hit, shift: nat): (ts: seq<Token>)
    requires Matches(input, hit, shift)
    ensures AllLegal(ts)
    decreases |input| - hit.ip, 0
  {
    FourAgree(input, hit, shift);
    var len := CommonLength(input, hit.candidate, hit.ip);
    var ip := hit.ip + len;
    Pieces(hit.ip - hit.candidate, len) +
    if ip + INPUT_MARGIN_BYTES >= |input| then LastLiteral(input, ip)
    else
      var again := Again(input, ip, hit.table, shift);
      if Load(input, ip, 4) == Load(input, again.candidate, 4) then CopiesFrom(input, again, shift)
      else TokensFrom(input, ip, ip + 1, again.table, shift)
  }

  /** The rest of the block when nothing from `nextEmit` on is written yet and the search goes on at `ip`. */
  ghost function TokensFrom(input: Bytes, nextEmit: nat, ip: nat, table: seq<uint16>, shift: nat): (ts: seq<Token>)
    requires nextEmit < ip && MaySearch(input, ip, table, shift)
    ensures AllLegal(ts)
    decreases |input| - ip, 1
  {
    match SearchFrom(input, ip, 32, table, shift)
    case None => LastLiteral(input, nextEmit)
    case Some(hit) => [LiteralToken(input[nextEmit..hit.ip])] + CopiesFrom(input, hit, shift)
  }

  /** A whole block, with a table in which nothing has been entered. */
  ghost function Greedy(block: Bytes): (ts: seq<Token>)
    requires |block| <= BLOCK_SIZE
    ensures AllLegal(ts)
  {
    TableIsGood(|block|);
    if |block| < INPUT_MARGIN_BYTES then LastLiteral(block, 0)
    else TokensFrom(block, 0, 1, Cleared(TableSize(|block|)), TableShift(|block|))
  }

  /** What remains to be chosen: the last literal, or everything from where the search goes on. */
  ghost function Left(input: Bytes, nextEmit: nat, ip: nat, more: bool, table: seq<uint16>, shift: nat): (ts: seq<Token>)
    requires nextEmit <= |input| < WORD && (more ==> nextEmit < ip && MaySearch(input, ip, table, shift))
  {
    if more then TokensFrom(input, nextEmit, ip, table, shift) else LastLiteral(input, nextEmit)
  }

  lemma CopyAtEnd(input: Bytes, hit: Hit, shift: nat, ip: nat)
    requires Matches(input, hit, shift) && ip == hit.ip + CommonLength(input, hit.candidate, hit.ip) >= hit.ip + 4
    requires ip + INPUT_MARGIN_BYTES >= |input|
    ensures CopiesFrom(input, hit, shift) == Pieces(hit.ip - hit.candidate, ip - hit.ip) + Left(input, ip, 0, false, [], shift)
  {
    hide CommonLength, Pieces, LastLiteral, Load, GoodSize;
  }

  lemma CopyThenAgain(input: Bytes, hit: Hit, shift: nat, ip: nat)
    requires Matches(input, hit, shift) && ip == hit.ip + CommonLength(input, hit.candidate, hit.ip) >= hit.ip + 4
    requires ip + INPUT_MARGIN_BYTES < |input|
    ensures Below(hit.table, ip)
    ensures var again := Again(input, ip, hit.table, shift);
            CopiesFrom(input, hit, shift) == Pieces(hit.ip - hit.candidate, ip - hit.ip) +
              if Load(input, ip, 4) == Load(input, again.candidate, 4) then CopiesFrom(input, again, shift)
              else Left(input, ip, ip + 1, true, again.table, shift)
  {
    hide CommonLength, Pieces, LastLiteral, Load, Again, TokensFrom, GoodSize;
    BelowLater(hit.table, hit.ip + 1, ip);
  }

  function BlockLength(left: nat): (n: nat)
    ensures n <= left && (left > 0 ==> n > 0)
  {
    if left < BLOCK_SIZE then left else BLOCK_SIZE
  }

  /** A whole input, block after block. */
  ghost function Chosen(input: Bytes): (ts: seq<Token>)
    ensures AllLegal(ts)
    decreases |input|
  {
    if input == [] then []
    else
      var n := BlockLength(|input|);
      Greedy(input[..n]) + Chosen(input[n..])
  }

  // ---- the choices mean the input ----

  lemma LastLiteralMeans(before: Bytes, block: Bytes, from: nat, limit: nat)
    requires from <= |block| < WORD && |before| + |block| <= limit
    ensures Output(LastLiteral(block, from), before + block[..from], limit) == Some(before + block)
  {
    if from == |block| {
      assert block[..from] == block;
    } else {
      assert before + block[..from] + block[from..] == before + block;
    }
  }

  lemma MatchIsCopy(before: Bytes, block: Bytes, candidate: nat, ip: nat, len: nat)
    requires candidate < ip && MatchLength(block, candidate, ip, |block|, len)
    ensures CopyBytes(before + block[..ip], ip - candidate, len) == before + block[..ip + len]
  {
    var middle, all, offset := before + block[..ip], before + block[..ip + len], ip - candidate;
    forall k | |middle| <= k < |all| ensures all[k] == all[k - offset] {
      var i := k - |middle|;
      assert block[ip..ip + len][i] == block[candidate..candidate + len][i];
    }
    assert all[..|middle|] == middle;
    RepeatsIsCopy(middle, offset, len, all);
  }

  lemma {:induction false} CopiesMean(before: Bytes, input: Bytes, hit: Hit, shift: nat, limit: nat)
    requires Matches(input, hit, shift) && |before| + |input| <= limit
    ensures Output(CopiesFrom(input, hit, shift), before + input[..hit.ip], limit) == Some(before + input)
    decreases |input| - hit.ip, 0
  {
    hide Output, Pieces, Load, CopyBytes, LastLiteral, GoodSize, CopiesFrom, TokensFrom;
    FourAgree(input, hit, shift);
    var len, offset := CommonLength(input, hit.candidate, hit.ip), hit.ip - hit.candidate;
    hide CommonLength;
    var ip, out := hit.ip + len, before + input[..hit.ip];
    MatchIsCopy(before, input, hit.candidate, hit.ip, len);
    PiecesCopy(offset, len, out, limit);
    var rest: seq<Token>;
    if ip + INPUT_MARGIN_BYTES >= |input| {
      CopyAtEnd(input, hit, shift, ip);
      rest := Left(input, ip, 0, false, [], shift);
      LastLiteralMeans(before, input, ip, limit);
    } else {
      CopyThenAgain(input, hit, shift, ip);
      rest := RestMeans(before, input, ip, hit.table, shift, limit);
    }
    OutputThen(Pieces(offset, len), rest, out, limit);
  }

  lemma {:induction false} RestMeans(before: Bytes, input: Bytes, ip: nat, table: seq<uint16>, shift: nat, limit: nat)
    returns (rest: seq<Token>)
    requires 0 < ip && ip + INPUT_MARGIN_BYTES < |input| <= BLOCK_SIZE && GoodSize(|table|, shift) && Below(table, ip)
    requires |before| + |input| <= limit
    ensures var again := Again(input, ip, table, shift);
            rest == if Load(input, ip, 4) == Load(input, again.candidate, 4) then CopiesFrom(input, again, shift)
                    else Left(input, ip, ip + 1, true, again.table, shift)
    ensures Output(rest, before + input[..ip], limit) == Some(before + input)
    decreases |input| - ip, 2
  {
    hide Output, CopiesFrom, TokensFrom, Load, GoodSize;
    var again := Again(input, ip, table, shift);
    hide Again;
    if Load(input, ip, 4) == Load(input, again.candidate, 4) {
      rest := CopiesFrom(input, again, shift);
      CopiesMean(before, input, again, shift, limit);
    } else {
      rest := Left(input, ip, ip + 1, true, again.table, shift);
      TokensMean(before, input, ip, ip + 1, again.table, shift, limit);
    }
  }

  lemma {:induction false} TokensMean(before: Bytes, input: Bytes, nextEmit: nat, ip: nat, table: seq<uint16>, shift: nat,
                                      limit: nat)
    requires nextEmit < ip && MaySearch(input, ip, table, shift) && |before| + |input| <= limit
    ensures Output(TokensFrom(input, nextEmit, ip, table, shift), before + input[..nextEmit], limit) == Some(before + input)
    decreases |input| - ip, 1
  {
    hide CopiesFrom, SearchFrom, LastLiteral, Load;
    match SearchFrom(input, ip, 32, table, shift)
    case None =>
      LastLiteralMeans(before, input, nextEmit, limit);
    case Some(hit) =>
      CopiesMean(before, input, hit, shift, limit);
      var out, data := before + input[..nextEmit], input[nextEmit..hit.ip];
      assert out + data == before + input[..hit.ip];
      OutputThen([LiteralToken(data)], CopiesFrom(input, hit, shift), out, limit);
  }

  /** After any output, the elements chosen for a block append the block. */
  lemma GreedyMeans(before: Bytes, block: Bytes, limit: nat)
    requires |block| <= BLOCK_SIZE && |before| + |block| <= limit
    ensures Output(Greedy(block), before, limit) == Some(before + block)
  {
    hide Output, TokensFrom;
    assert before + block[..0] == before;
    TableIsGood(|block|);
    if |block| < INPUT_MARGIN_BYTES {
      LastLiteralMeans(before, block, 0, limit);
    } else {
      TokensMean(before, block, 0, 1, Cleared(TableSize(|block|)), TableShift(|block|), limit);
    }
  }

  /** And those for an input append the input. */
  lemma {:induction false} ChosenMeans(before: Bytes, input: Bytes, limit: nat)
    requires |before| + |input| <= limit
    ensures Output(Chosen(input), before, limit) == Some(before + input)
    decreases |input|
  {
    hide Output, Greedy;
    if input == [] {
      assert before + input == before;
      OutputOfNone(before, limit);
    } else {
      var n := BlockLength(|input|);
      GreedyMeans(before, input[..n], limit);
      ChosenMeans(before + input[..n], input[n..], limit);
      OutputThen(Greedy(input[..n]), Chosen(input[n..]), before, limit);
      assert before + input[..n] + input[n..] == before + input;
    }
  }

  lemma OutputOfNone(out: Bytes, limit: nat)
    ensures Output([], out, limit) == Some(out)
  {
  }

  // ---- what is found ----

  /** A search from `ip` on in a block of `n` bytes asks the table at `q`, if it has not found anything before. */
  predicate Asked(n: nat, ip: nat, skip: nat, q: nat)
    requires 32 <= skip
    decreases n - ip
  {
    ip + skip / 32 + INPUT_MARGIN_BYTES <= n && (q == ip || Asked(n, ip + skip / 32, skip + 1, q))
  }

  lemma {:induction false} AskedIsAhead(n: nat, ip: nat, skip: nat, q: nat)
    requires 32 <= skip && Asked(n, ip, skip, q)
    ensures ip <= q && q + INPUT_MARGIN_BYTES < n
    decreases n - ip
  {
    if q != ip {
      AskedIsAhead(n, ip + skip / 32, skip + 1, q);
    }
  }

  /** `q` repeats the four bytes at `p`, and nothing between them takes the place of `p` in the table. */
  ghost predicate Repeat(input: Bytes, shift: nat, p: nat, q: nat) {
    && p < q && q + 4 <= |input| && Load(input, p, 4) == Load(input, q, 4)
    && forall r :: p < r < q ==> Hash(input, r, shift) != Hash(input, p, shift)
  }

  lemma {:induction false} KnownIsFound(input: Bytes, ip: nat, skip: nat, table: seq<uint16>, shift: nat, p: nat, q: nat)
    requires MaySearch(input, ip, table, shift) && 32 <= skip && Asked(|input|, ip, skip, q)
    requires p < ip && Repeat(input, shift, p, q)
    requires Hash(input, p, shift) < |table| && table[Hash(input, p, shift)] == p
    ensures SearchFrom(input, ip, skip, table, shift).Some? && SearchFrom(input, ip, skip, table, shift).value.ip <= q
    decreases |input| - ip
  {
    hide Load, HashBytes;
    AskedIsAhead(|input|, ip, skip, q);
    HashFits(input, ip, |table|, shift);
    var h := Hash(input, ip, shift);
    if ip < q && Load(input, ip, 4) != Load(input, table[h], 4) {
      KnownIsFound(input, ip + skip / 32, skip + 1, table[h := ip], shift, p, q);
    }
  }

  /** A search misses no repeat between two positions it asks at. */
  lemma {:induction false} RepeatIsFound(input: Bytes, ip: nat, skip: nat, table: seq<uint16>, shift: nat, p: nat, q: nat)
    requires MaySearch(input, ip, table, shift) && 32 <= skip
    requires Asked(|input|, ip, skip, p) && Asked(|input|, ip, skip, q) && Repeat(input, shift, p, q)
    ensures SearchFrom(input, ip, skip, table, shift).Some? && SearchFrom(input, ip, skip, table, shift).value.ip <= q
    decreases |input| - ip
  {
    hide Load, HashBytes;
    AskedIsAhead(|input|, ip, skip, p);
    HashFits(input, ip, |table|, shift);
    var h := Hash(input, ip, shift);
    var table' := table[h := ip];
    if Load(input, ip, 4) != Load(input, table[h], 4) {
      if ip == p {
        KnownIsFound(input, ip + skip / 32, skip + 1, table', shift, p, q);
      } else {
        RepeatIsFound(input, ip + skip / 32, skip + 1, table', shift, p, q);
      }
    }
  }

  /** No four bytes of the block, but for its end, occur in it a second time. */
  ghost predicate NoRepeats(block: Bytes) {
    forall p: nat, q: nat | p < q && q + INPUT_MARGIN_BYTES < |block| :: Load(block, p, 4) != Load(block, q, 4)
  }

  lemma {:induction false} NothingIsFound(input: Bytes, ip: nat, skip: nat, table: seq<uint16>, shift: nat)
    requires MaySearch(input, ip, table, shift) && 32 <= skip && NoRepeats(input)
    ensures SearchFrom(input, ip, skip, table, shift) == None
    decreases |input| - ip
  {
    hide Load, HashBytes;
    if ip + skip / 32 + INPUT_MARGIN_BYTES <= |input| {
      HashFits(input, ip, |table|, shift);
      var h := Hash(input, ip, shift);
      NothingIsFound(input, ip + skip / 32, skip + 1, table[h := ip], shift);
    }
  }

  /** Such a block becomes one literal. */
  lemma WithoutRepeats(block: Bytes)
    requires |block| <= BLOCK_SIZE && NoRepeats(block)
    ensures Greedy(block) == LastLiteral(block, 0)
  {
    hide NoRepeats, SearchFrom;
    TableIsGood(|block|);
    if |block| >= INPUT_MARGIN_BYTES {
      NothingIsFound(block, 1, 32, Cleared(TableSize(|block|)), TableShift(|block|));
    }
  }

  /** A block of one byte over and over becomes that byte and one copy of the length of the rest. */
  lemma OneByteRun(n: nat, b: byte)
    requires 17 <= n <= BLOCK_SIZE
    ensures Greedy(seq(n, _ => b)) == [ShortLiteral([b])] + Pieces(1, n - 1)
  {
    hide LittleEndian, HashBytes, Pieces, GoodSize, TableShift, TableSize, CommonLength, CopiesFrom;
    var block: Bytes, shift, size := seq(n, _ => b), TableShift(n), TableSize(n);
    TableIsGood(n);
    HashFits(block, 1, size, shift);
    var h := Hash(block, 1, shift);
    assert block[0..4] == block[1..5];
    var hit := Hit(1, 0, Cleared(size)[h := 1]);
    assert SearchFrom(block, 1, 32, Cleared(size), shift) == Some(hit);
    OneMatchLength(block, 0, 1, CommonLength(block, 0, 1), n - 1);
    assert block[0..1] == [b];
    WholeRun(block, hit, shift);
  }

  lemma WholeRun(block: Bytes, hit: Hit, shift: nat)
    requires Matches(block, hit, shift) && hit.ip + CommonLength(block, hit.candidate, hit.ip) == |block|
    ensures CommonLength(block, hit.candidate, hit.ip) >= 4
    ensures CopiesFrom(block, hit, shift) == Pieces(hit.ip - hit.candidate, CommonLength(block, hit.candidate, hit.ip))
  {
    hide CommonLength, Pieces, Load;
    FourAgree(block, hit, shift);
  }
}
