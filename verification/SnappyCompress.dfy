/** Compression: a hash table of four-byte prefixes finds matches in each block (snappy.cc, snappy-internal.h). */
module SnappyCompress {
  import opened ByteStrings
  import opened Wrappers
  import opened SnappyFormat
  import opened SnappyDecompress
  import opened SnappyElements
  import opened SnappyMatch
  import opened SnappyGreedy

  const MAX_HASH_TABLE_SIZE: nat := 0x4000

  function MaxCompressedLength(n: nat): nat {
    32 + n + n / 6
  }

  // ---- literals ----

  /** A literal's tag and length. */
  function LiteralHeader(len: nat): Bytes
    requires 0 < len < WORD
  {
    if len <= 60 then [(len - 1) * 4]
    else
      FourLengthBytes(len - 1);
      [(59 + LengthBytes(len - 1)) * 4] + Fixed32(len - 1)[..LengthBytes(len - 1)]
  }

  lemma HeaderThenData(data: Bytes)
    requires 0 < |data| < WORD
    ensures TokenBytes(LiteralToken(data)) == LiteralHeader(|data|) + data
  {
    hide Fixed32;
  }

  lemma LittleEndianAppend(a: Bytes, b: byte)
    ensures LittleEndian(a + [b]) == LittleEndian(a) + Values(|a|) * b
  {
    LittleEndianSplit(a + [b], |a|);
    assert (a + [b])[..|a|] == a && (a + [b])[|a|..] == [b];
    assert LittleEndian([b]) == b;
  }

  /** These low bytes of `total` are written, and `n` is what is left of it. */
  ghost predicate WrittenUpTo(digits: Bytes, n: nat, total: nat) {
    LittleEndian(digits) + Values(|digits|) * n == total
  }

  lemma NothingWritten(total: nat)
    ensures WrittenUpTo([], total, total)
  {
  }

  lemma NextWritten(digits: Bytes, n: nat, total: nat)
    requires WrittenUpTo(digits, n, total)
    ensures WrittenUpTo(digits + [n % 256], n / 256, total)
  {
    LittleEndianAppend(digits, n % 256);
    NextDigit(total, LittleEndian(digits), Values(|digits|), n);
  }

  lemma NextDigit(total: nat, low: nat, unit: nat, n: nat)
    requires low + unit * n == total
    ensures low + unit * (n % 256) + (256 * unit) * (n / 256) == total
  {
    assert n == n % 256 + 256 * (n / 256);
    assert unit * (n % 256 + 256 * (n / 256)) == unit * (n % 256) + unit * (256 * (n / 256));
  }

  /** The length of a long literal, low byte first, after a place for the tag; then the tag. */
  method EmitLength(dest: array<byte>, base: nat, len: nat) returns (op: nat)
    requires 60 < len < WORD && base + 1 + LengthBytes(len - 1) <= dest.Length
    modifies dest
    ensures op == base + 1 + LengthBytes(len - 1) && dest[..op] == old(dest[..base]) + LiteralHeader(len)
  {
    hide LiteralHeader, LittleEndian, Values, WrittenUpTo;
    FourLengthBytes(len - 1);
    NothingWritten(len - 1);
    var n: nat, count: nat := len - 1, 0;
    op := base + 1;
    ghost var before, digits: Bytes := dest[..base + 1], [];
    while n > 0
      invariant count + LengthBytes(n) == LengthBytes(len - 1) && op == base + 1 + count
      invariant dest[..op] == before + digits && |digits| == count
      invariant WrittenUpTo(digits, n, len - 1)
    {
      dest[op] := n % 256;
      NextWritten(digits, n, len - 1);
      Associate(before, digits, [n % 256]);
      digits := digits + [n % 256];
      op, n, count := op + 1, n / 256, count + 1;
    }
    dest[base] := (59 + count) * 4;
    LengthWritten(len, digits);
    Associate(old(dest[..base]), [(59 + count) * 4], digits);
  }

  lemma LengthWritten(len: nat, digits: Bytes)
    requires 60 < len < WORD && |digits| == LengthBytes(len - 1) && WrittenUpTo(digits, 0, len - 1)
    ensures 1 <= |digits| <= 4 && LiteralHeader(len) == [(59 + |digits|) * 4] + digits
  {
    FourLengthBytes(len - 1);
    BytesOfNumber(digits);
  }

  /** The tag of a literal, with its length. */
  method EmitLiteralTag(dest: array<byte>, start: nat, len: nat) returns (op: nat)
    requires 0 < len < WORD && start + |LiteralHeader(len)| <= dest.Length
    modifies dest
    ensures op == start + |LiteralHeader(len)| && dest[..op] == old(dest[..start]) + LiteralHeader(len)
  {
    if len - 1 < 60 {
      dest[start] := (len - 1) * 4;
      op := start + 1;
    } else {
      FourLengthBytes(len - 1);
      op := EmitLength(dest, start, len);
    }
  }

  /** The bytes of a literal; short ones sixteen at a time if that is allowed. */
  method StoreLiteral(dest: array<byte>, op: nat, input: Bytes, literal: nat, len: nat, allowFastPath: bool)
    requires literal + len <= |input| && op + len <= dest.Length
    requires allowFastPath && len <= 16 ==> literal + 16 <= |input| && op + 16 <= dest.Length
    modifies dest
    ensures dest[..op + len] == old(dest[..op]) + input[literal..literal + len]
  {
    if allowFastPath && len <= 16 {
      forall i | 0 <= i < 8 {
        dest[op + i] := input[literal + i];
      }
      forall i | 0 <= i < 8 {
        dest[op + 8 + i] := input[literal + 8 + i];
      }
    } else {
      forall i | 0 <= i < len {
        dest[op + i] := input[literal + i];
      }
    }
  }

  /** Writes a literal. */
  method EmitLiteral(dest: array<byte>, start: nat, input: Bytes, literal: nat, len: nat, allowFastPath: bool)
    returns (op: nat)
    requires 0 < len < WORD && literal + len <= |input| && start + |LiteralHeader(len)| + len <= dest.Length
    requires allowFastPath && len <= 16 ==> literal + 16 <= |input| && start + 17 <= dest.Length
    modifies dest
    ensures op == start + |LiteralHeader(len)| + len
    ensures dest[..op] == old(dest[..start]) + TokenBytes(LiteralToken(input[literal..literal + len]))
  {
    ghost var data := input[literal..literal + len];
    op := EmitLiteralTag(dest, start, len);
    hide TokenBytes;
    StoreLiteral(dest, op, input, literal, len, allowFastPath);
    HeaderThenData(data);
    Associate(old(dest[..start]), LiteralHeader(len), data);
    op := op + len;
  }

  // ---- copies ----

  /** A copy of at most 64 bytes. */
  method EmitCopyLessThan64(dest: array<byte>, start: nat, offset: nat, len: nat) returns (op: nat)
    requires 4 <= len <= 64 && 0 < offset < 0x1_0000 && start + |TokenBytes(Piece(offset, len))| <= dest.Length
    modifies dest
    ensures op == start + |TokenBytes(Piece(offset, len))|
    ensures dest[..op] == old(dest[..start]) + TokenBytes(Piece(offset, len))
  {
    if len < 12 && offset < 2048 {
      dest[start] := 1 + (len - 4) * 4 + offset / 256 * 32;
      dest[start + 1] := offset % 256;
      op := start + 2;
    } else {
      dest[start] := 2 + (len - 1) * 4;
      dest[start + 1], dest[start + 2] := offset % 256, offset / 256;
      op := start + 3;
    }
  }

  lemma CodeOfPieces(offset: nat, len: nat)
    requires 4 <= len && 0 < offset < 0x1_0000
    ensures len >= 68 ==> Code(Pieces(offset, len)) == TokenBytes(Piece(offset, 64)) + Code(Pieces(offset, len - 64))
    ensures 64 < len < 68 ==> Code(Pieces(offset, len)) == TokenBytes(Piece(offset, 60)) + TokenBytes(Piece(offset, len - 60))
    ensures len <= 64 ==> Code(Pieces(offset, len)) == TokenBytes(Piece(offset, len))
  {
    hide TokenBytes, Piece;
    var ts := Pieces(offset, len);
    if len >= 68 {
      assert ts[1..] == Pieces(offset, len - 64);
    } else if len > 64 {
      assert ts[1..] == [Piece(offset, len - 60)] && ts[1..][1..] == [];
      assert Code(ts[1..]) == TokenBytes(Piece(offset, len - 60));
    }
  }

  /** The rest of a copy, in one piece or two. */
  method EmitCopyLessThan68(dest: array<byte>, start: nat, offset: nat, len: nat) returns (op: nat)
    requires 4 <= len < 68 && 0 < offset < 0x1_0000 && start + |Code(Pieces(offset, len))| <= dest.Length
    modifies dest
    ensures op == start + |Code(Pieces(offset, len))| && dest[..op] == old(dest[..start]) + Code(Pieces(offset, len))
  {
    CodeOfPieces(offset, len);
    hide Code, Pieces, Piece, TokenBytes;
    if len > 64 {
      op := EmitCopyLessThan64(dest, start, offset, 60);
      op := EmitCopyLessThan64(dest, op, offset, len - 60);
      Associate(old(dest[..start]), TokenBytes(Piece(offset, 60)), TokenBytes(Piece(offset, len - 60)));
    } else {
      op := EmitCopyLessThan64(dest, start, offset, len);
    }
  }

  method EmitCopy(dest: array<byte>, start: nat, offset: nat, length: nat) returns (op: nat)
    requires 4 <= length && 0 < offset < 0x1_0000 && start + |Code(Pieces(offset, length))| <= dest.Length
    modifies dest
    ensures op == start + |Code(Pieces(offset, length))| && dest[..op] == old(dest[..start]) + Code(Pieces(offset, length))
  {
    hide Code, Pieces, Piece, TokenBytes;
    var len: nat := length;
    op := start;
    ghost var all := dest[..start] + Code(Pieces(offset, length));
    while len >= 68
      invariant 4 <= len && op + |Code(Pieces(offset, len))| == |all| <= dest.Length
      invariant dest[..op] + Code(Pieces(offset, len)) == all
    {
      CodeOfPieces(offset, len);
      Associate(dest[..op], TokenBytes(Piece(offset, 64)), Code(Pieces(offset, len - 64)));
      op := EmitCopyLessThan64(dest, op, offset, 64);
      len := len - 64;
    }
    op := EmitCopyLessThan68(dest, op, offset, len);
  }

  // ---- the hash table ----

  /** A cleared table, no larger than the input calls for. */
  method GetHashTable(inputSize: nat) returns (table: array<uint16>, shift: nat)
    ensures fresh(table) && table[..] == Cleared(TableSize(inputSize)) && shift == TableShift(inputSize)
  {
    var htsize := 256;
    shift := 24;
    while htsize < MAX_HASH_TABLE_SIZE && htsize < inputSize
      invariant htsize in {0x100, 0x200, 0x400, 0x800, 0x1000, 0x2000, 0x4000}
      invariant shift == TableShift(htsize) && htsize <= TableSize(inputSize)
    {
      htsize, shift := 2 * htsize, shift - 1;
    }
    table := new uint16[htsize](_ => 0);
  }

  // ---- one block ----

  lemma CodeThen(tokens: seq<Token>, t: Token)
    requires AllLegal(tokens) && Legal(t)
    ensures AllLegal(tokens + [t]) && Code(tokens + [t]) == Code(tokens) + TokenBytes(t)
  {
    hide TokenBytes, Legal;
    CodeConcat(tokens, [t]);
    assert Code([t]) == TokenBytes(t);
  }

  /** The bytes from `nextEmit` up to `ip`, as a literal. */
  method FlushLiteral(dest: array<byte>, at: nat, input: Bytes, nextEmit: nat, ip: nat, allowFastPath: bool,
                      ghost prefix: Bytes, ghost tokens: seq<Token>)
    returns (op: nat, ghost tokens': seq<Token>)
    requires nextEmit < ip <= |input| < WORD && at + |LiteralHeader(ip - nextEmit)| + (ip - nextEmit) <= dest.Length
    requires allowFastPath && ip - nextEmit <= 16 ==> nextEmit + 16 <= |input| && at + 17 <= dest.Length
    requires AllLegal(tokens) && dest[..at] == prefix + Code(tokens)
    modifies dest
    ensures tokens' == tokens + [LiteralToken(input[nextEmit..ip])] && AllLegal(tokens')
    ensures op <= dest.Length && dest[..op] == prefix + Code(tokens')
    ensures |Code(tokens')| == |Code(tokens)| + |LiteralHeader(ip - nextEmit)| + (ip - nextEmit)
  {
    hide Code, TokenBytes, LiteralToken, LiteralHeader, AllLegal;
    ghost var t := LiteralToken(input[nextEmit..ip]);
    op := EmitLiteral(dest, at, input, nextEmit, ip - nextEmit, allowFastPath);
    HeaderThenData(input[nextEmit..ip]);
    CodeThen(tokens, t);
    Associate(prefix, Code(tokens), TokenBytes(t));
    tokens' := tokens + [t];
  }

  method ExtendMatch(input: Bytes, candidate: nat, from: nat) returns (matched: nat)
    requires candidate < from && from + 4 <= |input| && Load(input, from, 4) == Load(input, candidate, 4)
    ensures 4 <= matched == CommonLength(input, candidate, from)
  {
    hide CommonLength, LittleEndian;
    EqualWords(input[from..from + 4], input[candidate..candidate + 4]);
    var more := FindMatchLength(input, candidate + 4, from + 4, |input|, 8);
    MatchFurther(input, candidate, from, 4, more);
    matched := 4 + more;
    OneMatchLength(input, candidate, from, matched, CommonLength(input, candidate, from));
  }

  /** A copy of what the input has in common from `candidate` and from `from` on. */
  method EmitMatch(dest: array<byte>, at: nat, input: Bytes, candidate: nat, from: nat,
                   ghost prefix: Bytes, ghost tokens: seq<Token>)
    returns (op: nat, ip: nat, ghost tokens': seq<Token>)
    requires candidate < from && from + 4 <= |input| <= BLOCK_SIZE && at + (|input| - from) <= dest.Length
    requires Load(input, from, 4) == Load(input, candidate, 4)
    requires AllLegal(tokens) && dest[..at] == prefix + Code(tokens)
    modifies dest
    ensures from + 4 <= ip == from + CommonLength(input, candidate, from) <= |input|
    ensures tokens' == tokens + Pieces(from - candidate, ip - from) && AllLegal(tokens')
    ensures op <= dest.Length && dest[..op] == prefix + Code(tokens') && |Code(tokens')| < |Code(tokens)| + (ip - from)
  {
    hide Code, Pieces, AllLegal, LittleEndian, CommonLength, MatchLength;
    var matched := ExtendMatch(input, candidate, from);
    ip := from + matched;
    MatchIsInside(input, candidate, from);
    ghost var more := Pieces(from - candidate, matched);
    PiecesAreShorter(from - candidate, matched);
    op := EmitCopy(dest, at, from - candidate, matched);
    CodeConcat(tokens, more);
    Associate(prefix, Code(tokens), Code(more));
    tokens' := tokens + more;
  }

  lemma MatchIsInside(input: Bytes, candidate: nat, from: nat)
    requires candidate < from <= |input|
    ensures from + CommonLength(input, candidate, from) <= |input|
  {
  }

  /** How many bytes of code may stand for how many bytes of input: 61 for 60 where a copy has just been made,
      and a little more before it. */
  predicate Tight(code: nat, input: nat) {
    60 * code <= 61 * input
  }

  predicate AlmostTight(code: nat, input: nat) {
    60 * code <= 61 * input + 59
  }

  /** Room for a block of `n` bytes in the worst case: a last literal adds at most three bytes. */
  function MaxFragmentLength(n: nat): nat {
    n + n / 60 + 3
  }

  lemma LiteralSize(code: nat, input: nat, len: nat)
    requires Tight(code, input) && 0 < len <= BLOCK_SIZE
    ensures AlmostTight(code + |LiteralHeader(len)| + len, input + len)
    ensures code + |LiteralHeader(len)| + len <= MaxFragmentLength(input + len)
  {
    if len > 1 {
      FourLengthBytes(len - 1);
    }
  }

  lemma CopySize(code: nat, input: nat, code': nat, input': nat)
    requires AlmostTight(code, input) && input <= input' && code' + input < code + input'
    ensures Tight(code', input')
  {
  }

  /** Step 1: looks for a four-byte match at `from`, and further on at growing distances. Every position looked
      at goes into the table. */
  method FindCandidate(input: Bytes, from: nat, table: array<uint16>, shift: nat)
    returns (found: bool, ip: nat, candidate: nat)
    requires MaySearch(input, from, table[..], shift)
    modifies table
    ensures SearchFrom(input, from, 32, old(table[..]), shift) == if found then Some(Hit(ip, candidate, table[..])) else None
  {
    hide Hash, LittleEndian;
    var ipLimit := |input| - INPUT_MARGIN_BYTES;
    var skip: nat, nextIp: nat, nextHash := 32, from, Hash(input, from, shift);
    candidate, ip := 0, from;
    while true
      invariant 32 <= skip && nextIp + INPUT_MARGIN_BYTES <= |input| + 1 && nextHash == Hash(input, nextIp, shift)
      invariant MaySearch(input, nextIp, table[..], shift)
      invariant SearchFrom(input, from, 32, old(table[..]), shift) == SearchFrom(input, nextIp, skip, table[..], shift)
      decreases ipLimit - nextIp
    {
      ip := nextIp;
      var hash := nextHash;
      HashFits(input, ip, table.Length, shift);
      var bytesBetweenHashLookups := skip / 32;
      skip := skip + 1;
      nextIp := ip + bytesBetweenHashLookups;
      if nextIp > ipLimit {
        return false, ip, candidate;
      }
      nextHash := Hash(input, nextIp, shift);
      candidate := table[hash];
      ghost var before: seq<uint16> := table[..];
      table[hash] := ip;
      assert table[..] == before[hash := ip];
      if Load(input, ip, 4) == Load(input, candidate, 4) {
        return true, ip, candidate;
      }
    }
  }

  /** Where a copy ends, the table is asked again. */
  method LookAgain(input: Bytes, ip: nat, table: array<uint16>, shift: nat) returns (candidate: nat)
    requires 0 < ip && ip + INPUT_MARGIN_BYTES < |input| <= BLOCK_SIZE && GoodSize(table.Length, shift) && Below(table[..], ip)
    modifies table
    ensures Hit(ip, candidate, table[..]) == Again(input, ip, old(table[..]), shift)
  {
    hide Hash, LittleEndian;
    HashFits(input, ip - 1, table.Length, shift);
    HashFits(input, ip, table.Length, shift);
    ghost var before: seq<uint16> := table[..];
    table[Hash(input, ip - 1, shift)] := ip - 1;
    assert table[..] == before[Hash(input, ip - 1, shift) := ip - 1];
    var current := Hash(input, ip, shift);
    candidate := table[current];
    before := table[..];
    table[current] := ip;
    assert table[..] == before[current := ip];
  }

  /** Step 3: copies, as long as what follows a copy matches again. Ends with `done` when the input is nearly
      exhausted. */
  method EmitMatches(dest: array<byte>, at: nat, input: Bytes, from: nat, first: nat, table: array<uint16>, shift: nat,
                     ghost prefix: Bytes, ghost start: seq<Token>)
    returns (op: nat, ip: nat, done: bool, ghost tokens: seq<Token>)
    requires (dest as object) != table && Matches(input, Hit(from, first, table[..]), shift)
    requires AllLegal(start) && at <= dest.Length && dest[..at] == prefix + Code(start)
    requires |prefix| + MaxFragmentLength(|input|) <= dest.Length && AlmostTight(|Code(start)|, from)
    modifies dest, table
    ensures from < ip <= |input| && op <= dest.Length && (!done ==> MaySearch(input, ip + 1, table[..], shift))
    ensures AllLegal(tokens) && dest[..op] == prefix + Code(tokens) && Tight(|Code(tokens)|, ip)
    ensures tokens + Left(input, ip, ip + 1, !done, table[..], shift) ==
            start + CopiesFrom(input, Hit(from, first, old(table[..])), shift)
  {
    hide Code, AllLegal, Pieces, CommonLength, CopiesFrom, TokensFrom, LastLiteral, Again, LittleEndian;
    var ipLimit := |input| - INPUT_MARGIN_BYTES;
    var candidate: nat := first;
    op, ip, tokens := at, from, start;
    ghost var all := start + CopiesFrom(input, Hit(from, first, table[..]), shift);
    while true
      invariant from <= ip < ipLimit && op <= dest.Length
      invariant AllLegal(tokens) && dest[..op] == prefix + Code(tokens) && AlmostTight(|Code(tokens)|, ip)
      invariant Matches(input, Hit(ip, candidate, table[..]), shift)
      invariant tokens + CopiesFrom(input, Hit(ip, candidate, table[..]), shift) == all
      decreases |input| - ip
    {
      ghost var tokens', hit := tokens, Hit(ip, candidate, table[..]);
      op, ip, tokens := EmitMatch(dest, op, input, candidate, ip, prefix, tokens);
      CopySize(|Code(tokens')|, hit.ip, |Code(tokens)|, ip);
      if ip >= ipLimit {
        CopyAtEnd(input, hit, shift, ip);
        return op, ip, true, tokens;
      }
      CopyThenAgain(input, hit, shift, ip);
      candidate := LookAgain(input, ip, table, shift);
      if Load(input, ip, 4) != Load(input, candidate, 4) {
        return op, ip, false, tokens;
      }
    }
  }

  lemma SearchEnds(input: Bytes, nextEmit: nat, ip: nat, table: seq<uint16>, shift: nat)
    requires nextEmit < ip && MaySearch(input, ip, table, shift)
    ensures var hit, left := SearchFrom(input, ip, 32, table, shift), Left(input, nextEmit, ip, true, table, shift);
            if hit.None? then left == LastLiteral(input, nextEmit)
            else
              && nextEmit < hit.value.ip && hit.value.ip + INPUT_MARGIN_BYTES < |input| && Matches(input, hit.value, shift)
              && left == [LiteralToken(input[nextEmit..hit.value.ip])] + CopiesFrom(input, hit.value, shift)
  {
    hide SearchFrom, LastLiteral, CopiesFrom, LiteralToken, Load;
  }

  /** One round: a search, and if it finds something the literal before it and the copies from there on. */
  method EmitNext(dest: array<byte>, at: nat, input: Bytes, nextEmit: nat, ip: nat, table: array<uint16>, shift: nat,
                  ghost prefix: Bytes, ghost tokens: seq<Token>)
    returns (op: nat, next: nat, more: bool, ghost tokens': seq<Token>)
    requires (dest as object) != table && nextEmit < ip && MaySearch(input, ip, table[..], shift)
    requires AllLegal(tokens) && at <= dest.Length && dest[..at] == prefix + Code(tokens)
    requires |prefix| + MaxFragmentLength(|input|) <= dest.Length && Tight(|Code(tokens)|, nextEmit)
    modifies dest, table
    ensures nextEmit <= next <= |input| && op <= dest.Length
    ensures more ==> nextEmit < next && MaySearch(input, next + 1, table[..], shift)
    ensures AllLegal(tokens') && dest[..op] == prefix + Code(tokens') && Tight(|Code(tokens')|, next)
    ensures tokens' + Left(input, next, next + 1, more, table[..], shift) ==
            tokens + Left(input, nextEmit, ip, true, old(table[..]), shift)
  {
    hide Code, AllLegal, LiteralToken, LiteralHeader, CopiesFrom, SearchFrom, TokensFrom, LittleEndian, LastLiteral, Load, Matches;
    SearchEnds(input, nextEmit, ip, table[..], shift);
    var found, from, candidate := FindCandidate(input, ip, table, shift);
    if !found {
      return at, nextEmit, false, tokens;
    }
    LiteralSize(|Code(tokens)|, nextEmit, from - nextEmit);
    op, tokens' := FlushLiteral(dest, at, input, nextEmit, from, true, prefix, tokens);
    var done;
    op, next, done, tokens' := EmitMatches(dest, op, input, from, candidate, table, shift, prefix, tokens');
    more := !done;
  }

  /** Compresses one block into `dest` from `start` on: the code is that of the elements chosen, and no store goes beyond
      the worst-case length. */
  method CompressFragment(input: Bytes, dest: array<byte>, start: nat, table: array<uint16>, shift: nat)
    returns (op: nat, ghost tokens: seq<Token>)
    requires (dest as object) != table && |input| <= BLOCK_SIZE
    requires table[..] == Cleared(TableSize(|input|)) && shift == TableShift(|input|)
    requires start + MaxFragmentLength(|input|) <= dest.Length
    modifies dest, table
    ensures tokens == Greedy(input) && op <= dest.Length && dest[..op] == old(dest[..start]) + Code(tokens)
    ensures |Code(tokens)| <= MaxFragmentLength(|input|)
  {
    hide Code, AllLegal, LiteralToken, LiteralHeader, TokensFrom, MaySearch, Greedy;
    GreedyBegins(input);
    op, tokens := start, [];
    ghost var prefix := dest[..start];
    NothingYet(prefix);
    var nextEmit: nat := 0;
    if |input| >= INPUT_MARGIN_BYTES {
      var ip: nat, more := 1, true;
      while more
        invariant op <= dest.Length && nextEmit <= |input|
        invariant AllLegal(tokens) && dest[..op] == prefix + Code(tokens) && Tight(|Code(tokens)|, nextEmit)
        invariant more ==> nextEmit < ip && MaySearch(input, ip, table[..], shift)
        invariant tokens + Left(input, nextEmit, ip, more, table[..], shift) == Greedy(input)
        decreases more, |input| - nextEmit
      {
        op, nextEmit, more, tokens := EmitNext(dest, op, input, nextEmit, ip, table, shift, prefix, tokens);
        ip := nextEmit + 1;
      }
    }
    if nextEmit < |input| {
      LiteralSize(|Code(tokens)|, nextEmit, |input| - nextEmit);
      op, tokens := FlushLiteral(dest, op, input, nextEmit, |input|, false, prefix, tokens);
      assert input[nextEmit..|input|] == input[nextEmit..];
    }
  }

  lemma GreedyBegins(input: Bytes)
    requires |input| <= BLOCK_SIZE
    ensures var table, shift := Cleared(TableSize(|input|)), TableShift(|input|);
            if |input| < INPUT_MARGIN_BYTES then Greedy(input) == LastLiteral(input, 0)
            else MaySearch(input, 1, table, shift) && Greedy(input) == Left(input, 0, 1, true, table, shift)
  {
    hide LastLiteral, TokensFrom;
    TableIsGood(|input|);
  }

  lemma NothingYet(prefix: Bytes)
    ensures AllLegal([]) && Code([]) == [] && prefix == prefix + Code([])
  {
  }

  // ---- the length header ----

  /** Varint::Encode32: the five cases written out. */
  method Encode32(v: nat) returns (s: Bytes)
    requires v < WORD
    ensures s == Varint(v) && |s| <= 5
  {
    if v < 0x80 {
      s := [v];
    } else if v < 0x4000 {
      s := [v % 128 + 128, v / 0x80];
    } else if v < 0x20_0000 {
      s := [v % 128 + 128, v / 0x80 % 128 + 128, v / 0x4000];
    } else if v < 0x1000_0000 {
      s := [v % 128 + 128, v / 0x80 % 128 + 128, v / 0x4000 % 128 + 128, v / 0x20_0000];
    } else {
      s := [v % 128 + 128, v / 0x80 % 128 + 128, v / 0x4000 % 128 + 128, v / 0x20_0000 % 128 + 128, v / 0x1000_0000];
    }
    VarintBytes(v);
  }

  lemma NoLongFifthByte(v: nat, rest: Bytes)
    requires v < WORD
    ensures |Varint(v)| <= 5 && !LongFifthByte(Varint(v) + rest)
  {
    VarintStep(v);
    VarintBytes(v);
  }

  // ---- whole inputs ----

  /** The next `num` bytes of input: a region itself if it holds them all (they are then still to be skipped),
      otherwise collected from several. */
  method NextBlock(reader: Source, num: nat) returns (block: Bytes, pendingAdvance: nat)
    requires 0 < num <= |reader.remaining|
    modifies reader
    ensures block == old(reader.remaining)[..num]
    ensures pendingAdvance <= |reader.remaining| && reader.remaining[pendingAdvance..] == old(reader.remaining)[num..]
  {
    var fragment := reader.Peek();
    if |fragment| >= num {
      return fragment[..num], num;
    }
    ghost var all := reader.remaining;
    block := fragment;
    reader.Skip(|fragment|);
    while |block| < num
      invariant |block| <= num && block == all[..|block|] && reader.remaining == all[|block|..]
      decreases num - |block|
    {
      fragment := reader.Peek();
      var n := if num - |block| < |fragment| then num - |block| else |fragment|;
      assert all[..|block|] + fragment[..n] == all[..|block| + n];
      block := block + fragment[..n];
      reader.Skip(n);
    }
    pendingAdvance := 0;
  }

  /** Bytes written after `done` bytes of input in `blocks` blocks, at most; all blocks but the last are full. */
  predicate WithinBounds(written: nat, done: nat, blocks: nat, left: nat) {
    && 60 * written <= 300 + 61 * done + 180 * blocks && BLOCK_SIZE * blocks <= done + (BLOCK_SIZE - 1)
    && (left > 0 ==> BLOCK_SIZE * blocks == done)
  }

  lemma RoomForBlock(written: nat, done: nat, blocks: nat, left: nat)
    requires WithinBounds(written, done, blocks, left)
    ensures written + MaxFragmentLength(BlockLength(left)) <= MaxCompressedLength(done + left)
    ensures left == 0 ==> written <= MaxCompressedLength(done)
  {
  }

  lemma OneMoreBlock(written: nat, done: nat, blocks: nat, left: nat, written': nat)
    requires WithinBounds(written, done, blocks, left) && 0 < left
    requires written' <= written + MaxFragmentLength(BlockLength(left))
    ensures WithinBounds(written', done + BlockLength(left), blocks + 1, left - BlockLength(left))
  {
  }

  lemma NextChosen(tokens: seq<Token>, rest: Bytes, num: nat)
    requires rest != [] && num == BlockLength(|rest|)
    ensures tokens + Chosen(rest) == tokens + Greedy(rest[..num]) + Chosen(rest[num..])
  {
    hide Greedy;
  }

  /** One block more: its bytes from the source, its elements' code to the array. */
  method CompressBlock(reader: Source, dest: array<byte>, at: nat, num: nat, ghost header: Bytes, ghost tokens: seq<Token>)
    returns (op: nat, ghost tokens': seq<Token>)
    requires 0 < num <= |reader.remaining| && num <= BLOCK_SIZE && AllLegal(tokens)
    requires at + MaxFragmentLength(num) <= dest.Length && dest[..at] == header + Code(tokens)
    modifies reader, dest
    ensures reader.remaining == old(reader.remaining)[num..] && op <= dest.Length
    ensures tokens' == tokens + Greedy(old(reader.remaining)[..num]) && AllLegal(tokens')
    ensures dest[..op] == header + Code(tokens') && |Code(tokens')| <= |Code(tokens)| + MaxFragmentLength(num)
  {
    hide Code, AllLegal, Greedy;
    var fragment, pendingAdvance := NextBlock(reader, num);
    var table, shift := GetHashTable(num);
    ghost var more;
    op, more := CompressFragment(fragment, dest, at, table, shift);
    reader.Skip(pendingAdvance);
    CodeConcat(tokens, more);
    Associate(header, Code(tokens), Code(more));
    tokens' := tokens + more;
  }

  /** The header and the elements chosen for an input stand for the input. */
  lemma HeaderThenBody(input: Bytes)
    requires |input| < WORD
    ensures var s := Varint(|input|) + Code(Chosen(input)); Uncompressed(s) == Some(input) && !LongFifthByte(s)
  {
    hide Uncompressed, LongFifthByte, Output, Chosen, Code;
    ChosenMeans([], input, |input|);
    UncompressedIsOutput(|input|, Chosen(input));
    NoLongFifthByte(|input|, Code(Chosen(input)));
    assert [] + input == input;
  }

  lemma BlocksBegin(written: nat, input: Bytes)
    requires |input| < WORD && written == |Varint(|input|)|
    ensures WithinBounds(written, 0, 0, |input|) && AllLegal([]) && Code([]) == []
    ensures [] + Chosen(input) == Chosen(input)
  {
    VarintBytes(|input|);
  }

  /** The header of a compressed string. */
  method WriteLength(dest: array<byte>, n: nat) returns (written: nat)
    requires n < WORD && MaxCompressedLength(n) <= dest.Length
    modifies dest
    ensures written == |Varint(n)| <= dest.Length && dest[..written] == Varint(n)
  {
    hide Varint;
    var ulength := Encode32(n);
    forall i | 0 <= i < |ulength| {
      dest[i] := ulength[i];
    }
    written := |ulength|;
  }

  /** Snappy's compressor, from any source to an array as long as MaxCompressedLength asks: every store is within
      the array, and the result is the length and the code of the elements chosen, which stands for the input. */
  method Compress(reader: Source, dest: array<byte>) returns (written: nat)
    requires |reader.remaining| < WORD && MaxCompressedLength(|reader.remaining|) <= dest.Length
    modifies reader, dest
    ensures written <= MaxCompressedLength(|old(reader.remaining)|)
    ensures dest[..written] == Varint(|old(reader.remaining)|) + Code(Chosen(old(reader.remaining)))
    ensures Uncompressed(dest[..written]) == Some(old(reader.remaining)) && !LongFifthByte(dest[..written])
  {
    hide Code, AllLegal, Greedy, Chosen, Varint, Uncompressed, LongFifthByte, WithinBounds, MaxFragmentLength, MaxCompressedLength;
    ghost var input := reader.remaining;
    var n: nat := reader.Available();
    written := WriteLength(dest, n);
    ghost var header := dest[..written];
    ghost var tokens: seq<Token>, done: nat, blocks: nat := [], 0, 0;
    BlocksBegin(written, input);
    while n > 0
      invariant done + n == |input| && |reader.remaining| == n
      invariant AllLegal(tokens) && tokens + Chosen(reader.remaining) == Chosen(input)
      invariant written <= dest.Length && dest[..written] == header + Code(tokens)
      invariant WithinBounds(written, done, blocks, n)
    {
      var num := if n < BLOCK_SIZE then n else BLOCK_SIZE;
      RoomForBlock(written, done, blocks, n);
      ghost var before := written;
      NextChosen(tokens, reader.remaining, num);
      written, tokens := CompressBlock(reader, dest, written, num, header, tokens);
      OneMoreBlock(before, done, blocks, n, written);
      n, done, blocks := n - num, done + num, blocks + 1;
    }
    RoomForBlock(written, done, blocks, 0);
    AllChosen(tokens);
    assert reader.remaining == [];
    HeaderThenBody(input);
  }

  lemma AllChosen(tokens: seq<Token>)
    ensures tokens + Chosen([]) == tokens
  {
  }

  /** Compresses a flat string; the result is at most as long as promised. */
  method CompressString(input: Bytes) returns (compressed: Bytes)
    requires |input| < WORD
    ensures |compressed| <= MaxCompressedLength(|input|) && compressed == Varint(|input|) + Code(Chosen(input))
    ensures Uncompressed(compressed) == Some(input) && !LongFifthByte(compressed)
  {
    var dest := new byte[MaxCompressedLength(|input|)];
    var reader := new Source(input, []);
    var n := Compress(reader, dest);
    compressed := dest[..n];
  }

  /** Whatever regions the two sources have, decompressing the compressed input gives it back. */
  method RoundTrip(input: Bytes, regions: seq<nat>, regions': seq<nat>) returns (ok: bool, output: Bytes)
    requires |input| < WORD
    ensures ok && output == input
  {
    var dest := new byte[MaxCompressedLength(|input|)];
    var reader := new Source(input, regions);
    var n := Compress(reader, dest);
    var uncompressed := new byte[|input|];
    var compressed := new Source(dest[..n], regions');
    UncompressedHeader(compressed.remaining);
    ok := RawUncompress(compressed, uncompressed);
    output := uncompressed[..];
    assert output == uncompressed[..|input|];
  }

  lemma UncompressedHeader(s: Bytes)
    requires Uncompressed(s).Some?
    ensures HeaderFrom(s, 0).Some? && HeaderFrom(s, 0).value.value == |Uncompressed(s).value|
  {
  }
}
