/** How far two stretches of the input agree, compared a word at a time (snappy-internal.h). */
module SnappyMatch {
  import opened ByteStrings
  import opened SnappyFormat

  function Load(input: Bytes, at: nat, n: nat): nat
    requires at + n <= |input|
  {
    LittleEndian(input[at..at + n])
  }

  /** The lowest bit in which two different words differ: the lowest bit set in their exclusive or. */
  function LowestDifferingBit(a: nat, b: nat): nat
    requires a != b
  {
    if a % 2 != b % 2 then 0 else 1 + LowestDifferingBit(a / 2, b / 2)
  }

  lemma Halves(x: nat, low: nat)
    ensures (2 * x + low) % 2 == low % 2 && (2 * x + low) / 2 == x + low / 2
  {
    assert low == 2 * (low / 2) + low % 2;
    var a := 2 * x + low;
    assert a == 2 * (x + low / 2) + low % 2;
  }

  lemma EqualParity(a: nat, b: nat, x: nat, y: nat)
    requires a % 2 == b % 2 && x == a / 2 && y == b / 2 && x != y
    ensures a != b && LowestDifferingBit(a, b) == 1 + LowestDifferingBit(x, y)
  {
  }

  lemma DifferentParity(a: nat, b: nat)
    requires a % 2 != b % 2
    ensures a != b && LowestDifferingBit(a, b) == 0
  {
  }

  /** Half of a number given by its high and its `n` low bits. */
  lemma HalfOf(x: nat, low: nat, n: nat)
    requires n > 0
    ensures (Two(n) * x + low) % 2 == low % 2 && (Two(n) * x + low) / 2 == Two(n - 1) * x + low / 2
  {
    TimesAssociate(2, Two(n - 1), x);
    Halves(Two(n - 1) * x, low);
  }

  /** Equal low bits are passed over one by one. */
  lemma {:induction false} EqualLowBits(x: nat, y: nat, low: nat, n: nat, a: nat, b: nat)
    requires x != y && low < Two(n) && a == Two(n) * x + low && b == Two(n) * y + low
    ensures a != b && LowestDifferingBit(a, b) == n + LowestDifferingBit(x, y)
  {
    if n > 0 {
      HalfOf(x, low, n);
      HalfOf(y, low, n);
      EqualLowBits(x, y, low / 2, n - 1, a / 2, b / 2);
      EqualParity(a, b, a / 2, b / 2);
    }
  }

  lemma {:induction false} DifferentLowBits(x: nat, y: nat, low: nat, low': nat, n: nat, a: nat, b: nat)
    requires low != low' && low < Two(n) && low' < Two(n) && a == Two(n) * x + low && b == Two(n) * y + low'
    ensures a != b && LowestDifferingBit(a, b) < n
  {
    HalfOf(x, low, n);
    HalfOf(y, low', n);
    if low % 2 == low' % 2 {
      DifferentLowBits(x, y, low / 2, low' / 2, n - 1, a / 2, b / 2);
      EqualParity(a, b, a / 2, b / 2);
    } else {
      DifferentParity(a, b);
    }
  }

  /** The byte of the lowest differing bit is the first that differs. */
  lemma ByteOfLowestBit(x: nat, y: nat, low: byte, low': byte)
    ensures low == low' && x != y ==>
      256 * x + low != 256 * y + low && LowestDifferingBit(256 * x + low, 256 * y + low) == 8 + LowestDifferingBit(x, y)
    ensures low != low' ==> 256 * x + low != 256 * y + low' && LowestDifferingBit(256 * x + low, 256 * y + low') < 8
  {
    assert Two(8) == 2 * (2 * (2 * (2 * Two(4))));
    assert Two(4) == 16;
    if low != low' {
      DifferentLowBits(x, y, low, low', 8, 256 * x + low, 256 * y + low');
    } else if x != y {
      EqualLowBits(x, y, low, 8, 256 * x + low, 256 * y + low);
    }
  }

  lemma {:induction false} FirstDifferentByte(s: Bytes, t: Bytes)
    requires |s| == |t| && LittleEndian(s) != LittleEndian(t)
    ensures var i := LowestDifferingBit(LittleEndian(s), LittleEndian(t)) / 8;
            i < |s| && s[i] != t[i] && s[..i] == t[..i]
  {
    ByteOfLowestBit(LittleEndian(s[1..]), LittleEndian(t[1..]), s[0], t[0]);
    if s[0] == t[0] {
      FirstDifferentByte(s[1..], t[1..]);
      var i := LowestDifferingBit(LittleEndian(s[1..]), LittleEndian(t[1..])) / 8;
      assert s[..1 + i] == [s[0]] + s[1..][..i] && t[..1 + i] == [t[0]] + t[1..][..i];
    }
  }

  lemma {:induction false} EqualWords(s: Bytes, t: Bytes)
    requires |s| == |t| && LittleEndian(s) == LittleEndian(t)
    ensures s == t
  {
    if s != [] {
      assert LittleEndian(s) % 256 == s[0] && LittleEndian(t) % 256 == t[0];
      EqualWords(s[1..], t[1..]);
      assert s == [s[0]] + s[1..] && t == [t[0]] + t[1..];
    }
  }

  /** `n` is how far the input from `s1` on agrees with the input from `s2` up to `limit`. */
  ghost predicate MatchLength(input: Bytes, s1: nat, s2: nat, limit: nat, n: nat) {
    && s1 <= s2 && s2 + n <= limit <= |input|
    && input[s1..s1 + n] == input[s2..s2 + n]
    && (s2 + n < limit ==> input[s1 + n] != input[s2 + n])
  }

  lemma MatchFurther(input: Bytes, s1: nat, s2: nat, m: nat, n: nat)
    requires s1 <= s2 && s2 + m + n <= |input|
    requires input[s1..s1 + m] == input[s2..s2 + m]
    requires input[s1 + m..s1 + m + n] == input[s2 + m..s2 + m + n]
    ensures input[s1..s1 + m + n] == input[s2..s2 + m + n]
  {
    assert input[s1..s1 + m + n] == input[s1..s1 + m] + input[s1 + m..s1 + m + n];
    assert input[s2..s2 + m + n] == input[s2..s2 + m] + input[s2 + m..s2 + m + n];
  }

  /** The input from `s1` and the input from `from` agree for this long, at least. */
  ghost predicate Agrees(input: Bytes, s1: nat, from: nat, limit: nat, n: nat) {
    s1 <= from && from + n <= limit <= |input| && input[s1..s1 + n] == input[from..from + n]
  }

  /** Whole words while they are equal; `found` if two words differ, and then their first different byte is next. */
  method MatchWords(input: Bytes, s1: nat, from: nat, limit: nat, word: nat) returns (matched: nat, found: bool)
    requires 0 < word && s1 <= from <= limit <= |input|
    ensures Agrees(input, s1, from, limit, matched)
    ensures if found then from + matched < limit && input[s1 + matched] != input[from + matched] else limit < from + matched + word
  {
    hide LittleEndian, LowestDifferingBit, Load, Agrees;
    matched := 0;
    found := false;
    AgreesSoFar(input, s1, from, limit);
    while from + matched + word <= limit
      invariant from + matched <= limit && Agrees(input, s1, from, limit, matched)
    {
      var x, y := Load(input, from + matched, word), Load(input, s1 + matched, word);
      if x == y {
        AgreesOnWord(input, s1, from, limit, matched, word);
        matched := matched + word;
      } else {
        var matching := LowestDifferingBit(x, y) / 8;
        AgreesUpTo(input, s1, from, limit, matched, word, matching);
        return matched + matching, true;
      }
    }
  }

  lemma AgreesSoFar(input: Bytes, s1: nat, from: nat, limit: nat)
    requires s1 <= from <= limit <= |input|
    ensures Agrees(input, s1, from, limit, 0)
  {
  }

  lemma AgreesOnWord(input: Bytes, s1: nat, from: nat, limit: nat, matched: nat, word: nat)
    requires Agrees(input, s1, from, limit, matched) && from + matched + word <= limit
    requires Load(input, from + matched, word) == Load(input, s1 + matched, word)
    ensures Agrees(input, s1, from, limit, matched + word)
  {
    hide LittleEndian;
    EqualWords(input[from + matched..from + matched + word], input[s1 + matched..s1 + matched + word]);
    MatchFurther(input, s1, from, matched, word);
  }

  lemma AgreesUpTo(input: Bytes, s1: nat, from: nat, limit: nat, matched: nat, word: nat, matching: nat)
    requires Agrees(input, s1, from, limit, matched) && from + matched + word <= limit
    requires Load(input, from + matched, word) != Load(input, s1 + matched, word)
    requires matching == LowestDifferingBit(Load(input, from + matched, word), Load(input, s1 + matched, word)) / 8
    ensures matching < word && Agrees(input, s1, from, limit, matched + matching)
    ensures input[s1 + matched + matching] != input[from + matched + matching]
  {
    hide LittleEndian, LowestDifferingBit, Load;
    WordDiffers(input, s1, from, matched, word, matching);
  }

  /** Whole words while they are equal; then the first byte in which two words differ, or single bytes when less than
      a word is left. A word has eight bytes on 64-bit machines and four on others. */
  method FindMatchLength(input: Bytes, s1: nat, from: nat, limit: nat, word: nat) returns (matched: nat)
    requires (word == 4 || word == 8) && s1 <= from <= limit <= |input|
    ensures MatchLength(input, s1, from, limit, matched)
  {
    var found;
    matched, found := MatchWords(input, s1, from, limit, word);
    if found {
      return;
    }
    var s2 := from + matched;
    while s2 < limit
      invariant s2 == from + matched <= limit && input[s1..s1 + matched] == input[from..from + matched]
    {
      if input[s1 + matched] != input[s2] {
        return;
      }
      MatchFurther(input, s1, from, matched, 1);
      s2, matched := s2 + 1, matched + 1;
    }
  }

  lemma WordDiffers(input: Bytes, s1: nat, from: nat, matched: nat, word: nat, matching: nat)
    requires s1 <= from && from + matched + word <= |input|
    requires input[s1..s1 + matched] == input[from..from + matched]
    requires Load(input, from + matched, word) != Load(input, s1 + matched, word)
    requires matching == LowestDifferingBit(Load(input, from + matched, word), Load(input, s1 + matched, word)) / 8
    ensures matching < word && input[s1..s1 + matched + matching] == input[from..from + matched + matching]
    ensures input[s1 + matched + matching] != input[from + matched + matching]
  {
    var s, t := input[from + matched..from + matched + word], input[s1 + matched..s1 + matched + word];
    FirstDifferentByte(s, t);
    assert s[..matching] == input[from + matched..from + matched + matching];
    assert t[..matching] == input[s1 + matched..s1 + matched + matching];
    MatchFurther(input, s1, from, matched, matching);
  }
}
