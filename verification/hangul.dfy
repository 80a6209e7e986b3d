/** How the local score sees the characters of a name: as UTF-16 code units, the
    way `name.length` counts them and `charCodeAt(0)` reads them, and as Hangul
    syllables decomposed by the arithmetic of section 3.12 of the Unicode Standard
    (Conjoining Jamo Behavior). */
module Hangul {

  /** First code point of the Hangul Syllables block (44032). */
  const SBase: int := 0xAC00
  /** Numbers of leading consonants, vowels and trailing consonants (the last
      counting "no trailing consonant"). */
  const LCount: int := 19
  const VCount: int := 21
  const TCount: int := 28
  /** Syllables sharing one leading consonant: VCount * TCount = 588. */
  const NCount: int := 588
  /** Number of syllables in the block: LCount * NCount = 11172. */
  const SCount: int := 11172

  /** Number of UTF-16 code units of one character: two for a supplementary-plane
      character, which JavaScript stores as a surrogate pair. */
  function Utf16Units(c: char): (n: nat)
    ensures n == 1 || n == 2
  {
    if c as int < 0x1_0000 then 1 else 2
  }

  /** `s.length` in JavaScript: the number of UTF-16 code units of `s`. */
  function Utf16Length(s: string): (n: nat)
    ensures |s| <= n <= 2 * |s|
  {
    if s == [] then 0 else Utf16Length(s[..|s| - 1]) + Utf16Units(s[|s| - 1])
  }

  /** One character takes its own number of code units. */
  lemma Utf16LengthOfChar(c: char)
    ensures Utf16Length([c]) == Utf16Units(c)
  {
    assert [c][..0] == [];
  }

  /** The UTF-16 length of a concatenation is the sum of the lengths: with
      `Utf16LengthOfChar`, `s.length` counts each character's code units. */
  lemma {:induction false} Utf16LengthAppend(a: string, b: string)
    ensures Utf16Length(a + b) == Utf16Length(a) + Utf16Length(b)
    decreases |b|
  {
    if b == [] {
      assert a + b == a;
    } else {
      var b' := b[..|b| - 1];
      assert (a + b)[..|a + b| - 1] == a + b';
      assert (a + b)[|a + b| - 1] == b[|b| - 1];
      Utf16LengthAppend(a, b');
    }
  }

  /** Every character lies in the Basic Multilingual Plane. */
  ghost predicate IsBmp(s: string) {
    forall k :: 0 <= k < |s| ==> s[k] as int < 0x1_0000
  }

  /** On BMP text the UTF-16 length is the number of characters. */
  lemma {:induction false} Utf16LengthOfBmp(s: string)
    requires IsBmp(s)
    ensures Utf16Length(s) == |s|
  {
    if s != [] {
      assert IsBmp(s[..|s| - 1]);
      Utf16LengthOfBmp(s[..|s| - 1]);
    }
  }

  /** `ch.charCodeAt(0)` for an element `ch` that `for...of` yields: the character
      itself when it is in the BMP, otherwise the high surrogate of its pair. */
  function FirstCodeUnit(c: char): (u: nat)
    ensures u < 0x1_0000
    ensures c as int < 0x1_0000 ==> u == c as int
    ensures c as int >= 0x1_0000 ==> 0xD800 <= u < 0xDC00
  {
    if c as int < 0x1_0000 then c as int
    else 0xD800 + (c as int - 0x1_0000) / 0x400
  }

  /** The offset the score loop computes, `charCodeAt(0) - 44032`. */
  function SyllableOffset(c: char): int {
    FirstCodeUnit(c) - SBase
  }

  /** `c` is a precomposed Hangul syllable: its offset lies in 0..11171. */
  predicate IsSyllable(c: char) {
    0 <= SyllableOffset(c) < SCount
  }

  /** Supplementary-plane characters are never taken for syllables. */
  lemma SupplementaryIsNotSyllable(c: char)
    requires c as int >= 0x1_0000
    ensures !IsSyllable(c)
  {
  }

  /** Leading-consonant index: offset div 588. */
  function LIndex(c: char): (l: nat)
    requires IsSyllable(c)
    ensures l < LCount
  {
    SyllableOffset(c) / NCount
  }

  /** Vowel index: (offset mod 588) div 28. */
  function VIndex(c: char): (v: nat)
    requires IsSyllable(c)
    ensures v < VCount
  {
    (SyllableOffset(c) % NCount) / TCount
  }

  /** Trailing-consonant index: offset mod 28 (0 means none). */
  function TIndex(c: char): (t: nat)
    requires IsSyllable(c)
    ensures t < TCount
  {
    SyllableOffset(c) % TCount
  }

  /** The syllable with the given jamo indices: the composition of section 3.12,
      whose decomposition gives the indices back. */
  function Compose(l: nat, v: nat, t: nat): (c: char)
    requires l < LCount && v < VCount && t < TCount
    ensures IsSyllable(c)
    ensures LIndex(c) == l && VIndex(c) == v && TIndex(c) == t
  {
    var off := l * NCount + v * TCount + t;
    assert off / NCount == l && (off % NCount) / TCount == v && off % TCount == t by {
      OffsetDigits(l, v, t);
    }
    (SBase + off) as char
  }

  /** Mixed-radix digits of a syllable offset. */
  lemma OffsetDigits(l: nat, v: nat, t: nat)
    requires l < LCount && v < VCount && t < TCount
    ensures (l * NCount + v * TCount + t) / NCount == l
    ensures (l * NCount + v * TCount + t) % NCount == v * TCount + t
    ensures (v * TCount + t) / TCount == v
    ensures (l * NCount + v * TCount + t) % TCount == t
  {
    var inner := v * TCount + t;
    assert 0 <= inner < NCount;
    assert l * NCount + v * TCount + t == l * 21 * TCount + inner;
  }

  /** Every syllable is the composition of its own jamo indices. */
  lemma DecomposeCompose(c: char)
    requires IsSyllable(c)
    ensures Compose(LIndex(c), VIndex(c), TIndex(c)) == c
  {
    var off := SyllableOffset(c);
    assert off == (off / NCount) * NCount + ((off % NCount) / TCount) * TCount + off % TCount;
  }
}
