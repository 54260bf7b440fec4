/**
 The occupancy bitmap of `orderbook/orderbook_flat.hpp`: one bit per price level, 64 levels per
 word, and the word-at-a-time scans built on "count leading/trailing zeros". A `uint64_t` is its
 64 bits, bit 0 first; the word operations are the machine's, bit by bit.
 */
module Bitmap {

  type Word = w: seq<bool> | |w| == 64 witness seq(64, _ => false)

  const ZERO: Word := seq(64, _ => false)
  const ONE: Word := seq(64, i => i == 0)
  const ONES: Word := seq(64, _ => true)

  function And(a: Word, b: Word): Word {
    seq(64, i requires 0 <= i < 64 => a[i] && b[i])
  }

  function Or(a: Word, b: Word): Word {
    seq(64, i requires 0 <= i < 64 => a[i] || b[i])
  }

  function Not(a: Word): Word {
    seq(64, i requires 0 <= i < 64 => !a[i])
  }

  function Shl(a: Word, n: nat): Word {
    seq(64, i requires 0 <= i < 64 => n <= i && a[i - n])
  }

  function Shr(a: Word, n: nat): Word {
    seq(64, i requires 0 <= i < 64 => i + n < 64 && a[i + n])
  }

  // ---------------------------------------------------------------- counting zeros

  lemma SomeBit(w: Word)
    requires w != ZERO
    ensures exists j | 0 <= j < 64 :: w[j]
  {
    assert (forall j | 0 <= j < 64 :: !w[j]) ==> w == ZERO;
  }

  /** `__builtin_clzll` of a non-zero word. */
  method Clz(w: Word) returns (r: nat)
    requires w != ZERO
    ensures r < 64 && w[63 - r] && forall j | 63 - r < j < 64 :: !w[j]
  {
    r := 0;
    SomeBit(w);
    while !w[63 - r]
      invariant r < 64 && forall j | 63 - r < j < 64 :: !w[j]
      decreases 64 - r
    {
      r := r + 1;
    }
  }

  /** `__builtin_ctzll` of a non-zero word. */
  method Ctz(w: Word) returns (r: nat)
    requires w != ZERO
    ensures r < 64 && w[r] && forall j | 0 <= j < r :: !w[j]
  {
    r := 0;
    SomeBit(w);
    while !w[r]
      invariant r < 64 && forall j | 0 <= j < r :: !w[j]
      decreases 64 - r
    {
      r := r + 1;
    }
  }

  // ---------------------------------------------------------------- the bitmap of a side

  /** Level `p` is marked occupied. */
  predicate Has(words: seq<Word>, p: int)
    requires 0 <= p < 64 * |words|
  {
    words[p / 64][p % 64]
  }

  method SetBit(bits: array<Word>, p: int)
    requires 0 <= p < 64 * bits.Length
    modifies bits
    ensures forall x {:trigger Has(bits[..], x)} | 0 <= x < 64 * bits.Length ::
              Has(bits[..], x) <==> x == p || Has(old(bits[..]), x)
  {
    bits[p / 64] := Or(bits[p / 64], Shl(ONE, p % 64));
  }

  method ClearBit(bits: array<Word>, p: int)
    requires 0 <= p < 64 * bits.Length
    modifies bits
    ensures forall x {:trigger Has(bits[..], x)} | 0 <= x < 64 * bits.Length ::
              Has(bits[..], x) <==> x != p && Has(old(bits[..]), x)
  {
    bits[p / 64] := And(bits[p / 64], Not(Shl(ONE, p % 64)));
  }

  /** `r` is the highest occupied level at or below `from`, or -1. */
  ghost predicate IsHighest(words: seq<Word>, from: int, r: int)
    requires from < 64 * |words|
  {
    && -1 <= r && (r >= 0 ==> r <= from && Has(words, r))
    && forall x | r < x <= from && 0 <= x :: !Has(words, x)
  }

  /** `r` is the lowest occupied level at or above `from`, or one past the last level. */
  ghost predicate IsLowest(words: seq<Word>, from: int, r: int)
    requires 0 <= from
  {
    && r <= 64 * |words| && (r < 64 * |words| ==> from <= r && Has(words, r))
    && forall x | from <= x < r :: !Has(words, x)
  }

  /** `word` is word `w` with the bits above `from` masked off, and nothing from `w + 1` up to `from` is set. */
  ghost predicate Above(words: seq<Word>, from: int, w: int, word: Word) {
    && 0 <= w < |words| && 64 * w <= from < 64 * |words|
    && (forall j | 0 <= j < 64 :: word[j] <==> 64 * w + j <= from && words[w][j])
    && (forall x | 64 * w + 64 <= x <= from :: !Has(words, x))
  }

  lemma WordIsHighest(words: seq<Word>, from: int, w: int, word: Word, zeros: nat)
    requires Above(words, from, w, word)
    requires zeros < 64 && word[63 - zeros] && forall j | 63 - zeros < j < 64 :: !word[j]
    ensures IsHighest(words, from, 64 * w + (63 - zeros))
  {
    var r := 64 * w + (63 - zeros);
    forall x | r < x <= from && 0 <= x ensures !Has(words, x) {
      assert x < 64 * w + 64 ==> x / 64 == w && x % 64 == x - 64 * w;
    }
  }

  lemma WordIsEmptyBelow(words: seq<Word>, from: int, w: int, word: Word)
    requires Above(words, from, w, word) && word == ZERO
    ensures forall x | 64 * w <= x <= from :: !Has(words, x)
    ensures w > 0 ==> Above(words, from, w - 1, words[w - 1])
  {
    forall x | 64 * w <= x <= from ensures !Has(words, x) {
      assert x < 64 * w + 64 ==> x / 64 == w && x % 64 == x - 64 * w && !word[x - 64 * w];
    }
  }

  /** `scan_down`: the word of `from` with the bits above it masked off, then whole words downwards. */
  method ScanDown(bits: array<Word>, from: int) returns (r: int)
    requires from < 64 * bits.Length
    ensures IsHighest(bits[..], from, r)
  {
    if from < 0 { return -1; }
    var w := from / 64;
    var word := And(bits[w], Shr(ONES, 63 - from % 64));
    while true
      invariant Above(bits[..], from, w, word)
      decreases w
    {
      if word != ZERO {
        var zeros := Clz(word);
        WordIsHighest(bits[..], from, w, word, zeros);
        return 64 * w + (63 - zeros);
      }
      WordIsEmptyBelow(bits[..], from, w, word);
      if w == 0 { return -1; }
      w := w - 1;
      word := bits[w];
    }
  }

  /** `word` is word `w` with the bits below `from` masked off, and nothing from `from` up to `w` is set. */
  ghost predicate Below(words: seq<Word>, from: int, w: int, word: Word) {
    && 0 <= w < |words| && 0 <= from < 64 * w + 64
    && (forall j | 0 <= j < 64 :: word[j] <==> from <= 64 * w + j && words[w][j])
    && (forall x | from <= x < 64 * w :: !Has(words, x))
  }

  lemma WordIsLowest(words: seq<Word>, from: int, w: int, word: Word, zeros: nat)
    requires Below(words, from, w, word)
    requires zeros < 64 && word[zeros] && forall j | 0 <= j < zeros :: !word[j]
    ensures IsLowest(words, from, 64 * w + zeros)
  {
    forall x | from <= x < 64 * w + zeros ensures !Has(words, x) {
      assert x >= 64 * w ==> x / 64 == w && x % 64 == x - 64 * w;
    }
  }

  lemma WordIsEmptyAbove(words: seq<Word>, from: int, w: int, word: Word)
    requires Below(words, from, w, word) && word == ZERO
    ensures forall x | from <= x < 64 * w + 64 :: !Has(words, x)
    ensures w + 1 < |words| ==> Below(words, from, w + 1, words[w + 1])
  {
    forall x | from <= x < 64 * w + 64 ensures !Has(words, x) {
      assert x >= 64 * w ==> x / 64 == w && x % 64 == x - 64 * w && !word[x - 64 * w];
    }
  }

  /** `scan_up`: the word of `from` with the bits below it masked off, then whole words upwards. */
  method ScanUp(bits: array<Word>, from: int) returns (r: int)
    requires 0 <= from
    ensures IsLowest(bits[..], from, r)
  {
    if from >= 64 * bits.Length { return 64 * bits.Length; }
    var w := from / 64;
    var word := And(bits[w], Shl(ONES, from % 64));
    while true
      invariant Below(bits[..], from, w, word)
      decreases bits.Length - w
    {
      if word != ZERO {
        var zeros := Ctz(word);
        WordIsLowest(bits[..], from, w, word, zeros);
        return 64 * w + zeros;
      }
      WordIsEmptyAbove(bits[..], from, w, word);
      w := w + 1;
      if w == bits.Length { return 64 * bits.Length; }
      word := bits[w];
    }
  }
}
