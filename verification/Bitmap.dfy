/**
 Bit ranges in an array of 64-bit words (criu/bitmap.c).

 A machine word is its 64 bits, lowest first; the operators are those of C on unsigned long.
 */
module Bitmap {

  type Word = w: seq<bool> | |w| == 64 witness Repeat(false, 64)

  function Repeat(b: bool, n: nat): (r: seq<bool>)
    ensures |r| == n && forall i :: 0 <= i < n ==> r[i] == b
  {
    if n == 0 then [] else [b] + Repeat(b, n - 1)
  }

  /** 0ul or ~0ul */
  function Fill(b: bool): Word { Repeat(b, 64) }

  function Or(x: Word, y: Word): Word { seq(64, k requires 0 <= k < 64 => x[k] || y[k]) }

  function And(x: Word, y: Word): Word { seq(64, k requires 0 <= k < 64 => x[k] && y[k]) }

  function Not(x: Word): Word { seq(64, k requires 0 <= k < 64 => !x[k]) }

  /** x << n */
  function ShiftLeft(x: Word, n: nat): Word { seq(64, k requires 0 <= k < 64 => k >= n && x[k - n]) }

  /** The bits of x - 1: borrow through the low zeros. */
  function MinusOne(x: seq<bool>): (r: seq<bool>)
    ensures |r| == |x|
  {
    if x == [] then [] else if x[0] then [false] + x[1..] else [true] + MinusOne(x[1..])
  }

  function One(): Word { [true] + Repeat(false, 63) }

  /** ~0ul << (start % 64) */
  function FirstWordMask(start: nat): Word { ShiftLeft(Fill(true), start % 64) }

  /** (1ul << (nbits % 64)) - 1, or ~0ul when nbits is a multiple of 64. */
  function LastWordMask(nbits: nat): Word {
    if nbits % 64 != 0 then MinusOne(ShiftLeft(One(), nbits % 64)) else Fill(true)
  }

  /** The bits of all words in order: what a bitmap means. */
  function Bits(words: seq<Word>): (s: seq<bool>) {
    seq(64 * |words|, i requires 0 <= i < 64 * |words| => words[i / 64][i % 64])
  }

  /** The bitmap with the bits in [from, to) put to v. */
  function Ranged(s: seq<bool>, from: nat, to: nat, v: bool): (r: seq<bool>) {
    seq(|s|, i requires 0 <= i < |s| => if from <= i < to then v else s[i])
  }

  lemma {:induction false} BorrowBits(x: seq<bool>, m: nat, k: nat)
    requires m < |x| && k < |x| && x[m] && (forall i :: 0 <= i < m ==> !x[i])
    ensures MinusOne(x)[k] == if k < m then true else if k == m then false else x[k]
  {
    if m > 0 {
      assert !x[0];
      if k > 0 { BorrowBits(x[1..], m - 1, k - 1); }
    }
  }

  /** The last-word mask has exactly the low nbits % 64 bits, or all when there is nothing to cut off. */
  lemma LastWordMaskBits(nbits: nat, k: nat)
    requires k < 64
    ensures LastWordMask(nbits)[k] <==> nbits % 64 == 0 || k < nbits % 64
  {
    if nbits % 64 != 0 {
      BorrowBits(ShiftLeft(One(), nbits % 64), nbits % 64, k);
    }
  }

  /** What or-ing the mask into word p, or clearing it there, does to the bits. */
  lemma MaskedWord(words: seq<Word>, p: nat, mask: Word, lo: nat, hi: nat, v: bool)
    requires p < |words| && 64 * p <= lo <= hi <= 64 * p + 64
    requires forall k :: 0 <= k < 64 ==> (mask[k] <==> lo <= 64 * p + k < hi)
    ensures Bits(Masked(words, p, mask, v)) == Ranged(Bits(words), lo, hi, v)
  {
    var words' := Masked(words, p, mask, v);
    forall i | 0 <= i < 64 * |words| ensures Bits(words')[i] == Ranged(Bits(words), lo, hi, v)[i] {
      assert i == 64 * (i / 64) + i % 64;
    }
  }

  lemma RangedTwice(s: seq<bool>, a: nat, b: nat, c: nat, v: bool)
    requires a <= b <= c
    ensures Ranged(Ranged(s, a, b, v), b, c, v) == Ranged(s, a, c, v)
  {
  }

  /** Word p with the mask put to v. */
  function Masked(words: seq<Word>, p: nat, mask: Word, v: bool): seq<Word>
    requires p < |words|
  {
    words[p := if v then Or(words[p], mask) else And(words[p], Not(mask))]
  }

  /** The range done so far, from start to lo, grows to hi, the end of the word of lo. */
  lemma FullWord(words: seq<Word>, before: seq<bool>, start: nat, lo: nat, hi: nat, v: bool)
    requires start <= lo && lo / 64 < |words| && hi == lo + (64 - lo % 64) && Bits(words) == Ranged(before, start, lo, v)
    ensures Bits(Masked(words, lo / 64, FirstWordMask(lo), v)) == Ranged(before, start, hi, v)
    ensures hi / 64 == lo / 64 + 1 && hi % 64 == 0 && FirstWordMask(hi) == Fill(true)
  {
    MaskedWord(words, lo / 64, FirstWordMask(lo), lo, hi, v);
    RangedTwice(before, start, lo, hi, v);
    NextWord(lo);
  }

  /** The range done so far grows to hi, inside the word of lo. */
  lemma LastWord(words: seq<Word>, before: seq<bool>, start: nat, lo: nat, hi: nat, v: bool)
    requires start <= lo && lo / 64 < |words| && Bits(words) == Ranged(before, start, lo, v)
    requires lo < hi < lo + (64 - lo % 64)
    ensures Bits(Masked(words, lo / 64, And(FirstWordMask(lo), LastWordMask(hi)), v)) == Ranged(before, start, hi, v)
  {
    var mask := And(FirstWordMask(lo), LastWordMask(hi));
    assert hi / 64 == lo / 64 && hi % 64 == hi - 64 * (lo / 64);
    forall k | 0 <= k < 64 ensures mask[k] <==> lo <= 64 * (lo / 64) + k < hi { LastWordMaskBits(hi, k); }
    MaskedWord(words, lo / 64, mask, lo, hi, v);
    RangedTwice(before, start, lo, hi, v);
  }

  /** Going on from the end of the word that holds bit lo. */
  lemma NextWord(lo: nat)
    ensures var hi := lo + (64 - lo % 64); hi / 64 == lo / 64 + 1 && hi % 64 == 0 && FirstWordMask(hi) == Fill(true)
  {
    var hi := lo + (64 - lo % 64);
    assert hi == 64 * (lo / 64 + 1);
    assert forall k :: 0 <= k < 64 ==> FirstWordMask(hi)[k] == Fill(true)[k];
  }

  /** bitmap_set: exactly the bits in [start, start + nr) become set. */
  method BitmapSet(words: array<Word>, start: nat, nr: nat)
    requires start + nr <= 64 * words.Length && start + nr < 0x8000_0000
    modifies words
    ensures Bits(words[..]) == Ranged(old(Bits(words[..])), start, start + nr, true)
  {
    var p := start / 64;
    var size := start + nr;
    var n := nr;
    var bitsToSet := 64 - start % 64;
    var maskToSet := FirstWordMask(start);
    ghost var before, lo := Bits(words[..]), start;
    assert before == Ranged(before, start, lo, true);
    while n - bitsToSet >= 0
      invariant 0 <= n && start <= lo && lo == size - n && p == lo / 64
      invariant bitsToSet == 64 - lo % 64 && maskToSet == FirstWordMask(lo)
      invariant Bits(words[..]) == Ranged(before, start, lo, true)
    {
      ghost var done, hi := Masked(words[..], p, maskToSet, true), lo + bitsToSet;
      FullWord(words[..], before, start, lo, hi, true);
      words[p] := Or(words[p], maskToSet);
      assert words[..] == done;
      lo := hi;
      n := n - bitsToSet;
      bitsToSet := 64;
      maskToSet := Fill(true);
      p := p + 1;
    }
    if n != 0 {
      LastWord(words[..], before, start, lo, size, true);
      maskToSet := And(maskToSet, LastWordMask(size));
      ghost var done := Masked(words[..], p, maskToSet, true);
      words[p] := Or(words[p], maskToSet);
      assert words[..] == done;
    }
  }

  /** bitmap_clear: exactly the bits in [start, start + nr) become clear. */
  method BitmapClear(words: array<Word>, start: nat, nr: nat)
    requires start + nr <= 64 * words.Length && start + nr < 0x8000_0000
    modifies words
    ensures Bits(words[..]) == Ranged(old(Bits(words[..])), start, start + nr, false)
  {
    var p := start / 64;
    var size := start + nr;
    var n := nr;
    var bitsToClear := 64 - start % 64;
    var maskToClear := FirstWordMask(start);
    ghost var before, lo := Bits(words[..]), start;
    assert before == Ranged(before, start, lo, false);
    while n - bitsToClear >= 0
      invariant 0 <= n && start <= lo && lo == size - n && p == lo / 64
      invariant bitsToClear == 64 - lo % 64 && maskToClear == FirstWordMask(lo)
      invariant Bits(words[..]) == Ranged(before, start, lo, false)
    {
      ghost var done, hi := Masked(words[..], p, maskToClear, false), lo + bitsToClear;
      FullWord(words[..], before, start, lo, hi, false);
      words[p] := And(words[p], Not(maskToClear));
      assert words[..] == done;
      lo := hi;
      n := n - bitsToClear;
      bitsToClear := 64;
      maskToClear := Fill(true);
      p := p + 1;
    }
    if n != 0 {
      LastWord(words[..], before, start, lo, size, false);
      maskToClear := And(maskToClear, LastWordMask(size));
      ghost var done := Masked(words[..], p, maskToClear, false);
      words[p] := And(words[p], Not(maskToClear));
      assert words[..] == done;
    }
  }
}
