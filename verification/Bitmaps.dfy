/** Dense bitmaps over 64-bit words: one bit per rune of a source document. */
module Bitmaps {
  import opened Common

  const WORD_BITS := 64
  const ALL_ONES: bv64 := 0xFFFF_FFFF_FFFF_FFFF

  /** Bit `i` of a word is its lowest bit after `i` shifts to the right. */
  predicate Bit(w: bv64, i: nat) {
    if i == 0 then w & 1 == 1 else Bit(w >> 1, i - 1)
  }

  /** The bit of a bitmap at an offset counted over all its words. */
  predicate BitAt(words: seq<bv64>, i: nat)
    requires i < WORD_BITS * |words|
  {
    Bit(words[i / WORD_BITS], i % WORD_BITS)
  }

  /** The set a bitmap stands for. */
  ghost function Members(words: seq<bv64>): set<nat> {
    set i: nat | i < WORD_BITS * |words| && BitAt(words, i)
  }

  function WordCount(runeCount: nat): nat {
    (runeCount + WORD_BITS - 1) / WORD_BITS
  }

  /** A word with the bits of a mask set or cleared. */
  function Masked(word: bv64, mask: bv64, on: bool): bv64 {
    if on then word | mask else word & !mask
  }

  // ---- Single words ------------------------------------------------------------------------

  /** `w << k`: `k` shifts to the left by one place each. */
  function ShiftLeft(w: bv64, k: nat): bv64 {
    if k == 0 then w else ShiftLeft(w, k - 1) << 1
  }

  /** The word with only bit `k` set. */
  function OneBit(k: nat): bv64
    requires k < WORD_BITS
  {
    ShiftLeft(1, k)
  }

  /** The word with the `k` lowest bits set. */
  function LowMask(k: nat): bv64
    requires k < WORD_BITS
  {
    OneBit(k) - 1
  }

  /** The bits `from..to` of a word, as the range loop builds them. */
  function RangeMask(from: nat, to: nat): bv64
    requires from < WORD_BITS && to <= WORD_BITS
  {
    if to < WORD_BITS then ShiftLeft(ALL_ONES, from) & LowMask(to) else ShiftLeft(ALL_ONES, from)
  }

  lemma BitStep(w: bv64, i: nat)
    ensures Bit(w, 0) <==> w & 1 == 1
    ensures Bit(w, i + 1) == Bit(w >> 1, i)
  {}

  lemma ShiftUnion(u: bv64, a: bv64, b: bv64)
    requires u == a | b
    ensures u >> 1 == (a >> 1) | (b >> 1)
    ensures u & 1 == 1 <==> a & 1 == 1 || b & 1 == 1
  {}

  lemma {:induction false} WordUnion(u: bv64, a: bv64, b: bv64, i: nat)
    requires u == a | b
    ensures Bit(u, i) <==> Bit(a, i) || Bit(b, i)
    decreases i
  {
    hide Bit;
    ShiftUnion(u, a, b);
    var k := if i == 0 then 0 else i - 1;
    BitStep(u, k);
    BitStep(a, k);
    BitStep(b, k);
    if i > 0 {
      WordUnion(u >> 1, a >> 1, b >> 1, i - 1);
    }
  }

  lemma ShiftDifference(u: bv64, a: bv64, b: bv64)
    requires u == a & !b
    ensures u >> 1 == (a >> 1) & !(b >> 1)
    ensures u & 1 == 1 <==> a & 1 == 1 && b & 1 != 1
  {}

  lemma {:induction false} WordDifference(u: bv64, a: bv64, b: bv64, i: nat)
    requires u == a & !b
    ensures Bit(u, i) <==> Bit(a, i) && !Bit(b, i)
    decreases i
  {
    hide Bit;
    ShiftDifference(u, a, b);
    var k := if i == 0 then 0 else i - 1;
    BitStep(u, k);
    BitStep(a, k);
    BitStep(b, k);
    if i > 0 {
      WordDifference(u >> 1, a >> 1, b >> 1, i - 1);
    }
  }

  lemma ShiftIntersection(u: bv64, a: bv64, b: bv64)
    requires u == a & b
    ensures u >> 1 == (a >> 1) & (b >> 1)
    ensures u & 1 == 1 <==> a & 1 == 1 && b & 1 == 1
  {}

  lemma {:induction false} WordIntersection(u: bv64, a: bv64, b: bv64, i: nat)
    requires u == a & b
    ensures Bit(u, i) <==> Bit(a, i) && Bit(b, i)
    decreases i
  {
    hide Bit;
    ShiftIntersection(u, a, b);
    var k := if i == 0 then 0 else i - 1;
    BitStep(u, k);
    BitStep(a, k);
    BitStep(b, k);
    if i > 0 {
      WordIntersection(u >> 1, a >> 1, b >> 1, i - 1);
    }
  }

  lemma {:induction false} ZeroWord(i: nat)
    ensures !Bit(0, i)
  {
    if i > 0 {
      ZeroWord(i - 1);
    }
  }

  lemma {:induction false} ShiftLeftTwice(w: bv64, j: nat, k: nat)
    ensures ShiftLeft(ShiftLeft(w, j), k) == ShiftLeft(w, j + k)
  {
    if k > 0 {
      ShiftLeftTwice(w, j, k - 1);
    }
  }

  lemma {:induction false} ShiftLeftZero(k: nat)
    ensures ShiftLeft(0, k) == 0
  {
    if k > 0 {
      ShiftLeftZero(k - 1);
    }
  }

  lemma ShiftOnce(w: bv64, k: nat)
    ensures ShiftLeft(w, k + 1) == ShiftLeft(w, k) << 1
  {}

  lemma ShiftByte(v: bv64, w: bv64)
    requires w == v << 1 << 1 << 1 << 1 << 1 << 1 << 1 << 1
    ensures ShiftLeft(v, 8) == w
  {
    hide ShiftLeft;
    ShiftSeven(v);
    ShiftOnce(v, 7);
  }

  lemma ShiftSeven(v: bv64)
    ensures ShiftLeft(v, 7) == v << 1 << 1 << 1 << 1 << 1 << 1 << 1
  {
    assert ShiftLeft(v, 0) == v;
    hide ShiftLeft;
    ShiftOnce(v, 0);
    ShiftOnce(v, 1);
    ShiftOnce(v, 2);
    ShiftOnce(v, 3);
    ShiftOnce(v, 4);
    ShiftOnce(v, 5);
    ShiftOnce(v, 6);
  }

  lemma TopBit()
    ensures OneBit(63) == 0x8000_0000_0000_0000
  {
    assert OneBit(63) == ShiftLeft(1, 63) && ShiftLeft(1, 0) == 1;
    hide ShiftLeft, OneBit;
    ShiftByte(0x1, 0x100);
    ShiftLeftTwice(1, 0, 8);
    ShiftByte(0x100, 0x1_0000);
    ShiftLeftTwice(1, 8, 8);
    ShiftByte(0x1_0000, 0x100_0000);
    ShiftLeftTwice(1, 16, 8);
    ShiftByte(0x100_0000, 0x1_0000_0000);
    ShiftLeftTwice(1, 24, 8);
    ShiftByte(0x1_0000_0000, 0x100_0000_0000);
    ShiftLeftTwice(1, 32, 8);
    ShiftByte(0x100_0000_0000, 0x1_0000_0000_0000);
    ShiftLeftTwice(1, 40, 8);
    ShiftByte(0x1_0000_0000_0000, 0x100_0000_0000_0000);
    ShiftLeftTwice(1, 48, 8);
    ShiftLeftTwice(1, 56, 7);
    var top: bv64 := 0x100_0000_0000_0000;
    assert ShiftLeft(1, 63) == ShiftLeft(top, 7);
    ShiftSeven(top);
  }

  /** No bit of a power of two below the word size is lost: it still reaches the top bit. */
  lemma OneBitIsPositive(k: nat)
    requires k < WORD_BITS
    ensures OneBit(k) != 0
  {
    ShiftLeftTwice(1, k, 63 - k);
    ShiftLeftZero(63 - k);
    TopBit();
  }

  lemma DoublePower(p: bv64)
    requires p & (p - 1) == 0 && p << 1 != 0
    ensures (p << 1) >> 1 == p && (p << 1) & 1 == 0
    ensures (p << 1) & ((p << 1) - 1) == 0
  {}

  lemma {:induction false} HalvePower(k: nat)
    requires k < WORD_BITS
    ensures OneBit(k) & (OneBit(k) - 1) == 0
    ensures k > 0 ==> OneBit(k) >> 1 == OneBit(k - 1) && OneBit(k) & 1 == 0
  {
    if k > 0 {
      HalvePower(k - 1);
      OneBitIsPositive(k);
      DoublePower(OneBit(k - 1));
    }
  }

  lemma ShiftLow(p: bv64)
    requires p & 1 == 0 && p != 0
    ensures (p - 1) >> 1 == (p >> 1) - 1
    ensures (p - 1) & 1 == 1
  {}

  lemma {:induction false} SingleBit(k: nat, i: nat)
    requires k < WORD_BITS
    ensures Bit(OneBit(k), i) <==> i == k
    decreases k
  {
    hide Bit, ShiftLeft;
    var j := if i == 0 then 0 else i - 1;
    BitStep(OneBit(k), j);
    FirstPower();
    HalvePower(k);
    if k > 0 && i > 0 {
      SingleBit(k - 1, i - 1);
    } else if i > 0 {
      ZeroWord(i - 1);
    }
  }

  lemma FirstPower()
    ensures OneBit(0) == 1
  {}

  lemma {:induction false} LowBits(k: nat, i: nat)
    requires k < WORD_BITS
    ensures Bit(LowMask(k), i) <==> i < k
    decreases k
  {
    hide Bit, ShiftLeft;
    FirstPower();
    if k == 0 {
      ZeroWord(i);
    } else {
      HalvePower(k);
      OneBitIsPositive(k);
      ShiftLow(OneBit(k));
      var j := if i == 0 then 0 else i - 1;
      BitStep(OneBit(k) - 1, j);
      if i > 0 {
        LowBits(k - 1, i - 1);
      }
    }
  }

  lemma FullWord(i: nat)
    ensures Bit(ALL_ONES, i) <==> i < WORD_BITS
  {
    var top: bv64 := OneBit(63);
    TopBit();
    hide Bit, ShiftLeft, OneBit;
    assert ALL_ONES == (top - 1) | top;
    LowBits(63, i);
    SingleBit(63, i);
    WordUnion(ALL_ONES, top - 1, top, i);
  }

  lemma {:induction false} HighWord(k: nat)
    ensures ShiftLeft(ALL_ONES, k) == 0 - ShiftLeft(1, k)
  {
    if k > 0 {
      HighWord(k - 1);
      NegatedDouble(ShiftLeft(1, k - 1));
    }
  }

  lemma NegatedDouble(p: bv64)
    ensures (0 - p) << 1 == 0 - (p << 1)
    ensures 0 - p == ALL_ONES & !(p - 1)
  {}

  lemma HighBits(k: nat, i: nat)
    requires k < WORD_BITS
    ensures Bit(ShiftLeft(ALL_ONES, k), i) <==> k <= i < WORD_BITS
  {
    hide Bit;
    HighWord(k);
    NegatedDouble(ShiftLeft(1, k));
    WordDifference(ShiftLeft(ALL_ONES, k), ALL_ONES, OneBit(k) - 1, i);
    FullWord(i);
    LowBits(k, i);
  }

  lemma IntersectionBits(a: bv64, b: bv64, i: nat)
    ensures Bit(a & b, i) <==> Bit(a, i) && Bit(b, i)
  {
    hide Bit;
    WordIntersection(a & b, a, b, i);
  }

  lemma RangeMaskBits(from: nat, to: nat, i: nat)
    requires from < WORD_BITS && to <= WORD_BITS
    ensures Bit(RangeMask(from, to), i) <==> from <= i < to
  {
    hide Bit, ShiftLeft, LowMask, RangeMask;
    var high, mask := ShiftLeft(ALL_ONES, from), RangeMask(from, to);
    HighBits(from, i);
    if to < WORD_BITS {
      var low := LowMask(to);
      LowBits(to, i);
      NarrowMask(from, to, mask, high, low, i);
    } else {
      FullMask(from, to, mask, high);
    }
  }

  lemma NarrowMask(from: nat, to: nat, mask: bv64, high: bv64, low: bv64, i: nat)
    requires from < WORD_BITS && to < WORD_BITS
    requires mask == RangeMask(from, to) && high == ShiftLeft(ALL_ONES, from) && low == LowMask(to)
    ensures Bit(mask, i) <==> Bit(high, i) && Bit(low, i)
  {
    hide Bit, ShiftLeft, LowMask;
    IntersectionBits(high, low, i);
  }

  lemma FullMask(from: nat, to: nat, mask: bv64, high: bv64)
    requires from < WORD_BITS && to == WORD_BITS
    requires mask == RangeMask(from, to) && high == ShiftLeft(ALL_ONES, from)
    ensures mask == high
  {
    hide ShiftLeft, LowMask;
  }

  lemma MaskedBits(word: bv64, mask: bv64, on: bool, i: nat)
    ensures Bit(Masked(word, mask, on), i) <==> if Bit(mask, i) then on else Bit(word, i)
  {
    hide Bit;
    if on {
      WordUnion(word | mask, word, mask, i);
    } else {
      WordDifference(word & !mask, word, mask, i);
    }
  }

  lemma MaskedRange(word: bv64, from: nat, to: nat, on: bool, i: nat)
    requires from < WORD_BITS && to <= WORD_BITS
    ensures Bit(Masked(word, RangeMask(from, to), on), i) <==> if from <= i < to then on else Bit(word, i)
  {
    hide Bit, RangeMask, Masked;
    RangeMaskBits(from, to, i);
    MaskedBits(word, RangeMask(from, to), on, i);
  }

  lemma MaskedBit(word: bv64, k: nat, i: nat)
    requires k < WORD_BITS
    ensures Bit(Masked(word, OneBit(k), true), i) <==> i == k || Bit(word, i)
  {
    hide Bit, Masked;
    SingleBit(k, i);
    MaskedBits(word, OneBit(k), true, i);
  }

  // ---- Bitmaps -----------------------------------------------------------------------------

  method SetBitmapBit(bitmap: array<bv64>, offset: nat)
    requires offset < WORD_BITS * bitmap.Length
    modifies bitmap
    ensures forall i: nat | i < WORD_BITS * bitmap.Length ::
              BitAt(bitmap[..], i) <==> i == offset || old(BitAt(bitmap[..], i))
  {
    hide Bit, Masked, OneBit;
    var word := offset / WORD_BITS;
    ghost var before := bitmap[word];
    bitmap[word] := Masked(bitmap[word], OneBit(offset % WORD_BITS), true);
    forall i: nat | i < WORD_BITS * bitmap.Length
      ensures BitAt(bitmap[..], i) <==> i == offset || old(BitAt(bitmap[..], i))
    {
      MaskedBit(before, offset % WORD_BITS, i % WORD_BITS);
    }
  }

  /** Sets or clears exactly the bits of `[max(start, 0), min(end, limit))`. */
  method MutateBitmapRange(bitmap: array<bv64>, start: int, end: int, limit: int, on: bool)
    requires Min(end, limit) <= WORD_BITS * bitmap.Length
    modifies bitmap
    ensures forall i: nat | i < WORD_BITS * bitmap.Length ::
              BitAt(bitmap[..], i) <==>
                if Max(start, 0) <= i < Min(end, limit) then on else old(BitAt(bitmap[..], i))
  {
    hide Bit, Masked, RangeMask;
    var first, last := Max(start, 0), Min(end, limit);
    if first >= last {
      return;
    }
    var firstWord := first / WORD_BITS;
    var lastWord := (last - 1) / WORD_BITS;
    for word := firstWord to lastWord + 1
      invariant forall w | 0 <= w < bitmap.Length && !(firstWord <= w < word) :: bitmap[w] == old(bitmap[w])
      invariant forall w, i: nat | firstWord <= w < word && i < WORD_BITS ::
                  Bit(bitmap[w], i) <==>
                    if first <= WORD_BITS * w + i < last then on else Bit(old(bitmap[w]), i)
    {
      var wordStart := word * WORD_BITS;
      var from := Max(first - wordStart, 0);
      var to := Min(last - wordStart, WORD_BITS);
      ghost var before := bitmap[word];
      bitmap[word] := Masked(bitmap[word], RangeMask(from, to), on);
      forall i: nat | i < WORD_BITS
        ensures Bit(bitmap[word], i) <==>
                  if first <= wordStart + i < last then on else Bit(before, i)
      {
        MaskedRange(before, from, to, on, i);
      }
    }
    forall i: nat | i < WORD_BITS * bitmap.Length
      ensures BitAt(bitmap[..], i) <==> if first <= i < last then on else old(BitAt(bitmap[..], i))
    {
      var w := i / WORD_BITS;
      assert i == WORD_BITS * w + i % WORD_BITS;
    }
  }

  predicate Within(i: int, start: int, end: int) {
    Max(start, 0) <= i < end
  }

  ghost function Interval(start: int, end: int): set<nat> {
    set i: nat | i < end && Within(i, start, end)
  }

  lemma MembersWithBit(before: seq<bv64>, after: seq<bv64>, offset: nat)
    requires |before| == |after| && offset < WORD_BITS * |after|
    requires forall i: nat | i < WORD_BITS * |after| :: BitAt(after, i) <==> i == offset || BitAt(before, i)
    ensures Members(after) == Members(before) + {offset}
  {
    hide Bit;
  }

  lemma MembersWithRange(before: seq<bv64>, after: seq<bv64>, start: int, end: int, on: bool)
    requires |before| == |after| && end <= WORD_BITS * |after|
    requires forall i: nat | i < WORD_BITS * |after| ::
               BitAt(after, i) <==> if Max(start, 0) <= i < end then on else BitAt(before, i)
    ensures Members(after) == if on then Members(before) + Interval(start, end) else Members(before) - Interval(start, end)
  {
    hide BitAt;
  }

  method SetRange(bitmap: array<bv64>, start: int, end: int, limit: nat)
    requires limit <= WORD_BITS * bitmap.Length
    modifies bitmap
    ensures Members(bitmap[..]) == old(Members(bitmap[..])) + Interval(start, Min(end, limit))
  {
    ghost var before := bitmap[..];
    MutateBitmapRange(bitmap, start, end, limit, true);
    MembersWithRange(before, bitmap[..], start, Min(end, limit), true);
  }

  method ClearRange(bitmap: array<bv64>, start: int, end: int, limit: nat)
    requires limit <= WORD_BITS * bitmap.Length
    modifies bitmap
    ensures Members(bitmap[..]) == old(Members(bitmap[..])) - Interval(start, Min(end, limit))
  {
    ghost var before := bitmap[..];
    MutateBitmapRange(bitmap, start, end, limit, false);
    MembersWithRange(before, bitmap[..], start, Min(end, limit), false);
  }
}
