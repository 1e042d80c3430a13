/** Counting the bits of a bitmap, and adding up a number for every member of a finite set. */
module Counting {
  import opened Bitmaps

  /** The members of a bitmap below an offset. */
  ghost function MembersBelow(words: seq<bv64>, n: nat): set<nat>
    requires n <= WORD_BITS * |words|
  {
    set i: nat | i < n && BitAt(words, i)
  }

  /** How many of the `n` lowest bits of a word are set. */
  function OnesBelow(w: bv64, n: nat): nat {
    if n == 0 then 0 else OnesBelow(w, n - 1) + if Bit(w, n - 1) then 1 else 0
  }

  function OnesCount(w: bv64): nat {
    OnesBelow(w, WORD_BITS)
  }

  lemma NextMember(words: seq<bv64>, n: nat)
    requires n < WORD_BITS * |words|
    ensures |MembersBelow(words, n + 1)| == |MembersBelow(words, n)| + if BitAt(words, n) then 1 else 0
  {
    hide Bit;
    if BitAt(words, n) {
      assert MembersBelow(words, n + 1) == MembersBelow(words, n) + {n};
    } else {
      assert MembersBelow(words, n + 1) == MembersBelow(words, n);
    }
  }

  lemma {:induction false} MembersOfWord(words: seq<bv64>, k: nat, n: nat)
    requires k < |words| && n <= WORD_BITS
    ensures |MembersBelow(words, WORD_BITS * k + n)| == |MembersBelow(words, WORD_BITS * k)| + OnesBelow(words[k], n)
    decreases n
  {
    hide Bit;
    if n > 0 {
      MembersOfWord(words, k, n - 1);
      NextMember(words, WORD_BITS * k + n - 1);
      assert (WORD_BITS * k + n - 1) / WORD_BITS == k;
    }
  }

  lemma AllMembers(words: seq<bv64>)
    ensures MembersBelow(words, WORD_BITS * |words|) == Members(words)
  {}

  /** bitmapCount: the number of members, added up word by word. */
  method BitmapCount(bitmap: array<bv64>) returns (total: nat)
    ensures total == |Members(bitmap[..])|
  {
    hide Bit, OnesBelow;
    total := 0;
    for index := 0 to bitmap.Length
      invariant total == |MembersBelow(bitmap[..], WORD_BITS * index)|
    {
      total := total + OnesCount(bitmap[index]);
      MembersOfWord(bitmap[..], index, WORD_BITS);
    }
    AllMembers(bitmap[..]);
  }

  ghost function Both(a: seq<bv64>, b: seq<bv64>): (r: seq<bv64>)
    requires |a| == |b|
    ensures |r| == |a|
  {
    seq(|a|, k requires 0 <= k < |a| => a[k] & b[k])
  }

  lemma BothWord(a: seq<bv64>, b: seq<bv64>, k: nat, j: nat)
    requires k < |a| == |b|
    ensures Bit(Both(a, b)[k], j) <==> Bit(a[k], j) && Bit(b[k], j)
  {
    hide Bit;
    var w, x, y: bv64 := Both(a, b)[k], a[k], b[k];
    WordIntersection(w, x, y, j);
  }

  lemma BothAt(a: seq<bv64>, b: seq<bv64>, i: nat)
    requires |a| == |b| && i < WORD_BITS * |a|
    ensures BitAt(Both(a, b), i) <==> BitAt(a, i) && BitAt(b, i)
  {
    hide Bit;
    BothWord(a, b, i / WORD_BITS, i % WORD_BITS);
  }

  lemma BothMembers(a: seq<bv64>, b: seq<bv64>)
    requires |a| == |b|
    ensures Members(Both(a, b)) == Members(a) * Members(b)
  {
    forall i: nat | i < WORD_BITS * |a|
      ensures BitAt(Both(a, b), i) <==> BitAt(a, i) && BitAt(b, i)
    {
      BothAt(a, b, i);
    }
    hide BitAt;
  }

  lemma MembersLeft(a: set<nat>, b: set<nat>)
    ensures |a| - |a * b| == |a - b|
  {
    assert a == a * b + (a - b);
  }

  /** What one document adds to the two totals: its required runes, and those not covered. */
  method CountDocument(required: array<bv64>, actual: array<bv64>) returns (covered: nat, uncovered: int)
    requires required.Length == actual.Length
    ensures covered == |Members(required[..])|
    ensures uncovered == |Members(required[..]) - Members(actual[..])|
  {
    hide Bit, OnesBelow;
    covered, uncovered := 0, 0;
    ghost var both := Both(required[..], actual[..]);
    for index := 0 to required.Length
      invariant covered == |MembersBelow(required[..], WORD_BITS * index)|
      invariant uncovered == covered - |MembersBelow(both, WORD_BITS * index)|
    {
      var requiredCount := OnesCount(required[index]);
      var actualCount := OnesCount(required[index] & actual[index]);
      covered := covered + requiredCount;
      uncovered := uncovered + requiredCount - actualCount;
      MembersOfWord(required[..], index, WORD_BITS);
      MembersOfWord(both, index, WORD_BITS);
    }
    AllMembers(required[..]);
    AllMembers(both);
    BothMembers(required[..], actual[..]);
    MembersLeft(Members(required[..]), Members(actual[..]));
  }

  // ---- Sums over sets ----------------------------------------------------------------------

  ghost function Sum<K(!new)>(keys: set<K>, value: K -> nat): nat {
    if keys == {} then 0 else var k :| k in keys; value(k) + Sum(keys - {k}, value)
  }

  /** The sum does not depend on the order the members are taken in. */
  lemma {:induction false} SumTakes<K(!new)>(keys: set<K>, value: K -> nat, k: K)
    requires k in keys
    ensures Sum(keys, value) == value(k) + Sum(keys - {k}, value)
    decreases keys
  {
    var first :| first in keys && Sum(keys, value) == value(first) + Sum(keys - {first}, value);
    if first != k {
      SumTakes(keys - {first}, value, k);
      SumTakes(keys - {k}, value, first);
      assert keys - {first} - {k} == keys - {k} - {first};
    }
  }

  lemma {:induction false} SumIsZero<K(!new)>(keys: set<K>, value: K -> nat)
    ensures Sum(keys, value) == 0 <==> forall k | k in keys :: value(k) == 0
    decreases keys
  {
    if keys != {} {
      var k :| k in keys;
      SumTakes(keys, value, k);
      SumIsZero(keys - {k}, value);
    }
  }
}
