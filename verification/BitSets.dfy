/** Sets of example indices packed into 128-bit words. */
module BitSets {

  type Bits = seq<bv128>

  const MAX128: bv128 := 0xFFFF_FFFF_FFFF_FFFF_FFFF_FFFF_FFFF_FFFF

  // ---- bits of one word ----

  predicate Low(w: bv128) { w & 1 == 1 }

  function Half(w: bv128): bv128 { w >> 1 }

  /** Bit `k` of a word. */
  predicate BitAt(w: bv128, k: nat) {
    if k == 0 then Low(w) else BitAt(Half(w), k - 1)
  }

  function AndWord(a: bv128, b: bv128): bv128 { a & b }
  function OrWord(a: bv128, b: bv128): bv128 { a | b }
  function AndNotWord(a: bv128, b: bv128): bv128 { a & !b }

  lemma HalfOfAnd(a: bv128, b: bv128)
    ensures Half(AndWord(a, b)) == AndWord(Half(a), Half(b)) && (Low(AndWord(a, b)) <==> Low(a) && Low(b))
  {
  }

  lemma HalfOfOr(a: bv128, b: bv128)
    ensures Half(OrWord(a, b)) == OrWord(Half(a), Half(b)) && (Low(OrWord(a, b)) <==> Low(a) || Low(b))
  {
    hide Low, Half, OrWord;
    ShiftOfOr(a, b);
    LowOfOr(a, b);
  }

  lemma ShiftOfOr(a: bv128, b: bv128)
    ensures Half(OrWord(a, b)) == OrWord(Half(a), Half(b))
  {
  }

  lemma LowOfOr(a: bv128, b: bv128)
    ensures Low(OrWord(a, b)) <==> Low(a) || Low(b)
  {
  }

  lemma HalfOfDifference(a: bv128, b: bv128)
    ensures Half(AndNotWord(a, b)) == AndNotWord(Half(a), Half(b)) && (Low(AndNotWord(a, b)) <==> Low(a) && !Low(b))
  {
  }

  lemma {:induction false} BitOfWords(a: bv128, b: bv128, k: nat)
    ensures BitAt(AndWord(a, b), k) <==> BitAt(a, k) && BitAt(b, k)
    ensures BitAt(OrWord(a, b), k) <==> BitAt(a, k) || BitAt(b, k)
    ensures BitAt(AndNotWord(a, b), k) <==> BitAt(a, k) && !BitAt(b, k)
    decreases k
  {
    hide Low, Half, AndWord, OrWord, AndNotWord;
    HalfOfAnd(a, b);
    HalfOfOr(a, b);
    HalfOfDifference(a, b);
    if k > 0 {
      BitOfWords(Half(a), Half(b), k - 1);
    }
  }

  /** A bit position as a shift amount. */
  function Amount(j: nat): bv8 { if j == 0 then 0 else Amount(j - 1) + 1 }

  lemma {:induction false} AmountIsPosition(j: nat)
    requires j <= 128
    ensures Amount(j) as nat == j
  {
    if j > 0 {
      AmountIsPosition(j - 1);
    }
  }

  lemma AmountStep(j: nat)
    requires 0 < j <= 128
    ensures 0 < Amount(j) <= 128 && Amount(j) - 1 == Amount(j - 1)
  {
    AmountIsPosition(j);
  }

  lemma AmountSmall(j: nat)
    requires j <= 128
    ensures Amount(j) <= 128 && (j < 128 ==> Amount(j) < 128) && (j == 0 ==> Amount(j) == 0)
  {
    AmountIsPosition(j);
  }

  /** The word with the single bit `j`. */
  predicate IsOne(w: bv128, j: bv8) { j < 128 && w == 1 << j }

  /** The word whose low `r` bits are set. */
  predicate IsLowOnes(w: bv128, r: bv8) { r <= 128 && w == if r == 128 then MAX128 else (1 << r) - 1 }

  /** `1 << j`. */
  function OneWord(j: nat): (w: bv128)
    requires j < 128
    ensures IsOne(w, Amount(j))
  {
    AmountSmall(j);
    1 << Amount(j)
  }

  /** `(1 << r) - 1`. */
  function LowOnes(r: nat): (w: bv128)
    requires r < 128
    ensures IsLowOnes(w, Amount(r))
  {
    AmountSmall(r);
    (1 << Amount(r)) - 1
  }

  lemma HalfOfOne(w: bv128, j: bv8)
    requires IsOne(w, j)
    ensures j > 0 ==> !Low(w) && IsOne(Half(w), j - 1)
    ensures j == 0 ==> Low(w) && Half(w) == 0
  {
  }

  lemma HalfOfLowOnes(w: bv128, r: bv8)
    requires IsLowOnes(w, r)
    ensures r > 0 ==> Low(w) && IsLowOnes(Half(w), r - 1)
    ensures r == 0 ==> w == 0
  {
  }

  lemma {:induction false} BitOfZero(k: nat)
    ensures !BitAt(0, k)
  {
    if k > 0 {
      assert Half(0) == 0;
      BitOfZero(k - 1);
    }
  }

  lemma {:induction false} BitOfOne(w: bv128, j: nat, k: nat)
    requires j < 128 && IsOne(w, Amount(j))
    ensures BitAt(w, k) <==> k == j
    decreases k
  {
    hide Low, Half, IsOne, Amount;
    AmountSmall(j);
    HalfOfOne(w, Amount(j));
    if j > 0 {
      AmountStep(j);
      if k > 0 { BitOfOne(Half(w), j - 1, k - 1); }
    } else if k > 0 {
      BitOfZero(k - 1);
    }
  }

  lemma {:induction false} BitOfLowOnes(w: bv128, r: nat, k: nat)
    requires r <= 128 && IsLowOnes(w, Amount(r))
    ensures BitAt(w, k) <==> k < r
    decreases k
  {
    hide Low, Half, IsLowOnes, Amount;
    AmountSmall(r);
    HalfOfLowOnes(w, Amount(r));
    if r == 0 {
      BitOfZero(k);
    } else {
      AmountStep(r);
      if k > 0 { BitOfLowOnes(Half(w), r - 1, k - 1); }
    }
  }

  // ---- packed sets ----

  function CeilDiv(a: nat, b: nat): nat
    requires b > 0
  {
    (a + b - 1) / b
  }

  ghost predicate Member(b: Bits, i: nat) { i / 128 < |b| && BitAt(b[i / 128], i % 128) }

  // `zip` stops at the shorter operand and leaves the remaining words as they are.

  function Conjunction(a: Bits, b: Bits): (r: Bits)
    ensures |r| == |a|
    ensures |a| == |b| ==> forall i: nat :: Member(r, i) <==> Member(a, i) && Member(b, i)
  {
    var r := seq(|a|, w requires 0 <= w < |a| => if w < |b| then AndWord(a[w], b[w]) else a[w]);
    assert |a| == |b| ==> forall i: nat :: Member(r, i) <==> Member(a, i) && Member(b, i) by {
      if |a| == |b| { ConjunctionMembers(a, b, r); }
    }
    r
  }

  lemma ConjunctionMembers(a: Bits, b: Bits, r: Bits)
    requires |r| == |a| == |b| && forall w | 0 <= w < |a| :: r[w] == AndWord(a[w], b[w])
    ensures forall i: nat :: Member(r, i) <==> Member(a, i) && Member(b, i)
  {
    hide BitAt, AndWord;
    forall i: nat | i / 128 < |a| ensures Member(r, i) <==> Member(a, i) && Member(b, i) {
      BitOfWords(a[i / 128], b[i / 128], i % 128);
    }
  }

  function Union(a: Bits, b: Bits): (r: Bits)
    ensures |r| == |a|
    ensures |a| == |b| ==> forall i: nat :: Member(r, i) <==> Member(a, i) || Member(b, i)
  {
    var r := seq(|a|, w requires 0 <= w < |a| => if w < |b| then OrWord(a[w], b[w]) else a[w]);
    assert |a| == |b| ==> forall i: nat :: Member(r, i) <==> Member(a, i) || Member(b, i) by {
      if |a| == |b| { UnionMembers(a, b, r); }
    }
    r
  }

  lemma UnionMembers(a: Bits, b: Bits, r: Bits)
    requires |r| == |a| == |b| && forall w | 0 <= w < |a| :: r[w] == OrWord(a[w], b[w])
    ensures forall i: nat :: Member(r, i) <==> Member(a, i) || Member(b, i)
  {
    hide BitAt, OrWord;
    forall i: nat | i / 128 < |a| ensures Member(r, i) <==> Member(a, i) || Member(b, i) {
      BitOfWords(a[i / 128], b[i / 128], i % 128);
    }
  }

  function Difference(a: Bits, b: Bits): (r: Bits)
    ensures |r| == |a|
    ensures |a| == |b| ==> forall i: nat :: Member(r, i) <==> Member(a, i) && !Member(b, i)
  {
    var r := seq(|a|, w requires 0 <= w < |a| => if w < |b| then AndNotWord(a[w], b[w]) else a[w]);
    assert |a| == |b| ==> forall i: nat :: Member(r, i) <==> Member(a, i) && !Member(b, i) by {
      if |a| == |b| { DifferenceMembers(a, b, r); }
    }
    r
  }

  lemma DifferenceMembers(a: Bits, b: Bits, r: Bits)
    requires |r| == |a| == |b| && forall w | 0 <= w < |a| :: r[w] == AndNotWord(a[w], b[w])
    ensures forall i: nat :: Member(r, i) <==> Member(a, i) && !Member(b, i)
  {
    hide BitAt, AndNotWord;
    forall i: nat | i / 128 < |a| ensures Member(r, i) <==> Member(a, i) && !Member(b, i) {
      BitOfWords(a[i / 128], b[i / 128], i % 128);
    }
  }

  /** `subset`: word by word, nothing of `a` is lost by masking with `b`. */
  predicate Subset(a: Bits, b: Bits) {
    forall w | 0 <= w < |a| && w < |b| :: AndWord(b[w], a[w]) == a[w]
  }

  /** Only bits of `m` can be set in `x`. */
  predicate Within(x: bv128, m: bv128) { x & !m == 0 }

  lemma WithinHalf(x: bv128, m: bv128)
    requires Within(x, m)
    ensures Within(Half(x), Half(m))
  {
  }

  lemma WithinZero(x: bv128)
    requires Within(x, 0)
    ensures x == 0
  {
  }

  lemma Rebuild(x: bv128, y: bv128)
    requires Half(x) == Half(y) && (Low(x) <==> Low(y))
    ensures x == y
  {
  }

  lemma {:induction false} SameBits(x: bv128, y: bv128, m: bv128, n: nat)
    requires n <= 128 && IsLowOnes(m, Amount(n)) && Within(x, m) && Within(y, m)
    requires forall k: nat | k < n :: BitAt(x, k) == BitAt(y, k)
    ensures x == y
    decreases n
  {
    hide Low, Half, Within, Amount, IsLowOnes;
    AmountSmall(n);
    HalfOfLowOnes(m, Amount(n));
    if n == 0 {
      WithinZero(x);
      WithinZero(y);
    } else {
      AmountStep(n);
      WithinHalf(x, m);
      WithinHalf(y, m);
      forall k: nat | k < n - 1 ensures BitAt(Half(x), k) == BitAt(Half(y), k) {
        assert BitAt(x, k + 1) == BitAt(y, k + 1);
      }
      SameBits(Half(x), Half(y), Half(m), n - 1);
      assert BitAt(x, 0) == BitAt(y, 0);
      Rebuild(x, y);
    }
  }

  /** The test decides set inclusion. */
  lemma SubsetIsInclusion(a: Bits, b: Bits)
    requires |a| == |b|
    ensures Subset(a, b) <==> forall i: nat | Member(a, i) :: Member(b, i)
  {
    hide BitAt, AndWord;
    if Subset(a, b) {
      forall i: nat | Member(a, i) ensures Member(b, i) {
        BitOfWords(b[i / 128], a[i / 128], i % 128);
      }
    }
    if forall i: nat | Member(a, i) :: Member(b, i) {
      forall w | 0 <= w < |a| ensures AndWord(b[w], a[w]) == a[w] {
        forall k: nat | k < 128 ensures BitAt(AndWord(b[w], a[w]), k) == BitAt(a[w], k) {
          BitOfWords(b[w], a[w], k);
          assert (128 * w + k) / 128 == w && (128 * w + k) % 128 == k;
          assert Member(a, 128 * w + k) ==> Member(b, 128 * w + k);
        }
        AmountIsPosition(128);
        SameBits(AndWord(b[w], a[w]), a[w], MAX128, 128);
      }
    }
  }

  /** `boxed_ones`. */
  function BoxedOnes(size: nat): (b: Bits)
    ensures |b| == CeilDiv(size, 128)
  {
    var l := CeilDiv(size, 128);
    seq(l, w requires 0 <= w < l => if w + 1 == l then LowOnes(size % 128) else MAX128)
  }

  /** The examples that `boxed_ones(size)` really contains: a full last word comes out empty. */
  function Covered(size: nat): (n: nat)
    ensures n <= size
  {
    if size > 0 && size % 128 == 0 then size - 128 else size
  }

  lemma BoxedOnesMembers(size: nat)
    ensures forall i: nat :: Member(BoxedOnes(size), i) <==> i < Covered(size)
  {
    hide BitAt, Amount;
    var b, l := BoxedOnes(size), CeilDiv(size, 128);
    forall i: nat ensures Member(b, i) <==> i < Covered(size) {
      var w := i / 128;
      if w + 1 == l {
        assert IsLowOnes(LowOnes(size % 128), Amount(size % 128));
        BitOfLowOnes(b[w], size % 128, i % 128);
      } else if w < l {
        AmountIsPosition(128);
        BitOfLowOnes(b[w], 128, i % 128);
      }
    }
  }

  /** Every example is included exactly when the size is no positive multiple of the word width. */
  lemma BoxedOnesComplete(size: nat)
    ensures (forall i: nat | i < size :: Member(BoxedOnes(size), i)) <==> size == 0 || size % 128 != 0
  {
    BoxedOnesMembers(size);
    if size > 0 && size % 128 == 0 {
      assert !Member(BoxedOnes(size), size - 1);
    }
  }

  // ---- words changed in place ----

  lemma SetBit(b: Bits, b': Bits, i: nat)
    requires i / 128 < |b| && b' == b[i / 128 := OrWord(b[i / 128], OneWord(i % 128))]
    ensures forall k: nat :: Member(b', k) <==> Member(b, k) || k == i
  {
    hide BitAt, OrWord, IsOne, Amount;
    forall k: nat ensures Member(b', k) <==> Member(b, k) || k == i {
      if k / 128 == i / 128 {
        BitOfWords(b[i / 128], OneWord(i % 128), k % 128);
        BitOfOne(OneWord(i % 128), i % 128, k % 128);
      }
    }
  }

  lemma NoBits(b: Bits)
    requires forall w | 0 <= w < |b| :: b[w] == 0
    ensures forall k: nat :: !Member(b, k)
  {
    forall k: nat ensures !Member(b, k) {
      BitOfZero(k % 128);
    }
  }

  /** The words in which the bits of the listed indices are set one after the other. */
  function Packed(t: seq<nat>, len: nat): (b: Bits)
    requires forall j | 0 <= j < |t| :: t[j] < len
    ensures |b| == CeilDiv(len, 128)
  {
    if t == [] then seq(CeilDiv(len, 128), _ => 0)
    else
      var b, i := Packed(t[..|t| - 1], len), t[|t| - 1];
      assert i / 128 < |b|;
      b[i / 128 := OrWord(b[i / 128], OneWord(i % 128))]
  }

  lemma {:induction false} PackedMembers(t: seq<nat>, len: nat)
    requires forall j | 0 <= j < |t| :: t[j] < len
    ensures forall k: nat :: Member(Packed(t, len), k) <==> k in t
  {
    hide BitAt, OneWord, OrWord;
    if t == [] {
      NoBits(Packed(t, len));
    } else {
      var init, i := t[..|t| - 1], t[|t| - 1];
      PackedMembers(init, len);
      assert i / 128 < CeilDiv(len, 128);
      SetBit(Packed(init, len), Packed(t, len), i);
      assert t == init + [i];
    }
  }

  /** `from_bit_iter`: the packed set of the listed indices. */
  method FromBitIter(t: seq<nat>, len: nat) returns (b: Bits)
    requires forall j | 0 <= j < |t| :: t[j] < len
    ensures |b| == CeilDiv(len, 128) && b == Packed(t, len)
    ensures forall k: nat :: Member(b, k) <==> k in t
  {
    hide BitAt, OneWord, OrWord;
    var vec := new bv128[CeilDiv(len, 128)](_ => 0);
    assert vec[..] == Packed(t[..0], len);
    for j := 0 to |t|
      invariant vec[..] == Packed(t[..j], len)
    {
      var i := t[j];
      assert i / 128 < vec.Length;
      vec[i / 128] := OrWord(vec[i / 128], OneWord(i % 128));
      assert t[..j + 1][..j] == t[..j];
    }
    assert t[..|t|] == t;
    b := vec[..];
    PackedMembers(t, len);
  }

  /** `conjunction_assign`. */
  method ConjunctionAssign(a: array<bv128>, other: Bits)
    modifies a
    ensures a[..] == Conjunction(old(a[..]), other)
  {
    for w := 0 to a.Length
      invariant forall j | 0 <= j < w :: a[j] == Conjunction(old(a[..]), other)[j]
      invariant forall j | w <= j < a.Length :: a[j] == old(a[j])
    {
      if w < |other| { a[w] := AndWord(a[w], other[w]); }
    }
  }

  /** `union_assign`. */
  method UnionAssign(a: array<bv128>, other: Bits)
    modifies a
    ensures a[..] == Union(old(a[..]), other)
  {
    for w := 0 to a.Length
      invariant forall j | 0 <= j < w :: a[j] == Union(old(a[..]), other)[j]
      invariant forall j | w <= j < a.Length :: a[j] == old(a[j])
    {
      if w < |other| { a[w] := OrWord(a[w], other[w]); }
    }
  }

  /** `difference_assign`. */
  method DifferenceAssign(a: array<bv128>, other: Bits)
    modifies a
    ensures a[..] == Difference(old(a[..]), other)
  {
    for w := 0 to a.Length
      invariant forall j | 0 <= j < w :: a[j] == Difference(old(a[..]), other)[j]
      invariant forall j | w <= j < a.Length :: a[j] == old(a[j])
    {
      if w < |other| { a[w] := AndNotWord(a[w], other[w]); }
    }
  }
}
