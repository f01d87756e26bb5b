/** Unsigned machine words as numbers: the bit operations, and a word as a high and a low part. */
module Words {

  function Pow2(k: nat): (p: nat)
    ensures p >= 1
  {
    if k == 0 then 1 else 2 * Pow2(k - 1)
  }

  /** `count_ones`. */
  function Ones(a: nat): nat { if a == 0 then 0 else a % 2 + Ones(a / 2) }

  function AndW(a: nat, b: nat): nat {
    if a == 0 || b == 0 then 0 else 2 * AndW(a / 2, b / 2) + if a % 2 == 1 && b % 2 == 1 then 1 else 0
  }

  function OrW(a: nat, b: nat): nat {
    if a == 0 then b else if b == 0 then a else 2 * OrW(a / 2, b / 2) + if a % 2 == 1 || b % 2 == 1 then 1 else 0
  }

  /** The complement in a word of `width` bits. */
  function NotIn(b: nat, width: nat): nat
    requires b < Pow2(width)
  {
    Pow2(width) - 1 - b
  }

  const WIDTH := 64

  /** `!b` for a `u64`. */
  function NotW(b: nat): nat
    requires b < Pow2(WIDTH)
  {
    NotIn(b, WIDTH)
  }

  /** The ones of `a` that are not in `b`. */
  function Without(a: nat, b: nat): nat {
    if a == 0 then 0 else 2 * Without(a / 2, b / 2) + if a % 2 == 1 && b % 2 == 0 then 1 else 0
  }

  predicate Within(c: nat, m: nat) { c == 0 || (c % 2 <= m % 2 && Within(c / 2, m / 2)) }

  lemma {:induction false} WithinZero(c: nat)
    requires Within(c, 0)
    ensures c == 0
  {
    if c > 0 { WithinZero(c / 2); }
  }

  /** `trailing_zeros`. */
  function TrailingZeros(a: nat): nat {
    if a == 0 then WIDTH else if a % 2 == 1 then 0 else 1 + TrailingZeros(a / 2)
  }

  /** `trailing_ones`. */
  function TrailingOnes(a: nat): nat { if a % 2 == 1 then 1 + TrailingOnes(a / 2) else 0 }

  // ---- high and low parts ----

  function Shr(a: nat, k: nat): nat { if k == 0 then a else Shr(a / 2, k - 1) }

  function Low(a: nat, k: nat): nat { if k == 0 then 0 else 2 * Low(a / 2, k - 1) + a % 2 }

  /** `h * 2^k + l`, for `l < 2^k`. */
  function Cat(h: nat, k: nat, l: nat): nat { if k == 0 then h else 2 * Cat(h, k - 1, l / 2) + l % 2 }

  lemma {:induction false} Parts(a: nat, k: nat)
    ensures a == Cat(Shr(a, k), k, Low(a, k)) && Low(a, k) < Pow2(k)
  {
    if k > 0 { Parts(a / 2, k - 1); }
  }

  lemma {:induction false} CatIsSum(h: nat, k: nat, l: nat)
    requires l < Pow2(k)
    ensures Cat(h, k, l) == Cat(h, k, 0) + l && Cat(0, k, l) == l && Cat(1, k, 0) == Pow2(k)
  {
    if k > 0 { CatIsSum(h, k - 1, l / 2); }
  }

  lemma {:induction false} CatOrder(h: nat, h': nat, k: nat, l: nat, l': nat)
    requires l < Pow2(k) && l' < Pow2(k)
    ensures Cat(h, k, l) < Cat(h', k, l') <==> h < h' || (h == h' && l < l')
    decreases k
  {
    if k > 0 {
      CatOrder(h, h', k - 1, l / 2, l' / 2);
      CatOrder(h', h, k - 1, l' / 2, l / 2);
    }
  }

  lemma {:induction false} CatOnes(h: nat, k: nat, l: nat)
    requires l < Pow2(k)
    ensures Ones(Cat(h, k, l)) == Ones(h) + Ones(l)
  {
    if k > 0 {
      CatOnes(h, k - 1, l / 2);
      OnesOf(Cat(h, k - 1, l / 2), l % 2);
      OnesOf(l / 2, l % 2);
    }
  }

  lemma OnesOf(a: nat, b: nat)
    requires b < 2
    ensures Ones(2 * a + b) == Ones(a) + b
  {
  }

  lemma {:induction false} CatCat(h: nat, j: nat, m: nat, k: nat, l: nat)
    requires m < Pow2(j) && l < Pow2(k)
    ensures Cat(Cat(h, j, m), k, l) == Cat(h, j + k, Cat(m, k, l)) && Cat(m, k, l) < Pow2(j + k)
  {
    if k > 0 { CatCat(h, j, m, k - 1, l / 2); }
  }

  /** At most `k` ones fit below `2^k`, and only all ones are that many; no ones make zero. */
  lemma {:induction false} OnesBelow(a: nat, k: nat)
    requires a < Pow2(k)
    ensures Ones(a) <= k
    ensures Ones(a) == k <==> a == Pow2(k) - 1
    ensures Ones(a) == 0 <==> a == 0
  {
    if k > 0 {
      OnesBelow(a / 2, k - 1);
      OnesOf(a / 2, a % 2);
    }
  }

  lemma {:induction false} PowGrows(j: nat, k: nat)
    requires j <= k
    ensures Pow2(j) <= Pow2(k) && (j < k ==> Pow2(j) < Pow2(k))
  {
    if j < k { PowGrows(j, k - 1); }
  }

  lemma {:induction false} Below(a: nat)
    ensures a < Pow2(a)
  {
    if a > 0 { Below(a - 1); }
  }

  // ---- operations on parts ----

  lemma AndStep(a: nat, b: nat)
    ensures AndW(a, b) == 2 * AndW(a / 2, b / 2) + if a % 2 == 1 && b % 2 == 1 then 1 else 0
  {
  }

  lemma {:induction false} AndNot(a: nat, b: nat, width: nat)
    requires a < Pow2(width) && b < Pow2(width)
    ensures AndW(a, NotIn(b, width)) == Without(a, b)
  {
    if width > 0 {
      AndNot(a / 2, b / 2, width - 1);
      assert NotIn(b, width) / 2 == NotIn(b / 2, width - 1);
      AndStep(a, NotIn(b, width));
    }
  }

  /** `a & !(2^k - 1)` clears the low part. */
  lemma {:induction false} ClearLow(a: nat, k: nat)
    ensures Without(a, Pow2(k) - 1) == Cat(Shr(a, k), k, 0)
  {
    if k > 0 {
      ClearLow(a / 2, k - 1);
      assert (Pow2(k) - 1) / 2 == Pow2(k - 1) - 1;
    } else {
      WithoutNothing(a);
    }
  }

  lemma {:induction false} WithoutNothing(a: nat)
    ensures Without(a, 0) == a
  {
    if a > 0 { WithoutNothing(a / 2); }
  }

  lemma {:induction false} OrLow(h: nat, k: nat, l: nat)
    requires l < Pow2(k)
    ensures OrW(Cat(h, k, 0), l) == Cat(h, k, l)
  {
    if k > 0 {
      OrLow(h, k - 1, l / 2);
      OrStep(Cat(h, k, 0), l);
    }
  }

  lemma OrStep(a: nat, b: nat)
    ensures OrW(a, b) == 2 * OrW(a / 2, b / 2) + if a % 2 == 1 || b % 2 == 1 then 1 else 0
  {
  }

  lemma {:induction false} ShrOfCat(h: nat, k: nat, l: nat)
    requires l < Pow2(k)
    ensures Shr(Cat(h, k, l), k) == h && Low(Cat(h, k, l), k) == l
  {
    if k > 0 { ShrOfCat(h, k - 1, l / 2); }
  }
}
