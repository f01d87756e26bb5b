/** What the operators on 64-bit words mean for the numbers that the words stand for. */
module BvValues {
  import opened Wrappers
  import opened Words
  import opened BvExpr

  const MODULUS: int := Pow2(64)
  const HALF: int := Pow2(63)
  const TOP64: bv64 := 0x8000_0000_0000_0000

  // ---- words and their numbers ----

  function Plus(a: bv64, b: bv64): bv64 { a + b }

  /** `a + b` has no carry. */
  predicate Fits(a: bv64, b: bv64) { b <= !a }

  /** The number of a word in two's complement. */
  function Signed(a: bv64): int { if Num(a) < HALF then Num(a) else Num(a) - MODULUS }

  function Abs(x: int): nat { if x < 0 then -x else x }

  // ---- counting ----

  lemma NumZero(a: bv64)
    ensures Num(a) == 0 <==> a == 0
  {
  }

  lemma NumStep(a: bv64)
    requires a != 0
    ensures Num(a) == Num(Down(a)) + 1
  {
  }

  lemma DownUp(a: bv64)
    ensures Down(Up(a)) == a && Up(Down(a)) == a
  {
  }

  lemma LessRoom(a: bv64, b: bv64)
    requires b != 0 && Fits(a, b)
    ensures Fits(a, Down(b))
  {
  }

  lemma NoCarry(a: bv64, b: bv64)
    requires b != 0 && Fits(a, b)
    ensures Plus(a, b) != 0
  {
  }

  lemma PlusDown(a: bv64, b: bv64)
    ensures Down(Plus(a, b)) == Plus(a, Down(b)) && Plus(a, 0) == a
  {
  }

  lemma {:induction false} PlusFitting(a: bv64, b: bv64)
    requires Fits(a, b)
    ensures Num(Plus(a, b)) == Num(a) + Num(b)
    decreases Num(b)
  {
    hide Num, Fits, Down, Plus;
    NumZero(b);
    PlusDown(a, b);
    if b != 0 {
      NumStep(b);
      NoCarry(a, b);
      NumStep(Plus(a, b));
      LessRoom(a, b);
      PlusFitting(a, Down(b));
    }
  }

  lemma {:induction false} NumSame(a: bv64, b: bv64)
    requires Num(a) == Num(b)
    ensures a == b
    decreases Num(a)
  {
    hide Num, Down, Up;
    NumZero(a);
    NumZero(b);
    if a != 0 {
      NumStep(a);
      NumStep(b);
      NumSame(Down(a), Down(b));
      DownUp(a);
      DownUp(b);
    }
  }

  // ---- all words ----

  lemma DoubleBit(k: bv64)
    requires k < 63
    ensures (1 as bv64) << (k + 1) == Plus(1 << k, 1 << k) && Fits(1 << k, 1 << k)
  {
  }

  lemma {:induction false} NumBit(k: bv64)
    requires k < 64
    ensures Num(1 << k) == Pow2(Num(k))
    decreases k
  {
    hide Plus, Fits;
    if k == 0 {
      assert (1 as bv64) << k == 1;
      assert Num(1) == 1;
    } else {
      NumBit(k - 1);
      DoubleBit(k - 1);
      PlusFitting(1 << (k - 1), 1 << (k - 1));
    }
  }

  lemma SmallNums()
    ensures Num(1) == 1 && Num(63) == 63 && Num(64) == 64
  {
    assert Num(1) == 1;
    PlusFitting(1, 1);
    PlusFitting(2, 2);
    PlusFitting(4, 4);
    PlusFitting(8, 8);
    PlusFitting(16, 16);
    PlusFitting(32, 32);
    NumStep(64);
  }

  lemma Halves()
    ensures MODULUS == HALF + HALF
  {
  }

  lemma Top()
    ensures Num(TOP64) == HALF && Num(ONES64) == MODULUS - 1
  {
    hide Num, Pow2;
    SmallNums();
    Halves();
    assert (1 as bv64) << 63 == TOP64;
    NumBit(63);
    NumStep(TOP64);
    PlusFitting(TOP64, TOP64 - 1);
  }

  lemma ComplementAdds(a: bv64)
    ensures Plus(a, !a) == ONES64 && Fits(a, !a)
  {
  }

  lemma NumNot(a: bv64)
    ensures Num(!a) == MODULUS - 1 - Num(a)
  {
    hide Num, Plus, Fits;
    ComplementAdds(a);
    PlusFitting(a, !a);
    Top();
  }

  lemma Bound(a: bv64)
    ensures Num(a) < MODULUS
  {
    hide Num;
    NumNot(a);
  }

  lemma NotAbove(a: bv64, b: bv64)
    requires a <= b
    ensures Num(a) <= Num(b)
  {
    hide Num;
    assert Fits(!b, a);
    PlusFitting(!b, a);
    Bound(Plus(!b, a));
    NumNot(b);
  }

  lemma AtMost(a: bv64, b: bv64)
    requires !(a < b)
    ensures b <= a
  {
  }

  lemma Under(a: bv64, b: bv64)
    requires a < b
    ensures a <= b && a != b
  {
  }

  /** Words are ordered as their numbers are, and no two words have the same number. */
  lemma NumOrder(a: bv64, b: bv64)
    ensures a < b <==> Num(a) < Num(b)
    ensures a == b <==> Num(a) == Num(b)
  {
    hide Num;
    if Num(a) == Num(b) { NumSame(a, b); }
    if a < b {
      Under(a, b);
      NotAbove(a, b);
    } else {
      AtMost(a, b);
      NotAbove(b, a);
    }
  }

  // ---- addition, subtraction, complement ----

  lemma ModuloOf(x: int, y: int, k: int, m: int)
    requires 0 <= y < m && x == y + k * m
    ensures x % m == y && x / m == k
  {
    hide *;
    QuotientBy(x / m, x % m, k, y, m);
  }

  lemma QuotientBy(q: int, r: int, k: int, y: int, m: int)
    requires 0 <= r < m && 0 <= y < m && q * m + r == k * m + y
    ensures q == k && r == y
  {
    assert (q - k) * m == y - r;
    if q > k {
      AtLeast(q - k, m);
    } else if q < k {
      AtLeast(k - q, m);
    }
  }

  lemma AtLeast(k: int, m: int)
    requires k >= 1 && m >= 0
    ensures k * m >= m
  {
  }

  lemma Reduced(x: int, y: int, k: int)
    requires 0 <= y < MODULUS && x == y + k * MODULUS
    ensures x % MODULUS == y
  {
    hide Pow2;
    ModuloOf(x, y, k, MODULUS);
  }

  lemma UpIsZero(a: bv64)
    ensures Up(a) == 0 <==> a == ONES64
  {
  }

  lemma UpValue(a: bv64)
    ensures Num(Up(a)) == if Num(a) == MODULUS - 1 then 0 else Num(a) + 1
  {
    hide Num, Up, Down, Pow2;
    Top();
    NumOrder(a, ONES64);
    UpIsZero(a);
    NumZero(Up(a));
    DownUp(a);
    if Up(a) != 0 { NumStep(Up(a)); }
  }

  lemma {:induction false} PlusValue(a: bv64, b: bv64)
    ensures Num(Plus(a, b)) == (Num(a) + Num(b)) % MODULUS
    decreases Num(b)
  {
    hide Num, Up, Down, Plus, Pow2;
    NumZero(b);
    PlusDown(a, b);
    Bound(a);
    if b == 0 {
      Reduced(Num(a), Num(a), 0);
    } else {
      NumStep(b);
      PlusValue(a, Down(b));
      DownUp(Plus(a, b));
      UpValue(Plus(a, Down(b)));
      OneMore(Num(a) + Num(b) - 1);
    }
  }

  lemma OneMore(x: nat)
    ensures (x + 1) % MODULUS == if x % MODULUS == MODULUS - 1 then 0 else x % MODULUS + 1
  {
    hide Pow2;
    var q, r := x / MODULUS, x % MODULUS;
    if r == MODULUS - 1 {
      Reduced(x + 1, 0, q + 1);
    } else {
      Reduced(x + 1, r + 1, q);
    }
  }

  lemma AddValue(a: bv64, b: bv64)
    ensures Num(a + b) == (Num(a) + Num(b)) % MODULUS
  {
    hide Num;
    PlusValue(a, b);
  }

  lemma NegationWord(b: bv64)
    ensures 0 - b == Up(!b)
  {
  }

  lemma DifferenceWord(a: bv64, b: bv64)
    ensures a - b == Plus(a, 0 - b)
  {
  }

  lemma NegValue(a: bv64)
    ensures Num(0 - a) == if Num(a) == 0 then 0 else MODULUS - Num(a)
  {
    hide Num, Up;
    NegationWord(a);
    NumNot(a);
    UpValue(!a);
  }

  lemma SubValue(a: bv64, b: bv64)
    ensures Num(a - b) == (Num(a) - Num(b)) % MODULUS
  {
    hide Num, Plus;
    DifferenceWord(a, b);
    PlusValue(a, 0 - b);
    NegValue(b);
    Wrapped(Num(a) - Num(b));
  }

  lemma Wrapped(x: int)
    ensures (x + MODULUS) % MODULUS == x % MODULUS
  {
    hide Pow2;
    Reduced(x + MODULUS, x % MODULUS, x / MODULUS + 1);
  }

  /** Without a borrow, subtraction is subtraction of numbers. */
  lemma NumSub(a: bv64, b: bv64)
    requires b <= a
    ensures Num(a - b) == Num(a) - Num(b)
  {
    hide Num;
    SubValue(a, b);
    Bound(a);
    NotAbove(b, a);
    Reduced(Num(a) - Num(b), Num(a) - Num(b), 0);
  }

  // ---- multiplication ----

  function Times(a: bv64, b: bv64): bv64 { a * b }

  lemma UpWord(a: bv64, b: bv64)
    ensures Times(a, Up(b)) == Times(a, b + 1)
  {
    hide Times;
  }

  lemma TimesOneMore(a: bv64, b: bv64)
    ensures Times(a, b + 1) == Plus(a * b, a)
  {
  }

  lemma TimesWord(a: bv64, b: bv64)
    ensures Plus(Times(a, b), a) == Plus(a * b, a)
  {
    hide Plus;
  }

  lemma TimesUp(a: bv64, b: bv64)
    ensures Times(a, Up(b)) == Plus(Times(a, b), a)
  {
    hide Times, Up, Plus;
    UpWord(a, b);
    TimesOneMore(a, b);
    TimesWord(a, b);
  }

  lemma TimesZero(a: bv64)
    ensures Times(a, 0) == 0
  {
  }

  lemma ModuloPlus(x: int, y: int)
    ensures (x % MODULUS + y) % MODULUS == (x + y) % MODULUS
  {
    hide Pow2;
    var s := x % MODULUS + y;
    Reduced(x + y, s % MODULUS, s / MODULUS + x / MODULUS);
  }

  lemma TimesStep(a: bv64, b: bv64)
    requires Num(Times(a, b)) == Num(a) * Num(b) % MODULUS
    ensures Num(Times(a, Up(b))) == (Num(a) * Num(b) + Num(a)) % MODULUS
  {
    hide Num, Up, Plus, Times, Pow2;
    TimesUp(a, b);
    PlusValue(Times(a, b), a);
    ModuloPlus(Num(a) * Num(b), Num(a));
  }

  lemma Distributed(x: int, y: int)
    ensures x * y + x == x * (y + 1)
  {
  }

  lemma TimesFrom(a: bv64, b: bv64)
    requires b != 0 && Num(Times(a, Down(b))) == Num(a) * Num(Down(b)) % MODULUS
    ensures Num(Times(a, b)) == Num(a) * Num(b) % MODULUS
  {
    hide Num, Up, Down, Times, MODULUS;
    NumStep(b);
    DownUp(b);
    TimesStep(a, Down(b));
    Distributed(Num(a), Num(Down(b)));
  }

  lemma TimesNone(a: bv64)
    ensures Num(Times(a, 0)) == Num(a) * Num(0) % MODULUS
  {
    hide Times, MODULUS, Num;
    TimesZero(a);
    Bound(a);
    NumZero(0);
    Vanishes(Num(a), Num(0));
  }

  lemma Vanishes(x: nat, y: nat)
    requires y == 0
    ensures x * y % MODULUS == 0
  {
    hide Pow2;
    assert x * y == 0;
    Reduced(0, 0, 0);
  }

  lemma {:induction false} TimesValue(a: bv64, b: bv64)
    ensures Num(Times(a, b)) == Num(a) * Num(b) % MODULUS
    decreases Num(b)
  {
    hide Num, Down, Times, MODULUS;
    if b != 0 {
      NumStep(b);
      TimesValue(a, Down(b));
      TimesFrom(a, b);
    } else {
      TimesNone(a);
    }
  }

  // ---- division ----

  lemma DivideLess(x: nat, p: nat)
    requires p >= 1
    ensures 0 <= x / p <= x
  {
    var q := x / p;
    assert x == p * q + x % p;
    if q < 0 { AtLeast(-q, p); }
    assert (p - 1) * q >= 0;
  }

  /** Every number below the modulus belongs to a word. */
  lemma {:induction false} NumFromNum(n: nat)
    requires n < MODULUS
    ensures Num(FromNum(n)) == n
  {
    hide Num, MODULUS, Up;
    if n == 0 {
      NumZero(0);
    } else {
      NumFromNum(n - 1);
      UpValue(FromNum(n - 1));
    }
  }

  lemma DividedParts(x: nat, y: nat)
    requires y >= 1
    ensures x == (x / y) * y + x % y && 0 <= x / y <= x && x % y < y
  {
    DivideLess(x, y);
  }

  /** Quotient and remainder of words are those of their numbers. */
  lemma DivisionValue(a: bv64, b: bv64)
    requires b != 0
    ensures Num(a) == Num(Quotient(a, b)) * Num(b) + Num(Remainder(a, b))
    ensures Num(Remainder(a, b)) < Num(b)
  {
    hide Num, FromNum, MODULUS;
    NumZero(b);
    Bound(a);
    Bound(b);
    var x, y := Num(a), Num(b);
    DividedParts(x, y);
    NumFromNum(x / y);
    NumFromNum(x % y);
  }

  // ---- shifts by one ----

  function Half(a: bv64): bv64 { a >> 1 }

  lemma HalfWord(a: bv64)
    ensures Fits(Half(a), Half(a))
    ensures Fits(Plus(Half(a), Half(a)), a & 1)
    ensures Plus(Plus(Half(a), Half(a)), a & 1) == a
  {
  }

  lemma LowBit(a: bv64)
    ensures a & 1 == 0 || a & 1 == 1
  {
  }

  lemma NumHalf(a: bv64)
    ensures Num(Half(a)) == Num(a) / 2 && Num(a & 1) == Num(a) % 2
  {
    hide Num, Half, Fits, Plus;
    var h, l := Half(a), a & 1;
    HalfWord(a);
    PlusFitting(h, h);
    PlusFitting(Plus(h, h), l);
    LowBit(a);
    SmallNums();
    NumZero(0);
  }

  lemma SignWord(a: bv64)
    ensures Negative(a) <==> !(a < TOP64)
  {
  }

  lemma NegativeIs(a: bv64)
    ensures Negative(a) <==> Num(a) >= HALF
    ensures Negative(a) <==> Signed(a) < 0
  {
    hide Num, Negative, Pow2;
    SignWord(a);
    NumOrder(a, TOP64);
    Top();
    Bound(a);
  }

  /** Half of a negative number, rounded down. */
  function SignedHalf(a: bv64): bv64 { (a >> 1) | TOP64 }

  lemma SignedHalfWord(a: bv64)
    ensures SignedHalf(a) == Plus(TOP64, Half(a)) && Fits(TOP64, Half(a))
  {
  }

  lemma SignedHalfValue(a: bv64)
    requires Negative(a)
    ensures Signed(SignedHalf(a)) == Signed(a) / 2 && Negative(SignedHalf(a))
  {
    hide Num, Negative, Half, SignedHalf, Plus, Fits, Pow2;
    SignedHalfWord(a);
    NegativeIs(a);
    NegativeIs(SignedHalf(a));
    PlusFitting(TOP64, Half(a));
    NumHalf(a);
    Halves();
    Top();
    Bound(a);
  }

  // ---- shifts by more ----

  function Right(a: bv64, k: bv64): bv64
    requires k < 64
  {
    a >> k
  }

  lemma ShiftAgain(a: bv64, k: bv64)
    requires k < 63
    ensures a >> (k + 1) == (a >> k) >> 1
  {
  }

  lemma HalfOf(a: bv64, k: bv64)
    requires k < 63
    ensures Half(Right(a, k)) == (a >> k) >> 1
  {
  }

  lemma RightStep(a: bv64, k: bv64)
    requires k < 63
    ensures Right(a, k + 1) == Half(Right(a, k))
  {
    hide Half;
    ShiftAgain(a, k);
    HalfOf(a, k);
  }

  lemma OneBefore(k: bv64)
    requires k != 0 && k < 64
    ensures Down(k) < 63 && Down(k) + 1 == k
  {
  }

  lemma RightZero(a: bv64)
    ensures Right(a, 0) == a
  {
  }

  lemma DivideAgain(x: int, p: int)
    requires p >= 1
    ensures x / p / 2 == x / (2 * p)
  {
    var q, r := x / p, x % p;
    assert x == p * q + r;
    var h, l := q / 2, q % 2;
    Collected(p, h, l, r);
    ModuloOf(x, l * p + r, h, 2 * p);
  }

  lemma Collected(p: int, h: int, l: int, r: int)
    requires p >= 1 && 0 <= l <= 1 && 0 <= r < p
    ensures p * (2 * h + l) + r == (l * p + r) + h * (2 * p)
    ensures 0 <= l * p + r < 2 * p
  {
  }

  lemma {:induction false} RightValue(a: bv64, k: bv64)
    requires k < 64
    ensures Num(Right(a, k)) == Num(a) / Pow2(Num(k))
    decreases Num(k)
  {
    hide Num, Right, Down, Half, MODULUS;
    NumZero(k);
    if k == 0 {
      RightZero(a);
    } else {
      var c := Down(k);
      NumStep(k);
      OneBefore(k);
      RightValue(a, c);
      RightStep(a, c);
      NumHalf(Right(a, c));
      DivideAgain(Num(a), Pow2(Num(c)));
    }
  }

  function Left(a: bv64, k: bv64): bv64
    requires k < 64
  {
    a << k
  }

  lemma ShiftTwice(a: bv64, k: bv64)
    requires k < 63
    ensures a << (k + 1) == (a << k) + (a << k)
  {
  }

  lemma TwiceOf(a: bv64, k: bv64)
    requires k < 63
    ensures Plus(Left(a, k), Left(a, k)) == (a << k) + (a << k)
  {
  }

  lemma LeftStep(a: bv64, k: bv64)
    requires k < 63
    ensures Left(a, k + 1) == Plus(Left(a, k), Left(a, k))
  {
    hide Plus;
    ShiftTwice(a, k);
    TwiceOf(a, k);
  }

  lemma LeftZero(a: bv64)
    ensures Left(a, 0) == a
  {
  }

  lemma DoubledModulo(x: int, p: int)
    ensures (x * p % MODULUS + x * p % MODULUS) % MODULUS == x * (2 * p) % MODULUS
  {
    hide Pow2;
    var y := x * p;
    ModuloPlus(y, y % MODULUS);
    ModuloPlus(y, y);
    assert y + y == x * (2 * p);
  }

  lemma {:induction false} LeftValue(a: bv64, k: bv64)
    requires k < 64
    ensures Num(Left(a, k)) == Num(a) * Pow2(Num(k)) % MODULUS
    decreases Num(k)
  {
    hide Num, Left, Down, Plus, MODULUS;
    NumZero(k);
    if k == 0 {
      LeftZero(a);
      Bound(a);
      Unchanged(Num(a));
    } else {
      var c := Down(k);
      NumStep(k);
      OneBefore(k);
      LeftValue(a, c);
      LeftStep(a, c);
      PlusValue(Left(a, c), Left(a, c));
      DoubledModulo(Num(a), Pow2(Num(c)));
    }
  }

  lemma Unchanged(x: nat)
    requires x < MODULUS
    ensures x * 1 % MODULUS == x
  {
    hide Pow2;
    Reduced(x, x, 0);
  }

  lemma FilledWord(a: bv64, ones: bv64, h: bv64, i: bv64, f: bv64)
    requires h == a >> 1 && i == ones >> 1 && f == a | !ones
    ensures h | !i == (f >> 1) | TOP64
  {
  }

  lemma FilledHalf(a: bv64, ones: bv64)
    ensures Filled(Half(a), Half(ones)) == SignedHalf(Filled(a, ones))
  {
    FilledWord(a, ones, Half(a), Half(ones), Filled(a, ones));
  }

  lemma FilledAll(a: bv64)
    ensures Filled(a, ONES64) == a
  {
  }

  /** Filling with sign bits from the left is division by a power of two, rounded down. */
  lemma {:induction false} FilledValue(a: bv64, k: bv64)
    requires k < 64 && Negative(a)
    ensures Signed(Filled(Right(a, k), Right(ONES64, k))) == Signed(a) / Pow2(Num(k))
    ensures Negative(Filled(Right(a, k), Right(ONES64, k)))
    decreases Num(k)
  {
    hide Num, Right, Down, Half, MODULUS, Filled, Signed, SignedHalf, Negative;
    NumZero(k);
    if k == 0 {
      RightZero(a);
      RightZero(ONES64);
      FilledAll(a);
    } else {
      var c := Down(k);
      NumStep(k);
      OneBefore(k);
      FilledValue(a, c);
      RightStep(a, c);
      RightStep(ONES64, c);
      FilledHalf(Right(a, c), Right(ONES64, c));
      SignedHalfValue(Filled(Right(a, c), Right(ONES64, c)));
      DivideAgain(Signed(a), Pow2(Num(c)));
    }
  }

  lemma FilledShift(a: bv64, k: bv64)
    requires k < 64 && Negative(a)
    ensures ArithmeticShift(a, k) == Filled(Right(a, k), Right(ONES64, k))
  {
    hide Negative, Filled;
  }

  lemma PlainShift(a: bv64, k: bv64)
    requires k < 64 && !Negative(a)
    ensures ArithmeticShift(a, k) == Right(a, k)
  {
    hide Negative, Filled;
  }

  /** The arithmetic shift divides the signed number by a power of two, rounding down. */
  lemma ArithmeticShiftValue(a: bv64, k: bv64)
    requires k < 64
    ensures Signed(ArithmeticShift(a, k)) == Signed(a) / Pow2(Num(k))
  {
    hide Num, Right, Negative, ArithmeticShift, Filled, Pow2;
    NegativeIs(a);
    if Negative(a) {
      FilledShift(a, k);
      FilledValue(a, k);
    } else {
      PlainShift(a, k);
      RightValue(a, k);
      DivideLess(Num(a), Pow2(Num(k)));
    }
  }

  // ---- long shifts ----

  lemma {:induction false} PowProduct(j: nat, k: nat)
    ensures Pow2(j + k) == Pow2(j) * Pow2(k)
  {
    if j > 0 {
      PowProduct(j - 1, k);
      assert 2 * (Pow2(j - 1) * Pow2(k)) == (2 * Pow2(j - 1)) * Pow2(k);
    }
  }

  lemma Multiple(x: nat, p: nat)
    ensures x * (p * MODULUS) % MODULUS == 0
  {
    hide Pow2;
    assert x * (p * MODULUS) == (x * p) * MODULUS;
    Reduced(x * (p * MODULUS), 0, x * p);
  }

  /** From 64 on, a product with the power of two is zero in a word, and so is the quotient. */
  lemma LongShift(x: nat, n: nat)
    requires x < MODULUS && n >= 64
    ensures x * Pow2(n) % MODULUS == 0 && x / Pow2(n) == 0
  {
    hide Pow2;
    PowProduct(n - 64, 64);
    Multiple(x, Pow2(n - 64));
    PowGrows(64, n);
    ModuloOf(x, x, 0, Pow2(n));
  }

  lemma LongSignedShift(x: int, n: nat)
    requires -MODULUS <= x < 0 && n >= 64
    ensures x / Pow2(n) == -1
  {
    hide Pow2;
    PowGrows(64, n);
    ModuloOf(x, x + Pow2(n), -1, Pow2(n));
  }

  lemma LeftWord(a: bv64, b: bv64)
    requires b < 64
    ensures Word(Shl, a, b) == Left(a, b)
  {
  }

  lemma RightWord(a: bv64, b: bv64)
    requires b < 64
    ensures Word(LShr, a, b) == Right(a, b)
  {
  }

  lemma ArithmeticWord(a: bv64, b: bv64)
    requires b < 64
    ensures Word(AShr, a, b) == ArithmeticShift(a, b)
  {
    hide ArithmeticShift;
  }

  lemma LongShiftWords(a: bv64, b: bv64)
    requires b >= 64
    ensures Word(Shl, a, b) == 0 && Word(LShr, a, b) == 0 && Word(AShr, a, b) == 0
  {
  }

  lemma LeftWordValue(a: bv64, b: bv64)
    ensures Num(Word(Shl, a, b)) == Num(a) * Pow2(Num(b)) % MODULUS
  {
    hide Num, Left, MODULUS, Pow2, Word;
    NumOrder(b, 64);
    SmallNums();
    if b < 64 {
      LeftWord(a, b);
      LeftValue(a, b);
    } else {
      AtMost(b, 64);
      LongShiftWords(a, b);
      Bound(a);
      LongShift(Num(a), Num(b));
      NumZero(0);
    }
  }

  lemma RightWordValue(a: bv64, b: bv64)
    ensures Num(Word(LShr, a, b)) == Num(a) / Pow2(Num(b))
  {
    hide Num, Right, MODULUS, Pow2, Word;
    NumOrder(b, 64);
    SmallNums();
    if b < 64 {
      RightWord(a, b);
      RightValue(a, b);
    } else {
      AtMost(b, 64);
      LongShiftWords(a, b);
      Bound(a);
      LongShift(Num(a), Num(b));
      NumZero(0);
    }
  }

  lemma ArithmeticWordValue(a: bv64, b: bv64)
    ensures Signed(Word(AShr, a, b)) == if Num(b) < 64 then Signed(a) / Pow2(Num(b)) else 0
  {
    hide Num, Right, Pow2, Word, ArithmeticShift;
    NumOrder(b, 64);
    SmallNums();
    if b < 64 {
      ArithmeticWord(a, b);
      ArithmeticShiftValue(a, b);
    } else {
      AtMost(b, 64);
      LongShiftWords(a, b);
      NumZero(0);
    }
  }

  // ---- single bits ----

  /** The bit with value `2^k`. */
  predicate Bit(a: bv64, k: nat) { Num(a) / Pow2(k) % 2 == 1 }

  predicate Joined(op: BinOp, p: bool, q: bool) {
    match op
    case And => p && q
    case Or => p || q
    case _ => p != q
  }

  lemma AndHalf(a: bv64, b: bv64)
    ensures Half(a & b) == Half(a) & Half(b)
    ensures (a & b) & 1 == 1 <==> a & 1 == 1 && b & 1 == 1
  {
  }

  lemma OrHalf(a: bv64, b: bv64)
    ensures Half(a | b) == Half(a) | Half(b)
    ensures (a | b) & 1 == 1 <==> a & 1 == 1 || b & 1 == 1
  {
  }

  lemma XorHalf(a: bv64, b: bv64)
    ensures Half(a ^ b) == Half(a) ^ Half(b)
    ensures (a ^ b) & 1 == 1 <==> (a & 1 == 1) != (b & 1 == 1)
  {
  }

  lemma JoinedHalf(op: BinOp, a: bv64, b: bv64)
    requires op in {And, Or, Xor}
    ensures Half(Word(op, a, b)) == Word(op, Half(a), Half(b))
    ensures Word(op, a, b) & 1 == 1 <==> Joined(op, a & 1 == 1, b & 1 == 1)
  {
    hide Half;
    match op
    case And => AndHalf(a, b);
    case Or => OrHalf(a, b);
    case Xor => XorHalf(a, b);
  }

  lemma BitOfHalf(a: bv64, k: nat)
    ensures Bit(a, k + 1) <==> Bit(Half(a), k)
    ensures Bit(a, 0) <==> a & 1 == 1
  {
    hide Num, Half;
    NumHalf(a);
    DivideFirst(Num(a), Pow2(k));
    LowBit(a);
    SmallNums();
    NumZero(0);
  }

  lemma DivideFirst(x: int, p: int)
    requires p >= 1
    ensures x / 2 / p == x / (2 * p)
  {
    var h, l := x / 2, x % 2;
    var q, r := h / p, h % p;
    assert h == p * q + r;
    assert x == 2 * (p * q + r) + l;
    assert 2 * (p * q) == q * (2 * p);
    ModuloOf(x, 2 * r + l, q, 2 * p);
  }

  /** `and`, `or` and `xor` work on every bit by itself. */
  lemma {:induction false} BitOf(op: BinOp, a: bv64, b: bv64, k: nat)
    requires op in {And, Or, Xor}
    ensures Bit(Word(op, a, b), k) <==> Joined(op, Bit(a, k), Bit(b, k))
    decreases k
  {
    hide Num, Half, Word, Bit, Joined;
    JoinedHalf(op, a, b);
    var j := if k == 0 then 0 else k - 1;
    BitOfHalf(a, j);
    BitOfHalf(b, j);
    BitOfHalf(Word(op, a, b), j);
    if k > 0 { BitOf(op, Half(a), Half(b), j); }
  }

  // ---- signed division ----

  lemma SignedOfSmall(a: bv64)
    requires Num(a) <= HALF
    ensures Signed(a) == if Num(a) == HALF then -HALF else Num(a)
    ensures Signed(0 - a) == 0 - Num(a)
  {
    hide Num, Pow2;
    NegValue(a);
    Halves();
  }

  lemma MagnitudeValue(a: bv64)
    ensures Num(Magnitude(a)) == Abs(Signed(a)) <= HALF && Signed(a) < HALF
  {
    hide Num, Pow2, Negative;
    NegativeIs(a);
    NegValue(a);
    Bound(a);
    Halves();
  }

  lemma MagnitudeIsZero(a: bv64)
    ensures Magnitude(a) == 0 <==> a == 0
  {
  }

  lemma SmallQuotient(q: nat, m: nat, r: nat, b: nat)
    requires b >= 1 && m == q * b + r
    ensures q <= m && (q == m > 0 ==> b == 1)
  {
    AtLeast(b, q);
    if b >= 2 {
      AtLeast(b - 1, q);
      assert q * b == (b - 1) * q + q;
    }
  }

  predicate SameSign(x: int, y: int) { (x < 0) == (y < 0) }

  function WithSign(negative: bool, m: nat): int { if negative then 0 - m else m }

  /** The one quotient that is not a number of 64 bits in two's complement. */
  predicate Overflows(x: int, y: int) { x == -HALF && y == -1 }

  lemma TopQuotient(x: int, y: int, q: nat, r: nat)
    requires y != 0 && x < HALF && Abs(x) <= HALF && Abs(x) == q * Abs(y) + r
    requires SameSign(x, y) && !Overflows(x, y)
    ensures q < HALF
  {
    hide Pow2;
    SmallQuotient(q, Abs(x), r, Abs(y));
  }

  lemma QuotientFits(a: bv64, b: bv64)
    requires b != 0 && !Overflows(Signed(a), Signed(b))
    ensures var q := Num(Quotient(Magnitude(a), Magnitude(b)));
            q <= HALF && (SameSign(Signed(a), Signed(b)) ==> q < HALF)
  {
    hide Num, Pow2, Magnitude, Quotient, Signed, Remainder;
    var m, n := Magnitude(a), Magnitude(b);
    MagnitudeIsZero(b);
    MagnitudeValue(a);
    MagnitudeValue(b);
    DivisionValue(m, n);
    NumZero(n);
    SmallQuotient(Num(Quotient(m, n)), Num(m), Num(Remainder(m, n)), Num(n));
    if SameSign(Signed(a), Signed(b)) {
      TopQuotient(Signed(a), Signed(b), Num(Quotient(m, n)), Num(Remainder(m, n)));
    }
  }

  /** The negation where the signs differ. */
  function Negated(negate: bool, q: bv64): bv64 { if negate then 0 - q else q }

  lemma NegatedValue(negate: bool, q: bv64)
    requires Num(q) <= HALF && (!negate ==> Num(q) < HALF)
    ensures Signed(Negated(negate, q)) == WithSign(negate, Num(q))
  {
    hide Num, Pow2, Signed;
    SignedOfSmall(q);
  }

  lemma DivIsNegated(a: bv64, b: bv64)
    requires b != 0 && Magnitude(b) != 0
    ensures SignedDiv(a, b) == Negated(Negative(a) != Negative(b), Quotient(Magnitude(a), Magnitude(b)))
  {
    hide Negative, Magnitude, Quotient;
  }

  lemma QuotientSigned(a: bv64, b: bv64)
    requires b != 0 && !Overflows(Signed(a), Signed(b))
    ensures var q := Num(Quotient(Magnitude(a), Magnitude(b)));
            Signed(SignedDiv(a, b)) == WithSign(!SameSign(Signed(a), Signed(b)), q)
  {
    hide Num, Pow2, Negative, Magnitude, Quotient, Signed, Remainder, SignedDiv, Negated;
    MagnitudeIsZero(b);
    NegativeIs(a);
    NegativeIs(b);
    QuotientFits(a, b);
    DivIsNegated(a, b);
    NegatedValue(Negative(a) != Negative(b), Quotient(Magnitude(a), Magnitude(b)));
  }

  lemma RemainderSigned(a: bv64, b: bv64)
    requires b != 0
    ensures var r := Num(Remainder(Magnitude(a), Magnitude(b)));
            Signed(SignedRem(a, b)) == WithSign(Signed(a) < 0, r)
  {
    hide Num, Pow2, Negative, Magnitude, Quotient, Signed, Remainder;
    MagnitudeIsZero(b);
    MagnitudeValue(b);
    NegativeIs(a);
    DivisionValue(Magnitude(a), Magnitude(b));
    SignedOfSmall(Remainder(Magnitude(a), Magnitude(b)));
  }

  lemma SignedProduct(x: int, y: int, q: nat, r: nat)
    requires y != 0 && Abs(x) == q * Abs(y) + r
    ensures x == WithSign(!SameSign(x, y), q) * y + WithSign(x < 0, r)
  {
  }

  /** Signed division rounds towards zero: the remainder has the sign of the dividend. */
  lemma SignedDivisionValue(a: bv64, b: bv64)
    requires b != 0
    ensures !Overflows(Signed(a), Signed(b)) ==>
              Signed(a) == Signed(SignedDiv(a, b)) * Signed(b) + Signed(SignedRem(a, b))
    ensures Abs(Signed(SignedRem(a, b))) < Abs(Signed(b))
    ensures Signed(SignedRem(a, b)) != 0 ==> SameSign(Signed(SignedRem(a, b)), Signed(a))
  {
    hide Num, Pow2, Negative, Magnitude, Quotient, Signed, Remainder, SignedDiv, SignedRem;
    var m, n := Magnitude(a), Magnitude(b);
    MagnitudeIsZero(b);
    MagnitudeValue(a);
    MagnitudeValue(b);
    DivisionValue(m, n);
    RemainderSigned(a, b);
    if !Overflows(Signed(a), Signed(b)) {
      QuotientSigned(a, b);
      SignedProduct(Signed(a), Signed(b), Num(Quotient(m, n)), Num(Remainder(m, n)));
    }
  }

  lemma OverflowingQuotient(a: bv64, b: bv64)
    requires Overflows(Signed(a), Signed(b))
    ensures b != 0 && Signed(SignedDiv(a, b)) == -HALF
  {
    hide Num, Pow2, Negative, Magnitude, Quotient, Signed, Remainder;
    var m, n := Magnitude(a), Magnitude(b);
    MagnitudeIsZero(b);
    MagnitudeValue(a);
    MagnitudeValue(b);
    NumZero(n);
    NegativeIs(a);
    NegativeIs(b);
    DivisionValue(m, n);
    SignedOfSmall(Quotient(m, n));
  }

  // ---- expressions ----

  /** The unsigned number that an expression gives on an example. */
  function Number(e: Expr, args: seq<bv64>): Option<nat> {
    match Eval(e, args)
    case None => None
    case Some(a) => Some(Num(a))
  }

  function SignedNumber(e: Expr, args: seq<bv64>): Option<int> {
    match Eval(e, args)
    case None => None
    case Some(a) => Some(Signed(a))
  }

  lemma SameNumber(e: Expr, f: Expr, args: seq<bv64>)
    requires Number(e, args) == Number(f, args)
    ensures Eval(e, args) == Eval(f, args)
  {
    hide Num;
    if Eval(e, args).Some? { NumSame(Eval(e, args).value, Eval(f, args).value); }
  }

  lemma NotValue(a: bv64)
    ensures Num(UnLane(Not, a)) == MODULUS - 1 - Num(a)
  {
    hide Num, Pow2;
    NumNot(a);
  }

  lemma NegationValue(a: bv64)
    ensures Num(UnLane(Neg, a)) == if Num(a) == 0 then 0 else MODULUS - Num(a)
  {
    hide Num, Pow2;
    NegValue(a);
  }

  lemma UnaryNumbers(e: Expr, args: seq<bv64>, x: nat)
    requires Number(e, args) == Some(x)
    ensures x < MODULUS
    ensures Number(Unary(Not, e), args) == Some(MODULUS - 1 - x)
    ensures Number(Unary(Neg, e), args) == Some(if x == 0 then 0 else MODULUS - x)
  {
    hide Num, Pow2, UnLane;
    var a := Eval(e, args).value;
    Bound(a);
    NotValue(a);
    NegationValue(a);
  }

  lemma SumValue(a: bv64, b: bv64)
    ensures Num(Word(Add, a, b)) == (Num(a) + Num(b)) % MODULUS
  {
    hide Num, Pow2;
    AddValue(a, b);
  }

  lemma DifferenceValue(a: bv64, b: bv64)
    ensures Num(Word(Sub, a, b)) == (Num(a) - Num(b)) % MODULUS
  {
    hide Num, Pow2;
    SubValue(a, b);
  }

  lemma ProductValue(a: bv64, b: bv64)
    ensures Num(Word(Mul, a, b)) == Num(a) * Num(b) % MODULUS
  {
    hide Num, Pow2;
    TimesValue(a, b);
  }

  /** Sum, difference and product modulo 2^64, with the operands in their order. */
  lemma ArithmeticNumbers(l: Expr, r: Expr, args: seq<bv64>, x: nat, y: nat)
    requires Number(l, args) == Some(x) && Number(r, args) == Some(y)
    ensures Number(Binary(Add, l, r), args) == Some((x + y) % MODULUS)
    ensures Number(Binary(Sub, l, r), args) == Some((x - y) % MODULUS)
    ensures Number(Binary(Mul, l, r), args) == Some(x * y % MODULUS)
  {
    hide Num, Pow2, Word;
    var a, b := Eval(l, args).value, Eval(r, args).value;
    SumValue(a, b);
    DifferenceValue(a, b);
    ProductValue(a, b);
  }

  lemma CancelModulo(x: nat, y: nat)
    requires x < MODULUS
    ensures ((x + y) % MODULUS - y) % MODULUS == x
    ensures ((x - y) % MODULUS + y) % MODULUS == x
  {
    hide Pow2;
    ModuloPlus(x + y, 0 - y);
    ModuloPlus(x - y, y);
    Reduced(x, x, 0);
  }

  /** Subtraction and addition undo each other. */
  lemma SubtractingUndoesAdding(l: Expr, r: Expr, args: seq<bv64>)
    requires Eval(l, args).Some? && Eval(r, args).Some?
    ensures Eval(Binary(Sub, Binary(Add, l, r), r), args) == Eval(l, args)
    ensures Eval(Binary(Add, Binary(Sub, l, r), r), args) == Eval(l, args)
  {
    hide Num, Pow2, Word, UnLane, Eval;
    var x, y := Number(l, args).value, Number(r, args).value;
    Bound(Eval(l, args).value);
    ArithmeticNumbers(l, r, args, x, y);
    ArithmeticNumbers(Binary(Add, l, r), r, args, (x + y) % MODULUS, y);
    ArithmeticNumbers(Binary(Sub, l, r), r, args, (x - y) % MODULUS, y);
    CancelModulo(x, y);
    SameNumber(Binary(Sub, Binary(Add, l, r), r), l, args);
    SameNumber(Binary(Add, Binary(Sub, l, r), r), l, args);
  }

  /** A word and its negation add up to 0, and the complement of the complement is the word. */
  lemma UnaryUndone(e: Expr, args: seq<bv64>)
    requires Eval(e, args).Some?
    ensures Number(Binary(Add, e, Unary(Neg, e)), args) == Some(0)
    ensures Eval(Unary(Not, Unary(Not, e)), args) == Eval(e, args)
  {
    hide Num, Pow2, Word, UnLane, Eval;
    var x := Number(e, args).value;
    UnaryNumbers(e, args, x);
    UnaryNumbers(Unary(Not, e), args, MODULUS - 1 - x);
    var n := Number(Unary(Neg, e), args).value;
    ArithmeticNumbers(e, Unary(Neg, e), args, x, n);
    Reduced(x + n, 0, if x == 0 then 0 else 1);
    SameNumber(Unary(Not, Unary(Not, e)), e, args);
  }

  lemma DivisionWords(a: bv64, b: bv64)
    requires b != 0
    ensures Word(UDiv, a, b) == Quotient(a, b) && Word(URem, a, b) == Remainder(a, b)
    ensures Word(SDiv, a, b) == SignedDiv(a, b) && Word(SRem, a, b) == SignedRem(a, b)
  {
    hide Quotient, Remainder, SignedDiv, SignedRem;
  }

  lemma DivisionNumbers(l: Expr, r: Expr, args: seq<bv64>, x: nat, y: nat)
    requires Number(l, args) == Some(x) && Number(r, args) == Some(y)
    ensures var q, m := Number(Binary(UDiv, l, r), args), Number(Binary(URem, l, r), args);
            if y == 0 then q == None && m == None
            else q.Some? && m.Some? && x == q.value * y + m.value && m.value < y
  {
    hide Num, Pow2, Quotient, Remainder, Word;
    var a, b := Eval(l, args).value, Eval(r, args).value;
    NumZero(b);
    if b != 0 {
      DivisionValue(a, b);
      DivisionWords(a, b);
    }
  }

  /** Truncating division, which wraps around for the least number divided by minus one. */
  lemma SignedDivisionNumbers(l: Expr, r: Expr, args: seq<bv64>, x: int, y: int)
    requires SignedNumber(l, args) == Some(x) && SignedNumber(r, args) == Some(y)
    ensures var q, m := SignedNumber(Binary(SDiv, l, r), args), SignedNumber(Binary(SRem, l, r), args);
            if y == 0 then q == None && m == None
            else
              && q.Some? && m.Some?
              && (if Overflows(x, y) then q.value == x else x == q.value * y + m.value)
              && Abs(m.value) < Abs(y)
              && (m.value != 0 ==> SameSign(m.value, x))
  {
    hide Num, Pow2, SignedDiv, SignedRem, Word;
    var a, b := Eval(l, args).value, Eval(r, args).value;
    NumZero(b);
    Bound(b);
    if b != 0 {
      SignedDivisionValue(a, b);
      DivisionWords(a, b);
    }
    if Overflows(x, y) { OverflowingQuotient(a, b); }
  }

  /** Shifts are products and quotients with a power of two, rounded down, for every amount ... */
  lemma ShiftNumbers(l: Expr, r: Expr, args: seq<bv64>, x: nat, y: nat)
    requires Number(l, args) == Some(x) && Number(r, args) == Some(y)
    ensures Number(Binary(Shl, l, r), args) == Some(x * Pow2(y) % MODULUS)
    ensures Number(Binary(LShr, l, r), args) == Some(x / Pow2(y))
  {
    hide Num, Pow2, Word;
    var a, b := Eval(l, args).value, Eval(r, args).value;
    LeftWordValue(a, b);
    RightWordValue(a, b);
  }

  /** ... except that the arithmetic shift of a negative number by 64 or more gives 0. */
  lemma ArithmeticShiftNumbers(l: Expr, r: Expr, args: seq<bv64>, x: int, y: nat)
    requires SignedNumber(l, args) == Some(x) && Number(r, args) == Some(y)
    ensures SignedNumber(Binary(AShr, l, r), args).Some?
    ensures SignedNumber(Binary(AShr, l, r), args) == Some(x / Pow2(y)) <==> y < 64 || x >= 0
    ensures y >= 64 ==> SignedNumber(Binary(AShr, l, r), args) == Some(0)
  {
    hide Num, Pow2, Word;
    var a, b := Eval(l, args).value, Eval(r, args).value;
    ArithmeticWordValue(a, b);
    Bound(a);
    if y >= 64 {
      if x < 0 {
        LongSignedShift(x, y);
      } else {
        LongShift(x, y);
      }
    }
  }

  /** The value of bit `k` of an expression. */
  predicate HasBit(e: Expr, args: seq<bv64>, k: nat) {
    Eval(e, args).Some? && Bit(Eval(e, args).value, k)
  }

  lemma BitNumbers(op: BinOp, l: Expr, r: Expr, args: seq<bv64>, k: nat)
    requires op in {And, Or, Xor} && Eval(l, args).Some? && Eval(r, args).Some?
    ensures HasBit(Binary(op, l, r), args, k) <==> Joined(op, HasBit(l, args, k), HasBit(r, args, k))
  {
    hide Num, Bit, Word;
    BitOf(op, Eval(l, args).value, Eval(r, args).value, k);
  }
}
