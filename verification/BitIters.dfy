/** Iterators over the bits, the subsets and the fixed-size subsets of a word. */
module BitIters {
  import opened Wrappers
  import opened Words

  /** The words all iterators work on. */
  predicate Word(a: nat) { a < Pow2(WIDTH) }

  // ---- the ones of a word ----

  /** The lowest one, as a word. */
  function FirstOne(w: nat): (i: nat)
    requires w > 0
    ensures 0 < i <= w
  {
    if w % 2 == 1 then 1 else 2 * FirstOne(w / 2)
  }

  function Rest(w: nat): (r: nat)
    requires w > 0
    ensures r < w
  {
    w - FirstOne(w)
  }

  lemma {:induction false} FirstOneIsPower(w: nat, width: nat)
    requires 0 < w < Pow2(width)
    ensures TrailingZeros(w) < width && FirstOne(w) == Pow2(TrailingZeros(w)) && FirstOne(w) < Pow2(width)
    ensures Without(w, FirstOne(w)) == Rest(w)
  {
    if w % 2 == 0 {
      FirstOneIsPower(w / 2, width - 1);
    } else {
      WithoutNothing(w / 2);
    }
  }

  class OneIter {
    var w: nat

    constructor (w: nat)
      requires Word(w)
      ensures this.w == w
    {
      this.w := w;
    }

    method Next() returns (r: Option<nat>)
      requires Word(w)
      modifies this`w
      ensures Word(w)
      ensures old(w) == 0 ==> r == None && w == 0
      ensures old(w) > 0 ==> r == Some(FirstOne(old(w))) && w == Rest(old(w))
    {
      hide FirstOne, NotIn, AndW, TrailingZeros;
      var a := TrailingZeros(w);
      if w == 0 {
        assert a == 64 by { NoTrailing(); }
      } else {
        FirstOneIsPower(w, WIDTH);
      }
      if a == 64 { return None; }
      AndNot(w, Pow2(a), WIDTH);
      w := AndW(w, NotW(Pow2(a)));
      r := Some(Pow2(a));
    }
  }

  lemma NoTrailing()
    ensures TrailingZeros(0) == 64
  {
  }

  // ---- subsets ----

  /** `subset_of_pos`: the bits of `k` put on the ones of `m`. */
  function Spread(m: nat, k: nat): (s: nat)
    decreases m
  {
    if m == 0 then 0 else if m % 2 == 1 then 2 * Spread(m / 2, k / 2) + k % 2 else 2 * Spread(m / 2, k)
  }

  /** `pos_of_subset`: the bits of `c` at the ones of `m`. */
  function Gather(m: nat, c: nat): (k: nat)
    decreases m
  {
    if m == 0 then 0 else if m % 2 == 1 then 2 * Gather(m / 2, c / 2) + c % 2 else Gather(m / 2, c / 2)
  }

  lemma {:induction false} GatherSpread(m: nat, k: nat)
    requires k < Pow2(Ones(m))
    ensures Within(Spread(m, k), m) && Gather(m, Spread(m, k)) == k && Ones(Spread(m, k)) == Ones(k)
    decreases m
  {
    if m > 0 {
      var k' := if m % 2 == 1 then k / 2 else k;
      GatherSpread(m / 2, k');
      OnesOf(Spread(m / 2, k'), if m % 2 == 1 then k % 2 else 0);
      if m % 2 == 1 { OnesOf(k / 2, k % 2); }
    }
  }

  lemma {:induction false} SpreadGather(m: nat, c: nat)
    requires Within(c, m)
    ensures Gather(m, c) < Pow2(Ones(m)) && Spread(m, Gather(m, c)) == c
    decreases m
  {
    if m > 0 { SpreadGather(m / 2, c / 2); } else { WithinZero(c); }
  }

  /** Spreading keeps the order, so the subsets come in increasing order. */
  lemma {:induction false} SpreadOrder(m: nat, k: nat, k': nat)
    requires k < k' < Pow2(Ones(m))
    ensures Spread(m, k) < Spread(m, k')
    decreases m
  {
    if m > 0 {
      if m % 2 == 0 {
        SpreadOrder(m / 2, k, k');
      } else if k / 2 < k' / 2 {
        SpreadOrder(m / 2, k / 2, k' / 2);
      }
    }
  }

  /** The first one of `rest` that is not in `cur`. */
  function Missing(rest: nat, cur: nat): Option<nat>
    decreases rest
  {
    if rest == 0 then None
    else if AndW(FirstOne(rest), cur) == 0 then Some(FirstOne(rest))
    else Missing(Rest(rest), cur)
  }

  /** `cur & !(i - 1) | i`. */
  function Bump(cur: nat, i: nat): nat
    requires i > 0
  {
    OrW(Without(cur, i - 1), i)
  }

  /** What a call of `next` returns and stores. */
  function NextSubset(m: nat, cur: nat): Option<nat> {
    match Missing(m, cur)
    case None => None
    case Some(i) => if i > 0 then Some(Bump(cur, i)) else None
  }

  function Twice(o: Option<nat>): Option<nat> { if o.None? then None else Some(2 * o.value) }

  lemma {:induction false} MissingTwice(rest: nat, cur: nat)
    ensures Missing(2 * rest, cur) == Twice(Missing(rest, cur / 2))
    decreases rest
  {
    if rest > 0 {
      assert FirstOne(2 * rest) == 2 * FirstOne(rest);
      AndStep(2 * FirstOne(rest), cur);
      MissingTwice(Rest(rest), cur);
    }
  }

  lemma MissingOdd(rest: nat, cur: nat)
    ensures Missing(2 * rest + 1, cur) == if cur % 2 == 0 then Some(1) else Missing(2 * rest, cur)
  {
    AndStep(1, cur);
    assert FirstOne(2 * rest + 1) == 1;
  }

  lemma BumpOne(cur: nat)
    requires cur % 2 == 0
    ensures Bump(cur, 1) == cur + 1
  {
    WithoutNothing(cur);
    OrStep(cur, 1);
  }

  lemma BumpTwice(cur: nat, i: nat)
    requires i > 0
    ensures Bump(cur, 2 * i) == 2 * Bump(cur / 2, i)
  {
    assert (2 * i - 1) / 2 == i - 1;
    OrStep(Without(cur, 2 * i - 1), 2 * i);
  }

  lemma {:induction false} MissingIsPositive(rest: nat, cur: nat)
    ensures Missing(rest, cur).Some? ==> Missing(rest, cur).value > 0
    decreases rest
  {
    if rest > 0 { MissingIsPositive(Rest(rest), cur); }
  }

  lemma NextTwice(m: nat, cur: nat)
    ensures NextSubset(2 * m, cur) == Twice(NextSubset(m, cur / 2))
    ensures NextSubset(2 * m + 1, cur) == if cur % 2 == 0 then Some(cur + 1) else Twice(NextSubset(m, cur / 2))
  {
    hide Bump, Missing;
    MissingTwice(m, cur);
    MissingOdd(m, cur);
    MissingIsPositive(m, cur / 2);
    if Missing(m, cur / 2).Some? { BumpTwice(cur, Missing(m, cur / 2).value); }
    if cur % 2 == 0 { BumpOne(cur); }
  }

  /** The subsets come as a counter counts: after the one at position `k` that at `k + 1`, and none after the last. */
  lemma {:induction false} SubsetsCount(m: nat, k: nat)
    requires k < Pow2(Ones(m))
    ensures NextSubset(m, Spread(m, k)) == if k + 1 < Pow2(Ones(m)) then Some(Spread(m, k + 1)) else None
    decreases m
  {
    hide NextSubset, Spread, Ones, Pow2;
    if m == 0 {
      NothingNext();
      SpreadNothing(k);
    } else {
      var half, s := m / 2, Spread(m, k);
      NextTwice(half, s);
      if m % 2 == 0 {
        SpreadWithout(m, k);
        SpreadWithout(m, k + 1);
        SubsetsCount(half, k);
        assert m == 2 * half && s / 2 == Spread(half, k);
      } else {
        SpreadWith(m, k);
        SpreadWith(m, k + 1);
        SubsetsCount(half, k / 2);
        assert m == 2 * half + 1 && s / 2 == Spread(half, k / 2) && s % 2 == k % 2;
      }
    }
  }

  lemma SpreadNothing(k: nat)
    ensures Spread(0, k) == 0 && Pow2(Ones(0)) == 1
  {
  }

  lemma SpreadWithout(m: nat, k: nat)
    requires m > 0 && m % 2 == 0
    ensures Spread(m, k) == 2 * Spread(m / 2, k) && Pow2(Ones(m)) == Pow2(Ones(m / 2))
  {
  }

  lemma SpreadWith(m: nat, k: nat)
    requires m % 2 == 1
    ensures Spread(m, k) == 2 * Spread(m / 2, k / 2) + k % 2 && Pow2(Ones(m)) == 2 * Pow2(Ones(m / 2))
  {
  }

  lemma NothingNext()
    ensures NextSubset(0, 0) == None
  {
  }

  class SubsetIter {
    const m: nat
    var cur: nat

    constructor (m: nat)
      requires Word(m)
      ensures this.m == m && cur == 0
    {
      this.m := m;
      cur := 0;
    }

    ghost predicate Valid()
      reads this
    {
      Word(m) && Word(cur)
    }

    method Next() returns (r: Option<nat>)
      requires Valid() && Within(cur, m)
      modifies this`cur
      ensures Valid() && Within(cur, m)
      ensures r == NextSubset(m, old(cur)) && cur == if r.Some? then r.value else old(cur)
    {
      hide AndW, OrW, NotIn, FirstOne, Without, Within;
      var ones := new OneIter(m);
      while true
        invariant Word(ones.w) && cur == old(cur)
        invariant Missing(m, cur) == Missing(ones.w, cur)
        decreases ones.w
      {
        ghost var before := ones.w;
        var next := ones.Next();
        if next.None? { return None; }
        var i := next.value;
        if AndW(i, cur) == 0 {
          SubsetBumps(m, cur);
          AndNot(cur, i - 1, WIDTH);
          cur := OrW(AndW(cur, NotW(i - 1)), i);
          return Some(cur);
        }
      }
      r := None;
    }
  }

  /** The next subset is one, and still a word. */
  lemma SubsetBumps(m: nat, cur: nat)
    requires Within(cur, m) && Word(m)
    ensures NextSubset(m, cur).Some? ==> Within(NextSubset(m, cur).value, m) && Word(NextSubset(m, cur).value)
  {
    var k := Gather(m, cur);
    SpreadGather(m, cur);
    SubsetsCount(m, k);
    if k + 1 < Pow2(Ones(m)) {
      GatherSpread(m, k + 1);
      WithinIsBelow(Spread(m, k + 1), m);
    }
  }

  lemma {:induction false} WithinIsBelow(c: nat, m: nat)
    requires Within(c, m)
    ensures c <= m
  {
    if c > 0 { WithinIsBelow(c / 2, m / 2); }
  }

  class TSubsetIter {
    const m: nat
    var cur: nat

    constructor (m: nat)
      requires Word(m)
      ensures this.m == m && cur == 0
    {
      this.m := m;
      cur := 0;
    }

    ghost predicate Valid()
      reads this
    {
      Word(m) && Word(cur) && Within(cur, m)
    }

    /** The proper subsets only: the whole word is stored but not returned. */
    method Next() returns (r: Option<nat>)
      requires Valid()
      modifies this`cur
      ensures Valid()
      ensures cur == if NextSubset(m, old(cur)).Some? then NextSubset(m, old(cur)).value else old(cur)
      ensures r == if NextSubset(m, old(cur)).Some? && cur != m then Some(cur) else None
    {
      hide AndW, OrW, NotIn, FirstOne, Without, Within;
      var ones := new OneIter(m);
      while true
        invariant Word(ones.w) && cur == old(cur)
        invariant Missing(m, cur) == Missing(ones.w, cur)
        decreases ones.w
      {
        var next := ones.Next();
        if next.None? { return None; }
        var i := next.value;
        if AndW(i, cur) == 0 {
          SubsetBumps(m, cur);
          AndNot(cur, i - 1, WIDTH);
          cur := OrW(AndW(cur, NotW(i - 1)), i);
          if cur == m { return None; }
          return Some(cur);
        }
      }
      r := None;
    }
  }

  /** `subset_iter` of `m`, collected: the subset at position `i + 1` for every `i`; none twice, none left out. */
  method CollectSubsets(m: nat) returns (out: seq<nat>)
    requires Word(m)
    ensures out == Subsets(m)
  {
    hide NextSubset, Spread, Within;
    var it := new SubsetIter(m);
    out := [];
    SpreadZero(m);
    while true
      invariant it.m == m && it.Valid() && Within(it.cur, m)
      invariant |out| < Pow2(Ones(m)) && it.cur == Spread(m, |out|)
      invariant forall i | 0 <= i < |out| :: out[i] == Spread(m, i + 1)
      decreases Pow2(Ones(m)) - |out|
    {
      SubsetsCount(m, |out|);
      var s := it.Next();
      if s.None? { break; }
      out := out + [s.value];
    }
  }

  lemma {:induction false} SpreadZero(m: nat)
    ensures Spread(m, 0) == 0 && Within(0, m)
  {
    if m > 0 { SpreadZero(m / 2); }
  }

  /** The subsets but the empty one, in order. */
  function Subsets(m: nat): (s: seq<nat>)
    ensures |s| == Pow2(Ones(m)) - 1 && (m > 0 ==> s != [])
  {
    LastIsWhole(m);
    seq(Pow2(Ones(m)) - 1, i requires 0 <= i < Pow2(Ones(m)) - 1 => Spread(m, i + 1))
  }

  /** Every non-empty subset stands in the list exactly once, at the position its own bits spell. */
  lemma SubsetsAreAll(m: nat)
    ensures forall c | 0 < c && Within(c, m) :: 0 < Gather(m, c) <= |Subsets(m)| && Subsets(m)[Gather(m, c) - 1] == c
    ensures forall i | 0 <= i < |Subsets(m)| :: 0 < Subsets(m)[i] && Within(Subsets(m)[i], m) && Gather(m, Subsets(m)[i]) == i + 1
    ensures forall i, j | 0 <= i < j < |Subsets(m)| :: Subsets(m)[i] < Subsets(m)[j]
  {
    hide Within, Spread, Gather;
    SpreadZero(m);
    forall c | 0 < c && Within(c, m) ensures 0 < Gather(m, c) <= |Subsets(m)| && Subsets(m)[Gather(m, c) - 1] == c {
      SpreadGather(m, c);
    }
    forall i | 0 <= i < |Subsets(m)| ensures 0 < Subsets(m)[i] && Within(Subsets(m)[i], m) && Gather(m, Subsets(m)[i]) == i + 1 {
      GatherSpread(m, i + 1);
      SpreadOrder(m, 0, i + 1);
    }
    forall i, j | 0 <= i < j < |Subsets(m)| ensures Subsets(m)[i] < Subsets(m)[j] { SpreadOrder(m, i + 1, j + 1); }
  }

  /** `tsubset_iter`, collected: the same without the last. */
  method CollectProperSubsets(m: nat) returns (out: seq<nat>)
    requires Word(m)
    ensures m > 0 ==> out == Subsets(m)[..|Subsets(m)| - 1]
    ensures m == 0 ==> out == []
  {
    hide NextSubset, Spread, Within;
    var it := new TSubsetIter(m);
    out := [];
    SpreadZero(m);
    LastIsWhole(m);
    while true
      invariant it.m == m && it.Valid()
      invariant |out| < Pow2(Ones(m)) && it.cur == Spread(m, |out|)
      invariant m > 0 ==> |out| + 1 < Pow2(Ones(m))
      invariant m == 0 ==> out == []
      invariant forall i | 0 <= i < |out| :: out[i] == Spread(m, i + 1)
      decreases Pow2(Ones(m)) - |out|
    {
      SubsetsCount(m, |out|);
      var s := it.Next();
      if s.None? { break; }
      if |out| + 2 < Pow2(Ones(m)) { SpreadOrder(m, |out| + 1, Pow2(Ones(m)) - 1); }
      out := out + [s.value];
    }
    if m > 0 && |out| + 2 < Pow2(Ones(m)) { SpreadOrder(m, |out| + 1, Pow2(Ones(m)) - 1); }
  }

  lemma {:induction false} LastIsWhole(m: nat)
    ensures Spread(m, Pow2(Ones(m)) - 1) == m && (m > 0 ==> Pow2(Ones(m)) > 1) && (m == 0 ==> Pow2(Ones(m)) == 1)
  {
    hide Ones;
    if m > 0 {
      LastIsWhole(m / 2);
      OnesOf(m / 2, m % 2);
      assert m == 2 * (m / 2) + m % 2;
      if m % 2 == 1 { assert (Pow2(Ones(m)) - 1) / 2 == Pow2(Ones(m / 2)) - 1; }
    } else {
      NoOnes();
    }
  }

  lemma NoOnes()
    ensures Ones(0) == 0
  {
  }

  // ---- splits ----

  function Pow3(k: nat): (p: nat)
    ensures p >= 1
  {
    if k == 0 then 1 else 3 * Pow3(k - 1)
  }

  /** `(m & !i) | j`. */
  function Second(m: nat, i: nat, j: nat): nat { OrW(Without(m, i), j) }

  /** The pairs with the first part `i`, the empty second choice last. */
  function SplitRow(m: nat, i: nat): (ps: seq<(nat, nat)>)
    ensures |ps| == Pow2(Ones(i))
  {
    seq(|Subsets(i)| + 1, t requires 0 <= t <= |Subsets(i)| => (i, Second(m, i, if t < |Subsets(i)| then Subsets(i)[t] else 0)))
  }

  /** The pairs for the first `n` subsets. */
  function SplitsUpTo(m: nat, n: nat): seq<(nat, nat)> {
    if n == 0 then [] else SplitsUpTo(m, n - 1) + SplitRow(m, Spread(m, n))
  }

  function Splits(m: nat): seq<(nat, nat)> { SplitsUpTo(m, Pow2(Ones(m)) - 1) }

  /** Two words whose union is `m`, the first not empty. */
  predicate IsSplit(m: nat, p: (nat, nat)) { p.0 > 0 && OrW(p.0, p.1) == m }

  lemma {:induction false} UnionParts(m: nat, i: nat, j: nat)
    requires Within(i, m) && Within(j, i)
    ensures OrW(i, Second(m, i, j)) == m && AndW(Second(m, i, j), i) == j
    decreases m
  {
    if m == 0 {
      WithinZero(i);
      WithinZero(j);
    } else {
      hide OrW, AndW;
      UnionParts(m / 2, i / 2, j / 2);
      OrHalf(Without(m, i), j);
      OrStep(i, Second(m, i, j));
      AndStep(Second(m, i, j), i);
    }
  }

  lemma {:induction false} PartsOfUnion(m: nat, s1: nat, s2: nat)
    requires OrW(s1, s2) == m
    ensures Within(s1, m) && Within(AndW(s2, s1), s1) && Second(m, s1, AndW(s2, s1)) == s2
    decreases m
  {
    OrStep(s1, s2);
    AndStep(s2, s1);
    if m > 0 {
      PartsOfUnion(m / 2, s1 / 2, s2 / 2);
      OrStep(Without(m, s1), AndW(s2, s1));
    } else {
      OrNone(s1, s2);
    }
  }

  lemma {:induction false} OrNone(a: nat, b: nat)
    requires OrW(a, b) == 0
    ensures a == 0 && b == 0
  {
    if a > 0 && b > 0 { OrNone(a / 2, b / 2); }
  }

  ghost predicate Distinct(ps: seq<(nat, nat)>) { forall a, b | 0 <= a < b < |ps| :: ps[a] != ps[b] }

  /** The choice of the second part at index `t` of a row, and where a choice stands. */
  function Choice(i: nat, t: nat): nat { if t < |Subsets(i)| then Subsets(i)[t] else 0 }

  lemma ChoiceIsWithin(i: nat, t: nat, t': nat)
    requires t < t' < Pow2(Ones(i))
    ensures Within(Choice(i, t), i) && Within(Choice(i, t'), i) && Choice(i, t) != Choice(i, t')
  {
    hide Within;
    SubsetsAreAll(i);
    SpreadZero(i);
  }

  lemma ChoicesAreAll(i: nat, j: nat) returns (t: nat)
    requires Within(j, i)
    ensures t < Pow2(Ones(i)) && Choice(i, t) == j
  {
    hide Within;
    SubsetsAreAll(i);
    t := if j == 0 then |Subsets(i)| else Gather(i, j) - 1;
  }

  lemma OneChoice(i: nat, t: nat)
    requires t < Pow2(Ones(i))
    ensures Within(Choice(i, t), i)
  {
    hide Within;
    SubsetsAreAll(i);
    SpreadZero(i);
  }

  lemma RowIsRight(m: nat, i: nat)
    requires 0 < i && Within(i, m)
    ensures Distinct(SplitRow(m, i))
    ensures forall p :: p in SplitRow(m, i) <==> IsSplit(m, p) && p.0 == i
  {
    hide Within, Second, Subsets, OrW, AndW;
    var row := SplitRow(m, i);
    RowEntries(m, i);
    forall a, b | 0 <= a < b < |row| ensures row[a] != row[b] {
      ChoiceIsWithin(i, a, b);
      UnionParts(m, i, Choice(i, a));
      UnionParts(m, i, Choice(i, b));
    }
    forall p | p in row ensures IsSplit(m, p) && p.0 == i {
      var t: nat :| t < |row| && row[t] == p;
      OneChoice(i, t);
      UnionParts(m, i, Choice(i, t));
    }
    forall p: (nat, nat) | IsSplit(m, p) && p.0 == i ensures p in row {
      PartsOfUnion(m, i, p.1);
      var t := ChoicesAreAll(i, AndW(p.1, i));
      assert row[t] == p;
    }
  }

  lemma RowEntries(m: nat, i: nat)
    ensures forall t: nat | t < Pow2(Ones(i)) :: SplitRow(m, i)[t] == (i, Second(m, i, Choice(i, t)))
  {
    hide Second, Subsets, Spread;
  }

  /** Every split of the first `n` subsets is there exactly once. */
  lemma {:induction false} SplitsUpToAreRight(m: nat, n: nat)
    requires n < Pow2(Ones(m))
    ensures Distinct(SplitsUpTo(m, n))
    ensures forall p :: p in SplitsUpTo(m, n) <==> IsSplit(m, p) && Within(p.0, m) && Gather(m, p.0) <= n
  {
    hide Within, SplitRow, Spread, Gather, OrW;
    SpreadZero(m);
    forall c | Within(c, m) && Gather(m, c) == 0 ensures c == 0 { SpreadGather(m, c); }
    if n > 0 {
      SplitsUpToAreRight(m, n - 1);
      var i := Spread(m, n);
      GatherSpread(m, n);
      SpreadOrder(m, 0, n);
      RowIsRight(m, i);
      forall c | Within(c, m) && Gather(m, c) == n ensures c == i { SpreadGather(m, c); }
      var before, row := SplitsUpTo(m, n - 1), SplitRow(m, i);
      assert forall p :: p in before + row <==> p in before || p in row;
      DistinctConcat(before, row);
    }
  }

  lemma DistinctConcat(a: seq<(nat, nat)>, b: seq<(nat, nat)>)
    requires Distinct(a) && Distinct(b) && forall p | p in a :: p !in b
    ensures Distinct(a + b)
  {
    var c := a + b;
    forall x, y | 0 <= x < y < |c| ensures c[x] != c[y] {
      if x < |a| <= y {
        assert a[x] in a && b[y - |a|] in b;
      } else if x >= |a| {
        assert b[x - |a|] != b[y - |a|];
      }
    }
  }

  /** `split_iter` gives every pair of words whose union is `m` and whose first is not empty, exactly once. */
  lemma SplitsAreAll(m: nat)
    ensures Distinct(Splits(m))
    ensures forall p :: p in Splits(m) <==> IsSplit(m, p)
    ensures |Splits(m)| == Pow3(Ones(m)) - 1
  {
    hide Within, SplitRow, Spread, Gather, OrW, Distinct, SplitsUpTo, PowerSum, Pow2, Pow3, Ones;
    var n := Pow2(Ones(m)) - 1;
    SplitsUpToAreRight(m, n);
    forall p: (nat, nat) | IsSplit(m, p) ensures Within(p.0, m) && Gather(m, p.0) <= n {
      PartsOfUnion(m, p.0, p.1);
      SpreadGather(m, p.0);
    }
    SplitsLength(m, n);
    PowerSumOfPower(Ones(m));
  }

  /** The sum of `2^Ones(i)` for `i < n`. */
  function PowerSum(n: nat): nat { if n == 0 then 0 else PowerSum(n - 1) + Pow2(Ones(n - 1)) }

  lemma PowerSumStep(n: nat)
    ensures PowerSum(n + 1) == PowerSum(n) + Pow2(Ones(n))
  {
    hide Pow2, Ones;
  }

  lemma PowStep(k: nat)
    ensures Pow2(k + 1) == 2 * Pow2(k)
  {
  }

  lemma {:induction false} PowerSumTwice(n: nat)
    ensures PowerSum(2 * n) == 3 * PowerSum(n)
  {
    if n > 0 {
      hide Pow2, Ones, PowerSum;
      var m := n - 1;
      PowerSumTwice(m);
      OnesOf(m, 0);
      OnesOf(m, 1);
      PowStep(Ones(m));
      PowerSumStep(m);
      PowerSumStep(2 * m);
      PowerSumStep(2 * m + 1);
    }
  }

  lemma {:induction false} PowerSumOfPower(k: nat)
    ensures PowerSum(Pow2(k)) == Pow3(k)
  {
    hide PowerSum, Ones;
    if k > 0 {
      PowerSumOfPower(k - 1);
      PowerSumTwice(Pow2(k - 1));
    } else {
      PowerSumStep(0);
      assert PowerSum(0) == 0 && Ones(0) == 0 by { NoSum(); }
    }
  }

  lemma NoSum()
    ensures PowerSum(0) == 0 && Ones(0) == 0
  {
  }

  lemma {:induction false} SplitsLength(m: nat, n: nat)
    requires n < Pow2(Ones(m))
    ensures |SplitsUpTo(m, n)| + 1 == PowerSum(n + 1)
  {
    if n > 0 {
      SplitsLength(m, n - 1);
      GatherSpread(m, n);
    }
  }

  /** `split_iter`, collected. */
  method CollectSplits(m: nat) returns (out: seq<(nat, nat)>)
    requires Word(m)
    ensures out == Splits(m)
  {
    hide Within, SplitRow, Spread, Gather, OrW, AndW, Subsets, Ones, Pow2;
    var firsts := CollectSubsets(m);
    out := [];
    SubsetsAreAll(m);
    for n := 0 to |firsts|
      invariant out == SplitsUpTo(m, n)
    {
      var i := firsts[n];
      WithinIsBelow(i, m);
      var seconds := CollectSubsets(i);
      seconds := seconds + [0];
      ghost var before := out;
      RowEntries(m, i);
      for t := 0 to |seconds|
        invariant out == before + SplitRow(m, i)[..t]
      {
        AndNot(m, i, WIDTH);
        assert SplitRow(m, i)[..t + 1] == SplitRow(m, i)[..t] + [SplitRow(m, i)[t]];
        out := out + [(i, OrW(AndW(m, NotW(i)), seconds[t]))];
      }
      SubsetAt(m, n);
    }
  }

  lemma SubsetAt(m: nat, n: nat)
    requires n < |Subsets(m)|
    ensures Subsets(m)[n] == Spread(m, n + 1)
  {
  }

  // ---- positions ----

  class BitIter {
    var w: nat

    constructor (w: nat)
      ensures this.w == w
    {
      this.w := w;
    }

    method Next() returns (r: Option<bool>)
      modifies this`w
      ensures old(w) == 0 ==> r == None && w == 0
      ensures old(w) > 0 ==> r == Some(old(w) % 2 == 1) && w == old(w) / 2
    {
      if w == 0 { return None; }
      var b := AndW(w, 1);
      AndStep(w, 1);
      w := w / 2;
      r := Some(b != 0);
    }
  }

  lemma AndFirst(w: nat, c: nat)
    requires w > 0
    ensures w % 2 == 1 ==> FirstOne(w) == 1 && (AndW(FirstOne(w), c) != 0 <==> c % 2 == 1)
    ensures w % 2 == 0 ==> FirstOne(w) == 2 * FirstOne(w / 2) && Rest(w) == 2 * Rest(w / 2)
    ensures w % 2 == 0 ==> (AndW(FirstOne(w), c) != 0 <==> AndW(FirstOne(w / 2), c / 2) != 0)
  {
    hide AndW;
    var f := FirstOne(w);
    if w % 2 == 0 {
      assert f / 2 == FirstOne(w / 2) && f % 2 == 0;
    }
    AndStep(f, c);
    AndNone(c / 2);
  }

  lemma AndNone(c: nat)
    ensures AndW(0, c) == 0
  {
  }

  /** Taking the first one off shifts the positions of the others. */
  lemma {:induction false} GatherStep(w: nat, c: nat)
    requires w > 0
    ensures Gather(w, c) == 2 * Gather(Rest(w), c) + if AndW(FirstOne(w), c) != 0 then 1 else 0
    decreases w
  {
    hide AndW, FirstOne, Gather;
    AndFirst(w, c);
    if w % 2 == 0 {
      GatherStep(w / 2, c / 2);
      GatherEven(w, c);
      GatherEven(2 * Rest(w / 2), c);
      assert 2 * Rest(w / 2) / 2 == Rest(w / 2);
    } else {
      assert Rest(w) == w - 1 && (w - 1) % 2 == 0 && (w - 1) / 2 == w / 2;
      GatherEven(w - 1, c);
      GatherOdd(w, c);
    }
  }

  lemma GatherOdd(w: nat, c: nat)
    requires w % 2 == 1
    ensures Gather(w, c) == 2 * Gather(w / 2, c / 2) + c % 2
  {
  }

  lemma GatherEven(w: nat, c: nat)
    requires w % 2 == 0
    ensures Gather(w, c) == Gather(w / 2, c / 2)
  {
  }

  lemma {:induction false} SpreadStep(w: nat, k: nat)
    requires w > 0
    ensures Spread(w, k) == Spread(Rest(w), k / 2) + if k % 2 == 1 then FirstOne(w) else 0
    ensures k % 2 == 1 ==> OrW(Spread(w, 2 * (k / 2)), FirstOne(w)) == Spread(w, k)
    decreases w
  {
    hide OrW, Spread, FirstOne;
    AndFirst(w, 0);
    var even := 2 * (k / 2);
    if w % 2 == 0 {
      SpreadStep(w / 2, k);
      SpreadEven(w, k);
      SpreadEven(w, even);
      SpreadEven(2 * Rest(w / 2), k / 2);
      assert 2 * Rest(w / 2) / 2 == Rest(w / 2);
      DoubledOr(Spread(w / 2, even), FirstOne(w / 2));
    } else {
      assert Rest(w) == w - 1 && (w - 1) % 2 == 0 && (w - 1) / 2 == w / 2 && even / 2 == k / 2 && even % 2 == 0;
      SpreadEven(w - 1, k / 2);
      SpreadOdd(w, k);
      SpreadOdd(w, even);
      OneMore(Spread(w / 2, k / 2));
    }
  }

  lemma DoubledOr(a: nat, b: nat)
    ensures OrW(2 * a, 2 * b) == 2 * OrW(a, b)
  {
    hide OrW;
    OrStep(2 * a, 2 * b);
  }

  lemma OneMore(a: nat)
    ensures OrW(2 * a, 1) == 2 * a + 1
  {
    hide OrW;
    OrStep(2 * a, 1);
    OrNothing(a);
  }

  lemma SpreadOdd(w: nat, k: nat)
    requires w % 2 == 1
    ensures Spread(w, k) == 2 * Spread(w / 2, k / 2) + k % 2
  {
  }

  lemma OrNothing(a: nat)
    ensures OrW(a, 0) == a
  {
  }

  lemma SpreadEven(w: nat, k: nat)
    requires w % 2 == 0
    ensures Spread(w, k) == 2 * Spread(w / 2, k)
  {
  }

  lemma {:induction false} OnesStep(w: nat)
    requires w > 0
    ensures Ones(w) == Ones(Rest(w)) + 1
  {
    if w % 2 == 0 {
      OnesStep(w / 2);
      OnesOf(Rest(w / 2), 0);
    } else {
      OnesOf(w / 2, 0);
    }
  }

  /** `pos_of_subset`. */
  method PosOfSubset(m: nat, other: nat) returns (res: nat)
    requires Word(m)
    ensures res == Gather(m, other)
  {
    hide Gather, AndW, OrW, FirstOne, Ones;
    var it := new OneIter(m);
    res := 0;
    var i := 0;
    CatNothing(Gather(m, other));
    while true
      invariant Word(it.w) && res < Pow2(i) && i + Ones(it.w) == Ones(m)
      invariant Cat(Gather(it.w, other), i, res) == Gather(m, other)
      decreases it.w
    {
      ghost var w := it.w;
      var p := it.Next();
      if p.None? {
        GatherNone(other);
        CatIsSum(0, i, res);
        break;
      }
      GatherStep(w, other);
      OnesStep(w);
      var bit := AndW(p.value, other) != 0;
      CatNext(Gather(it.w, other), i, res, bit);
      if bit {
        res := OrW(res, Pow2(i));
      }
      i := i + 1;
    }
  }

  lemma CatNothing(h: nat)
    ensures Cat(h, 0, 0) == h
  {
  }

  lemma GatherNone(other: nat)
    ensures Gather(0, other) == 0
  {
  }

  /** One more low bit taken from the high part. */
  lemma {:induction false} CatNext(h: nat, k: nat, l: nat, bit: bool)
    requires l < Pow2(k)
    ensures Cat(2 * h + if bit then 1 else 0, k, l) == Cat(h, k + 1, if bit then OrW(l, Pow2(k)) else l)
    ensures OrW(l, Pow2(k)) < Pow2(k + 1)
  {
    if k > 0 {
      CatNext(h, k - 1, l / 2, bit);
      OrStep(l, Pow2(k));
    }
  }

  /** `subset_of_pos`. */
  method SubsetOfPos(m: nat, other: nat) returns (res: nat)
    requires Word(m)
    ensures res == Spread(m, other)
  {
    hide Spread, OrW, FirstOne;
    var ones := new OneIter(m);
    var bits := new BitIter(other);
    res := 0;
    UnionNothing(Spread(m, other));
    while true
      invariant Word(ones.w)
      invariant OrW(res, Spread(ones.w, bits.w)) == Spread(m, other)
      decreases ones.w
    {
      ghost var w, k := ones.w, bits.w;
      var i := ones.Next();
      if i.None? { SpreadNone(k); UnionNothing(res); break; }
      var p := bits.Next();
      if p.None? { SpreadZero(w); UnionNothing(res); break; }
      SpreadUnion(res, w, k);
      if p.value { res := OrW(res, i.value); }
    }
  }

  lemma SpreadNone(k: nat)
    ensures Spread(0, k) == 0
  {
  }

  lemma UnionNothing(a: nat)
    ensures OrW(a, 0) == a == OrW(0, a)
  {
  }

  lemma SpreadUnion(res: nat, w: nat, k: nat)
    requires w > 0
    ensures OrW(res, Spread(w, k)) == OrW(if k % 2 == 1 then OrW(res, FirstOne(w)) else res, Spread(Rest(w), k / 2))
  {
    hide Spread, OrW, FirstOne;
    SpreadStep(w, k);
    SpreadStep(w, 2 * (k / 2));
    if k % 2 == 1 {
      OrSwap(Spread(Rest(w), k / 2), FirstOne(w));
      OrAssociates(res, FirstOne(w), Spread(Rest(w), k / 2));
    }
  }

  lemma {:induction false} OrSwap(a: nat, b: nat)
    ensures OrW(a, b) == OrW(b, a)
  {
    if a > 0 && b > 0 { OrSwap(a / 2, b / 2); }
  }

  lemma {:induction false} OrAssociates(a: nat, b: nat, c: nat)
    ensures OrW(OrW(a, b), c) == OrW(a, OrW(b, c))
    decreases a + b + c
  {
    if a + b + c == 0 { return; }
    hide OrW;
    OrHalf(a, b);
    OrHalf(b, c);
    OrStep(OrW(a, b), c);
    OrStep(a, OrW(b, c));
    OrAssociates(a / 2, b / 2, c / 2);
  }

  lemma OrHalf(a: nat, b: nat)
    ensures OrW(a, b) / 2 == OrW(a / 2, b / 2) && (OrW(a, b) % 2 == 1 <==> a % 2 == 1 || b % 2 == 1)
  {
    hide OrW;
    OrStep(a, b);
  }

  /** The bits of a word, lowest first, up to the highest one. */
  function BitsOf(w: nat): seq<bool> { if w == 0 then [] else [w % 2 == 1] + BitsOf(w / 2) }

  function FromBitList(bs: seq<bool>): nat { if bs == [] then 0 else 2 * FromBitList(bs[1..]) + if bs[0] then 1 else 0 }

  /** `from_bits` after `bit_iter` is the word. */
  lemma {:induction false} FromBitsOf(w: nat)
    ensures FromBitList(BitsOf(w)) == w
  {
    if w > 0 { FromBitsOf(w / 2); }
  }

  /** `from_bits`. */
  method FromBits(bs: seq<bool>) returns (result: nat)
    requires |bs| <= WIDTH
    ensures result == FromBitList(bs) && result < Pow2(|bs|)
  {
    hide FromBitList, OrW;
    result := 0;
    CatNothing(FromBitList(bs));
    assert bs[0..] == bs;
    for i := 0 to |bs|
      invariant result < Pow2(i)
      invariant Cat(FromBitList(bs[i..]), i, result) == FromBitList(bs)
    {
      BitListStep(bs[i..]);
      assert bs[i..][1..] == bs[i + 1..];
      CatNext(FromBitList(bs[i + 1..]), i, result, bs[i]);
      if bs[i] { result := OrW(result, Pow2(i)); }
    }
    BitListNone();
    CatIsSum(0, |bs|, result);
  }

  lemma BitListStep(bs: seq<bool>)
    requires bs != []
    ensures FromBitList(bs) == 2 * FromBitList(bs[1..]) + if bs[0] then 1 else 0
  {
  }

  lemma BitListNone()
    ensures FromBitList([]) == 0
  {
  }

  /** `bit_iter`, collected. */
  method CollectBits(w: nat) returns (out: seq<bool>)
    ensures out == BitsOf(w)
  {
    var it := new BitIter(w);
    out := [];
    while true
      invariant out + BitsOf(it.w) == BitsOf(w)
      decreases it.w
    {
      var b := it.Next();
      if b.None? { break; }
      out := out + [b.value];
    }
  }

  // ---- subsets of fixed size ----

  /** The words that `CombIter` holds: all its subsets have at most 63 positions. */
  const TOP := 63

  /** `bits(a, b)`: ones at the positions `a` to `b - 1`. */
  function Bits(a: nat, b: nat): nat
    requires a <= b <= TOP
  {
    Without(Pow2(b) - 1, Pow2(a) - 1)
  }

  /** `fo`: the first one above the trailing ones. */
  function Above(w: nat): nat { Without(w, Pow2(TrailingOnes(w)) - 1) }

  /** The word after `w`: the first one above the trailing ones moves down, and they follow it. */
  function NextWord(w: nat): nat
    requires Above(w) != 0 ==> TrailingOnes(w) < TrailingZeros(Above(w)) < TOP
  {
    if Above(w) == 0 then 0
    else
      var to, fo := TrailingOnes(w), TrailingZeros(Above(w));
      OrW(Without(w, Pow2(fo + 1) - 1), Without(Pow2(fo) - 1, Pow2(fo - to - 1) - 1))
  }

  lemma {:induction false} BitsIsCat(a: nat, b: nat)
    requires a <= b
    ensures Without(Pow2(b) - 1, Pow2(a) - 1) == Cat(Pow2(b - a) - 1, a, 0)
    ensures Cat(Pow2(b - a) - 1, a, 0) < Pow2(b)
  {
    if a > 0 {
      BitsIsCat(a - 1, b - 1);
      assert (Pow2(b) - 1) / 2 == Pow2(b - 1) - 1 && (Pow2(a) - 1) / 2 == Pow2(a - 1) - 1;
    } else {
      WithoutNothing(Pow2(b) - 1);
    }
  }

  lemma {:induction false} TrailingOnesParts(w: nat)
    ensures var t := TrailingOnes(w); Shr(w, t) % 2 == 0 && w == Cat(Shr(w, t), t, Pow2(t) - 1)
  {
    if w % 2 == 1 {
      TrailingOnesParts(w / 2);
      var t := TrailingOnes(w / 2);
      assert (Pow2(t + 1) - 1) / 2 == Pow2(t) - 1;
    }
  }

  lemma {:induction false} TrailingZerosParts(w: nat)
    requires w > 0
    ensures var z := TrailingZeros(w); w == Cat(Shr(w, z + 1), z + 1, Pow2(z))
  {
    if w % 2 == 0 {
      TrailingZerosParts(w / 2);
    }
  }

  lemma {:induction false} TrailingZerosShift(w: nat, k: nat)
    requires w > 0
    ensures Cat(w, k, 0) > 0 && TrailingZeros(Cat(w, k, 0)) == k + TrailingZeros(w)
  {
    if k > 0 { TrailingZerosShift(w, k - 1); }
  }

  /** The three parts of a word that is not only trailing ones, and the word that follows it. */
  datatype Shape = Shape(h: nat, fo: nat, to: nat) {
    predicate Ok() { to < fo }

    function Current(): nat { Cat(h, fo + 1, Pow2(fo) + Pow2(to) - 1) }

    function Following(): nat
      requires Ok()
    {
      Cat(h, fo + 1, Cat(Pow2(to + 1) - 1, fo - to - 1, 0))
    }
  }

  lemma ShapeOf(w: nat) returns (s: Shape)
    requires w < Pow2(TOP) && Above(w) != 0
    ensures s == Shape(s.h, TrailingZeros(Above(w)), TrailingOnes(w)) && s.Ok() && s.fo < TOP
    ensures w == s.Current() && NextWord(w) == s.Following()
  {
    hide Without, OrW, TrailingOnes, TrailingZeros, Shr, Cat, Pow2;
    var t := TrailingOnes(w);
    TrailingOnesParts(w);
    ClearLow(w, t);
    var g := Shr(w, t);
    CatIsSum(g, t, Pow2(t) - 1);
    if g == 0 { CatIsSum(0, t, 0); assert false; }
    TrailingZerosParts(g);
    TrailingZerosShift(g, t);
    TrailingIsEven(g);
    var z := TrailingZeros(g);
    s := Shape(Shr(g, z + 1), t + z, t);
    ShapeIsCurrent(w, g, z, t);
    ShapeIsBelow(s);
    BitsIsCat(s.fo - s.to - 1, s.fo);
    CurrentParts(s);
    ClearLow(w, s.fo + 1);
    OrLow(s.h, s.fo + 1, Cat(Pow2(s.to + 1) - 1, s.fo - s.to - 1, 0)) by { PowGrows(s.fo, s.fo + 1); }
  }

  lemma TrailingIsEven(g: nat)
    requires g % 2 == 0 && g > 0
    ensures TrailingZeros(g) > 0
  {
  }

  lemma ShapeIsCurrent(w: nat, g: nat, z: nat, t: nat)
    requires w == Cat(g, t, Pow2(t) - 1) && g == Cat(Shr(g, z + 1), z + 1, Pow2(z)) && z > 0
    ensures w == Shape(Shr(g, z + 1), t + z, t).Current()
  {
    hide Shr, Cat;
    var h := Shr(g, z + 1);
    PowGrows(z, z + 1);
    CatCat(h, z + 1, Pow2(z), t, Pow2(t) - 1);
    PowCat(z, t);
  }

  lemma {:induction false} PowCat(z: nat, t: nat)
    ensures Cat(Pow2(z), t, Pow2(t) - 1) == Pow2(t + z) + Pow2(t) - 1
  {
    if t > 0 {
      PowCat(z, t - 1);
      assert (Pow2(t) - 1) / 2 == Pow2(t - 1) - 1;
    }
  }

  lemma ShapeIsBelow(s: Shape)
    requires s.Ok() && s.Current() < Pow2(TOP)
    ensures s.fo < TOP
  {
    hide Cat, Shr, Pow2;
    CurrentParts(s);
    CatIsSum(s.h, s.fo + 1, Pow2(s.fo) + Pow2(s.to) - 1);
    if s.fo >= TOP { PowGrows(TOP, s.fo); }
  }

  lemma CurrentParts(s: Shape)
    requires s.Ok()
    ensures Pow2(s.fo) + Pow2(s.to) - 1 < Pow2(s.fo + 1)
    ensures Shr(s.Current(), s.fo + 1) == s.h
  {
    hide Cat, Shr;
    PowGrows(s.to, s.fo);
    ShrOfCat(s.h, s.fo + 1, Pow2(s.fo) + Pow2(s.to) - 1);
  }

  /** The following word has as many ones, is smaller, and no word between the two has as many. */
  lemma FollowingIsNext(s: Shape, x: nat)
    requires s.Ok()
    ensures Ones(s.Following()) == Ones(s.Current()) && s.Following() < s.Current()
    ensures s.Following() < x < s.Current() ==> Ones(x) != Ones(s.Current())
  {
    hide Cat, Shr, Low, Ones;
    var k := s.fo + 1;
    var lc, lf := Pow2(s.fo) + Pow2(s.to) - 1, Cat(Pow2(s.to + 1) - 1, s.fo - s.to - 1, 0);
    LowCurrent(s);
    LowFollowing(s);
    CatOnes(s.h, k, lc);
    CatOnes(s.h, k, lf);
    CatOrder(s.h, s.h, k, lf, lc);
    if s.Following() < x < s.Current() {
      Parts(x, k);
      CatOrder(s.h, Shr(x, k), k, lf, Low(x, k));
      CatOrder(Shr(x, k), s.h, k, Low(x, k), lc);
      CatOnes(s.h, k, Low(x, k));
      LowBetween(s, Low(x, k));
    }
  }

  lemma LowCurrent(s: Shape)
    requires s.Ok()
    ensures var l := Pow2(s.fo) + Pow2(s.to) - 1;
      l < Pow2(s.fo + 1) && Ones(l) == s.to + 1 && l == Cat(1, s.fo, Pow2(s.to) - 1) && Pow2(s.to) < Pow2(s.fo)
  {
    hide Cat;
    PowGrows(s.to, s.fo);
    CatIsSum(1, s.fo, Pow2(s.to) - 1);
    CatOnes(1, s.fo, Pow2(s.to) - 1);
    OnesBelow(Pow2(s.to) - 1, s.to);
    assert Ones(1) == 1;
  }

  lemma LowFollowing(s: Shape)
    requires s.Ok()
    ensures var l := Cat(Pow2(s.to + 1) - 1, s.fo - s.to - 1, 0);
      l < Pow2(s.fo) < Pow2(s.fo + 1) && Ones(l) == s.to + 1
  {
    hide Cat;
    BitsIsCat(s.fo - s.to - 1, s.fo);
    CatOnes(Pow2(s.to + 1) - 1, s.fo - s.to - 1, 0);
    OnesBelow(Pow2(s.to + 1) - 1, s.to + 1);
    assert Ones(0) == 0;
  }

  lemma LowBetween(s: Shape, y: nat)
    requires s.Ok() && Cat(Pow2(s.to + 1) - 1, s.fo - s.to - 1, 0) < y < Pow2(s.fo) + Pow2(s.to) - 1
    ensures Ones(y) != s.to + 1
  {
    hide Cat, Shr, Low, Ones;
    PowGrows(s.to, s.fo);
    if y >= Pow2(s.fo) {
      var z := y - Pow2(s.fo);
      CatIsSum(1, s.fo, z);
      CatOnes(1, s.fo, z);
      OnesBelow(z, s.to);
      OnesBelow(1, 1);
    } else {
      BeyondFull(s.to + 1, s.fo - s.to - 1, y);
    }
  }

  /** A word of `j + k` bits above the one with the `j` high bits set has more ones. */
  lemma BeyondFull(j: nat, k: nat, y: nat)
    requires Cat(Pow2(j) - 1, k, 0) < y < Pow2(j + k)
    ensures Ones(y) > j
  {
    hide Cat, Shr, Low, Ones;
    Parts(y, k);
    var u, v := Shr(y, k), Low(y, k);
    CatOrder(Pow2(j) - 1, u, k, 0, v);
    UpperLimit(u, j, k, v);
    CatOnes(u, k, v);
    OnesBelow(u, j);
    OnesBelow(v, k);
  }

  lemma {:induction false} UpperLimit(u: nat, j: nat, k: nat, v: nat)
    requires v < Pow2(k) && Cat(u, k, v) < Pow2(j + k)
    ensures u < Pow2(j)
  {
    if k > 0 { UpperLimit(u, j, k - 1, v / 2); }
  }

  // ---- how many ----

  /** How many words below `x` have `p` ones. */
  function CountBelow(x: nat, p: nat): nat {
    if x == 0 then 0 else CountBelow(x - 1, p) + if Ones(x - 1) == p then 1 else 0
  }

  /** The binomial coefficient. */
  function Choose(n: nat, p: nat): nat {
    if p == 0 then 1 else if n == 0 then 0 else Choose(n - 1, p) + Choose(n - 1, p - 1)
  }

  lemma {:induction false} CountTwice(x: nat, p: nat)
    ensures CountBelow(2 * x, p) == CountBelow(x, p) + if p > 0 then CountBelow(x, p - 1) else 0
  {
    hide CountBelow, Ones;
    if x == 0 {
      CountUpTo(0, p);
    } else {
      CountTwice(x - 1, p);
      OnesOf(x - 1, 0);
      OnesOf(x - 1, 1);
      CountUpTo(2 * x - 1, p);
      CountUpTo(2 * x - 2, p);
      CountUpTo(x - 1, p);
      if p > 0 { CountUpTo(x - 1, p - 1); }
    }
  }

  lemma CountUpTo(x: nat, p: nat)
    ensures CountBelow(x + 1, p) == CountBelow(x, p) + if Ones(x) == p then 1 else 0
    ensures forall q :: CountBelow(0, q) == 0
  {
  }

  /** There are `Choose(n, p)` words of `n` bits with `p` ones. */
  lemma {:induction false} CountIsChoose(n: nat, p: nat)
    ensures CountBelow(Pow2(n), p) == Choose(n, p)
  {
    if n > 0 {
      CountTwice(Pow2(n - 1), p);
      CountIsChoose(n - 1, p);
      if p > 0 { CountIsChoose(n - 1, p - 1); }
    } else {
      assert CountBelow(1, p) == CountBelow(0, p) + if Ones(0) == p then 1 else 0;
    }
  }

  /** Words without the right number of ones do not count. */
  lemma {:induction false} CountNone(x: nat, y: nat, p: nat)
    requires x <= y && forall z | x <= z < y :: Ones(z) != p
    ensures CountBelow(x, p) == CountBelow(y, p)
  {
    if x < y { CountNone(x, y - 1, p); }
  }

  class CombIter {
    var w: nat

    constructor (p: nat, n: nat)
      requires p <= n <= TOP
      ensures w == Cat(Pow2(p) - 1, n - p, 0)
    {
      BitsIsCat(n - p, n);
      w := Bits(n - p, n);
    }

    method Next() returns (r: Option<nat>)
      requires w < Pow2(TOP)
      modifies this`w
      ensures w < Pow2(TOP)
      ensures old(w) == 0 ==> r == None && w == 0
      ensures old(w) > 0 ==> r == Some(old(w))
      ensures old(w) > 0 && Above(old(w)) == 0 ==> w == 0
      ensures Above(old(w)) != 0 ==> exists s: Shape :: s.Ok() && old(w) == s.Current() && w == s.Following()
    {
      hide Without, OrW, AndW, TrailingOnes, TrailingZeros, NotIn, Above, NextWord, Bits, Cat, Pow2;
      var cur := w;
      var to := TrailingOnes(w);
      TrailingBelow(w);
      PowGrows(TOP, WIDTH);
      AndNot(w, Pow2(to) - 1, WIDTH);
      var noto := AndW(w, NotW(Pow2(to) - 1));
      assert noto == Above(w) by { AboveIs(w); }
      var fo := TrailingZeros(noto);
      ZerosOfWord(w, noto);
      if fo == 64 {
        AboveZero();
        if w != 0 {
          w := 0;
          return Some(cur);
        } else {
          return None;
        }
      }
      ghost var s := ShapeOf(w);
      PowGrows(fo + 1, WIDTH);
      BitsFromZero(fo + 1);
      AndNot(w, Bits(0, fo + 1), WIDTH);
      FollowingIsNext(s, 0);
      NextWordIs(w, fo, to);
      w := OrW(AndW(w, NotW(Bits(0, fo + 1))), Bits(fo - to - 1, fo));
      r := Some(cur);
    }
  }

  lemma AboveIs(w: nat)
    ensures Above(w) == Without(w, Pow2(TrailingOnes(w)) - 1)
  {
  }

  lemma AboveZero()
    ensures Above(0) == 0
  {
  }

  lemma TrailingBelow(w: nat)
    requires w < Pow2(TOP)
    ensures TrailingOnes(w) <= TOP && Pow2(TrailingOnes(w)) - 1 < Pow2(TOP)
  {
    hide TrailingOnes, Shr, Cat;
    TrailingOnesParts(w);
    var t := TrailingOnes(w);
    CatIsSum(Shr(w, t), t, Pow2(t) - 1);
    if t > TOP { PowGrows(TOP + 1, t); } else { PowGrows(t, TOP); }
  }

  lemma ZerosOfWord(w: nat, noto: nat)
    requires noto == Above(w) && w < Pow2(TOP)
    ensures TrailingZeros(noto) == 64 <==> noto == 0
    ensures noto > 0 ==> TrailingZeros(noto) < TOP
  {
    if noto > 0 { var s := ShapeOf(w); } else { NoTrailing(); }
  }

  lemma BitsFromZero(b: nat)
    requires b <= TOP
    ensures Bits(0, b) == Pow2(b) - 1
  {
    WithoutNothing(Pow2(b) - 1);
  }

  lemma NextWordIs(w: nat, fo: nat, to: nat)
    requires Above(w) != 0 && to == TrailingOnes(w) && fo == TrailingZeros(Above(w)) && to < fo < TOP
    ensures NextWord(w) == OrW(Without(w, Pow2(fo + 1) - 1), Bits(fo - to - 1, fo))
  {
    hide Without, OrW, TrailingOnes, TrailingZeros, Above, Pow2;
  }

  predicate Descending(out: seq<nat>) { forall a, b | 0 <= a < b < |out| :: out[a] > out[b] }

  /** The words with `p` ones among the `n` low bits. */
  predicate Chosen(x: nat, p: nat, n: nat) { Ones(x) == p && x < Pow2(n) }

  lemma FirstIsLargest(p: nat, n: nat)
    requires p <= n
    ensures var w := Cat(Pow2(p) - 1, n - p, 0);
      Ones(w) == p && w < Pow2(n) && (p == 0 <==> w == 0) && forall x: nat | w < x < Pow2(n) :: Ones(x) != p
    ensures p > 0 ==> CountBelow(Cat(Pow2(p) - 1, n - p, 0) + 1, p) == Choose(n, p)
  {
    hide Cat, Ones, CountBelow, Pow2, Choose, Without;
    var w := Cat(Pow2(p) - 1, n - p, 0);
    BitsIsCat(n - p, n);
    FirstOnes(p, n - p);
    OnesBelow(w, n);
    forall x: nat | w < x < Pow2(n) ensures Ones(x) != p { BeyondFull(p, n - p, x); }
    CountNone(w + 1, Pow2(n), p);
    CountIsChoose(n, p);
  }

  lemma FirstOnes(p: nat, k: nat)
    ensures Ones(Cat(Pow2(p) - 1, k, 0)) == p
  {
    hide Cat, Ones;
    CatOnes(Pow2(p) - 1, k, 0);
    OnesBelow(Pow2(p) - 1, p);
    OnesBelow(0, 0);
  }

  /** Behind the last word there is none. */
  lemma LastIsSmallest(w: nat)
    requires w > 0 && Above(w) == 0
    ensures forall x: nat | x < w :: Ones(x) != Ones(w)
    ensures CountBelow(w, Ones(w)) == 0
  {
    hide Cat, Ones, Above;
    var t := TrailingOnes(w);
    TrailingOnesParts(w);
    AboveIs(w);
    ClearLow(w, t);
    CatIsSum(Shr(w, t), t, Pow2(t) - 1);
    OnesBelow(w, t);
    forall x: nat | x < w ensures Ones(x) != Ones(w) { OnesBelow(x, t); }
    CountNone(0, w, Ones(w));
  }

  lemma OneLess(s: Shape, p: nat)
    requires s.Ok() && Ones(s.Current()) == p
    ensures CountBelow(s.Current() + 1, p) == CountBelow(s.Following() + 1, p) + 1
    ensures Ones(s.Following()) == p && s.Following() < s.Current()
    ensures forall x | s.Following() < x < s.Current() :: Ones(x) != p
    ensures p > 0 ==> s.Following() > 0
  {
    hide Cat, Shape.Current, Shape.Following;
    FollowingIsNext(s, 0);
    forall x | s.Following() < x < s.Current() ensures Ones(x) != p { FollowingIsNext(s, x); }
    CountNone(s.Following() + 1, s.Current(), p);
  }

  /** `comb_iter`, collected: all words with `p` of `n` bits, in decreasing order; nothing at all for `p == 0`. */
  method CollectCombs(p: nat, n: nat) returns (out: seq<nat>)
    requires p <= n <= TOP
    ensures Descending(out)
    ensures p > 0 ==> forall x: nat :: x in out <==> Chosen(x, p, n)
    ensures p > 0 ==> |out| == Choose(n, p)
    ensures p == 0 ==> out == []
  {
    hide Cat, Ones, Above, CountBelow, Choose, Shape.Current, Shape.Following, Pow2, Chosen;
    var it := new CombIter(p, n);
    FirstIsLargest(p, n);
    forall x: nat ensures Chosen(x, p, n) <==> Ones(x) == p && x < Pow2(n) { ChosenIs(x, p, n); }
    PowGrows(n, TOP);
    out := [];
    while true
      invariant it.w < Pow2(TOP) && (p == 0 ==> it.w == 0 && out == [])
      invariant it.w > 0 ==> Chosen(it.w, p, n)
      invariant Descending(out) && forall a | 0 <= a < |out| :: Chosen(out[a], p, n) && out[a] > it.w
      invariant p > 0 ==> forall x: nat | Chosen(x, p, n) && x > it.w :: x in out
      invariant p > 0 && it.w == 0 ==> forall x: nat | Chosen(x, p, n) :: x in out
      invariant p > 0 ==> |out| + (if it.w == 0 then 0 else CountBelow(it.w + 1, p)) == Choose(n, p)
      decreases it.w
    {
      ghost var w := it.w;
      ghost var before := out;
      var c := it.Next();
      if c.None? { break; }
      out := out + [c.value];
      assert forall x :: x in out <==> x in before || x == w;
      if Above(w) == 0 {
        LastIsSmallest(w);
        CountNext(w, p);
      } else {
        ghost var s: Shape :| s.Ok() && w == s.Current() && it.w == s.Following();
        OneLess(s, p);
      }
    }
  }

  lemma ChosenIs(x: nat, p: nat, n: nat)
    ensures Chosen(x, p, n) <==> Ones(x) == p && x < Pow2(n)
  {
  }

  lemma CountNext(x: nat, p: nat)
    requires Ones(x) == p
    ensures CountBelow(x + 1, p) == CountBelow(x, p) + 1
  {
  }

  // ---- combs ----

  /** `fact`, where it does not overflow. */
  function Fact(n: nat): (f: nat)
    ensures f > 0
  {
    if n == 0 then 1 else Fact(n - 1) * n
  }

  lemma TwentyFits(n: nat)
    requires n <= 20
    ensures Fact(n) <= Fact(20) < Pow2(WIDTH)
  {
    FactGrows(n, 20);
    assert Fact(10) == 3628800;
    assert Fact(20) == 2432902008176640000;
    assert Pow2(8) == 256;
    PowSum(8, 8);
    PowSum(16, 16);
    PowSum(32, 32);
  }

  /** The factorials that fit a word are those up to that of 20. */
  lemma FactorialsFit(n: nat)
    ensures Fact(n) < Pow2(WIDTH) <==> n <= 20
  {
    hide Fact, Pow2;
    if n <= 20 {
      TwentyFits(n);
    } else {
      FactGrows(21, n);
      NextOverflows();
    }
  }

  lemma NextOverflows()
    ensures Fact(21) >= Pow2(WIDTH)
  {
    assert Fact(10) == 3628800;
    assert Fact(20) == 2432902008176640000;
    assert Fact(21) == Fact(20) * 21;
    assert Pow2(8) == 256;
    PowSum(8, 8);
    PowSum(16, 16);
    PowSum(32, 32);
  }

  lemma {:induction false} FactGrows(m: nat, n: nat)
    requires m <= n
    ensures Fact(m) <= Fact(n)
  {
    if m < n {
      FactGrows(m, n - 1);
      assert Fact(n - 1) * n >= Fact(n - 1) * 1;
    }
  }

  lemma {:induction false} PowSum(j: nat, k: nat)
    ensures Pow2(j + k) == Pow2(j) * Pow2(k)
  {
    if j > 0 { PowSum(j - 1, k); }
  }

  lemma {:induction false} ChooseFact(n: nat, r: nat)
    ensures r <= n ==> Choose(n, r) * (Fact(r) * Fact(n - r)) == Fact(n)
    ensures r > n ==> Choose(n, r) == 0
  {
    if r == 0 {
      assert Choose(n, 0) * (Fact(0) * Fact(n)) == Fact(n);
    } else if n > 0 {
      ChooseFact(n - 1, r);
      ChooseFact(n - 1, r - 1);
      if r < n {
        Pascal(Choose(n - 1, r), Choose(n - 1, r - 1), Fact(r), Fact(r - 1), Fact(n - r), Fact(n - 1 - r), Fact(n - 1), r, n);
      } else if r == n {
        assert Choose(n, r) == Choose(n - 1, r - 1);
        LastFactor(Choose(n - 1, r - 1), Fact(n - 1), n);
      }
    }
  }

  lemma LastFactor(c: nat, f: nat, n: nat)
    requires c * (f * 1) == f
    ensures c * ((f * n) * 1) == f * n
  {
    assert c * ((f * n) * 1) == (c * f) * n;
  }

  lemma Pascal(c: nat, c': nat, fr: nat, fr': nat, fs: nat, fs': nat, f: nat, r: nat, n: nat)
    requires r <= n && fr == fr' * r && fs == fs' * (n - r)
    requires c * (fr * fs') == f && c' * (fr' * fs) == f
    ensures (c + c') * (fr * fs) == f * n
  {
    var s := n - r;
    assert c * (fr * fs) == (c * (fr * fs')) * s by { Regroup(c, fr, fs', s); }
    assert c' * (fr * fs) == (c' * (fr' * fs)) * r by { Regroup(c', fs, fr', r); Swap(c', fr, fs); Swap(c', fr', fs); }
    assert f * s + f * r == f * n;
    Add(c, c', fr * fs);
  }

  lemma Regroup(c: nat, a: nat, b: nat, s: nat)
    ensures c * (a * (b * s)) == (c * (a * b)) * s
  {
    assert a * (b * s) == (a * b) * s;
  }

  lemma Swap(c: nat, a: nat, b: nat)
    ensures c * (a * b) == c * (b * a)
  {
  }

  lemma Add(c: nat, c': nat, x: nat)
    ensures (c + c') * x == c * x + c' * x
  {
  }

  /** `combs` is the number of words `comb_iter` yields, as far as the factorials fit a word. */
  lemma CombsIsChoose(n: nat, r: nat)
    requires r <= n <= 20
    ensures Fact(n) < Pow2(WIDTH) && Fact(r) * Fact(n - r) < Pow2(WIDTH)
    ensures Fact(n) / (Fact(r) * Fact(n - r)) == Choose(n, r)
  {
    hide Fact, Pow2, Choose;
    TwentyFits(n);
    ChooseFact(n, r);
    Quotient(Choose(n, r), Fact(r) * Fact(n - r), Fact(n));
  }

  /** `fact`; `None` where a product leaves the word. */
  method Factorial(n: nat) returns (f: Option<nat>)
    ensures f == if n <= 20 then Some(Fact(n)) else None
  {
    hide Pow2;
    var product := 1;
    FactorialsFit(0);
    for i := 1 to n + 1
      invariant product == Fact(i - 1) && i - 1 <= 20
    {
      product := product * i;
      FactorialsFit(i);
      if product >= Pow2(WIDTH) { return None; }
    }
    f := Some(product);
  }

  /** `combs`: the number of combinations, exactly as long as nothing overflows, which is up to 20. */
  method Combs(n: nat, r: nat) returns (c: Option<nat>)
    ensures c.Some? <==> r <= n <= 20
    ensures c.Some? ==> c.value == Choose(n, r)
  {
    hide Fact, Choose, Pow2;
    var whole := Factorial(n);
    if whole.None? { return None; }
    var chosen := Factorial(r);
    if chosen.None? || r > n { return None; }
    var others := Factorial(n - r);
    CombsIsChoose(n, r);
    if chosen.value * others.value >= Pow2(WIDTH) { return None; }
    c := Some(whole.value / (chosen.value * others.value));
  }

  lemma Quotient(c: nat, d: nat, f: nat)
    requires c * d == f && d > 0 && f > 0
    ensures f / d == c && d <= f
  {
    var q := f / d;
    Division(f, d);
    Difference(c, q, d);
    Multiples(c - q, d);
    Multiples(c, d);
  }

  lemma Division(f: nat, d: nat)
    requires d > 0
    ensures 0 <= f - (f / d) * d < d
  {
    assert f == d * (f / d) + f % d;
  }

  lemma Difference(c: nat, q: nat, d: nat)
    ensures (c - q) * d == c * d - q * d
  {
  }

  lemma Multiples(e: int, d: nat)
    ensures e >= 1 ==> e * d >= d
    ensures e <= -1 ==> e * d + d <= 0
    ensures e == 0 ==> e * d == 0
  {
    if e >= 1 { assert (e - 1) * d >= 0; }
    if e <= -1 { assert (-e - 1) * d >= 0; }
  }
}