/**
 Deductive combination: partial answers are collected as masked conjuncts and disjuncts until a new
 expression agrees with the output on every bit that no collected rule has decided yet.
 */
module Deduction {
  import opened Wrappers
  import opened BvExpr

  // ---- counting bits ----

  function LowBit(x: bv64): nat { if x & 1 == 1 then 1 else 0 }

  function Half(x: bv64): bv64 { x >> 1 }

  /** The number of ones among the low `k` bits. */
  function OneBits(x: bv64, k: nat): (c: nat)
    ensures c <= k
  {
    if k == 0 then 0 else LowBit(x) + OneBits(Half(x), k - 1)
  }

  /** `Bv::count`. */
  function Count(v: Bv): (c: nat)
    ensures c <= 64 * |v|
  {
    if v == [] then 0 else OneBits(v[0], 64) + Count(v[1..])
  }

  /** `Bv::count_zeros`. */
  function CountZeros(v: Bv): nat { 64 * |v| - Count(v) }

  /** The bits of `x` are those of `a` and those of `b`, without overlap. */
  predicate Split(x: bv64, a: bv64, b: bv64) { a | b == x && a & b == 0 }

  lemma HalvesSplit(x: bv64, a: bv64, b: bv64)
    requires Split(x, a, b)
    ensures Split(Half(x), Half(a), Half(b)) && LowBit(x) == LowBit(a) + LowBit(b)
  {
  }

  lemma {:induction false} OneBitsSplit(x: bv64, a: bv64, b: bv64, k: nat)
    requires Split(x, a, b)
    ensures OneBits(x, k) == OneBits(a, k) + OneBits(b, k)
    decreases k
  {
    hide LowBit, Half, Split;
    if k > 0 {
      HalvesSplit(x, a, b);
      OneBitsSplit(Half(x), Half(a), Half(b), k - 1);
    }
  }

  /** The word whose low `k` bits are one. */
  predicate AllOnes(x: bv64, k: bv64) { k <= 64 && x == if k == 64 then ONES64 else (1 << k) - 1 }

  lemma HalfAllOnes(x: bv64, k: bv64)
    requires 0 < k && AllOnes(x, k)
    ensures AllOnes(Half(x), k - 1) && LowBit(x) == 1
  {
  }

  lemma {:induction false} AllOnesCount(x: bv64, k: nat, kb: bv64)
    requires k <= 64 && kb as nat == k && AllOnes(x, kb)
    ensures OneBits(x, k) == k
    decreases k
  {
    hide LowBit, Half, AllOnes;
    if k > 0 {
      HalfAllOnes(x, kb);
      AllOnesCount(Half(x), k - 1, kb - 1);
    }
  }

  lemma {:induction false} CountSplit(x: Bv, a: Bv, b: Bv)
    requires |x| == |a| == |b| && forall i | 0 <= i < |x| :: Split(x[i], a[i], b[i])
    ensures Count(x) == Count(a) + Count(b)
  {
    hide Split;
    if x != [] {
      OneBitsSplit(x[0], a[0], b[0], 64);
      CountSplit(x[1..], a[1..], b[1..]);
    }
  }

  lemma {:induction false} CountOnes(n: nat)
    ensures Count(Splat(n, ONES64)) == 64 * n
  {
    if n > 0 {
      AllOnesCount(ONES64, 64, 64);
      assert Splat(n, ONES64)[1..] == Splat(n - 1, ONES64);
      CountOnes(n - 1);
    }
  }

  // ---- vector operators ----

  // Single lanes have names so that proofs about vectors need not look inside words.
  function AndWord(a: bv64, b: bv64): bv64 { a & b }
  function OrWord(a: bv64, b: bv64): bv64 { a | b }
  function XorWord(a: bv64, b: bv64): bv64 { a ^ b }
  function NotWord(a: bv64): bv64 { !a }

  function VAnd(a: Bv, b: Bv): (v: Bv)
    requires |a| == |b|
    ensures |v| == |a| && (forall i | 0 <= i < |a| :: v[i] == AndWord(a[i], b[i])) && BinBv(And, a, b) == Some(v)
  {
    var v := seq(|a|, i requires 0 <= i < |a| => AndWord(a[i], b[i]));
    assert v == BinBv(And, a, b).value;
    v
  }

  function VOr(a: Bv, b: Bv): (v: Bv)
    requires |a| == |b|
    ensures |v| == |a| && (forall i | 0 <= i < |a| :: v[i] == OrWord(a[i], b[i])) && BinBv(Or, a, b) == Some(v)
  {
    var v := seq(|a|, i requires 0 <= i < |a| => OrWord(a[i], b[i]));
    assert v == BinBv(Or, a, b).value;
    v
  }

  function VXor(a: Bv, b: Bv): (v: Bv)
    requires |a| == |b|
    ensures |v| == |a| && forall i | 0 <= i < |a| :: v[i] == XorWord(a[i], b[i])
  {
    seq(|a|, i requires 0 <= i < |a| => XorWord(a[i], b[i]))
  }

  function VNot(a: Bv): (v: Bv)
    ensures |v| == |a| && forall i | 0 <= i < |a| :: v[i] == NotWord(a[i])
  {
    seq(|a|, i requires 0 <= i < |a| => NotWord(a[i]))
  }

  function Zeros(n: nat): Bv { Splat(n, 0) }

  /** `a.imples(b)`: every one of `b` is a one of `a`. */
  predicate Implies(a: Bv, b: Bv)
    requires |a| == |b|
  {
    forall i | 0 <= i < |a| :: Covers(a[i], b[i])
  }

  predicate Covers(a: bv64, b: bv64) { !a & b == 0 }

  /** The subtractions of `test` never underflow: a mask's ones are divided between the two counts. */
  lemma CountDivides(m: Bv, v: Bv)
    requires |m| == |v|
    ensures Count(m) == Count(VAnd(m, v)) + Count(VAnd(m, VNot(v)))
  {
    hide BinBv, VAnd, VNot, AndWord, NotWord, Split;
    var a, b := VAnd(m, v), VAnd(m, VNot(v));
    forall i | 0 <= i < |m| ensures Split(m[i], a[i], b[i]) {
      SplitWord(m[i], v[i]);
    }
    CountSplit(m, a, b);
  }

  lemma SplitWord(m: bv64, v: bv64)
    ensures Split(m, AndWord(m, v), AndWord(m, NotWord(v)))
  {
    RecombineWord(m, v);
    DisjointWord(m, v);
  }

  lemma RecombineWord(m: bv64, v: bv64)
    ensures (m & v) | (m & !v) == m
  {
  }

  lemma DisjointWord(m: bv64, v: bv64)
    ensures (m & v) & (m & !v) == 0
  {
  }

  // ---- collected rules ----

  /** A collected expression with the value it is treated as having. */
  datatype SubExpr = AndRule(expr: Expr, first: Bv) | OrRule(expr: Expr, first: Bv)

  /** `mask` has a one for every bit that no collected rule has decided. */
  datatype Rules = Rules(mask: Bv, subexprs: seq<SubExpr>)

  /** What stays fixed: the lanes, the argument vectors and the output. */
  datatype Goal = Goal(n: nat, args: seq<Bv>, output: Bv) {
    ghost predicate WellFormed() { ArgsOk(args, n) && |output| == n }
  }

  /** The conjunct part of `test`; `ok` stands for the check against the full constraint. */
  function TestAnd(g: Goal, s: Rules, e: Expr, v: Bv, ok: bool): Rules
    requires |v| == |s.mask| == |g.output|
  {
    if Implies(v, g.output) && Count(s.mask) - Count(VAnd(s.mask, v)) > 2 * g.n
       && 3 * CountZeros(v) > CountZeros(g.output) && ok
    then Rules(VAnd(s.mask, v), s.subexprs + [AndRule(e, VOr(VNot(s.mask), v))])
    else s
  }

  /** The disjunct part of `test`. */
  function TestOr(g: Goal, s: Rules, e: Expr, v: Bv, ok: bool): Rules
    requires |v| == |s.mask| == |g.output|
  {
    if Implies(g.output, v) && Count(s.mask) - Count(VAnd(s.mask, VNot(v))) > 2 * g.n
       && 3 * Count(v) > Count(g.output) && ok
    then Rules(VAnd(s.mask, VNot(v)), s.subexprs + [OrRule(e, VAnd(s.mask, v))])
    else s
  }

  // ---- the invariant ----

  /** The mask after one more rule, recomputed from what the rule stores. */
  function NextMask(before: Bv, r: SubExpr): (m: Bv)
    requires |before| == |r.first|
    ensures |m| == |before|
  {
    if r.AndRule? then VAnd(before, r.first) else VAnd(before, VNot(r.first))
  }

  /** The mask after the first rules, recomputed from what the rules store. */
  function MaskAfter(n: nat, rs: seq<SubExpr>): (m: Bv)
    ensures |m| == n
  {
    if rs == [] then Splat(n, ONES64)
    else
      var before, last := MaskAfter(n, rs[..|rs| - 1]), rs[|rs| - 1];
      if |last.first| != |before| then before else NextMask(before, last)
  }

  /** How one rule relates to the mask before it: it never contradicts the output, and it settles many bits. */
  ghost predicate RuleOk(g: Goal, before: Bv, r: SubExpr)
    requires g.WellFormed()
  {
    && |before| == g.n && |r.first| == g.n
    && EvalBv(r.expr, g.args, g.n).Some?
    && var v := EvalBv(r.expr, g.args, g.n).value;
       if r.AndRule? then
         && Implies(v, g.output) && r.first == VOr(VNot(before), v)
         && Count(before) - Count(VAnd(before, v)) > 2 * g.n
       else
         && Implies(g.output, v) && r.first == VAnd(before, v)
         && Count(before) - Count(VAnd(before, VNot(v))) > 2 * g.n
  }

  ghost predicate RulesOk(g: Goal, rs: seq<SubExpr>)
    requires g.WellFormed()
  {
    forall j | 0 <= j < |rs| :: RuleOk(g, MaskAfter(g.n, rs[..j]), rs[j])
  }

  ghost predicate Inv(g: Goal, s: Rules) {
    g.WellFormed() && RulesOk(g, s.subexprs) && s.mask == MaskAfter(g.n, s.subexprs) && |s.mask| == g.n
  }

  lemma PushRule(g: Goal, s: Rules, r: SubExpr, mask: Bv)
    requires Inv(g, s) && RuleOk(g, s.mask, r)
    requires mask == NextMask(s.mask, r)
    ensures Inv(g, Rules(mask, s.subexprs + [r]))
  {
    hide VAnd, VOr, VNot, Implies, Count, EvalBv;
    var rs := s.subexprs + [r];
    assert rs[..|rs| - 1] == s.subexprs;
    forall j | 0 <= j < |rs| ensures RuleOk(g, MaskAfter(g.n, rs[..j]), rs[j]) {
      if j < |s.subexprs| {
        assert rs[..j] == s.subexprs[..j];
      }
    }
  }

  lemma AndMaskWord(m: bv64, v: bv64)
    ensures AndWord(m, OrWord(NotWord(m), v)) == AndWord(m, v)
  {
    assert m & (!m | v) == m & v;
  }

  lemma OrMaskWord(m: bv64, v: bv64)
    ensures AndWord(m, NotWord(AndWord(m, v))) == AndWord(m, NotWord(v))
  {
    assert !(m & v) == !m | !v;
    AndMaskWord(m, !v);
  }

  lemma AndMask(m: Bv, v: Bv)
    requires |m| == |v|
    ensures VAnd(m, VOr(VNot(m), v)) == VAnd(m, v)
  {
    hide BinBv, AndWord, OrWord, NotWord, VAnd, VOr, VNot;
    forall i | 0 <= i < |m| ensures VAnd(m, VOr(VNot(m), v))[i] == VAnd(m, v)[i] {
      AndMaskWord(m[i], v[i]);
    }
  }

  lemma OrMask(m: Bv, v: Bv)
    requires |m| == |v|
    ensures VAnd(m, VNot(VAnd(m, v))) == VAnd(m, VNot(v))
  {
    hide BinBv, AndWord, OrWord, NotWord, VAnd, VOr, VNot;
    forall i | 0 <= i < |m| ensures VAnd(m, VNot(VAnd(m, v)))[i] == VAnd(m, VNot(v))[i] {
      OrMaskWord(m[i], v[i]);
    }
  }

  /** Both parts of `test` keep the invariant, given the true value of the expression. */
  lemma TestKeepsInv(g: Goal, s: Rules, e: Expr, v: Bv, ok: bool)
    requires Inv(g, s) && EvalBv(e, g.args, g.n) == Some(v)
    ensures Inv(g, TestAnd(g, s, e, v, ok)) && Inv(g, TestOr(g, s, e, v, ok))
  {
    hide VAnd, VOr, VNot, Implies, Count, EvalBv;
    AndMask(s.mask, v);
    OrMask(s.mask, v);
    if TestAnd(g, s, e, v, ok) != s {
      PushRule(g, s, AndRule(e, VOr(VNot(s.mask), v)), VAnd(s.mask, v));
    }
    if TestOr(g, s, e, v, ok) != s {
      PushRule(g, s, OrRule(e, VAnd(s.mask, v)), VAnd(s.mask, VNot(v)));
    }
  }

  /** The least number of mask bits that `rules` rules have used up. */
  function Cost(n: nat, rules: nat): nat { rules * (2 * n + 1) }

  lemma CostStep(n: nat, rules: nat)
    ensures Cost(n, rules + 1) == Cost(n, rules) + 2 * n + 1
    ensures Cost(n, 0) == 0
  {
  }

  lemma CostBound(n: nat, rules: nat)
    requires Cost(n, rules) <= 64 * n
    ensures rules <= 31
  {
    calc {
      Cost(n, rules);
    ==
      (rules - 32) * (2 * n + 1) + 64 * n + 32;
    }
    assert rules >= 32 ==> (rules - 32) * (2 * n + 1) >= 0;
  }

  lemma RuleCost(g: Goal, before: Bv, r: SubExpr)
    requires g.WellFormed() && RuleOk(g, before, r)
    ensures Count(NextMask(before, r)) + 2 * g.n + 1 <= Count(before)
  {
    hide VAnd, VOr, VNot, AndWord, OrWord, NotWord, BinBv, Implies, Count, EvalBv;
    var v := EvalBv(r.expr, g.args, g.n).value;
    AndMask(before, v);
    OrMask(before, v);
  }

  lemma RulesOkFront(g: Goal, rs: seq<SubExpr>)
    requires g.WellFormed() && RulesOk(g, rs) && rs != []
    ensures RulesOk(g, rs[..|rs| - 1]) && RuleOk(g, MaskAfter(g.n, rs[..|rs| - 1]), rs[|rs| - 1])
  {
    hide RuleOk, MaskAfter;
    var front := rs[..|rs| - 1];
    forall j | 0 <= j < |front| ensures RuleOk(g, MaskAfter(g.n, front[..j]), front[j]) {
      assert front[..j] == rs[..j];
    }
  }

  /** Every stored rule paid for itself with more than `2n` mask bits. */
  lemma {:induction false} MaskBudget(g: Goal, rs: seq<SubExpr>)
    requires g.WellFormed() && RulesOk(g, rs)
    ensures Count(MaskAfter(g.n, rs)) + Cost(g.n, |rs|) <= 64 * g.n
  {
    hide NextMask, RulesOk, RuleOk, Count, Cost;
    if rs == [] {
      CountOnes(g.n);
      CostStep(g.n, 0);
    } else {
      RulesOkFront(g, rs);
      var front, last := rs[..|rs| - 1], rs[|rs| - 1];
      MaskBudget(g, front);
      RuleCost(g, MaskAfter(g.n, front), last);
      FirstLength(g, MaskAfter(g.n, front), last);
      CostStep(g.n, |front|);
    }
  }

  lemma FirstLength(g: Goal, before: Bv, r: SubExpr)
    requires g.WellFormed() && RuleOk(g, before, r)
    ensures |r.first| == g.n
  {
  }

  /** At most 31 rules are ever stored. */
  lemma AtMost31Rules(g: Goal, s: Rules)
    requires Inv(g, s)
    ensures |s.subexprs| <= 31
  {
    hide RulesOk, MaskAfter, Cost;
    MaskBudget(g, s.subexprs);
    CostBound(g.n, |s.subexprs|);
  }

  // ---- putting the answer together ----

  /** `collect_expr`: the expression, its tracked value and the number of operators added. */
  function Collected(rs: seq<SubExpr>, e: Expr, value: Bv, size: nat): (r: (Expr, Bv, nat))
    requires forall j | 0 <= j < |rs| :: |rs[j].first| == |value|
    decreases |rs|
  {
    if rs == [] then (e, value, size)
    else
      var front, last := rs[..|rs| - 1], rs[|rs| - 1];
      var next := if last.AndRule? then VAnd(value, last.first) else VOr(value, last.first);
      if next == value then Collected(front, e, value, size)
      else Collected(front, Binary(if last.AndRule? then And else Or, last.expr, e), next, size + 1)
  }

  /** `x` equals the output wherever the mask has a one. */
  ghost predicate Agrees(mask: Bv, x: Bv, output: Bv) {
    |mask| == |x| == |output| && forall i | 0 <= i < |x| :: LaneAgrees(mask[i], x[i], output[i])
  }

  ghost predicate LaneAgrees(m: bv64, x: bv64, o: bv64) { m & (x ^ o) == 0 }

  /** The real value `r` lies below the tracked value `t` where the output is 0 and above it where the output is 1. */
  ghost predicate Between(r: Bv, t: Bv, output: Bv) {
    |r| == |t| == |output| && forall i | 0 <= i < |r| :: Below(r[i], t[i], output[i]) && Above(r[i], t[i], output[i])
  }

  ghost predicate Below(r: bv64, t: bv64, o: bv64) { (r & !t) & !o == 0 }
  ghost predicate Above(r: bv64, t: bv64, o: bv64) { (t & !r) & o == 0 }

  lemma AndAgrees(m: bv64, v: bv64, t: bv64, o: bv64)
    requires Covers(v, o) && LaneAgrees(AndWord(m, v), t, o)
    ensures LaneAgrees(m, AndWord(t, OrWord(NotWord(m), v)), o)
  {
  }

  lemma AndBetween(m: bv64, v: bv64, r: bv64, t: bv64, o: bv64)
    requires Covers(v, o)
    ensures Below(r, t, o) ==> Below(AndWord(v, r), AndWord(t, OrWord(NotWord(m), v)), o)
    ensures Above(r, t, o) ==> Above(AndWord(v, r), AndWord(t, OrWord(NotWord(m), v)), o)
  {
  }

  lemma OrAgrees(m: bv64, v: bv64, t: bv64, o: bv64)
    requires Covers(o, v) && LaneAgrees(AndWord(m, NotWord(v)), t, o)
    ensures LaneAgrees(m, OrWord(t, AndWord(m, v)), o)
  {
  }

  lemma OrBetween(m: bv64, v: bv64, r: bv64, t: bv64, o: bv64)
    requires Covers(o, v)
    ensures Below(r, t, o) ==> Below(OrWord(v, r), OrWord(t, AndWord(m, v)), o)
    ensures Above(r, t, o) ==> Above(OrWord(v, r), OrWord(t, AndWord(m, v)), o)
  {
  }

  /** Undoing a conjunct: agreement extends to the bits it settled, and the real value stays on the safe side. */
  lemma UndoAnd(before: Bv, v: Bv, r: Bv, t: Bv, o: Bv)
    requires |before| == |v| == |r| == |t| == |o| && Implies(v, o)
    requires Agrees(VAnd(before, v), t, o) && Between(r, t, o)
    ensures var t' := VAnd(t, VOr(VNot(before), v)); Agrees(before, t', o) && Between(VAnd(v, r), t', o)
  {
    hide Covers, LaneAgrees, Below, Above, BinBv, AndWord, OrWord, NotWord, VAnd, VOr, VNot;
    var t', r' := VAnd(t, VOr(VNot(before), v)), VAnd(v, r);
    forall i | 0 <= i < |o|
      ensures LaneAgrees(before[i], t'[i], o[i]) && Below(r'[i], t'[i], o[i]) && Above(r'[i], t'[i], o[i])
    {
      AndAgrees(before[i], v[i], t[i], o[i]);
      AndBetween(before[i], v[i], r[i], t[i], o[i]);
    }
  }

  lemma UndoOr(before: Bv, v: Bv, r: Bv, t: Bv, o: Bv)
    requires |before| == |v| == |r| == |t| == |o| && Implies(o, v)
    requires Agrees(VAnd(before, VNot(v)), t, o) && Between(r, t, o)
    ensures var t' := VOr(t, VAnd(before, v)); Agrees(before, t', o) && Between(VOr(v, r), t', o)
  {
    hide Covers, LaneAgrees, Below, Above, BinBv, AndWord, OrWord, NotWord, VAnd, VOr, VNot;
    var t', r' := VOr(t, VAnd(before, v)), VOr(v, r);
    forall i | 0 <= i < |o|
      ensures LaneAgrees(before[i], t'[i], o[i]) && Below(r'[i], t'[i], o[i]) && Above(r'[i], t'[i], o[i])
    {
      OrAgrees(before[i], v[i], t[i], o[i]);
      OrBetween(before[i], v[i], r[i], t[i], o[i]);
    }
  }

  lemma FullLane(r: bv64, t: bv64, o: bv64)
    requires LaneAgrees(ONES64, t, o) && Below(r, t, o) && Above(r, t, o)
    ensures t == o && r == o
  {
    assert t == o;
  }

  lemma FullAgreement(n: nat, r: Bv, t: Bv, o: Bv)
    requires |o| == n && Agrees(Splat(n, ONES64), t, o) && Between(r, t, o)
    ensures t == o && r == o
  {
    hide LaneAgrees, Below, Above;
    forall i | 0 <= i < n ensures t[i] == o[i] && r[i] == o[i] {
      FullLane(r[i], t[i], o[i]);
    }
  }

  /** The value a rule gives to the tracked value, and to the real one. */
  function Applied(r: SubExpr, operand: Bv, value: Bv): (v: Bv)
    requires |operand| == |value|
    ensures |v| == |value|
  {
    if r.AndRule? then VAnd(operand, value) else VOr(operand, value)
  }

  lemma UndoRule(g: Goal, before: Bv, rule: SubExpr, r: Bv, t: Bv)
    requires g.WellFormed() && RuleOk(g, before, rule) && |r| == |t| == g.n
    requires Agrees(NextMask(before, rule), t, g.output)
    requires Between(r, t, g.output)
    ensures Agrees(before, Applied(rule, t, rule.first), g.output)
    ensures Between(Applied(rule, EvalBv(rule.expr, g.args, g.n).value, r), Applied(rule, t, rule.first), g.output)
  {
    hide VAnd, VOr, VNot, Implies, Agrees, Between, BinBv, Count, EvalBv, AndWord, OrWord, NotWord;
    var v := EvalBv(rule.expr, g.args, g.n).value;
    if rule.AndRule? {
      AndMask(before, v);
      UndoAnd(before, v, r, t, g.output);
    } else {
      OrMask(before, v);
      UndoOr(before, v, r, t, g.output);
    }
  }

  lemma FirstLengths(g: Goal, rs: seq<SubExpr>)
    requires g.WellFormed() && RulesOk(g, rs)
    ensures forall j | 0 <= j < |rs| :: |rs[j].first| == g.n
  {
    forall j | 0 <= j < |rs| ensures |rs[j].first| == g.n {
      assert RuleOk(g, MaskAfter(g.n, rs[..j]), rs[j]);
    }
  }

  /** Collecting from the rules in `rs` reaches the output, both as tracked value and as real value. */
  lemma {:induction false} CollectedIsOutput(g: Goal, rs: seq<SubExpr>, e: Expr, r: Bv, t: Bv, size: nat)
    requires g.WellFormed() && RulesOk(g, rs) && |t| == |r| == g.n
    requires EvalBv(e, g.args, g.n) == Some(r)
    requires Agrees(MaskAfter(g.n, rs), t, g.output) && Between(r, t, g.output)
    requires forall j | 0 <= j < |rs| :: |rs[j].first| == |t|
    ensures var c := Collected(rs, e, t, size); c.1 == g.output && EvalBv(c.0, g.args, g.n) == Some(g.output)
    decreases |rs|
  {
    hide VAnd, VOr, VNot, Implies, Agrees, Between, BinBv, Count, AndWord, OrWord, NotWord, RulesOk;
    if rs == [] {
      FullAgreement(g.n, r, t, g.output);
    } else {
      RulesOkFront(g, rs);
      var front, last := rs[..|rs| - 1], rs[|rs| - 1];
      UndoRule(g, MaskAfter(g.n, front), last, r, t);
      var v, next := EvalBv(last.expr, g.args, g.n).value, Applied(last, t, last.first);
      if next == t {
        CollectedIsOutput(g, front, e, r, t, size);
      } else {
        var e' := Binary(if last.AndRule? then And else Or, last.expr, e);
        assert EvalBv(e', g.args, g.n) == Some(Applied(last, v, r));
        CollectedIsOutput(g, front, e', Applied(last, v, r), next, size + 1);
      }
    }
  }

  /** The new expression agrees with the output on every undecided bit. */
  predicate Decides(mask: Bv, v: Bv, output: Bv)
    requires |mask| == |v| == |output|
  {
    VAnd(mask, VXor(v, output)) == Zeros(|mask|)
  }

  lemma EqualBetween(x: bv64, o: bv64)
    ensures Below(x, x, o) && Above(x, x, o)
  {
  }

  lemma DecidedLane(m: bv64, x: bv64, o: bv64)
    requires AndWord(m, XorWord(x, o)) == 0
    ensures LaneAgrees(m, x, o)
  {
  }

  lemma DecidesAgrees(mask: Bv, v: Bv, output: Bv)
    requires |mask| == |v| == |output| && Decides(mask, v, output)
    ensures Agrees(mask, v, output) && Between(v, v, output)
  {
    hide BinBv, LaneAgrees, Below, Above, AndWord, XorWord, VAnd, VXor;
    forall i | 0 <= i < |v|
      ensures LaneAgrees(mask[i], v[i], output[i]) && Below(v[i], v[i], output[i]) && Above(v[i], v[i], output[i])
    {
      assert VAnd(mask, VXor(v, output))[i] == 0;
      DecidedLane(mask[i], v[i], output[i]);
      EqualBetween(v[i], output[i]);
    }
  }

  // ---- what two tests find together ----

  /** The state after one call of `test`. */
  function Tested(g: Goal, s: Rules, e: Expr, v: Bv, andOk: bool, orOk: bool): (r: Rules)
    requires |v| == |s.mask| == |g.output|
    ensures |r.mask| == |s.mask|
  {
    TestOr(g, TestAnd(g, s, e, v, andOk), e, v, orOk)
  }

  function Fresh(n: nat): Rules { Rules(Splat(n, ONES64), []) }

  /**
   What is stored: a value with all ones of the output, which clears more than two undecided bits a lane, among them at
   least more than a third as many as the output has zeros; dually for the other rule.
   */
  lemma StoresExactly(g: Goal, s: Rules, e: Expr, v: Bv, ok: bool)
    requires |v| == |s.mask| == |g.output| == g.n
    ensures TestAnd(g, s, e, v, ok) != s <==>
              ok && VAnd(v, g.output) == g.output && Count(VAnd(s.mask, VNot(v))) > 2 * g.n && 3 * Count(VNot(v)) > Count(VNot(g.output))
    ensures TestOr(g, s, e, v, ok) != s <==>
              ok && VOr(v, g.output) == g.output && Count(VAnd(s.mask, v)) > 2 * g.n && 3 * Count(v) > Count(g.output)
    ensures TestAnd(g, s, e, v, ok) != s ==> TestAnd(g, s, e, v, ok) == Rules(VAnd(s.mask, v), s.subexprs + [AndRule(e, VOr(VNot(s.mask), v))])
    ensures TestOr(g, s, e, v, ok) != s ==> TestOr(g, s, e, v, ok) == Rules(VAnd(s.mask, VNot(v)), s.subexprs + [OrRule(e, VAnd(s.mask, v))])
  {
    hide VAnd, VOr, VNot, Implies, Count, BinBv;
    CountDivides(s.mask, v);
    ZerosAreOnes(v);
    ZerosAreOnes(g.output);
    ImpliesIsCover(v, g.output);
    ImpliesIsCover(g.output, v);
  }

  /** The zeros of a vector are the ones of its complement. */
  lemma ZerosAreOnes(v: Bv)
    ensures CountZeros(v) == Count(VNot(v))
  {
    hide BinBv, VAnd, VNot, AndWord, NotWord, Count;
    var m := Splat(|v|, ONES64);
    CountDivides(m, v);
    CountOnes(|v|);
    AndOnes(v);
    AndOnes(VNot(v));
  }

  lemma AndOnes(v: Bv)
    ensures VAnd(Splat(|v|, ONES64), v) == v
  {
    hide BinBv, AndWord;
    forall i | 0 <= i < |v| ensures VAnd(Splat(|v|, ONES64), v)[i] == v[i] { OnesLane(v[i]); }
  }

  lemma OnesLane(a: bv64)
    ensures AndWord(ONES64, a) == a
  {
  }

  lemma ImpliesIsCover(a: Bv, b: Bv)
    requires |a| == |b|
    ensures Implies(a, b) <==> VAnd(a, b) == b
    ensures Implies(a, b) <==> VOr(b, a) == a
  {
    hide BinBv, AndWord, OrWord, Covers;
    forall i | 0 <= i < |a| ensures Covers(a[i], b[i]) <==> VAnd(a, b)[i] == b[i] { CoverLane(a[i], b[i]); }
    forall i | 0 <= i < |a| ensures Covers(a[i], b[i]) <==> VOr(b, a)[i] == a[i] { CoverLane(a[i], b[i]); }
  }

  lemma CoverLane(a: bv64, b: bv64)
    ensures Covers(a, b) <==> AndWord(a, b) == b
    ensures Covers(a, b) <==> OrWord(b, a) == a
  {
    if Covers(a, b) { CoveredAnd(a, b); CoveredOr(a, b); }
    if AndWord(a, b) == b { AndCovers(a, b); }
    if OrWord(b, a) == a { OrCovers(a, b); }
  }

  lemma CoveredAnd(a: bv64, b: bv64)
    requires !a & b == 0
    ensures a & b == b
  {
    assert (b & a) | (b & !a) == b by { RecombineWord(b, a); }
  }

  lemma CoveredOr(a: bv64, b: bv64)
    requires !a & b == 0
    ensures b | a == a
  {
    assert (b | a) == a | (!a & b);
  }

  lemma AndCovers(a: bv64, b: bv64)
    requires a & b == b
    ensures !a & b == 0
  {
    assert !a & (a & b) == 0;
  }

  lemma OrCovers(a: bv64, b: bv64)
    requires b | a == a
    ensures !a & b == 0
  {
    assert !(b | a) & b == 0;
  }

  /** The mask only loses ones. */
  lemma TestedMask(g: Goal, s: Rules, e: Expr, v: Bv, andOk: bool, orOk: bool)
    requires |v| == |s.mask| == |g.output|
    ensures Implies(s.mask, Tested(g, s, e, v, andOk, orOk).mask)
    ensures Implies(TestAnd(g, s, e, v, andOk).mask, Tested(g, s, e, v, andOk, orOk).mask)
    ensures |s.subexprs| <= |Tested(g, s, e, v, andOk, orOk).subexprs| <= |s.subexprs| + 2
    ensures Tested(g, s, e, v, andOk, orOk).subexprs[..|s.subexprs|] == s.subexprs
  {
    hide VAnd, VNot, Implies, Count, BinBv, CountZeros;
    var a := TestAnd(g, s, e, v, andOk);
    AndShrinks(s.mask, v);
    AndShrinks(a.mask, VNot(v));
    ImpliesItself(s.mask);
    ImpliesItself(a.mask);
    ImpliesThen(s.mask, a.mask, Tested(g, s, e, v, andOk, orOk).mask);
  }

  lemma AndShrinks(m: Bv, v: Bv)
    requires |m| == |v|
    ensures Implies(m, VAnd(m, v))
  {
    hide BinBv, AndWord, Covers;
    forall i | 0 <= i < |m| ensures Covers(m[i], VAnd(m, v)[i]) { AndShrinksLane(m[i], v[i]); }
  }

  lemma AndShrinksLane(m: bv64, v: bv64)
    ensures Covers(m, AndWord(m, v))
  {
  }

  lemma ImpliesItself(m: Bv)
    ensures Implies(m, m)
  {
  }

  lemma ImpliesThen(a: Bv, b: Bv, c: Bv)
    requires |a| == |b| == |c| && Implies(a, b) && Implies(b, c)
    ensures Implies(a, c)
  {
    hide Covers;
    forall i | 0 <= i < |a| ensures Covers(a[i], c[i]) { CoversThen(a[i], b[i], c[i]); }
  }

  lemma CoversThen(a: bv64, b: bv64, c: bv64)
    requires Covers(a, b) && Covers(b, c)
    ensures Covers(a, c)
  {
  }

  /** Collecting adds at most one operator for each rule. */
  lemma {:induction false} CollectedSize(rs: seq<SubExpr>, e: Expr, value: Bv, size: nat)
    requires forall j | 0 <= j < |rs| :: |rs[j].first| == |value|
    ensures Collected(rs, e, value, size).2 <= size + |rs|
    decreases |rs|
  {
    hide VAnd, VOr, BinBv, AndWord, OrWord;
    if rs != [] {
      var front, last := rs[..|rs| - 1], rs[|rs| - 1];
      var next := if last.AndRule? then VAnd(value, last.first) else VOr(value, last.first);
      if next == value { CollectedSize(front, e, value, size); }
      else { CollectedSize(front, Binary(if last.AndRule? then And else Or, last.expr, e), next, size + 1); }
    }
  }

  /** The expression is the other one with `n` operators put around it. */
  predicate Wraps(res: Expr, e: Expr, n: nat)
    decreases n
  {
    if n == 0 then res == e else res.Binary? && Wraps(res.right, e, n - 1)
  }

  predicate FewOperators(res: Expr, e: Expr) { exists n | 0 <= n <= 4 :: Wraps(res, e, n) }

  lemma WrapsNone(e: Expr)
    ensures Wraps(e, e, 0)
  {
  }

  /** The size counts the operators that were put around the expression. */
  lemma {:induction false} CollectedWraps(rs: seq<SubExpr>, inner: Expr, e: Expr, value: Bv, size: nat)
    requires (forall j | 0 <= j < |rs| :: |rs[j].first| == |value|) && Wraps(e, inner, size)
    ensures Wraps(Collected(rs, e, value, size).0, inner, Collected(rs, e, value, size).2)
    decreases |rs|
  {
    hide VAnd, VOr, BinBv, AndWord, OrWord;
    if rs != [] {
      var front, last := rs[..|rs| - 1], rs[|rs| - 1];
      var next := if last.AndRule? then VAnd(value, last.first) else VOr(value, last.first);
      if next == value { CollectedWraps(front, inner, e, value, size); }
      else { CollectedWraps(front, inner, Binary(if last.AndRule? then And else Or, last.expr, e), next, size + 1); }
    }
  }

  /** An answer is given whenever the undecided bits are right and no more than four rules are stored. */
  predicate Answers(g: Goal, s: Rules, e: Expr, v: Bv)
    requires |v| == |s.mask| == |g.output|
  {
    Decides(s.mask, v, g.output) && (forall j | 0 <= j < |s.subexprs| :: |s.subexprs[j].first| == |v|) && Collected(s.subexprs, e, v, 0).2 <= 4
  }

  lemma DecidedBelow(m: Bv, w: Bv, v: Bv, output: Bv)
    requires |m| == |w| == |v| == |output| && Implies(w, m)
    requires forall i | 0 <= i < |m| :: RightUnder(w[i], v[i], output[i])
    ensures Decides(m, v, output)
  {
    hide BinBv, AndWord, XorWord, Covers, RightUnder;
    forall i | 0 <= i < |m| ensures VAnd(m, VXor(v, output))[i] == 0 { DecidedBelowLane(m[i], w[i], v[i], output[i]); }
    assert VAnd(m, VXor(v, output)) == Zeros(|m|);
  }

  /** The two words agree under the mask. */
  predicate RightUnder(w: bv64, v: bv64, o: bv64) { w & (v ^ o) == 0 }

  lemma DecidedBelowLane(m: bv64, w: bv64, v: bv64, o: bv64)
    requires Covers(w, m) && RightUnder(w, v, o)
    ensures AndWord(m, XorWord(v, o)) == 0
  {
  }

  /** After two tests of well-lengthed values at most four rules are stored, all of the right length. */
  lemma TwoTestsKeepInv(g: Goal, e1: Expr, v1: Bv, e2: Expr, v2: Bv, a1: bool, o1: bool, a2: bool, o2: bool)
    requires g.WellFormed() && EvalBv(e1, g.args, g.n) == Some(v1) && EvalBv(e2, g.args, g.n) == Some(v2)
    ensures var s1 := Tested(g, Fresh(g.n), e1, v1, a1, o1); var s2 := Tested(g, s1, e2, v2, a2, o2);
      Inv(g, s1) && Inv(g, s2) && |s2.subexprs| <= 4
  {
    hide VAnd, VOr, VNot, Implies, Count, CountZeros, EvalBv, Tested;
    assert Inv(g, Fresh(g.n));
    TestedKeepsInv(g, Fresh(g.n), e1, v1, a1, o1);
    var s1 := Tested(g, Fresh(g.n), e1, v1, a1, o1);
    TestedKeepsInv(g, s1, e2, v2, a2, o2);
    TestedMask(g, Fresh(g.n), e1, v1, a1, o1);
    TestedMask(g, s1, e2, v2, a2, o2);
  }

  lemma TestedKeepsInv(g: Goal, s: Rules, e: Expr, v: Bv, andOk: bool, orOk: bool)
    requires Inv(g, s) && EvalBv(e, g.args, g.n) == Some(v)
    ensures Inv(g, Tested(g, s, e, v, andOk, orOk))
  {
    hide VAnd, VOr, VNot, Implies, Count, CountZeros, EvalBv;
    TestKeepsInv(g, s, e, v, andOk);
    TestKeepsInv(g, TestAnd(g, s, e, v, andOk), e, v, orOk);
  }

  /** What is decided is answered as long as few rules are stored. */
  lemma DecidedIsAnswered(g: Goal, s: Rules, e: Expr, v: Bv)
    requires Inv(g, s) && |v| == |s.mask| && |s.subexprs| <= 4 && Decides(s.mask, v, g.output)
    ensures Answers(g, s, e, v)
  {
    hide Decides, Collected, MaskAfter, RuleOk;
    FirstLengths(g, s.subexprs);
    CollectedSize(s.subexprs, e, v, 0);
  }

  /**
   Two values whose conjunction is the output are put together: if the first clears more than two bits a lane and more
   than a third as many as the output has zeros, the second test gives an answer.
   */
  lemma ConjunctionIsFound(g: Goal, e1: Expr, v1: Bv, e2: Expr, v2: Bv, o1: bool, a2: bool, o2: bool)
    requires g.WellFormed() && EvalBv(e1, g.args, g.n) == Some(v1) && EvalBv(e2, g.args, g.n) == Some(v2)
    requires VAnd(v1, v2) == g.output && Count(VNot(v1)) > 2 * g.n && 3 * Count(VNot(v1)) > Count(VNot(g.output))
    ensures Answers(g, Tested(g, Tested(g, Fresh(g.n), e1, v1, true, o1), e2, v2, a2, o2), e2, v2)
  {
    hide VAnd, VOr, VNot, Implies, Count, CountZeros, EvalBv, Decides, Tested, Inv, Answers, RightUnder, BinBv;
    var s0 := Fresh(g.n);
    var a, s1 := TestAnd(g, s0, e1, v1, true), Tested(g, s0, e1, v1, true, o1);
    var s2 := Tested(g, s1, e2, v2, a2, o2);
    TwoTestsKeepInv(g, e1, v1, e2, v2, true, o1, a2, o2);
    StoresExactly(g, s0, e1, v1, true);
    AndOnes(VNot(v1));
    AndOnes(v1);
    AndAgain(v1, v2);
    assert a.mask == v1;
    TestedMask(g, s0, e1, v1, true, o1);
    TestedMask(g, s1, e2, v2, a2, o2);
    ImpliesThen(v1, s1.mask, s2.mask);
    forall i | 0 <= i < g.n ensures RightUnder(v1[i], v2[i], g.output[i]) {
      assert g.output[i] == AndWord(v1[i], v2[i]) by { AndAt(v1, v2, i); }
      MeetLane(v1[i], v2[i]);
    }
    DecidedBelow(s2.mask, v1, v2, g.output);
    InvLength(g, s2);
    DecidedIsAnswered(g, s2, e2, v2);
  }

  /** Dually, two values whose disjunction is the output. */
  lemma DisjunctionIsFound(g: Goal, e1: Expr, v1: Bv, e2: Expr, v2: Bv, a1: bool, a2: bool, o2: bool)
    requires g.WellFormed() && EvalBv(e1, g.args, g.n) == Some(v1) && EvalBv(e2, g.args, g.n) == Some(v2)
    requires VOr(v1, v2) == g.output && Count(v1) > 2 * g.n && 3 * Count(v1) > Count(g.output)
    ensures Answers(g, Tested(g, Tested(g, Fresh(g.n), e1, v1, a1, true), e2, v2, a2, o2), e2, v2)
  {
    hide VAnd, VOr, VNot, Implies, Count, CountZeros, EvalBv, Decides, Tested, Inv, Answers, RightUnder, BinBv;
    var s0 := Fresh(g.n);
    var s1 := Tested(g, s0, e1, v1, a1, true);
    var s2 := Tested(g, s1, e2, v2, a2, o2);
    TwoTestsKeepInv(g, e1, v1, e2, v2, a1, true, a2, o2);
    OrAgain(v1, v2);
    OrAgain(v1, g.output);
    OrTurns(v1, g.output);
    var a := TestAnd(g, s0, e1, v1, a1);
    StoresExactly(g, s0, e1, v1, a1);
    AndOnes(v1);
    AndSelf(v1);
    assert VAnd(a.mask, v1) == v1;
    StoresExactly(g, a, e1, v1, true);
    TestedIs(g, s0, e1, v1, a1, true);
    assert s1.mask == VAnd(a.mask, VNot(v1));
    AndShrinksRight(a.mask, VNot(v1));
    TestedMask(g, s1, e2, v2, a2, o2);
    forall i | 0 <= i < g.n ensures RightUnder(VNot(v1)[i], v2[i], g.output[i]) {
      assert g.output[i] == OrWord(v1[i], v2[i]) && VNot(v1)[i] == NotWord(v1[i]) by { OrAt(v1, v2, i); }
      JoinLane(v1[i], v2[i]);
    }
    ImpliesThen(VNot(v1), s1.mask, s2.mask);
    DecidedBelow(s2.mask, VNot(v1), v2, g.output);
    InvLength(g, s2);
    DecidedIsAnswered(g, s2, e2, v2);
  }

  lemma TestedIs(g: Goal, s: Rules, e: Expr, v: Bv, andOk: bool, orOk: bool)
    requires |v| == |s.mask| == |g.output|
    ensures Tested(g, s, e, v, andOk, orOk) == TestOr(g, TestAnd(g, s, e, v, andOk), e, v, orOk)
  {
  }

  lemma InvLength(g: Goal, s: Rules)
    requires Inv(g, s)
    ensures |s.mask| == g.n == |g.output|
  {
  }

  lemma AndAt(a: Bv, b: Bv, i: nat)
    requires |a| == |b| && i < |a|
    ensures VAnd(a, b)[i] == AndWord(a[i], b[i])
  {
  }

  lemma OrAt(a: Bv, b: Bv, i: nat)
    requires |a| == |b| && i < |a|
    ensures VOr(a, b)[i] == OrWord(a[i], b[i]) && VNot(a)[i] == NotWord(a[i])
  {
  }

  lemma MeetLane(a: bv64, b: bv64)
    ensures RightUnder(a, b, AndWord(a, b))
  {
  }

  lemma JoinLane(a: bv64, b: bv64)
    ensures RightUnder(NotWord(a), b, OrWord(a, b))
  {
  }

  /** Conjunction and disjunction absorb. */
  lemma AndAgain(a: Bv, b: Bv)
    requires |a| == |b|
    ensures VAnd(a, VAnd(a, b)) == VAnd(a, b)
  {
    hide BinBv, AndWord;
    forall i | 0 <= i < |a| ensures VAnd(a, VAnd(a, b))[i] == VAnd(a, b)[i] { AndAgainLane(a[i], b[i]); }
  }

  lemma OrAgain(a: Bv, b: Bv)
    requires |a| == |b|
    ensures VOr(a, VOr(a, b)) == VOr(a, b)
  {
    hide BinBv, OrWord;
    forall i | 0 <= i < |a| ensures VOr(a, VOr(a, b))[i] == VOr(a, b)[i] { OrAgainLane(a[i], b[i]); }
  }

  lemma AndAgainLane(a: bv64, b: bv64)
    ensures AndWord(a, AndWord(a, b)) == AndWord(a, b)
  {
    assert a & (a & b) == a & b;
  }

  lemma OrAgainLane(a: bv64, b: bv64)
    ensures OrWord(a, OrWord(a, b)) == OrWord(a, b)
  {
    NothingOutside(a, b);
    CoveredOr(a | b, a);
  }

  lemma NothingOutside(a: bv64, b: bv64)
    ensures !(a | b) & a == 0
  {
  }

  lemma OrTurns(a: Bv, b: Bv)
    requires |a| == |b|
    ensures VOr(a, b) == VOr(b, a)
  {
    hide BinBv, OrWord;
    forall i | 0 <= i < |a| ensures VOr(a, b)[i] == VOr(b, a)[i] { OrTurnsLane(a[i], b[i]); }
  }

  lemma OrTurnsLane(a: bv64, b: bv64)
    ensures OrWord(a, b) == OrWord(b, a)
  {
  }

  lemma AndSelf(a: Bv)
    ensures VAnd(a, a) == a
  {
    hide BinBv, AndWord;
    forall i | 0 <= i < |a| ensures VAnd(a, a)[i] == a[i] { AndSelfLane(a[i]); }
  }

  lemma AndSelfLane(a: bv64)
    ensures AndWord(a, a) == a
  {
  }

  lemma AndShrinksRight(m: Bv, v: Bv)
    requires |m| == |v|
    ensures Implies(v, VAnd(m, v))
  {
    hide BinBv, AndWord, Covers;
    forall i | 0 <= i < |m| ensures Covers(v[i], VAnd(m, v)[i]) { AndShrinksRightLane(m[i], v[i]); }
  }

  lemma AndShrinksRightLane(m: bv64, v: bv64)
    ensures Covers(v, AndWord(m, v))
  {
  }

  // ---- the collector ----

  /** What the last rule does. */
  lemma CollectedLast(rs: seq<SubExpr>, k: nat, e: Expr, value: Bv, size: nat)
    requires k < |rs| && forall j | 0 <= j < |rs| :: |rs[j].first| == |value|
    ensures var s := rs[k];
            var next := if s.AndRule? then VAnd(value, s.first) else VOr(value, s.first);
            Collected(rs[..k + 1], e, value, size) ==
              if next == value then Collected(rs[..k], e, value, size)
              else Collected(rs[..k], Binary(if s.AndRule? then And else Or, s.expr, e), next, size + 1)
  {
    hide VAnd, VOr, BinBv;
    assert rs[..k + 1][..k] == rs[..k];
  }

  /** The loop of `collect_expr` over the rules, last one first. */
  method CollectLoop(subexprs: seq<SubExpr>, e: Expr, v: Bv) returns (res: Expr, value: Bv, size: nat)
    requires forall j | 0 <= j < |subexprs| :: |subexprs[j].first| == |v|
    ensures (res, value, size) == Collected(subexprs, e, v, 0)
  {
    hide VAnd, VOr, AndWord, OrWord, BinBv, Collected;
    res, value, size := e, v, 0;
    var k := |subexprs|;
    assert subexprs[..k] == subexprs;
    assert subexprs[..0] == [];
    while k > 0
      invariant 0 <= k <= |subexprs| && |value| == |v|
      invariant Collected(subexprs[..k], res, value, size) == Collected(subexprs, e, v, 0)
    {
      k := k - 1;
      CollectedLast(subexprs, k, res, value, size);
      match subexprs[k]
      case AndRule(c, first) =>
        if VAnd(value, first) != value {
          res, value, size := Binary(And, c, res), VAnd(value, first), size + 1;
        }
      case OrRule(c, first) =>
        if VOr(value, first) != value {
          res, value, size := Binary(Or, c, res), VOr(value, first), size + 1;
        }
    }
    CollectedNone(res, value, size);
  }

  lemma CollectedNone(e: Expr, value: Bv, size: nat)
    ensures Collected([], e, value, size) == (e, value, size)
  {
  }

  class CombineRules {
    const goal: Goal
    var mask: Bv
    var subexprs: seq<SubExpr>

    function State(): Rules
      reads this
    {
      Rules(mask, subexprs)
    }

    ghost predicate Valid()
      reads this
    {
      Inv(goal, State())
    }

    constructor (goal: Goal)
      requires goal.WellFormed()
      ensures Valid() && this.goal == goal && State() == Rules(Splat(goal.n, ONES64), [])
    {
      this.goal := goal;
      mask, subexprs := Splat(goal.n, ONES64), [];
    }

    /** `collect_expr`, whose closing assertion on the tracked value always holds. */
    method CollectExpr(e: Expr, v: Bv) returns (res: Expr, size: nat)
      requires Valid() && EvalBv(e, goal.args, goal.n) == Some(v) && Decides(mask, v, goal.output)
      ensures EvalBv(res, goal.args, goal.n) == Some(goal.output)
      ensures forall j | 0 <= j < |subexprs| :: |subexprs[j].first| == |v|
      ensures (res, goal.output, size) == Collected(subexprs, e, v, 0)
    {
      hide Decides, EvalBv, RulesOk, MaskAfter;
      FirstLengths(goal, subexprs);
      DecidesAgrees(mask, v, goal.output);
      CollectedIsOutput(goal, subexprs, e, v, v, 0);
      var value;
      res, value, size := CollectLoop(subexprs, e, v);
      assert value == goal.output;
    }

    /**
     `test`: updates the rules with a new expression and its value vector, and answers with an expression for
     the output when every undecided bit is right and at most four operators were added.
     */
    method Test(e: Expr, v: Bv, andOk: bool, orOk: bool) returns (r: Option<Expr>)
      requires Valid() && EvalBv(e, goal.args, goal.n) == Some(v)
      modifies this
      ensures Valid() && |subexprs| <= 31
      ensures State() == Tested(goal, old(State()), e, v, andOk, orOk)
      ensures r.Some? ==> EvalBv(r.value, goal.args, goal.n) == Some(goal.output)
      ensures r.Some? ==> FewOperators(r.value, e)
      ensures r.Some? <==> Answers(goal, State(), e, v)
    {
      hide VAnd, VOr, VNot, Decides, BinBv, Count, EvalBv, Implies, RulesOk, MaskAfter, Collected, Wraps, Answers, FewOperators;
      TestKeepsInv(goal, State(), e, v, andOk);
      CountDivides(mask, v);
      var andDecided: nat := Count(mask) - Count(VAnd(mask, v));
      if Implies(v, goal.output) && andDecided > 2 * goal.n && 3 * CountZeros(v) > CountZeros(goal.output) && andOk {
        subexprs := subexprs + [AndRule(e, VOr(VNot(mask), v))];
        mask := VAnd(mask, v);
      }
      TestKeepsInv(goal, State(), e, v, orOk);
      CountDivides(mask, v);
      var orDecided: nat := Count(mask) - Count(VAnd(mask, VNot(v)));
      if Implies(goal.output, v) && orDecided > 2 * goal.n && 3 * Count(v) > Count(goal.output) && orOk {
        subexprs := subexprs + [OrRule(e, VAnd(mask, v))];
        mask := VAnd(mask, VNot(v));
      }
      AtMost31Rules(goal, State());
      r := Answer(e, v);
    }

    /** The closing part of `test`. */
    method Answer(e: Expr, v: Bv) returns (r: Option<Expr>)
      requires Valid() && EvalBv(e, goal.args, goal.n) == Some(v)
      ensures r.Some? ==> EvalBv(r.value, goal.args, goal.n) == Some(goal.output) && FewOperators(r.value, e)
      ensures r.Some? <==> Answers(goal, State(), e, v)
    {
      hide VAnd, VOr, VNot, Decides, BinBv, Count, EvalBv, Implies, RulesOk, MaskAfter, Wraps, Collected;
      r := None;
      if Decides(mask, v, goal.output) {
        var res, size := CollectExpr(e, v);
        CollectedWraps(subexprs, e, e, v, 0) by { WrapsNone(e); }
        if size <= 4 { r := Some(res); }
      }
    }
  }
}
