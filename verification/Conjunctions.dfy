/** From a conjunction of atoms to the regions it describes. */
module Conjunctions {
  import opened Wrappers
  import opened Logic
  import opened Regions
  import Words

  // ---- linear terms ----

  /** A linear term over the first `n` program variables. */
  predicate Linear(t: Term, n: nat) {
    match t
    case Num(_) => true
    case Var(v) => v.Cur? && v.i < n
    case Add(ts) => forall i | 0 <= i < |ts| :: Linear(ts[i], n)
    case Sub(l, r) => Linear(l, n) && Linear(r, n)
    case Mul(l, r) => (l.Num? && Linear(r, n)) || (r.Num? && Linear(l, n))
    case TermIte(_, _, _) => false
  }

  /** A linear form: coefficients and constant. */
  datatype Form = Form(coeff: seq<int>, constTerm: int)

  function FormValue(f: Form, x: State): int
    requires |f.coeff| == |x|
  {
    Dot(f.coeff, x) + f.constTerm
  }

  /** The form computes the value of the term in every state. */
  ghost predicate Computes(f: Form, t: Term, n: nat) {
    |f.coeff| == n && forall x: State | |x| == n :: EvalT(t, EnvOf(x, 0)) == FormValue(f, x)
  }

  function Zeros(n: nat): (z: seq<int>)
    ensures |z| == n
  {
    seq(n, _ => 0)
  }

  function Unit(n: nat, i: nat): (u: seq<int>)
    ensures |u| == n
  {
    seq(n, j => if j == i then 1 else 0)
  }

  /** `a * c + b * d`, componentwise. */
  function Mix(a: int, c: seq<int>, b: int, d: seq<int>): (m: seq<int>)
    requires |c| == |d|
    ensures |m| == |c|
  {
    seq(|c|, i requires 0 <= i < |c| => a * c[i] + b * d[i])
  }

  lemma {:induction false} DotMix(a: int, c: seq<int>, b: int, d: seq<int>, x: State)
    requires |c| == |d| == |x|
    ensures Dot(Mix(a, c, b, d), x) == a * Dot(c, x) + b * Dot(d, x)
  {
    if c != [] {
      DotMix(a, c[1..], b, d[1..], x[1..]);
      assert Mix(a, c, b, d)[1..] == Mix(a, c[1..], b, d[1..]);
      MixHead(a, c[0], b, d[0], x[0], Dot(c[1..], x[1..]), Dot(d[1..], x[1..]));
    }
  }

  lemma MixHead(a: int, c: int, b: int, d: int, x: int, p: int, q: int)
    ensures (a * c + b * d) * x + (a * p + b * q) == a * (c * x + p) + b * (d * x + q)
  {
  }

  lemma {:induction false} DotZeros(c: seq<int>)
    ensures Dot(c, Zeros(|c|)) == 0 == Dot(Zeros(|c|), c)
  {
    if c != [] {
      assert Zeros(|c|)[1..] == Zeros(|c[1..]|);
      DotZeros(c[1..]);
    }
  }

  lemma {:induction false} DotUnit(c: seq<int>, i: nat)
    requires i < |c|
    ensures Dot(c, Unit(|c|, i)) == c[i] == Dot(Unit(|c|, i), c)
  {
    if i == 0 {
      assert Unit(|c|, 0)[1..] == Zeros(|c| - 1);
      DotZeros(c[1..]);
    } else {
      assert Unit(|c|, i)[1..] == Unit(|c| - 1, i - 1);
      DotUnit(c[1..], i - 1);
    }
  }

  /** Every linear term has a form. */
  lemma {:induction false} LinearHasForm(t: Term, n: nat) returns (f: Form)
    requires Linear(t, n)
    ensures Computes(f, t, n)
    decreases t, 1
  {
    hide EnvOf, Dot, Mix;
    match t
    case Num(k) =>
      f := Form(Zeros(n), k);
      forall x: State | |x| == n ensures EvalT(t, EnvOf(x, 0)) == FormValue(f, x) { DotZeros(x); }
    case Var(v) =>
      f := Form(Unit(n, v.i), 0);
      forall x: State | |x| == n ensures EvalT(t, EnvOf(x, 0)) == FormValue(f, x) {
        DotUnit(x, v.i);
        VarValue(v.i, x);
      }
    case Add(ts) => f := SumHasForm(ts, n);
    case Sub(l, r) =>
      var fl := LinearHasForm(l, n);
      var fr := LinearHasForm(r, n);
      f := Form(Mix(1, fl.coeff, -1, fr.coeff), fl.constTerm - fr.constTerm);
      forall x: State | |x| == n ensures EvalT(t, EnvOf(x, 0)) == FormValue(f, x) {
        DotMix(1, fl.coeff, -1, fr.coeff, x);
      }
    case Mul(l, r) =>
      var k, u := if l.Num? && Linear(r, n) then l.n else r.n, if l.Num? && Linear(r, n) then r else l;
      var fu := LinearHasForm(u, n);
      f := Form(Mix(k, fu.coeff, 0, fu.coeff), k * fu.constTerm);
      forall x: State | |x| == n ensures EvalT(t, EnvOf(x, 0)) == FormValue(f, x) {
        DotMix(k, fu.coeff, 0, fu.coeff, x);
        ScaledForm(k, Dot(fu.coeff, x), fu.constTerm);
        assert EvalT(t, EnvOf(x, 0)) == k * EvalT(u, EnvOf(x, 0));
      }
  }

  lemma ScaledForm(k: int, d: int, c: int)
    ensures k * (d + c) == k * d + 0 * d + k * c
  {
  }

  lemma VarValue(i: nat, x: State)
    requires i < |x|
    ensures EvalT(Var(Cur(i)), EnvOf(x, 0)) == x[i]
  {
  }

  lemma {:induction false} SumHasForm(ts: seq<Term>, n: nat) returns (f: Form)
    requires forall i | 0 <= i < |ts| :: Linear(ts[i], n)
    ensures |f.coeff| == n && forall x: State | |x| == n :: Sum(ts, EnvOf(x, 0)) == FormValue(f, x)
    decreases ts, 0
  {
    hide EnvOf;
    if ts == [] {
      f := Form(Zeros(n), 0);
      forall x: State | |x| == n ensures Sum(ts, EnvOf(x, 0)) == FormValue(f, x) { DotZeros(x); }
    } else {
      var fh := LinearHasForm(ts[0], n);
      var ft := SumHasForm(ts[1..], n);
      f := Form(Mix(1, fh.coeff, 1, ft.coeff), fh.constTerm + ft.constTerm);
      forall x: State | |x| == n ensures Sum(ts, EnvOf(x, 0)) == FormValue(f, x) {
        DotMix(1, fh.coeff, 1, ft.coeff, x);
      }
    }
  }

  // ---- recovering the form by evaluation ----

  /** The arrays `from` and `to`: the variables become the `i`-th unit vector, all zeros for `i == n`. */
  function UnitSubst(n: nat, i: nat): Subst {
    map j: nat | j < n :: Cur(j) := Num(if j == i then 1 else 0)
  }

  /** `getCoeff`: the value of the term once its variables are replaced. */
  function GetCoeff(t: Term, n: nat, i: nat): int { EvalT(SubstT(t, UnitSubst(n, i)), EnvOf([], 0)) }

  /** `getConstant`. */
  function GetConstant(t: Term, n: nat): int { GetCoeff(t, n, n) }

  /** `getCoeffArray`. */
  function GetCoeffArray(t: Term, n: nat): (c: seq<int>)
    ensures |c| == n
  {
    seq(n, i requires 0 <= i < n => GetCoeff(t, n, i) - GetConstant(t, n))
  }

  lemma UnitSubstAt(n: nat, i: nat, v: Name)
    ensures v in UnitSubst(n, i) <==> v.Cur? && v.i < n
    ensures v.Cur? && v.i < n ==> UnitSubst(n, i)[v] == Num(if v.i == i then 1 else 0)
  {
  }

  lemma UnitEnv(n: nat, i: nat, v: Name)
    ensures Under(EnvOf([], 0), UnitSubst(n, i)).ints(v) == EnvOf(Unit(n, i), 0).ints(v)
  {
    hide UnitSubst, EnvOf, Under, Unit;
    UnitSubstAt(n, i, v);
    UnderAt(EnvOf([], 0), UnitSubst(n, i), v);
    EnvAt([], v);
    EnvAt(Unit(n, i), v);
    UnitAt(n, i);
  }

  lemma UnderAt(env: Env, s: Subst, v: Name)
    ensures Under(env, s).ints(v) == if v in s then EvalT(s[v], env) else env.ints(v)
  {
  }

  lemma EnvAt(x: State, v: Name)
    ensures EnvOf(x, 0).ints(v) == if v.Cur? && v.i < |x| then x[v.i] else 0
  {
  }

  lemma UnitAt(n: nat, i: nat)
    ensures forall j: nat | j < n :: Unit(n, i)[j] == if j == i then 1 else 0
  {
  }

  lemma GetCoeffIsValue(t: Term, n: nat, i: nat)
    ensures GetCoeff(t, n, i) == EvalT(t, EnvOf(Unit(n, i), 0))
  {
    hide EvalT, SubstT, UnitSubst, Unit;
    var s := UnitSubst(n, i);
    SubstMeaningT(t, s, EnvOf([], 0));
    forall v ensures Under(EnvOf([], 0), s).ints(v) == EnvOf(Unit(n, i), 0).ints(v) { UnitEnv(n, i, v); }
    EvalSameT(t, Under(EnvOf([], 0), s), EnvOf(Unit(n, i), 0));
  }

  /** Evaluating at the unit vectors and at zero recovers the coefficients and the constant of a linear term. */
  lemma CoefficientsAreExact(t: Term, n: nat, x: State)
    requires Linear(t, n) && |x| == n
    ensures EvalT(t, EnvOf(x, 0)) == Dot(GetCoeffArray(t, n), x) + GetConstant(t, n)
  {
    hide EvalT, EnvOf, GetCoeff;
    var f := LinearHasForm(t, n);
    assert Unit(n, n) == Zeros(n);
    GetCoeffIsValue(t, n, n);
    DotZeros(f.coeff);
    forall i | 0 <= i < n ensures GetCoeffArray(t, n)[i] == f.coeff[i] {
      GetCoeffIsValue(t, n, i);
      DotUnit(f.coeff, i);
    }
    assert GetCoeffArray(t, n) == f.coeff;
  }

  // ---- negations ----

  /** A comparison of linear terms or a Boolean constant, under any number of negations. */
  predicate LinearAtom(f: Formula, n: nat) {
    match f
    case True | False => true
    case Cmp(_, l, r) => Linear(l, n) && Linear(r, n)
    case Not(g) => LinearAtom(g, n)
    case _ => false
  }

  function Unnegated(f: Formula): Formula { if f.Not? then Unnegated(f.f) else f }

  function Depth(f: Formula): nat { if f.Not? then Depth(f.f) + 1 else 0 }

  /** The lists `nnCondList` and `neTermList`. */
  datatype Parts = Parts(conds: seq<Formula>, neqs: seq<(Term, Term)>) {
    function Plus(p: Parts): Parts { Parts(conds + p.conds, neqs + p.neqs) }

    predicate At(x: State) {
      && (forall i | 0 <= i < |conds| :: Sat(conds[i], x))
      && (forall i | 0 <= i < |neqs| :: Apart(neqs[i], x))
    }

    predicate Ok(n: nat) {
      && (forall i | 0 <= i < |conds| :: Comparison(conds[i], n))
      && (forall i | 0 <= i < |neqs| :: Linear(neqs[i].0, n) && Linear(neqs[i].1, n))
    }
  }

  predicate Apart(p: (Term, Term), x: State) { EvalT(p.0, EnvOf(x, 0)) != EvalT(p.1, EnvOf(x, 0)) }

  /** A linear inequality. */
  predicate Comparison(c: Formula, n: nat) { c.Cmp? && c.op != Eq && Linear(c.lhs, n) && Linear(c.rhs, n) }

  function Opposite(op: CmpOp): CmpOp
    requires op != Eq
  {
    match op
    case Ge => Lt
    case Gt => Le
    case Lt => Ge
    case Le => Gt
  }

  /** `eliminate_negation`: what one condition adds to the two lists. */
  function EliminateNegation(c: Formula): Parts {
    match c
    case True | False | BoolVar(_) => Parts([], [])
    case Not(inner) =>
      if inner.Not? then EliminateNegation(inner)
      else if !inner.Cmp? then Parts([], [])
      else if inner.op == Eq then Parts([], [(inner.lhs, inner.rhs)])
      else Parts([Cmp(Opposite(inner.op), inner.lhs, inner.rhs)], [])
    case Cmp(op, l, r) => if op == Eq then Parts([Cmp(Le, l, r), Cmp(Ge, l, r)], []) else Parts([c], [])
    case _ => Parts([c], [])
  }

  /** What is left of a condition: constants are dropped, and any number of negations counts as one. */
  predicate Kept(c: Formula, x: State) {
    Unnegated(c) == True || Unnegated(c) == False || (if Depth(c) == 0 then Sat(c, x) else !Sat(Unnegated(c), x))
  }

  /** The conditions of which nothing is lost. */
  predicate Plain(c: Formula) {
    match Unnegated(c)
    case True => Depth(c) % 2 == 0
    case False => Depth(c) % 2 == 1
    case _ => Depth(c) == 0 || Depth(c) % 2 == 1
  }

  lemma {:induction false} EliminateNegationKeeps(c: Formula, n: nat, x: State)
    requires LinearAtom(c, n)
    ensures EliminateNegation(c).Ok(n)
    ensures EliminateNegation(c).At(x) <==> Kept(c, x)
  {
    hide EnvOf, Linear, EvalT;
    if c.Not? && c.f.Not? {
      EliminateNegationKeeps(c.f, n, x);
    } else if c.Not? {
      assert Unnegated(c) == c.f && Depth(c) == 1;
      if c.f.Cmp? && c.f.op != Eq {
        assert EliminateNegation(c).conds[0].op == Opposite(c.f.op);
      } else if c.f.Cmp? {
        assert Apart(EliminateNegation(c).neqs[0], x) <==> !Sat(c.f, x);
      }
    } else if c.Cmp? && c.op == Eq {
      var ps := EliminateNegation(c);
      assert Sat(ps.conds[0], x) && Sat(ps.conds[1], x) <==> Sat(c, x);
    } else if c.Cmp? {
      assert EliminateNegation(c).conds[0] == c;
    }
  }

  lemma {:induction false} DepthIsParity(c: Formula, x: State)
    ensures Sat(c, x) == (Sat(Unnegated(c), x) == (Depth(c) % 2 == 0))
  {
    if c.Not? { DepthIsParity(c.f, x); }
  }

  lemma CoreIsAtom(c: Formula, n: nat)
    requires LinearAtom(c, n)
    ensures Unnegated(c).True? || Unnegated(c).False? || Unnegated(c).Cmp?
  {
  }

  /** A condition keeps its meaning exactly when it has no or an odd number of negations (a constant: when it is true). */
  lemma KeptIsMeaning(c: Formula, n: nat, x: State)
    requires LinearAtom(c, n)
    ensures (Kept(c, x) <==> Sat(c, x)) <==> Plain(c)
  {
    DepthIsParity(c, x);
    CoreIsAtom(c, n);
  }

  /** A condition that is negated twice comes out negated once. */
  lemma DoubleNegationIsLost(t: Term, u: Term, x: State)
    ensures var c := Not(Not(Cmp(Ge, t, u)));
      EliminateNegation(c).conds == [Cmp(Lt, t, u)] && Sat(EliminateNegation(c).conds[0], x) == !Sat(c, x)
  {
    hide EvalT;
    DepthIsParity(Not(Not(Cmp(Ge, t, u))), x);
    var core := Cmp(Ge, t, u);
    assert Unnegated(core) == core && Unnegated(Not(core)) == core && Depth(Not(core)) == 1;
  }

  // ---- disequalities ----

  function Less(p: (Term, Term)): Formula { Cmp(Lt, p.0, p.1) }

  function Greater(p: (Term, Term)): Formula { Cmp(Gt, p.0, p.1) }

  predicate AllAt(fs: seq<Formula>, x: State) { forall i | 0 <= i < |fs| :: Sat(fs[i], x) }

  ghost predicate Comparisons(ls: seq<seq<Formula>>, n: nat) {
    forall i, j | 0 <= i < |ls| && 0 <= j < |ls[i]| :: Comparison(ls[i][j], n)
  }

  /** The lists split the states where all pairs differ: each such state is in exactly one list, the others in none. */
  ghost predicate Splits(ls: seq<seq<Formula>>, neqs: seq<(Term, Term)>) {
    && |ls| == Words.Pow2(|neqs|)
    && (forall x, i | 0 <= i < |ls| && AllAt(ls[i], x) :: AllApart(neqs, x))
    && (forall x | AllApart(neqs, x) :: exists i :: 0 <= i < |ls| && AllAt(ls[i], x))
    && (forall x, i, j | 0 <= i < j < |ls| :: !(AllAt(ls[i], x) && AllAt(ls[j], x)))
  }

  predicate AllApart(neqs: seq<(Term, Term)>, x: State) { forall i | 0 <= i < |neqs| :: Apart(neqs[i], x) }

  lemma AllAtSnoc(fs: seq<Formula>, f: Formula, x: State)
    ensures AllAt(fs + [f], x) <==> AllAt(fs, x) && Sat(f, x)
  {
    var gs := fs + [f];
    if AllAt(gs, x) {
      assert gs[|fs|] == f;
      forall i | 0 <= i < |fs| ensures Sat(fs[i], x) { assert gs[i] == fs[i]; }
    }
  }

  lemma AllApartSnoc(neqs: seq<(Term, Term)>, p: (Term, Term), x: State)
    ensures AllApart(neqs + [p], x) <==> AllApart(neqs, x) && Apart(p, x)
    ensures Apart(p, x) <==> Sat(Less(p), x) || Sat(Greater(p), x)
    ensures !(Sat(Less(p), x) && Sat(Greater(p), x))
  {
    hide EnvOf, EvalT;
    var ps := neqs + [p];
    if AllApart(ps, x) {
      assert ps[|neqs|] == p;
      forall i | 0 <= i < |neqs| ensures Apart(neqs[i], x) { assert ps[i] == neqs[i]; }
    }
  }

  lemma NothingToSplit(ls: seq<seq<Formula>>)
    requires ls == [[]]
    ensures Splits(ls, [])
  {
    hide Sat, Apart, AllAt, AllApart;
    assert |ls| == Words.Pow2(0);
    forall x ensures AllAt(ls[0], x) && AllApart([], x) { NothingHolds(x); }
  }

  lemma NothingHolds(x: State)
    ensures AllAt([], x) && AllApart([], x)
  {
  }

  /** `next` is `ls` with every list once extended by `<` and once, in a second half, by `>`. */
  predicate Doubled(ls: seq<seq<Formula>>, p: (Term, Term), next: seq<seq<Formula>>) {
    && |next| == 2 * |ls|
    && forall i | 0 <= i < |ls| :: next[i] == ls[i] + [Less(p)] && next[|ls| + i] == ls[i] + [Greater(p)]
  }

  function Half(i: nat, m: nat): (k: nat)
    requires i < 2 * m
    ensures k < m
  {
    if i < m then i else i - m
  }

  /** In a doubled list, an entry holds where its origin does, on its own side of the pair. */
  lemma DoubledEntry(ls: seq<seq<Formula>>, p: (Term, Term), next: seq<seq<Formula>>, i: nat, x: State)
    requires Doubled(ls, p, next) && i < |next|
    ensures AllAt(next[i], x) <==> AllAt(ls[Half(i, |ls|)], x) && Sat(if i < |ls| then Less(p) else Greater(p), x)
  {
    var k := Half(i, |ls|);
    assert next[k] == ls[k] + [Less(p)] && next[|ls| + k] == ls[k] + [Greater(p)];
    AllAtSnoc(ls[k], if i < |ls| then Less(p) else Greater(p), x);
  }

  lemma DoubledSplits(ls: seq<seq<Formula>>, neqs: seq<(Term, Term)>, p: (Term, Term), next: seq<seq<Formula>>)
    requires Splits(ls, neqs) && Doubled(ls, p, next)
    ensures Splits(next, neqs + [p])
  {
    hide AllAt, AllApart, Apart, Sat, Doubled, Less, Greater;
    var ps := neqs + [p];
    assert |next| == 2 * |ls| by { DoubledLength(ls, p, next); }
    forall x, i | 0 <= i < |next| && AllAt(next[i], x) ensures AllApart(ps, x) {
      DoubledEntry(ls, p, next, i, x);
      AllApartSnoc(neqs, p, x);
    }
    forall x | AllApart(ps, x) ensures exists i :: 0 <= i < |next| && AllAt(next[i], x) {
      AllApartSnoc(neqs, p, x);
      var k :| 0 <= k < |ls| && AllAt(ls[k], x);
      DoubledEntry(ls, p, next, k, x);
      DoubledEntry(ls, p, next, |ls| + k, x);
    }
    forall x, i, j | 0 <= i < j < |next| ensures !(AllAt(next[i], x) && AllAt(next[j], x)) {
      DoubledEntry(ls, p, next, i, x);
      DoubledEntry(ls, p, next, j, x);
      AllApartSnoc(neqs, p, x);
    }
  }

  lemma DoubledLength(ls: seq<seq<Formula>>, p: (Term, Term), next: seq<seq<Formula>>)
    requires Doubled(ls, p, next)
    ensures |next| == 2 * |ls|
  {
  }

  lemma DoubledComparisons(ls: seq<seq<Formula>>, p: (Term, Term), next: seq<seq<Formula>>, n: nat)
    requires Comparisons(ls, n) && Doubled(ls, p, next) && Linear(p.0, n) && Linear(p.1, n)
    ensures Comparisons(next, n)
  {
    hide Linear;
    forall i, j | 0 <= i < |next| && 0 <= j < |next[i]| ensures Comparison(next[i][j], n) {
      var k := Half(i, |ls|);
      assert next[k] == ls[k] + [Less(p)] && next[|ls| + k] == ls[k] + [Greater(p)];
      if j < |ls[k]| { assert Comparison(ls[k][j], n); }
    }
  }

  /** `construct_neqs_cond`. */
  method ConstructNeqsCond(neqs: seq<(Term, Term)>, ghost n: nat) returns (ls: seq<seq<Formula>>)
    requires forall i | 0 <= i < |neqs| :: Linear(neqs[i].0, n) && Linear(neqs[i].1, n)
    ensures Splits(ls, neqs) && Comparisons(ls, n)
  {
    hide Linear, Comparison, Sat, Apart;
    ls := [[]];
    NothingToSplit(ls);
    for m := 0 to |neqs|
      invariant Splits(ls, neqs[..m]) && Comparisons(ls, n)
    {
      ghost var before := ls;
      var p := neqs[m];
      var size := |ls|;
      for i := 0 to size
        invariant |ls| == size + i
        invariant forall k | 0 <= k < i :: ls[k] == before[k] + [Less(p)] && ls[size + k] == before[k] + [Greater(p)]
        invariant forall k | i <= k < size :: ls[k] == before[k]
      {
        var orig := ls[i];
        ls := ls[i := orig + [Cmp(Lt, p.0, p.1)]] + [orig + [Cmp(Gt, p.0, p.1)]];
      }
      assert Doubled(before, p, ls);
      DoubledSplits(before, neqs[..m], p, ls);
      DoubledComparisons(before, p, ls, n);
      assert neqs[..m + 1] == neqs[..m] + [p];
    }
    assert neqs[..|neqs|] == neqs;
  }

  // ---- normal form of an inequality ----

  /** `normalize`: the inequality as a condition `c . x + k >= 0`. */
  function Normalize(c: Formula, n: nat): (r: Cond)
    requires Comparison(c, n)
    ensures |r.coeff| == n
  {
    var cl, cr := GetCoeffArray(c.lhs, n), GetCoeffArray(c.rhs, n);
    var kl, kr := GetConstant(c.lhs, n), GetConstant(c.rhs, n);
    match c.op
    case Ge => Cond(Mix(1, cl, -1, cr), kl - kr)
    case Gt => Cond(Mix(1, cl, -1, cr), kl - kr - 1)
    case Le => Cond(Mix(1, cr, -1, cl), kr - kl)
    case Lt => Cond(Mix(1, cr, -1, cl), kr - kl - 1)
  }

  lemma NormalizeIsExact(c: Formula, n: nat, x: State)
    requires Comparison(c, n) && |x| == n
    ensures Normalize(c, n).On(x) <==> Sat(c, x)
  {
    hide Linear, EvalT, EnvOf, GetCoeff, GetCoeffArray, GetConstant, Mix, Dot;
    CoefficientsAreExact(c.lhs, n, x);
    CoefficientsAreExact(c.rhs, n, x);
    var cl, cr := GetCoeffArray(c.lhs, n), GetCoeffArray(c.rhs, n);
    DotMix(1, cl, -1, cr, x);
    DotMix(1, cr, -1, cl, x);
  }

  function NormalizeAll(cs: seq<Formula>, n: nat): (r: seq<Cond>)
    requires forall i | 0 <= i < |cs| :: Comparison(cs[i], n)
    ensures |r| == |cs| && Sized(r, n)
  {
    seq(|cs|, i requires 0 <= i < |cs| => Normalize(cs[i], n))
  }

  lemma NormalizeAllIsExact(cs: seq<Formula>, n: nat, x: State)
    requires |x| == n && forall i | 0 <= i < |cs| :: Comparison(cs[i], n)
    ensures InRegion(NormalizeAll(cs, n), x) <==> AllAt(cs, x)
  {
    hide Linear, Sat, Normalize;
    var r := NormalizeAll(cs, n);
    forall i | 0 <= i < |cs| ensures r[i].On(x) <==> Sat(cs[i], x) { NormalizeIsExact(cs[i], n, x); }
  }

  // ---- the conjuncts ----

  /** `isAtom`. */
  predicate IsAtom(f: Formula) {
    match f
    case Not(g) => IsAtom(g)
    case And(_) | Or(_) | Implies(_, _) | Ite(_, _, _) => false
    case _ => true
  }

  /** `hasPrime`: a primed name occurs. */
  predicate HasPrime(f: Formula)
    decreases f
  {
    match f
    case True | False => false
    case BoolVar(b) => b.Primed?
    case Cmp(_, l, r) => HasPrimeT(l) || HasPrimeT(r)
    case Iff(l, r) => HasPrime(l) || HasPrime(r)
    case Not(g) => HasPrime(g)
    case And(fs) => exists i | 0 <= i < |fs| :: HasPrime(fs[i])
    case Or(fs) => exists i | 0 <= i < |fs| :: HasPrime(fs[i])
    case Implies(l, r) => HasPrime(l) || HasPrime(r)
    case Ite(c, t, e) => HasPrime(c) || HasPrime(t) || HasPrime(e)
    case Call(_, ts) => exists i | 0 <= i < |ts| :: HasPrimeT(ts[i])
  }

  predicate HasPrimeT(t: Term)
    decreases t
  {
    match t
    case Num(_) => false
    case Var(v) => v.Primed?
    case Add(ts) => exists i | 0 <= i < |ts| :: HasPrimeT(ts[i])
    case Sub(l, r) => HasPrimeT(l) || HasPrimeT(r)
    case Mul(l, r) => HasPrimeT(l) || HasPrimeT(r)
    case TermIte(c, t, e) => HasPrime(c) || HasPrimeT(t) || HasPrimeT(e)
  }

  /** Linear terms and atoms have unprimed names only. */
  lemma {:induction false} LinearIsUnprimed(t: Term, n: nat)
    requires Linear(t, n)
    ensures !HasPrimeT(t)
  {
    match t
    case Num(_) | Var(_) =>
    case Add(ts) => forall i | 0 <= i < |ts| ensures !HasPrimeT(ts[i]) { LinearIsUnprimed(ts[i], n); }
    case Sub(l, r) =>
      LinearIsUnprimed(l, n);
      LinearIsUnprimed(r, n);
    case Mul(l, r) =>
      assert l.Num? || r.Num?;
      if l.Num? { LinearIsUnprimed(r, n); } else { LinearIsUnprimed(l, n); }
  }

  lemma {:induction false} LinearAtomIsUnprimed(f: Formula, n: nat)
    requires LinearAtom(f, n)
    ensures !HasPrime(f) && IsAtom(f)
  {
    match f
    case True | False =>
    case Cmp(_, l, r) =>
      LinearIsUnprimed(l, n);
      LinearIsUnprimed(r, n);
    case Not(g) => LinearAtomIsUnprimed(g, n);
  }

  /** The interpretations differ at most on primed names. */
  ghost predicate SameUnprimed(a: Env, b: Env) {
    && (forall v: Name | !v.Primed? :: a.ints(v) == b.ints(v) && a.bools(v) == b.bools(v))
    && (forall p, vs :: a.preds(p, vs) == b.preds(p, vs))
  }

  /** What has no primed name says nothing about the state after the step. */
  lemma {:induction false} UnprimedDecides(f: Formula, a: Env, b: Env)
    requires !HasPrime(f) && SameUnprimed(a, b)
    ensures Eval(f, a) == Eval(f, b)
    decreases f, 1
  {
    match f
    case True | False | BoolVar(_) =>
    case Cmp(_, l, r) =>
      UnprimedDecidesT(l, a, b);
      UnprimedDecidesT(r, a, b);
    case Not(g) => UnprimedDecides(g, a, b);
    case And(fs) => forall i | 0 <= i < |fs| ensures Eval(fs[i], a) == Eval(fs[i], b) { UnprimedDecides(fs[i], a, b); }
    case Or(fs) => forall i | 0 <= i < |fs| ensures Eval(fs[i], a) == Eval(fs[i], b) { UnprimedDecides(fs[i], a, b); }
    case Iff(l, r) =>
      UnprimedDecides(l, a, b);
      UnprimedDecides(r, a, b);
    case Implies(l, r) =>
      UnprimedDecides(l, a, b);
      UnprimedDecides(r, a, b);
    case Ite(c, t, e) =>
      UnprimedDecides(c, a, b);
      UnprimedDecides(t, a, b);
      UnprimedDecides(e, a, b);
    case Call(_, ts) =>
      assert forall i | 0 <= i < |ts| :: !HasPrimeT(ts[i]);
      UnprimedDecidesAll(ts, a, b);
  }

  lemma {:induction false} UnprimedDecidesT(t: Term, a: Env, b: Env)
    requires !HasPrimeT(t) && SameUnprimed(a, b)
    ensures EvalT(t, a) == EvalT(t, b)
    decreases t, 1
  {
    match t
    case Num(_) | Var(_) =>
    case Add(ts) =>
      assert forall i | 0 <= i < |ts| :: !HasPrimeT(ts[i]);
      UnprimedDecidesAll(ts, a, b);
    case Sub(l, r) =>
      UnprimedDecidesT(l, a, b);
      UnprimedDecidesT(r, a, b);
    case Mul(l, r) =>
      UnprimedDecidesT(l, a, b);
      UnprimedDecidesT(r, a, b);
    case TermIte(c, t, e) =>
      UnprimedDecides(c, a, b);
      UnprimedDecidesT(t, a, b);
      UnprimedDecidesT(e, a, b);
  }

  lemma {:induction false} UnprimedDecidesAll(ts: seq<Term>, a: Env, b: Env)
    requires (forall i | 0 <= i < |ts| :: !HasPrimeT(ts[i])) && SameUnprimed(a, b)
    ensures Sum(ts, a) == Sum(ts, b) && Values(ts, a) == Values(ts, b)
    decreases ts, 0
  {
    if ts != [] {
      UnprimedDecidesT(ts[0], a, b);
      UnprimedDecidesAll(ts[1..], a, b);
    }
  }

  function Weight(f: Formula): nat
    decreases f, 1
  {
    if f.And? then 1 + Weights(f.fs) else 1
  }

  function Weights(fs: seq<Formula>): nat
    decreases fs, 0
  {
    if fs == [] then 0 else Weight(fs[0]) + Weights(fs[1..])
  }

  lemma {:induction false} WeightsConcat(a: seq<Formula>, b: seq<Formula>)
    ensures Weights(a + b) == Weights(a) + Weights(b)
  {
    if a == [] {
      assert a + b == b;
    } else {
      assert (a + b)[1..] == a[1..] + b;
      WeightsConcat(a[1..], b);
    }
  }

  lemma WeightsHead(fs: seq<Formula>)
    requires fs != []
    ensures Weights(fs[1..]) < Weights(fs)
    ensures fs[0].And? ==> Weights(fs[1..] + fs[0].fs) < Weights(fs)
  {
    assert Weights(fs) == Weight(fs[0]) + Weights(fs[1..]);
    if fs[0].And? { WeightsConcat(fs[1..], fs[0].fs); }
  }

  /** The conjuncts that are not conjunctions themselves, level by level. */
  function Leaves(todo: seq<Formula>): seq<Formula>
    decreases Weights(todo)
  {
    if todo == [] then []
    else
      WeightsHead(todo);
      if todo[0].And? then Leaves(todo[1..] + todo[0].fs) else [todo[0]] + Leaves(todo[1..])
  }

  ghost predicate AllHold(fs: seq<Formula>, env: Env) { forall f | f in fs :: Eval(f, env) }

  lemma AllHoldConcat(a: seq<Formula>, b: seq<Formula>, env: Env)
    ensures AllHold(a + b, env) <==> AllHold(a, env) && AllHold(b, env)
  {
    hide Eval;
    assert forall f :: f in a + b <==> f in a || f in b;
  }

  lemma AllHoldHead(fs: seq<Formula>, env: Env)
    requires fs != []
    ensures AllHold(fs, env) <==> Eval(fs[0], env) && AllHold(fs[1..], env)
  {
    hide Eval;
    assert fs == [fs[0]] + fs[1..];
    AllHoldConcat([fs[0]], fs[1..], env);
  }

  /** The leaves are the conjunction, and none is a conjunction. */
  lemma {:induction false} LeavesMeaning(todo: seq<Formula>, env: Env)
    ensures AllHold(Leaves(todo), env) <==> AllHold(todo, env)
    ensures forall f | f in Leaves(todo) :: !f.And?
    decreases Weights(todo)
  {
    hide AllHold, Eval;
    if todo != [] {
      AllHoldHead(todo, env);
      WeightsHead(todo);
      if todo[0].And? {
        LeavesMeaning(todo[1..] + todo[0].fs, env);
        AllHoldConcat(todo[1..], todo[0].fs, env);
        AndHolds(todo[0], env);
      } else {
        LeavesMeaning(todo[1..], env);
        AllHoldConcat([todo[0]], Leaves(todo[1..]), env);
        AllHoldOne(todo[0], env);
      }
    } else {
      AllHoldNone(env);
    }
  }

  lemma AllHoldNone(env: Env)
    ensures AllHold([], env)
  {
  }

  lemma AllHoldOne(f: Formula, env: Env)
    ensures AllHold([f], env) <==> Eval(f, env)
  {
    hide Eval;
    assert f in [f];
  }

  lemma AndHolds(f: Formula, env: Env)
    requires f.And?
    ensures Eval(f, env) <==> AllHold(f.fs, env)
  {
    hide EvalT, Sum, Values;
    forall g | g in f.fs && Eval(f, env) ensures Eval(g, env) {
      var i :| 0 <= i < |f.fs| && f.fs[i] == g;
    }
  }

  /** The leaves with (or without) primed names, in order. */
  function Select(fs: seq<Formula>, primed: bool): seq<Formula> {
    if fs == [] then []
    else (if HasPrime(fs[0]) == primed then [fs[0]] else []) + Select(fs[1..], primed)
  }

  /** What the conditions, one by one, put on the two lists. */
  function EliminateAll(cs: seq<Formula>): Parts {
    if cs == [] then Parts([], [])
    else EliminateNegation(cs[0]).Plus(EliminateAll(cs[1..]))
  }

  ghost predicate LinearAtoms(cs: seq<Formula>, n: nat) { forall c | c in cs :: LinearAtom(c, n) }

  lemma PlusAt(p: Parts, q: Parts, n: nat, x: State)
    ensures p.Plus(q).At(x) <==> p.At(x) && q.At(x)
    ensures p.Ok(n) && q.Ok(n) ==> p.Plus(q).Ok(n)
  {
    hide Sat, Apart, Comparison, Linear;
    var r := p.Plus(q);
    if r.At(x) {
      forall i | 0 <= i < |p.conds| ensures Sat(p.conds[i], x) { assert r.conds[i] == p.conds[i]; }
      forall i | 0 <= i < |q.conds| ensures Sat(q.conds[i], x) { assert r.conds[|p.conds| + i] == q.conds[i]; }
      forall i | 0 <= i < |p.neqs| ensures Apart(p.neqs[i], x) { assert r.neqs[i] == p.neqs[i]; }
      forall i | 0 <= i < |q.neqs| ensures Apart(q.neqs[i], x) { assert r.neqs[|p.neqs| + i] == q.neqs[i]; }
    }
  }

  predicate AllKept(cs: seq<Formula>, x: State) { forall i | 0 <= i < |cs| :: Kept(cs[i], x) }

  lemma {:induction false} EliminateAllKeeps(cs: seq<Formula>, n: nat, x: State)
    requires LinearAtoms(cs, n)
    ensures EliminateAll(cs).Ok(n)
    ensures EliminateAll(cs).At(x) <==> AllKept(cs, x)
  {
    hide EliminateNegation, LinearAtom, Kept, Parts.Plus;
    if cs != [] {
      EliminateNegationKeeps(cs[0], n, x);
      EliminateAllKeeps(cs[1..], n, x);
      PlusAt(EliminateNegation(cs[0]), EliminateAll(cs[1..]), n, x);
      assert (forall i | 0 <= i < |cs| :: Kept(cs[i], x)) ==> forall i | 0 <= i < |cs[1..]| :: Kept(cs[1..][i], x) by {
        assert forall i | 0 <= i < |cs[1..]| :: cs[1..][i] == cs[i + 1];
      }
      assert (forall i | 0 <= i < |cs[1..]| :: Kept(cs[1..][i], x)) && Kept(cs[0], x) ==> forall i | 0 <= i < |cs| :: Kept(cs[i], x) by {
        assert forall i | 0 < i < |cs| :: cs[i] == cs[1..][i - 1];
      }
    }
  }

  // ---- fromConj ----

  /** The unprimed atoms of a conjunction. */
  function Conditions(conj: Formula): seq<Formula> { Select(Leaves([conj]), false) }

  /** The state is in the region. */
  predicate Contains(r: Region, x: State)
    reads r
  {
    r.Valid() && r.n == |x| && InRegion(r.conds, x)
  }

  ghost predicate InUnion(rs: seq<Region>, x: State)
    reads rs
  {
    exists j :: 0 <= j < |rs| && Contains(rs[j], x)
  }

  /** The common conditions and those of one choice of sides; no condition at all is `0 >= 0`. */
  function RegionConds(base: seq<Formula>, side: seq<Formula>, n: nat): (cs: seq<Cond>)
    requires forall i | 0 <= i < |base| :: Comparison(base[i], n)
    requires forall i | 0 <= i < |side| :: Comparison(side[i], n)
    ensures Sized(cs, n)
  {
    var all := NormalizeAll(base, n) + NormalizeAll(side, n);
    if all == [] then [Cond(Zeros(n), 0)] else all
  }

  lemma RegionCondsAreExact(base: seq<Formula>, side: seq<Formula>, n: nat, x: State)
    requires |x| == n
    requires forall i | 0 <= i < |base| :: Comparison(base[i], n)
    requires forall i | 0 <= i < |side| :: Comparison(side[i], n)
    ensures InRegion(RegionConds(base, side, n), x) <==> AllAt(base, x) && AllAt(side, x)
  {
    hide Comparison, AllAt, NormalizeAll, Sat;
    NormalizeAllIsExact(base, n, x);
    NormalizeAllIsExact(side, n, x);
    InBoth(NormalizeAll(base, n), NormalizeAll(side, n), x);
    DotZeros(x);
  }

  /** The body of the last loop: one region. */
  method MakeRegion(base: seq<Formula>, side: seq<Formula>, n: nat) returns (r: Region)
    requires forall i | 0 <= i < |base| :: Comparison(base[i], n)
    requires forall i | 0 <= i < |side| :: Comparison(side[i], n)
    ensures fresh(r) && r.Valid() && r.n == n
    ensures forall x: State | |x| == n :: Contains(r, x) <==> AllAt(base, x) && AllAt(side, x)
  {
    hide Comparison, AllAt, NormalizeAll, InRegion;
    r := new Region(n);
    var all := NormalizeAll(base, n) + NormalizeAll(side, n);
    for i := 0 to |all|
      invariant r.Valid() && r.n == n && r.conds == all[..i]
    {
      r.AddCond(all[i].coeff, all[i].constTerm);
    }
    if |all| == 0 {
      r.AddCond(Zeros(n), 0);
    }
    assert r.conds == RegionConds(base, side, n);
    forall x: State | |x| == n ensures Contains(r, x) <==> AllAt(base, x) && AllAt(side, x) {
      RegionCondsAreExact(base, side, n, x);
    }
  }

  lemma InBoth(a: seq<Cond>, b: seq<Cond>, x: State)
    requires Sized(a, |x|) && Sized(b, |x|)
    ensures Sized(a + b, |x|)
    ensures InRegion(a + b, x) <==> InRegion(a, x) && InRegion(b, x)
  {
    var c := a + b;
    if InRegion(c, x) {
      forall i | 0 <= i < |a| ensures a[i].On(x) { assert c[i] == a[i]; }
      forall i | 0 <= i < |b| ensures b[i].On(x) { assert c[|a| + i] == b[i]; }
    }
  }

  /** What is sorted so far and what the queue still holds make up the conjunction. */
  ghost predicate Progress(conj: Formula, todo: seq<Formula>, conds: seq<Formula>, nonConds: seq<Formula>) {
    && (forall f | f in Leaves([conj]) :: f in Leaves(todo) || IsAtom(f))
    && (forall f | f in Leaves(todo) :: f in Leaves([conj]))
    && nonConds + Select(Leaves(todo), true) == Select(Leaves([conj]), true)
    && conds + Select(Leaves(todo), false) == Select(Leaves([conj]), false)
  }

  lemma ProgressNext(conj: Formula, todo: seq<Formula>, conds: seq<Formula>, nonConds: seq<Formula>)
    requires Progress(conj, todo, conds, nonConds) && todo != [] && !todo[0].And?
    ensures !IsAtom(todo[0]) ==> exists f :: f in Leaves([conj]) && !IsAtom(f)
    ensures IsAtom(todo[0]) && HasPrime(todo[0]) ==> Progress(conj, todo[1..], conds, nonConds + [todo[0]])
    ensures IsAtom(todo[0]) && !HasPrime(todo[0]) ==> Progress(conj, todo[1..], conds + [todo[0]], nonConds)
  {
    hide IsAtom, HasPrime, Leaves, Select;
    LeavesHead(todo);
    SelectHead(todo[0], Leaves(todo[1..]));
    var rest := Leaves(todo[1..]);
    assert nonConds + ([todo[0]] + Select(rest, true)) == nonConds + [todo[0]] + Select(rest, true);
    assert conds + ([todo[0]] + Select(rest, false)) == conds + [todo[0]] + Select(rest, false);
    assert todo[0] in Leaves(todo);
  }

  lemma ProgressDone(conj: Formula, conds: seq<Formula>, nonConds: seq<Formula>)
    requires Progress(conj, [], conds, nonConds)
    ensures forall f | f in Leaves([conj]) :: IsAtom(f)
    ensures conds == Conditions(conj) && nonConds == Select(Leaves([conj]), true)
  {
    hide IsAtom;
    NothingLeft();
  }

  /** The queue loop: the conjuncts sorted into conditions and others; `ok` is false where one is no atom. */
  method Flatten(conj: Formula) returns (ok: bool, conds: seq<Formula>, nonConds: seq<Formula>)
    ensures !ok <==> exists f :: f in Leaves([conj]) && !IsAtom(f)
    ensures ok ==> conds == Conditions(conj) && nonConds == Select(Leaves([conj]), true)
  {
    hide IsAtom, HasPrime, Leaves, Select, Weights, Conditions, Progress;
    var todo := [conj];
    conds, nonConds := [], [];
    ProgressStart(conj);
    while todo != []
      invariant Progress(conj, todo, conds, nonConds)
      decreases Weights(todo)
    {
      var expr := todo[0];
      WeightsHead(todo);
      if expr.And? {
        ProgressAnd(conj, todo, conds, nonConds);
        todo := todo[1..] + expr.fs;
        continue;
      }
      ProgressNext(conj, todo, conds, nonConds);
      todo := todo[1..];
      if IsAtom(expr) {
        if HasPrime(expr) {
          nonConds := nonConds + [expr];
        } else {
          conds := conds + [expr];
        }
      } else {
        return false, conds, nonConds;
      }
    }
    ProgressDone(conj, conds, nonConds);
    ok := true;
  }

  lemma ProgressStart(conj: Formula)
    ensures Progress(conj, [conj], [], [])
  {
  }

  lemma ProgressAnd(conj: Formula, todo: seq<Formula>, conds: seq<Formula>, nonConds: seq<Formula>)
    requires Progress(conj, todo, conds, nonConds) && todo != [] && todo[0].And?
    ensures Progress(conj, todo[1..] + todo[0].fs, conds, nonConds)
  {
    hide IsAtom, HasPrime, Leaves, Select;
    LeavesHead(todo);
  }

  lemma NothingLeft()
    ensures Leaves([]) == [] && forall p :: Select([], p) == []
  {
  }

  lemma LeavesHead(todo: seq<Formula>)
    requires todo != []
    ensures Leaves(todo) == if todo[0].And? then Leaves(todo[1..] + todo[0].fs) else [todo[0]] + Leaves(todo[1..])
  {
  }

  lemma SelectHead(f: Formula, fs: seq<Formula>)
    ensures forall p :: Select([f] + fs, p) == (if HasPrime(f) == p then [f] else []) + Select(fs, p)
  {
    assert ([f] + fs)[1..] == fs;
  }

  /** The loop over the conditions. */
  method EliminateNegations(conds: seq<Formula>) returns (parts: Parts)
    ensures parts == EliminateAll(conds)
  {
    hide EliminateNegation, Parts.Plus;
    parts := Parts([], []);
    PlusNothing(EliminateAll(conds));
    assert conds[0..] == conds;
    for i := 0 to |conds|
      invariant parts.Plus(EliminateAll(conds[i..])) == EliminateAll(conds)
    {
      assert conds[i..][1..] == conds[i + 1..];
      PlusAssociates(parts, EliminateNegation(conds[i]), EliminateAll(conds[i + 1..]));
      parts := parts.Plus(EliminateNegation(conds[i]));
    }
    PlusNothing(parts);
  }

  lemma PlusNothing(p: Parts)
    ensures p.Plus(Parts([], [])) == p == Parts([], []).Plus(p)
  {
  }

  /** The regions of what the two lists say: one for each choice of sides. */
  method MakeRegions(parts: Parts, n: nat) returns (rs: seq<Region>)
    requires parts.Ok(n)
    ensures |rs| == Words.Pow2(|parts.neqs|)
    ensures forall j | 0 <= j < |rs| :: fresh(rs[j]) && rs[j].Valid() && rs[j].n == n
    ensures forall x: State | |x| == n :: InUnion(rs, x) <==> parts.At(x)
    ensures forall x: State, i, j | |x| == n && 0 <= i < j < |rs| :: !(Contains(rs[i], x) && Contains(rs[j], x))
  {
    hide Linear, Sat, AllAt, AllApart, Apart, Comparison, Contains;
    var sides := ConstructNeqsCond(parts.neqs, n);
    rs := [];
    for j := 0 to |sides|
      invariant |rs| == j
      invariant forall k | 0 <= k < j :: fresh(rs[k]) && rs[k].Valid() && rs[k].n == n
      invariant forall k, x: State | 0 <= k < j && |x| == n :: Contains(rs[k], x) <==> AllAt(parts.conds, x) && AllAt(sides[k], x)
    {
      assert forall i | 0 <= i < |sides[j]| :: Comparison(sides[j][i], n);
      var region := MakeRegion(parts.conds, sides[j], n);
      rs := rs + [region];
    }
    forall x: State | |x| == n ensures InUnion(rs, x) <==> parts.At(x) {
      AtIsBoth(parts, x);
      if parts.At(x) {
        var k :| 0 <= k < |sides| && AllAt(sides[k], x);
        assert Contains(rs[k], x);
      }
    }
  }

  /** `fromConj`: the regions of the unprimed atoms, and the primed atoms; `None` where a conjunct is no atom. */
  method FromConj(conj: Formula, n: nat) returns (r: Option<seq<Region>>, nonConds: seq<Formula>)
    requires LinearAtoms(Conditions(conj), n)
    ensures r.None? <==> exists f :: f in Leaves([conj]) && !IsAtom(f)
    ensures r.Some? ==> nonConds == Select(Leaves([conj]), true)
    ensures r.Some? ==> |r.value| == Words.Pow2(|EliminateAll(Conditions(conj)).neqs|)
    ensures r.Some? ==> forall j | 0 <= j < |r.value| :: fresh(r.value[j]) && r.value[j].Valid() && r.value[j].n == n
    ensures r.Some? ==> forall x: State | |x| == n :: InUnion(r.value, x) <==> AllKept(Conditions(conj), x)
    ensures r.Some? ==> forall x: State, i, j | |x| == n && 0 <= i < j < |r.value| :: !(Contains(r.value[i], x) && Contains(r.value[j], x))
  {
    hide IsAtom, LinearAtoms, AllKept, Leaves, EliminateAll, InUnion, Contains, Parts.At, Parts.Ok;
    var ok, conds, others := Flatten(conj);
    nonConds := others;
    if !ok { return None, nonConds; }
    EliminateAllOk(conds, n);
    var parts := EliminateNegations(conds);
    var rs := MakeRegions(parts, n);
    r := Some(rs);
    forall x: State | |x| == n ensures InUnion(rs, x) <==> AllKept(conds, x) { EliminateAllKeeps(conds, n, x); }
  }

  lemma AtIsBoth(p: Parts, x: State)
    ensures p.At(x) <==> AllAt(p.conds, x) && AllApart(p.neqs, x)
  {
  }

  lemma PlusAssociates(p: Parts, q: Parts, r: Parts)
    ensures p.Plus(q).Plus(r) == p.Plus(q.Plus(r))
  {
    assert p.conds + q.conds + r.conds == p.conds + (q.conds + r.conds);
    assert p.neqs + q.neqs + r.neqs == p.neqs + (q.neqs + r.neqs);
  }

  lemma EliminateAllOk(cs: seq<Formula>, n: nat)
    requires LinearAtoms(cs, n)
    ensures EliminateAll(cs).Ok(n)
  {
    EliminateAllKeeps(cs, n, seq(n, _ => 0));
  }

  /** Plain conditions lose nothing: what the regions are built from is the truth of every unprimed atom. */
  lemma PlainConjunction(conj: Formula, n: nat, x: State)
    requires LinearAtoms(Conditions(conj), n)
    requires forall c | c in Conditions(conj) :: Plain(c)
    requires Select(Leaves([conj]), true) == []
    ensures Sat(conj, x) <==> AllKept(Conditions(conj), x)
  {
    hide Eval, Kept, Plain, LinearAtom, EnvOf, HasPrime;
    var cs := Conditions(conj);
    LeavesMeaning([conj], EnvOf(x, 0));
    AllHoldOne(conj, EnvOf(x, 0));
    SelectAll(Leaves([conj]));
    forall i | 0 <= i < |cs| ensures Kept(cs[i], x) <==> Eval(cs[i], EnvOf(x, 0)) { KeptIsMeaning(cs[i], n, x); }
  }

  lemma {:induction false} SelectAll(fs: seq<Formula>)
    requires Select(fs, true) == []
    ensures Select(fs, false) == fs
  {
    if fs != [] { SelectAll(fs[1..]); }
  }

  lemma {:induction false} SelectKeeps(fs: seq<Formula>, f: Formula, primed: bool)
    ensures f in Select(fs, primed) <==> f in fs && HasPrime(f) == primed
  {
    hide HasPrime;
    if fs != [] { SelectKeeps(fs[1..], f, primed); }
  }

  /** Every conjunct that is a linear atom becomes a condition, and no condition depends on the state after the step. */
  lemma ConditionsAreUnprimed(conj: Formula, n: nat, f: Formula)
    requires f in Leaves([conj])
    ensures LinearAtom(f, n) ==> f in Conditions(conj)
    ensures f in Conditions(conj) || f in Select(Leaves([conj]), true)
    ensures f in Conditions(conj) ==> forall a, b | SameUnprimed(a, b) :: Eval(f, a) == Eval(f, b)
  {
    hide HasPrime, Leaves, Select, SameUnprimed, Eval;
    SelectKeeps(Leaves([conj]), f, false);
    SelectKeeps(Leaves([conj]), f, true);
    if LinearAtom(f, n) { LinearAtomIsUnprimed(f, n); }
    if f in Conditions(conj) {
      forall a, b | SameUnprimed(a, b) ensures Eval(f, a) == Eval(f, b) { UnprimedDecides(f, a, b); }
    }
  }
}
