/** Single-invocation synthesis: boundary candidates and the conditional chain made from them. */
module SingleInvocation {
  import opened Wrappers
  import opened Logic
  import Pushing

  /** The value of the function to find; every call has the same arguments, so one name stands for all. */
  const F: Name := Aux("f")

  /** The interpretation in which the function has value `v`. */
  function With(env: Env, v: int): Env { Env((n: Name) => if n == F then v else env.ints(n), env.bools, env.preds) }

  // ---- formulas without the function ----

  predicate Free(f: Formula)
    decreases f
  {
    match f
    case True | False | BoolVar(_) => true
    case Cmp(_, l, r) => FreeT(l) && FreeT(r)
    case Iff(l, r) => Free(l) && Free(r)
    case Not(g) => Free(g)
    case And(fs) => forall i | 0 <= i < |fs| :: Free(fs[i])
    case Or(fs) => forall i | 0 <= i < |fs| :: Free(fs[i])
    case Implies(l, r) => Free(l) && Free(r)
    case Ite(c, t, e) => Free(c) && Free(t) && Free(e)
    case Call(_, ts) => forall i | 0 <= i < |ts| :: FreeT(ts[i])
  }

  predicate FreeT(t: Term)
    decreases t
  {
    match t
    case Num(_) => true
    case Var(v) => v != F
    case Add(ts) => forall i | 0 <= i < |ts| :: FreeT(ts[i])
    case Sub(l, r) => FreeT(l) && FreeT(r)
    case Mul(l, r) => FreeT(l) && FreeT(r)
    case TermIte(c, u, e) => Free(c) && FreeT(u) && FreeT(e)
  }

  lemma {:induction false} FreeValue(f: Formula, env: Env, v: int)
    requires Free(f)
    ensures Eval(f, With(env, v)) == Eval(f, env)
    decreases f, 1
  {
    match f
    case True | False | BoolVar(_) =>
    case Cmp(_, l, r) =>
      FreeValueT(l, env, v);
      FreeValueT(r, env, v);
    case Iff(l, r) =>
      FreeValue(l, env, v);
      FreeValue(r, env, v);
    case Not(g) => FreeValue(g, env, v);
    case And(fs) => forall i | 0 <= i < |fs| ensures Eval(fs[i], With(env, v)) == Eval(fs[i], env) { FreeValue(fs[i], env, v); }
    case Or(fs) => forall i | 0 <= i < |fs| ensures Eval(fs[i], With(env, v)) == Eval(fs[i], env) { FreeValue(fs[i], env, v); }
    case Implies(l, r) =>
      FreeValue(l, env, v);
      FreeValue(r, env, v);
    case Ite(c, t, e) =>
      FreeValue(c, env, v);
      FreeValue(t, env, v);
      FreeValue(e, env, v);
    case Call(_, ts) => FreeSum(ts, env, v);
  }

  lemma {:induction false} FreeValueT(t: Term, env: Env, v: int)
    requires FreeT(t)
    ensures EvalT(t, With(env, v)) == EvalT(t, env)
    decreases t, 1
  {
    match t
    case Num(_) =>
    case Var(_) =>
    case Add(ts) => FreeSum(ts, env, v);
    case Sub(l, r) =>
      FreeValueT(l, env, v);
      FreeValueT(r, env, v);
    case Mul(l, r) =>
      FreeValueT(l, env, v);
      FreeValueT(r, env, v);
    case TermIte(c, u, e) =>
      FreeValue(c, env, v);
      FreeValueT(u, env, v);
      FreeValueT(e, env, v);
  }

  lemma {:induction false} FreeSum(ts: seq<Term>, env: Env, v: int)
    requires forall i | 0 <= i < |ts| :: FreeT(ts[i])
    ensures Sum(ts, With(env, v)) == Sum(ts, env) && Values(ts, With(env, v)) == Values(ts, env)
    decreases ts, 0
  {
    if ts != [] {
      FreeValueT(ts[0], env, v);
      FreeSum(ts[1..], env, v);
    }
  }

  /** Replacing the function by a term without it leaves no occurrence. */
  lemma {:induction false} SubstFree(f: Formula, c: Term)
    requires FreeT(c)
    ensures Free(SubstF(f, map[F := c]))
    decreases f
  {
    match f
    case True | False | BoolVar(_) =>
    case Cmp(_, l, r) => SubstFreeT(l, c); SubstFreeT(r, c);
    case Iff(l, r) => SubstFree(l, c); SubstFree(r, c);
    case Not(g) => SubstFree(g, c);
    case And(fs) => forall i | 0 <= i < |fs| ensures Free(SubstF(fs[i], map[F := c])) { SubstFree(fs[i], c); }
    case Or(fs) => forall i | 0 <= i < |fs| ensures Free(SubstF(fs[i], map[F := c])) { SubstFree(fs[i], c); }
    case Implies(l, r) => SubstFree(l, c); SubstFree(r, c);
    case Ite(d, t, e) => SubstFree(d, c); SubstFree(t, c); SubstFree(e, c);
    case Call(_, ts) => forall i | 0 <= i < |ts| ensures FreeT(SubstT(ts[i], map[F := c])) { SubstFreeT(ts[i], c); }
  }

  lemma {:induction false} SubstFreeT(t: Term, c: Term)
    requires FreeT(c)
    ensures FreeT(SubstT(t, map[F := c]))
    decreases t
  {
    match t
    case Num(_) =>
    case Var(_) =>
    case Add(ts) => forall i | 0 <= i < |ts| ensures FreeT(SubstT(ts[i], map[F := c])) { SubstFreeT(ts[i], c); }
    case Sub(l, r) => SubstFreeT(l, c); SubstFreeT(r, c);
    case Mul(l, r) => SubstFreeT(l, c); SubstFreeT(r, c);
    case TermIte(d, u, e) => SubstFree(d, c); SubstFreeT(u, c); SubstFreeT(e, c);
  }

  // ---- constraints ----

  /** The arguments of a logical operator. */
  function Args(f: Formula): (r: seq<Formula>)
    ensures forall i | 0 <= i < |r| :: r[i] < f
  {
    match f
    case Not(g) => [g]
    case And(fs) => fs
    case Or(fs) => fs
    case Implies(l, r) => [l, r]
    case Ite(c, t, e) => [c, t, e]
    case _ => []
  }

  /** The operator with other arguments. */
  function Update(f: Formula, args: seq<Formula>): Formula
    requires |args| == |Args(f)|
  {
    match f
    case Not(_) => Not(args[0])
    case And(_) => And(args)
    case Or(_) => Or(args)
    case Implies(_, _) => Implies(args[0], args[1])
    case Ite(_, _, _) => Ite(args[0], args[1], args[2])
    case _ => f
  }

  /** Built from comparisons, Boolean variables and constants by the logical operators. */
  predicate Constraint(f: Formula)
    decreases f
  {
    !f.Iff? && !f.Call? && forall i | 0 <= i < |Args(f)| :: Constraint(Args(f)[i])
  }

  /** The comparisons. */
  function Atoms(f: Formula): (s: set<Formula>)
    ensures forall a | a in s :: a.Cmp?
    decreases f
  {
    if f.Cmp? then {f} else set i, a | 0 <= i < |Args(f)| && a in Atoms(Args(f)[i]) :: a
  }

  lemma AtomsOfArg(f: Formula, i: nat)
    requires i < |Args(f)|
    ensures Atoms(Args(f)[i]) <= Atoms(f)
  {
  }

  /** Of an operator, only the truth of the arguments matters. */
  lemma UpdateMeaning(f: Formula, args: seq<Formula>, env: Env, env': Env)
    requires !f.Cmp? && !f.Iff? && !f.Call? && |args| == |Args(f)| && env.bools == env'.bools
    requires forall i | 0 <= i < |args| :: Eval(args[i], env') == Eval(Args(f)[i], env)
    ensures Eval(Update(f, args), env') == Eval(f, env)
  {
    match f
    case Not(g) => assert Args(f)[0] == g;
    case Implies(l, r) => assert Args(f)[0] == l && Args(f)[1] == r;
    case Ite(c, t, e) => assert Args(f)[0] == c && Args(f)[1] == t && Args(f)[2] == e;
    case _ =>
  }

  lemma UpdateSame(f: Formula)
    ensures Update(f, Args(f)) == f
  {
  }

  /** The function, or a multiple of it. */
  predicate IsCall(t: Term) { t == Var(F) || (t.Mul? && t.l.Num? && t.r == Var(F)) }

  /** The function stands alone on the right, if at all. */
  predicate NormalAtom(a: Formula) { a.Cmp? && FreeT(a.lhs) && (IsCall(a.rhs) || FreeT(a.rhs)) }

  /** The value of the function does not matter. */
  ghost predicate Steady(a: Formula) { forall env, w :: Eval(a, With(env, w)) == Eval(a, env) }

  lemma FreeIsSteady(a: Formula)
    requires Free(a)
    ensures Steady(a)
  {
    forall env, w ensures Eval(a, With(env, w)) == Eval(a, env) { FreeValue(a, env, w); }
  }

  // ---- the candidates ----

  /** The value at which the comparison of `left` with the function just holds. */
  function Bound(op: CmpOp, left: Term): Term {
    match op
    case Ge | Le | Eq => left
    case Gt => Sub(left, Num(1))
    case Lt => Add([left, Num(1)])
  }

  /** The candidate one comparison contributes. */
  function AtomCandidates(op: CmpOp, left: Term, right: Term): set<Term> {
    if right == Var(F) then {Bound(op, left)}
    else if right.Mul? && right.r == Var(F) && right.l == Num(-1) then {Mul(Num(-1), Bound(op, left))}
    else {}
  }

  predicate AtomFails(right: Term) { right.Mul? && right.r == Var(F) && right.l != Num(-1) }

  /** The terms a scan adds. */
  function Found(f: Formula): set<Term>
    decreases f, 1
  {
    match f
    case True | False | BoolVar(_) => {}
    case Cmp(op, l, r) => AtomCandidates(op, l, r) + FoundT(l) + FoundT(r)
    case Iff(l, r) => Found(l) + Found(r)
    case Not(g) => Found(g)
    case And(fs) => FoundAll(fs)
    case Or(fs) => FoundAll(fs)
    case Implies(l, r) => Found(l) + Found(r)
    case Ite(c, t, e) => Found(c) + Found(t) + Found(e)
    case Call(_, ts) => FoundTs(ts)
  }

  function FoundAll(fs: seq<Formula>): set<Term>
    decreases fs, 0
  {
    if fs == [] then {} else Found(fs[0]) + FoundAll(fs[1..])
  }

  function FoundT(t: Term): set<Term>
    decreases t, 1
  {
    match t
    case Num(_) | Var(_) => {}
    case Add(ts) => FoundTs(ts)
    case Sub(l, r) => FoundT(l) + FoundT(r)
    case Mul(l, r) => FoundT(l) + FoundT(r)
    case TermIte(c, u, e) => Found(c) + FoundT(u) + FoundT(e)
  }

  function FoundTs(ts: seq<Term>): set<Term>
    decreases ts, 0
  {
    if ts == [] then {} else FoundT(ts[0]) + FoundTs(ts[1..])
  }

  /** A scan meets a multiple of the function other than its negation. */
  predicate Fails(f: Formula)
    decreases f, 1
  {
    match f
    case True | False | BoolVar(_) => false
    case Cmp(op, l, r) => AtomFails(r) || FailsT(l) || FailsT(r)
    case Iff(l, r) => Fails(l) || Fails(r)
    case Not(g) => Fails(g)
    case And(fs) => FailsAll(fs)
    case Or(fs) => FailsAll(fs)
    case Implies(l, r) => Fails(l) || Fails(r)
    case Ite(c, t, e) => Fails(c) || Fails(t) || Fails(e)
    case Call(_, ts) => FailsTs(ts)
  }

  predicate FailsAll(fs: seq<Formula>)
    decreases fs, 0
  {
    fs != [] && (Fails(fs[0]) || FailsAll(fs[1..]))
  }

  predicate FailsT(t: Term)
    decreases t, 1
  {
    match t
    case Num(_) | Var(_) => false
    case Add(ts) => FailsTs(ts)
    case Sub(l, r) => FailsT(l) || FailsT(r)
    case Mul(l, r) => FailsT(l) || FailsT(r)
    case TermIte(c, u, e) => Fails(c) || FailsT(u) || FailsT(e)
  }

  predicate FailsTs(ts: seq<Term>)
    decreases ts, 0
  {
    ts != [] && (FailsT(ts[0]) || FailsTs(ts[1..]))
  }

  /** A scan finds nothing where the function does not occur. */
  lemma {:induction false} FreeFinds(f: Formula)
    requires Free(f)
    ensures Found(f) == {} && !Fails(f)
    decreases f, 1
  {
    match f
    case True | False | BoolVar(_) =>
    case Cmp(_, l, r) => FreeFindsT(l); FreeFindsT(r); FreeIsNoCall(r);
    case Iff(l, r) => FreeFinds(l); FreeFinds(r);
    case Not(g) => FreeFinds(g);
    case And(fs) => FreeFindsAll(fs);
    case Or(fs) => FreeFindsAll(fs);
    case Implies(l, r) => FreeFinds(l); FreeFinds(r);
    case Ite(c, t, e) => FreeFinds(c); FreeFinds(t); FreeFinds(e);
    case Call(_, ts) => FreeFindsTs(ts);
  }

  lemma FreeIsNoCall(t: Term)
    requires FreeT(t)
    ensures !IsCall(t) && !AtomFails(t) && t != Var(F)
  {
    assert !FreeT(Var(F));
  }

  lemma {:induction false} FreeFindsAll(fs: seq<Formula>)
    requires forall i | 0 <= i < |fs| :: Free(fs[i])
    ensures FoundAll(fs) == {} && !FailsAll(fs)
    decreases fs, 0
  {
    if fs != [] {
      FreeFinds(fs[0]);
      FreeFindsAll(fs[1..]);
    }
  }

  lemma {:induction false} FreeFindsT(t: Term)
    requires FreeT(t)
    ensures FoundT(t) == {} && !FailsT(t)
    decreases t, 1
  {
    match t
    case Num(_) =>
    case Var(_) =>
    case Add(ts) => FreeFindsTs(ts);
    case Sub(l, r) => FreeFindsT(l); FreeFindsT(r);
    case Mul(l, r) => FreeFindsT(l); FreeFindsT(r);
    case TermIte(c, u, e) => FreeFinds(c); FreeFindsT(u); FreeFindsT(e);
  }

  lemma {:induction false} FreeFindsTs(ts: seq<Term>)
    requires forall i | 0 <= i < |ts| :: FreeT(ts[i])
    ensures FoundTs(ts) == {} && !FailsTs(ts)
    decreases ts, 0
  {
    if ts != [] {
      FreeFindsT(ts[0]);
      FreeFindsTs(ts[1..]);
    }
  }

  // ---- small witnesses ----

  /** Where the function occurs, the comparison is an interval with the candidate at its end. */
  datatype Side = Below | Above | Exact | Anywhere

  function SideOf(a: Formula): Side
    requires NormalAtom(a)
  {
    if !IsCall(a.rhs) then Anywhere
    else if a.op == Eq then Exact
    else if (a.op == Ge || a.op == Gt) == (a.rhs == Var(F)) then Below
    else Above
  }

  function CandidateOf(a: Formula): Term
    requires a.Cmp?
  {
    if a.rhs == Var(F) then Bound(a.op, a.lhs) else Mul(Num(-1), Bound(a.op, a.lhs))
  }

  function CandidateValue(a: Formula, env: Env): int
    requires a.Cmp?
  {
    EvalT(CandidateOf(a), env)
  }

  /** The comparison can be scanned: the function occurs as itself or negated. */
  predicate Usable(a: Formula) { NormalAtom(a) && !AtomFails(a.rhs) }

  lemma BoundValue(op: CmpOp, l: Term, env: Env)
    ensures EvalT(Bound(op, l), env) == EvalT(l, env) + (match op case Gt => -1 case Lt => 1 case _ => 0)
  {
    if op == Lt {
      var ts := [l, Num(1)];
      assert ts[1..] == [Num(1)] && ts[1..][1..] == [];
      assert Sum(ts[1..], env) == 1;
    }
  }

  lemma AtomIsInterval(a: Formula, env: Env, w: int)
    requires Usable(a)
    ensures match SideOf(a)
      case Below => Eval(a, With(env, w)) <==> w <= CandidateValue(a, env)
      case Above => Eval(a, With(env, w)) <==> w >= CandidateValue(a, env)
      case Exact => Eval(a, With(env, w)) <==> w == CandidateValue(a, env)
      case Anywhere => Eval(a, With(env, w)) == Eval(a, env)
  {
    hide FreeT, Bound;
    FreeValueT(a.lhs, env, w);
    BoundValue(a.op, a.lhs, env);
    if IsCall(a.rhs) {
      assert EvalT(Var(F), With(env, w)) == w;
      if a.rhs != Var(F) {
        assert EvalT(a.rhs, With(env, w)) == -w;
        assert EvalT(CandidateOf(a), env) == -EvalT(Bound(a.op, a.lhs), env);
      }
    } else {
      FreeValueT(a.rhs, env, w);
    }
  }

  /** The comparison bounds the function, and a scan finds where. */
  predicate Bounding(a: Formula) { Usable(a) && IsCall(a.rhs) }

  /** Every comparison can be scanned or does not depend on the function. */
  ghost predicate Tame(f: Formula) { Constraint(f) && forall a | a in Atoms(f) :: Usable(a) || Steady(a) }

  /** The candidates of the comparisons that bound the function. */
  function Candidates(f: Formula): set<Term> { set a | a in Atoms(f) && Bounding(a) :: CandidateOf(a) }

  /** Two values lie on the same side of every candidate. */
  ghost predicate Alike(f: Formula, env: Env, v: int, w: int) {
    forall c | c in Candidates(f) :: (v < EvalT(c, env) <==> w < EvalT(c, env)) && (v == EvalT(c, env) <==> w == EvalT(c, env))
  }

  lemma {:induction false} AlikeMeansSame(f: Formula, env: Env, v: int, w: int)
    requires Tame(f) && Alike(f, env, v, w)
    ensures Eval(f, With(env, v)) == Eval(f, With(env, w))
    decreases f
  {
    hide Eval, EvalT, CandidateOf, Steady, Usable, Bounding;
    if f.Cmp? {
      AlikeAtom(f, env, v, w);
    } else {
      forall i | 0 <= i < |Args(f)| ensures Eval(Args(f)[i], With(env, v)) == Eval(Args(f)[i], With(env, w)) {
        AtomsOfArg(f, i);
        AlikeMeansSame(Args(f)[i], env, v, w);
      }
      UpdateMeaning(f, Args(f), With(env, v), With(env, w));
      UpdateSame(f);
    }
  }

  lemma AlikeAtom(a: Formula, env: Env, v: int, w: int)
    requires a.Cmp? && (Usable(a) || Steady(a)) && Alike(a, env, v, w)
    ensures Eval(a, With(env, v)) == Eval(a, With(env, w))
  {
    hide Eval, EvalT, CandidateOf, With;
    if Steady(a) {
      assert Eval(a, With(env, v)) == Eval(a, env) == Eval(a, With(env, w));
    } else {
      AtomIsInterval(a, env, v);
      AtomIsInterval(a, env, w);
      if SideOf(a) != Anywhere { assert CandidateOf(a) in Candidates(a); }
    }
  }

  /** Among finitely many terms one has the greatest (for `up`) or least value. */
  lemma {:induction false} Extreme(s: set<Term>, env: Env, up: bool) returns (m: Term)
    requires s != {}
    ensures m in s && forall c | c in s :: if up then EvalT(c, env) <= EvalT(m, env) else EvalT(c, env) >= EvalT(m, env)
  {
    hide EvalT;
    var c :| c in s;
    if s == {c} {
      m := c;
    } else {
      var rest := s - {c};
      assert s == rest + {c};
      var r := Extreme(rest, env, up);
      m := if (EvalT(c, env) > EvalT(r, env)) == up then c else r;
    }
  }

  predicate Near(c: Term, env: Env, w: int) { EvalT(c, env) - 1 <= w <= EvalT(c, env) + 1 }

  /** If any value satisfies the constraint, then zero or a value next to a candidate does. */
  lemma NearWitness(f: Formula, env: Env, v: int) returns (w: int)
    requires Tame(f) && Eval(f, With(env, v))
    ensures Eval(f, With(env, w))
    ensures w == 0 || exists c :: c in Candidates(f) && Near(c, env, w)
  {
    hide Eval, With, EvalT, Tame, Candidates;
    var below := set c | c in Candidates(f) && EvalT(c, env) < v;
    if c :| c in Candidates(f) && EvalT(c, env) == v {
      w := v;
    } else if below != {} {
      var m := Extreme(below, env, true);
      w := EvalT(m, env) + 1;
      assert forall c | c in Candidates(f) && EvalT(c, env) < v :: c in below;
    } else if Candidates(f) != {} {
      var m := Extreme(Candidates(f), env, false);
      w := EvalT(m, env) - 1;
      assert forall c | c in Candidates(f) :: c !in below;
    } else {
      w := 0;
    }
    AlikeMeansSame(f, env, v, w);
  }

  // ---- constraints without negated bounds ----

  /** The comparisons that depend on the function occur only positively (`pos`), or only negatively. */
  ghost predicate Affirms(f: Formula, pos: bool)
    decreases f
  {
    match f
    case Cmp(_, _, _) => pos || Steady(f)
    case Not(g) => Affirms(g, !pos)
    case And(fs) => forall i | 0 <= i < |fs| :: Affirms(fs[i], pos)
    case Or(fs) => forall i | 0 <= i < |fs| :: Affirms(fs[i], pos)
    case Implies(l, r) => Affirms(l, !pos) && Affirms(r, pos)
    case Ite(c, t, e) => Affirms(c, pos) && Affirms(c, !pos) && Affirms(t, pos) && Affirms(e, pos)
    case _ => true
  }

  /** The same by the look of the formula. */
  predicate Unnegated(f: Formula, pos: bool)
    decreases f
  {
    match f
    case Cmp(_, _, _) => pos || Free(f)
    case Not(g) => Unnegated(g, !pos)
    case And(fs) => forall i | 0 <= i < |fs| :: Unnegated(fs[i], pos)
    case Or(fs) => forall i | 0 <= i < |fs| :: Unnegated(fs[i], pos)
    case Implies(l, r) => Unnegated(l, !pos) && Unnegated(r, pos)
    case Ite(c, t, e) => Unnegated(c, pos) && Unnegated(c, !pos) && Unnegated(t, pos) && Unnegated(e, pos)
    case _ => true
  }

  lemma {:induction false} UnnegatedAffirms(f: Formula, pos: bool)
    requires Unnegated(f, pos)
    ensures Affirms(f, pos)
    decreases f
  {
    hide Free, Steady;
    match f
    case Cmp(_, _, _) => if !pos { FreeIsSteady(f); }
    case Not(g) => UnnegatedAffirms(g, !pos);
    case And(fs) => forall i | 0 <= i < |fs| ensures Affirms(fs[i], pos) { UnnegatedAffirms(fs[i], pos); }
    case Or(fs) => forall i | 0 <= i < |fs| ensures Affirms(fs[i], pos) { UnnegatedAffirms(fs[i], pos); }
    case Implies(l, r) => UnnegatedAffirms(l, !pos); UnnegatedAffirms(r, pos);
    case Ite(c, t, e) =>
      UnnegatedAffirms(c, pos); UnnegatedAffirms(c, !pos); UnnegatedAffirms(t, pos); UnnegatedAffirms(e, pos);
    case _ =>
  }

  /** What holds at `v` of the comparisons that depend on the function holds at `w`. */
  ghost predicate Carries(f: Formula, env: Env, v: int, w: int) {
    forall a | a in Atoms(f) :: Steady(a) || (Eval(a, With(env, v)) ==> Eval(a, With(env, w)))
  }

  lemma CarriesArg(f: Formula, i: nat, env: Env, v: int, w: int)
    requires i < |Args(f)| && Carries(f, env, v, w)
    ensures Carries(Args(f)[i], env, v, w)
  {
    hide Steady, Eval, With;
    AtomsOfArg(f, i);
  }

  /** Such a constraint is monotone in its comparisons. */
  lemma {:induction false} Monotone(f: Formula, pos: bool, env: Env, v: int, w: int)
    requires Constraint(f) && Affirms(f, pos) && Carries(f, env, v, w)
    ensures if pos then Eval(f, With(env, v)) ==> Eval(f, With(env, w)) else Eval(f, With(env, w)) ==> Eval(f, With(env, v))
    decreases f
  {
    hide Carries;
    assert forall i | 0 <= i < |Args(f)| :: Constraint(Args(f)[i]);
    forall i | 0 <= i < |Args(f)| ensures Carries(Args(f)[i], env, v, w) { CarriesArg(f, i, env, v, w); }
    match f
    case Cmp(_, _, _) => MonotoneAtom(f, pos, env, v, w);
    case Not(g) =>
      assert Args(f)[0] == g;
      Monotone(g, !pos, env, v, w);
    case And(fs) =>
      forall i | 0 <= i < |fs|
        ensures if pos then Eval(fs[i], With(env, v)) ==> Eval(fs[i], With(env, w)) else Eval(fs[i], With(env, w)) ==> Eval(fs[i], With(env, v))
      {
        assert Args(f)[i] == fs[i];
        Monotone(fs[i], pos, env, v, w);
      }
    case Or(fs) =>
      forall i | 0 <= i < |fs|
        ensures if pos then Eval(fs[i], With(env, v)) ==> Eval(fs[i], With(env, w)) else Eval(fs[i], With(env, w)) ==> Eval(fs[i], With(env, v))
      {
        assert Args(f)[i] == fs[i];
        Monotone(fs[i], pos, env, v, w);
      }
    case Implies(l, r) =>
      assert Args(f)[0] == l && Args(f)[1] == r;
      Monotone(l, !pos, env, v, w);
      Monotone(r, pos, env, v, w);
    case Ite(c, t, e) =>
      assert Args(f)[0] == c && Args(f)[1] == t && Args(f)[2] == e;
      Monotone(c, pos, env, v, w);
      Monotone(c, !pos, env, v, w);
      Monotone(t, pos, env, v, w);
      Monotone(e, pos, env, v, w);
    case _ =>
  }

  lemma MonotoneAtom(a: Formula, pos: bool, env: Env, v: int, w: int)
    requires a.Cmp? && (pos || Steady(a)) && Carries(a, env, v, w)
    ensures if pos then Eval(a, With(env, v)) ==> Eval(a, With(env, w)) else Eval(a, With(env, w)) ==> Eval(a, With(env, v))
  {
    hide Eval, With;
    assert a in Atoms(a);
    if Steady(a) { assert Eval(a, With(env, v)) == Eval(a, env) == Eval(a, With(env, w)); }
  }

  /** The candidates of the comparisons satisfied at `v` that bound the function from the given side. */
  function Binding(f: Formula, env: Env, v: int, up: bool): set<Term> {
    set a | a in Atoms(f) && Bounding(a) && Eval(a, With(env, v)) && (SideOf(a) == Exact || SideOf(a) == if up then Above else Below)
      :: CandidateOf(a)
  }

  lemma StillHolds(f: Formula, env: Env, v: int, w: int)
    requires Tame(f) && Affirms(f, true) && Eval(f, With(env, v))
    requires forall c | c in Binding(f, env, v, true) :: EvalT(c, env) <= w
    requires forall c | c in Binding(f, env, v, false) :: w <= EvalT(c, env)
    ensures Eval(f, With(env, w))
  {
    hide Eval, With, EvalT, CandidateOf, Steady, Affirms;
    forall a | a in Atoms(f) && !Steady(a) && Eval(a, With(env, v)) ensures Eval(a, With(env, w)) {
      AtomIsInterval(a, env, v);
      AtomIsInterval(a, env, w);
      if SideOf(a) == Exact { assert CandidateOf(a) in Binding(f, env, v, true) && CandidateOf(a) in Binding(f, env, v, false); }
      if SideOf(a) == Above { assert CandidateOf(a) in Binding(f, env, v, true); }
      if SideOf(a) == Below { assert CandidateOf(a) in Binding(f, env, v, false); }
    }
    Monotone(f, true, env, v, w);
  }

  /** If any value satisfies a constraint without negated bounds, a candidate does, or zero where there is none. */
  lemma SmallWitness(f: Formula, env: Env, v: int) returns (w: int)
    requires Tame(f) && Affirms(f, true) && Eval(f, With(env, v))
    ensures Eval(f, With(env, w))
    ensures Candidates(f) == {} ==> w == 0
    ensures Candidates(f) != {} ==> exists c :: c in Candidates(f) && w == EvalT(c, env)
  {
    hide Eval, With, EvalT, Affirms, CandidateOf;
    var lower, upper := Binding(f, env, v, true), Binding(f, env, v, false);
    BindingBounds(f, env, v);
    if lower != {} {
      var m := Extreme(lower, env, true);
      w := EvalT(m, env);
    } else if upper != {} {
      var m := Extreme(upper, env, false);
      w := EvalT(m, env);
    } else if Candidates(f) != {} {
      var c :| c in Candidates(f);
      w := EvalT(c, env);
    } else {
      w := 0;
    }
    StillHolds(f, env, v, w);
  }

  lemma BindingBounds(f: Formula, env: Env, v: int)
    requires Tame(f)
    ensures forall c | c in Binding(f, env, v, true) :: c in Candidates(f) && EvalT(c, env) <= v
    ensures forall c | c in Binding(f, env, v, false) :: c in Candidates(f) && v <= EvalT(c, env)
  {
    hide EvalT, With, CandidateOf, SideOf;
    forall up, c | c in Binding(f, env, v, up) ensures c in Candidates(f) && if up then EvalT(c, env) <= v else v <= EvalT(c, env) {
      var a :| a in Atoms(f) && Bounding(a) && Eval(a, With(env, v)) && (SideOf(a) == Exact || SideOf(a) == if up then Above else Below) && c == CandidateOf(a);
      AtomIsInterval(a, env, v);
    }
  }

  // ---- what a scan finds ----

  /** A scan adds what it adds for the comparisons, and fails where it fails for one of them. */
  lemma {:induction false} ScanOfAtoms(f: Formula)
    requires Constraint(f)
    ensures Fails(f) <==> exists a :: a in Atoms(f) && Fails(a)
    ensures Found(f) == set a, c | a in Atoms(f) && c in Found(a) :: c
    decreases f, 1
  {
    if f.Cmp? {
      assert f in Atoms(f);
    } else {
      ScanOfArgs(f, Args(f));
      ScanOfUpdate(f);
    }
  }

  lemma ScanOfUpdate(f: Formula)
    requires Constraint(f) && !f.Cmp?
    ensures Fails(f) == FailsAll(Args(f)) && Found(f) == FoundAll(Args(f))
  {
    match f
    case Not(g) => ScanOne(g);
    case Implies(l, r) =>
      ScanOne(r);
      assert [l, r][1..] == [r];
    case Ite(c, t, e) =>
      ScanOne(e);
      assert [t, e][1..] == [e] && [c, t, e][1..] == [t, e];
    case _ =>
  }

  lemma ScanOne(f: Formula)
    ensures FailsAll([f]) == Fails(f) && FoundAll([f]) == Found(f)
  {
    assert [f][1..] == [];
  }

  lemma {:induction false} ScanOfArgs(f: Formula, fs: seq<Formula>)
    requires forall i | 0 <= i < |fs| :: Constraint(fs[i]) && fs[i] < f
    ensures FailsAll(fs) <==> exists i, a :: 0 <= i < |fs| && a in Atoms(fs[i]) && Fails(a)
    ensures FoundAll(fs) == set i, a, c | 0 <= i < |fs| && a in Atoms(fs[i]) && c in Found(a) :: c
    decreases f, 0, |fs|
  {
    hide Found, Fails, Atoms, Constraint;
    if fs != [] {
      ScanOfAtoms(fs[0]);
      ScanOfArgs(f, fs[1..]);
      assert forall i | 0 < i < |fs| :: fs[i] == fs[1..][i - 1];
    }
  }

  /** A scan of normalised comparisons adds exactly the candidates, unless one has a bad coefficient. */
  lemma FoundAreCandidates(f: Formula)
    requires Constraint(f) && forall a | a in Atoms(f) :: NormalAtom(a)
    ensures Fails(f) <==> exists a :: a in Atoms(f) && !Usable(a)
    ensures !Fails(f) ==> Found(f) == Candidates(f)
  {
    hide Found, Fails, NormalAtom, Usable, IsCall, CandidateOf;
    ScanOfAtoms(f);
    forall a | a in Atoms(f)
      ensures Fails(a) <==> !Usable(a)
      ensures !Fails(a) ==> Found(a) == if Bounding(a) then {CandidateOf(a)} else {}
    {
      AtomFound(a);
    }
    if !Fails(f) {
      CandidatesAreFound(f);
      forall c | c in Found(f) ensures c in Candidates(f) {
        var a :| a in Atoms(f) && c in Found(a);
        assert Bounding(a);
      }
    }
  }

  /** With other comparisons about, it still finds the candidates. */
  lemma CandidatesAreFound(f: Formula)
    requires Constraint(f) && !Fails(f)
    ensures Candidates(f) <= Found(f)
    ensures forall a | a in Atoms(f) && NormalAtom(a) :: Usable(a)
  {
    hide Found, Fails, NormalAtom, Usable, IsCall, CandidateOf;
    ScanOfAtoms(f);
    forall a | a in Atoms(f) && NormalAtom(a) ensures Usable(a) { AtomFound(a); }
    forall c | c in Candidates(f) ensures c in Found(f) {
      var a :| a in Atoms(f) && Bounding(a) && c == CandidateOf(a);
      UsableIsNormal(a);
      AtomFound(a);
      assert c in Found(a);
    }
  }

  lemma UsableIsNormal(a: Formula)
    requires Usable(a)
    ensures NormalAtom(a)
  {
  }

  lemma AtomFound(a: Formula)
    requires NormalAtom(a)
    ensures Fails(a) <==> !Usable(a)
    ensures !Fails(a) ==> Found(a) == if IsCall(a.rhs) then {CandidateOf(a)} else {}
  {
    hide FreeT;
    FreeFindsT(a.lhs);
    if FreeT(a.rhs) {
      FreeFindsT(a.rhs);
      FreeIsNoCall(a.rhs);
    } else {
      CallFinds(a.rhs);
    }
  }

  lemma CallFinds(t: Term)
    requires IsCall(t)
    ensures FoundT(t) == {} && !FailsT(t)
  {
    if t.Mul? { assert FoundT(t.l) == FoundT(t.r) == {} && !FailsT(t.l) && !FailsT(t.r); }
  }

  // ---- normalisation ----

  function LeftArgs(t: Term): seq<Term> { if t.Add? then t.args else [t] }

  lemma {:induction false} SumConcat(a: seq<Term>, b: seq<Term>, env: Env)
    ensures Sum(a + b, env) == Sum(a, env) + Sum(b, env)
  {
    if a == [] {
      assert a + b == b;
    } else {
      SumConcat(a[1..], b, env);
      assert (a + b)[1..] == a[1..] + b;
    }
  }

  lemma SumOne(t: Term, env: Env)
    ensures Sum([t], env) == EvalT(t, env) && Sum([], env) == 0
  {
    assert [t][1..] == [];
  }

  lemma LeftArgsSum(t: Term, env: Env)
    ensures EvalT(t, env) == Sum(LeftArgs(t), env)
  {
    SumOne(t, env);
  }

  /** A comparison after simplification with all variables on the left: a sum of multiples of the function and other terms. */
  predicate Simple(a: Formula) {
    a.Cmp? && FreeT(a.rhs) && forall i | 0 <= i < |LeftArgs(a.lhs)| :: IsCall(LeftArgs(a.lhs)[i]) || FreeT(LeftArgs(a.lhs)[i])
  }

  predicate NoCalls(a: Formula)
    requires a.Cmp?
  {
    forall i | 0 <= i < |LeftArgs(a.lhs)| :: !IsCall(LeftArgs(a.lhs)[i])
  }

  /** The function stands in two terms of the sum. */
  predicate TwoCalls(a: Formula) {
    a.Cmp? && exists i, j | 0 <= i < j < |LeftArgs(a.lhs)| :: IsCall(LeftArgs(a.lhs)[i]) && IsCall(LeftArgs(a.lhs)[j])
  }

  /** The function is multiplied by something other than 1 and -1. */
  predicate BadMultiple(t: Term) { IsCall(t) && t.Mul? && t.l.n != 1 && t.l.n != -1 }

  predicate BadCoefficient(a: Formula) { a.Cmp? && exists i :: 0 <= i < |LeftArgs(a.lhs)| && BadMultiple(LeftArgs(a.lhs)[i]) }

  /** What is known of the simplifier: it keeps the meaning and sorts the terms. */
  ghost predicate Simplifies(simplify: Formula -> Formula, a: Formula) { Simple(simplify(a)) && Equivalent(simplify(a), a) }

  ghost predicate SimplifiesAll(simplify: Formula -> Formula, f: Formula) { forall a | a in Atoms(f) :: Simplifies(simplify, a) }

  /** `-1 * t`, simplified. */
  function Negate(t: Term): (r: Term)
    requires IsCall(t)
    ensures IsCall(r)
  {
    if t == Var(F) then Mul(Num(-1), Var(F)) else if t.l == Num(-1) then Var(F) else Mul(Num(-t.l.n), Var(F))
  }

  lemma NegateValue(t: Term, env: Env)
    requires IsCall(t)
    ensures EvalT(Negate(t), env) == -EvalT(t, env)
  {
    if t.Mul? { MinusTimes(t.l.n, env.ints(F)); }
  }

  lemma NegateFails(t: Term)
    requires IsCall(t)
    ensures AtomFails(Negate(t)) <==> BadMultiple(t)
  {
  }

  lemma MultipleIsCall(t: Term)
    ensures BadMultiple(t) ==> IsCall(t)
  {
  }

  lemma MinusTimes(k: int, v: int)
    ensures -k * v == -(k * v)
  {
  }

  lemma MovedAcross(op: CmpOp, rest: int, call: int, right: int)
    ensures Holds(op, rest + call, right) <==> Holds(op, rest - right, -call)
  {
  }

  /** `normalizeExpr` on a comparison: the function alone on the right; `None` where it occurs twice. */
  method NormalizeAtom(orig: Formula, normed: Formula) returns (r: Option<Formula>)
    requires orig.Cmp? && Simple(normed) && Equivalent(normed, orig)
    ensures r.None? <==> TwoCalls(normed)
    ensures r.Some? ==> NormalizesAtom(orig, normed, r.value)
  {
    hide Eval, EvalT, FreeT, IsCall, Sum, Free, BadMultiple, AtomFails, Negate;
    var leftArgs := LeftArgs(normed.lhs);
    var funcTerm: Option<Term> := None;
    var remaining: seq<Term> := [];
    ghost var at := 0;
    SumNone();
    for i := 0 to |leftArgs|
      invariant forall k | 0 <= k < |remaining| :: FreeT(remaining[k])
      invariant funcTerm.Some? ==> 0 <= at < i && leftArgs[at] == funcTerm.value && IsCall(funcTerm.value)
      invariant forall k | 0 <= k < i && IsCall(leftArgs[k]) :: funcTerm.Some? && k == at
      invariant forall env :: Sum(leftArgs[..i], env) == Sum(remaining, env) + OptionValue(funcTerm, env)
    {
      var t := leftArgs[i];
      forall env ensures Sum(leftArgs[..i + 1], env) == Sum(leftArgs[..i], env) + EvalT(t, env) { SumSnoc(leftArgs, i, env); }
      if IsCall(t) {
        if funcTerm.Some? { return None; }
        funcTerm := Some(t);
        at := i;
      } else {
        forall env ensures Sum(remaining + [t], env) == Sum(remaining, env) + EvalT(t, env) { SumAdd(remaining, t, env); }
        remaining := remaining + [t];
      }
    }
    assert leftArgs[..|leftArgs|] == leftArgs;
    forall t ensures BadMultiple(t) ==> IsCall(t) { MultipleIsCall(t); }
    if funcTerm.None? { return Some(orig); }
    var right := Mul(Num(-1), normed.rhs);
    var result := Cmp(normed.op, Add(remaining + [right]), Negate(funcTerm.value));
    forall env ensures Eval(result, env) == Eval(orig, env) {
      assert Eval(normed, env) == Eval(orig, env);
      MovedMeaning(normed, remaining, funcTerm.value, env);
    }
    MovedFree(remaining, normed.rhs);
    NegateFails(funcTerm.value);
    r := Some(result);
  }

  /** The comparison `a` is `orig`, where simplification leaves no call, or has the call on the right. */
  ghost predicate NormalizesAtom(orig: Formula, normed: Formula, a: Formula)
    requires normed.Cmp?
  {
    && a.Cmp? && Equivalent(a, orig)
    && (NoCalls(normed) ==> a == orig)
    && (!NoCalls(normed) ==> NormalAtom(a) && IsCall(a.rhs) && (BadCoefficient(normed) <==> AtomFails(a.rhs)))
  }

  function OptionValue(t: Option<Term>, env: Env): int { if t.None? then 0 else EvalT(t.value, env) }

  lemma SumNone()
    ensures forall env :: Sum([], env) == 0
  {
  }

  lemma SumAdd(ts: seq<Term>, t: Term, env: Env)
    ensures Sum(ts + [t], env) == Sum(ts, env) + EvalT(t, env)
  {
    SumConcat(ts, [t], env);
    SumOne(t, env);
  }

  lemma SumSnoc(ts: seq<Term>, i: nat, env: Env)
    requires i < |ts|
    ensures Sum(ts[..i + 1], env) == Sum(ts[..i], env) + EvalT(ts[i], env)
  {
    assert ts[..i + 1] == ts[..i] + [ts[i]];
    SumAdd(ts[..i], ts[i], env);
  }

  lemma MovedFree(remaining: seq<Term>, right: Term)
    requires FreeT(right) && forall k | 0 <= k < |remaining| :: FreeT(remaining[k])
    ensures FreeT(Add(remaining + [Mul(Num(-1), right)]))
  {
    var ts := remaining + [Mul(Num(-1), right)];
    forall k | 0 <= k < |ts| ensures FreeT(ts[k]) {
      assert FreeT(Mul(Num(-1), right));
      assert k < |remaining| ==> ts[k] == remaining[k];
    }
  }

  lemma MovedMeaning(normed: Formula, remaining: seq<Term>, call: Term, env: Env)
    requires normed.Cmp? && IsCall(call)
    requires Sum(LeftArgs(normed.lhs), env) == Sum(remaining, env) + EvalT(call, env)
    ensures Eval(Cmp(normed.op, Add(remaining + [Mul(Num(-1), normed.rhs)]), Negate(call)), env) == Eval(normed, env)
  {
    hide Sum, IsCall, Negate;
    var right := Mul(Num(-1), normed.rhs);
    LeftArgsSum(normed.lhs, env);
    SumAdd(remaining, right, env);
    assert EvalT(right, env) == -1 * EvalT(normed.rhs, env);
    NegateValue(call, env);
    MovedAcross(normed.op, Sum(remaining, env), EvalT(call, env), EvalT(normed.rhs, env));
  }

  /** A scan of the comparison fails after normalisation. */
  predicate Unscannable(simplify: Formula -> Formula, a: Formula) {
    simplify(a).Cmp? && if NoCalls(simplify(a)) then Fails(a) else BadCoefficient(simplify(a))
  }

  /** The function cancels out where it occurs. */
  predicate Cancels(simplify: Formula -> Formula, a: Formula) { simplify(a).Cmp? && NoCalls(simplify(a)) && !Free(a) }

  /** What the normal form `g` of a constraint is like. */
  ghost predicate Normalizes(simplify: Formula -> Formula, f: Formula, g: Formula) {
    && Constraint(g) && Equivalent(g, f)
    && (forall a | a in Atoms(g) :: NormalAtom(a) || Steady(a))
    && (forall pos :: Affirms(f, pos) ==> Affirms(g, pos))
    && ((exists a :: a in Atoms(g) && Fails(a)) <==> (exists a :: a in Atoms(f) && Unscannable(simplify, a)))
    && ((exists a :: a in Atoms(g) && !NormalAtom(a)) ==> (exists a :: a in Atoms(f) && Cancels(simplify, a)))
  }

  lemma NoCallsIsSteady(normed: Formula, a: Formula)
    requires Simple(normed) && NoCalls(normed) && Equivalent(normed, a)
    ensures Steady(a)
  {
    hide Eval, IsCall, With;
    assert FreeT(normed.lhs) by { NoCallsIsFree(normed); }
    assert Free(normed);
    FreeIsSteady(normed);
    forall env, w ensures Eval(a, With(env, w)) == Eval(a, env) {
      assert Eval(normed, With(env, w)) == Eval(normed, env);
    }
  }

  lemma NoCallsIsFree(normed: Formula)
    requires Simple(normed) && NoCalls(normed)
    ensures FreeT(normed.lhs)
  {
    hide IsCall;
    var ts := LeftArgs(normed.lhs);
    if !normed.lhs.Add? { assert ts[0] == normed.lhs; }
  }

  lemma SteadySame(a: Formula, b: Formula)
    requires Equivalent(a, b) && Steady(a)
    ensures Steady(b)
  {
    hide Eval, With;
    forall env, w ensures Eval(b, With(env, w)) == Eval(b, env) {
      assert Eval(a, With(env, w)) == Eval(a, env);
    }
  }

  lemma AtomNormalizes(simplify: Formula -> Formula, a: Formula, b: Formula)
    requires a.Cmp? && Simplifies(simplify, a) && NormalizesAtom(a, simplify(a), b)
    ensures Normalizes(simplify, a, b)
  {
    hide Eval, Fails, IsCall, FreeT, Steady, With, BadCoefficient, AtomFails, TwoCalls, LeftArgs;
    assert Atoms(a) == {a} && Atoms(b) == {b};
    if Steady(a) { SteadySame(a, b); }
    if NoCalls(simplify(a)) {
      NoCallsIsSteady(simplify(a), a);
      if Free(a) { FreeAtomIsNormal(a); }
    } else {
      AtomFound(b);
    }
  }

  lemma FreeAtomIsNormal(a: Formula)
    requires a.Cmp? && Free(a)
    ensures NormalAtom(a)
  {
  }

  lemma UpdateArgs(f: Formula, args: seq<Formula>)
    requires |args| == |Args(f)|
    ensures Args(Update(f, args)) == args && (Update(f, args).Cmp? <==> f.Cmp?)
    ensures (Update(f, args).Iff? <==> f.Iff?) && (Update(f, args).Call? <==> f.Call?)
  {
  }

  lemma AffirmsUpdate(f: Formula, args: seq<Formula>, pos: bool)
    requires !f.Cmp? && |args| == |Args(f)| && Affirms(f, pos)
    requires forall i, p: bool | 0 <= i < |args| :: Affirms(Args(f)[i], p) ==> Affirms(args[i], p)
    ensures Affirms(Update(f, args), pos)
  {
    match f
    case Not(g) => assert Args(f)[0] == g;
    case Implies(l, r) => assert Args(f)[0] == l && Args(f)[1] == r;
    case Ite(c, t, e) => assert Args(f)[0] == c && Args(f)[1] == t && Args(f)[2] == e;
    case _ =>
  }

  lemma UpdateNormalizes(simplify: Formula -> Formula, f: Formula, args: seq<Formula>)
    requires Constraint(f) && !f.Cmp? && |args| == |Args(f)|
    requires forall i | 0 <= i < |args| :: Normalizes(simplify, Args(f)[i], args[i])
    ensures Normalizes(simplify, f, Update(f, args))
  {
    hide Equivalent, Fails, Steady, NormalAtom, Unscannable, Cancels, Affirms, Args, Update, Atoms;
    UpdateArgs(f, args);
    EquivalentArgs(f, args);
    forall pos | Affirms(f, pos) ensures Affirms(Update(f, args), pos) { AffirmsUpdate(f, args, pos); }
    AtomsOfUpdate(f, args);
    UnscannableArgs(simplify, f, args);
    CancelsArgs(simplify, f, args);
  }

  lemma EquivalentArgs(f: Formula, args: seq<Formula>)
    requires !f.Cmp? && !f.Iff? && !f.Call? && |args| == |Args(f)|
    requires forall i | 0 <= i < |args| :: Equivalent(args[i], Args(f)[i])
    ensures Equivalent(Update(f, args), f)
  {
    hide Eval, Args, Update;
    forall env ensures Eval(Update(f, args), env) == Eval(f, env) {
      UpdateMeaning(f, args, env, env);
    }
  }

  lemma AtomsOfUpdate(f: Formula, args: seq<Formula>)
    requires !f.Cmp? && |args| == |Args(f)|
    ensures forall a :: a in Atoms(Update(f, args)) <==> exists i :: 0 <= i < |args| && a in Atoms(args[i])
    ensures forall a :: a in Atoms(f) <==> exists i :: 0 <= i < |args| && a in Atoms(Args(f)[i])
  {
    UpdateArgs(f, args);
  }

  lemma UnscannableArgs(simplify: Formula -> Formula, f: Formula, args: seq<Formula>)
    requires !f.Cmp? && |args| == |Args(f)|
    requires forall i | 0 <= i < |args| :: Normalizes(simplify, Args(f)[i], args[i])
    ensures (exists a :: a in Atoms(Update(f, args)) && Fails(a)) <==> (exists a :: a in Atoms(f) && Unscannable(simplify, a))
  {
    hide Fails, Unscannable, Cancels, Affirms, Args, Update, Atoms, Equivalent, Constraint, NormalAtom, Steady;
    AtomsOfUpdate(f, args);
    if a :| a in Atoms(Update(f, args)) && Fails(a) {
      var i :| 0 <= i < |args| && a in Atoms(args[i]);
      assert Normalizes(simplify, Args(f)[i], args[i]);
      var b :| b in Atoms(Args(f)[i]) && Unscannable(simplify, b);
      assert b in Atoms(f);
    }
    if a :| a in Atoms(f) && Unscannable(simplify, a) {
      var i :| 0 <= i < |args| && a in Atoms(Args(f)[i]);
      assert Normalizes(simplify, Args(f)[i], args[i]);
      var b :| b in Atoms(args[i]) && Fails(b);
      assert b in Atoms(Update(f, args));
    }
  }

  lemma CancelsArgs(simplify: Formula -> Formula, f: Formula, args: seq<Formula>)
    requires !f.Cmp? && |args| == |Args(f)|
    requires forall i | 0 <= i < |args| :: Normalizes(simplify, Args(f)[i], args[i])
    ensures (exists a :: a in Atoms(Update(f, args)) && !NormalAtom(a)) ==> (exists a :: a in Atoms(f) && Cancels(simplify, a))
  {
    hide Fails, Unscannable, Cancels, Affirms, Args, Update, Atoms, Equivalent, Constraint, NormalAtom, Steady;
    AtomsOfUpdate(f, args);
    if a :| a in Atoms(Update(f, args)) && !NormalAtom(a) {
      var i :| 0 <= i < |args| && a in Atoms(args[i]);
      assert Normalizes(simplify, Args(f)[i], args[i]);
      var b :| b in Atoms(Args(f)[i]) && Cancels(simplify, b);
      assert b in Atoms(f);
    }
  }

  /** `normalizeExpr`. */
  method NormalizeExpr(f: Formula, simplify: Formula -> Formula) returns (r: Option<Formula>)
    requires Constraint(f) && SimplifiesAll(simplify, f)
    ensures r.None? <==> exists a :: a in Atoms(f) && TwoCalls(simplify(a))
    ensures r.Some? ==> Normalizes(simplify, f, r.value)
    decreases f
  {
    hide Eval, NormalAtom, TwoCalls, Simplifies, Normalizes, NormalizesAtom, Args, Update;
    if f.Cmp? {
      assert f in Atoms(f);
      assert Simplifies(simplify, f);
      SimplifiesMeans(simplify, f);
      r := NormalizeAtom(f, simplify(f));
      if r.Some? { AtomNormalizes(simplify, f, r.value); }
      return;
    }
    var newArgs: seq<Formula> := [];
    for i := 0 to |Args(f)|
      invariant |newArgs| == i
      invariant forall k | 0 <= k < i :: Normalizes(simplify, Args(f)[k], newArgs[k])
      invariant forall k, a | 0 <= k < i && a in Atoms(Args(f)[k]) :: !TwoCalls(simplify(a))
    {
      AtomsOfArg(f, i);
      var arg := NormalizeExpr(Args(f)[i], simplify);
      if arg.None? { return None; }
      newArgs := newArgs + [arg.value];
    }
    r := Some(Update(f, newArgs));
    UpdateNormalizes(simplify, f, newArgs);
  }

  lemma SimplifiesMeans(simplify: Formula -> Formula, a: Formula)
    requires Simplifies(simplify, a)
    ensures Simple(simplify(a)) && Equivalent(simplify(a), a)
  {
  }

  // ---- the class ----

  /** What `Eval` says of the constraint when the function takes the value of a term. */
  predicate SolvedBy(f: Formula, t: Term, env: Env) { Eval(f, With(env, EvalT(t, env))) }

  predicate Solvable(f: Formula, env: Env, v: int) { Eval(f, With(env, v)) }

  /** The term is one of the candidates that solve the constraint, or zero where none does. */
  ghost predicate Chooses(t: Term, f: Formula, candidates: set<Term>, env: Env) {
    if exists c :: c in candidates && SolvedBy(f, c, env)
    then SolvedBy(f, t, env)
    else EvalT(t, env) == 0
  }

  lemma SubstIsWith(f: Formula, c: Term, env: Env)
    ensures Eval(SubstF(f, map[F := c]), env) == SolvedBy(f, c, env)
  {
    hide Eval, SubstF, EvalT;
    SubstMeaning(f, map[F := c], env);
    EvalSame(f, Under(env, map[F := c]), With(env, EvalT(c, env)));
  }

  lemma ChainStep(f: Formula, cand: Term, rest: Term, candidates: set<Term>, env: Env)
    requires cand in candidates && Chooses(rest, f, candidates - {cand}, env)
    ensures Chooses(TermIte(SubstF(f, map[F := cand]), cand, rest), f, candidates, env)
  {
    hide Eval, SubstF, With;
    SubstIsWith(f, cand, env);
    var t := TermIte(SubstF(f, map[F := cand]), cand, rest);
    assert EvalT(t, env) == if SolvedBy(f, cand, env) then EvalT(cand, env) else EvalT(rest, env);
    if exists c :: c in candidates && SolvedBy(f, c, env) {
      var c :| c in candidates && SolvedBy(f, c, env);
      assert c == cand || c in candidates - {cand};
    }
  }

  class SSI {
    var compared: set<Term>

    constructor ()
      ensures compared == {}
    {
      compared := {};
    }

    /** `scanExpr`; `ok` is false where an exception is thrown. */
    method ScanExpr(f: Formula) returns (ok: bool)
      modifies this`compared
      ensures ok <==> !Fails(f)
      ensures ok ==> compared == old(compared) + Found(f)
      decreases f, 1
    {
      match f
      case True | False | BoolVar(_) => ok := true;
      case Cmp(op, l, r) =>
        if AtomFails(r) { return false; }
        compared := compared + AtomCandidates(op, l, r);
        ok := ScanTerm(l);
        if ok { ok := ScanTerm(r); }
      case Iff(l, r) =>
        ok := ScanExpr(l);
        if ok { ok := ScanExpr(r); }
      case Not(g) => ok := ScanExpr(g);
      case And(fs) => ok := ScanArgs(fs);
      case Or(fs) => ok := ScanArgs(fs);
      case Implies(l, r) =>
        ok := ScanExpr(l);
        if ok { ok := ScanExpr(r); }
      case Ite(c, t, e) =>
        ok := ScanExpr(c);
        if ok { ok := ScanExpr(t); }
        if ok { ok := ScanExpr(e); }
      case Call(_, ts) => ok := ScanTerms(ts);
    }

    method ScanArgs(fs: seq<Formula>) returns (ok: bool)
      modifies this`compared
      ensures ok <==> !FailsAll(fs)
      ensures ok ==> compared == old(compared) + FoundAll(fs)
      decreases fs, 0
    {
      if fs == [] { return true; }
      ok := ScanExpr(fs[0]);
      if ok { ok := ScanArgs(fs[1..]); }
    }

    method ScanTerm(t: Term) returns (ok: bool)
      modifies this`compared
      ensures ok <==> !FailsT(t)
      ensures ok ==> compared == old(compared) + FoundT(t)
      decreases t, 1
    {
      match t
      case Num(_) | Var(_) => ok := true;
      case Add(ts) => ok := ScanTerms(ts);
      case Sub(l, r) =>
        ok := ScanTerm(l);
        if ok { ok := ScanTerm(r); }
      case Mul(l, r) =>
        ok := ScanTerm(l);
        if ok { ok := ScanTerm(r); }
      case TermIte(c, u, e) =>
        ok := ScanExpr(c);
        if ok { ok := ScanTerm(u); }
        if ok { ok := ScanTerm(e); }
    }

    method ScanTerms(ts: seq<Term>) returns (ok: bool)
      modifies this`compared
      ensures ok <==> !FailsTs(ts)
      ensures ok ==> compared == old(compared) + FoundTs(ts)
      decreases ts, 0
    {
      if ts == [] { return true; }
      ok := ScanTerm(ts[0]);
      if ok { ok := ScanTerms(ts[1..]); }
    }

    /** `constructITE`: the candidates are taken in any order. */
    method ConstructITE(partConstr: Formula) returns (t: Term)
      modifies this`compared
      ensures compared == {}
      ensures (forall c | c in old(compared) :: FreeT(c)) ==> FreeT(t)
      ensures forall env :: Chooses(t, partConstr, old(compared), env)
      decreases compared
    {
      hide Eval, With, SubstF;
      if compared == {} { return Num(0); }
      ghost var all := compared;
      var cand :| cand in compared;
      compared := compared - {cand};
      var cond := SubstF(partConstr, map[F := cand]);
      var rest := ConstructITE(partConstr);
      t := TermIte(cond, cand, rest);
      if forall c | c in all :: FreeT(c) { SubstFree(partConstr, cand); }
      forall env ensures Chooses(t, partConstr, all, env) { ChainStep(partConstr, cand, rest, all, env); }
    }

    /**
     `getDef` for the constraint `part`, which the simplifier made from the pushed one, with its normal form.  The
     definition solves the constraint exactly where one of the terms found or zero does.
     */
    method GetDef(constr: Formula, part: Formula, simplify: Formula -> Formula) returns (def: Option<Term>, ghost normal: Formula)
      requires Pushing.Pos(constr) && Equivalent(part, Pushing.PushInNots(constr))
      requires Constraint(part) && SimplifiesAll(simplify, part)
      modifies this`compared
      ensures def.Some? ==> Normalizes(simplify, part, normal)
      ensures def.Some? ==> forall env :: SolvedBy(constr, def.value, env) <==> Covered(constr, Found(normal), env)
      ensures def.Some? ==> (SolvesAll(constr, def.value) <==> Served(normal))
      ensures def.Some? && Unnegated(part, true) ==> SolvesAll(constr, def.value)
      ensures def.Some? && (forall a | a in Atoms(part) :: !Cancels(simplify, a)) ==> FreeT(def.value)
      ensures def.None? <==> exists a :: a in Atoms(part) && (TwoCalls(simplify(a)) || Unscannable(simplify, a))
    {
      hide Atoms, Unscannable, Cancels, Eval, With, EvalT, Fails, Found, FreeT, SimplifiesAll, TwoCalls, Chooses, SolvedBy,
        Normalizes, Constraint, NormalAtom, Pushing.Pos, Pushing.PushInNots, Unnegated, Covered, Served, SolvesAll;
      compared := {};
      var result := NormalizeExpr(part, simplify);
      normal := True;
      if result.None? { return None, normal; }
      normal := result.value;
      NormalizedScan(simplify, part, normal);
      var ok := ScanExpr(result.value);
      if !ok { return None, normal; }
      assert compared == Found(normal);
      var chain := ConstructITE(part);
      def := Some(chain);
      ChainSolves(simplify, constr, part, normal, chain);
    }
  }

  /** The term solves the constraint wherever some value does. */
  ghost predicate SolvesAll(f: Formula, t: Term) { forall env, v :: Solvable(f, env, v) ==> SolvedBy(f, t, env) }

  /** Wherever some value solves the constraint, a term found by a scan or zero does. */
  ghost predicate Served(f: Formula) { forall env, v :: Solvable(f, env, v) ==> Covered(f, Found(f), env) }

  /** What can be checked before the call: where a neighbour of a term found solves the constraint, such a term or zero does. */
  ghost predicate ServedNearby(f: Formula) { forall env :: CoveredNearby(f, Found(f), env) ==> Covered(f, Found(f), env) }

  /** Some candidate or zero solves the constraint. */
  ghost predicate Covered(f: Formula, candidates: set<Term>, env: Env) {
    (exists c :: c in candidates && SolvedBy(f, c, env)) || Solvable(f, env, 0)
  }

  /** Some candidate, a neighbour of one, or zero solves the constraint. */
  ghost predicate CoveredNearby(f: Formula, candidates: set<Term>, env: Env) {
    (exists c, w :: c in candidates && Near(c, env, w) && Solvable(f, env, w)) || Solvable(f, env, 0)
  }

  lemma ChoosesCovered(t: Term, f: Formula, candidates: set<Term>, env: Env)
    requires Chooses(t, f, candidates, env)
    ensures SolvedBy(f, t, env) <==> Covered(f, candidates, env)
  {
    hide Eval, With, EvalT;
  }

  /** Whether any value solves the constraint is decided at the candidates and their neighbours. */
  lemma NearbyDecides(f: Formula, candidates: set<Term>, env: Env)
    requires Tame(f) && Candidates(f) <= candidates
    ensures (exists v :: Solvable(f, env, v)) <==> CoveredNearby(f, candidates, env)
  {
    hide Eval, With, EvalT, Tame, Candidates;
    if v :| Solvable(f, env, v) {
      var w := NearWitness(f, env, v);
      assert Solvable(f, env, w);
    }
  }

  lemma SameCovered(f: Formula, g: Formula, candidates: set<Term>, env: Env)
    requires forall w :: Solvable(f, env, w) == Solvable(g, env, w)
    ensures Covered(f, candidates, env) == Covered(g, candidates, env)
    ensures CoveredNearby(f, candidates, env) == CoveredNearby(g, candidates, env)
    ensures (exists v :: Solvable(f, env, v)) == (exists v :: Solvable(g, env, v))
    ensures forall t :: SolvedBy(f, t, env) == SolvedBy(g, t, env)
  {
    hide Solvable, EvalT;
    forall t ensures SolvedBy(f, t, env) == Solvable(f, env, EvalT(t, env)) && SolvedBy(g, t, env) == Solvable(g, env, EvalT(t, env)) {
      SolvedAt(f, t, env);
      SolvedAt(g, t, env);
    }
  }

  lemma SolvedAt(f: Formula, t: Term, env: Env)
    ensures SolvedBy(f, t, env) == Solvable(f, env, EvalT(t, env))
  {
  }

  /** Without negated bounds the candidates themselves decide. */
  lemma UnnegatedIsCovered(f: Formula, candidates: set<Term>, env: Env, v: int)
    requires Tame(f) && Candidates(f) <= candidates && Affirms(f, true) && Solvable(f, env, v)
    ensures Covered(f, candidates, env)
  {
    hide Eval, With, EvalT, Tame, Candidates, Affirms;
    var w := SmallWitness(f, env, v);
    if Candidates(f) != {} {
      var c :| c in Candidates(f) && w == EvalT(c, env);
      assert SolvedBy(f, c, env);
    }
  }

  /** What a scan of the normalised constraint adds. */
  lemma NormalizedScan(simplify: Formula -> Formula, part: Formula, normal: Formula)
    requires Normalizes(simplify, part, normal)
    ensures Fails(normal) <==> exists a :: a in Atoms(part) && Unscannable(simplify, a)
    ensures !Fails(normal) ==> Tame(normal) && Candidates(normal) <= Found(normal)
    ensures !Fails(normal) && (forall a | a in Atoms(part) :: !Cancels(simplify, a)) ==> forall c | c in Found(normal) :: FreeT(c)
  {
    hide Fails, Found, Usable, Steady, NormalAtom, Unscannable, Cancels, Affirms, Atoms, FreeT, Candidates;
    ScanOfAtoms(normal);
    if !Fails(normal) {
      CandidatesAreFound(normal);
      if forall a | a in Atoms(part) :: !Cancels(simplify, a) {
        FoundAreCandidates(normal);
        CandidatesAreFree(normal);
      }
    }
  }

  lemma CandidatesAreFree(f: Formula)
    ensures forall c | c in Candidates(f) :: FreeT(c)
  {
    forall a | a in Atoms(f) && Bounding(a) ensures FreeT(CandidateOf(a)) { CandidateIsFree(a); }
  }

  lemma CandidateIsFree(a: Formula)
    requires NormalAtom(a)
    ensures FreeT(CandidateOf(a))
  {
    var b := Bound(a.op, a.lhs);
    if a.op == Lt { assert b.args[0] == a.lhs && b.args[1] == Num(1); }
    assert FreeT(b);
  }

  /** The neighbours of the terms found decide whether a constraint is served. */
  lemma ServedIsNearby(f: Formula)
    requires Tame(f) && !Fails(f)
    ensures Served(f) <==> ServedNearby(f)
  {
    hide Eval, With, EvalT, Tame, Found, Candidates, Solvable, Covered, CoveredNearby, Fails;
    CandidatesAreFound(f) by { TameIsConstraint(f); }
    forall env ensures (exists v :: Solvable(f, env, v)) <==> CoveredNearby(f, Found(f), env) {
      NearbyDecides(f, Found(f), env);
    }
  }

  lemma TameIsConstraint(f: Formula)
    requires Tame(f)
    ensures Constraint(f)
  {
  }

  /** The chain made for the simplified constraint, measured by the original one. */
  lemma ChainSolves(simplify: Formula -> Formula, constr: Formula, part: Formula, normal: Formula, chain: Term)
    requires Pushing.Pos(constr) && Equivalent(part, Pushing.PushInNots(constr)) && Normalizes(simplify, part, normal) && !Fails(normal)
    requires forall env :: Chooses(chain, part, Found(normal), env)
    ensures forall env :: SolvedBy(constr, chain, env) <==> Covered(constr, Found(normal), env)
    ensures SolvesAll(constr, chain) <==> Served(normal)
    ensures Unnegated(part, true) ==> SolvesAll(constr, chain)
  {
    hide Found, Pushing.Pos, Pushing.PushInNots, Chooses, Unnegated, Covered, Solvable, SolvedBy, Normalizes, Equivalent, Fails;
    assert Equivalent(normal, part) by { NormalizesMeans(simplify, part, normal); }
    forall env ensures SolvedBy(constr, chain, env) <==> Covered(constr, Found(normal), env) {
      ChainSolvesAt(constr, part, normal, chain, env);
    }
    SameService(constr, part, normal, chain);
    if Unnegated(part, true) { UnnegatedIsServed(simplify, part, normal); }
  }

  lemma SameService(constr: Formula, part: Formula, normal: Formula, chain: Term)
    requires Pushing.Pos(constr) && Equivalent(part, Pushing.PushInNots(constr)) && Equivalent(normal, part)
    requires forall env :: Chooses(chain, part, Found(normal), env)
    ensures SolvesAll(constr, chain) <==> Served(normal)
  {
    hide Found, Pushing.Pos, Pushing.PushInNots, Chooses, Covered, Solvable, SolvedBy, Equivalent;
    if SolvesAll(constr, chain) {
      forall env, v | Solvable(normal, env, v) ensures Covered(normal, Found(normal), env) {
        ChainSolvesAt(constr, part, normal, chain, env);
      }
    }
    if Served(normal) {
      forall env, v | Solvable(constr, env, v) ensures SolvedBy(constr, chain, env) {
        ChainSolvesAt(constr, part, normal, chain, env);
      }
    }
  }

  lemma NormalizesMeans(simplify: Formula -> Formula, part: Formula, normal: Formula)
    requires Normalizes(simplify, part, normal)
    ensures Equivalent(normal, part) && (Affirms(part, true) ==> Affirms(normal, true))
  {
  }

  lemma ChainSolvesAt(constr: Formula, part: Formula, normal: Formula, chain: Term, env: Env)
    requires Pushing.Pos(constr) && Equivalent(part, Pushing.PushInNots(constr)) && Equivalent(normal, part)
    requires Chooses(chain, part, Found(normal), env)
    ensures forall v :: Solvable(constr, env, v) == Solvable(normal, env, v)
    ensures SolvedBy(constr, chain, env) <==> Covered(constr, Found(normal), env)
    ensures SolvedBy(constr, chain, env) <==> Covered(normal, Found(normal), env)
  {
    hide Found, Pushing.Pos, Pushing.PushInNots, Chooses, Covered, CoveredNearby, Solvable, SolvedBy, Equivalent;
    SolvableSame(constr, part, normal, env);
    SameCovered(constr, part, Found(normal), env);
    SameCovered(constr, normal, Found(normal), env);
    ChoosesCovered(chain, part, Found(normal), env);
  }

  lemma UnnegatedIsServed(simplify: Formula -> Formula, part: Formula, normal: Formula)
    requires Normalizes(simplify, part, normal) && !Fails(normal) && Unnegated(part, true)
    ensures Served(normal)
  {
    hide Found, Candidates, Tame, Unnegated, Affirms, Covered, Solvable, Normalizes, Fails;
    NormalizesMeans(simplify, part, normal);
    NormalizedScan(simplify, part, normal);
    UnnegatedAffirms(part, true);
    forall env, v | Solvable(normal, env, v) ensures Covered(normal, Found(normal), env) {
      UnnegatedIsCovered(normal, Found(normal), env, v);
    }
  }

  lemma SolvableSame(constr: Formula, part: Formula, normal: Formula, env: Env)
    requires Pushing.Pos(constr) && Equivalent(part, Pushing.PushInNots(constr)) && Equivalent(normal, part)
    ensures forall w :: Solvable(constr, env, w) == Solvable(part, env, w) == Solvable(normal, env, w)
  {
    hide Eval, With, Equivalent, Pushing.Pos, Pushing.PushInNots;
    forall w ensures Solvable(constr, env, w) == Solvable(part, env, w) == Solvable(normal, env, w) {
      SameTruth(constr, part, normal, With(env, w));
    }
  }

  lemma SameTruth(constr: Formula, part: Formula, normal: Formula, env: Env)
    requires Pushing.Pos(constr) && Equivalent(part, Pushing.PushInNots(constr)) && Equivalent(normal, part)
    ensures Eval(constr, env) == Eval(part, env) == Eval(normal, env)
  {
    hide Eval, Pushing.Pos, Pushing.PushInNots;
    Pushing.PushMeaning(constr, env);
  }
}
