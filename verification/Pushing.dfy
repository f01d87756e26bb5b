/** Pushing negations in until none is left. */
module Pushing {
  import opened Wrappers
  import opened Logic

  // ---- which formulas can be pushed ----

  /** No Boolean constant, variable, call or equivalence: only comparisons at the leaves. */
  predicate NoConst(f: Formula) {
    match f
    case Cmp(_, l, r) => true
    case Not(g) => NoConst(g)
    case And(fs) => forall i | 0 <= i < |fs| :: NoConst(fs[i])
    case Or(fs) => forall i | 0 <= i < |fs| :: NoConst(fs[i])
    case Implies(l, r) => NoConst(l) && NoConst(r)
    case Ite(c, t, e) => NoConst(c) && NoConst(t) && NoConst(e)
    case _ => false
  }

  /**
   * The formulas on which pushing ends (`EndsExactly`). A negation that arrives at anything but a comparison is
   * pushed for ever, so such leaves may only stand under an even number of negations, and not
   * inside a negated implication or conditional, whose pushed form is negated once more.
   */
  predicate Pos(f: Formula)
    decreases f, 0
  {
    match f
    case Cmp(_, l, r) => PosT(l) && PosT(r)
    case Not(g) => Neg(g)
    case And(fs) => forall i | 0 <= i < |fs| :: Pos(fs[i])
    case Or(fs) => forall i | 0 <= i < |fs| :: Pos(fs[i])
    case Implies(l, r) => Neg(l) && Pos(r)
    case Ite(c, t, e) => Neg(c) && Pos(c) && Pos(t) && Pos(e)
    case Iff(l, r) => Pos(l) && Pos(r)
    case Call(_, ts) => forall i | 0 <= i < |ts| :: PosT(ts[i])
    case True | False | BoolVar(_) => true
  }

  /** The formulas whose negation can be pushed. */
  predicate Neg(f: Formula)
    decreases f, 1
  {
    match f
    case Cmp(_, l, r) => PosT(l) && PosT(r)
    case Not(g) => Pos(g)
    case And(fs) => forall i | 0 <= i < |fs| :: Neg(fs[i])
    case Or(fs) => forall i | 0 <= i < |fs| :: Neg(fs[i])
    case Implies(_, _) => Pos(f) && NoConst(f)
    case Ite(_, _, _) => Pos(f) && NoConst(f)
    case _ => false
  }

  predicate PosT(t: Term)
    decreases t, 0
  {
    match t
    case Num(_) | Var(_) => true
    case Add(ts) => forall i | 0 <= i < |ts| :: PosT(ts[i])
    case Sub(l, r) => PosT(l) && PosT(r)
    case Mul(l, r) => PosT(l) && PosT(r)
    case TermIte(c, u, e) => Pos(c) && PosT(u) && PosT(e)
  }

  /** Free of negations, implications and Boolean conditionals, in the terms too. */
  predicate Pushed(f: Formula)
    decreases f
  {
    match f
    case Cmp(_, l, r) => PushedT(l) && PushedT(r)
    case And(fs) => forall i | 0 <= i < |fs| :: Pushed(fs[i])
    case Or(fs) => forall i | 0 <= i < |fs| :: Pushed(fs[i])
    case Iff(l, r) => Pushed(l) && Pushed(r)
    case Call(_, ts) => forall i | 0 <= i < |ts| :: PushedT(ts[i])
    case True | False | BoolVar(_) => true
    case Not(_) | Implies(_, _) | Ite(_, _, _) => false
  }

  predicate PushedT(t: Term)
    decreases t
  {
    match t
    case Num(_) | Var(_) => true
    case Add(ts) => forall i | 0 <= i < |ts| :: PushedT(ts[i])
    case Sub(l, r) => PushedT(l) && PushedT(r)
    case Mul(l, r) => PushedT(l) && PushedT(r)
    case TermIte(c, u, e) => Pushed(c) && PushedT(u) && PushedT(e)
  }

  // ---- why it ends ----

  function Max(a: nat, b: nat): (m: nat)
    ensures a <= m && b <= m && (m == a || m == b)
  {
    if a < b then b else a
  }

  /** How deeply implications and conditionals are nested. */
  function Nesting(f: Formula): nat
    decreases f, 0
  {
    match f
    case True | False | BoolVar(_) => 0
    case Cmp(_, l, r) => Max(NestingT(l), NestingT(r))
    case Iff(l, r) => Max(Nesting(l), Nesting(r))
    case Not(g) => Nesting(g)
    case And(fs) => Nestings(fs)
    case Or(fs) => Nestings(fs)
    case Implies(l, r) => 1 + Max(Nesting(l), Nesting(r))
    case Ite(c, t, e) => 1 + Max(Nesting(c), Max(Nesting(t), Nesting(e)))
    case Call(_, ts) => NestingsT(ts)
  }

  function Nestings(fs: seq<Formula>): nat
    decreases fs, 0
  {
    if fs == [] then 0 else Max(Nesting(fs[0]), Nestings(fs[1..]))
  }

  function NestingT(t: Term): nat
    decreases t, 0
  {
    match t
    case Num(_) | Var(_) => 0
    case Add(ts) => NestingsT(ts)
    case Sub(l, r) => Max(NestingT(l), NestingT(r))
    case Mul(l, r) => Max(NestingT(l), NestingT(r))
    case TermIte(c, u, e) => Max(Nesting(c), Max(NestingT(u), NestingT(e)))
  }

  function NestingsT(ts: seq<Term>): nat
    decreases ts, 0
  {
    if ts == [] then 0 else Max(NestingT(ts[0]), NestingsT(ts[1..]))
  }

  /** The length of the longest chain of calls, implications and conditionals aside, for a formula ... */
  function Steps(f: Formula): nat
    decreases f, 0
  {
    match f
    case True | False | BoolVar(_) => 0
    case Cmp(_, l, r) => 1 + Max(StepsT(l), StepsT(r))
    case Iff(l, r) => 1 + Max(Steps(l), Steps(r))
    case Not(g) => StepsNot(g)
    case And(fs) => 1 + StepsAll(fs)
    case Or(fs) => 1 + StepsAll(fs)
    case Implies(_, _) | Ite(_, _, _) => 0
    case Call(_, ts) => 1 + StepsTs(ts)
  }

  /** ... and for its negation. */
  function StepsNot(f: Formula): nat
    decreases f, 1
  {
    match f
    case Cmp(_, l, r) => 3 + Max(StepsT(l), StepsT(r))
    case Not(g) => 1 + Steps(g)
    case And(fs) => 2 + StepsNotAll(fs)
    case Or(fs) => 2 + StepsNotAll(fs)
    case _ => 1 + Steps(f)
  }

  function StepsAll(fs: seq<Formula>): nat
    decreases fs, 0
  {
    if fs == [] then 0 else Max(Steps(fs[0]), StepsAll(fs[1..]))
  }

  function StepsNotAll(fs: seq<Formula>): nat
    decreases fs, 0
  {
    if fs == [] then 0 else Max(StepsNot(fs[0]), StepsNotAll(fs[1..]))
  }

  function StepsT(t: Term): nat
    decreases t, 0
  {
    match t
    case Num(_) | Var(_) => 0
    case Add(ts) => 1 + StepsTs(ts)
    case Sub(l, r) => 1 + Max(StepsT(l), StepsT(r))
    case Mul(l, r) => 1 + Max(StepsT(l), StepsT(r))
    case TermIte(c, u, e) => 1 + Max(Steps(c), Max(StepsT(u), StepsT(e)))
  }

  function StepsTs(ts: seq<Term>): nat
    decreases ts, 0
  {
    if ts == [] then 0 else Max(StepsT(ts[0]), StepsTs(ts[1..]))
  }

  /** Nothing is nested in a pushed formula. */
  lemma {:induction false} PushedIsFlat(f: Formula)
    requires Pushed(f)
    ensures Nesting(f) == 0 && Pos(f) && (NoConst(f) ==> Neg(f))
    decreases f, 1
  {
    match f
    case Cmp(_, l, r) => PushedIsFlatT(l); PushedIsFlatT(r);
    case And(fs) => PushedAreFlat(fs);
    case Or(fs) => PushedAreFlat(fs);
    case Iff(l, r) => PushedIsFlat(l); PushedIsFlat(r);
    case Call(_, ts) => PushedAreFlatT(ts);
    case _ =>
  }

  lemma {:induction false} PushedAreFlat(fs: seq<Formula>)
    requires forall i | 0 <= i < |fs| :: Pushed(fs[i])
    ensures Nestings(fs) == 0
    ensures forall i | 0 <= i < |fs| :: Pos(fs[i]) && (NoConst(fs[i]) ==> Neg(fs[i]))
    decreases fs, 0
  {
    if fs != [] {
      PushedIsFlat(fs[0]);
      PushedAreFlat(fs[1..]);
      assert forall i | 0 < i < |fs| :: fs[i] == fs[1..][i - 1];
    }
  }

  lemma {:induction false} PushedIsFlatT(t: Term)
    requires PushedT(t)
    ensures NestingT(t) == 0 && PosT(t)
    decreases t, 1
  {
    match t
    case Add(ts) => PushedAreFlatT(ts);
    case Sub(l, r) => PushedIsFlatT(l); PushedIsFlatT(r);
    case Mul(l, r) => PushedIsFlatT(l); PushedIsFlatT(r);
    case TermIte(c, u, e) => PushedIsFlat(c); PushedIsFlatT(u); PushedIsFlatT(e);
    case _ =>
  }

  lemma {:induction false} PushedAreFlatT(ts: seq<Term>)
    requires forall i | 0 <= i < |ts| :: PushedT(ts[i])
    ensures NestingsT(ts) == 0
    ensures forall i | 0 <= i < |ts| :: PosT(ts[i])
    decreases ts, 0
  {
    if ts != [] {
      PushedIsFlatT(ts[0]);
      PushedAreFlatT(ts[1..]);
      assert forall i | 0 < i < |ts| :: ts[i] == ts[1..][i - 1];
    }
  }

  function Negated(fs: seq<Formula>): (ns: seq<Formula>)
    ensures |ns| == |fs| && forall i | 0 <= i < |fs| :: ns[i] == Not(fs[i])
  {
    seq(|fs|, i requires 0 <= i < |fs| => Not(fs[i]))
  }

  /** Negating the arguments keeps the nesting and costs what the negation of the whole did. */
  lemma {:induction false} NegatedMeasure(fs: seq<Formula>)
    ensures Nestings(Negated(fs)) == Nestings(fs) && StepsAll(Negated(fs)) == StepsNotAll(fs)
  {
    if fs != [] {
      NegatedMeasure(fs[1..]);
      assert Negated(fs)[1..] == Negated(fs[1..]);
    }
  }

  /** `Or([a, b])` and the like. */
  lemma PairMeasure(a: Formula, b: Formula)
    ensures Nestings([a, b]) == Max(Nesting(a), Nesting(b)) && StepsAll([a, b]) == Max(Steps(a), Steps(b))
  {
    assert [a, b][1..] == [b] && [b][1..] == [];
    assert Nestings([b]) == Nesting(b) && StepsAll([b]) == Steps(b);
  }

  /** The formula one call is turned into, for a negation. */
  function NotStep(g: Formula): Formula
    requires g.Not? || g.And? || g.Or? || g.Cmp?
  {
    match g
    case Not(h) => h
    case And(fs) => Or(Negated(fs))
    case Or(fs) => And(Negated(fs))
    case Cmp(Ge, l, r) => Cmp(Lt, l, r)
    case Cmp(Gt, l, r) => Cmp(Le, l, r)
    case Cmp(Lt, l, r) => Cmp(Ge, l, r)
    case Cmp(Le, l, r) => Cmp(Gt, l, r)
    case Cmp(Eq, l, r) => Or([Cmp(Lt, l, r), Cmp(Gt, l, r)])
  }

  function IteStep(c: Formula, t: Formula, e: Formula): Formula { And([Or([Not(c), t]), Or([c, e])]) }

  lemma NotStepMeasure(g: Formula)
    requires !g.Implies? && !g.Ite? && Neg(g)
    ensures Pos(NotStep(g)) && Nesting(NotStep(g)) == Nesting(g) && Steps(NotStep(g)) < StepsNot(g)
    ensures NoConst(g) ==> NoConst(NotStep(g))
  {
    match g
    case And(_) => NotConnectiveMeasure(g);
    case Or(_) => NotConnectiveMeasure(g);
    case Cmp(_, _, _) => NotCmpMeasure(g);
    case _ =>
  }

  lemma NotConnectiveMeasure(g: Formula)
    requires (g.And? || g.Or?) && Neg(g)
    ensures Pos(NotStep(g)) && Nesting(NotStep(g)) == Nesting(g) && Steps(NotStep(g)) < StepsNot(g)
    ensures NoConst(g) ==> NoConst(NotStep(g))
  {
    hide PosT, StepsT, NestingT;
    NegatedMeasure(g.fs);
    assert NotStep(g).fs == Negated(g.fs);
  }

  lemma NotCmpMeasure(g: Formula)
    requires g.Cmp? && Neg(g)
    ensures Pos(NotStep(g)) && Nesting(NotStep(g)) == Nesting(g) && Steps(NotStep(g)) < StepsNot(g) && NoConst(NotStep(g))
  {
    hide PosT, StepsT, NestingT;
    if g.op == Eq { PairMeasure(Cmp(Lt, g.lhs, g.rhs), Cmp(Gt, g.lhs, g.rhs)); }
  }

  lemma IteStepMeasure(c: Formula, t: Formula, e: Formula)
    requires Pos(Ite(c, t, e))
    ensures Pos(IteStep(c, t, e)) && Nesting(IteStep(c, t, e)) < Nesting(Ite(c, t, e))
    ensures NoConst(Ite(c, t, e)) ==> NoConst(IteStep(c, t, e))
  {
    PairMeasure(Not(c), t);
    PairMeasure(c, e);
    PairMeasure(Or([Not(c), t]), Or([c, e]));
  }

  lemma ImpliesMeasure(l: Formula, r: Formula)
    requires Pos(Implies(l, r))
    ensures Pos(Or([Not(l), r])) && Nesting(Or([Not(l), r])) < Nesting(Implies(l, r))
    ensures NoConst(Implies(l, r)) ==> NoConst(Or([Not(l), r]))
  {
    PairMeasure(Not(l), r);
  }

  lemma NotConditional(g: Formula)
    requires (g.Implies? || g.Ite?) && Neg(g)
    ensures Pos(g) && NoConst(g) && 0 < Nesting(g) && Steps(g) < StepsNot(g)
  {
  }

  lemma NotPushed(p: Formula)
    requires Pushed(p) && NoConst(p)
    ensures Neg(p) && Nesting(p) == 0
  {
    hide Pushed, NoConst, Neg;
    PushedIsFlat(p);
  }

  // ---- pushing ----

  /** `pushInNots`. */
  function PushInNots(f: Formula): (r: Formula)
    requires Pos(f)
    ensures Pushed(r) && (NoConst(f) ==> NoConst(r))
    decreases Nesting(f), Steps(f), 1
  {
    match f
    case True | False | BoolVar(_) => f
    case Not(g) => PushNot(g)
    case Implies(l, r) =>
      ImpliesMeasure(l, r);
      PushInNots(Or([Not(l), r]))
    case Ite(c, t, e) =>
      IteStepMeasure(c, t, e);
      PushInNots(IteStep(c, t, e))
    case And(fs) => And(PushAll(fs))
    case Or(fs) => Or(PushAll(fs))
    case Iff(l, r) => Iff(PushInNots(l), PushInNots(r))
    case Cmp(op, l, r) => Cmp(op, PushTerm(l), PushTerm(r))
    case Call(p, ts) => Call(p, PushTerms(ts))
  }

  /** `pushInNots` of the negation of `g`; the pushed form of a conditional is negated and pushed again. */
  function PushNot(g: Formula): (r: Formula)
    requires Neg(g)
    ensures Pushed(r) && (NoConst(g) ==> NoConst(r))
    decreases Nesting(g), StepsNot(g), 0
  {
    if g.Implies? || g.Ite? then
      NotConditional(g);
      var pushed := PushInNots(g);
      NotPushed(pushed);
      PushNot(pushed)
    else
      NotStepMeasure(g);
      PushInNots(NotStep(g))
  }

  function PushAll(fs: seq<Formula>): (rs: seq<Formula>)
    requires forall i | 0 <= i < |fs| :: Pos(fs[i])
    ensures |rs| == |fs| && forall i | 0 <= i < |fs| :: Pushed(rs[i]) && (NoConst(fs[i]) ==> NoConst(rs[i]))
    decreases Nestings(fs), StepsAll(fs), 1 + |fs|
  {
    if fs == [] then [] else [PushInNots(fs[0])] + PushAll(fs[1..])
  }

  function PushTerm(t: Term): (r: Term)
    requires PosT(t)
    ensures PushedT(r)
    decreases NestingT(t), StepsT(t), 0
  {
    match t
    case Num(_) | Var(_) => t
    case Add(ts) => Add(PushTerms(ts))
    case Sub(l, r) => Sub(PushTerm(l), PushTerm(r))
    case Mul(l, r) => Mul(PushTerm(l), PushTerm(r))
    case TermIte(c, u, e) => TermIte(PushInNots(c), PushTerm(u), PushTerm(e))
  }

  function PushTerms(ts: seq<Term>): (rs: seq<Term>)
    requires forall i | 0 <= i < |ts| :: PosT(ts[i])
    ensures |rs| == |ts| && forall i | 0 <= i < |ts| :: PushedT(rs[i])
    decreases NestingsT(ts), StepsTs(ts), 1 + |ts|
  {
    if ts == [] then [] else [PushTerm(ts[0])] + PushTerms(ts[1..])
  }

  // ---- meaning ----

  lemma NotStepMeaning(g: Formula, env: Env)
    requires !g.Implies? && !g.Ite? && Neg(g)
    ensures Eval(NotStep(g), env) == !Eval(g, env)
  {
    hide Neg, EvalT;
    NegShape(g);
    if g.And? || g.Or? {
      assert NotStep(g).fs == Negated(g.fs);
      assert forall i | 0 <= i < |g.fs| :: Eval(Negated(g.fs)[i], env) == !Eval(g.fs[i], env);
    } else if g.Cmp? && g.op == Eq {
      PairMeaning(Cmp(Lt, g.lhs, g.rhs), Cmp(Gt, g.lhs, g.rhs), env);
    }
  }

  lemma NegShape(g: Formula)
    requires Neg(g)
    ensures g.Not? || g.And? || g.Or? || g.Cmp? || g.Implies? || g.Ite?
  {
  }

  lemma IteStepMeaning(c: Formula, t: Formula, e: Formula, env: Env)
    ensures Eval(IteStep(c, t, e), env) == Eval(Ite(c, t, e), env)
  {
    hide Eval;
    PairMeaning(Not(c), t, env);
    PairMeaning(c, e, env);
    PairMeaning(Or([Not(c), t]), Or([c, e]), env);
    NotMeaning(c, env);
    IteMeaning(c, t, e, env);
  }

  lemma IteMeaning(c: Formula, t: Formula, e: Formula, env: Env)
    ensures Eval(Ite(c, t, e), env) == if Eval(c, env) then Eval(t, env) else Eval(e, env)
  {
  }

  /** Pushing keeps the meaning. */
  lemma {:induction false} PushMeaning(f: Formula, env: Env)
    requires Pos(f)
    ensures Eval(PushInNots(f), env) == Eval(f, env)
    decreases Nesting(f), Steps(f), 1
  {
    hide Neg, IteStep, PushInNots, Sum, Values, EvalT;
    PushCases(f);
    match f
    case True | False | BoolVar(_) =>
    case Not(g) => PushNotMeaning(g, env);
    case Implies(l, r) =>
      ImpliesMeasure(l, r);
      PushMeaning(Or([Not(l), r]), env);
      PairMeaning(Not(l), r, env);
    case Ite(c, t, e) =>
      IteStepMeasure(c, t, e);
      PushMeaning(IteStep(c, t, e), env);
      IteStepMeaning(c, t, e, env);
    case And(fs) => PushAllMeaning(fs, env);
    case Or(fs) => PushAllMeaning(fs, env);
    case Iff(l, r) =>
      PushMeaning(l, env);
      PushMeaning(r, env);
    case Cmp(_, l, r) =>
      PushTermMeaning(l, env);
      PushTermMeaning(r, env);
    case Call(_, ts) => PushTermsMeaning(ts, env);
  }

  lemma PushCases(f: Formula)
    requires Pos(f)
    ensures match f {
      case True | False | BoolVar(_) => PushInNots(f) == f
      case Not(g) => Neg(g) && PushInNots(f) == PushNot(g)
      case Implies(l, r) => Pos(Or([Not(l), r])) && PushInNots(f) == PushInNots(Or([Not(l), r]))
      case Ite(c, t, e) => Pos(IteStep(c, t, e)) && PushInNots(f) == PushInNots(IteStep(c, t, e))
      case And(fs) => PushInNots(f) == And(PushAll(fs))
      case Or(fs) => PushInNots(f) == Or(PushAll(fs))
      case Iff(l, r) => PushInNots(f) == Iff(PushInNots(l), PushInNots(r))
      case Cmp(op, l, r) => PushInNots(f) == Cmp(op, PushTerm(l), PushTerm(r))
      case Call(p, ts) => PushInNots(f) == Call(p, PushTerms(ts))
    }
  {
    hide Neg, IteStep;
    if f.Ite? { IteStepMeasure(f.cond, f.then_, f.else_); }
    if f.Implies? { ImpliesMeasure(f.left, f.right); }
  }

  lemma {:induction false} PushNotMeaning(g: Formula, env: Env)
    requires Neg(g)
    ensures Eval(PushNot(g), env) == !Eval(g, env)
    decreases Nesting(g), StepsNot(g), 0
  {
    hide Eval;
    if g.Implies? || g.Ite? {
      NotConditional(g);
      var pushed := PushInNots(g);
      NotPushed(pushed);
      PushMeaning(g, env);
      PushNotMeaning(pushed, env);
    } else {
      NotStepMeasure(g);
      PushMeaning(NotStep(g), env);
      NotStepMeaning(g, env);
    }
  }

  lemma NotMeaning(g: Formula, env: Env)
    ensures Eval(Not(g), env) == !Eval(g, env)
  {
  }

  lemma {:induction false} PushAllMeaning(fs: seq<Formula>, env: Env)
    requires forall i | 0 <= i < |fs| :: Pos(fs[i])
    ensures forall i | 0 <= i < |fs| :: Eval(PushAll(fs)[i], env) == Eval(fs[i], env)
    decreases Nestings(fs), StepsAll(fs), 1 + |fs|
  {
    hide Eval, Pos;
    if fs != [] {
      PushMeaning(fs[0], env);
      PushAllMeaning(fs[1..], env);
    }
  }

  lemma {:induction false} PushTermMeaning(t: Term, env: Env)
    requires PosT(t)
    ensures EvalT(PushTerm(t), env) == EvalT(t, env)
    decreases NestingT(t), StepsT(t), 0
  {
    match t
    case Num(_) | Var(_) =>
    case Add(ts) => PushTermsMeaning(ts, env);
    case Sub(l, r) =>
      PushTermMeaning(l, env);
      PushTermMeaning(r, env);
    case Mul(l, r) =>
      PushTermMeaning(l, env);
      PushTermMeaning(r, env);
    case TermIte(c, u, e) =>
      PushMeaning(c, env);
      PushTermMeaning(u, env);
      PushTermMeaning(e, env);
  }

  lemma {:induction false} PushTermsMeaning(ts: seq<Term>, env: Env)
    requires forall i | 0 <= i < |ts| :: PosT(ts[i])
    ensures Sum(PushTerms(ts), env) == Sum(ts, env) && Values(PushTerms(ts), env) == Values(ts, env)
    decreases NestingsT(ts), StepsTs(ts), 1 + |ts|
  {
    if ts != [] {
      PushTermMeaning(ts[0], env);
      PushTermsMeaning(ts[1..], env);
    }
  }

  // ---- where it ends ----

  /** Only comparisons at the leaves, in the conditions of terms too. */
  predicate Comparisons(f: Formula)
    decreases f
  {
    match f
    case Cmp(_, l, r) => ComparisonsT(l) && ComparisonsT(r)
    case Not(g) => Comparisons(g)
    case And(fs) => forall i | 0 <= i < |fs| :: Comparisons(fs[i])
    case Or(fs) => forall i | 0 <= i < |fs| :: Comparisons(fs[i])
    case Implies(l, r) => Comparisons(l) && Comparisons(r)
    case Ite(c, t, e) => Comparisons(c) && Comparisons(t) && Comparisons(e)
    case _ => false
  }

  predicate ComparisonsT(t: Term)
    decreases t
  {
    match t
    case Num(_) | Var(_) => true
    case Add(ts) => forall i | 0 <= i < |ts| :: ComparisonsT(ts[i])
    case Sub(l, r) => ComparisonsT(l) && ComparisonsT(r)
    case Mul(l, r) => ComparisonsT(l) && ComparisonsT(r)
    case TermIte(c, u, e) => Comparisons(c) && ComparisonsT(u) && ComparisonsT(e)
  }

  /** Every combination of comparisons can be pushed, and so can its negation. */
  lemma {:induction false} ComparisonsArePushed(f: Formula)
    requires Comparisons(f)
    ensures Pos(f) && Neg(f) && NoConst(f)
    decreases f
  {
    match f
    case Cmp(_, l, r) => ComparisonsArePushedT(l); ComparisonsArePushedT(r);
    case Not(g) => ComparisonsArePushed(g);
    case And(fs) => forall i | 0 <= i < |fs| ensures Pos(fs[i]) && Neg(fs[i]) && NoConst(fs[i]) { ComparisonsArePushed(fs[i]); }
    case Or(fs) => forall i | 0 <= i < |fs| ensures Pos(fs[i]) && Neg(fs[i]) && NoConst(fs[i]) { ComparisonsArePushed(fs[i]); }
    case Implies(l, r) => ComparisonsArePushed(l); ComparisonsArePushed(r);
    case Ite(c, t, e) => ComparisonsArePushed(c); ComparisonsArePushed(t); ComparisonsArePushed(e);
  }

  lemma {:induction false} ComparisonsArePushedT(t: Term)
    requires ComparisonsT(t)
    ensures PosT(t)
    decreases t
  {
    match t
    case Num(_) | Var(_) =>
    case Add(ts) => forall i | 0 <= i < |ts| ensures PosT(ts[i]) { ComparisonsArePushedT(ts[i]); }
    case Sub(l, r) => ComparisonsArePushedT(l); ComparisonsArePushedT(r);
    case Mul(l, r) => ComparisonsArePushedT(l); ComparisonsArePushedT(r);
    case TermIte(c, u, e) => ComparisonsArePushed(c); ComparisonsArePushedT(u); ComparisonsArePushedT(e);
  }

  /**
   `pushInNots` on any formula, with calls nested at most `n` deep; `None` where that is not enough, or where the
   comparison of two truth values would have to be negated, which fails.
   */
  function Within(f: Formula, n: nat): Option<Formula>
    decreases n, 0, 0
  {
    if n == 0 then None
    else match f
      case True | False | BoolVar(_) => Some(f)
      case Not(g) =>
        if g.Not? || g.And? || g.Or? || g.Cmp? then Within(NotStep(g), n - 1)
        else if g.Iff? then None
        else
          var p := Within(g, n - 1);
          if p.None? then None else Within(Not(p.value), n - 1)
      case Implies(l, r) => Within(Or([Not(l), r]), n - 1)
      case Ite(c, t, e) => Within(IteStep(c, t, e), n - 1)
      case And(fs) => var rs := AllWithin(fs, n - 1); if rs.None? then None else Some(And(rs.value))
      case Or(fs) => var rs := AllWithin(fs, n - 1); if rs.None? then None else Some(Or(rs.value))
      case Iff(l, r) =>
        var a, b := Within(l, n - 1), Within(r, n - 1);
        if a.None? || b.None? then None else Some(Iff(a.value, b.value))
      case Cmp(op, l, r) =>
        var a, b := TermWithin(l, n - 1), TermWithin(r, n - 1);
        if a.None? || b.None? then None else Some(Cmp(op, a.value, b.value))
      case Call(p, ts) => var us := TermsWithin(ts, n - 1); if us.None? then None else Some(Call(p, us.value))
  }

  function AllWithin(fs: seq<Formula>, n: nat): Option<seq<Formula>>
    decreases n, 1, |fs|
  {
    if fs == [] then Some([])
    else
      var h, t := Within(fs[0], n), AllWithin(fs[1..], n);
      if h.None? || t.None? then None else Some([h.value] + t.value)
  }

  function TermWithin(t: Term, n: nat): Option<Term>
    decreases n, 0, 0
  {
    if n == 0 then None
    else match t
      case Num(_) | Var(_) => Some(t)
      case Add(ts) => var us := TermsWithin(ts, n - 1); if us.None? then None else Some(Add(us.value))
      case Sub(l, r) =>
        var a, b := TermWithin(l, n - 1), TermWithin(r, n - 1);
        if a.None? || b.None? then None else Some(Sub(a.value, b.value))
      case Mul(l, r) =>
        var a, b := TermWithin(l, n - 1), TermWithin(r, n - 1);
        if a.None? || b.None? then None else Some(Mul(a.value, b.value))
      case TermIte(c, u, e) =>
        var a, b, d := Within(c, n - 1), TermWithin(u, n - 1), TermWithin(e, n - 1);
        if a.None? || b.None? || d.None? then None else Some(TermIte(a.value, b.value, d.value))
  }

  function TermsWithin(ts: seq<Term>, n: nat): Option<seq<Term>>
    decreases n, 1, |ts|
  {
    if ts == [] then Some([])
    else
      var h, t := TermWithin(ts[0], n), TermsWithin(ts[1..], n);
      if h.None? || t.None? then None else Some([h.value] + t.value)
  }

  // what an answer tells

  /** A pushed formula whose negation can be pushed has comparisons at its leaves. */
  lemma {:induction false} PushedNegation(p: Formula)
    requires Pushed(p) && Neg(p)
    ensures NoConst(p)
  {
    match p
    case And(fs) => forall i | 0 <= i < |fs| ensures NoConst(fs[i]) { PushedNegation(fs[i]); }
    case Or(fs) => forall i | 0 <= i < |fs| ensures NoConst(fs[i]) { PushedNegation(fs[i]); }
    case _ =>
  }

  lemma NotStepConst(g: Formula)
    requires g.Not? || g.And? || g.Or? || g.Cmp?
    ensures NoConst(NotStep(g)) ==> NoConst(g)
    ensures Pos(NotStep(g)) ==> Neg(g)
  {
    hide PosT;
    if g.And? || g.Or? {
      assert NotStep(g).fs == Negated(g.fs);
      forall i | 0 <= i < |g.fs|
        ensures NoConst(Negated(g.fs)[i]) ==> NoConst(g.fs[i])
        ensures Pos(Negated(g.fs)[i]) ==> Neg(g.fs[i])
      {
      }
    } else if g.Cmp? && g.op == Eq {
      PairsConst(Cmp(Lt, g.lhs, g.rhs), Cmp(Gt, g.lhs, g.rhs));
    }
  }

  lemma PairsConst(l: Formula, r: Formula)
    ensures NoConst(Or([l, r])) <==> NoConst(l) && NoConst(r)
    ensures NoConst(And([l, r])) <==> NoConst(l) && NoConst(r)
    ensures Pos(Or([l, r])) <==> Pos(l) && Pos(r)
    ensures Pos(And([l, r])) <==> Pos(l) && Pos(r)
  {
    assert [l, r][0] == l && [l, r][1] == r;
  }

  lemma StepsConst(c: Formula, t: Formula, e: Formula)
    ensures NoConst(Or([Not(c), t])) ==> NoConst(Implies(c, t))
    ensures Pos(Or([Not(c), t])) ==> Pos(Implies(c, t))
    ensures NoConst(IteStep(c, t, e)) ==> NoConst(Ite(c, t, e))
    ensures Pos(IteStep(c, t, e)) ==> Pos(Ite(c, t, e))
  {
    PairsConst(Not(c), t);
    PairsConst(c, e);
    PairsConst(Or([Not(c), t]), Or([c, e]));
  }

  /** Pushing loses no Boolean constant. */
  lemma {:induction false} ConstsStay(f: Formula)
    requires Pos(f) && NoConst(PushInNots(f))
    ensures NoConst(f)
    decreases Nesting(f), Steps(f), 1
  {
    hide Neg, NoConst, IteStep, PushInNots;
    PushCases(f);
    match f
    case Not(g) => ConstsStayNot(g); NotIsConst(g);
    case Implies(l, r) =>
      ImpliesMeasure(l, r);
      ConstsStay(Or([Not(l), r]));
      StepsConst(l, r, r);
    case Ite(c, t, e) =>
      IteStepMeasure(c, t, e);
      ConstsStay(IteStep(c, t, e));
      StepsConst(c, t, e);
    case And(fs) =>
      EachConst(PushAll(fs));
      ConstsStayAll(fs);
      EachConst(fs);
    case Or(fs) =>
      EachConst(PushAll(fs));
      ConstsStayAll(fs);
      EachConst(fs);
    case Cmp(_, _, _) => CmpIsConst(f);
    case _ => CmpIsConst(PushInNots(f));
  }

  lemma CmpIsConst(f: Formula)
    ensures f.Cmp? ==> NoConst(f)
    ensures f.True? || f.False? || f.BoolVar? || f.Iff? || f.Call? ==> !NoConst(f)
  {
  }

  lemma NotIsConst(g: Formula)
    ensures NoConst(Not(g)) <==> NoConst(g)
  {
  }

  lemma {:induction false} ConstsStayNot(g: Formula)
    requires Neg(g) && NoConst(PushNot(g))
    ensures NoConst(g)
    decreases Nesting(g), StepsNot(g), 0
  {
    hide NoConst;
    if g.Implies? || g.Ite? {
      NotConditional(g);
    } else {
      NotStepMeasure(g);
      ConstsStay(NotStep(g));
      NotStepConst(g);
    }
  }

  lemma EachConst(fs: seq<Formula>)
    ensures NoConst(And(fs)) <==> forall i | 0 <= i < |fs| :: NoConst(fs[i])
    ensures NoConst(Or(fs)) <==> forall i | 0 <= i < |fs| :: NoConst(fs[i])
  {
  }

  lemma {:induction false} ConstsStayAll(fs: seq<Formula>)
    requires forall i | 0 <= i < |fs| :: Pos(fs[i])
    requires forall i | 0 <= i < |fs| :: NoConst(PushAll(fs)[i])
    ensures forall i | 0 <= i < |fs| :: NoConst(fs[i])
    decreases Nestings(fs), StepsAll(fs), 1 + |fs|
  {
    hide NoConst, Pos;
    if fs != [] {
      assert PushAll(fs)[0] == PushInNots(fs[0]);
      ConstsStay(fs[0]);
      assert forall i | 0 <= i < |fs[1..]| :: PushAll(fs[1..])[i] == PushAll(fs)[i + 1];
      ConstsStayAll(fs[1..]);
    }
  }

  /** Where the calls end, the formula is one of those that can be pushed, and the answer is the one above. */
  lemma {:induction false} EndedIsPos(f: Formula, n: nat)
    requires Within(f, n).Some?
    ensures Pos(f) && Within(f, n).value == PushInNots(f)
    decreases n, 0, 1
  {
    hide Pos, Neg, IteStep, NotStep, NoConst, PushInNots, PushNot;
    match f
    case True | False | BoolVar(_) => ConstIsPos(f); PushCases(f);
    case Not(g) => EndedNot(g, n);
    case Implies(l, r) =>
      EndedIsPos(Or([Not(l), r]), n - 1);
      StepsConst(l, r, r);
      PushCases(f);
    case Ite(c, t, e) =>
      EndedIsPos(IteStep(c, t, e), n - 1);
      StepsConst(c, t, e);
      PushCases(f);
    case And(fs) =>
      EndedAll(fs, n - 1);
      ConnectiveIsPos(fs);
      PushCases(f);
    case Or(fs) =>
      EndedAll(fs, n - 1);
      ConnectiveIsPos(fs);
      PushCases(f);
    case Iff(l, r) =>
      EndedIsPos(l, n - 1);
      EndedIsPos(r, n - 1);
      IffIsPos(l, r);
      PushCases(f);
    case Cmp(op, l, r) =>
      EndedTerm(l, n - 1);
      EndedTerm(r, n - 1);
      CmpIsPos(f);
      PushCases(f);
    case Call(p, ts) =>
      EndedTerms(ts, n - 1);
      CallIsPos(p, ts);
      PushCases(f);
  }

  lemma ConstIsPos(f: Formula)
    requires f.True? || f.False? || f.BoolVar?
    ensures Pos(f)
  {
  }

  lemma ConnectiveIsPos(fs: seq<Formula>)
    requires forall i | 0 <= i < |fs| :: Pos(fs[i])
    ensures Pos(And(fs)) && Pos(Or(fs))
  {
  }

  lemma IffIsPos(l: Formula, r: Formula)
    requires Pos(l) && Pos(r)
    ensures Pos(Iff(l, r))
  {
  }

  lemma CmpIsPos(f: Formula)
    requires f.Cmp? && PosT(f.lhs) && PosT(f.rhs)
    ensures Pos(f)
  {
  }

  lemma CallIsPos(p: string, ts: seq<Term>)
    requires forall i | 0 <= i < |ts| :: PosT(ts[i])
    ensures Pos(Call(p, ts))
  {
  }

  lemma NotIsPos(g: Formula)
    ensures Pos(Not(g)) <==> Neg(g)
  {
  }

  lemma PushNotCases(g: Formula)
    requires Neg(g)
    ensures g.Implies? || g.Ite? ==> Pos(g) && Neg(PushInNots(g)) && PushNot(g) == PushNot(PushInNots(g))
    ensures !g.Implies? && !g.Ite? ==> (g.Not? || g.And? || g.Or? || g.Cmp?) && Pos(NotStep(g)) && PushNot(g) == PushInNots(NotStep(g))
  {
    NegShape(g);
    if g.Implies? || g.Ite? {
      NotConditional(g);
      NotPushed(PushInNots(g));
    } else {
      NotStepMeasure(g);
    }
  }

  lemma ConditionalIsNeg(g: Formula)
    requires Pos(g) && NoConst(g)
    ensures g.Implies? || g.Ite? ==> Neg(g)
  {
  }

  /** The pushed form of a constant, a variable or a call is one again. */
  lemma LeafStays(g: Formula)
    requires Pos(g)
    ensures g.True? || g.False? || g.BoolVar? || g.Call? ==> !Neg(PushInNots(g))
  {
  }

  lemma {:induction false} EndedNot(g: Formula, n: nat)
    requires Within(Not(g), n).Some?
    ensures Neg(g) && Pos(Not(g)) && Within(Not(g), n).value == PushInNots(Not(g))
    decreases n, 0, 0
  {
    hide Pos, Neg, IteStep, NotStep, NoConst, PushInNots, PushNot, Pushed;
    NotIsPos(g);
    if g.Not? || g.And? || g.Or? || g.Cmp? {
      EndedIsPos(NotStep(g), n - 1);
      NotStepConst(g);
    } else {
      EndedIsPos(g, n - 1);
      var p := PushInNots(g);
      EndedNot(p, n - 1);
      LeafStays(g);
      PushedNegation(p);
      ConstsStay(g);
      ConditionalIsNeg(g);
      PushCases(Not(p));
    }
    PushNotCases(g);
    PushCases(Not(g));
  }

  lemma {:induction false} EndedAll(fs: seq<Formula>, n: nat)
    requires AllWithin(fs, n).Some?
    ensures (forall i | 0 <= i < |fs| :: Pos(fs[i])) && AllWithin(fs, n).value == PushAll(fs)
    decreases n, 1, |fs|
  {
    hide Pos, Within;
    if fs != [] {
      EndedIsPos(fs[0], n);
      EndedAll(fs[1..], n);
    }
  }

  lemma {:induction false} EndedTerm(t: Term, n: nat)
    requires TermWithin(t, n).Some?
    ensures PosT(t) && TermWithin(t, n).value == PushTerm(t)
    decreases n, 0, 0
  {
    match t
    case Num(_) | Var(_) =>
    case Add(ts) => EndedTerms(ts, n - 1);
    case Sub(l, r) => EndedTerm(l, n - 1); EndedTerm(r, n - 1);
    case Mul(l, r) => EndedTerm(l, n - 1); EndedTerm(r, n - 1);
    case TermIte(c, u, e) => EndedIsPos(c, n - 1); EndedTerm(u, n - 1); EndedTerm(e, n - 1);
  }

  lemma {:induction false} EndedTerms(ts: seq<Term>, n: nat)
    requires TermsWithin(ts, n).Some?
    ensures (forall i | 0 <= i < |ts| :: PosT(ts[i])) && TermsWithin(ts, n).value == PushTerms(ts)
    decreases n, 1, |ts|
  {
    if ts != [] {
      EndedTerm(ts[0], n);
      EndedTerms(ts[1..], n);
    }
  }

  // more calls change nothing

  lemma {:induction false} MoreCalls(f: Formula, n: nat, m: nat)
    requires Within(f, n).Some? && n <= m
    ensures Within(f, m) == Within(f, n)
    decreases n, 0, 0
  {
    hide IteStep, NotStep;
    match f
    case True | False | BoolVar(_) =>
    case Not(g) =>
      if g.Not? || g.And? || g.Or? || g.Cmp? {
        MoreCalls(NotStep(g), n - 1, m - 1);
      } else {
        MoreCalls(g, n - 1, m - 1);
        MoreCalls(Not(Within(g, n - 1).value), n - 1, m - 1);
      }
    case Implies(l, r) => MoreCalls(Or([Not(l), r]), n - 1, m - 1);
    case Ite(c, t, e) => MoreCalls(IteStep(c, t, e), n - 1, m - 1);
    case And(fs) => MoreCallsAll(fs, n - 1, m - 1);
    case Or(fs) => MoreCallsAll(fs, n - 1, m - 1);
    case Iff(l, r) => MoreCalls(l, n - 1, m - 1); MoreCalls(r, n - 1, m - 1);
    case Cmp(_, l, r) => MoreCallsT(l, n - 1, m - 1); MoreCallsT(r, n - 1, m - 1);
    case Call(_, ts) => MoreCallsTs(ts, n - 1, m - 1);
  }

  lemma {:induction false} MoreCallsAll(fs: seq<Formula>, n: nat, m: nat)
    requires AllWithin(fs, n).Some? && n <= m
    ensures AllWithin(fs, m) == AllWithin(fs, n)
    decreases n, 1, |fs|
  {
    hide Within;
    if fs != [] {
      MoreCalls(fs[0], n, m);
      MoreCallsAll(fs[1..], n, m);
    }
  }

  lemma {:induction false} MoreCallsT(t: Term, n: nat, m: nat)
    requires TermWithin(t, n).Some? && n <= m
    ensures TermWithin(t, m) == TermWithin(t, n)
    decreases n, 0, 0
  {
    match t
    case Num(_) | Var(_) =>
    case Add(ts) => MoreCallsTs(ts, n - 1, m - 1);
    case Sub(l, r) => MoreCallsT(l, n - 1, m - 1); MoreCallsT(r, n - 1, m - 1);
    case Mul(l, r) => MoreCallsT(l, n - 1, m - 1); MoreCallsT(r, n - 1, m - 1);
    case TermIte(c, u, e) => MoreCalls(c, n - 1, m - 1); MoreCallsT(u, n - 1, m - 1); MoreCallsT(e, n - 1, m - 1);
  }

  lemma {:induction false} MoreCallsTs(ts: seq<Term>, n: nat, m: nat)
    requires TermsWithin(ts, n).Some? && n <= m
    ensures TermsWithin(ts, m) == TermsWithin(ts, n)
    decreases n, 1, |ts|
  {
    if ts != [] {
      MoreCallsT(ts[0], n, m);
      MoreCallsTs(ts[1..], n, m);
    }
  }

  // enough calls

  /** The calls end for every formula that can be pushed. */
  lemma {:induction false} PosEnds(f: Formula) returns (n: nat)
    requires Pos(f)
    ensures Within(f, n).Some?
    decreases Nesting(f), Steps(f), 1
  {
    hide Neg, IteStep, PushInNots, NotStep;
    match f
    case True | False | BoolVar(_) => n := 1;
    case Not(g) => n := NegEnds(g);
    case Implies(l, r) =>
      ImpliesMeasure(l, r);
      n := PosEnds(Or([Not(l), r]));
      n := n + 1;
    case Ite(c, t, e) =>
      IteStepMeasure(c, t, e);
      n := PosEnds(IteStep(c, t, e));
      n := n + 1;
    case And(fs) => n := AllEnd(fs); n := n + 1;
    case Or(fs) => n := AllEnd(fs); n := n + 1;
    case Iff(l, r) =>
      var a := PosEnds(l);
      var b := PosEnds(r);
      n := Max(a, b) + 1;
      MoreCalls(l, a, n - 1);
      MoreCalls(r, b, n - 1);
    case Cmp(_, l, r) =>
      var a := TermEnds(l);
      var b := TermEnds(r);
      n := Max(a, b) + 1;
      MoreCallsT(l, a, n - 1);
      MoreCallsT(r, b, n - 1);
    case Call(_, ts) => n := TermsEnd(ts); n := n + 1;
  }

  lemma {:induction false} NegEnds(g: Formula) returns (n: nat)
    requires Neg(g)
    ensures Within(Not(g), n).Some?
    decreases Nesting(g), StepsNot(g), 0
  {
    hide Neg, IteStep, PushInNots, NotStep, Pushed, NoConst;
    NegShape(g);
    if g.Implies? || g.Ite? {
      NotConditional(g);
      var p := PushInNots(g);
      NotPushed(p);
      var a := PosEnds(g);
      EndedIsPos(g, a);
      var b := NegEnds(p);
      n := Max(a, b) + 1;
      MoreCalls(g, a, n - 1);
      MoreCalls(Not(p), b, n - 1);
    } else {
      NotStepMeasure(g);
      n := PosEnds(NotStep(g));
      n := n + 1;
    }
  }

  lemma {:induction false} AllEnd(fs: seq<Formula>) returns (n: nat)
    requires forall i | 0 <= i < |fs| :: Pos(fs[i])
    ensures AllWithin(fs, n).Some?
    decreases Nestings(fs), StepsAll(fs), 1 + |fs|
  {
    hide Pos, Within;
    n := 0;
    if fs != [] {
      var a := PosEnds(fs[0]);
      var b := AllEnd(fs[1..]);
      n := Max(a, b);
      MoreCalls(fs[0], a, n);
      MoreCallsAll(fs[1..], b, n);
    }
  }

  lemma {:induction false} TermEnds(t: Term) returns (n: nat)
    requires PosT(t)
    ensures TermWithin(t, n).Some?
    decreases NestingT(t), StepsT(t), 0
  {
    match t
    case Num(_) | Var(_) => n := 1;
    case Add(ts) => n := TermsEnd(ts); n := n + 1;
    case Sub(l, r) => n := BothEnd(l, r); n := n + 1;
    case Mul(l, r) => n := BothEnd(l, r); n := n + 1;
    case TermIte(c, u, e) =>
      var a := PosEnds(c);
      var b := BothEnd(u, e);
      n := Max(a, b) + 1;
      MoreCalls(c, a, n - 1);
      MoreCallsT(u, b, n - 1);
      MoreCallsT(e, b, n - 1);
  }

  lemma {:induction false} BothEnd(l: Term, r: Term) returns (n: nat)
    requires PosT(l) && PosT(r)
    ensures TermWithin(l, n).Some? && TermWithin(r, n).Some?
    decreases Max(NestingT(l), NestingT(r)), Max(StepsT(l), StepsT(r)), 1
  {
    var a := TermEnds(l);
    var b := TermEnds(r);
    n := Max(a, b);
    MoreCallsT(l, a, n);
    MoreCallsT(r, b, n);
  }

  lemma {:induction false} TermsEnd(ts: seq<Term>) returns (n: nat)
    requires forall i | 0 <= i < |ts| :: PosT(ts[i])
    ensures TermsWithin(ts, n).Some?
    decreases NestingsT(ts), StepsTs(ts), 1 + |ts|
  {
    n := 0;
    if ts != [] {
      var a := TermEnds(ts[0]);
      var b := TermsEnd(ts[1..]);
      n := Max(a, b);
      MoreCallsT(ts[0], a, n);
      MoreCallsTs(ts[1..], b, n);
    }
  }

  /** The exact condition: the calls end just for the formulas that can be pushed. */
  lemma EndsExactly(f: Formula)
    ensures (exists n :: Within(f, n).Some?) <==> Pos(f)
  {
    hide Pos, Within;
    if n :| Within(f, n).Some? { EndedIsPos(f, n); }
    if Pos(f) { var n := PosEnds(f); }
  }
}
