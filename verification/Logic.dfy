/** Quantifier-free formulas over integer terms, with their meaning and simultaneous substitution. */
module Logic {

  /** A program variable, its primed copy, or an auxiliary constant. */
  datatype Name = Cur(i: nat) | Primed(i: nat) | Aux(s: string)

  datatype CmpOp = Ge | Gt | Le | Lt | Eq

  datatype Term =
    | Num(n: int)
    | Var(v: Name)
    | Add(args: seq<Term>)
    | Sub(l: Term, r: Term)
    | Mul(l: Term, r: Term)
    | TermIte(c: Formula, t: Term, e: Term)

  datatype Formula =
    | True
    | False
    | BoolVar(b: Name)
    | Cmp(op: CmpOp, lhs: Term, rhs: Term)
    | Iff(left: Formula, right: Formula)
    | Not(f: Formula)
    | And(fs: seq<Formula>)
    | Or(fs: seq<Formula>)
    | Implies(left: Formula, right: Formula)
    | Ite(cond: Formula, then_: Formula, else_: Formula)
    | Call(p: string, params: seq<Term>)

  /** An interpretation of all names and of the Boolean functions. */
  datatype Env = Env(ints: Name -> int, bools: Name -> bool, preds: (string, seq<int>) -> bool)

  predicate Holds(op: CmpOp, a: int, b: int) {
    match op
    case Ge => a >= b
    case Gt => a > b
    case Le => a <= b
    case Lt => a < b
    case Eq => a == b
  }

  function EvalT(t: Term, env: Env): int
    decreases t, 1
  {
    match t
    case Num(n) => n
    case Var(v) => env.ints(v)
    case Add(args) => Sum(args, env)
    case Sub(l, r) => EvalT(l, env) - EvalT(r, env)
    case Mul(l, r) => EvalT(l, env) * EvalT(r, env)
    case TermIte(c, t, e) => if Eval(c, env) then EvalT(t, env) else EvalT(e, env)
  }

  function Sum(ts: seq<Term>, env: Env): int
    decreases ts, 0
  {
    if ts == [] then 0 else EvalT(ts[0], env) + Sum(ts[1..], env)
  }

  function Values(ts: seq<Term>, env: Env): (vs: seq<int>)
    ensures |vs| == |ts|
    decreases ts, 0
  {
    if ts == [] then [] else [EvalT(ts[0], env)] + Values(ts[1..], env)
  }

  predicate Eval(f: Formula, env: Env)
    decreases f, 1
  {
    match f
    case True => true
    case False => false
    case BoolVar(b) => env.bools(b)
    case Cmp(op, l, r) => Holds(op, EvalT(l, env), EvalT(r, env))
    case Iff(l, r) => Eval(l, env) == Eval(r, env)
    case Not(g) => !Eval(g, env)
    case And(fs) => forall i | 0 <= i < |fs| :: Eval(fs[i], env)
    case Or(fs) => exists i | 0 <= i < |fs| :: Eval(fs[i], env)
    case Implies(l, r) => Eval(l, env) ==> Eval(r, env)
    case Ite(c, t, e) => if Eval(c, env) then Eval(t, env) else Eval(e, env)
    case Call(p, ts) => env.preds(p, Values(ts, env))
  }

  /** Two formulas mean the same under every interpretation. */
  ghost predicate Equivalent(f: Formula, g: Formula) { forall env :: Eval(f, env) == Eval(g, env) }

  /** Conjunction and disjunction of two. */
  lemma PairMeaning(f: Formula, g: Formula, env: Env)
    ensures Eval(And([f, g]), env) == (Eval(f, env) && Eval(g, env))
    ensures Eval(Or([f, g]), env) == (Eval(f, env) || Eval(g, env))
  {
    assert [f, g][0] == f && [f, g][1] == g;
  }

  // ---- substitution ----

  type Subst = map<Name, Term>

  function SubstT(t: Term, s: Subst): Term
    decreases t
  {
    match t
    case Num(_) => t
    case Var(v) => if v in s then s[v] else t
    case Add(args) => Add(seq(|args|, i requires 0 <= i < |args| => SubstT(args[i], s)))
    case Sub(l, r) => Sub(SubstT(l, s), SubstT(r, s))
    case Mul(l, r) => Mul(SubstT(l, s), SubstT(r, s))
    case TermIte(c, t, e) => TermIte(SubstF(c, s), SubstT(t, s), SubstT(e, s))
  }

  function SubstF(f: Formula, s: Subst): Formula
    decreases f
  {
    match f
    case True | False | BoolVar(_) => f
    case Cmp(op, l, r) => Cmp(op, SubstT(l, s), SubstT(r, s))
    case Iff(l, r) => Iff(SubstF(l, s), SubstF(r, s))
    case Not(g) => Not(SubstF(g, s))
    case And(fs) => And(seq(|fs|, i requires 0 <= i < |fs| => SubstF(fs[i], s)))
    case Or(fs) => Or(seq(|fs|, i requires 0 <= i < |fs| => SubstF(fs[i], s)))
    case Implies(l, r) => Implies(SubstF(l, s), SubstF(r, s))
    case Ite(c, t, e) => Ite(SubstF(c, s), SubstF(t, s), SubstF(e, s))
    case Call(p, ts) => Call(p, seq(|ts|, i requires 0 <= i < |ts| => SubstT(ts[i], s)))
  }

  /** The interpretation that gives substituted names the values of their terms. */
  function Under(env: Env, s: Subst): Env {
    Env(v => if v in s then EvalT(s[v], env) else env.ints(v), env.bools, env.preds)
  }

  /** Substituting in a formula is evaluating it under the updated interpretation. */
  lemma {:induction false} SubstMeaning(f: Formula, s: Subst, env: Env)
    ensures Eval(SubstF(f, s), env) == Eval(f, Under(env, s))
    decreases f, 1
  {
    match f
    case True | False | BoolVar(_) =>
    case Cmp(_, l, r) =>
      SubstMeaningT(l, s, env);
      SubstMeaningT(r, s, env);
    case Not(g) => SubstMeaning(g, s, env);
    case And(fs) =>
      forall i | 0 <= i < |fs| ensures Eval(SubstF(fs[i], s), env) == Eval(fs[i], Under(env, s)) {
        SubstMeaning(fs[i], s, env);
      }
      assert forall i | 0 <= i < |fs| :: SubstF(f, s).fs[i] == SubstF(fs[i], s);
    case Or(fs) =>
      forall i | 0 <= i < |fs| ensures Eval(SubstF(fs[i], s), env) == Eval(fs[i], Under(env, s)) {
        SubstMeaning(fs[i], s, env);
      }
      assert forall i | 0 <= i < |fs| :: SubstF(f, s).fs[i] == SubstF(fs[i], s);
    case Iff(l, r) =>
      SubstMeaning(l, s, env);
      SubstMeaning(r, s, env);
    case Implies(l, r) =>
      SubstMeaning(l, s, env);
      SubstMeaning(r, s, env);
    case Ite(c, t, e) =>
      SubstMeaning(c, s, env);
      SubstMeaning(t, s, env);
      SubstMeaning(e, s, env);
    case Call(_, ts) => SubstMeaningSum(ts, SubstF(f, s).params, s, env);
  }

  lemma {:induction false} SubstMeaningT(t: Term, s: Subst, env: Env)
    ensures EvalT(SubstT(t, s), env) == EvalT(t, Under(env, s))
    decreases t, 1
  {
    match t
    case Num(_) =>
    case Var(_) =>
    case Add(args) =>
      var args' := SubstT(t, s).args;
      SubstMeaningSum(args, args', s, env);
    case Sub(l, r) =>
      SubstMeaningT(l, s, env);
      SubstMeaningT(r, s, env);
    case Mul(l, r) =>
      SubstMeaningT(l, s, env);
      SubstMeaningT(r, s, env);
    case TermIte(c, t, e) =>
      SubstMeaning(c, s, env);
      SubstMeaningT(t, s, env);
      SubstMeaningT(e, s, env);
  }

  lemma {:induction false} SubstMeaningSum(ts: seq<Term>, ts': seq<Term>, s: Subst, env: Env)
    requires |ts'| == |ts| && forall i | 0 <= i < |ts| :: ts'[i] == SubstT(ts[i], s)
    ensures Sum(ts', env) == Sum(ts, Under(env, s)) && Values(ts', env) == Values(ts, Under(env, s))
    decreases ts, 0
  {
    if ts != [] {
      SubstMeaningT(ts[0], s, env);
      SubstMeaningSum(ts[1..], ts'[1..], s, env);
    }
  }

  // ---- only values matter ----

  ghost predicate SameValues(a: Env, b: Env) {
    && (forall v :: a.ints(v) == b.ints(v)) && (forall v :: a.bools(v) == b.bools(v))
    && (forall p, vs :: a.preds(p, vs) == b.preds(p, vs))
  }

  lemma {:induction false} EvalSame(f: Formula, a: Env, b: Env)
    requires SameValues(a, b)
    ensures Eval(f, a) == Eval(f, b)
    decreases f, 1
  {
    match f
    case True | False | BoolVar(_) =>
    case Cmp(_, l, r) =>
      EvalSameT(l, a, b);
      EvalSameT(r, a, b);
    case Not(g) => EvalSame(g, a, b);
    case And(fs) => forall i | 0 <= i < |fs| ensures Eval(fs[i], a) == Eval(fs[i], b) { EvalSame(fs[i], a, b); }
    case Or(fs) => forall i | 0 <= i < |fs| ensures Eval(fs[i], a) == Eval(fs[i], b) { EvalSame(fs[i], a, b); }
    case Iff(l, r) =>
      EvalSame(l, a, b);
      EvalSame(r, a, b);
    case Implies(l, r) =>
      EvalSame(l, a, b);
      EvalSame(r, a, b);
    case Ite(c, t, e) =>
      EvalSame(c, a, b);
      EvalSame(t, a, b);
      EvalSame(e, a, b);
    case Call(_, ts) => SumSame(ts, a, b);
  }

  lemma {:induction false} EvalSameT(t: Term, a: Env, b: Env)
    requires SameValues(a, b)
    ensures EvalT(t, a) == EvalT(t, b)
    decreases t, 1
  {
    match t
    case Num(_) =>
    case Var(_) =>
    case Add(args) => SumSame(args, a, b);
    case Sub(l, r) =>
      EvalSameT(l, a, b);
      EvalSameT(r, a, b);
    case Mul(l, r) =>
      EvalSameT(l, a, b);
      EvalSameT(r, a, b);
    case TermIte(c, t, e) =>
      EvalSame(c, a, b);
      EvalSameT(t, a, b);
      EvalSameT(e, a, b);
  }

  lemma {:induction false} SumSame(ts: seq<Term>, a: Env, b: Env)
    requires SameValues(a, b)
    ensures Sum(ts, a) == Sum(ts, b) && Values(ts, a) == Values(ts, b)
    decreases ts, 0
  {
    if ts != [] {
      EvalSameT(ts[0], a, b);
      SumSame(ts[1..], a, b);
    }
  }
}
