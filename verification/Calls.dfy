/** Boolean functions with definitions: inlining their calls in a formula. */
module Calls {
  import opened Wrappers
  import opened Logic
  import NormalForms

  /** A Boolean function: its name, parameters and definition. */
  datatype Func = Func(name: string, args: seq<Name>, def: Formula)

  function ArgMap(args: seq<Name>, ts: seq<Term>): Subst
    requires |args| == |ts|
  {
    if args == [] then map[] else ArgMap(args[1..], ts[1..])[args[0] := ts[0]]
  }

  function Nums(vs: seq<int>): (ts: seq<Term>)
    ensures |ts| == |vs|
  {
    seq(|vs|, i requires 0 <= i < |vs| => Num(vs[i]))
  }

  /** The interpretation in which the parameters have the given values. */
  function Bind(env: Env, args: seq<Name>, vs: seq<int>): Env
    requires |args| == |vs|
  {
    Under(env, ArgMap(args, Nums(vs)))
  }

  /** The interpretation in which the function means its definition; calls inside the definition keep their old meaning. */
  function Defining(env: Env, g: Func): Env {
    Env(env.ints, env.bools, (p: string, vs: seq<int>) =>
      if p == g.name && |vs| == |g.args| then Eval(g.def, Bind(env, g.args, vs)) else env.preds(p, vs))
  }

  /** `DefinedFunc.rewrite` on formulas: every call becomes the definition with the arguments put in. */
  function Inline(f: Formula, g: Func): Formula
    decreases f, 1
  {
    match f
    case True | False | BoolVar(_) => f
    case Cmp(op, l, r) => Cmp(op, InlineT(l, g), InlineT(r, g))
    case Iff(l, r) => Iff(Inline(l, g), Inline(r, g))
    case Not(h) => Not(Inline(h, g))
    case And(fs) => And(seq(|fs|, i requires 0 <= i < |fs| => Inline(fs[i], g)))
    case Or(fs) => Or(seq(|fs|, i requires 0 <= i < |fs| => Inline(fs[i], g)))
    case Implies(l, r) => Implies(Inline(l, g), Inline(r, g))
    case Ite(c, t, e) => Ite(Inline(c, g), Inline(t, g), Inline(e, g))
    case Call(p, ts) =>
      if p == g.name && |ts| == |g.args| then SubstF(g.def, ArgMap(g.args, InlineTs(ts, g))) else Call(p, InlineTs(ts, g))
  }

  function InlineT(t: Term, g: Func): Term
    decreases t, 1
  {
    match t
    case Num(_) | Var(_) => t
    case Add(ts) => Add(InlineTs(ts, g))
    case Sub(l, r) => Sub(InlineT(l, g), InlineT(r, g))
    case Mul(l, r) => Mul(InlineT(l, g), InlineT(r, g))
    case TermIte(c, u, e) => TermIte(Inline(c, g), InlineT(u, g), InlineT(e, g))
  }

  function InlineTs(ts: seq<Term>, g: Func): (rs: seq<Term>)
    ensures |rs| == |ts|
    decreases ts, 0
  {
    if ts == [] then [] else [InlineT(ts[0], g)] + InlineTs(ts[1..], g)
  }

  lemma {:induction false} ArgMapValues(args: seq<Name>, ts: seq<Term>, env: Env, v: Name)
    requires |args| == |ts|
    ensures v in ArgMap(args, ts) <==> v in args
    ensures Under(env, ArgMap(args, ts)).ints(v) == Bind(env, args, Values(ts, env)).ints(v)
  {
    if args != [] {
      ArgMapValues(args[1..], ts[1..], env, v);
      var vs := Values(ts, env);
      assert Nums(vs)[1..] == Nums(vs[1..]);
      assert args == [args[0]] + args[1..];
    }
  }

  /** A call means the definition at the values of the arguments. */
  lemma CallMeaning(g: Func, ts: seq<Term>, env: Env)
    requires |ts| == |g.args|
    ensures Eval(SubstF(g.def, ArgMap(g.args, ts)), env) == Eval(g.def, Bind(env, g.args, Values(ts, env)))
  {
    hide Eval, SubstF, ArgMap, Nums, Values, EvalT;
    var s := ArgMap(g.args, ts);
    SubstMeaning(g.def, s, env);
    forall v ensures Under(env, s).ints(v) == Bind(env, g.args, Values(ts, env)).ints(v) { ArgMapValues(g.args, ts, env, v); }
    EvalSame(g.def, Under(env, s), Bind(env, g.args, Values(ts, env)));
  }

  /** Inlining means giving the function the meaning of its definition. */
  lemma {:induction false} InlineMeaning(f: Formula, g: Func, env: Env)
    ensures Eval(Inline(f, g), env) == Eval(f, Defining(env, g))
    decreases f, 1
  {
    hide Bind, ArgMap, SubstF;
    match f
    case True | False | BoolVar(_) =>
    case Cmp(_, l, r) =>
      InlineMeaningT(l, g, env);
      InlineMeaningT(r, g, env);
    case Iff(l, r) =>
      InlineMeaning(l, g, env);
      InlineMeaning(r, g, env);
    case Not(h) => InlineMeaning(h, g, env);
    case And(fs) =>
      var r := Inline(f, g);
      forall i | 0 <= i < |fs| ensures Eval(r.fs[i], env) == Eval(fs[i], Defining(env, g)) { InlineMeaning(fs[i], g, env); }
    case Or(fs) =>
      var r := Inline(f, g);
      forall i | 0 <= i < |fs| ensures Eval(r.fs[i], env) == Eval(fs[i], Defining(env, g)) { InlineMeaning(fs[i], g, env); }
    case Implies(l, r) =>
      InlineMeaning(l, g, env);
      InlineMeaning(r, g, env);
    case Ite(c, t, e) =>
      InlineMeaning(c, g, env);
      InlineMeaning(t, g, env);
      InlineMeaning(e, g, env);
    case Call(p, ts) =>
      InlineMeaningTs(ts, g, env);
      if p == g.name && |ts| == |g.args| { CallMeaning(g, InlineTs(ts, g), env); }
  }

  lemma {:induction false} InlineMeaningT(t: Term, g: Func, env: Env)
    ensures EvalT(InlineT(t, g), env) == EvalT(t, Defining(env, g))
    decreases t, 1
  {
    match t
    case Num(_) | Var(_) =>
    case Add(ts) => InlineMeaningTs(ts, g, env);
    case Sub(l, r) =>
      InlineMeaningT(l, g, env);
      InlineMeaningT(r, g, env);
    case Mul(l, r) =>
      InlineMeaningT(l, g, env);
      InlineMeaningT(r, g, env);
    case TermIte(c, u, e) =>
      InlineMeaning(c, g, env);
      InlineMeaningT(u, g, env);
      InlineMeaningT(e, g, env);
  }

  lemma {:induction false} InlineMeaningTs(ts: seq<Term>, g: Func, env: Env)
    ensures Sum(InlineTs(ts, g), env) == Sum(ts, Defining(env, g)) && Values(InlineTs(ts, g), env) == Values(ts, Defining(env, g))
    decreases ts, 0
  {
    if ts != [] {
      InlineMeaningT(ts[0], g, env);
      InlineMeaningTs(ts[1..], g, env);
    }
  }

  // ---- definitions without calls ----

  predicate CallFree(f: Formula)
    decreases f
  {
    match f
    case True | False | BoolVar(_) => true
    case Cmp(_, l, r) => CallFreeT(l) && CallFreeT(r)
    case Iff(l, r) => CallFree(l) && CallFree(r)
    case Not(h) => CallFree(h)
    case And(fs) => forall i | 0 <= i < |fs| :: CallFree(fs[i])
    case Or(fs) => forall i | 0 <= i < |fs| :: CallFree(fs[i])
    case Implies(l, r) => CallFree(l) && CallFree(r)
    case Ite(c, t, e) => CallFree(c) && CallFree(t) && CallFree(e)
    case Call(_, _) => false
  }

  predicate CallFreeT(t: Term)
    decreases t
  {
    match t
    case Num(_) | Var(_) => true
    case Add(ts) => forall i | 0 <= i < |ts| :: CallFreeT(ts[i])
    case Sub(l, r) => CallFreeT(l) && CallFreeT(r)
    case Mul(l, r) => CallFreeT(l) && CallFreeT(r)
    case TermIte(c, u, e) => CallFree(c) && CallFreeT(u) && CallFreeT(e)
  }

  ghost predicate SameNames(a: Env, b: Env) { (forall v :: a.ints(v) == b.ints(v)) && forall v :: a.bools(v) == b.bools(v) }

  lemma {:induction false} CallFreeSame(f: Formula, a: Env, b: Env)
    requires CallFree(f) && SameNames(a, b)
    ensures Eval(f, a) == Eval(f, b)
    decreases f, 1
  {
    match f
    case True | False | BoolVar(_) =>
    case Cmp(_, l, r) =>
      CallFreeSameT(l, a, b);
      CallFreeSameT(r, a, b);
    case Iff(l, r) =>
      CallFreeSame(l, a, b);
      CallFreeSame(r, a, b);
    case Not(h) => CallFreeSame(h, a, b);
    case And(fs) => forall i | 0 <= i < |fs| ensures Eval(fs[i], a) == Eval(fs[i], b) { CallFreeSame(fs[i], a, b); }
    case Or(fs) => forall i | 0 <= i < |fs| ensures Eval(fs[i], a) == Eval(fs[i], b) { CallFreeSame(fs[i], a, b); }
    case Implies(l, r) =>
      CallFreeSame(l, a, b);
      CallFreeSame(r, a, b);
    case Ite(c, t, e) =>
      CallFreeSame(c, a, b);
      CallFreeSame(t, a, b);
      CallFreeSame(e, a, b);
  }

  lemma {:induction false} CallFreeSameT(t: Term, a: Env, b: Env)
    requires CallFreeT(t) && SameNames(a, b)
    ensures EvalT(t, a) == EvalT(t, b)
    decreases t, 1
  {
    match t
    case Num(_) =>
    case Var(_) =>
    case Add(ts) => CallFreeSum(ts, a, b);
    case Sub(l, r) =>
      CallFreeSameT(l, a, b);
      CallFreeSameT(r, a, b);
    case Mul(l, r) =>
      CallFreeSameT(l, a, b);
      CallFreeSameT(r, a, b);
    case TermIte(c, u, e) =>
      CallFreeSame(c, a, b);
      CallFreeSameT(u, a, b);
      CallFreeSameT(e, a, b);
  }

  lemma {:induction false} CallFreeSum(ts: seq<Term>, a: Env, b: Env)
    requires (forall i | 0 <= i < |ts| :: CallFreeT(ts[i])) && SameNames(a, b)
    ensures Sum(ts, a) == Sum(ts, b) && Values(ts, a) == Values(ts, b)
    decreases ts, 0
  {
    if ts != [] {
      CallFreeSameT(ts[0], a, b);
      CallFreeSum(ts[1..], a, b);
    }
  }

  // ---- shapes ----

  lemma {:induction false} SubstNonEmpty(f: Formula, s: Subst)
    requires NormalForms.NonEmpty(f)
    ensures NormalForms.NonEmpty(SubstF(f, s))
  {
    match f
    case And(fs) => forall i | 0 <= i < |fs| ensures NormalForms.NonEmpty(SubstF(fs[i], s)) { SubstNonEmpty(fs[i], s); }
    case Or(fs) => forall i | 0 <= i < |fs| ensures NormalForms.NonEmpty(SubstF(fs[i], s)) { SubstNonEmpty(fs[i], s); }
    case Not(g) => SubstNonEmpty(g, s);
    case Iff(l, r) => SubstNonEmpty(l, s); SubstNonEmpty(r, s);
    case Implies(l, r) => SubstNonEmpty(l, s); SubstNonEmpty(r, s);
    case Ite(c, t, e) => SubstNonEmpty(c, s); SubstNonEmpty(t, s); SubstNonEmpty(e, s);
    case _ =>
  }

  lemma {:induction false} InlineNonEmpty(f: Formula, g: Func)
    requires NormalForms.NonEmpty(f) && NormalForms.NonEmpty(g.def)
    ensures NormalForms.NonEmpty(Inline(f, g))
  {
    match f
    case And(fs) => forall i | 0 <= i < |fs| ensures NormalForms.NonEmpty(Inline(fs[i], g)) { InlineNonEmpty(fs[i], g); }
    case Or(fs) => forall i | 0 <= i < |fs| ensures NormalForms.NonEmpty(Inline(fs[i], g)) { InlineNonEmpty(fs[i], g); }
    case Not(h) => InlineNonEmpty(h, g);
    case Iff(l, r) => InlineNonEmpty(l, g); InlineNonEmpty(r, g);
    case Implies(l, r) => InlineNonEmpty(l, g); InlineNonEmpty(r, g);
    case Ite(c, t, e) => InlineNonEmpty(c, g); InlineNonEmpty(t, g); InlineNonEmpty(e, g);
    case Call(p, ts) => if p == g.name && |ts| == |g.args| { SubstNonEmpty(g.def, ArgMap(g.args, InlineTs(ts, g))); }
    case _ =>
  }
}
