/** Formulas with integer quantifiers, the language of the solver's answers, over the quantifier-free ones. */
module Quantified {
  import opened Logic

  /**
   `Exists(v, s, body)` says that some value of `v` makes `body` true, where the other names of `body` have the values
   of their terms in `s`.  A substitution acts on these terms only, so it captures nothing.
   */
  datatype Expr =
    | Plain(f: Formula)
    | All(es: seq<Expr>)
    | Any(es: seq<Expr>)
    | Neg(e: Expr)
    | Same(l: Expr, r: Expr)
    | Exists(v: Name, s: Subst, body: Expr)

  function Bind(env: Env, v: Name, k: int): Env { Env(w => if w == v then k else env.ints(w), env.bools, env.preds) }

  ghost predicate Truth(e: Expr, env: Env)
    decreases e
  {
    match e
    case Plain(f) => Eval(f, env)
    case All(es) => forall i | 0 <= i < |es| :: Truth(es[i], env)
    case Any(es) => exists i | 0 <= i < |es| :: Truth(es[i], env)
    case Neg(g) => !Truth(g, env)
    case Same(l, r) => Truth(l, env) == Truth(r, env)
    case Exists(v, s, body) => exists k :: Truth(body, Bind(Under(env, s), v, k))
  }

  // ---- substitution ----

  /** First `s`, and `t` in the terms it brings in. */
  function Compose(s: Subst, t: Subst): Subst { map v | v in s.Keys + t.Keys :: if v in s then SubstT(s[v], t) else t[v] }

  function Replace(e: Expr, t: Subst): Expr
    decreases e
  {
    match e
    case Plain(f) => Plain(SubstF(f, t))
    case All(es) => All(seq(|es|, i requires 0 <= i < |es| => Replace(es[i], t)))
    case Any(es) => Any(seq(|es|, i requires 0 <= i < |es| => Replace(es[i], t)))
    case Neg(g) => Neg(Replace(g, t))
    case Same(l, r) => Same(Replace(l, t), Replace(r, t))
    case Exists(v, s, body) => Exists(v, Compose(s, t), body)
  }

  lemma ComposeMeaning(s: Subst, t: Subst, env: Env)
    ensures SameValues(Under(env, Compose(s, t)), Under(Under(env, t), s))
  {
    forall v | v in s ensures EvalT(Compose(s, t)[v], env) == EvalT(s[v], Under(env, t)) {
      SubstMeaningT(s[v], t, env);
    }
  }

  lemma BindSame(a: Env, b: Env, v: Name, k: int)
    requires SameValues(a, b)
    ensures SameValues(Bind(a, v, k), Bind(b, v, k))
  {
  }

  lemma UnderSame(a: Env, b: Env, s: Subst)
    requires SameValues(a, b)
    ensures SameValues(Under(a, s), Under(b, s))
  {
    forall v | v in s ensures EvalT(s[v], a) == EvalT(s[v], b) {
      EvalSameT(s[v], a, b);
    }
  }

  /** Only the values of names matter. */
  lemma {:induction false} TruthSame(e: Expr, a: Env, b: Env)
    requires SameValues(a, b)
    ensures Truth(e, a) == Truth(e, b)
    decreases e
  {
    hide SameValues, Bind, Under, Eval;
    match e
    case Plain(f) => EvalSame(f, a, b);
    case All(es) => forall i | 0 <= i < |es| ensures Truth(es[i], a) == Truth(es[i], b) { TruthSame(es[i], a, b); }
    case Any(es) => forall i | 0 <= i < |es| ensures Truth(es[i], a) == Truth(es[i], b) { TruthSame(es[i], a, b); }
    case Neg(g) => TruthSame(g, a, b);
    case Same(l, r) =>
      TruthSame(l, a, b);
      TruthSame(r, a, b);
    case Exists(v, s, body) =>
      UnderSame(a, b, s);
      forall k ensures Truth(body, Bind(Under(a, s), v, k)) == Truth(body, Bind(Under(b, s), v, k)) {
        BindSame(Under(a, s), Under(b, s), v, k);
        TruthSame(body, Bind(Under(a, s), v, k), Bind(Under(b, s), v, k));
      }
  }

  /** Substituting is evaluating under the updated interpretation, below quantifiers too. */
  lemma {:induction false} ReplaceMeaning(e: Expr, t: Subst, env: Env)
    ensures Truth(Replace(e, t), env) == Truth(e, Under(env, t))
    decreases e
  {
    hide SameValues, Bind, Under, Eval, SubstF, Compose;
    match e
    case Plain(f) => SubstMeaning(f, t, env);
    case All(es) =>
      forall i | 0 <= i < |es| ensures Truth(Replace(e, t).es[i], env) == Truth(es[i], Under(env, t)) {
        ReplaceMeaning(es[i], t, env);
      }
    case Any(es) =>
      forall i | 0 <= i < |es| ensures Truth(Replace(e, t).es[i], env) == Truth(es[i], Under(env, t)) {
        ReplaceMeaning(es[i], t, env);
      }
    case Neg(g) => ReplaceMeaning(g, t, env);
    case Same(l, r) =>
      ReplaceMeaning(l, t, env);
      ReplaceMeaning(r, t, env);
    case Exists(v, s, body) =>
      var a, b := Under(env, Compose(s, t)), Under(Under(env, t), s);
      ComposeMeaning(s, t, env);
      forall k ensures Truth(body, Bind(a, v, k)) == Truth(body, Bind(b, v, k)) {
        BindSame(a, b, v, k);
        TruthSame(body, Bind(a, v, k), Bind(b, v, k));
      }
  }

  lemma AllMeaning(es: seq<Expr>, env: Env)
    ensures Truth(All(es), env) <==> forall i | 0 <= i < |es| :: Truth(es[i], env)
  {
  }

  lemma AnyMeaning(es: seq<Expr>, env: Env)
    ensures Truth(Any(es), env) <==> exists i | 0 <= i < |es| :: Truth(es[i], env)
    ensures Truth(Neg(Any(es)), env) <==> forall i | 0 <= i < |es| :: !Truth(es[i], env)
  {
  }

  /** Disjunction of two. */
  lemma EitherMeaning(a: Expr, b: Expr, env: Env)
    ensures Truth(Any([a, b]), env) == (Truth(a, env) || Truth(b, env))
  {
    assert [a, b][0] == a && [a, b][1] == b;
  }
}
