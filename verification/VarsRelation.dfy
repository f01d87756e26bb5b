/** Classes of variables that occur together in comparisons. */
module VarsRelation {
  import opened Logic

  /** A node of an expression. */
  datatype Item = F(f: Formula) | T(t: Term)

  /** What the program takes for variables: every nullary symbol that is no number. */
  datatype Symbol = IntSym(v: Name) | BoolSym(b: Name) | PredSym(p: string) | TrueSym | FalseSym

  predicate IsConst(i: Item) {
    match i
    case F(True) | F(False) | F(BoolVar(_)) => true
    case F(Call(_, ts)) => ts == []
    case T(Var(_)) => true
    case _ => false
  }

  function ConstSym(i: Item): Symbol
    requires IsConst(i)
  {
    match i
    case F(True) => TrueSym
    case F(False) => FalseSym
    case F(BoolVar(b)) => BoolSym(b)
    case F(Call(p, _)) => PredSym(p)
    case T(Var(v)) => IntSym(v)
  }

  function Fs(fs: seq<Formula>): (xs: seq<Item>)
    ensures |xs| == |fs|
  {
    seq(|fs|, i requires 0 <= i < |fs| => F(fs[i]))
  }

  function Ts(ts: seq<Term>): (xs: seq<Item>)
    ensures |xs| == |ts|
  {
    seq(|ts|, i requires 0 <= i < |ts| => T(ts[i]))
  }

  /** The arguments. */
  function Kids(i: Item): seq<Item> {
    match i
    case F(Cmp(_, l, r)) => [T(l), T(r)]
    case F(Iff(l, r)) => [F(l), F(r)]
    case F(Not(g)) => [F(g)]
    case F(And(fs)) => Fs(fs)
    case F(Or(fs)) => Fs(fs)
    case F(Implies(l, r)) => [F(l), F(r)]
    case F(Ite(c, t, e)) => [F(c), F(t), F(e)]
    case F(Call(_, ts)) => Ts(ts)
    case F(_) => []
    case T(Add(ts)) => Ts(ts)
    case T(Sub(l, r)) => [T(l), T(r)]
    case T(Mul(l, r)) => [T(l), T(r)]
    case T(TermIte(c, t, e)) => [F(c), T(t), T(e)]
    case T(_) => []
  }

  /** `isEq` on numbers, `isLE`, `isGE`, `isGT`, `isLT`. */
  predicate IsComparison(i: Item) { i.F? && i.f.Cmp? }

  // ---- sizes ----

  function WeightF(f: Formula): nat
    decreases f, 1
  {
    match f
    case Cmp(_, l, r) => 1 + WeightT(l) + WeightT(r)
    case Iff(l, r) => 1 + WeightF(l) + WeightF(r)
    case Not(g) => 1 + WeightF(g)
    case And(fs) => 1 + WeightFs(fs)
    case Or(fs) => 1 + WeightFs(fs)
    case Implies(l, r) => 1 + WeightF(l) + WeightF(r)
    case Ite(c, t, e) => 1 + WeightF(c) + WeightF(t) + WeightF(e)
    case Call(_, ts) => 1 + WeightTs(ts)
    case _ => 1
  }

  function WeightFs(fs: seq<Formula>): nat
    decreases fs, 0
  {
    if fs == [] then 0 else WeightF(fs[0]) + WeightFs(fs[1..])
  }

  function WeightT(t: Term): nat
    decreases t, 1
  {
    match t
    case Add(ts) => 1 + WeightTs(ts)
    case Sub(l, r) => 1 + WeightT(l) + WeightT(r)
    case Mul(l, r) => 1 + WeightT(l) + WeightT(r)
    case TermIte(c, u, e) => 1 + WeightF(c) + WeightT(u) + WeightT(e)
    case _ => 1
  }

  function WeightTs(ts: seq<Term>): nat
    decreases ts, 0
  {
    if ts == [] then 0 else WeightT(ts[0]) + WeightTs(ts[1..])
  }

  function Weight(i: Item): nat { match i case F(f) => WeightF(f) case T(t) => WeightT(t) }

  function Weights(xs: seq<Item>): nat { if xs == [] then 0 else Weight(xs[0]) + Weights(xs[1..]) }

  lemma {:induction false} WeightsF(fs: seq<Formula>)
    ensures Weights(Fs(fs)) == WeightFs(fs)
  {
    if fs != [] {
      WeightsF(fs[1..]);
      assert Fs(fs)[1..] == Fs(fs[1..]);
    }
  }

  lemma {:induction false} WeightsT(ts: seq<Term>)
    ensures Weights(Ts(ts)) == WeightTs(ts)
  {
    if ts != [] {
      WeightsT(ts[1..]);
      assert Ts(ts)[1..] == Ts(ts[1..]);
    }
  }

  lemma Weights3(a: Item, b: Item, c: Item)
    ensures Weights([a]) == Weight(a) && Weights([a, b]) == Weight(a) + Weight(b) && Weights([a, b, c]) == Weight(a) + Weight(b) + Weight(c)
  {
    assert [a][1..] == [b][1..] == [c][1..] == [];
    assert Weights([b]) == Weight(b) && Weights([c]) == Weight(c);
    assert [a, b][1..] == [b] && [b, c][1..] == [c] && [a, b, c][1..] == [b, c];
    assert Weights([b, c]) == Weight(b) + Weight(c);
  }

  lemma KidsWeigh(i: Item)
    ensures Weights(Kids(i)) < Weight(i)
  {
    match i
    case F(And(fs)) => WeightsF(fs);
    case F(Or(fs)) => WeightsF(fs);
    case F(Call(_, ts)) => WeightsT(ts);
    case T(Add(ts)) => WeightsT(ts);
    case F(Cmp(_, l, r)) => Weights3(T(l), T(r), i);
    case F(Iff(l, r)) => Weights3(F(l), F(r), i);
    case F(Not(g)) => Weights3(F(g), i, i);
    case F(Implies(l, r)) => Weights3(F(l), F(r), i);
    case F(Ite(c, t, e)) => Weights3(F(c), F(t), F(e));
    case T(Sub(l, r)) => Weights3(T(l), T(r), i);
    case T(Mul(l, r)) => Weights3(T(l), T(r), i);
    case T(TermIte(c, t, e)) => Weights3(F(c), T(t), T(e));
    case _ =>
  }

  lemma {:induction false} WeightsConcat(a: seq<Item>, b: seq<Item>)
    ensures Weights(a + b) == Weights(a) + Weights(b)
  {
    if a == [] {
      assert a + b == b;
    } else {
      WeightsConcat(a[1..], b);
      assert (a + b)[1..] == a[1..] + b;
    }
  }

  /** The queue without its head, and with the arguments of the head at its end, is lighter. */
  lemma QueueShrinks(todo: seq<Item>)
    requires todo != []
    ensures Weights(todo[1..]) < Weights(todo) && Weights(todo[1..] + Kids(todo[0])) < Weights(todo)
  {
    KidsWeigh(todo[0]);
    WeightsConcat(todo[1..], Kids(todo[0]));
  }

  // ---- the variables of an expression ----

  function Syms(i: Item): set<Symbol>
    decreases Weight(i), 0
  {
    KidsWeigh(i);
    if IsConst(i) then {ConstSym(i)} else SymsAll(Kids(i))
  }

  function SymsAll(xs: seq<Item>): set<Symbol>
    decreases Weights(xs), 1 + |xs|
  {
    if xs == [] then {} else Syms(xs[0]) + SymsAll(xs[1..])
  }

  lemma {:induction false} SymsConcat(a: seq<Item>, b: seq<Item>)
    ensures SymsAll(a + b) == SymsAll(a) + SymsAll(b)
  {
    if a == [] {
      assert a + b == b;
    } else {
      SymsConcat(a[1..], b);
      assert (a + b)[1..] == a[1..] + b;
    }
  }

  /** `scanForVars`. */
  method ScanForVars(orig: Item) returns (scanned: set<Symbol>)
    ensures scanned == Syms(orig)
  {
    hide Kids, Weights, IsConst, ConstSym, Syms;
    scanned := {};
    var todo := [orig];
    assert SymsAll([orig]) == Syms(orig) by { assert [orig][1..] == []; }
    while todo != []
      invariant scanned + SymsAll(todo) == Syms(orig)
      decreases Weights(todo)
    {
      var expr := todo[0];
      QueueShrinks(todo);
      SymsCases(expr);
      ghost var rest := todo[1..];
      if IsConst(expr) {
        scanned := scanned + {ConstSym(expr)};
        todo := todo[1..];
      } else {
        SymsConcat(rest, Kids(expr));
        todo := todo[1..] + Kids(expr);
      }
    }
  }

  lemma SymsCases(i: Item)
    ensures Syms(i) == if IsConst(i) then {ConstSym(i)} else SymsAll(Kids(i))
  {
  }

  /** A primed variable counts as the variable. */
  function Unprimed(s: Symbol): Symbol {
    match s
    case IntSym(Primed(i)) => IntSym(Cur(i))
    case BoolSym(Primed(i)) => BoolSym(Cur(i))
    case _ => s
  }

  type Class = set<Symbol>

  function UnprimedAll(s: set<Symbol>): Class { set x | x in s :: Unprimed(x) }

  // ---- the comparisons of an expression ----

  /** The sets of variables of the outermost comparisons. */
  function Used(i: Item): set<Class>
    decreases Weight(i), 0
  {
    KidsWeigh(i);
    if IsConst(i) then {} else if IsComparison(i) then {UnprimedAll(Syms(i))} else UsedAll(Kids(i))
  }

  function UsedAll(xs: seq<Item>): set<Class>
    decreases Weights(xs), 1 + |xs|
  {
    if xs == [] then {} else Used(xs[0]) + UsedAll(xs[1..])
  }

  lemma {:induction false} UsedConcat(a: seq<Item>, b: seq<Item>)
    ensures UsedAll(a + b) == UsedAll(a) + UsedAll(b)
  {
    if a == [] {
      assert a + b == b;
    } else {
      UsedConcat(a[1..], b);
      assert (a + b)[1..] == a[1..] + b;
    }
  }

  lemma UsedCases(i: Item)
    ensures Used(i) == if IsConst(i) then {} else if IsComparison(i) then {UnprimedAll(Syms(i))} else UsedAll(Kids(i))
  {
  }

  /** `g` is reached from `i` without entering a comparison. */
  ghost predicate Outermost(g: Formula, i: Item)
    decreases Weight(i), 0
  {
    KidsWeigh(i);
    i == F(g) || (!(i.F? && i.f.Cmp?) && OutermostInAny(g, Kids(i)))
  }

  ghost predicate OutermostInAny(g: Formula, xs: seq<Item>)
    decreases Weights(xs), 1 + |xs|
  {
    xs != [] && (Outermost(g, xs[0]) || OutermostInAny(g, xs[1..]))
  }

  /** Exactly the outermost comparisons of numbers count, below equivalences as below other connectives. */
  lemma {:induction false} UsedIsComparisons(i: Item, u: Class)
    ensures u in Used(i) <==> exists g: Formula :: g.Cmp? && Outermost(g, i) && u == UnprimedAll(Syms(F(g)))
    decreases Weight(i), 0
  {
    hide Syms, UnprimedAll;
    KidsWeigh(i);
    UsedCases(i);
    if i.F? && i.f.Cmp? {
      assert Outermost(i.f, i);
      assert !IsConst(i);
    } else if IsConst(i) {
      assert Kids(i) == [];
    } else {
      UsedIsComparisonsAll(Kids(i), u);
    }
  }

  lemma {:induction false} UsedIsComparisonsAll(xs: seq<Item>, u: Class)
    ensures u in UsedAll(xs) <==> exists g: Formula :: g.Cmp? && OutermostInAny(g, xs) && u == UnprimedAll(Syms(F(g)))
    decreases Weights(xs), 1 + |xs|
  {
    hide Syms, UnprimedAll, Outermost, Used;
    if xs != [] {
      UsedIsComparisons(xs[0], u);
      UsedIsComparisonsAll(xs[1..], u);
    }
  }

  // ---- the variables decide the meaning ----

  /** Two interpretations differ at most on integer variables outside the set. */
  ghost predicate SameOn(a: Env, b: Env, s: set<Symbol>) {
    && (forall v | IntSym(v) in s :: a.ints(v) == b.ints(v)) && (forall v :: a.bools(v) == b.bools(v))
    && (forall p, vs :: a.preds(p, vs) == b.preds(p, vs))
  }

  lemma {:induction false} SymsOfOne(xs: seq<Item>, k: nat)
    requires k < |xs|
    ensures Syms(xs[k]) <= SymsAll(xs)
  {
    if k > 0 { SymsOfOne(xs[1..], k - 1); }
  }

  lemma SymsOfKid(i: Item, k: nat)
    requires k < |Kids(i)|
    ensures Syms(Kids(i)[k]) <= Syms(i)
  {
    SymsCases(i);
    SymsOfOne(Kids(i), k);
  }

  lemma SameOnKid(i: Item, k: nat, a: Env, b: Env)
    requires SameOn(a, b, Syms(i)) && k < |Kids(i)|
    ensures SameOn(a, b, Syms(Kids(i)[k]))
  {
    hide Syms, Kids;
    SymsOfKid(i, k);
  }

  lemma SameOnKids(i: Item, a: Env, b: Env)
    requires SameOn(a, b, Syms(i))
    ensures forall k | 0 <= k < |Kids(i)| :: SameOn(a, b, Syms(Kids(i)[k]))
  {
    hide Syms, Kids, SameOn;
    forall k | 0 <= k < |Kids(i)| ensures SameOn(a, b, Syms(Kids(i)[k])) { SameOnKid(i, k, a, b); }
  }

  lemma {:induction false} SymsDecide(f: Formula, a: Env, b: Env)
    requires SameOn(a, b, Syms(F(f)))
    ensures Eval(f, a) == Eval(f, b)
    decreases f, 1
  {
    hide Syms;
    SameOnKids(F(f), a, b);
    var ks := Kids(F(f));
    match f
    case True | False | BoolVar(_) =>
    case Cmp(_, l, r) =>
      assert ks[0] == T(l) && ks[1] == T(r);
      SymsDecideT(l, a, b);
      SymsDecideT(r, a, b);
    case Iff(l, r) =>
      assert ks[0] == F(l) && ks[1] == F(r);
      SymsDecide(l, a, b);
      SymsDecide(r, a, b);
    case Not(g) =>
      assert ks[0] == F(g);
      SymsDecide(g, a, b);
    case And(fs) =>
      forall i | 0 <= i < |fs| ensures Eval(fs[i], a) == Eval(fs[i], b) {
        assert ks[i] == F(fs[i]);
        SymsDecide(fs[i], a, b);
      }
    case Or(fs) =>
      forall i | 0 <= i < |fs| ensures Eval(fs[i], a) == Eval(fs[i], b) {
        assert ks[i] == F(fs[i]);
        SymsDecide(fs[i], a, b);
      }
    case Implies(l, r) =>
      assert ks[0] == F(l) && ks[1] == F(r);
      SymsDecide(l, a, b);
      SymsDecide(r, a, b);
    case Ite(c, t, e) =>
      assert ks[0] == F(c) && ks[1] == F(t) && ks[2] == F(e);
      SymsDecide(c, a, b);
      SymsDecide(t, a, b);
      SymsDecide(e, a, b);
    case Call(_, ts) =>
      forall i | 0 <= i < |ts| ensures SameOn(a, b, Syms(T(ts[i]))) { assert ks[i] == T(ts[i]); }
      SymsDecideTs(ts, a, b);
  }

  lemma {:induction false} SymsDecideT(t: Term, a: Env, b: Env)
    requires SameOn(a, b, Syms(T(t)))
    ensures EvalT(t, a) == EvalT(t, b)
    decreases t, 1
  {
    SymsCases(T(t));
    hide Syms;
    SameOnKids(T(t), a, b);
    var ks := Kids(T(t));
    match t
    case Num(_) =>
    case Var(_) =>
    case Add(ts) =>
      forall i | 0 <= i < |ts| ensures SameOn(a, b, Syms(T(ts[i]))) { assert ks[i] == T(ts[i]); }
      SymsDecideTs(ts, a, b);
    case Sub(l, r) =>
      assert ks[0] == T(l) && ks[1] == T(r);
      SymsDecideT(l, a, b);
      SymsDecideT(r, a, b);
    case Mul(l, r) =>
      assert ks[0] == T(l) && ks[1] == T(r);
      SymsDecideT(l, a, b);
      SymsDecideT(r, a, b);
    case TermIte(c, u, e) =>
      assert ks[0] == F(c) && ks[1] == T(u) && ks[2] == T(e);
      SymsDecide(c, a, b);
      SymsDecideT(u, a, b);
      SymsDecideT(e, a, b);
  }

  lemma {:induction false} SymsDecideTs(ts: seq<Term>, a: Env, b: Env)
    requires forall i | 0 <= i < |ts| :: SameOn(a, b, Syms(T(ts[i])))
    ensures Sum(ts, a) == Sum(ts, b) && Logic.Values(ts, a) == Logic.Values(ts, b)
    decreases ts, 0
  {
    hide Syms, SameOn;
    if ts != [] {
      SymsDecideT(ts[0], a, b);
      SymsDecideTs(ts[1..], a, b);
    }
  }

  /**
   Two interpretations differ at most on integer variables that stand, primed or not, in none of the sets; functions
   have a constant value in both.
   */
  ghost predicate SameOnUsed(a: Env, b: Env, us: set<Class>) {
    && (forall u, v | u in us && Unprimed(IntSym(v)) in u :: a.ints(v) == b.ints(v)) && (forall v :: a.bools(v) == b.bools(v))
    && (forall p, vs, ws :: a.preds(p, vs) == b.preds(p, ws))
  }

  lemma SameOnUsedKids(i: Item, a: Env, b: Env)
    requires SameOnUsed(a, b, Used(i)) && !IsComparison(i)
    ensures forall k | 0 <= k < |Kids(i)| :: SameOnUsed(a, b, Used(Kids(i)[k]))
  {
    hide Used, Kids, IsComparison;
    UsedCases(i);
    forall k | 0 <= k < |Kids(i)| ensures SameOnUsed(a, b, Used(Kids(i)[k])) {
      NoKids(i);
      UsedOfOne(Kids(i), k);
    }
  }

  lemma NoKids(i: Item)
    ensures IsConst(i) ==> Kids(i) == []
  {
  }

  lemma {:induction false} UsedOfOne(xs: seq<Item>, k: nat)
    requires k < |xs|
    ensures Used(xs[k]) <= UsedAll(xs)
  {
    if k > 0 { UsedOfOne(xs[1..], k - 1); }
  }

  lemma UsedComparison(f: Formula, a: Env, b: Env)
    requires f.Cmp? && SameOnUsed(a, b, Used(F(f)))
    ensures SameOn(a, b, Syms(F(f)))
  {
    hide Syms;
    UsedCases(F(f));
    var u := UnprimedAll(Syms(F(f)));
    assert u in Used(F(f));
    forall v | IntSym(v) in Syms(F(f)) ensures a.ints(v) == b.ints(v) {
      assert Unprimed(IntSym(v)) in u;
    }
  }

  /** The truth of a formula is decided by the variables of its comparisons. */
  lemma {:induction false} UsedDecides(f: Formula, a: Env, b: Env)
    requires SameOnUsed(a, b, Used(F(f)))
    ensures Eval(f, a) == Eval(f, b)
    decreases f
  {
    hide Used, Syms;
    if f.Cmp? {
      UsedComparison(f, a, b);
      SymsDecide(f, a, b);
    } else {
      SameOnUsedKids(F(f), a, b);
      var ks := Kids(F(f));
      match f
      case Iff(l, r) =>
        assert ks[0] == F(l) && ks[1] == F(r);
        UsedDecides(l, a, b);
        UsedDecides(r, a, b);
      case Not(g) =>
        assert ks[0] == F(g);
        UsedDecides(g, a, b);
      case And(fs) =>
        forall i | 0 <= i < |fs| ensures Eval(fs[i], a) == Eval(fs[i], b) {
          assert ks[i] == F(fs[i]);
          UsedDecides(fs[i], a, b);
        }
      case Or(fs) =>
        forall i | 0 <= i < |fs| ensures Eval(fs[i], a) == Eval(fs[i], b) {
          assert ks[i] == F(fs[i]);
          UsedDecides(fs[i], a, b);
        }
      case Implies(l, r) =>
        assert ks[0] == F(l) && ks[1] == F(r);
        UsedDecides(l, a, b);
        UsedDecides(r, a, b);
      case Ite(c, t, e) =>
        assert ks[0] == F(c) && ks[1] == F(t) && ks[2] == F(e);
        UsedDecides(c, a, b);
        UsedDecides(t, a, b);
        UsedDecides(e, a, b);
      case _ =>
    }
  }

  // ---- chains of comparisons ----

  /** A chain of at most `n + 1` sets, each sharing a variable with the next, leads from `a` to `b`. */
  ghost predicate Reach(us: set<Class>, a: Symbol, b: Symbol, n: nat)
    decreases n, 1
  {
    exists u :: u in us && a in u && (b in u || Via(us, u, b, n))
  }

  ghost predicate Via(us: set<Class>, u: Class, b: Symbol, n: nat)
    decreases n, 0
  {
    n > 0 && exists c :: c in u && Reach(us, c, b, n - 1)
  }

  ghost predicate Linked(us: set<Class>, a: Symbol, b: Symbol) { exists n: nat :: Reach(us, a, b, n) }

  lemma {:induction false} ReachThen(us: set<Class>, a: Symbol, b: Symbol, c: Symbol, n: nat, m: nat)
    requires Reach(us, a, b, n) && Reach(us, b, c, m)
    ensures Reach(us, a, c, n + m + 1)
    decreases n
  {
    var u :| u in us && a in u && (b in u || Via(us, u, b, n));
    if b in u {
      ReachLonger(us, b, c, m, n + m);
      assert Via(us, u, c, n + m + 1);
    } else {
      var d :| d in u && Reach(us, d, b, n - 1);
      ReachThen(us, d, b, c, n - 1, m);
      assert Via(us, u, c, n + m + 1);
    }
  }

  lemma {:induction false} ReachLonger(us: set<Class>, a: Symbol, b: Symbol, n: nat, m: nat)
    requires Reach(us, a, b, n) && n <= m
    ensures Reach(us, a, b, m)
    decreases n
  {
    var u :| u in us && a in u && (b in u || Via(us, u, b, n));
    if b !in u {
      var c :| c in u && Reach(us, c, b, n - 1);
      ReachLonger(us, c, b, n - 1, m - 1);
      assert Via(us, u, b, m);
    }
  }

  lemma {:induction false} ReachMore(us: set<Class>, us': set<Class>, a: Symbol, b: Symbol, n: nat)
    requires Reach(us, a, b, n) && us <= us'
    ensures Reach(us', a, b, n)
    decreases n
  {
    var u :| u in us && a in u && (b in u || Via(us, u, b, n));
    if b !in u {
      var c :| c in u && Reach(us, c, b, n - 1);
      ReachMore(us, us', c, b, n - 1);
      assert Via(us', u, b, n);
    }
    assert u in us';
  }

  lemma LinkedThen(us: set<Class>, a: Symbol, b: Symbol, c: Symbol)
    requires Linked(us, a, b) && Linked(us, b, c)
    ensures Linked(us, a, c)
  {
    var n: nat :| Reach(us, a, b, n);
    var m: nat :| Reach(us, b, c, m);
    ReachThen(us, a, b, c, n, m);
  }

  lemma LinkedIn(us: set<Class>, u: Class, a: Symbol, b: Symbol)
    requires u in us && a in u && b in u
    ensures Linked(us, a, b)
  {
    assert Reach(us, a, b, 0);
  }

  // ---- components ----

  predicate Disjoint(r: set<Class>) { forall c, d | c in r && d in r && c != d :: Apart(c, d) }

  predicate Apart(c: Class, d: Class) { forall x | x in c :: x !in d }

  /** The classes are the connected components of the sets. */
  ghost predicate Components(us: set<Class>, r: set<Class>) {
    && Disjoint(r)
    && (forall c, a, b | c in r && a in c && b in c :: Linked(us, a, b))
    && Inside(us, r)
    && ({} in r <==> {} in us)
  }

  ghost predicate Together(r: set<Class>, a: Symbol, b: Symbol) { exists c :: c in r && a in c && b in c }

  ghost predicate Inside(us: set<Class>, r: set<Class>) { forall u | u in us :: exists c :: c in r && u <= c }

  lemma {:induction false} ReachStaysInside(us: set<Class>, r: set<Class>, a: Symbol, b: Symbol, n: nat)
    requires Disjoint(r) && Inside(us, r) && Reach(us, a, b, n)
    ensures Together(r, a, b)
    decreases n
  {
    var u :| u in us && a in u && (b in u || Via(us, u, b, n));
    var k :| k in r && u <= k;
    if b !in u {
      var c :| c in u && Reach(us, c, b, n - 1);
      ReachStaysInside(us, r, c, b, n - 1);
      var l :| l in r && c in l && b in l;
      SameClass(r, k, l, c);
    }
  }

  lemma SameClass(r: set<Class>, k: Class, l: Class, x: Symbol)
    requires Disjoint(r) && k in r && l in r && x in k && x in l
    ensures k == l
  {
  }

  /** Two variables share a class exactly where a chain of comparisons links them. */
  lemma TogetherIsLinked(us: set<Class>, r: set<Class>, a: Symbol, b: Symbol)
    requires Components(us, r)
    ensures Together(r, a, b) <==> Linked(us, a, b)
  {
    if Linked(us, a, b) {
      var n: nat :| Reach(us, a, b, n);
      ReachStaysInside(us, r, a, b, n);
    }
  }

  predicate Overlaps(c: Class, used: Class) { c * used != {} }

  /** The classes that share nothing with the set stay, the others are merged with it. */
  predicate Merged(r: set<Class>, used: Class, r': set<Class>) {
    r' == (set c | c in r && !Overlaps(c, used)) + {UnionWith(r, used)}
  }

  function UnionWith(r: set<Class>, used: Class): Class { used + set c, x | c in r && Overlaps(c, used) && x in c :: x }

  lemma MergedIsDisjoint(r: set<Class>, used: Class, r': set<Class>)
    requires Disjoint(r) && Merged(r, used, r')
    ensures Disjoint(r')
  {
    var m := UnionWith(r, used);
    forall c | c in r && !Overlaps(c, used) ensures Apart(c, m) && Apart(m, c) {
      forall x | x in c ensures x !in m { NotMerged(r, used, c, x); }
    }
  }

  lemma NotMerged(r: set<Class>, used: Class, c: Class, x: Symbol)
    requires Disjoint(r) && c in r && !Overlaps(c, used) && x in c
    ensures x !in UnionWith(r, used)
  {
    OverlapsIn(c, used, x);
    forall d | d in r && Overlaps(d, used) ensures x !in d { assert c != d && Apart(c, d); }
  }

  lemma OverlapsIn(c: Class, used: Class, x: Symbol)
    ensures x in c && x in used ==> Overlaps(c, used)
  {
    assert x in c && x in used ==> x in c * used;
  }

  /** Everything in the merged class is linked to everything in the set, and back. */
  lemma MergedReaches(us: set<Class>, r: set<Class>, used: Class, a: Symbol) returns (x: Symbol)
    requires Components(us, r) && a in UnionWith(r, used) && used != {}
    ensures x in used && Linked(us + {used}, a, x) && Linked(us + {used}, x, a)
  {
    if a in used {
      x := a;
      LinkedIn(us + {used}, used, a, a);
    } else {
      var d :| d in r && Overlaps(d, used) && a in d;
      x :| x in d * used;
      LinkedMore(us, us + {used}, a, x);
      LinkedMore(us, us + {used}, x, a);
    }
  }

  lemma LinkedMore(us: set<Class>, us': set<Class>, a: Symbol, b: Symbol)
    requires Linked(us, a, b) && us <= us'
    ensures Linked(us', a, b)
  {
    var n: nat :| Reach(us, a, b, n);
    ReachMore(us, us', a, b, n);
  }

  /** Merging one more set gives the components with it. */
  lemma MergedComponents(us: set<Class>, r: set<Class>, used: Class, r': set<Class>)
    requires Components(us, r) && Merged(r, used, r')
    ensures Components(us + {used}, r')
  {
    hide Linked;
    var us', m := us + {used}, UnionWith(r, used);
    MergedIsDisjoint(r, used, r');
    forall c, a, b | c in r' && a in c && b in c ensures Linked(us', a, b) {
      if c == m {
        UnionOfNone(r, used);
        var x := MergedReaches(us, r, used, a);
        var y := MergedReaches(us, r, used, b);
        LinkedIn(us', used, x, y);
        LinkedThen(us', a, x, y);
        LinkedThen(us', a, y, b);
      } else {
        LinkedMore(us, us', a, b);
      }
    }
    forall u | u in us' ensures exists c :: c in r' && u <= c {
      if u == used {
        assert m in r';
      } else {
        var c :| c in r && u <= c;
        if Overlaps(c, used) { assert u <= m; } else { assert c in r'; }
      }
    }
    NoEmptyClass(r, used, r');
  }

  lemma UnionOfNone(r: set<Class>, used: Class)
    ensures used == {} ==> UnionWith(r, used) == {}
  {
    assert used == {} ==> forall c :: !Overlaps(c, used);
  }

  lemma NoEmptyClass(r: set<Class>, used: Class, r': set<Class>)
    requires Merged(r, used, r')
    ensures {} in r' <==> {} in r || used == {}
  {
    var empty: Class := {};
    assert !Overlaps(empty, used);
    if used == {} {
      assert UnionWith(r, used) == {};
    } else {
      var x :| x in used;
      assert x in UnionWith(r, used);
    }
  }

  // ---- the program ----

  /** The treatment of one comparison: the classes it meets are merged with its variables. */
  method Merge(relation: set<Class>, used: Class) returns (r: set<Class>)
    ensures Merged(relation, used, r)
  {
    hide Overlaps;
    var newrelation: set<Class> := {};
    var merged := used;
    var rest := relation;
    while rest != {}
      invariant rest <= relation
      invariant newrelation == set c | c in relation && c !in rest && !Overlaps(c, used)
      invariant merged == used + set c, x | c in relation && c !in rest && Overlaps(c, used) && x in c :: x
      decreases rest
    {
      var c :| c in rest;
      MergeStep(relation, rest, used, c);
      rest := rest - {c};
      if Overlaps(c, used) {
        merged := merged + c;
      } else {
        newrelation := newrelation + {c};
      }
    }
    r := newrelation + {merged};
    assert merged == UnionWith(relation, used);
  }

  lemma MergeStep(relation: set<Class>, rest: set<Class>, used: Class, k: Class)
    requires k in rest && rest <= relation
    ensures (set c | c in relation && c !in rest - {k} && !Overlaps(c, used)) == (set c | c in relation && c !in rest && !Overlaps(c, used)) + if Overlaps(k, used) then {} else {k}
    ensures (set c, x | c in relation && c !in rest - {k} && Overlaps(c, used) && x in c :: x) == (set c, x | c in relation && c !in rest && Overlaps(c, used) && x in c :: x) + if Overlaps(k, used) then k else {}
  {
    hide Overlaps;
  }

  /** `getVarsRelation`: the components of the comparisons so far and those of the formula. */
  method GetVarsRelation(orig: Item, r: set<Class>, ghost us: set<Class>) returns (relation: set<Class>)
    requires Components(us, r)
    ensures Components(us + Used(orig), relation)
  {
    hide Kids, Weights, IsConst, IsComparison, Used, Components, Merged, Syms, UnprimedAll;
    relation := r;
    var todo := [orig];
    ghost var done := us;
    assert UsedAll([orig]) == Used(orig) by { assert [orig][1..] == []; }
    while todo != []
      invariant Components(done, relation)
      invariant done + UsedAll(todo) == us + Used(orig)
      decreases Weights(todo)
    {
      var expr := todo[0];
      QueueShrinks(todo);
      UsedCases(expr);
      ghost var rest := todo[1..];
      todo := todo[1..];
      if !IsConst(expr) {
        if IsComparison(expr) {
          var usedInExpr := ScanForVars(expr);
          var used := UnprimedAll(usedInExpr);
          var merged := Merge(relation, used);
          MergedComponents(done, relation, used, merged);
          relation := merged;
          done := done + {used};
        } else {
          UsedConcat(rest, Kids(expr));
          todo := todo + Kids(expr);
        }
      }
    }
    assert done == us + Used(orig);
  }

  lemma NoComponents()
    ensures Components({}, {})
  {
  }

  /** `invVarRelation`: the components of the comparisons in the three conditions of an invariant problem. */
  method InvVarRelation(pre: Formula, trans: Formula, post: Formula) returns (relation: set<Class>)
    ensures Components(Used(F(pre)) + Used(F(trans)) + Used(F(post)), relation)
    ensures forall a, b :: Together(relation, a, b) <==> Linked(Used(F(pre)) + Used(F(trans)) + Used(F(post)), a, b)
  {
    hide Components, Used, Together, Linked;
    NoComponents();
    relation := {};
    relation := GetVarsRelation(F(pre), relation, {});
    relation := GetVarsRelation(F(trans), relation, {} + Used(F(pre)));
    relation := GetVarsRelation(F(post), relation, {} + Used(F(pre)) + Used(F(trans)));
    ghost var us := Used(F(pre)) + Used(F(trans)) + Used(F(post));
    assert {} + Used(F(pre)) + Used(F(trans)) + Used(F(post)) == us;
    forall a, b ensures Together(relation, a, b) <==> Linked(us, a, b) { TogetherIsLinked(us, relation, a, b); }
  }

  /** A comparison of numbers leaves an empty class behind, which counts as a class of its own. */
  lemma ConstantComparisonAddsClass(m: int, n: int, us: set<Class>, r: set<Class>)
    requires Components(us + Used(F(Cmp(Le, Num(m), Num(n)))), r)
    ensures {} in r
  {
    var i := F(Cmp(Le, Num(m), Num(n)));
    assert Kids(i) == [T(Num(m)), T(Num(n))];
    hide Syms;
    SymsCases(T(Num(m)));
    SymsCases(T(Num(n)));
    SymsCases(i);
    assert SymsAll([]) == {};
    assert Kids(i)[1..] == [T(Num(n))] && [T(Num(n))][1..] == [];
    assert SymsAll([T(Num(n))]) == {};
    assert UnprimedAll(Syms(i)) == {};
    UsedCases(i);
  }
}
