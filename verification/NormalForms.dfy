/** Negation, disjunctive and conjunctive normal forms. */
module NormalForms {
  import opened Wrappers
  import opened Logic
  import Conjunctions

  // ---- shapes ----

  predicate Atomic(f: Formula) { f.True? || f.False? || f.BoolVar? || f.Cmp? || f.Call? }

  /** Built from atoms by conjunction, disjunction and negation only. */
  predicate Basic(f: Formula) {
    match f
    case And(fs) => forall i | 0 <= i < |fs| :: Basic(fs[i])
    case Or(fs) => forall i | 0 <= i < |fs| :: Basic(fs[i])
    case Not(g) => Basic(g)
    case _ => Atomic(f)
  }

  /** Negations stand on atoms only. */
  predicate Nnf(f: Formula) {
    match f
    case And(fs) => forall i | 0 <= i < |fs| :: Nnf(fs[i])
    case Or(fs) => forall i | 0 <= i < |fs| :: Nnf(fs[i])
    case Not(g) => Atomic(g)
    case _ => Atomic(f)
  }

  /** Every conjunction and disjunction has an argument. */
  predicate NonEmpty(f: Formula) {
    match f
    case And(fs) => fs != [] && forall i | 0 <= i < |fs| :: NonEmpty(fs[i])
    case Or(fs) => fs != [] && forall i | 0 <= i < |fs| :: NonEmpty(fs[i])
    case Not(g) => NonEmpty(g)
    case Iff(l, r) => NonEmpty(l) && NonEmpty(r)
    case Implies(l, r) => NonEmpty(l) && NonEmpty(r)
    case Ite(c, t, e) => NonEmpty(c) && NonEmpty(t) && NonEmpty(e)
    case _ => true
  }

  predicate NoImplies(f: Formula) {
    match f
    case And(fs) => forall i | 0 <= i < |fs| :: NoImplies(fs[i])
    case Or(fs) => forall i | 0 <= i < |fs| :: NoImplies(fs[i])
    case Not(g) => NoImplies(g)
    case Ite(c, t, e) => NoImplies(c) && NoImplies(t) && NoImplies(e)
    case Implies(_, _) => false
    case _ => true
  }

  // ---- negation normal form ----

  /** `eliminateImpEq`. */
  function EliminateImpEq(f: Formula): Formula
    decreases f
  {
    match f
    case Implies(l, r) => Or([Not(EliminateImpEq(l)), EliminateImpEq(r)])
    case Iff(l, r) =>
      var e1, e2 := EliminateImpEq(l), EliminateImpEq(r);
      Or([And([e1, e2]), And([Not(e1), Not(e2)])])
    case Ite(c, t, e) =>
      var e1, e2, e3 := EliminateImpEq(c), EliminateImpEq(t), EliminateImpEq(e);
      Or([And([Not(e1), e3]), And([e1, e2])])
    case Not(g) => Not(EliminateImpEq(g))
    case And(fs) => And(seq(|fs|, i requires 0 <= i < |fs| => EliminateImpEq(fs[i])))
    case Or(fs) => Or(seq(|fs|, i requires 0 <= i < |fs| => EliminateImpEq(fs[i])))
    case _ => f
  }

  /** `pushNegIn`. */
  function PushNegIn(f: Formula): Formula
    requires NoImplies(f)
    decreases f, 0
  {
    match f
    case Not(g) => PushNot(g)
    case And(fs) => And(seq(|fs|, i requires 0 <= i < |fs| => PushNegIn(fs[i])))
    case Or(fs) => Or(seq(|fs|, i requires 0 <= i < |fs| => PushNegIn(fs[i])))
    case Ite(c, t, e) => Ite(PushNegIn(c), PushNegIn(t), PushNegIn(e))
    case _ => f
  }

  /** `pushNegIn` of the negation of `g`. */
  function PushNot(g: Formula): Formula
    requires NoImplies(g)
    decreases g, 1
  {
    match g
    case Not(h) => PushNegIn(h)
    case And(fs) => Or(seq(|fs|, i requires 0 <= i < |fs| => PushNot(fs[i])))
    case Or(fs) => And(seq(|fs|, i requires 0 <= i < |fs| => PushNot(fs[i])))
    case _ => Not(PushNegIn(g))
  }

  lemma {:induction false} EliminateImpEqIsRight(f: Formula, env: Env)
    ensures Eval(EliminateImpEq(f), env) == Eval(f, env)
  {
    hide Eval;
    OperatorMeanings(f, env);
    match f
    case Implies(l, r) =>
      EliminateImpEqIsRight(l, env);
      EliminateImpEqIsRight(r, env);
      OperatorMeanings(Not(EliminateImpEq(l)), env);
      PairMeaning(Not(EliminateImpEq(l)), EliminateImpEq(r), env);
    case Iff(l, r) =>
      var e1, e2 := EliminateImpEq(l), EliminateImpEq(r);
      EliminateImpEqIsRight(l, env);
      EliminateImpEqIsRight(r, env);
      OperatorMeanings(Not(e1), env);
      OperatorMeanings(Not(e2), env);
      TwoPairs(e1, e2, Not(e1), Not(e2), env);
    case Ite(c, t, e) =>
      var e1 := EliminateImpEq(c);
      EliminateImpEqIsRight(c, env);
      EliminateImpEqIsRight(t, env);
      EliminateImpEqIsRight(e, env);
      OperatorMeanings(Not(e1), env);
      TwoPairs(Not(e1), EliminateImpEq(e), e1, EliminateImpEq(t), env);
    case Not(g) =>
      EliminateImpEqIsRight(g, env);
      OperatorMeanings(Not(EliminateImpEq(g)), env);
    case And(fs) =>
      var gs := EliminateImpEq(f).fs;
      forall i | 0 <= i < |fs| ensures Eval(gs[i], env) == Eval(fs[i], env) { EliminateImpEqIsRight(fs[i], env); }
      SameConnectives(fs, gs, env);
    case Or(fs) =>
      var gs := EliminateImpEq(f).fs;
      forall i | 0 <= i < |fs| ensures Eval(gs[i], env) == Eval(fs[i], env) { EliminateImpEqIsRight(fs[i], env); }
      SameConnectives(fs, gs, env);
    case _ =>
  }

  lemma OperatorMeanings(f: Formula, env: Env)
    ensures f.Not? ==> Eval(f, env) == !Eval(f.f, env)
    ensures f.Implies? ==> Eval(f, env) == (Eval(f.left, env) ==> Eval(f.right, env))
    ensures f.Iff? ==> Eval(f, env) == (Eval(f.left, env) == Eval(f.right, env))
    ensures f.Ite? ==> Eval(f, env) == if Eval(f.cond, env) then Eval(f.then_, env) else Eval(f.else_, env)
  {
  }

  lemma SameConnectives(fs: seq<Formula>, gs: seq<Formula>, env: Env)
    requires |fs| == |gs| && forall i | 0 <= i < |fs| :: Eval(gs[i], env) == Eval(fs[i], env)
    ensures Eval(And(gs), env) == Eval(And(fs), env) && Eval(Or(gs), env) == Eval(Or(fs), env)
  {
  }

  lemma TwoPairs(a: Formula, b: Formula, c: Formula, d: Formula, env: Env)
    ensures Eval(Or([And([a, b]), And([c, d])]), env) == ((Eval(a, env) && Eval(b, env)) || (Eval(c, env) && Eval(d, env)))
  {
    hide Eval;
    PairMeaning(a, b, env);
    PairMeaning(c, d, env);
    PairMeaning(And([a, b]), And([c, d]), env);
  }

  lemma EliminateImpEqShape(f: Formula)
    ensures Basic(EliminateImpEq(f))
    ensures NonEmpty(f) ==> NonEmpty(EliminateImpEq(f))
  {
    EliminateImpEqBasic(f);
    if NonEmpty(f) { EliminateImpEqNonEmpty(f); }
  }

  lemma {:induction false} EliminateImpEqBasic(f: Formula)
    ensures Basic(EliminateImpEq(f))
  {
    match f
    case Implies(l, r) => EliminateImpEqBasic(l); EliminateImpEqBasic(r);
    case Iff(l, r) => EliminateImpEqBasic(l); EliminateImpEqBasic(r);
    case Ite(c, t, e) => EliminateImpEqBasic(c); EliminateImpEqBasic(t); EliminateImpEqBasic(e);
    case Not(g) => EliminateImpEqBasic(g);
    case And(fs) => forall i | 0 <= i < |fs| ensures Basic(EliminateImpEq(fs[i])) { EliminateImpEqBasic(fs[i]); }
    case Or(fs) => forall i | 0 <= i < |fs| ensures Basic(EliminateImpEq(fs[i])) { EliminateImpEqBasic(fs[i]); }
    case _ =>
  }

  lemma {:induction false} EliminateImpEqNonEmpty(f: Formula)
    requires NonEmpty(f)
    ensures NonEmpty(EliminateImpEq(f))
  {
    match f
    case Implies(l, r) => EliminateImpEqNonEmpty(l); EliminateImpEqNonEmpty(r);
    case Iff(l, r) => EliminateImpEqNonEmpty(l); EliminateImpEqNonEmpty(r);
    case Ite(c, t, e) => EliminateImpEqNonEmpty(c); EliminateImpEqNonEmpty(t); EliminateImpEqNonEmpty(e);
    case Not(g) => EliminateImpEqNonEmpty(g);
    case And(fs) => forall i | 0 <= i < |fs| ensures NonEmpty(EliminateImpEq(fs[i])) { EliminateImpEqNonEmpty(fs[i]); }
    case Or(fs) => forall i | 0 <= i < |fs| ensures NonEmpty(EliminateImpEq(fs[i])) { EliminateImpEqNonEmpty(fs[i]); }
    case _ =>
  }

  lemma {:induction false} PushIsRight(f: Formula, env: Env)
    requires NoImplies(f)
    ensures Eval(PushNegIn(f), env) == Eval(f, env)
    ensures Eval(PushNot(f), env) == !Eval(f, env)
    decreases f
  {
    hide Eval, PushNegIn, PushNot;
    match f
    case Not(g) =>
      PushIsRight(g, env);
      PushNotRight(g, env);
    case And(fs) =>
      forall i | 0 <= i < |fs| ensures PushedRight(fs[i], env) { PushIsRight(fs[i], env); }
      PushAllRight(f, env);
    case Or(fs) =>
      forall i | 0 <= i < |fs| ensures PushedRight(fs[i], env) { PushIsRight(fs[i], env); }
      PushAllRight(f, env);
    case Ite(c, t, e) =>
      PushIsRight(c, env);
      PushIsRight(t, env);
      PushIsRight(e, env);
      PushIteRight(c, t, e, env);
    case _ => PushLeafRight(f, env);
  }

  ghost predicate PushedRight(f: Formula, env: Env) {
    NoImplies(f) && Eval(PushNegIn(f), env) == Eval(f, env) && Eval(PushNot(f), env) == !Eval(f, env)
  }

  lemma PushAllRight(f: Formula, env: Env)
    requires NoImplies(f) && (f.And? || f.Or?) && forall i | 0 <= i < |f.fs| :: PushedRight(f.fs[i], env)
    ensures Eval(PushNegIn(f), env) == Eval(f, env) && Eval(PushNot(f), env) == !Eval(f, env)
  {
    var p, q := PushNegIn(f), PushNot(f);
    forall i | 0 <= i < |f.fs| ensures Eval(p.fs[i], env) == Eval(f.fs[i], env) && Eval(q.fs[i], env) == !Eval(f.fs[i], env) {
      assert PushedRight(f.fs[i], env);
    }
  }

  lemma PushNotRight(g: Formula, env: Env)
    requires PushedRight(g, env)
    ensures PushedRight(Not(g), env)
  {
  }

  lemma PushIteRight(c: Formula, t: Formula, e: Formula, env: Env)
    requires PushedRight(c, env) && PushedRight(t, env) && PushedRight(e, env)
    ensures PushedRight(Ite(c, t, e), env)
  {
  }

  lemma PushLeafRight(f: Formula, env: Env)
    requires NoImplies(f) && !f.Not? && !f.And? && !f.Or? && !f.Ite?
    ensures PushedRight(f, env)
  {
  }

  lemma {:induction false} PushShape(f: Formula)
    requires Basic(f)
    ensures NoImplies(f) && Nnf(PushNegIn(f)) && Nnf(PushNot(f))
    ensures NonEmpty(f) ==> NonEmpty(PushNegIn(f)) && NonEmpty(PushNot(f))
  {
    match f
    case Not(g) => PushShape(g);
    case And(fs) => forall i | 0 <= i < |fs| ensures PushedWell(fs[i]) { PushShape(fs[i]); }
    case Or(fs) => forall i | 0 <= i < |fs| ensures PushedWell(fs[i]) { PushShape(fs[i]); }
    case _ =>
  }

  predicate PushedWell(f: Formula) {
    && NoImplies(f) && Nnf(PushNegIn(f)) && Nnf(PushNot(f))
    && (NonEmpty(f) ==> NonEmpty(PushNegIn(f)) && NonEmpty(PushNot(f)))
  }

  // ---- the two connectives ----

  /** The connective that is moved inwards: conjunction for the disjunctive, disjunction for the conjunctive form. */
  datatype Conn = Conj | Disj {
    function Dual(): Conn { if Conj? then Disj else Conj }

    function Mk(fs: seq<Formula>): Formula { if Conj? then And(fs) else Or(fs) }

    predicate Is(f: Formula) { if Conj? then f.And? else f.Or? }

    /** The start value of the distribution loops, neutral for the other connective. */
    function Start(): Formula { if Conj? then False else True }

    /** The truth of `f`, negated for a disjunction, so that `Mk` always says "all". */
    predicate V(f: Formula, env: Env) { Eval(f, env) == Conj? }
  }

  lemma MkAll(op: Conn, fs: seq<Formula>, env: Env)
    ensures op.V(op.Mk(fs), env) <==> forall i | 0 <= i < |fs| :: op.V(fs[i], env)
  {
  }

  lemma MkSome(op: Conn, fs: seq<Formula>, env: Env)
    ensures op.V(op.Dual().Mk(fs), env) <==> exists i :: 0 <= i < |fs| && op.V(fs[i], env)
  {
  }

  ghost predicate SomeHolds(op: Conn, fs: seq<Formula>, env: Env) { exists f :: f in fs && op.V(f, env) }

  lemma SomeConcat(op: Conn, a: seq<Formula>, b: seq<Formula>, env: Env)
    ensures SomeHolds(op, a + b, env) <==> SomeHolds(op, a, env) || SomeHolds(op, b, env)
  {
    hide Eval;
    assert forall f :: f in a + b <==> f in a || f in b;
  }

  lemma MkSomeIn(op: Conn, fs: seq<Formula>, env: Env)
    ensures op.V(op.Dual().Mk(fs), env) <==> SomeHolds(op, fs, env)
  {
    hide Eval;
    MkSome(op, fs, env);
  }

  // ---- flattening ----

  /** `getArgsListForOr` / `getArgsListForAnd`. */
  function Flat(op: Conn, f: Formula): seq<Formula>
    decreases f, 1
  {
    if !op.Dual().Is(f) then [f] else FlatAll(op, f.fs)
  }

  function FlatAll(op: Conn, fs: seq<Formula>): seq<Formula>
    decreases fs, 0
  {
    if fs == [] then [] else Flat(op, fs[0]) + FlatAll(op, fs[1..])
  }

  lemma {:induction false} FlatMeaning(op: Conn, f: Formula, env: Env)
    ensures SomeHolds(op, Flat(op, f), env) <==> op.V(f, env)
    decreases f, 1
  {
    hide Eval;
    if op.Dual().Is(f) {
      FlatAllMeaning(op, f.fs, env);
      MkSomeIn(op, f.fs, env);
      assert f == op.Dual().Mk(f.fs);
    } else {
      assert f in [f];
    }
  }

  lemma {:induction false} FlatAllMeaning(op: Conn, fs: seq<Formula>, env: Env)
    ensures SomeHolds(op, FlatAll(op, fs), env) <==> SomeHolds(op, fs, env)
    decreases fs, 0
  {
    hide Eval, SomeHolds;
    if fs != [] {
      FlatMeaning(op, fs[0], env);
      FlatAllMeaning(op, fs[1..], env);
      SomeConcat(op, Flat(op, fs[0]), FlatAll(op, fs[1..]), env);
      SomeConcat(op, [fs[0]], fs[1..], env);
      assert fs == [fs[0]] + fs[1..];
      SomeOne(op, fs[0], env);
    }
  }

  lemma SomeOne(op: Conn, f: Formula, env: Env)
    ensures SomeHolds(op, [f], env) <==> op.V(f, env)
  {
    hide Eval;
    assert f in [f];
  }

  // ---- distribution ----

  /** The formula made from one argument of each side and, where there is one, the rest. */
  function Product(op: Conn, fs: seq<Formula>, rest: Option<Formula>): Formula {
    op.Mk(fs + if rest.Some? then [rest.value] else [])
  }

  function Row(op: Conn, a: Formula, bs: seq<Formula>, rest: Option<Formula>): (ps: seq<Formula>)
    ensures |ps| == |bs|
  {
    seq(|bs|, j requires 0 <= j < |bs| => Product(op, [a, bs[j]], rest))
  }

  function Products(op: Conn, xs: seq<Formula>, bs: seq<Formula>, rest: Option<Formula>): seq<Formula> {
    if xs == [] then [] else Products(op, xs[..|xs| - 1], bs, rest) + Row(op, xs[|xs| - 1], bs, rest)
  }

  /** The left-nested binary combination; the start value for none. */
  function Chain(op: Conn, ps: seq<Formula>): Formula {
    if ps == [] then op.Start()
    else if |ps| == 1 then ps[0]
    else op.Dual().Mk([Chain(op, ps[..|ps| - 1]), ps[|ps| - 1]])
  }

  /** The first round: only the second side, each argument joined with the rest. */
  function Firsts(op: Conn, bs: seq<Formula>, rest: Option<Formula>): (ps: seq<Formula>)
    ensures |ps| == |bs|
  {
    seq(|bs|, j requires 0 <= j < |bs| => if rest.None? then bs[j] else Product(op, [bs[j]], rest))
  }

  /** `distributeAnd` / `distributeOr`. */
  function Distributed(op: Conn, x: Formula, y: Formula, rest: Option<Formula>): Formula {
    if x == op.Start() then op.Dual().Mk(Firsts(op, Flat(op, y), rest))
    else Chain(op, Products(op, Flat(op, x), Flat(op, y), rest))
  }

  predicate RestHolds(op: Conn, rest: Option<Formula>, env: Env) { rest.Some? ==> op.V(rest.value, env) }

  lemma ProductMeaning(op: Conn, fs: seq<Formula>, rest: Option<Formula>, env: Env)
    ensures op.V(Product(op, fs, rest), env) <==> (forall i | 0 <= i < |fs| :: op.V(fs[i], env)) && RestHolds(op, rest, env)
  {
    hide Eval;
    var all := fs + if rest.Some? then [rest.value] else [];
    MkAll(op, all, env);
    if op.V(op.Mk(all), env) {
      forall i | 0 <= i < |fs| ensures op.V(fs[i], env) { assert all[i] == fs[i]; }
      assert rest.Some? ==> all[|fs|] == rest.value;
    }
  }

  lemma ProductOfTwo(op: Conn, a: Formula, b: Formula, rest: Option<Formula>, env: Env)
    ensures op.V(Product(op, [a, b], rest), env) <==> op.V(a, env) && op.V(b, env) && RestHolds(op, rest, env)
    ensures op.V(Product(op, [b], rest), env) <==> op.V(b, env) && RestHolds(op, rest, env)
  {
    hide Eval;
    ProductMeaning(op, [a, b], rest, env);
    ProductMeaning(op, [b], rest, env);
    assert [a, b][0] == a && [a, b][1] == b && [b][0] == b;
  }

  lemma RowMeaning(op: Conn, a: Formula, bs: seq<Formula>, rest: Option<Formula>, env: Env)
    ensures SomeHolds(op, Row(op, a, bs, rest), env) <==> op.V(a, env) && SomeHolds(op, bs, env) && RestHolds(op, rest, env)
    ensures SomeHolds(op, Firsts(op, bs, rest), env) <==> SomeHolds(op, bs, env) && RestHolds(op, rest, env)
  {
    hide Eval, RestHolds, Product;
    var row, firsts := Row(op, a, bs, rest), Firsts(op, bs, rest);
    NoRest(op, rest, env);
    forall j | 0 <= j < |bs|
      ensures op.V(row[j], env) <==> op.V(a, env) && op.V(bs[j], env) && RestHolds(op, rest, env)
      ensures op.V(firsts[j], env) <==> op.V(bs[j], env) && (rest.None? || RestHolds(op, rest, env))
    {
      ProductOfTwo(op, a, bs[j], rest, env);
    }
    if SomeHolds(op, bs, env) {
      var j :| 0 <= j < |bs| && op.V(bs[j], env);
      assert row[j] in row && firsts[j] in firsts;
    }
  }

  lemma NoRest(op: Conn, rest: Option<Formula>, env: Env)
    ensures rest.None? ==> RestHolds(op, rest, env)
  {
  }

  lemma {:induction false} ProductsMeaning(op: Conn, xs: seq<Formula>, bs: seq<Formula>, rest: Option<Formula>, env: Env)
    ensures SomeHolds(op, Products(op, xs, bs, rest), env) <==> SomeHolds(op, xs, env) && SomeHolds(op, bs, env) && RestHolds(op, rest, env)
  {
    hide Eval, RestHolds, Row, SomeHolds;
    if xs == [] {
      SomeNone(op, env);
    } else {
      var init, a := xs[..|xs| - 1], xs[|xs| - 1];
      ProductsMeaning(op, init, bs, rest, env);
      RowMeaning(op, a, bs, rest, env);
      SomeConcat(op, Products(op, init, bs, rest), Row(op, a, bs, rest), env);
      SomeConcat(op, init, [a], env);
      SomeOne(op, a, env);
      assert xs == init + [a];
    }
  }

  lemma SomeNone(op: Conn, env: Env)
    ensures !SomeHolds(op, [], env)
    ensures !op.V(op.Start(), env)
  {
  }

  lemma {:induction false} ChainMeaning(op: Conn, ps: seq<Formula>, env: Env)
    ensures op.V(Chain(op, ps), env) <==> SomeHolds(op, ps, env)
  {
    hide Eval, SomeHolds;
    if ps == [] {
      SomeNone(op, env);
    } else {
      var init, p := ps[..|ps| - 1], ps[|ps| - 1];
      ChainMeaning(op, init, env);
      SomeConcat(op, init, [p], env);
      SomeOne(op, p, env);
      assert ps == init + [p];
      if |ps| > 1 {
        MkSomeIn(op, [Chain(op, init), p], env);
        SomeConcat(op, [Chain(op, init)], [p], env);
        SomeOne(op, Chain(op, init), env);
        assert [Chain(op, init), p] == [Chain(op, init)] + [p];
      } else {
        SomeNone(op, env);
      }
    }
  }

  /** One distribution step is right, except that the start value is taken to say nothing at all. */
  lemma DistributedMeaning(op: Conn, x: Formula, y: Formula, rest: Option<Formula>, env: Env)
    ensures op.V(Distributed(op, x, y, rest), env) <==> (op.V(x, env) || x == op.Start()) && op.V(y, env) && RestHolds(op, rest, env)
  {
    hide Eval, RestHolds, Row, SomeHolds, Firsts, Products, Chain, Flat;
    FlatMeaning(op, x, env);
    FlatMeaning(op, y, env);
    NoRest(op, rest, env);
    if x == op.Start() {
      RowMeaning(op, x, Flat(op, y), rest, env);
      MkSomeIn(op, Firsts(op, Flat(op, y), rest), env);
    } else {
      ProductsMeaning(op, Flat(op, x), Flat(op, y), rest, env);
      ChainMeaning(op, Products(op, Flat(op, x), Flat(op, y), rest), env);
    }
  }

  // ---- conversion ----

  /** `otherList` as one formula. */
  function Rest(op: Conn, others: seq<Formula>): Option<Formula> {
    if others == [] then None else if |others| == 1 then Some(others[0]) else Some(op.Mk(others))
  }

  function Pick(op: Conn, fs: seq<Formula>, mixed: bool): seq<Formula> {
    if fs == [] then []
    else (if op.Dual().Is(fs[0]) == mixed then [fs[0]] else []) + Pick(op, fs[1..], mixed)
  }

  function Fold(op: Conn, acc: Formula, mixed: seq<Formula>, rest: Option<Formula>): Formula
    decreases mixed
  {
    if mixed == [] then acc else Fold(op, Distributed(op, acc, mixed[0], rest), mixed[1..], rest)
  }

  function Combined(op: Conn, es: seq<Formula>): Option<Formula> {
    var mixed, rest := Pick(op, es, true), Rest(op, Pick(op, es, false));
    if mixed == [] then rest else Some(Fold(op, op.Start(), mixed, rest))
  }

  /** `convertNNFToDNF` (`Conj`) and `convertNNFToCNF` (`Disj`); a null result, or a failure on one, is `None`. */
  function Converted(op: Conn, f: Formula): Option<Formula>
    decreases f, 1
  {
    if Conjunctions.IsAtom(f) then Some(f)
    else if !f.And? && !f.Or? then None
    else
      var es := ConvertedAll(op, f.fs);
      if es.None? then None
      else if op.Dual().Is(f) then Some(op.Dual().Mk(es.value))
      else Combined(op, es.value)
  }

  function ConvertedAll(op: Conn, fs: seq<Formula>): (r: Option<seq<Formula>>)
    ensures r.Some? ==> |r.value| == |fs|
    decreases fs, 0
  {
    if fs == [] then Some([])
    else
      var h, t := Converted(op, fs[0]), ConvertedAll(op, fs[1..]);
      if h.None? || t.None? then None else Some([h.value] + t.value)
  }

  lemma {:induction false} ConvertedEach(op: Conn, fs: seq<Formula>)
    requires forall i | 0 <= i < |fs| :: Converted(op, fs[i]).Some?
    ensures ConvertedAll(op, fs).Some?
    ensures forall i | 0 <= i < |fs| :: ConvertedAll(op, fs).value[i] == Converted(op, fs[i]).value
  {
    hide Converted;
    if fs != [] { ConvertedEach(op, fs[1..]); }
  }

  // ---- the normal forms ----

  predicate Literal(f: Formula) { Atomic(f) || (f.Not? && Atomic(f.f)) }

  /** A nested `op` of literals. */
  predicate Clause(op: Conn, f: Formula) {
    Literal(f) || (op.Is(f) && forall i | 0 <= i < |f.fs| :: Clause(op, f.fs[i]))
  }

  /** DNF (`Conj`) or CNF (`Disj`): the other connective, nested, over clauses. */
  predicate Normal(op: Conn, f: Formula) {
    Clause(op, f) || (op.Dual().Is(f) && forall i | 0 <= i < |f.fs| :: Normal(op, f.fs[i]))
  }

  predicate Good(op: Conn, f: Formula) { Normal(op, f) && NonEmpty(f) }

  predicate GoodClause(op: Conn, f: Formula) { Clause(op, f) && NonEmpty(f) }

  predicate GoodClauses(op: Conn, fs: seq<Formula>) { fs != [] && forall i | 0 <= i < |fs| :: GoodClause(op, fs[i]) }

  lemma NonEmptyMk(op: Conn, fs: seq<Formula>)
    requires fs != [] && forall i | 0 <= i < |fs| :: NonEmpty(fs[i])
    ensures NonEmpty(op.Mk(fs))
  {
  }

  lemma NonEmptyArgs(f: Formula)
    requires NonEmpty(f) && (f.And? || f.Or?)
    ensures f.fs != [] && forall i | 0 <= i < |f.fs| :: NonEmpty(f.fs[i])
  {
  }

  lemma MkClause(op: Conn, fs: seq<Formula>)
    requires GoodClauses(op, fs)
    ensures GoodClause(op, op.Mk(fs))
  {
    NonEmptyMk(op, fs);
  }

  lemma MkNormal(op: Conn, fs: seq<Formula>)
    requires fs != [] && forall i | 0 <= i < |fs| :: Good(op, fs[i])
    ensures Good(op, op.Dual().Mk(fs))
  {
    NonEmptyMk(op.Dual(), fs);
  }

  lemma ClausesConcat(op: Conn, a: seq<Formula>, b: seq<Formula>)
    requires GoodClauses(op, a) && (b == [] || GoodClauses(op, b))
    ensures GoodClauses(op, a + b)
  {
    hide GoodClause;
  }

  lemma {:induction false} FlatShape(op: Conn, f: Formula)
    requires Good(op, f)
    ensures GoodClauses(op, Flat(op, f))
    decreases f, 1
  {
    if op.Dual().Is(f) {
      NonEmptyArgs(f);
      FlatAllShape(op, f.fs);
    }
  }

  lemma {:induction false} FlatAllShape(op: Conn, fs: seq<Formula>)
    requires fs != [] && forall i | 0 <= i < |fs| :: Good(op, fs[i])
    ensures GoodClauses(op, FlatAll(op, fs))
    decreases fs, 0
  {
    hide Good, GoodClauses;
    FlatShape(op, fs[0]);
    if |fs| > 1 { FlatAllShape(op, fs[1..]); }
    ClausesConcat(op, Flat(op, fs[0]), FlatAll(op, fs[1..]));
  }

  lemma ProductShape(op: Conn, fs: seq<Formula>, rest: Option<Formula>)
    requires GoodClauses(op, fs) && (rest.Some? ==> GoodClause(op, rest.value))
    ensures GoodClause(op, Product(op, fs, rest)) && op.Is(Product(op, fs, rest))
  {
    hide GoodClause;
    var all := fs + if rest.Some? then [rest.value] else [];
    MkClause(op, all);
  }

  ghost predicate ProductList(op: Conn, ps: seq<Formula>) { GoodClauses(op, ps) && forall i | 0 <= i < |ps| :: op.Is(ps[i]) }

  lemma RowShape(op: Conn, a: Formula, bs: seq<Formula>, rest: Option<Formula>)
    requires GoodClause(op, a) && GoodClauses(op, bs) && (rest.Some? ==> GoodClause(op, rest.value))
    ensures ProductList(op, Row(op, a, bs, rest)) && GoodClauses(op, Firsts(op, bs, rest))
  {
    hide GoodClause, Product;
    forall j | 0 <= j < |bs|
      ensures GoodClause(op, Row(op, a, bs, rest)[j]) && op.Is(Row(op, a, bs, rest)[j]) && GoodClause(op, Firsts(op, bs, rest)[j])
    {
      ProductShape(op, [a, bs[j]], rest);
      ProductShape(op, [bs[j]], rest);
    }
  }

  lemma {:induction false} ProductsShape(op: Conn, xs: seq<Formula>, bs: seq<Formula>, rest: Option<Formula>)
    requires GoodClauses(op, xs) && GoodClauses(op, bs) && (rest.Some? ==> GoodClause(op, rest.value))
    ensures ProductList(op, Products(op, xs, bs, rest))
  {
    hide GoodClause, Row;
    var init, a := xs[..|xs| - 1], xs[|xs| - 1];
    RowShape(op, a, bs, rest);
    if init == [] {
      assert Products(op, xs, bs, rest) == Row(op, a, bs, rest);
    } else {
      ProductsShape(op, init, bs, rest);
      ClausesConcat(op, Products(op, init, bs, rest), Row(op, a, bs, rest));
    }
  }

  lemma {:induction false} ChainShape(op: Conn, ps: seq<Formula>)
    requires ProductList(op, ps)
    ensures Good(op, Chain(op, ps)) && Chain(op, ps) != op.Start()
  {
    var init, p := ps[..|ps| - 1], ps[|ps| - 1];
    if |ps| > 1 {
      ChainShape(op, init);
      MkNormal(op, [Chain(op, init), p]);
    }
  }

  /** Distribution gives a normal form again, which is never mistaken for the start value. */
  lemma DistributedShape(op: Conn, x: Formula, y: Formula, rest: Option<Formula>)
    requires (x == op.Start() || Good(op, x)) && Good(op, y) && (rest.Some? ==> GoodClause(op, rest.value))
    ensures Good(op, Distributed(op, x, y, rest)) && Distributed(op, x, y, rest) != op.Start()
  {
    hide Flat, Firsts, Products, Chain, NonEmpty;
    FlatShape(op, y);
    if x == op.Start() {
      RowShape(op, Flat(op, y)[0], Flat(op, y), rest);
      MkNormal(op, Firsts(op, Flat(op, y), rest));
    } else {
      FlatShape(op, x);
      ProductsShape(op, Flat(op, x), Flat(op, y), rest);
      ChainShape(op, Products(op, Flat(op, x), Flat(op, y), rest));
    }
  }

  ghost predicate All(op: Conn, fs: seq<Formula>, env: Env) { forall f | f in fs :: op.V(f, env) }

  lemma AllConcat(op: Conn, a: seq<Formula>, b: seq<Formula>, env: Env)
    ensures All(op, a + b, env) <==> All(op, a, env) && All(op, b, env)
  {
    hide Eval;
    assert forall f :: f in a + b <==> f in a || f in b;
  }

  lemma AllOne(op: Conn, f: Formula, env: Env)
    ensures All(op, [f], env) <==> op.V(f, env)
    ensures All(op, [], env)
  {
    hide Eval;
    assert f in [f];
  }

  lemma AllHead(op: Conn, fs: seq<Formula>, env: Env)
    requires fs != []
    ensures All(op, fs, env) <==> op.V(fs[0], env) && All(op, fs[1..], env)
  {
    hide Eval, All;
    AllOne(op, fs[0], env);
    AllConcat(op, [fs[0]], fs[1..], env);
    assert fs == [fs[0]] + fs[1..];
  }

  lemma {:induction false} FoldIsRight(op: Conn, acc: Formula, mixed: seq<Formula>, rest: Option<Formula>, env: Env)
    requires Good(op, acc) && acc != op.Start()
    requires forall i | 0 <= i < |mixed| :: Good(op, mixed[i])
    requires rest.Some? ==> GoodClause(op, rest.value)
    requires op.V(acc, env) ==> RestHolds(op, rest, env)
    ensures Good(op, Fold(op, acc, mixed, rest))
    ensures op.V(Fold(op, acc, mixed, rest), env) <==> op.V(acc, env) && All(op, mixed, env)
    decreases mixed
  {
    hide Eval, Good, GoodClause, RestHolds, Distributed, All;
    if mixed == [] {
      AllOne(op, acc, env);
    } else {
      AllHead(op, mixed, env);
      DistributedShape(op, acc, mixed[0], rest);
      DistributedMeaning(op, acc, mixed[0], rest, env);
      FoldIsRight(op, Distributed(op, acc, mixed[0], rest), mixed[1..], rest, env);
    }
  }

  lemma {:induction false} PickPartition(op: Conn, es: seq<Formula>, env: Env)
    requires forall i | 0 <= i < |es| :: Good(op, es[i])
    ensures All(op, es, env) <==> All(op, Pick(op, es, true), env) && All(op, Pick(op, es, false), env)
    ensures forall i | 0 <= i < |Pick(op, es, true)| :: Good(op, Pick(op, es, true)[i])
    ensures forall i | 0 <= i < |Pick(op, es, false)| :: GoodClause(op, Pick(op, es, false)[i])
    ensures |Pick(op, es, true)| + |Pick(op, es, false)| == |es|
  {
    hide Eval, All, NonEmpty;
    if es != [] {
      PickPartition(op, es[1..], env);
      AllHead(op, es, env);
      AllOne(op, es[0], env);
      forall m ensures All(op, Pick(op, es, m), env) <==> (op.Dual().Is(es[0]) == m ==> op.V(es[0], env)) && All(op, Pick(op, es[1..], m), env) {
        AllConcat(op, if op.Dual().Is(es[0]) == m then [es[0]] else [], Pick(op, es[1..], m), env);
      }
    }
  }

  lemma RestMeaning(op: Conn, others: seq<Formula>, env: Env)
    ensures RestHolds(op, Rest(op, others), env) <==> All(op, others, env)
    ensures Rest(op, others).None? <==> others == []
  {
    hide Eval;
    if |others| == 1 {
      AllOne(op, others[0], env);
      assert others == [others[0]];
    } else if others != [] {
      MkAll(op, others, env);
    }
  }

  lemma RestIsRight(op: Conn, others: seq<Formula>, env: Env)
    requires forall i | 0 <= i < |others| :: GoodClause(op, others[i])
    ensures RestHolds(op, Rest(op, others), env) <==> All(op, others, env)
    ensures others != [] ==> Rest(op, others).Some? && GoodClause(op, Rest(op, others).value)
    ensures others == [] ==> Rest(op, others).None?
  {
    hide GoodClause, RestHolds, All;
    RestMeaning(op, others, env);
    if |others| > 1 { MkClause(op, others); }
  }

  lemma CombinedIsRight(op: Conn, es: seq<Formula>, env: Env)
    requires es != [] && forall i | 0 <= i < |es| :: Good(op, es[i])
    ensures Combined(op, es).Some? && Good(op, Combined(op, es).value)
    ensures op.V(Combined(op, es).value, env) <==> All(op, es, env)
  {
    hide Eval, NonEmpty, Clause, Pick, Distributed, All, RestHolds, Rest;
    var mixed, others := Pick(op, es, true), Pick(op, es, false);
    var rest := Rest(op, others);
    PickPartition(op, es, env);
    RestIsRight(op, others, env);
    if mixed == [] {
      AllOne(op, es[0], env);
      RestValue(op, rest, env);
    } else {
      DistributedShape(op, op.Start(), mixed[0], rest);
      DistributedMeaning(op, op.Start(), mixed[0], rest, env);
      AllHead(op, mixed, env);
      FoldIsRight(op, Distributed(op, op.Start(), mixed[0], rest), mixed[1..], rest, env);
    }
  }

  lemma RestValue(op: Conn, rest: Option<Formula>, env: Env)
    requires rest.Some?
    ensures RestHolds(op, rest, env) <==> op.V(rest.value, env)
  {
  }

  /** Conversion keeps the truth under every interpretation and reaches the normal form. */
  lemma {:induction false} ConvertedIsRight(op: Conn, f: Formula, env: Env)
    requires Nnf(f) && NonEmpty(f)
    ensures Converted(op, f).Some? && Good(op, Converted(op, f).value)
    ensures Eval(Converted(op, f).value, env) == Eval(f, env)
    decreases f, 1
  {
    hide Eval, All, Combined, Good;
    NnfAtoms(f);
    if Conjunctions.IsAtom(f) {
      AtomIsGood(op, f);
    } else {
      NonEmptyArgs(f);
      ConvertedAllIsRight(op, f.fs, env);
      var es := ConvertedAll(op, f.fs).value;
      if op.Dual().Is(f) {
        MkNormal(op, es);
        MkSome(op, f.fs, env);
        MkSome(op, es, env);
        assert f == op.Dual().Mk(f.fs);
      } else {
        CombinedIsRight(op, es, env);
        MkAll(op, f.fs, env);
        AllIndexed(op, es, env);
        assert f == op.Mk(f.fs);
      }
    }
  }

  lemma AllIndexed(op: Conn, es: seq<Formula>, env: Env)
    ensures All(op, es, env) <==> forall i | 0 <= i < |es| :: op.V(es[i], env)
  {
    hide Eval;
  }

  lemma NnfAtoms(f: Formula)
    requires Nnf(f)
    ensures Conjunctions.IsAtom(f) || f.And? || f.Or?
  {
    if f.Not? { assert Atomic(f.f) && Conjunctions.IsAtom(f.f); }
  }

  lemma AtomIsGood(op: Conn, f: Formula)
    requires Nnf(f) && NonEmpty(f) && Conjunctions.IsAtom(f)
    ensures Good(op, f)
  {
  }

  lemma {:induction false} ConvertedAllIsRight(op: Conn, fs: seq<Formula>, env: Env)
    requires forall i | 0 <= i < |fs| :: Nnf(fs[i]) && NonEmpty(fs[i])
    ensures ConvertedAll(op, fs).Some?
    ensures forall i | 0 <= i < |fs| :: Good(op, ConvertedAll(op, fs).value[i]) && Eval(ConvertedAll(op, fs).value[i], env) == Eval(fs[i], env)
    decreases fs, 0
  {
    hide Eval, Good, Converted, Nnf, NonEmpty;
    if fs != [] {
      ConvertedIsRight(op, fs[0], env);
      ConvertedAllIsRight(op, fs[1..], env);
    }
  }

  /** `convertToDNF` (`Conj`) and `convertToCNF` (`Disj`). */
  function NormalForm(op: Conn, f: Formula): Option<Formula> {
    EliminateImpEqShape(f);
    PushShape(EliminateImpEq(f));
    Converted(op, PushNegIn(EliminateImpEq(f)))
  }

  /** The conversions are equivalences into DNF and CNF where no conjunction or disjunction is empty. */
  lemma NormalFormIsRight(op: Conn, f: Formula)
    requires NonEmpty(f)
    ensures NormalForm(op, f).Some?
    ensures Equivalent(NormalForm(op, f).value, f) && Normal(op, NormalForm(op, f).value)
  {
    hide Eval, EliminateImpEq, PushNegIn, Converted, NonEmpty, Nnf, Normal, Basic;
    EliminateImpEqShape(f);
    PushShape(EliminateImpEq(f));
    var g := PushNegIn(EliminateImpEq(f));
    forall env ensures Converted(op, g).Some? && Normal(op, Converted(op, g).value) && Eval(Converted(op, g).value, env) == Eval(f, env) {
      ConvertedIsRight(op, g, env);
      PushIsRight(EliminateImpEq(f), env);
      EliminateImpEqIsRight(f, env);
    }
    var someEnv := Env((v: Name) => 0, (v: Name) => false, (p: string, vs: seq<int>) => false);
    ConvertedIsRight(op, g, someEnv);
  }

  // ---- where there is no result ----

  /** An argument-free `op` occurs. */
  predicate HasEmpty(op: Conn, f: Formula) {
    (f.And? || f.Or?) && ((op.Is(f) && f.fs == []) || exists i | 0 <= i < |f.fs| :: HasEmpty(op, f.fs[i]))
  }

  lemma CombinedIsSome(op: Conn, es: seq<Formula>)
    ensures Combined(op, es).None? <==> es == []
  {
    PickCounts(op, es);
  }

  lemma {:induction false} PickCounts(op: Conn, es: seq<Formula>)
    ensures |Pick(op, es, true)| + |Pick(op, es, false)| == |es|
  {
    if es != [] { PickCounts(op, es[1..]); }
  }

  /** There is no result exactly where an empty conjunction (for CNF: disjunction) occurs. */
  lemma {:induction false} NoResult(op: Conn, f: Formula)
    requires Nnf(f)
    ensures Converted(op, f).None? <==> HasEmpty(op, f)
    decreases f, 1
  {
    hide Combined;
    NnfAtoms(f);
    if !Conjunctions.IsAtom(f) {
      NoResults(op, f.fs);
      if ConvertedAll(op, f.fs).Some? { CombinedIsSome(op, ConvertedAll(op, f.fs).value); }
    }
  }

  lemma {:induction false} NoResults(op: Conn, fs: seq<Formula>)
    requires forall i | 0 <= i < |fs| :: Nnf(fs[i])
    ensures ConvertedAll(op, fs).None? <==> exists i | 0 <= i < |fs| :: HasEmpty(op, fs[i])
    decreases fs, 0
  {
    hide Converted, HasEmpty, Nnf;
    if fs != [] {
      NoResult(op, fs[0]);
      NoResults(op, fs[1..]);
      assert (exists i | 0 <= i < |fs| :: HasEmpty(op, fs[i])) <==> HasEmpty(op, fs[0]) || exists i | 0 <= i < |fs[1..]| :: HasEmpty(op, fs[1..][i]) by {
        assert forall i | 0 <= i < |fs[1..]| :: fs[1..][i] == fs[i + 1];
      }
    }
  }

  lemma NotAtom(f: Formula)
    requires f.And? || f.Or?
    ensures !Conjunctions.IsAtom(f)
  {
  }

  // ---- the loops ----

  lemma ChainSnoc(op: Conn, ps: seq<Formula>, p: Formula)
    requires forall i | 0 <= i < |ps| :: op.Is(ps[i])
    ensures Chain(op, ps + [p]) == if Chain(op, ps) == op.Start() then p else op.Dual().Mk([Chain(op, ps), p])
  {
    assert (ps + [p])[..|ps|] == ps;
  }

  lemma {:induction false} ProductsAreOp(op: Conn, xs: seq<Formula>, bs: seq<Formula>, rest: Option<Formula>)
    ensures forall i | 0 <= i < |Products(op, xs, bs, rest)| :: op.Is(Products(op, xs, bs, rest)[i])
  {
    if xs != [] { ProductsAreOp(op, xs[..|xs| - 1], bs, rest); }
  }

  lemma ProductIs(op: Conn, a: Formula, b: Formula, rest: Option<Formula>)
    ensures Product(op, [a, b], rest) == if rest.None? then op.Mk([a, b]) else op.Mk([a, b, rest.value])
    ensures Product(op, [b], rest) == if rest.None? then op.Mk([b]) else op.Mk([b, rest.value])
    ensures op.Is(Product(op, [a, b], rest))
  {
    assert rest.Some? ==> [a, b] + [rest.value] == [a, b, rest.value] && [b] + [rest.value] == [b, rest.value];
    assert [a, b] + [] == [a, b] && [b] + [] == [b];
  }

  lemma RowsAreOp(op: Conn, a: Formula, bs: seq<Formula>, rest: Option<Formula>)
    ensures forall i | 0 <= i < |bs| :: op.Is(Row(op, a, bs, rest)[i])
  {
  }

  lemma ProductsNext(op: Conn, xs: seq<Formula>, i: nat, bs: seq<Formula>, rest: Option<Formula>)
    requires i < |xs|
    ensures Products(op, xs[..i + 1], bs, rest) == Products(op, xs[..i], bs, rest) + Row(op, xs[i], bs, rest)
  {
    hide Row;
    assert xs[..i + 1][..i] == xs[..i] && xs[..i + 1][i] == xs[i];
  }

  /** The first round of `distributeAnd` / `distributeOr`. */
  method DistributeFirst(op: Conn, ys: seq<Formula>, rest: Option<Formula>) returns (ret: Formula)
    ensures ret == op.Dual().Mk(Firsts(op, ys, rest))
  {
    hide Product;
    var firsts: seq<Formula> := [];
    for j := 0 to |ys|
      invariant |firsts| == j
      invariant forall k | 0 <= k < j :: firsts[k] == Firsts(op, ys, rest)[k]
    {
      ProductIs(op, ys[j], ys[j], rest);
      firsts := firsts + [if rest.None? then ys[j] else op.Mk([ys[j], rest.value])];
    }
    assert firsts == Firsts(op, ys, rest);
    ret := op.Dual().Mk(firsts);
  }

  /** `distributeAnd` / `distributeOr`. */
  method Distribute(op: Conn, x: Formula, y: Formula, rest: Option<Formula>) returns (ret: Formula)
    ensures ret == Distributed(op, x, y, rest)
  {
    hide Flat, Chain, Product, Products, Row;
    var xs, ys := Flat(op, x), Flat(op, y);
    if x == op.Start() {
      ret := DistributeFirst(op, ys, rest);
      return;
    }
    ret := op.Start();
    ChainOfNone(op);
    assert Products(op, xs[..0], ys, rest) == [] by { NoProducts(op, ys, rest); }
    for i := 0 to |xs|
      invariant ret == Chain(op, Products(op, xs[..i], ys, rest))
    {
      ret := DistributeRow(op, ret, Products(op, xs[..i], ys, rest), xs[i], ys, rest) by { ProductsAreOp(op, xs[..i], ys, rest); }
      ProductsNext(op, xs, i, ys, rest);
    }
    assert xs[..|xs|] == xs;
  }

  lemma NoProducts(op: Conn, ys: seq<Formula>, rest: Option<Formula>)
    ensures Products(op, [], ys, rest) == []
  {
  }

  /** The inner loop: the products with one argument of the first side. */
  method DistributeRow(op: Conn, acc: Formula, ghost done: seq<Formula>, a: Formula, ys: seq<Formula>, rest: Option<Formula>) returns (ret: Formula)
    requires acc == Chain(op, done) && forall i | 0 <= i < |done| :: op.Is(done[i])
    ensures ret == Chain(op, done + Row(op, a, ys, rest))
  {
    hide Chain, Product;
    ghost var row := Row(op, a, ys, rest);
    ret := acc;
    assert done + row[..0] == done;
    RowsAreOp(op, a, ys, rest);
    for j := 0 to |ys|
      invariant ret == Chain(op, done + row[..j])
    {
      var p := if rest.None? then op.Mk([a, ys[j]]) else op.Mk([a, ys[j], rest.value]);
      ProductIs(op, a, ys[j], rest);
      ChainSnoc(op, done + row[..j], p);
      assert done + row[..j] + [p] == done + row[..j + 1];
      ret := if ret == op.Start() then p else op.Dual().Mk([ret, p]);
    }
    assert row[..|ys|] == row;
  }

  lemma ChainOfNone(op: Conn)
    ensures Chain(op, []) == op.Start()
  {
  }

  /** `convertNNFToDNF` / `convertNNFToCNF`. */
  method Convert(op: Conn, f: Formula) returns (r: Option<Formula>)
    ensures r == Converted(op, f)
    decreases f
  {
    hide Distributed, Converted, ConvertedAll, Pick, Fold;
    ConvertedCases(op, f);
    if Conjunctions.IsAtom(f) { return Some(f); }
    if !f.And? && !f.Or? { return None; }
    var all: seq<Formula> := [];
    var mixed: seq<Formula> := [];
    var others: seq<Formula> := [];
    PickNone(op);
    OntoNone(ConvertedAll(op, f.fs));
    assert f.fs[0..] == f.fs;
    for i := 0 to |f.fs|
      invariant ConvertedAll(op, f.fs) == Onto(all, ConvertedAll(op, f.fs[i..]))
      invariant mixed == Pick(op, all, true) && others == Pick(op, all, false)
    {
      var e := Convert(op, f.fs[i]);
      ConvertedAllHead(op, f.fs[i..]);
      OntoNext(all, e, ConvertedAll(op, f.fs[i + 1..]));
      assert f.fs[i..][1..] == f.fs[i + 1..];
      if e.None? { return None; }
      PickSnoc(op, all, e.value);
      all := all + [e.value];
      if op.Dual().Is(e.value) { mixed := mixed + [e.value]; } else { others := others + [e.value]; }
    }
    ConvertedAllNone(op);
    OntoNothing(all);
    if op.Dual().Is(f) { return Some(op.Dual().Mk(all)); }
    var rest := Rest(op, others);
    if |mixed| == 0 { return rest; }
    var result := op.Start();
    assert mixed[0..] == mixed;
    for i := 0 to |mixed|
      invariant Fold(op, result, mixed[i..], rest) == Fold(op, op.Start(), mixed, rest)
    {
      FoldStep(op, result, mixed[i..], rest);
      assert mixed[i..][1..] == mixed[i + 1..];
      result := Distribute(op, result, mixed[i], rest);
    }
    FoldStep(op, result, [], rest);
    r := Some(result);
  }

  lemma FoldStep(op: Conn, acc: Formula, mixed: seq<Formula>, rest: Option<Formula>)
    ensures Fold(op, acc, mixed, rest) == if mixed == [] then acc else Fold(op, Distributed(op, acc, mixed[0], rest), mixed[1..], rest)
  {
  }

  lemma PickNone(op: Conn)
    ensures Pick(op, [], true) == Pick(op, [], false) == []
  {
  }

  lemma {:induction false} PickSnoc(op: Conn, fs: seq<Formula>, f: Formula)
    ensures forall m :: Pick(op, fs + [f], m) == Pick(op, fs, m) + if op.Dual().Is(f) == m then [f] else []
  {
    if fs == [] {
      assert fs + [f] == [f];
    } else {
      PickSnoc(op, fs[1..], f);
      assert (fs + [f])[1..] == fs[1..] + [f];
    }
  }

  lemma ConvertedAllNone(op: Conn)
    ensures ConvertedAll(op, []) == Some([])
  {
  }

  lemma ConvertedAllHead(op: Conn, fs: seq<Formula>)
    requires fs != []
    ensures ConvertedAll(op, fs) == if Converted(op, fs[0]).None? then None else Onto([Converted(op, fs[0]).value], ConvertedAll(op, fs[1..]))
  {
  }

  function Onto(a: seq<Formula>, b: Option<seq<Formula>>): Option<seq<Formula>> {
    if b.None? then None else Some(a + b.value)
  }

  lemma OntoNone(b: Option<seq<Formula>>)
    ensures Onto([], b) == b
  {
    assert b.Some? ==> [] + b.value == b.value;
  }

  lemma OntoNothing(a: seq<Formula>)
    ensures Onto(a, Some([])) == Some(a)
  {
    assert a + [] == a;
  }

  lemma OntoNext(a: seq<Formula>, e: Option<Formula>, t: Option<seq<Formula>>)
    ensures e.Some? ==> Onto(a, Onto([e.value], t)) == Onto(a + [e.value], t)
  {
    if e.Some? && t.Some? { assert a + ([e.value] + t.value) == a + [e.value] + t.value; }
  }

  /** The conversion of a formula that is no atom. */
  function Composite(op: Conn, f: Formula): Option<Formula>
    requires f.And? || f.Or?
  {
    var es := ConvertedAll(op, f.fs);
    if es.None? then None else if op.Dual().Is(f) then Some(op.Dual().Mk(es.value)) else Combined(op, es.value)
  }

  lemma ConvertedCases(op: Conn, f: Formula)
    ensures Conjunctions.IsAtom(f) ==> Converted(op, f) == Some(f)
    ensures !Conjunctions.IsAtom(f) && !f.And? && !f.Or? ==> Converted(op, f) == None
    ensures !Conjunctions.IsAtom(f) && (f.And? || f.Or?) ==> Converted(op, f) == Composite(op, f)
  {
  }
}