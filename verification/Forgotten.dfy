/**
 What the normal form conversions forget.  A conversion whose intermediate result has no clause left starts afresh at
 the next argument; whether this happens can be read from the numbers of arguments alone.
 */
module Forgotten {
  import opened Wrappers
  import opened Logic
  import opened NormalForms
  import Conjunctions

  // ---- counting clauses ----

  /** Whether a converted formula is again a combination to be distributed over, and how many clauses it has. */
  datatype Shape = Shape(outer: bool, width: nat)

  /** The shape after one more distribution; `None` stands for the start value, from which nothing is remembered. */
  function Next(s: Option<Shape>, width: nat): Option<Shape> {
    if s.None? then Some(Shape(true, width))
    else if s.value.width * width == 0 then None
    else Some(Shape(s.value.width * width > 1, s.value.width * width))
  }

  function ShapeOf(op: Conn, f: Formula): Shape
    decreases f, 0
  {
    if op.Dual().Is(f) then Shape(true, Widths(op, f.fs, |f.fs|))
    else if op.Is(f) && Mixed(op, f.fs) && StateAt(op, f.fs, |f.fs|).Some? then StateAt(op, f.fs, |f.fs|).value
    else Shape(false, 1)
  }

  function Widths(op: Conn, fs: seq<Formula>, j: nat): nat
    requires j <= |fs|
    decreases fs, j
  {
    if j == 0 then 0 else Widths(op, fs, j - 1) + ShapeOf(op, fs[j - 1]).width
  }

  /** Some argument has to be distributed over. */
  predicate Mixed(op: Conn, fs: seq<Formula>)
    decreases fs, 0
  {
    exists i | 0 <= i < |fs| :: ShapeOf(op, fs[i]).outer
  }

  /** The shape of the intermediate result after the first `j` arguments. */
  function StateAt(op: Conn, fs: seq<Formula>, j: nat): Option<Shape>
    requires j <= |fs|
    decreases fs, j
  {
    if j == 0 then None
    else if ShapeOf(op, fs[j - 1]).outer then Next(StateAt(op, fs, j - 1), ShapeOf(op, fs[j - 1]).width)
    else StateAt(op, fs, j - 1)
  }

  /** No start value arises after argument `i`, up to position `j`. */
  predicate KeptUntil(op: Conn, fs: seq<Formula>, i: nat, j: nat)
    requires i < j <= |fs|
  {
    forall m | i < m <= j :: StateAt(op, fs, m).Some?
  }

  /** The argument has a part in the result. */
  predicate Kept(op: Conn, fs: seq<Formula>, i: nat)
    requires i < |fs|
  {
    ShapeOf(op, fs[i]).outer ==> KeptUntil(op, fs, i, |fs|)
  }

  /** The result of the distributions is not the start value. */
  predicate Ends(op: Conn, fs: seq<Formula>) { Mixed(op, fs) ==> StateAt(op, fs, |fs|).Some? }

  /** What the converted formula says. */
  predicate Told(op: Conn, f: Formula, env: Env) {
    if op.Dual().Is(f) then exists i | 0 <= i < |f.fs| :: Told(op, f.fs[i], env)
    else if op.Is(f) then Ends(op, f.fs) && forall i | 0 <= i < |f.fs| && Kept(op, f.fs, i) :: Told(op, f.fs[i], env)
    else op.V(f, env)
  }

  // ---- shapes of the intermediate results ----

  lemma {:induction false} FlatAllPlain(op: Conn, fs: seq<Formula>)
    requires forall i | 0 <= i < |fs| :: !op.Dual().Is(fs[i])
    ensures FlatAll(op, fs) == fs
  {
    if fs != [] {
      FlatAllPlain(op, fs[1..]);
      assert fs == [fs[0]] + fs[1..];
    }
  }

  lemma {:induction false} FlatPlain(op: Conn, f: Formula)
    ensures forall i | 0 <= i < |Flat(op, f)| :: !op.Dual().Is(Flat(op, f)[i])
    decreases f, 1
  {
    if op.Dual().Is(f) { FlatAllPlainParts(op, f.fs); }
  }

  lemma {:induction false} FlatAllPlainParts(op: Conn, fs: seq<Formula>)
    ensures forall i | 0 <= i < |FlatAll(op, fs)| :: !op.Dual().Is(FlatAll(op, fs)[i])
    decreases fs, 0
  {
    if fs != [] {
      FlatPlain(op, fs[0]);
      FlatAllPlainParts(op, fs[1..]);
    }
  }

  lemma {:induction false} FlatAllSnoc(op: Conn, fs: seq<Formula>, f: Formula)
    ensures FlatAll(op, fs + [f]) == FlatAll(op, fs) + Flat(op, f)
  {
    hide Flat;
    if fs == [] {
      assert fs + [f] == [f];
      assert FlatAll(op, [f]) == Flat(op, f) + FlatAll(op, []);
    } else {
      FlatAllSnoc(op, fs[1..], f);
      assert (fs + [f])[1..] == fs[1..] + [f];
    }
  }

  lemma {:induction false} ProductsCount(op: Conn, xs: seq<Formula>, ys: seq<Formula>, rest: Option<Formula>)
    ensures |Products(op, xs, ys, rest)| == |xs| * |ys|
  {
    if xs != [] {
      ProductsCount(op, xs[..|xs| - 1], ys, rest);
      assert (|xs| - 1) * |ys| + |ys| == |xs| * |ys|;
    }
  }

  lemma {:induction false} ChainFlat(op: Conn, ps: seq<Formula>)
    requires ps != [] && forall i | 0 <= i < |ps| :: op.Is(ps[i])
    ensures Flat(op, Chain(op, ps)) == ps && Chain(op, ps) != op.Start() && op.Dual().Is(Chain(op, ps)) == (|ps| > 1)
  {
    var init, p := ps[..|ps| - 1], ps[|ps| - 1];
    if |ps| > 1 {
      ChainFlat(op, init);
      var c := Chain(op, init);
      assert [c, p] == [c] + [p];
      FlatAllSnoc(op, [c], p);
      FlatAllSnoc(op, [], c);
      assert [] + [c] == [c];
      assert init + [p] == ps;
    }
  }

  /** The formula has the predicted shape. */
  ghost predicate Fits(op: Conn, c: Formula, s: Option<Shape>) {
    if s.None? then c == op.Start()
    else c != op.Start() && op.Dual().Is(c) == s.value.outer && |Flat(op, c)| == s.value.width
  }

  lemma FirstsFit(op: Conn, ys: seq<Formula>, rest: Option<Formula>)
    requires forall i | 0 <= i < |ys| :: !op.Dual().Is(ys[i])
    ensures Flat(op, op.Dual().Mk(Firsts(op, ys, rest))) == Firsts(op, ys, rest)
  {
    var fs := Firsts(op, ys, rest);
    forall j | 0 <= j < |fs| ensures !op.Dual().Is(fs[j]) {
      assert fs[j] == ys[j] || fs[j] == Product(op, [ys[j]], rest);
    }
    FlatAllPlain(op, fs);
  }

  lemma DistributedFits(op: Conn, x: Formula, y: Formula, rest: Option<Formula>, s: Option<Shape>, width: nat)
    requires Fits(op, x, s) && |Flat(op, y)| == width
    ensures Fits(op, Distributed(op, x, y, rest), Next(s, width))
  {
    var xs, ys := Flat(op, x), Flat(op, y);
    if s.None? {
      FlatPlain(op, y);
      FirstsFit(op, ys, rest);
    } else {
      hide Flat;
      var ps := Products(op, xs, ys, rest);
      ProductsCount(op, xs, ys, rest);
      ProductsAreOp(op, xs, ys, rest);
      if ps != [] { ChainFlat(op, ps); }
    }
  }

  // ---- what one conversion tells ----

  lemma {:induction false} FoldSnoc(op: Conn, acc: Formula, ms: seq<Formula>, m: Formula, rest: Option<Formula>)
    ensures Fold(op, acc, ms + [m], rest) == Distributed(op, Fold(op, acc, ms, rest), m, rest)
    decreases ms
  {
    hide Distributed;
    if ms == [] {
      assert ms + [m] == [m] && [m][1..] == [];
      FoldStep(op, acc, [m], rest);
      FoldStep(op, Distributed(op, acc, m, rest), [], rest);
    } else {
      FoldSnoc(op, Distributed(op, acc, ms[0], rest), ms[1..], m, rest);
      assert (ms + [m])[1..] == ms[1..] + [m];
    }
  }

  /** The arguments have been converted into formulas of the predicted shapes. */
  ghost predicate AllFit(op: Conn, fs: seq<Formula>, es: seq<Formula>) {
    && |es| == |fs|
    && forall i | 0 <= i < |fs| ::
         op.Dual().Is(es[i]) == ShapeOf(op, fs[i]).outer && |Flat(op, es[i])| == ShapeOf(op, fs[i]).width
  }

  /** The intermediate result after the first `j` arguments. */
  function Partial(op: Conn, es: seq<Formula>, j: nat, rest: Option<Formula>): Formula
    requires j <= |es|
  {
    Fold(op, op.Start(), Pick(op, es[..j], true), rest)
  }

  lemma PartialNext(op: Conn, es: seq<Formula>, j: nat, rest: Option<Formula>)
    requires j < |es|
    ensures Partial(op, es, j + 1, rest) ==
            if op.Dual().Is(es[j]) then Distributed(op, Partial(op, es, j, rest), es[j], rest) else Partial(op, es, j, rest)
  {
    hide Fold, Distributed, Pick;
    assert es[..j + 1] == es[..j] + [es[j]];
    PickSnoc(op, es[..j], es[j]);
    var ms := Pick(op, es[..j], true);
    FoldSnoc(op, op.Start(), ms, es[j], rest);
    assert ms + [] == ms;
  }

  ghost predicate PartialTold(op: Conn, fs: seq<Formula>, es: seq<Formula>, j: nat, env: Env)
    requires j <= |fs| == |es|
  {
    && StateAt(op, fs, j).Some?
    && forall i | 0 <= i < j && ShapeOf(op, fs[i]).outer && KeptUntil(op, fs, i, j) :: op.V(es[i], env)
  }

  lemma PartialToldNext(op: Conn, fs: seq<Formula>, es: seq<Formula>, j: nat, env: Env)
    requires j < |fs| == |es|
    ensures !ShapeOf(op, fs[j]).outer ==> PartialTold(op, fs, es, j + 1, env) == PartialTold(op, fs, es, j, env)
    ensures ShapeOf(op, fs[j]).outer ==>
              (PartialTold(op, fs, es, j + 1, env) <==>
               StateAt(op, fs, j + 1).Some? && op.V(es[j], env) && (StateAt(op, fs, j).None? || PartialTold(op, fs, es, j, env)))
  {
    hide Eval, ShapeOf, StateAt;
    var outer := ShapeOf(op, fs[j]).outer;
    StateNext(op, fs, j);
    forall i | 0 <= i < j
      ensures KeptUntil(op, fs, i, j + 1) <==> KeptUntil(op, fs, i, j) && StateAt(op, fs, j + 1).Some?
      ensures KeptUntil(op, fs, i, j) ==> StateAt(op, fs, j).Some?
    {
    }
    assert KeptUntil(op, fs, j, j + 1) <==> StateAt(op, fs, j + 1).Some?;
    if outer && PartialTold(op, fs, es, j + 1, env) {
      assert op.V(es[j], env);
    }
  }

  lemma StateNext(op: Conn, fs: seq<Formula>, j: nat)
    requires j < |fs|
    ensures StateAt(op, fs, j + 1) ==
            if ShapeOf(op, fs[j]).outer then Next(StateAt(op, fs, j), ShapeOf(op, fs[j]).width) else StateAt(op, fs, j)
    ensures StateAt(op, fs, 0) == None
  {
  }

  lemma FitsStart(op: Conn, c: Formula, s: Option<Shape>, env: Env)
    requires Fits(op, c, s)
    ensures c == op.Start() <==> s.None?
    ensures s.None? ==> !op.V(c, env)
  {
  }

  lemma PartialNone(op: Conn, fs: seq<Formula>, es: seq<Formula>, rest: Option<Formula>, env: Env)
    requires |fs| == |es|
    ensures Partial(op, es, 0, rest) == op.Start() && Fits(op, op.Start(), StateAt(op, fs, 0))
    ensures !op.V(op.Start(), env) && !PartialTold(op, fs, es, 0, env)
  {
    assert Pick(op, es[..0], true) == [];
  }

  lemma {:induction false} PartialMeaning(op: Conn, fs: seq<Formula>, es: seq<Formula>, j: nat, rest: Option<Formula>, env: Env)
    requires AllFit(op, fs, es) && j <= |es|
    ensures Fits(op, Partial(op, es, j, rest), StateAt(op, fs, j))
    ensures op.V(Partial(op, es, j, rest), env) <==> PartialTold(op, fs, es, j, env) && RestHolds(op, rest, env)
    decreases j
  {
    hide Eval, ShapeOf, StateAt, Distributed, RestHolds, Flat, PartialTold, Partial;
    if j == 0 {
      PartialNone(op, fs, es, rest, env);
    } else {
      var c := Partial(op, es, j - 1, rest);
      PartialMeaning(op, fs, es, j - 1, rest, env);
      PartialNext(op, es, j - 1, rest);
      StateNext(op, fs, j - 1);
      PartialToldNext(op, fs, es, j - 1, env);
      FitsStart(op, c, StateAt(op, fs, j - 1), env);
      if op.Dual().Is(es[j - 1]) {
        DistributedFits(op, c, es[j - 1], rest, StateAt(op, fs, j - 1), ShapeOf(op, fs[j - 1]).width);
        DistributedMeaning(op, c, es[j - 1], rest, env);
        FitsStart(op, Distributed(op, c, es[j - 1], rest), StateAt(op, fs, j), env);
      }
    }
  }

  lemma {:induction false} PickMeaning(op: Conn, es: seq<Formula>, m: bool, env: Env)
    ensures All(op, Pick(op, es, m), env) <==> forall i | 0 <= i < |es| && op.Dual().Is(es[i]) == m :: op.V(es[i], env)
    ensures Pick(op, es, m) == [] <==> forall i | 0 <= i < |es| :: op.Dual().Is(es[i]) != m
    ensures forall f | f in Pick(op, es, m) :: op.Dual().Is(f) == m
  {
    hide Eval, All;
    if es == [] {
      AllOne(op, op.Start(), env);
    } else {
      PickMeaning(op, es[1..], m, env);
      var head := if op.Dual().Is(es[0]) == m then [es[0]] else [];
      AllConcat(op, head, Pick(op, es[1..], m), env);
      AllOne(op, es[0], env);
      forall i | 0 <= i < |es[1..]| ensures es[1..][i] == es[i + 1] {
      }
      ShiftedOver(op, es, m, env);
    }
  }

  lemma ShiftedOver(op: Conn, es: seq<Formula>, m: bool, env: Env)
    requires es != []
    ensures (forall i | 0 <= i < |es| && op.Dual().Is(es[i]) == m :: op.V(es[i], env)) <==>
            ((op.Dual().Is(es[0]) == m ==> op.V(es[0], env)) &&
             (forall i | 0 <= i < |es[1..]| && op.Dual().Is(es[1..][i]) == m :: op.V(es[1..][i], env)))
  {
    hide Eval;
    forall i | 0 < i < |es| ensures es[i] == es[1..][i - 1] {
    }
  }

  lemma {:induction false} FlatAllCount(op: Conn, fs: seq<Formula>, es: seq<Formula>, j: nat)
    requires AllFit(op, fs, es) && j <= |es|
    ensures |FlatAll(op, es[..j])| == Widths(op, fs, j)
  {
    hide Flat, ShapeOf;
    if j > 0 {
      FlatAllCount(op, fs, es, j - 1);
      assert es[..j] == es[..j - 1] + [es[j - 1]];
      FlatAllSnoc(op, es[..j - 1], es[j - 1]);
    }
  }

  ghost predicate Fitting(op: Conn, c: Formula, s: Shape) { op.Dual().Is(c) == s.outer && |Flat(op, c)| == s.width }

  ghost predicate AllKeptHold(op: Conn, fs: seq<Formula>, es: seq<Formula>, env: Env)
    requires |fs| == |es|
  {
    forall i | 0 <= i < |fs| && Kept(op, fs, i) :: op.V(es[i], env)
  }

  lemma CombinedMeaning(op: Conn, fs: seq<Formula>, es: seq<Formula>, env: Env)
    requires AllFit(op, fs, es) && fs != []
    ensures Combined(op, es).Some? && Fitting(op, Combined(op, es).value, ShapeOf(op, op.Mk(fs)))
    ensures op.V(Combined(op, es).value, env) <==> Ends(op, fs) && AllKeptHold(op, fs, es, env)
  {
    hide Eval, StateAt, ShapeOf, RestHolds, All, Pick, Fold;
    var mixed, others := Pick(op, es, true), Pick(op, es, false);
    var rest := Rest(op, others);
    RestMeaning(op, others, env);
    PickMeaning(op, es, true, env);
    PickMeaning(op, es, false, env);
    ShapeOfMk(op, fs);
    if mixed == [] {
      assert !Mixed(op, fs) && Combined(op, es) == rest;
      RestFits(op, others);
      RestValue(op, rest, env);
    } else {
      assert Mixed(op, fs);
      assert es[..|es|] == es;
      PartialMeaning(op, fs, es, |es|, rest, env);
      FitsEnd(op, Partial(op, es, |es|, rest), StateAt(op, fs, |es|));
    }
  }

  lemma ShapeOfMk(op: Conn, fs: seq<Formula>)
    ensures ShapeOf(op, op.Mk(fs)) == if Mixed(op, fs) && StateAt(op, fs, |fs|).Some? then StateAt(op, fs, |fs|).value else Shape(false, 1)
    ensures ShapeOf(op, op.Dual().Mk(fs)) == Shape(true, Widths(op, fs, |fs|))
  {
  }

  lemma FitsEnd(op: Conn, c: Formula, s: Option<Shape>)
    requires Fits(op, c, s)
    ensures Fitting(op, c, if s.Some? then s.value else Shape(false, 1))
  {
  }

  lemma RestFits(op: Conn, others: seq<Formula>)
    requires others != [] && forall f | f in others :: !op.Dual().Is(f)
    ensures Fitting(op, Rest(op, others).value, Shape(false, 1))
  {
    assert others[0] in others;
  }

  lemma AtomFits(op: Conn, f: Formula, env: Env)
    requires Conjunctions.IsAtom(f)
    ensures Converted(op, f) == Some(f) && Fitting(op, f, ShapeOf(op, f)) && Told(op, f, env) == op.V(f, env)
  {
  }

  lemma FittingAll(op: Conn, fs: seq<Formula>, es: seq<Formula>)
    requires |es| == |fs| && forall i | 0 <= i < |fs| :: Fitting(op, es[i], ShapeOf(op, fs[i]))
    ensures AllFit(op, fs, es)
  {
    hide ShapeOf, Flat;
  }

  lemma DualFits(op: Conn, fs: seq<Formula>, es: seq<Formula>)
    requires AllFit(op, fs, es)
    ensures Fitting(op, op.Dual().Mk(es), ShapeOf(op, op.Dual().Mk(fs)))
  {
    hide ShapeOf;
    ShapeOfMk(op, fs);
    FlatAllCount(op, fs, es, |es|);
    assert es[..|es|] == es;
  }

  lemma ToldMk(op: Conn, fs: seq<Formula>, env: Env)
    ensures Told(op, op.Mk(fs), env) <==> Ends(op, fs) && forall i | 0 <= i < |fs| && Kept(op, fs, i) :: Told(op, fs[i], env)
    ensures Told(op, op.Dual().Mk(fs), env) <==> exists i | 0 <= i < |fs| :: Told(op, fs[i], env)
  {
    hide Kept, Ends;
  }

  /** The converted formula says that the kept arguments hold, and nothing about the others. */
  lemma {:induction false} ConvertedMeaning(op: Conn, f: Formula, env: Env)
    requires Nnf(f) && !HasEmpty(op, f)
    ensures Converted(op, f).Some? && Fitting(op, Converted(op, f).value, ShapeOf(op, f))
    ensures op.V(Converted(op, f).value, env) <==> Told(op, f, env)
    decreases f
  {
    hide Eval, Combined, Flat, Fitting, ShapeOf, Ends, Kept, Told, ConvertedAll, Widths;
    NnfAtoms(f);
    if Conjunctions.IsAtom(f) {
      AtomFits(op, f, env);
    } else {
      forall i | 0 <= i < |f.fs|
        ensures Converted(op, f.fs[i]).Some? && Fitting(op, Converted(op, f.fs[i]).value, ShapeOf(op, f.fs[i]))
        ensures op.V(Converted(op, f.fs[i]).value, env) <==> Told(op, f.fs[i], env)
      {
        ConvertedMeaning(op, f.fs[i], env);
      }
      ConvertedEach(op, f.fs);
      var es := ConvertedAll(op, f.fs).value;
      FittingAll(op, f.fs, es);
      ToldMk(op, f.fs, env);
      if op.Dual().Is(f) {
        MkSome(op, es, env);
        DualFits(op, f.fs, es);
        assert f == op.Dual().Mk(f.fs);
      } else {
        CombinedMeaning(op, f.fs, es, env);
        assert f == op.Mk(f.fs);
      }
    }
  }

  // ---- where forgetting matters ----

  /** The same conjunctions and disjunctions with the same numbers of arguments, over any literals. */
  predicate SameTree(f: Formula, g: Formula) {
    if f.And? then g.And? && |f.fs| == |g.fs| && forall i | 0 <= i < |f.fs| :: SameTree(f.fs[i], g.fs[i])
    else if f.Or? then g.Or? && |f.fs| == |g.fs| && forall i | 0 <= i < |f.fs| :: SameTree(f.fs[i], g.fs[i])
    else !g.And? && !g.Or?
  }

  /** The conversion is right for every choice of the literals. */
  ghost predicate RightForTree(op: Conn, f: Formula) {
    forall g | SameTree(f, g) && Nnf(g) :: Converted(op, g).Some? && Equivalent(Converted(op, g).value, g)
  }

  /** With suitable literals, the converted formula can be made to hold. */
  predicate Alive(op: Conn, f: Formula) {
    if op.Dual().Is(f) then exists i | 0 <= i < |f.fs| :: Alive(op, f.fs[i])
    else if op.Is(f) then Ends(op, f.fs) && forall i | 0 <= i < |f.fs| && Kept(op, f.fs, i) :: Alive(op, f.fs[i])
    else true
  }

  /** An argument is forgotten, or is itself converted wrongly, where the kept ones can hold. */
  predicate Wrong(op: Conn, f: Formula) {
    if op.Dual().Is(f) then exists i | 0 <= i < |f.fs| :: Wrong(op, f.fs[i])
    else if op.Is(f) then
      Alive(op, f) && exists i | 0 <= i < |f.fs| :: !Kept(op, f.fs, i) || Wrong(op, f.fs[i])
    else false
  }

  lemma SameTreeArgs(op: Conn, f: Formula, g: Formula)
    requires SameTree(f, g)
    ensures op.Is(f) <==> op.Is(g)
    ensures op.Dual().Is(f) <==> op.Dual().Is(g)
    ensures f.And? || f.Or? ==> |f.fs| == |g.fs| && forall i | 0 <= i < |f.fs| :: SameTree(f.fs[i], g.fs[i])
  {
  }

  /** Shapes are a matter of the tree. */
  lemma {:induction false} ShapeSame(op: Conn, f: Formula, g: Formula)
    requires SameTree(f, g)
    ensures ShapeOf(op, f) == ShapeOf(op, g) && (HasEmpty(op, f) <==> HasEmpty(op, g))
    decreases f
  {
    hide ShapeOf, SameTree, StateAt, Mixed, Widths;
    SameTreeArgs(op, f, g);
    if f.And? || f.Or? {
      forall i | 0 <= i < |f.fs|
        ensures ShapeOf(op, f.fs[i]) == ShapeOf(op, g.fs[i]) && (HasEmpty(op, f.fs[i]) <==> HasEmpty(op, g.fs[i]))
      {
        ShapeSame(op, f.fs[i], g.fs[i]);
      }
      StatesSame(op, f.fs, g.fs, |f.fs|);
      ShapeOfMk(op, f.fs);
      ShapeOfMk(op, g.fs);
      assert f == if op.Is(f) then op.Mk(f.fs) else op.Dual().Mk(f.fs);
      assert g == if op.Is(f) then op.Mk(g.fs) else op.Dual().Mk(g.fs);
    } else {
      ShapeOfLeaf(op, f);
      ShapeOfLeaf(op, g);
    }
  }

  lemma ShapeOfLeaf(op: Conn, f: Formula)
    requires !f.And? && !f.Or?
    ensures ShapeOf(op, f) == Shape(false, 1)
  {
  }

  lemma {:induction false} StatesSame(op: Conn, fs: seq<Formula>, gs: seq<Formula>, j: nat)
    requires |fs| == |gs| && j <= |fs| && forall i | 0 <= i < |fs| :: ShapeOf(op, fs[i]) == ShapeOf(op, gs[i])
    ensures StateAt(op, fs, j) == StateAt(op, gs, j) && Widths(op, fs, j) == Widths(op, gs, j) && Mixed(op, fs) == Mixed(op, gs)
  {
    hide ShapeOf;
    if j > 0 { StatesSame(op, fs, gs, j - 1); }
  }

  lemma KeptSame(op: Conn, f: Formula, g: Formula)
    requires SameTree(f, g) && (f.And? || f.Or?)
    ensures |f.fs| == |g.fs| && Ends(op, f.fs) == Ends(op, g.fs)
    ensures forall i | 0 <= i < |f.fs| :: SameTree(f.fs[i], g.fs[i]) && Kept(op, f.fs, i) == Kept(op, g.fs, i)
  {
    hide ShapeOf, SameTree, StateAt, Mixed;
    SameTreeArgs(op, f, g);
    forall i | 0 <= i < |f.fs| ensures ShapeOf(op, f.fs[i]) == ShapeOf(op, g.fs[i]) { ShapeSame(op, f.fs[i], g.fs[i]); }
    forall j | 0 <= j <= |f.fs| ensures StateAt(op, f.fs, j) == StateAt(op, g.fs, j) && Mixed(op, f.fs) == Mixed(op, g.fs) {
      StatesSame(op, f.fs, g.fs, j);
    }
    assert 0 <= |f.fs|;
    assert StateAt(op, f.fs, |f.fs|) == StateAt(op, g.fs, |f.fs|);
  }

  // ---- nothing true is lost ----

  lemma {:induction false} PositiveWidths(op: Conn, fs: seq<Formula>, j: nat)
    requires j <= |fs| && forall i | 0 <= i < |fs| :: ShapeOf(op, fs[i]).width > 0
    ensures StateAt(op, fs, j).Some? ==> StateAt(op, fs, j).value.width > 0
    ensures (exists i | 0 <= i < j :: ShapeOf(op, fs[i]).outer) ==> StateAt(op, fs, j).Some?
  {
    hide ShapeOf;
    if j > 0 {
      PositiveWidths(op, fs, j - 1);
      var s := StateAt(op, fs, j - 1);
      if s.Some? { assert s.value.width * ShapeOf(op, fs[j - 1]).width > 0; }
    }
  }

  /** A formula that holds has a clause, so no argument of a conjunction that holds starts the conversion afresh. */
  lemma {:induction false} TruthHasWidth(op: Conn, f: Formula, env: Env)
    requires op.V(f, env)
    ensures ShapeOf(op, f).width > 0
    decreases f
  {
    hide Eval, ShapeOf, StateAt, Mixed, Widths;
    if op.Dual().Is(f) {
      assert f == op.Dual().Mk(f.fs);
      MkSome(op, f.fs, env);
      var i :| 0 <= i < |f.fs| && op.V(f.fs[i], env);
      TruthHasWidth(op, f.fs[i], env);
      WidthsAtLeast(op, f.fs, i, |f.fs|);
      ShapeOfMk(op, f.fs);
    } else if op.Is(f) {
      assert f == op.Mk(f.fs);
      MkAll(op, f.fs, env);
      forall i | 0 <= i < |f.fs| ensures ShapeOf(op, f.fs[i]).width > 0 { TruthHasWidth(op, f.fs[i], env); }
      PositiveWidths(op, f.fs, |f.fs|);
      ShapeOfMk(op, f.fs);
    } else {
      ShapeOfLeaf(op, f);
    }
  }

  lemma {:induction false} WidthsAtLeast(op: Conn, fs: seq<Formula>, i: nat, j: nat)
    requires i < j <= |fs|
    ensures Widths(op, fs, j) >= ShapeOf(op, fs[i]).width
    decreases j
  {
    hide ShapeOf;
    if i < j - 1 { WidthsAtLeast(op, fs, i, j - 1); }
  }

  /** The converted formula holds wherever the original does. */
  lemma {:induction false} TruthIsTold(op: Conn, f: Formula, env: Env)
    requires op.V(f, env)
    ensures Told(op, f, env)
    decreases f
  {
    hide Eval, ShapeOf, StateAt, Kept, Told;
    if op.Dual().Is(f) {
      assert f == op.Dual().Mk(f.fs);
      MkSome(op, f.fs, env);
      ToldMk(op, f.fs, env);
      var i :| 0 <= i < |f.fs| && op.V(f.fs[i], env);
      TruthIsTold(op, f.fs[i], env);
    } else if op.Is(f) {
      assert f == op.Mk(f.fs);
      MkAll(op, f.fs, env);
      ToldMk(op, f.fs, env);
      forall i | 0 <= i < |f.fs| ensures ShapeOf(op, f.fs[i]).width > 0 && Told(op, f.fs[i], env) {
        TruthHasWidth(op, f.fs[i], env);
        TruthIsTold(op, f.fs[i], env);
      }
      PositiveWidths(op, f.fs, |f.fs|);
    } else {
      ToldLeaf(op, f, env);
    }
  }

  lemma ToldLeaf(op: Conn, f: Formula, env: Env)
    requires !f.And? && !f.Or?
    ensures Told(op, f, env) == op.V(f, env)
  {
  }

  // ---- right where nothing is wrong ----

  lemma {:induction false} ToldIsAlive(op: Conn, f: Formula, g: Formula, env: Env)
    requires SameTree(f, g) && Told(op, g, env)
    ensures Alive(op, f)
    decreases f
  {
    hide Eval, Kept, Ends, Told, SameTree;
    SameTreeArgs(op, f, g);
    if f.And? || f.Or? {
      KeptSame(op, f, g);
      ToldMk(op, g.fs, env);
      assert g == if op.Is(f) then op.Mk(g.fs) else op.Dual().Mk(g.fs);
      forall i | 0 <= i < |f.fs| && Told(op, g.fs[i], env) ensures Alive(op, f.fs[i]) {
        ToldIsAlive(op, f.fs[i], g.fs[i], env);
      }
    }
  }

  lemma {:induction false} NotWrongIsRight(op: Conn, f: Formula, g: Formula, env: Env)
    requires SameTree(f, g) && !Wrong(op, f)
    ensures op.V(g, env) <==> Told(op, g, env)
    decreases f
  {
    hide Eval, Kept, Ends, Told, SameTree, Alive;
    if op.V(g, env) { TruthIsTold(op, g, env); }
    if Told(op, g, env) {
      SameTreeArgs(op, f, g);
      if f.And? || f.Or? {
        KeptSame(op, f, g);
        ToldMk(op, g.fs, env);
        assert g == if op.Is(f) then op.Mk(g.fs) else op.Dual().Mk(g.fs);
        ToldIsAlive(op, f, g, env);
        forall i | 0 <= i < |f.fs| && Told(op, g.fs[i], env) && !Wrong(op, f.fs[i]) ensures op.V(g.fs[i], env) {
          NotWrongIsRight(op, f.fs[i], g.fs[i], env);
        }
        MkAll(op, g.fs, env);
        MkSome(op, g.fs, env);
      } else {
        ToldLeaf(op, g, env);
      }
    }
  }

  // ---- wrong literals ----

  /** The tree with a constant for every literal. */
  function Fill(op: Conn, f: Formula, b: bool): Formula {
    match f
    case And(fs) => And(seq(|fs|, i requires 0 <= i < |fs| => Fill(op, fs[i], b)))
    case Or(fs) => Or(seq(|fs|, i requires 0 <= i < |fs| => Fill(op, fs[i], b)))
    case _ => if b then op.Dual().Start() else op.Start()
  }

  lemma {:induction false} FillSame(op: Conn, f: Formula, b: bool)
    ensures SameTree(f, Fill(op, f, b)) && Nnf(Fill(op, f, b))
  {
    if f.And? || f.Or? {
      forall i | 0 <= i < |f.fs| ensures SameTree(f.fs[i], Fill(op, f.fs[i], b)) && Nnf(Fill(op, f.fs[i], b)) {
        FillSame(op, f.fs[i], b);
      }
    }
  }

  lemma FillArgs(op: Conn, f: Formula, b: bool)
    requires f.And? || f.Or?
    ensures var gs := seq(|f.fs|, i requires 0 <= i < |f.fs| => Fill(op, f.fs[i], b));
      Fill(op, f, b) == if op.Is(f) then op.Mk(gs) else op.Dual().Mk(gs)
  {
  }

  lemma {:induction false} FillFalse(op: Conn, f: Formula, env: Env)
    requires !HasEmpty(op, f)
    ensures !op.V(Fill(op, f, false), env)
  {
    if f.And? || f.Or? {
      hide Eval, Fill;
      var gs := seq(|f.fs|, i requires 0 <= i < |f.fs| => Fill(op, f.fs[i], false));
      FillArgs(op, f, false);
      forall i | 0 <= i < |f.fs| ensures !op.V(gs[i], env) { FillFalse(op, f.fs[i], env); }
      MkAll(op, gs, env);
      MkSome(op, gs, env);
      if op.Is(f) { assert !op.V(gs[0], env); }
    }
  }

  lemma {:induction false} FillTrue(op: Conn, f: Formula, env: Env)
    requires Alive(op, f)
    ensures Told(op, Fill(op, f, true), env)
    decreases f
  {
    if f.And? || f.Or? {
      hide Eval, Fill, Kept, Ends, Told, SameTree;
      var gs := seq(|f.fs|, i requires 0 <= i < |f.fs| => Fill(op, f.fs[i], true));
      FillArgs(op, f, true);
      FillSame(op, f, true);
      KeptSame(op, f, Fill(op, f, true));
      ToldMk(op, gs, env);
      forall i | 0 <= i < |f.fs| && Alive(op, f.fs[i]) ensures Told(op, gs[i], env) { FillTrue(op, f.fs[i], env); }
    }
  }

  /** Literals for which the converted formula holds and the original does not. */
  ghost predicate Misleads(op: Conn, f: Formula, g: Formula) {
    SameTree(f, g) && Nnf(g) && forall env :: Told(op, g, env) && !op.V(g, env)
  }

  /** The tree with one argument given and the others filled. */
  lemma Assembled(op: Conn, f: Formula, k: nat, h: Formula, b: bool) returns (g: Formula)
    requires (f.And? || f.Or?) && k < |f.fs| && SameTree(f.fs[k], h) && Nnf(h)
    ensures SameTree(f, g) && Nnf(g) && op.Is(g) == op.Is(f) && (g.And? || g.Or?) && |g.fs| == |f.fs|
    ensures forall i | 0 <= i < |f.fs| :: g.fs[i] == if i == k then h else Fill(op, f.fs[i], b)
  {
    var gs := seq(|f.fs|, i requires 0 <= i < |f.fs| => if i == k then h else Fill(op, f.fs[i], b));
    forall i | 0 <= i < |f.fs| ensures SameTree(f.fs[i], gs[i]) && Nnf(gs[i]) { FillSame(op, f.fs[i], b); }
    g := if f.And? then And(gs) else Or(gs);
  }

  lemma {:induction false} WrongMisleads(op: Conn, f: Formula) returns (g: Formula)
    requires !HasEmpty(op, f) && Wrong(op, f)
    ensures Misleads(op, f, g)
    decreases f
  {
    hide Eval, Kept, Ends, Told, SameTree, Fill, Nnf, HasEmpty;
    EmptyArgs(op, f);
    if op.Dual().Is(f) {
      var k :| 0 <= k < |f.fs| && Wrong(op, f.fs[k]);
      var h := WrongMisleads(op, f.fs[k]);
      g := Assembled(op, f, k, h, false);
      forall env ensures Told(op, g, env) && !op.V(g, env) {
        assert g == op.Dual().Mk(g.fs);
        ToldMk(op, g.fs, env);
        MkSome(op, g.fs, env);
        forall i | 0 <= i < |f.fs| && i != k ensures !op.V(g.fs[i], env) { FillFalse(op, f.fs[i], env); }
        assert Told(op, g.fs[k], env);
      }
    } else {
      var k :| 0 <= k < |f.fs| && (!Kept(op, f.fs, k) || Wrong(op, f.fs[k]));
      var h := Fill(op, f.fs[k], false);
      FillSame(op, f.fs[k], false);
      if Kept(op, f.fs, k) { h := WrongMisleads(op, f.fs[k]); }
      g := Assembled(op, f, k, h, true);
      KeptSame(op, f, g);
      forall env ensures Told(op, g, env) && !op.V(g, env) {
        assert g == op.Mk(g.fs);
        ToldMk(op, g.fs, env);
        MkAll(op, g.fs, env);
        FillFalse(op, f.fs[k], env);
        forall i | 0 <= i < |f.fs| && i != k && Kept(op, f.fs, i) ensures Told(op, g.fs[i], env) { FillTrue(op, f.fs[i], env); }
        assert !op.V(g.fs[k], env);
      }
    }
  }

  lemma EmptyArgs(op: Conn, f: Formula)
    requires !HasEmpty(op, f)
    ensures f.And? || f.Or? ==> forall i | 0 <= i < |f.fs| :: !HasEmpty(op, f.fs[i])
  {
  }

  /**
   The exact condition: a conversion is right for all literals in a tree unless an argument that it forgets, or
   converts wrongly, stands beside kept arguments that can hold.
   */
  lemma ConversionIsExact(op: Conn, f: Formula)
    requires Nnf(f) && !HasEmpty(op, f)
    ensures RightForTree(op, f) <==> !Wrong(op, f)
  {
    hide Eval, Told, SameTree, Nnf, HasEmpty, Converted, ShapeOf, Fitting;
    if Wrong(op, f) {
      var g := WrongMisleads(op, f);
      ShapeSame(op, f, g);
      var env := Env((v: Name) => 0, (v: Name) => false, (p: string, vs: seq<int>) => false);
      ConvertedMeaning(op, g, env);
      assert !Equivalent(Converted(op, g).value, g);
    } else {
      forall g | SameTree(f, g) && Nnf(g) ensures Converted(op, g).Some? && Equivalent(Converted(op, g).value, g) {
        ShapeSame(op, f, g);
        forall env ensures Converted(op, g).Some? && Eval(Converted(op, g).value, env) == Eval(g, env) {
          ConvertedMeaning(op, g, env);
          NotWrongIsRight(op, f, g, env);
        }
        var env := Env((v: Name) => 0, (v: Name) => false, (p: string, vs: seq<int>) => false);
        ConvertedMeaning(op, g, env);
      }
    }
  }

  /** The same for the whole conversion of one formula, whatever its operators. */
  lemma NormalFormTells(op: Conn, f: Formula)
    requires NoImplies(EliminateImpEq(f))
    ensures var g := PushNegIn(EliminateImpEq(f));
      && (NormalForm(op, f).Some? <==> !HasEmpty(op, g))
      && (NormalForm(op, f).Some? ==>
            (Equivalent(NormalForm(op, f).value, f) <==> forall env :: Told(op, g, env) ==> op.V(f, env)))
      && (NormalForm(op, f).Some? && !Wrong(op, g) ==> Equivalent(NormalForm(op, f).value, f))
  {
    hide Eval, Told, SameTree, Nnf, HasEmpty, Converted, ShapeOf, Fitting, Wrong, EliminateImpEq, PushNegIn, Basic;
    EliminateImpEqShape(f);
    PushShape(EliminateImpEq(f));
    var g := PushNegIn(EliminateImpEq(f));
    NoResult(op, g);
    if !HasEmpty(op, g) {
      forall env
        ensures op.V(g, env) == op.V(f, env) && op.V(NormalForm(op, f).value, env) == Told(op, g, env)
        ensures op.V(f, env) ==> Told(op, g, env)
        ensures !Wrong(op, g) ==> (op.V(g, env) <==> Told(op, g, env))
      {
        PushIsRight(EliminateImpEq(f), env);
        EliminateImpEqIsRight(f, env);
        ConvertedMeaning(op, g, env);
        if op.V(g, env) { TruthIsTold(op, g, env); }
        SameTreeSelf(g);
        if !Wrong(op, g) { NotWrongIsRight(op, g, g, env); }
      }
      VDecides(op, NormalForm(op, f).value, f);
    }
  }

  lemma {:induction false} SameTreeSelf(f: Formula)
    ensures SameTree(f, f)
  {
    if f.And? || f.Or? {
      forall i | 0 <= i < |f.fs| ensures SameTree(f.fs[i], f.fs[i]) { SameTreeSelf(f.fs[i]); }
    }
  }

  lemma VDecides(op: Conn, f: Formula, g: Formula)
    ensures Equivalent(f, g) <==> forall env :: op.V(f, env) == op.V(g, env)
  {
    hide Eval;
    if forall env :: op.V(f, env) == op.V(g, env) {
      forall env ensures Eval(f, env) == Eval(g, env) {
        assert op.V(f, env) == op.V(g, env);
      }
    }
  }

  /** An empty disjunction before another one is forgotten together with what is between them; at the end it is not. */
  lemma EmptyDisjunctionIsForgotten(a: Name, b: Name)
    ensures Wrong(Conj, And([Or([]), Or([BoolVar(a)]), Or([BoolVar(b)])]))
    ensures !Wrong(Conj, And([Or([BoolVar(a)]), Or([BoolVar(b)]), Or([])]))
  {
    var x, y, z := Or([]), Or([BoolVar(a)]), Or([BoolVar(b)]);
    SmallShapes(a);
    SmallShapes(b);
    var fs, gs := [x, y, z], [y, z, x];
    StatesOfThree(fs);
    StatesOfThree(gs);
    assert KeptUntil(Conj, fs, 2, 3) && !KeptUntil(Conj, fs, 1, 3) && !KeptUntil(Conj, fs, 0, 3);
    assert !Ends(Conj, gs) by { assert ShapeOf(Conj, gs[0]).outer; }
    assert fs[2] == z && Alive(Conj, z);
  }

  lemma SmallShapes(a: Name)
    ensures ShapeOf(Conj, Or([])) == Shape(true, 0)
    ensures ShapeOf(Conj, Or([BoolVar(a)])) == Shape(true, 1) && Alive(Conj, Or([BoolVar(a)]))
  {
    assert Widths(Conj, [], 0) == 0;
    assert Widths(Conj, [BoolVar(a)], 1) == Widths(Conj, [BoolVar(a)], 0) + ShapeOf(Conj, BoolVar(a)).width;
    assert [BoolVar(a)][0] == BoolVar(a);
    assert Alive(Conj, BoolVar(a));
  }

  lemma StatesOfThree(fs: seq<Formula>)
    requires |fs| == 3 && forall i | 0 <= i < 3 :: ShapeOf(Conj, fs[i]).outer
    ensures StateAt(Conj, fs, 1) == Next(None, ShapeOf(Conj, fs[0]).width)
    ensures StateAt(Conj, fs, 2) == Next(StateAt(Conj, fs, 1), ShapeOf(Conj, fs[1]).width)
    ensures StateAt(Conj, fs, 3) == Next(StateAt(Conj, fs, 2), ShapeOf(Conj, fs[2]).width)
  {
    hide ShapeOf;
    StateNext(Conj, fs, 0);
    StateNext(Conj, fs, 1);
    StateNext(Conj, fs, 2);
  }
}
