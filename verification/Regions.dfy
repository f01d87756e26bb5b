/** Regions of linear conditions, and what their "k-extended" form says about translations. */
module Regions {
  import opened Wrappers
  import opened Logic
  import opened Quantified

  /** The integer values of the program variables, in declaration order. */
  type State = seq<int>

  // ---- translations ----

  function Dot(c: seq<int>, x: seq<int>): int
    requires |c| == |x|
  {
    if c == [] then 0 else c[0] * x[0] + Dot(c[1..], x[1..])
  }

  /** `x - k * d`. */
  function Back(x: State, k: int, d: seq<int>): (y: State)
    requires |x| == |d|
    ensures |y| == |x|
  {
    seq(|x|, i requires 0 <= i < |x| => x[i] - k * d[i])
  }

  function Forward(x: State, d: seq<int>): (y: State)
    requires |x| == |d|
    ensures |y| == |x|
  {
    Back(x, -1, d)
  }

  lemma {:induction false} DotBack(c: seq<int>, x: State, k: int, d: seq<int>)
    requires |c| == |x| == |d|
    ensures Dot(c, Back(x, k, d)) == Dot(c, x) - k * Dot(c, d)
  {
    if c != [] {
      DotBack(c[1..], x[1..], k, d[1..]);
      assert Back(x, k, d)[1..] == Back(x[1..], k, d[1..]);
      Distribute(c[0], x[0], k, d[0], Dot(c[1..], d[1..]));
    }
  }

  lemma Distribute(c: int, x: int, k: int, d: int, rest: int)
    ensures c * (x - k * d) - k * rest == c * x - k * (c * d + rest)
  {
  }

  lemma BackBack(x: State, j: int, k: int, d: seq<int>)
    requires |x| == |d|
    ensures Back(Back(x, j, d), k, d) == Back(x, j + k, d)
  {
    forall i | 0 <= i < |x| ensures Back(Back(x, j, d), k, d)[i] == Back(x, j + k, d)[i] {
      assert x[i] - j * d[i] - k * d[i] == x[i] - (j + k) * d[i];
    }
  }

  lemma BackZero(x: State, d: seq<int>)
    requires |x| == |d|
    ensures Back(x, 0, d) == x
  {
  }

  // ---- conditions ----

  /** The condition `coeff . x + constTerm >= 0`. */
  datatype Cond = Cond(coeff: seq<int>, constTerm: int) {
    predicate On(x: State)
      requires |coeff| == |x|
    {
      Dot(coeff, x) + constTerm >= 0
    }
  }

  predicate Sized(conds: seq<Cond>, n: nat) { forall c | c in conds :: |c.coeff| == n }

  predicate InRegion(conds: seq<Cond>, x: State)
    requires Sized(conds, |x|)
  {
    forall i | 0 <= i < |conds| :: conds[i].On(x)
  }

  /** The condition grows along the translation, so its least value on a path is at the start. */
  predicate Grows(c: Cond, d: seq<int>)
    requires |c.coeff| == |d|
  {
    Dot(c.coeff, d) > 0
  }

  /** `toKExpr`: growing conditions are tested `k` steps back, the others at `x` itself. */
  predicate InKRegion(conds: seq<Cond>, d: seq<int>, x: State, k: int)
    requires Sized(conds, |x|) && |d| == |x|
  {
    forall i | 0 <= i < |conds| :: conds[i].On(if Grows(conds[i], d) then Back(x, k, d) else x)
  }

  lemma MonotoneOnPath(c: Cond, d: seq<int>, x: State, j: int, k: int)
    requires |c.coeff| == |d| == |x| && 0 <= j <= k
    requires c.On(if Grows(c, d) then Back(x, k, d) else x)
    ensures c.On(Back(x, j, d))
  {
    DotBack(c.coeff, x, j, d);
    DotBack(c.coeff, x, k, d);
    var s := Dot(c.coeff, d);
    if s > 0 {
      assert (k - j) * s >= 0;
      assert k * s == (k - j) * s + j * s;
    } else {
      assert j * s <= 0;
    }
  }

  /** The k-extended region is exactly the set of end points whose whole path of `k` steps stays in the region. */
  lemma KRegionIsPath(conds: seq<Cond>, d: seq<int>, x: State, k: nat)
    requires Sized(conds, |x|) && |d| == |x|
    ensures InKRegion(conds, d, x, k) <==> forall j | 0 <= j <= k :: InRegion(conds, Back(x, j, d))
  {
    BackZero(x, d);
    if InKRegion(conds, d, x, k) {
      forall j, i | 0 <= j <= k && 0 <= i < |conds| ensures conds[i].On(Back(x, j, d)) {
        MonotoneOnPath(conds[i], d, x, j, k);
      }
    }
    if forall j | 0 <= j <= k :: InRegion(conds, Back(x, j, d)) {
      assert InRegion(conds, Back(x, 0, d)) && InRegion(conds, Back(x, k, d));
    }
  }

  // ---- formulas about states ----

  const K := Aux("k")

  /** The interpretation of the program variables by `x` and of the auxiliary constant by `k`. */
  function EnvOf(x: State, k: int): Env {
    Env((v: Name) => if v.Cur? then (if v.i < |x| then x[v.i] else 0) else if v == K then k else 0, (v: Name) => false, (p: string, vs: seq<int>) => false)
  }

  predicate Sat(f: Formula, x: State) { Eval(f, EnvOf(x, 0)) }

  /** The state satisfies the formula. */
  ghost predicate Meets(e: Expr, x: State) { Truth(e, EnvOf(x, 0)) }

  /** The formula does not depend on the auxiliary constant. */
  ghost predicate StateFormula(f: Expr, n: nat) {
    forall x: State, k | |x| == n :: Truth(f, EnvOf(x, k)) == Meets(f, x)
  }

  lemma BindEnv(x: State, j: int, k: int)
    ensures SameValues(Bind(Under(EnvOf(x, j), map[]), K, k), EnvOf(x, k))
  {
    var none: Subst := map[];
    forall v ensures Bind(Under(EnvOf(x, j), none), K, k).ints(v) == EnvOf(x, k).ints(v) {
      assert Under(EnvOf(x, j), none).ints(v) == EnvOf(x, j).ints(v);
    }
  }

  /** Quantifying the auxiliary constant. */
  lemma SomeStepCount(body: Expr, x: State, j: int)
    ensures Truth(Exists(K, map[], body), EnvOf(x, j)) <==> exists k :: Truth(body, EnvOf(x, k))
  {
    hide SameValues, Under, EnvOf, Bind;
    forall k ensures Truth(body, Bind(Under(EnvOf(x, j), map[]), K, k)) == Truth(body, EnvOf(x, k)) {
      BindEnv(x, j, k);
      TruthSame(body, Bind(Under(EnvOf(x, j), map[]), K, k), EnvOf(x, k));
    }
  }

  /** The steps of a shift: the auxiliary constant, or one. */
  datatype Steps = ByK | ByOne {
    function Value(k: int): int { if ByK? then k else 1 }
  }

  /** `x[i] - k * d`; a shift by one is written `x[i] - d`. */
  function ShiftTerm(i: nat, d: int, st: Steps): Term {
    Sub(Var(Cur(i)), if st.ByK? then Mul(Var(K), Num(d)) else Num(d))
  }

  /** One substitution of the loop over the variables. */
  function ShiftVariable(f: Expr, i: nat, d: int, st: Steps): Expr { Replace(f, map[Cur(i) := ShiftTerm(i, d, st)]) }

  /** How far one coordinate moves. */
  function Distance(st: Steps, k: int, d: int): int { st.Value(k) * d }

  lemma ShiftTermValue(i: nat, d: int, st: Steps, env: Env)
    ensures EvalT(ShiftTerm(i, d, st), env) == env.ints(Cur(i)) - Distance(st, env.ints(K), d)
  {
    if st.ByK? {
      assert EvalT(Mul(Var(K), Num(d)), env) == EvalT(Var(K), env) * EvalT(Num(d), env);
    }
  }

  lemma ShiftEnv(i: nat, d: int, st: Steps, x: State, k: int)
    requires i < |x|
    ensures SameValues(Under(EnvOf(x, k), map[Cur(i) := ShiftTerm(i, d, st)]), EnvOf(x[i := x[i] - Distance(st, k, d)], k))
  {
    hide EvalT, ShiftTerm, Distance;
    ShiftTermValue(i, d, st, EnvOf(x, k));
  }

  /** Replacing variable `i` by `ShiftTerm` moves the formula one coordinate back. */
  lemma ShiftOne(f: Expr, i: nat, d: int, st: Steps, x: State, k: int)
    requires i < |x|
    ensures Truth(ShiftVariable(f, i, d, st), EnvOf(x, k)) == Truth(f, EnvOf(x[i := x[i] - Distance(st, k, d)], k))
  {
    hide Truth, Replace, Under, EnvOf, SameValues, ShiftTerm, Distance;
    var s := map[Cur(i) := ShiftTerm(i, d, st)];
    ReplaceMeaning(f, s, EnvOf(x, k));
    ShiftEnv(i, d, st, x, k);
    TruthSame(f, Under(EnvOf(x, k), s), EnvOf(x[i := x[i] - Distance(st, k, d)], k));
  }

  /** Only the first `m` coordinates moved back. */
  function BackFirst(x: State, k: int, d: seq<int>, m: nat): (y: State)
    requires |x| == |d|
    ensures |y| == |x|
  {
    seq(|x|, i requires 0 <= i < |x| => if i < m then x[i] - k * d[i] else x[i])
  }

  lemma BackFirstNone(x: State, k: int, d: seq<int>)
    requires |x| == |d|
    ensures BackFirst(x, k, d, 0) == x
  {
  }

  lemma BackFirstNext(x: State, st: Steps, k: int, d: seq<int>, i: nat)
    requires |x| == |d| && i < |d|
    ensures BackFirst(x[i := x[i] - Distance(st, k, d[i])], st.Value(k), d, i) == BackFirst(x, st.Value(k), d, i + 1)
  {
  }

  lemma BackFirstAll(x: State, k: int, d: seq<int>)
    requires |x| == |d|
    ensures BackFirst(x, k, d, |d|) == Back(x, k, d)
  {
  }

  /** `r` at a state says what `f` says with the first `m` coordinates moved back. */
  ghost predicate Moved(r: Expr, f: Expr, st: Steps, d: seq<int>, m: nat) {
    forall x: State, k | |x| == |d| :: Truth(r, EnvOf(x, k)) == Truth(f, EnvOf(BackFirst(x, st.Value(k), d, m), k))
  }

  lemma MovedNone(f: Expr, st: Steps, d: seq<int>)
    ensures Moved(f, f, st, d, 0)
  {
    hide Truth, EnvOf, BackFirst;
    forall x: State, k | |x| == |d| ensures Truth(f, EnvOf(x, k)) == Truth(f, EnvOf(BackFirst(x, st.Value(k), d, 0), k)) {
      BackFirstNone(x, st.Value(k), d);
    }
  }

  lemma MovedNext(r: Expr, f: Expr, st: Steps, d: seq<int>, i: nat)
    requires i < |d| && Moved(r, f, st, d, i)
    ensures Moved(ShiftVariable(r, i, d[i], st), f, st, d, i + 1)
  {
    hide Truth, EnvOf, BackFirst, ShiftVariable, Distance;
    var r' := ShiftVariable(r, i, d[i], st);
    forall x: State, k | |x| == |d|
      ensures Truth(r', EnvOf(x, k)) == Truth(f, EnvOf(BackFirst(x, st.Value(k), d, i + 1), k))
    {
      ShiftOne(r, i, d[i], st, x, k);
      BackFirstNext(x, st, k, d, i);
      var y := x[i := x[i] - Distance(st, k, d[i])];
      assert Truth(r, EnvOf(y, k)) == Truth(f, EnvOf(BackFirst(y, st.Value(k), d, i), k));
    }
  }

  lemma MovedAll(r: Expr, f: Expr, st: Steps, d: seq<int>, x: State, k: int)
    requires Moved(r, f, st, d, |d|) && |x| == |d|
    ensures Truth(r, EnvOf(x, k)) == Truth(f, EnvOf(Back(x, st.Value(k), d), k))
  {
    BackFirstAll(x, st.Value(k), d);
  }

  /** The loop over all variables that substitutes `x - k * d` (or `x - d`) for `x`. */
  method ShiftFormula(f: Expr, d: seq<int>, st: Steps) returns (r: Expr)
    ensures forall x: State, k | |x| == |d| :: Truth(r, EnvOf(x, k)) == Truth(f, EnvOf(Back(x, st.Value(k), d), k))
  {
    hide ShiftVariable, Truth, Moved;
    r := f;
    MovedNone(f, st, d);
    for i := 0 to |d|
      invariant Moved(r, f, st, d, i)
    {
      MovedNext(r, f, st, d, i);
      r := ShiftVariable(r, i, d[i], st);
    }
    forall x: State, k | |x| == |d|
      ensures Truth(r, EnvOf(x, k)) == Truth(f, EnvOf(Back(x, st.Value(k), d), k))
    {
      MovedAll(r, f, st, d, x, k);
    }
  }

  /** `Cond.toExpr`: the sum of the products, the constant last, compared with zero. */
  function CondTerms(c: Cond, i: nat): (ts: seq<Term>)
    requires i <= |c.coeff|
    decreases |c.coeff| - i
  {
    if i == |c.coeff| then [Num(c.constTerm)]
    else [Mul(Num(c.coeff[i]), Var(Cur(i)))] + CondTerms(c, i + 1)
  }

  function CondFormula(c: Cond): Formula { Cmp(Ge, Add(CondTerms(c, 0)), Num(0)) }

  lemma {:induction false} CondTermsMeaning(c: Cond, i: nat, x: State, k: int)
    requires i <= |c.coeff| == |x|
    ensures Sum(CondTerms(c, i), EnvOf(x, k)) == Dot(c.coeff[i..], x[i..]) + c.constTerm
    decreases |c.coeff| - i
  {
    if i < |c.coeff| {
      CondTermsMeaning(c, i + 1, x, k);
      var ts := CondTerms(c, i);
      assert ts[1..] == CondTerms(c, i + 1);
      assert EvalT(ts[0], EnvOf(x, k)) == c.coeff[i] * x[i];
      assert c.coeff[i..][1..] == c.coeff[i + 1..] && x[i..][1..] == x[i + 1..];
    }
  }

  lemma CondFormulaMeaning(c: Cond, x: State, k: int)
    requires |c.coeff| == |x|
    ensures Eval(CondFormula(c), EnvOf(x, k)) <==> c.On(x)
  {
    hide CondTerms, Dot, Sum, EnvOf;
    CondTermsMeaning(c, 0, x, k);
    assert c.coeff[0..] == c.coeff && x[0..] == x;
  }

  // ---- the class ----

  /** `Region`; `n` is the number of program variables. */
  class Region {
    const n: nat
    var conds: seq<Cond>
    var kExtended: seq<bool>
    var trans: Option<seq<int>>

    predicate Valid()
      reads this
    {
      Sized(conds, n)
    }

    /** `kExtend` was called with translation `d`. */
    predicate ExtendedFor(d: seq<int>)
      reads this
    {
      && Valid() && |d| == n && trans == Some(d) && |kExtended| == |conds|
      && forall i | 0 <= i < |conds| :: kExtended[i] == Grows(conds[i], d)
    }

    constructor (n: nat)
      ensures Valid() && this.n == n && conds == [] && kExtended == [] && trans == None
    {
      this.n := n;
      conds, kExtended, trans := [], [], None;
    }

    /** `addCond`, which ignores coefficients of the wrong number. */
    method AddCond(coeff: seq<int>, constTerm: int)
      requires Valid()
      modifies this`conds
      ensures Valid()
      ensures conds == if |coeff| == n then old(conds) + [Cond(coeff, constTerm)] else old(conds)
    {
      if |coeff| != n { return; }
      conds := conds + [Cond(coeff, constTerm)];
    }

    /** `kExtend`: decides for each condition whether it grows along the translation. */
    method KExtend(d: seq<int>)
      requires Valid() && |d| == n
      modifies this`kExtended, this`trans
      ensures ExtendedFor(d)
    {
      trans := Some(d);
      kExtended := [];
      for i := 0 to |conds|
        invariant trans == Some(d) && |kExtended| == i
        invariant forall j | 0 <= j < i :: kExtended[j] == Grows(conds[j], d)
      {
        assert conds[i] in conds;
        var deltaSum := 0;
        var c := conds[i].coeff;
        for m := 0 to n
          invariant deltaSum + Dot(c[m..], d[m..]) == Dot(c, d)
        {
          assert c[m..][1..] == c[m + 1..] && d[m..][1..] == d[m + 1..];
          deltaSum := deltaSum + c[m] * d[m];
        }
        kExtended := kExtended + [deltaSum > 0];
      }
    }

    /** `toExpr`. */
    method ToExpr() returns (f: Expr)
      requires Valid()
      ensures forall x: State, k | |x| == n :: Truth(f, EnvOf(x, k)) <==> InRegion(conds, x)
    {
      var clauses: seq<Formula> := [];
      for i := 0 to |conds|
        invariant |clauses| == i
        invariant forall j | 0 <= j < i :: clauses[j] == CondFormula(conds[j])
      {
        clauses := clauses + [CondFormula(conds[i])];
      }
      f := Plain(And(clauses));
      forall x: State, k | |x| == n ensures Truth(f, EnvOf(x, k)) <==> InRegion(conds, x) {
        forall j | 0 <= j < |conds| ensures Eval(clauses[j], EnvOf(x, k)) <==> conds[j].On(x) {
          assert conds[j] in conds;
          CondFormulaMeaning(conds[j], x, k);
        }
      }
    }

    /** `toKExpr`. */
    method ToKExpr() returns (f: Expr)
      requires trans.Some? && ExtendedFor(trans.value)
      ensures forall x: State, k | |x| == n :: Truth(f, EnvOf(x, k)) <==> InKRegion(conds, trans.value, x, k)
    {
      hide Truth, Eval, EnvOf, ExtendedClause;
      var d := trans.value;
      var clauses: seq<Expr> := [];
      for i := 0 to |conds|
        invariant |clauses| == i
        invariant forall j | 0 <= j < i :: ExtendedClause(clauses[j], conds[j], d)
      {
        assert conds[i] in conds;
        var clause := Plain(CondFormula(conds[i]));
        if kExtended[i] {
          clause := ShiftFormula(clause, d, ByK);
        }
        ClauseIsExtended(clause, conds[i], d);
        clauses := clauses + [clause];
      }
      f := All(clauses);
      forall x: State, k | |x| == n ensures Truth(f, EnvOf(x, k)) <==> InKRegion(conds, d, x, k) {
        AllMeaning(clauses, EnvOf(x, k));
        ExtendedClauses(clauses, conds, d, x, k);
      }
    }
  }

  /** The formula says of the end of a path what the condition, tested where its value is least, says. */
  ghost predicate ExtendedClause(clause: Expr, c: Cond, d: seq<int>) {
    |c.coeff| == |d| && forall x: State, k | |x| == |d| :: Truth(clause, EnvOf(x, k)) <==> c.On(if Grows(c, d) then Back(x, k, d) else x)
  }

  lemma ClauseIsExtended(clause: Expr, c: Cond, d: seq<int>)
    requires |c.coeff| == |d| && (!Grows(c, d) ==> clause == Plain(CondFormula(c)))
    requires Grows(c, d) ==> forall x: State, k | |x| == |d| :: Truth(clause, EnvOf(x, k)) == Truth(Plain(CondFormula(c)), EnvOf(Back(x, k, d), k))
    ensures ExtendedClause(clause, c, d)
  {
    hide Truth, Eval, EnvOf, CondFormula, Grows;
    forall x: State, k | |x| == |d| ensures Truth(clause, EnvOf(x, k)) <==> c.On(if Grows(c, d) then Back(x, k, d) else x) {
      var y := if Grows(c, d) then Back(x, k, d) else x;
      PlainMeaning(CondFormula(c), EnvOf(y, k));
      CondFormulaMeaning(c, y, k);
    }
  }

  lemma ExtendedClauses(clauses: seq<Expr>, conds: seq<Cond>, d: seq<int>, x: State, k: int)
    requires |clauses| == |conds| && Sized(conds, |x|) && |d| == |x|
    requires forall j | 0 <= j < |conds| :: ExtendedClause(clauses[j], conds[j], d)
    ensures (forall j | 0 <= j < |conds| :: Truth(clauses[j], EnvOf(x, k))) <==> InKRegion(conds, d, x, k)
  {
    hide Truth, EnvOf;
    forall j | 0 <= j < |conds|
      ensures conds[j] in conds
      ensures Truth(clauses[j], EnvOf(x, k)) <==> conds[j].On(if Grows(conds[j], d) then Back(x, k, d) else x)
    {
      assert ExtendedClause(clauses[j], conds[j], d);
    }
  }

  lemma PlainMeaning(f: Formula, env: Env)
    ensures Truth(Plain(f), env) == Eval(f, env)
  {
  }
}
