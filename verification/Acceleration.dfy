/**
 Loop acceleration: the states reachable under guarded translations, computed by following one region
 for any number of steps and then switching regions, until nothing changes.
 */
module Acceleration {
  import opened Wrappers
  import opened Logic
  import opened Quantified
  import opened Regions

  /** In a state of the region, the translation may be applied. */
  datatype Rule = Rule(conds: seq<Cond>, delta: seq<int>)

  ghost predicate RulesSized(rules: seq<Rule>, n: nat) {
    forall r | r in rules :: Sized(r.conds, n) && |r.delta| == n
  }

  ghost predicate Applies(r: Rule, x: State, y: State)
    requires Sized(r.conds, |x|) && |r.delta| == |x|
  {
    InRegion(r.conds, x) && y == Forward(x, r.delta)
  }

  ghost predicate Step(rules: seq<Rule>, x: State, y: State)
    requires RulesSized(rules, |x|)
  {
    exists i :: 0 <= i < |rules| && Applies(rules[i], x, y)
  }

  /** `y` is reached from a state of `pre` by the given number of steps. */
  ghost predicate ReachedIn(rules: seq<Rule>, pre: Expr, y: State, steps: nat)
    requires RulesSized(rules, |y|)
    decreases steps
  {
    if steps == 0 then Meets(pre, y)
    else exists x: State :: |x| == |y| && ReachedIn(rules, pre, x, steps - 1) && Step(rules, x, y)
  }

  ghost predicate Reached(rules: seq<Rule>, pre: Expr, y: State)
    requires RulesSized(rules, |y|)
  {
    exists steps: nat :: ReachedIn(rules, pre, y, steps)
  }

  // ---- what the two expansions mean ----

  /** All of `x - k * delta, ..., x` lie in the region, and the first of them satisfies `f`. */
  ghost predicate PathFrom(r: Rule, f: Expr, x: State, k: nat)
    requires Sized(r.conds, |x|) && |r.delta| == |x|
  {
    Meets(f, Back(x, k, r.delta)) && forall j | 0 <= j <= k :: InRegion(r.conds, Back(x, j, r.delta))
  }

  /** `localExpand`: `f` and everything reached from it inside one region. */
  ghost predicate LocallyExpanded(rules: seq<Rule>, f: Expr, x: State)
    requires RulesSized(rules, |x|)
  {
    Meets(f, x) || exists i, k: nat :: 0 <= i < |rules| && PathFrom(rules[i], f, x, k)
  }

  ghost predicate Outside(rules: seq<Rule>, x: State)
    requires RulesSized(rules, |x|)
  {
    forall i | 0 <= i < |rules| :: !InRegion(rules[i].conds, x)
  }

  /** One step of rule `i` from a state of `f`, ending in the region of another rule or in no region. */
  ghost predicate Switched(rules: seq<Rule>, f: Expr, x: State, i: nat)
    requires RulesSized(rules, |x|) && i < |rules|
  {
    && Meets(f, Back(x, 1, rules[i].delta))
    && InRegion(rules[i].conds, Back(x, 1, rules[i].delta))
    && ((exists j :: 0 <= j < |rules| && j != i && InRegion(rules[j].conds, x)) || Outside(rules, x))
  }

  /** `switchExpand`. */
  ghost predicate SwitchExpanded(rules: seq<Rule>, f: Expr, x: State)
    requires RulesSized(rules, |x|)
  {
    Meets(f, x) || exists i :: 0 <= i < |rules| && Switched(rules, f, x, i)
  }

  lemma ForwardBack(x: State, d: seq<int>)
    requires |x| == |d|
    ensures Forward(Back(x, 1, d), d) == x && Back(Forward(x, d), 1, d) == x
  {
    BackBack(x, 1, -1, d);
    BackBack(x, -1, 1, d);
    BackZero(x, d);
  }

  lemma StepForward(rules: seq<Rule>, pre: Expr, x: State, i: nat)
    requires RulesSized(rules, |x|) && i < |rules| && InRegion(rules[i].conds, x) && Reached(rules, pre, x)
    ensures Reached(rules, pre, Forward(x, rules[i].delta))
  {
    var steps: nat :| ReachedIn(rules, pre, x, steps);
    assert Applies(rules[i], x, Forward(x, rules[i].delta));
    assert ReachedIn(rules, pre, Forward(x, rules[i].delta), steps + 1);
  }

  /** Following a path inside a region stays among the reachable states. */
  lemma {:induction false} PathReached(rules: seq<Rule>, pre: Expr, f: Expr, x: State, i: nat, k: nat)
    requires RulesSized(rules, |x|) && i < |rules| && PathFrom(rules[i], f, x, k)
    requires forall y: State | |y| == |x| && Meets(f, y) :: Reached(rules, pre, y)
    ensures Reached(rules, pre, x)
    decreases k
  {
    var d := rules[i].delta;
    if k == 0 {
      BackZero(x, d);
    } else {
      var y := Back(x, 1, d);
      BackBack(x, 1, k - 1, d);
      forall j | 0 <= j <= k - 1 ensures InRegion(rules[i].conds, Back(y, j, d)) {
        BackBack(x, 1, j, d);
      }
      PathReached(rules, pre, f, y, i, k - 1);
      StepForward(rules, pre, y, i);
      ForwardBack(x, d);
    }
  }

  /** Expansions of reachable states are reachable. */
  lemma ExpansionsReached(rules: seq<Rule>, pre: Expr, f: Expr, g: Expr, x: State)
    requires RulesSized(rules, |x|)
    requires forall y: State | |y| == |x| && Meets(f, y) :: Reached(rules, pre, y)
    requires forall y: State | |y| == |x| :: Meets(g, y) <==> LocallyExpanded(rules, f, y)
    requires SwitchExpanded(rules, g, x)
    ensures Reached(rules, pre, x)
  {
    forall y: State | |y| == |x| && Meets(g, y) ensures Reached(rules, pre, y) {
      if !Meets(f, y) {
        var i, k: nat :| 0 <= i < |rules| && PathFrom(rules[i], f, y, k);
        PathReached(rules, pre, f, y, i, k);
      }
    }
    if !Meets(g, x) {
      var i :| 0 <= i < |rules| && Switched(rules, g, x, i);
      StepForward(rules, pre, Back(x, 1, rules[i].delta), i);
      ForwardBack(x, rules[i].delta);
    }
  }

  /** When the expansions add nothing, the set is closed under steps. */
  lemma NoChangeIsClosed(rules: seq<Rule>, f: Expr, g: Expr, x: State, y: State)
    requires RulesSized(rules, |x|) && |y| == |x|
    requires forall z: State | |z| == |x| :: Meets(g, z) <==> LocallyExpanded(rules, f, z)
    requires forall z: State | |z| == |x| :: Meets(f, z) <==> SwitchExpanded(rules, g, z)
    requires Meets(f, x) && Step(rules, x, y)
    ensures Meets(f, y)
  {
    var i :| 0 <= i < |rules| && Applies(rules[i], x, y);
    var d := rules[i].delta;
    ForwardBack(x, d);
    if InRegion(rules[i].conds, y) {
      BackZero(y, d);
      forall j | 0 <= j <= 1 ensures InRegion(rules[i].conds, Back(y, j, d)) {
        assert j == 0 || j == 1;
      }
      assert PathFrom(rules[i], f, y, 1);
      assert Meets(g, y);
    } else {
      assert LocallyExpanded(rules, f, x);
      assert Switched(rules, g, y, i);
    }
    assert SwitchExpanded(rules, g, y);
  }

  /** A closed set that contains `pre` contains everything reachable. */
  lemma {:induction false} ClosedContainsReached(rules: seq<Rule>, pre: Expr, f: Expr, y: State, steps: nat)
    requires RulesSized(rules, |y|) && ReachedIn(rules, pre, y, steps)
    requires forall x: State | |x| == |y| && Meets(pre, x) :: Meets(f, x)
    requires forall x: State, z: State | |x| == |y| == |z| && Meets(f, x) && Step(rules, x, z) :: Meets(f, z)
    ensures Meets(f, y)
    decreases steps
  {
    hide Meets, Step;
    if steps > 0 {
      var x: State :| |x| == |y| && ReachedIn(rules, pre, x, steps - 1) && Step(rules, x, y);
      ClosedContainsReached(rules, pre, f, x, steps - 1);
    }
  }

  // ---- rounds ----

  ghost predicate SameStates(e: Expr, f: Expr, n: nat) { forall x: State | |x| == n :: Meets(e, x) == Meets(f, x) }

  /** `e` is `f` expanded inside the regions and then across their borders. */
  ghost predicate IsRound(rules: seq<Rule>, f: Expr, g: Expr, e: Expr, n: nat)
    requires RulesSized(rules, n)
  {
    && (forall x: State | |x| == n :: Meets(g, x) <==> LocallyExpanded(rules, f, x))
    && (forall x: State | |x| == n :: Meets(e, x) <==> SwitchExpanded(rules, g, x))
  }

  /** `e` is what the given number of rounds makes of `pre`. */
  ghost predicate Rounds(rules: seq<Rule>, pre: Expr, e: Expr, n: nat, count: nat)
    requires RulesSized(rules, n)
    decreases count
  {
    if count == 0 then SameStates(pre, e, n) else exists f, g :: Rounds(rules, pre, f, n, count - 1) && IsRound(rules, f, g, e, n)
  }

  /** Round `count + 1` still adds states. */
  ghost predicate Adds(rules: seq<Rule>, pre: Expr, n: nat, count: nat)
    requires RulesSized(rules, n)
  {
    exists e, f :: Rounds(rules, pre, e, n, count) && Rounds(rules, pre, f, n, count + 1) && !SameStates(e, f, n)
  }

  /** `k` steps by the rule, one after the other, lead to `x`; only the last of them may leave the region. */
  ghost predicate Stretch(r: Rule, x: State, k: nat)
    requires Sized(r.conds, |x|) && |r.delta| == |x|
  {
    forall j | 1 <= j <= k :: InRegion(r.conds, Back(x, j, r.delta))
  }

  /** A state of `pre` leads to `x` by at most `count` stretches, each of steps by one rule. */
  ghost predicate WithinStretches(rules: seq<Rule>, pre: Expr, x: State, count: nat)
    requires RulesSized(rules, |x|)
    decreases count
  {
    if count == 0 then Meets(pre, x)
    else
      || WithinStretches(rules, pre, x, count - 1)
      || exists i, k: nat :: 0 <= i < |rules| && Stretch(rules[i], x, k) && WithinStretches(rules, pre, Back(x, k, rules[i].delta), count - 1)
  }

  /** Every path is made of stretches, no more than it has steps. */
  lemma {:induction false} StepsAreStretches(rules: seq<Rule>, pre: Expr, x: State, steps: nat)
    requires RulesSized(rules, |x|) && ReachedIn(rules, pre, x, steps)
    ensures WithinStretches(rules, pre, x, steps)
    decreases steps
  {
    hide Meets, InRegion, Stretch, Step;
    if steps > 0 {
      var y: State :| |y| == |x| && ReachedIn(rules, pre, y, steps - 1) && Step(rules, y, x);
      StepsAreStretches(rules, pre, y, steps - 1);
      var i := StepIsStretch(rules, y, x);
      assert Stretch(rules[i], x, 1) && WithinStretches(rules, pre, Back(x, 1, rules[i].delta), steps - 1);
    }
  }

  lemma StepIsStretch(rules: seq<Rule>, y: State, x: State) returns (i: nat)
    requires |x| == |y| && RulesSized(rules, |x|) && Step(rules, y, x)
    ensures i < |rules| && Stretch(rules[i], x, 1) && Back(x, 1, rules[i].delta) == y
  {
    i :| 0 <= i < |rules| && Applies(rules[i], y, x);
    ForwardBack(y, rules[i].delta);
  }

  /** One round covers one more stretch. */
  lemma StretchIsCovered(rules: seq<Rule>, f: Expr, g: Expr, e: Expr, x: State, i: nat, k: nat)
    requires RulesSized(rules, |x|) && IsRound(rules, f, g, e, |x|) && i < |rules|
    requires Stretch(rules[i], x, k) && Meets(f, Back(x, k, rules[i].delta))
    ensures Meets(e, x)
  {
    hide Meets;
    var d := rules[i].delta;
    BackZero(x, d);
    if InRegion(rules[i].conds, x) {
      assert PathFrom(rules[i], f, x, k);
    } else if k > 0 {
      var z := Back(x, 1, d);
      BackBack(x, 1, k - 1, d);
      forall j | 0 <= j <= k - 1 ensures InRegion(rules[i].conds, Back(z, j, d)) { BackBack(x, 1, j, d); }
      assert PathFrom(rules[i], f, z, k - 1);
      assert LocallyExpanded(rules, f, z) && Meets(g, z);
      assert Switched(rules, g, x, i);
    } else {
      assert LocallyExpanded(rules, f, x);
    }
    assert SwitchExpanded(rules, g, x);
  }

  /** After so many rounds everything is there that so many stretches lead to. */
  lemma {:induction false} RoundsCoverStretches(rules: seq<Rule>, pre: Expr, e: Expr, x: State, count: nat)
    requires RulesSized(rules, |x|) && Rounds(rules, pre, e, |x|, count) && WithinStretches(rules, pre, x, count)
    ensures Meets(e, x)
    decreases count
  {
    hide Meets, Stretch, InRegion, IsRound;
    if count > 0 {
      var f, g :| Rounds(rules, pre, f, |x|, count - 1) && IsRound(rules, f, g, e, |x|);
      if WithinStretches(rules, pre, x, count - 1) {
        RoundsCoverStretches(rules, pre, f, x, count - 1);
        RoundKeeps(rules, f, g, e, x);
      } else {
        var i, k: nat :| 0 <= i < |rules| && Stretch(rules[i], x, k) && WithinStretches(rules, pre, Back(x, k, rules[i].delta), count - 1);
        RoundsCoverStretches(rules, pre, f, Back(x, k, rules[i].delta), count - 1);
        StretchIsCovered(rules, f, g, e, x, i, k);
      }
    }
  }

  lemma RoundKeeps(rules: seq<Rule>, f: Expr, g: Expr, e: Expr, x: State)
    requires RulesSized(rules, |x|) && IsRound(rules, f, g, e, |x|) && Meets(f, x)
    ensures Meets(e, x)
  {
    hide Meets;
    assert LocallyExpanded(rules, f, x);
    assert SwitchExpanded(rules, g, x);
  }

  /** No round goes beyond the reachable states. */
  lemma {:induction false} RoundsAreReached(rules: seq<Rule>, pre: Expr, e: Expr, x: State, count: nat)
    requires RulesSized(rules, |x|) && Rounds(rules, pre, e, |x|, count) && Meets(e, x)
    ensures Reached(rules, pre, x)
    decreases count
  {
    hide Meets, LocallyExpanded, SwitchExpanded, Reached;
    if count == 0 {
      ReachedAtStart(rules, pre, x);
    } else {
      var f, g :| Rounds(rules, pre, f, |x|, count - 1) && IsRound(rules, f, g, e, |x|);
      forall y: State | |y| == |x| && Meets(f, y) ensures Reached(rules, pre, y) { RoundsAreReached(rules, pre, f, y, count - 1); }
      ExpansionsReached(rules, pre, f, g, x);
    }
  }

  /** A system all of whose states are reached by so few stretches is done after as many rounds. */
  lemma FewStretchesAreDone(rules: seq<Rule>, pre: Expr, n: nat, count: nat)
    requires RulesSized(rules, n) && forall x: State | |x| == n && Reached(rules, pre, x) :: WithinStretches(rules, pre, x, count)
    ensures !Adds(rules, pre, n, count)
  {
    hide Meets, Reached, Rounds;
    forall e, f | Rounds(rules, pre, e, n, count) && Rounds(rules, pre, f, n, count + 1) ensures SameStates(e, f, n) {
      forall x: State | |x| == n ensures Meets(e, x) == Meets(f, x) {
        if Meets(e, x) {
          RoundsAreReached(rules, pre, e, x, count);
          assert WithinStretches(rules, pre, x, count + 1);
          RoundsCoverStretches(rules, pre, f, x, count + 1);
        }
        if Meets(f, x) {
          RoundsAreReached(rules, pre, f, x, count + 1);
          RoundsCoverStretches(rules, pre, e, x, count);
        }
      }
    }
  }

  // ---- the solver ----

  /**
   The external solver: `simp` and `qe` preserve meaning and bring in no auxiliary constant, `sat` decides
   satisfiability over the states of `n` variables.
   */
  datatype Solver = Solver(simp: Expr -> Expr, qe: Expr -> Expr, sat: Expr -> bool) {
    ghost predicate Faithful(n: nat) {
      && (forall e, x: State | |x| == n :: Meets(simp(e), x) == Meets(e, x))
      && (forall e | StateFormula(e, n) :: StateFormula(simp(e), n))
      && (forall e, x: State | |x| == n :: Meets(qe(e), x) == Meets(e, x))
      && (forall e | StateFormula(e, n) :: StateFormula(qe(e), n))
      && (forall e | StateFormula(e, n) :: sat(e) <==> Satisfiable(e, n))
    }
  }

  ghost predicate Satisfiable(e: Expr, n: nat) { exists x: State :: |x| == n && Meets(e, x) }

  /** There are such solvers for every number of variables. */
  lemma FaithfulSolversExist(n: nat)
    ensures exists s: Solver :: s.Faithful(n)
  {
    var s := Solver(e => e, e => e, e => Satisfiable(e, n));
    assert s.Faithful(n);
  }

  /** A region object with its translation. */
  datatype Entry = Entry(region: Region, delta: seq<int>)

  /** The formulas say what the regions of the first rules say. */
  ghost predicate ClausesOk(rs: seq<Rule>, clauses: seq<Expr>, n: nat) {
    && RulesSized(rs, n) && |clauses| <= |rs|
    && forall j, x: State, k | 0 <= j < |clauses| && |x| == n :: Truth(clauses[j], EnvOf(x, k)) <==> InRegion(rs[j].conds, x)
  }

  lemma NoClauses(rs: seq<Rule>, n: nat)
    requires RulesSized(rs, n)
    ensures ClausesOk(rs, [], n)
  {
  }

  lemma OneMoreClause(rs: seq<Rule>, clauses: seq<Expr>, clause: Expr, n: nat)
    requires ClausesOk(rs, clauses, n) && |clauses| < |rs|
    requires forall x: State, k | |x| == n :: Truth(clause, EnvOf(x, k)) <==> InRegion(rs[|clauses|].conds, x)
    ensures ClausesOk(rs, clauses + [clause], n)
  {
    hide Truth, EnvOf, InRegion;
  }


  class Transf {
    const n: nat
    const solver: Solver
    var transMap: seq<Entry>
    var rc: Option<Expr>
    var lastRunIterCount: nat

    /** The rules behind the region objects. */
    ghost var rules: seq<Rule>

    ghost function Regions(): set<Region>
      reads this`transMap
    {
      set e | e in transMap :: e.region
    }

    ghost predicate Valid()
      reads this`transMap, this`rules, Regions()
    {
      && solver.Faithful(n) && RulesSized(rules, n)
      && |rules| == |transMap|
      && (forall i | 0 <= i < |transMap| ::
            && transMap[i].region in Regions() && transMap[i].region.n == n && transMap[i].region.Valid()
            && |transMap[i].delta| == n && rules[i] == Rule(transMap[i].region.conds, transMap[i].delta))
      && (forall i, j | 0 <= i < j < |transMap| :: transMap[i].region != transMap[j].region)
    }

    /** `kExtend` was called: regions know their translation, and `rc` is the complement of all regions unless it is empty. */
    ghost predicate Extended()
      reads this`transMap, this`rules, this`rc, Regions()
    {
      && Valid()
      && (forall i | 0 <= i < |transMap| :: transMap[i].region.ExtendedFor(transMap[i].delta))
      && ComplementOk(rules, rc, n)
    }

    constructor (n: nat, solver: Solver)
      requires solver.Faithful(n)
      ensures Valid() && this.n == n && this.solver == solver && transMap == [] && rules == [] && rc == None
    {
      this.n, this.solver := n, solver;
      transMap, rules, rc, lastRunIterCount := [], [], None, 0;
    }

    /** `addMap`, which ignores translations of the wrong length. */
    method AddMap(r: Region, deltas: seq<int>)
      requires Valid() && r.n == n && r.Valid() && r !in Regions()
      modifies this`transMap, this`rules
      ensures Valid()
      ensures transMap == if |deltas| == n then old(transMap) + [Entry(r, deltas)] else old(transMap)
      ensures rules == if |deltas| == n then old(rules) + [Rule(r.conds, deltas)] else old(rules)
    {
      if |deltas| != n { return; }
      transMap := transMap + [Entry(r, deltas)];
      rules := rules + [Rule(r.conds, deltas)];
    }

    /** `kExtend`. */
    method KExtend()
      requires Valid()
      modifies this`rc, Regions()
      ensures Extended() && rules == old(rules) && transMap == old(transMap)
    {
      hide Truth, EnvOf, ComplementOk, InRegion, Grows, ClausesOk;
      NoClauses(rules, n);
      var clauses: seq<Expr> := [];
      for i := 0 to |transMap|
        invariant Valid() && |clauses| == i && rules == old(rules)
        invariant forall j | 0 <= j < i :: transMap[j].region.ExtendedFor(transMap[j].delta)
        invariant ClausesOk(rules, clauses, n)
      {
        transMap[i].region.KExtend(transMap[i].delta);
        var clause := transMap[i].region.ToExpr();
        OneMoreClause(rules, clauses, clause, n);
        clauses := clauses + [clause];
      }
      rc := Complement(rules, clauses);
    }

    /** The complement of all regions, or nothing if the solver finds it empty. */
    method Complement(ghost rs: seq<Rule>, clauses: seq<Expr>) returns (c: Option<Expr>)
      requires solver.Faithful(n) && RulesSized(rs, n) && |clauses| == |rs| && ClausesOk(rs, clauses, n)
      ensures ComplementOk(rs, c, n)
    {
      hide Truth, EnvOf;
      var comp := Neg(Any(clauses));
      forall x: State, k | |x| == n ensures Truth(comp, EnvOf(x, k)) <==> Outside(rs, x) {
        AnyMeaning(clauses, EnvOf(x, k));
      }
      c := if solver.sat(comp) then Some(solver.simp(comp)) else None;
    }

    /** The disjunct of `localExpand` for one region. */
    method LocalClause(e: Entry, input: Expr) returns (clause: Expr)
      requires e.region.n == n && e.region.ExtendedFor(e.delta) && StateFormula(input, n)
      ensures forall x: State, k | |x| == n ::
                Truth(clause, EnvOf(x, k)) <==> k >= 0 && InKRegion(e.region.conds, e.delta, x, k) && Meets(input, Back(x, k, e.delta))
    {
      hide Truth, EnvOf, InKRegion;
      var inside := e.region.ToKExpr();
      var start := ShiftFormula(input, e.delta, ByK);
      var nonneg := Plain(Cmp(Ge, Var(K), Num(0)));
      clause := All([inside, start, nonneg]);
      forall x: State, k | |x| == n
        ensures Truth(clause, EnvOf(x, k)) <==> k >= 0 && InKRegion(e.region.conds, e.delta, x, k) && Meets(input, Back(x, k, e.delta))
      {
        AllMeaning([inside, start, nonneg], EnvOf(x, k));
        NonNegative(x, k);
        assert [inside, start, nonneg][0] == inside && [inside, start, nonneg][1] == start && [inside, start, nonneg][2] == nonneg;
        assert Truth(start, EnvOf(x, k)) == Truth(input, EnvOf(Back(x, k, e.delta), k));
      }
    }

    /** `localExpand`. */
    method LocalExpand(input: Expr) returns (r: Expr)
      requires Extended() && StateFormula(input, n)
      ensures StateFormula(r, n)
      ensures forall x: State | |x| == n :: Meets(r, x) <==> LocallyExpanded(rules, input, x)
    {
      hide Truth, EnvOf, LocallyExpanded, ComplementOk, InKRegion;
      var clauses: seq<Expr> := [];
      for i := 0 to |transMap|
        invariant |clauses| == i
        invariant forall j, x: State, k | 0 <= j < i && |x| == n ::
                    Truth(clauses[j], EnvOf(x, k)) <==>
                    k >= 0 && InKRegion(rules[j].conds, rules[j].delta, x, k) && Meets(input, Back(x, k, rules[j].delta))
      {
        var clause := LocalClause(transMap[i], input);
        clauses := clauses + [clause];
      }
      var some := Exists(K, map[], Any(clauses));
      r := solver.simp(solver.qe(Any([some, input])));
      forall x: State, k | |x| == n ensures Truth(Any([some, input]), EnvOf(x, k)) <==> LocallyExpanded(rules, input, x) {
        LocalMeaning(rules, input, clauses, x);
        SomeStepCount(Any(clauses), x, k);
        EitherMeaning(some, input, EnvOf(x, k));
        assert Truth(input, EnvOf(x, k)) == Meets(input, x);
      }
    }

    method RegionFormula(r: Region) returns (f: Expr)
      requires r.n == n && r.Valid()
      ensures StateFormula(f, n) && forall x: State | |x| == n :: Meets(f, x) <==> InRegion(r.conds, x)
    {
      hide Truth, EnvOf;
      f := r.ToExpr();
      forall x: State, k | |x| == n ensures Truth(f, EnvOf(x, k)) == Meets(f, x) {
        assert Truth(f, EnvOf(x, k)) <==> InRegion(r.conds, x);
      }
    }

    /** The formula and the translation of every region, in order. */
    method RegionFormulas() returns (fs: seq<Expr>, ds: seq<seq<int>>)
      requires Extended()
      ensures RegionFormulasOk(rules, fs, ds, n)
    {
      hide Truth, EnvOf, Meets, StateFormula, InRegion, ComplementOk;
      fs, ds := [], [];
      for i := 0 to |transMap|
        invariant |fs| == |ds| == i
        invariant forall j | 0 <= j < i :: FormulaFor(rules[j], fs[j], ds[j], n)
      {
        var f := RegionFormula(transMap[i].region);
        fs, ds := fs + [f], ds + [transMap[i].delta];
      }
    }

    /** `switchExpand`. */
    method SwitchExpand(input: Expr) returns (r: Expr)
      requires Extended() && StateFormula(input, n)
      ensures StateFormula(r, n)
      ensures forall x: State | |x| == n :: Meets(r, x) <==> SwitchExpanded(rules, input, x)
    {
      hide Truth, EnvOf, StateFormula, ComplementOk, SwitchExpanded, RegionFormulasOk;
      var fs, ds := RegionFormulas();
      var clauses := SwitchClauses(rules, fs, ds, rc, input, n);
      AnyOfStateFormulas(clauses, n);
      r := solver.simp(Any(clauses));
    }

    /** `isExpanded`: some state tells the two apart. */
    method IsExpanded(before: Expr, after: Expr) returns (b: bool)
      requires solver.Faithful(n) && StateFormula(before, n) && StateFormula(after, n)
      ensures !b <==> forall x: State | |x| == n :: Meets(before, x) == Meets(after, x)
    {
      hide EnvOf;
      var q := Neg(Same(before, after));
      forall x: State, k | |x| == n ensures Truth(q, EnvOf(x, k)) <==> Meets(before, x) != Meets(after, x) {
        assert Truth(before, EnvOf(x, k)) == Meets(before, x) && Truth(after, EnvOf(x, k)) == Meets(after, x);
      }
      b := solver.sat(q);
    }

    /**
     `run`.  The result holds of reachable states only; when the loop ended because nothing changed, it holds of
     exactly the reachable states, and is closed under steps.
     */
    method Run(pre: Expr) returns (r: Expr, stable: bool)
      requires Extended() && StateFormula(pre, n)
      modifies this`lastRunIterCount
      ensures Extended() && rules == old(rules) && lastRunIterCount <= 9
      ensures forall x: State | |x| == n && Meets(pre, x) :: Meets(r, x)
      ensures forall x: State | |x| == n && Meets(r, x) :: Reached(rules, pre, x)
      ensures stable ==> forall x: State | |x| == n :: Meets(r, x) <==> Reached(rules, pre, x)
      ensures stable ==> forall x: State, y: State | |x| == |y| == n && Meets(r, x) && Step(rules, x, y) :: Meets(r, y)
      ensures 1 <= lastRunIterCount && (stable || lastRunIterCount == 9)
      ensures Rounds(rules, pre, r, n, lastRunIterCount)
      ensures forall j: nat | j < (if stable then lastRunIterCount - 1 else 9) :: Adds(rules, pre, n, j)
      ensures (forall x: State | |x| == n && Reached(rules, pre, x) :: WithinStretches(rules, pre, x, 8)) ==> stable
    {
      hide Truth, EnvOf, StateFormula, Step, Meets, LocallyExpanded, SwitchExpanded, ComplementOk, Reached, RulesSized, Sized, Satisfiable,
        WithinStretches, Adds, Rounds, SameStates;
      var init := pre;
      lastRunIterCount := 0;
      NoRound(rules, pre, n);
      while true
        invariant Extended() && rules == old(rules) && StateFormula(init, n) && lastRunIterCount <= 8
        invariant Rounds(rules, pre, init, n, lastRunIterCount) && forall j: nat | j < lastRunIterCount :: Adds(rules, pre, n, j)
        decreases 9 - lastRunIterCount
      {
        lastRunIterCount := lastRunIterCount + 1;
        var local := LocalExpand(init);
        var expanded := SwitchExpand(local);
        OneMoreRound(rules, pre, init, local, expanded, n, lastRunIterCount - 1);
        var more := IsExpanded(init, expanded);
        RoundsBetween(rules, pre, init, n, lastRunIterCount - 1);
        RoundsBetween(rules, pre, expanded, n, lastRunIterCount);
        if !more {
          RunDone(rules, pre, init, local, expanded, n);
          return expanded, true;
        }
        RoundAdds(rules, pre, init, expanded, n, lastRunIterCount - 1);
        init := expanded;
        if lastRunIterCount > 8 {
          StillMoreStretches(rules, pre, n, 8);
          return expanded, false;
        }
      }
    }
  }

  lemma NoRound(rules: seq<Rule>, pre: Expr, n: nat)
    requires RulesSized(rules, n)
    ensures Rounds(rules, pre, pre, n, 0)
  {
  }

  lemma OneMoreRound(rules: seq<Rule>, pre: Expr, f: Expr, g: Expr, e: Expr, n: nat, count: nat)
    requires RulesSized(rules, n) && Rounds(rules, pre, f, n, count)
    requires forall x: State | |x| == n :: Meets(g, x) <==> LocallyExpanded(rules, f, x)
    requires forall x: State | |x| == n :: Meets(e, x) <==> SwitchExpanded(rules, g, x)
    ensures Rounds(rules, pre, e, n, count + 1)
  {
    hide Meets, LocallyExpanded, SwitchExpanded, Rounds;
    assert IsRound(rules, f, g, e, n);
    NextRound(rules, pre, f, g, e, n, count);
  }

  lemma NextRound(rules: seq<Rule>, pre: Expr, f: Expr, g: Expr, e: Expr, n: nat, count: nat)
    requires RulesSized(rules, n) && Rounds(rules, pre, f, n, count) && IsRound(rules, f, g, e, n)
    ensures Rounds(rules, pre, e, n, count + 1)
  {
    hide IsRound;
  }

  lemma RoundAdds(rules: seq<Rule>, pre: Expr, f: Expr, e: Expr, n: nat, count: nat)
    requires RulesSized(rules, n) && Rounds(rules, pre, f, n, count) && Rounds(rules, pre, e, n, count + 1)
    requires exists x: State :: |x| == n && Meets(f, x) != Meets(e, x)
    ensures Adds(rules, pre, n, count)
  {
    hide Meets, Rounds;
    assert !SameStates(f, e, n);
  }

  lemma ReachedAtStart(rules: seq<Rule>, pre: Expr, x: State)
    requires RulesSized(rules, |x|) && Meets(pre, x)
    ensures Reached(rules, pre, x)
  {
    assert ReachedIn(rules, pre, x, 0);
  }

  ghost predicate FormulaFor(r: Rule, f: Expr, d: seq<int>, n: nat) {
    Sized(r.conds, n) && |d| == n && r.delta == d && StateFormula(f, n) && forall x: State | |x| == n :: Meets(f, x) <==> InRegion(r.conds, x)
  }

  ghost predicate RegionFormulasOk(rules: seq<Rule>, fs: seq<Expr>, ds: seq<seq<int>>, n: nat) {
    |fs| == |rules| == |ds| && forall j | 0 <= j < |rules| :: FormulaFor(rules[j], fs[j], ds[j], n)
  }

  /** `rc` describes the states outside all regions; without it there are none. */
  ghost predicate ComplementOk(rules: seq<Rule>, rc: Option<Expr>, n: nat)
    requires RulesSized(rules, n)
  {
    && (rc.Some? ==> StateFormula(rc.value, n) && forall x: State | |x| == n :: Meets(rc.value, x) <==> Outside(rules, x))
    && (rc.None? ==> forall x: State | |x| == n :: !Outside(rules, x))
  }

  /** One disjunct of `switchExpand`: a state of `input` in `orig`, one step later in `dest`. */
  method SwitchClause(orig: Expr, dest: Expr, input: Expr, d: seq<int>, n: nat) returns (clause: Expr)
    requires |d| == n && StateFormula(orig, n) && StateFormula(dest, n) && StateFormula(input, n)
    ensures StateFormula(clause, n)
    ensures forall x: State | |x| == n ::
              Meets(clause, x) <==> Meets(orig, Back(x, 1, d)) && Meets(dest, x) && Meets(input, Back(x, 1, d))
  {
    hide Truth, EnvOf;
    var from := ShiftFormula(orig, d, ByOne);
    var start := ShiftFormula(input, d, ByOne);
    clause := All([from, dest, start]);
    forall x: State, k | |x| == n
      ensures Truth(clause, EnvOf(x, k)) <==> Meets(orig, Back(x, 1, d)) && Meets(dest, x) && Meets(input, Back(x, 1, d))
    {
      AllMeaning([from, dest, start], EnvOf(x, k));
      assert [from, dest, start][0] == from && [from, dest, start][1] == dest && [from, dest, start][2] == start;
      assert Truth(from, EnvOf(x, k)) == Truth(orig, EnvOf(Back(x, 1, d), k));
      assert Truth(start, EnvOf(x, k)) == Truth(input, EnvOf(Back(x, 1, d), k));
      assert Truth(dest, EnvOf(x, k)) == Meets(dest, x);
    }
  }

  lemma SwitchedBelowNext(rules: seq<Rule>, f: Expr, x: State, i: nat, m: nat)
    requires RulesSized(rules, |x|) && i < |rules| && m < |rules|
    ensures SwitchedBelow(rules, f, x, i, m + 1) <==>
              || SwitchedBelow(rules, f, x, i, m)
              || (m != i && Meets(f, Back(x, 1, rules[i].delta)) && InRegion(rules[i].conds, Back(x, 1, rules[i].delta))
                  && InRegion(rules[m].conds, x))
    ensures !SwitchedBelow(rules, f, x, i, 0)
  {
  }

  /** The disjuncts of `switchExpand` for steps from region `i` into another region. */
  method SwitchRow(ghost rules: seq<Rule>, fs: seq<Expr>, ds: seq<seq<int>>, i: nat, input: Expr, n: nat) returns (clauses: seq<Expr>)
    requires RulesSized(rules, n) && RegionFormulasOk(rules, fs, ds, n) && StateFormula(input, n) && i < |fs|
    ensures StateFormulas(clauses, n)
    ensures forall x: State | |x| == n :: AnySat(clauses, x) <==> SwitchedBelow(rules, input, x, i, |rules|)
  {
    hide Meets, AnySat, StateFormula, InRegion, Back, SwitchedBelow;
    clauses := [];
    assert FormulaFor(rules[i], fs[i], ds[i], n);
    forall x: State | |x| == n ensures !AnySat([], x) && !SwitchedBelow(rules, input, x, i, 0) {
      NoneSat(x);
      SwitchedBelowNext(rules, input, x, i, 0);
    }
    for j := 0 to |fs|
      invariant StateFormulas(clauses, n)
      invariant forall x: State | |x| == n :: AnySat(clauses, x) <==> SwitchedBelow(rules, input, x, i, j)
    {
      if j != i {
        assert FormulaFor(rules[j], fs[j], ds[j], n);
        var clause := SwitchClause(fs[i], fs[j], input, ds[i], n);
        forall x: State | |x| == n ensures AnySat(clauses + [clause], x) <==> AnySat(clauses, x) || Meets(clause, x) {
          AnySatAppend(clauses, clause, x);
        }
        clauses := clauses + [clause];
      }
      forall x: State | |x| == n ensures AnySat(clauses, x) <==> SwitchedBelow(rules, input, x, i, j + 1) {
        SwitchedBelowNext(rules, input, x, i, j);
      }
    }
  }

  /** The disjuncts for steps from region `i` into another region or out of all regions. */
  method SwitchRowAndExit(ghost rules: seq<Rule>, fs: seq<Expr>, ds: seq<seq<int>>, rc: Option<Expr>, i: nat, input: Expr, n: nat)
    returns (row: seq<Expr>)
    requires RulesSized(rules, n) && RegionFormulasOk(rules, fs, ds, n) && ComplementOk(rules, rc, n)
    requires StateFormula(input, n) && i < |fs|
    ensures StateFormulas(row, n)
    ensures forall x: State | |x| == n :: AnySat(row, x) <==> Switched(rules, input, x, i)
  {
    hide Meets, AnySat, StateFormula, InRegion, Back, Outside;
    row := SwitchRow(rules, fs, ds, i, input, n);
    if rc.Some? {
      assert FormulaFor(rules[i], fs[i], ds[i], n);
      var clause := SwitchClause(fs[i], rc.value, input, ds[i], n);
      forall x: State | |x| == n ensures AnySat(row + [clause], x) <==> Switched(rules, input, x, i) {
        AnySatAppend(row, clause, x);
      }
      row := row + [clause];
    }
  }

  /** All disjuncts of `switchExpand`, the input last. */
  method SwitchClauses(ghost rules: seq<Rule>, fs: seq<Expr>, ds: seq<seq<int>>, rc: Option<Expr>, input: Expr, n: nat)
    returns (clauses: seq<Expr>)
    requires RulesSized(rules, n) && RegionFormulasOk(rules, fs, ds, n) && ComplementOk(rules, rc, n) && StateFormula(input, n)
    ensures StateFormulas(clauses, n)
    ensures forall x: State | |x| == n :: AnySat(clauses, x) <==> SwitchExpanded(rules, input, x)
  {
    hide Meets, AnySat, StateFormula, Switched, ComplementOk, RegionFormulasOk;
    assert |fs| == |rules| by { SameLengths(rules, fs, ds, n); }
    clauses := [];
    forall x: State | |x| == n ensures !AnySat([], x) { NoneSat(x); }
    for i := 0 to |fs|
      invariant StateFormulas(clauses, n)
      invariant forall x: State | |x| == n ::
                  AnySat(clauses, x) <==> exists m :: 0 <= m < i && Switched(rules, input, x, m)
    {
      var row := SwitchRowAndExit(rules, fs, ds, rc, i, input, n);
      forall x: State | |x| == n
        ensures AnySat(clauses + row, x) <==> exists m :: 0 <= m < i + 1 && Switched(rules, input, x, m)
      {
        AnySatConcat(clauses, row, x);
      }
      clauses := clauses + row;
    }
    forall x: State | |x| == n ensures AnySat(clauses + [input], x) <==> SwitchExpanded(rules, input, x) {
      AnySatAppend(clauses, input, x);
    }
    clauses := clauses + [input];
  }

  lemma SameLengths(rules: seq<Rule>, fs: seq<Expr>, ds: seq<seq<int>>, n: nat)
    requires RegionFormulasOk(rules, fs, ds, n)
    ensures |fs| == |rules| == |ds|
  {
  }

  lemma NoneSat(x: State)
    ensures !AnySat([], x)
  {
  }

  lemma AnyOfStateFormulas(fs: seq<Expr>, n: nat)
    requires StateFormulas(fs, n)
    ensures StateFormula(Any(fs), n) && forall x: State | |x| == n :: Meets(Any(fs), x) <==> AnySat(fs, x)
  {
    hide EnvOf, Truth;
    forall x: State, k | |x| == n ensures Truth(Any(fs), EnvOf(x, k)) <==> AnySat(fs, x) {
      AnyMeaning(fs, EnvOf(x, k));
      forall i | 0 <= i < |fs| ensures Truth(fs[i], EnvOf(x, k)) == Meets(fs[i], x) {
        assert StateFormula(fs[i], n);
      }
    }
  }

  /** The rounds keep the set between `pre` and the reachable states. */
  lemma {:induction false} RoundsBetween(rules: seq<Rule>, pre: Expr, e: Expr, n: nat, count: nat)
    requires RulesSized(rules, n) && Rounds(rules, pre, e, n, count)
    ensures forall x: State | |x| == n && Meets(pre, x) :: Meets(e, x)
    ensures forall x: State | |x| == n && Meets(e, x) :: Reached(rules, pre, x)
    decreases count
  {
    hide Meets, Reached, IsRound;
    forall x: State | |x| == n && Meets(e, x) ensures Reached(rules, pre, x) { RoundsAreReached(rules, pre, e, x, count); }
    if count > 0 {
      var f, g :| Rounds(rules, pre, f, n, count - 1) && IsRound(rules, f, g, e, n);
      RoundsBetween(rules, pre, f, n, count - 1);
      forall x: State | |x| == n && Meets(f, x) ensures Meets(e, x) { RoundKeeps(rules, f, g, e, x); }
    }
  }

  lemma StillMoreStretches(rules: seq<Rule>, pre: Expr, n: nat, count: nat)
    requires RulesSized(rules, n) && Adds(rules, pre, n, count)
    ensures exists x: State :: |x| == n && Reached(rules, pre, x) && !WithinStretches(rules, pre, x, count)
  {
    hide Reached, WithinStretches, Adds;
    if forall x: State | |x| == n && Reached(rules, pre, x) :: WithinStretches(rules, pre, x, count) {
      FewStretchesAreDone(rules, pre, n, count);
      assert false;
    }
  }

  /** When an iteration changes nothing, the set is closed and consists of exactly the reachable states. */
  lemma RunDone(rules: seq<Rule>, pre: Expr, init: Expr, local: Expr, expanded: Expr, n: nat)
    requires RulesSized(rules, n)
    requires forall x: State | |x| == n && Meets(pre, x) :: Meets(init, x)
    requires forall x: State | |x| == n :: Meets(local, x) <==> LocallyExpanded(rules, init, x)
    requires forall x: State | |x| == n :: Meets(expanded, x) <==> SwitchExpanded(rules, local, x)
    requires forall x: State | |x| == n :: Meets(init, x) == Meets(expanded, x)
    ensures forall x: State, y: State | |x| == |y| == n && Meets(expanded, x) && Step(rules, x, y) :: Meets(expanded, y)
    ensures forall x: State | |x| == n && Reached(rules, pre, x) :: Meets(expanded, x)
  {
    hide Meets, Step, ReachedIn, LocallyExpanded, SwitchExpanded;
    forall x: State, y: State | |x| == |y| == n && Meets(init, x) && Step(rules, x, y) ensures Meets(init, y) {
      NoChangeIsClosed(rules, init, local, x, y);
    }
    forall x: State | |x| == n && Reached(rules, pre, x) ensures Meets(expanded, x) {
      var steps: nat :| ReachedIn(rules, pre, x, steps);
      ClosedContainsReached(rules, pre, init, x, steps);
    }
  }

  /** Some formula of the list holds. */
  ghost predicate AnySat(fs: seq<Expr>, x: State) { exists i :: 0 <= i < |fs| && Meets(fs[i], x) }

  ghost predicate StateFormulas(fs: seq<Expr>, n: nat) { forall i | 0 <= i < |fs| :: StateFormula(fs[i], n) }

  lemma AnySatAppend(fs: seq<Expr>, f: Expr, x: State)
    ensures AnySat(fs + [f], x) <==> AnySat(fs, x) || Meets(f, x)
  {
    assert (fs + [f])[|fs|] == f;
    forall i | 0 <= i < |fs| ensures (fs + [f])[i] == fs[i] {
    }
  }

  lemma AnySatConcat(fs: seq<Expr>, gs: seq<Expr>, x: State)
    ensures AnySat(fs + gs, x) <==> AnySat(fs, x) || AnySat(gs, x)
  {
    forall i | 0 <= i < |gs| ensures (fs + gs)[|fs| + i] == gs[i] {
    }
    forall i | 0 <= i < |fs| ensures (fs + gs)[i] == fs[i] {
    }
  }

  /** One step of rule `i` from `f` into the region of another rule below `m`. */
  ghost predicate SwitchedBelow(rules: seq<Rule>, f: Expr, x: State, i: nat, m: nat)
    requires RulesSized(rules, |x|) && i < |rules| && m <= |rules|
  {
    && Meets(f, Back(x, 1, rules[i].delta)) && InRegion(rules[i].conds, Back(x, 1, rules[i].delta))
    && exists j :: 0 <= j < m && j != i && InRegion(rules[j].conds, x)
  }

  lemma NonNegative(x: State, k: int)
    ensures Truth(Plain(Cmp(Ge, Var(K), Num(0))), EnvOf(x, k)) <==> k >= 0
  {
    NonNegativeIn(EnvOf(x, k));
    assert EnvOf(x, k).ints(K) == k;
    hide EnvOf;
  }

  lemma NonNegativeIn(env: Env)
    ensures Truth(Plain(Cmp(Ge, Var(K), Num(0))), env) <==> env.ints(K) >= 0
  {
  }

  /** Some `k` satisfies some disjunct exactly when a path inside one region leads to `x`. */
  lemma LocalMeaning(rules: seq<Rule>, input: Expr, clauses: seq<Expr>, x: State)
    requires RulesSized(rules, |x|) && |clauses| == |rules|
    requires forall j, k | 0 <= j < |rules| ::
               Truth(clauses[j], EnvOf(x, k)) <==>
               k >= 0 && InKRegion(rules[j].conds, rules[j].delta, x, k) && Meets(input, Back(x, k, rules[j].delta))
    ensures ((exists k :: Truth(Any(clauses), EnvOf(x, k))) || Meets(input, x)) <==> LocallyExpanded(rules, input, x)
  {
    hide Truth, EnvOf, InKRegion, Meets;
    forall j, k: nat | 0 <= j < |rules|
      ensures Truth(clauses[j], EnvOf(x, k)) <==> PathFrom(rules[j], input, x, k)
    {
      assert rules[j] in rules;
      KRegionIsPath(rules[j].conds, rules[j].delta, x, k);
    }
    if k :| Truth(Any(clauses), EnvOf(x, k)) {
      AnyMeaning(clauses, EnvOf(x, k));
      var j :| 0 <= j < |rules| && Truth(clauses[j], EnvOf(x, k));
      assert PathFrom(rules[j], input, x, k);
    }
    if j, k: nat :| 0 <= j < |rules| && PathFrom(rules[j], input, x, k) {
      assert Truth(clauses[j], EnvOf(x, k));
      AnyMeaning(clauses, EnvOf(x, k));
    }
  }
}
