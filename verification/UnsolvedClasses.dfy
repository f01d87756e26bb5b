/**
 Classes of variables that get no answer.  When the answers for the others are enough, when not, and which classes can
 be left without one.
 */
module UnsolvedClasses {
  import opened Wrappers
  import opened Logic
  import opened Regions
  import opened Decomposition
  import VarsRelation

  // ---- states as formulas ----

  /** The state `x` on the class, for the variables before `i`. */
  function Pins(x: State, c: Class, i: nat): seq<Formula>
    requires i <= |x|
  {
    if i == 0 then [] else Pins(x, c, i - 1) + if i - 1 in c then [Cmp(Eq, Var(Cur(i - 1)), Num(x[i - 1]))] else []
  }

  /** The formula of the states that agree with `x` on the class. */
  function Pinned(x: State, c: Class): Formula { And(Pins(x, c, |x|)) }

  lemma EqualsMeaning(y: State, i: nat, k: int)
    requires i < |y|
    ensures Eval(Cmp(Eq, Var(Cur(i)), Num(k)), EnvOf(y, 0)) <==> y[i] == k
  {
    EqualsIn(Cur(i), k, EnvOf(y, 0));
    hide Eval;
    StateValue(y, i);
  }

  lemma EqualsIn(v: Name, k: int, env: Env)
    ensures Eval(Cmp(Eq, Var(v), Num(k)), env) <==> env.ints(v) == k
  {
  }

  lemma StateValue(x: State, i: nat)
    requires i < |x|
    ensures EnvOf(x, 0).ints(Cur(i)) == x[i]
  {
  }

  lemma AllEvalSnoc(fs: seq<Formula>, f: Formula, env: Env)
    ensures AllEval(fs + [f], env) <==> AllEval(fs, env) && Eval(f, env)
    ensures AllEval([], env)
  {
    hide Eval;
    assert forall j | 0 <= j < |fs| :: (fs + [f])[j] == fs[j];
    assert (fs + [f])[|fs|] == f;
  }

  lemma {:induction false} PinsMeaning(x: State, y: State, c: Class, i: nat)
    requires |x| == |y| && i <= |x|
    ensures AllEval(Pins(x, c, i), EnvOf(y, 0)) <==> forall j | 0 <= j < i && j in c :: x[j] == y[j]
  {
    hide Eval, EnvOf, AllEval;
    if i == 0 {
      AllEvalSnoc([], True, EnvOf(y, 0));
    } else {
      PinsMeaning(x, y, c, i - 1);
      if i - 1 in c {
        var f := Cmp(Eq, Var(Cur(i - 1)), Num(x[i - 1]));
        AllEvalSnoc(Pins(x, c, i - 1), f, EnvOf(y, 0));
        EqualsMeaning(y, i - 1, x[i - 1]);
      } else {
        assert Pins(x, c, i) == Pins(x, c, i - 1) + [];
        assert Pins(x, c, i - 1) + [] == Pins(x, c, i - 1);
      }
    }
  }

  lemma PinnedMeaning(x: State, y: State, c: Class)
    requires |x| == |y|
    ensures Sat(Pinned(x, c), y) <==> Agree(x, y, c)
    ensures Sat(Not(Pinned(x, c)), y) <==> !Agree(x, y, c)
  {
    PinsMeaning(x, y, c, |x|);
    assert AllEval(Pins(x, c, |x|), EnvOf(y, 0)) == Sat(Pinned(x, c), y);
  }

  lemma FalseMeaning(x: State, y: State)
    ensures !Sat(False, x) && !SatPair(False, x, y) && Sat(True, x)
  {
  }

  // ---- the exact condition for the goal ----

  function PinnedOn(x: State, cs: seq<Class>, positive: bool): (fs: seq<Formula>)
    ensures |fs| == |cs|
  {
    seq(|cs|, k requires 0 <= k < |cs| => if positive then Pinned(x, cs[k]) else Not(Pinned(x, cs[k])))
  }

  /** Whatever the rest of the problem and the answers are, their conjunction is an invariant. */
  ghost predicate GoalIsSafe(post: Formula, cs: seq<Class>, n: nat) {
    forall p: Problem, invs, inv | p.n == n && p.post == post && SubInvariants(RecPost, p, cs, invs) && Combines(RecPost, invs, inv) :: Invariant(p, inv)
  }

  lemma AgreeThen(x: State, y: State, u: State, c: Class)
    requires Agree(x, y, c) && Agree(x, u, c)
    ensures Agree(y, u, c)
  {
  }

  /** The states that agree with `x` on the class answer the subproblem with nothing to start from and no steps. */
  lemma PinnedAnswers(post: Formula, c: Class, x: State)
    requires Somewhere(post, c, x)
    ensures SubInvariant(RecPost, Problem(|x|, False, False, post), c, Pinned(x, c))
  {
    hide Sat, SatPair, Agree, Pinned;
    var p := Problem(|x|, False, False, post);
    forall y: State, z: State ensures !Sat(False, y) && !SatPair(False, y, z) { FalseMeaning(y, z); }
    forall y: State | |y| == |x| && Sat(Pinned(x, c), y) ensures SubPost(RecPost, p, c, y) {
      PinnedMeaning(x, y, c);
      var u :| Agree(x, u, c) && Sat(post, u);
      AgreeThen(x, y, u, c);
      assert Agree(y, u, c) && Sat(post, u);
    }
    forall y: State ensures !Sat(False, y) { FalseMeaning(y, y); }
    forall y: State | |y| == |x| ensures !SubPre(RecPost, p, c, y) {}
    forall y: State, z: State ensures !SubTrans(RecPost, p, c, y, z) {}
  }

  lemma UnkeptGoalFails(post: Formula, cs: seq<Class>, x: State)
    requires !Sat(post, x) && forall k | 0 <= k < |cs| :: Somewhere(post, cs[k], x)
    ensures !GoalIsSafe(post, cs, |x|)
  {
    hide Sat, SatPair, Agree, Pinned, Eval, SubInvariant, Somewhere;
    var p := Problem(|x|, False, False, post);
    var invs := PinnedOn(x, cs, true);
    var inv := And(invs);
    forall k | 0 <= k < |cs| ensures SubInvariant(RecPost, p, cs[k], invs[k]) { PinnedAnswers(post, cs[k], x); }
    forall env ensures Eval(inv, env) <==> AllEval(invs, env) { ConnectiveMeanings(invs, env); }
    forall k | 0 <= k < |cs| ensures Sat(invs[k], x) {
      AgreeSelf(x, cs[k]);
      PinnedMeaning(x, x, cs[k]);
    }
    SatOfAll(invs, inv, x);
    assert Combines(RecPost, invs, inv) && SubInvariants(RecPost, p, cs, invs);
    assert !Invariant(p, inv);
  }

  lemma ConnectiveMeanings(fs: seq<Formula>, env: Env)
    ensures Eval(And(fs), env) <==> AllEval(fs, env)
    ensures Eval(Or(fs), env) <==> SomeEval(fs, env)
  {
  }

  lemma SatOfAll(fs: seq<Formula>, f: Formula, x: State)
    requires forall env :: Eval(f, env) <==> AllEval(fs, env)
    ensures Sat(f, x) <==> forall k | 0 <= k < |fs| :: Sat(fs[k], x)
  {
    hide Eval, EnvOf;
    assert Eval(f, EnvOf(x, 0)) <==> AllEval(fs, EnvOf(x, 0));
  }

  lemma SatOfSome(fs: seq<Formula>, f: Formula, x: State)
    requires forall env :: Eval(f, env) <==> SomeEval(fs, env)
    ensures Sat(f, x) <==> exists k :: 0 <= k < |fs| && Sat(fs[k], x)
  {
    hide Eval, EnvOf;
    assert Eval(f, EnvOf(x, 0)) <==> SomeEval(fs, EnvOf(x, 0));
  }

  /** The answers for some classes always combine to an invariant exactly where these classes keep the goal. */
  lemma GoalIsExact(post: Formula, cs: seq<Class>, n: nat)
    ensures GoalIsSafe(post, cs, n) <==> GoalKept(post, cs, n)
  {
    hide Sat, Eval, SubInvariants, Invariant, Somewhere;
    if GoalKept(post, cs, n) {
      forall p: Problem, invs, inv | p.n == n && p.post == post && SubInvariants(RecPost, p, cs, invs) && Combines(RecPost, invs, inv)
        ensures Invariant(p, inv)
      {
        CombinationIsInvariant(RecPost, p, cs, invs, inv);
      }
    } else {
      var x: State :| |x| == n && (forall k | 0 <= k < |cs| :: Somewhere(post, cs[k], x)) && !Sat(post, x);
      UnkeptGoalFails(post, cs, x);
    }
  }

  // ---- the exact condition for the start ----

  /** Whatever the rest of the problem and the answers are, their disjunction is an invariant, if the step passes its test. */
  ghost predicate StartIsSafe(pre: Formula, cs: seq<Class>, n: nat) {
    forall p: Problem, invs, inv | p.n == n && p.pre == pre && StepPasses(p.trans, cs, n) && SubInvariants(CrossPre, p, cs, invs) && Combines(CrossPre, invs, inv) ::
      Invariant(p, inv)
  }

  /** All states but those that agree with `x` on the class answer the subproblem without steps and with any goal. */
  lemma UnpinnedAnswers(pre: Formula, c: Class, x: State)
    requires !Everywhere(pre, c, x)
    ensures SubInvariant(CrossPre, Problem(|x|, pre, False, True), c, Not(Pinned(x, c)))
  {
    hide Sat, SatPair, Agree, Pinned;
    var p := Problem(|x|, pre, False, True);
    var a := Not(Pinned(x, c));
    forall y: State, z: State ensures !SatPair(False, y, z) { FalseMeaning(y, z); }
    forall y: State ensures Sat(True, y) { FalseMeaning(y, y); }
    forall y: State | |y| == |x| && SubPre(CrossPre, p, c, y) ensures Sat(a, y) {
      PinnedMeaning(x, y, c);
      if Agree(x, y, c) {
        var u :| Agree(x, u, c) && !Sat(pre, u);
        AgreeThen(x, y, u, c);
        assert false;
      }
    }
    forall y: State, z: State | |y| == |z| == |x| ensures !SubTrans(CrossPre, p, c, y, z) {
      AgreeSelf(y, c);
      AgreeSelf(z, c);
    }
    forall y: State ensures SubPost(CrossPre, p, c, y) {
      assert forall u | Agree(y, u, c) :: Sat(True, u);
    }
  }

  lemma UnkeptStartFails(pre: Formula, cs: seq<Class>, x: State)
    requires Sat(pre, x) && forall k | 0 <= k < |cs| :: !Everywhere(pre, cs[k], x)
    ensures !StartIsSafe(pre, cs, |x|)
  {
    hide Sat, SatPair, Agree, Pinned, Eval, SubInvariant, Everywhere;
    var p := Problem(|x|, pre, False, True);
    var invs := PinnedOn(x, cs, false);
    var inv := Or(invs);
    forall k | 0 <= k < |cs| ensures SubInvariant(CrossPre, p, cs[k], invs[k]) { UnpinnedAnswers(pre, cs[k], x); }
    forall env ensures Eval(inv, env) <==> SomeEval(invs, env) { ConnectiveMeanings(invs, env); }
    forall k | 0 <= k < |cs| ensures !Sat(invs[k], x) {
      AgreeSelf(x, cs[k]);
      PinnedMeaning(x, x, cs[k]);
    }
    SatOfSome(invs, inv, x);
    forall y: State, z: State ensures !SatPair(False, y, z) { FalseMeaning(y, z); }
    assert StepPasses(p.trans, cs, |x|);
    assert Combines(CrossPre, invs, inv) && SubInvariants(CrossPre, p, cs, invs);
    assert !Invariant(p, inv);
  }

  /** The answers for some classes always combine to an invariant exactly where these classes keep the start. */
  lemma StartIsExact(pre: Formula, cs: seq<Class>, n: nat)
    ensures StartIsSafe(pre, cs, n) <==> StartKept(pre, cs, n)
  {
    hide Sat, Eval, SubInvariants, Invariant, Everywhere, StepPasses;
    if StartKept(pre, cs, n) {
      forall p: Problem, invs, inv | p.n == n && p.pre == pre && StepPasses(p.trans, cs, n) && SubInvariants(CrossPre, p, cs, invs) && Combines(CrossPre, invs, inv)
        ensures Invariant(p, inv)
      {
        CombinationIsInvariant(CrossPre, p, cs, invs, inv);
      }
    } else {
      var x: State :| |x| == n && Sat(pre, x) && forall k | 0 <= k < |cs| :: !Everywhere(pre, cs[k], x);
      UnkeptStartFails(pre, cs, x);
    }
  }

  // ---- which classes can be left without an answer ----

  /** A subproblem is discarded when its start does not imply its goal; for two of the kinds, only if the whole has no invariant. */
  lemma SolvableIsNotDiscarded(k: Kind, p: Problem, inv: Formula, c: Class, x: State)
    requires k != RecCross && Invariant(p, inv) && |x| == p.n && SubPre(k, p, c, x)
    ensures SubPost(k, p, c, x)
  {
    hide Sat, SatPair, Agree;
    if k == RecPost {
      var y :| Agree(x, y, c) && Sat(p.pre, y);
      AgreeLength(x, y, c);
      assert Sat(p.post, y);
    } else {
      forall y | Agree(x, y, c) ensures Sat(p.post, y) { AgreeLength(x, y, c); }
    }
  }

  lemma AgreeLength(x: State, y: State, c: Class)
    requires Agree(x, y, c)
    ensures |x| == |y|
  {
  }

  ghost predicate Constant(f: Formula, n: nat) {
    forall x: State, y: State, u: State, v: State | |x| == |y| == |u| == |v| == n :: SatPair(f, x, y) == SatPair(f, u, v)
  }

  lemma SplicedAgrees(x: State, u: State, c: Class)
    requires |x| == |u|
    ensures Agree(x, Spliced(x, u, c), c) && Agree(Spliced(x, u, c), u, Others(c, |x|))
  {
  }

  /** The test of the step for crosses, already for one class, passes only steps that are always or never possible. */
  lemma CrossTestIsConstant(f: Formula, c: Class, n: nat)
    ensures CrossPair(f, c, n) <==> Constant(f, n)
  {
    hide SatPair, Agree, Spliced, Others;
    if CrossPair(f, c, n) {
      forall x: State, y: State, u: State, v: State | |x| == |y| == |u| == |v| == n && SatPair(f, x, y) ensures SatPair(f, u, v) {
        SplicedAgrees(x, u, c);
        SplicedAgrees(y, v, c);
        var a, b := Spliced(x, u, c), Spliced(y, v, c);
        assert SatPair(f, a, b);
        assert EverywherePair(f, Others(c, n), a, b);
      }
    }
    if Constant(f, n) {
      forall x: State, y: State, d: Class | |x| == |y| == n && SatPair(f, x, y) ensures EverywherePair(f, d, x, y) {
        forall u, v | Agree(x, u, d) && Agree(y, v, d) ensures SatPair(f, u, v) {
          AgreeLength(x, u, d);
          AgreeLength(y, v, d);
        }
      }
    }
  }

  /** The variables outside the class have the values they have in `w`. */
  function Fixing(w: State, c: Class): Subst { map v: Name | v in Outside(w, c) :: Num(if v.Cur? && v.i < |w| then w[v.i] else 0) }

  function Outside(w: State, c: Class): set<Name> { set i: nat | i < |w| && i !in c :: Cur(i) }

  lemma FixedEnv(x: State, w: State, c: Class)
    requires |x| == |w|
    ensures SameValues(Under(EnvOf(x, 0), Fixing(w, c)), EnvOf(Spliced(x, w, c), 0))
  {
    var s := Fixing(w, c);
    forall v ensures Under(EnvOf(x, 0), s).ints(v) == EnvOf(Spliced(x, w, c), 0).ints(v) {
      if v in s {
        var i: nat :| i < |w| && i !in c && v == Cur(i);
        assert s[v] == Num(w[i]);
      } else if v.Cur? && v.i < |w| {
        assert v.i in c;
      }
    }
  }

  lemma FixedMeaning(f: Formula, x: State, w: State, c: Class)
    requires |x| == |w|
    ensures Sat(SubstF(f, Fixing(w, c)), x) == Sat(f, Spliced(x, w, c))
  {
    hide Eval, SubstF, EnvOf, Under, SameValues, Fixing;
    SubstMeaning(f, Fixing(w, c), EnvOf(x, 0));
    FixedEnv(x, w, c);
    EvalSame(f, Under(EnvOf(x, 0), Fixing(w, c)), EnvOf(Spliced(x, w, c), 0));
  }

  lemma NotEverywhere(f: Formula, c: Class, x: State, y: State)
    requires Agree(x, y, c) && !Sat(f, y)
    ensures !Everywhere(f, c, x)
  {
  }

  /** A start that is a cross for the class, projected on it, has a formula without quantifiers. */
  lemma CrossProjected(pre: Formula, c: Class, n: nat) returns (a: Formula)
    requires Cross(pre, c, n)
    ensures forall x: State | |x| == n :: Sat(a, x) <==> Everywhere(pre, c, x)
  {
    hide Sat, Agree, Others, Spliced, Fixing, SubstF;
    if w: State :| |w| == n && !Everywhere(pre, Others(c, n), w) {
      var z :| Agree(w, z, Others(c, n)) && !Sat(pre, z);
      AgreeLength(w, z, Others(c, n));
      a := SubstF(pre, Fixing(z, c));
      forall x: State | |x| == n ensures Sat(a, x) <==> Everywhere(pre, c, x) {
        FixedMeaning(pre, x, z, c);
        var y := Spliced(x, z, c);
        SplicedAgrees(x, z, c);
        if Sat(pre, y) {
          NotEverywhere(pre, Others(c, n), y, z);
          assert Everywhere(pre, c, y);
          forall u | Agree(x, u, c) ensures Sat(pre, u) { AgreeThen(x, y, u, c); }
        }
      }
    } else {
      a := True;
      forall x: State | |x| == n ensures Sat(True, x) && Everywhere(pre, c, x) {
        FalseMeaning(x, x);
        forall u | Agree(x, u, c) ensures Sat(pre, u) {
          AgreeLength(x, u, c);
          AgreeSelf(u, Others(c, n));
          assert Everywhere(pre, Others(c, n), u);
        }
      }
    }
  }

  /** Where the tests pass and the whole has an invariant, every class has an answer: it can only be missed. */
  lemma CrossClassHasAnswer(p: Problem, inv: Formula, c: Class) returns (a: Formula)
    requires Invariant(p, inv) && Cross(p.pre, c, p.n) && CrossPair(p.trans, c, p.n)
    ensures SubInvariant(CrossPre, p, c, a)
  {
    hide Sat, SatPair, Agree, Cross, CrossPair, Everywhere, EverywherePair;
    CrossTestIsConstant(p.trans, c, p.n);
    if x0: State, y0: State :| |x0| == |y0| == p.n && SatPair(p.trans, x0, y0) {
      a := AnswerToAnyStep(p, inv, c);
    } else {
      a := CrossProjected(p.pre, c, p.n);
      forall x: State, y: State | |x| == |y| == p.n ensures !SubTrans(CrossPre, p, c, x, y) { EverywherePairHere(p.trans, c, x, y); }
      forall x: State | |x| == p.n && SubPre(CrossPre, p, c, x) ensures SubPost(CrossPre, p, c, x) {
        SolvableIsNotDiscarded(CrossPre, p, inv, c, x);
      }
    }
  }

  /** Where every step is possible, all states or none are an answer. */
  lemma AnswerToAnyStep(p: Problem, inv: Formula, c: Class) returns (a: Formula)
    requires Invariant(p, inv) && forall x: State, y: State | |x| == |y| == p.n :: SatPair(p.trans, x, y)
    ensures SubInvariant(CrossPre, p, c, a)
  {
    hide Sat, SatPair, Agree, Everywhere, EverywherePair;
    forall x: State ensures Sat(True, x) && !Sat(False, x) { FalseMeaning(x, x); }
    if s: State :| |s| == p.n && Sat(p.pre, s) {
      a := True;
      forall x: State | |x| == p.n ensures SubPost(CrossPre, p, c, x) { AllGoal(p, inv, c, x, s); }
    } else {
      a := False;
      forall x: State | |x| == p.n ensures !SubPre(CrossPre, p, c, x) { EverywhereHere(p.pre, c, x); }
    }
  }

  lemma EverywhereHere(f: Formula, c: Class, x: State)
    ensures Everywhere(f, c, x) ==> Sat(f, x)
  {
    AgreeSelf(x, c);
  }

  lemma EverywherePairHere(f: Formula, c: Class, x: State, y: State)
    ensures EverywherePair(f, c, x, y) ==> SatPair(f, x, y)
  {
    AgreeSelf(x, c);
    AgreeSelf(y, c);
  }

  lemma AllGoal(p: Problem, inv: Formula, c: Class, x: State, s: State)
    requires Invariant(p, inv) && |x| == |s| == p.n && Sat(inv, s)
    requires forall y: State | |y| == p.n :: SatPair(p.trans, s, y)
    ensures SubPost(CrossPre, p, c, x)
  {
    hide Sat, SatPair, Agree;
    forall y | Agree(x, y, c) ensures Sat(p.post, y) { AgreeLength(x, y, c); }
  }

  // ---- two variables in two classes ----

  const First: VarsRelation.Class := {VarsRelation.IntSym(Cur(0))}
  const Second: VarsRelation.Class := {VarsRelation.IntSym(Cur(1))}

  lemma TwoAreComponents()
    ensures VarsRelation.Components({First, Second}, {First, Second})
  {
    hide VarsRelation.Linked;
    var r := {First, Second};
    forall c, a, b | c in r && a in c && b in c ensures VarsRelation.Linked(r, a, b) { VarsRelation.LinkedIn(r, c, a, b); }
    forall u | u in r ensures exists c :: c in r && u <= c { assert u <= u; }
    assert VarsRelation.IntSym(Cur(0)) in First && VarsRelation.IntSym(Cur(1)) in Second;
  }

  lemma TwoAreListed()
    ensures Lists([{0}, {1}], {First, Second})
  {
    var cs: seq<Class> := [{0}, {1}];
    assert Positions(First) == {0} && Positions(Second) == {1};
    assert cs[0] == {0} && cs[1] == {1};
  }

  /** Where every comparison has one of two variables only, each is a class. */
  lemma TwoClasses(p: Problem)
    requires UsedIn(p) == {First, Second}
    ensures Related(p, [{0}, {1}])
  {
    hide VarsRelation.Components, Lists, UsedIn;
    TwoAreComponents();
    TwoAreListed();
  }

  /** The variables of a simple term: a variable with or without one added, or a number. */
  lemma SymsOfTerm(v: Name, k: int)
    ensures VarsRelation.Syms(VarsRelation.T(Var(v))) == {VarsRelation.IntSym(v)}
    ensures VarsRelation.Syms(VarsRelation.T(Num(k))) == {}
    ensures VarsRelation.Syms(VarsRelation.T(Add([Var(v), Num(k)]))) == {VarsRelation.IntSym(v)}
  {
    var a, b := VarsRelation.T(Var(v)), VarsRelation.T(Num(k));
    var sum := VarsRelation.T(Add([Var(v), Num(k)]));
    assert VarsRelation.Kids(b) == [] && VarsRelation.Kids(sum) == [a, b];
    hide VarsRelation.Syms, VarsRelation.Kids;
    VarsRelation.SymsCases(a);
    VarsRelation.SymsCases(b);
    VarsRelation.SymsCases(sum);
    SymsOfTwo(a, b);
  }

  lemma SymsOfTwo(a: VarsRelation.Item, b: VarsRelation.Item)
    ensures VarsRelation.SymsAll([]) == {} && VarsRelation.SymsAll([a, b]) == VarsRelation.Syms(a) + VarsRelation.Syms(b)
    ensures VarsRelation.UsedAll([a, b]) == VarsRelation.Used(a) + VarsRelation.Used(b)
  {
    hide VarsRelation.Syms, VarsRelation.Used;
    assert [a, b][1..] == [b] && [b][1..] == [];
    assert VarsRelation.SymsAll([b]) == VarsRelation.Syms(b) && VarsRelation.UsedAll([b]) == VarsRelation.Used(b);
  }

  lemma UsedOfCmp(op: CmpOp, l: Term, r: Term)
    ensures VarsRelation.Used(VarsRelation.F(Cmp(op, l, r))) ==
            {VarsRelation.UnprimedAll(VarsRelation.Syms(VarsRelation.T(l)) + VarsRelation.Syms(VarsRelation.T(r)))}
  {
    var i := VarsRelation.F(Cmp(op, l, r));
    assert VarsRelation.Kids(i) == [VarsRelation.T(l), VarsRelation.T(r)];
    hide VarsRelation.Syms, VarsRelation.Kids, VarsRelation.Used;
    VarsRelation.UsedCases(i);
    VarsRelation.SymsCases(i);
    SymsOfTwo(VarsRelation.T(l), VarsRelation.T(r));
  }

  lemma UsedOfPair(f: Formula, g: Formula)
    ensures VarsRelation.Used(VarsRelation.F(And([f, g]))) == VarsRelation.Used(VarsRelation.F(f)) + VarsRelation.Used(VarsRelation.F(g))
    ensures VarsRelation.Used(VarsRelation.F(Or([f, g]))) == VarsRelation.Used(VarsRelation.F(f)) + VarsRelation.Used(VarsRelation.F(g))
  {
    var a, b := VarsRelation.F(And([f, g])), VarsRelation.F(Or([f, g]));
    assert VarsRelation.Kids(a) == [VarsRelation.F(f), VarsRelation.F(g)] == VarsRelation.Kids(b);
    hide VarsRelation.Kids, VarsRelation.Used;
    VarsRelation.UsedCases(a);
    VarsRelation.UsedCases(b);
    SymsOfTwo(VarsRelation.F(f), VarsRelation.F(g));
  }

  /** A comparison of a variable with a number has the variable only. */
  lemma UsedOfBound(op: CmpOp, v: Name, k: int)
    ensures VarsRelation.Used(VarsRelation.F(Cmp(op, Var(v), Num(k)))) == {{VarsRelation.Unprimed(VarsRelation.IntSym(v))}}
  {
    hide VarsRelation.Used, VarsRelation.Syms;
    UsedOfCmp(op, Var(v), Num(k));
    SymsOfTerm(v, k);
    assert VarsRelation.UnprimedAll({VarsRelation.IntSym(v)} + {}) == {VarsRelation.Unprimed(VarsRelation.IntSym(v))};
  }

  // ---- a goal that is lost ----

  function Is(i: nat, k: int): Formula { Cmp(Eq, Var(Cur(i)), Num(k)) }

  function AtMostFive(i: nat): Formula { Cmp(Le, Var(Cur(i)), Num(5)) }

  function Counts(i: nat): Formula { Cmp(Eq, Var(Primed(i)), Add([Var(Cur(i)), Num(1)])) }

  /** Two counters that count in step, as long as the first is below five; neither is to exceed five. */
  function InStep(): Problem {
    Problem(2,
      And([Is(0, 0), Is(1, 0)]),
      And([Cmp(Lt, Var(Cur(0)), Num(5)), And([Counts(0), Counts(1)])]),
      And([AtMostFive(0), AtMostFive(1)]))
  }

  lemma UsedInStep()
    ensures UsedIn(InStep()) == {First, Second}
  {
    var p := InStep();
    assert VarsRelation.Used(VarsRelation.F(p.pre)) == {First, Second} by {
      hide VarsRelation.Used;
      UsedOfPair(Is(0, 0), Is(1, 0));
      UsedOfBound(Eq, Cur(0), 0);
      UsedOfBound(Eq, Cur(1), 0);
    }
    assert VarsRelation.Used(VarsRelation.F(p.post)) == {First, Second} by {
      hide VarsRelation.Used;
      UsedOfPair(AtMostFive(0), AtMostFive(1));
      UsedOfBound(Le, Cur(0), 5);
      UsedOfBound(Le, Cur(1), 5);
    }
    assert VarsRelation.Used(VarsRelation.F(p.trans)) == {First, Second} by {
      hide VarsRelation.Used;
      UsedOfPair(Cmp(Lt, Var(Cur(0)), Num(5)), And([Counts(0), Counts(1)]));
      UsedOfPair(Counts(0), Counts(1));
      UsedOfBound(Lt, Cur(0), 5);
      UsedOfCounts(0);
      UsedOfCounts(1);
    }
  }

  lemma UsedOfCounts(i: nat)
    ensures VarsRelation.Used(VarsRelation.F(Counts(i))) == {{VarsRelation.IntSym(Cur(i))}}
  {
    hide VarsRelation.Used, VarsRelation.Syms;
    UsedOfCmp(Eq, Var(Primed(i)), Add([Var(Cur(i)), Num(1)]));
    SymsOfTerm(Primed(i), 1);
    SymsOfTerm(Cur(i), 1);
    assert VarsRelation.UnprimedAll({VarsRelation.IntSym(Primed(i))} + {VarsRelation.IntSym(Cur(i))}) == {VarsRelation.IntSym(Cur(i))};
  }

  lemma BoundIn(op: CmpOp, v: Name, k: int, env: Env)
    ensures Eval(Cmp(op, Var(v), Num(k)), env) <==> Holds(op, env.ints(v), k)
  {
  }

  lemma CountsIn(i: nat, env: Env)
    ensures Eval(Counts(i), env) <==> env.ints(Primed(i)) == env.ints(Cur(i)) + 1
  {
    var ts := [Var(Cur(i)), Num(1)];
    assert ts[1..] == [Num(1)] && ts[1..][1..] == [];
    assert Sum(ts[1..], env) == EvalT(Num(1), env) + Sum([], env);
    assert Sum(ts, env) == EvalT(ts[0], env) + Sum(ts[1..], env);
    assert EvalT(ts[0], env) == env.ints(Cur(i));
    assert EvalT(Add(ts), env) == Sum(ts, env);
    assert EvalT(Var(Primed(i)), env) == env.ints(Primed(i));
  }

  lemma PairValue(x: State, y: State, i: nat)
    requires i < |x| == |y|
    ensures PairEnv(x, y).ints(Cur(i)) == x[i] && PairEnv(x, y).ints(Primed(i)) == y[i]
  {
  }

  lemma BoundAt(op: CmpOp, x: State, i: nat, k: int)
    requires i < |x|
    ensures Sat(Cmp(op, Var(Cur(i)), Num(k)), x) <==> Holds(op, x[i], k)
  {
    BoundIn(op, Cur(i), k, EnvOf(x, 0));
    hide Eval;
    StateValue(x, i);
  }

  lemma InStepMeaning(x: State, y: State)
    requires |x| == |y| == 2
    ensures Sat(InStep().pre, x) <==> x[0] == 0 && x[1] == 0
    ensures Sat(InStep().post, x) <==> x[0] <= 5 && x[1] <= 5
    ensures Sat(AtMostFive(0), x) <==> x[0] <= 5
    ensures SatPair(InStep().trans, x, y) <==> x[0] < 5 && y[0] == x[0] + 1 && y[1] == x[1] + 1
  {
    hide Eval, EnvOf, PairEnv;
    BoundAt(Eq, x, 0, 0);
    BoundAt(Eq, x, 1, 0);
    BoundAt(Le, x, 0, 5);
    BoundAt(Le, x, 1, 5);
    PairMeaning(Is(0, 0), Is(1, 0), EnvOf(x, 0));
    PairMeaning(AtMostFive(0), AtMostFive(1), EnvOf(x, 0));
    var env := PairEnv(x, y);
    PairValue(x, y, 0);
    PairValue(x, y, 1);
    BoundIn(Lt, Cur(0), 5, env);
    CountsIn(0, env);
    CountsIn(1, env);
    PairMeaning(Counts(0), Counts(1), env);
    PairMeaning(Cmp(Lt, Var(Cur(0)), Num(5)), And([Counts(0), Counts(1)]), env);
  }

  function Together(): Formula { And([Cmp(Eq, Var(Cur(0)), Var(Cur(1))), AtMostFive(0)]) }

  lemma EqualVariables(v: Name, w: Name, env: Env)
    ensures Eval(Cmp(Eq, Var(v), Var(w)), env) <==> env.ints(v) == env.ints(w)
  {
  }

  lemma TogetherMeaning(x: State)
    requires |x| == 2
    ensures Sat(Together(), x) <==> x[0] == x[1] && x[0] <= 5
  {
    hide Eval, EnvOf;
    var env := EnvOf(x, 0);
    EqualVariables(Cur(0), Cur(1), env);
    StateValue(x, 0);
    StateValue(x, 1);
    BoundAt(Le, x, 0, 5);
    PairMeaning(Cmp(Eq, Var(Cur(0)), Var(Cur(1))), AtMostFive(0), env);
  }

  lemma OtherOfTwo()
    ensures Others({0}, 2) == {1} && Others({1}, 2) == {0}
  {
  }

  lemma InStepPasses()
    ensures Rectangle(InStep().post, {0}, 2) && Rectangle(InStep().post, {1}, 2)
    ensures RectanglePair(InStep().trans, {0}, 2) && RectanglePair(InStep().trans, {1}, 2)
  {
    hide Sat, SatPair, InStep, Others;
    OtherOfTwo();
    forall x: State, y: State | |x| == |y| == 2 { InStepMeaning(x, y); }
    forall x: State | |x| == 2 && Somewhere(InStep().post, {0}, x) && Somewhere(InStep().post, {1}, x) ensures Sat(InStep().post, x) {
      InStepMeaning(x, x);
    }
    forall x: State, y: State | |x| == |y| == 2 && SomewherePair(InStep().trans, {0}, x, y) && SomewherePair(InStep().trans, {1}, x, y)
      ensures SatPair(InStep().trans, x, y)
    {
      InStepMeaning(x, y);
    }
  }

  lemma InStepIsSolvable()
    ensures Invariant(InStep(), Together())
  {
    hide Sat, SatPair, InStep, Together;
    assert InStep().n == 2 by { InStepSize(); }
    forall x: State, y: State | |x| == |y| == 2 { InStepMeaning(x, y); }
    forall x: State | |x| == 2 ensures Sat(InStep().pre, x) ==> Sat(Together(), x) {
      InStepMeaning(x, x);
      TogetherMeaning(x);
    }
    forall x: State | |x| == 2 ensures Sat(Together(), x) ==> Sat(InStep().post, x) {
      InStepMeaning(x, x);
      TogetherMeaning(x);
    }
    forall x: State, y: State | |x| == |y| == 2 && Sat(Together(), x) && SatPair(InStep().trans, x, y) ensures Sat(Together(), y) {
      InStepMeaning(x, y);
      TogetherMeaning(x);
      TogetherMeaning(y);
    }
  }

  lemma InStepSize()
    ensures InStep().n == 2
  {
  }

  lemma FirstHasAnswer()
    ensures SubInvariant(RecPost, InStep(), {0}, AtMostFive(0))
  {
    hide Sat, SatPair, InStep;
    var p := InStep();
    InStepSize();
    forall x: State | |x| == 2 && SubPre(RecPost, p, {0}, x) ensures Sat(AtMostFive(0), x) {
      var y :| Agree(x, y, {0}) && Sat(p.pre, y);
      InStepMeaning(x, x);
      InStepMeaning(y, y);
    }
    forall x: State, y: State | |x| == |y| == 2 && Sat(AtMostFive(0), x) && SubTrans(RecPost, p, {0}, x, y) ensures Sat(AtMostFive(0), y) {
      var u, v :| Agree(x, u, {0}) && Agree(y, v, {0}) && SatPair(p.trans, u, v);
      InStepMeaning(y, y);
      InStepMeaning(u, v);
    }
    forall x: State | |x| == 2 && Sat(AtMostFive(0), x) ensures SubPost(RecPost, p, {0}, x) {
      InStepMeaning(x, x);
      var y: State := [x[0], 0];
      InStepMeaning(y, y);
      assert Agree(x, y, {0});
    }
  }

  /** Alone, the second counter counts without end. */
  lemma {:induction false} SecondCountsOn(inv: Formula, m: nat)
    requires SubInvariant(RecPost, InStep(), {1}, inv)
    ensures Sat(inv, [0, m])
  {
    hide Sat, SatPair, InStep;
    InStepSize();
    var x: State := [0, m];
    if m == 0 {
      InStepMeaning(x, x);
      AgreeSelf(x, {1});
      assert SubPre(RecPost, InStep(), {1}, x);
    } else {
      var y: State := [0, m - 1];
      SecondCountsOn(inv, m - 1);
      var v: State := [1, m];
      InStepMeaning(y, v);
      assert Agree(y, y, {1}) && Agree(x, v, {1});
      assert SubTrans(RecPost, InStep(), {1}, y, x);
    }
  }

  lemma SecondHasNoAnswer(inv: Formula)
    ensures !SubInvariant(RecPost, InStep(), {1}, inv)
  {
    hide Sat, SatPair, InStep;
    if SubInvariant(RecPost, InStep(), {1}, inv) {
      SecondCountsOn(inv, 6);
      var x: State := [0, 6];
      InStepSize();
      assert SubPost(RecPost, InStep(), {1}, x);
      var y :| Agree(x, y, {1}) && Sat(InStep().post, y);
      InStepMeaning(y, y);
      assert false;
    }
  }

  /**
   A goal is lost.  All tests pass, the whole has an invariant, the first of the two classes has an answer and the
   second can have none: what comes back is the answer for the first, which is no invariant.
   */
  lemma UnsolvedClassLosesGoal()
    ensures var p := InStep();
      && Related(p, [{0}, {1}])
      && (forall k | 0 <= k < 2 :: Rectangle(p.post, {k}, 2) && RectanglePair(p.trans, {k}, 2))
      && Invariant(p, Together())
      && SubInvariant(RecPost, p, {0}, AtMostFive(0)) && (forall inv :: !SubInvariant(RecPost, p, {1}, inv))
      && !Invariant(p, AtMostFive(0)) && !GoalKept(p.post, [{0}], 2)
  {
    hide Sat, SatPair, InStep, Together, Related, Rectangle, RectanglePair;
    UsedInStep();
    TwoClasses(InStep());
    InStepPasses();
    forall k | 0 <= k < 2 ensures Rectangle(InStep().post, {k}, 2) && RectanglePair(InStep().trans, {k}, 2) { assert k == 0 || k == 1; }
    InStepIsSolvable();
    FirstHasAnswer();
    forall inv ensures !SubInvariant(RecPost, InStep(), {1}, inv) { SecondHasNoAnswer(inv); }
    InStepSize();
    var x: State := [0, 6];
    InStepMeaning(x, x);
    var y: State := [0, 0];
    InStepMeaning(y, y);
    assert Agree(x, y, {0});
    assert !Sat(InStep().post, x);
  }

  // ---- a start that is lost ----

  function NonNegative(i: nat): Formula { Cmp(Ge, Var(Cur(i)), Num(0)) }

  function Corner(): Formula { Or([NonNegative(0), NonNegative(1)]) }

  lemma CornerMeaning(x: State)
    requires |x| == 2
    ensures Sat(NonNegative(0), x) <==> x[0] >= 0
    ensures Sat(Corner(), x) <==> x[0] >= 0 || x[1] >= 0
  {
    BoundAt(Ge, x, 0, 0);
    BoundAt(Ge, x, 1, 0);
    hide Eval, EnvOf;
    PairMeaning(NonNegative(0), NonNegative(1), EnvOf(x, 0));
  }

  lemma CornerIsCross()
    ensures Cross(Corner(), {0}, 2) && Cross(Corner(), {1}, 2) && DependsOn(Corner(), [{0}, {1}], 2)
    ensures CrossPair(False, {0}, 2) && CrossPair(False, {1}, 2)
  {
    hide Sat, SatPair, Corner, Covered, Others, Agree;
    CoveredTwo();
    forall x: State | |x| == 2 && Sat(Corner(), x) ensures Everywhere(Corner(), {0}, x) || Everywhere(Corner(), {1}, x) {
      CornerMeaning(x);
      if x[0] >= 0 { CornerSide(x, 0); } else { CornerSide(x, 1); }
    }
    forall x: State, y: State | |x| == 2 && Agree(x, y, Covered([{0}, {1}])) ensures Sat(Corner(), x) == Sat(Corner(), y) {
      SameTwo(x, y);
    }
    forall x: State, y: State ensures !SatPair(False, x, y) { FalseMeaning(x, y); }
  }

  lemma CornerSide(x: State, i: nat)
    requires |x| == 2 && i < 2 && x[i] >= 0
    ensures Everywhere(Corner(), {i}, x)
  {
    hide Sat, Corner;
    forall y | Agree(x, y, {i}) ensures Sat(Corner(), y) { CornerMeaning(y); }
  }

  lemma SameTwo(x: State, y: State)
    requires |x| == 2 && Agree(x, y, Covered([{0}, {1}]))
    ensures x == y
  {
    hide Covered;
    CoveredTwo();
    assert x[0] == y[0] && x[1] == y[1];
  }

  lemma CoveredTwo()
    ensures var cs: seq<Class> := [{0}, {1}]; 0 in Covered(cs) && 1 in Covered(cs)
    ensures Others({0}, 2) == {1} && Others({1}, 2) == {0}
  {
    var cs: seq<Class> := [{0}, {1}];
    assert 0 in cs[0] && 1 in cs[1];
  }

  lemma CornerSideOnly(x: State, i: nat)
    requires |x| == 2 && i < 2 && Everywhere(Corner(), {i}, x)
    ensures x[i] >= 0
  {
    hide Sat, Corner;
    var y: State := if i == 0 then [x[0], -1] else [-1, x[1]];
    assert Agree(x, y, {i});
    CornerMeaning(y);
  }

  lemma CornerAnswer(i: nat)
    requires i < 2
    ensures SubInvariant(CrossPre, Problem(2, Corner(), False, True), {i}, NonNegative(i))
  {
    hide Sat, SatPair, Corner, NonNegative, Agree;
    var p := Problem(2, Corner(), False, True);
    forall x: State | |x| == 2 && SubPre(CrossPre, p, {i}, x) ensures Sat(NonNegative(i), x) {
      CornerSideOnly(x, i);
      BoundAt(Ge, x, i, 0);
      NonNegativeIs(i);
    }
    forall x: State, y: State ensures !SatPair(False, x, y) { FalseMeaning(x, y); }
    forall x: State, y: State | |x| == |y| == 2 ensures !SubTrans(CrossPre, p, {i}, x, y) { EverywherePairHere(False, {i}, x, y); }
    forall x: State ensures Sat(True, x) { FalseMeaning(x, x); }
    forall x: State ensures SubPost(CrossPre, p, {i}, x) {
      assert forall u | Agree(x, u, {i}) :: Sat(True, u);
    }
  }

  lemma NonNegativeIs(i: nat)
    ensures NonNegative(i) == Cmp(Ge, Var(Cur(i)), Num(0))
  {
  }

  lemma UsedCorner()
    ensures UsedIn(Problem(2, Corner(), False, True)) == {First, Second}
  {
    UsedOfPair(NonNegative(0), NonNegative(1));
    UsedOfBound(Ge, Cur(0), 0);
    UsedOfBound(Ge, Cur(1), 0);
    VarsRelation.UsedCases(VarsRelation.F(False));
    VarsRelation.UsedCases(VarsRelation.F(True));
    hide VarsRelation.Used;
  }

  /** Of the start as a whole, either side alone is not enough. */
  lemma SideIsNotEnough()
    ensures !Invariant(Problem(2, Corner(), False, True), NonNegative(0)) && !StartKept(Corner(), [{0}], 2)
    ensures Invariant(Problem(2, Corner(), False, True), Corner())
  {
    hide Sat, SatPair, Corner, NonNegative, Agree;
    var out: State := [-1, 0];
    CornerMeaning(out);
    assert !Sat(NonNegative(0), out) && Sat(Corner(), out);
    if Everywhere(Corner(), {0}, out) {
      CornerSideOnly(out, 0);
      assert false;
    }
    forall x: State, y: State ensures !SatPair(False, x, y) { FalseMeaning(x, y); }
    forall x: State ensures Sat(True, x) { FalseMeaning(x, x); }
  }

  /**
   Dually, the start is a cross, and a class that the solver gave up on, though it has an answer, leaves out starting
   states.
   */
  lemma UnsolvedClassLosesStart()
    ensures var p := Problem(2, Corner(), False, True);
      && Related(p, [{0}, {1}])
      && (forall k | 0 <= k < 2 :: Cross(p.pre, {k}, 2) && CrossPair(p.trans, {k}, 2))
      && Invariant(p, Corner())
      && SubInvariant(CrossPre, p, {0}, NonNegative(0)) && SubInvariant(CrossPre, p, {1}, NonNegative(1))
      && !Invariant(p, NonNegative(0)) && !StartKept(p.pre, [{0}], 2)
  {
    hide Sat, SatPair, Corner, NonNegative, Cross, CrossPair, DependsOn, Related, SubInvariant, StartKept, Invariant;
    UsedCorner();
    TwoClasses(Problem(2, Corner(), False, True));
    CornerIsCross();
    forall k | 0 <= k < 2 ensures Cross(Corner(), {k}, 2) && CrossPair(False, {k}, 2) { assert k == 0 || k == 1; }
    CornerAnswer(0);
    CornerAnswer(1);
    SideIsNotEnough();
  }
}
