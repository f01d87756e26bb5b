/** Divide and conquer for invariants: one subproblem for each class of variables. */
module Decomposition {
  import opened Wrappers
  import opened Logic
  import opened Regions
  import VarsRelation

  // ---- problems over the variables 0 .. n-1 ----

  /** A state and its successor. */
  function PairEnv(x: State, y: State): Env {
    Env((v: Name) => match v
          case Cur(i) => if i < |x| then x[i] else 0
          case Primed(i) => if i < |y| then y[i] else 0
          case Aux(_) => 0,
        (v: Name) => false, (p: string, vs: seq<int>) => false)
  }

  predicate SatPair(f: Formula, x: State, y: State) { Eval(f, PairEnv(x, y)) }

  datatype Problem = Problem(n: nat, pre: Formula, trans: Formula, post: Formula)

  /** The formula holds at the start, is kept by every step, and implies the goal. */
  ghost predicate Invariant(p: Problem, inv: Formula) {
    && (forall x: State | |x| == p.n :: Sat(p.pre, x) ==> Sat(inv, x))
    && (forall x: State, y: State | |x| == |y| == p.n :: Sat(inv, x) && SatPair(p.trans, x, y) ==> Sat(inv, y))
    && (forall x: State | |x| == p.n :: Sat(inv, x) ==> Sat(p.post, x))
  }

  type Class = set<nat>

  /** The states agree on the class. */
  predicate Agree(x: State, y: State, c: Class) { |x| == |y| && forall i | i in c && i < |x| :: x[i] == y[i] }

  function Others(c: Class, n: nat): Class { set i: nat | i < n && i !in c }

  // ---- projections, as quantifier elimination computes them ----

  /** `exists` (or `forall`) the variables outside the class. */
  ghost predicate Somewhere(f: Formula, c: Class, x: State) { exists y :: Agree(x, y, c) && Sat(f, y) }

  ghost predicate Everywhere(f: Formula, c: Class, x: State) { forall y | Agree(x, y, c) :: Sat(f, y) }

  ghost predicate SomewherePair(f: Formula, c: Class, x: State, y: State) { exists u, v :: Agree(x, u, c) && Agree(y, v, c) && SatPair(f, u, v) }

  ghost predicate EverywherePair(f: Formula, c: Class, x: State, y: State) { forall u, v | Agree(x, u, c) && Agree(y, v, c) :: SatPair(f, u, v) }

  datatype Kind = RecPost | CrossPre | RecCross

  /** The subproblem `genSubproblem` makes for one class, by its three projected conditions. */
  ghost predicate SubPre(k: Kind, p: Problem, c: Class, x: State) {
    if k == CrossPre then Everywhere(p.pre, c, x) else Somewhere(p.pre, c, x)
  }

  ghost predicate SubTrans(k: Kind, p: Problem, c: Class, x: State, y: State) {
    if k == CrossPre then EverywherePair(p.trans, c, x, y) else SomewherePair(p.trans, c, x, y)
  }

  ghost predicate SubPost(k: Kind, p: Problem, c: Class, x: State) {
    if k == RecPost then Somewhere(p.post, c, x) else Everywhere(p.post, c, x)
  }

  ghost predicate SubInvariant(k: Kind, p: Problem, c: Class, inv: Formula) {
    && (forall x: State | |x| == p.n :: SubPre(k, p, c, x) ==> Sat(inv, x))
    && (forall x: State, y: State | |x| == |y| == p.n :: Sat(inv, x) && SubTrans(k, p, c, x, y) ==> Sat(inv, y))
    && (forall x: State | |x| == p.n :: Sat(inv, x) ==> SubPost(k, p, c, x))
  }

  // ---- the tests of the dispatcher ----

  /** The rectangle test for one class: projecting on the class and on the others loses nothing. */
  ghost predicate Rectangle(f: Formula, c: Class, n: nat) {
    forall x: State | |x| == n :: Somewhere(f, Others(c, n), x) && Somewhere(f, c, x) ==> Sat(f, x)
  }

  ghost predicate RectanglePair(f: Formula, c: Class, n: nat) {
    forall x: State, y: State | |x| == |y| == n :: SomewherePair(f, Others(c, n), x, y) && SomewherePair(f, c, x, y) ==> SatPair(f, x, y)
  }

  /** The cross test for one class. */
  ghost predicate Cross(f: Formula, c: Class, n: nat) {
    forall x: State | |x| == n :: Sat(f, x) ==> Everywhere(f, Others(c, n), x) || Everywhere(f, c, x)
  }

  /** The test of the transition for crosses, which asks for both projections. */
  ghost predicate CrossPair(f: Formula, c: Class, n: nat) {
    forall x: State, y: State | |x| == |y| == n :: SatPair(f, x, y) ==> EverywherePair(f, Others(c, n), x, y) && EverywherePair(f, c, x, y)
  }

  function Covered(cs: seq<Class>): set<nat> { set k, i | 0 <= k < |cs| && i in cs[k] :: i }

  /** The formula depends on the variables of the classes only. */
  ghost predicate DependsOn(f: Formula, cs: seq<Class>, n: nat) {
    forall x: State, y: State | |x| == n && Agree(x, y, Covered(cs)) :: Sat(f, x) == Sat(f, y)
  }

  // ---- the classes of the variable relation ----

  /** The numbers of the variables in a class of symbols. */
  function Positions(c: VarsRelation.Class): Class { set s | s in c && s.IntSym? && s.v.Cur? :: s.v.i }

  /** The list goes through the classes of the relation. */
  ghost predicate Lists(cs: seq<Class>, r: set<VarsRelation.Class>) {
    (forall c | c in r :: Positions(c) in cs) && forall k | 0 <= k < |cs| :: exists c :: c in r && cs[k] == Positions(c)
  }

  /** The sets of variables of the comparisons in the problem. */
  function UsedIn(p: Problem): set<VarsRelation.Class> {
    VarsRelation.Used(VarsRelation.F(p.pre)) + VarsRelation.Used(VarsRelation.F(p.trans)) + VarsRelation.Used(VarsRelation.F(p.post))
  }

  /** The list goes through the connected components of the variables in the problem. */
  ghost predicate Related(p: Problem, cs: seq<Class>) { exists r :: VarsRelation.Components(UsedIn(p), r) && Lists(cs, r) }

  lemma InClass(u: VarsRelation.Class, r: set<VarsRelation.Class>, cs: seq<Class>, i: nat)
    requires Lists(cs, r) && (exists c :: c in r && u <= c) && VarsRelation.IntSym(Cur(i)) in u
    ensures i in Covered(cs)
  {
    var c :| c in r && u <= c;
    var k :| 0 <= k < |cs| && cs[k] == Positions(c);
    assert VarsRelation.IntSym(Cur(i)) in c;
    assert i in cs[k];
  }

  lemma CoveredAlike(f: Formula, r: set<VarsRelation.Class>, cs: seq<Class>, x: State, y: State)
    requires VarsRelation.Inside(VarsRelation.Used(VarsRelation.F(f)), r) && Lists(cs, r) && Agree(x, y, Covered(cs))
    ensures VarsRelation.SameOnUsed(EnvOf(x, 0), EnvOf(y, 0), VarsRelation.Used(VarsRelation.F(f)))
  {
    hide VarsRelation.Used, Covered, Lists;
    var us := VarsRelation.Used(VarsRelation.F(f));
    forall u, v | u in us && VarsRelation.Unprimed(VarsRelation.IntSym(v)) in u ensures EnvOf(x, 0).ints(v) == EnvOf(y, 0).ints(v) {
      if v.Cur? { InClass(u, r, cs, v.i); }
    }
  }

  /** A formula of the problem depends on the variables of these classes only. */
  lemma RelatedDepends(p: Problem, cs: seq<Class>, f: Formula)
    requires Related(p, cs) && (f == p.pre || f == p.post)
    ensures DependsOn(f, cs, p.n)
  {
    hide VarsRelation.Used, Eval, EnvOf, Covered, Lists, VarsRelation.SameOnUsed;
    var r :| VarsRelation.Components(UsedIn(p), r) && Lists(cs, r);
    assert VarsRelation.Inside(VarsRelation.Used(VarsRelation.F(f)), r);
    forall x: State, y: State | |x| == p.n && Agree(x, y, Covered(cs)) ensures Sat(f, x) == Sat(f, y) {
      CoveredAlike(f, r, cs, x, y);
      VarsRelation.UsedDecides(f, EnvOf(x, 0), EnvOf(y, 0));
    }
  }

  // ---- products of many classes ----

  /** `x` on the class, `y` elsewhere. */
  function Spliced(x: State, y: State, c: Class): (z: State)
    requires |x| == |y|
    ensures |z| == |x|
  {
    seq(|x|, i requires 0 <= i < |x| => if i in c then x[i] else y[i])
  }

  /** What holds of states that agree with `x` on each class alone holds of one that agrees with `x` on all of them. */
  lemma {:induction false} Product(holds: State -> bool, cs: seq<Class>, x: State, parts: seq<State>) returns (y: State)
    requires |parts| == |cs| > 0
    requires forall k | 0 <= k < |cs| :: Agree(x, parts[k], cs[k]) && holds(parts[k])
    requires forall k, u: State, a: State, b: State | 0 <= k < |cs| && |u| == |x| && Agree(u, a, Others(cs[k], |x|)) && holds(a) && Agree(u, b, cs[k]) && holds(b) :: holds(u)
    ensures Agree(x, y, Covered(cs)) && holds(y)
  {
    var m := |cs| - 1;
    if m == 0 {
      y := parts[0];
    } else {
      var t := Product(holds, cs[..m], x, parts[..m]);
      y := Spliced(x, t, cs[m]);
      assert Agree(y, t, Others(cs[m], |x|)) && Agree(y, parts[m], cs[m]);
      forall i | i in Covered(cs) && i < |x| ensures x[i] == y[i] {
        if i !in cs[m] { assert i in Covered(cs[..m]); }
      }
    }
  }

  /** If the rectangle test passes for every class, a formula that holds projected on every class holds. */
  lemma RectanglesMultiply(f: Formula, cs: seq<Class>, n: nat, x: State)
    requires |x| == n && cs != [] && DependsOn(f, cs, n)
    requires forall k | 0 <= k < |cs| :: Rectangle(f, cs[k], n) && Somewhere(f, cs[k], x)
    ensures Sat(f, x)
  {
    hide Sat, Agree, Others;
    var parts: seq<State> := [];
    for m := 0 to |cs|
      invariant |parts| == m && forall k | 0 <= k < m :: Agree(x, parts[k], cs[k]) && Sat(f, parts[k])
    {
      var y :| Agree(x, y, cs[m]) && Sat(f, y);
      parts := parts + [y];
    }
    forall k, u: State, a: State, b: State | 0 <= k < |cs| && |u| == |x| && Agree(u, a, Others(cs[k], n)) && Sat(f, a) && Agree(u, b, cs[k]) && Sat(f, b)
      ensures Sat(f, u)
    {
      assert Rectangle(f, cs[k], n);
    }
    var y := Product((z: State) => Sat(f, z), cs, x, parts);
  }

  /** Dually, if the cross test passes, a formula that holds is projected true on some class. */
  lemma CrossesMultiply(f: Formula, cs: seq<Class>, n: nat, x: State)
    requires |x| == n && cs != [] && DependsOn(f, cs, n) && Sat(f, x)
    requires forall k | 0 <= k < |cs| :: Cross(f, cs[k], n)
    ensures exists k :: 0 <= k < |cs| && Everywhere(f, cs[k], x)
  {
    hide Sat, Agree, Others;
    if forall k | 0 <= k < |cs| :: !Everywhere(f, cs[k], x) {
      var parts: seq<State> := [];
      for m := 0 to |cs|
        invariant |parts| == m && forall k | 0 <= k < m :: Agree(x, parts[k], cs[k]) && !Sat(f, parts[k])
      {
        assert !Everywhere(f, cs[m], x);
        var y :| Agree(x, y, cs[m]) && !Sat(f, y);
        parts := parts + [y];
      }
      forall k, u: State, a: State, b: State | 0 <= k < |cs| && |u| == |x| && Agree(u, a, Others(cs[k], n)) && !Sat(f, a) && Agree(u, b, cs[k]) && !Sat(f, b)
        ensures !Sat(f, u)
      {
        assert Cross(f, cs[k], n);
      }
      var y := Product((z: State) => !Sat(f, z), cs, x, parts);
    }
  }

  // ---- recombination ----

  lemma AgreeSelf(x: State, c: Class)
    ensures Agree(x, x, c)
  {
  }

  /** A subproblem for rectangles: its invariant holds at the start and is kept by every step of the whole. */
  lemma PartOfRectangle(k: Kind, p: Problem, c: Class, inv: Formula)
    requires k != CrossPre && SubInvariant(k, p, c, inv)
    ensures forall x: State | |x| == p.n :: Sat(p.pre, x) ==> Sat(inv, x)
    ensures forall x: State, y: State | |x| == |y| == p.n :: Sat(inv, x) && SatPair(p.trans, x, y) ==> Sat(inv, y)
  {
    hide Sat, SatPair, Agree;
    forall x: State | |x| == p.n && Sat(p.pre, x) ensures Sat(inv, x) {
      AgreeSelf(x, c);
      assert SubPre(k, p, c, x);
    }
    forall x: State, y: State | |x| == |y| == p.n && Sat(inv, x) && SatPair(p.trans, x, y) ensures Sat(inv, y) {
      AgreeSelf(x, c);
      AgreeSelf(y, c);
      assert SubTrans(k, p, c, x, y);
    }
  }

  /** With the start and the step existential and the goal universal, the answer for one class is one for the whole. */
  lemma RecCrossIsInvariant(p: Problem, c: Class, inv: Formula)
    requires SubInvariant(RecCross, p, c, inv)
    ensures Invariant(p, inv)
  {
    hide Sat, SatPair, Agree;
    PartOfRectangle(RecCross, p, c, inv);
    forall x: State | |x| == p.n && Sat(inv, x) ensures Sat(p.post, x) {
      AgreeSelf(x, c);
      assert SubPost(RecCross, p, c, x);
    }
  }

  ghost predicate SubInvariants(k: Kind, p: Problem, cs: seq<Class>, invs: seq<Formula>) {
    |invs| == |cs| && forall i | 0 <= i < |cs| :: SubInvariant(k, p, cs[i], invs[i])
  }

  /** What the goal allows on each of the classes alone, it allows. */
  ghost predicate GoalKept(post: Formula, cs: seq<Class>, n: nat) {
    forall x: State | |x| == n && (forall k | 0 <= k < |cs| :: Somewhere(post, cs[k], x)) :: Sat(post, x)
  }

  /** The conjunction of the answers for some classes is an invariant where the goal is kept by them. */
  lemma GoalKeptGivesInvariant(p: Problem, cs: seq<Class>, invs: seq<Formula>, inv: Formula)
    requires SubInvariants(RecPost, p, cs, invs) && GoalKept(p.post, cs, p.n)
    requires forall x: State :: Sat(inv, x) <==> forall k | 0 <= k < |invs| :: Sat(invs[k], x)
    ensures Invariant(p, inv)
  {
    hide Sat, SatPair, SubInvariant, Somewhere;
    forall k | 0 <= k < |cs|
      ensures forall x: State | |x| == p.n :: Sat(p.pre, x) ==> Sat(invs[k], x)
      ensures forall x: State, y: State | |x| == |y| == p.n :: Sat(invs[k], x) && SatPair(p.trans, x, y) ==> Sat(invs[k], y)
    {
      PartOfRectangle(RecPost, p, cs[k], invs[k]);
    }
    forall x: State | |x| == p.n && Sat(inv, x) ensures Sat(p.post, x) {
      forall k | 0 <= k < |cs| ensures Somewhere(p.post, cs[k], x) { PostOfPart(p, cs[k], invs[k], x); }
    }
  }

  lemma RectanglesKeepGoal(post: Formula, cs: seq<Class>, n: nat)
    requires cs != [] && DependsOn(post, cs, n) && forall k | 0 <= k < |cs| :: Rectangle(post, cs[k], n)
    ensures GoalKept(post, cs, n)
  {
    hide Sat, Rectangle, DependsOn, Somewhere;
    forall x: State | |x| == n && (forall k | 0 <= k < |cs| :: Somewhere(post, cs[k], x)) ensures Sat(post, x) {
      RectanglesMultiply(post, cs, n, x);
    }
  }

  /** The conjunction of the answers for some classes is an invariant where the goal is a rectangle for each and depends on them only. */
  lemma RectanglesGiveInvariant(p: Problem, cs: seq<Class>, invs: seq<Formula>, inv: Formula)
    requires cs != [] && SubInvariants(RecPost, p, cs, invs)
    requires DependsOn(p.post, cs, p.n) && forall k | 0 <= k < |cs| :: Rectangle(p.post, cs[k], p.n)
    requires forall x: State :: Sat(inv, x) <==> forall k | 0 <= k < |invs| :: Sat(invs[k], x)
    ensures Invariant(p, inv)
  {
    hide Sat, Rectangle, DependsOn, SubInvariants, Invariant, GoalKept;
    RectanglesKeepGoal(p.post, cs, p.n);
    GoalKeptGivesInvariant(p, cs, invs, inv);
  }

  /** The conjunction of the answers for all classes of the relation is an invariant where the goal is a rectangle for each class. */
  lemma RecPostIsInvariant(p: Problem, cs: seq<Class>, invs: seq<Formula>, inv: Formula)
    requires Related(p, cs) && cs != [] && SubInvariants(RecPost, p, cs, invs)
    requires forall k | 0 <= k < |cs| :: Rectangle(p.post, cs[k], p.n)
    requires forall x: State :: Sat(inv, x) <==> forall k | 0 <= k < |invs| :: Sat(invs[k], x)
    ensures Invariant(p, inv)
  {
    hide Sat, Rectangle, SubInvariants, Invariant, Related, DependsOn;
    RelatedDepends(p, cs, p.post);
    RectanglesGiveInvariant(p, cs, invs, inv);
  }

  lemma PostOfPart(p: Problem, c: Class, inv: Formula, x: State)
    requires SubInvariant(RecPost, p, c, inv) && |x| == p.n && Sat(inv, x)
    ensures Somewhere(p.post, c, x)
  {
    hide Sat, Somewhere;
    assert SubPost(RecPost, p, c, x);
  }

  /** The answer for one class is kept by every step, and implies the goal, where the step passes its test. */
  lemma PartOfCross(p: Problem, c: Class, inv: Formula)
    requires SubInvariant(CrossPre, p, c, inv) && CrossPair(p.trans, c, p.n)
    ensures forall x: State | |x| == p.n :: Everywhere(p.pre, c, x) ==> Sat(inv, x)
    ensures forall x: State, y: State | |x| == |y| == p.n :: Sat(inv, x) && SatPair(p.trans, x, y) ==> Sat(inv, y)
    ensures forall x: State | |x| == p.n :: Sat(inv, x) ==> Sat(p.post, x)
  {
    hide Sat, SatPair, Agree, EverywherePair;
    forall x: State | |x| == p.n && Everywhere(p.pre, c, x) ensures Sat(inv, x) { assert SubPre(CrossPre, p, c, x); }
    forall x: State, y: State | |x| == |y| == p.n && Sat(inv, x) && SatPair(p.trans, x, y) ensures Sat(inv, y) {
      assert SubTrans(CrossPre, p, c, x, y);
    }
    forall x: State | |x| == p.n && Sat(inv, x) ensures Sat(p.post, x) {
      assert SubPost(CrossPre, p, c, x);
      AgreeSelf(x, c);
    }
  }

  /** Every start is one for some class alone, whatever the other variables are. */
  ghost predicate StartKept(pre: Formula, cs: seq<Class>, n: nat) {
    forall x: State | |x| == n && Sat(pre, x) :: exists k :: 0 <= k < |cs| && Everywhere(pre, cs[k], x)
  }

  /** The step passes its test for every class. */
  ghost predicate StepPasses(trans: Formula, cs: seq<Class>, n: nat) { forall k | 0 <= k < |cs| :: CrossPair(trans, cs[k], n) }

  /** The disjunction of the answers for some classes is an invariant where the start is kept by them. */
  lemma StartKeptGivesInvariant(p: Problem, cs: seq<Class>, invs: seq<Formula>, inv: Formula)
    requires SubInvariants(CrossPre, p, cs, invs) && StepPasses(p.trans, cs, p.n) && StartKept(p.pre, cs, p.n)
    requires forall x: State :: Sat(inv, x) <==> exists k :: 0 <= k < |invs| && Sat(invs[k], x)
    ensures Invariant(p, inv)
  {
    hide Sat, SatPair, CrossPair, SubInvariant, Everywhere;
    forall k | 0 <= k < |cs|
      ensures forall x: State | |x| == p.n :: Everywhere(p.pre, cs[k], x) ==> Sat(invs[k], x)
      ensures forall x: State, y: State | |x| == |y| == p.n :: Sat(invs[k], x) && SatPair(p.trans, x, y) ==> Sat(invs[k], y)
      ensures forall x: State | |x| == p.n :: Sat(invs[k], x) ==> Sat(p.post, x)
    {
      PartOfCross(p, cs[k], invs[k]);
    }
    forall x: State | |x| == p.n && Sat(p.pre, x) ensures Sat(inv, x) {
      var k :| 0 <= k < |cs| && Everywhere(p.pre, cs[k], x);
    }
  }

  lemma CrossesKeepStart(pre: Formula, cs: seq<Class>, n: nat)
    requires cs != [] && DependsOn(pre, cs, n) && forall k | 0 <= k < |cs| :: Cross(pre, cs[k], n)
    ensures StartKept(pre, cs, n)
  {
    hide Sat, Cross, DependsOn, Everywhere;
    forall x: State | |x| == n && Sat(pre, x) ensures exists k :: 0 <= k < |cs| && Everywhere(pre, cs[k], x) {
      CrossesMultiply(pre, cs, n, x);
    }
  }

  /** The disjunction of the answers for some classes is an invariant where the start is a cross for each and depends on them only. */
  lemma CrossesGiveInvariant(p: Problem, cs: seq<Class>, invs: seq<Formula>, inv: Formula)
    requires cs != [] && SubInvariants(CrossPre, p, cs, invs)
    requires DependsOn(p.pre, cs, p.n) && forall k | 0 <= k < |cs| :: Cross(p.pre, cs[k], p.n) && CrossPair(p.trans, cs[k], p.n)
    requires forall x: State :: Sat(inv, x) <==> exists k :: 0 <= k < |invs| && Sat(invs[k], x)
    ensures Invariant(p, inv)
  {
    hide Sat, Cross, CrossPair, DependsOn, SubInvariants, Invariant, StartKept;
    CrossesKeepStart(p.pre, cs, p.n);
    StartKeptGivesInvariant(p, cs, invs, inv);
  }

  /** The disjunction of the answers for all classes of the relation is an invariant where the start is a cross for each class. */
  lemma CrossPreIsInvariant(p: Problem, cs: seq<Class>, invs: seq<Formula>, inv: Formula)
    requires Related(p, cs) && cs != [] && SubInvariants(CrossPre, p, cs, invs)
    requires forall k | 0 <= k < |cs| :: Cross(p.pre, cs[k], p.n) && CrossPair(p.trans, cs[k], p.n)
    requires forall x: State :: Sat(inv, x) <==> exists k :: 0 <= k < |invs| && Sat(invs[k], x)
    ensures Invariant(p, inv)
  {
    hide Sat, Cross, CrossPair, SubInvariants, Invariant, Related, DependsOn;
    RelatedDepends(p, cs, p.pre);
    CrossesGiveInvariant(p, cs, invs, inv);
  }

  // ---- the dispatcher's tests ----

  /** `checkINVSquarePost`: the solver's answer for each class is exact. */
  method CheckInvSquarePost(p: Problem, cs: seq<Class>, postTest: int -> bool, transTest: int -> bool) returns (ok: bool)
    requires forall k | 0 <= k < |cs| :: postTest(k) == Rectangle(p.post, cs[k], p.n) && transTest(k) == RectanglePair(p.trans, cs[k], p.n)
    ensures ok <==> |cs| > 1 && forall k | 0 <= k < |cs| :: Rectangle(p.post, cs[k], p.n) && RectanglePair(p.trans, cs[k], p.n)
  {
    hide Rectangle, RectanglePair;
    if |cs| <= 1 { return false; }
    for k := 0 to |cs|
      invariant forall j | 0 <= j < k :: Rectangle(p.post, cs[j], p.n) && RectanglePair(p.trans, cs[j], p.n)
    {
      if !postTest(k) { return false; }
      if !transTest(k) { return false; }
    }
    ok := true;
  }

  /** `checkINVCrossPre`. */
  method CheckInvCrossPre(p: Problem, cs: seq<Class>, preTest: int -> bool, transTest: int -> bool) returns (ok: bool)
    requires forall k | 0 <= k < |cs| :: preTest(k) == Cross(p.pre, cs[k], p.n) && transTest(k) == CrossPair(p.trans, cs[k], p.n)
    ensures ok <==> |cs| > 1 && forall k | 0 <= k < |cs| :: Cross(p.pre, cs[k], p.n) && CrossPair(p.trans, cs[k], p.n)
  {
    hide Cross, CrossPair;
    if |cs| <= 1 { return false; }
    for k := 0 to |cs|
      invariant forall j | 0 <= j < k :: Cross(p.pre, cs[j], p.n) && CrossPair(p.trans, cs[j], p.n)
    {
      if !preTest(k) { return false; }
      if !transTest(k) { return false; }
    }
    ok := true;
  }

  // ---- the class ----

  /** The classes whose subproblem was solved, and the answers. */
  function Solved(cs: seq<Class>, answers: seq<Option<Formula>>): seq<Class>
    requires |cs| == |answers|
  {
    if cs == [] then [] else (if answers[0].Some? then [cs[0]] else []) + Solved(cs[1..], answers[1..])
  }

  function Answers(answers: seq<Option<Formula>>): seq<Formula> {
    if answers == [] then [] else (if answers[0].Some? then [answers[0].value] else []) + Answers(answers[1..])
  }

  lemma {:induction false} SolvedArePairs(k: Kind, p: Problem, cs: seq<Class>, answers: seq<Option<Formula>>)
    requires |cs| == |answers| && forall i | 0 <= i < |cs| :: answers[i].Some? ==> SubInvariant(k, p, cs[i], answers[i].value)
    ensures SubInvariants(k, p, Solved(cs, answers), Answers(answers))
    ensures forall c | c in Solved(cs, answers) :: c in cs
  {
    hide SubInvariant;
    if cs != [] { SolvedArePairs(k, p, cs[1..], answers[1..]); }
  }

  lemma {:induction false} AnswersSnoc(answers: seq<Option<Formula>>, a: Option<Formula>)
    ensures Answers(answers + [a]) == Answers(answers) + if a.Some? then [a.value] else []
  {
    if answers == [] {
      assert answers + [a] == [a];
    } else {
      AnswersSnoc(answers[1..], a);
      assert (answers + [a])[1..] == answers[1..] + [a];
    }
  }

  predicate AllAnswered(answers: seq<Option<Formula>>) { forall k | 0 <= k < |answers| :: answers[k].Some? }

  /** Every answer is an invariant of its subproblem. */
  ghost predicate Fit(k: Kind, p: Problem, cs: seq<Class>, answers: seq<Option<Formula>>)
    requires |cs| == |answers|
  {
    forall i | 0 <= i < |cs| :: answers[i].Some? ==> SubInvariant(k, p, cs[i], answers[i].value)
  }

  /** The tests that choose the kind pass for the classes. */
  ghost predicate Passes(k: Kind, p: Problem, cs: seq<Class>) {
    match k
    case RecPost => forall c | c in cs :: Rectangle(p.post, c, p.n)
    case CrossPre => forall c | c in cs :: Cross(p.pre, c, p.n) && CrossPair(p.trans, c, p.n)
    case RecCross => true
  }

  /** When the classes with an answer are enough: the goal (or the start) passes the tests and depends on them only. */
  ghost predicate Enough(k: Kind, p: Problem, cs: seq<Class>) {
    Passes(k, p, cs) && (k == RecPost ==> DependsOn(p.post, cs, p.n)) && (k == CrossPre ==> DependsOn(p.pre, cs, p.n))
  }

  /** Exactly when the classes with an answer are enough; it asks one question about the goal, or the start. */
  ghost predicate Keeps(k: Kind, p: Problem, cs: seq<Class>) {
    match k
    case RecPost => GoalKept(p.post, cs, p.n)
    case CrossPre => StartKept(p.pre, cs, p.n) && StepPasses(p.trans, cs, p.n)
    case RecCross => true
  }

  lemma EnoughKeeps(k: Kind, p: Problem, cs: seq<Class>)
    requires cs != [] && Enough(k, p, cs)
    ensures Keeps(k, p, cs)
  {
    hide DependsOn, Rectangle, Cross, CrossPair, GoalKept, StartKept;
    forall i | 0 <= i < |cs| ensures cs[i] in cs {}
    match k
    case RecPost => RectanglesKeepGoal(p.post, cs, p.n);
    case CrossPre => CrossesKeepStart(p.pre, cs, p.n);
    case RecCross =>
  }

  /** All classes of the relation are enough. */
  lemma AllAreEnough(k: Kind, p: Problem, cs: seq<Class>)
    requires Related(p, cs) && Passes(k, p, cs)
    ensures Enough(k, p, cs)
  {
    hide Related, Passes, DependsOn;
    RelatedDepends(p, cs, p.post);
    RelatedDepends(p, cs, p.pre);
  }

  lemma {:induction false} AllSolved(cs: seq<Class>, answers: seq<Option<Formula>>)
    requires |cs| == |answers| && forall i | 0 <= i < |cs| :: answers[i].Some?
    ensures Solved(cs, answers) == cs
  {
    if cs != [] {
      AllSolved(cs[1..], answers[1..]);
      assert cs == [cs[0]] + cs[1..];
    }
  }

  /** What the combination of the answers says. */
  ghost predicate Combines(k: Kind, invs: seq<Formula>, inv: Formula) {
    match k
    case RecPost => forall env :: Eval(inv, env) <==> AllEval(invs, env)
    case CrossPre => forall env :: Eval(inv, env) <==> SomeEval(invs, env)
    case RecCross => |invs| > 0 && inv == invs[0]
  }

  /** Whatever was combined is an invariant of the whole problem if the solved classes keep the goal, or the start. */
  lemma CombinationIsInvariant(k: Kind, p: Problem, cs: seq<Class>, invs: seq<Formula>, inv: Formula)
    requires SubInvariants(k, p, cs, invs) && Keeps(k, p, cs) && Combines(k, invs, inv)
    ensures Invariant(p, inv)
  {
    hide Eval, SubInvariant, GoalKept, StartKept, StepPasses, Invariant;
    match k
    case RecPost =>
      forall x: State ensures Sat(inv, x) <==> forall i | 0 <= i < |invs| :: Sat(invs[i], x) {}
      GoalKeptGivesInvariant(p, cs, invs, inv);
    case CrossPre =>
      forall x: State ensures Sat(inv, x) <==> exists i :: 0 <= i < |invs| && Sat(invs[i], x) {}
      StartKeptGivesInvariant(p, cs, invs, inv);
    case RecCross => RecCrossIsInvariant(p, cs[0], inv);
  }

  class InvDnC {
    const dnctype: Kind
    var relation: seq<Class>
    var subresults: seq<Formula>

    constructor (dnctype: Kind)
      ensures this.dnctype == dnctype && relation == [] && subresults == []
    {
      this.dnctype := dnctype;
      relation, subresults := [], [];
    }

    /** `init`: the classes of the relation in some order. */
    method Init(varrelation: set<VarsRelation.Class>, ghost p: Problem)
      requires relation == []
      modifies this`relation
      ensures Lists(relation, varrelation)
      ensures VarsRelation.Components(UsedIn(p), varrelation) ==> Related(p, relation)
    {
      hide VarsRelation.Components, Positions;
      var rest := varrelation;
      while rest != {}
        invariant rest <= varrelation
        invariant forall c | c in varrelation && c !in rest :: Positions(c) in relation
        invariant forall k | 0 <= k < |relation| :: exists c :: c in varrelation && relation[k] == Positions(c)
        decreases rest
      {
        var c :| c in rest;
        rest := rest - {c};
        relation := relation + [Positions(c)];
      }
      forall c | c in varrelation ensures Positions(c) in relation { assert c !in rest; }
    }

    /**
     * `solve`, where `answers[k]` is what solving the subproblem of class `k` gave, `None` for a discarded
     * or unsolved one. There is no result, a failure in the program, where nothing was answered.
     */
    method Solve(answers: seq<Option<Formula>>, ghost p: Problem) returns (r: Option<Formula>)
      requires |answers| == |relation| && subresults == []
      modifies this`subresults
      ensures r.None? <==> forall k | 0 <= k < |answers| :: answers[k].None?
      ensures r.Some? ==> Combines(dnctype, Answers(answers), r.value)
      ensures r.Some? && Fit(dnctype, p, relation, answers) && Keeps(dnctype, p, Solved(relation, answers)) ==> Invariant(p, r.value)
      ensures r.Some? && Fit(dnctype, p, relation, answers) && AllAnswered(answers) && Related(p, relation) && Passes(dnctype, p, relation) ==> Invariant(p, r.value)
    {
      hide Eval, SubInvariant, Keeps, Invariant, Passes, Related;
      for k := 0 to |relation|
        invariant subresults == Answers(answers[..k])
        invariant dnctype == RecCross ==> forall i | 0 <= i < k :: answers[i].None?
        invariant subresults == [] <==> forall i | 0 <= i < k :: answers[i].None?
      {
        AnswersSnoc(answers[..k], answers[k]);
        assert answers[..k + 1] == answers[..k] + [answers[k]];
        if answers[k].Some? {
          if dnctype == RecCross {
            FirstAnswer(answers, k);
            r := Some(answers[k].value);
            Conclude(p, answers, r.value);
            return;
          }
          subresults := subresults + [answers[k].value];
        }
      }
      assert answers[..|answers|] == answers;
      if subresults == [] { return None; }
      ghost var invs := subresults;
      var combined := subresults[0];
      CombinedOne(dnctype, invs);
      for i := 1 to |subresults|
        invariant |subresults| == |invs| && forall j | 0 < j < |invs| :: subresults[j] == invs[j]
        invariant Combines(dnctype, invs[..i], combined)
      {
        CombinedNext(dnctype, invs, i, combined);
        combined := if dnctype == RecPost then And([combined, subresults[i]]) else Or([combined, subresults[i]]);
        subresults := subresults[0 := combined];
      }
      assert invs[..|invs|] == invs;
      r := Some(combined);
      Conclude(p, answers, combined);
    }

    lemma Conclude(p: Problem, answers: seq<Option<Formula>>, inv: Formula)
      requires |answers| == |relation| && Combines(dnctype, Answers(answers), inv) && Answers(answers) != []
      ensures Fit(dnctype, p, relation, answers) && Keeps(dnctype, p, Solved(relation, answers)) ==> Invariant(p, inv)
      ensures Fit(dnctype, p, relation, answers) && AllAnswered(answers) && Related(p, relation) && Passes(dnctype, p, relation) ==> Invariant(p, inv)
    {
      hide Eval, SubInvariant, Enough, Keeps, Invariant, Combines, Passes, Related;
      if AllAnswered(answers) && Related(p, relation) && Passes(dnctype, p, relation) {
        AllSolved(relation, answers);
        AllAreEnough(dnctype, p, relation);
        EnoughKeeps(dnctype, p, relation);
      }
      if Fit(dnctype, p, relation, answers) && Keeps(dnctype, p, Solved(relation, answers)) {
        SolvedArePairs(dnctype, p, relation, answers);
        CombinationIsInvariant(dnctype, p, Solved(relation, answers), Answers(answers), inv);
      }
    }
  }

  lemma {:induction false} FirstAnswer(answers: seq<Option<Formula>>, k: nat)
    requires k < |answers| && answers[k].Some? && forall i | 0 <= i < k :: answers[i].None?
    ensures Answers(answers) != [] && Answers(answers)[0] == answers[k].value
  {
    if k > 0 { FirstAnswer(answers[1..], k - 1); }
  }

  lemma CombinedOne(k: Kind, invs: seq<Formula>)
    requires invs != []
    ensures Combines(k, invs[..1], invs[0])
  {
    hide Eval;
    assert invs[..1] == [invs[0]];
  }

  lemma CombinedNext(k: Kind, invs: seq<Formula>, i: nat, combined: Formula)
    requires k != RecCross && 0 < i < |invs| && Combines(k, invs[..i], combined)
    ensures Combines(k, invs[..i + 1], if k == RecPost then And([combined, invs[i]]) else Or([combined, invs[i]]))
  {
    hide Eval;
    var init, more := invs[..i], invs[..i + 1];
    assert more == init + [invs[i]];
    forall env ensures AllEval(more, env) <==> AllEval(init, env) && Eval(invs[i], env) {
      assert forall j | 0 <= j < i :: more[j] == init[j];
    }
    forall env ensures SomeEval(more, env) <==> SomeEval(init, env) || Eval(invs[i], env) {
      if SomeEval(init, env) {
        var j :| 0 <= j < i && Eval(init[j], env);
        assert Eval(more[j], env);
      }
      assert more[i] == invs[i];
    }
    forall env { PairMeaning(combined, invs[i], env); }
  }

  predicate AllEval(fs: seq<Formula>, env: Env) { forall j | 0 <= j < |fs| :: Eval(fs[j], env) }

  predicate SomeEval(fs: seq<Formula>, env: Env) { exists j :: 0 <= j < |fs| && Eval(fs[j], env) }
}
