/**
 Which constraints with negated comparisons the candidate scan still serves.  A scan takes the end of a comparison's
 interval as candidate even under a negation, where that end is the nearest value that does not satisfy it.
 */
module NegatedBounds {
  import opened Wrappers
  import opened Logic
  import opened SingleInvocation

  /** How a comparison, or a negated one, with candidate `c` restricts the function. */
  datatype Kind =
    | Least     // f >= c
    | Most      // f <= c
    | Exactly   // f == c
    | Over      // f > c, a negated Most
    | Under     // f < c, a negated Least
    | Other     // f != c, a negated Exactly
    | Anything  // the function does not occur

  predicate At(k: Kind, c: int, w: int) {
    match k
    case Least => w >= c
    case Most => w <= c
    case Exactly => w == c
    case Over => w > c
    case Under => w < c
    case Other => w != c
    case Anything => true
  }

  predicate AllAt(ks: seq<Kind>, cs: seq<int>, w: int)
    requires |ks| == |cs|
  {
    forall i | 0 <= i < |ks| :: At(ks[i], cs[i], w)
  }

  predicate Twice(ks: seq<Kind>, k: Kind) { exists i, j | 0 <= i < j < |ks| :: ks[i] == k && ks[j] == k }

  /**
   A conjunction is served where an equation fixes the value, where nothing is negated, where strict bounds on one side
   meet a plain bound on the other, and where a single excluded value meets plain bounds on both.
   */
  predicate Good(ks: seq<Kind>) {
    || Exactly in ks
    || (Over !in ks && Under !in ks && Other !in ks)
    || (Other !in ks && Over in ks && Under !in ks && Most in ks)
    || (Other !in ks && Under in ks && Over !in ks && Least in ks)
    || (Over !in ks && Under !in ks && !Twice(ks, Other) && Least in ks && Most in ks)
  }

  // ---- good combinations ----

  /** The extreme one among the values of a kind. */
  lemma {:induction false} Extremal(ks: seq<Kind>, cs: seq<int>, k: Kind, up: bool, n: nat) returns (i: nat)
    requires |ks| == |cs| && n <= |ks| && k in ks[..n]
    ensures i < n && ks[i] == k
    ensures forall j | 0 <= j < n && ks[j] == k :: if up then cs[j] <= cs[i] else cs[j] >= cs[i]
    decreases n
  {
    assert ks[..n] == ks[..n - 1] + [ks[n - 1]];
    if k in ks[..n - 1] {
      i := Extremal(ks, cs, k, up, n - 1);
      if ks[n - 1] == k && (cs[n - 1] > cs[i]) == up { i := n - 1; }
    } else {
      i := n - 1;
    }
  }

  lemma ExtremalOf(ks: seq<Kind>, cs: seq<int>, k: Kind, up: bool) returns (i: nat)
    requires |ks| == |cs| && k in ks
    ensures i < |ks| && ks[i] == k
    ensures forall j | 0 <= j < |ks| && ks[j] == k :: if up then cs[j] <= cs[i] else cs[j] >= cs[i]
  {
    assert ks[..|ks|] == ks;
    i := Extremal(ks, cs, k, up, |ks|);
  }

  /** A good conjunction that can be satisfied is satisfied by a candidate. */
  lemma GoodWitness(ks: seq<Kind>, cs: seq<int>, v: int) returns (i: nat)
    requires |ks| == |cs| && Good(ks) && AllAt(ks, cs, v)
    requires exists j :: 0 <= j < |ks| && ks[j] != Anything
    ensures i < |ks| && ks[i] != Anything && AllAt(ks, cs, cs[i])
  {
    var j :| 0 <= j < |ks| && ks[j] != Anything;
    assert ks[j] in ks;
    if Exactly in ks {
      i := ExtremalOf(ks, cs, Exactly, true);
    } else if Other in ks {
      var least := ExtremalOf(ks, cs, Least, true);
      var most := ExtremalOf(ks, cs, Most, false);
      var other := ExtremalOf(ks, cs, Other, true);
      i := if cs[least] != cs[other] then least else most;
      OnlyOther(ks, other);
    } else if Most in ks && Under !in ks {
      i := ExtremalOf(ks, cs, Most, false);
    } else {
      i := ExtremalOf(ks, cs, Least, true);
    }
  }

  lemma OnlyOther(ks: seq<Kind>, i: nat)
    requires i < |ks| && ks[i] == Other && !Twice(ks, Other)
    ensures forall j | 0 <= j < |ks| && ks[j] == Other :: j == i
  {
  }

  // ---- bad combinations ----

  /** The value that a bad conjunction allows although no candidate satisfies it. */
  function Missed(ks: seq<Kind>): int {
    if Over in ks then 10
    else if Under in ks then -10
    else if Least !in ks && Most in ks then -10
    else 10
  }

  /** Candidates on both sides of it. */
  function Placed(ks: seq<Kind>, i: nat): int
    requires i < |ks|
  {
    var k := ks[i];
    if Over in ks then
      if Under in ks then (if k == Under || k == Most then 11 else 9)
      else if k == Most || (k == Other && Most in ks) then 11 else 9
    else if Under in ks then
      if k == Least || (k == Other && Least in ks) then -11 else -9
    else if Least in ks && Most in ks then
      if k == Most || (k == Other && Other in ks[..i]) then 11 else 9
    else if Least in ks then 9
    else if Most in ks then -9
    else 0
  }

  function Placement(ks: seq<Kind>): (cs: seq<int>)
    ensures |cs| == |ks|
  {
    seq(|ks|, i requires 0 <= i < |ks| => Placed(ks, i))
  }

  /** One of the literals fails. */
  lemma Broken(ks: seq<Kind>, cs: seq<int>, k: Kind, w: int)
    requires |ks| == |cs| && k in ks && forall i | 0 <= i < |ks| && ks[i] == k :: !At(k, cs[i], w)
    ensures !AllAt(ks, cs, w)
  {
    var i :| 0 <= i < |ks| && ks[i] == k;
    assert !At(ks[i], cs[i], w);
  }

  lemma MissedIsAllowed(ks: seq<Kind>)
    requires !Good(ks)
    ensures AllAt(ks, Placement(ks), Missed(ks))
  {
    forall i | 0 <= i < |ks| ensures At(ks[i], Placement(ks)[i], Missed(ks)) {
      assert ks[i] in ks;
    }
  }

  lemma ZeroFails(ks: seq<Kind>)
    requires !Good(ks)
    ensures !AllAt(ks, Placement(ks), 0)
  {
    var cs := Placement(ks);
    if Over in ks { Broken(ks, cs, Over, 0); }
    else if Under in ks { Broken(ks, cs, Under, 0); }
    else if Least in ks { Broken(ks, cs, Least, 0); }
    else if Most in ks { Broken(ks, cs, Most, 0); }
    else { Broken(ks, cs, Other, 0); }
  }

  lemma CandidatesFail(ks: seq<Kind>, i: nat)
    requires !Good(ks) && i < |ks| && ks[i] != Anything
    ensures !AllAt(ks, Placement(ks), Placement(ks)[i])
  {
    var cs := Placement(ks);
    var c := cs[i];
    assert ks[i] in ks;
    if Over in ks {
      if c == 9 { Broken(ks, cs, Over, c); }
      else if Under in ks { Broken(ks, cs, Under, c); }
      else { Broken(ks, cs, Other, c); }
    } else if Under in ks {
      if c == -9 { Broken(ks, cs, Under, c); } else { Broken(ks, cs, Other, c); }
    } else if Least in ks && Most in ks {
      var a, b :| 0 <= a < b < |ks| && ks[a] == Other && ks[b] == Other;
      FirstOther(ks, a, b, c);
    } else {
      Broken(ks, cs, Other, c);
    }
  }

  lemma FirstOther(ks: seq<Kind>, a: nat, b: nat, c: int)
    requires a < b < |ks| && ks[a] == Other && ks[b] == Other && Over !in ks && Under !in ks && Least in ks && Most in ks
    requires c == 9 || c == 11
    ensures !AllAt(ks, Placement(ks), c)
  {
    var cs := Placement(ks);
    if c == 11 {
      assert ks[..b][a] == Other;
      assert !At(ks[b], cs[b], 11);
    } else {
      var f := First(ks, a);
      assert !At(ks[f], cs[f], 9);
    }
  }

  lemma {:induction false} First(ks: seq<Kind>, a: nat) returns (f: nat)
    requires a < |ks| && ks[a] == Other
    ensures f <= a && ks[f] == Other && Other !in ks[..f]
    decreases a
  {
    if Other in ks[..a] {
      var j :| 0 <= j < a && ks[..a][j] == Other;
      f := First(ks, j);
    } else {
      f := a;
    }
  }

  // ---- conjunctions of literals ----

  function AtomOf(l: Formula): Formula { if l.Not? then l.f else l }

  /** A normalised comparison or the negation of one. */
  predicate Literal(l: Formula) { AtomOf(l).Cmp? && Usable(AtomOf(l)) }

  function KindOf(l: Formula): Kind
    requires Literal(l)
  {
    match SideOf(AtomOf(l))
    case Below => if l.Not? then Over else Most
    case Above => if l.Not? then Under else Least
    case Exact => if l.Not? then Other else Exactly
    case Anywhere => Anything
  }

  /** The candidate. */
  function BoundOf(l: Formula): Term
    requires Literal(l)
  {
    CandidateOf(AtomOf(l))
  }

  predicate Literals(ls: seq<Formula>) { forall i | 0 <= i < |ls| :: Literal(ls[i]) }

  function KindsOf(ls: seq<Formula>): (ks: seq<Kind>)
    requires Literals(ls)
    ensures |ks| == |ls|
  {
    seq(|ls|, i requires 0 <= i < |ls| => KindOf(ls[i]))
  }

  function Values(ls: seq<Formula>, env: Env): (cs: seq<int>)
    requires Literals(ls)
    ensures |cs| == |ls|
  {
    seq(|ls|, i requires 0 <= i < |ls| => EvalT(BoundOf(ls[i]), env))
  }

  lemma LiteralMeaning(l: Formula, env: Env, w: int)
    requires Literal(l)
    ensures KindOf(l) != Anything ==> (Eval(l, With(env, w)) <==> At(KindOf(l), EvalT(BoundOf(l), env), w))
    ensures KindOf(l) == Anything ==> Eval(l, With(env, w)) == Eval(l, env)
  {
    hide EvalT, Usable, SideOf, With;
    AtomIsInterval(AtomOf(l), env, w);
    NotMeaning(l, With(env, w));
    NotMeaning(l, env);
  }

  lemma NotMeaning(l: Formula, env: Env)
    ensures Eval(l, env) == (Eval(AtomOf(l), env) == !l.Not?)
  {
  }

  lemma AndMeaning(ls: seq<Formula>, env: Env)
    ensures Eval(And(ls), env) <==> forall i | 0 <= i < |ls| :: Eval(ls[i], env)
  {
  }

  /** Between two values, only the restrictions matter. */
  lemma ConjunctionAt(ls: seq<Formula>, env: Env, v: int, w: int)
    requires Literals(ls) && Solvable(And(ls), env, v)
    ensures Solvable(And(ls), env, w) <==> AllAt(KindsOf(ls), Values(ls, env), w)
  {
    hide Eval, EvalT, Usable, With, Literal, KindOf, At, BoundOf;
    AndMeaning(ls, With(env, v));
    AndMeaning(ls, With(env, w));
    forall i | 0 <= i < |ls| ensures Eval(ls[i], With(env, w)) <==> At(KindsOf(ls)[i], Values(ls, env)[i], w) {
      assert Eval(ls[i], With(env, v));
      LiteralMeaning(ls[i], env, v);
      LiteralMeaning(ls[i], env, w);
      AtAnything(EvalT(BoundOf(ls[i]), env), w);
    }
  }

  lemma AtAnything(c: int, w: int)
    ensures At(Anything, c, w)
  {
  }

  lemma LiteralAtoms(ls: seq<Formula>)
    requires Literals(ls)
    ensures Constraint(And(ls)) && !Fails(And(ls))
    ensures Found(And(ls)) == set i | 0 <= i < |ls| && KindOf(ls[i]) != Anything :: BoundOf(ls[i])
  {
    hide Usable, NormalAtom, Fails, Found, Candidates, Literal, KindOf, BoundOf, AtomOf;
    var f := And(ls);
    AtomsOfAnd(ls);
    forall i | 0 <= i < |ls| ensures Constraint(ls[i]) && Usable(AtomOf(ls[i])) && NormalAtom(AtomOf(ls[i])) {
      LiteralAtom(ls[i]);
      UsableIsNormal(AtomOf(ls[i]));
    }
    assert Args(f) == ls;
    assert Constraint(f);
    FoundAreCandidates(f);
    CandidatesOfAnd(ls);
  }

  lemma AtomsOfAnd(ls: seq<Formula>)
    requires Literals(ls)
    ensures Atoms(And(ls)) == set i | 0 <= i < |ls| :: AtomOf(ls[i])
  {
    hide Literal;
    forall i | 0 <= i < |ls| ensures Atoms(ls[i]) == {AtomOf(ls[i])} { LiteralAtom(ls[i]); }
    assert Args(And(ls)) == ls;
  }

  lemma CandidatesOfAnd(ls: seq<Formula>)
    requires Literals(ls)
    ensures Candidates(And(ls)) == set i | 0 <= i < |ls| && KindOf(ls[i]) != Anything :: BoundOf(ls[i])
  {
    hide CandidateOf, KindOf, Bounding, Atoms;
    AtomsOfAnd(ls);
    forall i | 0 <= i < |ls| ensures Bounding(AtomOf(ls[i])) <==> KindOf(ls[i]) != Anything { BoundingKind(ls[i]); }
    forall c | c in Candidates(And(ls)) ensures exists i :: 0 <= i < |ls| && KindOf(ls[i]) != Anything && c == BoundOf(ls[i]) {
      var a :| a in Atoms(And(ls)) && Bounding(a) && c == CandidateOf(a);
      var i :| 0 <= i < |ls| && a == AtomOf(ls[i]);
      assert KindOf(ls[i]) != Anything;
    }
    forall i | 0 <= i < |ls| && KindOf(ls[i]) != Anything ensures BoundOf(ls[i]) in Candidates(And(ls)) {
      assert Bounding(AtomOf(ls[i])) && AtomOf(ls[i]) in Atoms(And(ls));
    }
  }

  lemma BoundingKind(l: Formula)
    requires Literal(l)
    ensures Bounding(AtomOf(l)) <==> KindOf(l) != Anything
  {
  }

  lemma LiteralAtom(l: Formula)
    requires Literal(l)
    ensures Constraint(l) && Atoms(l) == {AtomOf(l)} && Usable(AtomOf(l))
  {
    var a := AtomOf(l);
    assert Constraint(a) && Atoms(a) == {a};
    if l.Not? {
      assert Args(l) == [a];
      assert forall b :: b in Atoms(l) <==> b in Atoms(Args(l)[0]);
    }
  }

  /** Good kinds are served whatever the bounds are. */
  lemma GoodIsServed(ls: seq<Formula>)
    requires Literals(ls) && Good(KindsOf(ls))
    ensures Served(And(ls))
  {
    hide Solvable, SolvedBy, BoundOf, EvalT, Good, Literal, KindOf, Found;
    var f, ks := And(ls), KindsOf(ls);
    LiteralAtoms(ls);
    forall env, v | Solvable(f, env, v) ensures Covered(f, Found(f), env) {
      ConjunctionAt(ls, env, v, v);
      ConjunctionAt(ls, env, v, 0);
      var cs := Values(ls, env);
      if j :| 0 <= j < |ks| && ks[j] != Anything {
        var i := GoodWitness(ks, cs, v);
        ConjunctionAt(ls, env, v, cs[i]);
        var c := BoundOf(ls[i]);
        assert c in Found(f);
        SolvedAt(f, c, env);
      } else {
        AllAnything(ks, cs, 0);
      }
    }
  }

  lemma AllAnything(ks: seq<Kind>, cs: seq<int>, w: int)
    requires |ks| == |cs| && forall j | 0 <= j < |ks| :: ks[j] == Anything
    ensures AllAt(ks, cs, w)
  {
  }

  /** A literal of the kind with a given candidate. */
  function Sample(k: Kind, c: int): Formula {
    match k
    case Least => Cmp(Le, Num(c), Var(F))
    case Most => Cmp(Ge, Num(c), Var(F))
    case Exactly => Cmp(Eq, Num(c), Var(F))
    case Over => Not(Cmp(Ge, Num(c), Var(F)))
    case Under => Not(Cmp(Le, Num(c), Var(F)))
    case Other => Not(Cmp(Eq, Num(c), Var(F)))
    case Anything => Cmp(Eq, Num(0), Num(0))
  }

  lemma SampleIs(k: Kind, c: int)
    ensures Literal(Sample(k, c)) && KindOf(Sample(k, c)) == k
    ensures k != Anything ==> BoundOf(Sample(k, c)) == Num(c)
    ensures k == Anything ==> forall env :: Eval(Sample(k, c), env)
  {
  }

  function Samples(ks: seq<Kind>): (ls: seq<Formula>)
    ensures |ls| == |ks|
  {
    seq(|ks|, i requires 0 <= i < |ks| => Sample(ks[i], Placed(ks, i)))
  }

  lemma SamplesAre(ks: seq<Kind>)
    ensures Literals(Samples(ks)) && KindsOf(Samples(ks)) == ks
    ensures forall i | 0 <= i < |ks| && ks[i] != Anything :: BoundOf(Samples(ks)[i]) == Num(Placed(ks, i))
    ensures forall i, env | 0 <= i < |ks| && ks[i] == Anything :: Eval(Samples(ks)[i], env)
  {
    hide Sample, Placed, Literal, KindOf, Eval, BoundOf;
    forall i | 0 <= i < |ks|
      ensures Literal(Samples(ks)[i]) && KindOf(Samples(ks)[i]) == ks[i]
      ensures ks[i] != Anything ==> BoundOf(Samples(ks)[i]) == Num(Placed(ks, i))
      ensures ks[i] == Anything ==> forall env :: Eval(Samples(ks)[i], env)
    {
      SampleIs(ks[i], Placed(ks, i));
    }
  }

  lemma SamplesAt(ks: seq<Kind>, env: Env, w: int)
    ensures Solvable(And(Samples(ks)), env, w) <==> AllAt(ks, Placement(ks), w)
  {
    hide Eval, With, EvalT, Sample, Samples, Placed, Literal, KindOf, At, BoundOf;
    SamplesAre(ks);
    var ls := Samples(ks);
    AndMeaning(ls, With(env, w));
    forall i | 0 <= i < |ks| ensures Eval(ls[i], With(env, w)) <==> At(ks[i], Placement(ks)[i], w) {
      assert KindOf(ls[i]) == KindsOf(ls)[i] == ks[i];
      LiteralMeaning(ls[i], env, w);
      AtAnything(Placement(ks)[i], w);
      NumValue(Placed(ks, i), env);
    }
  }

  lemma NumValue(n: int, env: Env)
    ensures EvalT(Num(n), env) == n
  {
  }

  /** Bad kinds are missed for some bounds. */
  lemma BadIsMissed(ks: seq<Kind>)
    requires !Good(ks)
    ensures !Served(And(Samples(ks)))
  {
    hide Solvable, SolvedBy, Sample, Samples, Placed, Literal, KindOf, AllAt, BoundOf, EvalT, Good, Found;
    var f := And(Samples(ks));
    var env := Env((v: Name) => 0, (v: Name) => false, (p: string, vs: seq<int>) => false);
    SamplesAre(ks);
    LiteralAtoms(Samples(ks));
    MissedIsAllowed(ks);
    SamplesAt(ks, env, Missed(ks));
    ZeroFails(ks);
    SamplesAt(ks, env, 0);
    forall c | c in Found(f) ensures !SolvedBy(f, c, env) {
      var i :| 0 <= i < |ks| && KindOf(Samples(ks)[i]) != Anything && c == BoundOf(Samples(ks)[i]);
      assert KindOf(Samples(ks)[i]) == KindsOf(Samples(ks))[i] == ks[i];
      CandidatesFail(ks, i);
      SamplesAt(ks, env, Placed(ks, i));
      NumValue(Placed(ks, i), env);
      SolvedAt(f, c, env);
    }
  }

  /** The exact condition: conjunctions of literals of the given kinds are served for all bounds just where the kinds are good. */
  lemma NegationsAreExact(ks: seq<Kind>)
    ensures (forall ls | Literals(ls) && KindsOf(ls) == ks :: Served(And(ls))) <==> Good(ks)
  {
    hide Served, Good, Literals;
    if Good(ks) {
      forall ls | Literals(ls) && KindsOf(ls) == ks ensures Served(And(ls)) { GoodIsServed(ls); }
    } else {
      SamplesAre(ks);
      BadIsMissed(ks);
    }
  }

  // ---- all constraints ----

  /** The constraint as a disjunction of such conjunctions, whose candidates a scan of it finds. */
  ghost predicate Disjuncts(f: Formula, lss: seq<seq<Formula>>) {
    && (forall i | 0 <= i < |lss| :: Literals(lss[i]) && Found(And(lss[i])) <= Found(f))
    && forall env :: Eval(f, env) <==> exists i :: 0 <= i < |lss| && Eval(And(lss[i]), env)
  }

  /** A constraint is served where the kinds of each disjunct are good. */
  lemma GoodDisjunctsAreServed(f: Formula, lss: seq<seq<Formula>>)
    requires Disjuncts(f, lss) && forall i | 0 <= i < |lss| :: Good(KindsOf(lss[i]))
    ensures Served(f)
  {
    hide Eval, EvalT, With, Literals, Good, Found, KindsOf;
    forall env, v | Solvable(f, env, v) ensures Covered(f, Found(f), env) {
      var i :| 0 <= i < |lss| && Eval(And(lss[i]), With(env, v));
      var g := And(lss[i]);
      GoodIsServed(lss[i]);
      assert Solvable(g, env, v);
      assert Covered(g, Found(g), env);
      forall w | Solvable(g, env, w) ensures Solvable(f, env, w) {
        assert Eval(g, With(env, w));
      }
      if c :| c in Found(g) && SolvedBy(g, c, env) { assert Solvable(f, env, EvalT(c, env)); }
    }
  }

  /** Of `not (x >= f)` only `x` is collected; the chain solves it only where `x` is negative, although `x + 1` always would. */
  lemma StrictBoundIsMissed(chain: Term, env: Env)
    requires var f := Not(Cmp(Ge, Var(Cur(0)), Var(F))); Chooses(chain, f, Found(f), env)
    ensures var f := Not(Cmp(Ge, Var(Cur(0)), Var(F)));
      Solvable(f, env, env.ints(Cur(0)) + 1) && (SolvedBy(f, chain, env) <==> env.ints(Cur(0)) < 0)
  {
    var x := Var(Cur(0));
    var f := Not(Cmp(Ge, x, Var(F)));
    assert Found(f) == {x};
    forall w ensures Solvable(f, env, w) <==> env.ints(Cur(0)) < w {
      assert EvalT(x, With(env, w)) == env.ints(Cur(0)) && EvalT(Var(F), With(env, w)) == w;
    }
    assert EvalT(x, env) == env.ints(Cur(0));
    hide Eval, EvalT, Found, Solvable, SolvedBy, Chooses;
    ChoosesCovered(chain, f, {x}, env);
    SolvedAt(f, x, env);
  }
}
