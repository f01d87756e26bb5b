/** The height search: splitting a constraint into parts, solving with a partial solution, and the table of tried problems. */
module HeightSearch {
  import opened Wrappers
  import opened Logic
  import opened Calls
  import NormalForms

  // ---- problems and solutions ----

  /** The functions to find: names and parameters, the same for all subproblems. */
  datatype Signature = Signature(names: seq<string>, args: map<string, seq<Name>>) {
    ghost predicate Ok() {
      && (forall i, j | 0 <= i < j < |names| :: names[i] != names[j])
      && (forall n | n in names :: n in args)
      && (forall n | n in args :: forall i, j | 0 <= i < j < |args[n]| :: args[n][i] != args[n][j])
    }
  }

  datatype Problem = Problem(finalConstraint: Formula, searchHeight: int)

  type Solution = seq<Func>

  function Find(s: Solution, name: string): Option<Func> {
    if s == [] then None else if s[0].name == name then Some(s[0]) else Find(s[1..], name)
  }

  predicate FuncFits(f: Func, sig: Signature) {
    f.name in sig.names && f.name in sig.args && f.args == sig.args[f.name] && CallFree(f.def) && NormalForms.NonEmpty(f.def)
  }

  /** One definition without calls for each function, in any order. */
  predicate Fits(s: Solution, sig: Signature) {
    (forall i | 0 <= i < |s| :: FuncFits(s[i], sig)) && forall n | n in sig.names :: Find(s, n).Some?
  }

  /** The interpretation of all functions by their definitions. */
  function WithAll(env: Env, s: Solution): Env {
    Env(env.ints, env.bools, (p: string, vs: seq<int>) =>
      var g := Find(s, p);
      if g.Some? && |vs| == |g.value.args| then Eval(g.value.def, Bind(env, g.value.args, vs)) else env.preds(p, vs))
  }

  /** The constraint holds for all inputs. */
  ghost predicate Solves(f: Formula, s: Solution) { forall env :: Eval(f, WithAll(env, s)) }

  lemma {:induction false} FindIsMember(s: Solution, name: string)
    ensures Find(s, name).Some? ==> Find(s, name).value in s && Find(s, name).value.name == name
  {
    if s != [] { FindIsMember(s[1..], name); }
  }

  // ---- a partial solution joined with the functions ----

  function Join(pos: bool, f: Formula, g: Formula): Formula { if pos then And([f, g]) else Or([f, g]) }

  function JoinTruth(pos: bool, a: bool, b: bool): bool { if pos then a && b else a || b }

  lemma JoinMeaning(pos: bool, f: Formula, g: Formula, env: Env)
    ensures Eval(Join(pos, f, g), env) == JoinTruth(pos, Eval(f, env), Eval(g, env))
  {
    assert [f, g][0] == f && [f, g][1] == g;
  }

  function Vars(args: seq<Name>): (ts: seq<Term>)
    ensures |ts| == |args|
  {
    seq(|args|, i requires 0 <= i < |args| => Var(args[i]))
  }

  /** `newf` of `getSimpProb`: the partial solution joined with the function itself. */
  function SimpFunc(e: Func, pos: bool): Func { Func(e.name, e.args, Join(pos, e.def, Call(e.name, Vars(e.args)))) }

  /** The interpretation in which the functions in `names` are joined with the partial solution. */
  function Joined(env: Env, e: Solution, names: seq<string>, pos: bool): Env {
    Env(env.ints, env.bools, (p: string, vs: seq<int>) =>
      var g := Find(e, p);
      if p in names && g.Some? && |vs| == |g.value.args|
      then JoinTruth(pos, Eval(g.value.def, Bind(env, g.value.args, vs)), env.preds(p, vs))
      else env.preds(p, vs))
  }

  lemma {:induction false} ArgMapKeys(args: seq<Name>, ts: seq<Term>, v: Name)
    requires |args| == |ts|
    ensures v in ArgMap(args, ts) <==> v in args
  {
    if args != [] {
      ArgMapKeys(args[1..], ts[1..], v);
      assert args == [args[0]] + args[1..];
    }
  }

  lemma {:induction false} ArgMapAt(args: seq<Name>, ts: seq<Term>, i: nat)
    requires |args| == |ts| && i < |args| && forall a, b | 0 <= a < b < |args| :: args[a] != args[b]
    ensures args[i] in ArgMap(args, ts) && ArgMap(args, ts)[args[i]] == ts[i]
  {
    ArgMapKeys(args, ts, args[i]);
    if i > 0 {
      ArgMapAt(args[1..], ts[1..], i - 1);
      assert args[0] != args[i];
    }
  }

  /** The parameters, bound to values, have these values. */
  lemma VarsBound(args: seq<Name>, vs: seq<int>, env: Env)
    requires |args| == |vs| && forall a, b | 0 <= a < b < |args| :: args[a] != args[b]
    ensures Values(Vars(args), Bind(env, args, vs)) == vs
  {
    forall i | 0 <= i < |args| ensures EvalT(Vars(args)[i], Bind(env, args, vs)) == vs[i] { ArgMapAt(args, Nums(vs), i); }
    ValuesAt(Vars(args), Bind(env, args, vs));
  }

  lemma {:induction false} ValuesAt(ts: seq<Term>, env: Env)
    ensures forall i | 0 <= i < |ts| :: Values(ts, env)[i] == EvalT(ts[i], env)
  {
    if ts != [] { ValuesAt(ts[1..], env); }
  }

  lemma BindNames(a: Env, b: Env, args: seq<Name>, vs: seq<int>)
    requires |args| == |vs| && SameNames(a, b)
    ensures SameNames(Bind(a, args, vs), Bind(b, args, vs))
  {
    forall v ensures Bind(a, args, vs).ints(v) == Bind(b, args, vs).ints(v) { BoundNum(a, b, args, vs, v); }
  }

  lemma {:induction false} BoundNum(a: Env, b: Env, args: seq<Name>, vs: seq<int>, v: Name)
    requires |args| == |vs| && SameNames(a, b)
    ensures Bind(a, args, vs).ints(v) == Bind(b, args, vs).ints(v)
  {
    if args != [] {
      BoundNum(a, b, args[1..], vs[1..], v);
      assert Nums(vs)[1..] == Nums(vs[1..]);
    }
  }

  /** What the joined function returns: one more name joined. */
  lemma JoinStep(env: Env, e: Solution, g: Func, names: seq<string>, pos: bool, p: string, vs: seq<int>)
    requires Find(e, g.name) == Some(g) && CallFree(g.def) && g.name !in names
    requires forall a, b | 0 <= a < b < |g.args| :: g.args[a] != g.args[b]
    ensures Defining(Joined(env, e, names, pos), SimpFunc(g, pos)).preds(p, vs) == Joined(env, e, [g.name] + names, pos).preds(p, vs)
  {
    hide Eval, Bind, CallFree, Values;
    var j := Joined(env, e, names, pos);
    if p == g.name && |vs| == |g.args| {
      var b := Bind(j, g.args, vs);
      JoinMeaning(pos, g.def, Call(g.name, Vars(g.args)), b);
      VarsBound(g.args, vs, j);
      CallValue(g.name, Vars(g.args), b);
      BindPreds(j, g.args, vs);
      BindNames(j, env, g.args, vs);
      CallFreeSame(g.def, b, Bind(env, g.args, vs));
      assert j.preds(p, vs) == env.preds(p, vs);
    }
  }

  lemma CallValue(p: string, ts: seq<Term>, env: Env)
    ensures Eval(Call(p, ts), env) == env.preds(p, Values(ts, env))
  {
  }

  lemma BindPreds(env: Env, args: seq<Name>, vs: seq<int>)
    requires |args| == |vs|
    ensures Bind(env, args, vs).preds == env.preds
  {
  }

  /** `getSimpProb`: the constraint with every function joined with the partial solution. */
  function Simplified(f: Formula, e: Solution, names: seq<string>, pos: bool): Formula {
    if names == [] then f
    else
      var n := |names| - 1;
      var g := Simplified(f, e, names[..n], pos);
      match Find(e, names[n]) case None => g case Some(h) => Inline(g, SimpFunc(h, pos))
  }

  /** The constraint means the same under any interpretation that joins the functions named so far. */
  lemma {:induction false} SimplifiedMeaning(f: Formula, e: Solution, sig: Signature, done: seq<string>, rest: seq<string>, pos: bool, env: Env)
    requires sig.Ok() && Fits(e, sig) && sig.names == done + rest
    ensures Eval(Simplified(f, e, done, pos), Joined(env, e, rest, pos)) == Eval(f, Joined(env, e, sig.names, pos))
    decreases |done|
  {
    hide Eval, Inline, Joined, CallFree, Defining, SimpFunc;
    if done == [] {
      assert rest == sig.names;
    } else {
      var n := |done| - 1;
      var g := Find(e, done[n]).value;
      FindIsMember(e, done[n]);
      assert sig.names[n] == done[n];
      assert g.name !in rest by {
        forall i | 0 <= i < |rest| ensures rest[i] != g.name { assert sig.names[n + 1 + i] == rest[i]; }
      }
      assert done[..n] + ([g.name] + rest) == sig.names;
      SimplifiedMeaning(f, e, sig, done[..n], [g.name] + rest, pos, env);
      InlineMeaning(Simplified(f, e, done[..n], pos), SimpFunc(g, pos), Joined(env, e, rest, pos));
      forall p, vs ensures Defining(Joined(env, e, rest, pos), SimpFunc(g, pos)).preds(p, vs) == Joined(env, e, [g.name] + rest, pos).preds(p, vs) {
        JoinStep(env, e, g, rest, pos, p, vs);
      }
      SameWhenJoined(env, e, g, rest, pos);
      EvalSame(Simplified(f, e, done[..n], pos), Defining(Joined(env, e, rest, pos), SimpFunc(g, pos)), Joined(env, e, [g.name] + rest, pos));
    }
  }

  lemma SameWhenJoined(env: Env, e: Solution, g: Func, rest: seq<string>, pos: bool)
    ensures Defining(Joined(env, e, rest, pos), SimpFunc(g, pos)).ints == Joined(env, e, [g.name] + rest, pos).ints
    ensures Defining(Joined(env, e, rest, pos), SimpFunc(g, pos)).bools == Joined(env, e, [g.name] + rest, pos).bools
  {
  }

  /** `getCombinedResults`. */
  function Combined(e: Solution, s: Solution, pos: bool): (r: Solution)
    ensures |r| == |e|
  {
    if e == [] then []
    else
      var f := Find(s, e[0].name);
      [Func(e[0].name, e[0].args, if f.None? then e[0].def else Join(pos, e[0].def, f.value.def))] + Combined(e[1..], s, pos)
  }

  lemma CombinedHead(e: Solution, s: Solution, pos: bool)
    requires e != []
    ensures var f := Find(s, e[0].name);
      Combined(e, s, pos) == [Func(e[0].name, e[0].args, if f.None? then e[0].def else Join(pos, e[0].def, f.value.def))] + Combined(e[1..], s, pos)
  {
  }

  lemma CombinedNone(s: Solution, pos: bool)
    ensures Combined([], s, pos) == []
  {
  }

  lemma {:induction false} FindCombined(e: Solution, s: Solution, pos: bool, p: string)
    ensures Find(Combined(e, s, pos), p) == match Find(e, p) {
      case None => None
      case Some(g) => Some(Func(g.name, g.args, if Find(s, p).None? then g.def else Join(pos, g.def, Find(s, p).value.def)))
    }
  {
    if e != [] { FindCombined(e[1..], s, pos, p); }
  }

  lemma {:induction false} CombinedFits(e: Solution, s: Solution, pos: bool, sig: Signature)
    requires Fits(e, sig) && Fits(s, sig)
    ensures Fits(Combined(e, s, pos), sig)
  {
    var r := Combined(e, s, pos);
    forall n | n in sig.names ensures Find(r, n).Some? { FindCombined(e, s, pos, n); }
    CombinedFuncsFit(e, s, pos, sig);
  }

  lemma {:induction false} CombinedFuncsFit(e: Solution, s: Solution, pos: bool, sig: Signature)
    requires (forall i | 0 <= i < |e| :: FuncFits(e[i], sig)) && Fits(s, sig)
    ensures forall i | 0 <= i < |e| :: FuncFits(Combined(e, s, pos)[i], sig)
  {
    if e != [] {
      CombinedFuncsFit(e[1..], s, pos, sig);
      var f := Find(s, e[0].name).value;
      FindIsMember(s, e[0].name);
      JoinShape(pos, e[0].def, f.def);
    }
  }

  lemma JoinShape(pos: bool, f: Formula, g: Formula)
    ensures CallFree(f) && CallFree(g) ==> CallFree(Join(pos, f, g))
    ensures NormalForms.NonEmpty(f) && NormalForms.NonEmpty(g) ==> NormalForms.NonEmpty(Join(pos, f, g))
  {
  }

  /** The joined interpretation of a solution is that of the combined solution. */
  lemma CombinedIsJoined(env: Env, e: Solution, s: Solution, sig: Signature, pos: bool, p: string, vs: seq<int>)
    requires sig.Ok() && Fits(e, sig) && Fits(s, sig)
    ensures Joined(WithAll(env, s), e, sig.names, pos).preds(p, vs) == WithAll(env, Combined(e, s, pos)).preds(p, vs)
  {
    hide Eval, Bind, CallFree;
    FindCombined(e, s, pos, p);
    FindIsMember(e, p);
    FindIsMember(s, p);
    if Find(e, p).Some? {
      var g := Find(e, p).value;
      assert p in sig.names && Find(s, p).Some?;
      var f := Find(s, p).value;
      assert f.args == g.args;
      if |vs| == |g.args| {
        JoinMeaning(pos, g.def, f.def, Bind(env, g.args, vs));
        BindNames(WithAll(env, s), env, g.args, vs);
        CallFreeSame(g.def, Bind(WithAll(env, s), g.args, vs), Bind(env, g.args, vs));
      }
    }
  }

  /** What solves the simplified problem is exactly what, combined with the partial solution, solves the problem. */
  lemma SimplifiedIsSound(f: Formula, e: Solution, s: Solution, sig: Signature, pos: bool)
    requires sig.Ok() && Fits(e, sig) && Fits(s, sig)
    ensures Solves(Simplified(f, e, sig.names, pos), s) <==> Solves(f, Combined(e, s, pos))
    ensures Fits(Combined(e, s, pos), sig)
  {
    hide Eval, Joined, WithAll, Combined, Fits, Simplified;
    CombinedFits(e, s, pos, sig);
    forall env ensures Eval(f, WithAll(env, Combined(e, s, pos))) == Eval(Simplified(f, e, sig.names, pos), WithAll(env, s)) {
      var w := WithAll(env, s);
      assert sig.names + [] == sig.names;
      SimplifiedMeaning(f, e, sig, sig.names, [], pos, w);
      JoinedNone(w, e, pos);
      EvalSame(Simplified(f, e, sig.names, pos), Joined(w, e, [], pos), w);
      forall p, vs ensures Joined(w, e, sig.names, pos).preds(p, vs) == WithAll(env, Combined(e, s, pos)).preds(p, vs) {
        CombinedIsJoined(env, e, s, sig, pos, p, vs);
      }
      SameNamesAll(env, e, s, sig.names, pos);
      EvalSame(f, Joined(w, e, sig.names, pos), WithAll(env, Combined(e, s, pos)));
    }
  }

  lemma JoinedNone(env: Env, e: Solution, pos: bool)
    ensures SameValues(Joined(env, e, [], pos), env)
  {
  }

  lemma SameNamesAll(env: Env, e: Solution, s: Solution, names: seq<string>, pos: bool)
    ensures Joined(WithAll(env, s), e, names, pos).ints == WithAll(env, Combined(e, s, pos)).ints
    ensures Joined(WithAll(env, s), e, names, pos).bools == WithAll(env, Combined(e, s, pos)).bools
  {
  }

  // ---- the parts of a constraint ----

  datatype ExprType = POS | MIX | NEG

  /** `isPos`: a call under an even number of negations. */
  predicate IsPos(f: Formula) {
    match f
    case Not(Not(g)) => IsPos(g)
    case Call(_, ts) => ts != []
    case _ => false
  }

  /** `isNeg`. */
  predicate IsNeg(f: Formula) {
    match f
    case Not(Not(g)) => IsNeg(g)
    case Not(Call(_, ts)) => ts != []
    case _ => false
  }

  /** `getExprType` of a clause. */
  method GetExprType(clause: Formula) returns (t: ExprType)
    ensures t == TypeOf(clause)
  {
    var orList := NormalForms.Flat(NormalForms.Conj, clause);
    var pos, neg := false, false;
    for i := 0 to |orList|
      invariant pos <==> exists j | 0 <= j < i :: IsPos(orList[j])
      invariant neg <==> exists j | 0 <= j < i :: IsNeg(orList[j])
    {
      if IsPos(orList[i]) { pos := true; }
      if IsNeg(orList[i]) { neg := true; }
    }
    t := if pos && neg then MIX else if pos then POS else if neg then NEG else MIX;
  }

  /** Only positive calls, only negative calls, or both or none. */
  function TypeOf(clause: Formula): ExprType {
    var fs := NormalForms.Flat(NormalForms.Conj, clause);
    var pos, neg := exists j | 0 <= j < |fs| :: IsPos(fs[j]), exists j | 0 <= j < |fs| :: IsNeg(fs[j]);
    if pos == neg then MIX else if pos then POS else NEG
  }

  /** A literal: a call with arguments, under any number of negations, or a formula without calls. */
  predicate Signed(f: Formula) {
    match f
    case Not(Not(g)) => Signed(g)
    case Call(_, ts) => ts != [] && forall i | 0 <= i < |ts| :: CallFreeT(ts[i])
    case Not(Call(_, ts)) => ts != [] && forall i | 0 <= i < |ts| :: CallFreeT(ts[i])
    case _ => CallFree(f)
  }

  /** The second interpretation makes the functions true more often, and differs in nothing else. */
  ghost predicate Grows(a: Env, b: Env) { SameNames(a, b) && forall p, vs :: a.preds(p, vs) ==> b.preds(p, vs) }

  lemma {:induction false} LiteralMonotone(f: Formula, a: Env, b: Env)
    requires Signed(f) && Grows(a, b)
    ensures !IsNeg(f) && Eval(f, a) ==> Eval(f, b)
    ensures !IsPos(f) && Eval(f, b) ==> Eval(f, a)
  {
    match f
    case Not(Not(g)) =>
      LiteralMonotone(g, a, b);
      TwiceNegated(g, a);
      TwiceNegated(g, b);
    case Call(_, ts) => CallFreeSum(ts, a, b);
    case Not(Call(p, ts)) =>
      CallFreeSum(ts, a, b);
      NegatedCall(p, ts, a);
      NegatedCall(p, ts, b);
    case _ => CallFreeSame(f, a, b);
  }

  lemma NegatedCall(p: string, ts: seq<Term>, env: Env)
    ensures Eval(Not(Call(p, ts)), env) == !env.preds(p, Values(ts, env))
  {
    CallValue(p, ts, env);
  }

  lemma TwiceNegated(g: Formula, env: Env)
    ensures Eval(Not(Not(g)), env) == Eval(g, env)
  {
    assert Eval(Not(g), env) == !Eval(g, env);
  }

  /** The type of a clause is what it is taken for: a positive one stays true when functions grow, a negative one when they shrink. */
  lemma TypeIsMonotone(clause: Formula, a: Env, b: Env)
    requires forall f | f in NormalForms.Flat(NormalForms.Conj, clause) :: Signed(f)
    requires Grows(a, b)
    ensures TypeOf(clause) == POS && Eval(clause, a) ==> Eval(clause, b)
    ensures TypeOf(clause) == NEG && Eval(clause, b) ==> Eval(clause, a)
  {
    hide Eval, Signed, IsPos, IsNeg, Grows, NormalForms.Flat;
    var fs := NormalForms.Flat(NormalForms.Conj, clause);
    NormalForms.FlatMeaning(NormalForms.Conj, clause, a);
    NormalForms.FlatMeaning(NormalForms.Conj, clause, b);
    forall f | f in fs
      ensures !IsNeg(f) && Eval(f, a) ==> Eval(f, b)
      ensures !IsPos(f) && Eval(f, b) ==> Eval(f, a)
    {
      LiteralMonotone(f, a, b);
    }
  }

  /** Growing functions can make the literal true, or false. */
  ghost predicate Rises(f: Formula) { exists a, b :: Grows(a, b) && !Eval(f, a) && Eval(f, b) }

  ghost predicate Falls(f: Formula) { exists a, b :: Grows(a, b) && Eval(f, a) && !Eval(f, b) }

  /** All functions false, or all true. */
  function Constantly(value: bool): Env { Env((v: Name) => 0, (v: Name) => false, (p: string, vs: seq<int>) => value) }

  lemma {:induction false} CallTurns(f: Formula)
    requires Signed(f)
    ensures IsPos(f) ==> !Eval(f, Constantly(false)) && Eval(f, Constantly(true))
    ensures IsNeg(f) ==> Eval(f, Constantly(false)) && !Eval(f, Constantly(true))
  {
    match f
    case Not(Not(g)) =>
      CallTurns(g);
      TwiceNegated(g, Constantly(false));
      TwiceNegated(g, Constantly(true));
    case Call(p, ts) =>
      CallValue(p, ts, Constantly(false));
      CallValue(p, ts, Constantly(true));
    case Not(Call(p, ts)) =>
      NegatedCall(p, ts, Constantly(false));
      NegatedCall(p, ts, Constantly(true));
    case _ =>
  }

  /** The signs of the calls in a literal say exactly which way growing functions can turn it. */
  lemma SignsAreExact(f: Formula)
    requires Signed(f)
    ensures IsPos(f) <==> Rises(f)
    ensures IsNeg(f) <==> Falls(f)
  {
    hide Eval, Signed, IsPos, IsNeg;
    var none, all := Constantly(false), Constantly(true);
    assert Grows(none, all);
    CallTurns(f);
    forall a, b | Grows(a, b)
      ensures !IsNeg(f) && Eval(f, a) ==> Eval(f, b)
      ensures !IsPos(f) && Eval(f, b) ==> Eval(f, a)
    {
      LiteralMonotone(f, a, b);
    }
  }

  /** A clause is positive, or negative, exactly if growing functions turn some of its literals this way and none the other way. */
  lemma TypeIsExact(clause: Formula)
    requires forall f | f in NormalForms.Flat(NormalForms.Conj, clause) :: Signed(f)
    ensures var fs := NormalForms.Flat(NormalForms.Conj, clause);
            var rises, falls := exists f :: f in fs && Rises(f), exists f :: f in fs && Falls(f);
            TypeOf(clause) == if rises && !falls then POS else if falls && !rises then NEG else MIX
  {
    hide Signed, IsPos, IsNeg, Rises, Falls, NormalForms.Flat;
    forall f | f in NormalForms.Flat(NormalForms.Conj, clause)
      ensures IsPos(f) <==> Rises(f)
      ensures IsNeg(f) <==> Falls(f)
    {
      SignsAreExact(f);
    }
  }

  /** The clauses that joining with a partial solution cannot spoil: negative ones for a conjunction, positive ones for a disjunction. */
  ghost predicate Unspoiled(clauses: seq<Formula>, pos: bool) {
    forall c | c in clauses ::
      TypeOf(c) == (if pos then NEG else POS) && forall f | f in NormalForms.Flat(NormalForms.Conj, c) :: Signed(f)
  }

  /** Joining by conjunction makes the functions true less often, joining by disjunction more often. */
  lemma CombinedShrinks(env: Env, e: Solution, s: Solution, sig: Signature, pos: bool)
    requires sig.Ok() && Fits(e, sig) && Fits(s, sig)
    ensures if pos then Grows(WithAll(env, Combined(e, s, pos)), WithAll(env, s)) else Grows(WithAll(env, s), WithAll(env, Combined(e, s, pos)))
  {
    hide Eval, Bind, Combined, Fits;
    forall p, vs
      ensures WithAll(env, Combined(e, s, pos)).preds(p, vs) == Joined(WithAll(env, s), e, sig.names, pos).preds(p, vs)
    {
      CombinedIsJoined(env, e, s, sig, pos, p, vs);
    }
  }

  /** What solves the clauses left out still does when combined with any partial solution. */
  lemma LeftOutStaysSolved(rest: seq<Formula>, e: Solution, s: Solution, sig: Signature, pos: bool)
    requires sig.Ok() && Fits(e, sig) && Fits(s, sig) && Unspoiled(rest, pos) && Solves(And(rest), s)
    ensures Solves(And(rest), Combined(e, s, pos))
    ensures Solves(Simplified(And(rest), e, sig.names, pos), s)
  {
    hide Eval, Combined, Fits, WithAll, TypeOf, Signed, Grows, Simplified, NormalForms.Flat;
    var c := Combined(e, s, pos);
    forall env ensures Eval(And(rest), WithAll(env, c)) {
      CombinedShrinks(env, e, s, sig, pos);
      AndIsAll(rest, WithAll(env, s));
      AndIsAll(rest, WithAll(env, c));
      assert Eval(And(rest), WithAll(env, s));
      forall f | f in rest ensures Eval(f, WithAll(env, c)) {
        if pos { TypeIsMonotone(f, WithAll(env, c), WithAll(env, s)); } else { TypeIsMonotone(f, WithAll(env, s), WithAll(env, c)); }
      }
    }
    SimplifiedIsSound(And(rest), e, s, sig, pos);
  }

  function Pick(fs: seq<Formula>, t: ExprType): seq<Formula> {
    if fs == [] then []
    else
      var n := |fs| - 1;
      Pick(fs[..n], t) + if TypeOf(fs[n]) == t then [fs[n]] else []
  }

  ghost predicate AllTrue(fs: seq<Formula>, env: Env) { forall f | f in fs :: Eval(f, env) }

  lemma AndIsAll(fs: seq<Formula>, env: Env)
    ensures Eval(And(fs), env) <==> AllTrue(fs, env)
  {
    forall f | f in fs && Eval(And(fs), env) ensures Eval(f, env) {
      var i :| 0 <= i < |fs| && fs[i] == f;
    }
  }

  lemma AllTrueConcat(a: seq<Formula>, b: seq<Formula>, env: Env)
    ensures AllTrue(a + b, env) <==> AllTrue(a, env) && AllTrue(b, env)
  {
    hide Eval;
    assert forall f :: f in a + b <==> f in a || f in b;
  }

  lemma {:induction false} PickParts(fs: seq<Formula>, env: Env)
    ensures AllTrue(fs, env) <==> AllTrue(Pick(fs, POS), env) && AllTrue(Pick(fs, MIX), env) && AllTrue(Pick(fs, NEG), env)
    ensures forall t, f | f in Pick(fs, t) :: f in fs
  {
    hide Eval, AllTrue, TypeOf;
    if fs == [] {
    } else {
      var n := |fs| - 1;
      PickParts(fs[..n], env);
      assert fs == fs[..n] + [fs[n]];
      AllTrueConcat(fs[..n], [fs[n]], env);
      forall t { AllTrueConcat(Pick(fs[..n], t), if TypeOf(fs[n]) == t then [fs[n]] else [], env); }
      AllTrueNone(env);
      assert TypeOf(fs[n]) == POS || TypeOf(fs[n]) == MIX || TypeOf(fs[n]) == NEG;
    }
    AllTrueNone(env);
  }

  lemma AllTrueNone(env: Env)
    ensures AllTrue([], env)
  {
  }

  // ---- conversion where only the outer conjunctions may be empty ----

  /** Nested conjunctions, possibly empty ones, over formulas without empty arguments. */
  predicate TopNonEmpty(f: Formula) {
    NormalForms.NonEmpty(f) || (f.And? && forall i | 0 <= i < |f.fs| :: TopNonEmpty(f.fs[i]))
  }

  /** The conjunctive form of such a formula exists and means the same. */
  lemma {:induction false} TopConverted(f: Formula, env: Env)
    requires TopNonEmpty(f)
    ensures NormalForms.NormalForm(NormalForms.Disj, f).Some?
    ensures Eval(NormalForms.NormalForm(NormalForms.Disj, f).value, env) == Eval(f, env)
  {
    hide Eval, NormalForms.Converted, NormalForms.ConvertedAll, NormalForms.NonEmpty, NormalForms.NormalForm;
    if NormalForms.NonEmpty(f) {
      NormalForms.NormalFormIsRight(NormalForms.Disj, f);
    } else {
      forall i | 0 <= i < |f.fs|
        ensures NormalForms.NormalForm(NormalForms.Disj, f.fs[i]).Some?
        ensures Eval(NormalForms.NormalForm(NormalForms.Disj, f.fs[i]).value, env) == Eval(f.fs[i], env)
      {
        TopConverted(f.fs[i], env);
      }
      TopConvertedAnd(f, env);
    }
  }

  lemma TopConvertedAnd(f: Formula, env: Env)
    requires f.And?
    requires forall i | 0 <= i < |f.fs| :: NormalForms.NormalForm(NormalForms.Disj, f.fs[i]).Some?
    requires forall i | 0 <= i < |f.fs| :: Eval(NormalForms.NormalForm(NormalForms.Disj, f.fs[i]).value, env) == Eval(f.fs[i], env)
    ensures NormalForms.NormalForm(NormalForms.Disj, f).Some?
    ensures Eval(NormalForms.NormalForm(NormalForms.Disj, f).value, env) == Eval(f, env)
  {
    hide Eval, NormalForms.Converted, NormalForms.ConvertedAll, NormalForms.NonEmpty;
    NormalForms.EliminateImpEqShape(f);
    NormalForms.PushShape(NormalForms.EliminateImpEq(f));
    var g := NormalForms.PushNegIn(NormalForms.EliminateImpEq(f));
    assert g.And? && |g.fs| == |f.fs|;
    forall i | 0 <= i < |f.fs| ensures NormalForms.Converted(NormalForms.Disj, g.fs[i]) == NormalForms.NormalForm(NormalForms.Disj, f.fs[i]) {
      NormalForms.EliminateImpEqShape(f.fs[i]);
      NormalForms.PushShape(NormalForms.EliminateImpEq(f.fs[i]));
      assert g.fs[i] == NormalForms.PushNegIn(NormalForms.EliminateImpEq(f.fs[i]));
    }
    NormalForms.ConvertedEach(NormalForms.Disj, g.fs);
    NormalForms.NotAtom(g);
    NormalForms.ConvertedCases(NormalForms.Disj, g);
    var r := NormalForms.NormalForm(NormalForms.Disj, f).value;
    assert r == And(NormalForms.ConvertedAll(NormalForms.Disj, g.fs).value);
    AndEach(r.fs, f.fs, env);
  }

  lemma AndEach(a: seq<Formula>, b: seq<Formula>, env: Env)
    requires |a| == |b| && forall i | 0 <= i < |a| :: Eval(a[i], env) == Eval(b[i], env)
    ensures Eval(And(a), env) == Eval(And(b), env)
  {
  }

  lemma {:induction false} FlatNonEmpty(f: Formula)
    requires NormalForms.NonEmpty(f)
    ensures forall e | e in NormalForms.Flat(NormalForms.Disj, f) :: NormalForms.NonEmpty(e)
    decreases f, 1
  {
    if f.And? { FlatAllNonEmpty(f.fs); }
  }

  lemma {:induction false} FlatAllNonEmpty(fs: seq<Formula>)
    requires forall i | 0 <= i < |fs| :: NormalForms.NonEmpty(fs[i])
    ensures forall e | e in NormalForms.FlatAll(NormalForms.Disj, fs) :: NormalForms.NonEmpty(e)
    decreases fs, 0
  {
    hide NormalForms.NonEmpty;
    if fs != [] {
      FlatNonEmpty(fs[0]);
      FlatAllNonEmpty(fs[1..]);
    }
  }

  /** The clauses of a formula hold together exactly where it does. */
  lemma ClausesMeaning(f: Formula, env: Env)
    ensures AllTrue(NormalForms.Flat(NormalForms.Disj, f), env) <==> Eval(f, env)
  {
    hide Eval, NormalForms.Flat;
    NormalForms.FlatMeaning(NormalForms.Disj, f, env);
  }

  lemma {:induction false} InlineTop(f: Formula, g: Func)
    requires TopNonEmpty(f) && NormalForms.NonEmpty(g.def)
    ensures TopNonEmpty(Inline(f, g))
  {
    if NormalForms.NonEmpty(f) {
      InlineNonEmpty(f, g);
    } else {
      forall i | 0 <= i < |f.fs| ensures TopNonEmpty(Inline(f.fs[i], g)) { InlineTop(f.fs[i], g); }
      assert Inline(f, g).And?;
    }
  }

  lemma {:induction false} SimplifiedTop(f: Formula, e: Solution, sig: Signature, names: seq<string>, pos: bool)
    requires TopNonEmpty(f) && Fits(e, sig)
    ensures TopNonEmpty(Simplified(f, e, names, pos))
  {
    hide TopNonEmpty, Inline, NormalForms.NonEmpty;
    if names != [] {
      var n := |names| - 1;
      SimplifiedTop(f, e, sig, names[..n], pos);
      FindIsMember(e, names[n]);
      if Find(e, names[n]).Some? {
        var g := Find(e, names[n]).value;
        CallIsNonEmpty(g.name, Vars(g.args));
        JoinShape(pos, g.def, Call(g.name, Vars(g.args)));
        InlineTop(Simplified(f, e, names[..n], pos), SimpFunc(g, pos));
      }
    }
  }

  lemma CallIsNonEmpty(p: string, ts: seq<Term>)
    ensures NormalForms.NonEmpty(Call(p, ts))
  {
  }

  // ---- the search ----

  datatype ProbType = POSMIX | NEGMIX | NORMAL

  /** The solutions tried so far, by constraint and height; null where a height failed. */
  type Table = map<Formula, map<int, Option<Solution>>>

  /** Every solution in the table solves the constraint it stands under. */
  ghost predicate Sound(t: Table, sig: Signature) {
    forall f, h | f in t && h in t[f] && t[f][h].Some? :: Solves(f, t[f][h].value) && Fits(t[f][h].value, sig)
  }

  predicate HasSolution(t: Table, f: Formula) { f in t && exists h :: h in t[f] && t[f][h].Some? }

  /** The constraint is solved, or was tried at this height. */
  predicate Tried(t: Table, f: Formula, h: int) { HasSolution(t, f) || (f in t && h in t[f]) }

  /** Nothing is lost: neither solutions nor what was tried. */
  ghost predicate Extends(t: Table, t': Table) {
    (forall g | HasSolution(t, g) :: HasSolution(t', g)) && forall g, h | Tried(t, g, h) :: Tried(t', g, h)
  }

  /** New entries stand at the given height or below. */
  ghost predicate AddsUpTo(t: Table, t': Table, height: int) {
    forall g, h | g in t' && h in t'[g] && h > height :: g in t && h in t[g]
  }

  lemma GrownThen(a: Table, b: Table, c: Table, height: int)
    requires Extends(a, b) && Extends(b, c) && AddsUpTo(a, b, height) && AddsUpTo(b, c, height)
    ensures Extends(a, c) && AddsUpTo(a, c, height)
  {
    hide Extends, AddsUpTo;
    ExtendsThen(a, b, c);
    AddsThen(a, b, c, height, height, height);
  }

  lemma AddsThen(t: Table, t': Table, t'': Table, h: int, k: int, m: int)
    requires AddsUpTo(t, t', h) && AddsUpTo(t', t'', k) && h <= m && k <= m
    ensures AddsUpTo(t, t'', m)
  {
  }

  lemma NotAdded(t: Table, t': Table, f: Formula, height: int)
    requires AddsUpTo(t, t', height - 1)
    ensures f in t' && height in t'[f] ==> f in t && height in t[f]
  {
  }

  lemma PutAdds(t: Table, f: Formula, h: int, s: Option<Solution>)
    ensures AddsUpTo(t, Put(t, f, h, s), h) && AddsUpTo(t, t, h)
  {
  }

  /** The table with one more entry, for a new or a known constraint. */
  function Put(t: Table, f: Formula, h: int, s: Option<Solution>): Table {
    t[f := (if f in t then t[f] else map[])[h := s]]
  }

  lemma PutKeeps(t: Table, f: Formula, h: int, s: Option<Solution>, sig: Signature)
    requires Sound(t, sig) && (s.Some? ==> Solves(f, s.value) && Fits(s.value, sig))
    ensures Sound(Put(t, f, h, s), sig)
    ensures s.Some? ==> HasSolution(Put(t, f, h, s), f)
    ensures s.Some? || f !in t || h !in t[f] ==> Extends(t, Put(t, f, h, s))
    ensures f in Put(t, f, h, s) && h in Put(t, f, h, s)[f] && Put(t, f, h, s)[f][h] == s
  {
    hide Solves, Fits;
    var t': Table := Put(t, f, h, s);
    if s.Some? { assert h in t'[f] && t'[f][h] == s; }
    if s.Some? || f !in t || h !in t[f] {
      forall g | HasSolution(t, g) ensures HasSolution(t', g) {
        var k :| k in t[g] && t[g][k].Some?;
        assert k in t'[g];
      }
      forall g, k | Tried(t, g, k) ensures Tried(t', g, k) {
        if !HasSolution(t, g) { assert k in t'[g]; }
      }
    }
  }

  /** The simplifier keeps the meaning; the fixed-height search returns verified functions only. */
  ghost predicate FaithfulOracles(sig: Signature, simplify: Formula -> Formula, fixedHeight: (nat, Problem, int, ProbType) -> Option<Solution>) {
    && (forall f :: Equivalent(simplify(f), f) && NormalForms.NonEmpty(simplify(f)))
    && (forall n, p, h, t :: fixedHeight(n, p, h, t).Some? ==>
          Solves(p.finalConstraint, fixedHeight(n, p, h, t).value) && Fits(fixedHeight(n, p, h, t).value, sig))
  }

  /** Empty connectives replaced by constants. */
  function Cleaned(f: Formula): Formula {
    match f
    case And(fs) => if fs == [] then True else And(seq(|fs|, i requires 0 <= i < |fs| => Cleaned(fs[i])))
    case Or(fs) => if fs == [] then False else Or(seq(|fs|, i requires 0 <= i < |fs| => Cleaned(fs[i])))
    case Not(g) => Not(Cleaned(g))
    case Iff(l, r) => Iff(Cleaned(l), Cleaned(r))
    case Implies(l, r) => Implies(Cleaned(l), Cleaned(r))
    case Ite(c, t, e) => Ite(Cleaned(c), Cleaned(t), Cleaned(e))
    case _ => f
  }

  lemma {:induction false} CleanedIsRight(f: Formula, env: Env)
    ensures Eval(Cleaned(f), env) == Eval(f, env) && NormalForms.NonEmpty(Cleaned(f))
  {
    match f
    case And(fs) =>
      forall i | 0 <= i < |fs| ensures Eval(Cleaned(fs[i]), env) == Eval(fs[i], env) && NormalForms.NonEmpty(Cleaned(fs[i])) { CleanedIsRight(fs[i], env); }
      if fs != [] { NormalForms.SameConnectives(fs, Cleaned(f).fs, env); }
    case Or(fs) =>
      forall i | 0 <= i < |fs| ensures Eval(Cleaned(fs[i]), env) == Eval(fs[i], env) && NormalForms.NonEmpty(Cleaned(fs[i])) { CleanedIsRight(fs[i], env); }
      if fs != [] { NormalForms.SameConnectives(fs, Cleaned(f).fs, env); }
    case Not(g) => CleanedIsRight(g, env);
    case Iff(l, r) => CleanedIsRight(l, env); CleanedIsRight(r, env);
    case Implies(l, r) => CleanedIsRight(l, env); CleanedIsRight(r, env);
    case Ite(c, t, e) => CleanedIsRight(c, env); CleanedIsRight(t, env); CleanedIsRight(e, env);
    case _ =>
  }

  /** A solution wherever there is one. */
  ghost function AnySolution(f: Formula, sig: Signature): (s: Option<Solution>)
    ensures s.Some? ==> Solves(f, s.value) && Fits(s.value, sig)
    ensures s.None? ==> forall e :: !(Solves(f, e) && Fits(e, sig))
  {
    if e: Solution :| Solves(f, e) && Fits(e, sig) then Some(e) else None
  }

  ghost predicate NeverMisses(sig: Signature, fixedHeight: (nat, Problem, int, ProbType) -> Option<Solution>) {
    forall n, p, h, t, e :: fixedHeight(n, p, h, t).None? ==> !(Solves(p.finalConstraint, e) && Fits(e, sig))
  }

  /** Such oracles exist for every signature, the search even one that never misses a solution. */
  lemma OraclesExist(sig: Signature)
    ensures exists simplify: Formula -> Formula, fixedHeight: (nat, Problem, int, ProbType) -> Option<Solution> ::
              FaithfulOracles(sig, simplify, fixedHeight) && NeverMisses(sig, fixedHeight)
  {
    hide Solves, Fits, Eval, NormalForms.NonEmpty, Cleaned;
    var simplify := (f: Formula) => Cleaned(f);
    var fixedHeight := (n: nat, p: Problem, h: int, t: ProbType) => AnySolution(p.finalConstraint, sig);
    forall f ensures Equivalent(simplify(f), f) && NormalForms.NonEmpty(simplify(f)) {
      forall env ensures Eval(Cleaned(f), env) == Eval(f, env) && NormalForms.NonEmpty(Cleaned(f)) { CleanedIsRight(f, env); }
      CleanedIsRight(f, Env((v: Name) => 0, (v: Name) => false, (p: string, vs: seq<int>) => false));
    }
    assert FaithfulOracles(sig, simplify, fixedHeight) && NeverMisses(sig, fixedHeight);
  }

  class Cegis {
    const sig: Signature
    /** `simplify` on a formula. */
    const simplify: Formula -> Formula
    /** What the fixed-height search returns, call by call. */
    const fixedHeight: (nat, Problem, int, ProbType) -> Option<Solution>
    var calls: nat
    var problem: Problem
    var triedProblem: Table

    ghost predicate OraclesOk() { sig.Ok() && FaithfulOracles(sig, simplify, fixedHeight) }

    ghost predicate Valid()
      reads this
    {
      OraclesOk() && Sound(triedProblem, sig)
    }

    constructor (sig: Signature, simplify: Formula -> Formula, fixedHeight: (nat, Problem, int, ProbType) -> Option<Solution>)
      ensures this.sig == sig && this.simplify == simplify && this.fixedHeight == fixedHeight && triedProblem == map[]
      ensures OraclesOk() ==> Valid()
    {
      this.sig, this.simplify, this.fixedHeight := sig, simplify, fixedHeight;
      calls, triedProblem, problem := 0, map[], Problem(True, 0);
    }

    /** `getSolution`: the first solution in a row of the table. */
    method GetSolution(f: Formula) returns (s: Option<Solution>)
      ensures s.Some? <==> HasSolution(triedProblem, f)
      ensures s.Some? ==> f in triedProblem && exists h :: h in triedProblem[f] && triedProblem[f][h] == s
    {
      if f !in triedProblem { return None; }
      var row := triedProblem[f];
      var heights: set<int> := row.Keys;
      while heights != {}
        invariant heights <= row.Keys
        invariant forall h | h in row && h !in heights :: row[h].None?
        decreases heights
      {
        SomeHeight(heights);
        var h :| h in heights;
        if row[h].Some? { return row[h]; }
        heights := heights - {h};
      }
      s := None;
    }

    /** Storing a solution. */
    method Store(f: Formula, h: int, s: Option<Solution>)
      requires Valid() && (s.Some? ==> Solves(f, s.value) && Fits(s.value, sig))
      requires s.Some? || f !in triedProblem || h !in triedProblem[f]
      modifies this`triedProblem
      ensures Valid() && triedProblem == Put(old(triedProblem), f, h, s)
      ensures s.Some? ==> HasSolution(triedProblem, f)
      ensures Extends(old(triedProblem), triedProblem) && AddsUpTo(old(triedProblem), triedProblem, h)
      ensures f in triedProblem && h in triedProblem[f] && triedProblem[f][h] == s
    {
      hide Solves, Fits, HasSolution, Sound, Extends, AddsUpTo;
      PutAdds(triedProblem, f, h, s);
      PutKeeps(triedProblem, f, h, s, sig);
      triedProblem := Put(triedProblem, f, h, s);
    }

    /** `getSimpProb`. */
    method GetSimpProb(p: Problem, e: Solution, pos: bool) returns (q: Problem)
      ensures q == p.(finalConstraint := Simplified(p.finalConstraint, e, sig.names, pos))
    {
      hide Inline;
      var rewritten := p.finalConstraint;
      for i := 0 to |sig.names|
        invariant rewritten == Simplified(p.finalConstraint, e, sig.names[..i], pos)
      {
        var name := sig.names[i];
        assert sig.names[..i + 1][..i] == sig.names[..i];
        var g := Find(e, name);
        if g.Some? {
          rewritten := Inline(rewritten, SimpFunc(g.value, pos));
        }
      }
      assert sig.names[..|sig.names|] == sig.names;
      q := p.(finalConstraint := rewritten);
    }

    /** The three lists of clauses. */
    method Classify(clauses: seq<Formula>) returns (pos: seq<Formula>, mix: seq<Formula>, neg: seq<Formula>)
      ensures pos == Pick(clauses, POS) && mix == Pick(clauses, MIX) && neg == Pick(clauses, NEG)
    {
      hide TypeOf;
      pos, mix, neg := [], [], [];
      for i := 0 to |clauses|
        invariant pos == Pick(clauses[..i], POS) && mix == Pick(clauses[..i], MIX) && neg == Pick(clauses[..i], NEG)
      {
        assert clauses[..i + 1][..i] == clauses[..i];
        var t := GetExprType(clauses[i]);
        if t == POS { pos := pos + [clauses[i]]; }
        if t == NEG { neg := neg + [clauses[i]]; }
        if t == MIX { mix := mix + [clauses[i]]; }
      }
      assert clauses[..|clauses|] == clauses;
    }

    /** The clauses of the simplified conjunctive form. */
    function Clauses(f: Formula): seq<Formula> {
      var cnf := NormalForms.NormalForm(NormalForms.Disj, f);
      if cnf.None? then [] else NormalForms.Flat(NormalForms.Disj, simplify(cnf.value))
    }

    /** The constraint in conjunctive form, split into three. */
    method Split(f: Formula) returns (pos: seq<Formula>, mix: seq<Formula>, neg: seq<Formula>)
      requires OraclesOk() && TopNonEmpty(f)
      ensures pos == Pick(Clauses(f), POS) && mix == Pick(Clauses(f), MIX) && neg == Pick(Clauses(f), NEG)
      ensures forall env :: Eval(f, env) <==> AllTrue(pos, env) && AllTrue(mix, env) && AllTrue(neg, env)
      ensures forall g | g in pos || g in mix || g in neg :: NormalForms.NonEmpty(g)
    {
      hide Eval, AllTrue, TypeOf, NormalForms.NonEmpty, TopNonEmpty, Pick, NormalForms.Flat, Solves, Fits;
      NormalForms.EliminateImpEqShape(f);
      NormalForms.PushShape(NormalForms.EliminateImpEq(f));
      var converted := NormalForms.Convert(NormalForms.Disj, NormalForms.PushNegIn(NormalForms.EliminateImpEq(f)));
      forall env ensures converted.Some? && Eval(converted.value, env) == Eval(f, env) { TopConverted(f, env); }
      TopConverted(f, Env((v: Name) => 0, (v: Name) => false, (p: string, vs: seq<int>) => false));
      var cnf := simplify(converted.value);
      var clauses := NormalForms.Flat(NormalForms.Disj, cnf);
      pos, mix, neg := Classify(clauses);
      FlatNonEmpty(cnf);
      forall env ensures Eval(f, env) <==> AllTrue(pos, env) && AllTrue(mix, env) && AllTrue(neg, env) {
        ClausesMeaning(cnf, env);
        PickParts(clauses, env);
      }
      PickParts(clauses, Env((v: Name) => 0, (v: Name) => false, (p: string, vs: seq<int>) => false));
    }

    /**
     * One of the two attempts with a part of the constraint, with the positive (`pos`) or the negative clauses:
     * `rest` are the clauses left out. `done` is true where a solution was stored: the partial one if nothing is left
     * out, else the partial one combined with a solution of the problem simplified by it.
     */
    method Attempt(height: int, prblm: Problem, smaller: Problem, type_: ProbType, part: seq<Formula>, mix: seq<Formula>, rest: seq<Formula>, pos: bool)
      returns (done: bool, ghost partial: Option<Solution>)
      requires Valid() && height > 1 && TopNonEmpty(prblm.finalConstraint) && smaller.finalConstraint == prblm.finalConstraint
      requires forall env :: Eval(prblm.finalConstraint, env) <==> AllTrue(part, env) && AllTrue(mix, env) && AllTrue(rest, env)
      requires forall g | g in part || g in mix :: NormalForms.NonEmpty(g)
      modifies this
      ensures Valid() && Extends(old(triedProblem), triedProblem) && AddsUpTo(old(triedProblem), triedProblem, height - 1)
      ensures Attempted(triedProblem, sig, height, prblm.finalConstraint, part, mix, rest, pos, partial, done)
      decreases height, 0
    {
      hide Eval, AllTrue, TopNonEmpty, Solves, Fits, HasSolution, NormalForms.NonEmpty, Simplified, Combined, Extends, Tried, AddsUpTo, Attempted;
      var f := prblm.finalConstraint;
      var partMix := PartMix(part, mix);
      PartShape(part, mix);
      Search(height - 1, smaller.(finalConstraint := partMix), if pos then POSMIX else NEGMIX);
      ghost var t1 := triedProblem;
      var subexpr := GetSolution(partMix);
      partial := subexpr;
      if subexpr.None? {
        NothingFound(triedProblem, sig, height, f, part, mix, rest, pos);
        return false, partial;
      }
      SoundEntry(triedProblem, sig, partMix, subexpr);
      if rest == [] {
        PartIsAll(f, part, mix, subexpr.value);
        Store(f, height - 1, subexpr);
        ExtendsKeeps(t1, triedProblem, partMix, height - 1);
        GrownThen(old(triedProblem), t1, triedProblem, height - 1);
        WholeFound(triedProblem, sig, height, f, part, mix, pos, subexpr.value);
        return true, partial;
      }
      var simpProb := GetSimpProb(smaller, subexpr.value, pos);
      SimplifiedTop(f, subexpr.value, sig, sig.names, pos);
      Search(height - 1, simpProb, type_);
      ghost var t2 := triedProblem;
      ExtendsKeeps(t1, t2, partMix, height - 1);
      GrownThen(old(triedProblem), t1, t2, height - 1);
      var subf := GetSolution(simpProb.finalConstraint);
      if subf.None? {
        NotCompleted(triedProblem, sig, height, f, part, mix, rest, pos, subexpr.value);
        return false, partial;
      }
      SoundEntry(triedProblem, sig, simpProb.finalConstraint, subf);
      SimplifiedIsSound(f, subexpr.value, subf.value, sig, pos);
      var combined := GetCombinedResults(subexpr.value, subf.value, pos);
      Store(f, height - 1, Some(combined));
      ExtendsKeeps(t2, triedProblem, partMix, height - 1);
      ExtendsKeeps(t2, triedProblem, simpProb.finalConstraint, height - 1);
      GrownThen(old(triedProblem), t2, triedProblem, height - 1);
      Completed(triedProblem, sig, height, f, part, mix, rest, pos, subexpr.value, subf.value);
      done := true;
    }

    /** `getCombinedResults`. */
    method GetCombinedResults(e: Solution, s: Solution, pos: bool) returns (combined: Solution)
      ensures combined == Combined(e, s, pos)
    {
      hide Join, Find, Combined;
      CombinedNone(s, pos);
      combined := [];
      assert e[0..] == e;
      for i := 0 to |e|
        invariant combined + Combined(e[i..], s, pos) == Combined(e, s, pos)
      {
        var f := Find(s, e[i].name);
        assert e[i..][1..] == e[i + 1..];
        CombinedHead(e[i..], s, pos);
        combined := combined + [Func(e[i].name, e[i].args, if f.None? then e[i].def else Join(pos, e[i].def, f.value.def))];
      }
    }

    /** `search`. */
    method Search(height: int, prblm: Problem, type_: ProbType)
      requires Valid() && TopNonEmpty(prblm.finalConstraint)
      modifies this
      ensures Valid() && Extends(old(triedProblem), triedProblem) && AddsUpTo(old(triedProblem), triedProblem, height)
      ensures Tried(triedProblem, prblm.finalConstraint, height)
      ensures !HasSolution(triedProblem, prblm.finalConstraint) && !Tried(old(triedProblem), prblm.finalConstraint, height) ==>
                calls > 0 && fixedHeight(calls - 1, prblm.(searchHeight := height), height, type_) == None
      ensures HasSolution(old(triedProblem), prblm.finalConstraint) ==> triedProblem == old(triedProblem) && calls == old(calls)
      ensures height > 1 && !HasSolution(old(triedProblem), prblm.finalConstraint) ==>
                AttemptsMade(old(triedProblem), triedProblem, height, prblm.finalConstraint)
      decreases if height > 1 then height else 1, 1
    {
      hide Eval, AllTrue, TopNonEmpty, Solves, Fits, HasSolution, NormalForms.NonEmpty, Attempted, AttemptsMade, Extends, Tried, Pick, AddsUpTo;
      ghost var t0 := triedProblem;
      ExtendsItself(t0);
      PutAdds(t0, prblm.finalConstraint, height, None);
      var f := prblm.finalConstraint;
      var solution := GetSolution(f);
      if solution.Some? {
        SolvedIsTried(t0, f, height);
        return;
      }
      if height > 1 {
        var smallerProb := prblm.(searchHeight := prblm.searchHeight - 1);
        var pos, mix, neg := Split(f);
        ghost var partial;
        var done;
        done, partial := Attempt(height, prblm, smallerProb, type_, pos, mix, neg, true);
        ghost var t1, first := triedProblem, partial;
        AttemptedIsTried(t1, sig, height, f, pos, mix, neg, true, partial, done);
        if done {
          SolvedIsTried(triedProblem, f, height);
          OneAttempt(t0, triedProblem, height, f, partial);
          AddsThen(t0, t0, triedProblem, height, height - 1, height);
          return;
        }
        done, partial := Attempt(height, prblm, smallerProb, type_, neg, mix, pos, false);
        AttemptedIsTried(triedProblem, sig, height, f, neg, mix, pos, false, partial, done);
        GrownThen(t0, t1, triedProblem, height - 1);
        AddsThen(t0, t0, triedProblem, height - 1, height - 1, height) by { PutAdds(t0, f, height - 1, None); }
        NotAdded(t0, triedProblem, f, height);
        TwoAttempts(t0, t1, triedProblem, height, f, first, partial, done);
        if done {
          SolvedIsTried(triedProblem, f, height);
          return;
        }
      }
      problem := prblm.(searchHeight := height);
      if f !in triedProblem || height !in triedProblem[f] {
        var func := fixedHeight(calls, problem, height, type_);
        calls := calls + 1;
        ghost var t2 := triedProblem;
        Store(f, height, func);
        GrownThen(t0, t2, triedProblem, height);
        if height > 1 { AttemptsMadeBefore(t0, t2, triedProblem, height, f); }
      }
      EntryIsTried(triedProblem, f, height);
      if f in t0 && height in t0[f] { EntryIsTried(t0, f, height); }
    }

    /** An attempt on the positive clauses, or on the negative ones, with the others left out. */
    ghost predicate AttemptMade(t: Table, height: int, f: Formula, pos: bool, partial: Option<Solution>, done: bool) {
      var part, rest := if pos then POS else NEG, if pos then NEG else POS;
      Attempted(t, sig, height, f, Pick(Clauses(f), part), Pick(Clauses(f), MIX), Pick(Clauses(f), rest), pos, partial, done)
    }

    /** The attempt on the positive clauses was made and, unless it succeeded, then the one on the negative clauses. */
    ghost predicate AttemptsMade(before: Table, after: Table, height: int, f: Formula) {
      exists t1, partial, done ::
        && Extends(before, t1) && Extends(t1, after) && AttemptMade(t1, height, f, true, partial, done)
        && (done || SecondMade(t1, after, height, f))
    }

    ghost predicate SecondMade(before: Table, after: Table, height: int, f: Formula) {
      exists t2, partial, done :: Extends(before, t2) && Extends(t2, after) && AttemptMade(t2, height, f, false, partial, done)
    }

    lemma OneAttempt(before: Table, after: Table, height: int, f: Formula, partial: Option<Solution>)
      requires Extends(before, after) && AttemptMade(after, height, f, true, partial, true)
      ensures AttemptsMade(before, after, height, f)
    {
      hide Extends, AttemptMade;
      ExtendsItself(after);
    }

    lemma TwoAttempts(before: Table, t1: Table, after: Table, height: int, f: Formula,
                      first: Option<Solution>, second: Option<Solution>, done: bool)
      requires Extends(before, t1) && AttemptMade(t1, height, f, true, first, false)
      requires Extends(t1, after) && AttemptMade(after, height, f, false, second, done)
      ensures AttemptsMade(before, after, height, f)
    {
      hide Extends, AttemptMade;
      ExtendsItself(after);
      assert SecondMade(t1, after, height, f);
    }

    lemma AttemptsMadeBefore(before: Table, t: Table, after: Table, height: int, f: Formula)
      requires AttemptsMade(before, t, height, f) && Extends(t, after)
      ensures AttemptsMade(before, after, height, f)
    {
      hide Extends, AttemptMade;
      var t1, partial, done :|
        && Extends(before, t1) && Extends(t1, t) && AttemptMade(t1, height, f, true, partial, done)
        && (done || SecondMade(t1, t, height, f));
      ExtendsThen(t1, t, after);
      if !done {
        var t2, second, done2 :| Extends(t1, t2) && Extends(t2, t) && AttemptMade(t2, height, f, false, second, done2);
        ExtendsThen(t2, t, after);
        assert SecondMade(t1, after, height, f);
      }
    }
  }

  function PartMix(part: seq<Formula>, mix: seq<Formula>): Formula { And([And(part), And(mix)]) }

  /** What an attempt has done. */
  ghost predicate Attempted(t: Table, sig: Signature, height: int, f: Formula, part: seq<Formula>, mix: seq<Formula>, rest: seq<Formula>, pos: bool,
                            partial: Option<Solution>, done: bool) {
    && Tried(t, PartMix(part, mix), height - 1)
    && (partial.Some? <==> HasSolution(t, PartMix(part, mix)))
    && (partial.Some? ==> Solves(PartMix(part, mix), partial.value) && Fits(partial.value, sig))
    && (partial.None? ==> !done)
    && (done ==> HasSolution(t, f) && f in t && height - 1 in t[f])
    && (partial.Some? && rest == [] ==> done && t[f][height - 1] == partial)
    && (partial.Some? && rest != [] ==>
          var g := Simplified(f, partial.value, sig.names, pos);
          && Tried(t, g, height - 1) && (done <==> HasSolution(t, g))
          && (done ==> exists s :: Solves(g, s) && Fits(s, sig) && t[f][height - 1] == Some(Combined(partial.value, s, pos))))
  }

  lemma NothingFound(t: Table, sig: Signature, height: int, f: Formula, part: seq<Formula>, mix: seq<Formula>, rest: seq<Formula>, pos: bool)
    requires Tried(t, PartMix(part, mix), height - 1) && !HasSolution(t, PartMix(part, mix))
    ensures Attempted(t, sig, height, f, part, mix, rest, pos, None, false)
  {
    hide Tried, HasSolution, Solves, Fits, Simplified, Combined;
  }

  lemma WholeFound(t: Table, sig: Signature, height: int, f: Formula, part: seq<Formula>, mix: seq<Formula>, pos: bool, e: Solution)
    requires Tried(t, PartMix(part, mix), height - 1) && HasSolution(t, PartMix(part, mix)) && Solves(PartMix(part, mix), e) && Fits(e, sig)
    requires HasSolution(t, f) && f in t && height - 1 in t[f] && t[f][height - 1] == Some(e)
    ensures Attempted(t, sig, height, f, part, mix, [], pos, Some(e), true)
  {
    hide Tried, HasSolution, Solves, Fits, Simplified, Combined;
  }

  lemma NotCompleted(t: Table, sig: Signature, height: int, f: Formula, part: seq<Formula>, mix: seq<Formula>, rest: seq<Formula>, pos: bool, e: Solution)
    requires Tried(t, PartMix(part, mix), height - 1) && HasSolution(t, PartMix(part, mix)) && Solves(PartMix(part, mix), e) && Fits(e, sig)
    requires rest != [] && Tried(t, Simplified(f, e, sig.names, pos), height - 1) && !HasSolution(t, Simplified(f, e, sig.names, pos))
    ensures Attempted(t, sig, height, f, part, mix, rest, pos, Some(e), false)
  {
    hide Tried, HasSolution, Solves, Fits, Simplified, Combined;
  }

  lemma Completed(t: Table, sig: Signature, height: int, f: Formula, part: seq<Formula>, mix: seq<Formula>, rest: seq<Formula>, pos: bool, e: Solution, s: Solution)
    requires Tried(t, PartMix(part, mix), height - 1) && HasSolution(t, PartMix(part, mix)) && Solves(PartMix(part, mix), e) && Fits(e, sig)
    requires rest != [] && Tried(t, Simplified(f, e, sig.names, pos), height - 1) && HasSolution(t, Simplified(f, e, sig.names, pos))
    requires Solves(Simplified(f, e, sig.names, pos), s) && Fits(s, sig)
    requires HasSolution(t, f) && f in t && height - 1 in t[f] && t[f][height - 1] == Some(Combined(e, s, pos))
    ensures Attempted(t, sig, height, f, part, mix, rest, pos, Some(e), true)
  {
    hide Tried, HasSolution, Solves, Fits, Simplified, Combined;
  }

  /** An attempt asks for exactly what completes the partial solution, joined so that the clauses left out stay solved. */
  lemma AttemptJoinsRightly(t: Table, sig: Signature, height: int, f: Formula, part: seq<Formula>, mix: seq<Formula>, rest: seq<Formula>,
                            pos: bool, partial: Option<Solution>, done: bool)
    requires sig.Ok() && Attempted(t, sig, height, f, part, mix, rest, pos, partial, done) && partial.Some? && rest != []
    ensures exists g ::
              && Tried(t, g, height - 1) && (done <==> HasSolution(t, g))
              && forall s | Fits(s, sig) :: Solves(g, s) <==> Solves(f, Combined(partial.value, s, pos))
    ensures Unspoiled(rest, pos) ==>
              forall s | Fits(s, sig) && Solves(And(rest), s) :: Solves(And(rest), Combined(partial.value, s, pos))
  {
    hide Tried, HasSolution, Solves, Fits, Simplified, Combined, Unspoiled;
    var e := partial.value;
    var g := Simplified(f, e, sig.names, pos);
    forall s | Fits(s, sig) ensures Solves(g, s) <==> Solves(f, Combined(e, s, pos)) { SimplifiedIsSound(f, e, s, sig, pos); }
    assert Tried(t, g, height - 1) && (done <==> HasSolution(t, g));
    if Unspoiled(rest, pos) {
      forall s | Fits(s, sig) && Solves(And(rest), s) ensures Solves(And(rest), Combined(e, s, pos)) {
        LeftOutStaysSolved(rest, e, s, sig, pos);
      }
    }
  }

  lemma AttemptedIsTried(t: Table, sig: Signature, height: int, f: Formula, part: seq<Formula>, mix: seq<Formula>, rest: seq<Formula>, pos: bool,
                         partial: Option<Solution>, done: bool)
    requires Attempted(t, sig, height, f, part, mix, rest, pos, partial, done)
    ensures Tried(t, PartMix(part, mix), height - 1) && (done ==> HasSolution(t, f))
  {
    hide Tried, HasSolution, Solves, Fits, Simplified, Combined;
  }

  lemma ExtendsItself(t: Table)
    ensures Extends(t, t)
  {
  }

  lemma ExtendsThen(t: Table, t': Table, t'': Table)
    requires Extends(t, t') && Extends(t', t'')
    ensures Extends(t, t'')
  {
    hide Tried, HasSolution;
  }

  lemma ExtendsKeeps(t: Table, t': Table, f: Formula, h: int)
    requires Extends(t, t')
    ensures HasSolution(t, f) ==> HasSolution(t', f)
    ensures Tried(t, f, h) ==> Tried(t', f, h)
  {
    hide Tried, HasSolution;
  }

  lemma SolvedIsTried(t: Table, f: Formula, h: int)
    requires HasSolution(t, f)
    ensures Tried(t, f, h)
  {
  }

  lemma EntryIsTried(t: Table, f: Formula, h: int)
    requires f in t && h in t[f]
    ensures Tried(t, f, h)
  {
  }

  lemma SomeHeight(heights: set<int>)
    requires heights != {}
    ensures exists h :: h in heights
  {
    if forall h :: h !in heights { assert false; }
  }

  lemma SoundEntry(t: Table, sig: Signature, f: Formula, s: Option<Solution>)
    requires Sound(t, sig) && s.Some? && f in t && exists h :: h in t[f] && t[f][h] == s
    ensures Solves(f, s.value) && Fits(s.value, sig)
  {
    hide Solves, Fits;
  }

  lemma PartShape(part: seq<Formula>, mix: seq<Formula>)
    requires forall g | g in part || g in mix :: NormalForms.NonEmpty(g)
    ensures TopNonEmpty(PartMix(part, mix))
  {
    hide NormalForms.NonEmpty;
    assert TopNonEmpty(And(part)) && TopNonEmpty(And(mix));
  }

  lemma PartMeaning(part: seq<Formula>, mix: seq<Formula>, env: Env)
    ensures Eval(PartMix(part, mix), env) <==> AllTrue(part, env) && AllTrue(mix, env)
  {
    hide Eval, AllTrue;
    JoinMeaning(true, And(part), And(mix), env);
    AndIsAll(part, env);
    AndIsAll(mix, env);
  }

  lemma PartIsAll(f: Formula, part: seq<Formula>, mix: seq<Formula>, s: Solution)
    requires forall env :: Eval(f, env) <==> AllTrue(part, env) && AllTrue(mix, env) && AllTrue([], env)
    requires Solves(PartMix(part, mix), s)
    ensures Solves(f, s)
  {
    hide Eval, AllTrue, WithAll;
    forall env ensures Eval(f, WithAll(env, s)) {
      PartMeaning(part, mix, WithAll(env, s));
      AllTrueNone(WithAll(env, s));
      assert Eval(PartMix(part, mix), WithAll(env, s));
    }
  }
}