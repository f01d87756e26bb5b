/** Inlining on formulas is inlining on the solver's expressions that stand for them. */
module InliningAgrees {
  import opened Logic
  import opened Rewriting
  import Calls

  // ---- formulas as expressions ----

  datatype Symbol = NumSym(n: int) | VarSym(v: Name) | BoolSym(b: Name) | FuncSym(p: string) | Op(o: string)

  function Strokes(n: nat): (s: string)
    ensures |s| == n
  {
    if n == 0 then "" else "1" + Strokes(n - 1)
  }

  function NameText(v: Name): string {
    match v
    case Cur(i) => "c" + Strokes(i)
    case Primed(i) => "p" + Strokes(i)
    case Aux(s) => "a" + s
  }

  /** The text of a symbol; different symbols have different texts. */
  function Text(s: Symbol): string {
    match s
    case NumSym(n) => if n < 0 then "-" + Strokes(-n) else "+" + Strokes(n)
    case VarSym(v) => "v" + NameText(v)
    case BoolSym(b) => "b" + NameText(b)
    case FuncSym(p) => "f" + p
    case Op(o) => "o" + o
  }

  lemma SameTail(a: string, b: string, s: string, t: string)
    requires |a| == |b| == 1 && a + s == b + t
    ensures a == b && s == t
  {
    assert s == (a + s)[1..] && t == (b + t)[1..];
    assert a == (a + s)[..1] && b == (b + t)[..1];
  }

  lemma NameTextsDiffer(v: Name, w: Name)
    requires NameText(v) == NameText(w)
    ensures v == w
  {
    var a, b := NameText(v), NameText(w);
    SameTail(a[..1], b[..1], a[1..], b[1..]);
  }

  lemma TextsDiffer(s: Symbol, t: Symbol)
    requires Text(s) == Text(t)
    ensures s == t
  {
    var a, b := Text(s), Text(t);
    SameTail(a[..1], b[..1], a[1..], b[1..]);
    match s
    case VarSym(v) => assert a[1..] == NameText(v) && b[1..] == NameText(t.v); NameTextsDiffer(v, t.v);
    case BoolSym(v) => assert a[1..] == NameText(v) && b[1..] == NameText(t.b); NameTextsDiffer(v, t.b);
    case FuncSym(p) => assert a[1..] == p && b[1..] == t.p;
    case Op(o) => assert a[1..] == o && b[1..] == t.o;
    case NumSym(n) => assert |a[1..]| == (if n < 0 then -n else n) && |b[1..]| == (if t.n < 0 then -t.n else t.n);
  }

  function OpText(op: CmpOp): string { match op case Ge => ">=" case Gt => ">" case Le => "<=" case Lt => "<" case Eq => "=" }

  function TermNode(t: Term): Node
    decreases t, 1
  {
    match t
    case Num(n) => Node(Text(NumSym(n)), [])
    case Var(v) => Node(Text(VarSym(v)), [])
    case Add(ts) => Node(Text(Op("+")), TermNodes(ts))
    case Sub(l, r) => Node(Text(Op("-")), [TermNode(l), TermNode(r)])
    case Mul(l, r) => Node(Text(Op("*")), [TermNode(l), TermNode(r)])
    case TermIte(c, u, e) => Node(Text(Op("if")), [FormulaNode(c), TermNode(u), TermNode(e)])
  }

  function TermNodes(ts: seq<Term>): (ns: seq<Node>)
    ensures |ns| == |ts|
    decreases ts, 0
  {
    if ts == [] then [] else [TermNode(ts[0])] + TermNodes(ts[1..])
  }

  function FormulaNode(f: Formula): Node
    decreases f, 1
  {
    match f
    case True => Node(Text(Op("true")), [])
    case False => Node(Text(Op("false")), [])
    case BoolVar(b) => Node(Text(BoolSym(b)), [])
    case Cmp(op, l, r) => Node(Text(Op(OpText(op))), [TermNode(l), TermNode(r)])
    case Iff(l, r) => Node(Text(Op("iff")), [FormulaNode(l), FormulaNode(r)])
    case Not(g) => Node(Text(Op("not")), [FormulaNode(g)])
    case And(fs) => Node(Text(Op("and")), FormulaNodes(fs))
    case Or(fs) => Node(Text(Op("or")), FormulaNodes(fs))
    case Implies(l, r) => Node(Text(Op("=>")), [FormulaNode(l), FormulaNode(r)])
    case Ite(c, t, e) => Node(Text(Op("ite")), [FormulaNode(c), FormulaNode(t), FormulaNode(e)])
    case Call(p, ts) => Node(Text(FuncSym(p)), TermNodes(ts))
  }

  function FormulaNodes(fs: seq<Formula>): (ns: seq<Node>)
    ensures |ns| == |fs|
    decreases fs, 0
  {
    if fs == [] then [] else [FormulaNode(fs[0])] + FormulaNodes(fs[1..])
  }

  // ---- substitution ----

  /** The two maps give the variables the same terms, and the expressions are replaced at variables only. */
  ghost predicate Matches(s: Logic.Subst, n: Rewriting.Subst) {
    && (forall v :: v in s <==> Node(Text(VarSym(v)), []) in n)
    && (forall v | v in s :: n[Node(Text(VarSym(v)), [])] == TermNode(s[v]))
    && (forall u | u in n :: exists v :: u == Node(Text(VarSym(v)), []))
  }

  function SubstitutedAll(ts: seq<Node>, n: Rewriting.Subst): (rs: seq<Node>)
    ensures |rs| == |ts|
  {
    seq(|ts|, i requires 0 <= i < |ts| => Substituted(ts[i], n))
  }

  /** Operators are left alone. */
  lemma OperatorStays(x: Symbol, kids: seq<Node>, s: Logic.Subst, n: Rewriting.Subst)
    requires Matches(s, n) && !x.VarSym?
    ensures Substituted(Node(Text(x), kids), n) == Node(Text(x), SubstitutedAll(kids, n))
  {
    var t := Node(Text(x), kids);
    if t in n {
      var v :| t == Node(Text(VarSym(v)), []);
      TextsDiffer(x, VarSym(v));
      assert false;
    }
  }

  lemma {:induction false} SubstAgrees(f: Formula, s: Logic.Subst, n: Rewriting.Subst)
    requires Matches(s, n)
    ensures FormulaNode(SubstF(f, s)) == Substituted(FormulaNode(f), n)
    decreases f, 1
  {
    hide Matches, Text, Substituted;
    match f
    case True => OperatorStays(Op("true"), [], s, n);
    case False => OperatorStays(Op("false"), [], s, n);
    case BoolVar(b) => OperatorStays(BoolSym(b), [], s, n);
    case Cmp(op, l, r) =>
      SubstAgreesT(l, s, n);
      SubstAgreesT(r, s, n);
      OperatorStays(Op(OpText(op)), [TermNode(l), TermNode(r)], s, n);
    case Iff(l, r) =>
      SubstAgrees(l, s, n);
      SubstAgrees(r, s, n);
      OperatorStays(Op("iff"), [FormulaNode(l), FormulaNode(r)], s, n);
    case Not(g) =>
      SubstAgrees(g, s, n);
      OperatorStays(Op("not"), [FormulaNode(g)], s, n);
    case And(fs) =>
      SubstAgreesAll(fs, SubstF(f, s).fs, s, n);
      OperatorStays(Op("and"), FormulaNodes(fs), s, n);
    case Or(fs) =>
      SubstAgreesAll(fs, SubstF(f, s).fs, s, n);
      OperatorStays(Op("or"), FormulaNodes(fs), s, n);
    case Implies(l, r) =>
      SubstAgrees(l, s, n);
      SubstAgrees(r, s, n);
      OperatorStays(Op("=>"), [FormulaNode(l), FormulaNode(r)], s, n);
    case Ite(c, t, e) =>
      SubstAgrees(c, s, n);
      SubstAgrees(t, s, n);
      SubstAgrees(e, s, n);
      OperatorStays(Op("ite"), [FormulaNode(c), FormulaNode(t), FormulaNode(e)], s, n);
    case Call(p, ts) =>
      SubstAgreesTs(ts, SubstF(f, s).params, s, n);
      OperatorStays(FuncSym(p), TermNodes(ts), s, n);
  }

  lemma {:induction false} SubstAgreesAll(fs: seq<Formula>, gs: seq<Formula>, s: Logic.Subst, n: Rewriting.Subst)
    requires Matches(s, n) && |gs| == |fs| && forall i | 0 <= i < |fs| :: gs[i] == SubstF(fs[i], s)
    ensures FormulaNodes(gs) == SubstitutedAll(FormulaNodes(fs), n)
    decreases fs, 0
  {
    hide Matches, Substituted, SubstF;
    if fs != [] {
      SubstAgrees(fs[0], s, n);
      SubstAgreesAll(fs[1..], gs[1..], s, n);
    }
  }

  lemma VariableReplaced(v: Name, s: Logic.Subst, n: Rewriting.Subst)
    requires Matches(s, n)
    ensures Substituted(TermNode(Var(v)), n) == TermNode(if v in s then s[v] else Var(v))
  {
  }

  lemma {:induction false} SubstAgreesT(t: Term, s: Logic.Subst, n: Rewriting.Subst)
    requires Matches(s, n)
    ensures TermNode(SubstT(t, s)) == Substituted(TermNode(t), n)
    decreases t, 1
  {
    hide Matches, Text, Substituted;
    match t
    case Num(k) => OperatorStays(NumSym(k), [], s, n);
    case Var(v) => VariableReplaced(v, s, n);
    case Add(ts) =>
      SubstAgreesTs(ts, SubstT(t, s).args, s, n);
      OperatorStays(Op("+"), TermNodes(ts), s, n);
    case Sub(l, r) =>
      SubstAgreesT(l, s, n);
      SubstAgreesT(r, s, n);
      OperatorStays(Op("-"), [TermNode(l), TermNode(r)], s, n);
    case Mul(l, r) =>
      SubstAgreesT(l, s, n);
      SubstAgreesT(r, s, n);
      OperatorStays(Op("*"), [TermNode(l), TermNode(r)], s, n);
    case TermIte(c, u, e) =>
      SubstAgrees(c, s, n);
      SubstAgreesT(u, s, n);
      SubstAgreesT(e, s, n);
      OperatorStays(Op("if"), [FormulaNode(c), TermNode(u), TermNode(e)], s, n);
  }

  lemma {:induction false} SubstAgreesTs(ts: seq<Term>, us: seq<Term>, s: Logic.Subst, n: Rewriting.Subst)
    requires Matches(s, n) && |us| == |ts| && forall i | 0 <= i < |ts| :: us[i] == SubstT(ts[i], s)
    ensures TermNodes(us) == SubstitutedAll(TermNodes(ts), n)
    decreases ts, 0
  {
    hide Matches, Substituted, SubstT;
    if ts != [] {
      SubstAgreesT(ts[0], s, n);
      SubstAgreesTs(ts[1..], us[1..], s, n);
    }
  }

  // ---- parameters ----

  predicate Distinct(args: seq<Name>) { forall i, j | 0 <= i < j < |args| :: args[i] != args[j] }

  function ParamTexts(args: seq<Name>): (ps: seq<string>)
    ensures |ps| == |args|
  {
    seq(|args|, i requires 0 <= i < |args| => Text(VarSym(args[i])))
  }

  lemma {:induction false} ArgMapAt(args: seq<Name>, ts: seq<Term>)
    requires |args| == |ts| && Distinct(args)
    ensures Calls.ArgMap(args, ts).Keys == set i | 0 <= i < |args| :: args[i]
    ensures forall i | 0 <= i < |args| :: Calls.ArgMap(args, ts)[args[i]] == ts[i]
  {
    if args != [] {
      ArgMapAt(args[1..], ts[1..]);
      assert forall i | 0 < i < |args| :: args[1..][i - 1] == args[i] && ts[1..][i - 1] == ts[i];
    }
  }

  lemma {:induction false} ZipAt(from: seq<Node>, to: seq<Node>)
    requires |from| == |to| && forall i, j | 0 <= i < j < |from| :: from[i] != from[j]
    ensures Zip(from, to).Keys == set i | 0 <= i < |from| :: from[i]
    ensures forall i | 0 <= i < |from| :: Zip(from, to)[from[i]] == to[i]
  {
    if from != [] { ZipAt(from[..|from| - 1], to[..|to| - 1]); }
  }

  lemma {:induction false} TermNodeAt(ts: seq<Term>, i: nat)
    requires i < |ts|
    ensures TermNodes(ts)[i] == TermNode(ts[i])
  {
    if i > 0 { TermNodeAt(ts[1..], i - 1); }
  }

  lemma ParametersMatch(args: seq<Name>, ts: seq<Term>)
    requires |args| == |ts| && Distinct(args)
    ensures Matches(Calls.ArgMap(args, ts), Zip(Leaves(ParamTexts(args)), TermNodes(ts)))
  {
    hide Text, TermNode, TermNodes, Calls.ArgMap, Zip;
    var from, to := Leaves(ParamTexts(args)), TermNodes(ts);
    forall i, j | 0 <= i < j < |from| ensures from[i] != from[j] {
      if from[i] == from[j] {
        TextsDiffer(VarSym(args[i]), VarSym(args[j]));
        assert false;
      }
    }
    ArgMapAt(args, ts);
    ZipAt(from, to);
    forall i | 0 <= i < |args| ensures from[i] == Node(Text(VarSym(args[i])), []) && to[i] == TermNode(ts[i]) { TermNodeAt(ts, i); }
    var s, n := Calls.ArgMap(args, ts), Zip(from, to);
    forall v ensures v in s <==> Node(Text(VarSym(v)), []) in n {
      if Node(Text(VarSym(v)), []) in n {
        var i :| 0 <= i < |args| && from[i] == Node(Text(VarSym(v)), []);
        TextsDiffer(VarSym(args[i]), VarSym(v));
      }
      if v in s {
        var i :| 0 <= i < |args| && args[i] == v;
        assert from[i] in n;
      }
    }
    forall v | v in s ensures n[Node(Text(VarSym(v)), [])] == TermNode(s[v]) {
      var i :| 0 <= i < |args| && args[i] == v;
    }
  }

  // ---- inlining ----

  /** The function with its parameters and definition as expressions. */
  function FunctionOf(g: Calls.Func): Function { Function(Text(FuncSym(g.name)), ParamTexts(g.args), FormulaNode(g.def)) }

  lemma OperatorKept(x: Symbol, kids: seq<Node>, g: Calls.Func)
    requires x != FuncSym(g.name)
    ensures Rewritten(Node(Text(x), kids), FunctionOf(g), Exprs) == Node(Text(x), RewrittenAll(kids, FunctionOf(g), Exprs))
  {
    if Text(x) == Text(FuncSym(g.name)) { TextsDiffer(x, FuncSym(g.name)); }
  }

  lemma FewRewritten(a: Node, b: Node, c: Node, f: Function)
    ensures RewrittenAll([], f, Exprs) == []
    ensures RewrittenAll([a], f, Exprs) == [Rewritten(a, f, Exprs)]
    ensures RewrittenAll([a, b], f, Exprs) == [Rewritten(a, f, Exprs), Rewritten(b, f, Exprs)]
    ensures RewrittenAll([a, b, c], f, Exprs) == [Rewritten(a, f, Exprs), Rewritten(b, f, Exprs), Rewritten(c, f, Exprs)]
  {
    hide Rewritten, RewrittenAll;
  }

  /** Inlining a call in a formula and in its expression gives the same. */
  lemma CallInlined(p: string, us: seq<Term>, g: Calls.Func)
    requires p == g.name && Distinct(g.args)
    ensures Applied(FunctionOf(g), TermNodes(us), Exprs) ==
            FormulaNode(if |us| == |g.args| then SubstF(g.def, Calls.ArgMap(g.args, us)) else Call(p, us))
  {
    hide Matches, Substituted, SubstF, Calls.ArgMap, Zip, Text, Inside, TermNodes, FormulaNode;
    var f, ns := FunctionOf(g), TermNodes(us);
    if |us| == |g.args| {
      ParametersMatch(g.args, us);
      SubstAgrees(g.def, Calls.ArgMap(g.args, us), Zip(Leaves(ParamTexts(g.args)), ns));
      assert Applied(f, ns, Exprs) == Substituted(f.def, Zip(Leaves(f.params), ns));
    } else {
      CallNode(p, us);
    }
  }

  lemma CallNode(p: string, us: seq<Term>)
    ensures FormulaNode(Call(p, us)) == Node(Text(FuncSym(p)), TermNodes(us))
  {
  }

  lemma {:induction false} InlineAgrees(f: Formula, g: Calls.Func)
    requires Distinct(g.args)
    ensures FormulaNode(Calls.Inline(f, g)) == Rewritten(FormulaNode(f), FunctionOf(g), Exprs)
    decreases f, 1
  {
    hide Rewritten, Text, FunctionOf, Applied, SubstF, Calls.ArgMap;
    var h := FunctionOf(g);
    match f
    case True => OperatorKept(Op("true"), [], g); FewRewritten(FormulaNode(f), FormulaNode(f), FormulaNode(f), h);
    case False => OperatorKept(Op("false"), [], g); FewRewritten(FormulaNode(f), FormulaNode(f), FormulaNode(f), h);
    case BoolVar(b) => OperatorKept(BoolSym(b), [], g); FewRewritten(FormulaNode(f), FormulaNode(f), FormulaNode(f), h);
    case Cmp(op, l, r) =>
      InlineAgreesT(l, g);
      InlineAgreesT(r, g);
      FewRewritten(TermNode(l), TermNode(r), TermNode(r), h);
      OperatorKept(Op(OpText(op)), [TermNode(l), TermNode(r)], g);
    case Iff(l, r) =>
      InlineAgrees(l, g);
      InlineAgrees(r, g);
      FewRewritten(FormulaNode(l), FormulaNode(r), FormulaNode(r), h);
      OperatorKept(Op("iff"), [FormulaNode(l), FormulaNode(r)], g);
    case Not(e) =>
      InlineAgrees(e, g);
      FewRewritten(FormulaNode(e), FormulaNode(e), FormulaNode(e), h);
      OperatorKept(Op("not"), [FormulaNode(e)], g);
    case And(fs) =>
      InlineAgreesAll(fs, Calls.Inline(f, g).fs, g);
      OperatorKept(Op("and"), FormulaNodes(fs), g);
    case Or(fs) =>
      InlineAgreesAll(fs, Calls.Inline(f, g).fs, g);
      OperatorKept(Op("or"), FormulaNodes(fs), g);
    case Implies(l, r) =>
      InlineAgrees(l, g);
      InlineAgrees(r, g);
      FewRewritten(FormulaNode(l), FormulaNode(r), FormulaNode(r), h);
      OperatorKept(Op("=>"), [FormulaNode(l), FormulaNode(r)], g);
    case Ite(c, t, e) =>
      InlineAgrees(c, g);
      InlineAgrees(t, g);
      InlineAgrees(e, g);
      FewRewritten(FormulaNode(c), FormulaNode(t), FormulaNode(e), h);
      OperatorKept(Op("ite"), [FormulaNode(c), FormulaNode(t), FormulaNode(e)], g);
    case Call(p, ts) =>
      InlineAgreesTs(ts, g);
      if p == g.name {
        CallRewritten(ts, g);
        CallInlined(p, Calls.InlineTs(ts, g), g);
      } else {
        OperatorKept(FuncSym(p), TermNodes(ts), g);
      }
  }

  lemma CallRewritten(ts: seq<Term>, g: Calls.Func)
    ensures Rewritten(Node(Text(FuncSym(g.name)), TermNodes(ts)), FunctionOf(g), Exprs) ==
            Applied(FunctionOf(g), RewrittenAll(TermNodes(ts), FunctionOf(g), Exprs), Exprs)
  {
    hide Applied, Text;
  }

  lemma {:induction false} InlineAgreesAll(fs: seq<Formula>, gs: seq<Formula>, g: Calls.Func)
    requires Distinct(g.args) && |gs| == |fs| && forall i | 0 <= i < |fs| :: gs[i] == Calls.Inline(fs[i], g)
    ensures FormulaNodes(gs) == RewrittenAll(FormulaNodes(fs), FunctionOf(g), Exprs)
    decreases fs, 0
  {
    hide Rewritten, Calls.Inline, FunctionOf;
    if fs != [] {
      InlineAgrees(fs[0], g);
      InlineAgreesAll(fs[1..], gs[1..], g);
    }
  }

  lemma {:induction false} InlineAgreesT(t: Term, g: Calls.Func)
    requires Distinct(g.args)
    ensures TermNode(Calls.InlineT(t, g)) == Rewritten(TermNode(t), FunctionOf(g), Exprs)
    decreases t, 1
  {
    hide Rewritten, Text, FunctionOf;
    var h := FunctionOf(g);
    match t
    case Num(n) => OperatorKept(NumSym(n), [], g); FewRewritten(TermNode(t), TermNode(t), TermNode(t), h);
    case Var(v) => OperatorKept(VarSym(v), [], g); FewRewritten(TermNode(t), TermNode(t), TermNode(t), h);
    case Add(ts) =>
      InlineAgreesTs(ts, g);
      OperatorKept(Op("+"), TermNodes(ts), g);
    case Sub(l, r) =>
      InlineAgreesT(l, g);
      InlineAgreesT(r, g);
      FewRewritten(TermNode(l), TermNode(r), TermNode(r), h);
      OperatorKept(Op("-"), [TermNode(l), TermNode(r)], g);
    case Mul(l, r) =>
      InlineAgreesT(l, g);
      InlineAgreesT(r, g);
      FewRewritten(TermNode(l), TermNode(r), TermNode(r), h);
      OperatorKept(Op("*"), [TermNode(l), TermNode(r)], g);
    case TermIte(c, u, e) =>
      InlineAgrees(c, g);
      InlineAgreesT(u, g);
      InlineAgreesT(e, g);
      FewRewritten(FormulaNode(c), TermNode(u), TermNode(e), h);
      OperatorKept(Op("if"), [FormulaNode(c), TermNode(u), TermNode(e)], g);
  }

  lemma {:induction false} InlineAgreesTs(ts: seq<Term>, g: Calls.Func)
    requires Distinct(g.args)
    ensures TermNodes(Calls.InlineTs(ts, g)) == RewrittenAll(TermNodes(ts), FunctionOf(g), Exprs)
    decreases ts, 0
  {
    hide Rewritten, FunctionOf;
    if ts != [] {
      InlineAgreesT(ts[0], g);
      InlineAgreesTs(ts[1..], g);
    }
  }
}
