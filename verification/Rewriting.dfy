/** Substitution and function inlining by a stack and a cache, against recursive definitions. */
module Rewriting {
  import opened Wrappers

  /** A term: a symbol and its children; structural equality. */
  datatype Node = Node(sym: string, kids: seq<Node>)

  // ---- subterms ----

  function Subterms(t: Node): (s: set<Node>)
    ensures t in s
  {
    {t} + set i, u | 0 <= i < |t.kids| && u in Subterms(t.kids[i]) :: u
  }

  function Size(t: Node): nat
    decreases t, 1
  {
    1 + Sizes(t.kids)
  }

  function Sizes(ts: seq<Node>): nat
    decreases ts, 0
  {
    if ts == [] then 0 else Size(ts[0]) + Sizes(ts[1..])
  }

  lemma {:induction false} KidSize(ts: seq<Node>, i: nat)
    requires i < |ts|
    ensures Size(ts[i]) <= Sizes(ts)
  {
    if i > 0 { KidSize(ts[1..], i - 1); }
  }

  lemma {:induction false} SubtermSize(t: Node, u: Node)
    requires u in Subterms(t)
    ensures u == t || Size(u) < Size(t)
  {
    if u != t {
      var i :| 0 <= i < |t.kids| && u in Subterms(t.kids[i]);
      SubtermSize(t.kids[i], u);
      KidSize(t.kids, i);
    }
  }

  lemma {:induction false} KidsAreSubterms(t: Node, u: Node)
    requires u in Subterms(t)
    ensures forall k | k in u.kids :: k in Subterms(t) && k != t && Size(k) < Size(u)
  {
    forall k | k in u.kids ensures k in Subterms(t) && k != t && Size(k) < Size(u) {
      var j :| 0 <= j < |u.kids| && u.kids[j] == k;
      KidSize(u.kids, j);
      SubtermSize(t, u);
      if u == t {
        assert k in Subterms(t.kids[j]);
      } else {
        var i :| 0 <= i < |t.kids| && u in Subterms(t.kids[i]);
        KidsAreSubterms(t.kids[i], u);
        assert k in Subterms(t.kids[i]);
      }
    }
  }

  // ---- recursive substitution ----

  type Subst = map<Node, Node>

  /** Simultaneous substitution of whole subterms. */
  function Substituted(t: Node, s: Subst): Node
    decreases t, 1
  {
    if t in s then s[t] else Inside(t, s)
  }

  /** Substitution below the root only. */
  function Inside(t: Node, s: Subst): Node
    decreases t, 0
  {
    Node(t.sym, seq(|t.kids|, i requires 0 <= i < |t.kids| => Substituted(t.kids[i], s)))
  }

  /** The cache at the start: a later pair overrides an earlier one. */
  function Zip(from: seq<Node>, to: seq<Node>): Subst
    requires |from| == |to|
  {
    if from == [] then map[] else Zip(from[..|from| - 1], to[..|to| - 1])[from[|from| - 1] := to[|to| - 1]]
  }

  // ---- the loop ----

  /**
   * What all three loops keep: the root lies at the bottom of the stack, everything above is a smaller
   * subterm that was not given in advance, and the nodes the loop is done with have their value and
   * the values of their children in the cache.
   */
  ghost predicate Running(root: Node, todo: seq<Node>, cache: Subst, done: set<Node>, given: Subst, built: Node -> Node) {
    && (if todo == [] then root in done else todo[0] == root && root !in done)
    && (forall k | 0 < k < |todo| :: todo[k] in Subterms(root) && todo[k] != root && todo[k] !in given)
    && done <= Subterms(root) && (forall d | d in done :: d == root || d !in given)
    && cache.Keys == given.Keys + done
    && (forall d | d in done :: cache[d] == built(d) && forall k | k in d.kids :: k in cache)
    && (forall g | g in given && g !in done :: cache[g] == given[g])
  }

  function Top(todo: seq<Node>): Node
    requires todo != []
  {
    todo[|todo| - 1]
  }

  /** Nodes not done yet, whether the top is a duplicate that is done, and what shrinks then. */
  ghost function Duplicate(todo: seq<Node>, done: set<Node>): nat { if todo != [] && Top(todo) in done then 1 else 0 }

  ghost function Shrinking(todo: seq<Node>, done: set<Node>): nat {
    if todo == [] then 0 else if Top(todo) in done then |todo| else Size(Top(todo))
  }

  ghost function Left(root: Node, done: set<Node>): nat { |Subterms(root) - done| }

  lemma TopIsSubterm(root: Node, todo: seq<Node>, cache: Subst, done: set<Node>, given: Subst, built: Node -> Node)
    requires Running(root, todo, cache, done, given, built) && todo != []
    ensures Top(todo) in Subterms(root) && (Top(todo) == root <==> |todo| == 1)
    ensures Top(todo) in given ==> Top(todo) == root
  {
  }

  /** The measure of the loops, which is compared component by component. */
  ghost predicate Less(root: Node, todo': seq<Node>, done': set<Node>, todo: seq<Node>, done: set<Node>) {
    Left(root, done') < Left(root, done)
    || (Left(root, done') == Left(root, done)
        && (Duplicate(todo', done') < Duplicate(todo, done)
            || (Duplicate(todo', done') == Duplicate(todo, done) && Shrinking(todo', done') < Shrinking(todo, done))))
  }

  lemma PoppedIsLess(root: Node, todo: seq<Node>, done: set<Node>)
    requires todo != [] && Top(todo) in Subterms(root)
    ensures Less(root, todo[..|todo| - 1], done + {Top(todo)}, todo, done)
  {
    hide Subterms, Size;
    var t := Top(todo);
    var done' := done + {t};
    if t in done {
      assert done' == done;
    } else {
      var before, after := Subterms(root) - done, Subterms(root) - done';
      assert before == after + {t} && t !in after;
      assert |before| == |after| + 1;
    }
  }

  /** Popping the top, whose children are all cached, with its value. */
  lemma Popped(root: Node, todo: seq<Node>, cache: Subst, done: set<Node>, given: Subst, built: Node -> Node)
    requires Running(root, todo, cache, done, given, built) && todo != []
    requires forall k | k in Top(todo).kids :: k in cache
    ensures Running(root, todo[..|todo| - 1], cache[Top(todo) := built(Top(todo))], done + {Top(todo)}, given, built)
    ensures Less(root, todo[..|todo| - 1], done + {Top(todo)}, todo, done)
  {
    hide Subterms, Less;
    TopIsSubterm(root, todo, cache, done, given, built);
    PoppedIsLess(root, todo, done);
    var cache' := cache[Top(todo) := built(Top(todo))];
    assert cache'.Keys == cache.Keys + {Top(todo)};
  }

  /** Pushing children that are not cached. */
  lemma Pushed(root: Node, todo: seq<Node>, cache: Subst, done: set<Node>, given: Subst, built: Node -> Node, more: seq<Node>)
    requires Running(root, todo, cache, done, given, built) && todo != [] && more != []
    requires forall m | m in more :: m in Top(todo).kids && m !in cache
    ensures Running(root, todo + more, cache, done, given, built)
    ensures Duplicate(todo, done) == Duplicate(todo + more, done) == 0
    ensures Shrinking(todo + more, done) < Shrinking(todo, done)
  {
    TopIsSubterm(root, todo, cache, done, given, built);
    var t := Top(todo);
    KidsAreSubterms(root, t);
    var last := more[|more| - 1];
    assert last in more && Top(todo + more) == last;
    assert t !in done;
    forall k | 0 < k < |todo + more|
      ensures (todo + more)[k] in Subterms(root) && (todo + more)[k] != root && (todo + more)[k] !in given
    {
      if k >= |todo| { assert (todo + more)[k] in more; }
    }
  }

  lemma Started(root: Node, given: Subst, built: Node -> Node)
    ensures Running(root, [root], given, {}, given, built)
  {
  }

  /** What the cache holds for a node other than the root. */
  lemma CachedKid(root: Node, todo: seq<Node>, cache: Subst, done: set<Node>, given: Subst, built: Node -> Node, k: Node)
    requires Running(root, todo, cache, done, given, built) && k in cache && k != root
    ensures cache[k] == if k in given then given[k] else built(k)
  {
  }

  /** The loop over the children: what is not cached goes on the stack, the values of the others are collected. */
  method Visit(tree: Node, todo: seq<Node>, cache: Subst) returns (more: seq<Node>, newChildren: seq<Node>, visited: bool)
    ensures forall m | m in more :: m in tree.kids && m !in cache
    ensures visited <==> more == []
    ensures visited ==> |newChildren| == |tree.kids| && forall i | 0 <= i < |tree.kids| :: tree.kids[i] in cache && newChildren[i] == cache[tree.kids[i]]
  {
    visited, newChildren, more := true, [], [];
    for i := 0 to |tree.kids|
      invariant forall m | m in more :: m in tree.kids && m !in cache
      invariant visited <==> more == []
      invariant visited ==> |newChildren| == i && forall j | 0 <= j < i :: tree.kids[j] in cache && newChildren[j] == cache[tree.kids[j]]
    {
      var child := tree.kids[i];
      if child !in cache {
        more := more + [child];
        visited := false;
      } else {
        newChildren := newChildren + [cache[child]];
      }
    }
  }

  /** The values of the children are those the recursive substitution gives. */
  lemma BuiltInside(tree: Node, root: Node, todo: seq<Node>, cache: Subst, done: set<Node>, given: Subst, newChildren: seq<Node>)
    requires Running(root, todo, cache, done, given, t => Inside(t, given)) && tree in Subterms(root)
    requires |newChildren| == |tree.kids| && forall i | 0 <= i < |tree.kids| :: tree.kids[i] in cache && newChildren[i] == cache[tree.kids[i]]
    ensures Node(tree.sym, newChildren) == Inside(tree, given)
  {
    KidsAreSubterms(root, tree);
    forall i | 0 <= i < |tree.kids| ensures newChildren[i] == Substituted(tree.kids[i], given) {
      CachedKid(root, todo, cache, done, given, t => Inside(t, given), tree.kids[i]);
    }
  }

  /** `ASTGeneral.substitute`; null for lists of different length. */
  method Substitute(root: Node, from: seq<Node>, to: seq<Node>) returns (r: Option<Node>)
    ensures r.None? <==> |from| != |to|
    ensures |from| == |to| ==> r == Some(Inside(root, Zip(from, to)))
  {
    hide Running, Subterms, Inside;
    if |from| != |to| { return None; }
    var todo := [root];
    var cache: Subst := map[];
    for i := 0 to |from|
      invariant cache == Zip(from[..i], to[..i])
    {
      assert from[..i + 1][..i] == from[..i] && to[..i + 1][..i] == to[..i];
      cache := cache[from[i] := to[i]];
    }
    assert from[..|from|] == from && to[..|to|] == to;
    ghost var given := cache;
    ghost var done: set<Node> := {};
    ghost var built := (t: Node) => Inside(t, given);
    Started(root, given, built);
    while todo != []
      invariant Running(root, todo, cache, done, given, built)
      decreases Left(root, done), Duplicate(todo, done), Shrinking(todo, done)
    {
      var tree := todo[|todo| - 1];
      TopIsSubterm(root, todo, cache, done, given, built);
      if tree.kids == [] {
        Popped(root, todo, cache, done, given, built);
        LeafInside(tree, given);
        todo := todo[..|todo| - 1];
        cache, done := cache[tree := tree], done + {tree};
      } else {
        var more, newChildren, visited := Visit(tree, todo, cache);
        if visited {
          BuiltInside(tree, root, todo, cache, done, given, newChildren);
          Popped(root, todo, cache, done, given, built);
          todo := todo[..|todo| - 1];
          cache, done := cache[tree := Node(tree.sym, newChildren)], done + {tree};
        } else {
          Pushed(root, todo, cache, done, given, built, more);
          todo := todo + more;
        }
      }
    }
    RootIsCached(root, cache, done, given, built);
    r := Some(cache[root]);
  }

  lemma LeafInside(t: Node, s: Subst)
    requires t.kids == []
    ensures Inside(t, s) == t
  {
    assert Inside(t, s).kids == [];
  }

  lemma RootIsCached(root: Node, cache: Subst, done: set<Node>, given: Subst, built: Node -> Node)
    requires Running(root, [], cache, done, given, built)
    ensures root in cache && cache[root] == built(root)
  {
  }

  /** The method is simultaneous substitution exactly where the root itself is not to be replaced, or by what the rest gives. */
  lemma SubstituteIsRecursive(root: Node, from: seq<Node>, to: seq<Node>)
    requires |from| == |to|
    ensures var s := Zip(from, to); Inside(root, s) == Substituted(root, s) <==> root !in s || s[root] == Inside(root, s)
  {
  }

  // ---- inlining a function ----

  /** A function with its parameters and its definition. */
  datatype Function = Function(name: string, params: seq<string>, def: Node)

  /** The two versions of `rewrite`: on the parser's own trees and on solver expressions. */
  datatype Flavour = Trees | Exprs

  function Leaves(params: seq<string>): (ns: seq<Node>)
    ensures |ns| == |params|
  {
    seq(|params|, i requires 0 <= i < |params| => Node(params[i], []))
  }

  /** `apply`: trees use `substitute`, which leaves the root of the definition alone; the solver substitutes everywhere. */
  function Applied(f: Function, kids: seq<Node>, fl: Flavour): Node {
    if |kids| != |f.params| then Node(f.name, kids)
    else if fl.Trees? then Inside(f.def, Zip(Leaves(f.params), kids))
    else Substituted(f.def, Zip(Leaves(f.params), kids))
  }

  /** An occurrence that is rewritten: on trees a leaf never is. */
  predicate Occurrence(t: Node, f: Function, fl: Flavour) { t.sym == f.name && (fl.Exprs? || t.kids != []) }

  /** Recursive inlining, from the leaves up. */
  function Rewritten(t: Node, f: Function, fl: Flavour): Node
    decreases t, 1
  {
    var kids := RewrittenAll(t.kids, f, fl);
    if Occurrence(t, f, fl) then Applied(f, kids, fl) else Node(t.sym, kids)
  }

  function RewrittenAll(ts: seq<Node>, f: Function, fl: Flavour): (rs: seq<Node>)
    ensures |rs| == |ts| && forall i | 0 <= i < |ts| :: rs[i] == Rewritten(ts[i], f, fl)
    decreases ts, 0
  {
    if ts == [] then [] else [Rewritten(ts[0], f, fl)] + RewrittenAll(ts[1..], f, fl)
  }

  /** Every occurrence has as many arguments as the function has parameters. */
  predicate Arity(t: Node, f: Function, fl: Flavour) {
    forall u | u in Subterms(t) :: Occurrence(u, f, fl) ==> |u.kids| == |f.params|
  }

  lemma BuiltRewritten(tree: Node, root: Node, todo: seq<Node>, cache: Subst, done: set<Node>, f: Function, fl: Flavour, newChildren: seq<Node>)
    requires Running(root, todo, cache, done, map[], t => Rewritten(t, f, fl)) && tree in Subterms(root)
    requires |newChildren| == |tree.kids| && forall i | 0 <= i < |tree.kids| :: tree.kids[i] in cache && newChildren[i] == cache[tree.kids[i]]
    ensures Rewritten(tree, f, fl) == if Occurrence(tree, f, fl) then Applied(f, newChildren, fl) else Node(tree.sym, newChildren)
  {
    KidsAreSubterms(root, tree);
    forall i | 0 <= i < |tree.kids| ensures newChildren[i] == Rewritten(tree.kids[i], f, fl) {
      CachedKid(root, todo, cache, done, map[], t => Rewritten(t, f, fl), tree.kids[i]);
    }
    assert newChildren == RewrittenAll(tree.kids, f, fl);
  }

  lemma LeafRewritten(t: Node, f: Function, fl: Flavour)
    requires t.kids == [] && !Occurrence(t, f, fl)
    ensures Rewritten(t, f, fl) == t
  {
    assert RewrittenAll(t.kids, f, fl) == [];
  }

  /** `DefinedFunc.rewrite`, both versions; quantifiers are not modelled. */
  method Rewrite(orig: Node, f: Function, fl: Flavour) returns (r: Node)
    requires Arity(orig, f, fl)
    ensures r == Rewritten(orig, f, fl)
  {
    hide Running, Subterms, Rewritten, Inside, Substituted, Zip;
    var todo := [orig];
    var cache: Subst := map[];
    ghost var done: set<Node> := {};
    ghost var built := (t: Node) => Rewritten(t, f, fl);
    Started(orig, map[], built);
    while todo != []
      invariant Running(orig, todo, cache, done, map[], built)
      decreases Left(orig, done), Duplicate(todo, done), Shrinking(todo, done)
    {
      var expr := todo[|todo| - 1];
      TopIsSubterm(orig, todo, cache, done, map[], built);
      if expr.kids == [] && !(fl.Exprs? && expr.sym == f.name) {
        Popped(orig, todo, cache, done, map[], built);
        LeafRewritten(expr, f, fl);
        todo := todo[..|todo| - 1];
        cache, done := cache[expr := expr], done + {expr};
      } else {
        var more, newArgs, visited := Visit(expr, todo, cache);
        if visited {
          BuiltRewritten(expr, orig, todo, cache, done, f, fl, newArgs);
          Popped(orig, todo, cache, done, map[], built);
          todo := todo[..|todo| - 1];
          var newExpr := Node(expr.sym, newArgs);
          if expr.sym == f.name {
            newExpr := Apply(f, newArgs, fl);
          }
          cache, done := cache[expr := newExpr], done + {expr};
        } else {
          Pushed(orig, todo, cache, done, map[], built, more);
          todo := todo + more;
        }
      }
    }
    RootIsCached(orig, cache, done, map[], built);
    r := cache[orig];
  }

  /** `DefinedFunc.apply`. */
  method Apply(f: Function, kids: seq<Node>, fl: Flavour) returns (r: Node)
    requires |kids| == |f.params|
    ensures r == Applied(f, kids, fl)
  {
    if fl.Exprs? { return Substituted(f.def, Zip(Leaves(f.params), kids)); }
    var s := Substitute(f.def, Leaves(f.params), kids);
    r := s.value;
  }

  // ---- meaning ----

  type Interp = (string, seq<int>) -> int

  function Val(t: Node, m: Interp): int
    decreases t, 1
  {
    m(t.sym, Vals(t.kids, m))
  }

  function Vals(ts: seq<Node>, m: Interp): (vs: seq<int>)
    ensures |vs| == |ts| && forall i | 0 <= i < |ts| :: vs[i] == Val(ts[i], m)
    decreases ts, 0
  {
    if ts == [] then [] else [Val(ts[0], m)] + Vals(ts[1..], m)
  }

  /** The last parameter of that name. */
  function Lookup(params: seq<string>, vs: seq<int>, s: string): int
    requires |params| == |vs| && s in params
  {
    if params[|params| - 1] == s then vs[|params| - 1]
    else
      assert s in params[..|params| - 1];
      Lookup(params[..|params| - 1], vs[..|params| - 1], s)
  }

  /** The interpretation in which the parameters have the given values. */
  function Bind(m: Interp, params: seq<string>, vs: seq<int>): Interp
    requires |params| == |vs|
  {
    (s: string, ws: seq<int>) => if ws == [] && s in params then Lookup(params, vs, s) else m(s, ws)
  }

  /** The interpretation in which the function means its definition; inside the definition the name keeps its old meaning. */
  function Inlined(m: Interp, f: Function): Interp {
    (s: string, vs: seq<int>) => if s == f.name && |vs| == |f.params| then Val(f.def, Bind(m, f.params, vs)) else m(s, vs)
  }

  lemma {:induction false} ZipLookup(params: seq<string>, kids: seq<Node>, t: Node, m: Interp)
    requires |params| == |kids|
    ensures var s := Zip(Leaves(params), kids); t in s <==> t.kids == [] && t.sym in params
    ensures t in Zip(Leaves(params), kids) ==> Val(Zip(Leaves(params), kids)[t], m) == Lookup(params, Vals(kids, m), t.sym)
  {
    hide Val, Vals;
    if params != [] {
      var n := |params| - 1;
      assert Leaves(params)[..n] == Leaves(params[..n]);
      ZipLookup(params[..n], kids[..n], t, m);
      assert Vals(kids, m)[..n] == Vals(kids[..n], m);
      assert params == params[..n] + [params[n]];
    }
  }

  /** Substituting for the parameters is evaluating with the parameters bound. */
  lemma {:induction false} SubstMeaning(t: Node, params: seq<string>, kids: seq<Node>, m: Interp)
    requires |params| == |kids|
    ensures Val(Substituted(t, Zip(Leaves(params), kids)), m) == Val(t, Bind(m, params, Vals(kids, m)))
    decreases t, 1
  {
    var s, b := Zip(Leaves(params), kids), Bind(m, params, Vals(kids, m));
    ZipLookup(params, kids, t, m);
    if t !in s {
      SubstMeanings(t.kids, Inside(t, s).kids, params, kids, m);
    }
  }

  lemma {:induction false} SubstMeanings(ts: seq<Node>, us: seq<Node>, params: seq<string>, kids: seq<Node>, m: Interp)
    requires |params| == |kids| && |us| == |ts|
    requires forall i | 0 <= i < |ts| :: us[i] == Substituted(ts[i], Zip(Leaves(params), kids))
    ensures Vals(us, m) == Vals(ts, Bind(m, params, Vals(kids, m)))
    decreases ts, 0
  {
    hide Val;
    forall i | 0 <= i < |ts| ensures Vals(us, m)[i] == Vals(ts, Bind(m, params, Vals(kids, m)))[i] {
      SubstMeaning(ts[i], params, kids, m);
    }
  }

  /** On trees: the definition is not a mere parameter, and a function without parameters is defined as itself. */
  predicate Safe(f: Function) {
    && !(f.def.kids == [] && f.def.sym in f.params)
    && (f.params == [] ==> f.def == Node(f.name, []))
  }

  /** The rewritten term means what the original means when the function means its definition. */
  lemma {:induction false} RewrittenMeaning(t: Node, f: Function, fl: Flavour, m: Interp)
    requires Arity(t, f, fl) && (fl.Trees? ==> Safe(f))
    ensures Val(Rewritten(t, f, fl), m) == Val(t, Inlined(m, f))
    decreases t, 1
  {
    RewrittenMeanings(t, f, fl, m);
    var kids := RewrittenAll(t.kids, f, fl);
    assert Vals(kids, m) == Vals(t.kids, Inlined(m, f));
    if Occurrence(t, f, fl) {
      assert |kids| == |f.params|;
      AppliedMeaning(f, kids, fl, m);
    } else {
      PlainMeaning(t, f, fl, kids, m);
    }
  }

  lemma AppliedMeaning(f: Function, kids: seq<Node>, fl: Flavour, m: Interp)
    requires |kids| == |f.params| && (fl.Trees? ==> !(f.def.kids == [] && f.def.sym in f.params))
    ensures Val(Applied(f, kids, fl), m) == Val(f.def, Bind(m, f.params, Vals(kids, m)))
  {
    hide Val, Vals;
    SubstMeaning(f.def, f.params, kids, m);
    ZipLookup(f.params, kids, f.def, m);
  }

  lemma PlainMeaning(t: Node, f: Function, fl: Flavour, kids: seq<Node>, m: Interp)
    requires !Occurrence(t, f, fl) && (fl.Trees? ==> Safe(f))
    requires |kids| == |t.kids| && Vals(kids, m) == Vals(t.kids, Inlined(m, f))
    ensures Val(Node(t.sym, kids), m) == Val(t, Inlined(m, f))
  {
    if t.sym == f.name && f.params == [] {
      assert kids == [] && t.kids == [];
      assert f.def == t && Bind(m, [], [])(t.sym, []) == m(t.sym, []);
    }
  }

  lemma {:induction false} RewrittenMeanings(t: Node, f: Function, fl: Flavour, m: Interp)
    requires Arity(t, f, fl) && (fl.Trees? ==> Safe(f))
    ensures Vals(RewrittenAll(t.kids, f, fl), m) == Vals(t.kids, Inlined(m, f))
    decreases t, 0
  {
    hide Val, Rewritten, Inlined;
    forall i | 0 <= i < |t.kids|
      ensures Vals(RewrittenAll(t.kids, f, fl), m)[i] == Vals(t.kids, Inlined(m, f))[i]
    {
      assert Arity(t.kids[i], f, fl) by { assert Subterms(t.kids[i]) <= Subterms(t); }
      RewrittenMeaning(t.kids[i], f, fl, m);
    }
  }

  /** Rewriting is right for every term and every interpretation. */
  ghost predicate RewritesRightly(f: Function, fl: Flavour) {
    forall t, m: Interp | Arity(t, f, fl) :: Val(Rewritten(t, f, fl), m) == Val(t, Inlined(m, f))
  }

  lemma ExprsRewriteRightly(f: Function)
    ensures RewritesRightly(f, Exprs)
  {
    hide Val, Rewritten, Arity;
    forall t, m: Interp | Arity(t, f, Exprs) ensures Val(Rewritten(t, f, Exprs), m) == Val(t, Inlined(m, f)) {
      RewrittenMeaning(t, f, Exprs, m);
    }
  }

  /** On trees it is right exactly for the safe functions: the identity and constants are not inlined. */
  lemma TreesRewriteRightly(f: Function)
    ensures RewritesRightly(f, Trees) <==> Safe(f)
  {
    hide Val, Rewritten, Arity, Safe;
    if Safe(f) {
      forall t, m: Interp | Arity(t, f, Trees) ensures Val(Rewritten(t, f, Trees), m) == Val(t, Inlined(m, f)) {
        RewrittenMeaning(t, f, Trees, m);
      }
    } else {
      var t, m := UnsafeFails(f);
    }
  }

  lemma UnsafeFails(f: Function) returns (t: Node, m: Interp)
    requires !Safe(f)
    ensures Arity(t, f, Trees) && Val(Rewritten(t, f, Trees), m) != Val(t, Inlined(m, f))
  {
    if f.params == [] {
      t := Node(f.name, []);
      m := (s: string, vs: seq<int>) => if s == f.name && vs == [] then 0 else 1;
      ConstantFails(f, m);
    } else {
      var p := f.def.sym;
      var q := Node(p + "!", []);
      t := Node(f.name, seq(|f.params|, _ => q));
      m := (s: string, vs: seq<int>) => if s == p then 0 else 1;
      IdentityFails(f, t, q, m);
    }
  }

  lemma ConstantFails(f: Function, m: Interp)
    requires f.params == [] && f.def != Node(f.name, [])
    requires m == ((s: string, vs: seq<int>) => if s == f.name && vs == [] then 0 else 1)
    ensures var t := Node(f.name, []); Arity(t, f, Trees) && Val(Rewritten(t, f, Trees), m) != Val(t, Inlined(m, f))
  {
    var t := Node(f.name, []);
    LeafRewritten(t, f, Trees);
    assert Subterms(t) == {t};
    var b := Bind(m, [], []);
    assert Val(f.def, b) == m(f.def.sym, Vals(f.def.kids, b));
  }

  lemma IdentityFails(f: Function, t: Node, q: Node, m: Interp)
    requires f.params != [] && f.def.kids == [] && f.def.sym in f.params && q == Node(f.def.sym + "!", [])
    requires t == Node(f.name, seq(|f.params|, _ => q))
    requires m(f.def.sym, []) == 0 && m(q.sym, []) == 1
    ensures Arity(t, f, Trees) && Val(Rewritten(t, f, Trees), m) != Val(t, Inlined(m, f))
  {
    var kids := RewrittenAll(t.kids, f, Trees);
    LeafRewritten(q, f, Trees);
    assert Subterms(q) == {q};
    assert forall u | u in Subterms(t) :: u == t || u == q;
    assert Val(Rewritten(t, f, Trees), m) == 0 by {
      ZipLookup(f.params, kids, f.def, m);
      LeafInside(f.def, Zip(Leaves(f.params), kids));
      assert Rewritten(t, f, Trees) == f.def;
    }
    var vs := Vals(t.kids, Inlined(m, f));
    if q.sym == f.name { assert Inlined(m, f)(q.sym, []) == m(q.sym, []); }
    assert forall i | 0 <= i < |vs| :: vs[i] == 1;
    LookupOne(f.params, vs, f.def.sym);
    assert Val(f.def, Bind(m, f.params, vs)) == 1;
  }

  lemma {:induction false} LookupOne(params: seq<string>, vs: seq<int>, s: string)
    requires |params| == |vs| && s in params && forall i | 0 <= i < |vs| :: vs[i] == 1
    ensures Lookup(params, vs, s) == 1
  {
    var n := |params| - 1;
    if params[n] != s {
      assert s in params[..n];
      LookupOne(params[..n], vs[..n], s);
    }
  }
}
