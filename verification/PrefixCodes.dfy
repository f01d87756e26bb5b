/** Terms of a grammar coded as vectors of rule numbers, and the readers of such vectors. */
module PrefixCodes {
  import opened Wrappers
  import Rewriting

  // ---- grammars and derivation trees ----

  /**
   * A rule: a number, variable or parameter; a constant, whose value is the next entry of the vector;
   * an operator with non-terminals as arguments; or a mere non-terminal.
   */
  datatype Rule = Leaf(sym: string) | ConstInt | ConstBool | Fn(op: string, args: seq<nat>) | Unit(nt: nat)

  /** The rules of a non-terminal are a range of the table. */
  datatype Range = Range(first: nat, count: nat)

  datatype Grammar = Grammar(rules: seq<Rule>, nts: seq<Range>) {
    predicate RuleOk(r: Rule) { r.Fn? ==> r.args != [] && forall i | 0 <= i < |r.args| :: r.args[i] < |nts| }

    /** Operators have arguments, and these are non-terminals. */
    predicate Ok() {
      && (forall i | 0 <= i < |rules| :: RuleOk(rules[i]))
      && (forall i | 0 <= i < |nts| :: nts[i].first + nts[i].count <= |rules|)
    }

    predicate NoUnits() { forall i | 0 <= i < |rules| :: !rules[i].Unit? }

    predicate Has(nt: nat, r: nat)
      requires nt < |nts|
    {
      nts[nt].first <= r < nts[nt].first + nts[nt].count
    }
  }

  datatype Tree = Tree(rule: nat, payload: int, kids: seq<Tree>)

  /** The tree is a derivation. */
  predicate Wf(g: Grammar, t: Tree)
    requires g.Ok()
  {
    && t.rule < |g.rules|
    && match g.rules[t.rule]
       case Leaf(_) => t.kids == [] && t.payload == 0
       case ConstInt => t.kids == []
       case ConstBool => t.kids == [] && (t.payload == 0 || t.payload == 1)
       case Fn(_, args) => t.payload == 0 && |t.kids| == |args| && forall i | 0 <= i < |args| :: Wf(g, t.kids[i]) && g.Has(args[i], t.kids[i].rule)
       case Unit(nt) => t.payload == 0 && |t.kids| == 1 && nt < |g.nts| && Wf(g, t.kids[0]) && g.Has(nt, t.kids[0].rule)
  }

  /** The code of a tree: the rule, the value of a constant, the codes of the children. */
  function Code(g: Grammar, t: Tree): (c: seq<int>)
    requires g.Ok() && Wf(g, t)
    ensures |c| > 0 && c[0] == t.rule
    decreases t, 1
  {
    [t.rule] + (if g.rules[t.rule].ConstInt? || g.rules[t.rule].ConstBool? then [t.payload] else []) + Codes(g, t.kids)
  }

  predicate Wfs(g: Grammar, ts: seq<Tree>)
    requires g.Ok()
  {
    forall i | 0 <= i < |ts| :: Wf(g, ts[i])
  }

  function Codes(g: Grammar, ts: seq<Tree>): seq<int>
    requires g.Ok() && Wfs(g, ts)
    decreases ts, 0
  {
    if ts == [] then [] else Code(g, ts[0]) + Codes(g, ts[1..])
  }

  // ---- unique readability ----

  /** No code is a proper prefix of another, and a code has one tree. */
  lemma {:induction false} UniquelyReadable(g: Grammar, t: Tree, u: Tree, x: seq<int>, y: seq<int>)
    requires g.Ok() && Wf(g, t) && Wf(g, u) && Code(g, t) + x == Code(g, u) + y
    ensures t == u && x == y
    decreases t, 1
  {
    hide Code, Codes;
    CodeParts(g, t);
    CodeParts(g, u);
    assert Code(g, t) + x == [t.rule] + (Payload(g, t) + (Codes(g, t.kids) + x));
    assert Code(g, u) + y == [u.rule] + (Payload(g, u) + (Codes(g, u.kids) + y));
    SameParts([t.rule], Payload(g, t) + (Codes(g, t.kids) + x), [u.rule], Payload(g, u) + (Codes(g, u.kids) + y));
    SameParts(Payload(g, t), Codes(g, t.kids) + x, Payload(g, u), Codes(g, u.kids) + y);
    SameKids(g, t, u);
    UniquelyReadables(g, t.kids, u.kids, x, y);
  }

  lemma SameParts(a: seq<int>, x: seq<int>, b: seq<int>, y: seq<int>)
    requires |a| == |b| && a + x == b + y
    ensures a == b && x == y
  {
    assert a == (a + x)[..|a|] && x == (a + x)[|a|..];
    assert b == (b + y)[..|b|] && y == (b + y)[|b|..];
  }

  /** The value of a constant. */
  function Payload(g: Grammar, t: Tree): seq<int>
    requires g.Ok() && Wf(g, t)
  {
    if g.rules[t.rule].ConstInt? || g.rules[t.rule].ConstBool? then [t.payload] else []
  }

  lemma CodeParts(g: Grammar, t: Tree)
    requires g.Ok() && Wf(g, t)
    ensures Wfs(g, t.kids) && Code(g, t) == [t.rule] + Payload(g, t) + Codes(g, t.kids)
  {
  }

  /** Derivations by the same rule have as many children, and the same value or none. */
  lemma SameKids(g: Grammar, t: Tree, u: Tree)
    requires g.Ok() && Wf(g, t) && Wf(g, u) && t.rule == u.rule && Payload(g, t) == Payload(g, u)
    ensures |t.kids| == |u.kids| && t.payload == u.payload
  {
    if Payload(g, t) != [] { assert Payload(g, t)[0] == t.payload && Payload(g, u)[0] == u.payload; }
  }

  lemma {:induction false} UniquelyReadables(g: Grammar, ts: seq<Tree>, us: seq<Tree>, x: seq<int>, y: seq<int>)
    requires g.Ok() && Wfs(g, ts) && Wfs(g, us) && |ts| == |us| && Codes(g, ts) + x == Codes(g, us) + y
    ensures ts == us && x == y
    decreases ts, 0
  {
    if ts != [] {
      var x', y' := Codes(g, ts[1..]) + x, Codes(g, us[1..]) + y;
      assert Codes(g, ts) + x == Code(g, ts[0]) + x' && Codes(g, us) + y == Code(g, us[0]) + y';
      UniquelyReadable(g, ts[0], us[0], x', y');
      UniquelyReadables(g, ts[1..], us[1..], x, y);
    } else {
      assert Codes(g, ts) + x == x && Codes(g, us) + y == y;
    }
  }

  /** The vector is the code of a derivation from the non-terminal. */
  ghost predicate IsCode(g: Grammar, nt: nat, v: seq<int>)
    requires g.Ok() && nt < |g.nts|
  {
    exists t :: Wf(g, t) && g.Has(nt, t.rule) && Code(g, t) == v
  }

  /** No valid code is a proper prefix of a valid code, of the same or another non-terminal. */
  lemma PrefixFree(g: Grammar, m: nat, n: nat, v: seq<int>, w: seq<int>)
    requires g.Ok() && m < |g.nts| && n < |g.nts| && IsCode(g, m, v) && IsCode(g, n, w) && v <= w
    ensures v == w
  {
    var t :| Wf(g, t) && g.Has(m, t.rule) && Code(g, t) == v;
    var u :| Wf(g, u) && g.Has(n, u.rule) && Code(g, u) == w;
    assert Code(g, t) + w[|v|..] == Code(g, u) + [];
    UniquelyReadable(g, t, u, w[|v|..], []);
  }

  // ---- divisions ----

  /** Increasing positions between 1 and `pool - 1`. */
  predicate Division(d: seq<nat>, pool: int, count: nat) {
    && |d| == count
    && (forall i | 0 <= i < |d| :: 1 <= d[i] < pool)
    && (forall i, j | 0 <= i < j < |d| :: d[i] < d[j])
  }

  /** All increasing continuations of `prefix` by numbers from `start` to `end`, in lexicographic order. */
  function Extensions(prefix: seq<nat>, start: nat, end: int, count: nat): seq<seq<nat>>
    requires |prefix| <= count
    decreases count - |prefix|, end + 1 - start
  {
    if |prefix| == count then [prefix]
    else if start <= end && end - start + 1 >= count - |prefix| then
      Extensions(prefix + [start], start + 1, end, count) + Extensions(prefix, start + 1, end, count)
    else []
  }

  function Combinations(pool: int, count: nat): seq<seq<nat>> { Extensions([], 1, pool - 1, count) }

  /** The increasing sequences that continue `prefix` with numbers from `start` to `end`. */
  predicate Extends(d: seq<nat>, prefix: seq<nat>, start: nat, end: int, count: nat) {
    && |d| == count && prefix <= d
    && (forall i | |prefix| <= i < |d| :: start <= d[i] <= end)
    && (forall i, j | |prefix| <= i < j < |d| :: d[i] < d[j])
  }

  /** Each such sequence is listed, once, and no other. */
  lemma {:induction false} ExtensionsAreAll(prefix: seq<nat>, start: nat, end: int, count: nat)
    requires |prefix| <= count
    ensures forall d :: d in Extensions(prefix, start, end, count) <==> Extends(d, prefix, start, end, count)
    ensures forall i, j | 0 <= i < j < |Extensions(prefix, start, end, count)| :: Extensions(prefix, start, end, count)[i] != Extensions(prefix, start, end, count)[j]
    decreases count - |prefix|, end + 1 - start
  {
    var all := Extensions(prefix, start, end, count);
    if |prefix| == count {
      forall d | Extends(d, prefix, start, end, count) ensures d == prefix { assert d[..|prefix|] == prefix; }
    } else if start <= end && end - start + 1 >= count - |prefix| {
      var with_, without := Extensions(prefix + [start], start + 1, end, count), Extensions(prefix, start + 1, end, count);
      ExtensionsAreAll(prefix + [start], start + 1, end, count);
      ExtensionsAreAll(prefix, start + 1, end, count);
      forall d ensures Extends(d, prefix, start, end, count) <==> Extends(d, prefix + [start], start + 1, end, count) || Extends(d, prefix, start + 1, end, count) {
        ExtendsCases(d, prefix, start, end, count);
      }
      assert all == with_ + without;
      assert forall d :: d in all <==> d in with_ || d in without;
      forall i, j | 0 <= i < j < |all| ensures all[i] != all[j] {
        if i < |with_| <= j {
          assert with_[i] in with_ && without[j - |with_|] in without;
          assert with_[i][|prefix|] == start && without[j - |with_|][|prefix|] >= start + 1;
        } else if i >= |with_| {
          assert without[i - |with_|] != without[j - |with_|];
        }
      }
    } else {
      forall d ensures !Extends(d, prefix, start, end, count) { TooFew(d, prefix, start, end, count); }
    }
  }

  lemma ExtendsCases(d: seq<nat>, prefix: seq<nat>, start: nat, end: int, count: nat)
    requires |prefix| < count && start <= end
    ensures Extends(d, prefix, start, end, count) <==> Extends(d, prefix + [start], start + 1, end, count) || Extends(d, prefix, start + 1, end, count)
  {
    var p := prefix + [start];
    if Extends(d, prefix, start, end, count) {
      if d[|prefix|] == start {
        assert d[..|p|] == p;
        assert Extends(d, p, start + 1, end, count);
      } else {
        assert Extends(d, prefix, start + 1, end, count);
      }
    }
    if Extends(d, p, start + 1, end, count) {
      assert d[|prefix|] == p[|prefix|] && d[..|prefix|] == p[..|prefix|];
    }
  }

  lemma {:induction false} Spread(d: seq<nat>, from: nat, to: nat)
    requires from <= to < |d| && forall i, j | from <= i < j < |d| :: d[i] < d[j]
    ensures d[to] - d[from] >= to - from
  {
    if from < to { Spread(d, from, to - 1); }
  }

  lemma TooFew(d: seq<nat>, prefix: seq<nat>, start: nat, end: int, count: nat)
    requires |prefix| < count && !(start <= end && end - start + 1 >= count - |prefix|)
    ensures !Extends(d, prefix, start, end, count)
  {
    if Extends(d, prefix, start, end, count) {
      Spread(d, |prefix|, count - 1);
    }
  }

  lemma CombinationsAreDivisions(pool: int, count: nat)
    ensures forall d :: d in Combinations(pool, count) <==> Division(d, pool, count)
  {
    ExtensionsAreAll([], 1, pool - 1, count);
    forall d ensures Extends(d, [], 1, pool - 1, count) <==> Division(d, pool, count) {}
  }

  class CombinationCalc {
    var data: array<nat>
    var results: seq<seq<nat>>

    constructor ()
      ensures fresh(data) && results == []
    {
      data := new nat[0];
      results := [];
    }

    /** `combination`. */
    method Combination(pool: int, count: nat) returns (r: seq<seq<nat>>)
      requires pool - 1 >= count
      modifies this
      ensures r == Combinations(pool, count)
    {
      data := new nat[count];
      results := [];
      Combine(1, pool - 1, 0);
      assert data[..0] == [];
      r := results;
    }

    /** `combine`: the entries before `index` are chosen. */
    method Combine(start: nat, end: int, index: nat)
      requires index <= data.Length
      modifies this`results, data
      ensures data[..index] == old(data[..index])
      ensures results == old(results) + Extensions(old(data[..index]), start, end, data.Length)
      decreases data.Length - index
    {
      var prefix := data[..index];
      if index == data.Length {
        results := results + [data[..]];
        assert data[..] == prefix;
        return;
      }
      var i := start;
      while i <= end && end - i + 1 >= data.Length - index
        invariant start <= i && data[..index] == prefix
        invariant results + Extensions(prefix, i, end, data.Length) == old(results) + Extensions(prefix, start, end, data.Length)
        decreases end + 1 - i
      {
        data[index] := i;
        assert data[..index + 1] == prefix + [i];
        Combine(i + 1, end, index + 1);
        assert data[..index] == data[..index + 1][..index] == prefix;
        i := i + 1;
      }
    }
  }

  // ---- the validity predicate ----

  /** The subterm of argument `i` under a division, without the rule number at the front. */
  function Part(v: seq<int>, d: seq<nat>, i: nat): (p: seq<int>)
    ensures v != [] ==> |p| < |v|
  {
    var from := if i == 0 then 1 else if i - 1 < |d| then d[i - 1] + 1 else |v|;
    var to := if i < |d| then d[i] + 1 else |v|;
    if 1 <= from <= to <= |v| then v[from..to] else []
  }

  /** `generateValid` for one rule, read at a vector. */
  predicate ValidRule(g: Grammar, r: nat, v: seq<int>)
    requires g.Ok()
    decreases |v|, 1
  {
    r < |g.rules| && v != [] &&
    match g.rules[r]
    case Leaf(_) => |v| == 1 && v[0] == r
    case Unit(_) => |v| == 1 && v[0] == r
    case ConstInt => |v| == 2 && v[0] == r
    case ConstBool => |v| == 2 && v[0] == r && (v[1] == 0 || v[1] == 1)
    case Fn(_, args) =>
      |args| < |v| && v[0] == r && exists d | d in Combinations(|v| - 1, |args| - 1) :: PartsValid(g, args, v, d)
  }

  predicate PartsValid(g: Grammar, args: seq<nat>, v: seq<int>, d: seq<nat>)
    requires g.Ok() && v != []
    decreases |v|, 0
  {
    forall i | 0 <= i < |args| :: ValidNt(g, args[i], Part(v, d, i))
  }

  /** `generateValid` for a non-terminal. */
  predicate ValidNt(g: Grammar, nt: nat, v: seq<int>)
    requires g.Ok()
    decreases |v|, 2
  {
    nt < |g.nts| && exists r: nat | g.nts[nt].first <= r < g.nts[nt].first + g.nts[nt].count :: ValidRule(g, r, v)
  }

  /** Where the code of child `i` begins, counted after the rule number. */
  function Cut(g: Grammar, kids: seq<Tree>, i: nat): nat
    requires g.Ok() && Wfs(g, kids) && i <= |kids|
  {
    |Codes(g, kids[..i])|
  }

  /** The division of a tree with children. */
  function Cuts(g: Grammar, kids: seq<Tree>): (d: seq<nat>)
    requires g.Ok() && Wfs(g, kids) && kids != []
    ensures |d| == |kids| - 1
  {
    seq(|kids| - 1, i requires 0 <= i < |kids| - 1 => Cut(g, kids, i + 1))
  }

  lemma {:induction false} CodesConcat(g: Grammar, a: seq<Tree>, b: seq<Tree>)
    requires g.Ok() && Wfs(g, a) && Wfs(g, b)
    ensures Wfs(g, a + b) && Codes(g, a + b) == Codes(g, a) + Codes(g, b)
  {
    hide Wf;
    if a == [] {
      assert a + b == b;
    } else {
      CodesConcat(g, a[1..], b);
      assert (a + b)[1..] == a[1..] + b;
    }
  }

  lemma CodesSnoc(g: Grammar, kids: seq<Tree>, i: nat)
    requires g.Ok() && Wfs(g, kids) && i < |kids|
    ensures Codes(g, kids[..i + 1]) == Codes(g, kids[..i]) + Code(g, kids[i])
  {
    hide Wf;
    assert kids[..i + 1] == kids[..i] + [kids[i]];
    assert [kids[i]][1..] == [];
    assert Codes(g, [kids[i]]) == Code(g, kids[i]) + Codes(g, []);
    CodesConcat(g, kids[..i], [kids[i]]);
  }

  lemma Middle(r: int, a: seq<int>, b: seq<int>, c: seq<int>)
    ensures ([r] + (a + b + c))[1 + |a|..1 + |a| + |b|] == b
  {
  }

  /** The bounds of a part are cuts. */
  lemma PartBounds(g: Grammar, v: seq<int>, kids: seq<Tree>, i: nat)
    requires g.Ok() && Wfs(g, kids) && i < |kids| && |v| == 1 + Cut(g, kids, |kids|)
    requires Cut(g, kids, i) <= Cut(g, kids, i + 1) <= Cut(g, kids, |kids|)
    ensures Part(v, Cuts(g, kids), i) == v[1 + Cut(g, kids, i)..1 + Cut(g, kids, i + 1)]
  {
    hide Wf, Code, Codes, Cut;
    if i == 0 { FirstCut(g, kids); }
  }

  lemma FirstCut(g: Grammar, kids: seq<Tree>)
    requires g.Ok() && Wfs(g, kids)
    ensures Cut(g, kids, 0) == 0 && Cut(g, kids, |kids|) == |Codes(g, kids)|
  {
    hide Wf;
    assert kids[..0] == [] && kids[..|kids|] == kids;
  }

  /** The code of a child is the part of the vector between its cuts. */
  lemma PartOfCut(g: Grammar, r: int, kids: seq<Tree>, i: nat)
    requires g.Ok() && Wfs(g, kids) && i < |kids|
    ensures var v := [r] + Codes(g, kids); Part(v, Cuts(g, kids), i) == Code(g, kids[i])
    ensures Cut(g, kids, i) < Cut(g, kids, i + 1) <= |Codes(g, kids)|
  {
    hide Wf, Code, Codes, Part, Cuts;
    CodesSnoc(g, kids, i);
    CodesConcat(g, kids[..i + 1], kids[i + 1..]);
    assert kids[..i + 1] + kids[i + 1..] == kids;
    Middle(r, Codes(g, kids[..i]), Code(g, kids[i]), Codes(g, kids[i + 1..]));
    CodeNotEmpty(g, kids[i]);
    FirstCut(g, kids);
    PartBounds(g, [r] + Codes(g, kids), kids, i);
  }

  lemma NoCodes(g: Grammar)
    requires g.Ok()
    ensures Codes(g, []) == []
  {
  }

  lemma CodeNotEmpty(g: Grammar, t: Tree)
    requires g.Ok() && Wf(g, t)
    ensures |Code(g, t)| > 0
  {
  }

  lemma {:induction false} CutsIncrease(g: Grammar, kids: seq<Tree>, i: nat, j: nat)
    requires g.Ok() && Wfs(g, kids) && i < j <= |kids|
    ensures Cut(g, kids, i) < Cut(g, kids, j)
  {
    hide Wf;
    PartOfCut(g, 0, kids, j - 1);
    if i < j - 1 { CutsIncrease(g, kids, i, j - 1); }
  }

  /** The cuts of a tree are one of the divisions tried. */
  lemma CutsAreDivision(g: Grammar, kids: seq<Tree>)
    requires g.Ok() && Wfs(g, kids) && kids != []
    ensures Cuts(g, kids) in Combinations(|Codes(g, kids)|, |kids| - 1) && |kids| <= |Codes(g, kids)|
  {
    hide Wf, Code, Codes;
    var d, m := Cuts(g, kids), |kids|;
    NoCodes(g);
    assert kids[..0] == [] && kids[..m] == kids;
    forall i | 0 <= i < |d| ensures 1 <= d[i] < |Codes(g, kids)| {
      CutsIncrease(g, kids, 0, i + 1);
      CutsIncrease(g, kids, i + 1, m);
    }
    forall i, j | 0 <= i < j < |d| ensures d[i] < d[j] { CutsIncrease(g, kids, i + 1, j + 1); }
    CombinationsAreDivisions(|Codes(g, kids)|, m - 1);
    CutAtLeast(g, kids, m);
  }

  lemma {:induction false} CutAtLeast(g: Grammar, kids: seq<Tree>, i: nat)
    requires g.Ok() && Wfs(g, kids) && i <= |kids|
    ensures Cut(g, kids, i) >= i
  {
    hide Wf;
    if i > 0 {
      CutAtLeast(g, kids, i - 1);
      CutsIncrease(g, kids, i - 1, i);
    }
  }

  /** If the parts of a division are codes, their trees have the division for cuts and together the vector for code. */
  lemma {:induction false} PartsMakeCodes(g: Grammar, v: seq<int>, d: seq<nat>, kids: seq<Tree>, n: nat)
    requires g.Ok() && Wfs(g, kids) && v != [] && Division(d, |v| - 1, |d|) && n <= |kids| <= |d| + 1
    requires forall i | 0 <= i < |kids| :: Part(v, d, i) == Code(g, kids[i])
    ensures Codes(g, kids[..n]) == if n == 0 then [] else if n - 1 < |d| then v[1..d[n - 1] + 1] else v[1..]
  {
    hide Wf, Code, Codes;
    if n == 0 {
      NoCodes(g);
      assert kids[..0] == [];
    } else {
      PartsMakeCodes(g, v, d, kids, n - 1);
      CodesSnoc(g, kids, n - 1);
    }
  }

  /** The validity predicate of a non-terminal is true exactly on the codes of its derivations. */
  lemma {:induction false} ValidIsCode(g: Grammar, nt: nat, v: seq<int>)
    requires g.Ok() && g.NoUnits() && nt < |g.nts|
    ensures ValidNt(g, nt, v) <==> IsCode(g, nt, v)
    decreases |v|, 2
  {
    hide ValidRule, ValidNt, Wf, Code;
    if ValidNt(g, nt, v) {
      var r := ValidByRule(g, nt, v);
      var t := ValidHasTree(g, r, v);
    }
    if IsCode(g, nt, v) {
      var t :| Wf(g, t) && g.Has(nt, t.rule) && Code(g, t) == v;
      CodeIsValid(g, t);
      RuleIsValid(g, nt, t.rule, v);
    }
  }

  lemma ValidByRule(g: Grammar, nt: nat, v: seq<int>) returns (r: nat)
    requires g.Ok() && nt < |g.nts| && ValidNt(g, nt, v)
    ensures g.Has(nt, r) && ValidRule(g, r, v)
  {
    r :| g.nts[nt].first <= r < g.nts[nt].first + g.nts[nt].count && ValidRule(g, r, v);
  }

  lemma RuleIsValid(g: Grammar, nt: nat, r: nat, v: seq<int>)
    requires g.Ok() && nt < |g.nts| && g.Has(nt, r) && ValidRule(g, r, v)
    ensures ValidNt(g, nt, v)
  {
  }

  lemma {:induction false} ValidHasTree(g: Grammar, r: nat, v: seq<int>) returns (t: Tree)
    requires g.Ok() && g.NoUnits() && ValidRule(g, r, v)
    ensures Wf(g, t) && t.rule == r && Code(g, t) == v
    decreases |v|, 1
  {
    match g.rules[r]
    case Leaf(_) => t := Tree(r, 0, []);
    case ConstInt => t := Tree(r, v[1], []);
    case ConstBool => t := Tree(r, v[1], []);
    case Fn(_, args) =>
      var d :| d in Combinations(|v| - 1, |args| - 1) && PartsValid(g, args, v, d);
      t := PartsHaveTree(g, r, v, d);
  }

  lemma {:induction false} PartsHaveTree(g: Grammar, r: nat, v: seq<int>, d: seq<nat>) returns (t: Tree)
    requires g.Ok() && g.NoUnits() && r < |g.rules| && g.rules[r].Fn? && |g.rules[r].args| < |v| && v[0] == r
    requires d in Combinations(|v| - 1, |g.rules[r].args| - 1) && PartsValid(g, g.rules[r].args, v, d)
    ensures Wf(g, t) && t.rule == r && Code(g, t) == v
    decreases |v|, 0
  {
    hide Wf, Code, ValidNt, Part, Combinations, Codes;
    var args := g.rules[r].args;
    CombinationsAreDivisions(|v| - 1, |args| - 1);
    var kids: seq<Tree> := [];
    for i := 0 to |args|
      invariant |kids| == i && Wfs(g, kids)
      invariant forall j | 0 <= j < i :: g.Has(args[j], kids[j].rule) && Code(g, kids[j]) == Part(v, d, j)
    {
      ValidIsCode(g, args[i], Part(v, d, i));
      var kid :| Wf(g, kid) && g.Has(args[i], kid.rule) && Code(g, kid) == Part(v, d, i);
      kids := kids + [kid];
    }
    PartsMakeCodes(g, v, d, kids, |args|);
    t := Tree(r, 0, kids);
    FnTree(g, t, v);
  }

  lemma FnTree(g: Grammar, t: Tree, v: seq<int>)
    requires g.Ok() && t.rule < |g.rules| && g.rules[t.rule].Fn? && t.payload == 0
    requires |t.kids| == |g.rules[t.rule].args| && Wfs(g, t.kids) && forall i | 0 <= i < |t.kids| :: g.Has(g.rules[t.rule].args[i], t.kids[i].rule)
    requires v != [] && v[0] == t.rule && Codes(g, t.kids[..|t.kids|]) == v[1..]
    ensures Wf(g, t) && Code(g, t) == v
  {
    assert t.kids[..|t.kids|] == t.kids;
    assert v == [v[0]] + v[1..];
  }

  lemma {:induction false} CodeIsValid(g: Grammar, t: Tree)
    requires g.Ok() && g.NoUnits() && Wf(g, t)
    ensures ValidRule(g, t.rule, Code(g, t))
    decreases |Code(g, t)|, 1
  {
    var v := Code(g, t);
    if g.rules[t.rule].Fn? {
      var args := g.rules[t.rule].args;
      FnCode(g, t);
      CutsAreDivision(g, t.kids);
      var d := Cuts(g, t.kids);
      forall i | 0 <= i < |args| ensures ValidNt(g, args[i], Part(v, d, i)) {
        PartOfCut(g, t.rule, t.kids, i);
        assert IsCode(g, args[i], Part(v, d, i));
        ValidIsCode(g, args[i], Part(v, d, i));
      }
      assert PartsValid(g, args, v, d);
    } else {
      assert Codes(g, t.kids) == [];
    }
  }

  lemma FnCode(g: Grammar, t: Tree)
    requires g.Ok() && Wf(g, t) && g.rules[t.rule].Fn?
    ensures Wfs(g, t.kids) && Code(g, t) == [t.rule] + Codes(g, t.kids)
  {
  }

  /** The vector of a mere non-terminal is called valid, but is too short for any derivation by that rule. */
  lemma UnitIsNoCode(g: Grammar, r: nat)
    requires g.Ok() && r < |g.rules| && g.rules[r].Unit?
    ensures ValidRule(g, r, [r])
    ensures forall t | Wf(g, t) && t.rule == r :: |Code(g, t)| >= 2
  {
    forall t | Wf(g, t) && t.rule == r ensures |Code(g, t)| >= 2 {
      assert Codes(g, t.kids) == Code(g, t.kids[0]) + Codes(g, t.kids[1..]);
    }
  }

  /** A vector that is valid for a rule and codes no derivation by it occurs exactly in grammars with a mere non-terminal. */
  lemma UnitsAreExact(g: Grammar)
    requires g.Ok()
    ensures (forall r, v | ValidRule(g, r, v) :: exists t :: Reads(g, r, v, t)) <==> g.NoUnits()
  {
    hide Wf, Code;
    if g.NoUnits() {
      forall r, v | ValidRule(g, r, v) ensures exists t :: Reads(g, r, v, t) {
        var t := ValidHasTree(g, r, v);
        assert Reads(g, r, v, t);
      }
    } else {
      var r :| 0 <= r < |g.rules| && g.rules[r].Unit?;
      UnitIsNoCode(g, r);
      assert ValidRule(g, r, [r]) && forall t :: !Reads(g, r, [r], t);
    }
  }

  // ---- reading a vector ----

  /** A term, as trees or as the solver builds them. */
  type Term = Rewriting.Node

  /** What terms are made of: the results of leaves, constants and operators. */
  datatype Algebra = Algebra(leaf: string -> Term, num: int -> Term, truth: bool -> Term, dispatch: (string, seq<Term>) -> Term)

  /** The term of a derivation. */
  function Value(g: Grammar, alg: Algebra, t: Tree): Term
    requires g.Ok() && Wf(g, t)
    decreases t, 1
  {
    match g.rules[t.rule]
    case Leaf(sym) => alg.leaf(sym)
    case ConstInt => alg.num(t.payload)
    case ConstBool => alg.truth(t.payload != 0)
    case Fn(op, _) => alg.dispatch(op, Vals(g, alg, t.kids))
    case Unit(_) => Value(g, alg, t.kids[0])
  }

  function Vals(g: Grammar, alg: Algebra, ts: seq<Tree>): (vs: seq<Term>)
    requires g.Ok() && Wfs(g, ts)
    ensures |vs| == |ts| && forall i | 0 <= i < |ts| :: vs[i] == Value(g, alg, ts[i])
    decreases ts, 0
  {
    if ts == [] then [] else [Value(g, alg, ts[0])] + Vals(g, alg, ts[1..])
  }

  /** The code of `t` stands in the vector at `start`. */
  predicate StandsAt(g: Grammar, t: Tree, terms: seq<int>, start: nat)
    requires g.Ok() && Wf(g, t)
  {
    start + |Code(g, t)| <= |terms| && terms[start..start + |Code(g, t)|] == Code(g, t)
  }

  predicate StandAt(g: Grammar, ts: seq<Tree>, terms: seq<int>, start: nat)
    requires g.Ok() && Wfs(g, ts)
  {
    start + |Codes(g, ts)| <= |terms| && terms[start..start + |Codes(g, ts)|] == Codes(g, ts)
  }

  lemma HeadStands(g: Grammar, ts: seq<Tree>, terms: seq<int>, start: nat)
    requires g.Ok() && Wfs(g, ts) && ts != [] && StandAt(g, ts, terms, start)
    ensures StandsAt(g, ts[0], terms, start) && StandAt(g, ts[1..], terms, start + |Code(g, ts[0])|)
    ensures |Codes(g, ts)| == |Code(g, ts[0])| + |Codes(g, ts[1..])|
  {
    CodesHead(g, ts);
    hide Code, Codes;
    Slices(terms, start, Code(g, ts[0]), Codes(g, ts[1..]));
  }

  lemma Slices(terms: seq<int>, start: nat, a: seq<int>, b: seq<int>)
    requires start + |a| + |b| <= |terms| && terms[start..start + |a| + |b|] == a + b
    ensures terms[start..start + |a|] == a && terms[start + |a|..start + |a| + |b|] == b
  {
    var all := terms[start..start + |a| + |b|];
    assert all[..|a|] == a && all[|a|..] == b;
  }

  lemma KidsStand(g: Grammar, t: Tree, terms: seq<int>, start: nat)
    requires g.Ok() && Wf(g, t) && StandsAt(g, t, terms, start) && (g.rules[t.rule].Fn? || g.rules[t.rule].Unit?)
    ensures StandAt(g, t.kids, terms, start + 1) && |Code(g, t)| == 1 + |Codes(g, t.kids)|
    ensures terms[start] == t.rule
  {
    var all := terms[start..start + |Code(g, t)|];
    assert all[0] == t.rule && all[1..] == Codes(g, t.kids);
  }

  lemma LeafStands(g: Grammar, t: Tree, terms: seq<int>, start: nat)
    requires g.Ok() && Wf(g, t) && StandsAt(g, t, terms, start)
    ensures terms[start] == t.rule
    ensures g.rules[t.rule].Leaf? ==> |Code(g, t)| == 1
    ensures g.rules[t.rule].ConstInt? || g.rules[t.rule].ConstBool? ==> |Code(g, t)| == 2 && terms[start + 1] == t.payload
  {
    var all := terms[start..start + |Code(g, t)|];
    assert all == Code(g, t) && all[0] == terms[start];
    if g.rules[t.rule].ConstInt? || g.rules[t.rule].ConstBool? {
      assert Codes(g, t.kids) == [];
      assert Code(g, t) == [t.rule, t.payload];
      assert all[1] == terms[start + 1];
    }
  }

  /** `ConcreteInterpreter`, and `ASTBuilder` with trees for terms. */
  class ConcreteInterpreter {
    const g: Grammar
    const alg: Algebra
    var lastInterpreted: int

    constructor (g: Grammar, alg: Algebra)
      ensures this.g == g && this.alg == alg && lastInterpreted == -1
    {
      this.g, this.alg, lastInterpreted := g, alg, -1;
    }

    /** `interpretConcrete`: reads exactly the code that stands at `start`. */
    method InterpretConcrete(terms: seq<int>, start: nat, ghost t: Tree) returns (result: Term)
      requires g.Ok() && Wf(g, t) && StandsAt(g, t, terms, start)
      modifies this
      ensures result == Value(g, alg, t)
      ensures lastInterpreted == start + |Code(g, t)| - 1
      decreases t, 1
    {
      LeafStands(g, t, terms, start);
      var ruleIndex := terms[start];
      lastInterpreted := start;
      match g.rules[ruleIndex]
      case Leaf(sym) => result := alg.leaf(sym);
      case ConstInt =>
        result := alg.num(terms[start + 1]);
        lastInterpreted := start + 1;
      case ConstBool =>
        result := alg.truth(terms[start + 1] != 0);
        lastInterpreted := start + 1;
      case Unit(_) =>
        KidsStand(g, t, terms, start);
        UnitStands(g, t, terms, start);
        result := InterpretConcrete(terms, lastInterpreted + 1, t.kids[0]);
      case Fn(op, argRules) =>
        KidsStand(g, t, terms, start);
        FnKids(g, t);
        var args := InterpretArgs(terms, |argRules|, t.kids);
        FnValue(g, alg, t);
        result := alg.dispatch(op, args);
    }

    /** The loop over the arguments, each read behind what was read last. */
    method InterpretArgs(terms: seq<int>, argCount: nat, ghost kids: seq<Tree>) returns (args: seq<Term>)
      requires g.Ok() && Wfs(g, kids) && |kids| == argCount && lastInterpreted >= 0 && StandAt(g, kids, terms, lastInterpreted + 1)
      modifies this
      ensures args == Vals(g, alg, kids)
      ensures lastInterpreted == old(lastInterpreted) + |Codes(g, kids)|
      decreases kids, 0
    {
      hide Wf, Value, Code, Codes, StandsAt, StandAt;
      args := [];
      assert kids[0..] == kids;
      for i := 0 to argCount
        invariant |args| == i && forall j | 0 <= j < i :: args[j] == Value(g, alg, kids[j])
        invariant lastInterpreted >= 0 && StandAt(g, kids[i..], terms, lastInterpreted + 1)
        invariant lastInterpreted + |Codes(g, kids[i..])| == old(lastInterpreted) + |Codes(g, kids)|
      {
        HeadStands(g, kids[i..], terms, lastInterpreted + 1);
        assert kids[i..][1..] == kids[i + 1..];
        CodeNotEmpty(g, kids[i]);
        var arg := InterpretConcrete(terms, lastInterpreted + 1, kids[i]);
        args := args + [arg];
      }
      NoCodes(g);
      assert kids[argCount..] == [];
    }
  }

  lemma UnitStands(g: Grammar, t: Tree, terms: seq<int>, start: nat)
    requires g.Ok() && Wf(g, t) && g.rules[t.rule].Unit? && StandAt(g, t.kids, terms, start + 1)
    ensures |t.kids| == 1 && Wf(g, t.kids[0]) && StandsAt(g, t.kids[0], terms, start + 1) && |Codes(g, t.kids)| == |Code(g, t.kids[0])|
  {
    HeadStands(g, t.kids, terms, start + 1);
    assert Codes(g, t.kids[1..]) == [];
  }

  lemma FnKids(g: Grammar, t: Tree)
    requires g.Ok() && Wf(g, t) && g.rules[t.rule].Fn?
    ensures Wfs(g, t.kids) && |t.kids| == |g.rules[t.rule].args| > 0
  {
  }

  lemma FnValue(g: Grammar, alg: Algebra, t: Tree)
    requires g.Ok() && Wf(g, t) && g.rules[t.rule].Fn?
    ensures Value(g, alg, t) == alg.dispatch(g.rules[t.rule].op, Vals(g, alg, t.kids))
  {
  }

  // ---- the symbolic reading ----

  /** What is known of the test whether a simplified validity predicate is the constant `false`. */
  datatype Oracle = Oracle(rule: (nat, nat) -> bool, nonTerminal: (nat, nat) -> bool) {
    ghost predicate Ok(g: Grammar)
      requires g.Ok()
    {
      && (forall v, r :: ValidRule(g, r, v) ==> rule(|v|, r))
      && (forall v, nt :: ValidNt(g, nt, v) ==> nonTerminal(|v|, nt))
      && (forall n, r | rule(n, r) :: Plausible(g, n, r))
    }

    /** The lengths for which the predicate of a rule is written down as `false` are found out. */
    predicate Plausible(g: Grammar, n: nat, r: nat)
      requires g.Ok()
    {
      r < |g.rules| && n > 0 &&
      match g.rules[r]
      case Leaf(_) | Unit(_) => n == 1
      case ConstInt | ConstBool => n == 2
      case Fn(_, args) => |args| < n && (|args| == 1 ==> nonTerminal(n - 1, args[0]))
    }
  }

  /** Some vector of this length is valid for the rule. */
  ghost predicate RuleLength(g: Grammar, n: nat, r: nat)
    requires g.Ok()
  {
    exists v :: |v| == n && ValidRule(g, r, v)
  }

  ghost predicate NtLength(g: Grammar, n: nat, nt: nat)
    requires g.Ok()
  {
    exists v :: |v| == n && ValidNt(g, nt, v)
  }

  /** There is such a test for every grammar: the one that is right about each length. */
  lemma OracleExists(g: Grammar)
    requires g.Ok()
    ensures exists o: Oracle :: o.Ok(g)
  {
    hide ValidRule, ValidNt, Combinations;
    var o := Oracle((n: nat, r: nat) => RuleLength(g, n, r), (n: nat, nt: nat) => NtLength(g, n, nt));
    forall v, r | ValidRule(g, r, v) ensures o.rule(|v|, r) { assert RuleLength(g, |v|, r); }
    forall v, nt | ValidNt(g, nt, v) ensures o.nonTerminal(|v|, nt) { assert NtLength(g, |v|, nt); }
    forall n: nat, r: nat | o.rule(n, r) ensures o.Plausible(g, n, r) {
      var v :| |v| == n && ValidRule(g, r, v);
      LengthsOfRule(g, r, v);
      if g.rules[r].Fn? && |g.rules[r].args| == 1 { assert NtLength(g, n - 1, g.rules[r].args[0]); }
    }
    assert o.Ok(g);
  }

  lemma LengthsOfRule(g: Grammar, r: nat, v: seq<int>)
    requires g.Ok() && ValidRule(g, r, v)
    ensures r < |g.rules| && v != []
    ensures match g.rules[r]
      case Leaf(_) | Unit(_) => |v| == 1
      case ConstInt | ConstBool => |v| == 2
      case Fn(_, args) => |args| < |v| && (|args| == 1 ==> ValidNt(g, args[0], v[1..]))
  {
    if g.rules[r].Fn? && |g.rules[r].args| == 1 {
      var d :| d in Combinations(|v| - 1, 0) && PartsValid(g, g.rules[r].args, v, d);
      assert d == [];
      assert Part(v, d, 0) == v[1..];
    }
  }

  /** The trees whose code the vector is. */
  ghost predicate Reads(g: Grammar, r: nat, v: seq<int>, t: Tree)
    requires g.Ok()
  {
    Wf(g, t) && t.rule == r && Code(g, t) == v
  }

  /** The tree reads the vector by an operator, and its children begin where the division says. */
  ghost predicate CutAt(g: Grammar, r: nat, v: seq<int>, t: Tree, d: seq<nat>)
    requires g.Ok()
  {
    Reads(g, r, v, t) && r < |g.rules| && g.rules[r].Fn? && Wfs(g, t.kids) && t.kids != [] && Cuts(g, t.kids) == d
  }

  ghost predicate NtReads(g: Grammar, nt: nat, v: seq<int>, t: Tree)
    requires g.Ok() && nt < |g.nts|
  {
    Wf(g, t) && g.Has(nt, t.rule) && Code(g, t) == v
  }

  /** If all arguments but the last are valid under a division, it is the division of the tree. */
  lemma GuardPicksCuts(g: Grammar, v: seq<int>, d: seq<nat>, r: nat, t: Tree)
    requires g.Ok() && g.NoUnits() && r < |g.rules| && g.rules[r].Fn? && Reads(g, r, v, t)
    requires d in Combinations(|v| - 1, |g.rules[r].args| - 1)
    requires forall i | 0 <= i < |d| && i < |g.rules[r].args| :: ValidNt(g, g.rules[r].args[i], Part(v, d, i))
    ensures CutAt(g, r, v, t, d)
  {
    hide Wf, Code, ValidNt, Combinations;
    var args, kids := g.rules[r].args, t.kids;
    CombinationsAreDivisions(|v| - 1, |args| - 1);
    FnCode(g, t);
    FnKids(g, t);
    for n := 0 to |d|
      invariant forall i | 0 <= i < n :: d[i] == Cut(g, kids, i + 1)
    {
      SamePart(g, v, d, kids, n, t.rule, args[n]);
    }
  }

  lemma SamePart(g: Grammar, v: seq<int>, d: seq<nat>, kids: seq<Tree>, n: nat, r: int, nt: nat)
    requires g.Ok() && g.NoUnits() && Wfs(g, kids) && kids != [] && v == [r] + Codes(g, kids) && nt < |g.nts|
    requires Division(d, |v| - 1, |kids| - 1) && n < |d| && forall i | 0 <= i < n :: d[i] == Cut(g, kids, i + 1)
    requires ValidNt(g, nt, Part(v, d, n))
    ensures d[n] == Cut(g, kids, n + 1)
  {
    hide Wf, Code, ValidNt, Codes, Part, Cut;
    var from := 1 + Cut(g, kids, n);
    PartIsSlice(g, v, d, kids, n);
    ValidIsCode(g, nt, Part(v, d, n));
    var u :| Wf(g, u) && g.Has(nt, u.rule) && Code(g, u) == Part(v, d, n);
    RestAtCut(g, r, kids, n);
    Rejoin(v, from, d[n] + 1);
    UniquelyReadable(g, u, kids[n], v[d[n] + 1..], Codes(g, kids[n + 1..]));
  }

  lemma PartIsSlice(g: Grammar, v: seq<int>, d: seq<nat>, kids: seq<Tree>, n: nat)
    requires g.Ok() && Wfs(g, kids) && kids != []
    requires Division(d, |v| - 1, |kids| - 1) && n < |d| && forall i | 0 <= i < n :: d[i] == Cut(g, kids, i + 1)
    ensures 1 + Cut(g, kids, n) <= d[n] + 1 <= |v| && Part(v, d, n) == v[1 + Cut(g, kids, n)..d[n] + 1]
  {
    hide Wf, Code, Codes, Cut;
    FirstCut(g, kids);
    if n > 0 { assert d[n - 1] == Cut(g, kids, n - 1 + 1) && d[n - 1] < d[n]; }
  }

  lemma RestAtCut(g: Grammar, r: int, kids: seq<Tree>, n: nat)
    requires g.Ok() && Wfs(g, kids) && n < |kids|
    ensures var v := [r] + Codes(g, kids); 1 + Cut(g, kids, n) <= |v| && v[1 + Cut(g, kids, n)..] == Code(g, kids[n]) + Codes(g, kids[n + 1..])
    ensures Cut(g, kids, n + 1) == Cut(g, kids, n) + |Code(g, kids[n])|
  {
    hide Wf, Code, Codes;
    CodesConcat(g, kids[..n], kids[n..]);
    assert kids[..n] + kids[n..] == kids;
    CodesHead(g, kids[n..]);
    assert kids[n..][1..] == kids[n + 1..];
    Tail(r, Codes(g, kids[..n]), Codes(g, kids[n..]));
    CodesSnoc(g, kids, n);
  }

  lemma Tail(r: int, a: seq<int>, b: seq<int>)
    ensures ([r] + (a + b))[1 + |a|..] == b
  {
  }

  lemma Rejoin(v: seq<int>, from: nat, to: nat)
    requires from <= to <= |v|
    ensures v[from..to] + v[to..] == v[from..]
  {
  }

  lemma CodesHead(g: Grammar, ts: seq<Tree>)
    requires g.Ok() && Wfs(g, ts) && ts != []
    ensures Codes(g, ts) == Code(g, ts[0]) + Codes(g, ts[1..])
  {
  }

  class Expand {
    const g: Grammar
    const alg: Algebra
    const interpretable: Oracle
    const ruleFallback: nat -> Term
    const ntFallback: nat -> Term

    constructor (g: Grammar, alg: Algebra, interpretable: Oracle, ruleFallback: nat -> Term, ntFallback: nat -> Term)
      ensures this.g == g && this.alg == alg && this.interpretable == interpretable
    {
      this.g, this.alg, this.interpretable, this.ruleFallback, this.ntFallback := g, alg, interpretable, ruleFallback, ntFallback;
    }

    ghost predicate Ok() { g.Ok() && g.NoUnits() && interpretable.Ok(g) }

    /**
     * `generateInterpret` for a rule, read at a vector: if a derivation `t` by this rule
     * has the vector for its code, the result is the term of `t`.
     */
    method GenerateInterpretRule(v: seq<int>, r: nat, ghost t: Tree) returns (result: Term)
      requires Ok() && interpretable.rule(|v|, r)
      ensures Reads(g, r, v, t) ==> result == Value(g, alg, t)
      decreases |v|, 0, 2
    {
      hide Wf, Code, ValidRule, ValidNt, Combinations, Value;
      assert interpretable.Plausible(g, |v|, r);
      if Reads(g, r, v, t) { ReadsLeaf(g, alg, r, v, t); }
      match g.rules[r]
      case Leaf(sym) => result := alg.leaf(sym);
      case ConstInt => result := alg.num(v[1]);
      case ConstBool => result := if v[1] == 0 then alg.truth(false) else alg.truth(true);
      case Fn(op, args) =>
        if |args| == 1 {
          if Reads(g, r, v, t) { OneReads(g, alg, v, t); }
          var arg := GenerateInterpretNt(v[1..], args[0], if t.kids != [] then t.kids[0] else t);
          result := alg.dispatch(op, [arg]);
        } else {
          result := GenerateDivisions(v, r, t);
        }
    }

    /** The loop over the divisions: a later one whose guard holds overrides the earlier ones. */
    method GenerateDivisions(v: seq<int>, r: nat, ghost t: Tree) returns (iteExpr: Term)
      requires Ok() && r < |g.rules| && g.rules[r].Fn? && 1 < |g.rules[r].args| < |v|
      ensures Reads(g, r, v, t) ==> iteExpr == Value(g, alg, t)
      decreases |v|, 0, 1
    {
      hide Wf, Code, ValidRule, ValidNt, Combinations, Value, CutAt;
      var args := g.rules[r].args;
      var chooser := new CombinationCalc();
      var combinations := chooser.Combination(|v| - 1, |args| - 1);
      iteExpr := ruleFallback(r);
      for c := 0 to |combinations|
        invariant Reads(g, r, v, t) && (exists k :: 0 <= k < c && CutAt(g, r, v, t, combinations[k])) ==> iteExpr == Value(g, alg, t)
      {
        var d := combinations[c];
        assert d in combinations;
        var guard, branch := GenerateBranch(v, r, d, t);
        if guard {
          if Reads(g, r, v, t) { GuardPicksCuts(g, v, d, r, t); }
          iteExpr := branch;
        }
      }
      if Reads(g, r, v, t) { var k := CutsAreTried(g, r, v, t, combinations); }
    }

    /** One division: the guard, which asks for all arguments but the last, and the branch; a part that nothing can read drops it. */
    method GenerateBranch(v: seq<int>, r: nat, d: seq<nat>, ghost t: Tree) returns (guard: bool, branch: Term)
      requires Ok() && r < |g.rules| && g.rules[r].Fn? && 1 < |g.rules[r].args| < |v|
      requires d in Combinations(|v| - 1, |g.rules[r].args| - 1)
      ensures guard ==> forall i | 0 <= i < |d| && i < |g.rules[r].args| :: ValidNt(g, g.rules[r].args[i], Part(v, d, i))
      ensures guard <==>
                && (forall i | 0 <= i < |g.rules[r].args| :: interpretable.nonTerminal(|Part(v, d, i)|, g.rules[r].args[i]))
                && forall i | 0 <= i < |g.rules[r].args| - 1 :: ValidNt(g, g.rules[r].args[i], Part(v, d, i))
      ensures CutAt(g, r, v, t, d) ==> guard && branch == Value(g, alg, t)
      decreases |v|, 0, 0
    {
      hide Wf, Code, ValidRule, ValidNt, Combinations, Value, CutAt, Part;
      var args := g.rules[r].args;
      CombinationsAreDivisions(|v| - 1, |args| - 1);
      ghost var cut := CutAt(g, r, v, t, d);
      if cut { CutKids(g, r, v, t, d); }
      var argsInterpreted: seq<Term> := [];
      guard := true;
      for i := 0 to |args|
        invariant |argsInterpreted| == i
        invariant forall j | 0 <= j < i :: interpretable.nonTerminal(|Part(v, d, j)|, args[j])
        invariant guard <==> forall j | 0 <= j < i && j < |args| - 1 :: ValidNt(g, args[j], Part(v, d, j))
        invariant cut ==> guard
        invariant cut ==> forall j | 0 <= j < i :: ArgRead(g, alg, t, j, argsInterpreted[j])
      {
        var subterms := Part(v, d, i);
        if !interpretable.nonTerminal(|subterms|, args[i]) {
          return false, ruleFallback(r);
        }
        var arg := GenerateInterpretNt(subterms, args[i], if i < |t.kids| then t.kids[i] else t);
        argsInterpreted := argsInterpreted + [arg];
        if i < |d| {
          guard := guard && ValidNt(g, args[i], subterms);
        }
      }
      branch := alg.dispatch(g.rules[r].op, argsInterpreted);
      if cut { ArgsReadAll(g, alg, t, argsInterpreted); }
    }

    /** `generateInterpret` for a non-terminal. */
    method GenerateInterpretNt(v: seq<int>, nt: nat, ghost t: Tree) returns (iteExpr: Term)
      requires Ok() && nt < |g.nts| && interpretable.nonTerminal(|v|, nt)
      ensures NtReads(g, nt, v, t) ==> iteExpr == Value(g, alg, t)
      decreases |v|, 1, 0
    {
      hide Wf, Code, ValidRule, ValidNt, Value, Combinations;
      var ruleS := g.nts[nt].first;
      var ruleE := ruleS + g.nts[nt].count;
      iteExpr := ntFallback(nt);
      if NtReads(g, nt, v, t) { CodeIsValid(g, t); }
      for type_ := ruleS to ruleE
        invariant NtReads(g, nt, v, t) && t.rule < type_ ==> iteExpr == Value(g, alg, t)
      {
        if interpretable.rule(|v|, type_) {
          var branchGuard := ValidRule(g, type_, v);
          var branch := GenerateInterpretRule(v, type_, t);
          if branchGuard {
            if NtReads(g, nt, v, t) { ReadsRule(g, t.rule, v, t, type_); }
            iteExpr := branch;
          }
        }
      }
    }
  }

  /** The value is that of the child. */
  predicate ArgRead(g: Grammar, alg: Algebra, t: Tree, i: nat, arg: Term)
    requires g.Ok()
  {
    Wf(g, t) && i < |t.kids| && Wf(g, t.kids[i]) && arg == Value(g, alg, t.kids[i])
  }

  lemma ReadsLeaf(g: Grammar, alg: Algebra, r: nat, v: seq<int>, t: Tree)
    requires g.Ok() && Reads(g, r, v, t) && r < |g.rules|
    ensures match g.rules[r] {
      case Leaf(sym) => Value(g, alg, t) == alg.leaf(sym)
      case ConstInt => |v| == 2 && Value(g, alg, t) == alg.num(v[1])
      case ConstBool => |v| == 2 && Value(g, alg, t) == alg.truth(v[1] != 0)
      case _ => true
    }
  {
    if g.rules[r].ConstInt? || g.rules[r].ConstBool? {
      assert Codes(g, t.kids) == [];
      assert v == [t.rule, t.payload];
    }
  }

  lemma OneReads(g: Grammar, alg: Algebra, v: seq<int>, t: Tree)
    requires g.Ok() && Wf(g, t) && g.rules[t.rule].Fn? && |g.rules[t.rule].args| == 1 && Code(g, t) == v
    ensures |t.kids| == 1 && v != [] && NtReads(g, g.rules[t.rule].args[0], v[1..], t.kids[0])
    ensures Value(g, alg, t) == alg.dispatch(g.rules[t.rule].op, [Value(g, alg, t.kids[0])])
  {
    FnCode(g, t);
    CodesHead(g, t.kids);
    assert Codes(g, t.kids[1..]) == [];
    assert v[1..] == Code(g, t.kids[0]);
    assert Vals(g, alg, t.kids) == [Value(g, alg, t.kids[0])];
  }

  /** The parts at the cuts of a tree are the codes of its children, so all of them are valid. */
  lemma CutKids(g: Grammar, r: nat, v: seq<int>, t: Tree, d: seq<nat>)
    requires g.Ok() && g.NoUnits() && CutAt(g, r, v, t, d)
    ensures Reads(g, r, v, t) && |t.kids| == |g.rules[r].args|
    ensures forall i | 0 <= i < |t.kids| :: NtReads(g, g.rules[r].args[i], Part(v, d, i), t.kids[i])
    ensures forall i | 0 <= i < |t.kids| :: ValidNt(g, g.rules[r].args[i], Part(v, d, i))
  {
    hide ValidNt, Part, Cuts;
    FnCode(g, t);
    forall i | 0 <= i < |t.kids|
      ensures NtReads(g, g.rules[r].args[i], Part(v, d, i), t.kids[i]) && ValidNt(g, g.rules[r].args[i], Part(v, d, i))
    {
      PartOfCut(g, t.rule, t.kids, i);
      ValidIsCode(g, g.rules[t.rule].args[i], Part(v, d, i));
    }
  }

  lemma CutsAreTried(g: Grammar, r: nat, v: seq<int>, t: Tree, combinations: seq<seq<nat>>) returns (k: nat)
    requires g.Ok() && r < |g.rules| && g.rules[r].Fn? && Reads(g, r, v, t)
    requires combinations == Combinations(|v| - 1, |g.rules[r].args| - 1)
    ensures k < |combinations| && CutAt(g, r, v, t, combinations[k])
  {
    hide Code, Combinations, Cuts;
    FnCode(g, t);
    CutsAreDivision(g, t.kids);
    k :| 0 <= k < |combinations| && combinations[k] == Cuts(g, t.kids);
  }

  lemma ArgsReadAll(g: Grammar, alg: Algebra, t: Tree, args: seq<Term>)
    requires g.Ok() && Wf(g, t) && g.rules[t.rule].Fn? && |args| == |g.rules[t.rule].args|
    requires forall i | 0 <= i < |args| :: ArgRead(g, alg, t, i, args[i])
    ensures alg.dispatch(g.rules[t.rule].op, args) == Value(g, alg, t)
  {
    assert args == Vals(g, alg, t.kids);
  }

  lemma ReadsRule(g: Grammar, r: nat, v: seq<int>, t: Tree, q: nat)
    requires g.Ok() && Reads(g, r, v, t) && ValidRule(g, q, v)
    ensures r == q
  {
  }

  /** Both readings of a valid vector, and the derivation that both read, agree. */
  method ReadBoth(e: Expand, v: seq<int>, nt: nat) returns (symbolic: Term, concrete: Term, consumed: int)
    requires e.Ok() && nt < |e.g.nts| && ValidNt(e.g, nt, v)
    ensures symbolic == concrete && consumed == |v|
  {
    hide Wf, Code, ValidNt, Value;
    ValidIsCode(e.g, nt, v);
    ghost var t :| Wf(e.g, t) && e.g.Has(nt, t.rule) && Code(e.g, t) == v;
    symbolic := e.GenerateInterpretNt(v, nt, t);
    var reader := new ConcreteInterpreter(e.g, e.alg);
    assert v[0..0 + |Code(e.g, t)|] == v;
    concrete := reader.InterpretConcrete(v, 0, t);
    consumed := reader.lastInterpreted + 1;
  }
}