/**
 Learning a decision tree from partial solutions and conditions.

 Tree nodes live in an arena; a node is overwritten in place when the subproblem it stands for is
 decided.  Which condition splits a subproblem is a matter of entropy and is left to an oracle.
 */
module DecisionTrees {
  import opened Wrappers
  import opened BvExpr
  import opened BitSets

  datatype Node = Unsolved(bits: Bits) | Accept(option: nat) | Split(cond: nat, t: nat, f: nat)
  type Arena = seq<Node>

  /** A candidate expression and the packed set of examples it is right on. */
  datatype Candidate = Candidate(expr: Expr, bits: Bits)

  /** The examples: argument words, wanted outputs, candidates for leaves and for conditions. */
  datatype Lesson = Lesson(inputs: seq<seq<bv64>>, outputs: seq<bv64>, options: seq<Candidate>, conditions: seq<Candidate>) {
    function Size(): nat { |outputs| }

    /** The bit sets are those that `Solutions` builds: an option is tested against the output, a condition against zero. */
    ghost predicate WellFormed() {
      && |inputs| == |outputs|
      && (forall j | 0 <= j < |options| :: MarksOutput(options[j]))
      && (forall j | 0 <= j < |conditions| :: MarksZero(conditions[j]))
    }

    ghost predicate MarksOutput(c: Candidate)
      requires |inputs| == |outputs|
    {
      && |c.bits| == CeilDiv(Size(), 128)
      && forall i: nat :: Member(c.bits, i) <==> i < Size() && Eval(c.expr, inputs[i]) == Some(outputs[i])
    }

    ghost predicate MarksZero(c: Candidate)
      requires |inputs| == |outputs|
    {
      && |c.bits| == CeilDiv(Size(), 128)
      && forall i: nat :: Member(c.bits, i) <==> i < Size() && Eval(c.expr, inputs[i]) == Some(0)
    }

    /** No candidate divides by zero on any example. */
    ghost predicate DivisionFree() {
      && (forall j, i | 0 <= j < |options| && 0 <= i < |inputs| :: Eval(options[j].expr, inputs[i]).Some?)
      && (forall j, i | 0 <= j < |conditions| && 0 <= i < |inputs| :: Eval(conditions[j].expr, inputs[i]).Some?)
    }
  }

  // ---- trees in the arena ----

  /** The part of a region that satisfies a condition, and the part that does not. */
  ghost function Yes(region: iset<nat>, bits: Bits): iset<nat> { iset i: nat | i in region && Member(bits, i) }
  ghost function No(region: iset<nat>, bits: Bits): iset<nat> { iset i: nat | i in region && !Member(bits, i) }

  /** Children come after their parent, so the arena holds no cycles. */
  predicate Layered(a: Arena) {
    |a| > 0 && forall n | 0 <= n < |a| && a[n].Split? :: n < a[n].t < |a| && n < a[n].f < |a|
  }

  /** `size_recursive`. */
  function TreeSize(a: Arena, n: nat): (s: nat)
    requires Layered(a) && n < |a|
    decreases |a| - n
  {
    match a[n]
    case Split(_, t, f) => 1 + TreeSize(a, t) + TreeSize(a, f)
    case _ => 1
  }

  /** How often node `x` occurs below `n`. */
  function Occurrences(a: Arena, n: nat, x: nat): (c: nat)
    requires Layered(a) && n < |a|
    decreases |a| - n
  {
    (if n == x then 1 else 0) +
    match a[n]
    case Split(_, t, f) => Occurrences(a, t, x) + Occurrences(a, f, x)
    case _ => 0
  }

  /**
   The subtree at `n` handles exactly the examples in `region`: open leaves carry that set, accepted leaves
   are right on all of it, and a split passes on the two parts.
   */
  ghost predicate Handles(l: Lesson, a: Arena, n: nat, region: iset<nat>)
    requires Layered(a) && n < |a|
    decreases |a| - n
  {
    match a[n]
    case Unsolved(bits) => |bits| == CeilDiv(l.Size(), 128) && region == iset i: nat | Member(bits, i)
    case Accept(j) => j < |l.options| && forall i | i in region :: Member(l.options[j].bits, i)
    case Split(c, t, f) =>
      && c < |l.conditions|
      && Handles(l, a, t, Yes(region, l.conditions[c].bits))
      && Handles(l, a, f, No(region, l.conditions[c].bits))
  }

  /** The examples of a packed set. */
  ghost function Examples(bits: Bits): iset<nat> { iset i: nat | Member(bits, i) }

  /** `a'` differs from `a` only in node `x` and in nodes appended at the end. */
  ghost predicate Overwrites(a: Arena, a': Arena, x: nat) {
    && Layered(a) && Layered(a') && x < |a| <= |a'|
    && forall n | 0 <= n < |a| && n != x :: a'[n] == a[n]
  }

  /** Overwriting an open leaf by something that handles its examples disturbs no other part of the tree. */
  lemma {:induction false} HandlesAfter(l: Lesson, a: Arena, a': Arena, x: nat, n: nat, region: iset<nat>)
    requires Overwrites(a, a', x) && a[x].Unsolved? && n < |a|
    requires Handles(l, a, n, region) && Handles(l, a', x, Examples(a[x].bits))
    ensures Handles(l, a', n, region)
    decreases |a| - n
  {
    if n != x && a[n].Split? {
      var c, t, f := a[n].cond, a[n].t, a[n].f;
      HandlesAfter(l, a, a', x, t, Yes(region, l.conditions[c].bits));
      HandlesAfter(l, a, a', x, f, No(region, l.conditions[c].bits));
    }
  }

  /** Deciding a leaf by an option keeps every count. */
  lemma {:induction false} CountsAfterAccept(a: Arena, x: nat, j: nat, n: nat, y: nat)
    requires Layered(a) && x < |a| && a[x].Unsolved? && n < |a| && y < |a|
    ensures Layered(a[x := Accept(j)])
    ensures TreeSize(a[x := Accept(j)], n) == TreeSize(a, n)
    ensures Occurrences(a[x := Accept(j)], n, y) == Occurrences(a, n, y)
    decreases |a| - n
  {
    if a[n].Split? {
      CountsAfterAccept(a, x, j, a[n].t, y);
      CountsAfterAccept(a, x, j, a[n].f, y);
    }
  }

  function SplitLeaf(a: Arena, x: nat, c: nat, tb: Bits, fb: Bits): (a': Arena)
    requires x < |a|
  {
    a[x := Split(c, |a|, |a| + 1)] + [Unsolved(tb), Unsolved(fb)]
  }

  /** Splitting a leaf adds two nodes for each of its occurrences, and the new leaves occur as often as it did. */
  lemma {:induction false} CountsAfterSplit(a: Arena, x: nat, c: nat, tb: Bits, fb: Bits, n: nat, y: nat)
    requires Layered(a) && x < |a| && a[x].Unsolved? && n < |a| && y < |a|
    ensures var a' := SplitLeaf(a, x, c, tb, fb);
            && Layered(a')
            && TreeSize(a', n) == TreeSize(a, n) + 2 * Occurrences(a, n, x)
            && Occurrences(a', n, y) == Occurrences(a, n, y)
            && Occurrences(a', n, |a|) == Occurrences(a, n, x) == Occurrences(a', n, |a| + 1)
    decreases |a| - n
  {
    var a' := SplitLeaf(a, x, c, tb, fb);
    assert Layered(a');
    if n == x {
      assert a'[n] == Split(c, |a|, |a| + 1);
      assert TreeSize(a', |a|) == 1 == TreeSize(a', |a| + 1);
    } else if a[n].Split? {
      CountsAfterSplit(a, x, c, tb, fb, a[n].t, y);
      CountsAfterSplit(a, x, c, tb, fb, a[n].f, y);
    }
  }

  lemma NewLeavesHandle(l: Lesson, a: Arena, x: nat, c: nat, tb: Bits, fb: Bits)
    requires l.WellFormed() && Layered(a) && x < |a| && a[x].Unsolved? && c < |l.conditions|
    requires |a[x].bits| == CeilDiv(l.Size(), 128)
    requires tb == Conjunction(a[x].bits, l.conditions[c].bits) && fb == Difference(a[x].bits, l.conditions[c].bits)
    ensures var a' := SplitLeaf(a, x, c, tb, fb); Layered(a') && Handles(l, a', x, Examples(a[x].bits))
  {
    hide Member, Conjunction, Difference;
    var a', region := SplitLeaf(a, x, c, tb, fb), Examples(a[x].bits);
    assert l.MarksZero(l.conditions[c]);
    assert (Yes(region, l.conditions[c].bits)) == Examples(tb);
    assert (No(region, l.conditions[c].bits)) == Examples(fb);
    assert a'[|a|] == Unsolved(tb) && a'[|a| + 1] == Unsolved(fb);
    assert Layered(a');
  }

  /** Open leaves that occur in a handled tree have sets of full width. */
  lemma {:induction false} HandlesBits(l: Lesson, a: Arena, x: nat, n: nat, region: iset<nat>)
    requires Layered(a) && n < |a| && x < |a| && a[x].Unsolved?
    requires Handles(l, a, n, region) && Occurrences(a, n, x) > 0
    ensures |a[x].bits| == CeilDiv(l.Size(), 128)
    decreases |a| - n
  {
    if n != x && a[n].Split? {
      var c, t, f := a[n].cond, a[n].t, a[n].f;
      if Occurrences(a, t, x) > 0 {
        HandlesBits(l, a, x, t, Yes(region, l.conditions[c].bits));
      } else {
        HandlesBits(l, a, x, f, No(region, l.conditions[c].bits));
      }
    }
  }

  /** The arena is one tree rooted at node 0, without sharing, that handles what `boxed_ones` contains. */
  ghost predicate TreeOk(l: Lesson, a: Arena) {
    && Layered(a)
    && Handles(l, a, 0, Examples(BoxedOnes(l.Size())))
    && (forall x | 0 <= x < |a| :: Occurrences(a, 0, x) == 1)
    && TreeSize(a, 0) == |a|
  }

  lemma AcceptKeepsTree(l: Lesson, a: Arena, x: nat, j: nat)
    requires l.WellFormed() && TreeOk(l, a) && x < |a| && a[x].Unsolved?
    requires j < |l.options| && Subset(a[x].bits, l.options[j].bits)
    ensures TreeOk(l, a[x := Accept(j)])
  {
    hide Member, Subset, BoxedOnes;
    var a' := a[x := Accept(j)];
    forall y | 0 <= y < |a| ensures Occurrences(a', 0, y) == 1 {
      CountsAfterAccept(a, x, j, 0, y);
    }
    CountsAfterAccept(a, x, j, 0, 0);
    HandlesBits(l, a, x, 0, Examples(BoxedOnes(l.Size())));
    assert l.MarksOutput(l.options[j]);
    SubsetIsInclusion(a[x].bits, l.options[j].bits);
    HandlesAfter(l, a, a', x, 0, Examples(BoxedOnes(l.Size())));
  }

  lemma DivideKeepsTree(l: Lesson, a: Arena, x: nat, c: nat)
    requires l.WellFormed() && TreeOk(l, a) && x < |a| && a[x].Unsolved? && c < |l.conditions|
    ensures TreeOk(l, SplitLeaf(a, x, c, Conjunction(a[x].bits, l.conditions[c].bits), Difference(a[x].bits, l.conditions[c].bits)))
  {
    hide Member, Conjunction, Difference, BoxedOnes;
    var tb, fb := Conjunction(a[x].bits, l.conditions[c].bits), Difference(a[x].bits, l.conditions[c].bits);
    var a' := SplitLeaf(a, x, c, tb, fb);
    CountsAfterSplit(a, x, c, tb, fb, 0, 0);
    forall y | 0 <= y < |a'| ensures Occurrences(a', 0, y) == 1 {
      CountsAfterSplit(a, x, c, tb, fb, 0, if y < |a| then y else 0);
    }
    HandlesBits(l, a, x, 0, Examples(BoxedOnes(l.Size())));
    NewLeavesHandle(l, a, x, c, tb, fb);
    HandlesAfter(l, a, a', x, 0, Examples(BoxedOnes(l.Size())));
  }

  // ---- reading the answer off the tree ----

  ghost predicate NoOpenLeaf(a: Arena) { forall n | 0 <= n < |a| :: !a[n].Unsolved? }

  /** `bvexpr_recursizve`; `None` is its panic on an open leaf. */
  function TreeExpr(l: Lesson, a: Arena, n: nat): (e: Option<Expr>)
    requires Layered(a) && n < |a|
    decreases |a| - n
  {
    match a[n]
    case Unsolved(_) => None
    case Accept(j) => if j < |l.options| then Some(l.options[j].expr) else None
    case Split(c, t, f) =>
      var te, fe := TreeExpr(l, a, t), TreeExpr(l, a, f);
      if te.None? || fe.None? || c >= |l.conditions| then None
      else Some(Ite(l.conditions[c].expr, te.value, fe.value))
  }

  /** `cover_recursive`. */
  function Cover(l: Lesson, a: Arena, n: nat): (b: Bits)
    requires Layered(a) && n < |a|
    decreases |a| - n
  {
    match a[n]
    case Unsolved(bits) => bits
    case Accept(j) => if j < |l.options| then l.options[j].bits else []
    case Split(c, t, f) =>
      if c >= |l.conditions| then []
      else Union(Conjunction(Cover(l, a, t), l.conditions[c].bits), Difference(Cover(l, a, f), l.conditions[c].bits))
  }

  /** The expression of a decided subtree is right on every example the subtree handles. */
  lemma {:induction false} TreeExprIsRight(l: Lesson, a: Arena, n: nat, region: iset<nat>, i: nat)
    requires l.WellFormed() && l.DivisionFree() && Layered(a) && n < |a| && NoOpenLeaf(a)
    requires Handles(l, a, n, region) && i in region && i < l.Size()
    ensures TreeExpr(l, a, n).Some?
    ensures Eval(TreeExpr(l, a, n).value, l.inputs[i]) == Some(l.outputs[i])
    decreases |a| - n
  {
    if a[n].Split? {
      var c, t, f := a[n].cond, a[n].t, a[n].f;
      var yes := Yes(region, l.conditions[c].bits);
      var no := No(region, l.conditions[c].bits);
      TreeExprDefined(l, a, t, yes);
      TreeExprDefined(l, a, f, no);
      TreeExprEvaluates(l, a, t, yes, i);
      TreeExprEvaluates(l, a, f, no, i);
      if Member(l.conditions[c].bits, i) {
        TreeExprIsRight(l, a, t, yes, i);
      } else {
        TreeExprIsRight(l, a, f, no, i);
      }
    }
  }

  lemma {:induction false} TreeExprDefined(l: Lesson, a: Arena, n: nat, region: iset<nat>)
    requires Layered(a) && n < |a| && NoOpenLeaf(a) && Handles(l, a, n, region)
    ensures TreeExpr(l, a, n).Some?
    decreases |a| - n
  {
    if a[n].Split? {
      var c, t, f := a[n].cond, a[n].t, a[n].f;
      TreeExprDefined(l, a, t, Yes(region, l.conditions[c].bits));
      TreeExprDefined(l, a, f, No(region, l.conditions[c].bits));
    }
  }

  /** If-then-else is evaluated eagerly, so every part of the tree has to evaluate. */
  lemma {:induction false} TreeExprEvaluates(l: Lesson, a: Arena, n: nat, region: iset<nat>, i: nat)
    requires l.WellFormed() && l.DivisionFree() && Layered(a) && n < |a| && NoOpenLeaf(a)
    requires Handles(l, a, n, region) && i < l.Size()
    ensures TreeExpr(l, a, n).Some? && Eval(TreeExpr(l, a, n).value, l.inputs[i]).Some?
    decreases |a| - n
  {
    if a[n].Split? {
      var c, t, f := a[n].cond, a[n].t, a[n].f;
      TreeExprEvaluates(l, a, t, Yes(region, l.conditions[c].bits), i);
      TreeExprEvaluates(l, a, f, No(region, l.conditions[c].bits), i);
    }
  }

  /** `cover_recursive` computes exactly the examples on which the expression is right. */
  lemma {:induction false} CoverIsExact(l: Lesson, a: Arena, n: nat, region: iset<nat>, i: nat)
    requires l.WellFormed() && l.DivisionFree() && Layered(a) && n < |a| && NoOpenLeaf(a)
    requires Handles(l, a, n, region) && i < l.Size()
    ensures |Cover(l, a, n)| == CeilDiv(l.Size(), 128) && TreeExpr(l, a, n).Some?
    ensures Member(Cover(l, a, n), i) <==> Eval(TreeExpr(l, a, n).value, l.inputs[i]) == Some(l.outputs[i])
    decreases |a| - n
  {
    hide Member;
    if a[n].Split? {
      var c, t, f := a[n].cond, a[n].t, a[n].f;
      var yes := Yes(region, l.conditions[c].bits);
      var no := No(region, l.conditions[c].bits);
      TreeExprEvaluates(l, a, t, yes, i);
      TreeExprEvaluates(l, a, f, no, i);
      CoverIsExact(l, a, t, yes, i);
      CoverIsExact(l, a, f, no, i);
    }
  }

  /** Every node of the arena is in the tree, so an answer means that no leaf is open. */
  lemma TreeExprNeedsNoOpenLeaf(l: Lesson, a: Arena)
    requires TreeOk(l, a) && TreeExpr(l, a, 0).Some?
    ensures NoOpenLeaf(a)
  {
    forall x | 0 <= x < |a| ensures !a[x].Unsolved? {
      if a[x].Unsolved? {
        OpenLeafPanics(l, a, 0, x);
      }
    }
  }

  lemma {:induction false} OpenLeafPanics(l: Lesson, a: Arena, n: nat, x: nat)
    requires Layered(a) && n < |a| && x < |a| && a[x].Unsolved? && Occurrences(a, n, x) > 0
    ensures TreeExpr(l, a, n).None?
    decreases |a| - n
  {
    if n != x && a[n].Split? {
      if Occurrences(a, a[n].t, x) > 0 {
        OpenLeafPanics(l, a, a[n].t, x);
      } else {
        OpenLeafPanics(l, a, a[n].f, x);
      }
    }
  }

  /**
   A finished tree is right on every example that `boxed_ones` contains, hence on all of them unless their
   number is a positive multiple of 128.
   */
  lemma FinishedTreeIsRight(l: Lesson, a: Arena)
    requires l.WellFormed() && l.DivisionFree() && TreeOk(l, a) && NoOpenLeaf(a)
    ensures TreeExpr(l, a, 0).Some?
    ensures forall i | 0 <= i < Covered(l.Size()) :: Eval(TreeExpr(l, a, 0).value, l.inputs[i]) == Some(l.outputs[i])
    ensures l.Size() % 128 != 0 ==>
              forall i | 0 <= i < l.Size() :: Eval(TreeExpr(l, a, 0).value, l.inputs[i]) == Some(l.outputs[i])
  {
    hide Member, BoxedOnes;
    var region := Examples(BoxedOnes(l.Size()));
    BoxedOnesMembers(l.Size());
    TreeExprDefined(l, a, 0, region);
    forall i | 0 <= i < Covered(l.Size()) ensures Eval(TreeExpr(l, a, 0).value, l.inputs[i]) == Some(l.outputs[i]) {
      TreeExprIsRight(l, a, 0, region, i);
    }
  }

  // ---- the learner ----

  datatype Selection = Take(option: nat) | Divide(cond: nat, t: Bits, f: Bits)

  /** The first option that covers the set. */
  function Covering(options: seq<Candidate>, bits: Bits, from: nat := 0): (j: Option<nat>)
    requires from <= |options|
    ensures j.Some? ==> from <= j.value < |options| && Subset(bits, options[j.value].bits)
    ensures forall k | from <= k < (if j.Some? then j.value else |options|) :: !Subset(bits, options[k].bits)
    decreases |options| - from
  {
    if from == |options| then None
    else if Subset(bits, options[from].bits) then Some(from)
    else Covering(options, bits, from + 1)
  }

  /** What the learner does at a leaf. */
  function Choice(l: Lesson, low: Bits -> bool, best: Bits -> nat, bits: Bits): Selection
    requires best(bits) < |l.conditions|
  {
    var j := if low(bits) then Covering(l.options, bits) else None;
    var c := best(bits);
    if j.Some? then Take(j.value)
    else Divide(c, Conjunction(bits, l.conditions[c].bits), Difference(bits, l.conditions[c].bits))
  }

  ghost predicate OpenStack(a: Arena, stack: seq<nat>) {
    && (forall k | 0 <= k < |stack| :: stack[k] < |a| && a[stack[k]].Unsolved?)
    && (forall k, m | 0 <= k < m < |stack| :: stack[k] != stack[m])
  }

  /** The arena that learning ends with, from a stack of open leaves, and whether all were decided. */
  ghost function Learned(l: Lesson, limit: nat, low: Bits -> bool, best: Bits -> nat, a: Arena, stack: seq<nat>): (r: (Arena, bool))
    requires OpenStack(a, stack) && forall b :: best(b) < |l.conditions|
    decreases if |a| <= limit then limit + 2 - |a| else 0, |stack|
  {
    if stack == [] then (a, true)
    else
      var x, rest := stack[|stack| - 1], stack[..|stack| - 1];
      match Choice(l, low, best, a[x].bits)
      case Take(j) => Learned(l, limit, low, best, a[x := Accept(j)], rest)
      case Divide(c, t, f) =>
        var a' := SplitLeaf(a, x, c, t, f);
        if |a'| > limit then (a', false) else Learned(l, limit, low, best, a', rest + [|a| + 1, |a|])
  }

  /** Learning from a single open leaf with all examples that `boxed_ones` contains. */
  ghost function LearnedTree(l: Lesson, limit: nat, low: Bits -> bool, best: Bits -> nat): (r: (Arena, bool))
    requires forall b :: best(b) < |l.conditions|
  {
    Learned(l, limit, low, best, [Unsolved(BoxedOnes(l.Size()))], [0])
  }

  /** Where the first option covers the root and the entropy there is low, learning takes it and is done. */
  lemma OptionAtRoot(l: Lesson, limit: nat, low: Bits -> bool, best: Bits -> nat)
    requires forall b :: best(b) < |l.conditions|
    requires low(BoxedOnes(l.Size())) && |l.options| > 0 && Subset(BoxedOnes(l.Size()), l.options[0].bits)
    ensures LearnedTree(l, limit, low, best) == ([Accept(0)], true)
  {
    hide Subset, BoxedOnes;
    var root := BoxedOnes(l.Size());
    var a: Arena := [Unsolved(root)];
    assert Choice(l, low, best, root) == Take(0);
    assert a[0 := Accept(0)] == [Accept(0)] && [0][..0] == [];
    assert Learned(l, limit, low, best, [Accept(0)], []) == ([Accept(0)], true);
    assert Learned(l, limit, low, best, a, [0]) == Learned(l, limit, low, best, a[0 := Accept(0)], [0][..0]);
  }

  ghost predicate SolvedBySome(l: Lesson, k: nat) { exists j :: 0 <= j < |l.options| && Member(l.options[j].bits, k) }

  /** Two options that solve every example together, on a dropped one and on the others. */
  function Uneven(inputs: seq<seq<bv64>>, i: nat, conditions: seq<Candidate>): (l: Lesson)
    requires i < |inputs|
  {
    var n := |inputs|;
    Lesson(inputs, seq(n, k => if k == i then 1 else 0),
      [Candidate(Const(0), Packed(AllBut(n, i), n)), Candidate(Const(1), Packed([i], n))], conditions)
  }

  function AllBut(n: nat, i: nat): (s: seq<nat>)
    ensures forall k: nat :: k in s <==> k < n && k != i
    ensures forall j | 0 <= j < |s| :: s[j] < n
  {
    if n == 0 then [] else AllBut(n - 1, i) + if n - 1 == i then [] else [n - 1]
  }

  /**
   The exception is real: whatever the examples and the conditions, each example that `boxed_ones` drops can come out
   wrong although the options solve all of them.  The first option covers the root, whose entropy is zero then.
   */
  lemma DroppedExampleCanBeWrong(inputs: seq<seq<bv64>>, i: nat, conditions: seq<Candidate>, limit: nat, low: Bits -> bool, best: Bits -> nat)
    requires Covered(|inputs|) <= i < |inputs| && low(BoxedOnes(|inputs|)) && forall b :: best(b) < |conditions|
    requires forall c | c in conditions :: Uneven(inputs, i, conditions).MarksZero(c)
    ensures var l := Uneven(inputs, i, conditions);
      && l.WellFormed()
      && (forall k | 0 <= k < l.Size() :: SolvedBySome(l, k))
      && LearnedTree(l, limit, low, best) == ([Accept(0)], true)
      && TreeExpr(l, [Accept(0)], 0) == Some(l.options[0].expr)
      && Eval(l.options[0].expr, l.inputs[i]) != Some(l.outputs[i])
  {
    hide Member, BoxedOnes, Subset, Packed;
    var l := Uneven(inputs, i, conditions);
    var n := |inputs|;
    PackedMembers(AllBut(n, i), n);
    PackedMembers([i], n);
    assert l.MarksOutput(l.options[0]);
    assert l.MarksOutput(l.options[1]);
    forall k | 0 <= k < n ensures SolvedBySome(l, k) {
      assert Member(l.options[if k == i then 1 else 0].bits, k);
    }
    BoxedOnesMembers(n);
    SubsetIsInclusion(BoxedOnes(n), l.options[0].bits);
    OptionAtRoot(l, limit, low, best);
  }

  /**
   `TreeLearning`.  `low(bits)` says that the entropy of a set is small enough to try the options; `best(bits)`
   is the condition with the least conditional entropy.
   */
  class TreeLearning {
    const lesson: Lesson
    const limit: nat
    const low: Bits -> bool
    const best: Bits -> nat
    var arena: Arena
    var subproblems: seq<nat>
    var solved: bool

    /** The stack holds exactly the open leaves, each once. */
    ghost predicate StackOk()
      reads this
    {
      OpenStack(arena, subproblems) && forall x | 0 <= x < |arena| && arena[x].Unsolved? :: x in subproblems
    }

    ghost predicate Valid()
      reads this
    {
      TreeOk(lesson, arena) && StackOk() && forall b :: best(b) < |lesson.conditions|
    }

    constructor (lesson: Lesson, limit: nat, low: Bits -> bool, best: Bits -> nat)
      requires lesson.WellFormed() && forall b :: best(b) < |lesson.conditions|
      ensures Valid() && this.lesson == lesson && this.limit == limit && !solved && |arena| == 1
      ensures this.low == low && this.best == best
      ensures arena == [Unsolved(BoxedOnes(lesson.Size()))] && subproblems == [0]
    {
      this.lesson, this.limit, this.low, this.best := lesson, limit, low, best;
      arena, subproblems, solved := [Unsolved(BoxedOnes(lesson.Size()))], [0], false;
    }

    /** `select`: the first option covering the whole set if the entropy is low, otherwise a split. */
    method Select(bits: Bits) returns (s: Selection)
      requires Valid()
      ensures s.Take? ==> s.option < |lesson.options| && Subset(bits, lesson.options[s.option].bits) && low(bits)
      ensures s.Take? ==> forall j | 0 <= j < s.option :: !Subset(bits, lesson.options[j].bits)
      ensures s.Divide? ==> s == Divide(best(bits), Conjunction(bits, lesson.conditions[best(bits)].bits),
                                        Difference(bits, lesson.conditions[best(bits)].bits))
      ensures s.Divide? && low(bits) ==> forall j | 0 <= j < |lesson.options| :: !Subset(bits, lesson.options[j].bits)
      ensures s == Choice(lesson, low, best, bits)
    {
      hide Subset;
      if low(bits) {
        for j := 0 to |lesson.options|
          invariant forall k | 0 <= k < j :: !Subset(bits, lesson.options[k].bits)
        {
          if Subset(bits, lesson.options[j].bits) { return Take(j); }
        }
      }
      var c := best(bits);
      s := Divide(c, Conjunction(bits, lesson.conditions[c].bits), Difference(bits, lesson.conditions[c].bits));
    }

    /** `run`. */
    method Run()
      requires Valid() && lesson.WellFormed() && |arena| == 1 && !solved
      modifies this`arena, this`subproblems, this`solved
      ensures Valid()
      ensures solved <==> NoOpenLeaf(arena)
      ensures solved ==> |arena| <= if limit >= 1 then limit else 1
      ensures !solved ==> |arena| > limit
      ensures (arena, solved) == old(Learned(lesson, limit, low, best, arena, subproblems))
    {
      hide Covering, Choice, TreeOk;
      var counter := 1;
      ghost var result := Learned(lesson, limit, low, best, arena, subproblems);
      while |subproblems| > 0
        invariant Valid() && counter == |arena| && (counter == 1 || counter <= limit) && !solved
        invariant Learned(lesson, limit, low, best, arena, subproblems) == result
        decreases limit + 2 - counter, |subproblems|
      {
        var x := subproblems[|subproblems| - 1];
        var bits := arena[x].bits;
        var s := Select(bits);
        match s
        case Take(j) => AcceptLeaf(x, j);
        case Divide(c, t, f) =>
          DivideLeaf(x, c, t, f);
          counter := counter + 2;
          if counter > limit {
            assert arena[|arena| - 1].Unsolved?;
            return;
          }
      }
      solved := true;
    }

    /** `*last.borrow_mut() = Accept(i)`. */
    method AcceptLeaf(x: nat, j: nat)
      requires Valid() && lesson.WellFormed() && |subproblems| > 0 && x == subproblems[|subproblems| - 1]
      requires j < |lesson.options| && Subset(arena[x].bits, lesson.options[j].bits)
      modifies this`arena, this`subproblems
      ensures Valid() && arena == old(arena)[x := Accept(j)]
      ensures subproblems == old(subproblems)[..|old(subproblems)| - 1]
    {
      hide TreeOk, Subset;
      AcceptKeepsTree(lesson, arena, x, j);
      arena := arena[x := Accept(j)];
      subproblems := subproblems[..|subproblems| - 1];
    }

    /** Two new open leaves and `*last.borrow_mut() = Ite`. */
    method DivideLeaf(x: nat, c: nat, tb: Bits, fb: Bits)
      requires Valid() && lesson.WellFormed() && |subproblems| > 0 && x == subproblems[|subproblems| - 1]
      requires c < |lesson.conditions|
      requires tb == Conjunction(arena[x].bits, lesson.conditions[c].bits)
      requires fb == Difference(arena[x].bits, lesson.conditions[c].bits)
      modifies this`arena, this`subproblems
      ensures Valid() && arena == SplitLeaf(old(arena), x, c, tb, fb)
      ensures subproblems == old(subproblems)[..|old(subproblems)| - 1] + [|old(arena)| + 1, |old(arena)|]
    {
      hide TreeOk, Conjunction, Difference;
      DivideKeepsTree(lesson, arena, x, c);
      subproblems := subproblems[..|subproblems| - 1] + [|arena| + 1, |arena|];
      arena := SplitLeaf(arena, x, c, tb, fb);
    }
  }
}
