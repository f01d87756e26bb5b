/** The store of partial solutions that feeds the tree learner. */
module PartialSolutions {
  import opened Wrappers
  import opened BvExpr
  import opened BitSets
  import opened DecisionTrees

  /** `PbeConstraint`: examples with their outputs. */
  datatype Constraint = Constraint(inputs: seq<seq<bv64>>, outputs: seq<bv64>) {
    ghost predicate WellFormed() { |inputs| == |outputs| }

    predicate Solves(e: Expr, i: nat)
      requires |inputs| == |outputs| && i < |outputs|
    {
      Eval(e, inputs[i]) == Some(outputs[i])
    }

    /** `test`: the indices of the examples that the expression solves, in order. */
    function Test(e: Expr, from: nat := 0): (s: seq<nat>)
      requires |inputs| == |outputs| && from <= |outputs|
      ensures forall i: nat :: i in s <==> from <= i < |outputs| && Solves(e, i)
      ensures |s| <= |outputs| - from
      ensures |s| == |outputs| - from <==> forall i | from <= i < |outputs| :: Solves(e, i)
      decreases |outputs| - from
    {
      if from == |outputs| then []
      else (if Solves(e, from) then [from] else []) + Test(e, from + 1)
    }
  }

  /** The expression is right on all examples of the constraint. */
  ghost predicate RightOn(c: Constraint, e: Expr)
    requires c.WellFormed()
  {
    forall i | 0 <= i < |c.outputs| :: c.Solves(e, i)
  }

  predicate Distinct(a: seq<nat>) { forall j, k | 0 <= j < k < |a| :: a[j] != a[k] }

  lemma {:induction false} WithoutIsDistinct(a: seq<nat>, b: seq<nat>)
    requires Distinct(a)
    ensures Distinct(Without(a, b))
  {
    if a != [] { WithoutIsDistinct(a[1..], b); }
  }

  lemma {:induction false} IndicesAreDistinct(n: nat)
    ensures Distinct(Indices(n))
  {
    if n > 0 {
      IndicesAreDistinct(n - 1);
      var s := Indices(n - 1);
      forall j | 0 <= j < |s| ensures s[j] < n - 1 { assert s[j] in s; }
    }
  }

  /** A list without repetitions is no longer than a list that has all its elements. */
  lemma {:induction false} NoLonger(a: seq<nat>, b: seq<nat>)
    requires Distinct(a) && forall i :: i in a ==> i in b
    ensures |a| <= |b|
  {
    if a != [] {
      assert a[0] in b;
      var k :| 0 <= k < |b| && b[k] == a[0];
      var rest := b[..k] + b[k + 1..];
      forall i | i in a[1..] ensures i in rest {
        assert i in a && i in b;
        var j :| 0 <= j < |b| && b[j] == i;
        assert b[j] == rest[if j < k then j else j - 1];
      }
      NoLonger(a[1..], rest);
    }
  }

  /** Set difference on index lists. */
  function Without(a: seq<nat>, b: seq<nat>): (d: seq<nat>)
    ensures forall i :: i in d <==> i in a && i !in b
  {
    if a == [] then [] else (if a[0] in b then [] else [a[0]]) + Without(a[1..], b)
  }

  /** A partial solution with the examples it solves. */
  datatype Solved = Solved(expr: Expr, examples: seq<nat>)

  function Indices(n: nat): (s: seq<nat>)
    ensures forall i: nat :: i in s <==> i < n
    ensures |s| == n
  {
    if n == 0 then [] else Indices(n - 1) + [n - 1]
  }

  /** The condition list shared between the search for conditions and the search for expressions. */
  class CondBuffer {
    var entries: seq<Candidate>

    constructor ()
      ensures entries == []
    {
      entries := [];
    }
  }

  /** The candidate that belongs to a partial solution. */
  ghost predicate Packs(s: Solved, c: Candidate, len: nat) {
    c.expr == s.expr && |c.bits| == CeilDiv(len, 128) && forall k: nat :: Member(c.bits, k) <==> k in s.examples
  }

  ghost predicate PacksAll(ss: seq<Solved>, cs: seq<Candidate>, len: nat) {
    |ss| == |cs| && forall j | 0 <= j < |ss| :: Packs(ss[j], cs[j], len)
  }

  predicate InRange(ss: seq<Solved>, len: nat) {
    forall j, k | 0 <= j < |ss| && 0 <= k < |ss[j].examples| :: ss[j].examples[k] < len
  }

  /** The packed partial solutions. */
  function Packing(ss: seq<Solved>, len: nat): (cs: seq<Candidate>)
    requires InRange(ss, len)
    ensures |cs| == |ss|
  {
    seq(|ss|, j requires 0 <= j < |ss| => Candidate(ss[j].expr, Packed(ss[j].examples, len)))
  }

  /** `to_bits`. */
  method ToBits(ss: seq<Solved>, len: nat) returns (cs: seq<Candidate>)
    requires InRange(ss, len)
    ensures PacksAll(ss, cs, len) && cs == Packing(ss, len)
  {
    hide Member, Packed;
    cs := [];
    for j := 0 to |ss|
      invariant |cs| == j && forall k | 0 <= k < j :: cs[k] == Packing(ss, len)[k] && Packs(ss[k], cs[k], len)
    {
      var b := FromBitIter(ss[j].examples, len);
      cs := cs + [Candidate(ss[j].expr, b)];
    }
  }

  // ---- what the store keeps ----

  /** Each stored set is what the constraint says about its expression. */
  ghost predicate SolvedOk(c: Constraint, solved: seq<Solved>) {
    c.WellFormed() && forall j | 0 <= j < |solved| :: solved[j].examples == c.Test(solved[j].expr)
  }

  lemma SolvedInRange(c: Constraint, solved: seq<Solved>)
    requires SolvedOk(c, solved)
    ensures InRange(solved, |c.outputs|)
  {
    forall j, k | 0 <= j < |solved| && 0 <= k < |solved[j].examples| ensures solved[j].examples[k] < |c.outputs| {
      assert solved[j].examples[k] in c.Test(solved[j].expr);
    }
  }

  lemma SolvedWellFormed(c: Constraint, solved: seq<Solved>)
    requires SolvedOk(c, solved)
    ensures c.WellFormed()
  {
  }

  lemma OneMoreSolved(c: Constraint, solved: seq<Solved>, e: Expr)
    requires SolvedOk(c, solved) && c.WellFormed()
    ensures SolvedOk(c, solved + [Solved(e, c.Test(e))])
  {
  }

  /** `unsolved` is what no stored solution solves, and each solution adds an example to every earlier one. */
  ghost predicate CoverageOk(n: nat, unsolved: seq<nat>, solved: seq<Solved>) {
    && Distinct(unsolved)
    && (forall i: nat :: i in unsolved <==> i < n && forall j | 0 <= j < |solved| :: i !in solved[j].examples)
    && (forall j, k | 0 <= j < k < |solved| :: !Contained(solved[k].examples, solved[j].examples))
  }

  /** The test for a duplicate: nothing of `a` is outside `b`. */
  predicate Contained(a: seq<nat>, b: seq<nat>) { Without(a, b) == [] }

  predicate Repeats(solved: seq<Solved>, examples: seq<nat>) {
    exists j :: 0 <= j < |solved| && Contained(examples, solved[j].examples)
  }

  lemma CoverageAfterAdding(n: nat, unsolved: seq<nat>, solved: seq<Solved>, s: Solved)
    requires CoverageOk(n, unsolved, solved) && !Repeats(solved, s.examples)
    ensures CoverageOk(n, Without(unsolved, s.examples), solved + [s])
  {
    hide Without, Contained, Distinct;
    WithoutIsDistinct(unsolved, s.examples);
    var rest, all := Without(unsolved, s.examples), solved + [s];
    forall i: nat ensures i in rest <==> i < n && forall j | 0 <= j < |all| :: i !in all[j].examples {
      assert all[|solved|] == s;
      assert forall j | 0 <= j < |solved| :: all[j] == solved[j];
    }
  }

  /** Without the test for duplicates, as in a search for conditions, no stored expression solves every example. */
  ghost predicate NoneSolvesAll(n: nat, solved: seq<Solved>) { forall j | 0 <= j < |solved| :: |solved[j].examples| < n }

  /** Each stored solution is right on the additional examples. */
  ghost predicate AdditionalOk(additional: Constraint, solved: seq<Solved>) {
    additional.WellFormed() && forall j | 0 <= j < |solved| :: RightOn(additional, solved[j].expr)
  }

  lemma {:induction false} NothingLeft(a: seq<nat>, b: seq<nat>)
    requires forall i :: i in a ==> i in b
    ensures Without(a, b) == []
  {
    if a != [] {
      assert a[0] in a;
      NothingLeft(a[1..], b);
    }
  }

  lemma AdditionalWellFormed(additional: Constraint, solved: seq<Solved>)
    requires AdditionalOk(additional, solved)
    ensures additional.WellFormed()
  {
  }

  lemma OneMoreRight(additional: Constraint, solved: seq<Solved>, s: Solved)
    requires AdditionalOk(additional, solved) && RightOn(additional, s.expr)
    ensures AdditionalOk(additional, solved + [s])
  {
    hide RightOn;
  }

  /** A candidate for all that is unsolved is large enough and no repetition. */
  lemma CompletingIsNew(n: nat, unsolved: seq<nat>, solved: seq<Solved>, examples: seq<nat>)
    requires CoverageOk(n, unsolved, solved) && unsolved != [] && forall i :: i in unsolved ==> i in examples
    ensures |examples| >= |unsolved| && Without(unsolved, examples) == []
    ensures !Repeats(solved, examples)
  {
    hide Distinct, Contained, Without;
    NoLonger(unsolved, examples);
    NothingLeft(unsolved, examples);
    NewIsNoRepetition(n, unsolved, solved, examples, unsolved[0]);
  }

  lemma NewIsNoRepetition(n: nat, unsolved: seq<nat>, solved: seq<Solved>, examples: seq<nat>, i: nat)
    requires CoverageOk(n, unsolved, solved) && i in unsolved && i in examples
    ensures !Repeats(solved, examples)
  {
    hide Distinct;
    forall j | 0 <= j < |solved| ensures !Contained(examples, solved[j].examples) {
      assert i in Without(examples, solved[j].examples);
    }
  }

  /** The published conditions are the first partial solutions. */
  ghost predicate PublishedOk(n: nat, solved: seq<Solved>, entries: seq<Candidate>) {
    |entries| <= |solved| && PacksAll(solved[..|entries|], entries, n)
  }

  /** The lesson for the tree learner: packed partial solutions as options, published conditions to split on. */
  function LessonFor(c: Constraint, options: seq<Candidate>, conditions: seq<Candidate>): Lesson {
    Lesson(c.inputs, c.outputs, options, conditions)
  }

  lemma OptionsAreMarked(c: Constraint, solved: seq<Solved>, options: seq<Candidate>, conditions: seq<Candidate>)
    requires SolvedOk(c, solved) && PacksAll(solved, options, |c.outputs|)
    ensures forall j | 0 <= j < |options| :: LessonFor(c, options, conditions).MarksOutput(options[j])
  {
    hide Member;
    forall j | 0 <= j < |options| ensures LessonFor(c, options, conditions).MarksOutput(options[j]) {
      assert Packs(solved[j], options[j], |c.outputs|);
    }
  }

  /** `set_output(0)`. */
  function Zeroed(c: Constraint): Constraint { Constraint(c.inputs, seq(|c.outputs|, _ => 0)) }

  /** Conditions found against the all-zero output are exactly what splits need. */
  lemma ConditionsAreMarked(c: Constraint, solved: seq<Solved>, options: seq<Candidate>, conditions: seq<Candidate>)
    requires c.WellFormed() && SolvedOk(Zeroed(c), solved) && PacksAll(solved, conditions, |c.outputs|)
    ensures forall j | 0 <= j < |conditions| :: LessonFor(c, options, conditions).MarksZero(conditions[j])
  {
    hide Member;
    forall j | 0 <= j < |conditions| ensures LessonFor(c, options, conditions).MarksZero(conditions[j]) {
      assert Packs(solved[j], conditions[j], |c.outputs|);
    }
  }

  /** The conditions are partial solutions for the same examples with all outputs zero. */
  ghost predicate ConditionsOk(c: Constraint, conditions: seq<Candidate>) {
    c.WellFormed() && exists solved :: SolvedOk(Zeroed(c), solved) && PacksAll(solved, conditions, |c.outputs|)
  }

  lemma LessonIsWellFormed(c: Constraint, solved: seq<Solved>, options: seq<Candidate>, conditions: seq<Candidate>)
    requires SolvedOk(c, solved) && PacksAll(solved, options, |c.outputs|) && ConditionsOk(c, conditions)
    ensures LessonFor(c, options, conditions).WellFormed()
  {
    hide SolvedOk, PacksAll;
    SolvedWellFormed(c, solved);
    OptionsAreMarked(c, solved, options, conditions);
    var zeros :| SolvedOk(Zeroed(c), zeros) && PacksAll(zeros, conditions, |c.outputs|);
    ConditionsAreMarked(c, zeros, options, conditions);
  }

  /** The choices of the tree learner, made for given options and conditions. */
  function LowFor(low: (seq<Candidate>, Bits) -> bool, options: seq<Candidate>): Bits -> bool { b => low(options, b) }

  function BestFor(best: (seq<Candidate>, Bits) -> nat, conditions: seq<Candidate>): Bits -> nat { b => best(conditions, b) }

  /** What the tree learner makes of partial solutions and conditions. */
  ghost function Outcome(c: Constraint, solved: seq<Solved>, conditions: seq<Candidate>, limit: nat,
                         low: (seq<Candidate>, Bits) -> bool, best: (seq<Candidate>, Bits) -> nat): (Arena, bool)
    requires InRange(solved, |c.outputs|) && forall b :: best(conditions, b) < |conditions|
  {
    var options := Packing(solved, |c.outputs|);
    LearnedTree(LessonFor(c, options, conditions), limit, LowFor(low, options), BestFor(best, conditions))
  }

  lemma PublishedBefore(n: nat, solved: seq<Solved>, entries: seq<Candidate>, s: Solved)
    requires PacksAll(solved, entries, n)
    ensures PublishedOk(n, solved + [s], entries)
  {
    assert (solved + [s])[..|entries|] == solved;
  }

  /** No stored solution and no condition divides by zero on an example. */
  ghost predicate NoDivisionError(c: Constraint, solved: seq<Solved>, conditions: seq<Candidate>) {
    && (forall j, i | 0 <= j < |solved| && 0 <= i < |c.inputs| :: Eval(solved[j].expr, c.inputs[i]).Some?)
    && (forall j, i | 0 <= j < |conditions| && 0 <= i < |c.inputs| :: Eval(conditions[j].expr, c.inputs[i]).Some?)
  }

  lemma LessonIsDivisionFree(c: Constraint, solved: seq<Solved>, l: Lesson)
    requires PacksAll(solved, l.options, |c.outputs|) && NoDivisionError(c, solved, l.conditions) && l.inputs == c.inputs
    ensures l.DivisionFree()
  {
    hide Eval;
    forall j, i | 0 <= j < |l.options| && 0 <= i < |l.inputs| ensures Eval(l.options[j].expr, l.inputs[i]).Some? {
      assert Packs(solved[j], l.options[j], |c.outputs|);
    }
  }

  /** `Solutions`, with the entropy choices of the tree learner as oracles. */
  class Solutions {
    const cstr: Constraint
    const additional: Constraint
    const checkDups: bool
    const low: (seq<Candidate>, Bits) -> bool
    const best: (seq<Candidate>, Bits) -> nat
    var coverLimit: nat
    var unsolved: seq<nat>
    var solved: seq<Solved>
    /** Conditions and size limit of `check_tree_learning`, if set. */
    var treeConds: CondBuffer?
    var treeLimit: nat
    /** Where a search for conditions publishes what it finds, if set. */
    var condBuffer: CondBuffer?

    ghost predicate Valid()
      reads this, condBuffer, treeConds
    {
      && SolvedOk(cstr, solved) && AdditionalOk(additional, solved)
      && (if checkDups then CoverageOk(|cstr.outputs|, unsolved, solved) else NoneSolvesAll(|cstr.outputs|, solved))
      && (condBuffer != null ==> PublishedOk(|cstr.outputs|, solved, condBuffer.entries) && condBuffer != treeConds)
      && (treeConds != null ==> ConditionsOk(cstr, treeConds.entries))
      && (forall cs, b | |cs| > 0 :: best(cs, b) < |cs|)
    }

    constructor (cstr: Constraint, additional: Constraint, checkDups: bool,
                 low: (seq<Candidate>, Bits) -> bool, best: (seq<Candidate>, Bits) -> nat)
      requires cstr.WellFormed() && additional.WellFormed() && forall cs, b | |cs| > 0 :: best(cs, b) < |cs|
      ensures Valid() && solved == [] && unsolved == Indices(|cstr.outputs|) && coverLimit == 1
      ensures this.cstr == cstr && this.additional == additional && this.checkDups == checkDups
      ensures treeConds == null && condBuffer == null
    {
      this.cstr, this.additional, this.checkDups, this.low, this.best := cstr, additional, checkDups, low, best;
      coverLimit, unsolved, solved := 1, Indices(|cstr.outputs|), [];
      treeConds, treeLimit, condBuffer := null, 0, null;
      IndicesAreDistinct(|cstr.outputs|);
    }

    /** The candidate solves too few examples, or is wrong on an additional one. */
    predicate Rejects(e: Expr, examples: seq<nat>)
      requires additional.WellFormed()
      reads this
    {
      || (|examples| < coverLimit && |examples| < |unsolved|)
      || (|additional.outputs| > 0 && |additional.Test(e)| < |additional.outputs|)
    }

    /** The candidate brings nothing new, or, without duplicate checking, solves everything. */
    predicate Redundant(examples: seq<nat>)
      reads this
    {
      if checkDups then Repeats(solved, examples) else |examples| == |cstr.outputs|
    }

    /** What the tests for size and for the additional examples let pass. */
    ghost predicate Passes(e: Expr, examples: seq<nat>)
      requires additional.WellFormed()
      reads this
    {
      RightOn(additional, e) && (|examples| >= coverLimit || |examples| >= |unsolved|)
    }

    /** The candidate is right on the additional examples and solves all that is unsolved. */
    ghost predicate Completes(e: Expr)
      requires cstr.WellFormed() && additional.WellFormed()
      reads this
    {
      RightOn(additional, e) && unsolved != [] && forall i :: i in unsolved ==> i in cstr.Test(e)
    }

    /** The outcome of the tree learner on the current solutions and conditions. */
    ghost function Learning(): (Arena, bool)
      requires Valid() && treeConds != null && treeConds.entries != []
      reads this, condBuffer, treeConds
    {
      SolvedInRange(cstr, solved);
      Outcome(cstr, solved, treeConds.entries, treeLimit, low, best)
    }

    /** The partial solutions suffice: no tree is wanted, or every example is solved and the learner finishes one. */
    ghost predicate Suffices()
      requires Valid()
      reads this, condBuffer, treeConds
    {
      treeConds != null ==> unsolved == [] && treeConds.entries != [] && Learning().1
    }

    /** The tree learner is to use the conditions that another store publishes, found against the all-zero output. */
    method UseConditions(conds: Solutions, limit: nat)
      requires Valid() && conds.Valid() && conds.cstr == Zeroed(cstr) && cstr.WellFormed()
      requires conds.condBuffer != null && conds.condBuffer != condBuffer
      modifies this`treeConds, this`treeLimit
      ensures Valid() && treeConds == conds.condBuffer && treeLimit == limit
    {
      hide SolvedOk, PacksAll, CoverageOk;
      PublishedAreConditions(cstr, conds.solved, conds.condBuffer.entries);
      treeConds, treeLimit := conds.condBuffer, limit;
    }

    lemma CompletingIsKept(e: Expr)
      requires Valid() && checkDups && cstr.WellFormed() && Completes(e)
      ensures Passes(e, cstr.Test(e)) && !Redundant(cstr.Test(e)) && Without(unsolved, cstr.Test(e)) == []
    {
      hide Without, CoverageOk, RightOn;
      CompletingIsNew(|cstr.outputs|, unsolved, solved, cstr.Test(e));
    }

    lemma PassesAdditional(e: Expr, examples: seq<nat>)
      requires AdditionalOk(additional, solved) && Passes(e, examples)
      ensures AdditionalOk(additional, solved + [Solved(e, examples)])
    {
      OneMoreRight(additional, solved, Solved(e, examples));
    }

    lemma RejectsOthers(e: Expr, examples: seq<nat>)
      requires additional.WellFormed()
      ensures Rejects(e, examples) <==> !Passes(e, examples)
    {
    }

    /** `add_solution`. */
    method AddSolution(e: Expr) returns (done: bool)
      requires Valid()
      modifies this`unsolved, this`solved, condBuffer
      ensures Valid()
      ensures var examples := cstr.Test(e);
              var kept := old(Passes(e, examples) && !Redundant(examples));
              && solved == (if kept then old(solved) + [Solved(e, examples)] else old(solved))
              && unsolved == (if kept && checkDups then Without(old(unsolved), examples) else old(unsolved))
              && (kept && condBuffer != null ==> PacksAll(old(solved), condBuffer.entries, |cstr.outputs|))
              && (done <==> kept && (|examples| == |cstr.outputs| || Suffices()))
      ensures !checkDups && old(Passes(e, cstr.Test(e))) && |cstr.Test(e)| < |cstr.outputs| ==>
                solved == old(solved) + [Solved(e, cstr.Test(e))]
      ensures checkDups && old(Completes(e)) ==> solved == old(solved) + [Solved(e, cstr.Test(e))] && unsolved == []
    {
      hide Without, Contained, PacksAll, ConditionsOk, CoverageOk, SolvedOk, PublishedOk, RightOn, AdditionalOk, Completes, Passes;
      SolvedWellFormed(cstr, solved);
      AdditionalWellFormed(additional, solved);
      var examples := cstr.Test(e);
      RejectsOthers(e, examples);
      if checkDups && Completes(e) { CompletingIsKept(e); }
      OneMoreSolved(cstr, solved, e);
      if Rejects(e, examples) { return false; }
      PassesAdditional(e, examples);
      if checkDups {
        for j := 0 to |solved|
          invariant forall k | 0 <= k < j :: !Contained(examples, solved[k].examples)
        {
          if Contained(examples, solved[j].examples) { return false; }
        }
        CoverageAfterAdding(|cstr.outputs|, unsolved, solved, Solved(e, examples));
        unsolved := Without(unsolved, examples);
      } else if |examples| == |cstr.outputs| {
        return false;
      }
      if condBuffer != null {
        Publish(condBuffer);
      }
      if condBuffer != null {
        PublishedBefore(|cstr.outputs|, solved, condBuffer.entries, Solved(e, examples));
      }
      solved := solved + [Solved(e, examples)];
      if |examples| == |cstr.outputs| { return true; }
      done := TreeLearning();
    }

    /** Appends the partial solutions that the condition list does not have yet. */
    method Publish(buffer: CondBuffer)
      requires SolvedOk(cstr, solved) && PublishedOk(|cstr.outputs|, solved, buffer.entries)
      modifies buffer
      ensures PacksAll(solved, buffer.entries, |cstr.outputs|)
    {
      hide Member, Packing, SolvedOk;
      SolvedInRange(cstr, solved);
      var n := |buffer.entries|;
      var a := ToBits(solved[n..], |cstr.outputs|);
      buffer.entries := buffer.entries + a;
    }

    /** One run of the tree learner on the current solutions and conditions. */
    method Learn(conds: CondBuffer) returns (tl: TreeLearning)
      requires Valid() && conds == treeConds && conds.entries != []
      ensures tl.Valid() && (tl.arena, tl.solved) == Learning() && (tl.solved <==> NoOpenLeaf(tl.arena))
      ensures PacksAll(solved, tl.lesson.options, |cstr.outputs|)
      ensures tl.lesson == LessonFor(cstr, tl.lesson.options, conds.entries) && tl.lesson.WellFormed()
      ensures tl.solved ==> |tl.arena| <= if treeLimit >= 1 then treeLimit else 1
    {
      hide PacksAll, CoverageOk, SolvedOk, ConditionsOk, Packing, Learned;
      SolvedInRange(cstr, solved);
      var options := ToBits(solved, |cstr.outputs|);
      LessonIsWellFormed(cstr, solved, options, conds.entries);
      tl := new TreeLearning(LessonFor(cstr, options, conds.entries), treeLimit, LowFor(low, options), BestFor(best, conds.entries));
      tl.Run();
    }

    /** `tree_learning`: whether the current partial solutions suffice. */
    method TreeLearning() returns (ok: bool)
      requires Valid()
      ensures ok <==> Suffices()
    {
      hide Outcome, NoOpenLeaf;
      if treeConds == null { return true; }
      if |unsolved| > 0 || |treeConds.entries| == 0 { return false; }
      var tl := Learn(treeConds);
      ok := tl.solved;
    }

    /** `get_tree`: the learned if-then-else expression; `None` is the panic on an unfinished tree. */
    method GetTree() returns (r: Option<Expr>)
      requires Valid() && treeConds != null && treeConds.entries != []
      ensures r.Some? <==> Learning().1
      ensures r.Some? && NoDivisionError(cstr, solved, treeConds.entries) ==>
                forall i | 0 <= i < Covered(|cstr.outputs|) :: cstr.Solves(r.value, i)
    {
      hide PacksAll, Outcome, Handles, BoxedOnes;
      var tl := Learn(treeConds);
      r := TreeExpr(tl.lesson, tl.arena, 0);
      if r.Some? {
        TreeExprNeedsNoOpenLeaf(tl.lesson, tl.arena);
        if NoDivisionError(cstr, solved, treeConds.entries) {
          LessonIsDivisionFree(cstr, solved, tl.lesson);
          FinishedTreeIsRight(tl.lesson, tl.arena);
        }
      } else if tl.solved {
        TreeExprDefined(tl.lesson, tl.arena, 0, Examples(BoxedOnes(tl.lesson.Size())));
      }
    }
  }

  /** What a store for the all-zero output has published can serve as conditions. */
  lemma PublishedAreConditions(c: Constraint, solved: seq<Solved>, entries: seq<Candidate>)
    requires c.WellFormed() && SolvedOk(Zeroed(c), solved) && PublishedOk(|c.outputs|, solved, entries)
    ensures ConditionsOk(c, entries)
  {
    hide PacksAll;
    assert SolvedOk(Zeroed(c), solved[..|entries|]);
  }
}
