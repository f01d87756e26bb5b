# Models of the DryadSynth algorithms

DryadSynth synthesizes functions, invariants and bit-vector programs. Its algorithms rest on arguments that
appear nowhere in its code. This project states what they promise and proves it, in Dafny, on models that keep the
branches, orders and corner cases of the original. `dafny verify dfyconfig.toml` checks everything.

Calls into Z3 and the other solvers are parameters with a contract: simplification and quantifier elimination keep
the meaning, a satisfiability check is exact, a fixed-height search returns verified functions only. Java integers in
coefficients and translations are mathematical integers; the 64-bit words of the Rust code wrap.

## The modules

* `BvExpr`, `BvValues`: 64-bit expressions, on one example and on a vector of examples, and what their operators do to
  the numbers that words stand for.
* `Enumeration`: the bottom-up enumerator of bit-vector expressions. A bank keeps one representative for
  every vector of values; the proof is that pruning by values, half enumeration of commutative pairs, skipped zero
  divisors, weights that differ by operator and the reserved entry for the wanted output lose no solution.
* `Deduction`: the deductive combination of partial expressions by `and` and `or`. The value it tracks is not the value
  of the expression it builds, and the proof is that the expression is right nevertheless.
* `BitSets`, `DecisionTrees`, `PartialSolutions`: packed example sets, the decision-tree learner and what feeds it.
* `EquivClasses`: the Java variant, which splits classes of examples by conditions until single expressions cover them.
* `Words`, `BitIters`: the iterators over bits, subsets, splits and fixed-size subsets of a word.
* `Logic`: formulas over integer terms with their meaning, used by the rest.
* `Quantified`, `Regions`, `Conjunctions`, `Acceleration`: acceleration of translation systems; regions from conjunctions
  of atoms. The formulas the solver gives back may hold quantifiers, and with them divisibility.
* `NormalForms`: disjunctive and conjunctive normal forms. `distributeAnd`/`distributeOr` and
  `convertNNFToDNF`/`convertNNFToCNF` are pairs of mirror images; here each pair is one member with the
  connective as a parameter. `Forgotten` tells from the numbers of arguments what a conversion forgets.
* `Pushing`, `SingleInvocation`: single-invocation synthesis. All calls have the same arguments, so one name stands for
  the call. `NegatedBounds` tells which negated comparisons the candidates still serve.
* `PrefixCodes`: grammar terms coded as integer vectors, with the validity predicate, the symbolic reading and the
  concrete reading.
* `Calls`, `HeightSearch`: the height search with its table of tried problems.
* `Decomposition`, `VarsRelation`: divide and conquer for invariants, and the classes of variables it divides by.
  `UnsolvedClasses` tells when it may do without the answer for a class.
* `Rewriting`: the stack-and-cache substitution, against recursive substitution. `InliningAgrees` ties it to the inlining
  in formulas that `Calls` defines.

## What the proofs found

* `ashr` gives 0 for every amount from 64 on. For negative numbers the quotient rounded down, which `bvashr` of SMT-LIB
  stands for, is -1 there; for all other operands the two agree (`BvValues.ArithmeticShiftNumbers`).
* `boxed_ones` zeroes the whole last word when the number of examples is a positive multiple of 128. The learned tree is
  right everywhere for all other numbers (`DecisionTrees.FinishedTreeIsRight`); for these, whatever the examples and the
  conditions, each dropped one can come out wrong although the options solve all
  (`DecisionTrees.DroppedExampleCanBeWrong`).
* `eliminate_negation` keeps one negation of two (`Conjunctions.DoubleNegationIsLost`); a condition keeps its meaning
  exactly with no negation or an odd number of them (`Conjunctions.KeptIsMeaning`).
* `distributeAnd` takes an intermediate `false` for its start value, so what comes before is forgotten. The converted
  formula says that the arguments after the last such reset and those that are no disjunctions hold
  (`Forgotten.ConvertedMeaning`). A conversion is right for all literals in a tree exactly if no argument that is forgotten
  or converted wrongly stands beside kept arguments that can hold, which the numbers of arguments tell
  (`Forgotten.ConversionIsExact`). An empty conjunction yields no result (`NormalForms.NoResult`).
* The candidate scan takes no notice of negations, which the simplifier brings back for strict comparisons. Constraints
  without negated bounds are always served; for all others the neighbours of the candidates decide
  (`SingleInvocation.ServedIsNearby`), and for conjunctions the kinds of their comparisons do, in both directions
  (`NegatedBounds.NegationsAreExact`): strict bounds need a plain bound on the other side, one excluded value plain bounds on both.
* Pushing negations in goes on for ever, or fails, on negated Boolean constants and the like, and on nothing else
  (`Pushing.EndsExactly`).
* `CombIter` yields nothing for subsets of size 0, although there is one; `combs` overflows from 21 on (`BitIters.Combs`).
* A rule that is a mere non-terminal has a "valid" vector too short to be read (`PrefixCodes.UnitIsNoCode`), and no other
  rule has one (`PrefixCodes.UnitsAreExact`). The loop in
  `construct` that looks for a later condition never turns (`EquivClasses.SelectionsDivide`), so it is not modelled.
* `ASTGeneral.substitute` never replaces the root, so on trees the identity function and functions without parameters
  are not inlined; inlining is right exactly for the others (`Rewriting.TreesRewriteRightly`).
* A class of variables without an answer is passed over. The answers for the other classes always combine to an
  invariant exactly if the goal allows whatever it allows on each of these classes alone
  (`UnsolvedClasses.GoalIsExact`), or if every start is one by one of these classes alone
  (`UnsolvedClasses.StartIsExact`); either is one question to the solver. In `UnsolvedClasses.UnsolvedClassLosesGoal` all
  tests pass and the whole has an invariant, but one class can have no answer, and the other's is returned.
* The dispatcher's test of the step for crosses passes only steps that are always or never possible
  (`UnsolvedClasses.CrossTestIsConstant`). So a class never lacks an answer there unless the whole does
  (`UnsolvedClasses.CrossClassHasAnswer`); it can only be given up on (`UnsolvedClasses.UnsolvedClassLosesStart`).
* A comparison of numbers leaves an empty class of variables behind (`VarsRelation.ConstantComparisonAddsClass`).

## Model

| member | source | states |
|---|---|---|
| `BvExpr.EvalBvIsLanewise` | dryadsynth-bv/src/enumerate/expr.rs:18-60 | evaluating on a vector succeeds exactly when evaluating on every lane does, and then agrees with it on every lane |
| `BvExpr.BinBvCommutes` | dryadsynth-bv/src/enumerate/op.rs:11-21 | the operators that are enumerated in one order only do commute |
| `BvValues.NumOrder` | dryadsynth-bv/src/enumerate/op.rs:8-34 | unsigned comparison of words is comparison of their numbers, and no two words have the same one |
| `BvValues.NumFromNum` | dryadsynth-bv/src/enumerate/op.rs:25-27 | every number below 2^64 is that of a word |
| `BvValues.ArithmeticNumbers` | dryadsynth-bv/src/enumerate/op.rs:11-15 | sum, difference and product modulo 2^64, the operands in their order |
| `BvValues.SubtractingUndoesAdding` | dryadsynth-bv/src/enumerate/op.rs:11-15 | subtracting what was added gives the first operand back, and the other way round |
| `BvValues.UnaryNumbers` | dryadsynth-bv/src/enumerate/op.rs:7-9 | complement and negation as numbers |
| `BvValues.UnaryUndone` | dryadsynth-bv/src/enumerate/op.rs:7-11 | a word and its negation add up to 0; the complement of the complement is the word |
| `BvValues.DivisionNumbers` | dryadsynth-bv/src/enumerate/op.rs:22-25 | unsigned division fails exactly for a divisor 0, and otherwise gives quotient and remainder below the divisor |
| `BvValues.SignedDivisionNumbers` | dryadsynth-bv/src/enumerate/op.rs:39-48 | signed division: dividend = quotient * divisor + remainder, the remainder smaller than the divisor and of the sign of the dividend; the one overflow gives the dividend and 0 |
| `BvValues.ShiftNumbers` | dryadsynth-bv/src/enumerate/op.rs:27-38 | for every amount, shifts are the product modulo 2^64 and the quotient with a power of two |
| `BvValues.ArithmeticShiftNumbers` | dryadsynth-bv/src/enumerate/op.rs:31-34 | the arithmetic shift is the quotient rounded down if and only if the amount is below 64 or the number not negative; from 64 on it is 0 |
| `BvValues.BitNumbers` | dryadsynth-bv/src/enumerate/op.rs:16-21 | `and`, `or` and `xor` decide each bit by the operands' bits in this place |
| `Enumeration.Completeness` | dryadsynth-bv/src/enumerate/algo.rs:57-239 | in a bank closed under the rules, every grammar expression has a representative of the same value and no larger weight |
| `Enumeration.PairAccounted` | dryadsynth-bv/src/enumerate/algo.rs:112-130 | half enumeration still accounts for both orders of every pair of operands |
| `Enumeration.PairSizes` | dryadsynth-bv/src/enumerate/algo.rs:112-206 | a pair is as large as its operands and what its operator costs: 4 for signed division and remainders, 2 for subtraction, 1 otherwise |
| `Enumeration.PairOperands` | dryadsynth-bv/src/enumerate/algo.rs:112-206 | and every pair has operands of such sizes |
| `Enumeration.ShiftSizes` | dryadsynth-bv/src/enumerate/algo.rs:104-159 | a shift costs 1 to the right, 2 to the left, 3 if arithmetic, 1 by a fixed amount; its amount costs nothing |
| `Enumeration.ClosedNext` | dryadsynth-bv/src/enumerate/algo.rs:72-238 | one more level keeps the bank closed |
| `Enumeration.ClosedIsExhaustive` | dryadsynth-bv/src/enumerate/algo.rs:57-239 | the callback was told an expression with the output value exactly when the grammar has one of the sizes done; otherwise every grammar value of these sizes is represented |
| `Enumeration.Algo.constructor` | dryadsynth-bv/src/enumerate/algo.rs:51-55 | the start has an empty level 0 and the reserved entry for the output |
| `Enumeration.Algo.Insert` | dryadsynth-bv/src/enumerate/algo.rs:77-88 | a new value is stored and told, the output value is told each time, a known one is dropped; ends at the first refusal |
| `Enumeration.Algo.Op1` | dryadsynth-bv/src/enumerate/algo.rs:97-103 | every operand of the last level is accounted for |
| `Enumeration.Algo.Op1Constant` | dryadsynth-bv/src/enumerate/algo.rs:104-111 | the same for shifts by a fixed amount |
| `Enumeration.Algo.Op2Sym` | dryadsynth-bv/src/enumerate/algo.rs:112-130 | every pair of operands of a commutative operator whose sizes fit is accounted for |
| `Enumeration.Algo.Op2` | dryadsynth-bv/src/enumerate/algo.rs:145-198 | the same for the other operators, divisors without a zero lane only |
| `Enumeration.Algo.ShiftPairs` | dryadsynth-bv/src/enumerate/algo.rs:146-159 | the same for shifts, whose amounts are atoms |
| `Enumeration.Algo.Round` | dryadsynth-bv/src/enumerate/algo.rs:72-238 | a round keeps the invariant and adds a level, or the callback ended the run |
| `Enumeration.Algo.RunUntil` | dryadsynth-bv/src/enumerate/algo.rs:57-239 | after any number of rounds values are distinct, entries are sound, and the search was exhaustive for the sizes done |
| `Deduction.CombineRules.constructor` | dryadsynth-bv/src/deductive/combine.rs:21-23 | the invariant holds at the start |
| `Deduction.CombineRules.CollectExpr` | dryadsynth-bv/src/deductive/combine.rs:25-50 | the assertion on the tracked value holds, and the expression evaluates to the output |
| `Deduction.CombineRules.Test` | dryadsynth-bv/src/deductive/combine.rs:52-83 | keeps the invariant, stores at most 31 rules, answers only with expressions for the output that add at most four operators, and exactly when all undecided bits are right and so few operators suffice |
| `Deduction.CombineRules.Answer` | dryadsynth-bv/src/deductive/combine.rs:73-80 | the answer after the two tests: right for the output, few operators, and given exactly where the undecided bits are right |
| `Deduction.StoresExactly` | dryadsynth-bv/src/deductive/combine.rs:54-71 | a rule is stored exactly if the value covers the output's ones (or zeros), settles more than two bits a lane and has more than a third of the output's zeros (ones) |
| `Deduction.ConjunctionIsFound` | dryadsynth-bv/src/deductive/combine.rs:52-83 | two values whose conjunction is the output: if the first settles enough and has enough zeros, the test of the second answers |
| `Deduction.DisjunctionIsFound` | dryadsynth-bv/src/deductive/combine.rs:52-83 | the dual, for a disjunction |
| `Deduction.CollectedWraps` | dryadsynth-bv/src/deductive/combine.rs:25-50 | the collected expression is the tested one under as many `and` and `or` as are counted |
| `Deduction.TestKeepsInv` | dryadsynth-bv/src/deductive/combine.rs:54-71 | storing a rule keeps every stored rule consistent with the mask |
| `Deduction.CollectedIsOutput` | dryadsynth-bv/src/deductive/combine.rs:25-50 | a real value that is below the tracked one where the output is 0 and above it where it is 1 ends as the output |
| `Deduction.UndoRule` | dryadsynth-bv/src/deductive/combine.rs:29-45 | applying a rule, or skipping it, carries agreement from the mask after it to the mask before it |
| `Deduction.CountDivides` | dryadsynth-bv/src/deductive/combine.rs:54-70 | the ones of the mask are divided between the two counts, so neither subtraction of `test` underflows |
| `Deduction.MaskBudget` | dryadsynth-bv/src/deductive/combine.rs:57-71 | each stored rule used up more than two mask bits a lane |
| `Deduction.AtMost31Rules` | dryadsynth-bv/src/deductive/combine.rs:57-71 | so no more than 31 rules are ever stored |
| `BitSets.SubsetIsInclusion` | dryadsynth-bv/src/tree_learning/bits.rs:44-46 | the word-wise test is inclusion of the sets |
| `BitSets.BoxedOnesMembers` | dryadsynth-bv/src/tree_learning/bits.rs:49-53 | which examples `boxed_ones` contains |
| `BitSets.BoxedOnesComplete` | dryadsynth-bv/src/tree_learning/bits.rs:49-53 | it contains all examples if and only if their number is 0 or no multiple of 128 |
| `BitSets.FromBitIter` | dryadsynth-bv/src/tree_learning/bits.rs:18-24 | the packed set has exactly the listed members |
| `BitSets.ConjunctionAssign` | dryadsynth-bv/src/tree_learning/bits.rs:33-35 | the words become those of the intersection |
| `BitSets.ConjunctionMembers` | dryadsynth-bv/src/tree_learning/bits.rs:33-35 | its members are the common ones |
| `BitSets.UnionAssign` | dryadsynth-bv/src/tree_learning/bits.rs:36-38 | the words become those of the union |
| `BitSets.UnionMembers` | dryadsynth-bv/src/tree_learning/bits.rs:36-38 | its members are those of either set |
| `BitSets.DifferenceAssign` | dryadsynth-bv/src/tree_learning/bits.rs:40-42 | the words become those of the difference |
| `BitSets.DifferenceMembers` | dryadsynth-bv/src/tree_learning/bits.rs:40-42 | its members are those of the first set that are not in the second |
| `DecisionTrees.TreeLearning.Select` | dryadsynth-bv/src/tree_learning/mod.rs:117-133 | an accepted option contains the leaf's examples; otherwise both parts of the division are given |
| `DecisionTrees.TreeLearning.AcceptLeaf` | dryadsynth-bv/src/tree_learning/mod.rs:140-142 | overwriting a leaf in place keeps the tree invariant |
| `DecisionTrees.TreeLearning.DivideLeaf` | dryadsynth-bv/src/tree_learning/mod.rs:143-150 | so does dividing it, and the size grows by two |
| `DecisionTrees.TreeLearning.Run` | dryadsynth-bv/src/tree_learning/mod.rs:135-155 | ends with the arena of the recursive learner; the stack holds exactly the open leaves; a solved tree has none and is within the limit |
| `DecisionTrees.AcceptKeepsTree` | dryadsynth-bv/src/tree_learning/mod.rs:140-142 | leaf sets stay the path-restricted example sets, every node stays in the tree once |
| `DecisionTrees.DivideKeepsTree` | dryadsynth-bv/src/tree_learning/mod.rs:143-150 | the same for a division |
| `DecisionTrees.TreeExprIsRight` | dryadsynth-bv/src/tree_learning/mod.rs:195-206 | the nested conditional is right on every example a subtree is responsible for, with the branches in the order `ite` takes them |
| `DecisionTrees.CoverIsExact` | dryadsynth-bv/src/tree_learning/mod.rs:180-194 | the computed cover is exactly the set of examples on which the expression is right |
| `DecisionTrees.TreeExprNeedsNoOpenLeaf` | dryadsynth-bv/src/tree_learning/mod.rs:195-209 | an expression is returned only for trees without an open leaf |
| `DecisionTrees.FinishedTreeIsRight` | dryadsynth-bv/src/tree_learning/mod.rs:135-209 | a solved tree is right on every example unless their number is a positive multiple of 128, and then on all but the last word |
| `DecisionTrees.DroppedExampleCanBeWrong` | dryadsynth-bv/src/tree_learning/bits.rs:49-53 | for that number, any examples and any conditions, outputs that two options solve together are learned as the first option alone, which is wrong on a dropped example |
| `DecisionTrees.OptionAtRoot` | dryadsynth-bv/src/tree_learning/mod.rs:117-155 | an option that covers the root, where the entropy is small, is the whole tree |
| `PartialSolutions.Solutions.AddSolution` | dryadsynth-bv/src/solutions.rs:36-71 | which candidates are kept, what remains unsolved, what is published; every kept one is right on the additional examples; with duplicate checking, one that is right there and solves all that is unsolved is kept and leaves nothing; without it, none that solves everything is ever kept; true exactly for a kept candidate that solves everything or after which the partial solutions suffice |
| `PartialSolutions.CompletingIsNew` | dryadsynth-bv/src/solutions.rs:41-52 | a candidate for all that is unsolved passes the test of its size and is no repetition |
| `PartialSolutions.ToBits` | dryadsynth-bv/src/solutions.rs:124-127 | each stored solution is packed with its examples |
| `PartialSolutions.OptionsAreMarked` | dryadsynth-bv/src/solutions.rs:124-127 | a packed set marks exactly the examples on which the solution is right |
| `PartialSolutions.CoverageAfterAdding` | dryadsynth-bv/src/solutions.rs:47-52 | `unsolved` stays the examples no stored solution solves, and no stored set is contained in an earlier one |
| `PartialSolutions.Solutions.GetTree` | dryadsynth-bv/src/solutions.rs:146-152 | an expression is returned exactly where learning finishes; it is right on every example outside the dropped word, where no division by zero occurs |
| `PartialSolutions.Solutions.TreeLearning` | dryadsynth-bv/src/solutions.rs:129-145 | true exactly if no tree is wanted, or nothing is unsolved, there are conditions, and learning finishes |
| `PartialSolutions.Solutions.UseConditions` | dryadsynth-bv/src/search/search.rs:60-98 | the conditions another store publishes for the same examples with output zero can be used for splitting |
| `PartialSolutions.ConditionsAreMarked` | dryadsynth-bv/src/search/search.rs:60-63 | such conditions mark exactly the examples on which they evaluate to zero |
| `PartialSolutions.PublishedAreConditions` | dryadsynth-bv/src/solutions.rs:56-62 | whatever such a store has published so far consists of such conditions |
| `EquivClasses.PBEEnumSize.constructor` | dryadsynth/src/BVEnum/PBEEnumSize.java:354-358 | the start, one class of all selected examples, satisfies the invariant |
| `EquivClasses.PBEEnumSize.UpdateECs` | dryadsynth/src/BVEnum/PBEEnumSize.java:680-741 | keeps the invariant; a condition divides if and only if it was computed, is true on some of the uncovered examples and not on all, and these are no uncovered class; then it is stored twice, the classes are the sides of the old ones, those with an entry are covered, and no uncovered class is on both sides; otherwise nothing changes |
| `EquivClasses.SidesAreOneSided` | dryadsynth/src/BVEnum/PBEEnumSize.java:700-738 | the sides of a partition are a partition of the same examples, and each is on one side of the condition |
| `EquivClasses.PBEEnumSize.UpdateCoveredECs` | dryadsynth/src/BVEnum/PBEEnumSize.java:743-773 | keeps the invariant, and no class inside an entry stays uncovered |
| `EquivClasses.PBEEnumSize.VerifyOutput` | dryadsynth/src/BVEnum/PBEEnumSize.java:775-817 | true exactly for an expression computed right everywhere; the exact new entries, where none was lost; an expression that comes again changes none |
| `EquivClasses.PBEEnumSize.Compute` | dryadsynth/src/BVEnum/PBEEnumSize.java:651-678 | what is computed of an expression is what verifying it needs, also when it comes again |
| `EquivClasses.VerifiedIsHeld` | dryadsynth/src/BVEnum/PBEEnumSize.java:794-811 | what an expression that comes again is right on lies in an entry, so its entry is never overwritten |
| `EquivClasses.RememberedLater` | dryadsynth/src/BVEnum/PBEEnumSize.java:668-675 | later on less is computed, so this stays so |
| `EquivClasses.PBEEnumSize.PreprocessResult` | dryadsynth/src/BVEnum/PBEEnumSize.java:883-893 | the list of each covered class gets an expression right on the class |
| `EquivClasses.PBEEnumSize.GenerateResult` | dryadsynth/src/BVEnum/PBEEnumSize.java:970-987 | the definition is right on every selected example |
| `EquivClasses.PBEEnumSize.Construct` | dryadsynth/src/BVEnum/PBEEnumSize.java:989-1029 | null exactly for no class; else right on every member of the given classes |
| `EquivClasses.PBEEnumSize.Result` | dryadsynth/src/BVEnum/PBEEnumSize.java:176-180 | the end of a try without a single expression is right on every selected example |
| `EquivClasses.ClassesPartition` | dryadsynth/src/BVEnum/PBEEnumSize.java:680-773 | uncovered and covered classes are pairwise disjoint |
| `EquivClasses.RoundOk` | dryadsynth/src/BVEnum/PBEEnumSize.java:715-738 | dividing a class keeps the lists prefix-free, descriptive, and the classes a partition |
| `EquivClasses.SelectionsDivide` | dryadsynth/src/BVEnum/PBEEnumSize.java:995-1007 | of two or more lists that begin alike each goes on, so each is in exactly one selection |
| `BitIters.OneIter.Next` | dryadsynth-bv/src/enumerate/utils.rs:26-38 | yields the lowest one and removes it |
| `BitIters.SubsetIter.Next` | dryadsynth-bv/src/enumerate/utils.rs:84-96 | yields the next subset of the mask |
| `BitIters.TSubsetIter.Next` | dryadsynth-bv/src/enumerate/utils.rs:66-83 | the same, except that the whole mask is stored and not yielded |
| `BitIters.SubsetsCount` | dryadsynth-bv/src/enumerate/utils.rs:84-96 | after the subset at position k comes the one at k + 1, and none after the last |
| `BitIters.SubsetsAreAll` | dryadsynth-bv/src/enumerate/utils.rs:58-96 | every non-empty subset comes exactly once, in increasing order, at the position its own bits spell |
| `BitIters.CollectSubsets` | dryadsynth-bv/src/enumerate/utils.rs:151-153 | the loop of the iterator yields that list, of length 2^k - 1 |
| `BitIters.CollectProperSubsets` | dryadsynth-bv/src/enumerate/utils.rs:148-150 | the list without its last, of length 2^k - 2 |
| `BitIters.GatherSpread` | dryadsynth-bv/src/enumerate/utils.rs:161-176 | `pos_of_subset` after `subset_of_pos` is the number |
| `BitIters.SpreadGather` | dryadsynth-bv/src/enumerate/utils.rs:161-176 | `subset_of_pos` after `pos_of_subset` is the subset |
| `BitIters.PosOfSubset` | dryadsynth-bv/src/enumerate/utils.rs:161-169 | the loop over the ones computes the position |
| `BitIters.SubsetOfPos` | dryadsynth-bv/src/enumerate/utils.rs:170-176 | the zipped loop computes the subset |
| `BitIters.SplitsAreAll` | dryadsynth-bv/src/enumerate/utils.rs:154-160 | every pair with union m and non-empty first part comes exactly once, 3^k - 1 pairs in all |
| `BitIters.CollectSplits` | dryadsynth-bv/src/enumerate/utils.rs:154-160 | the nested iterators yield that list |
| `BitIters.CombIter.constructor` | dryadsynth-bv/src/enumerate/utils.rs:120-123 | the start is the largest word with p of n bits |
| `BitIters.CombIter.Next` | dryadsynth-bv/src/enumerate/utils.rs:103-116 | yields the stored word and steps to the following one |
| `BitIters.FollowingIsNext` | dryadsynth-bv/src/enumerate/utils.rs:103-116 | the step keeps the number of ones, decreases, and skips no word with as many |
| `BitIters.CountIsChoose` | dryadsynth-bv/src/enumerate/utils.rs:187-189 | there are C(n, p) words of n bits with p ones |
| `BitIters.CollectCombs` | dryadsynth-bv/src/enumerate/utils.rs:98-124 | all words with p of n bits, strictly decreasing, C(n, p) of them for p > 0; nothing for p = 0 |
| `BitIters.CombsIsChoose` | dryadsynth-bv/src/enumerate/utils.rs:180-189 | up to 20 the quotient of the factorials is the number of combinations |
| `BitIters.FactorialsFit` | dryadsynth-bv/src/enumerate/utils.rs:180-186 | a factorial fits a word if and only if it is that of 20 or less |
| `BitIters.Combs` | dryadsynth-bv/src/enumerate/utils.rs:187-189 | `combs` gives that number exactly up to 20, and overflows beyond |
| `BitIters.FromBits` | dryadsynth-bv/src/enumerate/utils.rs:132-138 | the loop gives the number the bits spell |
| `BitIters.FromBitsOf` | dryadsynth-bv/src/enumerate/utils.rs:11-23 | collecting the bits and reading them back is the identity |
| `Regions.Region.AddCond` | dryadsynth/src/Invar/Region.java:88-104 | appends a condition of the right length, ignores others |
| `Regions.Region.KExtend` | dryadsynth/src/Invar/Region.java:63-77 | marks exactly the conditions that grow along the translation |
| `Regions.Region.ToExpr` | dryadsynth/src/Invar/Region.java:41-47 | the formula holds exactly in the region |
| `Regions.Region.ToKExpr` | dryadsynth/src/Invar/Region.java:49-61 | growing conditions are asked k steps back, the others at the state |
| `Regions.KRegionIsPath` | dryadsynth/src/Invar/Region.java:29-77 | that is the same as the whole path of k steps lying in the region |
| `Regions.SomeStepCount` | dryadsynth/src/Invar/Transf.java:126-134 | quantifying the number of steps means that some number of steps will do |
| `Quantified.ReplaceMeaning` | dryadsynth/src/Invar/Transf.java:113-120 | substituting is evaluating under the updated interpretation, below quantifiers too |
| `Acceleration.Transf.AddMap` | dryadsynth/src/Invar/Transf.java:223-236 | adds a region with its translation, ignores wrong lengths |
| `Acceleration.Transf.KExtend` | dryadsynth/src/Invar/Transf.java:68-85 | prepares every region; `rc` describes the states outside all regions, null only if there are none |
| `Acceleration.Transf.LocalExpand` | dryadsynth/src/Invar/Transf.java:108-139 | the input and exactly what it reaches along paths inside one region |
| `Acceleration.Transf.SwitchExpand` | dryadsynth/src/Invar/Transf.java:141-192 | the input and exactly one step out of a region into another or into none |
| `Acceleration.Transf.IsExpanded` | dryadsynth/src/Invar/Transf.java:194-199 | whether the two formulas differ in some state |
| `Acceleration.Transf.Run` | dryadsynth/src/Invar/Transf.java:201-221 | contains the start and returns reachable states only; is what so many rounds of both expansions give, where each round before the last added something; ends after nine, and earlier exactly where a round adds nothing; then it is the reachable set and closed under steps; where eight stretches reach everything it does so |
| `Acceleration.RoundsCoverStretches` | dryadsynth/src/Invar/Transf.java:207-220 | k rounds give every state reached by at most k stretches, each in one region |
| `Acceleration.RoundsAreReached` | dryadsynth/src/Invar/Transf.java:207-220 | and reachable states only |
| `Acceleration.StepsAreStretches` | dryadsynth/src/Invar/Transf.java:108-192 | a path of k steps consists of at most k stretches |
| `Acceleration.FewStretchesAreDone` | dryadsynth/src/Invar/Transf.java:213-219 | if k stretches reach everything, round k + 1 adds nothing |
| `Acceleration.ExpansionsReached` | dryadsynth/src/Invar/Transf.java:209-211 | both expansions of reachable states are reachable |
| `Acceleration.NoChangeIsClosed` | dryadsynth/src/Invar/Transf.java:213-215 | where both add nothing, the set is closed under steps |
| `Acceleration.ClosedContainsReached` | dryadsynth/src/Invar/Transf.java:213-215 | a closed set with the start in it contains everything reachable, so the result is the least one |
| `Acceleration.FaithfulSolversExist` | dryadsynth/src/Invar/Transf.java:91-106 | what is asked of the solver can be met for any number of variables |
| `Conjunctions.CoefficientsAreExact` | dryadsynth/src/Invar/Region.java:191-217 | evaluating at unit vectors and at zero recovers the linear form of a term |
| `Conjunctions.EliminateNegationKeeps` | dryadsynth/src/Invar/Region.java:136-173 | what the two lists say of a condition |
| `Conjunctions.KeptIsMeaning` | dryadsynth/src/Invar/Region.java:136-173 | this is the condition itself if and only if it has no negation or an odd number (a constant: if it is true) |
| `Conjunctions.DoubleNegationIsLost` | dryadsynth/src/Invar/Region.java:146-148 | twice negated comes out negated |
| `Conjunctions.ConstructNeqsCond` | dryadsynth/src/Invar/Region.java:175-189 | 2^m lists; a state where all pairs differ is in exactly one, any other in none |
| `Conjunctions.NormalizeIsExact` | dryadsynth/src/Invar/Region.java:230-280 | the normalised inequality means the original, strict ones over the integers included |
| `Conjunctions.Flatten` | dryadsynth/src/Invar/Region.java:294-315 | the queue separates atoms with and without primed variables, in order, and fails exactly on a conjunct that is no atom |
| `Conjunctions.LeavesMeaning` | dryadsynth/src/Invar/Region.java:294-315 | these conjuncts together are the conjunction |
| `Conjunctions.MakeRegions` | dryadsynth/src/Invar/Region.java:331-366 | the union of the regions is what the two lists say; they are pairwise disjoint |
| `Conjunctions.FromConj` | dryadsynth/src/Invar/Region.java:287-369 | 2^m pairwise disjoint regions whose union is what is kept of the unprimed atoms; the primed atoms aside; none for a conjunct that is no atom |
| `Conjunctions.PlainConjunction` | dryadsynth/src/Invar/Region.java:287-369 | without double negations and false constants that is the conjunction itself |
| `Conjunctions.ConditionsAreUnprimed` | dryadsynth/src/Invar/Region.java:294-315 | every conjunct that is a linear atom becomes a condition, and no condition depends on the state after the step |
| `NormalForms.EliminateImpEqIsRight` | dryadsynth/src/Invar/Transf.java:481-530 | keeps the truth under every interpretation |
| `NormalForms.PushIsRight` | dryadsynth/src/Invar/Transf.java:536-583 | keeps the truth, and negates it for a negated formula |
| `NormalForms.PushShape` | dryadsynth/src/Invar/Transf.java:536-583 | negations end up on atoms only |
| `NormalForms.Distribute` | dryadsynth/src/Invar/Transf.java:661-704 | the nested loops, both cases of the rest, compute the distribution of either connective |
| `NormalForms.DistributedMeaning` | dryadsynth/src/Invar/Transf.java:783-826 | it is the combination of both sides and the rest, except that a side equal to the start value says nothing |
| `NormalForms.Convert` | dryadsynth/src/Invar/Transf.java:588-636 | the recursion with its two lists computes the conversion of either kind |
| `NormalForms.ConvertedIsRight` | dryadsynth/src/Invar/Transf.java:709-757 | keeps the truth and reaches the normal form where no argument list is empty |
| `NormalForms.NoResult` | dryadsynth/src/Invar/Transf.java:614-626 | no result exactly where an empty conjunction (for CNF: disjunction) occurs |
| `NormalForms.NormalFormIsRight` | dryadsynth/src/Invar/Transf.java:828-844 | `convertToDNF` and `convertToCNF` are equivalences into DNF and CNF |
| `Forgotten.PartialMeaning` | dryadsynth/src/Invar/Transf.java:627-633 | what the intermediate results of the distribution say and how many clauses they have |
| `Forgotten.ConvertedMeaning` | dryadsynth/src/Invar/Transf.java:588-636 | for every formula with negations on atoms only: the result holds exactly if the arguments after the last reset and those not distributed over hold |
| `Forgotten.TruthIsTold` | dryadsynth/src/Invar/Transf.java:588-636 | the result holds wherever the formula does |
| `Forgotten.ConversionIsExact` | dryadsynth/src/Invar/Transf.java:588-757 | the conversions are equivalences for all literals in a tree if and only if the numbers of arguments make nothing go wrong |
| `Forgotten.NormalFormTells` | dryadsynth/src/Invar/Transf.java:828-844 | for every formula: when there is a result, and when it is equivalent |
| `Forgotten.EmptyDisjunctionIsForgotten` | dryadsynth/src/Invar/Transf.java:661-679 | an empty disjunction before another one goes wrong, at the end it does not |
| `Pushing.PushInNots` | dryadsynth/src/SSI/SSI.java:247-345 | ends, and leaves no negation, implication or Boolean conditional, in terms either |
| `Pushing.PushNot` | dryadsynth/src/SSI/SSI.java:255-315 | the same for a negated formula, whose inner conditional is pushed, negated and pushed again |
| `Pushing.PushMeaning` | dryadsynth/src/SSI/SSI.java:247-345 | keeps the truth under every interpretation |
| `Pushing.ComparisonsArePushed` | dryadsynth/src/SSI/SSI.java:247-345 | every combination of comparisons can be pushed, and its negation |
| `Pushing.EndedIsPos` | dryadsynth/src/SSI/SSI.java:247-345 | following the calls to any depth: where they end, the formula is of this kind and the answer is the one above |
| `Pushing.EndsExactly` | dryadsynth/src/SSI/SSI.java:247-345 | the calls end if and only if the formula is of this kind |
| `SingleInvocation.NormalizeAtom` | dryadsynth/src/SSI/SSI.java:166-213 | the comparison with the call alone on the right, or as it was where the calls cancel out; an exception exactly where the call occurs twice |
| `SingleInvocation.NormalizeExpr` | dryadsynth/src/SSI/SSI.java:161-221 | the same through all logical operators, negations included |
| `SingleInvocation.SSI.ScanExpr` | dryadsynth/src/SSI/SSI.java:347-388 | the candidate set grows by exactly the terms found; an exception exactly for a coefficient other than 1 and -1 |
| `SingleInvocation.FoundAreCandidates` | dryadsynth/src/SSI/SSI.java:353-382 | of normalised comparisons these are the boundary terms, whatever operators combine them |
| `SingleInvocation.AtomIsInterval` | dryadsynth/src/SSI/SSI.java:356-380 | each comparison holds on an interval that ends at its candidate |
| `SingleInvocation.SmallWitness` | dryadsynth/src/SSI/SSI.java:347-388 | if any value satisfies a constraint without negated bounds, the value of some candidate does, or zero where there is none |
| `SingleInvocation.SSI.ConstructITE` | dryadsynth/src/SSI/SSI.java:223-242 | in whatever order candidates are taken, the chain takes one that solves the constraint, else zero; it does not mention the function if they do not |
| `SingleInvocation.SSI.GetDef` | dryadsynth/src/SSI/SSI.java:43-67 | the definition solves the original constraint exactly for the inputs for which a term found or zero does; for all inputs where some value does, if and only if the constraint is served, which it is without negated bounds; the exact failures |
| `SingleInvocation.NearbyDecides` | dryadsynth/src/SSI/SSI.java:347-388 | for every constraint, whether any value satisfies it is decided at zero, the candidates and their neighbours |
| `SingleInvocation.ServedIsNearby` | dryadsynth/src/SSI/SSI.java:223-242 | so the chain is right for all inputs if and only if, wherever a neighbour of a candidate satisfies the constraint, a candidate or zero does |
| `NegatedBounds.GoodWitness` | dryadsynth/src/SSI/SSI.java:347-388 | a conjunction of comparisons of good kinds, negated ones among them, is satisfied by a candidate if by any value |
| `NegatedBounds.NegationsAreExact` | dryadsynth/src/SSI/SSI.java:347-388 | for all bounds: conjunctions of comparisons of given kinds are served if and only if the kinds are good |
| `NegatedBounds.GoodDisjunctsAreServed` | dryadsynth/src/SSI/SSI.java:347-388 | a constraint is served where each disjunct has good kinds |
| `NegatedBounds.StrictBoundIsMissed` | dryadsynth/src/SSI/SSI.java:347-388 | one negated bound alone is missed for all inputs but the negative ones |
| `PrefixCodes.UniquelyReadable` | dryadsynth/src/CEGIS/Expand.java:366-402 | a code has one derivation and is no prefix of another |
| `PrefixCodes.PrefixFree` | dryadsynth/src/CEGIS/Expand.java:583-712 | no valid vector is a proper prefix of a valid vector |
| `PrefixCodes.ValidIsCode` | dryadsynth/src/CEGIS/Expand.java:681-712 | the validity predicate is true exactly on the codes of derivations |
| `PrefixCodes.ValidHasTree` | dryadsynth/src/CEGIS/Expand.java:586-676 | a vector valid for a rule codes a derivation by this rule |
| `PrefixCodes.GuardPicksCuts` | dryadsynth/src/CEGIS/Expand.java:496-531 | if all arguments but the last are valid under a division, it is the right one |
| `PrefixCodes.ConcreteInterpreter.InterpretConcrete` | dryadsynth/src/CEGIS/Expand.java:324-403 | reads the term of the derivation and consumes exactly its code |
| `PrefixCodes.Expand.GenerateInterpretRule` | dryadsynth/src/CEGIS/Expand.java:452-538 | on a code of the rule the symbolic result is the term of the derivation |
| `PrefixCodes.Expand.GenerateInterpretNt` | dryadsynth/src/CEGIS/Expand.java:541-581 | the same for a non-terminal |
| `PrefixCodes.ReadBoth` | dryadsynth/src/CEGIS/Expand.java:312-322 | on every valid vector both readings agree and the whole vector is consumed |
| `PrefixCodes.CombinationCalc.Combine` | dryadsynth/src/CEGIS/Expand.java:755-767 | the recursion over the shared array appends all continuations |
| `PrefixCodes.CombinationCalc.Combination` | dryadsynth/src/CEGIS/Expand.java:741-754 | computes the list of divisions |
| `PrefixCodes.CombinationsAreDivisions` | dryadsynth/src/CEGIS/Expand.java:731-768 | the list holds exactly the increasing sequences of cut positions |
| `PrefixCodes.ExtensionsAreAll` | dryadsynth/src/CEGIS/Expand.java:755-767 | and none of them twice |
| `PrefixCodes.UnitIsNoCode` | dryadsynth/src/CEGIS/Expand.java:631-636 | a mere non-terminal is called valid at a length no derivation by it has |
| `PrefixCodes.UnitsAreExact` | dryadsynth/src/CEGIS/Expand.java:583-712 | every vector valid for a rule codes a derivation by it if and only if no rule is a mere non-terminal |
| `PrefixCodes.OracleExists` | dryadsynth/src/CEGIS/Expand.java:452-581 | what is asked of the test of simplified predicates can be met for every grammar |
| `Calls.InlineMeaning` | dryadsynth/src/parser/DefinedFunc.java:130-183 | inlining a function in a formula means giving it the meaning of its definition |
| `InliningAgrees.InlineAgrees` | dryadsynth/src/parser/DefinedFunc.java:130-183 | for distinct parameters, it is what rewriting the expression of the formula gives |
| `HeightSearch.Cegis.GetExprType` | dryadsynth/src/CEGIS/Cegis.java:1645-1671 | the type of a clause is told by the signs of its calls |
| `HeightSearch.TypeIsMonotone` | dryadsynth/src/CEGIS/Cegis.java:1608-1671 | a positive clause stays true when the functions grow, a negative one when they shrink |
| `HeightSearch.SignsAreExact` | dryadsynth/src/CEGIS/Cegis.java:1595-1639 | a literal counts as positive, or negative, exactly if growing functions can turn it true, or false |
| `HeightSearch.TypeIsExact` | dryadsynth/src/CEGIS/Cegis.java:1645-1671 | a clause is positive or negative exactly if growing functions turn some of its literals one way and none the other way |
| `HeightSearch.Cegis.GetSolution` | dryadsynth/src/CEGIS/Cegis.java:1679-1689 | a solution if and only if the table has one for the constraint |
| `HeightSearch.Cegis.Split` | dryadsynth/src/CEGIS/Cegis.java:1715-1744 | the three lists of clauses together are the constraint |
| `HeightSearch.Cegis.GetSimpProb` | dryadsynth/src/CEGIS/Cegis.java:1926-1958 | the constraint with every function joined with the partial solution |
| `HeightSearch.Cegis.GetCombinedResults` | dryadsynth/src/CEGIS/Cegis.java:1960-1995 | the definitions joined by name |
| `HeightSearch.SimplifiedMeaning` | dryadsynth/src/CEGIS/Cegis.java:1926-1958 | rewriting name by name means joining all functions at once |
| `HeightSearch.SimplifiedIsSound` | dryadsynth/src/CEGIS/Cegis.java:1789-1813 | the solutions of the simplified problem are exactly those that, combined with the partial one, solve the problem |
| `HeightSearch.CombinedShrinks` | dryadsynth/src/CEGIS/Cegis.java:1960-1995 | joining by `and` lets the functions hold less often, joining by `or` more often |
| `HeightSearch.LeftOutStaysSolved` | dryadsynth/src/CEGIS/Cegis.java:1789-1813 | what solves the clauses that were left out still does when combined: `and` goes with positive clauses, `or` with negative ones |
| `HeightSearch.AttemptJoinsRightly` | dryadsynth/src/CEGIS/Cegis.java:1789-1813 | an attempt with a partial solution asks the table for exactly what completes it, and the clauses left out lose no solution by the joining |
| `HeightSearch.TopConverted` | dryadsynth/src/CEGIS/Cegis.java:1717 | the conjunctive form is right also with the empty conjunctions the search itself makes |
| `HeightSearch.Cegis.Attempt` | dryadsynth/src/CEGIS/Cegis.java:1759-1818 | keeps the table sound, loses no solution and adds entries up to its height only; succeeds exactly if the clauses of its kind have a solution and none are left, or the simplified problem for that solution has one; then the entry is this one or the combination |
| `HeightSearch.Cegis.Search` | dryadsynth/src/CEGIS/Cegis.java:1691-1924 | after every call each non-null entry solves the constraint it stands under; no solution is lost, a solved constraint changes nothing; above height 1 the attempt on the positive clauses was made with `and`, then, if it failed, the one on the negative clauses with `or`; without a solution the fixed-height search was asked and had none |
| `HeightSearch.OraclesExist` | dryadsynth/src/CEGIS/Cegis.java:1691-1924 | what is asked of the simplifier and of the fixed-height search can be met for every signature |
| `Decomposition.Product` | dryadsynth/src/dispatcher/SygusDispatcher.java:1050-1069 | for any number of classes, the tests class by class make the property hold of a state that agrees with the given one on all of them |
| `Decomposition.RectanglesMultiply` | dryadsynth/src/dispatcher/SygusDispatcher.java:1032-1102 | a rectangle for each class is the product of its projections |
| `Decomposition.CrossesMultiply` | dryadsynth/src/dispatcher/SygusDispatcher.java:1104-1171 | a cross for each class is the union of its projections |
| `Decomposition.CheckInvSquarePost` | dryadsynth/src/dispatcher/SygusDispatcher.java:1032-1102 | true exactly if there are several classes and goal and step pass the test for each |
| `Decomposition.CheckInvCrossPre` | dryadsynth/src/dispatcher/SygusDispatcher.java:1104-1171 | the same for start and step |
| `Decomposition.RecPostIsInvariant` | dryadsynth/src/INVDnC/InvDnC.java:89-105 | for the classes of the variable relation, the conjunction of the invariants of the existentially projected problems is an invariant of the whole |
| `Decomposition.RectanglesGiveInvariant` | dryadsynth/src/INVDnC/InvDnC.java:89-105 | the same for any classes on which alone the goal depends |
| `Decomposition.GoalKeptGivesInvariant` | dryadsynth/src/INVDnC/InvDnC.java:89-105 | the same for any classes that keep the goal |
| `Decomposition.CrossPreIsInvariant` | dryadsynth/src/INVDnC/InvDnC.java:89-105 | dually, the disjunction for the universally projected problems |
| `Decomposition.CrossesGiveInvariant` | dryadsynth/src/INVDnC/InvDnC.java:89-105 | the same for any classes on which alone the start depends |
| `Decomposition.StartKeptGivesInvariant` | dryadsynth/src/INVDnC/InvDnC.java:89-105 | the same for any classes that keep the start, if the step passes its test |
| `Decomposition.RelatedDepends` | dryadsynth/src/parser/SygusExtractorV1.java:304-313 | start and goal depend on the variables in the classes of the relation only |
| `Decomposition.RecCrossIsInvariant` | dryadsynth/src/INVDnC/InvDnC.java:81-83 | for the mixed kind one answer is enough |
| `Decomposition.InvDnC.Solve` | dryadsynth/src/INVDnC/InvDnC.java:70-106 | combines all answers, or fails if there is none; an invariant of the problem if every class of the relation is answered and the tests passed, or if the answered classes keep the goal, or the start |
| `Decomposition.InvDnC.Init` | dryadsynth/src/INVDnC/InvDnC.java:48-60 | the list goes through the classes of the relation |
| `Decomposition.EnoughKeeps` | dryadsynth/src/INVDnC/InvDnC.java:70-106 | rectangles that the goal depends on alone keep it, and crosses the start |
| `UnsolvedClasses.GoalIsExact` | dryadsynth/src/INVDnC/InvDnC.java:75-105 | for any goal and any answered classes: whatever the rest of the problem and the answers, they combine to an invariant, if and only if these classes keep the goal |
| `UnsolvedClasses.StartIsExact` | dryadsynth/src/INVDnC/InvDnC.java:75-105 | the same for starts, where the step passes its test |
| `UnsolvedClasses.UnsolvedClassLosesGoal` | dryadsynth/src/INVDnC/InvDnC.java:75-105 | tests passed, the whole solvable, one class answered, the other not answerable: what is returned is no invariant |
| `UnsolvedClasses.SecondHasNoAnswer` | dryadsynth/src/INVDnC/InvDnC.java:158-244 | no formula answers the subproblem of that class |
| `UnsolvedClasses.UnsolvedClassLosesStart` | dryadsynth/src/INVDnC/InvDnC.java:75-105 | tests passed, the whole and both classes solvable: one answer alone is no invariant |
| `UnsolvedClasses.SolvableIsNotDiscarded` | dryadsynth/src/INVDnC/InvDnC.java:200-207 | a class is discarded for these kinds only if the whole has no invariant |
| `UnsolvedClasses.CrossTestIsConstant` | dryadsynth/src/dispatcher/SygusDispatcher.java:1135-1165 | the test of the step, even for one class, passes exactly the steps that are always or never possible |
| `UnsolvedClasses.CrossClassHasAnswer` | dryadsynth/src/INVDnC/InvDnC.java:158-244 | where the tests pass and the whole has an invariant, every class has an answer |
| `VarsRelation.ScanForVars` | dryadsynth/src/parser/SygusExtractorV1.java:380-397 | all nullary symbols of the expression |
| `VarsRelation.Merge` | dryadsynth/src/parser/SygusExtractorV1.java:345-367 | the classes that meet a comparison are merged, the others stay |
| `VarsRelation.MergedComponents` | dryadsynth/src/parser/SygusExtractorV1.java:345-367 | merging keeps the classes the connected components |
| `VarsRelation.TogetherIsLinked` | dryadsynth/src/parser/SygusExtractorV1.java:315-378 | two variables share a class if and only if a chain of comparisons links them |
| `VarsRelation.GetVarsRelation` | dryadsynth/src/parser/SygusExtractorV1.java:315-378 | the components of the comparisons before and those of the formula |
| `VarsRelation.InvVarRelation` | dryadsynth/src/parser/SygusExtractorV1.java:304-313 | the components of the comparisons of start, step and goal |
| `VarsRelation.UsedDecides` | dryadsynth/src/parser/SygusExtractorV1.java:315-378 | the truth of a formula is decided by the variables of its comparisons |
| `VarsRelation.UsedIsComparisons` | dryadsynth/src/parser/SygusExtractorV1.java:322-344 | the sets that link variables are those of the outermost comparisons of numbers, under Boolean equalities as under other connectives |
| `VarsRelation.ConstantComparisonAddsClass` | dryadsynth/src/parser/SygusExtractorV1.java:362-365 | a comparison without variables adds an empty class |
| `Rewriting.Substitute` | dryadsynth/src/CEGIS/ASTGeneral.java:75-115 | ends, and substitutes simultaneously everywhere below the root |
| `Rewriting.SubstituteIsRecursive` | dryadsynth/src/CEGIS/ASTGeneral.java:75-115 | this is recursive substitution if and only if the root is not to be replaced, or by what it becomes anyway |
| `Rewriting.Apply` | dryadsynth/src/parser/DefinedFunc.java:59-65 | the definition with the arguments put in, by either kind of substitution |
| `Rewriting.Rewrite` | dryadsynth/src/parser/DefinedFunc.java:90-183 | both loops end, although equal subtrees may lie on the stack twice, and inline recursively from the leaves |
| `Rewriting.SubstMeaning` | dryadsynth/src/parser/DefinedFunc.java:59-61 | substituting for the parameters is evaluating with the parameters bound |
| `Rewriting.RewrittenMeaning` | dryadsynth/src/parser/DefinedFunc.java:90-183 | the value is the original's with the function meaning its definition, even where the definition mentions the function |
| `Rewriting.ExprsRewriteRightly` | dryadsynth/src/parser/DefinedFunc.java:130-183 | on solver expressions for every function |
| `Rewriting.TreesRewriteRightly` | dryadsynth/src/parser/DefinedFunc.java:90-128 | on trees if and only if the definition is no mere parameter and a function without parameters is defined as itself |

## Left out

- Enumeration.Algo.RunUntil: the original loop ends only when the callback refuses; the model follows it for any given number of rounds. `counter2` is stated by `Insert` only.
- The `dag_size` extension, the rules for suggested expressions and user operators, and the `ite` rule (which does nothing) of the enumerator; they add candidates.
- The variants `algo2.rs`, `algo3.rs` and `algo4.rs`, and `add_solution2` and the sampling functions of `solutions.rs`.
- The callback is a function of what it was told before and of the new entry.
- DecisionTrees.TreeLearning.Select: floating-point entropies are parameters, one for "small enough to try an option", one for the best condition.
- BvExpr.Word: division is division of the numbers that words stand for, not the built-in one on bit-vectors.
- Deduction.CombineRules.Test: the tests of a candidate on examples beyond the sampled lanes are parameters.
- EquivClasses.PBEEnumSize.VerifyOutput: takes outputs as `compute` makes them; lists of example numbers, which the program keeps in increasing order, are sets, and two maps with the same keys are one map of pairs. Enumeration, sampling and retries of this search are not modelled.
- PrefixCodes.Expand.GenerateInterpretRule: a generated formula is modelled by its value at each vector; the caches and the renaming of cached formulas are not.
- PrefixCodes.ConcreteInterpreter.InterpretConcrete: stands for `ASTBuilder` as well, with trees for terms; the differences of their leaf cases are in the algebra.
- Pushing.PushInNots: the memo cache. The precondition excludes exactly the formulas on which the original does not end or fails (`EndsExactly`).
- SingleInvocation.SSI.GetDef: problems with several functions, whose partial constraints are a heuristic, and so `reduceConstr`, whose result is an argument; simplification of the conditions of the chain. Boolean equalities and calls of other functions are excluded from the constraint.
- NegatedBounds.GoodDisjunctsAreServed: only sufficient, because a candidate of one disjunct may happen to solve another.
- Calls.InlineMeaning: inlining in formulas is recursive here; its stack and cache are in `Rewriting`, with the same result.
- Rewriting.Rewrite: quantifiers.
- HeightSearch.Cegis.Search: the alternative solver, statistics and `changed` flags. Constraints come without empty disjunctions; empty conjunctions only stand on top.
- Decomposition.InvDnC.Solve: the generation of subproblems by quantifier elimination is stated by their three conditions; solving them is a parameter. There is one invariant, as in the original.
- Conjunctions.FromConj: takes comparisons of linear terms and Boolean constants, under any number of negations, for unprimed atoms; the original fails with an exception on Boolean equalities.
- Acceleration.Transf.Run: the splitting of a transition formula into regions and translations, and the search for translations by the solver.
- Threads, timeouts, logging, parsers, printers and the command line.
- BitIters.Combs: an overflow is a failure, as in checked builds; the value after wrapping is not modelled.
- Bit iterators on words of all 64 ones, where the original shifts by the width of the word; `OnePosIter`.
