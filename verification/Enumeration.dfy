/**
 The bottom-up enumerator that keeps one expression per value vector.

 A bank holds, for every size `w`, the expressions first found at that size with their value
 vectors.  The central question is whether keeping a single representative per value loses
 solutions; `Completeness` below says it does not.
 */
module Enumeration {
  import opened Wrappers
  import opened BvExpr

  datatype Rule =
    | VarRule(id: nat)
    | ConstRule(value: bv64)
    | UnaryRule(uop: UnOp)
    | ShiftByRule(sop: BinOp, amount: bv64)
    | BinaryRule(bop: BinOp)
    | IteRule

  datatype Entry = Entry(expr: Expr, value: Bv)
  type Level = seq<Entry>
  type Bank = seq<Level>

  /** What an operator adds to the sizes of its operands. */
  function Weight(op: BinOp): (w: nat)
    ensures w >= 1
  {
    match op
    case Sub | Shl => 2
    case AShr => 3
    case SDiv | URem | SRem => 4
    case _ => 1
  }

  // ---- the grammar ----

  /**
   `e` can be derived from the rules with size `w`.  A shift amount is an atom and costs nothing;
   no rule derives an if-then-else.
   */
  ghost predicate Derives(cfg: seq<Rule>, e: Expr, w: nat) {
    match e
    case Var(i) => w == 1 && VarRule(i) in cfg
    case Const(c) => w == 1 && ConstRule(c) in cfg
    case Unary(op, a) => UnaryRule(op) in cfg && w >= 1 && Derives(cfg, a, w - 1)
    case Binary(op, l, r) =>
      if IsShift(op) then
        || (BinaryRule(op) in cfg && r.IsAtom() && Derives(cfg, r, 1)
            && w >= Weight(op) && Derives(cfg, l, w - Weight(op)))
        || (r.Const? && ShiftByRule(op, r.value) in cfg && w >= 1 && Derives(cfg, l, w - 1))
      else
        && BinaryRule(op) in cfg
        && exists i: nat, j: nat :: Splits(w, op, i, j) && Derives(cfg, l, i) && Derives(cfg, r, j)
    case Ite(_, _, _) => false
  }

  predicate Splits(w: nat, op: BinOp, i: nat, j: nat) { i + j + Weight(op) == w }

  lemma DerivesPositive(cfg: seq<Rule>, e: Expr, w: nat)
    requires Derives(cfg, e, w)
    ensures w >= 1
  {
  }

  /** The size of a pair: division that is signed or gives remainders costs 4, subtraction 2, the rest 1. */
  lemma PairSizes(cfg: seq<Rule>, op: BinOp, l: Expr, r: Expr, i: nat, j: nat)
    requires !IsShift(op) && BinaryRule(op) in cfg && Derives(cfg, l, i) && Derives(cfg, r, j)
    ensures Derives(cfg, Binary(op, l, r), i + j + if op in {SDiv, URem, SRem} then 4 else if op.Sub? then 2 else 1)
  {
    assert Splits(i + j + Weight(op), op, i, j);
  }

  lemma PairOperands(cfg: seq<Rule>, op: BinOp, l: Expr, r: Expr, w: nat) returns (i: nat, j: nat)
    requires !IsShift(op) && Derives(cfg, Binary(op, l, r), w)
    ensures Derives(cfg, l, i) && Derives(cfg, r, j)
    ensures w == i + j + if op in {SDiv, URem, SRem} then 4 else if op.Sub? then 2 else 1
  {
    i, j :| Splits(w, op, i, j) && Derives(cfg, l, i) && Derives(cfg, r, j);
  }

  /** The size of a shift: to the right 1, to the left 2, arithmetic 3; by the amount of a rule always 1. */
  lemma ShiftSizes(cfg: seq<Rule>, op: BinOp, l: Expr, c: bv64, v: nat)
    requires IsShift(op) && VarRule(v) in cfg
    ensures BinaryRule(op) in cfg ==>
              forall w: nat | Derives(cfg, l, w) :: Derives(cfg, Binary(op, l, Var(v)), w + if op.LShr? then 1 else if op.Shl? then 2 else 3)
    ensures ShiftByRule(op, c) in cfg ==> forall w: nat | Derives(cfg, l, w) :: Derives(cfg, Binary(op, l, Const(c)), w + 1)
  {
  }

  // ---- what one round must have produced ----

  ghost predicate LevelLength(l: Level, n: nat) { forall i | 0 <= i < |l| :: |l[i].value| == n }

  ghost predicate BankLength(b: Bank, n: nat) { forall w | 0 <= w < |b| :: LevelLength(b[w], n) }

  /** A value is accounted for when it was undefined or belongs to `known`. */
  ghost predicate Accounted(v: Option<Bv>, known: set<Bv>) { v.Some? ==> v.value in known }

  lemma AccountedLater(known: set<Bv>, more: set<Bv>)
    requires known <= more
    ensures forall v | Accounted(v, known) :: Accounted(v, more)
  {
  }

  /** The operator applied to every member of a level. */
  ghost predicate UnaryDone(op: UnOp, l: Level, known: set<Bv>) {
    forall x | 0 <= x < |l| :: UnBv(op, l[x].value) in known
  }

  lemma NothingDone(op: UnOp, l: Level, known: set<Bv>)
    ensures UnaryDone(op, l[..0], known)
  {
  }

  lemma OneMoreDone(op: UnOp, l: Level, x: nat, known: set<Bv>, more: set<Bv>)
    requires x < |l| && UnaryDone(op, l[..x], known) && known <= more && UnBv(op, l[x].value) in more
    ensures UnaryDone(op, l[..x + 1], more)
  {
    hide UnBv;
  }

  ghost predicate ShiftByDone(op: BinOp, c: bv64, l: Level, n: nat, known: set<Bv>)
    requires LevelLength(l, n)
  {
    forall x | 0 <= x < |l| :: Accounted(BinBv(op, l[x].value, Splat(n, c)), known)
  }

  lemma NothingShifted(op: BinOp, c: bv64, l: Level, n: nat, known: set<Bv>)
    requires LevelLength(l, n)
    ensures ShiftByDone(op, c, l[..0], n, known)
  {
  }

  lemma OneMoreShifted(op: BinOp, c: bv64, l: Level, x: nat, n: nat, known: set<Bv>, more: set<Bv>)
    requires LevelLength(l, n) && x < |l| && ShiftByDone(op, c, l[..x], n, known) && known <= more
    requires Accounted(BinBv(op, l[x].value, Splat(n, c)), more)
    ensures ShiftByDone(op, c, l[..x + 1], n, more)
  {
    hide BinBv, Splat;
  }

  /** Every ordered pair of a left operand from `l` and a right operand from `r`. */
  ghost predicate PairsDone(op: BinOp, l: Level, r: Level, n: nat, known: set<Bv>)
    requires LevelLength(l, n) && LevelLength(r, n)
  {
    forall x, y | 0 <= x < |l| && 0 <= y < |r| :: Accounted(BinBv(op, l[x].value, r[y].value), known)
  }

  /** As `PairsDone`, for the right operands that are variables or constants. */
  ghost predicate ShiftsDone(op: BinOp, l: Level, r: Level, n: nat, known: set<Bv>)
    requires LevelLength(l, n) && LevelLength(r, n)
  {
    forall x, y | 0 <= x < |l| && 0 <= y < |r| && r[y].expr.IsAtom() ::
      Accounted(BinBv(op, l[x].value, r[y].value), known)
  }

  /** One order of each unordered pair from a level, and each member with itself. */
  ghost predicate DiagonalDone(op: BinOp, l: Level, n: nat, known: set<Bv>)
    requires LevelLength(l, n)
  {
    forall x, y | 0 <= x <= y < |l| :: Accounted(BinBv(op, l[x].value, l[y].value), known)
  }

  function CeilHalf(k: nat): nat { (k + 1) / 2 }

  /** What the loops of rule `r` cover in the round that fills level `s`. */
  ghost predicate RuleDone(r: Rule, args: seq<Bv>, b: Bank, s: nat, n: nat, known: set<Bv>)
    requires BankLength(b, n) && 1 <= s <= |b|
  {
    match r
    case VarRule(i) => s == 1 && i < |args| ==> args[i] in known
    case ConstRule(c) => s == 1 ==> Splat(n, c) in known
    case UnaryRule(op) => UnaryDone(op, b[s - 1], known)
    case ShiftByRule(op, c) => ShiftByDone(op, c, b[s - 1], n, known)
    case BinaryRule(op) =>
      if IsShift(op) then
        s > Weight(op) && s > 1 ==> ShiftsDone(op, b[s - Weight(op)], b[1], n, known)
      else if Commutes(op) then
        && (forall i, j | 1 <= i < CeilHalf(s - 1) && i + j == s - 1 :: PairsDone(op, b[i], b[j], n, known))
        && ((s - 1) % 2 == 0 ==> DiagonalDone(op, b[(s - 1) / 2], n, known))
      else
        forall i, j | 1 <= i && 1 <= j && i + j + Weight(op) == s :: PairsDone(op, b[i], b[j], n, known)
    case IteRule => true
  }

  /** The values stored on levels up to `s`. */
  ghost function Known(b: Bank, s: nat): set<Bv> {
    set w, i | 0 <= w <= s && w < |b| && 0 <= i < |b[w]| :: b[w][i].value
  }

  /** All rounds up to the top of the bank covered their rules; `extra` is the output value once reported. */
  ghost predicate Closed(cfg: seq<Rule>, args: seq<Bv>, b: Bank, n: nat, extra: set<Bv>)
    requires BankLength(b, n)
  {
    forall s, k | 1 <= s < |b| && 0 <= k < |cfg| :: RuleDone(cfg[k], args, b, s, n, Known(b, s) + extra)
  }

  ghost predicate AtomsFirst(b: Bank) {
    |b| >= 1 && b[0] == [] && (|b| > 1 ==> forall i | 0 <= i < |b[1]| :: b[1][i].expr.IsAtom())
  }

  /** Some level up to `w` stores value `v`. */
  ghost predicate Represented(b: Bank, w: nat, v: Bv) {
    exists u, i :: 0 <= u <= w && u < |b| && 0 <= i < |b[u]| && b[u][i].value == v
  }

  // ---- completeness ----

  /** Operands on levels `i` and `j` are combined in the round of their joint size, in either order if need be. */
  lemma PairAccounted(cfg: seq<Rule>, args: seq<Bv>, b: Bank, n: nat, extra: set<Bv>,
                      op: BinOp, i: nat, x: nat, j: nat, y: nat)
    requires BankLength(b, n) && Closed(cfg, args, b, n, extra)
    requires BinaryRule(op) in cfg && !IsShift(op)
    requires 1 <= i && 1 <= j && i + j + Weight(op) < |b| && x < |b[i]| && y < |b[j]|
    ensures Accounted(BinBv(op, b[i][x].value, b[j][y].value), Known(b, i + j + Weight(op)) + extra)
  {
    hide BinBv;
    var s := i + j + Weight(op);
    var known := Known(b, s) + extra;
    var k :| 0 <= k < |cfg| && cfg[k] == BinaryRule(op);
    assert RuleDone(cfg[k], args, b, s, n, known);
    if Commutes(op) {
      BinBvCommutes(op, b[i][x].value, b[j][y].value);
      if i < j {
        assert PairsDone(op, b[i], b[j], n, known);
      } else if j < i {
        assert PairsDone(op, b[j], b[i], n, known);
      } else {
        assert DiagonalDone(op, b[i], n, known);
      }
    } else {
      assert PairsDone(op, b[i], b[j], n, known);
    }
  }

  /** A value shifted by an atom is combined in the round of their joint size. */
  lemma ShiftAccounted(cfg: seq<Rule>, args: seq<Bv>, b: Bank, n: nat, extra: set<Bv>, op: BinOp, i: nat, x: nat, y: nat)
    requires BankLength(b, n) && AtomsFirst(b) && Closed(cfg, args, b, n, extra)
    requires BinaryRule(op) in cfg && IsShift(op)
    requires 1 <= i && i + Weight(op) < |b| && x < |b[i]| && y < |b[1]|
    ensures Accounted(BinBv(op, b[i][x].value, b[1][y].value), Known(b, i + Weight(op)) + extra)
  {
    hide BinBv;
    var s := i + Weight(op);
    var k :| 0 <= k < |cfg| && cfg[k] == BinaryRule(op);
    assert RuleDone(cfg[k], args, b, s, n, Known(b, s) + extra);
    assert ShiftsDone(op, b[i], b[1], n, Known(b, s) + extra);
  }

  /** A rule with one operand is applied to level `i` in the next round. */
  lemma OneOperandAccounted(cfg: seq<Rule>, args: seq<Bv>, b: Bank, n: nat, extra: set<Bv>, r: Rule, i: nat, x: nat)
    requires BankLength(b, n) && Closed(cfg, args, b, n, extra)
    requires r in cfg && i + 1 < |b| && x < |b[i]|
    ensures r.UnaryRule? ==> UnBv(r.uop, b[i][x].value) in Known(b, i + 1) + extra
    ensures r.ShiftByRule? ==> Accounted(BinBv(r.sop, b[i][x].value, Splat(n, r.amount)), Known(b, i + 1) + extra)
  {
    hide BinBv, UnBv;
    var k :| 0 <= k < |cfg| && cfg[k] == r;
    assert RuleDone(cfg[k], args, b, i + 1, n, Known(b, i + 1) + extra);
  }

  /** Atoms are entered in the first round. */
  lemma AtomAccounted(cfg: seq<Rule>, args: seq<Bv>, b: Bank, n: nat, extra: set<Bv>, r: Rule)
    requires BankLength(b, n) && Closed(cfg, args, b, n, extra)
    requires r in cfg && |b| > 1
    ensures r.VarRule? && r.id < |args| ==> args[r.id] in Known(b, 1) + extra
    ensures r.ConstRule? ==> Splat(n, r.value) in Known(b, 1) + extra
  {
    var k :| 0 <= k < |cfg| && cfg[k] == r;
    assert RuleDone(cfg[k], args, b, 1, n, Known(b, 1) + extra);
  }

  /** Representatives only get smaller, so what is known early stays represented. */
  lemma KnownStaysRepresented(b: Bank, s: nat, w: nat, v: Bv)
    requires s <= w && v in Known(b, s)
    ensures Represented(b, w, v)
  {
  }

  /** Where a represented value is stored. */
  lemma Locate(b: Bank, w: nat, v: Bv) returns (u: nat, x: nat)
    requires Represented(b, w, v) && AtomsFirst(b)
    ensures 1 <= u <= w && u < |b| && x < |b[u]| && b[u][x].value == v
  {
    u, x :| 0 <= u <= w && u < |b| && 0 <= x < |b[u]| && b[u][x].value == v;
  }

  /**
   Pruning by value loses nothing: in a bank that no output value was kept out of, every grammar
   expression of size `w` that evaluates to some vector has a representative of that vector on a
   level up to `w`.
   */
  lemma {:induction false} Completeness(cfg: seq<Rule>, args: seq<Bv>, b: Bank, n: nat, e: Expr, w: nat)
    requires ArgsOk(args, n) && BankLength(b, n) && AtomsFirst(b) && Closed(cfg, args, b, n, {})
    requires Derives(cfg, e, w) && w < |b| && EvalBv(e, args, n).Some?
    ensures Represented(b, w, EvalBv(e, args, n).value)
    decreases e, 1
  {
    hide BinBv, UnBv;
    DerivesPositive(cfg, e, w);
    match e
    case Var(i) =>
      AtomAccounted(cfg, args, b, n, {}, VarRule(i));
    case Const(c) =>
      AtomAccounted(cfg, args, b, n, {}, ConstRule(c));
    case Unary(op, a) =>
      Completeness(cfg, args, b, n, a, w - 1);
      var u, x := Locate(b, w - 1, EvalBv(a, args, n).value);
      OneOperandAccounted(cfg, args, b, n, {}, UnaryRule(op), u, x);
      KnownStaysRepresented(b, u + 1, w, EvalBv(e, args, n).value);
    case Binary(op, _, _) =>
      if IsShift(op) {
        ShiftComplete(cfg, args, b, n, e, w);
      } else {
        PairComplete(cfg, args, b, n, e, w);
      }
    case Ite(_, _, _) => assert false;
  }

  lemma {:induction false} ShiftComplete(cfg: seq<Rule>, args: seq<Bv>, b: Bank, n: nat, e: Expr, w: nat)
    requires ArgsOk(args, n) && BankLength(b, n) && AtomsFirst(b) && Closed(cfg, args, b, n, {})
    requires Derives(cfg, e, w) && w < |b| && EvalBv(e, args, n).Some?
    requires e.Binary? && IsShift(e.bop)
    ensures Represented(b, w, EvalBv(e, args, n).value)
    decreases e, 0
  {
    hide BinBv, UnBv;
    var op, l, r := e.bop, e.left, e.right;
    if BinaryRule(op) in cfg && r.IsAtom() && Derives(cfg, r, 1) && w >= Weight(op) && Derives(cfg, l, w - Weight(op)) {
      Completeness(cfg, args, b, n, l, w - Weight(op));
      DerivesPositive(cfg, l, w - Weight(op));
      Completeness(cfg, args, b, n, r, 1);
      var u, x := Locate(b, w - Weight(op), EvalBv(l, args, n).value);
      var z, y := Locate(b, 1, EvalBv(r, args, n).value);
      ShiftAccounted(cfg, args, b, n, {}, op, u, x, y);
      KnownStaysRepresented(b, u + Weight(op), w, EvalBv(e, args, n).value);
    } else {
      Completeness(cfg, args, b, n, l, w - 1);
      var u, x := Locate(b, w - 1, EvalBv(l, args, n).value);
      OneOperandAccounted(cfg, args, b, n, {}, ShiftByRule(op, r.value), u, x);
      KnownStaysRepresented(b, u + 1, w, EvalBv(e, args, n).value);
    }
  }

  lemma {:induction false} PairComplete(cfg: seq<Rule>, args: seq<Bv>, b: Bank, n: nat, e: Expr, w: nat)
    requires ArgsOk(args, n) && BankLength(b, n) && AtomsFirst(b) && Closed(cfg, args, b, n, {})
    requires Derives(cfg, e, w) && w < |b| && EvalBv(e, args, n).Some?
    requires e.Binary? && !IsShift(e.bop)
    ensures Represented(b, w, EvalBv(e, args, n).value)
    decreases e, 0
  {
    hide BinBv, UnBv;
    var op, l, r := e.bop, e.left, e.right;
    var i: nat, j: nat :| Splits(w, op, i, j) && Derives(cfg, l, i) && Derives(cfg, r, j);
    Completeness(cfg, args, b, n, l, i);
    Completeness(cfg, args, b, n, r, j);
    var u, x := Locate(b, i, EvalBv(l, args, n).value);
    var z, y := Locate(b, j, EvalBv(r, args, n).value);
    PairAccounted(cfg, args, b, n, {}, op, u, x, z, y);
    KnownStaysRepresented(b, u + z + Weight(op), w, EvalBv(e, args, n).value);
  }

  // ---- the invariant of the enumerator ----

  /** What is fixed during a run: the number of lanes, the rules, the argument vectors and the wanted output. */
  datatype Task = Task(n: nat, config: seq<Rule>, args: seq<Bv>, output: Bv) {
    /** Arguments and output have one word per lane; rules name existing arguments and real shifts. */
    ghost predicate WellFormed() {
      && ArgsOk(args, n) && |output| == n
      && (forall i: nat | VarRule(i) in config :: i < |args|)
      && (forall op, c | ShiftByRule(op, c) in config :: IsShift(op))
    }
  }

  /** What the callback was told. */
  type Log = seq<Entry>

  /** An entry carries its true value and can be derived with size `w`. */
  ghost predicate Sound(t: Task, en: Entry, w: nat)
    requires t.WellFormed()
  {
    EvalBv(en.expr, t.args, t.n) == Some(en.value) && Derives(t.config, en.expr, w)
  }

  ghost predicate SoundUpTo(t: Task, en: Entry, top: nat)
    requires t.WellFormed()
  {
    exists w: nat :: w <= top && Sound(t, en, w)
  }

  ghost predicate LogSound(t: Task, log: Log, top: nat)
    requires t.WellFormed()
  {
    forall i | 0 <= i < |log| :: SoundUpTo(t, log[i], top)
  }

  /** The output value once it was reported. */
  ghost function Hit(log: Log, output: Bv): (extra: set<Bv>) {
    if exists i :: 0 <= i < |log| && log[i].value == output then {output} else {}
  }

  /** Stored entries are sound and the map knows them. */
  ghost predicate EntriesOk(t: Task, full: Bank, table: map<Bv, Option<Expr>>)
    requires t.WellFormed()
  {
    forall w, i | 0 <= w < |full| && 0 <= i < |full[w]| ::
      && Sound(t, full[w][i], w)
      && full[w][i].value != t.output
      && full[w][i].value in table && table[full[w][i].value] == Some(full[w][i].expr)
  }

  /** No two stored entries share a value. */
  ghost predicate Distinct(full: Bank) {
    forall w, i, u, j | 0 <= w < |full| && 0 <= i < |full[w]| && 0 <= u < |full| && 0 <= j < |full[u]| ::
      full[w][i].value == full[u][j].value ==> w == u && i == j
  }

  /** The stored entries are sound and pairwise different, and the map holds exactly them and the output. */
  ghost predicate StoreOk(t: Task, full: Bank, table: map<Bv, Option<Expr>>)
    requires t.WellFormed()
  {
    && AtomsFirst(full)
    && EntriesOk(t, full, table)
    && Distinct(full)
    && t.output in table && table[t.output] == None
    && (forall v | v in table && v != t.output :: v in Known(full, |full| - 1))
  }

  function Append(full: Bank, en: Entry): (r: Bank)
    requires |full| > 0
    ensures |r| == |full| && r[..|full| - 1] == full[..|full| - 1] && r[|full| - 1] == full[|full| - 1] + [en]
  {
    full[..|full| - 1] + [full[|full| - 1] + [en]]
  }

  lemma DistinctNew(full: Bank, en: Entry)
    requires |full| >= 1 && Distinct(full)
    requires forall w, i | 0 <= w < |full| && 0 <= i < |full[w]| :: full[w][i].value != en.value
    ensures Distinct(Append(full, en))
  {
    var more := Append(full, en);
    forall w, i | 0 <= w < |more| && 0 <= i < |more[w]| ensures more[w][i] == (if i < |full[w]| then full[w][i] else en) && (i >= |full[w]| ==> w == |full| - 1 && i == |full[w]|) {
      assert w < |full| - 1 ==> more[w] == full[w];
    }
    hide Append;
  }

  lemma KnownNew(full: Bank, en: Entry)
    requires |full| >= 1
    ensures Known(Append(full, en), |full| - 1) == Known(full, |full| - 1) + {en.value}
  {
    var full', top := Append(full, en), |full| - 1;
    assert forall w | 0 <= w < top :: full'[w] == full[w];
    assert full'[top][|full[top]|] == en;
    forall v | v in Known(full, top) ensures v in Known(full', top) {
      var w, i :| 0 <= w <= top && 0 <= i < |full[w]| && full[w][i].value == v;
      assert full'[w][i].value == v;
    }
    forall v | v in Known(full', top) ensures v in Known(full, top) + {en.value} {
      var w, i :| 0 <= w <= top && 0 <= i < |full'[w]| && full'[w][i].value == v;
      assert (w == top && i == |full[top]|) || full[w][i].value == v;
    }
  }

  lemma StoreNew(t: Task, full: Bank, table: map<Bv, Option<Expr>>, en: Entry)
    requires t.WellFormed() && |full| >= 2 && StoreOk(t, full, table)
    requires en.value !in table && Sound(t, en, |full| - 1) && (|full| == 2 ==> en.expr.IsAtom())
    ensures StoreOk(t, Append(full, en), table[en.value := Some(en.expr)])
  {
    hide Sound, Known, Distinct;
    assert forall w | 0 <= w < |full| - 1 :: Append(full, en)[w] == full[w];
    DistinctNew(full, en);
    KnownNew(full, en);
  }

  /** The output is in the map from the start, and is the one value without an expression. */
  lemma ToldOnce(t: Task, full: Bank, table: map<Bv, Option<Expr>>, v: Bv)
    requires t.WellFormed() && StoreOk(t, full, table)
    ensures t.output in table && (v in table ==> (table[v].None? <==> v == t.output))
  {
    hide Sound, Distinct;
    if v in table && v != t.output {
      var w, i :| 0 <= w < |full| && 0 <= i < |full[w]| && full[w][i].value == v;
    }
  }

  lemma OneMoreTold(t: Task, log: Log, en: Entry, top: nat)
    requires t.WellFormed() && LogSound(t, log, top) && Sound(t, en, top)
    ensures LogSound(t, log + [en], top)
  {
    hide Sound;
    assert SoundUpTo(t, en, top);
  }

  lemma RuleDoneMonotone(r: Rule, args: seq<Bv>, b: Bank, s: nat, n: nat, known: set<Bv>, more: set<Bv>)
    requires BankLength(b, n) && 1 <= s <= |b| && known <= more && RuleDone(r, args, b, s, n, known)
    ensures RuleDone(r, args, b, s, n, more)
  {
    hide BinBv, UnBv;
    if r.BinaryRule? && !IsShift(r.bop) {
      forall i, j | 1 <= i && 1 <= j && i + j + Weight(r.bop) == s && PairsDone(r.bop, b[i], b[j], n, known)
        ensures PairsDone(r.bop, b[i], b[j], n, more) {
      }
    }
  }

  lemma PairsMonotone(op: BinOp, b: Bank, sum: nat, n: nat, known: set<Bv>, more: set<Bv>)
    requires BankLength(b, n) && sum <= |b| && known <= more
    ensures forall i, j | 1 <= i < |b| && 0 <= j < |b| && i + j == sum && PairsDone(op, b[i], b[j], n, known) ::
              PairsDone(op, b[i], b[j], n, more)
  {
  }

  lemma ClosedMonotone(t: Task, b: Bank, extra: set<Bv>, more: set<Bv>)
    requires BankLength(b, t.n) && extra <= more && Closed(t.config, t.args, b, t.n, extra)
    ensures Closed(t.config, t.args, b, t.n, more)
  {
    forall s, k | 1 <= s < |b| && 0 <= k < |t.config|
      ensures RuleDone(t.config[k], t.args, b, s, t.n, Known(b, s) + more)
    {
      RuleDoneMonotone(t.config[k], t.args, b, s, t.n, Known(b, s) + extra, Known(b, s) + more);
    }
  }

  /** The rules of round `s` only look at levels below `s`. */
  lemma RuleDoneBelow(r: Rule, args: seq<Bv>, b: Bank, l: Level, s: nat, n: nat, known: set<Bv>)
    requires BankLength(b, n) && LevelLength(l, n) && BankLength(b + [l], n) && 1 <= s <= |b|
    requires RuleDone(r, args, b, s, n, known)
    ensures RuleDone(r, args, b + [l], s, n, known)
  {
    hide BinBv, UnBv, Accounted;
    var b' := b + [l];
    assert forall w | 0 <= w < |b| :: b'[w] == b[w];
    if r.BinaryRule? && !IsShift(r.bop) {
      forall i, j | 1 <= i && 1 <= j && i + j + Weight(r.bop) == s && PairsDone(r.bop, b[i], b[j], n, known)
        ensures PairsDone(r.bop, b'[i], b'[j], n, known) {
      }
    }
  }

  lemma KnownBelow(b: Bank, l: Level, s: nat)
    requires s < |b|
    ensures Known(b + [l], s) == Known(b, s)
  {
    assert forall w | 0 <= w < |b| :: (b + [l])[w] == b[w];
    forall v | v in Known(b, s) ensures v in Known(b + [l], s) {
      var w, i :| 0 <= w <= s && 0 <= i < |b[w]| && b[w][i].value == v;
      assert (b + [l])[w][i].value == v;
    }
  }

  /** A finished round closes the bank one level higher. */
  lemma ClosedNext(t: Task, b: Bank, l: Level, extra: set<Bv>)
    requires BankLength(b, t.n) && LevelLength(l, t.n) && |b| >= 1
    requires Closed(t.config, t.args, b, t.n, extra)
    requires forall k | 0 <= k < |t.config| :: RuleDone(t.config[k], t.args, b, |b|, t.n, Known(b + [l], |b|) + extra)
    ensures BankLength(b + [l], t.n) && Closed(t.config, t.args, b + [l], t.n, extra)
  {
    hide RuleDone;
    assert BankLength(b + [l], t.n);
    forall s, k | 1 <= s <= |b| && 0 <= k < |t.config|
      ensures RuleDone(t.config[k], t.args, b + [l], s, t.n, Known(b + [l], s) + extra)
    {
      if s < |b| {
        KnownBelow(b, l, s);
        assert RuleDone(t.config[k], t.args, b, s, t.n, Known(b, s) + extra);
      }
      RuleDoneBelow(t.config[k], t.args, b, l, s, t.n, Known(b + [l], s) + extra);
    }
  }

  /** An empty level on top changes nothing. */
  lemma StoreNextLevel(t: Task, full: Bank, table: map<Bv, Option<Expr>>)
    requires t.WellFormed() && |full| >= 2 && StoreOk(t, full, table)
    ensures StoreOk(t, full + [[]], table)
    ensures table.Keys - {t.output} == Known(full, |full| - 1)
  {
    hide Sound;
    assert forall w | 0 <= w < |full| :: (full + [[]])[w] == full[w];
    forall v | v in Known(full, |full| - 1) ensures v in Known(full + [[]], |full|) && v in table && v != t.output {
      var w, i :| 0 <= w < |full| && 0 <= i < |full[w]| && full[w][i].value == v;
      assert (full + [[]])[w][i].value == v;
    }
  }

  lemma EntryLengths(t: Task, full: Bank, table: map<Bv, Option<Expr>>)
    requires t.WellFormed() && StoreOk(t, full, table)
    ensures BankLength(full, t.n)
  {
  }

  lemma StartsEmpty(t: Task, full: Bank, table: map<Bv, Option<Expr>>)
    requires t.WellFormed() && StoreOk(t, full, table)
    ensures full[0] == []
  {
  }

  lemma ExtendDerivation(t: Task, full: Bank, table: map<Bv, Option<Expr>>, w: nat, i: nat, op: UnOp)
    requires t.WellFormed() && StoreOk(t, full, table) && w < |full| && i < |full[w]| && UnaryRule(op) in t.config
    ensures Sound(t, Entry(Unary(op, full[w][i].expr), UnBv(op, full[w][i].value)), w + 1)
  {
  }

  lemma ShiftByDerivation(t: Task, full: Bank, table: map<Bv, Option<Expr>>, w: nat, i: nat, op: BinOp, c: bv64)
    requires t.WellFormed() && StoreOk(t, full, table) && w < |full| && i < |full[w]| && |full[w][i].value| == t.n
    requires ShiftByRule(op, c) in t.config
    ensures BinBv(op, full[w][i].value, Splat(t.n, c)).Some?
    ensures Sound(t, Entry(Binary(op, full[w][i].expr, Const(c)), BinBv(op, full[w][i].value, Splat(t.n, c)).value), w + 1)
  {
    hide Word;
    assert EvalBv(Const(c), t.args, t.n) == Some(Splat(t.n, c));
  }

  lemma PairDerivation(t: Task, full: Bank, table: map<Bv, Option<Expr>>, op: BinOp, w: nat, i: nat, u: nat, j: nat)
    requires t.WellFormed() && StoreOk(t, full, table) && BinaryRule(op) in t.config
    requires w < |full| && i < |full[w]| && u < |full| && j < |full[u]|
    requires |full[w][i].value| == |full[u][j].value| == t.n
    requires BinBv(op, full[w][i].value, full[u][j].value).Some?
    ensures !IsShift(op) ==>
              Sound(t, Entry(Binary(op, full[w][i].expr, full[u][j].expr), BinBv(op, full[w][i].value, full[u][j].value).value),
                    w + u + Weight(op))
    ensures IsShift(op) && u == 1 && full[u][j].expr.IsAtom() ==>
              Sound(t, Entry(Binary(op, full[w][i].expr, full[u][j].expr), BinBv(op, full[w][i].value, full[u][j].value).value),
                    w + Weight(op))
  {
    hide BinBv;
    assert Sound(t, full[w][i], w) && Sound(t, full[u][j], u);
    assert Splits(w + u + Weight(op), op, w, u);
  }

  /**
   What a run of rounds establishes about the sizes below `|b|`: the callback was told an expression with the
   output value exactly when the grammar has one, and otherwise every value of the grammar has a representative
   that is no larger than the expression.
   */
  ghost predicate Exhaustive(t: Task, b: Bank, log: Log)
    requires t.WellFormed()
  {
    && (t.output in Hit(log, t.output) <==> exists e, w: nat :: w < |b| && Sound(t, Entry(e, t.output), w))
    && (t.output !in Hit(log, t.output) ==>
          forall e, v, w: nat | w < |b| && Sound(t, Entry(e, v), w) :: Represented(b, w, v))
  }

  lemma DistinctBelow(t: Task, b: Bank, table: map<Bv, Option<Expr>>)
    requires t.WellFormed() && StoreOk(t, b + [[]], table)
    ensures Distinct(b)
  {
    assert forall w | 0 <= w < |b| :: (b + [[]])[w] == b[w];
  }

  lemma ClosedIsExhaustive(t: Task, b: Bank, table: map<Bv, Option<Expr>>, log: Log)
    requires t.WellFormed() && BankLength(b, t.n) && |b| >= 1 && StoreOk(t, b + [[]], table)
    requires Closed(t.config, t.args, b, t.n, Hit(log, t.output)) && LogSound(t, log, |b| - 1)
    ensures Exhaustive(t, b, log)
  {
    hide Closed;
    assert AtomsFirst(b) by {
      assert forall w | 0 <= w < |b| :: (b + [[]])[w] == b[w];
    }
    if t.output in Hit(log, t.output) {
      var i :| 0 <= i < |log| && log[i].value == t.output;
      assert SoundUpTo(t, log[i], |b| - 1);
    } else {
      assert Hit(log, t.output) == {};
      forall e, v, w: nat | w < |b| && Sound(t, Entry(e, v), w) ensures Represented(b, w, v) && v != t.output {
        Completeness(t.config, t.args, b, t.n, e, w);
        var u, i :| 0 <= u <= w && u < |b| && 0 <= i < |b[u]| && b[u][i].value == v;
        assert (b + [[]])[u][i].value == v;
      }
    }
  }

  // ---- the enumerator ----

  /**
   `Algo`.  The callback is a function of everything it was told before and of the new entry; `false` is
   the error that ends `run_until`.  `level` is the level that the current round is filling.
   */
  class Algo {
    const task: Task
    const callback: (Log, Entry) -> bool
    var exprs: Bank
    var level: Level
    var table: map<Bv, Option<Expr>>
    var counter2: nat
    var log: Log

    /** Values accounted for: every key of the map, but the output only once it was reported. */
    ghost function KnownKeys(): set<Bv>
      reads this
    {
      (table.Keys - {task.output}) + Hit(log, task.output)
    }

    ghost predicate Valid()
      reads this
    {
      && task.WellFormed()
      && LogSound(task, log, |exprs|)
      && StoreOk(task, exprs + [level], table)
      && BankLength(exprs, task.n)
      && Closed(task.config, task.args, exprs, task.n, Hit(log, task.output))
      && |exprs| >= 1
    }

    constructor (task: Task, callback: (Log, Entry) -> bool)
      requires task.WellFormed()
      ensures Valid() && exprs == [[]] && level == [] && log == [] && counter2 == 0
      ensures this.task == task && this.callback == callback
    {
      this.task, this.callback := task, callback;
      exprs, level, table, counter2, log := [[]], [], map[task.output := None], 0, [];
    }

    /** What a step keeps: the bank, what is accounted for, and what was reported. */
    ghost predicate Extends(bank: Bank, known: set<Bv>, reported: Log)
      reads this
    {
      exprs == bank && known <= KnownKeys() && reported <= log
    }

    /** The `insert!` macro: a new value is stored and reported, the output is only reported, anything else is dropped. */
    method Insert(e: Expr, v: Bv) returns (ok: bool)
      requires Valid() && Sound(task, Entry(e, v), |exprs|)
      requires |exprs| == 1 ==> e.IsAtom()
      modifies this`table, this`level, this`counter2, this`log
      ensures counter2 == old(counter2) + 1
      ensures table == if v in old(table) then old(table) else old(table)[v := Some(e)]
      ensures log == if v !in old(table) || v == task.output then old(log) + [Entry(e, v)] else old(log)
      ensures ok <==> (log == old(log) || callback(old(log), Entry(e, v)))
      ensures level == if ok && v !in old(table) then old(level) + [Entry(e, v)] else old(level)
      ensures task.WellFormed() && LogSound(task, log, |exprs|)
      ensures ok ==> Valid() && v in KnownKeys() && Extends(old(exprs), old(KnownKeys()), old(log))
    {
      hide EvalBv, Derives, Closed, StoreOk, Sound, SoundUpTo, LogSound;
      counter2 := counter2 + 1;
      ToldOnce(task, exprs + [level], table, v);
      OneMoreTold(task, log, Entry(e, v), |exprs|);
      if v !in table {
        StoreNew(task, exprs + [level], table, Entry(e, v));
        assert Append(exprs + [level], Entry(e, v)) == exprs + [level + [Entry(e, v)]];
        table := table[v := Some(e)];
        ok := callback(log, Entry(e, v));
        log := log + [Entry(e, v)];
        if !ok { return; }
        level := level + [Entry(e, v)];
      } else {
        ok := true;
        if table[v].None? {
          ok := callback(log, Entry(e, v));
          log := log + [Entry(e, v)];
          assert log[|log| - 1].value == v;
        }
      }
      assert Hit(old(log), task.output) <= Hit(log, task.output) by {
        assert forall i | 0 <= i < |old(log)| :: log[i] == old(log)[i];
      }
      ClosedMonotone(task, exprs, Hit(old(log), task.output), Hit(log, task.output));
    }

    /** What every loop of a round guarantees, whether or not the callback ended the run. */
    ghost predicate Outcome(ok: bool, bank: Bank, known: set<Bv>, reported: Log)
      reads this
    {
      && exprs == bank
      && task.WellFormed() && LogSound(task, log, |exprs|)
      && (ok ==> Valid() && Extends(bank, known, reported))
      && (!ok ==> Stopped(reported))
    }

    /** The callback was told something new and answered the last entry with an error. */
    ghost predicate Stopped(reported: Log)
      reads this
    {
      reported < log && !callback(log[..|log| - 1], log[|log| - 1])
    }

    /** `op1`: the operator on every entry of the last level. */
    method Op1(op: UnOp) returns (ok: bool)
      requires Valid() && UnaryRule(op) in task.config
      modifies this`table, this`level, this`counter2, this`log
      ensures Outcome(ok, old(exprs), old(KnownKeys()), old(log))
      ensures ok ==> UnaryDone(op, exprs[|exprs| - 1], KnownKeys())
    {
      hide UnBv, EvalBv, Derives, StoreOk, Closed, KnownKeys, UnaryDone, LogSound, Sound;
      ok := true;
      var last := exprs[|exprs| - 1];
      NothingDone(op, last, KnownKeys());
      for x := 0 to |last|
        invariant Valid() && Extends(old(exprs), old(KnownKeys()), old(log))
        invariant UnaryDone(op, last[..x], KnownKeys())
      {
        ghost var known := KnownKeys();
        ExtendDerivation(task, exprs + [level], table, |exprs| - 1, x, op);
        assert |exprs| == 1 ==> last == [] by { StartsEmpty(task, exprs + [level], table); }
        ok := Insert(Unary(op, last[x].expr), UnBv(op, last[x].value));
        if !ok { return; }
        OneMoreDone(op, last, x, known, KnownKeys());
      }
      assert last[..|last|] == last;
    }

    /** `op1_constant`: a shift by a fixed amount on every entry of the last level. */
    method Op1Constant(op: BinOp, c: bv64) returns (ok: bool)
      requires Valid() && ShiftByRule(op, c) in task.config
      modifies this`table, this`level, this`counter2, this`log
      ensures Outcome(ok, old(exprs), old(KnownKeys()), old(log))
      ensures ok ==> ShiftByDone(op, c, exprs[|exprs| - 1], task.n, KnownKeys())
    {
      hide BinBv, EvalBv, Derives, StoreOk, Closed, KnownKeys, Splat, ShiftByDone, LogSound, Sound;
      ok := true;
      var last := exprs[|exprs| - 1];
      NothingShifted(op, c, last, task.n, KnownKeys());
      for x := 0 to |last|
        invariant Valid() && Extends(old(exprs), old(KnownKeys()), old(log))
        invariant ShiftByDone(op, c, last[..x], task.n, KnownKeys())
      {
        ghost var known := KnownKeys();
        ShiftByDerivation(task, exprs + [level], table, |exprs| - 1, x, op, c);
        assert |exprs| == 1 ==> last == [] by { StartsEmpty(task, exprs + [level], table); }
        ok := Insert(Binary(op, last[x].expr, Const(c)), BinBv(op, last[x].value, Splat(task.n, c)).value);
        if !ok { return; }
        OneMoreShifted(op, c, last, x, task.n, known, KnownKeys());
      }
      assert last[..|last|] == last;
    }

    /** One operand pair: skipped when the divisor has a zero lane, inserted otherwise. */
    method Combine(op: BinOp, ghost i: nat, ghost x: nat, ghost j: nat, ghost y: nat, l: Entry, r: Entry) returns (ok: bool)
      requires Valid() && BinaryRule(op) in task.config
      requires 1 <= i < |exprs| && x < |exprs[i]| && 1 <= j < |exprs| && y < |exprs[j]|
      requires l == exprs[i][x] && r == exprs[j][y]
      requires if IsShift(op) then j == 1 && r.expr.IsAtom() && i + Weight(op) == |exprs| else i + j + Weight(op) == |exprs|
      modifies this`table, this`level, this`counter2, this`log
      ensures Outcome(ok, old(exprs), old(KnownKeys()), old(log))
      ensures ok ==> |l.value| == |r.value| == task.n && Accounted(BinBv(op, l.value, r.value), KnownKeys())
    {
      hide EvalBv, Derives, StoreOk, Closed, KnownKeys, Word;
      ok := true;
      assert LevelLength(exprs[i], task.n) && LevelLength(exprs[j], task.n);
      assert (exprs + [level])[i] == exprs[i] && (exprs + [level])[j] == exprs[j];
      if Divides(op) && !NoZeroLane(r.value) { return; }
      PairDerivation(task, exprs + [level], table, op, i, x, j, y);
      ok := Insert(Binary(op, l.expr, r.expr), BinBv(op, l.value, r.value).value);
    }

    /** Left operands from level `i` in the outer loop, right operands from level `j` in the inner one. */
    method Pairs(op: BinOp, i: nat, j: nat) returns (ok: bool)
      requires Valid() && BinaryRule(op) in task.config && !IsShift(op)
      requires 1 <= i < |exprs| && 1 <= j < |exprs| && i + j + Weight(op) == |exprs|
      modifies this`table, this`level, this`counter2, this`log
      ensures Outcome(ok, old(exprs), old(KnownKeys()), old(log))
      ensures ok ==> PairsDone(op, exprs[i], exprs[j], task.n, KnownKeys())
    {
      hide BinBv, StoreOk, Closed, KnownKeys, LogSound;
      ok := true;
      var l, r := exprs[i], exprs[j];
      for x := 0 to |l|
        invariant Valid() && Extends(old(exprs), old(KnownKeys()), old(log))
        invariant PairsDone(op, l[..x], r, task.n, KnownKeys())
      {
        for y := 0 to |r|
          invariant Valid() && Extends(old(exprs), old(KnownKeys()), old(log))
          invariant PairsDone(op, l[..x], r, task.n, KnownKeys())
          invariant PairsDone(op, [l[x]], r[..y], task.n, KnownKeys())
        {
          ok := Combine(op, i, x, j, y, l[x], r[y]);
          if !ok { return; }
          assert r[..y + 1] == r[..y] + [r[y]];
        }
        assert r[..|r|] == r;
        assert l[..x + 1] == l[..x] + [l[x]];
      }
      assert l[..|l|] == l;
    }

    /** The loops of `op2`: right operands from level `j` outside, left operands from level `i` inside. */
    method SwappedPairs(op: BinOp, i: nat, j: nat) returns (ok: bool)
      requires Valid() && BinaryRule(op) in task.config && !IsShift(op)
      requires 1 <= i < |exprs| && 1 <= j < |exprs| && i + j + Weight(op) == |exprs|
      modifies this`table, this`level, this`counter2, this`log
      ensures Outcome(ok, old(exprs), old(KnownKeys()), old(log))
      ensures ok ==> PairsDone(op, exprs[i], exprs[j], task.n, KnownKeys())
    {
      hide BinBv, StoreOk, Closed, KnownKeys, LogSound;
      ok := true;
      var l, r := exprs[i], exprs[j];
      for y := 0 to |r|
        invariant Valid() && Extends(old(exprs), old(KnownKeys()), old(log))
        invariant PairsDone(op, l, r[..y], task.n, KnownKeys())
      {
        for x := 0 to |l|
          invariant Valid() && Extends(old(exprs), old(KnownKeys()), old(log))
          invariant PairsDone(op, l, r[..y], task.n, KnownKeys())
          invariant PairsDone(op, l[..x], [r[y]], task.n, KnownKeys())
        {
          ok := Combine(op, i, x, j, y, l[x], r[y]);
          if !ok { return; }
          assert l[..x + 1] == l[..x] + [l[x]];
        }
        assert l[..|l|] == l;
        assert r[..y + 1] == r[..y] + [r[y]];
      }
      assert r[..|r|] == r;
    }

    /** The shift loop of `op2`: amounts are the variables and constants of the first level. */
    method ShiftPairs(op: BinOp, i: nat) returns (ok: bool)
      requires Valid() && BinaryRule(op) in task.config && IsShift(op)
      requires 1 <= i && 1 < |exprs| && i + Weight(op) == |exprs|
      modifies this`table, this`level, this`counter2, this`log
      ensures Outcome(ok, old(exprs), old(KnownKeys()), old(log))
      ensures ok ==> ShiftsDone(op, exprs[i], exprs[1], task.n, KnownKeys())
    {
      hide BinBv, StoreOk, Closed, KnownKeys, LogSound;
      ok := true;
      var l, r := exprs[i], exprs[1];
      for y := 0 to |r|
        invariant Valid() && Extends(old(exprs), old(KnownKeys()), old(log))
        invariant ShiftsDone(op, l, r[..y], task.n, KnownKeys())
      {
        assert r[..y + 1] == r[..y] + [r[y]];
        if r[y].expr.IsAtom() {
          for x := 0 to |l|
            invariant Valid() && Extends(old(exprs), old(KnownKeys()), old(log))
            invariant ShiftsDone(op, l, r[..y], task.n, KnownKeys())
            invariant ShiftsDone(op, l[..x], [r[y]], task.n, KnownKeys())
          {
            ok := Combine(op, i, x, 1, y, l[x], r[y]);
            if !ok { return; }
            assert l[..x + 1] == l[..x] + [l[x]];
          }
          assert l[..|l|] == l;
        }
      }
      assert r[..|r|] == r;
    }

    /** The middle level of `op2_sym`: each unordered pair once, then each entry with itself. */
    method Diagonal(op: BinOp, m: nat) returns (ok: bool)
      requires Valid() && BinaryRule(op) in task.config && Commutes(op)
      requires 1 <= m && m + m + 1 == |exprs|
      modifies this`table, this`level, this`counter2, this`log
      ensures Outcome(ok, old(exprs), old(KnownKeys()), old(log))
      ensures ok ==> DiagonalDone(op, exprs[m], task.n, KnownKeys())
    {
      hide BinBv, StoreOk, Closed, KnownKeys, LogSound, Accounted;
      ok := true;
      var l := exprs[m];
      for x := 0 to |l|
        invariant Valid() && Extends(old(exprs), old(KnownKeys()), old(log))
        invariant forall a, b | 0 <= a < x && a < b < |l| :: Accounted(BinBv(op, l[a].value, l[b].value), KnownKeys())
      {
        for y := x + 1 to |l|
          invariant Valid() && Extends(old(exprs), old(KnownKeys()), old(log))
          invariant forall a, b | 0 <= a < x && a < b < |l| :: Accounted(BinBv(op, l[a].value, l[b].value), KnownKeys())
          invariant forall b | x < b < y :: Accounted(BinBv(op, l[x].value, l[b].value), KnownKeys())
        {
          ghost var known := KnownKeys();
          ok := Combine(op, m, x, m, y, l[x], l[y]);
          if !ok { return; }
          AccountedLater(known, KnownKeys());
        }
      }
      ghost var known := KnownKeys();
      ok := Squares(op, m);
      if !ok { return; }
      AccountedLater(known, KnownKeys());
    }

    /** Every member of a level with itself. */
    method Squares(op: BinOp, m: nat) returns (ok: bool)
      requires Valid() && BinaryRule(op) in task.config && Commutes(op)
      requires 1 <= m && m + m + 1 == |exprs|
      modifies this`table, this`level, this`counter2, this`log
      ensures Outcome(ok, old(exprs), old(KnownKeys()), old(log))
      ensures ok ==> forall a | 0 <= a < |exprs[m]| :: Accounted(BinBv(op, exprs[m][a].value, exprs[m][a].value), KnownKeys())
    {
      hide BinBv, StoreOk, Closed, KnownKeys, LogSound, Accounted;
      ok := true;
      var l := exprs[m];
      for x := 0 to |l|
        invariant Valid() && Extends(old(exprs), old(KnownKeys()), old(log))
        invariant forall a | 0 <= a < x :: Accounted(BinBv(op, l[a].value, l[a].value), KnownKeys())
      {
        ghost var known := KnownKeys();
        ok := Combine(op, m, x, m, x, l[x], l[x]);
        if !ok { return; }
        AccountedLater(known, KnownKeys());
      }
    }

    /** The loop of `op2_sym` over the splits with the smaller left operand. */
    method Op2Uneven(op: BinOp) returns (ok: bool)
      requires Valid() && BinaryRule(op) in task.config && Commutes(op)
      modifies this`table, this`level, this`counter2, this`log
      ensures Outcome(ok, old(exprs), old(KnownKeys()), old(log))
      ensures ok ==> forall i, j | 1 <= i < CeilHalf(|exprs| - 1) && i + j == |exprs| - 1 ::
                       PairsDone(op, exprs[i], exprs[j], task.n, KnownKeys())
    {
      hide BinBv, StoreOk, Closed, KnownKeys, LogSound, Accounted;
      ok := true;
      var size, i := |exprs|, 1;
      while i < CeilHalf(size - 1)
        invariant 1 <= i && Valid() && Extends(old(exprs), old(KnownKeys()), old(log))
        invariant forall a, b | 1 <= a < i && a < CeilHalf(size - 1) && a + b == size - 1 ::
                    PairsDone(op, exprs[a], exprs[b], task.n, KnownKeys())
      {
        ghost var known := KnownKeys();
        ok := Pairs(op, i, size - 1 - i);
        if !ok { return; }
        PairsMonotone(op, exprs, size - 1, task.n, known, KnownKeys());
        i := i + 1;
      }
    }

    /** `op2_sym`. */
    method Op2Sym(op: BinOp) returns (ok: bool)
      requires Valid() && BinaryRule(op) in task.config && Commutes(op)
      modifies this`table, this`level, this`counter2, this`log
      ensures Outcome(ok, old(exprs), old(KnownKeys()), old(log))
      ensures ok ==> RuleDone(BinaryRule(op), task.args, exprs, |exprs|, task.n, KnownKeys())
    {
      hide BinBv, StoreOk, Closed, KnownKeys, LogSound, Accounted;
      var size := |exprs|;
      assert exprs[0] == [] by { StartsEmpty(task, exprs + [level], table); }
      ok := Op2Uneven(op);
      if !ok { return; }
      if (size - 1) % 2 == 0 && size > 1 {
        ghost var known := KnownKeys();
        ok := Diagonal(op, (size - 1) / 2);
        if !ok { return; }
        PairsMonotone(op, exprs, size - 1, task.n, known, KnownKeys());
      }
    }

    /** `op2` for an operator that is no shift, and `op2_nonzero`: every split of the size. */
    method Op2(op: BinOp) returns (ok: bool)
      requires Valid() && BinaryRule(op) in task.config && !Commutes(op) && !IsShift(op)
      modifies this`table, this`level, this`counter2, this`log
      ensures Outcome(ok, old(exprs), old(KnownKeys()), old(log))
      ensures ok ==> RuleDone(BinaryRule(op), task.args, exprs, |exprs|, task.n, KnownKeys())
    {
      hide BinBv, StoreOk, Closed, KnownKeys, LogSound, Accounted;
      ok := true;
      var size, l := |exprs|, Weight(op);
      if size <= l { return; }
      var i := 1;
      while i < size - l
        invariant 1 <= i && Valid() && Extends(old(exprs), old(KnownKeys()), old(log))
        invariant forall a, b | 1 <= a < i && 1 <= b && a + b == size - l ::
                    PairsDone(op, exprs[a], exprs[b], task.n, KnownKeys())
      {
        ghost var known := KnownKeys();
        if Divides(op) {
          ok := Pairs(op, i, size - l - i);
        } else {
          ok := SwappedPairs(op, i, size - l - i);
        }
        if !ok { return; }
        PairsMonotone(op, exprs, size - l, task.n, known, KnownKeys());
        i := i + 1;
      }
    }

    /** One rule of the grammar in the current round. */
    method ApplyRule(r: Rule) returns (ok: bool)
      requires Valid() && r in task.config
      modifies this`table, this`level, this`counter2, this`log
      ensures Outcome(ok, old(exprs), old(KnownKeys()), old(log))
      ensures ok ==> RuleDone(r, task.args, exprs, |exprs|, task.n, KnownKeys())
    {
      hide BinBv, UnBv, StoreOk, Closed, KnownKeys, LogSound, Accounted;
      ok := true;
      var size := |exprs|;
      match r
      case VarRule(i) =>
        if size == 1 { ok := Insert(Var(i), task.args[i]); }
      case ConstRule(c) =>
        if size == 1 { ok := Insert(Const(c), Splat(task.n, c)); }
      case UnaryRule(op) => ok := Op1(op);
      case ShiftByRule(op, c) => ok := Op1Constant(op, c);
      case BinaryRule(op) =>
        if IsShift(op) {
          if size > Weight(op) { ok := ShiftPairs(op, size - Weight(op)); }
        } else if Commutes(op) {
          ok := Op2Sym(op);
        } else {
          ok := Op2(op);
        }
      case IteRule =>
    }

    /** Between two rounds. */
    ghost predicate Idle()
      reads this
    {
      Valid() && level == [] && LogSound(task, log, |exprs| - 1)
    }

    /** One round: every rule once, then the new level joins the bank. */
    method Round() returns (ok: bool)
      requires Idle()
      modifies this
      ensures ok ==> Idle() && |exprs| == |old(exprs)| + 1 && old(exprs) <= exprs && old(log) <= log
      ensures !ok ==> Stopped(old(log))
      ensures task.WellFormed() && LogSound(task, log, |exprs|)
    {
      hide BinBv, StoreOk, Closed, KnownKeys, Accounted, RuleDone, LogSound;
      for k := 0 to |task.config|
        invariant Valid() && Extends(old(exprs), old(KnownKeys()), old(log))
        invariant forall j | 0 <= j < k :: RuleDone(task.config[j], task.args, exprs, |exprs|, task.n, KnownKeys())
      {
        ghost var known := KnownKeys();
        ok := ApplyRule(task.config[k]);
        if !ok { return; }
        forall j | 0 <= j < k ensures RuleDone(task.config[j], task.args, exprs, |exprs|, task.n, KnownKeys()) {
          RuleDoneMonotone(task.config[j], task.args, exprs, |exprs|, task.n, known, KnownKeys());
        }
      }
      ok := true;
      FinishRound();
    }

    /** `self.exprs.push(exprs)`. */
    method FinishRound()
      requires Valid()
      requires forall k | 0 <= k < |task.config| :: RuleDone(task.config[k], task.args, exprs, |exprs|, task.n, KnownKeys())
      modifies this`exprs, this`level
      ensures Idle() && exprs == old(exprs) + [old(level)]
    {
      hide RuleDone, Sound;
      EntryLengths(task, exprs + [level], table);
      StoreNextLevel(task, exprs + [level], table);
      assert level == (exprs + [level])[|exprs|];
      ClosedNext(task, exprs, level, Hit(log, task.output));
      exprs := exprs + [level];
      level := [];
    }

    /** `run_until`, followed for a given number of rounds; the original stops only when the callback errs. */
    method RunUntil(rounds: nat) returns (ok: bool)
      requires Idle()
      modifies this
      ensures ok ==> Idle() && |exprs| == |old(exprs)| + rounds && old(exprs) <= exprs && old(log) <= log
      ensures ok ==> Distinct(exprs) && Exhaustive(task, exprs, log)
      ensures !ok ==> Stopped(old(log))
      ensures task.WellFormed() && LogSound(task, log, |exprs|)
    {
      hide StoreOk, Closed, Exhaustive, Distinct;
      ok := true;
      for k := 0 to rounds
        invariant Idle() && |exprs| == |old(exprs)| + k && old(exprs) <= exprs && old(log) <= log
      {
        ok := Round();
        if !ok { return; }
      }
      ClosedIsExhaustive(task, exprs, table, log);
      DistinctBelow(task, exprs, table);
    }
  }
}
