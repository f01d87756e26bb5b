/** 64-bit expressions and their meaning on one example and on a vector of examples. */
module BvExpr {
  import opened Wrappers

  /** `Bv<N>`: one 64-bit word per sampled example (a lane). */
  type Bv = seq<bv64>

  datatype UnOp = Not | Neg
  datatype BinOp = Add | Xor | And | Or | Mul | Sub | UDiv | LShr | Shl | SDiv | URem | SRem | AShr

  datatype Expr =
    | Var(id: nat)
    | Const(value: bv64)
    | Unary(uop: UnOp, arg: Expr)
    | Binary(bop: BinOp, left: Expr, right: Expr)
    | Ite(cond: Expr, zero: Expr, nonzero: Expr)
  {
    predicate IsAtom() { Var? || Const? }
  }

  const ONES64: bv64 := 0xFFFF_FFFF_FFFF_FFFF

  // ---- one lane ----

  function UnLane(op: UnOp, a: bv64): bv64 {
    match op
    case Not => !a
    case Neg => 0 - a
  }

  predicate Negative(a: bv64) { a & 0x8000_0000_0000_0000 != 0 }

  function Magnitude(a: bv64): bv64 { if Negative(a) then 0 - a else a }

  function Down(a: bv64): bv64 { a - 1 }

  function Up(a: bv64): bv64 { a + 1 }

  /** The unsigned number of a word, counted down from the word itself. */
  function Num(a: bv64): nat
    decreases a
  {
    if a == 0 then 0 else Num(Down(a)) + 1
  }

  /** The word with number `n`, below 2^64. */
  function FromNum(n: nat): bv64 { if n == 0 then 0 else Up(FromNum(n - 1)) }

  function Quotient(a: bv64, b: bv64): bv64
    requires b != 0
  {
    FromNum(Num(a) / Num(b))
  }

  function Remainder(a: bv64, b: bv64): bv64
    requires b != 0
  {
    FromNum(Num(a) % Num(b))
  }

  function SignedDiv(a: bv64, b: bv64): bv64
    requires b != 0
  {
    var q := Quotient(Magnitude(a), Magnitude(b));
    if Negative(a) == Negative(b) then q else 0 - q
  }

  function SignedRem(a: bv64, b: bv64): bv64
    requires b != 0
  {
    var r := Remainder(Magnitude(a), Magnitude(b));
    if Negative(a) then 0 - r else r
  }

  /** Ones wherever `within` has none. */
  function Filled(a: bv64, within: bv64): bv64 { a | !within }

  function ArithmeticShift(a: bv64, b: bv64): bv64
    requires b < 64
  {
    if Negative(a) then Filled(a >> b, ONES64 >> b) else a >> b
  }

  predicate Divides(op: BinOp) { op.UDiv? || op.SDiv? || op.URem? || op.SRem? }
  predicate IsShift(op: BinOp) { op.LShr? || op.Shl? || op.AShr? }
  predicate Commutes(op: BinOp) { op.Add? || op.Xor? || op.And? || op.Or? || op.Mul? }

  /** One lane of a binary operator outside division by zero. */
  function Word(op: BinOp, a: bv64, b: bv64): bv64
    requires Divides(op) ==> b != 0
  {
    match op
    case Add => a + b
    case Xor => a ^ b
    case And => a & b
    case Or => a | b
    case Mul => a * b
    case Sub => a - b
    case UDiv => Quotient(a, b)
    case URem => Remainder(a, b)
    case SDiv => SignedDiv(a, b)
    case SRem => SignedRem(a, b)
    case LShr => if b >= 64 then 0 else a >> b
    case Shl => if b >= 64 then 0 else a << b
    case AShr => if b >= 64 then 0 else ArithmeticShift(a, b)
  }

  /** One lane of a binary operator; `None` is the division-by-zero error. */
  function BinLane(op: BinOp, a: bv64, b: bv64): Option<bv64> {
    if Divides(op) && b == 0 then None else Some(Word(op, a, b))
  }

  /** `op::ite` takes its second argument when the condition is zero. */
  function IteLane(c: bv64, z: bv64, nz: bv64): bv64 { if c == 0 then z else nz }

  /** The value on one example; `None` when a division by zero occurs anywhere or an argument is missing. */
  function Eval(e: Expr, args: seq<bv64>): Option<bv64> {
    match e
    case Var(i) => if i < |args| then Some(args[i]) else None
    case Const(c) => Some(c)
    case Unary(op, a) =>
      var v := Eval(a, args);
      if v.None? then None else Some(UnLane(op, v.value))
    case Binary(op, l, r) =>
      var v, w := Eval(l, args), Eval(r, args);
      if v.None? || w.None? then None else BinLane(op, v.value, w.value)
    case Ite(c, z, nz) =>
      var u, v, w := Eval(c, args), Eval(z, args), Eval(nz, args);
      if u.None? || v.None? || w.None? then None else Some(IteLane(u.value, v.value, w.value))
  }

  // ---- all lanes at once ----

  function Splat(n: nat, c: bv64): (v: Bv)
    ensures |v| == n
  {
    seq(n, _ => c)
  }

  function UnBv(op: UnOp, a: Bv): (v: Bv) { seq(|a|, i requires 0 <= i < |a| => UnLane(op, a[i])) }

  predicate NoZeroLane(b: Bv) { forall i | 0 <= i < |b| :: b[i] != 0 }

  function BinBv(op: BinOp, a: Bv, b: Bv): (v: Option<Bv>)
    requires |a| == |b|
  {
    if Divides(op) && !NoZeroLane(b) then None
    else Some(seq(|a|, i requires 0 <= i < |a| => Word(op, a[i], b[i])))
  }

  function IteBv(c: Bv, z: Bv, nz: Bv): (v: Bv)
    requires |c| == |z| == |nz|
  {
    seq(|c|, i requires 0 <= i < |c| => IteLane(c[i], z[i], nz[i]))
  }

  predicate ArgsOk(args: seq<Bv>, n: nat) { forall i | 0 <= i < |args| :: |args[i]| == n }

  /** `eval_bv` on `n` lanes; `None` where the program would panic. */
  function EvalBv(e: Expr, args: seq<Bv>, n: nat): (v: Option<Bv>)
    requires ArgsOk(args, n)
    ensures v.Some? ==> |v.value| == n
  {
    match e
    case Var(i) => if i < |args| then Some(args[i]) else None
    case Const(c) => Some(Splat(n, c))
    case Unary(op, a) =>
      var v := EvalBv(a, args, n);
      if v.None? then None else Some(UnBv(op, v.value))
    case Binary(op, l, r) =>
      var v, w := EvalBv(l, args, n), EvalBv(r, args, n);
      if v.None? || w.None? then None else BinBv(op, v.value, w.value)
    case Ite(c, z, nz) =>
      var u, v, w := EvalBv(c, args, n), EvalBv(z, args, n), EvalBv(nz, args, n);
      if u.None? || v.None? || w.None? then None else Some(IteBv(u.value, v.value, w.value))
  }

  /** The arguments of one lane. */
  function LaneArgs(args: seq<Bv>, n: nat, i: nat): seq<bv64>
    requires ArgsOk(args, n) && i < n
  {
    seq(|args|, j requires 0 <= j < |args| => args[j][i])
  }

  lemma {:induction false} EvalBvLane(e: Expr, args: seq<Bv>, n: nat, i: nat)
    requires ArgsOk(args, n) && i < n && EvalBv(e, args, n).Some?
    ensures Eval(e, LaneArgs(args, n, i)) == Some(EvalBv(e, args, n).value[i])
  {
    hide Word;
    match e
    case Var(_) =>
    case Const(_) =>
    case Unary(_, a) => EvalBvLane(a, args, n, i);
    case Binary(_, l, r) =>
      EvalBvLane(l, args, n, i);
      EvalBvLane(r, args, n, i);
    case Ite(c, z, nz) =>
      EvalBvLane(c, args, n, i);
      EvalBvLane(z, args, n, i);
      EvalBvLane(nz, args, n, i);
  }

  lemma {:induction false} FailingLane(e: Expr, args: seq<Bv>, n: nat) returns (i: nat)
    requires ArgsOk(args, n) && n > 0 && EvalBv(e, args, n).None?
    ensures i < n && Eval(e, LaneArgs(args, n, i)).None?
  {
    match e
    case Var(_) =>
      i := 0;
    case Const(_) => assert false;
    case Unary(_, a) => i := FailingLane(a, args, n);
    case Binary(_, l, r) =>
      if EvalBv(l, args, n).None? {
        i := FailingLane(l, args, n);
      } else if EvalBv(r, args, n).None? {
        i := FailingLane(r, args, n);
      } else {
        i :| 0 <= i < n && EvalBv(r, args, n).value[i] == 0;
        EvalBvLane(r, args, n, i);
      }
    case Ite(c, z, nz) =>
      if EvalBv(c, args, n).None? {
        i := FailingLane(c, args, n);
      } else if EvalBv(z, args, n).None? {
        i := FailingLane(z, args, n);
      } else {
        i := FailingLane(nz, args, n);
      }
  }

  /** `eval_bv` succeeds exactly when `eval` succeeds on every lane, and then agrees with it there. */
  lemma EvalBvIsLanewise(e: Expr, args: seq<Bv>, n: nat)
    requires ArgsOk(args, n) && n > 0
    ensures EvalBv(e, args, n).Some? <==> forall i | 0 <= i < n :: Eval(e, LaneArgs(args, n, i)).Some?
    ensures EvalBv(e, args, n).Some? ==>
              forall i | 0 <= i < n :: Eval(e, LaneArgs(args, n, i)) == Some(EvalBv(e, args, n).value[i])
  {
    if EvalBv(e, args, n).None? {
      var i := FailingLane(e, args, n);
    } else {
      forall i | 0 <= i < n ensures Eval(e, LaneArgs(args, n, i)) == Some(EvalBv(e, args, n).value[i]) {
        EvalBvLane(e, args, n, i);
      }
    }
  }

  lemma BinBvCommutes(op: BinOp, a: Bv, b: Bv)
    requires Commutes(op) && |a| == |b|
    ensures BinBv(op, a, b) == BinBv(op, b, a)
  {
    var x, y := BinBv(op, a, b).value, BinBv(op, b, a).value;
    assert forall i | 0 <= i < |a| :: x[i] == y[i];
    assert x == y;
  }
}
