/** The expressions that the long-arithmetic rewriter looks at, and what they come to. */
module LongExpressions {
  import opened Wrappers
  import opened MachineArithmetic

  datatype Op = IAdd | ISub | Shl | Shr | Sar | Or | Ne | Ult

  datatype Fn = AddC | SubC | RorC | RolC

  datatype Expr =
    | Leaf(id: nat, width: nat)
    | Const(value: nat, width: nat)
    | Binary(op: Op, left: Expr, right: Expr)
    | Neg(arg: Expr)
    | Seq(high: Expr, low: Expr)
    | Slice(width: nat, arg: Expr, offset: nat)
    | Apply(fn: Fn, left: Expr, right: Expr, carry: Expr)
    | Cond(arg: Expr)                    // all the flags that the computation of `arg` sets
    | Masked(arg: Expr, mask: nat)       // the flags that the mask selects
    | Convert(arg: Expr, width: nat)     // with zeros above, or without the upper bits

  function Width(e: Expr): nat {
    match e
    case Leaf(_, width) => width
    case Const(_, width) => width
    case Binary(_, left, _) => Width(left)
    case Neg(arg) => Width(arg)
    case Seq(high, low) => Width(high) + Width(low)
    case Slice(width, _, _) => width
    case Apply(_, left, _, _) => Width(left)
    case Cond(arg) => Width(arg)
    case Masked(arg, _) => Width(arg)
    case Convert(_, width) => width
  }

  /** How many different values the expression can have. */
  function Size(e: Expr): (r: nat)
    ensures r > 0
  {
    Pow2(Width(e))
  }

  type Env = nat -> nat

  /** An arithmetic shift right, one bit at a time: the top bit stays. */
  function Shifted(v: nat, w: nat, n: nat): nat {
    if n == 0 then v
    else
      var u := Shifted(v, w, n - 1);
      Quot(u, 2) + (if w > 0 && u >= Pow2(w - 1) then Pow2(w - 1) else 0)
  }

  /** What an operation makes of two numbers of `w` bits. */
  function Operate(op: Op, l: nat, r: nat, w: nat): nat {
    match op
    case IAdd => Rem(l + r, Pow2(w))
    case ISub => Rem(l - r, Pow2(w))
    case Shl => Rem(Times(l, Pow2(r)), Pow2(w))
    case Shr => Quot(l, Pow2(r))
    case Sar => Shifted(l, w, r)
    case Or => BitOr(l, r)
    case Ne => if l != r then 1 else 0
    case Ult => if l < r then 1 else 0
  }

  /** The carry or the borrow that it leaves behind. */
  function OperateCarry(op: Op, l: nat, r: nat, w: nat): int {
    match op
    case IAdd => Quot(l + r, Pow2(w))
    case ISub => 0 - Quot(l - r, Pow2(w))
    case Shl => if r == 1 then Quot(2 * l, Pow2(w)) else 0
    case Shr => if r == 1 then Rem(l, 2) else 0
    case Sar => if r == 1 then Rem(l, 2) else 0
    case Or => 0
    case Ne => if l != r then 1 else 0
    case Ult => if l < r then 1 else 0
  }

  /** The operations that take a carry. The rotations are by one bit. */
  function Extended(fn: Fn, l: nat, r: nat, c: nat, w: nat): nat {
    match fn
    case AddC => Rem(l + r + c, Pow2(w))
    case SubC => Rem(l - r - c, Pow2(w))
    case RorC => Quot(l, 2) + (if w == 0 then 0 else Times(c, Pow2(w - 1)))
    case RolC => Rem(2 * l + c, Pow2(w))
  }

  function ExtendedCarry(fn: Fn, l: nat, r: nat, c: nat, w: nat): int {
    match fn
    case AddC => Quot(l + r + c, Pow2(w))
    case SubC => 0 - Quot(l - r - c, Pow2(w))
    case RorC => Rem(l, 2)
    case RolC => Quot(2 * l + c, Pow2(w))
  }

  function Value(e: Expr, env: Env): nat
    decreases e, 0
  {
    match e
    case Leaf(id, width) => Rem(env(id), Pow2(width))
    case Const(value, _) => value
    case Binary(op, left, right) => Operate(op, Value(left, env), Value(right, env), Width(left))
    case Neg(arg) => Rem(0 - Value(arg, env), Size(arg))
    case Seq(high, low) => Times(Value(high, env), Size(low)) + Value(low, env)
    case Slice(width, arg, offset) => Rem(Quot(Value(arg, env), Pow2(offset)), Pow2(width))
    case Apply(fn, left, right, carry) =>
      Extended(fn, Value(left, env), Value(right, env), CarryIn(carry, env), Width(left))
    // flags that are used as an operand are used for their carry
    case Cond(arg) => Rem(CarryOut(arg, env), 2)
    case Masked(Cond(arg), _) => Rem(CarryOut(arg, env), 2)
    case Masked(_, _) => 0
    case Convert(arg, width) => Rem(Value(arg, env), Pow2(width))
  }

  function CarryOut(e: Expr, env: Env): int
    decreases e, 1
  {
    match e
    case Binary(op, left, right) => OperateCarry(op, Value(left, env), Value(right, env), Width(left))
    case Neg(arg) => 0 - Quot(0 - Value(arg, env), Size(arg))
    case Apply(fn, left, right, carry) =>
      ExtendedCarry(fn, Value(left, env), Value(right, env), CarryIn(carry, env), Width(left))
    // the carry out of the topmost bit that the slice takes of an operation
    case Slice(width, arg, offset) =>
      var top := offset + width;
      if top >= Width(arg) then CarryOut(arg, env)
      else if arg.Binary? then
        OperateCarry(arg.op, Rem(Value(arg.left, env), Pow2(top)), Rem(Value(arg.right, env), Pow2(top)), top)
      else 0
    case _ => 0
  }

  /** What an operation gets that takes the flags as its carry: always a bit. */
  function CarryIn(e: Expr, env: Env): (r: nat)
    ensures r <= 1
    decreases e, 2
  {
    match e
    case Cond(arg) => Rem(CarryOut(arg, env), 2)
    case Masked(Cond(arg), _) => Rem(CarryOut(arg, env), 2)
    case Binary(Ne, left, right) => if Value(left, env) != Value(right, env) then 1 else 0
    case _ => 0
  }

  /** The operands of every operation have the widths it needs. */
  predicate WellTyped(e: Expr) {
    match e
    case Leaf(_, width) => width > 0
    case Const(value, width) => width > 0 && value < Pow2(width)
    case Binary(op, left, right) =>
      WellTyped(left) && WellTyped(right) && (op == IAdd || op == ISub || op == Or ==> Width(left) == Width(right))
    case Neg(arg) => WellTyped(arg)
    case Seq(high, low) => WellTyped(high) && WellTyped(low)
    case Slice(width, arg, offset) => width > 0 && WellTyped(arg)
    case Apply(_, left, right, carry) => WellTyped(left) && WellTyped(right) && Width(left) == Width(right) && WellTyped(carry)
    case Cond(arg) => WellTyped(arg)
    case Masked(arg, _) => WellTyped(arg)
    case Convert(arg, width) => width > 0 && WellTyped(arg)
  }
}
