/** The simplification of a binary operation while its node is being made. */
module PeepholeOptimizers {
  import opened Wrappers
  import opened MachineArithmetic

  datatype Op = IAdd | ISub | And | Or | Xor | IMul | SMul | UMul | Other(id: nat)

  predicate IsSymmetric(op: Op) {
    op.IAdd? || op.IMul? || op.SMul? || op.UMul? || op.And? || op.Or? || op.Xor?
  }

  /** The bits of a constant, and whether its type is signed. */
  datatype Constant = Constant(bits: nat, signed: bool)

  /** Nodes are told apart by their numbers. */
  datatype Node =
    | Leaf(number: nat)
    | ConstantNode(number: nat, value: Constant)
    | BinaryNode(number: nat, op: Op, left: Node, right: Node)

  // ---- bits ----

  function BitAnd(a: nat, b: nat): nat {
    if a == 0 || b == 0 then 0
    else 2 * BitAnd(a / 2, b / 2) + (if a % 2 == 1 && b % 2 == 1 then 1 else 0)
  }

  function BitXor(a: nat, b: nat): nat {
    if a == 0 then b
    else if b == 0 then a
    else 2 * BitXor(a / 2, b / 2) + (if a % 2 != b % 2 then 1 else 0)
  }

  lemma {:induction false} BitsCommute(a: nat, b: nat)
    ensures BitAnd(a, b) == BitAnd(b, a) && BitOr(a, b) == BitOr(b, a) && BitXor(a, b) == BitXor(b, a)
  {
    OrCommutes(a, b);
    if a > 0 && b > 0 {
      BitsCommute(a / 2, b / 2);
    }
  }

  lemma {:induction false} BitsOfSame(a: nat)
    ensures BitAnd(a, a) == a && BitOr(a, a) == a && BitXor(a, a) == 0
  {
    if a > 0 {
      BitsOfSame(a / 2);
    }
  }

  lemma {:induction false} AndOfAllOnes(a: nat, n: nat)
    requires a < Pow2(n)
    ensures BitAnd(a, Pow2(n) - 1) == a
  {
    if a > 0 {
      AndOfAllOnes(a / 2, n - 1);
      assert (Pow2(n) - 1) / 2 == Pow2(n - 1) - 1;
    }
  }

  // ---- values of `n` bits ----

  /** What the leaves hold, and what the operations compute that the simplifier leaves alone. */
  datatype Env = Env(leaves: nat -> nat, others: (nat, nat, nat) -> nat)

  function Apply(op: Op, l: nat, r: nat, n: nat, env: Env): nat {
    match op
    case IAdd => Rem(l + r, Pow2(n))
    case ISub => Rem(l - r, Pow2(n))
    case And => BitAnd(l, r)
    case Or => BitOr(l, r)
    case Xor => BitXor(l, r)
    case IMul => Rem(Times(l, r), Pow2(n))
    case SMul => Rem(Times(l, r), Pow2(n))
    case UMul => Rem(Times(l, r), Pow2(n))
    case Other(id) => Rem(env.others(id, l, r), Pow2(n))
  }

  function Value(node: Node, n: nat, env: Env): nat {
    match node
    case Leaf(number) => Rem(env.leaves(number), Pow2(n))
    case ConstantNode(_, c) => c.bits
    case BinaryNode(_, op, left, right) => Apply(op, Value(left, n, env), Value(right, n, env), n, env)
  }

  /** Constants fit into the width of all the operations. */
  predicate InWidth(node: Node, n: nat) {
    match node
    case Leaf(_) => true
    case ConstantNode(_, c) => c.bits < Pow2(n)
    case BinaryNode(_, _, left, right) => InWidth(left, n) && InWidth(right, n)
  }

  lemma {:induction false} AndOrXorInRange(a: nat, b: nat, n: nat)
    requires a < Pow2(n) && b < Pow2(n)
    ensures BitAnd(a, b) < Pow2(n) && BitOr(a, b) < Pow2(n) && BitXor(a, b) < Pow2(n)
  {
    if a > 0 && b > 0 {
      AndOrXorInRange(a / 2, b / 2, n - 1);
    }
  }

  lemma {:induction false} ValueInRange(node: Node, n: nat, env: Env)
    requires InWidth(node, n)
    ensures Value(node, n, env) < Pow2(n)
  {
    hide Rem, Times, BitAnd, BitOr, BitXor;
    if node.BinaryNode? {
      ValueInRange(node.left, n, env);
      ValueInRange(node.right, n, env);
      AndOrXorInRange(Value(node.left, n, env), Value(node.right, n, env), n);
    }
  }

  // ---- constants ----

  predicate IsNegative(c: Constant, n: nat) {
    n > 0 && c.signed && c.bits >= Pow2(n - 1)
  }

  function Negate(c: Constant, n: nat): Constant {
    c.(bits := Rem(0 - c.bits, Pow2(n)))
  }

  predicate IsMaxUnsigned(c: Constant, n: nat) {
    c.bits == Pow2(n) - 1
  }

  /** Only additions and subtractions of constants are carried out on the way; others as they are. */
  function ApplyConstants(op: Op, a: Constant, b: Constant, n: nat, env: Env): Constant {
    Constant(Apply(op, a.bits, b.bits, n, env), a.signed)
  }

  // ---- the simplifier ----

  /** The constant that is added to or subtracted from `node`, if it is such an operation. */
  function InnerConstant(node: Node): Option<Constant> {
    if node.BinaryNode? && (node.op == IAdd || node.op == ISub) && node.right.ConstantNode?
    then Some(node.right.value) else None
  }

  /** Adding or subtracting the constant `c`, after what is left to be added has been worked out. */
  function WithConstant(op: Op, left: Node, c: Constant, n: nat, number: nat): Node
    requires op == IAdd || op == ISub
  {
    if c.bits == 0 then left
    else if IsNegative(c, n)
    then BinaryNode(number, if op == IAdd then ISub else IAdd, left, ConstantNode(number + 1, Negate(c, n)))
    else BinaryNode(number, op, left, ConstantNode(number + 1, c))
  }

  /** A node for the operation; new nodes are numbered from `number` on. */
  function Bin(op: Op, left0: Node, right0: Node, n: nat, env: Env, number: nat): Node {
    if left0.ConstantNode? && right0.ConstantNode? then
      ConstantNode(number, ApplyConstants(op, left0.value, right0.value, n, env))
    else
      // constants go to the right of symmetric operations
      var swap := IsSymmetric(op) && left0.ConstantNode?;
      var left, right := if swap then right0 else left0, if swap then left0 else right0;
      match op
      case IAdd =>
        if !right.ConstantNode? then BinaryNode(number, op, left, right)
        else
          var inner := InnerConstant(left);
          if inner.Some? then WithConstant(IAdd, left.left, ApplyConstants(left.op, right.value, inner.value, n, env), n, number)
          else WithConstant(IAdd, left, right.value, n, number)
      case ISub =>
        if left == right then ConstantNode(number, Constant(0, false))
        else if !right.ConstantNode? then BinaryNode(number, op, left, right)
        else
          var inner := InnerConstant(left);
          if inner.Some? then
            var opInv := if left.op == IAdd then ISub else IAdd;
            WithConstant(ISub, left.left, ApplyConstants(opInv, right.value, inner.value, n, env), n, number)
          else WithConstant(ISub, left, right.value, n, number)
      case And =>
        if left == right then left
        else if right.ConstantNode? && right.value.bits == 0 then ConstantNode(number, Constant(0, false))
        else if right.ConstantNode? && IsMaxUnsigned(right.value, n) then left
        else BinaryNode(number, op, left, right)
      case Or =>
        if left == right || (right.ConstantNode? && right.value.bits == 0) then left
        else BinaryNode(number, op, left, right)
      case Xor =>
        if left == right then ConstantNode(number, Constant(0, false))
        else if right.ConstantNode? && right.value.bits == 0 then left
        else BinaryNode(number, op, left, right)
      case _ => BinaryNode(number, op, left, right)
  }

  // ---- it preserves values ----

  lemma RemOf(a: int, m: int)
    requires m > 0
    ensures 0 <= a < m ==> Rem(a, m) == a
    ensures Rem(a, m) == Rem(a + m, m) == Rem(a - m, m)
  {
    hide Rem, Quot, Times;
    Division(a, m);
    TimesOne(m);
    TimesSum(Quot(a, m), 1, m);
    DivModIs(a + m, m, Quot(a, m) + 1, Rem(a, m));
    DivModIs(a - m, m, Quot(a, m) - 1, Rem(a, m));
    if 0 <= a < m {
      DivModIs(a, m, 0, a);
    }
  }

  lemma RemSum(a: int, b: int, m: int)
    requires m > 0
    ensures Rem(Rem(a, m) + b, m) == Rem(a + b, m) && Rem(a + Rem(b, m), m) == Rem(a + b, m)
    ensures Rem(a - Rem(b, m), m) == Rem(a - b, m)
  {
    hide Rem, Quot, Times;
    RemTwice(a, b, m);
    RemTwice(b, a, m);
    Division(b, m);
    Division(a - Rem(b, m), m);
    TimesSum(Quot(a - Rem(b, m), m), Quot(b, m), m);
    DivModIs(a - b, m, Quot(a - Rem(b, m), m) - Quot(b, m), Rem(a - Rem(b, m), m));
  }

  /** Adding a negative constant is subtracting its negation, and the other way round. */
  lemma {:induction false} WithConstantPreserves(op: Op, left: Node, c: Constant, n: nat, number: nat, env: Env)
    requires op == IAdd || op == ISub
    requires Value(left, n, env) < Pow2(n)
    ensures Value(WithConstant(op, left, c, n, number), n, env) == Apply(op, Value(left, n, env), c.bits, n, env)
  {
    hide Rem, Times, Pow2;
    var v, m: int := Value(left, n, env), Pow2(n);
    var b: int := c.bits;
    RemOf(v, m);
    RemSum(v, 0 - b, m);
    if b != 0 && IsNegative(c, n) {
      assert Value(ConstantNode(number + 1, Negate(c, n)), n, env) == Rem(0 - b, m);
    }
  }

  lemma {:induction false} AddPreserves(op: Op, left: Node, right: Constant, n: nat, env: Env, number: nat)
    requires op == IAdd || op == ISub
    requires InWidth(left, n) && InnerConstant(left).Some?
    ensures var inv := if op == IAdd then left.op else if left.op == IAdd then ISub else IAdd;
            var c := ApplyConstants(inv, right, InnerConstant(left).value, n, env);
            Value(WithConstant(op, left.left, c, n, number), n, env) == Apply(op, Value(left, n, env), right.bits, n, env)
  {
    hide Rem, Times, Pow2;
    var inv := if op == IAdd then left.op else if left.op == IAdd then ISub else IAdd;
    var i := InnerConstant(left).value;
    var c := ApplyConstants(inv, right, i, n, env);
    ValueInRange(left.left, n, env);
    WithConstantPreserves(op, left.left, c, n, number, env);
    var v: int, a: int, b: int, m := Value(left.left, n, env), i.bits, right.bits, Pow2(n);
    var inner: int, whole: int := if left.op == IAdd then v + a else v - a, if inv == IAdd then b + a else b - a;
    assert Value(left, n, env) == Rem(inner, m) && c.bits == Rem(whole, m);
    RemSum(inner, if op == IAdd then b else 0 - b, m);
    RemSum(v, whole, m);
  }

  /** Whatever is made of an operation has the operation's value, at every width. */
  lemma {:induction false} BinPreserves(op: Op, left: Node, right: Node, n: nat, env: Env, number: nat)
    requires InWidth(left, n) && InWidth(right, n)
    ensures Value(Bin(op, left, right, n, env, number), n, env) == Apply(op, Value(left, n, env), Value(right, n, env), n, env)
  {
    hide Rem, Times, Pow2, BitAnd, BitOr, BitXor, WithConstant;
    var l, r := Value(left, n, env), Value(right, n, env);
    ValueInRange(left, n, env);
    ValueInRange(right, n, env);
    if left.ConstantNode? && right.ConstantNode? {
    } else if left == right || (IsSymmetric(op) && left.ConstantNode?) {
      SwappedOrSame(op, l, r, n, env);
      SimplifiedPreserves(op, right, left, n, env, number);
    } else {
      SimplifiedPreserves(op, left, right, n, env, number);
    }
  }

  lemma SwappedOrSame(op: Op, l: nat, r: nat, n: nat, env: Env)
    requires IsSymmetric(op) || l == r
    ensures Apply(op, l, r, n, env) == Apply(op, r, l, n, env)
  {
    hide Rem, Times, Pow2, BitAnd, BitOr, BitXor;
    BitsCommute(l, r);
    TimesTimes(l, r, 1);
  }

  lemma {:induction false} SimplifiedPreserves(op: Op, left: Node, right: Node, n: nat, env: Env, number: nat)
    requires InWidth(left, n) && InWidth(right, n)
    requires !(left.ConstantNode? && (right.ConstantNode? || IsSymmetric(op)))
    ensures Value(Bin(op, left, right, n, env, number), n, env) == Apply(op, Value(left, n, env), Value(right, n, env), n, env)
  {
    hide Rem, Times, Pow2, BitAnd, BitOr, BitXor, WithConstant;
    var l, r := Value(left, n, env), Value(right, n, env);
    ValueInRange(left, n, env);
    ValueInRange(right, n, env);
    BitsOfSame(l);
    ZeroBits(l);
    AndOfAllOnes(l, n);
    RemOf(0, Pow2(n));
    if (op == IAdd || op == ISub) && left != right && right.ConstantNode? {
      if InnerConstant(left).Some? {
        AddPreserves(op, left, right.value, n, env, number);
      } else {
        WithConstantPreserves(op, left, right.value, n, number, env);
      }
    }
  }

  lemma ZeroBits(a: nat)
    ensures BitAnd(a, 0) == 0 && BitOr(a, 0) == a && BitXor(a, 0) == a
  {
  }
}
