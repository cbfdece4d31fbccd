/**
 Pairs of operations on a low and a high part that are fused into one operation on the whole. The
 rewriter's matchers are functions from what they look at to what they put in its place.
 */
module LongAddRewriters {
  import opened Wrappers
  import opened MachineArithmetic
  import opened LongExpressions

  /** The wide operation, and the two operations whose places its slices take. */
  datatype Fusion = Fusion(wide: Expr, high: Expr, highSlice: Expr, low: Expr, lowSlice: Expr)

  function Fuse(wide: Expr, high: Expr, highWidth: nat, low: Expr, lowWidth: nat): Fusion {
    Fusion(wide, high, Slice(highWidth, wide, lowWidth), low, Slice(lowWidth, wide, 0))
  }

  /** The slices have the values of what they replace. */
  ghost predicate Preserves(f: Fusion, env: Env) {
    Value(f.highSlice, env) == Value(f.high, env) && Value(f.lowSlice, env) == Value(f.low, env)
  }

  // ---- matchers ----

  function FlagsOf(carry: Expr): Option<Expr> {
    match carry
    case Cond(arg) => Some(arg)
    case Masked(Cond(arg), _) => Some(arg)
    case _ => None
  }

  function IsZero(e: Expr): bool {
    e.Const? && e.value == 0
  }

  function IsOne(e: Expr): bool {
    e.Const? && e.value == 1
  }

  function CarryOp(fn: Fn): Option<Op> {
    match fn
    case AddC => Some(IAdd)
    case SubC => Some(ISub)
    case _ => None
  }

  /** The operation that sets the flags; a slice of it is looked through. */
  function FlagSetter(carry: Expr): Option<Expr> {
    match FlagsOf(carry)
    case None => None
    case Some(Slice(_, arg, _)) => Some(arg)
    case Some(arg) => Some(arg)
  }

  /**
   An addition or subtraction with carry, whose carry comes from one of the low parts. If it has
   only one argument, `user` is the operation that adds or subtracts the other one.
   */
  function TryFuseAddSub(high: Expr, user: Option<Expr>): Option<Fusion> {
    if !high.Apply? || CarryOp(high.fn).None? then None
    else
      var op := CarryOp(high.fn).value;
      var flags := FlagSetter(high.carry);
      if flags.None? || !flags.value.Binary? || flags.value.op != op then None
      else
        var low := flags.value;
        var oneArgument :=
          && IsZero(high.right) && user.Some?
          && user.value.Binary? && user.value.op == op && user.value.left == high && FlagsOf(user.value.right).None?;
        var highRight := if oneArgument then user.value.right else high.right;
        var replaced := if oneArgument then user.value else high;
        Some(FuseParts(op, high.left, highRight, low, replaced))
  }

  /** The wide operation on a high part and a low part that is an operation of the same kind. */
  function FuseParts(op: Op, highLeft: Expr, highRight: Expr, low: Expr, replaced: Expr): Fusion
    requires low.Binary?
  {
    Fuse(Binary(op, Seq(highLeft, low.left), Seq(highRight, low.right)), replaced, Width(highLeft), low, Width(low.left))
  }

  /** Zero minus the high part minus the borrow of negating the low part, in its three guises. */
  function TryFuseNegation(high: Expr, negation: Option<Expr>): Option<Fusion> {
    match high
    case Apply(SubC, Const(0, _), hi, carry) =>
      var flags := FlagsOf(carry);
      if flags.None? || !flags.value.Neg? then None
      else Some(FuseNegation(high, hi, flags.value))
    case Apply(SubC, Neg(hi), Const(0, _), carry) =>
      var test := if carry.Cond? then carry.arg else carry;
      if !test.Binary? || test.op != Ne || !IsZero(test.right) then None
      else if test.left.Neg? then Some(FuseNegation(high, hi, test.left))
      else if negation.Some? && negation.value == Neg(test.left) then Some(FuseNegation(high, hi, negation.value))
      else None
    case _ => None
  }

  function FuseNegation(high: Expr, hi: Expr, low: Expr): Fusion
    requires low.Neg?
  {
    Fuse(Neg(Seq(hi, low.arg)), high, Width(hi), low, Width(low.arg))
  }

  /** Whether a negation is less than zero, without regard to the sign. */
  predicate ComparesNegation(e: Expr) {
    e.Binary? && e.op == Ult && e.left.Neg? && IsZero(e.right)
  }

  /** The same as a subtraction of the borrow, instead of one with a borrow. */
  function TryFuseNegationBySub(high: Expr): Option<Fusion> {
    match high
    case Binary(ISub, Neg(hi), carry) =>
      var flags := FlagsOf(carry);
      if flags.Some? && flags.value.Neg? then Some(FuseNegation(high, hi, flags.value))
      else if carry.Convert? && ComparesNegation(carry.arg) then Some(FuseNegation(high, hi, carry.arg.left))
      else None
    case _ => None
  }

  function TryFuseSarRorC(high: Expr, low: Expr): Option<Fusion> {
    match low
    case Apply(RorC, lo, amount, carry) =>
      var flags := FlagsOf(carry);
      if flags.None? || flags.value != high || !high.Binary? || (high.op != Sar && high.op != Shr) then None
      else if !IsOne(high.right) || !IsOne(amount) then None
      else Some(Fuse(Binary(high.op, Seq(high.left, lo), high.right), high, Width(high.left), low, Width(lo)))
    case _ => None
  }

  function TryFuseShlRolC(high: Expr, low: Expr): Option<Fusion> {
    match high
    case Apply(RolC, hi, amount, carry) =>
      var flags := FlagsOf(carry);
      if flags.None? || flags.value != low || !low.Binary? || low.op != Shl then None
      else if !IsOne(low.right) || !IsOne(amount) then None
      else Some(Fuse(Binary(Shl, Seq(hi, low.left), low.right), high, Width(hi), low, Width(low.left)))
    case _ => None
  }

  /** A shift right of the low part, and a shift left of what is spilled into it from the high part. */
  predicate IsShiftAndSpill(shift: Expr, spill: Expr) {
    shift.Binary? && (shift.op == Shr || shift.op == Sar) && spill.Binary? && spill.op == Shl
  }

  predicate IsComplementary(spillAmount: Expr, amount: Expr, bits: nat) {
    match spillAmount
    case Binary(IAdd, Neg(amount'), Const(value, _)) => amount' == amount && value == bits
    case _ => false
  }

  function FuseShifts(low: Expr, shift: Expr, spill: Expr, high: Expr): Option<Fusion>
    requires IsShiftAndSpill(shift, spill)
  {
    var lo, amount, hi := shift.left, shift.right, spill.left;
    if IsComplementary(spill.right, amount, Width(lo)) && high == Binary(shift.op, hi, amount)
    then Some(Fuse(Binary(shift.op, Seq(hi, lo), amount), high, Width(hi), low, Width(lo)))
    else None
  }

  /** What is shifted out of the high part is or-ed into the low part, on either side. */
  function TryFuseLongShiftRight(low: Expr, high: Expr): Option<Fusion> {
    if !low.Binary? || low.op != Or then None
    else if IsShiftAndSpill(low.left, low.right) then FuseShifts(low, low.left, low.right, high)
    else if IsShiftAndSpill(low.right, low.left) then FuseShifts(low, low.right, low.left, high)
    else None
  }

  // ---- values are in range ----

  lemma {:induction false} ShiftedInRange(v: nat, w: nat, n: nat)
    requires v < Pow2(w)
    ensures Shifted(v, w, n) < Pow2(w)
  {
    hide Quot, Rem;
    if n > 0 {
      ShiftedInRange(v, w, n - 1);
      var u := Shifted(v, w, n - 1);
      Half(u);
    }
  }

  lemma Half(u: nat)
    ensures Quot(u, 2) * 2 <= u < Quot(u, 2) * 2 + 2
  {
  }

  lemma {:induction false} OrInRange(a: nat, b: nat, w: nat)
    requires a < Pow2(w) && b < Pow2(w)
    ensures BitOr(a, b) < Pow2(w)
  {
    if a > 0 && b > 0 {
      OrInRange(a / 2, b / 2, w - 1);
    }
  }

  lemma QuotAtMost(a: nat, m: nat)
    requires m > 0
    ensures 0 <= Quot(a, m) <= a
  {
    hide Times, Quot, Rem;
    Division(a, m);
    var q := Quot(a, m);
    TimesTimes(q, m, 1);
    TimesGrows(1, m, q);
    TimesOne(q);
  }

  lemma {:induction false} ValueInRange(e: Expr, env: Env)
    requires WellTyped(e)
    ensures Value(e, env) < Size(e) && Width(e) > 0
  {
    hide Times, Quot, Rem, BitOr, Shifted;
    match e
    case Leaf(_, _) =>
    case Const(_, _) =>
    case Binary(op, left, right) =>
      ValueInRange(left, env);
      ValueInRange(right, env);
      OperateInRange(op, Value(left, env), Value(right, env), Width(left));
    case Neg(arg) => ValueInRange(arg, env);
    case Seq(high, low) =>
      ValueInRange(high, env);
      ValueInRange(low, env);
      Pow2Add(Width(high), Width(low));
      Parts(Value(high, env), Value(low, env), Size(high), Size(low));
    case Slice(_, arg, _) => ValueInRange(arg, env);
    case Apply(fn, left, right, carry) =>
      ValueInRange(left, env);
      if fn == RorC {
        Half(Value(left, env));
        TimesOne(Pow2(Width(left) - 1));
        TimesGrows(CarryIn(carry, env), 1, Pow2(Width(left) - 1));
      }
    case Cond(arg) => ValueInRange(arg, env); AtLeastTwo(Width(arg));
    case Masked(arg, _) => ValueInRange(arg, env); AtLeastTwo(Width(arg));
    case Convert(_, _) =>
  }

  lemma AtLeastTwo(w: nat)
    requires w > 0
    ensures Pow2(w) >= 2 && Pow2(w) == 2 * Pow2(w - 1)
  {
  }

  lemma OperateInRange(op: Op, l: nat, r: nat, w: nat)
    requires w > 0 && l < Pow2(w) && (op == Or ==> r < Pow2(w))
    ensures Operate(op, l, r, w) < Pow2(w)
  {
    hide Times, Quot, Rem, BitOr, Shifted;
    match op
    case IAdd =>
    case ISub =>
    case Shl =>
    case Shr => QuotAtMost(l, Pow2(r));
    case Sar => ShiftedInRange(l, w, r);
    case Or => OrInRange(l, r, w);
    case Ne =>
    case Ult =>
  }

  // ---- addition and subtraction ----

  function CarryFn(op: Op): Fn {
    if op == IAdd then AddC else SubC
  }

  /** The sum or difference of three numbers before it is reduced. */
  function Combine(op: Op, l: int, r: int, c: int): int {
    if op == IAdd then l + r + c else l - r - c
  }

  /** What is carried out of an addition or borrowed by a subtraction is a bit. */
  lemma CarryIsBit(op: Op, l: nat, r: nat, c: nat, m: nat)
    requires op == IAdd || op == ISub
    requires l < m && r < m && c <= 1
    ensures var q := Quot(Combine(op, l, r, c), m); 0 <= (if op == IAdd then q else -q) <= 1
  {
    hide Quot, Times, Rem;
    var s := Combine(op, l, r, c);
    TimesOne(m);
    TimesSum(0, 1, m);
    if s >= m {
      DivModIs(s, m, 1, s - m);
    } else if s >= 0 {
      DivModIs(s, m, 0, s);
    } else {
      DivModIs(s, m, -1, s + m);
    }
  }

  /** A wide addition or subtraction is one of the low parts and one with its carry of the high parts. */
  lemma WideAddSub(op: Op, hl: nat, hr: nat, ll: nat, lr: nat, wh: nat, wl: nat)
    requires op == IAdd || op == ISub
    requires hl < Pow2(wh) && hr < Pow2(wh) && ll < Pow2(wl) && lr < Pow2(wl)
    ensures var c := OperateCarry(op, ll, lr, wl);
            var x, y := Times(hl, Pow2(wl)) + ll, Times(hr, Pow2(wl)) + lr;
            && 0 <= c <= 1
            && Operate(op, x, y, wh + wl) == Times(Extended(CarryFn(op), hl, hr, c, wh), Pow2(wl)) + Operate(op, ll, lr, wl)
            && OperateCarry(op, x, y, wh + wl) == ExtendedCarry(CarryFn(op), hl, hr, c, wh)
  {
    hide Times, Quot, Rem, Pow2;
    var h, b := Pow2(wh), Pow2(wl);
    CarryIsBit(op, ll, lr, 0, b);
    Pow2Add(wh, wl);
    TimesSum(hl, hr, b);
    Carry(Combine(op, hl, hr, 0), Combine(op, ll, lr, 0), h, b);
  }

  /** The slices of a whole are its parts. */
  lemma {:induction false} SlicesAreParts(wide: Expr, hi: nat, lo: nat, wh: nat, wl: nat, env: Env)
    requires hi < Pow2(wh) && lo < Pow2(wl) && Value(wide, env) == Times(hi, Pow2(wl)) + lo
    ensures Value(Slice(wh, wide, wl), env) == hi && Value(Slice(wl, wide, 0), env) == lo
  {
    hide Times, Quot, Rem;
    Parts(hi, lo, Pow2(wh), Pow2(wl));
    TimesOne(Value(wide, env));
    DivModIs(Value(wide, env), 1, Value(wide, env), 0);
  }

  /** The carry that the high part takes is the one that its low part carries out. */
  ghost predicate TakesCarryOf(high: Expr, low: Expr, env: Env)
    requires high.Apply?
  {
    CarryIn(high.carry, env) == Rem(CarryOut(low, env), 2)
  }

  /** It is so unless the flags are those of a slice that does not reach the top of the low part. */
  lemma {:induction false} TakesCarry(high: Expr, user: Option<Expr>, env: Env)
    requires TryFuseAddSub(high, user).Some?
    ensures var flags := FlagsOf(high.carry).value;
            !flags.Slice? || flags.offset + flags.width >= Width(flags.arg) ==>
              TakesCarryOf(high, TryFuseAddSub(high, user).value.low, env)
  {
    hide Times, Quot, Rem, BitOr, Shifted, Pow2, Operate, OperateCarry, Extended, ExtendedCarry, CarryOut, Width;
    var flags := FlagsOf(high.carry).value;
    assert CarryIn(high.carry, env) == Rem(CarryOut(flags, env), 2);
    if flags.Slice? {
      SliceCarry(flags, env);
    }
  }

  lemma {:induction false} SliceCarry(e: Expr, env: Env)
    requires e.Slice?
    ensures e.offset + e.width >= Width(e.arg) ==> CarryOut(e, env) == CarryOut(e.arg, env)
  {
    hide Times, Quot, Rem, BitOr, Shifted, Pow2, Operate, OperateCarry, Extended, ExtendedCarry;
  }

  /**
   Fusing keeps the values, at all widths and for all operands, exactly if the high part takes the
   carry of the low part, and then the carry as well.
   */
  lemma {:induction false} FuseAddSubPreserves(high: Expr, env: Env)
    requires WellTyped(high) && TryFuseAddSub(high, None).Some?
    ensures var f := TryFuseAddSub(high, None).value;
            && f.high == high && WellTyped(f.wide)
            && (Preserves(f, env) <==> TakesCarryOf(high, f.low, env))
            && (TakesCarryOf(high, f.low, env) ==> CarryOut(f.wide, env) == CarryOut(high, env))
  {
    hide Times, Quot, Rem, BitOr, Shifted, Pow2, Extended, ExtendedCarry, Operate, OperateCarry;
    SetterTyped(high.carry);
    var low := FlagSetter(high.carry).value;
    FusedParts(low.op, high.left, high.right, low, high, env);
    ValueInRange(high.left, env);
    SameCarrySameSum(low.op, Value(high.left, env), Value(high.right, env), Rem(CarryOut(low, env), 2),
                     CarryIn(high.carry, env), Width(high.left));
    HighValue(high, env);
  }

  lemma {:induction false} HighValue(high: Expr, env: Env)
    requires high.Apply?
    ensures var l, r, c := Value(high.left, env), Value(high.right, env), CarryIn(high.carry, env);
            && Value(high, env) == Extended(high.fn, l, r, c, Width(high.left))
            && CarryOut(high, env) == ExtendedCarry(high.fn, l, r, c, Width(high.left))
  {
    hide Times, Quot, Rem, BitOr, Shifted, Pow2, Extended, ExtendedCarry, Operate, OperateCarry;
  }

  lemma {:induction false} SetterTyped(carry: Expr)
    requires WellTyped(carry) && FlagSetter(carry).Some?
    ensures WellTyped(FlagSetter(carry).value)
  {
    FlagsTyped(carry);
  }

  /** Two sums or differences that take a carry are the same exactly if the carries are. */
  lemma SameCarrySameSum(op: Op, l: nat, r: nat, c: nat, c': nat, w: nat)
    requires (op == IAdd || op == ISub) && w > 0 && c <= 1 && c' <= 1
    ensures Extended(CarryFn(op), l, r, c, w) == Extended(CarryFn(op), l, r, c', w) <==> c == c'
  {
    hide Times, Quot, Rem, Pow2;
    AtLeastTwo(w);
    DiffersByOne(Combine(op, l, r, 0), Pow2(w));
    DiffersByOne(Combine(op, l, r, 0) + 1, Pow2(w));
  }

  lemma {:induction false} FlagsTyped(carry: Expr)
    requires WellTyped(carry) && FlagsOf(carry).Some?
    ensures WellTyped(FlagsOf(carry).value)
  {
  }

  /** The slices and the carry of the wide operation, in terms of its four operands. */
  lemma {:induction false} FusedParts(op: Op, highLeft: Expr, highRight: Expr, low: Expr, replaced: Expr, env: Env)
    requires (op == IAdd || op == ISub) && low.Binary? && low.op == op
    requires WellTyped(highLeft) && WellTyped(highRight) && Width(highLeft) == Width(highRight) && WellTyped(low)
    ensures var f, c, w := FuseParts(op, highLeft, highRight, low, replaced), Rem(CarryOut(low, env), 2), Width(highLeft);
            var l, r := Value(highLeft, env), Value(highRight, env);
            && w > 0 && WellTyped(f.wide) && Width(f.wide) == w + Width(low)
            && Value(f.wide, env) == Times(Extended(CarryFn(op), l, r, c, w), Size(low)) + Value(low, env)
            && Value(f.highSlice, env) == Extended(CarryFn(op), l, r, c, w) < Pow2(w)
            && Value(f.lowSlice, env) == Value(low, env) < Size(low)
            && CarryOut(f.wide, env) == ExtendedCarry(CarryFn(op), l, r, c, w)
  {
    hide Times, Quot, Rem, BitOr, Shifted, Pow2;
    var wh, wl := Width(highLeft), Width(low.left);
    ValueInRange(highLeft, env);
    ValueInRange(highRight, env);
    ValueInRange(low.left, env);
    ValueInRange(low.right, env);
    ValueInRange(low, env);
    var hl, hr, ll, lr := Value(highLeft, env), Value(highRight, env), Value(low.left, env), Value(low.right, env);
    WideAddSub(op, hl, hr, ll, lr, wh, wl);
    SmallRem(OperateCarry(op, ll, lr, wl));
    var wide := Binary(op, Seq(highLeft, low.left), Seq(highRight, low.right));
    assert Width(wide) == wh + wl;
    assert Value(wide, env) == Operate(op, Times(hl, Pow2(wl)) + ll, Times(hr, Pow2(wl)) + lr, wh + wl);
    var v := Extended(CarryFn(op), hl, hr, Rem(CarryOut(low, env), 2), wh);
    SlicesAreParts(wide, v, Value(low, env), wh, wl, env);
  }

  lemma SmallRem(c: int)
    requires 0 <= c <= 1
    ensures Rem(c, 2) == c
  {
  }

  /**
   The form with one argument: what is added or subtracted next is the high part's other operand. The
   wide operation carries out what the two steps carry out between them, so that the flags of either
   step alone, which become those of the wide operation, are right exactly if the other one has no carry.
   */
  lemma {:induction false} FuseOneArgumentPreserves(high: Expr, user: Expr, env: Env)
    requires user.Binary? && WellTyped(user)
    requires TryFuseAddSub(high, Some(user)).Some? && TryFuseAddSub(high, Some(user)).value.high == user
    ensures var f := TryFuseAddSub(high, Some(user)).value;
            && WellTyped(f.wide)
            && (Preserves(f, env) <==> TakesCarryOf(high, f.low, env))
            && (TakesCarryOf(high, f.low, env) ==> CarryOut(f.wide, env) == CarryOut(high, env) + CarryOut(user, env))
  {
    hide Times, Quot, Rem, BitOr, Shifted, Pow2, Extended, ExtendedCarry, Operate, OperateCarry;
    SetterTyped(high.carry);
    var low := FlagSetter(high.carry).value;
    FusedParts(low.op, high.left, user.right, low, user, env);
    ValueInRange(high.left, env);
    var l, r, c, w := Value(high.left, env), Value(user.right, env), CarryIn(high.carry, env), Width(high.left);
    HighValue(high, env);
    OneAtATime(low.op, l, r, c, w);
    assert Value(user, env) == Operate(low.op, Value(high, env), r, w);
    assert CarryOut(user, env) == OperateCarry(low.op, Value(high, env), r, w);
    SameCarrySameSum(low.op, l, r, Rem(CarryOut(low, env), 2), c, w);
  }

  /** Taking the carry first and the other operand then. */
  lemma OneAtATime(op: Op, l: nat, r: nat, c: nat, w: nat)
    requires op == IAdd || op == ISub
    ensures var u := Extended(CarryFn(op), l, 0, c, w);
            && Extended(CarryFn(op), l, r, c, w) == Operate(op, u, r, w)
            && ExtendedCarry(CarryFn(op), l, r, c, w) == ExtendedCarry(CarryFn(op), l, 0, c, w) + OperateCarry(op, u, r, w)
  {
    hide Times, Quot, Rem, Pow2;
    var a, b := Combine(op, l, 0, c), Combine(op, 0, r, 0);
    RemTwice(a, b, Pow2(w));
    QuotOfSum(a, b, Pow2(w));
  }

  lemma QuotOfSum(a: int, b: int, m: nat)
    requires m > 0
    ensures Quot(a + b, m) == Quot(a, m) + Quot(Rem(a, m) + b, m)
  {
    hide Times, Quot, Rem;
    Division(a, m);
    Division(Rem(a, m) + b, m);
    TimesSum(Quot(a, m), Quot(Rem(a, m) + b, m), m);
    DivModIs(a + b, m, Quot(a, m) + Quot(Rem(a, m) + b, m), Rem(Rem(a, m) + b, m));
  }

  // ---- negation ----

  lemma BorrowOfNegation(v: nat, m: nat)
    requires v < m
    ensures 0 - Quot(0 - v, m) == (if v == 0 then 0 else 1)
    ensures Rem(0 - v, m) == (if v == 0 then 0 else m - v)
  {
    hide Times, Quot, Rem;
    TimesOne(m);
    TimesSum(0, 1, m);
    if v == 0 {
      DivModIs(0, m, 0, 0);
    } else {
      DivModIs(0 - v, m, -1, m - v);
    }
  }

  /** A wide negation is one of the low part and one that takes its borrow of the high part. */
  lemma WideNeg(x: int, y: int, wh: nat, wl: nat)
    requires 0 <= x < Pow2(wh) && 0 <= y < Pow2(wl)
    ensures Rem(0 - (Times(x, Pow2(wl)) + y), Pow2(wh + wl)) ==
            Times(Rem(0 - x - (if y == 0 then 0 else 1), Pow2(wh)), Pow2(wl)) + Rem(0 - y, Pow2(wl))
  {
    hide Times, Quot, Rem, Pow2;
    var h, b := Pow2(wh), Pow2(wl);
    Pow2Add(wh, wl);
    BorrowOfNegation(y, b);
    TimesSum(0, x, b);
    TimesOne(b);
    Carry(0 - x, 0 - y, h, b);
  }

  lemma {:induction false} NegationParts(high: Expr, hi: Expr, low: Expr, env: Env)
    requires low.Neg? && WellTyped(hi) && WellTyped(low)
    ensures var f := FuseNegation(high, hi, low);
            && Value(f.lowSlice, env) == Value(low, env)
            && Value(f.highSlice, env) == Rem(0 - Value(hi, env) - (if Value(low.arg, env) == 0 then 0 else 1), Size(hi))
  {
    hide Times, Quot, Rem, BitOr, Shifted, Pow2, Value, WellTyped, Width;
    NegTyped(low);
    ValueInRange(hi, env);
    ValueInRange(low.arg, env);
    ValueInRange(low, env);
    NegationValues(hi, low.arg, env);
    var x: int, y: int := Value(hi, env), Value(low.arg, env);
    WideNeg(x, y, Width(hi), Width(low.arg));
    var z := Rem(0 - x - (if y == 0 then 0 else 1), Size(hi));
    SlicesAreParts(Neg(Seq(hi, low.arg)), z, Value(low, env), Width(hi), Width(low.arg), env);
  }

  lemma {:induction false} NegTyped(low: Expr)
    requires low.Neg? && WellTyped(low)
    ensures WellTyped(low.arg)
  {
  }

  lemma {:induction false} NegationValues(hi: Expr, lo: Expr, env: Env)
    ensures var z: int := Times(Value(hi, env), Size(lo)) + Value(lo, env);
            Value(Neg(Seq(hi, lo)), env) == Rem(0 - z, Pow2(Width(hi) + Width(lo)))
    ensures var y: int := Value(lo, env); Value(Neg(lo), env) == Rem(0 - y, Size(lo))
    ensures Width(Neg(lo)) == Width(lo)
  {
    hide Times, Quot, Rem, BitOr, Shifted, Pow2, Operate, Extended, OperateCarry, ExtendedCarry;
  }

  lemma {:induction false} FuseNegationPreserves(high: Expr, negation: Option<Expr>, env: Env)
    requires WellTyped(high) && (negation.Some? ==> WellTyped(negation.value)) && TryFuseNegation(high, negation).Some?
    ensures Preserves(TryFuseNegation(high, negation).value, env)
  {
    hide Times, Quot, Rem, BitOr, Shifted, Pow2, Value, Width;
    match high
    case Apply(SubC, Const(0, _), hi, carry) =>
      FlagsTyped(carry);
      BorrowedByNegation(FlagsOf(carry).value, carry, env);
      NegationParts(high, hi, FlagsOf(carry).value, env);
      FromZero(high, env);
    case Apply(SubC, Neg(hi), Const(0, _), carry) =>
      var test := if carry.Cond? then carry.arg else carry;
      NotZero(test, carry, env);
      FromNegation(high, env);
      assert WellTyped(test) && WellTyped(test.left);
      if test.left.Neg? {
        NegationOfZero(test.left, env);
        NegationParts(high, hi, test.left, env);
      } else {
        NegationParts(high, hi, negation.value, env);
      }
  }

  lemma {:induction false} FromZero(high: Expr, env: Env)
    requires WellTyped(high) && high.Apply? && high.fn == SubC && IsZero(high.left)
    ensures var v: int, c: int := Value(high.right, env), CarryIn(high.carry, env);
            Value(high, env) == Rem(0 - v - c, Size(high.right))
  {
    hide Times, Quot, Rem, BitOr, Shifted, Pow2;
  }

  lemma {:induction false} FromNegation(high: Expr, env: Env)
    requires WellTyped(high) && high.Apply? && high.fn == SubC && high.left.Neg? && IsZero(high.right)
    ensures var v: int, c: int := Value(high.left.arg, env), CarryIn(high.carry, env);
            Value(high, env) == Rem(0 - v - c, Size(high.left.arg))
  {
    hide Times, Quot, Rem, BitOr, Shifted, Pow2;
    var v: int, c: int := Value(high.left.arg, env), CarryIn(high.carry, env);
    RemTwice(0 - v, 0 - c, Size(high.left.arg));
  }

  /** A negation is zero exactly if what is negated is. */
  lemma {:induction false} NegationOfZero(low: Expr, env: Env)
    requires low.Neg? && WellTyped(low)
    ensures Value(low, env) == 0 <==> Value(low.arg, env) == 0
  {
    hide Times, Quot, Rem, BitOr, Shifted, Pow2;
    ValueInRange(low.arg, env);
    BorrowOfNegation(Value(low.arg, env), Size(low.arg));
  }

  lemma {:induction false} BorrowedByNegation(low: Expr, carry: Expr, env: Env)
    requires low.Neg? && WellTyped(low) && FlagsOf(carry) == Some(low)
    ensures CarryIn(carry, env) == (if Value(low.arg, env) == 0 then 0 else 1) == Value(carry, env)
  {
    hide Times, Quot, BitOr, Shifted, Pow2;
    ValueInRange(low.arg, env);
    BorrowOfNegation(Value(low.arg, env), Size(low.arg));
  }

  lemma {:induction false} NotZero(test: Expr, carry: Expr, env: Env)
    requires test.Binary? && test.op == Ne && IsZero(test.right) && (carry == test || carry == Cond(test))
    ensures CarryIn(carry, env) == (if Value(test.left, env) == 0 then 0 else 1)
  {
    hide Times, Quot, Rem, BitOr, Shifted, Pow2;
    SmallRem(0);
    SmallRem(1);
    assert Value(test.right, env) == 0;
    assert CarryOut(test, env) == (if Value(test.left, env) == 0 then 0 else 1);
    if carry == test {
      assert CarryIn(test, env) == (if Value(test.left, env) != Value(test.right, env) then 1 else 0);
    }
  }

  /**
   Subtracting the borrow. In the form that compares, the low part's negation is never less than
   zero, so that no borrow is subtracted: fusing it is right exactly if the low part is zero.
   */
  lemma {:induction false} FuseNegationBySubPreserves(high: Expr, env: Env)
    requires TryFuseNegationBySub(high).Some? && WellTyped(high.left) && WellTyped(high.right)
    ensures Preserves(TryFuseNegationBySub(high).value, env) <==>
              !high.right.Convert? || Value(high.right.arg.left.arg, env) == 0
  {
    hide Times, Quot, Rem, BitOr, Shifted, Pow2;
    var hi, carry := high.left.arg, high.right;
    var v: int, c: int := Value(hi, env), Value(carry, env);
    RemTwice(0 - v, 0 - c, Size(hi));
    assert Value(high.left, env) == Rem(0 - v, Size(hi));
    assert Value(high, env) == Rem(Value(high.left, env) - Value(carry, env), Size(hi));
    if carry.Convert? {
      var low := carry.arg.left;
      assert WellTyped(carry.arg) && Value(carry.arg, env) == 0;
      TimesOne(Pow2(carry.width));
      DivModIs(0, Pow2(carry.width), 0, 0);
      NegationParts(high, hi, low, env);
      assert TryFuseNegationBySub(high) == Some(FuseNegation(high, hi, low));
      ValueInRange(hi, env);
      AtLeastTwo(Width(hi));
      DiffersByOne(0 - v, Size(hi));
    } else {
      FlagsTyped(carry);
      BorrowedByNegation(FlagsOf(carry).value, carry, env);
      NegationParts(high, hi, FlagsOf(carry).value, env);
      assert TryFuseNegationBySub(high) == Some(FuseNegation(high, hi, FlagsOf(carry).value));
    }
  }

  lemma DiffersByOne(a: int, m: nat)
    requires m > 1
    ensures Rem(a - 1, m) != Rem(a, m)
  {
    hide Times, Quot, Rem;
    Division(a, m);
    Division(a - 1, m);
    if Rem(a - 1, m) == Rem(a, m) {
      TimesSum(Quot(a, m), Quot(a - 1, m), m);
      var d := Quot(a, m) - Quot(a - 1, m);
      TimesOne(m);
      if d >= 1 {
        TimesGrows(1, d, m);
      } else {
        TimesGrows(d, 0, m);
      }
    }
  }

  // ---- shifts by one ----

  lemma {:induction false} FuseSarRorCPreserves(high: Expr, low: Expr, env: Env)
    requires WellTyped(high) && WellTyped(low) && TryFuseSarRorC(high, low).Some?
    ensures var f := TryFuseSarRorC(high, low).value;
            Preserves(f, env) && CarryOut(f.wide, env) == CarryOut(low, env)
  {
    hide Times, Quot, Rem, BitOr, Pow2;
    var lo := low.left;
    var wh, wl := Width(high.left), Width(lo);
    var x, y := Value(high.left, env), Value(lo, env);
    ValueInRange(high.left, env);
    ValueInRange(lo, env);
    AtLeastTwo(wl);
    var b := Pow2(wl - 1);
    Halved(x, y, b);
    RemOfRem(x);
    ValueInRange(high, env);
    ValueInRange(low, env);
    HalvedTop(high.op, x, y, wh, wl);
    var seq2 := Seq(high.left, lo);
    assert Value(seq2, env) == Times(x, Pow2(wl)) + y && Width(seq2) == wh + wl;
    assert Value(Binary(high.op, seq2, high.right), env) == Operate(high.op, Value(seq2, env), 1, wh + wl);
    assert CarryIn(low.carry, env) == Rem(x, 2);
    assert Value(low, env) == Quot(y, 2) + Times(Rem(x, 2), b);
    SlicesAreParts(Binary(high.op, Seq(high.left, lo), high.right), Value(high, env), Value(low, env), wh, wl, env);
  }

  lemma RemOfRem(x: int)
    ensures Rem(Rem(x, 2), 2) == Rem(x, 2) && 0 <= Rem(x, 2) <= 1
    ensures Pow2(1) == 2
  {
    assert Pow2(0) == 1;
  }

  /** A wide shift right by one bit, arithmetic or logical, made of its two halves. */
  lemma HalvedTop(op: Op, x: nat, y: nat, wh: nat, wl: nat)
    requires op == Sar || op == Shr
    requires wh > 0 && wl > 0 && x < Pow2(wh) && y < Pow2(wl)
    ensures Operate(op, Times(x, Pow2(wl)) + y, 1, wh + wl) ==
            Times(Operate(op, x, 1, wh), Pow2(wl)) + (Quot(y, 2) + Times(Rem(x, 2), Pow2(wl - 1)))
    ensures Rem(Times(x, Pow2(wl)) + y, 2) == Rem(y, 2)
  {
    hide Times, Quot, Rem, BitOr, Pow2;
    AtLeastTwo(wl);
    RemOfRem(x);
    Halved(x, y, Pow2(wl - 1));
    var b, top := Pow2(wl), Pow2(wh - 1);
    if op == Sar {
      ShiftedByOne(x, wh);
      ShiftedByOne(Times(x, b) + y, wh + wl);
      assert wh - 1 + wl == wh + wl - 1;
      Pow2Add(wh - 1, wl);
      TopBit(x, y, top, b);
      TimesSum(Quot(x, 2), top, b);
    }
  }

  lemma ShiftedByOne(v: nat, w: nat)
    requires w > 0
    ensures Shifted(v, w, 1) == Quot(v, 2) + (if v >= Pow2(w - 1) then Pow2(w - 1) else 0)
  {
    assert Shifted(v, w, 0) == v;
  }

  lemma {:induction false} FuseShlRolCPreserves(high: Expr, low: Expr, env: Env)
    requires WellTyped(high) && WellTyped(low) && TryFuseShlRolC(high, low).Some?
    ensures var f := TryFuseShlRolC(high, low).value;
            Preserves(f, env) && CarryOut(f.wide, env) == CarryOut(high, env)
  {
    hide Times, Quot, Rem, BitOr, Shifted, Pow2;
    var hi, lo := high.left, low.left;
    var wh, wl, x, y := Width(hi), Width(lo), Value(hi, env), Value(lo, env);
    ValueInRange(hi, env);
    ValueInRange(lo, env);
    var h, b := Pow2(wh), Pow2(wl);
    RemOfRem(x);
    Pow2Add(wh, wl);
    TimesTimes(y, 2, 1);
    TimesOne(y);
    var whole := Times(x, b) + y;
    TimesTimes(whole, 2, 1);
    TimesOne(whole);
    TimesSum(x, x, b);
    Carry(2 * x, 2 * y, h, b);
    CarryIsBit(IAdd, y, y, 0, b);
    SmallRem(Quot(2 * y, b));
    ValueInRange(high, env);
    ValueInRange(low, env);
    var seq2 := Seq(hi, lo);
    assert Value(seq2, env) == whole && Width(seq2) == wh + wl;
    assert Value(Binary(Shl, seq2, low.right), env) == Operate(Shl, whole, 1, wh + wl);
    assert Value(low, env) == Operate(Shl, y, 1, wl) == Rem(2 * y, b);
    assert CarryIn(high.carry, env) == Quot(2 * y, b);
    SlicesAreParts(Binary(Shl, Seq(hi, lo), low.right), Value(high, env), Value(low, env), wh, wl, env);
  }

  // ---- shifts by any amount ----

  /** Shifting the low part, and or-ing what is spilled from the high part into it. */
  function LowPart(op: Op, x: nat, y: nat, w: nat, n: nat, spill: nat): nat {
    BitOr(Operate(op, y, n, w), Operate(Shl, x, spill, w))
  }

  /**
   When the low part comes out right. Up to the low part's width, an arithmetic shift must not have a
   low part with its top bit set, because that bit is copied into the places of the spilled ones,
   unless those are all set too. Beyond the width nothing is spilled, so that a logical shift must
   have nothing to spill, and an arithmetic one nothing but copies of a top bit that both parts share.
   */
  predicate SpillIsExact(op: Op, x: nat, y: nat, w: nat, n: nat) {
    if w == 0 then true
    else if n <= w then op == Shr || y < Pow2(w - 1) || Rem(x, Pow2(n)) == Pow2(n) - 1
    else if op == Shr then x < Pow2(n - w)
    else if y < Pow2(w - 1) then x < Pow2(w - 1) && x < Pow2(n - w)
    else x >= Pow2(w - 1) && Pow2(w) - x <= Pow2(n - w)
  }

  /** Fusing keeps the values of a shift by any amount, logical or arithmetic, exactly then. */
  lemma {:induction false} FuseLongShiftRightPreserves(low: Expr, high: Expr, env: Env)
    requires WellTyped(low) && WellTyped(high) && TryFuseLongShiftRight(low, high).Some?
    ensures var f := TryFuseLongShiftRight(low, high).value;
            && f.wide.Binary? && f.wide.left.Seq? && (f.wide.op == Shr || f.wide.op == Sar)
            && var hi, lo, amount := f.wide.left.high, f.wide.left.low, f.wide.right;
               Preserves(f, env) <==>
                 SpillIsExact(f.wide.op, Value(hi, env), Value(lo, env), Width(lo), Value(amount, env))
  {
    hide Times, Quot, Rem, BitOr, Shifted, Pow2, Operate, LowPart;
    var f := TryFuseLongShiftRight(low, high).value;
    var swapped := !IsShiftAndSpill(low.left, low.right);
    var shift, spill := if swapped then low.right else low.left, if swapped then low.left else low.right;
    SpilledOperands(low, shift, spill, high, env);
    var op, hi, lo, amount := shift.op, spill.left, shift.left, shift.right;
    var w, n, x, y, m := Width(lo), Value(amount, env), Value(hi, env), Value(lo, env), Size(amount);
    SpillAmount(n, w, m);
    OperateInRange(op, x, n, w);
    if n <= w {
      SpillWithin(op, x, y, w, n);
    } else if op == Shr {
      SpillBeyond(x, y, w, n, m - (n - w));
    } else {
      ArithmeticSpillBeyond(x, y, w, n, m - (n - w));
    }
    SlicesOf(f.wide, w, env);
  }

  lemma {:induction false} SpilledOperands(low: Expr, shift: Expr, spill: Expr, high: Expr, env: Env)
    requires WellTyped(low) && WellTyped(high) && low.Binary? && low.op == Or
    requires (low.left == shift && low.right == spill) || (low.left == spill && low.right == shift)
    requires IsShiftAndSpill(shift, spill) && FuseShifts(low, shift, spill, high).Some?
    ensures var op, hi, lo, amount := shift.op, spill.left, shift.left, shift.right;
            var w, n, x, y, m := Width(lo), Value(amount, env), Value(hi, env), Value(lo, env), Size(amount);
            && 0 < w < m && n < m && Width(hi) == w && x < Pow2(w) && y < Pow2(w)
            && Value(low, env) == LowPart(op, x, y, w, n, Rem(Rem(0 - n, m) + w, m))
            && Value(high, env) == Operate(op, x, n, w)
            && Value(Binary(op, Seq(hi, lo), amount), env) == Operate(op, Times(x, Pow2(w)) + y, n, w + w)
  {
    hide Times, Quot, Rem, BitOr, Shifted, Pow2;
    ValueInRange(shift.left, env);
    ValueInRange(spill.left, env);
    ValueInRange(shift.right, env);
    var amounts := spill.right;
    assert WellTyped(amounts) && WellTyped(amounts.right) && Width(amounts.right) == Width(shift.right);
    OrCommutes(Value(shift, env), Value(spill, env));
    var n: int, m := Value(shift.right, env), Size(shift.right);
    assert Value(amounts.left, env) == Rem(0 - n, m);
    assert Value(amounts, env) == Rem(Rem(0 - n, m) + Width(shift.left), m);
    assert Value(low, env) == BitOr(Value(shift, env), Value(spill, env));
    var wide := Seq(spill.left, shift.left);
    assert Value(wide, env) == Times(Value(spill.left, env), Pow2(Width(shift.left))) + Value(shift.left, env);
  }

  /** Shifting by at most the width of the parts. */
  lemma SpillWithin(op: Op, x: nat, y: nat, w: nat, n: nat)
    requires (op == Shr || op == Sar) && w > 0 && x < Pow2(w) && y < Pow2(w) && n <= w
    ensures Times(x, Pow2(w)) >= 0
    ensures var v := Operate(op, Times(x, Pow2(w)) + y, n, w + w);
            && Quot(v, Pow2(w)) == Operate(op, x, n, w) < Pow2(w)
            && (Rem(v, Pow2(w)) == LowPart(op, x, y, w, n, w - n) <==> SpillIsExact(op, x, y, w, n))
  {
    hide Times, Quot, Rem, BitOr, Pow2, Shifted;
    var p, q, b := Pow2(w - n), Pow2(n), Pow2(w);
    Pow2Add(w - n, n);
    Spilled(x, y, p, q);
    OrOfDisjoint(Quot(y, q), Rem(x, q), w - n);
    OperateInRange(op, x, n, w);
    if op == Sar {
      ArithmeticHighPart(x, y, w, n);
      ArithmeticLowPart(x, y, w, n);
    }
  }

  lemma ArithmeticLowPart(x: nat, y: nat, w: nat, n: nat)
    requires w > 0 && x < Pow2(w) && y < Pow2(w) && n <= w
    ensures var h, p := Rem(x, Pow2(n)), Pow2(w - n);
            LowPart(Sar, x, y, w, n, w - n) == Times(h, p) + Quot(y, Pow2(n)) <==>
            y < Pow2(w - 1) || h == Pow2(n) - 1
  {
    hide Times, Quot, Rem, BitOr, Pow2, Shifted;
    var p, q := Pow2(w - n), Pow2(n);
    Pow2Add(w - n, n);
    Spilled(x, y, p, q);
    var a, h := Quot(y, q), Rem(x, q);
    OrOfDisjoint(a, h, w - n);
    ShiftedIs(y, w, n);
    OrOfHighParts(a, q - 1, h, w - n);
    OrWithAllOnes(h, n);
    if h < q - 1 {
      TimesGrows(h + 1, q - 1, p);
      TimesSum(h, 1, p);
      TimesOne(p);
    }
  }

  lemma ArithmeticHighPart(x: nat, y: nat, w: nat, n: nat)
    requires w > 0 && x < Pow2(w) && y < Pow2(w) && n <= w
    ensures Times(x, Pow2(w)) >= 0
    ensures var v := Shifted(Times(x, Pow2(w)) + y, w + w, n);
            && Quot(v, Pow2(w)) == Shifted(x, w, n)
            && Rem(v, Pow2(w)) == Times(Rem(x, Pow2(n)), Pow2(w - n)) + Quot(y, Pow2(n))
  {
    hide Times, Quot, Rem, Pow2, Shifted;
    var p, q, b := Pow2(w - n), Pow2(n), Pow2(w);
    var a, h := Quot(y, q), Rem(x, q);
    Pow2Add(w - n, n);
    Pow2Add(w, w);
    Pow2Add(w - 1, w);
    Pow2Add(w - n, w);
    Spilled(x, y, p, q);
    Parts(x, y, b, b);
    TopBit(x, y, Pow2(w - 1), b);
    ShiftedIs(x, w, n);
    ShiftedIs(Times(x, b) + y, w + w, n);
    var sign := if x >= Pow2(w - 1) then q - 1 else 0;
    TimesTimes(sign, p, b);
    TimesOne(p);
    TimesOne(Times(p, b));
    TimesOne(b);
    var low := Times(h, p) + a;
    Division(Times(x, p) + a, b);
    TimesSum(Quot(x, q), Times(sign, p), b);
    DivModIs(Shifted(Times(x, b) + y, w + w, n), b, Quot(x, q) + Times(sign, p), low);
  }

  /** An arithmetic shift is a logical one, with copies of the top bit in the places that become free. */
  lemma {:induction false} ShiftedIs(v: nat, w: nat, n: nat)
    requires w > 0 && v < Pow2(w) && n <= w
    ensures Shifted(v, w, n) == Quot(v, Pow2(n)) + (if v >= Pow2(w - 1) then Times(Pow2(n) - 1, Pow2(w - n)) else 0)
  {
    hide Times, Quot, Rem;
    if n == 0 {
      TimesOne(v);
      TimesOne(Pow2(w));
      DivModIs(v, 1, v, 0);
    } else {
      hide Pow2;
      ShiftedIs(v, w, n - 1);
      NextPower(n - 1);
      NextPower(w - n);
      NextPower(w - 1);
      Pow2Add(n - 1, w - n);
      ShiftedOnce(v, Pow2(n - 1), Pow2(w - n));
    }
  }

  lemma NextPower(n: nat)
    ensures Pow2(n + 1) == 2 * Pow2(n)
  {
  }

  /** One more bit: `r` and `p` are the powers of two whose product has the top bit alone. */
  lemma ShiftedOnce(v: nat, r: nat, p: nat)
    requires r > 0 && p > 0
    ensures var top := Times(r, p);
            var u := Quot(v, r) + (if v >= top then Times(r - 1, 2 * p) else 0);
            Quot(u, 2) + (if u >= top then top else 0) ==
            Quot(v, 2 * r) + (if v >= top then Times(2 * r - 1, p) else 0)
  {
    hide Times, Quot, Rem;
    QuotTwice(v, r);
    QuotAtMost(v, r);
    if v >= Times(r, p) {
      TimesSum(r, r - 1, p);
      TimesSum(p, p, r - 1);
      HalfOfSum(Quot(v, r), Times(r - 1, p));
      TimesSum(r - 1, 1, p);
      TimesOne(p);
      TimesGrows(0, r - 1, p);
      AtLeastQuot(v, p, r);
    }
  }

  lemma AtLeastQuot(v: nat, p: nat, r: nat)
    requires r > 0 && v >= Times(r, p)
    ensures Quot(v, r) >= p
  {
    hide Times, Quot, Rem;
    Division(v, r);
    TimesTimes(r, p, 1);
    TimesOne(r);
    TimesSum(Quot(v, r), 1, r);
    if Quot(v, r) + 1 <= p {
      TimesGrows(Quot(v, r) + 1, p, r);
    }
  }

  lemma HalfOfSum(a: int, b: int)
    ensures Quot(a + 2 * b, 2) == Quot(a, 2) + b
  {
  }

  lemma QuotTwice(v: int, r: nat)
    requires r > 0
    ensures Quot(Quot(v, r), 2) == Quot(v, 2 * r)
  {
    hide Times, Quot, Rem;
    Division(v, r);
    Division(Quot(v, r), 2);
    var a, c := Quot(v, r), Quot(Quot(v, r), 2);
    TimesTimes(c, 2, r);
    TimesOne(r);
    TimesSum(Times(c, 2), Rem(a, 2), r);
    DivModIs(v, 2 * r, c, Times(Rem(a, 2), r) + Rem(v, r));
  }

  /** Shifting by more than the width of the parts: nothing is left of the low part, and nothing is spilled. */
  lemma SpillBeyond(x: nat, y: nat, w: nat, n: nat, spill: nat)
    requires x < Pow2(w) && y < Pow2(w) && w < n && w <= spill
    ensures Times(x, Pow2(w)) >= 0
    ensures var v := Operate(Shr, Times(x, Pow2(w)) + y, n, w + w);
            && Quot(v, Pow2(w)) == Operate(Shr, x, n, w)
            && (Rem(v, Pow2(w)) == LowPart(Shr, x, y, w, n, spill) <==> SpillIsExact(Shr, x, y, w, n))
  {
    hide Times, Quot, Rem, Pow2;
    var b, d := Pow2(w), Pow2(n - w);
    Pow2Add(n - w, w);
    Pow2Add(spill - w, w);
    Parts(x, y, b, b);
    TimesOne(b);
    TimesOne(Pow2(n));
    TimesGrows(1, d, b);
    TimesTimes(x, Pow2(spill - w), b);
    DivModIs(Times(x, Pow2(spill)), b, Times(x, Pow2(spill - w)), 0);
    DivModIs(x, Pow2(n), 0, x);
    DivModIs(y, Pow2(n), 0, y);
    Division(x, d);
    QuotOfWhole(x, y, d, b);
    QuotAtMost(x, d);
    DivModIs(Quot(x, d), b, 0, Quot(x, d));
    TimesOne(d);
    if x < d {
      DivModIs(x, d, 0, x);
    }
  }

  /** The same for an arithmetic shift, which leaves copies of the low part's top bit. */
  lemma ArithmeticSpillBeyond(x: nat, y: nat, w: nat, n: nat, spill: nat)
    requires w > 0 && x < Pow2(w) && y < Pow2(w) && w < n && w <= spill
    ensures Times(x, Pow2(w)) >= 0
    ensures var v := Operate(Sar, Times(x, Pow2(w)) + y, n, w + w);
            && Quot(v, Pow2(w)) == Operate(Sar, x, n, w)
            && (Rem(v, Pow2(w)) == LowPart(Sar, x, y, w, n, spill) <==> SpillIsExact(Sar, x, y, w, n))
  {
    hide Times, Quot, Rem, Pow2, Shifted;
    var b := Pow2(w);
    Pow2Add(spill - w, w);
    TimesTimes(x, Pow2(spill - w), b);
    DivModIs(Times(x, Pow2(spill)), b, Times(x, Pow2(spill - w)), 0);
    AllSign(x, w, n);
    AllSign(y, w, n);
    WideSignedShift(x, y, w, n);
    SignedShift(x, w, n - w);
    AtLeastTwo(w);
    var sx, d := Signed(x, w), Pow2(n - w);
    QuotIsZero(sx, d);
    QuotIsMinusOne(sx, d);
  }

  /** The number that the bits stand for in two's complement. */
  function Signed(v: nat, w: nat): int
    requires w > 0
  {
    if v >= Pow2(w - 1) then v - Pow2(w) else v
  }

  /** An arithmetic shift divides the signed number, rounding down. */
  lemma {:induction false} SignedShift(v: nat, w: nat, n: nat)
    requires w > 0 && v < Pow2(w)
    ensures var q := Quot(Signed(v, w), Pow2(n));
            && Shifted(v, w, n) == q + (if v >= Pow2(w - 1) then Pow2(w) else 0)
            && 0 - Pow2(w - 1) <= q < Pow2(w - 1) && (q < 0 <==> v >= Pow2(w - 1))
  {
    hide Times, Quot, Rem, Pow2;
    var a, h := Signed(v, w), Pow2(w - 1);
    AtLeastTwo(w);
    QuotRange(a, Pow2(n));
    if n == 0 {
      PowerZero();
      TimesOne(a);
      DivModIs(a, 1, a, 0);
    } else {
      NextPower(n - 1);
      SignedShift(v, w, n - 1);
      QuotTwice(a, Pow2(n - 1));
      HalfOfSum(Quot(a, Pow2(n - 1)), h);
    }
  }

  lemma PowerZero()
    ensures Pow2(0) == 1
  {
  }

  lemma QuotRange(a: int, m: nat)
    requires m > 0
    ensures a >= 0 ==> 0 <= Quot(a, m) <= a
    ensures a < 0 ==> a <= Quot(a, m) < 0
  {
    hide Times, Quot, Rem;
    Division(a, m);
    var q := Quot(a, m);
    if a >= 0 {
      QuotAtMost(a, m);
    } else if q >= 0 {
      TimesGrows(0, q, m);
      TimesOne(m);
    } else {
      NotBelow(a, q, m);
    }
  }

  lemma NotBelow(a: int, q: int, m: nat)
    requires m > 0 && a < 0 && q < 0 && Times(q, m) <= a < Times(q, m) + m
    ensures a <= q
  {
    hide Times;
    if q < a {
      TimesSum(q, 1, m);
      TimesOne(m);
      TimesOne(q + 1);
      TimesTimes(q + 1, m, 1);
      TimesGrows(1, m, 0 - (q + 1));
      TimesSum(0, q + 1, m);
      TimesTimes(0 - (q + 1), m, 1);
      TimesOne(0 - (q + 1));
    }
  }

  lemma QuotIsZero(a: int, m: nat)
    requires m > 0
    ensures Quot(a, m) == 0 <==> 0 <= a < m
  {
    hide Times, Quot, Rem;
    Division(a, m);
    TimesOne(m);
    if 0 <= a < m {
      DivModIs(a, m, 0, a);
    }
  }

  lemma QuotIsMinusOne(a: int, m: nat)
    requires m > 0
    ensures Quot(a, m) == -1 <==> 0 - m <= a < 0
  {
    hide Times, Quot, Rem;
    Division(a, m);
    TimesOne(m);
    TimesSum(0, 1, m);
    if 0 - m <= a < 0 {
      DivModIs(a, m, -1, a + m);
    }
  }

  /** Shifted by its width or more, a number is all copies of its top bit. */
  lemma AllSign(v: nat, w: nat, n: nat)
    requires w > 0 && v < Pow2(w) && w <= n
    ensures Shifted(v, w, n) == if v >= Pow2(w - 1) then Pow2(w) - 1 else 0
  {
    hide Times, Quot, Rem, Pow2, Shifted;
    SignedShift(v, w, n);
    AtLeastTwo(w);
    Pow2Add(n - w, w);
    TimesGrows(1, Pow2(n - w), Pow2(w));
    TimesOne(Pow2(w));
    QuotIsZero(Signed(v, w), Pow2(n));
    QuotIsMinusOne(Signed(v, w), Pow2(n));
  }

  /** A whole shifted by more than the width of its parts: the high part's sign, and its upper bits. */
  lemma WideSignedShift(x: nat, y: nat, w: nat, n: nat)
    requires w > 0 && x < Pow2(w) && y < Pow2(w) && w <= n
    ensures Times(x, Pow2(w)) >= 0
    ensures var v := Shifted(Times(x, Pow2(w)) + y, w + w, n);
            && Quot(v, Pow2(w)) == (if x >= Pow2(w - 1) then Pow2(w) - 1 else 0)
            && Rem(v, Pow2(w)) == Shifted(x, w, n - w)
  {
    hide Times, Quot, Rem, Pow2, Shifted;
    var b, d, sx := Pow2(w), Pow2(n - w), Signed(x, w);
    Parts(x, y, b, b);
    Pow2Add(w, w);
    Pow2Add(w - 1, w);
    Pow2Add(n - w, w);
    TopBit(x, y, Pow2(w - 1), b);
    AtLeastTwo(w);
    SignedShift(Times(x, b) + y, w + w, n);
    SignedShift(x, w, n - w);
    TimesSum(x, b, b);
    assert Signed(Times(x, b) + y, w + w) == Times(sx, b) + y;
    QuotOfWhole(sx, y, d, b);
    var q := Quot(sx, d);
    TimesOne(b);
    TimesSum(b, 1, b);
    DivModIs(Shifted(Times(x, b) + y, w + w, n), b, if x >= Pow2(w - 1) then b - 1 else 0, Shifted(x, w, n - w));
  }

  lemma QuotOfWhole(x: int, y: nat, d: nat, b: nat)
    requires d > 0 && b > 0 && y < b
    ensures Times(d, b) > 0 && Quot(Times(x, b) + y, Times(d, b)) == Quot(x, d)
  {
    hide Times, Quot, Rem;
    Division(x, d);
    var c, r := Quot(x, d), Rem(x, d);
    TimesPositive(d, b);
    TimesTimes(c, d, b);
    TimesSum(Times(c, d), r, b);
    Parts(r, y, d, b);
    DivModIs(Times(x, b) + y, Times(d, b), c, Times(r, b) + y);
  }

  /** The amount that spills is what the shift leaves of the width, modulo the size of the amounts. */
  lemma SpillAmount(n: nat, w: nat, m: nat)
    requires n < m && w < m
    ensures Rem(Rem(0 - n, m) + w, m) == if n <= w then w - n else m - (n - w)
  {
    hide Times, Quot, Rem;
    RemTwice(0 - n, w, m);
    TimesOne(m);
    if n <= w {
      DivModIs(w - n, m, 0, w - n);
    } else {
      TimesSum(0, 1, m);
      DivModIs(w - n, m, -1, m - (n - w));
    }
  }

  /** The slices of a wide operation, in terms of its value. */
  lemma {:induction false} SlicesOf(wide: Expr, w: nat, env: Env)
    requires Quot(Value(wide, env), Pow2(w)) < Pow2(w)
    ensures Value(Slice(w, wide, w), env) == Quot(Value(wide, env), Pow2(w))
    ensures Value(Slice(w, wide, 0), env) == Rem(Value(wide, env), Pow2(w))
  {
    hide Times, Quot, Rem;
    TimesOne(Value(wide, env));
    DivModIs(Value(wide, env), 1, Value(wide, env), 0);
    TimesOne(Pow2(w));
    DivModIs(Quot(Value(wide, env), Pow2(w)), Pow2(w), 0, Quot(Value(wide, env), Pow2(w)));
  }

  // ---- chains ----

  /** The operands of one limb, and whether the carry is taken in a step of its own. */
  datatype Limb = Limb(left: Expr, right: Expr, oneArgument: bool)

  predicate IsLimb(l: Limb) {
    && WellTyped(l.left) && WellTyped(l.right) && Width(l.left) == Width(l.right)
    && (l.oneArgument ==> FlagsOf(l.right).None?)
  }

  predicate AreLimbs(op: Op, limbs: seq<Limb>) {
    && limbs != [] && (op == IAdd || op == ISub)
    && forall i :: 0 <= i < |limbs| ==> IsLimb(limbs[i])
  }

  /** The step of a limb that takes the carry from the flags. */
  function CarryStep(op: Op, l: Limb, flags: Expr): Expr {
    Apply(CarryFn(op), l.left, if l.oneArgument then Const(0, Width(l.left)) else l.right, Cond(flags))
  }

  /** The sum or difference of a limb above the first. */
  function LimbResult(op: Op, l: Limb, flags: Expr): Expr {
    if l.oneArgument then Binary(op, CarryStep(op, l, flags), l.right) else CarryStep(op, l, flags)
  }

  /** The sum or difference of the last limb, whose carry comes from the limbs before it. */
  function Chain(op: Op, limbs: seq<Limb>): Expr
    requires limbs != []
  {
    var n := |limbs| - 1;
    if n == 0 then Binary(op, limbs[0].left, limbs[0].right)
    else LimbResult(op, limbs[n], Chain(op, limbs[..n]))
  }

  /** The same chain fused limb by limb. */
  function FuseChain(op: Op, limbs: seq<Limb>): Expr
    requires limbs != [] && (op == IAdd || op == ISub)
    ensures FuseChain(op, limbs).Binary? && FuseChain(op, limbs).op == op
    decreases |limbs|, 0
  {
    var n := |limbs| - 1;
    if n == 0 then Binary(op, limbs[0].left, limbs[0].right)
    else
      var flags := FusedFlags(op, limbs[..n]);
      var high := CarryStep(op, limbs[n], flags);
      TryFuseAddSub(high, if limbs[n].oneArgument then Some(LimbResult(op, limbs[n], flags)) else None).value.wide
  }

  /**
   What the flags of the last limb are taken from when it has been fused: the wide operation, or the
   slice of it that has taken the place of the step after the one that took the carry.
   */
  function FusedFlags(op: Op, limbs: seq<Limb>): Expr
    requires limbs != [] && (op == IAdd || op == ISub)
    ensures FlagSetter(Cond(FusedFlags(op, limbs))) == Some(FuseChain(op, limbs))
    decreases |limbs|, 1
  {
    var n := |limbs| - 1;
    FlagsOfStep(n > 0 && limbs[n].oneArgument, Width(limbs[n].left), FuseChain(op, limbs),
                if n == 0 then 0 else Width(FuseChain(op, limbs[..n])))
  }

  function FlagsOfStep(sliced: bool, width: nat, wide: Expr, offset: nat): Expr
    requires wide.Binary?
    ensures FlagSetter(Cond(FlagsOfStep(sliced, width, wide, offset))) == Some(wide)
  {
    if sliced then Slice(width, wide, offset) else wide
  }

  /** What the last limb carries out in the step that takes the carry, if that is a step of its own. */
  ghost function InnerCarry(op: Op, limbs: seq<Limb>, env: Env): int
    requires limbs != []
  {
    var n := |limbs| - 1;
    if n > 0 && limbs[n].oneArgument then CarryOut(CarryStep(op, limbs[n], Chain(op, limbs[..n])), env) else 0
  }

  /** The carry of no such step gets lost on the way to the last limb. */
  ghost predicate NoCarryLost(op: Op, limbs: seq<Limb>, env: Env)
    requires limbs != []
  {
    forall k {:trigger limbs[..k]} :: 0 < k < |limbs| ==> InnerCarry(op, limbs[..k], env) == 0
  }

  /** The wide operation comes to the last limb's result above what the limbs below it come to. */
  ghost predicate LimbIsRight(op: Op, limbs: seq<Limb>, env: Env)
    requires limbs != [] && (op == IAdd || op == ISub)
  {
    var n := |limbs| - 1;
    Value(FuseChain(op, limbs), env) ==
      if n == 0 then Value(Chain(op, limbs), env)
      else Times(Value(Chain(op, limbs), env), Size(FuseChain(op, limbs[..n]))) + Value(FuseChain(op, limbs[..n]), env)
  }

  ghost predicate ChainIsRight(op: Op, limbs: seq<Limb>, env: Env)
    requires limbs != [] && (op == IAdd || op == ISub)
  {
    forall k {:trigger limbs[..k]} :: 0 < k <= |limbs| ==> LimbIsRight(op, limbs[..k], env)
  }

  /**
   The fused chain comes to the limbs' results, limb by limb, exactly if no carry of a step of its own
   is lost on the way. The wide operation then carries out what the last limb carries out in all its
   steps, and it is negative if the last limb is.
   */
  lemma {:induction false} ChainFuses(op: Op, limbs: seq<Limb>, env: Env)
    requires AreLimbs(op, limbs)
    ensures var wide, last, n := FuseChain(op, limbs), Chain(op, limbs), |limbs| - 1;
            && WellTyped(wide) && Width(last) > 0
            && Width(wide) == Width(last) + (if n == 0 then 0 else Width(FuseChain(op, limbs[..n])))
            && (ChainIsRight(op, limbs, env) <==> NoCarryLost(op, limbs, env))
            && (NoCarryLost(op, limbs, env) ==>
                  && CarryOut(wide, env) == CarryOut(last, env) + InnerCarry(op, limbs, env)
                  && (Value(wide, env) >= Pow2(Width(wide) - 1) <==> Value(last, env) >= Pow2(Width(last) - 1)))
  {
    hide Times, Quot, Rem, BitOr, Shifted, Pow2, Operate, OperateCarry, Extended, ExtendedCarry;
    hide TryFuseAddSub, WellTyped, Value, CarryOut, Width, NoCarryLost, ChainIsRight, InnerCarry, Chain, FuseChain;
    var n := |limbs| - 1;
    if n == 0 {
      FirstLimb(op, limbs, env);
    } else {
      ChainFuses(op, limbs[..n], env);
      FusedLimb(op, limbs, env);
      OriginalLimb(op, limbs, env);
      ShorterChains(op, limbs, env);
      if NoCarryLost(op, limbs[..n], env) {
        NextLimb(op, limbs, env);
      }
    }
  }

  /** The last limb is right if its carry is, and then carry and sign are right as well. */
  lemma {:induction false} NextLimb(op: Op, limbs: seq<Limb>, env: Env)
    requires AreLimbs(op, limbs) && |limbs| > 1 && WellTyped(FuseChain(op, limbs[..|limbs| - 1]))
    requires CarryOut(FuseChain(op, limbs[..|limbs| - 1]), env) ==
             CarryOut(Chain(op, limbs[..|limbs| - 1]), env) + InnerCarry(op, limbs[..|limbs| - 1], env)
    ensures var wide, last, inner := FuseChain(op, limbs), Chain(op, limbs), InnerCarry(op, limbs[..|limbs| - 1], env);
            && (LimbIsRight(op, limbs, env) <==> inner == 0)
            && (inner == 0 ==>
                  && CarryOut(wide, env) == CarryOut(last, env) + InnerCarry(op, limbs, env)
                  && Width(wide) > 0 && Width(last) > 0
                  && (Value(wide, env) >= Pow2(Width(wide) - 1) <==> Value(last, env) >= Pow2(Width(last) - 1)))
  {
    hide Times, Quot, Rem, BitOr, Shifted, Pow2, Operate, OperateCarry, Extended, ExtendedCarry;
    hide TryFuseAddSub, WellTyped, Value, CarryOut, Width, NoCarryLost, ChainIsRight, InnerCarry, Chain, FuseChain;
    var n := |limbs| - 1;
    FusedLimb(op, limbs, env);
    OriginalLimb(op, limbs, env);
    OriginalCarries(op, limbs[..n], env);
    var l, below, prev := limbs[n], FuseChain(op, limbs[..n]), Chain(op, limbs[..n]);
    SmallRem(CarryOut(below, env));
    SmallRem(CarryOut(prev, env));
    var c, c' := Rem(CarryOut(below, env), 2), Rem(CarryOut(prev, env), 2);
    var x, y, w := Value(l.left, env), Value(l.right, env), Width(l.left);
    SameCarrySameSum(op, x, y, c, c', w);
    SameHighPart(Extended(CarryFn(op), x, y, c, w), Extended(CarryFn(op), x, y, c', w), Value(below, env), Size(below));
    WideSign(Extended(CarryFn(op), x, y, c, w), Value(below, env), w, Width(below));
  }

  lemma {:induction false} FirstLimb(op: Op, limbs: seq<Limb>, env: Env)
    requires AreLimbs(op, limbs) && |limbs| == 1
    ensures var wide := FuseChain(op, limbs);
            && wide == Chain(op, limbs) && WellTyped(wide) && Width(wide) > 0
            && ChainIsRight(op, limbs, env) && NoCarryLost(op, limbs, env) && InnerCarry(op, limbs, env) == 0
  {
    hide Times, Quot, Rem, BitOr, Shifted, Pow2, Operate, OperateCarry, Extended, ExtendedCarry, Value, CarryOut;
    assert IsLimb(limbs[0]) && limbs[..1] == limbs;
    ValueInRange(limbs[0].left, env);
  }

  /** The wide operation of the limbs up to the last, in terms of the last limb's operands. */
  lemma {:induction false} FusedLimb(op: Op, limbs: seq<Limb>, env: Env)
    requires AreLimbs(op, limbs) && |limbs| > 1 && WellTyped(FuseChain(op, limbs[..|limbs| - 1]))
    ensures var l, wide, below := limbs[|limbs| - 1], FuseChain(op, limbs), FuseChain(op, limbs[..|limbs| - 1]);
            var x, y, c, w := Value(l.left, env), Value(l.right, env), Rem(CarryOut(below, env), 2), Width(l.left);
            && w > 0 && WellTyped(wide) && Width(wide) == w + Width(below) && Value(below, env) < Size(below)
            && Value(wide, env) == Times(Extended(CarryFn(op), x, y, c, w), Size(below)) + Value(below, env)
            && CarryOut(wide, env) == ExtendedCarry(CarryFn(op), x, y, c, w)
  {
    hide Times, Quot, Rem, BitOr, Shifted, Pow2, Operate, OperateCarry, Extended, ExtendedCarry;
    hide Value, CarryOut, WellTyped, Width;
    var n := |limbs| - 1;
    var l, below := limbs[n], FuseChain(op, limbs[..n]);
    assert IsLimb(l);
    ValueInRange(below, env);
    FusedParts(op, l.left, l.right, below, CarryStep(op, l, FusedFlags(op, limbs[..n])), env);
  }

  /** The last limb's own result and carries, in terms of its operands. */
  lemma {:induction false} OriginalLimb(op: Op, limbs: seq<Limb>, env: Env)
    requires AreLimbs(op, limbs) && |limbs| > 1
    ensures var l, last, prev := limbs[|limbs| - 1], Chain(op, limbs), Chain(op, limbs[..|limbs| - 1]);
            var x, y, c, w := Value(l.left, env), Value(l.right, env), Rem(CarryOut(prev, env), 2), Width(l.left);
            && Width(last) == w && Value(last, env) == Extended(CarryFn(op), x, y, c, w)
            && CarryOut(last, env) + InnerCarry(op, limbs, env) == ExtendedCarry(CarryFn(op), x, y, c, w)
  {
    hide Times, Quot, Rem, BitOr, Shifted, Pow2, Operate, OperateCarry, Extended, ExtendedCarry;
    var l, prev := limbs[|limbs| - 1], Chain(op, limbs[..|limbs| - 1]);
    var high := CarryStep(op, l, prev);
    HighValue(high, env);
    assert IsLimb(l) && CarryIn(high.carry, env) == Rem(CarryOut(prev, env), 2);
    OneAtATime(op, Value(l.left, env), Value(l.right, env), CarryIn(high.carry, env), Width(l.left));
  }

  /** A limb carries out one bit at most, in all its steps together. */
  lemma {:induction false} OriginalCarries(op: Op, limbs: seq<Limb>, env: Env)
    requires AreLimbs(op, limbs)
    ensures 0 <= CarryOut(Chain(op, limbs), env) && 0 <= InnerCarry(op, limbs, env)
    ensures CarryOut(Chain(op, limbs), env) + InnerCarry(op, limbs, env) <= 1
  {
    hide Times, Quot, Rem, BitOr, Shifted, Pow2, Operate, Extended, OperateCarry, ExtendedCarry, WellTyped, Width, CarryIn;
    var n := |limbs| - 1;
    var l := limbs[n];
    assert IsLimb(l);
    ValueInRange(l.left, env);
    ValueInRange(l.right, env);
    var x, y, w := Value(l.left, env), Value(l.right, env), Width(l.left);
    if n == 0 {
      StepCarries(op, x, y, 0, w);
    } else {
      OriginalLimb(op, limbs, env);
      var prev := Chain(op, limbs[..n]);
      var c := Rem(CarryOut(prev, env), 2);
      StepCarries(op, x, y, c, w);
      var high := CarryStep(op, l, prev);
      HighValue(high, env);
      assert CarryIn(high.carry, env) == c by {
        TakesFlags(prev, env);
      }
      if l.oneArgument {
        assert Width(high) == w by {
          WidthOfStep(op, l, prev);
        }
      }
    }
  }

  lemma {:induction false} TakesFlags(e: Expr, env: Env)
    ensures CarryIn(Cond(e), env) == Rem(CarryOut(e, env), 2)
  {
    hide Rem;
  }

  lemma {:induction false} WidthOfStep(op: Op, l: Limb, flags: Expr)
    ensures Width(CarryStep(op, l, flags)) == Width(l.left)
  {
  }

  /** What the steps of a limb carry out, and what both together do. */
  lemma StepCarries(op: Op, x: nat, y: nat, c: nat, w: nat)
    requires (op == IAdd || op == ISub) && x < Pow2(w) && y < Pow2(w) && c <= 1
    ensures 0 <= ExtendedCarry(CarryFn(op), x, y, c, w) <= 1 && 0 <= ExtendedCarry(CarryFn(op), x, 0, c, w)
    ensures 0 <= OperateCarry(op, Extended(CarryFn(op), x, 0, c, w), y, w)
    ensures 0 <= OperateCarry(op, x, y, w) <= 1
  {
    hide Times, Quot, Rem, Pow2;
    CarryIsBit(op, x, y, 0, Pow2(w));
    CarryIsBit(op, x, y, c, Pow2(w));
    CarryIsBit(op, x, 0, c, Pow2(w));
    ExtendedInRange(op, x, 0, c, w);
    CarryIsBit(op, Extended(CarryFn(op), x, 0, c, w), y, 0, Pow2(w));
  }

  lemma ExtendedInRange(op: Op, l: nat, r: nat, c: nat, w: nat)
    ensures Extended(CarryFn(op), l, r, c, w) < Pow2(w)
  {
    hide Times, Quot, Rem, Pow2;
  }

  lemma ShorterChains(op: Op, limbs: seq<Limb>, env: Env)
    requires AreLimbs(op, limbs) && |limbs| > 1
    ensures var n := |limbs| - 1;
            && (NoCarryLost(op, limbs, env) <==>
                  NoCarryLost(op, limbs[..n], env) && InnerCarry(op, limbs[..n], env) == 0)
            && (ChainIsRight(op, limbs, env) <==>
                  ChainIsRight(op, limbs[..n], env) && LimbIsRight(op, limbs, env))
  {
    hide InnerCarry, LimbIsRight;
    var n := |limbs| - 1;
    assert limbs[..n + 1] == limbs;
    forall k | 0 < k <= n
      ensures limbs[..n][..k] == limbs[..k]
    {
    }
    if NoCarryLost(op, limbs, env) {
      forall k | 0 < k < n
        ensures InnerCarry(op, limbs[..n][..k], env) == 0
      {
        assert limbs[..n][..k] == limbs[..k];
      }
    }
    if ChainIsRight(op, limbs, env) {
      forall k | 0 < k <= n
        ensures LimbIsRight(op, limbs[..n][..k], env)
      {
        assert limbs[..n][..k] == limbs[..k];
      }
    }
    if NoCarryLost(op, limbs[..n], env) && InnerCarry(op, limbs[..n], env) == 0 {
      forall k | 0 < k < |limbs|
        ensures InnerCarry(op, limbs[..k], env) == 0
      {
        assert k < n ==> limbs[..n][..k] == limbs[..k];
      }
    }
    if ChainIsRight(op, limbs[..n], env) && LimbIsRight(op, limbs, env) {
      forall k | 0 < k <= |limbs|
        ensures LimbIsRight(op, limbs[..k], env)
      {
        assert k <= n ==> limbs[..n][..k] == limbs[..k];
      }
    }
  }

  lemma SameHighPart(hi: nat, hi': nat, lo: nat, b: nat)
    requires b > 0
    ensures Times(hi, b) + lo == Times(hi', b) + lo <==> hi == hi'
  {
    hide Times;
    TimesSum(hi, 1, b);
    TimesSum(hi', 1, b);
    TimesOne(b);
    if hi < hi' {
      TimesGrows(hi + 1, hi', b);
    } else if hi' < hi {
      TimesGrows(hi' + 1, hi, b);
    }
  }

  lemma WideSign(hi: nat, lo: nat, wh: nat, wl: nat)
    requires wh > 0 && lo < Pow2(wl)
    ensures Times(hi, Pow2(wl)) + lo >= Pow2(wh + wl - 1) <==> hi >= Pow2(wh - 1)
  {
    hide Times, Pow2;
    Pow2Add(wh - 1, wl);
    assert wh - 1 + wl == wh + wl - 1;
    TopBit(hi, lo, Pow2(wh - 1), Pow2(wl));
  }

}
