/**
  From a branch condition on two registers to linear constraints on their signed and unsigned
  variables (src/crab/finite_domain.rs:88-129, 260-1271).
*/
module Assume {
  import opened Wrappers
  import opened Numbers
  import opened Intervals
  import opened Constraints
  import opened Words

  /** The intervals the numeric domain knows for expressions. */
  type Eval = Expr -> Interval

  /** A comparison operand: its signed and its unsigned expression. */
  datatype Operand = Operand(s: Expr, u: Expr)

  // ------------------------------------------------------------------ intervals of the operands

  /** The views of both operands, and the two halves of the left one. */
  datatype Split = Split(left: Interval, right: Interval, lower: Interval, upper: Interval)

  /** Both 32-bit operands lie in one half of the 32-bit range, where the 64-bit views agree with them. */
  predicate Agree(left: Interval, right: Interval, a: Interval, b: Interval) {
    (IsIncludedIn(left, a) && IsIncludedIn(right, a)) || (IsIncludedIn(left, b) && IsIncludedIn(right, b))
  }

  /** `lower` is the nonnegative half, `upper` the negative one. */
  function GetSignedIntervals(eval: Eval, is64: bool, l: Operand, rightS: Expr): (v: Split)
    ensures v.left.lb.Some? && v.left.ub.Some? && v.right.lb.Some? && v.right.ub.Some?
  {
    var left0, right0 := eval(l.s), eval(rightS);
    var wide := is64 || Agree(left0, right0, Nonnegative(32), Negative(32));
    var left1 := if wide then left0 else TruncateToSigned(left0, 32);
    var right1 := if wide then right0 else TruncateToSigned(right0, 32);
    var width := if wide then 64 else 32;
    if !IsTop(left1) then
      Split(TruncateToSigned(left1, 64), TruncateToSigned(right1, 64),
            Meet(left1, Nonnegative(width)), Meet(left1, Negative(width)))
    else
      var left2 := eval(l.u);
      if !IsTop(left2) then
        var lihUb := if left2.ub.Some? then SignExtend(left2.ub.value, 64) else -1;
        Split(TruncateToSigned(left2, 64), TruncateToSigned(right1, 64),
              Meet(left2, Nonnegative(width)), FromNumbers(MinInt(64), lihUb))
      else
        Split(TruncateToSigned(left2, 64), TruncateToSigned(right1, 64), Nonnegative(width), Negative(width))
  }

  /** `lower` is the half without the top bit, `upper` the one with it. */
  function GetUnsignedIntervals(eval: Eval, is64: bool, l: Operand, rightU: Expr): (v: Split)
    ensures v.left.lb.Some? && v.left.ub.Some? && v.right.lb.Some? && v.right.ub.Some?
  {
    var left0, right0 := eval(l.u), eval(rightU);
    var wide := is64 || Agree(left0, right0, Nonnegative(32), UnsignedHigh(32));
    var left1 := if wide then left0 else TruncateToUnsigned(left0, 32);
    var right1 := if wide then right0 else TruncateToUnsigned(right0, 32);
    var width := if wide then 64 else 32;
    if !IsTop(left1) then
      Split(TruncateToUnsigned(left1, 64), TruncateToUnsigned(right1, 64),
            Meet(left1, Nonnegative(width)), Meet(left1, UnsignedHigh(width)))
    else
      var left2 := eval(l.s);
      if !IsTop(left2) then
        Split(TruncateToUnsigned(left2, 64), TruncateToUnsigned(right1, 64),
              TruncateToUnsigned(New(Some(0), left2.ub), 64), TruncateToUnsigned(New(left2.lb, Some(-1)), 64))
      else
        Split(TruncateToUnsigned(left2, 64), TruncateToUnsigned(right1, 64), Nonnegative(width), UnsignedHigh(width))
  }

  // ------------------------------------------------------------------ signed comparisons

  function AssumeSigned64Eq(l: Operand, r: Operand, right: Interval): seq<Constraint> {
    var both := [Compare(EqualTo, l.s, r.s), Compare(EqualTo, l.u, r.u)];
    if IsIncludedIn(right, Nonnegative(64)) && Singleton(right).None? then both + [Compare(EqualTo, l.s, l.u)] else both
  }

  /** The least 64-bit value from `lb` on whose low half is that of `rn`; none if it would overflow. */
  function LbMatch(lb: int, rn: int): Option<int> {
    var m := lb / TWO32 * TWO32 + rn % TWO32;
    if m < lb then (if m > TWO63 - 1 - TWO32 then None else Some(m + TWO32)) else Some(m)
  }

  /** The greatest 64-bit value up to `ub` whose low half is that of `rn`; none if it would overflow. */
  function UbMatch(ub: int, rn: int): Option<int> {
    var m := ub / TWO32 * TWO32 + rn % TWO32;
    if m > ub then (if m < -TWO63 + TWO32 then None else Some(m - TWO32)) else Some(m)
  }

  function AssumeSigned32Eq(eval: Eval, l: Operand, right: Interval): seq<Constraint> {
    if Singleton(right).Some? then
      var left := TruncateToSigned(eval(l.s), 64);
      var rn := Singleton(right).value;
      var lb, ub := LbMatch(left.lb.value, rn), UbMatch(left.ub.value, rn);
      if lb.None? || ub.None? then []
      else if ZeroExtend(lb.value, 64) <= ZeroExtend(ub.value, 64) then
        [Compare(AtLeast, l.s, Const(lb.value)), Compare(AtMost, l.s, Const(ub.value)),
         Compare(AtLeast, l.u, Const(ZeroExtend(lb.value, 64))), Compare(AtMost, l.u, Const(ZeroExtend(ub.value, 64)))]
      else
        [Compare(AtLeast, l.s, Const(lb.value)), Compare(AtMost, l.s, Const(ub.value))]
    else []
  }

  function AssumeSigned64Lt(strict: bool, l: Operand, r: Operand, v: Split): seq<Constraint> {
    var cmpS, cmpU := StrictCmp(strict, true, l.s, r.s), StrictCmp(strict, true, l.u, r.u);
    if IsIncludedIn(v.right, Negative(64)) then
      [cmpS, Compare(AtLeast, l.u, Const(0)), cmpU]
    else if IsIncludedIn(Join(v.upper, v.lower), Nonnegative(64)) && IsIncludedIn(v.right, Nonnegative(64)) then
      [cmpS, Compare(AtLeast, l.u, Const(0)), cmpU]
    else
      [cmpS]
  }

  /** Both variables of the left operand are one nonnegative number, at most `bound`. */
  function Coincide(l: Operand, cmpS: Constraint, cmpU: Constraint, bound: int): seq<Constraint> {
    [Compare(AtLeast, l.s, Const(0)), cmpS, Compare(AtMost, l.s, l.u), Compare(AtLeast, l.s, l.u),
     Compare(AtLeast, l.u, Const(0)), cmpU, Compare(AtMost, l.u, Const(bound))]
  }

  function AssumeSigned32Lt(eval: Eval, strict: bool, l: Operand, r: Operand, v: Split): seq<Constraint> {
    var cmpS, cmpU := StrictCmp(strict, true, l.s, r.s), StrictCmp(strict, true, l.u, r.u);
    if IsIncludedIn(eval(l.s), SignedInt(32)) && IsIncludedIn(eval(r.s), Negative(32)) then
      [Compare(GreaterThan, l.u, Const(TWO31 - 1)), cmpU, cmpS]
    else if IsIncludedIn(eval(l.s), Nonnegative(32)) && IsIncludedIn(eval(r.s), Nonnegative(32)) then
      Coincide(l, cmpS, cmpU, TruncateToSigned(v.lower, 32).ub.value)
    else if IsIncludedIn(eval(l.s), SignedInt(32)) && IsIncludedIn(eval(r.s), SignedInt(32)) then
      [cmpS]
    else []
  }

  function AssumeSigned64Gt(strict: bool, l: Operand, r: Operand, v: Split): seq<Constraint> {
    var cmpS, cmpU := StrictCmp(strict, false, l.s, r.s), StrictCmp(strict, false, l.u, r.u);
    if IsIncludedIn(v.right, Nonnegative(64)) then
      Coincide(l, cmpS, cmpU, TruncateToSigned(v.lower, 64).ub.value)
    else if IsIncludedIn(Join(v.upper, v.lower), Negative(64)) && IsIncludedIn(v.right, Negative(64)) then
      [Compare(GreaterThan, l.u, Const(TWO63 - 1)), cmpU, cmpS]
    else
      [cmpS]
  }

  function AssumeSigned32Gt(eval: Eval, strict: bool, l: Operand, r: Operand, v: Split): seq<Constraint> {
    var cmpS, cmpU := StrictCmp(strict, false, l.s, r.s), StrictCmp(strict, false, l.u, r.u);
    if IsIncludedIn(eval(l.s), SignedInt(32)) && IsIncludedIn(eval(r.s), Nonnegative(32)) then
      Coincide(l, cmpS, cmpU, TruncateToSigned(v.lower, 32).ub.value)
    else if IsIncludedIn(eval(l.s), Negative(32)) && IsIncludedIn(eval(r.s), Negative(32)) then
      [Compare(AtLeast, l.u, Const(TWO31)), cmpU, cmpS]
    else if IsIncludedIn(eval(l.s), SignedInt(32)) && IsIncludedIn(eval(r.s), SignedInt(32)) then
      [cmpS]
    else []
  }

  function AssumeSignedCst(eval: Eval, op: ConditionOp, is64: bool, l: Operand, r: Operand): seq<Constraint> {
    var v := GetSignedIntervals(eval, is64, l, r.s);
    if op == EQ then
      if is64 then AssumeSigned64Eq(l, r, v.right) else AssumeSigned32Eq(eval, l, v.right)
    else
      var isLt := op == SLT || op == SLE;
      var strict := op == SLT || op == SGT;
      var llb, lub := v.left.lb.value, v.left.ub.value;
      var rlb, rub := v.right.lb.value, v.right.ub.value;
      if !isLt && (if strict then lub <= rlb else lub < rlb) then [False]
      else if isLt && (if strict then llb >= rub else llb > rub) then [False]
      else if isLt && (if strict then lub < rlb else lub <= rlb) then [True]
      else if !isLt && (if strict then llb > rub else llb >= rub) then [True]
      else if is64 then
        if isLt then AssumeSigned64Lt(strict, l, r, v) else AssumeSigned64Gt(strict, l, r, v)
      else
        if isLt then AssumeSigned32Lt(eval, strict, l, r, v) else AssumeSigned32Gt(eval, strict, l, r, v)
  }

  // ------------------------------------------------------------------ unsigned comparisons

  /** `l.u <= n` when the signed variable has the finite upper bound `n`. */
  function UpTo(l: Operand, ub: Option<int>): seq<Constraint> {
    if ub.Some? then [Compare(AtMost, l.u, Const(ub.value))] else []
  }

  function AssumeUnsigned64Lt(eval: Eval, strict: bool, l: Operand, r: Operand, v: Split): seq<Constraint>
    requires v.right.ub.Some?
  {
    var rub := v.right.ub.value;
    var lllb, lhlb := TruncateToUnsigned(v.lower, 64).lb.value, TruncateToUnsigned(v.upper, 64).lb.value;
    var cmpS, cmpU := StrictCmp(strict, true, l.s, r.s), StrictCmp(strict, true, l.u, r.u);
    if IsIncludedIn(v.right, Nonnegative(64)) && (if strict then lllb >= rub else lllb > rub) then
      [Compare(AtLeast, l.u, Const(0)), cmpU] + UpTo(l, eval(l.s).ub) + [Compare(AtLeast, l.s, Const(0))]
    else if IsIncludedIn(v.right, UnsignedHigh(64)) && (if strict then lhlb >= rub else lhlb > rub) then
      [Compare(AtLeast, l.u, Const(0)), StrictCmp(strict, true, l.u, Const(rub))]
      + UpTo(l, eval(l.s).ub) + [Compare(AtLeast, l.s, Const(0))]
    else if IsIncludedIn(v.right, SignedInt(64)) then
      [Compare(AtLeast, l.u, Const(0)), cmpU, Compare(AtMost, l.u, Const(TruncateToUnsigned(v.lower, 64).ub.value)),
       Compare(AtLeast, l.s, Const(0)), cmpS]
    else if IsBottom(v.lower) && IsIncludedIn(v.right, UnsignedHigh(64)) then
      [Compare(AtLeast, l.u, Const(0)), cmpU, cmpS]
    else if Equal(Join(v.lower, v.upper), UnsignedInt(64)) then
      [cmpU]
    else
      [Compare(AtLeast, l.u, Const(0)), cmpU]
  }

  function AssumeUnsigned32Lt(eval: Eval, strict: bool, l: Operand, r: Operand): seq<Constraint> {
    var cmpS, cmpU := StrictCmp(strict, true, l.s, r.s), StrictCmp(strict, true, l.u, r.u);
    if IsIncludedIn(eval(l.u), Nonnegative(32)) && IsIncludedIn(eval(r.u), Nonnegative(32)) then
      [Compare(AtLeast, l.u, Const(0)), cmpU, cmpS]
    else if IsIncludedIn(eval(l.s), Negative(32)) && IsIncludedIn(eval(r.s), Negative(32)) then
      [Compare(AtLeast, l.u, Const(0)), cmpU, cmpS]
    else if IsIncludedIn(eval(l.u), UnsignedInt(32)) && IsIncludedIn(eval(r.u), UnsignedInt(32)) then
      [Compare(AtLeast, l.u, Const(0)), cmpU]
    else []
  }

  function AssumeUnsigned64Gt(strict: bool, l: Operand, r: Operand, v: Split): seq<Constraint>
    requires v.right.lb.Some?
  {
    var rlb := v.right.lb.value;
    var llub, lhlb := TruncateToUnsigned(v.lower, 64).ub.value, TruncateToUnsigned(v.upper, 64).lb.value;
    var cmpS, cmpU := StrictCmp(strict, false, l.s, r.s), StrictCmp(strict, false, l.u, r.u);
    if IsIncludedIn(v.right, Nonnegative(64)) && (if strict then llub <= rlb else llub < rlb) then
      [cmpU, Compare(if lhlb == TWO64 - 1 then EqualTo else AtLeast, l.u, Const(lhlb)), Compare(LessThan, l.s, Const(0))]
    else if IsIncludedIn(v.right, UnsignedHigh(64)) then
      [Compare(AtLeast, l.u, Const(0)), cmpU, cmpS]
    else if IsIncludedIn(Join(v.lower, v.upper), Nonnegative(64)) && IsIncludedIn(v.right, Nonnegative(64)) then
      [Compare(AtLeast, l.u, Const(0)), cmpU, cmpS]
    else
      [Compare(AtLeast, l.u, Const(0)), cmpU]
  }

  function AssumeUnsigned32Gt(eval: Eval, strict: bool, l: Operand, r: Operand): seq<Constraint> {
    var cmpS, cmpU := StrictCmp(strict, false, l.s, r.s), StrictCmp(strict, false, l.u, r.u);
    if IsIncludedIn(eval(l.s), SignedInt(32)) && IsIncludedIn(eval(r.s), Negative(32)) then
      [Compare(AtLeast, l.u, Const(0)), cmpU, cmpS]
    else if IsIncludedIn(eval(l.u), UnsignedInt(32)) && IsIncludedIn(eval(r.u), UnsignedInt(32)) then
      [Compare(AtLeast, l.u, Const(0)), cmpU]
    else []
  }

  /** Inequality with a known end point of the left interval is a strict comparison. */
  function ResolveNe(is64: bool, v: Split): Option<(ConditionOp, Interval)> {
    var rn := Singleton(v.right);
    if rn.None? then None
    else if TruncateToUnsigned(v.left, if is64 then 64 else 32).lb == rn then Some((GT, Interval(v.left.lb, v.left.lb)))
    else if v.left.ub == rn then Some((LT, Interval(v.left.ub, v.left.ub)))
    else None
  }

  function AssumeUnsignedCst(eval: Eval, op: ConditionOp, is64: bool, l: Operand, r: Operand): seq<Constraint> {
    var v := GetUnsignedIntervals(eval, is64, l, r.u);
    if op == NE then
      var resolved := ResolveNe(is64, v);
      if resolved.None? then []
      else AssumeUnsignedOrder(eval, resolved.value.0, is64, l, r, v.(right := resolved.value.1))
    else
      AssumeUnsignedOrder(eval, op, is64, l, r, v)
  }

  function AssumeUnsignedOrder(eval: Eval, op: ConditionOp, is64: bool, l: Operand, r: Operand, v: Split): seq<Constraint>
    requires v.left.lb.Some? && v.left.ub.Some? && v.right.lb.Some? && v.right.ub.Some?
  {
    var isLt := op == LT || op == LE;
    var strict := op == LT || op == GT;
    var llb, lub := v.left.lb.value, v.left.ub.value;
    var rlb, rub := v.right.lb.value, v.right.ub.value;
    if isLt && (if strict then llb >= rub else llb > rub) then [False]
    else if !isLt && (if strict then lub <= rlb else lub < rlb) then [False]
    else if isLt && (if strict then lub < rlb else lub <= rlb) then
      if is64 then [StrictCmp(strict, true, l.u, r.u)] else []
    else if !isLt && (if strict then llb > rub else llb >= rub) then
      if is64 then [StrictCmp(strict, false, l.u, r.u)] else []
    else if is64 then
      if isLt then AssumeUnsigned64Lt(eval, strict, l, r, v) else AssumeUnsigned64Gt(strict, l, r, v)
    else
      if isLt then AssumeUnsigned32Lt(eval, strict, l, r) else AssumeUnsigned32Gt(eval, strict, l, r)
  }

  // ------------------------------------------------------------------ bit tests and the entry points

  /** A bit test is decided only between two known numbers. */
  function AssumeBitCst(op: ConditionOp, is64: bool, dst: Interval, src: Interval): seq<Constraint>
    requires op == SET || op == NSET
  {
    var dn, sn := Singleton(dst), Singleton(src);
    if dn.None? || sn.None? || !FitsCastTo(dn.value, 64) || !FitsCastTo(sn.value, 64) then []
    else
      var full := CastToUnsignedWidth(sn.value, 64);
      var srcInt := if is64 then full else ZeroExtend(full, 32);
      var bits := And(CastToUnsignedWidth(dn.value, 64), srcInt);
      [if (op == SET) == (bits != 0) then True else False]
  }

  /** The immediate as an operand: sign-extended, and re-read as unsigned. */
  function Immediate(imm: int): Operand {
    Operand(Const(imm), Const(ZeroExtend(imm, 64)))
  }

  function AssumeCstImm(eval: Eval, op: ConditionOp, is64: bool, dst: Operand, imm: int): seq<Constraint> {
    match op
    case EQ | SGE | SLE | SGT | SLT => AssumeSignedCst(eval, op, is64, dst, Immediate(imm))
    case SET | NSET => AssumeBitCst(op, is64, eval(dst.u), FromNumbers(imm, imm))
    case NE | GE | LE | GT | LT => AssumeUnsignedCst(eval, op, is64, dst, Immediate(imm))
  }

  function AssumeCstReg(eval: Eval, op: ConditionOp, is64: bool, dst: Operand, src: Operand): seq<Constraint> {
    match op
    case EQ =>
      if !is64 then AssumeSignedCst(eval, op, is64, dst, src)
      else if Singleton(eval(src.s)).None? && IsIncludedIn(eval(src.s), Nonnegative(64)) then
        [Compare(EqualTo, dst.s, src.s), Compare(EqualTo, dst.u, src.u), Compare(EqualTo, dst.s, dst.u)]
      else
        [Compare(EqualTo, dst.s, src.s), Compare(EqualTo, dst.u, src.u)]
    case NE => if is64 then [Compare(NotEqualTo, dst.s, src.s)] else AssumeUnsignedCst(eval, op, is64, dst, src)
    case SGE => if is64 then [Compare(AtLeast, dst.s, src.s)] else AssumeSignedCst(eval, op, is64, dst, src)
    case SLE => if is64 then [Compare(AtMost, dst.s, src.s)] else AssumeSignedCst(eval, op, is64, dst, src)
    case SGT => if is64 then [Compare(GreaterThan, dst.s, src.s)] else AssumeSignedCst(eval, op, is64, dst, src)
    case SLT => if is64 then [Compare(GreaterThan, src.s, dst.s)] else AssumeSignedCst(eval, op, is64, dst, src)
    case SET | NSET => AssumeBitCst(op, is64, eval(dst.u), eval(src.u))
    case GE | LE | GT | LT => AssumeUnsignedCst(eval, op, is64, dst, src)
  }
}
