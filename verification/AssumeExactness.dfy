/**
  The converse of soundness: constraints that are emitted are not weaker than the branch condition, so
  a non-empty list is satisfied exactly by the pairs of words that take the branch. A 32-bit equality
  bounds the 64-bit value only, and says all of it exactly when one value is left between the bounds.
*/
module AssumeExactness {
  import opened Wrappers
  import opened Numbers
  import opened Intervals
  import opened Constraints
  import opened Words
  import opened Assume
  import opened AssumeSoundness

  lemma MemberHolds(cs: seq<Constraint>, c: Constraint, env: Env)
    requires AllSatisfied(cs, env) && c in cs
    ensures Satisfied(c, env)
  {
  }

  lemma CmpMeans(env: Env, strict: bool, left: Expr, right: Expr)
    requires Defined(left, env) && Defined(right, env)
    ensures Satisfied(StrictCmp(strict, true, left, right), env) <==> Below(strict, Value(left, env), Value(right, env))
    ensures Satisfied(StrictCmp(strict, false, left, right), env) <==> Below(strict, Value(right, env), Value(left, env))
  {
  }

  // ------------------------------------------------------------------ the comparison is always among the constraints

  lemma SignedCmpEmitted(eval: Eval, strict: bool, l: Operand, r: Operand, v: Split)
    ensures StrictCmp(strict, true, l.s, r.s) in AssumeSigned64Lt(strict, l, r, v)
    ensures StrictCmp(strict, false, l.s, r.s) in AssumeSigned64Gt(strict, l, r, v)
    ensures AssumeSigned32Lt(eval, strict, l, r, v) != [] ==>
      StrictCmp(strict, true, l.s, r.s) in AssumeSigned32Lt(eval, strict, l, r, v)
      && IsIncludedIn(eval(l.s), SignedInt(32)) && IsIncludedIn(eval(r.s), SignedInt(32))
    ensures AssumeSigned32Gt(eval, strict, l, r, v) != [] ==>
      StrictCmp(strict, false, l.s, r.s) in AssumeSigned32Gt(eval, strict, l, r, v)
      && IsIncludedIn(eval(l.s), SignedInt(32)) && IsIncludedIn(eval(r.s), SignedInt(32))
  {
    hide Join, TruncateToSigned, StrictCmp, IsIncludedIn;
    SmallerRanges(eval(l.s));
    SmallerRanges(eval(r.s));
  }

  lemma SmallerRanges(i: Interval)
    ensures IsIncludedIn(i, Nonnegative(32)) || IsIncludedIn(i, Negative(32)) ==> IsIncludedIn(i, SignedInt(32))
    ensures IsIncludedIn(i, Nonnegative(32)) ==> IsIncludedIn(i, UnsignedInt(32))
  {
    Ranges();
  }

  /** Either `l.u` is compared with `r.u`, or `l` is below the top bit and `r` above it. */
  lemma Unsigned64CmpEmitted(eval: Eval, strict: bool, l: Operand, r: Operand, v: Split)
    requires v.right.ub.Some? && v.right.lb.Some?
    ensures var cs := AssumeUnsigned64Lt(eval, strict, l, r, v);
      StrictCmp(strict, true, l.u, r.u) in cs
      || (IsIncludedIn(v.right, UnsignedHigh(64)) && Compare(AtLeast, l.s, Const(0)) in cs)
    ensures StrictCmp(strict, false, l.u, r.u) in AssumeUnsigned64Gt(strict, l, r, v)
  {
    hide Join, TruncateToUnsigned, StrictCmp, IsIncludedIn, Equal, IsBottom, UpTo;
  }

  lemma Unsigned32CmpEmitted(eval: Eval, strict: bool, l: Operand, r: Operand)
    ensures AssumeUnsigned32Lt(eval, strict, l, r) != [] ==>
      StrictCmp(strict, true, l.u, r.u) in AssumeUnsigned32Lt(eval, strict, l, r) && Comparable32(eval, l, r)
    ensures AssumeUnsigned32Gt(eval, strict, l, r) != [] ==>
      StrictCmp(strict, false, l.u, r.u) in AssumeUnsigned32Gt(eval, strict, l, r) && Comparable32(eval, l, r)
  {
    hide StrictCmp, IsIncludedIn;
    SmallerRanges(eval(l.s));
    SmallerRanges(eval(l.u));
    SmallerRanges(eval(r.u));
  }

  /** The 64-bit unsigned readings compare like the low halves. */
  ghost predicate Comparable32(eval: Eval, l: Operand, r: Operand) {
    || (IsIncludedIn(eval(l.s), SignedInt(32)) && IsIncludedIn(eval(r.s), Negative(32)))
    || (IsIncludedIn(eval(l.u), UnsignedInt(32)) && IsIncludedIn(eval(r.u), UnsignedInt(32)))
  }

  // ------------------------------------------------------------------ from the constraints back to the condition

  lemma SignedCstExact(eval: Eval, env: Env, op: ConditionOp, is64: bool, l: Operand, r: Operand, d: Word, s: Word)
    requires Views(eval, env, l, d) && Views(eval, env, r, s)
    requires op == SLT || op == SLE || op == SGT || op == SGE || (op == EQ && is64)
    requires AssumeSignedCst(eval, op, is64, l, r) != [] && AllSatisfied(AssumeSignedCst(eval, op, is64, l, r), env)
    ensures Holds(op, is64, d, s)
  {
    hide GetSignedIntervals, AssumeSigned64Eq, AssumeSigned32Eq, AssumeSigned64Lt, AssumeSigned64Gt, AssumeSigned32Lt, AssumeSigned32Gt;
    hide Low, S32, S64, StrictCmp, IsIncludedIn;
    SignedSplitSound(eval, env, is64, l, r.s, d, s);
    var v := GetSignedIntervals(eval, is64, l, r.s);
    var cs := AssumeSignedCst(eval, op, is64, l, r);
    var strict := op == SLT || op == SGT;
    var isLt := op == SLT || op == SLE;
    CmpMeans(env, strict, l.s, r.s);
    if op == EQ {
      EqEmitted(l, r, v.right);
      MemberHolds(cs, Compare(EqualTo, l.u, r.u), env);
    } else {
      SignedCmpEmitted(eval, strict, l, r, v);
      SmallSigned(eval(l.s), d);
      SmallSigned(eval(r.s), s);
      if StrictCmp(strict, isLt, l.s, r.s) in cs {
        MemberHolds(cs, StrictCmp(strict, isLt, l.s, r.s), env);
      } else {
        MemberHolds(cs, cs[0], env);
      }
    }
  }

  lemma EqEmitted(l: Operand, r: Operand, right: Interval)
    ensures Compare(EqualTo, l.u, r.u) in AssumeSigned64Eq(l, r, right)
  {
    hide IsIncludedIn, Singleton;
  }

  /** The environment gives the pair of variables the two views of the word. */
  ghost predicate Pictures(env: Env, l: Operand, d: Word) {
    Defined(l.s, env) && Value(l.s, env) == S64(d) && Defined(l.u, env) && Value(l.u, env) == d as int
  }

  /** Only one 64-bit value is left between the matches, or none. */
  predicate OneCandidate(eval: Eval, l: Operand, right: Interval) {
    && Singleton(right).Some?
    && var left := TruncateToSigned(eval(l.s), 64);
      var lb, ub := LbMatch(left.lb.value, Singleton(right).value), UbMatch(left.ub.value, Singleton(right).value);
      lb.Some? && ub.Some? && lb.value >= ub.value
  }

  /** A 32-bit equality: with one candidate left, the constraints say that the low halves agree. */
  lemma Signed32EqMeans(eval: Eval, env: Env, l: Operand, right: Interval, d: Word)
    requires OneCandidate(eval, l, right) && Pictures(env, l, d) && AllSatisfied(AssumeSigned32Eq(eval, l, right), env)
    ensures Low(d) == Singleton(right).value % TWO32
  {
    hide TruncateToSigned, ZeroExtend, LbMatch, UbMatch, Low, S64;
    var left := TruncateToSigned(eval(l.s), 64);
    var rn := Singleton(right).value;
    var lb, ub := LbMatch(left.lb.value, rn).value, UbMatch(left.ub.value, rn).value;
    var cs := AssumeSigned32Eq(eval, l, right);
    MemberHolds(cs, Compare(AtLeast, l.s, Const(lb)), env);
    MemberHolds(cs, Compare(AtMost, l.s, Const(ub)), env);
    Truncated64Range(eval(l.s));
    LbMatchIsLeast(left.lb.value, rn);
    LowOfSigned(d);
  }

  /** With more than one, some word between them satisfies all constraints and has another low half. */
  lemma Signed32EqGap(eval: Eval, l: Operand, right: Interval) returns (d: Word)
    requires AssumeSigned32Eq(eval, l, right) != [] && !OneCandidate(eval, l, right)
    ensures Low(d) != Singleton(right).value % TWO32
    ensures forall env :: Pictures(env, l, d) ==> AllSatisfied(AssumeSigned32Eq(eval, l, right), env)
  {
    hide TruncateToSigned, ZeroExtend, LbMatch, UbMatch, Low, S64;
    var left := TruncateToSigned(eval(l.s), 64);
    var rn := Singleton(right).value;
    var lb, ub := LbMatch(left.lb.value, rn).value, UbMatch(left.ub.value, rn).value;
    Truncated64Range(eval(l.s));
    LbMatchIsLeast(left.lb.value, rn);
    UbMatchIsGreatest(left.ub.value, rn);
    d := WordOf(lb + 1);
    LowOfSigned(d);
    NextResidue(lb);
    MatchesHold(d, lb, ub);
  }

  lemma NextResidue(x: int)
    ensures (x + 1) % TWO32 != x % TWO32
  {
  }

  lemma WordOf(x: int) returns (d: Word)
    requires -TWO63 <= x < TWO63
    ensures S64(d) == x
  {
    d := if x >= 0 then x as Word else (x + TWO64) as Word;
  }

  lemma OneRightValue(eval: Eval, l: Operand, right: Interval)
    ensures AssumeSigned32Eq(eval, l, right) != [] || OneCandidate(eval, l, right) ==> Singleton(right).Some?
  {
  }

  /** A 32-bit equality between words: the branch condition, once one candidate is left. */
  lemma Equal32Exact(eval: Eval, env: Env, l: Operand, r: Operand, d: Word, s: Word)
    requires Views(eval, env, l, d) && Views(eval, env, r, s)
    requires OneCandidate(eval, l, GetSignedIntervals(eval, false, l, r.s).right)
    requires AllSatisfied(AssumeSignedCst(eval, EQ, false, l, r), env)
    ensures Holds(EQ, false, d, s)
  {
    hide GetSignedIntervals, AssumeSigned32Eq, OneCandidate, AllSatisfied, S64, S32, Low;
    var right := GetSignedIntervals(eval, false, l, r.s).right;
    OneRightValue(eval, l, right);
    SignedSplitSound(eval, env, false, l, r.s, d, s);
    Signed32EqMeans(eval, env, l, right, d);
    LowOfSigned32(s);
  }

  /** The comparisons whose constraints say all of it: every one but a 32-bit equality with several candidates left. */
  predicate Decided(eval: Eval, op: ConditionOp, is64: bool, l: Operand, r: Operand) {
    op != EQ || is64 || OneCandidate(eval, l, GetSignedIntervals(eval, false, l, r.s).right)
  }

  /** So the constraints of a 32-bit equality mean the equality exactly when one candidate is left. */
  lemma Signed32EqExact(eval: Eval, s: Variable, u: Variable, right: Interval)
    requires s != u && AssumeSigned32Eq(eval, Operand(Var(s), Var(u)), right) != []
    ensures var l := Operand(Var(s), Var(u));
      (forall d, env :: Pictures(env, l, d) && AllSatisfied(AssumeSigned32Eq(eval, l, right), env) ==> Low(d) == Singleton(right).value % TWO32)
        <==> OneCandidate(eval, l, right)
  {
    hide AssumeSigned32Eq, OneCandidate, Low, S64, AllSatisfied;
    var l := Operand(Var(s), Var(u));
    OneRightValue(eval, l, right);
    if OneCandidate(eval, l, right) {
      forall d, env | Pictures(env, l, d) && AllSatisfied(AssumeSigned32Eq(eval, l, right), env) ensures Low(d) == Singleton(right).value % TWO32 {
        Signed32EqMeans(eval, env, l, right, d);
      }
    } else {
      var d := Signed32EqGap(eval, l, right);
      var env: Env := map[s := S64(d), u := d as int];
      assert Pictures(env, l, d);
    }
  }

  lemma UnsignedOrderExact(eval: Eval, env: Env, op: ConditionOp, is64: bool, l: Operand, r: Operand, v: Split, d: Word, s: Word)
    requires Views(eval, env, l, d) && Views(eval, env, r, s)
    requires v.left.lb.Some? && v.left.ub.Some? && v.right.lb.Some? && v.right.ub.Some?
    requires Contains(v.left, Unsigned(is64, d)) && Contains(v.right, Unsigned(is64, s))
    requires op == LT || op == LE || op == GT || op == GE
    requires AssumeUnsignedOrder(eval, op, is64, l, r, v) != [] && AllSatisfied(AssumeUnsignedOrder(eval, op, is64, l, r, v), env)
    ensures Holds(op, is64, d, s)
  {
    hide AssumeUnsigned64Lt, AssumeUnsigned64Gt, AssumeUnsigned32Lt, AssumeUnsigned32Gt, Low, S32, S64, StrictCmp, IsIncludedIn, Comparable32;
    var cs := AssumeUnsignedOrder(eval, op, is64, l, r, v);
    var strict := op == LT || op == GT;
    var isLt := op == LT || op == LE;
    CmpMeans(env, strict, l.u, r.u);
    Unsigned64CmpEmitted(eval, strict, l, r, v);
    Unsigned32CmpEmitted(eval, strict, l, r);
    LowsCompare(eval, env, l, r, d, s);
    Half64(v.right, Unsigned(is64, s));
    SameHalf(d);
    if StrictCmp(strict, isLt, l.u, r.u) in cs {
      MemberHolds(cs, StrictCmp(strict, isLt, l.u, r.u), env);
    } else if Compare(AtLeast, l.s, Const(0)) in cs {
      MemberHolds(cs, Compare(AtLeast, l.s, Const(0)), env);
    } else {
      MemberHolds(cs, cs[0], env);
    }
  }

  lemma LowsCompare(eval: Eval, env: Env, l: Operand, r: Operand, d: Word, s: Word)
    requires Views(eval, env, l, d) && Views(eval, env, r, s)
    ensures Comparable32(eval, l, r) ==> (d as int < s as int <==> Low(d) < Low(s))
    ensures Comparable32(eval, l, r) ==> (d as int > s as int <==> Low(d) > Low(s))
  {
    hide IsIncludedIn, Low, S32, S64;
    SmallSigned(eval(l.s), d);
    SmallSigned(eval(r.s), s);
    SmallUnsigned(eval(l.u), d);
    SmallUnsigned(eval(r.u), s);
    SameHalf(d);
    SameHalf(s);
    LowFits(d);
    LowFits(s);
  }

  lemma UnsignedCstExact(eval: Eval, env: Env, op: ConditionOp, is64: bool, l: Operand, r: Operand, d: Word, s: Word)
    requires Views(eval, env, l, d) && Views(eval, env, r, s)
    requires op == NE || op == LT || op == LE || op == GT || op == GE
    requires AssumeUnsignedCst(eval, op, is64, l, r) != [] && AllSatisfied(AssumeUnsignedCst(eval, op, is64, l, r), env)
    ensures Holds(op, is64, d, s)
  {
    hide GetUnsignedIntervals, AssumeUnsignedOrder, Low, S32, S64, TruncateToUnsigned;
    UnsignedSplitSound(eval, env, is64, l, r, d, s);
    var v := GetUnsignedIntervals(eval, is64, l, r.u);
    if op == NE {
      var p := ResolveNe(is64, v).value;
      UnsignedLeftRange(eval, env, is64, l, r, d);
      SameLower(v.left, if is64 then 64 else 32);
      if Unsigned(is64, d) != Unsigned(is64, s) {
      } else {
        UnsignedOrderExact(eval, env, p.0, is64, l, r, v.(right := p.1), d, s);
      }
    } else {
      UnsignedOrderExact(eval, env, op, is64, l, r, v, d, s);
    }
  }

  lemma BitCstExact(env: Env, op: ConditionOp, is64: bool, dst: Interval, src: Interval, d: Word, s: Word)
    requires op == SET || op == NSET
    requires Contains(dst, d as int) && (Contains(src, s as int) || Contains(src, S64(s)))
    requires AssumeBitCst(op, is64, dst, src) != [] && AllSatisfied(AssumeBitCst(op, is64, dst, src), env)
    ensures Holds(op, is64, d, s)
  {
    hide Holds, S64, AssumeBitCst;
    var other := if op == SET then NSET else SET;
    OppositeBits(op, is64, dst, src);
    if !Holds(op, is64, d, s) {
      Opposite(op, is64, d, s);
      BitCstSound(env, other, is64, dst, src, d, s);
      MemberHolds(AssumeBitCst(op, is64, dst, src), AssumeBitCst(op, is64, dst, src)[0], env);
      MemberHolds(AssumeBitCst(other, is64, dst, src), AssumeBitCst(other, is64, dst, src)[0], env);
    }
  }

  lemma Opposite(op: ConditionOp, is64: bool, d: Word, s: Word)
    requires op == SET || op == NSET
    ensures Holds(op, is64, d, s) <==> !Holds(if op == SET then NSET else SET, is64, d, s)
  {
  }

  /** The two bit tests never both say true. */
  lemma OppositeBits(op: ConditionOp, is64: bool, dst: Interval, src: Interval)
    requires op == SET || op == NSET
    ensures var a, b := AssumeBitCst(op, is64, dst, src), AssumeBitCst(if op == SET then NSET else SET, is64, dst, src);
      a != [] ==> b != [] && (a[0] == False || b[0] == False)
  {
    hide And, ZeroExtend, FitsCastTo;
  }

  /** With an immediate: a non-empty list is satisfied exactly when the branch is taken. */
  lemma AssumeCstImmExact(eval: Eval, env: Env, op: ConditionOp, is64: bool, dst: Operand, imm: int, d: Word)
    requires ConstantsKnown(eval) && Views(eval, env, dst, d) && -TWO63 <= imm < TWO63
    requires AssumeCstImm(eval, op, is64, dst, imm) != []
    ensures Holds(op, is64, d, ImmediateWord(imm)) ==> AllSatisfied(AssumeCstImm(eval, op, is64, dst, imm), env)
    ensures Decided(eval, op, is64, dst, Immediate(imm)) ==>
      (AllSatisfied(AssumeCstImm(eval, op, is64, dst, imm), env) <==> Holds(op, is64, d, ImmediateWord(imm)))
  {
    hide AssumeSignedCst, AssumeUnsignedCst, AssumeBitCst, Holds, S64, Immediate, ImmediateWord, AllSatisfied;
    ImmediateViews(eval, env, imm);
    var s := ImmediateWord(imm);
    if Holds(op, is64, d, s) {
      AssumeCstImmSound(eval, env, op, is64, dst, imm, d);
    }
    if Decided(eval, op, is64, dst, Immediate(imm)) && AllSatisfied(AssumeCstImm(eval, op, is64, dst, imm), env) {
      match op {
        case EQ =>
          if is64 {
            SignedCstExact(eval, env, op, is64, dst, Immediate(imm), d, s);
          } else {
            Equal32Exact(eval, env, dst, Immediate(imm), d, s);
          }
        case SGE | SLE | SGT | SLT => SignedCstExact(eval, env, op, is64, dst, Immediate(imm), d, s);
        case SET | NSET => BitCstExact(env, op, is64, eval(dst.u), FromNumbers(imm, imm), d, s);
        case NE | GE | LE | GT | LT => UnsignedCstExact(eval, env, op, is64, dst, Immediate(imm), d, s);
      }
    }
  }

  /** With two registers. */
  lemma AssumeCstRegExact(eval: Eval, env: Env, op: ConditionOp, is64: bool, dst: Operand, src: Operand, d: Word, s: Word)
    requires Views(eval, env, dst, d) && Views(eval, env, src, s)
    requires AssumeCstReg(eval, op, is64, dst, src) != []
    ensures Holds(op, is64, d, s) ==> AllSatisfied(AssumeCstReg(eval, op, is64, dst, src), env)
    ensures Decided(eval, op, is64, dst, src) ==> (AllSatisfied(AssumeCstReg(eval, op, is64, dst, src), env) <==> Holds(op, is64, d, s))
  {
    hide AssumeSignedCst, AssumeUnsignedCst, AssumeBitCst, IsIncludedIn, Low, S32, And;
    if Holds(op, is64, d, s) {
      AssumeCstRegSound(eval, env, op, is64, dst, src, d, s);
    }
    if Decided(eval, op, is64, dst, src) && AllSatisfied(AssumeCstReg(eval, op, is64, dst, src), env) {
      if op == SET || op == NSET {
        BitCstExact(env, op, is64, eval(dst.u), eval(src.u), d, s);
      } else if op == GE || op == LE || op == GT || op == LT || (op == NE && !is64) {
        UnsignedCstExact(eval, env, op, is64, dst, src, d, s);
      } else if !is64 && op == EQ {
        Equal32Exact(eval, env, dst, src, d, s);
      } else if !is64 {
        SignedCstExact(eval, env, op, is64, dst, src, d, s);
      } else {
        MemberHolds(AssumeCstReg(eval, op, is64, dst, src), AssumeCstReg(eval, op, is64, dst, src)[0], env);
        SameHalf(d);
        SameHalf(s);
      }
    }
  }

  // ------------------------------------------------------------------ the views are no wider than needed

  lemma SignedViewOf(i: Interval, is64: bool, wide: bool, r: Interval)
    requires is64 ==> wide
    requires wide && !is64 ==> IsIncludedIn(i, Nonnegative(32)) || IsIncludedIn(i, Negative(32))
    requires !IsBottom(i) && forall n :: Contains(i, n) ==> Contains(r, SignExtend(n, if is64 then 64 else 32))
    ensures IsIncludedIn(TruncateToSigned(if wide then i else TruncateToSigned(i, 32), 64), r)
  {
    hide Pow2, SignExtend, TruncateToSigned, Meet;
    Ranges();
    Pow2Values();
    if wide {
      forall n | Contains(i, n) ensures Contains(r, SignExtend(n, 64)) {
        if !is64 {
          SignedSmall(n, 32);
          SignedSmall(n, 64);
        }
      }
      SignedViewIsLeast(i, 64, r);
    } else {
      var t := TruncateToSigned(i, 32);
      SignedViewIsLeast(i, 32, r);
      forall n | Contains(t, n) ensures Contains(r, SignExtend(n, 64)) {
        SignedSmall(n, 64);
      }
      SignedViewIsLeast(t, 64, r);
    }
  }

  lemma UnsignedViewOf(i: Interval, is64: bool, wide: bool, r: Interval)
    requires is64 ==> wide
    requires wide && !is64 ==> IsIncludedIn(i, Nonnegative(32)) || IsIncludedIn(i, UnsignedHigh(32))
    requires !IsBottom(i) && forall n :: Contains(i, n) ==> Contains(r, ZeroExtend(n, if is64 then 64 else 32))
    ensures IsIncludedIn(TruncateToUnsigned(if wide then i else TruncateToUnsigned(i, 32), 64), r)
  {
    hide Pow2, ZeroExtend, TruncateToUnsigned, Meet;
    Ranges();
    Pow2Values();
    if wide {
      forall n | Contains(i, n) ensures Contains(r, ZeroExtend(n, 64)) {
        if !is64 {
          UnsignedSmall(n, 32);
          UnsignedSmall(n, 64);
        }
      }
      UnsignedViewIsLeast(i, 64, r);
    } else {
      var t := TruncateToUnsigned(i, 32);
      UnsignedViewIsLeast(i, 32, r);
      forall n | Contains(t, n) ensures Contains(r, ZeroExtend(n, 64)) {
        UnsignedSmall(n, 64);
      }
      UnsignedViewIsLeast(t, 64, r);
    }
  }

  /** The interval holds what a comparison of that width looks at, for every member of `i`. */
  ghost predicate HoldsSigned(r: Interval, i: Interval, is64: bool) {
    forall n :: Contains(i, n) ==> Contains(r, SignExtend(n, if is64 then 64 else 32))
  }

  ghost predicate HoldsUnsigned(r: Interval, i: Interval, is64: bool) {
    forall n :: Contains(i, n) ==> Contains(r, ZeroExtend(n, if is64 then 64 else 32))
  }

  /**
    The interval of a signed comparison's operand is the smallest that holds what the comparison looks at, and
    its halves hold nothing that the operand's interval, or its 32-bit reading, does not.
  */
  lemma SignedSplitIsLeast(eval: Eval, is64: bool, l: Operand, rightS: Expr, r: Interval)
    requires !IsBottom(eval(l.s)) && !IsTop(eval(l.s)) && !IsBottom(eval(rightS))
    ensures var v := GetSignedIntervals(eval, is64, l, rightS);
      && (HoldsSigned(r, eval(l.s), is64) ==> IsIncludedIn(v.left, r))
      && (HoldsSigned(r, eval(rightS), is64) ==> IsIncludedIn(v.right, r))
      && (forall n :: Contains(v.lower, n) ==> 0 <= n && (Contains(eval(l.s), n) || Contains(TruncateToSigned(eval(l.s), 32), n)))
      && (forall n :: Contains(v.upper, n) ==> n < 0 && (Contains(eval(l.s), n) || Contains(TruncateToSigned(eval(l.s), 32), n)))
      && (is64 ==> forall n :: Contains(v.lower, n) || Contains(v.upper, n) ==> Contains(eval(l.s), n))
  {
    hide Pow2, SignExtend, TruncateToSigned, Meet;
    Ranges();
    var left0, right0 := eval(l.s), eval(rightS);
    var wide := is64 || Agree(left0, right0, Nonnegative(32), Negative(32));
    if HoldsSigned(r, left0, is64) {
      SignedViewOf(left0, is64, wide, r);
    }
    if HoldsSigned(r, right0, is64) {
      SignedViewOf(right0, is64, wide, r);
    }
  }

  lemma UnsignedSplitIsLeast(eval: Eval, is64: bool, l: Operand, rightU: Expr, r: Interval)
    requires !IsBottom(eval(l.u)) && !IsTop(eval(l.u)) && !IsBottom(eval(rightU))
    ensures var v := GetUnsignedIntervals(eval, is64, l, rightU);
      && (HoldsUnsigned(r, eval(l.u), is64) ==> IsIncludedIn(v.left, r))
      && (HoldsUnsigned(r, eval(rightU), is64) ==> IsIncludedIn(v.right, r))
      && (forall n :: Contains(v.lower, n) ==> 0 <= n < TWO63 && (Contains(eval(l.u), n) || Contains(TruncateToUnsigned(eval(l.u), 32), n)))
      && (forall n :: Contains(v.upper, n) ==> TWO31 <= n && (Contains(eval(l.u), n) || Contains(TruncateToUnsigned(eval(l.u), 32), n)))
      && (is64 ==> forall n :: Contains(v.lower, n) || Contains(v.upper, n) ==> Contains(eval(l.u), n))
  {
    hide Pow2, ZeroExtend, TruncateToUnsigned, Meet;
    Ranges();
    var left0, right0 := eval(l.u), eval(rightU);
    var wide := is64 || Agree(left0, right0, Nonnegative(32), UnsignedHigh(32));
    if HoldsUnsigned(r, left0, is64) {
      UnsignedViewOf(left0, is64, wide, r);
    }
    if HoldsUnsigned(r, right0, is64) {
      UnsignedViewOf(right0, is64, wide, r);
    }
  }

  // ------------------------------------------------------------------ both views are constrained

  /**
    Where the intervals show that the other view is ordered alike, it is compared too: the domain need not
    know how the two variables of a register hang together.
  */
  lemma SignedBothViews(eval: Eval, strict: bool, l: Operand, r: Operand, v: Split)
    ensures var left := Join(v.upper, v.lower);
      IsIncludedIn(v.right, Negative(64)) || (IsIncludedIn(left, Nonnegative(64)) && IsIncludedIn(v.right, Nonnegative(64))) ==>
        StrictCmp(strict, true, l.u, r.u) in AssumeSigned64Lt(strict, l, r, v)
    ensures IsIncludedIn(v.right, Nonnegative(64)) || (IsIncludedIn(Join(v.upper, v.lower), Negative(64)) && IsIncludedIn(v.right, Negative(64))) ==>
      StrictCmp(strict, false, l.u, r.u) in AssumeSigned64Gt(strict, l, r, v)
    ensures IsIncludedIn(v.right, Nonnegative(64)) ==> SameViews(AssumeSigned64Gt(strict, l, r, v), l)
    ensures IsIncludedIn(eval(l.s), SignedInt(32)) && IsIncludedIn(eval(r.s), Negative(32)) ==>
      StrictCmp(strict, true, l.u, r.u) in AssumeSigned32Lt(eval, strict, l, r, v)
      && Compare(GreaterThan, l.u, Const(TWO31 - 1)) in AssumeSigned32Lt(eval, strict, l, r, v)
    ensures IsIncludedIn(eval(l.s), Nonnegative(32)) && IsIncludedIn(eval(r.s), Nonnegative(32)) ==>
      StrictCmp(strict, true, l.u, r.u) in AssumeSigned32Lt(eval, strict, l, r, v)
    ensures IsIncludedIn(eval(l.s), SignedInt(32)) && IsIncludedIn(eval(r.s), Nonnegative(32)) ==>
      StrictCmp(strict, false, l.u, r.u) in AssumeSigned32Gt(eval, strict, l, r, v) && SameViews(AssumeSigned32Gt(eval, strict, l, r, v), l)
    ensures IsIncludedIn(eval(l.s), Negative(32)) && IsIncludedIn(eval(r.s), Negative(32)) ==>
      StrictCmp(strict, false, l.u, r.u) in AssumeSigned32Gt(eval, strict, l, r, v)
  {
    hide StrictCmp, TruncateToSigned;
    Ranges();
  }

  /** The two variables of the operand are one number that is not negative. */
  ghost predicate SameViews(cs: seq<Constraint>, l: Operand) {
    Compare(AtMost, l.s, l.u) in cs && Compare(AtLeast, l.s, l.u) in cs && Compare(AtLeast, l.s, Const(0)) in cs
  }

  lemma EqualBothViews(eval: Eval, l: Operand, r: Operand, right: Interval)
    ensures Compare(EqualTo, l.s, r.s) in AssumeSigned64Eq(l, r, right) && Compare(EqualTo, l.u, r.u) in AssumeSigned64Eq(l, r, right)
    ensures IsIncludedIn(right, Nonnegative(64)) && Singleton(right).None? ==> Compare(EqualTo, l.s, l.u) in AssumeSigned64Eq(l, r, right)
    ensures Compare(EqualTo, l.s, r.s) in AssumeCstReg(eval, EQ, true, l, r) && Compare(EqualTo, l.u, r.u) in AssumeCstReg(eval, EQ, true, l, r)
    ensures IsIncludedIn(eval(r.s), Nonnegative(64)) && Singleton(eval(r.s)).None? ==>
      Compare(EqualTo, l.s, l.u) in AssumeCstReg(eval, EQ, true, l, r)
  {
    hide IsIncludedIn, Singleton;
  }

  lemma UnsignedBothViews(eval: Eval, strict: bool, l: Operand, r: Operand, v: Split)
    requires v.right.lb.Some? && v.right.ub.Some?
    ensures var low := TruncateToUnsigned(v.lower, 64);
      IsIncludedIn(v.right, SignedInt(64)) && !IsBottom(v.right) && !(if strict then low.lb.value >= v.right.ub.value else low.lb.value > v.right.ub.value) ==>
        StrictCmp(strict, true, l.s, r.s) in AssumeUnsigned64Lt(eval, strict, l, r, v) && Compare(AtLeast, l.s, Const(0)) in AssumeUnsigned64Lt(eval, strict, l, r, v)
        && Compare(AtMost, l.u, Const(low.ub.value)) in AssumeUnsigned64Lt(eval, strict, l, r, v)
    ensures IsIncludedIn(Join(v.lower, v.upper), Nonnegative(64)) && IsIncludedIn(v.right, Nonnegative(64)) ==>
      StrictCmp(strict, false, l.s, r.s) in AssumeUnsigned64Gt(strict, l, r, v)
      || Compare(LessThan, l.s, Const(0)) in AssumeUnsigned64Gt(strict, l, r, v)
    ensures IsIncludedIn(v.right, UnsignedHigh(64)) && !IsBottom(v.right) ==> StrictCmp(strict, false, l.s, r.s) in AssumeUnsigned64Gt(strict, l, r, v)
    ensures IsIncludedIn(eval(l.u), Nonnegative(32)) && IsIncludedIn(eval(r.u), Nonnegative(32)) ==>
      StrictCmp(strict, true, l.s, r.s) in AssumeUnsigned32Lt(eval, strict, l, r)
    ensures IsIncludedIn(eval(l.s), Negative(32)) && IsIncludedIn(eval(r.s), Negative(32)) ==>
      StrictCmp(strict, true, l.s, r.s) in AssumeUnsigned32Lt(eval, strict, l, r)
    ensures IsIncludedIn(eval(l.s), SignedInt(32)) && IsIncludedIn(eval(r.s), Negative(32)) ==>
      StrictCmp(strict, false, l.s, r.s) in AssumeUnsigned32Gt(eval, strict, l, r)
  {
    hide StrictCmp, TruncateToUnsigned, UpTo;
    Ranges();
  }

  // ------------------------------------------------------------------ when anything is emitted

  /** The ends of the two intervals settle `left < right`, or `<=`: for all pairs, or for none. */
  predicate EndsSettle(strict: bool, left: Interval, right: Interval)
    requires left.lb.Some? && left.ub.Some? && right.lb.Some? && right.ub.Some?
  {
    EndsRefute(strict, left, right) || (if strict then left.ub.value < right.lb.value else left.ub.value <= right.lb.value)
  }

  predicate EndsRefute(strict: bool, left: Interval, right: Interval)
    requires left.lb.Some? && left.ub.Some? && right.lb.Some? && right.ub.Some?
  {
    if strict then left.lb.value >= right.ub.value else left.lb.value > right.ub.value
  }

  /** A 32-bit signed order comparison says something exactly when the ends settle it or both registers are sign-extended. */
  lemma Signed32Emits(eval: Eval, op: ConditionOp, l: Operand, r: Operand)
    requires op == SLT || op == SLE || op == SGT || op == SGE
    ensures var v := GetSignedIntervals(eval, false, l, r.s);
      var strict := op == SLT || op == SGT;
      AssumeSignedCst(eval, op, false, l, r) != [] <==>
        (if op == SLT || op == SLE then EndsSettle(strict, v.left, v.right) else EndsSettle(strict, v.right, v.left))
        || (IsIncludedIn(eval(l.s), SignedInt(32)) && IsIncludedIn(eval(r.s), SignedInt(32)))
  {
    hide GetSignedIntervals, IsIncludedIn, TruncateToSigned, StrictCmp;
    SmallerRanges(eval(l.s));
    SmallerRanges(eval(r.s));
  }

  /** A 32-bit equality does when the right value is known and some match of it lies on each side within 64 bits. */
  lemma Equal32Emits(eval: Eval, l: Operand, r: Operand)
    ensures var right, left := GetSignedIntervals(eval, false, l, r.s).right, TruncateToSigned(eval(l.s), 64);
      AssumeSignedCst(eval, EQ, false, l, r) != [] <==>
        Singleton(right).Some?
        && LbMatch(left.lb.value, Singleton(right).value).Some? && UbMatch(left.ub.value, Singleton(right).value).Some?
  {
    hide GetSignedIntervals, TruncateToSigned, ZeroExtend, LbMatch, UbMatch;
  }

  /** The registers' readings show that the 64-bit unsigned order is that of the low halves, as far as the code looks. */
  predicate Lows32(eval: Eval, isLt: bool, l: Operand, r: Operand) {
    || (IsIncludedIn(eval(l.u), UnsignedInt(32)) && IsIncludedIn(eval(r.u), UnsignedInt(32)))
    || (IsIncludedIn(eval(l.s), if isLt then Negative(32) else SignedInt(32)) && IsIncludedIn(eval(r.s), Negative(32)))
  }

  /** An unsigned order comparison of 64 bits always does; of 32 bits when it is refuted, or open and the registers are zero-extended. */
  lemma UnsignedOrderEmits(eval: Eval, op: ConditionOp, is64: bool, l: Operand, r: Operand, v: Split)
    requires v.left.lb.Some? && v.left.ub.Some? && v.right.lb.Some? && v.right.ub.Some?
    requires op == LT || op == LE || op == GT || op == GE
    ensures var isLt, strict := op == LT || op == LE, op == LT || op == GT;
      AssumeUnsignedOrder(eval, op, is64, l, r, v) != [] <==>
        is64
        || (if isLt then EndsRefute(strict, v.left, v.right) else EndsRefute(strict, v.right, v.left))
        || (Lows32(eval, isLt, l, r) && !(if isLt then EndsSettle(strict, v.left, v.right) else EndsSettle(strict, v.right, v.left)))
  {
    hide AssumeUnsigned64Lt, AssumeUnsigned64Gt, IsIncludedIn, TruncateToUnsigned, StrictCmp;
    SmallerRanges(eval(l.u));
    SmallerRanges(eval(r.u));
    Unsigned64CmpEmitted(eval, op == LT || op == GT, l, r, v);
  }

  /** An inequality does when the right value is known and an end of the left interval, and the strict comparison it becomes does. */
  lemma NotEqualEmits(eval: Eval, is64: bool, l: Operand, r: Operand)
    ensures var v := GetUnsignedIntervals(eval, is64, l, r.u);
      var low, high := TruncateToUnsigned(v.left, if is64 then 64 else 32).lb, v.left.ub;
      AssumeUnsignedCst(eval, NE, is64, l, r) != [] <==>
        Singleton(v.right).Some? && (Singleton(v.right) == low || Singleton(v.right) == high)
        && (is64 || AssumeUnsignedOrder(eval, if Singleton(v.right) == low then GT else LT, false, l, r,
          v.(right := if Singleton(v.right) == low then Interval(v.left.lb, v.left.lb) else Interval(high, high))) != [])
  {
    hide GetUnsignedIntervals, AssumeUnsignedOrder, TruncateToUnsigned;
    var v := GetUnsignedIntervals(eval, is64, l, r.u);
    if ResolveNe(is64, v).Some? {
      var p := ResolveNe(is64, v).value;
      UnsignedOrderEmits(eval, p.0, is64, l, r, v.(right := p.1));
    }
  }

  /** A bit test does when both operands are known numbers of 64 bits. */
  lemma BitEmits(op: ConditionOp, is64: bool, dst: Interval, src: Interval)
    requires op == SET || op == NSET
    ensures AssumeBitCst(op, is64, dst, src) != [] <==>
      Singleton(dst).Some? && Singleton(src).Some? && FitsCastTo(Singleton(dst).value, 64) && FitsCastTo(Singleton(src).value, 64)
  {
    hide And, ZeroExtend, FitsCastTo;
  }

  lemma SignedNeverEmpty(eval: Eval, op: ConditionOp, l: Operand, r: Operand)
    ensures AssumeSignedCst(eval, op, true, l, r) != []
  {
    hide GetSignedIntervals, AssumeSigned64Lt, AssumeSigned64Gt, AssumeSigned64Eq;
    var v := GetSignedIntervals(eval, true, l, r.s);
    var strict := op == SLT || op == SGT;
    SignedCmpEmitted(eval, strict, l, r, v);
    EqEmitted(l, r, v.right);
  }

  lemma UnsignedNeverEmpty(eval: Eval, op: ConditionOp, l: Operand, r: Operand)
    requires op != NE
    ensures AssumeUnsignedCst(eval, op, true, l, r) != []
  {
    hide GetUnsignedIntervals, AssumeUnsigned64Lt, AssumeUnsigned64Gt;
    var v := GetUnsignedIntervals(eval, true, l, r.u);
    var strict := op == LT || op == GT;
    Unsigned64CmpEmitted(eval, strict, l, r, v);
  }

  /** In 64 bits the order comparisons and equality always say something. */
  lemma Assume64NeverEmpty(eval: Eval, op: ConditionOp, dst: Operand, src: Operand, imm: int)
    requires op != SET && op != NSET
    ensures AssumeCstReg(eval, op, true, dst, src) != []
    ensures op != NE ==> AssumeCstImm(eval, op, true, dst, imm) != []
  {
    hide AssumeSignedCst, AssumeUnsignedCst, IsIncludedIn, Singleton;
    SignedNeverEmpty(eval, op, dst, Immediate(imm));
    if op != NE {
      UnsignedNeverEmpty(eval, op, dst, src);
      UnsignedNeverEmpty(eval, op, dst, Immediate(imm));
    }
  }
}
