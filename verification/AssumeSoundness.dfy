/** Every constraint a branch emits holds of every pair of words that takes the branch. */
module AssumeSoundness {
  import opened Wrappers
  import opened Numbers
  import opened Intervals
  import opened Constraints
  import opened Words
  import opened Assume

  /** An operand's expressions are the two readings of the word `w`, and the domain's intervals hold them. */
  ghost predicate Views(eval: Eval, env: Env, o: Operand, w: Word) {
    && Defined(o.s, env) && Value(o.s, env) == S64(w) && Contains(eval(o.s), S64(w))
    && Defined(o.u, env) && Value(o.u, env) == w as int && Contains(eval(o.u), w as int)
  }

  /** The value a signed comparison looks at. */
  ghost function Signed(is64: bool, w: Word): int {
    if is64 then S64(w) else S32(w)
  }

  /** The value an unsigned comparison looks at. */
  ghost function Unsigned(is64: bool, w: Word): int {
    if is64 then w as int else Low(w)
  }

  /** `x < y`, or `x <= y` when not strict. */
  ghost predicate Below(strict: bool, x: int, y: int) {
    if strict then x < y else x <= y
  }

  // ------------------------------------------------------------------ small ranges

  lemma SmallSigned(i: Interval, w: Word)
    requires Contains(i, S64(w))
    ensures IsIncludedIn(i, SignedInt(32)) ==> -TWO31 <= S64(w) < TWO31 && S32(w) == S64(w)
    ensures IsIncludedIn(i, SignedInt(32)) ==> Low(w) == if S64(w) >= 0 then S64(w) else S64(w) + TWO32
    ensures IsIncludedIn(i, Nonnegative(32)) ==> 0 <= S64(w) < TWO31 && S32(w) == S64(w) == w as int == Low(w)
    ensures IsIncludedIn(i, Negative(32)) ==> -TWO31 <= S64(w) < 0 && S32(w) == S64(w) == w as int - TWO64 == Low(w) - TWO32
  {
    Ranges();
    LowOfSigned(w);
    var x := S64(w);
    if -TWO31 <= x < 0 {
      ModUnique(x, -1, x + TWO32, TWO32);
    }
    if 0 <= x < TWO31 {
      ModUnique(x, 0, x, TWO32);
    }
  }

  lemma SmallUnsigned(i: Interval, w: Word)
    requires Contains(i, w as int)
    ensures IsIncludedIn(i, UnsignedInt(32)) ==> Low(w) == w as int
    ensures IsIncludedIn(i, Nonnegative(32)) ==> w as int < TWO31 && Low(w) == w as int
    ensures IsIncludedIn(i, UnsignedHigh(32)) ==> Low(w) == w as int
  {
    Ranges();
    if w as int < TWO32 {
      ModUnique(w as int, 0, w as int, TWO32);
    }
  }

  // ------------------------------------------------------------------ the views of the operands

  /** What the halves say about the compared value `x`. */
  ghost predicate HalvesHold(v: Split, x: int) {
    && (x >= 0 ==> Contains(v.lower, x))
    && (IsIncludedIn(Join(v.upper, v.lower), Nonnegative(64)) ==> x >= 0)
    && (IsIncludedIn(Join(v.upper, v.lower), Negative(64)) ==> x < 0)
  }

  lemma SignedTwice(i: Interval, w: Word)
    requires Contains(i, S64(w))
    ensures Contains(TruncateToSigned(i, 64), S64(w))
    ensures Contains(TruncateToSigned(i, 32), S32(w))
    ensures Contains(TruncateToSigned(TruncateToSigned(i, 32), 64), S32(w))
  {
    hide TruncateToSigned, S64, S32, SignExtend, ZeroExtend, Low, Contains;
    WordViews(w);
    assert Contains(TruncateToSigned(i, 32), SignExtend(S64(w), 32));
    assert Contains(TruncateToSigned(i, 64), SignExtend(S64(w), 64));
    assert Contains(TruncateToSigned(TruncateToSigned(i, 32), 64), SignExtend(S32(w), 64));
  }

  lemma SignedOfUnsigned(i: Interval, w: Word)
    requires Contains(i, w as int)
    ensures Contains(TruncateToSigned(i, 64), S64(w))
  {
    hide TruncateToSigned, S64, S32, SignExtend, ZeroExtend, Low, Contains;
    WordViews(w);
    assert Contains(TruncateToSigned(i, 64), SignExtend(w as int, 64));
  }

  lemma UnsignedTwice(i: Interval, w: Word)
    requires Contains(i, w as int)
    ensures Contains(TruncateToUnsigned(i, 64), w as int)
    ensures Contains(TruncateToUnsigned(i, 32), Low(w))
    ensures Contains(TruncateToUnsigned(TruncateToUnsigned(i, 32), 64), Low(w))
    ensures Contains(TruncateToUnsigned(TruncateToUnsigned(i, 32), 32), Low(w))
  {
    hide TruncateToUnsigned, S64, S32, SignExtend, ZeroExtend, Low, Contains;
    WordViews(w);
    Extend32(Low(w));
    LowFits(w);
    assert Contains(TruncateToUnsigned(i, 32), ZeroExtend(w as int, 32));
    assert Contains(TruncateToUnsigned(i, 64), ZeroExtend(w as int, 64));
    assert Contains(TruncateToUnsigned(TruncateToUnsigned(i, 32), 64), ZeroExtend(Low(w), 64));
    assert Contains(TruncateToUnsigned(TruncateToUnsigned(i, 32), 32), ZeroExtend(Low(w), 32));
  }

  lemma LowFits(w: Word)
    ensures 0 <= Low(w) < TWO32 && Low(w) % TWO32 == Low(w)
  {
    DivMod(w as int, TWO32);
    ModUnique(Low(w), 0, Low(w), TWO32);
  }

  lemma UnsignedOfSigned(i: Interval, w: Word)
    requires Contains(i, S64(w))
    ensures Contains(TruncateToUnsigned(i, 64), w as int)
  {
    hide TruncateToUnsigned, S64, S32, SignExtend, ZeroExtend, Low, Contains;
    WordViews(w);
    assert Contains(TruncateToUnsigned(i, 64), ZeroExtend(S64(w), 64));
  }

  /** The left view alone, whatever the right operand is. */
  lemma SignedLeftSound(eval: Eval, env: Env, is64: bool, l: Operand, rightS: Expr, d: Word)
    requires Views(eval, env, l, d)
    ensures Contains(GetSignedIntervals(eval, is64, l, rightS).left, Signed(is64, d))
  {
    hide TruncateToSigned, Low, S32, SignExtend, Join, Meet, IsIncludedIn;
    SmallSigned(eval(l.s), d);
    SignedTwice(eval(l.s), d);
    SignedOfUnsigned(eval(l.u), d);
  }

  lemma SignedSplitSound(eval: Eval, env: Env, is64: bool, l: Operand, rightS: Expr, d: Word, s: Word)
    requires Views(eval, env, l, d) && Contains(eval(rightS), S64(s))
    ensures var v := GetSignedIntervals(eval, is64, l, rightS);
      && Contains(v.left, Signed(is64, d)) && Contains(v.right, Signed(is64, s))
      && HalvesHold(v, Signed(is64, d))
  {
    hide TruncateToSigned, Low, S32, SignExtend, Join, Meet, IsIncludedIn, HalvesHold;
    SmallSigned(eval(rightS), s);
    SignedTwice(eval(rightS), s);
    SignedLeftSound(eval, env, is64, l, rightS, d);
    SignedHalves(eval, env, is64, l, rightS, d, s);
  }

  /** The left view of a 32-bit comparison stays in the signed 32-bit range. */
  lemma SignedLeftRange(eval: Eval, l: Operand, rightS: Expr)
    requires !IsBottom(eval(l.s))
    ensures var v := GetSignedIntervals(eval, false, l, rightS); -TWO31 <= v.left.lb.value && v.left.ub.value < TWO31
  {
    hide TruncateToSigned, Meet, Pow2, Join;
    Pow2Values();
    var left0, right0 := eval(l.s), eval(rightS);
    if Agree(left0, right0, Nonnegative(32), Negative(32)) {
      Ranges();
      SignedWithin32(left0);
    } else {
      SignedWithin32(TruncateToSigned(left0, 32));
    }
  }

  lemma SignedWithin32(i: Interval)
    requires i.lb.Some? && i.ub.Some? && -TWO31 <= i.lb.value <= i.ub.value < TWO31
    ensures TruncateToSigned(i, 64) == i
  {
    hide SignExtend, Pow2;
    Ranges();
    Pow2Values();
    SignedSmall(i.lb.value, 64);
    SignedSmall(i.ub.value, 64);
  }

  lemma SignedHalves(eval: Eval, env: Env, is64: bool, l: Operand, rightS: Expr, d: Word, s: Word)
    requires Views(eval, env, l, d) && Contains(eval(rightS), S64(s))
    ensures HalvesHold(GetSignedIntervals(eval, is64, l, rightS), Signed(is64, d))
  {
    hide TruncateToSigned, Low, S32, S64, SignExtend, Join, Meet, IsIncludedIn;
    var left0, right0 := eval(l.s), eval(rightS);
    var wide := is64 || Agree(left0, right0, Nonnegative(32), Negative(32));
    var left1 := if wide then left0 else TruncateToSigned(left0, 32);
    var width := if wide then 64 else 32;
    var v := GetSignedIntervals(eval, is64, l, rightS);
    var x := Signed(is64, d);
    SmallSigned(left0, d);
    SignedTwice(left0, d);
    assert Contains(left1, x);
    S32Range(d);
    S64Range(d);
    if !IsTop(left1) {
      HalvesOf(v, left1, width, x);
    } else if !IsTop(eval(l.u)) {
      HalvesOfOther(v, eval(l.u), d);
    } else {
      HalvesOf(v, Interval(None, None), width, x);
    }
  }

  lemma S64Range(w: Word)
    ensures -TWO63 <= S64(w) < TWO63 && (S64(w) >= 0 ==> S64(w) == w as int)
  {
  }

  lemma HalvesOf(v: Split, i: Interval, width: nat, x: int)
    requires width == 32 || width == 64
    requires Contains(i, x) && (if width == 32 then -TWO31 <= x < TWO31 else -TWO63 <= x < TWO63)
    requires v.lower == Meet(i, Nonnegative(width)) || v.lower == Nonnegative(width)
    requires v.upper == Meet(i, Negative(width)) || v.upper == Negative(width)
    ensures HalvesHold(v, x)
  {
    hide Join, IsIncludedIn, Meet;
    Ranges();
    JoinIncluded(v.upper, v.lower, x);
  }

  lemma HalvesOfOther(v: Split, i: Interval, d: Word)
    requires Contains(i, d as int)
    requires v.lower == Meet(i, Nonnegative(64))
    requires v.upper == FromNumbers(MinInt(64), if i.ub.Some? then SignExtend(i.ub.value, 64) else -1)
    ensures HalvesHold(v, S64(d))
  {
    hide Join, IsIncludedIn, Meet, SignExtend, Pow2;
    Ranges();
    Pow2Values();
    if i.ub.Some? {
      assert SignExtend(i.ub.value, 64) >= -Pow2(63);
    }
    assert Contains(v.upper, -TWO63);
    JoinIncluded(v.upper, v.lower, -TWO63);
    if S64(d) >= 0 {
      JoinIncluded(v.upper, v.lower, S64(d));
    }
  }

  lemma S32Range(w: Word)
    ensures -TWO31 <= S32(w) < TWO31
  {
    ResiduesTwice(w);
  }

  lemma JoinIncluded(a: Interval, b: Interval, n: int)
    requires Contains(a, n) || Contains(b, n)
    ensures IsIncludedIn(Join(a, b), Nonnegative(64)) ==> n >= 0
    ensures IsIncludedIn(Join(a, b), Negative(64)) ==> n < 0
  {
    Ranges();
  }

  /** What the halves say about an unsigned word: each holds it when it is on that side. */
  ghost predicate UnsignedHalvesHold(v: Split, d: Word) {
    && (d as int < TWO63 ==> Contains(v.lower, d as int))
    && (d as int >= TWO63 ==> Contains(v.upper, d as int))
  }

  lemma UnsignedSplitSound(eval: Eval, env: Env, is64: bool, l: Operand, r: Operand, d: Word, s: Word)
    requires Views(eval, env, l, d) && Views(eval, env, r, s)
    ensures var v := GetUnsignedIntervals(eval, is64, l, r.u);
      && Contains(v.left, Unsigned(is64, d)) && Contains(v.right, Unsigned(is64, s))
      && (is64 ==> UnsignedHalvesHold(v, d))
  {
    hide TruncateToUnsigned, Low, SignExtend, ZeroExtend, Meet, IsIncludedIn, S64;
    var v := GetUnsignedIntervals(eval, is64, l, r.u);
    SmallUnsigned(eval(l.u), d);
    SmallUnsigned(eval(r.u), s);
    UnsignedTwice(eval(l.u), d);
    UnsignedTwice(eval(r.u), s);
    UnsignedOfSigned(eval(l.s), d);
    if is64 {
      UnsignedHalves(eval, env, l, r, d);
    }
  }

  lemma UnsignedHalves(eval: Eval, env: Env, l: Operand, r: Operand, d: Word)
    requires Views(eval, env, l, d)
    ensures UnsignedHalvesHold(GetUnsignedIntervals(eval, true, l, r.u), d)
  {
    hide TruncateToUnsigned, SignExtend, ZeroExtend, Meet;
    Ranges();
    var i := eval(l.s);
    if d as int < TWO63 {
      UnsignedOfSigned(New(Some(0), i.ub), d);
    } else {
      UnsignedOfSigned(New(i.lb, Some(-1)), d);
    }
  }

  lemma Half64(i: Interval, x: int)
    requires Contains(i, x)
    ensures IsIncludedIn(i, Nonnegative(64)) ==> 0 <= x < TWO63
    ensures IsIncludedIn(i, Negative(64)) ==> -TWO63 <= x < 0
    ensures IsIncludedIn(i, UnsignedHigh(64)) ==> TWO63 <= x < TWO64
    ensures IsIncludedIn(i, SignedInt(64)) ==> -TWO63 <= x < TWO63
  {
    Ranges();
  }

  /** Words and their signed readings keep their order inside one half. */
  lemma SameHalf(w: Word)
    ensures S64(w) >= 0 ==> S64(w) == w as int < TWO63
    ensures S64(w) < 0 ==> S64(w) == w as int - TWO64 && w as int >= TWO63
  {
  }

  lemma CmpHolds(env: Env, strict: bool, left: Expr, right: Expr)
    requires Defined(left, env) && Defined(right, env)
    ensures Below(strict, Value(left, env), Value(right, env)) ==> Satisfied(StrictCmp(strict, true, left, right), env)
    ensures Below(strict, Value(right, env), Value(left, env)) ==> Satisfied(StrictCmp(strict, false, left, right), env)
  {
  }

  lemma CoincideHolds(eval: Eval, env: Env, l: Operand, d: Word, cmpS: Constraint, cmpU: Constraint, bound: int)
    requires Views(eval, env, l, d) && 0 <= S64(d) <= bound && Satisfied(cmpS, env) && Satisfied(cmpU, env)
    ensures AllSatisfied(Coincide(l, cmpS, cmpU, bound), env)
  {
    SameHalf(d);
  }

  lemma Bound64(i: Interval, d: Word)
    requires Contains(i, S64(d))
    ensures S64(d) <= TruncateToSigned(i, 64).ub.value
  {
    SignedTwice(i, d);
  }

  lemma Bound32(i: Interval, d: Word)
    requires Contains(i, S32(d))
    ensures S32(d) <= TruncateToSigned(i, 32).ub.value
  {
    hide TruncateToSigned, Low, S32;
    S32Range(d);
    SignExtend32Twice(d);
    assert Contains(TruncateToSigned(i, 32), SignExtend(S32(d), 32));
  }

  lemma SignExtend32Twice(d: Word)
    ensures SignExtend(S32(d), 32) == S32(d)
  {
    hide SignExtend;
    LowOfSigned32(d);
    Extend32(S32(d));
  }

  // ------------------------------------------------------------------ signed comparisons

  lemma Signed64LtSound(eval: Eval, env: Env, strict: bool, l: Operand, r: Operand, v: Split, d: Word, s: Word)
    requires Views(eval, env, l, d) && Views(eval, env, r, s) && Contains(v.right, S64(s)) && HalvesHold(v, S64(d))
    requires Below(strict, S64(d), S64(s))
    ensures AllSatisfied(AssumeSigned64Lt(strict, l, r, v), env)
  {
    hide IsIncludedIn, Join, TruncateToSigned, StrictCmp, Coincide, Low, S32, S64, FromNumbers;
    CmpHolds(env, strict, l.s, r.s);
    CmpHolds(env, strict, l.u, r.u);
    SameHalf(d);
    SameHalf(s);
    Half64(v.right, S64(s));
  }

  lemma Signed64GtSound(eval: Eval, env: Env, strict: bool, l: Operand, r: Operand, v: Split, d: Word, s: Word)
    requires Views(eval, env, l, d) && Views(eval, env, r, s) && Contains(v.right, S64(s)) && HalvesHold(v, S64(d))
    requires Below(strict, S64(s), S64(d))
    ensures AllSatisfied(AssumeSigned64Gt(strict, l, r, v), env)
  {
    hide IsIncludedIn, Join, TruncateToSigned, StrictCmp, Coincide, Low, S32, S64, FromNumbers;
    CmpHolds(env, strict, l.s, r.s);
    CmpHolds(env, strict, l.u, r.u);
    SameHalf(d);
    SameHalf(s);
    Half64(v.right, S64(s));
    if IsIncludedIn(v.right, Nonnegative(64)) {
      Bound64(v.lower, d);
      CoincideHolds(eval, env, l, d, StrictCmp(strict, false, l.s, r.s), StrictCmp(strict, false, l.u, r.u),
        TruncateToSigned(v.lower, 64).ub.value);
    }
  }

  lemma Signed32LtSound(eval: Eval, env: Env, strict: bool, l: Operand, r: Operand, v: Split, d: Word, s: Word)
    requires Views(eval, env, l, d) && Views(eval, env, r, s) && HalvesHold(v, S32(d))
    requires Below(strict, S32(d), S32(s))
    ensures AllSatisfied(AssumeSigned32Lt(eval, strict, l, r, v), env)
  {
    hide IsIncludedIn, Join, TruncateToSigned, StrictCmp, Coincide, Low, S32, S64, FromNumbers;
    CmpHolds(env, strict, l.s, r.s);
    CmpHolds(env, strict, l.u, r.u);
    SameHalf(d);
    SameHalf(s);
    SmallSigned(eval(l.s), d);
    SmallSigned(eval(r.s), s);
    if IsIncludedIn(eval(l.s), Nonnegative(32)) {
      Bound32(v.lower, d);
      if IsIncludedIn(eval(r.s), Nonnegative(32)) {
        CoincideHolds(eval, env, l, d, StrictCmp(strict, true, l.s, r.s), StrictCmp(strict, true, l.u, r.u),
          TruncateToSigned(v.lower, 32).ub.value);
      }
    }
  }

  lemma Signed32GtSound(eval: Eval, env: Env, strict: bool, l: Operand, r: Operand, v: Split, d: Word, s: Word)
    requires Views(eval, env, l, d) && Views(eval, env, r, s) && HalvesHold(v, S32(d))
    requires Below(strict, S32(s), S32(d))
    ensures AllSatisfied(AssumeSigned32Gt(eval, strict, l, r, v), env)
  {
    hide IsIncludedIn, Join, TruncateToSigned, StrictCmp, Coincide, Low, S32, S64, FromNumbers;
    CmpHolds(env, strict, l.s, r.s);
    CmpHolds(env, strict, l.u, r.u);
    SameHalf(d);
    SameHalf(s);
    SmallSigned(eval(l.s), d);
    SmallSigned(eval(r.s), s);
    if IsIncludedIn(eval(l.s), SignedInt(32)) && IsIncludedIn(eval(r.s), Nonnegative(32)) {
      Bound32(v.lower, d);
      CoincideHolds(eval, env, l, d, StrictCmp(strict, false, l.s, r.s), StrictCmp(strict, false, l.u, r.u),
        TruncateToSigned(v.lower, 32).ub.value);
    }
  }

  lemma Signed64EqSound(eval: Eval, env: Env, l: Operand, r: Operand, right: Interval, d: Word, s: Word)
    requires Views(eval, env, l, d) && Views(eval, env, r, s) && Contains(right, S64(s)) && d == s
    ensures AllSatisfied(AssumeSigned64Eq(l, r, right), env)
  {
    Ranges();
  }

  /** The match is the least value from `lb` on with the given low half; none exactly when 64 bits have no such value. */
  lemma LbMatchIsLeast(lb: int, rn: int)
    requires -TWO63 <= lb < TWO63
    ensures LbMatch(lb, rn).Some? ==> var m := LbMatch(lb, rn).value;
      && lb <= m < TWO63 && m % TWO32 == rn % TWO32
      && (forall x {:trigger x % TWO32} :: lb <= x && x % TWO32 == rn % TWO32 ==> m <= x)
    ensures LbMatch(lb, rn).None? ==> forall x {:trigger x % TWO32} :: lb <= x < TWO63 ==> x % TWO32 != rn % TWO32
  {
    var q, t := lb / TWO32, rn % TWO32;
    DivMod(lb, TWO32);
    DivMod(rn, TWO32);
    ModUnique(q * TWO32 + t, q, t, TWO32);
    ModUnique((q + 1) * TWO32 + t, q + 1, t, TWO32);
    forall x {:trigger x % TWO32} | lb <= x && x % TWO32 == t
      ensures x >= q * TWO32 + t && (q * TWO32 + t < lb ==> x >= q * TWO32 + t + TWO32)
    {
      DivMod(x, TWO32);
    }
    assert -0x8000_0000 <= q < 0x8000_0000;
  }

  lemma UbMatchIsGreatest(ub: int, rn: int)
    requires -TWO63 <= ub < TWO63
    ensures UbMatch(ub, rn).Some? ==> var m := UbMatch(ub, rn).value;
      && -TWO63 <= m <= ub && m % TWO32 == rn % TWO32
      && (forall x {:trigger x % TWO32} :: x <= ub && x % TWO32 == rn % TWO32 ==> x <= m)
    ensures UbMatch(ub, rn).None? ==> forall x {:trigger x % TWO32} :: -TWO63 <= x <= ub ==> x % TWO32 != rn % TWO32
  {
    var q, t := ub / TWO32, rn % TWO32;
    DivMod(ub, TWO32);
    DivMod(rn, TWO32);
    ModUnique(q * TWO32 + t, q, t, TWO32);
    ModUnique((q - 1) * TWO32 + t, q - 1, t, TWO32);
    forall x {:trigger x % TWO32} | x <= ub && x % TWO32 == t
      ensures x <= q * TWO32 + t && (q * TWO32 + t > ub ==> x <= q * TWO32 + t - TWO32)
    {
      DivMod(x, TWO32);
    }
    assert -0x8000_0000 <= q < 0x8000_0000;
  }

  /** A word with the right low half lies between the two matches. */
  lemma BetweenMatches(d: Word, lb: int, ub: int, rn: int)
    requires -TWO63 <= lb <= S64(d) <= ub < TWO63 && rn % TWO32 == Low(d)
    ensures LbMatch(lb, rn).Some? ==> -TWO63 <= LbMatch(lb, rn).value <= S64(d)
    ensures UbMatch(ub, rn).Some? ==> S64(d) <= UbMatch(ub, rn).value < TWO63
  {
    hide LbMatch, UbMatch, Low, S64;
    LowOfSigned(d);
    LbMatchIsLeast(lb, rn);
    UbMatchIsGreatest(ub, rn);
  }

  lemma Truncated64Range(i: Interval)
    ensures -TWO63 <= TruncateToSigned(i, 64).lb.value && TruncateToSigned(i, 64).ub.value < TWO63
  {
    hide TruncateToSigned, Pow2;
    Pow2Values();
  }

  lemma Signed32EqSound(eval: Eval, env: Env, l: Operand, right: Interval, d: Word, s: Word)
    requires Views(eval, env, l, d) && (Contains(right, S32(s)) || Contains(right, S64(s))) && Low(d) == Low(s)
    ensures AllSatisfied(AssumeSigned32Eq(eval, l, right), env)
  {
    hide TruncateToSigned, SignExtend, ZeroExtend, LbMatch, UbMatch, Low, S32, S64, Pow2;
    if Singleton(right).Some? {
      var left := TruncateToSigned(eval(l.s), 64);
      var rn := Singleton(right).value;
      SignedTwice(eval(l.s), d);
      LowOfSigned(s);
      LowOfSigned32(s);
      Truncated64Range(eval(l.s));
      BetweenMatches(d, left.lb.value, left.ub.value, rn);
      if LbMatch(left.lb.value, rn).Some? && UbMatch(left.ub.value, rn).Some? {
        MatchesHold(d, LbMatch(left.lb.value, rn).value, UbMatch(left.ub.value, rn).value);
      }
    }
  }

  lemma LowOfSigned32(w: Word)
    ensures S32(w) % TWO32 == Low(w)
  {
    LowFits(w);
    if Low(w) >= TWO31 {
      ModUnique(S32(w), -1, Low(w), TWO32);
    } else {
      ModUnique(S32(w), 0, Low(w), TWO32);
    }
  }

  /** Signed bounds of a word, re-read as unsigned, bound its unsigned reading when they keep their order. */
  lemma MatchesHold(d: Word, lb: int, ub: int)
    requires -TWO63 <= lb <= S64(d) <= ub < TWO63
    ensures ZeroExtend(lb, 64) <= ZeroExtend(ub, 64) ==> ZeroExtend(lb, 64) <= d as int <= ZeroExtend(ub, 64)
  {
    hide ZeroExtend;
    Extend64(lb);
    Extend64(ub);
    ModUnique(lb, if lb < 0 then -1 else 0, if lb < 0 then lb + TWO64 else lb, TWO64);
    ModUnique(ub, if ub < 0 then -1 else 0, if ub < 0 then ub + TWO64 else ub, TWO64);
  }

  lemma SignedCstSound(eval: Eval, env: Env, op: ConditionOp, is64: bool, l: Operand, r: Operand, d: Word, s: Word)
    requires Views(eval, env, l, d) && Views(eval, env, r, s)
    requires op == EQ || op == SLT || op == SLE || op == SGT || op == SGE
    requires Holds(op, is64, d, s)
    ensures AllSatisfied(AssumeSignedCst(eval, op, is64, l, r), env)
  {
    hide GetSignedIntervals, AssumeSigned64Eq, AssumeSigned32Eq, AssumeSigned64Lt, AssumeSigned64Gt, AssumeSigned32Lt, AssumeSigned32Gt;
    hide Low, S32, S64;
    SignedSplitSound(eval, env, is64, l, r.s, d, s);
    var v := GetSignedIntervals(eval, is64, l, r.s);
    var strict := op == SLT || op == SGT;
    if op == EQ {
      if is64 {
        Signed64EqSound(eval, env, l, r, v.right, d, s);
      } else {
        Signed32EqSound(eval, env, l, v.right, d, s);
      }
    } else if op == SLT || op == SLE {
      if is64 {
        Signed64LtSound(eval, env, strict, l, r, v, d, s);
      } else {
        Signed32LtSound(eval, env, strict, l, r, v, d, s);
      }
    } else {
      if is64 {
        Signed64GtSound(eval, env, strict, l, r, v, d, s);
      } else {
        Signed32GtSound(eval, env, strict, l, r, v, d, s);
      }
    }
  }

  // ------------------------------------------------------------------ unsigned comparisons

  lemma UpToHolds(eval: Eval, env: Env, l: Operand, d: Word)
    requires Views(eval, env, l, d) && S64(d) >= 0
    ensures AllSatisfied(UpTo(l, eval(l.s).ub), env)
  {
    SameHalf(d);
  }

  /** The ends of the halves, re-read as unsigned: a word below the top bit, then one above it. */
  lemma LowerEnds(v: Split, d: Word)
    requires UnsignedHalvesHold(v, d) && d as int < TWO63
    ensures !IsBottom(v.lower)
    ensures TruncateToUnsigned(v.lower, 64).lb.value <= d as int <= TruncateToUnsigned(v.lower, 64).ub.value
  {
    hide TruncateToUnsigned;
    UnsignedTwice(v.lower, d);
  }

  lemma UpperEnds(v: Split, d: Word)
    requires UnsignedHalvesHold(v, d) && d as int >= TWO63
    ensures TruncateToUnsigned(v.upper, 64).lb.value <= d as int < TWO64
  {
    hide TruncateToUnsigned;
    UnsignedTwice(v.upper, d);
  }

  lemma EndsHold(v: Split, d: Word)
    requires UnsignedHalvesHold(v, d)
    ensures d as int < TWO63 ==> !IsBottom(v.lower)
    ensures d as int < TWO63 ==>
      TruncateToUnsigned(v.lower, 64).lb.value <= d as int <= TruncateToUnsigned(v.lower, 64).ub.value
    ensures d as int >= TWO63 ==> TruncateToUnsigned(v.upper, 64).lb.value <= d as int < TWO64
    ensures IsIncludedIn(Join(v.lower, v.upper), Nonnegative(64)) ==> d as int < TWO63
  {
    hide TruncateToUnsigned, Join, IsIncludedIn;
    if d as int < TWO63 {
      LowerEnds(v, d);
    } else {
      UpperEnds(v, d);
      assert Contains(Join(v.lower, v.upper), d as int);
      Half64(Join(v.lower, v.upper), d as int);
    }
  }

  lemma Unsigned64LtSound(eval: Eval, env: Env, strict: bool, l: Operand, r: Operand, v: Split, d: Word, s: Word)
    requires Views(eval, env, l, d) && Views(eval, env, r, s) && v.right.ub.Some? && Contains(v.right, s as int)
    requires UnsignedHalvesHold(v, d) && Below(strict, d as int, s as int)
    ensures AllSatisfied(AssumeUnsigned64Lt(eval, strict, l, r, v), env)
  {
    hide IsIncludedIn, Join, TruncateToUnsigned, StrictCmp, Low, S32, S64, FromNumbers, Equal, IsBottom, UnsignedHalvesHold, UpTo;
    CmpHolds(env, strict, l.s, r.s);
    CmpHolds(env, strict, l.u, r.u);
    SameHalf(d);
    SameHalf(s);
    CmpHolds(env, strict, l.u, Const(v.right.ub.value));
    Half64(v.right, s as int);
    EndsHold(v, d);
    if d as int < TWO63 {
      UpToHolds(eval, env, l, d);
    }
  }

  lemma Unsigned64GtSound(eval: Eval, env: Env, strict: bool, l: Operand, r: Operand, v: Split, d: Word, s: Word)
    requires Views(eval, env, l, d) && Views(eval, env, r, s) && v.right.lb.Some? && Contains(v.right, s as int)
    requires UnsignedHalvesHold(v, d) && Below(strict, s as int, d as int)
    ensures AllSatisfied(AssumeUnsigned64Gt(strict, l, r, v), env)
  {
    hide IsIncludedIn, Join, TruncateToUnsigned, StrictCmp, Low, S32, S64, FromNumbers, Equal, IsBottom, UnsignedHalvesHold, UpTo;
    CmpHolds(env, strict, l.s, r.s);
    CmpHolds(env, strict, l.u, r.u);
    SameHalf(d);
    SameHalf(s);
    Half64(v.right, s as int);
    EndsHold(v, d);
  }

  lemma Unsigned32LtSound(eval: Eval, env: Env, strict: bool, l: Operand, r: Operand, d: Word, s: Word)
    requires Views(eval, env, l, d) && Views(eval, env, r, s)
    requires Below(strict, Low(d), Low(s))
    ensures AllSatisfied(AssumeUnsigned32Lt(eval, strict, l, r), env)
  {
    hide IsIncludedIn, Join, TruncateToUnsigned, StrictCmp, Low, S32, S64, FromNumbers, Equal, IsBottom, UnsignedHalvesHold, UpTo;
    CmpHolds(env, strict, l.s, r.s);
    CmpHolds(env, strict, l.u, r.u);
    SameHalf(d);
    SameHalf(s);
    SmallSigned(eval(l.s), d);
    SmallSigned(eval(r.s), s);
    SmallUnsigned(eval(l.u), d);
    SmallUnsigned(eval(r.u), s);
  }

  lemma Unsigned32GtSound(eval: Eval, env: Env, strict: bool, l: Operand, r: Operand, d: Word, s: Word)
    requires Views(eval, env, l, d) && Views(eval, env, r, s)
    requires Below(strict, Low(s), Low(d))
    ensures AllSatisfied(AssumeUnsigned32Gt(eval, strict, l, r), env)
  {
    hide IsIncludedIn, Join, TruncateToUnsigned, StrictCmp, Low, S32, S64, FromNumbers, Equal, IsBottom, UnsignedHalvesHold, UpTo;
    CmpHolds(env, strict, l.s, r.s);
    CmpHolds(env, strict, l.u, r.u);
    SameHalf(d);
    SameHalf(s);
    SmallSigned(eval(l.s), d);
    SmallSigned(eval(r.s), s);
    SmallUnsigned(eval(l.u), d);
    SmallUnsigned(eval(r.u), s);
    LowFits(s);
    LowFits(d);
    if IsIncludedIn(eval(l.s), SignedInt(32)) && Low(d) >= TWO31 {
      HighHalf(d, eval(l.s));
    }
  }

  /** A sign-extended 32-bit value in the high half of the low bits is negative. */
  lemma HighHalf(d: Word, i: Interval)
    requires Contains(i, S64(d)) && IsIncludedIn(i, SignedInt(32)) && Low(d) >= TWO31
    ensures S64(d) == Low(d) - TWO32
  {
    SmallSigned(i, d);
  }

  // ------------------------------------------------------------------ inequality, bit tests, entry points

  lemma ResolveNeSound(is64: bool, v: Split, d: Word, s: Word)
    requires v.left.lb.Some? && v.left.ub.Some?
    requires Contains(v.left, Unsigned(is64, d)) && Contains(v.right, Unsigned(is64, s)) && Unsigned(is64, d) != Unsigned(is64, s)
    requires 0 <= v.left.lb.value && v.left.ub.value < if is64 then TWO64 else TWO32
    ensures ResolveNe(is64, v).Some? ==> var p := ResolveNe(is64, v).value;
      && p.1.lb.Some? && p.1.ub.Some? && Contains(p.1, Unsigned(is64, s))
      && (p.0 == GT || p.0 == LT)
      && (p.0 == GT ==> Unsigned(is64, d) > Unsigned(is64, s))
      && (p.0 == LT ==> Unsigned(is64, d) < Unsigned(is64, s))
  {
    hide Low, TruncateToUnsigned;
    SameLower(v.left, if is64 then 64 else 32);
  }

  lemma ZeroExtendSmall(x: int, width: nat)
    requires width == 32 || width == 64
    requires 0 <= x < if width == 64 then TWO64 else TWO32
    ensures ZeroExtend(x, width) == x
  {
    hide ZeroExtend;
    Extend64(x);
    Extend32(x);
    ModUnique(x, 0, x, if width == 64 then TWO64 else TWO32);
  }

  /** A range inside the width that is truncated keeps its lower bound, or becomes the whole width from 0. */
  lemma SameLower(i: Interval, width: nat)
    requires width == 32 || width == 64
    requires i.lb.Some? && i.ub.Some? && 0 <= i.lb.value <= i.ub.value < if width == 64 then TWO64 else TWO32
    ensures TruncateToUnsigned(i, width).lb == i.lb
  {
    hide ZeroExtend, Pow2;
    Ranges();
    ZeroExtendSmall(i.lb.value, width);
    ZeroExtendSmall(i.ub.value, width);
  }

  /** The left view stays inside the compared width. */
  lemma UnsignedLeftRange(eval: Eval, env: Env, is64: bool, l: Operand, r: Operand, d: Word)
    requires Views(eval, env, l, d)
    ensures var v := GetUnsignedIntervals(eval, is64, l, r.u);
      v.left.lb.Some? && v.left.ub.Some? && 0 <= v.left.lb.value <= v.left.ub.value < if is64 then TWO64 else TWO32
  {
    hide TruncateToUnsigned, Meet, Pow2, Low, S64, Join;
    Pow2Values();
    var left0, right0 := eval(l.u), eval(r.u);
    if !is64 {
      if Agree(left0, right0, Nonnegative(32), UnsignedHigh(32)) {
        Ranges();
        Within32(left0);
      } else {
        Within32(TruncateToUnsigned(left0, 32));
      }
    }
  }

  lemma Within32(i: Interval)
    requires i.lb.Some? && i.ub.Some? && 0 <= i.lb.value <= i.ub.value < TWO32
    ensures TruncateToUnsigned(i, 64) == i
  {
    hide ZeroExtend, Pow2;
    Ranges();
    ZeroExtendSmall(i.lb.value, 64);
    ZeroExtendSmall(i.ub.value, 64);
  }

  lemma UnsignedOrderSound(eval: Eval, env: Env, op: ConditionOp, is64: bool, l: Operand, r: Operand, v: Split, d: Word, s: Word)
    requires Views(eval, env, l, d) && Views(eval, env, r, s)
    requires v.left.lb.Some? && v.left.ub.Some? && v.right.lb.Some? && v.right.ub.Some?
    requires Contains(v.left, Unsigned(is64, d)) && Contains(v.right, Unsigned(is64, s)) && (is64 ==> UnsignedHalvesHold(v, d))
    requires op == LT || op == LE || op == GT || op == GE
    requires Holds(op, is64, d, s)
    ensures AllSatisfied(AssumeUnsignedOrder(eval, op, is64, l, r, v), env)
  {
    hide AssumeUnsigned64Lt, AssumeUnsigned64Gt, AssumeUnsigned32Lt, AssumeUnsigned32Gt, Low, S32, S64, UnsignedHalvesHold, StrictCmp;
    var strict := op == LT || op == GT;
    CmpHolds(env, strict, l.u, r.u);
    if op == LT || op == LE {
      if is64 {
        Unsigned64LtSound(eval, env, strict, l, r, v, d, s);
      } else {
        Unsigned32LtSound(eval, env, strict, l, r, d, s);
      }
    } else {
      if is64 {
        Unsigned64GtSound(eval, env, strict, l, r, v, d, s);
      } else {
        Unsigned32GtSound(eval, env, strict, l, r, d, s);
      }
    }
  }

  lemma UnsignedCstSound(eval: Eval, env: Env, op: ConditionOp, is64: bool, l: Operand, r: Operand, d: Word, s: Word)
    requires Views(eval, env, l, d) && Views(eval, env, r, s)
    requires op == NE || op == LT || op == LE || op == GT || op == GE
    requires Holds(op, is64, d, s)
    ensures AllSatisfied(AssumeUnsignedCst(eval, op, is64, l, r), env)
  {
    hide GetUnsignedIntervals, AssumeUnsignedOrder, ResolveNe, Low, S32, S64;
    UnsignedSplitSound(eval, env, is64, l, r, d, s);
    var v := GetUnsignedIntervals(eval, is64, l, r.u);
    if op == NE {
      UnsignedLeftRange(eval, env, is64, l, r, d);
      ResolveNeSound(is64, v, d, s);
      if ResolveNe(is64, v).Some? {
        var p := ResolveNe(is64, v).value;
        UnsignedOrderSound(eval, env, p.0, is64, l, r, v.(right := p.1), d, s);
      }
    } else {
      UnsignedOrderSound(eval, env, op, is64, l, r, v, d, s);
    }
  }

  lemma BitCstSound(env: Env, op: ConditionOp, is64: bool, dst: Interval, src: Interval, d: Word, s: Word)
    requires op == SET || op == NSET
    requires Contains(dst, d as int) && (Contains(src, s as int) || Contains(src, S64(s)))
    requires Holds(op, is64, d, s)
    ensures AllSatisfied(AssumeBitCst(op, is64, dst, src), env)
  {
    hide And, S64, ZeroExtend, Pow2, Low, FitsCastTo;
    WordViews(s);
    WordViews(d);
    if !is64 {
      Pow2Values();
      Extend32(s as int);
      Extend32(d as int);
      AndMod(d as int, s as int, 32);
    }
  }

  /** The immediate as a word. */
  function ImmediateWord(imm: int): Word {
    hide Pow2;
    Pow2Values();
    ZeroExtend(imm, 64) as Word
  }

  /** The domain's interval of a constant holds the constant. */
  ghost predicate ConstantsKnown(eval: Eval) {
    forall n :: Contains(eval(Const(n)), n)
  }

  lemma ImmediateViews(eval: Eval, env: Env, imm: int)
    requires ConstantsKnown(eval) && -TWO63 <= imm < TWO63
    ensures Views(eval, env, Immediate(imm), ImmediateWord(imm))
    ensures S64(ImmediateWord(imm)) == imm
  {
    hide ZeroExtend;
    Extend64(imm);
    ModUnique(imm, if imm < 0 then -1 else 0, if imm < 0 then imm + TWO64 else imm, TWO64);
  }

  /**
    A branch on a register and an immediate: whatever word the register holds, if it takes the branch
    then it satisfies every constraint that is emitted. All operators, both widths, every immediate.
  */
  lemma AssumeCstImmSound(eval: Eval, env: Env, op: ConditionOp, is64: bool, dst: Operand, imm: int, d: Word)
    requires ConstantsKnown(eval) && Views(eval, env, dst, d) && -TWO63 <= imm < TWO63
    requires Holds(op, is64, d, ImmediateWord(imm))
    ensures AllSatisfied(AssumeCstImm(eval, op, is64, dst, imm), env)
  {
    hide AssumeSignedCst, AssumeUnsignedCst, AssumeBitCst, Holds, S64, Immediate, ImmediateWord;
    ImmediateViews(eval, env, imm);
    var s := ImmediateWord(imm);
    match op {
      case EQ | SGE | SLE | SGT | SLT => SignedCstSound(eval, env, op, is64, dst, Immediate(imm), d, s);
      case SET | NSET => BitCstSound(env, op, is64, eval(dst.u), FromNumbers(imm, imm), d, s);
      case NE | GE | LE | GT | LT => UnsignedCstSound(eval, env, op, is64, dst, Immediate(imm), d, s);
    }
  }

  /** The same for a branch on two registers. */
  lemma AssumeCstRegSound(eval: Eval, env: Env, op: ConditionOp, is64: bool, dst: Operand, src: Operand, d: Word, s: Word)
    requires Views(eval, env, dst, d) && Views(eval, env, src, s)
    requires Holds(op, is64, d, s)
    ensures AllSatisfied(AssumeCstReg(eval, op, is64, dst, src), env)
  {
    hide AssumeSignedCst, AssumeUnsignedCst, AssumeBitCst, IsIncludedIn, Low, S32, And;
    SameHalf(d);
    SameHalf(s);
    if op == SET || op == NSET {
      BitCstSound(env, op, is64, eval(dst.u), eval(src.u), d, s);
    } else if op == GE || op == LE || op == GT || op == LT || (op == NE && !is64) {
      UnsignedCstSound(eval, env, op, is64, dst, src, d, s);
    } else if !is64 {
      SignedCstSound(eval, env, op, is64, dst, src, d, s);
    } else if op == EQ {
      Half64(eval(src.s), S64(s));
    }
  }
}
