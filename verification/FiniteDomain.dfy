/** The operations of the finite-width domain that change the numeric state (src/crab/finite_domain.rs). */
module FiniteDomain {
  import opened Wrappers
  import opened Numbers
  import opened Intervals
  import opened Constraints
  import opened Words
  import opened Assume
  import opened AssumeSoundness
  import opened Shifts

  /** The relational domain underneath, through the operations used here; `mem` is its meaning. */
  datatype ZoneOps<!Z> = ZoneOps(
    eval: (Z, Expr) -> Interval,
    setInterval: (Z, Variable, Interval) -> Z,
    assign: (Z, Variable, Expr) -> Z,
    havoc: (Z, Variable) -> Z,
    mem: (Z, Env) -> bool)

  ghost function Updated(e: Env, v: Variable, n: int): Env {
    e[v := n]
  }

  /** The domain's own soundness: intervals hold the values, updates hold the updated states. */
  ghost predicate SoundZone<Z(!new)>(ops: ZoneOps<Z>) {
    && (forall z, e, x :: ops.mem(z, e) && Defined(x, e) ==> Contains(ops.eval(z, x), Value(x, e)))
    && (forall z, e, v, i, n :: ops.mem(z, e) && Contains(i, n) ==> ops.mem(ops.setInterval(z, v, i), e[v := n]))
    && (forall z, e, v, x :: ops.mem(z, e) && Defined(x, e) ==> ops.mem(ops.assign(z, v, x), e[v := Value(x, e)]))
    && (forall z, e, v, n :: ops.mem(z, e) ==> ops.mem(ops.havoc(z, v), Updated(e, v, n)))
  }

  /** A state whose pair of variables holds the two readings of the word `w`. */
  ghost predicate HoldsWord(e: Env, svalue: Variable, uvalue: Variable, w: Word) {
    svalue in e && uvalue in e && e[uvalue] == w as int && e[svalue] == S64(w)
  }

  /** The state after the pair has been given the word `r`. */
  ghost function WithWord(e: Env, svalue: Variable, uvalue: Variable, r: int): Env {
    e[uvalue := r][svalue := SignExtend(r, 64)]
  }

  /** The domain after one variable has been wrapped: forgotten, left alone, or with new bounds. */
  function Wrapped<Z>(ops: ZoneOps<Z>, z: Z, v: Variable, width: nat, isSigned: bool): Z {
    var i := ops.eval(z, Var(v));
    match WrapInterval(i, width, isSigned)
    case None => ops.havoc(z, v)
    case Some(w) => if Equal(w, i) then z else ops.setInterval(z, v, w)
  }

  /** The domain after a variable of the pair has been given an interval, the other one its value, and both have been wrapped. */
  function GivenPair<Z>(ops: ZoneOps<Z>, z: Z, from: Variable, to: Variable, svalue: Variable, uvalue: Variable, i: Interval, width: nat): Z {
    Wrapped(ops, Wrapped(ops, ops.assign(ops.setInterval(z, from, i), to, Var(from)), svalue, width, true), uvalue, width, false)
  }

  class FiniteDomain<Z(!new)> {
    const ops: ZoneOps<Z>
    var dom: Z

    constructor (ops: ZoneOps<Z>, dom: Z)
      ensures this.ops == ops && this.dom == dom
    {
      this.ops, this.dom := ops, dom;
    }

    /** Wraps one variable to a width: every state with its value wrapped is still described. */
    method OverflowBounds(lhs: Variable, finiteWidth: nat, isSigned: bool)
      requires SoundZone(ops) && 0 < finiteWidth <= 64
      modifies this
      ensures forall e :: lhs in e && ops.mem(old(dom), e) ==> ops.mem(dom, e[lhs := Wrap(e[lhs], finiteWidth, isSigned)])
      ensures dom == Wrapped(ops, old(dom), lhs, finiteWidth, isSigned)
    {
      hide Wrap, WrapInterval, Contains;
      var interval := ops.eval(dom, Var(lhs));
      var wrapped := WrapInterval(interval, finiteWidth, isSigned);
      if wrapped.None? {
        ghost var before := dom;
        dom := ops.havoc(dom, lhs);
        forall e, n | ops.mem(before, e) ensures ops.mem(dom, Updated(e, lhs, n)) {
        }
        forall e | lhs in e && ops.mem(before, e) ensures ops.mem(dom, e[lhs := Wrap(e[lhs], finiteWidth, isSigned)]) {
          assert ops.mem(dom, Updated(e, lhs, Wrap(e[lhs], finiteWidth, isSigned)));
        }
        return;
      }
      forall e | lhs in e && ops.mem(dom, e)
        ensures Contains(wrapped.value, Wrap(e[lhs], finiteWidth, isSigned))
        ensures Equal(wrapped.value, interval) ==> e[lhs := Wrap(e[lhs], finiteWidth, isSigned)] == e
      {
        assert Value(Var(lhs), e) == e[lhs];
        WrapIntervalSound(interval, finiteWidth, isSigned, e[lhs]);
      }
      if !Equal(wrapped.value, interval) {
        dom := ops.setInterval(dom, lhs, wrapped.value);
      }
    }

    method OverflowBoundsPair(svalue: Variable, uvalue: Variable, finiteWidth: nat)
      requires SoundZone(ops) && 0 < finiteWidth <= 64 && svalue != uvalue
      modifies this
      ensures forall e :: svalue in e && uvalue in e && ops.mem(old(dom), e) ==>
        ops.mem(dom, e[svalue := Wrap(e[svalue], finiteWidth, true)][uvalue := Wrap(e[uvalue], finiteWidth, false)])
      ensures dom == Wrapped(ops, Wrapped(ops, old(dom), svalue, finiteWidth, true), uvalue, finiteWidth, false)
    {
      hide Wrap, WrapInterval, SoundZone, Wrapped;
      ghost var d0 := dom;
      OverflowBounds(svalue, finiteWidth, true);
      ghost var d1 := dom;
      OverflowBounds(uvalue, finiteWidth, false);
      forall e | svalue in e && uvalue in e && ops.mem(d0, e)
        ensures ops.mem(dom, e[svalue := Wrap(e[svalue], finiteWidth, true)][uvalue := Wrap(e[uvalue], finiteWidth, false)])
      {
        var e1 := e[svalue := Wrap(e[svalue], finiteWidth, true)];
        assert ops.mem(d1, e1);
      }
    }

    /** The pair has been given an interval whose two ends are the results of two members of `i`. */
    ghost predicate GivenEnds(before: Z, from: Variable, to: Variable, svalue: Variable, uvalue: Variable, i: Interval, x: int, y: int, f: int -> int, width: nat)
      reads this
    {
      Contains(i, x) && Contains(i, y) && dom == GivenPair(ops, before, from, to, svalue, uvalue, FromNumbers(f(x), f(y)), width)
    }

    ghost predicate TightlyGiven(before: Z, from: Variable, to: Variable, svalue: Variable, uvalue: Variable, i: Interval, f: int -> int, width: nat)
      reads this
    {
      exists x, y :: GivenEnds(before, from, to, svalue, uvalue, i, x, y, f, width)
    }

    /** Given an unbounded interval, both of the pair have been forgotten. */
    ghost predicate Forgotten(before: Z, svalue: Variable, uvalue: Variable, i: Interval)
      reads this
    {
      dom == ops.havoc(ops.havoc(ops.assign(ops.setInterval(before, uvalue, i), svalue, Var(uvalue)), svalue), uvalue)
    }

    /** What a shift leaves: every word of the pair has been replaced by its shifted word. */
    ghost predicate Shifted(before: Z, svalue: Variable, uvalue: Variable, f: int -> int)
      reads this
    {
      forall e, w :: ops.mem(before, e) && HoldsWord(e, svalue, uvalue, w) ==>
        ops.mem(dom, WithWord(e, svalue, uvalue, f(w as int)))
    }

    /** The common end: one variable of the pair has its new value, the other one follows, and both are wrapped. */
    method Finish(from: Variable, to: Variable, svalue: Variable, uvalue: Variable, finiteWidth: nat,
        ghost before: Z, ghost g: int -> int, ghost f: int -> int)
      requires SoundZone(ops) && 0 < finiteWidth <= 64 && svalue != uvalue
      requires (from == svalue && to == uvalue) || (from == uvalue && to == svalue)
      requires forall e, w :: ops.mem(before, e) && HoldsWord(e, svalue, uvalue, w) ==>
        ops.mem(dom, e[from := g(w as int)]) && ZeroExtend(g(w as int), finiteWidth) == f(w as int)
      modifies this
      ensures Shifted(before, svalue, uvalue, f)
      ensures dom == Wrapped(ops, Wrapped(ops, ops.assign(old(dom), to, Var(from)), svalue, finiteWidth, true), uvalue, finiteWidth, false)
    {
      hide SoundZone, ZeroExtend, SignExtend, Wrapped;
      ghost var d1 := dom;
      dom := ops.assign(dom, to, Var(from));
      ghost var d2 := dom;
      OverflowBoundsPair(svalue, uvalue, finiteWidth);
      forall e, w | ops.mem(before, e) && HoldsWord(e, svalue, uvalue, w)
        ensures ops.mem(dom, WithWord(e, svalue, uvalue, f(w as int)))
      {
        var x := g(w as int);
        var e1 := e[from := x];
        AssignHolds(ops, d1, e1, to, from);
        var e2 := e1[to := x];
        assert ops.mem(d2, e2);
        assert e2[svalue := Wrap(e2[svalue], finiteWidth, true)][uvalue := Wrap(e2[uvalue], finiteWidth, false)]
          == WithWord(e, svalue, uvalue, f(w as int));
      }
    }

    /** Left shift by an immediate the instruction set has masked. An operand without bounds is forgotten in both views. */
    method Shl(svalue: Variable, uvalue: Variable, imm: nat, finiteWidth: nat)
      requires SoundZone(ops) && svalue != uvalue && (finiteWidth == 32 || finiteWidth == 64) && imm < finiteWidth
      requires finiteWidth == 32 ==> FitsShift(ops.eval(dom, Var(uvalue)), imm)
      modifies this
      ensures Shifted(old(dom), svalue, uvalue, w => ShiftLeft(w, imm, finiteWidth))
      ensures var i := ops.eval(old(dom), Var(uvalue));
        if Unbounded(i) then forall e :: ops.mem(old(dom), e) ==> Forgotten(old(dom), svalue, uvalue, Scale(i, Pow2(imm)))
        else TightlyGiven(old(dom), uvalue, svalue, svalue, uvalue, TruncateToUnsigned(i, 64), w => ShiftLeft(w, imm, finiteWidth), finiteWidth)
    {
      hide Wrapped, ShlInterval, ShiftLeft, SoundZone, TruncateToUnsigned, S64, SignExtend, ZeroExtend, Contains, Pow2, IsIncludedIn;
      ghost var d0 := dom;
      var uinterval := ops.eval(dom, Var(uvalue));
      ghost var f := (w: int) => ShiftLeft(w, imm, finiteWidth);
      if uinterval.lb.None? || uinterval.ub.None? {
        dom := ops.setInterval(dom, uvalue, Scale(uinterval, Pow2(imm)));
        dom := ops.assign(dom, svalue, Var(uvalue));
        OverflowBoundsPair(svalue, uvalue, 64);
        forall e | ops.mem(d0, e) ensures Forgotten(d0, svalue, uvalue, Scale(uinterval, Pow2(imm))) {
          UnboundedIsForgotten(ops, d0, e, svalue, uvalue, Scale(uinterval, Pow2(imm)), 0);
        }
        forall e, w | ops.mem(d0, e) && HoldsWord(e, svalue, uvalue, w)
          ensures ops.mem(dom, WithWord(e, svalue, uvalue, f(w as int)))
        {
          UnboundedIsForgotten(ops, d0, e, svalue, uvalue, Scale(uinterval, Pow2(imm)), f(w as int));
        }
        return;
      }
      var view := TruncateToUnsigned(uinterval, 64);
      dom := ops.setInterval(dom, uvalue, ShlInterval(view, imm, finiteWidth));
      MaskedView(uinterval, 64);
      forall e, w | ops.mem(d0, e) && HoldsWord(e, svalue, uvalue, w)
        ensures ops.mem(dom, e[uvalue := ShiftLeft(w as int, imm, finiteWidth)])
      {
        EvalHolds(ops, d0, e, uvalue);
        ViewHolds(uinterval, w);
        ShlIntervalSound(view, imm, finiteWidth, w as int);
        SetHolds(ops, d0, e, uvalue, ShlInterval(view, imm, finiteWidth), ShiftLeft(w as int, imm, finiteWidth));
      }
      ShiftLeftSmall(imm, finiteWidth);
      Finish(uvalue, svalue, svalue, uvalue, finiteWidth, d0, f, f);
      ghost var x, y := ShlIntervalEnds(view, imm, finiteWidth);
      RangeHolds(view.lb.value, x, view.ub.value);
      RangeHolds(view.lb.value, y, view.ub.value);
      assert view == FromNumbers(view.lb.value, view.ub.value);
      assert GivenEnds(d0, uvalue, svalue, svalue, uvalue, view, x, y, f, finiteWidth);
    }

    /** Logical right shift by a masked immediate; a bounded 32-bit operand is masked to 32 bits first. */
    method Lshr(svalue: Variable, uvalue: Variable, imm: nat, finiteWidth: nat)
      requires SoundZone(ops) && svalue != uvalue && (finiteWidth == 32 || finiteWidth == 64) && imm < finiteWidth
      requires finiteWidth == 32 && Size(ops.eval(dom, Var(uvalue))).Some? ==> Masked(ops.eval(dom, Var(uvalue)))
      modifies this
      ensures Shifted(old(dom), svalue, uvalue, w => ShiftRight(w, imm, finiteWidth))
      ensures var i := ops.eval(old(dom), Var(uvalue));
        if Unbounded(i) then dom == GivenPair(ops, old(dom), uvalue, svalue, svalue, uvalue, FromNumbers(0, MaxUint(64) / Pow2(imm)), finiteWidth)
        else TightlyGiven(old(dom), uvalue, svalue, svalue, uvalue, TruncateToUnsigned(i, 64), w => ShiftRight(w, imm, finiteWidth), finiteWidth)
    {
      hide LshrInterval, ShiftRight, SoundZone, TruncateToUnsigned, S64, SignExtend, ZeroExtend, Contains, Pow2, IsIncludedIn;
      ghost var d0 := dom;
      var uinterval := ops.eval(dom, Var(uvalue));
      ghost var f := (w: int) => ShiftRight(w, imm, finiteWidth);
      if uinterval.lb.Some? && uinterval.ub.Some? {
        MaskedView(uinterval, finiteWidth);
        var view := TruncateToUnsigned(uinterval, 64);
        dom := ops.setInterval(dom, uvalue, LshrInterval(view, imm));
        forall e, w | ops.mem(d0, e) && HoldsWord(e, svalue, uvalue, w)
          ensures ops.mem(dom, e[uvalue := ShiftRight(w as int, imm, finiteWidth)])
        {
          EvalHolds(ops, d0, e, uvalue);
          ViewHolds(uinterval, w);
          LshrIntervalSound(view, imm, finiteWidth, w as int);
          SetHolds(ops, d0, e, uvalue, LshrInterval(view, imm), ShiftRight(w as int, imm, finiteWidth));
        }
      } else {
        var all := FromNumbers(0, MaxUint(64) / Pow2(imm));
        dom := ops.setInterval(dom, uvalue, all);
        forall e, w | ops.mem(d0, e) && HoldsWord(e, svalue, uvalue, w)
          ensures ops.mem(dom, e[uvalue := ShiftRight(w as int, imm, finiteWidth)])
        {
          LshrUnbounded(w, imm, finiteWidth);
          RangeHolds(0, ShiftRight(w as int, imm, finiteWidth), MaxUint(64) / Pow2(imm));
          SetHolds(ops, d0, e, uvalue, all, ShiftRight(w as int, imm, finiteWidth));
        }
      }
      ShiftRightSmall(imm, finiteWidth);
      Finish(uvalue, svalue, svalue, uvalue, finiteWidth, d0, f, f);
      if uinterval.lb.Some? && uinterval.ub.Some? {
        ghost var view := TruncateToUnsigned(uinterval, 64);
        ViewIsSome(uinterval);
        LshrIntervalEnds(view, imm, finiteWidth);
        assert GivenEnds(d0, uvalue, svalue, svalue, uvalue, view, view.lb.value, view.ub.value, f, finiteWidth);
      }
    }

    /** What an arithmetic shift leaves; the count is the low bits of the right operand. */
    ghost predicate AshrDone(before: Z, svalue: Variable, uvalue: Variable, right: Expr, width: nat)
      requires width > 0
      reads this
    {
      forall e, w, s :: ops.mem(before, e) && HoldsWord(e, svalue, uvalue, w) && Reads(right, e, s) ==>
        ops.mem(dom, WithWord(e, svalue, uvalue, ShiftRightSigned(w as int, s as int % width, width)))
    }

    /** Arithmetic right shift; forgets the pair unless the count is known. */
    method Ashr(svalue: Variable, uvalue: Variable, right: Expr, finiteWidth: nat)
      requires SoundZone(ops) && svalue != uvalue && (finiteWidth == 32 || finiteWidth == 64)
      modifies this
      ensures AshrDone(old(dom), svalue, uvalue, right, finiteWidth)
      ensures var before := old(dom);
        var split := GetSignedIntervals(x => ops.eval(before, x), finiteWidth == 64, Operand(Var(svalue), Var(uvalue)), right);
        dom == if Singleton(split.right).None? then ops.havoc(ops.havoc(old(dom), svalue), uvalue)
          else GivenPair(ops, old(dom), svalue, uvalue, svalue, uvalue, AshrInterval(split.left, Singleton(split.right).value % finiteWidth, finiteWidth), finiteWidth)
    {
      hide SoundZone, GetSignedIntervals, S64, SignExtend, ZeroExtend, Contains, Pow2, IsIncludedIn, AshrInterval, ShiftRightSigned, IsBottom, AshrValue;
      ghost var d0 := dom;
      var start := dom;
      var eval := (x: Expr) => ops.eval(start, x);
      var is64 := finiteWidth == 64;
      var left := Operand(Var(svalue), Var(uvalue));
      var split := GetSignedIntervals(eval, is64, left, right);
      if Singleton(split.right).None? {
        dom := ops.havoc(dom, svalue);
        dom := ops.havoc(dom, uvalue);
        HavocPair(ops, d0, svalue, uvalue);
        return;
      }
      var sn := Singleton(split.right).value;
      var imm := sn % finiteWidth;
      dom := ops.setInterval(dom, svalue, AshrInterval(split.left, imm, finiteWidth));
      ghost var g := (w: int) => AshrValue(w, imm, finiteWidth);
      ghost var f := (w: int) => ShiftRightSigned(w, imm, finiteWidth);
      forall e, w | ops.mem(d0, e) && HoldsWord(e, svalue, uvalue, w)
        ensures ops.mem(dom, e[svalue := AshrValue(w as int, imm, finiteWidth)])
        ensures ZeroExtend(AshrValue(w as int, imm, finiteWidth), finiteWidth) == ShiftRightSigned(w as int, imm, finiteWidth)
      {
        EvalHolds(ops, d0, e, svalue);
        EvalHolds(ops, d0, e, uvalue);
        HoldingIsNotBottom(eval(left.s), e[svalue]);
        AshrRange(eval, is64, left, right);
        SignedLeftSound(eval, e, is64, left, right, w);
        WordViews(w);
        AshrIntervalSound(split.left, imm, finiteWidth, w as int);
        SetHolds(ops, d0, e, svalue, AshrInterval(split.left, imm, finiteWidth), AshrValue(w as int, imm, finiteWidth));
        AshrWraps(w as int, imm, finiteWidth);
      }
      Finish(svalue, uvalue, svalue, uvalue, finiteWidth, d0, g, f);
      forall e, w, s | ops.mem(d0, e) && HoldsWord(e, svalue, uvalue, w) && Reads(right, e, s)
        ensures imm == s as int % finiteWidth
      {
        CountKnown(ops, d0, e, eval, is64, left, right, svalue, uvalue, w, s);
      }
    }
  }

  /** The expression reads the signed view of the word `s`. */
  ghost predicate Reads(x: Expr, e: Env, s: Word) {
    Defined(x, e) && Value(x, e) == S64(s)
  }

  lemma HavocPair<Z(!new)>(ops: ZoneOps<Z>, z: Z, svalue: Variable, uvalue: Variable)
    requires SoundZone(ops) && svalue != uvalue
    ensures forall e, r :: ops.mem(z, e) ==> ops.mem(ops.havoc(ops.havoc(z, svalue), uvalue), WithWord(e, svalue, uvalue, r))
  {
    forall e, r | ops.mem(z, e)
      ensures ops.mem(ops.havoc(ops.havoc(z, svalue), uvalue), WithWord(e, svalue, uvalue, r))
    {
      var e1 := Updated(e, svalue, SignExtend(r, 64));
      assert ops.mem(ops.havoc(z, svalue), e1);
      assert Updated(e1, uvalue, r) == WithWord(e, svalue, uvalue, r);
      assert ops.mem(ops.havoc(ops.havoc(z, svalue), uvalue), Updated(e1, uvalue, r));
    }
  }

  lemma HoldingIsNotBottom(i: Interval, n: int)
    requires Contains(i, n)
    ensures !IsBottom(i)
  {
  }

  lemma AshrRange(eval: Eval, is64: bool, left: Operand, right: Expr)
    requires !IsBottom(eval(left.s))
    ensures var i, width := GetSignedIntervals(eval, is64, left, right).left, if is64 then 64 else 32;
      MinInt(width) <= i.lb.value <= MaxInt(width) && MinInt(width) <= i.ub.value <= MaxInt(width)
  {
    hide Pow2, TruncateToSigned, Meet, IsIncludedIn, IsBottom;
    Pow2Values();
    if !is64 {
      SignedLeftRange(eval, left, right);
    }
  }

  lemma AshrWraps(w: int, imm: nat, width: nat)
    requires width == 32 || width == 64
    ensures ZeroExtend(AshrValue(w, imm, width), width) == ShiftRightSigned(w, imm, width)
  {
    hide Pow2, SignExtend;
    if width == 32 {
      DivMod(SignExtend(w, 32) / Pow2(imm), Pow2(32));
      ModUnique(ShiftRightSigned(w, imm, 32), 0, ShiftRightSigned(w, imm, 32), Pow2(32));
    }
  }

  /** Both signed views of the count have the same low bits. */
  lemma CountBits(s: Word)
    ensures S64(s) % 64 == s as int % 64 && S32(s) % 32 == s as int % 32
  {
    var x := s as int;
    if S64(s) != x {
      ModAdd(x, -0x400_0000_0000_0000, 64);
    }
    DivMod(x, TWO32);
    var k := -(x / TWO32) - (if Low(s) >= TWO31 then 1 else 0);
    assert S32(s) == x + (k * 0x800_0000) * 32;
    ModAdd(x, k * 0x800_0000, 32);
  }

  lemma CountKnown<Z(!new)>(ops: ZoneOps<Z>, z: Z, e: Env, eval: Eval, is64: bool, left: Operand, right: Expr,
      svalue: Variable, uvalue: Variable, w: Word, s: Word)
    requires SoundZone(ops) && ops.mem(z, e) && HoldsWord(e, svalue, uvalue, w) && Reads(right, e, s)
    requires left == Operand(Var(svalue), Var(uvalue)) && forall x :: eval(x) == ops.eval(z, x)
    ensures var v := GetSignedIntervals(eval, is64, left, right).right;
      Singleton(v).Some? ==> Singleton(v).value % (if is64 then 64 else 32) == s as int % (if is64 then 64 else 32)
  {
    hide GetSignedIntervals, S64, S32;
    EvalHolds(ops, z, e, svalue);
    EvalHolds(ops, z, e, uvalue);
    assert Contains(eval(right), Value(right, e));
    SignedSplitSound(eval, e, is64, left, right, w, s);
    CountBits(s);
  }

  /** A 32-bit left shift: if the operand's unsigned interval has both bounds, they fit the shift. */
  ghost predicate FitsShift(i: Interval, imm: nat) {
    var view := TruncateToUnsigned(i, 64);
    i.lb.Some? && i.ub.Some? ==> ShlFits(view.lb.value, view.ub.value, imm, 32)
  }

  predicate Unbounded(i: Interval) {
    i.lb.None? || i.ub.None?
  }

  /** An interval that holds all members of an unbounded one is unbounded. */
  lemma HoldsUnbounded(i: Interval, j: Interval)
    requires Unbounded(i) && forall n :: Contains(i, n) ==> Contains(j, n)
    ensures Unbounded(j)
  {
    if i.ub.None? && j.ub.Some? {
      assert Contains(i, if i.lb.Some? && i.lb.value > j.ub.value then i.lb.value else j.ub.value + 1);
    } else if i.lb.None? && j.lb.Some? {
      assert Contains(i, if i.ub.Some? && i.ub.value < j.lb.value then i.ub.value else j.lb.value - 1);
    }
  }

  lemma UnboundedIsTooWide(i: Interval, width: nat, isSigned: bool)
    requires Unbounded(i)
    ensures WrapInterval(i, width, isSigned).None?
  {
  }

  /**
    Given an unbounded interval, copied to the other view and wrapped, both views end up forgotten: the
    domain cannot know a bound of a variable that takes all the values of an unbounded interval.
  */
  lemma UnboundedIsForgotten<Z(!new)>(ops: ZoneOps<Z>, z: Z, e: Env, svalue: Variable, uvalue: Variable, i: Interval, r: int)
    requires SoundZone(ops) && svalue != uvalue && Unbounded(i) && ops.mem(z, e)
    ensures var z2 := ops.assign(ops.setInterval(z, uvalue, i), svalue, Var(uvalue));
      var z4 := Wrapped(ops, Wrapped(ops, z2, svalue, 64, true), uvalue, 64, false);
      z4 == ops.havoc(ops.havoc(z2, svalue), uvalue) && ops.mem(z4, WithWord(e, svalue, uvalue, r))
  {
    hide SoundZone, WrapInterval, Contains, Unbounded, SignExtend;
    var z1 := ops.setInterval(z, uvalue, i);
    var z2 := ops.assign(z1, svalue, Var(uvalue));
    forall n | Contains(i, n) ensures Contains(ops.eval(z2, Var(svalue)), n) {
      var e2 := BothGiven(ops, z, e, svalue, uvalue, i, n);
      EvalHolds(ops, z2, e2, svalue);
    }
    HoldsUnbounded(i, ops.eval(z2, Var(svalue)));
    UnboundedIsTooWide(ops.eval(z2, Var(svalue)), 64, true);
    var z3 := ops.havoc(z2, svalue);
    forall n | Contains(i, n) ensures Contains(ops.eval(z3, Var(uvalue)), n) {
      var e2 := BothGiven(ops, z, e, svalue, uvalue, i, n);
      HavocOne(ops, z2, e2, svalue, n);
      EvalHolds(ops, z3, Updated(e2, svalue, n), uvalue);
    }
    HoldsUnbounded(i, ops.eval(z3, Var(uvalue)));
    UnboundedIsTooWide(ops.eval(z3, Var(uvalue)), 64, false);
    HavocPair(ops, z2, svalue, uvalue);
    var n := UnboundedHolds(i);
    var e2 := BothGiven(ops, z, e, svalue, uvalue, i, n);
    assert WithWord(e2, svalue, uvalue, r) == WithWord(e, svalue, uvalue, r);
  }

  lemma UnboundedHolds(i: Interval) returns (n: int)
    requires Unbounded(i)
    ensures Contains(i, n)
  {
    n := if i.lb.Some? then i.lb.value else if i.ub.Some? then i.ub.value else 0;
  }

  lemma BothGiven<Z(!new)>(ops: ZoneOps<Z>, z: Z, e: Env, svalue: Variable, uvalue: Variable, i: Interval, n: int) returns (e2: Env)
    requires SoundZone(ops) && svalue != uvalue && ops.mem(z, e) && Contains(i, n)
    ensures e2 == e[uvalue := n][svalue := n] && ops.mem(ops.assign(ops.setInterval(z, uvalue, i), svalue, Var(uvalue)), e2)
  {
    hide SoundZone;
    SetHolds(ops, z, e, uvalue, i, n);
    AssignHolds(ops, ops.setInterval(z, uvalue, i), e[uvalue := n], svalue, uvalue);
    e2 := e[uvalue := n][svalue := n];
  }

  lemma HavocOne<Z(!new)>(ops: ZoneOps<Z>, z: Z, e: Env, v: Variable, n: int)
    requires SoundZone(ops) && ops.mem(z, e)
    ensures ops.mem(ops.havoc(z, v), Updated(e, v, n))
  {
  }

  /** A masked operand fits every shift. */
  lemma MaskedFits(i: Interval, imm: nat)
    requires Masked(i)
    ensures FitsShift(i, imm)
  {
    hide TruncateToUnsigned, Pow2;
    MaskedView(i, 32);
    Pow2Values();
    var view := TruncateToUnsigned(i, 64);
    ModUnique(view.lb.value, 0, view.lb.value, TWO32);
    ModUnique(view.ub.value, 0, view.ub.value, TWO32);
  }

  /** The operand's unsigned interval is bounded and within 32 bits. */
  ghost predicate Masked(i: Interval) {
    i.lb.Some? && i.ub.Some? && IsIncludedIn(TruncateToUnsigned(i, 64), UnsignedInt(32))
  }

  /** The interval times a positive factor. */
  function Scale(i: Interval, factor: int): Interval {
    Interval(if i.lb.Some? then Some(i.lb.value * factor) else None, if i.ub.Some? then Some(i.ub.value * factor) else None)
  }

  lemma RangeHolds(lb: int, n: int, ub: int)
    requires lb <= n <= ub
    ensures Contains(FromNumbers(lb, ub), n)
  {
  }

  lemma EvalHolds<Z(!new)>(ops: ZoneOps<Z>, z: Z, e: Env, v: Variable)
    requires SoundZone(ops) && ops.mem(z, e) && v in e
    ensures Contains(ops.eval(z, Var(v)), e[v])
  {
    assert Value(Var(v), e) == e[v];
  }

  lemma SetHolds<Z(!new)>(ops: ZoneOps<Z>, z: Z, e: Env, v: Variable, i: Interval, n: int)
    requires SoundZone(ops) && ops.mem(z, e) && Contains(i, n)
    ensures ops.mem(ops.setInterval(z, v, i), e[v := n])
  {
  }

  lemma AssignHolds<Z(!new)>(ops: ZoneOps<Z>, z: Z, e: Env, to: Variable, from: Variable)
    requires SoundZone(ops) && ops.mem(z, e) && from in e
    ensures ops.mem(ops.assign(z, to, Var(from)), e[to := e[from]])
  {
    assert Value(Var(from), e) == e[from];
  }

  lemma ViewIsSome(i: Interval)
    ensures var v := TruncateToUnsigned(i, 64); v.lb.Some? && v.ub.Some? && 0 <= v.lb.value <= v.ub.value < Pow2(64)
    ensures var v := TruncateToUnsigned(i, 64); Contains(v, v.lb.value) && Contains(v, v.ub.value)
  {
    hide Pow2;
    Ranges();
  }

  lemma ViewHolds(i: Interval, w: Word)
    requires Contains(i, w as int)
    ensures var v := TruncateToUnsigned(i, 64); v.lb.value <= w as int <= v.ub.value && 0 <= v.lb.value && v.ub.value < Pow2(64)
  {
    hide TruncateToUnsigned, Pow2;
    UnsignedTwice(i, w);
  }

  lemma MaskedView(i: Interval, width: nat)
    requires (width == 32 && Masked(i)) || width == 64
    ensures var v := TruncateToUnsigned(i, 64); v.lb.value <= v.ub.value < Pow2(width)
  {
    hide TruncateToUnsigned, Pow2;
    Ranges();
    Pow2Values();
  }

  lemma ShiftLeftSmall(imm: nat, width: nat)
    requires width > 0
    ensures forall w :: ZeroExtend(ShiftLeft(w, imm, width), width) == ShiftLeft(w, imm, width)
  {
    hide Pow2;
    forall w ensures ZeroExtend(ShiftLeft(w, imm, width), width) == ShiftLeft(w, imm, width) {
      DivMod(w * Pow2(imm), Pow2(width));
      ModUnique(ShiftLeft(w, imm, width), 0, ShiftLeft(w, imm, width), Pow2(width));
    }
  }

  lemma ShiftRightSmall(imm: nat, width: nat)
    requires width > 0
    ensures forall w :: ZeroExtend(ShiftRight(w, imm, width), width) == ShiftRight(w, imm, width)
  {
    hide Pow2;
    forall w ensures ZeroExtend(ShiftRight(w, imm, width), width) == ShiftRight(w, imm, width) {
      var x := w % Pow2(width);
      DivMod(w, Pow2(width));
      QuotientBetween(x, Pow2(imm));
      ModUnique(x / Pow2(imm), 0, x / Pow2(imm), Pow2(width));
    }
  }
}
