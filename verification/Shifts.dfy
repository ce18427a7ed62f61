/**
  Wrapping and shifting on intervals: what `overflow_bounds`, `shl`, `lshr` and `ashr` compute before
  they touch the domain (src/crab/finite_domain.rs:1503-1536, 2136-2268), and that every word of the
  old interval lands in the new one.
*/
module Shifts {
  import opened Wrappers
  import opened Numbers
  import opened Intervals
  import opened Words

  // ------------------------------------------------------------------ wrapping

  /** The wrapped value: the low bits, re-read as a signed 64-bit number for a signed variable. */
  function Wrap(x: int, width: nat, isSigned: bool): int {
    if isSigned then SignExtend(ZeroExtend(x, width), 64) else ZeroExtend(x, width)
  }

  /** The interval of the wrapped values; none when the variable must be forgotten. */
  function WrapInterval(i: Interval, width: nat, isSigned: bool): Option<Interval> {
    if Size(i).None? || Size(i).value >= Size(UnsignedInt(width)).value then None
    else if IsBottom(i) then None
    else
      var lb, ub := Wrap(i.lb.value, width, isSigned), Wrap(i.ub.value, width, isSigned);
      if lb > ub then None else Some(FromNumbers(lb, ub))
  }

  /** On the low bits of fewer than 64 the signed and the unsigned reading agree. */
  lemma WrapNarrow(x: int, width: nat)
    requires 0 < width < 64
    ensures Wrap(x, width, true) == x % Pow2(width)
  {
    hide Pow2, SignExtend;
    DivMod(x, Pow2(width));
    Pow2Monotone(width, 63);
    SignedSmall(x % Pow2(width), 64);
  }

  lemma WrapWide(x: int)
    ensures Wrap(x, 64, true) == (x + Pow2(63)) % Pow2(64) - Pow2(63)
  {
    hide Pow2;
    SignExtendShift(x, 64);
    DivMod(x, Pow2(64));
    ModUnique(x % Pow2(64), 0, x % Pow2(64), Pow2(64));
  }

  /** Between wrapped end points that keep their order, and unchanged when the end points are. */
  lemma WrapBetween(lb: int, x: int, ub: int, width: nat, isSigned: bool)
    requires 0 < width <= 64 && lb <= x <= ub && ub - lb < Pow2(width)
    requires Wrap(lb, width, isSigned) <= Wrap(ub, width, isSigned)
    ensures Wrap(lb, width, isSigned) <= Wrap(x, width, isSigned) <= Wrap(ub, width, isSigned)
    ensures Wrap(lb, width, isSigned) == lb ==> Wrap(x, width, isSigned) == x
  {
    hide Pow2, Wrap;
    var m := Pow2(width);
    if isSigned && width == 64 {
      var h := Pow2(63);
      WrapWide(lb);
      WrapWide(x);
      WrapWide(ub);
      ModBetween(lb + h, x + h, ub + h, m);
      DivMod(lb + h, m);
    } else {
      WrapUnsigned(lb, width, isSigned);
      WrapUnsigned(x, width, isSigned);
      WrapUnsigned(ub, width, isSigned);
      ModBetween(lb, x, ub, m);
      DivMod(lb, m);
    }
  }

  lemma WrapUnsigned(x: int, width: nat, isSigned: bool)
    requires 0 < width <= 64 && !(isSigned && width == 64)
    ensures Wrap(x, width, isSigned) == x % Pow2(width)
  {
    hide Pow2, SignExtend;
    if isSigned {
      WrapNarrow(x, width);
    }
  }

  /**
    Wrapping is sound: the new interval holds the wrapped value of every member, and when it is the
    old interval then wrapping changes no member, so relations of the variable may be kept.
  */
  lemma WrapIntervalSound(i: Interval, width: nat, isSigned: bool, x: int)
    requires 0 < width <= 64 && Contains(i, x) && WrapInterval(i, width, isSigned).Some?
    ensures Contains(WrapInterval(i, width, isSigned).value, Wrap(x, width, isSigned))
    ensures Equal(WrapInterval(i, width, isSigned).value, i) ==> Wrap(x, width, isSigned) == x
  {
    hide Pow2, Wrap;
    UnsignedRange(width);
    WrapBetween(i.lb.value, x, i.ub.value, width, isSigned);
  }

  /** Everything a wrapped value can be. */
  function WrappedRange(width: nat, isSigned: bool): Interval
    requires width > 0
  {
    if isSigned && width == 64 then SignedInt(64) else UnsignedInt(width)
  }

  /** The moved value whose residue the wrapped value is, but for the same distance back. */
  function WrapShift(width: nat, isSigned: bool): nat {
    if isSigned && width == 64 then Pow2(63) else 0
  }

  lemma WrapIsResidue(x: int, width: nat, isSigned: bool)
    requires 0 < width <= 64
    ensures var h := WrapShift(width, isSigned); Wrap(x, width, isSigned) == (x + h) % Pow2(width) - h
  {
    hide Pow2, Wrap;
    if isSigned && width == 64 {
      WrapWide(x);
    } else {
      WrapUnsigned(x, width, isSigned);
    }
  }

  /** `r` holds the wrapped value of every member of `i`. */
  ghost predicate HoldsWrapped(i: Interval, width: nat, isSigned: bool, r: Interval)
    requires 0 < width <= 64
  {
    forall n :: Contains(i, n) ==> Contains(r, Wrap(n, width, isSigned))
  }

  /**
    Wrapping gives up no more than it has to: what is returned is the smallest interval of the wrapped members,
    and a variable is forgotten only when its wrapped members span everything.
  */
  lemma WrapIntervalIsLeast(i: Interval, width: nat, isSigned: bool, r: Interval)
    requires 0 < width <= 64 && !IsBottom(i) && HoldsWrapped(i, width, isSigned, r)
    ensures match WrapInterval(i, width, isSigned)
      case Some(w) => IsIncludedIn(w, r)
      case None => IsIncludedIn(WrappedRange(width, isSigned), r)
  {
    hide Pow2, Wrap, WrapShift, WrappedRange, HoldsWrapped;
    UnsignedRange(width);
    if Size(i).Some? && Size(i).value < Pow2(width) {
      if WrapInterval(i, width, isSigned).Some? {
        OneWrapped(i, i.lb.value, width, isSigned, r);
        OneWrapped(i, i.ub.value, width, isSigned, r);
      } else {
        AcrossTheEnd(i, width, isSigned, r);
      }
    } else {
      AllResidues(i, width, isSigned, r);
    }
  }

  lemma OneWrapped(i: Interval, n: int, width: nat, isSigned: bool, r: Interval)
    requires 0 < width <= 64 && Contains(i, n) && HoldsWrapped(i, width, isSigned, r)
    ensures Contains(r, Wrap(n, width, isSigned))
  {
  }

  /** Members whose ends change their order when wrapped lie on both sides of a multiple of the width. */
  lemma AcrossTheEnd(i: Interval, width: nat, isSigned: bool, r: Interval)
    requires 0 < width <= 64 && i.lb.Some? && i.ub.Some? && 0 <= i.ub.value - i.lb.value < Pow2(width)
    requires Wrap(i.lb.value, width, isSigned) > Wrap(i.ub.value, width, isSigned) && HoldsWrapped(i, width, isSigned, r)
    ensures IsIncludedIn(WrappedRange(width, isSigned), r)
  {
    hide Pow2, Wrap, WrapShift, WrappedRange, HoldsWrapped, IsIncludedIn;
    var h := WrapShift(width, isSigned);
    WrapIsResidue(i.lb.value, width, isSigned);
    WrapIsResidue(i.ub.value, width, isSigned);
    var n := WrapWithin(i.lb.value + h, i.ub.value + h, Pow2(width));
    BothEnds(i, n, n - 1, width, isSigned, r);
  }

  /** As many members as there are words leave out none of them. */
  lemma AllResidues(i: Interval, width: nat, isSigned: bool, r: Interval)
    requires 0 < width <= 64 && !IsBottom(i) && (Size(i).Some? ==> Size(i).value >= Pow2(width))
    requires HoldsWrapped(i, width, isSigned, r)
    ensures IsIncludedIn(WrappedRange(width, isSigned), r)
  {
    hide Pow2, Wrap, WrapShift, WrappedRange, HoldsWrapped, IsIncludedIn;
    UnsignedRange(width);
    var m, h := Pow2(width), WrapShift(width, isSigned);
    var moved := Interval(if i.lb.Some? then Some(i.lb.value + h) else None, if i.ub.Some? then Some(i.ub.value + h) else None);
    var n := ResidueIn(moved, m, 0);
    var n' := ResidueIn(moved, m, m - 1);
    BothEnds(i, n, n', width, isSigned, r);
  }

  lemma WrappedEnds(width: nat, isSigned: bool)
    requires 0 < width <= 64
    ensures var h: int := WrapShift(width, isSigned); WrappedRange(width, isSigned) == Interval(Some(-h), Some(Pow2(width) - 1 - h))
  {
    hide Pow2;
    UnsignedRange(width);
    if isSigned && width == 64 {
      SignedRange(64);
      Pow2Double(64);
    }
  }

  /** Members whose residues are the first and the last; they are given moved by `WrapShift`. */
  lemma BothEnds(i: Interval, first: int, last: int, width: nat, isSigned: bool, r: Interval)
    requires 0 < width <= 64 && first % Pow2(width) == 0 && last % Pow2(width) == Pow2(width) - 1
    requires Contains(i, first - WrapShift(width, isSigned)) && Contains(i, last - WrapShift(width, isSigned))
    requires HoldsWrapped(i, width, isSigned, r)
    ensures IsIncludedIn(WrappedRange(width, isSigned), r)
  {
    hide Pow2, Wrap, WrapShift, HoldsWrapped;
    var a, b := first - WrapShift(width, isSigned), last - WrapShift(width, isSigned);
    OneWrapped(i, a, width, isSigned, r);
    OneWrapped(i, b, width, isSigned, r);
    WrapIsResidue(a, width, isSigned);
    WrapIsResidue(b, width, isSigned);
    WrappedEnds(width, isSigned);
  }

  // ------------------------------------------------------------------ concrete shifts

  /** `w << imm` in `width` bits. */
  function ShiftLeft(w: int, imm: nat, width: nat): int {
    w * Pow2(imm) % Pow2(width)
  }

  /** The low `width` bits shifted right, filling with zeros. */
  function ShiftRight(w: int, imm: nat, width: nat): int {
    w % Pow2(width) / Pow2(imm)
  }

  /** The low `width` bits read as signed and shifted right, filling with the sign, as an unsigned number. */
  function ShiftRightSigned(w: int, imm: nat, width: nat): int {
    SignExtend(w, width) / Pow2(imm) % Pow2(width)
  }

  /** The source's `wrapping_shr` and `wrapping_shl` on 64-bit words: the count is taken modulo 64. */
  function WrappingShr(x: int, count: nat): int {
    x / Pow2(count % 64)
  }

  function WrappingShl(x: int, count: nat): int {
    x * Pow2(count % 64) % Pow2(64)
  }

  // ------------------------------------------------------------------ left shift

  /** The interval of `uvalue << imm`; `i` is the 64-bit unsigned view of the operand. */
  function ShlInterval(i: Interval, imm: nat, width: nat): Interval
    requires i.lb.Some? && i.ub.Some?
  {
    var lb, ub := i.lb.value, i.ub.value;
    if imm >= width || (imm > 0 && WrappingShr(lb, width - imm) != WrappingShr(ub, width - imm)) then
      FromNumbers(0, WrappingShl(MaxUint(width), imm) % Pow2(width))
    else
      FromNumbers(WrappingShl(lb, imm) % Pow2(width), WrappingShl(ub, imm) % Pow2(width))
  }

  /** Taking more low bits first does not change fewer of them. */
  lemma {:induction false} ModMod(x: int, a: nat, b: nat)
    requires a <= b
    ensures x % Pow2(b) % Pow2(a) == x % Pow2(a)
  {
    hide Pow2;
    var m, n := Pow2(a), Pow2(b - a);
    Pow2Add(b - a, a);
    DivMod(x, n * m);
    DivMod(x % (n * m), m);
    var q, r := x / (n * m), x % (n * m);
    assert q * (n * m) == (q * n) * m;
    assert (q * n + r / m) * m == (q * n) * m + r / m * m;
    ModUnique(x, q * n + r / m, r % m, m);
  }

  lemma WrappingShlLow(x: int, imm: nat, width: nat)
    requires imm < width <= 64
    ensures WrappingShl(x, imm) % Pow2(width) == ShiftLeft(x, imm, width)
  {
    hide Pow2;
    ModMod(x * Pow2(imm), width, 64);
  }

  /** The bits that stay, shifted: with `w == q * 2^(width - imm) + t` the result is `t * 2^imm`. */
  lemma ShiftLeftSplit(w: int, imm: nat, width: nat, q: int, t: int)
    requires imm <= width && w == q * Pow2(width - imm) + t && 0 <= t < Pow2(width - imm)
    ensures ShiftLeft(w, imm, width) == t * Pow2(imm)
    ensures 0 <= t * Pow2(imm) <= Pow2(width) - Pow2(imm)
  {
    hide Pow2;
    var k, n := Pow2(imm), Pow2(width - imm);
    Pow2Add(width - imm, imm);
    assert (q * n + t) * k == q * (n * k) + t * k;
    MulLe(t, n - 1, k);
    assert (n - 1) * k == n * k - k;
    MulLe(0, t, k);
    assert 0 * k == 0;
    ModUnique(w * k, q, t * k, n * k);
  }

  lemma MulLe(a: int, b: int, k: int)
    requires a <= b && k > 0
    ensures a * k <= b * k
  {
    if a < b {
      QuotientsApart(a, b, k);
    }
  }

  lemma SameHighBits(lb: int, w: int, ub: int, n: int)
    requires n > 0 && lb <= w <= ub && lb / n == ub / n
    ensures w / n == lb / n && lb % n <= w % n <= ub % n
  {
    DivMod(lb, n);
    DivMod(ub, n);
    ModUnique(w, lb / n, w - lb / n * n, n);
  }

  /** All bits shifted out leave zero. */
  lemma ShiftLeftOut(w: int, imm: nat, width: nat)
    requires imm >= width
    ensures ShiftLeft(w, imm, width) == 0
  {
    hide Pow2;
    Pow2Add(imm - width, width);
    assert w * (Pow2(imm - width) * Pow2(width)) == (w * Pow2(imm - width)) * Pow2(width);
    ModUnique(w * Pow2(imm), w * Pow2(imm - width), 0, Pow2(width));
  }

  lemma OnesSplit(k: int, n: int)
    ensures n * k - 1 == (k - 1) * n + (n - 1)
    ensures (n - 1) * k == n * k - k
  {
  }

  /** The widest result: every bit that stays is set. */
  lemma ShiftLeftOnes(imm: nat, width: nat)
    requires imm < width <= 64
    ensures WrappingShl(MaxUint(width), imm) % Pow2(width) == Pow2(width) - Pow2(imm)
  {
    hide Pow2, WrappingShl, ShiftLeft;
    var k, n := Pow2(imm), Pow2(width - imm);
    Pow2Add(width - imm, imm);
    WrappingShlLow(MaxUint(width), imm, width);
    OnesSplit(k, n);
    ShiftLeftSplit(MaxUint(width), imm, width, k - 1, n - 1);
  }

  /**
    When the interval holds: always, but for a 32-bit shift by zero. That one cuts the two ends to 32 bits
    each by itself, which is right when they agree on the high bits or their low bits span everything.
  */
  predicate ShlFits(lb: int, ub: int, imm: nat, width: nat) {
    imm > 0 || width == 64 || lb / TWO32 == ub / TWO32 || (lb % TWO32 == 0 && ub % TWO32 == TWO32 - 1)
  }

  /** Left shift: the result of every word of the operand is in the interval. */
  lemma ShlIntervalSound(i: Interval, imm: nat, width: nat, w: int)
    requires i.lb.Some? && i.ub.Some? && 0 <= i.lb.value <= w <= i.ub.value < Pow2(64)
    requires (width == 32 || width == 64) && ShlFits(i.lb.value, i.ub.value, imm, width)
    ensures Contains(ShlInterval(i, imm, width), ShiftLeft(w, imm, width))
  {
    hide Pow2, ShiftLeft, WrappingShl;
    var lb, ub := i.lb.value, i.ub.value;
    Pow2Values();
    if imm >= width {
      ShiftLeftOut(w, imm, width);
      DivMod(WrappingShl(MaxUint(width), imm), Pow2(width));
    } else {
      var n := Pow2(width - imm);
      DivMod(w, n);
      ShiftLeftSplit(w, imm, width, w / n, w % n);
      if imm > 0 && WrappingShr(lb, width - imm) != WrappingShr(ub, width - imm) {
        ShiftLeftOnes(imm, width);
      } else {
        DivMod(lb, n);
        DivMod(ub, n);
        ShiftLeftSplit(lb, imm, width, lb / n, lb % n);
        ShiftLeftSplit(ub, imm, width, ub / n, ub % n);
        WrappingShlLow(lb, imm, width);
        WrappingShlLow(ub, imm, width);
        LowBitsBetween(lb, w, ub, imm, width);
        MulLe(lb % n, w % n, Pow2(imm));
        MulLe(w % n, ub % n, Pow2(imm));
      }
    }
  }

  /** What is not shifted out of a member lies between what is not shifted out of the ends. */
  lemma LowBitsBetween(lb: int, w: int, ub: int, imm: nat, width: nat)
    requires (width == 32 || width == 64) && imm < width && 0 <= lb <= w <= ub < Pow2(64) && ShlFits(lb, ub, imm, width)
    requires imm > 0 ==> WrappingShr(lb, width - imm) == WrappingShr(ub, width - imm)
    ensures var n := Pow2(width - imm); lb % n <= w % n <= ub % n
  {
    hide Pow2;
    Pow2Values();
    var n := Pow2(width - imm);
    if imm == 0 && width == 64 {
      ModUnique(lb, 0, lb, n);
      ModUnique(ub, 0, ub, n);
    }
    DivMod(w, n);
    if lb / n == ub / n {
      SameHighBits(lb, w, ub, n);
    }
  }

  /** Every result lies in the interval exactly when the ends fit. */
  lemma ShlIntervalExact(i: Interval, imm: nat, width: nat)
    requires i.lb.Some? && i.ub.Some? && 0 <= i.lb.value <= i.ub.value < Pow2(64)
    requires width == 32 || width == 64
    ensures (forall w :: i.lb.value <= w <= i.ub.value ==> Contains(ShlInterval(i, imm, width), ShiftLeft(w, imm, width)))
      <==> ShlFits(i.lb.value, i.ub.value, imm, width)
  {
    hide Pow2, ShiftLeft, ShlInterval;
    if ShlFits(i.lb.value, i.ub.value, imm, width) {
      forall w | i.lb.value <= w <= i.ub.value ensures Contains(ShlInterval(i, imm, width), ShiftLeft(w, imm, width)) {
        ShlIntervalSound(i, imm, width, w);
      }
    } else {
      var w := ShlLost(i);
    }
  }

  /** The interval is no wider than it has to be: both its ends are shifted members. */
  lemma ShlIntervalEnds(i: Interval, imm: nat, width: nat) returns (x: int, y: int)
    requires i.lb.Some? && i.ub.Some? && 0 <= i.lb.value <= i.ub.value < Pow2(64)
    requires (width == 32 || width == 64) && imm < width
    ensures i.lb.value <= x <= i.ub.value && i.lb.value <= y <= i.ub.value
    ensures ShlInterval(i, imm, width) == FromNumbers(ShiftLeft(x, imm, width), ShiftLeft(y, imm, width))
  {
    hide Pow2, ShiftLeft, WrappingShl;
    var lb, ub := i.lb.value, i.ub.value;
    if imm > 0 && WrappingShr(lb, width - imm) != WrappingShr(ub, width - imm) {
      var k, n := Pow2(imm), Pow2(width - imm);
      var q := lb / n;
      DivMod(lb, n);
      DivMod(ub, n);
      DivLe(lb, ub, n);
      MulLe(q + 1, ub / n, n);
      assert (q + 1) * n == q * n + n;
      x, y := (q + 1) * n, (q + 1) * n - 1;
      ShiftLeftSplit(x, imm, width, q + 1, 0);
      ShiftLeftSplit(y, imm, width, q, n - 1);
      ShiftLeftOnes(imm, width);
      Pow2Add(width - imm, imm);
      OnesSplit(k, n);
    } else {
      x, y := lb, ub;
      WrappingShlLow(lb, imm, width);
      WrappingShlLow(ub, imm, width);
    }
  }

  lemma ShlByZero(w: int)
    requires 0 <= w < Pow2(64)
    ensures ShiftLeft(w, 0, 32) == w % TWO32 == WrappingShl(w, 0) % Pow2(32)
  {
    hide Pow2, WrappingShl;
    Pow2Values();
    WrappingShlLow(w, 0, 32);
  }

  /** A word whose low bits leave the range of the ends' low bits. */
  lemma ShlLost(i: Interval) returns (w: int)
    requires i.lb.Some? && i.ub.Some? && 0 <= i.lb.value <= i.ub.value < Pow2(64) && !ShlFits(i.lb.value, i.ub.value, 0, 32)
    ensures i.lb.value <= w <= i.ub.value && !Contains(ShlInterval(i, 0, 32), ShiftLeft(w, 0, 32))
  {
    hide Pow2, ShiftLeft, WrappingShl;
    Pow2Values();
    var lb, ub := i.lb.value, i.ub.value;
    DivMod(lb, TWO32);
    DivMod(ub, TWO32);
    if lb % TWO32 > 0 {
      w := (lb / TWO32 + 1) * TWO32;
      ModUnique(w, lb / TWO32 + 1, 0, TWO32);
    } else {
      w := ub / TWO32 * TWO32 - 1;
      ModUnique(w, ub / TWO32 - 1, TWO32 - 1, TWO32);
    }
    ShlByZero(lb);
    ShlByZero(ub);
    ShlByZero(w);
  }

  /** Without the mask a 32-bit shift by zero can lose the word: [0, 2^32 + 5] becomes [0, 5], but 6 stays 6. */
  lemma ShlNeedsMask()
    ensures !Contains(ShlInterval(FromNumbers(0, TWO32 + 5), 0, 32), ShiftLeft(6, 0, 32))
  {
    hide Pow2;
    Pow2Values();
    ModUnique(TWO32 + 5, 0, TWO32 + 5, TWO64);
    ModUnique(TWO32 + 5, 1, 5, TWO32);
    ModUnique(6, 0, 6, TWO32);
  }

  // ------------------------------------------------------------------ right shifts

  lemma DivLe(a: int, b: int, k: int)
    requires a <= b && k > 0
    ensures a / k <= b / k
  {
    DivMod(a, k);
    DivMod(b, k);
    if b / k < a / k {
      QuotientsApart(b / k, a / k, k);
    }
  }

  /** The interval of the logical right shift; `i` is the 64-bit unsigned view, within the width. */
  function LshrInterval(i: Interval, imm: nat): Interval
    requires i.lb.Some? && i.ub.Some?
  {
    FromNumbers(i.lb.value / Pow2(imm), i.ub.value / Pow2(imm))
  }

  lemma LshrIntervalSound(i: Interval, imm: nat, width: nat, w: int)
    requires i.lb.Some? && i.ub.Some? && 0 <= i.lb.value <= w <= i.ub.value < Pow2(width)
    ensures Contains(LshrInterval(i, imm), ShiftRight(w, imm, width))
  {
    hide Pow2;
    ModUnique(w, 0, w, Pow2(width));
    DivLe(i.lb.value, w, Pow2(imm));
    DivLe(w, i.ub.value, Pow2(imm));
  }

  lemma LshrIntervalEnds(i: Interval, imm: nat, width: nat)
    requires i.lb.Some? && i.ub.Some? && 0 <= i.lb.value <= i.ub.value < Pow2(width)
    ensures LshrInterval(i, imm) == FromNumbers(ShiftRight(i.lb.value, imm, width), ShiftRight(i.ub.value, imm, width))
  {
    hide Pow2;
    ModUnique(i.lb.value, 0, i.lb.value, Pow2(width));
    ModUnique(i.ub.value, 0, i.ub.value, Pow2(width));
  }

  /** An unbounded operand: anything the widest word can become. */
  lemma LshrUnbounded(w: Word, imm: nat, width: nat)
    requires width == 32 || width == 64
    ensures 0 <= ShiftRight(w as int, imm, width) <= MaxUint(64) / Pow2(imm)
  {
    hide Pow2;
    Pow2Values();
    DivMod(w as int, Pow2(width));
    DivLe(0, w as int % Pow2(width), Pow2(imm));
    DivLe(w as int % Pow2(width), MaxUint(64), Pow2(imm));
    ModUnique(0, 0, 0, Pow2(imm));
  }

  /** The interval of the arithmetic right shift; `i` is the signed view of the operand. */
  function AshrInterval(i: Interval, imm: nat, width: nat): Interval
    requires width == 32 || width == 64
    requires i.lb.Some? && i.ub.Some?
  {
    hide Pow2, SignExtend;
    var first, last := SignExtend(i.lb.value, width), SignExtend(i.ub.value, width);
    var lb, ub := first / Pow2(imm), last / Pow2(imm);
    if width == 64 then FromNumbers(lb, ub)
    else
      ShiftStaysSmall(first, imm, width);
      ShiftStaysSmall(last, imm, width);
      var lbU, ubU := CastToUnsignedWidth(lb, width), CastToUnsignedWidth(ub, width);
      if lbU <= ubU then FromNumbers(lbU, ubU) else FromNumbers(MinInt(64) / Pow2(imm), MaxInt(64) / Pow2(imm))
  }

  /** The signed value the arithmetic shift gives the signed variable before wrapping. */
  function AshrValue(w: int, imm: nat, width: nat): int {
    if width == 64 then SignExtend(w, 64) / Pow2(imm) else ShiftRightSigned(w, imm, width)
  }

  /** Unsigned readings of numbers of the width that keep their order keep everything between them. */
  lemma UnsignedOrder(lb: int, x: int, ub: int, width: nat)
    requires width > 0 && MinInt(width) <= lb <= x <= ub <= MaxInt(width)
    requires ZeroExtend(lb, width) <= ZeroExtend(ub, width)
    ensures ZeroExtend(lb, width) <= ZeroExtend(x, width) <= ZeroExtend(ub, width)
  {
    hide Pow2;
    Pow2Double(width);
    ModBetween(lb, x, ub, Pow2(width));
  }

  lemma NegMul(a: int, k: int)
    requires k >= 1
    ensures a > 0 ==> a * k >= a
    ensures a <= 0 ==> a * k <= a
    ensures a < 0 ==> a * k <= -k
  {
    if a > 0 {
      MulLe(1, k, a);
    } else if a < 0 {
      MulLe(1, k, -a);
      MulLe(a, -1, k);
    }
  }

  /** Dividing by a power of two moves a number towards zero, or -1. */
  lemma QuotientBetween(x: int, k: int)
    requires k >= 1
    ensures if x >= 0 then 0 <= x / k <= x else x <= x / k < 0
  {
    DivMod(x, k);
    var q := x / k;
    NegMul(q, k);
    NegMul(q + 1, k);
    assert (q + 1) * k == q * k + k;
  }

  lemma ShiftStaysSmall(x: int, imm: nat, width: nat)
    requires width > 0 && MinInt(width) <= x <= MaxInt(width)
    ensures MinInt(width) <= x / Pow2(imm) <= MaxInt(width)
  {
    hide Pow2;
    QuotientBetween(x, Pow2(imm));
  }

  /** The fallback range holds every 32-bit result. */
  lemma AshrFallback(r: int, imm: nat)
    requires imm < 32 && 0 <= r < Pow2(32)
    ensures MinInt(64) / Pow2(imm) <= r <= MaxInt(64) / Pow2(imm)
  {
    hide Pow2;
    var k, n := Pow2(imm), Pow2(63 - imm);
    Pow2Add(63 - imm, imm);
    Pow2Monotone(32, 63 - imm);
    OnesSplit(n, k);
    ModUnique(n * k - 1, n - 1, k - 1, k);
    assert n * k == k * n;
    assert -n * k == -(n * k);
    ModUnique(-(n * k), -n, 0, k);
  }

  /** Arithmetic right shift: `x` is the signed reading of the operand in the given width. */
  lemma AshrIntervalSound(i: Interval, imm: nat, width: nat, w: int)
    requires (width == 32 || width == 64) && imm < width
    requires i.lb.Some? && i.ub.Some?
    requires MinInt(width) <= i.lb.value <= MaxInt(width) && MinInt(width) <= i.ub.value <= MaxInt(width)
    requires Contains(i, SignExtend(w, width))
    ensures Contains(AshrInterval(i, imm, width), AshrValue(w, imm, width))
  {
    hide Pow2, SignExtend, ZeroExtend;
    var x, k := SignExtend(w, width), Pow2(imm);
    SignedSmall(i.lb.value, width);
    SignedSmall(i.ub.value, width);
    DivLe(i.lb.value, x, k);
    DivLe(x, i.ub.value, k);
    if width == 32 {
      ShiftStaysSmall(i.lb.value, imm, 32);
      ShiftStaysSmall(i.ub.value, imm, 32);
      AshrLow(w, imm);
      if ZeroExtend(i.lb.value / k, 32) <= ZeroExtend(i.ub.value / k, 32) {
        UnsignedOrder(i.lb.value / k, x / k, i.ub.value / k, 32);
      } else {
        AshrFallback(AshrValue(w, imm, 32), imm);
      }
    }
  }

  /** Both ends are the ends' own results, unless a 32-bit operand may have either sign: then nothing is claimed. */
  lemma AshrIntervalEnds(i: Interval, imm: nat, width: nat)
    requires (width == 32 || width == 64) && imm < width
    requires i.lb.Some? && i.ub.Some? && i.lb.value <= i.ub.value
    requires MinInt(width) <= i.lb.value <= MaxInt(width) && MinInt(width) <= i.ub.value <= MaxInt(width)
    ensures AshrInterval(i, imm, width) ==
      if width == 32 && i.lb.value < 0 <= i.ub.value then FromNumbers(MinInt(64) / Pow2(imm), MaxInt(64) / Pow2(imm))
      else FromNumbers(AshrValue(i.lb.value, imm, width), AshrValue(i.ub.value, imm, width))
  {
    hide Pow2, SignExtend, ZeroExtend;
    var lb, ub, k := i.lb.value, i.ub.value, Pow2(imm);
    SignedSmall(lb, width);
    SignedSmall(ub, width);
    if width == 32 {
      ShiftStaysSmall(lb, imm, 32);
      ShiftStaysSmall(ub, imm, 32);
      AshrLow(lb, imm);
      AshrLow(ub, imm);
      QuotientBetween(lb, k);
      QuotientBetween(ub, k);
      DivLe(lb, ub, k);
      SignOrder(lb / k, ub / k);
    }
  }

  /** Unsigned readings keep the order exactly within one sign. */
  lemma SignOrder(a: int, b: int)
    requires MinInt(32) <= a <= b <= MaxInt(32)
    ensures ZeroExtend(a, 32) <= ZeroExtend(b, 32) <==> !(a < 0 <= b)
  {
    hide Pow2;
    Pow2Values();
    Pow2Double(32);
    ModUnique(a, if a < 0 then -1 else 0, if a < 0 then a + TWO32 else a, TWO32);
    ModUnique(b, if b < 0 then -1 else 0, if b < 0 then b + TWO32 else b, TWO32);
  }

  lemma AshrLow(w: int, imm: nat)
    ensures AshrValue(w, imm, 32) == ZeroExtend(SignExtend(w, 32) / Pow2(imm), 32)
    ensures 0 <= AshrValue(w, imm, 32) < Pow2(32)
  {
    hide Pow2, SignExtend;
    DivMod(SignExtend(w, 32) / Pow2(imm), Pow2(32));
  }
}
