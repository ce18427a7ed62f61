/** Intervals over the integers (src/crab/interval.rs); a missing bound is infinite. */
module Intervals {
  import opened Wrappers
  import opened Numbers

  datatype Interval = Interval(lb: Option<int>, ub: Option<int>)

  const BOTTOM := Interval(Some(0), Some(-1))

  /** Swapped bounds stand for the empty interval. */
  function New(lb: Option<int>, ub: Option<int>): Interval {
    if lb.Some? && ub.Some? && lb.value > ub.value then BOTTOM else Interval(lb, ub)
  }

  function FromNumbers(lb: int, ub: int): Interval {
    New(Some(lb), Some(ub))
  }

  predicate Contains(i: Interval, n: int) {
    (i.lb.Some? ==> i.lb.value <= n) && (i.ub.Some? ==> n <= i.ub.value)
  }

  predicate IsBottom(i: Interval) {
    i.lb.Some? && i.ub.Some? && i.lb.value > i.ub.value
  }

  predicate IsTop(i: Interval) {
    i.lb.None? && i.ub.None?
  }

  function Singleton(i: Interval): Option<int> {
    if i.lb.Some? && i.lb == i.ub then i.lb else None
  }

  /** The number of members, if finite. */
  function Size(i: Interval): Option<int> {
    if IsBottom(i) then Some(0)
    else if i.lb.Some? && i.ub.Some? then Some(i.ub.value - i.lb.value + 1)
    else None
  }

  predicate IsIncludedIn(i: Interval, x: Interval) {
    IsBottom(i) ||
    (!IsBottom(x)
    && (x.lb.Some? ==> i.lb.Some? && x.lb.value <= i.lb.value)
    && (x.ub.Some? ==> i.ub.Some? && i.ub.value <= x.ub.value))
  }

  predicate Equal(i: Interval, x: Interval) {
    if IsBottom(i) then IsBottom(x) else i == x
  }

  function MinBound(a: Option<int>, b: Option<int>): Option<int> {
    if a.Some? && b.Some? then Some(if a.value <= b.value then a.value else b.value) else None
  }

  function MaxBound(a: Option<int>, b: Option<int>): Option<int> {
    if a.Some? && b.Some? then Some(if a.value <= b.value then b.value else a.value) else None
  }

  /** The smallest interval around both. */
  function Join(i: Interval, x: Interval): (r: Interval)
    ensures forall n :: Contains(i, n) || Contains(x, n) ==> Contains(r, n)
  {
    if IsBottom(i) then x else if IsBottom(x) then i
    else New(MinBound(i.lb, x.lb), MaxBound(i.ub, x.ub))
  }

  /** Exactly the common members. */
  function Meet(i: Interval, x: Interval): (r: Interval)
    ensures forall n :: Contains(r, n) <==> Contains(i, n) && Contains(x, n)
  {
    if IsBottom(i) || IsBottom(x) then BOTTOM
    else
      New(if i.lb.None? then x.lb else if x.lb.None? then i.lb else MaxBound(i.lb, x.lb),
          if i.ub.None? then x.ub else if x.ub.None? then i.ub else MinBound(i.ub, x.ub))
  }

  function AddBound(a: Option<int>, b: Option<int>): Option<int> {
    if a.Some? && b.Some? then Some(a.value + b.value) else None
  }

  /** Holds every sum of members. */
  function Add(i: Interval, x: Interval): (r: Interval)
    ensures forall n, m :: Contains(i, n) && Contains(x, m) ==> Contains(r, n + m)
  {
    if IsBottom(i) || IsBottom(x) then BOTTOM else New(AddBound(i.lb, x.lb), AddBound(i.ub, x.ub))
  }

  // ------------------------------------------------------------------ common ranges

  function SignedInt(width: nat): Interval
    requires width > 0
  {
    FromNumbers(MinInt(width), MaxInt(width))
  }

  function UnsignedInt(width: nat): Interval {
    FromNumbers(0, MaxUint(width))
  }

  function Nonnegative(width: nat): Interval
    requires width > 0
  {
    FromNumbers(0, MaxInt(width))
  }

  function Negative(width: nat): Interval
    requires width > 0
  {
    FromNumbers(MinInt(width), -1)
  }

  function UnsignedHigh(width: nat): Interval
    requires width > 0
  {
    FromNumbers(MaxInt(width) + 1, MaxUint(width))
  }

  /** The ranges at the two machine widths, as plain numbers. */
  lemma Ranges()
    ensures SignedInt(32) == Interval(Some(-TWO31), Some(TWO31 - 1))
    ensures SignedInt(64) == Interval(Some(-TWO63), Some(TWO63 - 1))
    ensures UnsignedInt(32) == Interval(Some(0), Some(TWO32 - 1))
    ensures UnsignedInt(64) == Interval(Some(0), Some(TWO64 - 1))
    ensures Nonnegative(32) == Interval(Some(0), Some(TWO31 - 1))
    ensures Nonnegative(64) == Interval(Some(0), Some(TWO63 - 1))
    ensures Negative(32) == Interval(Some(-TWO31), Some(-1))
    ensures Negative(64) == Interval(Some(-TWO63), Some(-1))
    ensures UnsignedHigh(32) == Interval(Some(TWO31), Some(TWO32 - 1))
    ensures UnsignedHigh(64) == Interval(Some(TWO63), Some(TWO64 - 1))
  {
    hide Pow2;
    Pow2Values();
  }

  // ------------------------------------------------------------------ finite views

  /** The interval of the signed readings, or the whole signed range. */
  function TruncateToSigned(i: Interval, width: nat): (r: Interval)
    requires width > 0
    ensures r.lb.Some? && r.ub.Some? && r.lb.value <= r.ub.value
    ensures MinInt(width) <= r.lb.value && r.ub.value <= MaxInt(width)
    ensures forall n :: Contains(i, n) ==> Contains(r, SignExtend(n, width))
  {
    hide Pow2, SignExtend, Contains;
    SignedRange(width);
    var fullRange := SignedInt(width);
    if Size(i).Some? && Size(i).value < Size(fullRange).value then
      var extended := New(Some(SignExtend(i.lb.value, width)), Some(SignExtend(i.ub.value, width)));
      SignedFull(i, width);
      if !IsBottom(extended) then SignedBetween(i, width); extended else fullRange
    else
      SignedFull(i, width);
      fullRange
  }

  /** The interval of the unsigned readings, or the whole unsigned range. */
  function TruncateToUnsigned(i: Interval, width: nat): (r: Interval)
    requires width > 0
    ensures r.lb.Some? && r.ub.Some? && r.lb.value <= r.ub.value
    ensures 0 <= r.lb.value && r.ub.value <= MaxUint(width)
    ensures forall n :: Contains(i, n) ==> Contains(r, ZeroExtend(n, width))
  {
    hide Pow2, ZeroExtend, Contains;
    UnsignedRange(width);
    var fullRange := UnsignedInt(width);
    if Size(i).Some? && Size(i).value < Size(fullRange).value then
      var extended := New(Some(ZeroExtend(i.lb.value, width)), Some(ZeroExtend(i.ub.value, width)));
      UnsignedFull(i, width);
      if !IsBottom(extended) then UnsignedBetween(i, width); extended else fullRange
    else
      UnsignedFull(i, width);
      fullRange
  }

  lemma SignedRange(width: nat)
    requires width > 0
    ensures SignedInt(width) == Interval(Some(MinInt(width)), Some(MaxInt(width)))
    ensures MinInt(width) <= MaxInt(width)
    ensures Size(SignedInt(width)) == Some(Pow2(width))
  {
    hide Pow2;
    Pow2Double(width);
    assert Pow2(width - 1) > 0;
  }

  lemma UnsignedRange(width: nat)
    ensures UnsignedInt(width) == Interval(Some(0), Some(MaxUint(width)))
    ensures 0 <= MaxUint(width)
    ensures Size(UnsignedInt(width)) == Some(Pow2(width))
  {
    hide Pow2;
    assert Pow2(width) > 0;
  }

  lemma SignedFull(i: Interval, width: nat)
    requires width > 0
    ensures forall n :: Contains(SignedInt(width), SignExtend(n, width))
    ensures forall n :: MinInt(width) <= SignExtend(n, width) <= MaxInt(width)
  {
    hide Pow2, SignExtend;
    SignedRange(width);
  }

  lemma UnsignedFull(i: Interval, width: nat)
    requires width > 0
    ensures forall n :: Contains(UnsignedInt(width), ZeroExtend(n, width))
    ensures forall n :: 0 <= ZeroExtend(n, width) <= MaxUint(width)
  {
    hide Pow2, ZeroExtend;
    UnsignedRange(width);
  }

  lemma SignedBetween(i: Interval, width: nat)
    requires width > 0 && Size(i).Some? && Size(i).value < Pow2(width)
    requires SignExtend(i.lb.value, width) <= SignExtend(i.ub.value, width)
    ensures forall n :: Contains(i, n) ==>
      Contains(Interval(Some(SignExtend(i.lb.value, width)), Some(SignExtend(i.ub.value, width))), SignExtend(n, width))
  {
    hide Pow2, SignExtend;
    forall n | Contains(i, n)
      ensures SignExtend(i.lb.value, width) <= SignExtend(n, width) <= SignExtend(i.ub.value, width)
    {
      var h := Pow2(width - 1);
      SignExtendShift(i.lb.value, width);
      SignExtendShift(n, width);
      SignExtendShift(i.ub.value, width);
      ModBetween(i.lb.value + h, n + h, i.ub.value + h, Pow2(width));
    }
  }

  lemma UnsignedBetween(i: Interval, width: nat)
    requires width > 0 && Size(i).Some? && Size(i).value < Pow2(width)
    requires ZeroExtend(i.lb.value, width) <= ZeroExtend(i.ub.value, width)
    ensures forall n :: Contains(i, n) ==>
      Contains(Interval(Some(ZeroExtend(i.lb.value, width)), Some(ZeroExtend(i.ub.value, width))), ZeroExtend(n, width))
  {
    hide Pow2;
    forall n | Contains(i, n)
      ensures ZeroExtend(i.lb.value, width) <= ZeroExtend(n, width) <= ZeroExtend(i.ub.value, width)
    {
      ModBetween(i.lb.value, n, i.ub.value, Pow2(width));
    }
  }

  // ------------------------------------------------------------------ no wider than needed

  lemma JoinIsLeast(i: Interval, x: Interval, r: Interval)
    requires forall n :: Contains(i, n) || Contains(x, n) ==> Contains(r, n)
    ensures IsIncludedIn(Join(i, x), r)
  {
    if !IsBottom(i) {
      MembersInside(i, r);
    }
    if !IsBottom(x) {
      MembersInside(x, r);
    }
  }

  /** Inclusion is inclusion of the members. */
  lemma MembersInside(i: Interval, r: Interval)
    requires !IsBottom(i) && forall n :: Contains(i, n) ==> Contains(r, n)
    ensures IsIncludedIn(i, r)
  {
    var m := if i.lb.Some? then i.lb.value else if i.ub.Some? then i.ub.value else 0;
    assert Contains(i, m);
    if r.lb.Some? && (i.lb.None? || i.lb.value < r.lb.value) {
      assert Contains(i, if i.lb.Some? then i.lb.value else if m < r.lb.value then m else r.lb.value - 1);
    }
    if r.ub.Some? && (i.ub.None? || i.ub.value > r.ub.value) {
      assert Contains(i, if i.ub.Some? then i.ub.value else if m > r.ub.value then m else r.ub.value + 1);
    }
  }

  /** Every member of the sum is a sum of members. */
  lemma AddIsExact(i: Interval, x: Interval, s: int) returns (n: int, m: int)
    requires Contains(Add(i, x), s)
    ensures Contains(i, n) && Contains(x, m) && n + m == s
  {
    if i.lb.Some? && x.lb.Some? {
      n := if i.ub.None? || s - x.lb.value <= i.ub.value then s - x.lb.value else i.ub.value;
    } else if i.ub.Some? && x.ub.Some? {
      n := if i.lb.None? || s - x.ub.value >= i.lb.value then s - x.ub.value else i.lb.value;
    } else if i.lb.Some? || i.ub.Some? {
      var a := if i.lb.Some? then i.lb.value else i.ub.value;
      n := if x.lb.Some? && s - a < x.lb.value then s - x.lb.value else if x.ub.Some? && s - a > x.ub.value then s - x.ub.value else a;
    } else {
      n := s - if x.lb.Some? then x.lb.value else if x.ub.Some? then x.ub.value else 0;
    }
    m := s - n;
  }

  /** Among `m` numbers in a row every residue occurs. */
  lemma ResidueWithin(lo: int, m: int, r: int) returns (n: int)
    requires 0 <= r < m
    ensures lo <= n < lo + m && n % m == r
  {
    var k := (r - lo) % m;
    DivMod(r - lo, m);
    n := lo + k;
    var q := (r - lo) / m;
    assert n == -q * m + r by {
      assert -q * m == -(q * m);
    }
    ModUnique(n, -q, r, m);
  }

  /** A member of each of two residues: as many members as there are residues, or a step from the second to the first between them. */
  lemma ResidueIn(i: Interval, m: int, r: int) returns (n: int)
    requires 0 <= r < m && !IsBottom(i) && (Size(i).Some? ==> Size(i).value >= m)
    ensures Contains(i, n) && n % m == r
  {
    n := ResidueWithin(if i.lb.Some? then i.lb.value else if i.ub.Some? then i.ub.value - m + 1 else 0, m, r);
  }

  lemma WrapWithin(lb: int, ub: int, m: int) returns (n: int)
    requires m > 0 && lb <= ub && lb % m > ub % m
    ensures lb < n <= ub && n % m == 0 && (n - 1) % m == m - 1
  {
    DivMod(lb, m);
    DivMod(ub, m);
    var q := lb / m;
    if ub / m <= q {
      QuotientStep(ub / m, q, m);
    }
    QuotientStep(q + 1, ub / m, m);
    n := (q + 1) * m;
    assert n == q * m + m;
    ModUnique(n, q + 1, 0, m);
    ModUnique(n - 1, q, m - 1, m);
  }

  lemma QuotientStep(a: int, b: int, m: int)
    requires m > 0
    ensures a <= b ==> a * m <= b * m
  {
    if a < b {
      QuotientsApart(a, b, m);
    }
  }

  /** The unsigned view is the smallest interval that holds the readings of all members. */
  lemma UnsignedViewIsLeast(i: Interval, width: nat, r: Interval)
    requires width > 0 && !IsBottom(i) && forall n :: Contains(i, n) ==> Contains(r, ZeroExtend(n, width))
    ensures IsIncludedIn(TruncateToUnsigned(i, width), r)
  {
    hide Pow2;
    var m := Pow2(width);
    UnsignedRange(width);
    if Size(i).Some? && Size(i).value < m && ZeroExtend(i.lb.value, width) <= ZeroExtend(i.ub.value, width) {
      assert Contains(i, i.lb.value) && Contains(i, i.ub.value);
    } else if Size(i).Some? && Size(i).value < m {
      var n := WrapWithin(i.lb.value, i.ub.value, m);
      assert Contains(i, n) && Contains(i, n - 1);
    } else {
      var n := ResidueIn(i, m, 0);
      var n' := ResidueIn(i, m, m - 1);
    }
  }

  /** So is the signed view. */
  lemma SignedViewIsLeast(i: Interval, width: nat, r: Interval)
    requires width > 0 && !IsBottom(i) && forall n :: Contains(i, n) ==> Contains(r, SignExtend(n, width))
    ensures IsIncludedIn(TruncateToSigned(i, width), r)
  {
    hide Pow2, SignExtend;
    var m, h := Pow2(width), Pow2(width - 1);
    SignedRange(width);
    SignedFull(i, width);
    Pow2Double(width);
    if Size(i).Some? && Size(i).value < m && SignExtend(i.lb.value, width) <= SignExtend(i.ub.value, width) {
      assert Contains(i, i.lb.value) && Contains(i, i.ub.value);
    } else if Size(i).Some? && Size(i).value < m {
      SignExtendShift(i.lb.value, width);
      SignExtendShift(i.ub.value, width);
      var n := WrapWithin(i.lb.value + h, i.ub.value + h, m);
      SignExtendShift(n - h, width);
      SignExtendShift(n - h - 1, width);
      assert Contains(i, n - h) && Contains(i, n - h - 1);
    } else {
      var n := ResidueIn(Shifted(i, h), m, 0);
      var n' := ResidueIn(Shifted(i, h), m, m - 1);
      SignExtendShift(n - h, width);
      SignExtendShift(n' - h, width);
      assert Contains(i, n - h) && Contains(i, n' - h);
    }
  }

  /** The interval moved by `h`. */
  ghost function Shifted(i: Interval, h: int): Interval {
    Interval(if i.lb.Some? then Some(i.lb.value + h) else None, if i.ub.Some? then Some(i.ub.value + h) else None)
  }
}
