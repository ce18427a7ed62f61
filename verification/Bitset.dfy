/** Which stack bytes hold numbers (src/crab/bitset_domain.rs): a set bit means "not known to be a number". */
module Bitset {
  import opened Wrappers

  /** The concrete side: which bytes really hold numbers. */
  type Tags = int -> bool

  /** A cleared bit is right about its byte. */
  ghost predicate TagsHold(bits: seq<bool>, tags: Tags) {
    forall i :: 0 <= i < |bits| && !bits[i] ==> tags(i)
  }

  /** The tags after the bytes [lb, lb + n) got the tag `t`. */
  ghost function Tagged(tags: Tags, lb: int, n: int, t: bool): Tags {
    i => if lb <= i < lb + n then t else tags(i)
  }

  /** Sets or clears the bits of [lb, lb + n) that exist. */
  function SetRange(bits: seq<bool>, lb: nat, n: int, value: bool): (r: seq<bool>)
    ensures |r| == |bits|
    ensures forall i :: 0 <= i < |bits| ==> r[i] == if lb <= i < lb + n then value else bits[i]
  {
    seq(|bits|, i requires 0 <= i < |bits| => if lb <= i < lb + n then value else bits[i])
  }

  /** Marks bytes as numerical; a range past the end is cut off. */
  function Reset(bits: seq<bool>, lb: nat, n: int): (r: seq<bool>)
    ensures |r| == |bits|
    ensures forall tags :: TagsHold(bits, tags) ==> TagsHold(r, Tagged(tags, lb, n, true))
    ensures forall i :: 0 <= i < |bits| ==> (r[i] <==> bits[i] && !(lb <= i < lb + n))
  {
    if lb >= |bits| then bits
    else
      var m := if n < |bits| - lb then n else |bits| - lb;
      if m <= 0 then bits else SetRange(bits, lb, m, false)
  }

  /** Marks bytes as not numerical, whatever they are written with. */
  function Havoc(bits: seq<bool>, lb: nat, width: int): (r: seq<bool>)
    ensures |r| == |bits|
    ensures forall tags, t :: TagsHold(bits, tags) ==> TagsHold(r, Tagged(tags, lb, width, t))
    ensures forall i :: 0 <= i < |bits| ==> (r[i] <==> bits[i] || lb <= i < lb + width)
  {
    if lb >= |bits| then bits
    else
      var m := if width < |bits| - lb then width else |bits| - lb;
      if m <= 0 then bits else SetRange(bits, lb, m, true)
  }

  /** Nothing more than the range is given up: the new record fits exactly the tags that fit the old one once the range counts as numbers. */
  lemma HavocIsExact(bits: seq<bool>, lb: nat, width: int, tags: Tags)
    ensures TagsHold(Havoc(bits, lb, width), tags) <==> TagsHold(bits, Tagged(tags, lb, width, true))
  {
    var r := Havoc(bits, lb, width);
    if TagsHold(bits, Tagged(tags, lb, width, true)) {
      forall i | 0 <= i < |r| && !r[i] ensures tags(i) {
        assert Tagged(tags, lb, width, true)(i);
      }
    }
  }

  /** Resetting claims that the range holds numbers, and nothing else new. */
  lemma ResetIsExact(bits: seq<bool>, lb: nat, n: int, tags: Tags)
    ensures TagsHold(Reset(bits, lb, n), tags) <==>
      TagsHold(bits, Tagged(tags, lb, n, true)) && forall i :: lb <= i < lb + n && i < |bits| ==> tags(i)
  {
    var r := Reset(bits, lb, n);
    if TagsHold(bits, Tagged(tags, lb, n, true)) && forall i :: lb <= i < lb + n && i < |bits| ==> tags(i) {
      forall i | 0 <= i < |r| && !r[i] ensures tags(i) {
        assert !bits[i] ==> Tagged(tags, lb, n, true)(i);
      }
    }
  }

  /** Marking a wider range than what is written. */
  lemma HavocCovers(bits: seq<bool>, lb: nat, width: int, tags: Tags, i: int, w: int, t: bool)
    requires TagsHold(bits, tags)
    requires lb <= i || (lb == 0 && i < 0)
    requires i + w <= lb + width || |bits| <= lb + width
    ensures TagsHold(Havoc(bits, lb, width), Tagged(tags, i, w, t))
  {
  }

  /** What is written misses the tracked bytes. */
  lemma OutsideStack(bits: seq<bool>, tags: Tags, i: int, w: int, t: bool)
    requires TagsHold(bits, tags) && (w <= 0 || i + w <= 0 || i >= |bits| || |bits| == 0)
    ensures TagsHold(bits, Tagged(tags, i, w, t))
  {
  }

  /** Numbers written anywhere keep the record right as it is. */
  lemma NumbersAnywhere(bits: seq<bool>, tags: Tags, i: int, w: int)
    requires TagsHold(bits, tags)
    ensures TagsHold(bits, Tagged(tags, i, w, true))
  {
  }

  /** The bits of the joined branches. */
  function Join(a: seq<bool>, b: seq<bool>): (r: seq<bool>)
    requires |a| == |b|
    ensures |r| == |a|
    ensures forall tags :: TagsHold(a, tags) || TagsHold(b, tags) ==> TagsHold(r, tags)
  {
    seq(|a|, i requires 0 <= i < |a| => a[i] || b[i])
  }

  /** The join marks no byte that some other record fit for both branches leaves unmarked. */
  lemma JoinIsLeast(a: seq<bool>, b: seq<bool>, c: seq<bool>)
    requires |a| == |b| == |c|
    requires forall tags :: TagsHold(a, tags) || TagsHold(b, tags) ==> TagsHold(c, tags)
    ensures IsIncludedIn(Join(a, b), c)
  {
    forall i | 0 <= i < |a| && Join(a, b)[i] ensures c[i] {
      var tags: Tags := j => j != i;
      assert TagsHold(a, tags) || TagsHold(b, tags);
      assert TagsHold(c, tags) && !tags(i);
    }
  }

  function Meet(a: seq<bool>, b: seq<bool>): (r: seq<bool>)
    requires |a| == |b|
    ensures |r| == |a|
    ensures forall tags :: TagsHold(r, tags) <==> TagsHold(a, tags) && TagsHold(b, tags)
  {
    var r := seq(|a|, i requires 0 <= i < |a| => a[i] && b[i]);
    assert forall i :: 0 <= i < |a| ==> r[i] == (a[i] && b[i]);
    r
  }

  /** Every byte marked in the first record is marked in the second. */
  predicate IsIncludedIn(a: seq<bool>, b: seq<bool>)
    requires |a| == |b|
  {
    forall i :: 0 <= i < |a| && a[i] ==> b[i]
  }

  /** Whether every byte of [lb, ub) that exists is numerical; an empty range is. */
  method AllNum(bits: seq<bool>, lb: int, ub: int) returns (r: bool)
    ensures r <==> forall i :: lb <= i < ub && 0 <= i < |bits| ==> !bits[i]
  {
    if lb == ub {
      return true;
    }
    var i := if lb < 0 then 0 else lb;
    var hi := if ub < |bits| then ub else |bits|;
    while i < hi
      invariant lb <= i && 0 <= i
      invariant forall j :: lb <= j < i && 0 <= j < |bits| && j < ub ==> !bits[j]
      decreases hi - i
    {
      if bits[i] {
        return false;
      }
      i := i + 1;
    }
    return true;
  }

  /** Whether the range is all numerical, and whether it is all non-numerical; past the end it is both. */
  method Uniformity(bits: seq<bool>, lb: nat, width: int) returns (onlyNum: bool, onlyNonNum: bool)
    ensures onlyNum <==> forall i :: lb <= i < lb + width && i < |bits| ==> !bits[i]
    ensures onlyNonNum <==> forall i :: lb <= i < lb + width && i < |bits| ==> bits[i]
  {
    var n := |bits|;
    if lb >= n {
      return true, true;
    }
    var w := if width < n - lb then width else n - lb;
    onlyNum, onlyNonNum := true, true;
    var j := 0;
    while j < w
      invariant 0 <= j && if w >= 0 then j <= w else j == 0
      invariant onlyNum <==> forall i :: lb <= i < lb + j && i < |bits| ==> !bits[i]
      invariant onlyNonNum <==> forall i :: lb <= i < lb + j && i < |bits| ==> bits[i]
    {
      var b := bits[lb + j];
      onlyNum := onlyNum && !b;
      onlyNonNum := onlyNonNum && b;
      j := j + 1;
    }
  }

  /** The length of the longest numerical stretch from `lb`. */
  method AllNumWidth(bits: seq<bool>, lb: nat) returns (width: nat)
    ensures width == 0 || lb + width <= |bits|
    ensures forall i :: lb <= i < lb + width ==> !bits[i]
    ensures lb + width < |bits| ==> bits[lb + width]
  {
    if lb >= |bits| {
      return 0;
    }
    var ub := lb;
    while ub < |bits| && !bits[ub]
      invariant lb <= ub <= |bits|
      invariant forall i :: lb <= i < ub ==> !bits[i]
    {
      ub := ub + 1;
    }
    return ub - lb;
  }

  /** No byte of [i, i + w) that is in the stack counts as a number. */
  ghost predicate AllMarked(bits: seq<bool>, i: int, w: int) {
    forall n :: i <= n < i + w && 0 <= n < |bits| ==> bits[n]
  }

  /**
    Leaving the bits alone is right exactly when no byte that is written with something else than a
    number is recorded as one.
  */
  lemma UnmarkedWrite(bits: seq<bool>, tags: Tags, i: int, w: int)
    requires TagsHold(bits, tags)
    ensures TagsHold(bits, Tagged(tags, i, w, false)) <==> AllMarked(bits, i, w)
  {
    var after := Tagged(tags, i, w, false);
    if TagsHold(bits, after) {
      forall n | i <= n < i + w && 0 <= n < |bits| ensures bits[n] {
        assert !after(n);
      }
    }
  }
}
