/** Union-find with path compression and union by rank (src/crab/dsu.rs). */
module Dsu {
  import opened Numbers

  /** Parents are elements, and ranks grow strictly towards the roots. */
  ghost predicate Forest(parent: seq<nat>, rank: seq<nat>) {
    && |parent| == |rank|
    && (forall x :: 0 <= x < |parent| ==> parent[x] < |parent|)
    && forall x :: 0 <= x < |parent| && parent[x] != x ==> rank[x] < rank[parent[x]]
  }

  ghost function MaxRank(rank: seq<nat>): (m: nat)
    ensures forall x :: 0 <= x < |rank| ==> rank[x] <= m
  {
    if rank == [] then 0
    else
      var m := MaxRank(rank[..|rank| - 1]);
      if rank[|rank| - 1] > m then rank[|rank| - 1] else m
  }

  /** The root above an element. */
  ghost function Rep(parent: seq<nat>, rank: seq<nat>, x: nat): (r: nat)
    requires Forest(parent, rank) && x < |parent|
    ensures r < |parent| && parent[r] == r
    ensures rank[x] <= rank[r]
    decreases MaxRank(rank) - rank[x]
  {
    if parent[x] == x then x else Rep(parent, rank, parent[x])
  }

  /** How many links lie between an element and its root. */
  ghost function Depth(parent: seq<nat>, rank: seq<nat>, x: nat): (d: nat)
    requires Forest(parent, rank) && x < |parent|
    ensures rank[x] + d <= rank[Rep(parent, rank, x)]
    decreases MaxRank(rank) - rank[x]
  {
    if parent[x] == x then 0 else 1 + Depth(parent, rank, parent[x])
  }

  /** The elements of one set. */
  ghost function Members(parent: seq<nat>, rank: seq<nat>, r: nat): set<int>
    requires Forest(parent, rank)
  {
    set z | 0 <= z < |parent| && Rep(parent, rank, z) == r
  }

  /** A root of rank k stands for at least 2^k elements. */
  ghost predicate Populous(parent: seq<nat>, rank: seq<nat>)
    requires Forest(parent, rank)
  {
    forall r: nat :: r < |parent| && parent[r] == r ==> |Members(parent, rank, r)| >= Pow2(rank[r])
  }

  ghost predicate SameSet(parent: seq<nat>, rank: seq<nat>, x: nat, y: nat)
    requires Forest(parent, rank) && x < |parent| && y < |parent|
  {
    Rep(parent, rank, x) == Rep(parent, rank, y)
  }

  ghost function Upto(n: nat): (r: set<int>)
    ensures forall i :: i in r <==> 0 <= i < n
    ensures |r| == n
  {
    if n == 0 then {} else Upto(n - 1) + {n - 1}
  }

  lemma SubsetSize(a: set<int>, b: set<int>)
    requires a <= b
    ensures |a| <= |b|
  {
    assert b == a + (b - a);
  }

  /** Every walk to a root takes at most log2(n) steps. */
  lemma WalkIsShort(parent: seq<nat>, rank: seq<nat>, x: nat)
    requires Forest(parent, rank) && Populous(parent, rank) && x < |parent|
    ensures Pow2(Depth(parent, rank, x)) <= |parent|
  {
    hide Pow2, Rep, Depth;
    var r := Rep(parent, rank, x);
    SubsetSize(Members(parent, rank, r), Upto(|parent|));
    Pow2Monotone(Depth(parent, rank, x), rank[r]);
  }

  // ------------------------------------------------------------------ one link

  /** Relinking an element to its own root, or to where its root lies, changes no representative. */
  lemma {:induction false} CompressRep(parent: seq<nat>, rank: seq<nat>, x: nat, z: nat)
    requires Forest(parent, rank) && x < |parent| && z < |parent|
    ensures Forest(parent[x := Rep(parent, rank, x)], rank)
    ensures Rep(parent[x := Rep(parent, rank, x)], rank, z) == Rep(parent, rank, z)
    decreases MaxRank(rank) - rank[z]
  {
    var r := Rep(parent, rank, x);
    var parent' := parent[x := r];
    if parent[x] != x {
      assert rank[x] < rank[parent[x]] <= rank[r];
    }
    if parent[z] != z {
      CompressRep(parent, rank, x, parent[z]);
    }
  }

  /** Linking one root under another moves exactly its set. */
  lemma {:induction false} LinkRep(parent: seq<nat>, rank: seq<nat>, rank': seq<nat>, child: nat, root: nat, z: nat)
    requires Forest(parent, rank) && child < |parent| && root < |parent| && z < |parent|
    requires parent[child] == child && parent[root] == root && child != root
    requires Forest(parent[child := root], rank')
    ensures Rep(parent[child := root], rank', z) ==
      if Rep(parent, rank, z) == child then root else Rep(parent, rank, z)
    decreases MaxRank(rank) - rank[z]
  {
    if parent[z] != z {
      LinkRep(parent, rank, rank', child, root, parent[z]);
    }
  }

  /** The linked root's set is the union of both. */
  lemma LinkMembers(parent: seq<nat>, rank: seq<nat>, rank': seq<nat>, child: nat, root: nat)
    requires Forest(parent, rank) && child < |parent| && root < |parent|
    requires parent[child] == child && parent[root] == root && child != root
    requires Forest(parent[child := root], rank')
    ensures |Members(parent[child := root], rank', root)| == |Members(parent, rank, root)| + |Members(parent, rank, child)|
    ensures forall r: nat :: r != child && r != root ==> Members(parent[child := root], rank', r) == Members(parent, rank, r)
  {
    hide Rep;
    var parent' := parent[child := root];
    forall z: nat | z < |parent|
      ensures Rep(parent', rank', z) == if Rep(parent, rank, z) == child then root else Rep(parent, rank, z)
    {
      LinkRep(parent, rank, rank', child, root, z);
    }
    assert Members(parent', rank', root) == Members(parent, rank, root) + Members(parent, rank, child);
    forall r: nat | r != child && r != root ensures Members(parent', rank', r) == Members(parent, rank, r) {
      forall z ensures z in Members(parent', rank', r) <==> z in Members(parent, rank, r) {
      }
    }
  }

  /** Linking keeps the sets populous when the child's rank is smaller, or equal and the root's rank is raised. */
  lemma LinkPopulous(parent: seq<nat>, rank: seq<nat>, child: nat, root: nat)
    requires Forest(parent, rank) && Populous(parent, rank) && child < |parent| && root < |parent|
    requires parent[child] == child && parent[root] == root && child != root && rank[child] <= rank[root]
    ensures var rank' := if rank[child] == rank[root] then rank[root := rank[root] + 1] else rank;
      Forest(parent[child := root], rank') && Populous(parent[child := root], rank')
  {
    hide Rep, Members;
    var rank' := if rank[child] == rank[root] then rank[root := rank[root] + 1] else rank;
    var parent' := parent[child := root];
    assert Forest(parent', rank');
    LinkMembers(parent, rank, rank', child, root);
    forall r: nat | r < |parent'| && parent'[r] == r ensures |Members(parent', rank', r)| >= Pow2(rank'[r]) {
    }
  }

  lemma PushRep(parent: seq<nat>, rank: seq<nat>, z: nat)
    requires Forest(parent, rank) && z < |parent|
    ensures Forest(parent + [|parent|], rank + [0])
    ensures Rep(parent + [|parent|], rank + [0], z) == Rep(parent, rank, z)
    decreases MaxRank(rank) - rank[z]
  {
    if parent[z] != z {
      PushRep(parent, rank, parent[z]);
    }
  }

  // ------------------------------------------------------------------ the structure

  class DisjointSetUnion {
    var parent: seq<nat>
    var rank: seq<nat>

    ghost predicate Valid()
      reads this
    {
      Forest(parent, rank) && Populous(parent, rank)
    }

    /** `n` singletons. */
    constructor (n: nat)
      ensures Valid() && |parent| == n
      ensures forall x: nat :: x < n ==> Rep(parent, rank, x) == x
    {
      parent, rank := seq(n, i requires 0 <= i < n => i), seq(n, _ => 0);
      new;
      forall r: nat | r < n ensures |Members(parent, rank, r)| >= Pow2(rank[r]) {
        SubsetSize({r as int}, Members(parent, rank, r));
      }
    }

    function Len(): nat
      reads this
    {
      |parent|
    }

    /** The representative, with path compression; nothing about the sets changes. */
    method Find(x: nat) returns (r: nat)
      requires Valid() && x < |parent|
      modifies this`parent
      ensures Valid() && |parent| == |old(parent)|
      ensures r == old(Rep(parent, rank, x)) && parent[x] == r
      ensures forall z: nat :: z < |parent| ==> Rep(parent, rank, z) == old(Rep(parent, rank, z))
      ensures forall z :: 0 <= z < |parent| ==> (parent[z] == z <==> old(parent)[z] == z)
      decreases MaxRank(rank) - rank[x]
    {
      hide Pow2, Rep, Members;
      RepStep(parent, rank, x);
      if parent[x] != x {
        var up := Find(parent[x]);
        Compress(parent, rank, x);
        parent := parent[x := up];
      }
      return parent[x];
    }

    /** The representative by walking; at most log2(n) steps. */
    method FindConst(x: nat) returns (cur: nat, ghost steps: nat)
      requires Valid() && x < |parent|
      ensures cur == Rep(parent, rank, x)
      ensures Pow2(steps) <= |parent|
    {
      hide Pow2, Members, Populous, MaxRank;
      cur, steps := x, 0;
      while parent[cur] != cur
        invariant cur < |parent| && Rep(parent, rank, cur) == Rep(parent, rank, x)
        invariant steps + Depth(parent, rank, cur) == Depth(parent, rank, x)
        decreases MaxRank(rank) - rank[cur]
      {
        cur := parent[cur];
        steps := steps + 1;
      }
      WalkIsShort(parent, rank, x);
    }

    /** Merges two sets; every other set stays as it is. */
    method Union(x: nat, y: nat) returns (r: nat)
      requires Valid() && x < |parent| && y < |parent|
      modifies this
      ensures Valid() && |parent| == |old(parent)|
      ensures r == old(Rep(parent, rank, x)) || r == old(Rep(parent, rank, y))
      ensures forall z: nat :: z < |parent| ==> Rep(parent, rank, z) == AfterUnion(old(parent), old(rank), x, y, r, z)
    {
      hide Pow2, Rep, Members, Populous, Forest, MaxRank;
      ghost var p0, k0 := parent, rank;
      var rx := Find(x);
      var ry := Find(y);
      RanksMatch(parent, rank);
      RootIsRep(p0, k0, x);
      RootIsRep(p0, k0, y);
      if rx == ry {
        return rx;
      }
      ghost var p, k := parent, rank;
      if rank[rx] < rank[ry] {
        LinkPopulous(parent, rank, rx, ry);
        parent := parent[rx := ry];
        Linked(p, k, rank, rx, ry);
        UnionReps(p0, k0, p, k, parent, rank, x, y, rx, ry);
        return ry;
      } else if rank[rx] > rank[ry] {
        LinkPopulous(parent, rank, ry, rx);
        parent := parent[ry := rx];
        Linked(p, k, rank, ry, rx);
        UnionReps(p0, k0, p, k, parent, rank, x, y, ry, rx);
        return rx;
      } else {
        LinkPopulous(parent, rank, ry, rx);
        parent := parent[ry := rx];
        rank := rank[rx := rank[rx] + 1];
        Linked(p, k, rank, ry, rx);
        UnionReps(p0, k0, p, k, parent, rank, x, y, ry, rx);
        return rx;
      }
    }

    /** Adds a singleton. */
    method Push() returns (id: nat)
      requires Valid()
      modifies this
      ensures Valid() && id == |old(parent)| && |parent| == id + 1
      ensures Rep(parent, rank, id) == id
      ensures forall z: nat :: z < id ==> Rep(parent, rank, z) == old(Rep(parent, rank, z))
    {
      hide Pow2;
      id := |parent|;
      Pushed(parent, rank);
      parent := parent + [id];
      rank := rank + [0];
    }
  }

  /** The representative of `z` after merging the sets of `x` and `y` under `r`. */
  ghost function AfterUnion(parent: seq<nat>, rank: seq<nat>, x: nat, y: nat, r: nat, z: nat): nat
    requires Forest(parent, rank) && x < |parent| && y < |parent| && z < |parent|
  {
    if SameSet(parent, rank, z, x) || SameSet(parent, rank, z, y) then r else Rep(parent, rank, z)
  }

  ghost function Moved(child: nat, root: nat, r: nat): nat {
    if r == child then root else r
  }

  /** Finding changes no representative, linking moves one set: together they merge. */
  lemma UnionReps(p0: seq<nat>, k0: seq<nat>, p: seq<nat>, k: seq<nat>, p': seq<nat>, k': seq<nat>, x: nat, y: nat, child: nat, root: nat)
    requires Forest(p0, k0) && Forest(p, k) && Forest(p', k') && |p0| == |p| == |p'| && x < |p0| && y < |p0|
    requires (child == Rep(p0, k0, x) && root == Rep(p0, k0, y)) || (child == Rep(p0, k0, y) && root == Rep(p0, k0, x))
    requires forall z: nat :: z < |p0| ==> Rep(p, k, z) == Rep(p0, k0, z)
    requires forall z: nat :: z < |p0| ==> Rep(p', k', z) == Moved(child, root, Rep(p, k, z))
    ensures forall z: nat :: z < |p0| ==> Rep(p', k', z) == AfterUnion(p0, k0, x, y, root, z)
  {
    hide Rep, Forest;
    forall z: nat | z < |p0| ensures Rep(p', k', z) == AfterUnion(p0, k0, x, y, root, z) {
      assert Rep(p, k, z) == Rep(p0, k0, z);
    }
  }

  lemma RanksMatch(parent: seq<nat>, rank: seq<nat>)
    requires Forest(parent, rank)
    ensures |rank| == |parent|
  {
  }

  lemma RepStep(parent: seq<nat>, rank: seq<nat>, x: nat)
    requires Forest(parent, rank) && x < |parent|
    ensures Rep(parent, rank, x) == if parent[x] == x then x else Rep(parent, rank, parent[x])
  {
  }

  lemma RootIsRep(parent: seq<nat>, rank: seq<nat>, r: nat)
    requires Forest(parent, rank) && r < |parent|
    ensures Rep(parent, rank, r) == r <==> parent[r] == r
    ensures parent[Rep(parent, rank, r)] == Rep(parent, rank, r)
  {
  }

  lemma Compress(parent: seq<nat>, rank: seq<nat>, x: nat)
    requires Forest(parent, rank) && Populous(parent, rank) && x < |parent| && parent[x] != x
    ensures var parent' := parent[x := Rep(parent, rank, x)];
      && Forest(parent', rank) && Populous(parent', rank)
      && (forall z: nat :: z < |parent| ==> Rep(parent', rank, z) == Rep(parent, rank, z))
      && forall z :: 0 <= z < |parent| ==> (parent'[z] == z <==> parent[z] == z)
  {
    hide Rep, Pow2;
    var parent' := parent[x := Rep(parent, rank, x)];
    CompressRep(parent, rank, x, x);
    forall z: nat | z < |parent| ensures Rep(parent', rank, z) == Rep(parent, rank, z) {
      CompressRep(parent, rank, x, z);
    }
    RootIsRep(parent, rank, x);
    forall r: nat | r < |parent| ensures Members(parent', rank, r) == Members(parent, rank, r) {
    }
  }

  lemma Linked(parent: seq<nat>, rank: seq<nat>, rank': seq<nat>, child: nat, root: nat)
    requires Forest(parent, rank) && child < |parent| && root < |parent|
    requires parent[child] == child && parent[root] == root && child != root
    requires Forest(parent[child := root], rank')
    ensures forall z: nat :: z < |parent| ==> Rep(parent[child := root], rank', z) == Moved(child, root, Rep(parent, rank, z))
  {
    hide Rep;
    forall z: nat | z < |parent|
      ensures Rep(parent[child := root], rank', z) == if Rep(parent, rank, z) == child then root else Rep(parent, rank, z)
    {
      LinkRep(parent, rank, rank', child, root, z);
    }
  }

  lemma Pushed(parent: seq<nat>, rank: seq<nat>)
    requires Forest(parent, rank) && Populous(parent, rank)
    ensures var p, k := parent + [|parent|], rank + [0];
      && Forest(p, k) && Populous(p, k) && Rep(p, k, |parent|) == |parent|
      && forall z: nat :: z < |parent| ==> Rep(p, k, z) == Rep(parent, rank, z)
  {
    hide Rep, Members;
    var n := |parent|;
    var p, k := parent + [n], rank + [0];
    assert Forest(p, k);
    forall z: nat | z < n ensures Rep(p, k, z) == Rep(parent, rank, z) {
      PushRep(parent, rank, z);
    }
    RootIsRep(p, k, n);
    forall r: nat | r < n + 1 && p[r] == r ensures |Members(p, k, r)| >= Pow2(k[r]) {
      PushedMembers(parent, rank, r);
    }
  }

  lemma PushedMembers(parent: seq<nat>, rank: seq<nat>, r: nat)
    requires Forest(parent, rank) && Forest(parent + [|parent|], rank + [0]) && r <= |parent|
    requires forall z: nat :: z < |parent| ==> Rep(parent + [|parent|], rank + [0], z) == Rep(parent, rank, z)
    requires Rep(parent + [|parent|], rank + [0], |parent|) == |parent|
    ensures |Members(parent + [|parent|], rank + [0], r)| >= if r < |parent| then |Members(parent, rank, r)| else 1
  {
    hide Rep;
    var p, k := parent + [|parent|], rank + [0];
    if r < |parent| {
      SubsetSize(Members(parent, rank, r), Members(p, k, r));
    } else {
      SubsetSize({r as int}, Members(p, k, r));
    }
  }
}
