/** The subprogram linker: depth-first, in place over the loaded programs (src/elf_loader.rs:1528-1652). */
module Linker {
  import opened Wrappers
  import opened LinkSpec

  /** How resolving a program ends: linked, a callee is missing, or the load fails. */
  datatype Outcome = Done | Missing(message: string) | Failed(message: string)

  const TOO_FAR := "Local call offset does not fit in 32 bits"

  /** A call of the program names a function that is not there. */
  ghost predicate Stuck(c: Context, i: nat) {
    exists r :: r in c.relocs && r.progIndex == i && c.sectionNames(r.targetSection).Some? && Target(c, r).None?
  }

  /**
    Callees have a smaller rank, so there is no recursion, sections have names, and no program that is called
    misses a callee of its own.
  */
  ghost predicate Linkable(c: Context, rank: nat -> nat) {
    forall r :: r in c.relocs ==>
      && c.sectionNames(r.targetSection).Some?
      && (Target(c, r).Some? ==> rank(Target(c, r).value) < rank(r.progIndex) && !Stuck(c, Target(c, r).value))
  }

  /** Program `i` is not being visited; those that are rank higher, or were given up for a missing callee. */
  ghost predicate Above(c: Context, rank: nat -> nat, vs: set<nat>, i: nat) {
    i !in vs && forall v :: v in vs ==> rank(i) < rank(v) || Stuck(c, v)
  }

  /** Linked, refused for the distance of a call, or given up for a missing callee of its own. */
  ghost predicate Benign(c: Context, o: Outcome, i: nat) {
    o.Done? || o == Failed(TOO_FAR) || (o.Missing? && Stuck(c, i))
  }

  predicate Far(o: Outcome) {
    !o.Done? && o.message == TOO_FAR
  }

  /** How far the call of relocation `k` is from the start of its copy. */
  ghost function Distance(c: Context, ps: seq<RawProgram>, i: nat, k: nat): int
    requires i < |c.original| && k < |RelocsOf(c.relocs, i)|
  {
    var rs := RelocsOf(c.relocs, i);
    StartOf(c, ps, rs, Names(rs[..k + 1]), rs[k].targetName, |c.original[i].code|) - rs[k].sourceOffset - 1
  }

  predicate Fits32(x: int) {
    -0x8000_0000 <= x < 0x8000_0000
  }

  /** The distance of some call does not fit an immediate. */
  ghost predicate SomeTooFar(c: Context, ps: seq<RawProgram>) {
    exists i, k :: TooFar(c, ps, i, k)
  }

  ghost predicate TooFar(c: Context, ps: seq<RawProgram>, i: nat, k: nat) {
    i < |c.original| && k < |RelocsOf(c.relocs, i)| && !Fits32(Distance(c, ps, i, k))
  }

  // ------------------------------------------------------------------ half-linked programs

  /** Program `i` after its first `k` relocations: those calls patched, their callees copied. */
  ghost predicate Halfway(c: Context, ps: seq<RawProgram>, linked: set<nat>, i: nat, k: nat)
    requires ValidContext(c) && |ps| == |c.original| && i < |ps|
  {
    var rs := RelocsOf(c.relocs, i);
    && k <= |rs|
    && ps[i].code == Patched(c, ps, c.original[i].code, rs, k) + Copies(c, ps, rs, Names(rs[..k]))
    && i !in linked
    && CalleesOf(c, rs, Names(rs[..k]), linked)
  }

  ghost predicate CalleesOf(c: Context, rs: seq<Reloc>, names: seq<string>, linked: set<nat>) {
    forall name :: name in names ==> Callee(c, rs, name).Some? && Callee(c, rs, name).value in linked
  }

  /** The table from a name to the start of its copy. */
  ghost predicate Table(c: Context, ps: seq<RawProgram>, i: nat, k: nat, offsets: map<string, nat>)
    requires |ps| == |c.original| && i < |ps|
  {
    var rs := RelocsOf(c.relocs, i);
    && k <= |rs|
    && (forall name :: name in offsets <==> name in Names(rs[..k]))
    && (forall name :: name in offsets ==> offsets[name] == StartOf(c, ps, rs, Names(rs[..k]), name, |c.original[i].code|))
  }

  lemma HalfwayStart(c: Context, ps: seq<RawProgram>, linked: set<nat>, i: nat)
    requires ValidContext(c) && |ps| == |c.original| && i < |ps| && ps[i].code == c.original[i].code && i !in linked
    ensures Halfway(c, ps, linked, i, 0) && Table(c, ps, i, 0, map[])
  {
    var rs := RelocsOf(c.relocs, i);
    assert rs[..0] == [];
  }

  /** Nothing of a half-linked program depends on programs that are not linked. */
  lemma HalfwayFrame(c: Context, ps: seq<RawProgram>, ps': seq<RawProgram>, linked: set<nat>, linked': set<nat>, i: nat, k: nat, offsets: map<string, nat>)
    requires ValidContext(c) && |ps| == |ps'| == |c.original| && i < |ps|
    requires Halfway(c, ps, linked, i, k) && Table(c, ps, i, k, offsets)
    requires ps'[i] == ps[i] && linked <= linked' && i !in linked'
    requires forall j :: j in linked ==> j < |ps| && ps'[j] == ps[j]
    ensures Halfway(c, ps', linked', i, k) && Table(c, ps', i, k, offsets)
  {
    hide Names, Callee, Patched, Copies, StartOf, Table;
    var rs := RelocsOf(c.relocs, i);
    assert SameCode(c, ps, ps', rs, Names(rs[..k]));
    PatchedFrame(c, ps, ps', c.original[i].code, rs, k);
    CopiesFrame(c, ps, ps', rs, Names(rs[..k]));
    StartsFrame(c, ps, ps', i, k, offsets);
  }

  /** The names after one more relocation. */
  lemma NamesStep(rs: seq<Reloc>, k: nat)
    requires k < |rs|
    ensures Names(rs[..k + 1]) ==
      if rs[k].targetName in Names(rs[..k]) then Names(rs[..k]) else Names(rs[..k]) + [rs[k].targetName]
  {
    assert rs[..k + 1][..k] == rs[..k];
  }

  /** A half-linked program with the copy of the next callee appended, its call not yet patched. */
  ghost predicate Appended(c: Context, ps: seq<RawProgram>, linked: set<nat>, i: nat, k: nat)
    requires ValidContext(c) && |ps| == |c.original| && i < |ps|
  {
    var rs := RelocsOf(c.relocs, i);
    && k < |rs|
    && ps[i].code == Patched(c, ps, c.original[i].code, rs, k) + Copies(c, ps, rs, Names(rs[..k + 1]))
    && i !in linked
    && CalleesOf(c, rs, Names(rs[..k + 1]), linked)
  }

  /** The table with the next name. */
  ghost predicate TableNext(c: Context, ps: seq<RawProgram>, i: nat, k: nat, offsets: map<string, nat>)
    requires |ps| == |c.original| && i < |ps|
  {
    k < |RelocsOf(c.relocs, i)| && Table(c, ps, i, k + 1, offsets)
  }

  /** A name seen before: nothing to append. */
  lemma KnownName(c: Context, ps: seq<RawProgram>, linked: set<nat>, i: nat, k: nat, offsets: map<string, nat>)
    requires ValidContext(c) && |ps| == |c.original| && i < |ps|
    requires Halfway(c, ps, linked, i, k) && Table(c, ps, i, k, offsets)
    requires k < |RelocsOf(c.relocs, i)| && RelocsOf(c.relocs, i)[k].targetName in offsets
    ensures Appended(c, ps, linked, i, k) && TableNext(c, ps, i, k, offsets)
  {
    hide Names, Callee, Patched, Copies, StartOf;
    NamesStep(RelocsOf(c.relocs, i), k);
  }

  /** The length of a half-linked program is where the next copy will start. */
  lemma NextStart(c: Context, ps: seq<RawProgram>, linked: set<nat>, i: nat, k: nat, offsets: map<string, nat>)
    requires ValidContext(c) && |ps| == |c.original| && i < |ps|
    requires Halfway(c, ps, linked, i, k) && Table(c, ps, i, k, offsets)
    requires k < |RelocsOf(c.relocs, i)| && RelocsOf(c.relocs, i)[k].targetName !in offsets
    ensures TableNext(c, ps, i, k, offsets[RelocsOf(c.relocs, i)[k].targetName := |ps[i].code|])
  {
    hide Callee, Patched, Copies, Names, CalleesOf, StartOf, Halfway;
    var rs := RelocsOf(c.relocs, i);
    NamesStep(rs, k);
    var names, name := Names(rs[..k]), rs[k].targetName;
    LengthOf(c, ps, linked, i, k);
    forall x ensures StartOf(c, ps, rs, names + [name], x, |c.original[i].code|) ==
      if x == name then |ps[i].code| else StartOf(c, ps, rs, names, x, |c.original[i].code|) {
      StartSnoc(c, ps, rs, names, name, x, |c.original[i].code|);
    }
  }

  lemma StartSnoc(c: Context, ps: seq<RawProgram>, rs: seq<Reloc>, names: seq<string>, name: string, x: string, len: nat)
    ensures StartOf(c, ps, rs, names + [name], x, len) ==
      if x == name then len + |Copies(c, ps, rs, names)| else StartOf(c, ps, rs, names, x, len)
  {
    hide Copies;
    assert (names + [name])[..|names|] == names;
  }

  lemma LengthOf(c: Context, ps: seq<RawProgram>, linked: set<nat>, i: nat, k: nat)
    requires ValidContext(c) && |ps| == |c.original| && i < |ps| && Halfway(c, ps, linked, i, k)
    ensures |ps[i].code| == |c.original[i].code| + |Copies(c, ps, RelocsOf(c.relocs, i), Names(RelocsOf(c.relocs, i)[..k]))|
  {
    hide Callee, Copies, Names, CalleesOf;
  }

  /** Changing a program that is not linked changes no callee. */
  lemma SameCodeExcept(c: Context, ps: seq<RawProgram>, ps': seq<RawProgram>, rs: seq<Reloc>, names: seq<string>, linked: set<nat>, i: nat)
    requires |ps| == |ps'| && i < |ps| && i !in linked && CalleesOf(c, rs, names, linked)
    requires forall j :: 0 <= j < |ps| && j != i ==> ps'[j] == ps[j]
    ensures SameCode(c, ps, ps', rs, names)
  {
    hide Callee;
  }

  lemma StartsFrame(c: Context, ps: seq<RawProgram>, ps': seq<RawProgram>, i: nat, k: nat, offsets: map<string, nat>)
    requires |ps| == |ps'| == |c.original| && i < |ps| && Table(c, ps, i, k, offsets)
    requires SameCode(c, ps, ps', RelocsOf(c.relocs, i), Names(RelocsOf(c.relocs, i)[..k]))
    ensures Table(c, ps', i, k, offsets)
  {
    hide Names, StartOf, SameCode;
    var rs := RelocsOf(c.relocs, i);
    forall name ensures StartOf(c, ps, rs, Names(rs[..k]), name, |c.original[i].code|) == StartOf(c, ps', rs, Names(rs[..k]), name, |c.original[i].code|) {
      StartFrame(c, ps, ps', rs, Names(rs[..k]), name, |c.original[i].code|);
    }
  }

  /** The callee has been linked and its code appended. */
  lemma AppendCopy(c: Context, ps: seq<RawProgram>, ps': seq<RawProgram>, linked: set<nat>, i: nat, k: nat, offsets: map<string, nat>, sub: nat)
    requires ValidContext(c) && |ps| == |ps'| == |c.original| && i < |ps| && sub < |ps|
    requires Halfway(c, ps, linked, i, k) && TableNext(c, ps, i, k, offsets)
    requires RelocsOf(c.relocs, i)[k].targetName !in Names(RelocsOf(c.relocs, i)[..k])
    requires Target(c, RelocsOf(c.relocs, i)[k]) == Some(sub) && sub in linked
    requires forall j :: 0 <= j < |ps| && j != i ==> ps'[j] == ps[j]
    requires ps'[i].code == ps[i].code + ps[sub].code
    ensures Appended(c, ps', linked, i, k) && TableNext(c, ps', i, k, offsets)
  {
    hide Callee, Names, StartOf, Patched, Copies, CodeOf, SameCode, Table, CalleesOf;
    var rs := RelocsOf(c.relocs, i);
    var names, name := Names(rs[..k]), rs[k].targetName;
    NamesStep(rs, k);
    CalleesStep(c, rs, k, linked, sub);
    SameCodeExcept(c, ps, ps', rs, names, linked, i);
    SameCodeExcept(c, ps, ps', rs, names + [name], linked, i);
    PatchedFrame(c, ps, ps', c.original[i].code, rs, k);
    CopiesFrame(c, ps, ps', rs, names);
    CopiesSnoc(c, ps', rs, names, name);
    StartsFrame(c, ps, ps', i, k + 1, offsets);
    CodeOfSub(c, ps', rs, k, sub);
    var own := Patched(c, ps, c.original[i].code, rs, k);
    var copies := Copies(c, ps, rs, names);
    assert (own + copies) + ps[sub].code == own + (copies + ps[sub].code);
  }

  lemma CodeOfSub(c: Context, ps: seq<RawProgram>, rs: seq<Reloc>, k: nat, sub: nat)
    requires k < |rs| && rs[k].targetName !in Names(rs[..k]) && Target(c, rs[k]) == Some(sub) && sub < |ps|
    ensures CodeOf(c, ps, rs, rs[k].targetName) == ps[sub].code
  {
    hide Callee, Names;
    CalleeIsFirst(c, rs, k);
  }

  lemma CalleesStep(c: Context, rs: seq<Reloc>, k: nat, linked: set<nat>, sub: nat)
    requires k < |rs| && rs[k].targetName !in Names(rs[..k]) && Target(c, rs[k]) == Some(sub) && sub in linked
    requires CalleesOf(c, rs, Names(rs[..k]), linked)
    ensures CalleesOf(c, rs, Names(rs[..k]) + [rs[k].targetName], linked)
  {
    hide Callee, Names;
    CalleeIsFirst(c, rs, k);
  }

  lemma CopiesSnoc(c: Context, ps: seq<RawProgram>, rs: seq<Reloc>, names: seq<string>, name: string)
    ensures Copies(c, ps, rs, names + [name]) == Copies(c, ps, rs, names) + CodeOf(c, ps, rs, name)
  {
    assert (names + [name])[..|names|] == names;
  }

  /** The call itself is patched. */
  /** The call of relocation `k`, pointed at what the table says. */
  ghost predicate CallSet(c: Context, ps: seq<RawProgram>, ps': seq<RawProgram>, i: nat, k: nat, offsets: map<string, nat>) {
    && |ps| == |ps'| == |c.original| && i < |ps| && k < |RelocsOf(c.relocs, i)|
    && (forall j :: 0 <= j < |ps| && j != i ==> ps'[j] == ps[j])
    && var r := RelocsOf(c.relocs, i)[k];
      && r.targetName in offsets && r.sourceOffset < |ps[i].code|
      && ps'[i].code == ps[i].code[r.sourceOffset := ps[i].code[r.sourceOffset].(imm := offsets[r.targetName] - r.sourceOffset - 1)]
  }

  lemma PatchCall(c: Context, ps: seq<RawProgram>, ps': seq<RawProgram>, linked: set<nat>, i: nat, k: nat, offsets: map<string, nat>)
    requires ValidContext(c) && |ps| == |ps'| == |c.original| && i < |ps|
    requires Appended(c, ps, linked, i, k) && TableNext(c, ps, i, k, offsets) && CallSet(c, ps, ps', i, k, offsets)
    ensures Halfway(c, ps', linked, i, k + 1) && Table(c, ps', i, k + 1, offsets)
  {
    hide Callee, Names, StartOf, Copies, CodeOf, SameCode, CalleesOf, Patched, CallSet, Table;
    var rs := RelocsOf(c.relocs, i);
    PatchCallFrame(c, ps, ps', linked, i, k, offsets);
    StartsFrame(c, ps, ps', i, k + 1, offsets);
    PatchCallCode(c, ps, ps', i, k, offsets);
  }

  lemma PatchCallFrame(c: Context, ps: seq<RawProgram>, ps': seq<RawProgram>, linked: set<nat>, i: nat, k: nat, offsets: map<string, nat>)
    requires ValidContext(c) && |ps| == |ps'| == |c.original| && i < |ps|
    requires Appended(c, ps, linked, i, k) && CallSet(c, ps, ps', i, k, offsets)
    ensures var rs := RelocsOf(c.relocs, i); SameCode(c, ps, ps', rs, Names(rs[..k + 1])) && SameCode(c, ps, ps', rs, Names(rs[..k]))
  {
    hide Callee, Names, Copies, CodeOf, SameCode, Patched;
    var rs := RelocsOf(c.relocs, i);
    SameCodeExcept(c, ps, ps', rs, Names(rs[..k + 1]), linked, i);
    NamesStep(rs, k);
    SameCodeFewer(c, ps, ps', rs, Names(rs[..k]), Names(rs[..k + 1]));
  }

  lemma PatchCallCode(c: Context, ps: seq<RawProgram>, ps': seq<RawProgram>, i: nat, k: nat, offsets: map<string, nat>)
    requires ValidContext(c) && CallSet(c, ps, ps', i, k, offsets) && TableNext(c, ps, i, k, offsets) && Table(c, ps', i, k + 1, offsets)
    requires var rs := RelocsOf(c.relocs, i);
      && SameCode(c, ps, ps', rs, Names(rs[..k + 1])) && SameCode(c, ps, ps', rs, Names(rs[..k]))
      && ps[i].code == Patched(c, ps, c.original[i].code, rs, k) + Copies(c, ps, rs, Names(rs[..k + 1]))
    ensures var rs := RelocsOf(c.relocs, i);
      ps'[i].code == Patched(c, ps', c.original[i].code, rs, k + 1) + Copies(c, ps', rs, Names(rs[..k + 1]))
  {
    hide Callee, Names, StartOf, Copies, CodeOf, SameCode, Patched;
    var rs := RelocsOf(c.relocs, i);
    assert rs[k] in rs;
    PatchedFrame(c, ps, ps', c.original[i].code, rs, k);
    CopiesFrame(c, ps, ps', rs, Names(rs[..k + 1]));
    PatchedStep(c, ps', c.original[i].code, rs, k);
    UpdateFirst(Patched(c, ps, c.original[i].code, rs, k), Copies(c, ps, rs, Names(rs[..k + 1])), rs[k].sourceOffset, ps'[i].code[rs[k].sourceOffset]);
  }

  lemma SameCodeFewer(c: Context, ps: seq<RawProgram>, ps': seq<RawProgram>, rs: seq<Reloc>, names: seq<string>, more: seq<string>)
    requires SameCode(c, ps, ps', rs, more) && names <= more
    ensures SameCode(c, ps, ps', rs, names)
  {
    hide CodeOf;
    forall name | name in names ensures name in more {
      var i :| 0 <= i < |names| && names[i] == name;
      assert more[i] == name;
    }
  }

  lemma PatchedStep(c: Context, ps: seq<RawProgram>, code: seq<Inst>, rs: seq<Reloc>, k: nat)
    requires k < |rs| && forall x :: x in rs ==> x.sourceOffset < |code|
    ensures rs[k] in rs
    ensures var s := rs[k].sourceOffset;
      var before := Patched(c, ps, code, rs, k);
      Patched(c, ps, code, rs, k + 1)
        == before[s := before[s].(imm := StartOf(c, ps, rs, Names(rs[..k + 1]), rs[k].targetName, |code|) - s - 1)]
  {
    hide Names, StartOf;
    assert rs[k] in rs;
  }

  lemma UpdateFirst<T>(a: seq<T>, b: seq<T>, p: nat, x: T)
    requires p < |a|
    ensures (a + b)[p := x] == a[p := x] + b
  {
  }

  lemma HalfwayEnd(c: Context, ps: seq<RawProgram>, linked: set<nat>, i: nat)
    requires ValidContext(c) && |ps| == |c.original| && i < |ps| && ClosedLinked(c, ps, linked)
    requires Halfway(c, ps, linked, i, |RelocsOf(c.relocs, i)|)
    ensures ClosedLinked(c, ps, linked + {i})
  {
    hide Callee, Names, Patched, Copies;
    var rs := RelocsOf(c.relocs, i);
    assert rs[..|rs|] == rs;
  }

  // ------------------------------------------------------------------ the linker

  class Linker {
    const context: Context
    /** Programs of this section were asked for: a missing callee fails the load only for them. */
    const desiredSection: string
    var rawPrograms: seq<RawProgram>
    var resolved: set<nat>
    var visiting: set<nat>
    /** The order in which programs were linked. */
    ghost var order: seq<nat>

    constructor (context: Context, desiredSection: string)
      requires ValidContext(context)
      ensures this.context == context && this.desiredSection == desiredSection && Valid()
      ensures rawPrograms == context.original && resolved == {} && visiting == {}
    {
      this.context, this.desiredSection := context, desiredSection;
      rawPrograms, resolved, visiting, order := context.original, {}, {}, [];
    }

    /** Programs not yet visited are as loaded; linked ones have only callees linked before them. */
    ghost predicate Valid()
      reads this
    {
      && ValidContext(context)
      && |rawPrograms| == |context.original|
      && (forall i :: i in visiting || i in resolved ==> i < |rawPrograms|)
      && resolved !! visiting
      && (forall i: nat :: i < |rawPrograms| && i !in resolved && i !in visiting ==> rawPrograms[i] == context.original[i])
      && ClosedLinked(context, rawPrograms, resolved)
      && Recorded(resolved, order)
      && CalleesFirst(context, order)
    }

    /** The programs not being visited: each visit has fewer. */
    ghost function Unvisited(): set<nat>
      reads this
    {
      Indices(|context.original|) - visiting
    }

    /**
      Inlines the callees of one program, after their own callees, and points each local call at its
      copy. Programs being visited, and those already linked, are never touched from within.
    */
    method ResolveSubprogramsFor(progIdx: nat) returns (outcome: Outcome)
      requires Valid() && progIdx < |rawPrograms|
      modifies this
      ensures Valid()
      ensures old(resolved) <= resolved && old(visiting) <= visiting && old(order) <= order
      ensures Kept(old(rawPrograms), rawPrograms, old(resolved) + old(visiting))
      ensures outcome.Done? ==> progIdx in resolved && visiting == old(visiting)
      ensures outcome.Done? ==> RelocsLand(context, rawPrograms, progIdx) && OwnCodeKept(context, rawPrograms, progIdx)
      ensures Far(outcome) ==> SomeTooFar(context, rawPrograms)
      ensures forall rank :: Linkable(context, rank) && Above(context, rank, old(visiting), progIdx) ==>
        Benign(context, outcome, progIdx) && (outcome.Missing? ==> visiting == old(visiting) + {progIdx})
      decreases Unvisited(), 0
    {
      hide LinkedCode, CalleesIn, ClosedLinked, FirstMatch, Names, Halfway, Table, TableNext, Appended, CalleesFirst, Recorded, StartOf, ValidContext, Kept, Linkable, Stuck, SomeTooFar, RelocsLand, OwnCodeKept, Distance;
      KeptSame(rawPrograms, resolved + visiting);
      if progIdx in resolved {
        LinkedRelocsLand(context, rawPrograms, resolved, progIdx);
        LinkedOwnCode(context, rawPrograms, resolved, progIdx);
        return Done;
      }
      if progIdx in visiting {
        return Failed("Mutual recursion in subprogram calls");
      }
      visiting := visiting + {progIdx};
      assert progIdx in old(Unvisited()) && progIdx !in Unvisited();
      HalfwayStart(context, rawPrograms, resolved, progIdx);
      ghost var start := rawPrograms;
      outcome := ResolveCalls(progIdx);
      assert old(resolved) + old(visiting) == old(resolved) + (old(visiting) + {progIdx}) - {progIdx};
      assert old(visiting) == old(visiting) + {progIdx} - {progIdx};
      if outcome.Done? {
        MarkResolved(progIdx);
        LinkedRelocsLand(context, rawPrograms, resolved, progIdx);
        LinkedOwnCode(context, rawPrograms, resolved, progIdx);
      }
    }

    /** The relocations of one program, in order. */
    method ResolveCalls(progIdx: nat) returns (outcome: Outcome)
      requires Valid() && progIdx in visiting && progIdx < |rawPrograms|
      requires Halfway(context, rawPrograms, resolved, progIdx, 0) && Table(context, rawPrograms, progIdx, 0, map[])
      requires progIdx !in resolved
      modifies this
      ensures Valid()
      ensures old(resolved) <= resolved && old(visiting) <= visiting && old(order) <= order
      ensures Kept(old(rawPrograms), rawPrograms, old(resolved) + old(visiting) - {progIdx})
      ensures outcome.Done? ==> visiting == old(visiting)
      ensures outcome.Done? ==> progIdx !in resolved && progIdx < |rawPrograms|
      ensures outcome.Done? ==> Halfway(context, rawPrograms, resolved, progIdx, |RelocsOf(context.relocs, progIdx)|)
      ensures Far(outcome) ==> SomeTooFar(context, rawPrograms)
      ensures forall rank :: Linkable(context, rank) && Above(context, rank, old(visiting) - {progIdx}, progIdx) ==>
        Benign(context, outcome, progIdx) && (outcome.Missing? ==> visiting == old(visiting))
      decreases Unvisited(), 2
    {
      hide LinkedCode, CalleesIn, ClosedLinked, FirstMatch, Names, Halfway, Table, TableNext, Appended, CalleesFirst, Recorded, StartOf, ValidContext, Kept, Linkable, Stuck, SomeTooFar, RelocsLand, OwnCodeKept, Distance;
      ghost var protected := resolved + visiting - {progIdx};
      var relocs := RelocsOf(context.relocs, progIdx);
      var subprogramOffsets: map<string, nat> := map[];
      KeptSame(rawPrograms, protected);
      var k := 0;
      while k < |relocs|
        invariant 0 <= k <= |relocs|
        invariant Valid() && Kept(old(rawPrograms), rawPrograms, protected) && |rawPrograms| == |old(rawPrograms)| && visiting == old(visiting)
        invariant old(resolved) <= resolved && old(order) <= order && progIdx !in resolved
        invariant Halfway(context, rawPrograms, resolved, progIdx, k) && Table(context, rawPrograms, progIdx, k, subprogramOffsets)
      {
        ghost var ps := rawPrograms;
        if relocs[k].targetName !in subprogramOffsets {
          ghost var others := resolved + visiting - {progIdx};
          var linked;
          linked, subprogramOffsets := LinkCallee(progIdx, k, subprogramOffsets);
          KeptThen(old(rawPrograms), ps, rawPrograms, protected, others);
          KeptLength(ps, rawPrograms, others);
          ps := rawPrograms;
          if !linked.Done? {
            return linked;
          }
        } else {
          KnownName(context, rawPrograms, resolved, progIdx, k, subprogramOffsets);
        }
        var fits := PatchRelocated(progIdx, k, subprogramOffsets);
        KeptOthers(ps, rawPrograms, progIdx, protected);
        KeptThen(old(rawPrograms), ps, rawPrograms, protected, protected);
        if !fits {
          IsTooFar(context, rawPrograms, progIdx, k);
          return Failed(TOO_FAR);
        }
        k := k + 1;
      }
      return Done;
    }

    /** The program is linked. */
    method MarkResolved(progIdx: nat)
      requires Valid() && progIdx in visiting && progIdx < |rawPrograms|
      requires Halfway(context, rawPrograms, resolved, progIdx, |RelocsOf(context.relocs, progIdx)|)
      modifies this`visiting, this`resolved, this`order
      ensures Valid() && resolved == old(resolved) + {progIdx} && visiting == old(visiting) - {progIdx}
      ensures order == old(order) + [progIdx]
    {
      hide LinkedCode, CalleesIn, ClosedLinked, FirstMatch, Names, CalleesFirst, Recorded, StartOf, ValidContext, Halfway;
      HalfwayEnd(context, rawPrograms, resolved, progIdx);
      OrderGrows(context, rawPrograms, resolved, order, progIdx);
      visiting := visiting - {progIdx};
      resolved := resolved + {progIdx};
      order := order + [progIdx];
    }

    /** The first use of a name: links its callee and appends the code. */
    method LinkCallee(progIdx: nat, k: nat, offsets: map<string, nat>) returns (outcome: Outcome, offsets': map<string, nat>)
      requires Valid() && progIdx in visiting && progIdx < |rawPrograms| && k < |RelocsOf(context.relocs, progIdx)|
      requires Halfway(context, rawPrograms, resolved, progIdx, k) && Table(context, rawPrograms, progIdx, k, offsets)
      requires RelocsOf(context.relocs, progIdx)[k].targetName !in offsets
      modifies this
      ensures Valid()
      ensures old(resolved) <= resolved && old(visiting) <= visiting && old(order) <= order
      ensures Kept(old(rawPrograms), rawPrograms, old(resolved) + old(visiting) - {progIdx})
      ensures outcome.Done? ==> visiting == old(visiting) && progIdx !in resolved
      ensures Far(outcome) ==> SomeTooFar(context, rawPrograms)
      ensures forall rank :: Linkable(context, rank) && Above(context, rank, old(visiting) - {progIdx}, progIdx) ==>
        Benign(context, outcome, progIdx) && (outcome.Missing? ==> visiting == old(visiting))
      ensures outcome.Done? ==>
        Appended(context, rawPrograms, resolved, progIdx, k) && TableNext(context, rawPrograms, progIdx, k, offsets')
      decreases Unvisited(), 1
    {
      hide LinkedCode, CalleesIn, ClosedLinked, FirstMatch, Names, Halfway, Table, TableNext, Appended, CalleesFirst, Recorded, StartOf, ValidContext, SomeTooFar, Distance, RelocsLand;
      var r := RelocsOf(context.relocs, progIdx)[k];
      ghost var ps := rawPrograms;
      ghost var linked := resolved;
      NextStart(context, rawPrograms, resolved, progIdx, k, offsets);
      NotNamed(context, rawPrograms, progIdx, k, offsets, r.targetName);
      var currentLen := |rawPrograms[progIdx].code|;
      offsets' := offsets[r.targetName := currentLen];
      if context.sectionNames(r.targetSection).None? {
        return Failed("section not found"), offsets';
      }
      var subKey := (context.sectionNames(r.targetSection).value, r.targetName);
      if subKey !in context.lookup {
        assert r in context.relocs && Target(context, r).None?;
        assert ("Subprogram not found: " + r.targetName)[0] != TOO_FAR[0];
        return Missing("Subprogram not found: " + r.targetName), offsets';
      }
      var subIdx := context.lookup[subKey];
      LookupInRange(context, subKey);
      if subIdx == progIdx {
        return Failed("Recursive subprogram call"), offsets';
      }
      forall rank | Linkable(context, rank) && Above(context, rank, visiting - {progIdx}, progIdx) ensures Above(context, rank, visiting, subIdx) && !Stuck(context, subIdx) {
        CalleeAbove(context, rank, visiting, r, subIdx);
      }
      outcome := ResolveSubprogramsFor(subIdx);
      if !outcome.Done? {
        return;
      }
      HalfwayKept(context, ps, rawPrograms, linked, resolved, progIdx, k, offsets, offsets');
      ghost var mid := rawPrograms;
      var subInstructions := rawPrograms[subIdx].code;
      rawPrograms := rawPrograms[progIdx := rawPrograms[progIdx].(code := rawPrograms[progIdx].code + subInstructions)];
      AppendCopy(context, mid, rawPrograms, resolved, progIdx, k, offsets', subIdx);
      LinkedFrame(context, mid, rawPrograms, resolved);
    }

    /** Points one call at the copy of its callee, if the distance fits an immediate. */
    method PatchRelocated(progIdx: nat, k: nat, offsets: map<string, nat>) returns (fits: bool)
      requires Valid() && progIdx in visiting && progIdx < |rawPrograms| && k < |RelocsOf(context.relocs, progIdx)|
      requires Appended(context, rawPrograms, resolved, progIdx, k) && TableNext(context, rawPrograms, progIdx, k, offsets)
      modifies this`rawPrograms
      ensures Valid() && |rawPrograms| == |old(rawPrograms)|
      ensures forall i :: 0 <= i < |old(rawPrograms)| && i != progIdx ==> rawPrograms[i] == old(rawPrograms)[i]
      ensures fits <==> Fits32(Distance(context, old(rawPrograms), progIdx, k))
      ensures !fits ==> rawPrograms == old(rawPrograms)
      ensures fits ==>
        Halfway(context, rawPrograms, resolved, progIdx, k + 1) && Table(context, rawPrograms, progIdx, k + 1, offsets)
    {
      hide LinkedCode, CalleesIn, ClosedLinked, FirstMatch, Names, Halfway, Table, TableNext, Appended, CalleesFirst, Recorded, StartOf, ValidContext, SomeTooFar, Distance, RelocsLand;
      var r := RelocsOf(context.relocs, progIdx)[k];
      NamedNow(context, rawPrograms, progIdx, k, offsets);
      OwnCode(context, rawPrograms, resolved, progIdx, k);
      var imm := offsets[r.targetName] - r.sourceOffset - 1;
      DistanceIs(context, rawPrograms, progIdx, k, offsets);
      if !Fits32(imm) {
        return false;
      }
      ghost var last := rawPrograms;
      var code := rawPrograms[progIdx].code;
      code := code[r.sourceOffset := code[r.sourceOffset].(imm := imm)];
      rawPrograms := rawPrograms[progIdx := rawPrograms[progIdx].(code := code)];
      PatchCall(context, last, rawPrograms, resolved, progIdx, k, offsets);
      LinkedFrame(context, last, rawPrograms, resolved);
      return true;
    }

    /** Links every program; a missing callee counts only in the desired section. */
    method AppendSubprograms() returns (error: Option<string>)
      requires Valid()
      modifies this
      ensures Valid()
      ensures error.None? ==> forall i: nat :: i < |rawPrograms| && context.original[i].sectionName == desiredSection ==> i in resolved
      ensures error == Some(TOO_FAR) ==> SomeTooFar(context, rawPrograms)
      ensures old(visiting) == {} ==> forall rank :: Linkable(context, rank) ==>
        error.None? || error == Some(TOO_FAR) || exists i: nat :: i < |context.original| && context.original[i].sectionName == desiredSection && Stuck(context, i)
      ensures |rawPrograms| == |old(rawPrograms)|
    {
      hide LinkedCode, CalleesIn, ClosedLinked, FirstMatch, CalleesFirst, Linkable, Stuck, SomeTooFar, RelocsLand, OwnCodeKept;
      var progCount := |rawPrograms|;
      var progIdx := 0;
      while progIdx < progCount
        invariant 0 <= progIdx <= progCount && Valid() && |rawPrograms| == progCount
        invariant forall i: nat :: i < progIdx && context.original[i].sectionName == desiredSection ==> i in resolved
        invariant old(visiting) == {} ==> forall rank :: Linkable(context, rank) ==> forall v :: v in visiting ==> v < progIdx && Stuck(context, v)
      {
        var outcome := ResolveSubprogramsFor(progIdx);
        match outcome {
          case Done =>
          case Missing(message) =>
            if context.original[progIdx].sectionName == desiredSection {
              return Some(message);
            }
          case Failed(message) => return Some(message);
        }
        progIdx := progIdx + 1;
      }
      return None;
    }
  }

  ghost predicate Recorded(resolved: set<nat>, order: seq<nat>) {
    forall i :: i in resolved <==> i in order
  }

  /** The programs of `protected` are left alone. */
  ghost predicate Kept(before: seq<RawProgram>, after: seq<RawProgram>, protected: set<nat>) {
    |after| == |before| && forall i :: i in protected ==> i < |before| && after[i] == before[i]
  }

  lemma KeptThen(a: seq<RawProgram>, b: seq<RawProgram>, c: seq<RawProgram>, p: set<nat>, q: set<nat>)
    requires Kept(a, b, p) && Kept(b, c, q) && p <= q
    ensures Kept(a, c, p)
  {
  }

  lemma KeptSame(a: seq<RawProgram>, p: set<nat>)
    requires forall i :: i in p ==> i < |a|
    ensures Kept(a, a, p)
  {
  }

  lemma KeptLength(a: seq<RawProgram>, b: seq<RawProgram>, p: set<nat>)
    requires Kept(a, b, p)
    ensures |a| == |b|
  {
  }

  lemma KeptOthers(a: seq<RawProgram>, b: seq<RawProgram>, i: nat, p: set<nat>)
    requires |a| == |b| && (forall j :: 0 <= j < |a| && j != i ==> b[j] == a[j])
    requires i !in p && forall j :: j in p ==> j < |a|
    ensures Kept(a, b, p)
  {
  }

  ghost function Indices(n: nat): (r: set<nat>)
    ensures forall i: nat :: i in r <==> i < n
  {
    if n == 0 then {} else Indices(n - 1) + {n - 1}
  }

  /** Each program's callees come before it. */
  ghost predicate CalleesFirst(c: Context, order: seq<nat>) {
    forall a :: 0 <= a < |order| ==> CalleesIn(c, order[a], set x | x in order[..a])
  }

  lemma OrderGrows(c: Context, ps: seq<RawProgram>, linked: set<nat>, order: seq<nat>, i: nat)
    requires ValidContext(c) && |ps| == |c.original| && i < |ps| && CalleesFirst(c, order)
    requires Recorded(linked, order) && ClosedLinked(c, ps, linked + {i}) && i !in linked
    requires Halfway(c, ps, linked, i, |RelocsOf(c.relocs, i)|)
    ensures CalleesFirst(c, order + [i]) && Recorded(linked + {i}, order + [i])
  {
    hide LinkedCode, Names, Callee, Patched, Copies;
    var longer := order + [i];
    var rs := RelocsOf(c.relocs, i);
    assert rs[..|rs|] == rs;
    forall a | 0 <= a < |longer| ensures CalleesIn(c, longer[a], set x | x in longer[..a]) {
      if a < |order| {
        assert longer[..a] == order[..a];
        assert CalleesIn(c, order[a], set x | x in order[..a]);
      } else {
        assert longer[..a] == order;
      }
    }
  }

  lemma LookupInRange(c: Context, k: (string, string))
    requires ValidContext(c) && k in c.lookup
    ensures c.lookup[k] < |c.original|
  {
  }

  lemma IsTooFar(c: Context, ps: seq<RawProgram>, i: nat, k: nat)
    requires TooFar(c, ps, i, k)
    ensures SomeTooFar(c, ps)
  {
  }

  lemma CalleeAbove(c: Context, rank: nat -> nat, visiting: set<nat>, r: Reloc, sub: nat)
    requires Linkable(c, rank) && r in c.relocs && Target(c, r) == Some(sub) && Above(c, rank, visiting - {r.progIndex}, r.progIndex)
    ensures sub != r.progIndex && Above(c, rank, visiting, sub) && !Stuck(c, sub)
  {
    hide Stuck, Target;
    assert rank(sub) < rank(r.progIndex) && !Stuck(c, sub);
    assert sub !in visiting - {r.progIndex};
    forall v | v in visiting ensures rank(sub) < rank(v) || Stuck(c, v) {
      if v != r.progIndex {
        assert v in visiting - {r.progIndex};
      }
    }
  }

  lemma DistanceIs(c: Context, ps: seq<RawProgram>, i: nat, k: nat, offsets: map<string, nat>)
    requires |ps| == |c.original| && i < |ps| && TableNext(c, ps, i, k, offsets) && RelocsOf(c.relocs, i)[k].targetName in offsets
    ensures Distance(c, ps, i, k) == offsets[RelocsOf(c.relocs, i)[k].targetName] - RelocsOf(c.relocs, i)[k].sourceOffset - 1
  {
    hide Names, StartOf;
  }

  lemma LinkedOwnCode(c: Context, ps: seq<RawProgram>, linked: set<nat>, i: nat)
    requires ValidContext(c) && |ps| == |c.original| && ClosedLinked(c, ps, linked) && i in linked
    ensures i < |ps| && OwnCodeKept(c, ps, i)
  {
    hide LinkedCode, ValidContext, CalleesIn, OwnCodeKept;
    LinkedKeepsOwnCode(c, ps, i);
  }

  lemma NotNamed(c: Context, ps: seq<RawProgram>, i: nat, k: nat, offsets: map<string, nat>, name: string)
    requires |ps| == |c.original| && i < |ps| && Table(c, ps, i, k, offsets) && name !in offsets
    ensures name !in Names(RelocsOf(c.relocs, i)[..k])
  {
    hide Names;
  }

  lemma NamedNow(c: Context, ps: seq<RawProgram>, i: nat, k: nat, offsets: map<string, nat>)
    requires |ps| == |c.original| && i < |ps| && TableNext(c, ps, i, k, offsets)
    ensures RelocsOf(c.relocs, i)[k].targetName in offsets
  {
    hide Names;
    NamesStep(RelocsOf(c.relocs, i), k);
  }

  lemma OwnCode(c: Context, ps: seq<RawProgram>, linked: set<nat>, i: nat, k: nat)
    requires ValidContext(c) && |ps| == |c.original| && i < |ps| && Appended(c, ps, linked, i, k)
    ensures RelocsOf(c.relocs, i)[k].sourceOffset < |ps[i].code|
  {
    hide Names, Copies, Callee;
    assert RelocsOf(c.relocs, i)[k] in RelocsOf(c.relocs, i);
  }

  /** The recursion left the half-linked program and what it depends on alone. */
  lemma HalfwayKept(c: Context, ps: seq<RawProgram>, ps': seq<RawProgram>, linked: set<nat>, linked': set<nat>, i: nat, k: nat,
      table: map<string, nat>, offsets: map<string, nat>)
    requires ValidContext(c) && |ps| == |ps'| == |c.original| && i < |ps|
    requires Halfway(c, ps, linked, i, k) && Table(c, ps, i, k, table) && TableNext(c, ps, i, k, offsets)
    requires ps'[i] == ps[i] && linked <= linked' && i !in linked'
    requires forall j :: j in linked ==> j < |ps| && ps'[j] == ps[j]
    requires RelocsOf(c.relocs, i)[k].targetName !in Names(RelocsOf(c.relocs, i)[..k])
    ensures Halfway(c, ps', linked', i, k) && TableNext(c, ps', i, k, offsets)
  {
    hide Names, Callee, Patched, Copies, StartOf, CalleesOf;
    var rs := RelocsOf(c.relocs, i);
    HalfwayFrame(c, ps, ps', linked, linked', i, k, table);
    NamesStep(rs, k);
    var names, name := Names(rs[..k]), rs[k].targetName;
    OldCallees(c, ps, linked, i, k);
    forall x ensures StartOf(c, ps, rs, names + [name], x, |c.original[i].code|) == StartOf(c, ps', rs, names + [name], x, |c.original[i].code|) {
      StartSnocFrame(c, ps, ps', rs, names, name, x, |c.original[i].code|);
    }
  }

  lemma OldCallees(c: Context, ps: seq<RawProgram>, linked: set<nat>, i: nat, k: nat)
    requires ValidContext(c) && |ps| == |c.original| && i < |ps| && Halfway(c, ps, linked, i, k)
    ensures CalleesOf(c, RelocsOf(c.relocs, i), Names(RelocsOf(c.relocs, i)[..k]), linked)
  {
  }

  /** The start of a copy does not depend on its own code, nor on that of later ones. */
  lemma StartSnocFrame(c: Context, ps: seq<RawProgram>, ps': seq<RawProgram>, rs: seq<Reloc>, names: seq<string>, name: string, x: string, len: nat)
    requires SameCode(c, ps, ps', rs, names)
    ensures StartOf(c, ps, rs, names + [name], x, len) == StartOf(c, ps', rs, names + [name], x, len)
  {
    hide Copies, CodeOf;
    assert (names + [name])[..|names|] == names;
    CopiesFrame(c, ps, ps', rs, names);
    StartFrame(c, ps, ps', rs, names, x, len);
  }

  // ------------------------------------------------------------------ no recursion

  /** What a linked program calls, at any nesting, was linked before it: it never calls itself. */
  lemma {:induction false} CallsGoBack(c: Context, ps: seq<RawProgram>, order: seq<nat>, a: nat, pos: nat, j: nat, depth: nat)
    requires ValidContext(c) && |ps| == |c.original| && CalleesFirst(c, order)
    requires a < |order| && order[a] < |ps| && IsCallTo(c, ps, order[a], pos, j, depth)
    ensures j in order[..a]
    decreases depth
  {
    hide Names, Callee, StartOf, LastAt;
    var i := order[a];
    var rs := RelocsOf(c.relocs, i);
    assert CalleesIn(c, i, set x | x in order[..a]);
    if k: nat :| IsOwnCall(c, i, pos, j, k) {
      NamesHold(rs, rs[k].targetName);
    } else {
      var d := depth - 1;
      var name :| InCopy(c, ps, i, name, pos, j, d);
      var t := Callee(c, rs, name).value;
      var b :| 0 <= b < a && order[b] == t;
      CallsGoBack(c, ps, order, b, pos - StartOf(c, ps, rs, Names(rs), name, |c.original[i].code|), j, d);
      assert order[..b] <= order[..a];
    }
  }
}
