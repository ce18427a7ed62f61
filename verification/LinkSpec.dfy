/** What a linked program is (src/elf_loader.rs:857-866, 1528-1652). */
module LinkSpec {
  import opened Wrappers

  datatype Inst = Inst(opcode: int, dst: int, src: int, offset: int, imm: int)

  datatype RawProgram = RawProgram(sectionName: string, functionName: string, code: seq<Inst>)

  /** A local call of program `progIndex` at instruction `sourceOffset`, to a function named in a section. */
  datatype Reloc = Reloc(progIndex: nat, sourceOffset: nat, targetSection: nat, targetName: string)

  /** (section, function) to the index of the first program of that name. */
  type Lookup = map<(string, string), nat>

  ghost predicate FirstMatch(programs: seq<RawProgram>, n: nat, lookup: Lookup)
    requires n <= |programs|
  {
    && (forall k :: k in lookup ==>
      && lookup[k] < n && (programs[lookup[k]].sectionName, programs[lookup[k]].functionName) == k
      && forall j :: 0 <= j < lookup[k] ==> (programs[j].sectionName, programs[j].functionName) != k)
    && (forall j :: 0 <= j < n ==> (programs[j].sectionName, programs[j].functionName) in lookup)
  }

  /** A name resolves to the first program that has it. */
  method BuildProgLookup(programs: seq<RawProgram>) returns (lookup: Lookup)
    ensures FirstMatch(programs, |programs|, lookup)
  {
    lookup := map[];
    var idx := 0;
    while idx < |programs|
      invariant 0 <= idx <= |programs| && FirstMatch(programs, idx, lookup)
    {
      var key := (programs[idx].sectionName, programs[idx].functionName);
      if key !in lookup {
        lookup := lookup[key := idx];
      }
      idx := idx + 1;
    }
  }

  function RelocsOf(relocs: seq<Reloc>, i: nat): (r: seq<Reloc>)
    ensures forall x :: x in r ==> x in relocs && x.progIndex == i
  {
    if relocs == [] then []
    else (if relocs[0].progIndex == i then [relocs[0]] else []) + RelocsOf(relocs[1..], i)
  }

  /** The callee names in the order of their first use. */
  ghost function Names(rs: seq<Reloc>): seq<string> {
    if rs == [] then []
    else
      var before := Names(rs[..|rs| - 1]);
      if rs[|rs| - 1].targetName in before then before else before + [rs[|rs| - 1].targetName]
  }

  /** What is fixed during linking: the programs as loaded, and how a call finds its callee. */
  datatype Context = Context(original: seq<RawProgram>, relocs: seq<Reloc>, sectionNames: nat -> Option<string>, lookup: Lookup)

  /** Calls are inside their program; the lookup is the one of the programs. */
  ghost predicate ValidContext(c: Context) {
    && FirstMatch(c.original, |c.original|, c.lookup)
    && forall r :: r in c.relocs ==> r.progIndex < |c.original| && r.sourceOffset < |c.original[r.progIndex].code|
  }

  /** The program a relocation names, if there is one. */
  function Target(c: Context, r: Reloc): Option<nat> {
    if c.sectionNames(r.targetSection).None? then None
    else
      var key := (c.sectionNames(r.targetSection).value, r.targetName);
      if key in c.lookup then Some(c.lookup[key]) else None
  }

  /** The callee of a name is that of its first use; a later use from another section shares the copy. */
  ghost function Callee(c: Context, rs: seq<Reloc>, name: string): Option<nat> {
    if rs == [] then None
    else if rs[0].targetName == name then Target(c, rs[0])
    else Callee(c, rs[1..], name)
  }

  /** The code of a name's callee, as it is in `ps`. */
  ghost function CodeOf(c: Context, ps: seq<RawProgram>, rs: seq<Reloc>, name: string): seq<Inst> {
    var t := Callee(c, rs, name);
    if t.Some? && t.value < |ps| then ps[t.value].code else []
  }

  /** One copy after the other. */
  ghost function Copies(c: Context, ps: seq<RawProgram>, rs: seq<Reloc>, names: seq<string>): seq<Inst> {
    if names == [] then [] else Copies(c, ps, rs, names[..|names| - 1]) + CodeOf(c, ps, rs, names[|names| - 1])
  }

  /** Where the copy of a name starts, when the caller's own code has length `len`. */
  ghost function StartOf(c: Context, ps: seq<RawProgram>, rs: seq<Reloc>, names: seq<string>, name: string, len: nat): nat {
    if names == [] then len
    else if names[|names| - 1] == name then len + |Copies(c, ps, rs, names[..|names| - 1])|
    else StartOf(c, ps, rs, names[..|names| - 1], name, len)
  }

  /** The caller's own code with the calls of `rs[..k]` pointed at the copies. */
  ghost function Patched(c: Context, ps: seq<RawProgram>, code: seq<Inst>, rs: seq<Reloc>, k: nat): (r: seq<Inst>)
    requires k <= |rs| && forall x :: x in rs ==> x.sourceOffset < |code|
    ensures |r| == |code|
  {
    if k == 0 then code
    else
      var before := Patched(c, ps, code, rs, k - 1);
      var s := rs[k - 1].sourceOffset;
      assert rs[k - 1] in rs;
      before[s := before[s].(imm := StartOf(c, ps, rs, Names(rs[..k]), rs[k - 1].targetName, |code|) - s - 1)]
  }

  /** The linked code of program `i`: its own code with patched calls, then one copy per callee name in first-use order. */
  ghost predicate LinkedCode(c: Context, ps: seq<RawProgram>, i: nat)
    requires ValidContext(c) && i < |c.original| == |ps|
  {
    var rs := RelocsOf(c.relocs, i);
    ps[i].code == Patched(c, ps, c.original[i].code, rs, |rs|) + Copies(c, ps, rs, Names(rs))
  }

  // ------------------------------------------------------------------ names and copies

  lemma {:induction false} NamesHold(rs: seq<Reloc>, name: string)
    ensures name in Names(rs) <==> exists k :: 0 <= k < |rs| && rs[k].targetName == name
  {
    if rs != [] {
      var init := rs[..|rs| - 1];
      NamesHold(init, name);
      if name in Names(rs) && name in Names(init) {
        var k :| 0 <= k < |init| && init[k].targetName == name;
        assert rs[k].targetName == name;
      }
      if k :| 0 <= k < |rs| && rs[k].targetName == name {
        if k < |init| {
          assert init[k].targetName == name;
        }
      }
    }
  }

  lemma {:induction false} NamesPrefix(rs: seq<Reloc>, k: nat)
    requires k <= |rs|
    ensures Names(rs[..k]) <= Names(rs)
  {
    if k < |rs| {
      NamesPrefix(rs[..|rs| - 1], k);
      assert rs[..|rs| - 1][..k] == rs[..k];
    } else {
      assert rs[..k] == rs;
    }
  }

  lemma {:induction false} CalleePrefix(c: Context, rs: seq<Reloc>, k: nat, name: string)
    requires k <= |rs| && name in Names(rs[..k])
    ensures Callee(c, rs[..k], name) == Callee(c, rs, name)
  {
    NamesHold(rs[..k], name);
    if rs[0].targetName != name {
      var j :| 0 <= j < k && rs[..k][j].targetName == name;
      assert rs[1..][..k - 1] == rs[..k][1..];
      assert rs[1..][..k - 1][j - 1].targetName == name;
      NamesHold(rs[1..][..k - 1], name);
      CalleePrefix(c, rs[1..], k - 1, name);
    }
  }

  /** The first use of a name decides its callee. */
  lemma {:induction false} CalleeIsFirst(c: Context, rs: seq<Reloc>, k: nat)
    requires k < |rs| && rs[k].targetName !in Names(rs[..k])
    ensures Callee(c, rs, rs[k].targetName) == Target(c, rs[k])
  {
    NamesHold(rs[..k], rs[k].targetName);
    if k > 0 {
      assert rs[..k][0].targetName != rs[k].targetName;
      var rest := rs[1..k];
      assert rs[1..][..k - 1] == rest;
      forall j | 0 <= j < |rest| ensures rest[j].targetName != rs[k].targetName {
        assert rs[..k][j + 1] == rest[j];
      }
      NamesHold(rest, rs[k].targetName);
      CalleeIsFirst(c, rs[1..], k - 1);
    }
  }

  /** Names are listed once. */
  lemma {:induction false} NamesDistinct(rs: seq<Reloc>)
    ensures forall i, j :: 0 <= i < j < |Names(rs)| ==> Names(rs)[i] != Names(rs)[j]
  {
    if rs != [] {
      NamesDistinct(rs[..|rs| - 1]);
    }
  }

  /** Where the i-th copy stands. */
  lemma {:induction false} StartAt(c: Context, ps: seq<RawProgram>, rs: seq<Reloc>, names: seq<string>, i: nat, len: nat)
    requires i < |names| && forall a, b :: 0 <= a < b < |names| ==> names[a] != names[b]
    ensures StartOf(c, ps, rs, names, names[i], len) == len + |Copies(c, ps, rs, names[..i])|
  {
    if i < |names| - 1 {
      StartAt(c, ps, rs, names[..|names| - 1], i, len);
      assert names[..|names| - 1][..i] == names[..i];
    }
  }

  lemma {:induction false} CopiesSplit(c: Context, ps: seq<RawProgram>, rs: seq<Reloc>, names: seq<string>, i: nat)
    requires i <= |names|
    ensures Copies(c, ps, rs, names[..i]) <= Copies(c, ps, rs, names)
  {
    if i < |names| {
      CopiesSplit(c, ps, rs, names[..|names| - 1], i);
      assert names[..|names| - 1][..i] == names[..i];
    } else {
      assert names[..i] == names;
    }
  }

  /** The stretch of a copy is the callee's code. */
  lemma CopyIsCallee(c: Context, ps: seq<RawProgram>, rs: seq<Reloc>, own: seq<Inst>, name: string)
    requires name in Names(rs)
    ensures var s := StartOf(c, ps, rs, Names(rs), name, |own|);
      var all := own + Copies(c, ps, rs, Names(rs));
      var code := CodeOf(c, ps, rs, name);
      |own| <= s && s + |code| <= |all| && all[s..s + |code|] == code
  {
    hide Names, StartOf, Copies, CodeOf;
    var names := Names(rs);
    var i :| 0 <= i < |names| && names[i] == name;
    NamesDistinct(rs);
    StartAt(c, ps, rs, names, i, |own|);
    CopiesSplit(c, ps, rs, names, i + 1);
    CopiesStep(c, ps, rs, names, i);
    StretchOf(own, Copies(c, ps, rs, names[..i]), CodeOf(c, ps, rs, name), Copies(c, ps, rs, names));
  }

  lemma CopiesStep(c: Context, ps: seq<RawProgram>, rs: seq<Reloc>, names: seq<string>, i: nat)
    requires i < |names|
    ensures Copies(c, ps, rs, names[..i + 1]) == Copies(c, ps, rs, names[..i]) + CodeOf(c, ps, rs, names[i])
  {
    assert names[..i + 1][..i] == names[..i];
  }

  lemma StretchOf<T>(own: seq<T>, before: seq<T>, code: seq<T>, copies: seq<T>)
    requires before + code <= copies
    ensures var s := |own| + |before|; s + |code| <= |own + copies| && (own + copies)[s..s + |code|] == code
  {
    var s := |own| + |before|;
    forall x | 0 <= x < |code| ensures (own + copies)[s + x] == code[x] {
      assert copies[|before| + x] == (before + code)[|before| + x];
    }
  }

  // ------------------------------------------------------------------ calls

  /** No later relocation patches the same instruction. */
  ghost predicate LastAt(rs: seq<Reloc>, k: nat)
    requires k < |rs|
  {
    forall j :: k < j < |rs| ==> rs[j].sourceOffset != rs[k].sourceOffset
  }

  /** More names after it do not move a copy. */
  lemma StartPrefix(c: Context, ps: seq<RawProgram>, rs: seq<Reloc>, k: nat, name: string, len: nat)
    requires k <= |rs| && name in Names(rs[..k])
    ensures StartOf(c, ps, rs, Names(rs[..k]), name, len) == StartOf(c, ps, rs, Names(rs), name, len)
  {
    hide Names, StartOf, Copies;
    var names, all := Names(rs[..k]), Names(rs);
    NamesPrefix(rs, k);
    NamesDistinct(rs[..k]);
    NamesDistinct(rs);
    var i :| 0 <= i < |names| && names[i] == name;
    StartAt(c, ps, rs, names, i, len);
    StartAt(c, ps, rs, all, i, len);
    assert names[..i] == all[..i];
  }

  lemma {:induction false} PatchedAt(c: Context, ps: seq<RawProgram>, code: seq<Inst>, rs: seq<Reloc>, k: nat, n: nat)
    requires k < n <= |rs| && forall x :: x in rs ==> x.sourceOffset < |code|
    requires forall j :: k < j < n ==> rs[j].sourceOffset != rs[k].sourceOffset
    ensures rs[k] in rs
    ensures Patched(c, ps, code, rs, n)[rs[k].sourceOffset].imm
      == StartOf(c, ps, rs, Names(rs), rs[k].targetName, |code|) - rs[k].sourceOffset - 1
  {
    hide Names, StartOf;
    assert rs[n - 1] in rs && rs[k] in rs;
    if n - 1 > k {
      PatchedAt(c, ps, code, rs, k, n - 1);
    } else {
      assert rs[..n][k] == rs[k];
      NamesHold(rs[..n], rs[k].targetName);
      StartPrefix(c, ps, rs, n, rs[k].targetName, |code|);
    }
  }

  /** Patching touches nothing but the immediates of calls. */
  lemma {:induction false} PatchedElsewhere(c: Context, ps: seq<RawProgram>, code: seq<Inst>, rs: seq<Reloc>, n: nat, p: nat)
    requires n <= |rs| && forall x :: x in rs ==> x.sourceOffset < |code|
    requires p < |code|
    ensures var q := Patched(c, ps, code, rs, n)[p]; q == code[p].(imm := q.imm)
    ensures (forall j :: 0 <= j < n ==> rs[j].sourceOffset != p) ==> Patched(c, ps, code, rs, n)[p] == code[p]
  {
    if n > 0 {
      assert rs[n - 1] in rs;
      PatchedElsewhere(c, ps, code, rs, n - 1, p);
    }
  }

  /**
    `pos` is, in the linked code of program `i`, a call to program `j`: one of the program's own calls, or
    a call inside the copy of a callee. `depth` bounds the nesting.
  */
  ghost predicate IsCallTo(c: Context, ps: seq<RawProgram>, i: nat, pos: nat, j: nat, depth: nat)
    requires ValidContext(c) && |ps| == |c.original| && i < |ps|
    decreases depth, 0
  {
    || (exists k :: IsOwnCall(c, i, pos, j, k))
    || (depth > 0 && var d := depth - 1; exists name :: InCopy(c, ps, i, name, pos, j, d))
  }

  /** Relocation `k` of the program is the one that counts at `pos`, and calls `j`. */
  ghost predicate IsOwnCall(c: Context, i: nat, pos: nat, j: nat, k: nat) {
    var rs := RelocsOf(c.relocs, i);
    k < |rs| && LastAt(rs, k) && rs[k].sourceOffset == pos && Callee(c, rs, rs[k].targetName) == Some(j)
  }

  ghost predicate InCopy(c: Context, ps: seq<RawProgram>, i: nat, name: string, pos: nat, j: nat, depth: nat)
    requires ValidContext(c) && |ps| == |c.original| && i < |ps|
    decreases depth, 1
  {
    var rs := RelocsOf(c.relocs, i);
    var s := StartOf(c, ps, rs, Names(rs), name, |c.original[i].code|);
    && name in Names(rs)
    && Callee(c, rs, name).Some? && Callee(c, rs, name).value < |ps|
    && pos >= s
    && IsCallTo(c, ps, Callee(c, rs, name).value, pos - s, j, depth)
  }

  /** From position `pos` of `code` the relative call lands on a stretch that is `callee`. */
  ghost predicate LandsOn(code: seq<Inst>, pos: nat, callee: seq<Inst>) {
    && pos < |code|
    && 0 <= pos + 1 + code[pos].imm
    && pos + 1 + code[pos].imm + |callee| <= |code|
    && code[pos + 1 + code[pos].imm..pos + 1 + code[pos].imm + |callee|] == callee
  }

  /** The instruction at a call, wherever it stands in the callee, keeps its target when the callee is copied. */
  lemma LandsInCopy(code: seq<Inst>, s: nat, inner: seq<Inst>, pos: nat, callee: seq<Inst>)
    requires s + |inner| <= |code| && code[s..s + |inner|] == inner && LandsOn(inner, pos, callee)
    ensures LandsOn(code, s + pos, callee)
  {
    var t := pos + 1 + inner[pos].imm;
    assert code[s + pos] == inner[pos];
    forall x | 0 <= x < |callee| ensures code[s + t + x] == callee[x] {
      assert inner[t + x] == inner[t..t + |callee|][x];
      assert code[s..s + |inner|][t + x] == code[s + (t + x)];
    }
    assert code[s + t..s + t + |callee|] == callee;
  }

  /** Every program a linked program copies is linked too. */
  ghost predicate ClosedLinked(c: Context, ps: seq<RawProgram>, linked: set<nat>)
    requires ValidContext(c) && |ps| == |c.original|
  {
    forall i :: i in linked ==> i < |ps| && LinkedCode(c, ps, i) && CalleesIn(c, i, linked)
  }

  ghost predicate CalleesIn(c: Context, i: nat, linked: set<nat>) {
    var rs := RelocsOf(c.relocs, i);
    forall name :: name in Names(rs) ==> Callee(c, rs, name).Some? && Callee(c, rs, name).value in linked
  }

  /**
    Every call of a linked program, own or inherited through any number of copies, lands on the linked
    code of the function it calls.
  */
  lemma {:induction false} CallsLand(c: Context, ps: seq<RawProgram>, linked: set<nat>, i: nat, pos: nat, j: nat, depth: nat)
    requires ValidContext(c) && |ps| == |c.original| && ClosedLinked(c, ps, linked) && i in linked
    requires IsCallTo(c, ps, i, pos, j, depth)
    ensures j < |ps| && LandsOn(ps[i].code, pos, ps[j].code)
    decreases depth
  {
    hide LinkedCode, Names, Callee, StartOf, Copies, CodeOf, LandsOn, IsOwnCall, ValidContext;
    if k :| IsOwnCall(c, i, pos, j, k) {
      OwnCallLands(c, ps, linked, i, pos, k, j);
    } else {
      var d := depth - 1;
      var name :| InCopy(c, ps, i, name, pos, j, d);
      var rs := RelocsOf(c.relocs, i);
      var t := Callee(c, rs, name).value;
      var s := StartOf(c, ps, rs, Names(rs), name, |c.original[i].code|);
      assert t in linked;
      CallsLand(c, ps, linked, t, pos - s, j, d);
      LinkedCopy(c, ps, i, name);
      LandsInCopy(ps[i].code, s, ps[t].code, pos - s, ps[j].code);
    }
  }

  /** The copy of a callee inside a linked program. */
  lemma LinkedCopy(c: Context, ps: seq<RawProgram>, i: nat, name: string)
    requires ValidContext(c) && |ps| == |c.original| && i < |ps| && LinkedCode(c, ps, i)
    requires name in Names(RelocsOf(c.relocs, i))
    requires Callee(c, RelocsOf(c.relocs, i), name).Some? && Callee(c, RelocsOf(c.relocs, i), name).value < |ps|
    ensures var rs := RelocsOf(c.relocs, i);
      var s := StartOf(c, ps, rs, Names(rs), name, |c.original[i].code|);
      var code := ps[Callee(c, rs, name).value].code;
      s + |code| <= |ps[i].code| && ps[i].code[s..s + |code|] == code
  {
    hide Names, Callee, Copies, StartOf;
    var rs := RelocsOf(c.relocs, i);
    CopyIsCallee(c, ps, rs, Patched(c, ps, c.original[i].code, rs, |rs|), name);
  }

  lemma OwnCallLands(c: Context, ps: seq<RawProgram>, linked: set<nat>, i: nat, pos: nat, k: nat, j: nat)
    requires ValidContext(c) && |ps| == |c.original| && ClosedLinked(c, ps, linked) && i in linked
    requires IsOwnCall(c, i, pos, j, k)
    ensures j < |ps| && LandsOn(ps[i].code, pos, ps[j].code)
  {
    hide Names, Callee, Copies, StartOf, LastAt, LinkedCode, ValidContext;
    var rs := RelocsOf(c.relocs, i);
    assert rs[k] in rs;
    NamesHold(rs, rs[k].targetName);
    assert CalleesIn(c, i, linked);
    assert j in linked;
    LinkedCopy(c, ps, i, rs[k].targetName);
    LinkedCall(c, ps, i, k);
  }

  /** The immediate of a call, in the linked code. */
  lemma LinkedCall(c: Context, ps: seq<RawProgram>, i: nat, k: nat)
    requires ValidContext(c) && |ps| == |c.original| && i < |ps| && LinkedCode(c, ps, i)
    requires k < |RelocsOf(c.relocs, i)| && LastAt(RelocsOf(c.relocs, i), k)
    ensures var rs := RelocsOf(c.relocs, i);
      var pos := rs[k].sourceOffset;
      pos < |ps[i].code|
      && pos + 1 + ps[i].code[pos].imm == StartOf(c, ps, rs, Names(rs), rs[k].targetName, |c.original[i].code|)
  {
    hide Names, Copies, StartOf;
    var rs := RelocsOf(c.relocs, i);
    PatchedAt(c, ps, c.original[i].code, rs, k, |rs|);
  }

  // ------------------------------------------------------------------ calls and their own targets

  /** The first relocation that uses the name of relocation `k`. */
  function FirstUse(rs: seq<Reloc>, k: nat): (m: nat)
    requires k < |rs|
    ensures m <= k && rs[m].targetName == rs[k].targetName
    ensures forall j :: 0 <= j < m ==> rs[j].targetName != rs[k].targetName
  {
    if rs[0].targetName == rs[k].targetName then 0
    else
      var m := FirstUse(rs[1..], k - 1);
      assert forall j :: 1 <= j <= m ==> rs[j] == rs[1..][j - 1];
      m + 1
  }

  /** A call shares the copy of the first use of its name: this is its own target exactly when the two targets are one. */
  lemma CalleeIsTarget(c: Context, rs: seq<Reloc>, k: nat)
    requires k < |rs|
    ensures Callee(c, rs, rs[k].targetName) == Target(c, rs[k]) <==> Target(c, rs[FirstUse(rs, k)]) == Target(c, rs[k])
  {
    hide Names, Callee, Target;
    var m := FirstUse(rs, k);
    NamesHold(rs[..m], rs[k].targetName);
    CalleeIsFirst(c, rs, m);
  }

  /** Relocations of one name have one target. */
  ghost predicate OneTarget(c: Context, rs: seq<Reloc>) {
    forall j, k :: 0 <= j < |rs| && 0 <= k < |rs| && rs[j].targetName == rs[k].targetName ==> Target(c, rs[j]) == Target(c, rs[k])
  }

  /** All calls of a program get their own targets exactly when its relocations of one name agree. */
  lemma CalleesAreTargets(c: Context, rs: seq<Reloc>)
    ensures (forall k :: 0 <= k < |rs| ==> Callee(c, rs, rs[k].targetName) == Target(c, rs[k])) <==> OneTarget(c, rs)
  {
    hide Callee, Target;
    if forall k :: 0 <= k < |rs| ==> Callee(c, rs, rs[k].targetName) == Target(c, rs[k]) {
      forall j, k | 0 <= j < |rs| && 0 <= k < |rs| && rs[j].targetName == rs[k].targetName ensures Target(c, rs[j]) == Target(c, rs[k]) {
        assert Callee(c, rs, rs[j].targetName) == Target(c, rs[j]);
      }
    }
    if OneTarget(c, rs) {
      forall k | 0 <= k < |rs| ensures Callee(c, rs, rs[k].targetName) == Target(c, rs[k]) {
        CalleeIsTarget(c, rs, k);
      }
    }
  }

  /**
    `pos` is, in the linked code of program `i`, where relocation `r` stands: of the program itself, or of a
    callee, inside its copy.
  */
  ghost predicate IsSite(c: Context, ps: seq<RawProgram>, i: nat, pos: nat, r: Reloc, depth: nat)
    requires ValidContext(c) && |ps| == |c.original| && i < |ps|
    decreases depth, 0
  {
    || OwnSite(c, i, pos, r)
    || (depth > 0 && var d := depth - 1; exists name :: SiteInCopy(c, ps, i, name, pos, r, d))
  }

  ghost predicate OwnSite(c: Context, i: nat, pos: nat, r: Reloc) {
    var rs := RelocsOf(c.relocs, i);
    exists k :: 0 <= k < |rs| && LastAt(rs, k) && rs[k].sourceOffset == pos && rs[k] == r
  }

  ghost predicate SiteInCopy(c: Context, ps: seq<RawProgram>, i: nat, name: string, pos: nat, r: Reloc, depth: nat)
    requires ValidContext(c) && |ps| == |c.original| && i < |ps|
    decreases depth, 1
  {
    var rs := RelocsOf(c.relocs, i);
    var s := StartOf(c, ps, rs, Names(rs), name, |c.original[i].code|);
    && name in Names(rs)
    && Callee(c, rs, name).Some? && Callee(c, rs, name).value < |ps|
    && pos >= s
    && IsSite(c, ps, Callee(c, rs, name).value, pos - s, r, depth)
  }

  /** A site is a call to the callee of its name. */
  lemma {:induction false} SiteIsCall(c: Context, ps: seq<RawProgram>, i: nat, pos: nat, r: Reloc, j: nat, depth: nat)
    requires ValidContext(c) && |ps| == |c.original| && i < |ps| && IsSite(c, ps, i, pos, r, depth)
    requires Callee(c, RelocsOf(c.relocs, r.progIndex), r.targetName) == Some(j)
    ensures IsCallTo(c, ps, i, pos, j, depth)
    decreases depth
  {
    hide Names, Callee, StartOf, LastAt, ValidContext;
    if OwnSite(c, i, pos, r) {
      var rs := RelocsOf(c.relocs, i);
      var k :| 0 <= k < |rs| && LastAt(rs, k) && rs[k].sourceOffset == pos && rs[k] == r;
      assert rs[k] in rs;
      assert IsOwnCall(c, i, pos, j, k);
    } else {
      var d := depth - 1;
      var name :| SiteInCopy(c, ps, i, name, pos, r, d);
      var rs := RelocsOf(c.relocs, i);
      var s := StartOf(c, ps, rs, Names(rs), name, |c.original[i].code|);
      SiteIsCall(c, ps, Callee(c, rs, name).value, pos - s, r, j, d);
      assert InCopy(c, ps, i, name, pos, j, d);
    }
  }

  /** Every program a site stands for is linked. */
  lemma {:induction false} SiteIsLinked(c: Context, ps: seq<RawProgram>, linked: set<nat>, i: nat, pos: nat, r: Reloc, depth: nat)
    requires ValidContext(c) && |ps| == |c.original| && ClosedLinked(c, ps, linked) && i in linked && IsSite(c, ps, i, pos, r, depth)
    ensures r.progIndex in linked && r in RelocsOf(c.relocs, r.progIndex)
    decreases depth
  {
    hide Names, Callee, StartOf, LastAt, ValidContext, LinkedCode;
    if OwnSite(c, i, pos, r) {
      var rs := RelocsOf(c.relocs, i);
      var k :| 0 <= k < |rs| && LastAt(rs, k) && rs[k].sourceOffset == pos && rs[k] == r;
      assert rs[k] in rs;
    } else {
      var d := depth - 1;
      var name :| SiteInCopy(c, ps, i, name, pos, r, d);
      var rs := RelocsOf(c.relocs, i);
      var s := StartOf(c, ps, rs, Names(rs), name, |c.original[i].code|);
      assert Callee(c, rs, name).value in linked;
      SiteIsLinked(c, ps, linked, Callee(c, rs, name).value, pos - s, r, d);
    }
  }

  /**
    Where the relocations of one name agree, every call of a linked program, own or inherited, lands on the
    linked code of the program its own relocation names.
  */
  lemma CallsLandOnTargets(c: Context, ps: seq<RawProgram>, linked: set<nat>, i: nat, pos: nat, r: Reloc, depth: nat)
    requires ValidContext(c) && |ps| == |c.original| && ClosedLinked(c, ps, linked) && i in linked
    requires IsSite(c, ps, i, pos, r, depth) && OneTarget(c, RelocsOf(c.relocs, r.progIndex))
    ensures Target(c, r).Some? && Target(c, r).value < |ps| && LandsOn(ps[i].code, pos, ps[Target(c, r).value].code)
  {
    hide Names, Callee, Target, LandsOn, IsSite, IsCallTo, ValidContext, LinkedCode;
    SiteIsLinked(c, ps, linked, i, pos, r, depth);
    var rs := RelocsOf(c.relocs, r.progIndex);
    CalleesAreTargets(c, rs);
    var k :| 0 <= k < |rs| && rs[k] == r;
    NamesHold(rs, r.targetName);
    assert CalleesIn(c, r.progIndex, linked);
    SiteIsCall(c, ps, i, pos, r, Target(c, r).value, depth);
    CallsLand(c, ps, linked, i, pos, Target(c, r).value, depth);
  }

  // ------------------------------------------------------------------ over the whole list of relocations

  ghost predicate Located(relocs: seq<Reloc>, i: nat, r: seq<Reloc>, at: seq<nat>) {
    |at| == |r| && forall k :: 0 <= k < |at| ==> at[k] < |relocs| && relocs[at[k]] == r[k] && r[k].progIndex == i
  }

  ghost predicate Rising(at: seq<nat>) {
    forall j, k :: 0 <= j < k < |at| ==> at[j] < at[k]
  }

  ghost predicate AllTaken(relocs: seq<Reloc>, i: nat, at: seq<nat>) {
    forall m: nat :: m < |relocs| && relocs[m].progIndex == i ==> m in at
  }

  /** `r` is the relocations of program `i`, all of them and in their order: `at` says where each one stands. */
  ghost predicate Picks(relocs: seq<Reloc>, i: nat, r: seq<Reloc>, at: seq<nat>) {
    Located(relocs, i, r, at) && Rising(at) && AllTaken(relocs, i, at)
  }

  function Shifted(at: seq<nat>): (r: seq<nat>)
    ensures |r| == |at| && forall k :: 0 <= k < |at| ==> r[k] == at[k] + 1
  {
    seq(|at|, k requires 0 <= k < |at| => at[k] + 1)
  }

  lemma ShiftedHolds(at: seq<nat>, m: nat)
    requires m in at
    ensures m + 1 in Shifted(at)
  {
    var k :| 0 <= k < |at| && at[k] == m;
    assert Shifted(at)[k] == m + 1;
  }

  lemma LocatedGrows(relocs: seq<Reloc>, i: nat, r: seq<Reloc>, at: seq<nat>)
    requires relocs != [] && Located(relocs[1..], i, r, at)
    ensures Located(relocs, i, r, Shifted(at))
    ensures relocs[0].progIndex == i ==> Located(relocs, i, [relocs[0]] + r, [0] + Shifted(at))
  {
    forall k | 0 <= k < |at| ensures relocs[at[k] + 1] == r[k] {
      assert relocs[1..][at[k]] == relocs[at[k] + 1];
    }
  }

  lemma AllTakenGrows(relocs: seq<Reloc>, i: nat, at: seq<nat>)
    requires relocs != [] && AllTaken(relocs[1..], i, at)
    ensures relocs[0].progIndex != i ==> AllTaken(relocs, i, Shifted(at))
    ensures AllTaken(relocs, i, [0] + Shifted(at))
  {
    hide Shifted;
    forall m: nat | 0 < m < |relocs| && relocs[m].progIndex == i ensures m in Shifted(at) {
      assert relocs[1..][m - 1] == relocs[m];
      ShiftedHolds(at, m - 1);
    }
  }

  lemma RisingGrows(at: seq<nat>)
    requires Rising(at)
    ensures Rising(Shifted(at)) && Rising([0] + Shifted(at))
  {
  }

  /** The first relocation goes in front, if it is one of the program's. */
  lemma PicksGrow(relocs: seq<Reloc>, i: nat, r: seq<Reloc>, at: seq<nat>)
    requires relocs != [] && Picks(relocs[1..], i, r, at)
    ensures relocs[0].progIndex != i ==> Picks(relocs, i, r, Shifted(at))
    ensures relocs[0].progIndex == i ==> Picks(relocs, i, [relocs[0]] + r, [0] + Shifted(at))
  {
    hide Shifted, Located, Rising, AllTaken;
    LocatedGrows(relocs, i, r, at);
    RisingGrows(at);
    AllTakenGrows(relocs, i, at);
  }

  /** The relocations of a program are filtered from the list, none is lost, doubled or moved. */
  lemma {:induction false} RelocsOfPicks(relocs: seq<Reloc>, i: nat) returns (at: seq<nat>)
    ensures Picks(relocs, i, RelocsOf(relocs, i), at)
  {
    hide Shifted;
    if relocs == [] {
      at := [];
    } else {
      var rest := RelocsOfPicks(relocs[1..], i);
      PicksGrow(relocs, i, RelocsOf(relocs[1..], i), rest);
      at := if relocs[0].progIndex == i then [0] + Shifted(rest) else Shifted(rest);
      assert [] + RelocsOf(relocs[1..], i) == RelocsOf(relocs[1..], i);
    }
  }

  /** Of the relocations at its instruction it is the last. */
  ghost predicate LastReloc(relocs: seq<Reloc>, m: nat) {
    m < |relocs| && forall n :: m < n < |relocs| ==> relocs[n].progIndex != relocs[m].progIndex || relocs[n].sourceOffset != relocs[m].sourceOffset
  }

  /** `f` is the first relocation of the same program that uses the same name. */
  ghost predicate FirstOfName(relocs: seq<Reloc>, m: nat, f: nat) {
    && f <= m < |relocs| && relocs[f].progIndex == relocs[m].progIndex && relocs[f].targetName == relocs[m].targetName
    && forall n :: 0 <= n < f ==> relocs[n].progIndex != relocs[m].progIndex || relocs[n].targetName != relocs[m].targetName
  }

  /** `t` is the first program that has the function name and stands in the section the relocation gives. */
  ghost predicate FirstNamed(c: Context, r: Reloc, t: nat) {
    && c.sectionNames(r.targetSection).Some? && t < |c.original|
    && c.original[t].sectionName == c.sectionNames(r.targetSection).value && c.original[t].functionName == r.targetName
    && forall u :: 0 <= u < t ==> c.original[u].sectionName != c.original[t].sectionName || c.original[u].functionName != r.targetName
  }

  lemma TargetIsFirstNamed(c: Context, r: Reloc, t: nat)
    requires FirstMatch(c.original, |c.original|, c.lookup)
    ensures Target(c, r) == Some(t) <==> FirstNamed(c, r, t)
  {
    if FirstNamed(c, r, t) {
      var key := (c.original[t].sectionName, c.original[t].functionName);
      assert key in c.lookup && (c.original[c.lookup[key]].sectionName, c.original[c.lookup[key]].functionName) == key;
    }
  }

  /** What one relocation makes of a linked program. */
  ghost predicate RelocLands(c: Context, ps: seq<RawProgram>, m: nat, f: nat)
    requires |ps| == |c.original| && m < |c.relocs| && f < |c.relocs|
  {
    var i := c.relocs[m].progIndex;
    i < |ps| && exists t: nat :: FirstNamed(c, c.relocs[f], t) && LandsOn(ps[i].code, c.relocs[m].sourceOffset, ps[t].code)
  }

  /**
    Every relocation that counts at its instruction lands on the linked code of the program that the
    first relocation of its name gives.
  */
  ghost predicate RelocsLand(c: Context, ps: seq<RawProgram>, i: nat)
    requires |ps| == |c.original|
  {
    forall m: nat, f: nat :: LastReloc(c.relocs, m) && c.relocs[m].progIndex == i && FirstOfName(c.relocs, m, f) ==> RelocLands(c, ps, m, f)
  }

  lemma PickedAt(relocs: seq<Reloc>, i: nat, r: seq<Reloc>, at: seq<nat>, m: nat) returns (k: nat)
    requires Picks(relocs, i, r, at) && m < |relocs| && relocs[m].progIndex == i
    ensures k < |r| && at[k] == m && r[k] == relocs[m]
    ensures LastReloc(relocs, m) ==> LastAt(r, k)
  {
    k :| 0 <= k < |at| && at[k] == m;
    if LastReloc(relocs, m) {
      forall j | k < j < |r| ensures r[j].sourceOffset != r[k].sourceOffset {
        assert at[k] < at[j] && relocs[at[j]] == r[j];
      }
    }
  }

  lemma FirstPicked(relocs: seq<Reloc>, i: nat, r: seq<Reloc>, at: seq<nat>, m: nat, f: nat, k: nat)
    requires Picks(relocs, i, r, at) && m < |relocs| && relocs[m].progIndex == i && FirstOfName(relocs, m, f)
    requires k < |r| && at[k] == m
    ensures r[FirstUse(r, k)] == relocs[f]
  {
    var g := FirstUse(r, k);
    var j := PickedAt(relocs, i, r, at, f);
    assert relocs[at[g]] == r[g] && r[g].targetName == relocs[m].targetName;
    assert f <= at[g];
    assert g <= j;
    assert g == j;
  }

  /** So it is in every linked program whose callees are linked. */
  lemma LinkedRelocsLand(c: Context, ps: seq<RawProgram>, linked: set<nat>, i: nat)
    requires ValidContext(c) && |ps| == |c.original| && ClosedLinked(c, ps, linked) && i in linked
    ensures RelocsLand(c, ps, i)
  {
    hide Names, Callee, Target, LandsOn, LinkedCode, LastAt, Picks, FirstMatch, FirstNamed, FirstUse;
    var rs := RelocsOf(c.relocs, i);
    var at := RelocsOfPicks(c.relocs, i);
    assert CalleesIn(c, i, linked);
    forall m: nat, f: nat | LastReloc(c.relocs, m) && c.relocs[m].progIndex == i && FirstOfName(c.relocs, m, f) ensures RelocLands(c, ps, m, f) {
      LastInList(c.relocs, m, f);
      var k := PickedAt(c.relocs, i, rs, at, m);
      PickedSame(c.relocs, i, rs, at, k);
      FirstPicked(c.relocs, i, rs, at, m, f, k);
      CalleeOfUse(c, rs, k);
      NamesHold(rs, rs[k].targetName);
      var t := Callee(c, rs, rs[k].targetName).value;
      assert IsOwnCall(c, i, rs[k].sourceOffset, t, k);
      OwnCallLands(c, ps, linked, i, rs[k].sourceOffset, k, t);
      TargetIsFirstNamed(c, c.relocs[f], t);
      assert c.relocs[m] in c.relocs;
    }
  }

  lemma LastInList(relocs: seq<Reloc>, m: nat, f: nat)
    requires LastReloc(relocs, m) && FirstOfName(relocs, m, f)
    ensures m < |relocs| && f < |relocs|
  {
  }

  lemma PickedSame(relocs: seq<Reloc>, i: nat, r: seq<Reloc>, at: seq<nat>, k: nat)
    requires Picks(relocs, i, r, at) && k < |r|
    ensures |at| == |r| && at[k] < |relocs| && relocs[at[k]] == r[k]
  {
  }

  lemma CalleeOfUse(c: Context, rs: seq<Reloc>, k: nat)
    requires k < |rs|
    ensures Callee(c, rs, rs[k].targetName) == Target(c, rs[FirstUse(rs, k)])
  {
    hide Names, Callee, Target;
    var m := FirstUse(rs, k);
    NamesHold(rs[..m], rs[k].targetName);
    CalleeIsFirst(c, rs, m);
  }

  /** The rest of a program's own code stays: other instructions altogether, relocated ones but for the immediate. */
  ghost predicate OwnCodeKept(c: Context, ps: seq<RawProgram>, i: nat)
    requires |ps| == |c.original|
  {
    i < |ps| && |c.original[i].code| <= |ps[i].code|
    && forall p :: 0 <= p < |c.original[i].code| ==>
      && ps[i].code[p] == c.original[i].code[p].(imm := ps[i].code[p].imm)
      && ((forall m :: 0 <= m < |c.relocs| && c.relocs[m].progIndex == i ==> c.relocs[m].sourceOffset != p) ==> ps[i].code[p] == c.original[i].code[p])
  }

  lemma LinkedKeepsOwnCode(c: Context, ps: seq<RawProgram>, i: nat)
    requires ValidContext(c) && |ps| == |c.original| && i < |ps| && LinkedCode(c, ps, i)
    ensures OwnCodeKept(c, ps, i)
  {
    hide Names, Copies, FirstMatch;
    var rs := RelocsOf(c.relocs, i);
    forall p: nat | p < |c.original[i].code|
      ensures ps[i].code[p] == c.original[i].code[p].(imm := ps[i].code[p].imm)
      ensures (forall m :: 0 <= m < |c.relocs| && c.relocs[m].progIndex == i ==> c.relocs[m].sourceOffset != p) ==> ps[i].code[p] == c.original[i].code[p]
    {
      PatchedElsewhere(c, ps, c.original[i].code, rs, |rs|, p);
      forall j | 0 <= j < |rs| && rs[j].sourceOffset == p ensures exists m :: 0 <= m < |c.relocs| && c.relocs[m].progIndex == i && c.relocs[m].sourceOffset == p {
        assert rs[j] in rs;
        var m :| 0 <= m < |c.relocs| && c.relocs[m] == rs[j];
      }
    }
  }

  // ------------------------------------------------------------------ how the copies are laid out

  /** The length of the copies of the names, one after the other. */
  ghost function TotalLength(c: Context, ps: seq<RawProgram>, rs: seq<Reloc>, names: seq<string>): nat {
    if names == [] then 0 else TotalLength(c, ps, rs, names[..|names| - 1]) + |CodeOf(c, ps, rs, names[|names| - 1])|
  }

  lemma {:induction false} CopiesLength(c: Context, ps: seq<RawProgram>, rs: seq<Reloc>, names: seq<string>)
    ensures |Copies(c, ps, rs, names)| == TotalLength(c, ps, rs, names)
  {
    if names != [] {
      CopiesLength(c, ps, rs, names[..|names| - 1]);
    }
  }

  /** A linked program is its own code and one copy per name, and nothing else. */
  lemma LinkedLength(c: Context, ps: seq<RawProgram>, i: nat)
    requires ValidContext(c) && i < |c.original| == |ps| && LinkedCode(c, ps, i)
    ensures |ps[i].code| == |c.original[i].code| + TotalLength(c, ps, RelocsOf(c.relocs, i), Names(RelocsOf(c.relocs, i)))
  {
    hide Names, Copies, CodeOf;
    var rs := RelocsOf(c.relocs, i);
    CopiesLength(c, ps, rs, Names(rs));
  }

  /** The names stand in the order of their first uses. */
  lemma {:induction false} NamesInOrder(rs: seq<Reloc>, i: nat, j: nat, k: nat)
    requires i < j < |Names(rs)| && k < |rs| && rs[k].targetName == Names(rs)[j]
    ensures exists m :: 0 <= m < k && rs[m].targetName == Names(rs)[i]
  {
    var n := |rs| - 1;
    var before := Names(rs[..n]);
    if k < n {
      NamesHold(rs[..n], rs[k].targetName);
      assert rs[..n][k] == rs[k];
      assert rs[k].targetName in before;
      NamesDistinct(rs);
      assert j < |before|;
      NamesInOrder(rs[..n], i, j, k);
      var m :| 0 <= m < k && rs[..n][m].targetName == before[i];
      assert rs[m].targetName == Names(rs)[i];
    } else {
      assert Names(rs)[i] in before;
      NamesHold(rs[..n], Names(rs)[i]);
      var m :| 0 <= m < |rs[..n]| && rs[..n][m].targetName == Names(rs)[i];
      assert rs[m].targetName == Names(rs)[i];
    }
  }

  /** A caller of two functions named `f`, one of section `a` and one of section `b`. */
  function TwoSections(): Context {
    var call, one, two := Inst(0x85, 0, 1, 0, -1), Inst(0x95, 1, 0, 0, 0), Inst(0x95, 2, 0, 0, 0);
    Context([RawProgram("m", "main", [call, call]), RawProgram("a", "f", [one]), RawProgram("b", "f", [two])],
      [Reloc(0, 0, 1, "f"), Reloc(0, 1, 2, "f")],
      i => if i == 1 then Some("a") else if i == 2 then Some("b") else None,
      map[("m", "main") := 0, ("a", "f") := 1, ("b", "f") := 2])
  }

  lemma TwoSectionsFacts()
    ensures var c := TwoSections();
      && ValidContext(c)
      && RelocsOf(c.relocs, 0) == c.relocs && RelocsOf(c.relocs, 1) == [] && RelocsOf(c.relocs, 2) == []
      && Target(c, c.relocs[0]) == Some(1) && Target(c, c.relocs[1]) == Some(2)
  {
    var c := TwoSections();
    assert c.original[0].functionName == "main" && c.original[1].sectionName == "a" && c.original[2].sectionName == "b";
    RelocsOfOne(c.relocs, 0, 0);
    RelocsOfOne(c.relocs, 0, 1);
    RelocsOfOne(c.relocs, 0, 2);
  }

  lemma {:induction false} RelocsOfOne(relocs: seq<Reloc>, owner: nat, i: nat)
    requires forall r :: r in relocs ==> r.progIndex == owner
    ensures RelocsOf(relocs, i) == if i == owner then relocs else []
  {
    if relocs != [] {
      assert relocs[0] in relocs && forall r :: r in relocs[1..] ==> r in relocs;
      RelocsOfOne(relocs[1..], owner, i);
    }
  }

  /** A program that calls nothing is linked as it is. */
  lemma LinkedLeaf(c: Context, ps: seq<RawProgram>, i: nat)
    requires ValidContext(c) && i < |c.original| == |ps| && LinkedCode(c, ps, i) && RelocsOf(c.relocs, i) == []
    ensures ps[i].code == c.original[i].code
  {
  }

  lemma OneLanding(code: seq<Inst>, pos: nat, x: Inst, y: Inst)
    requires LandsOn(code, pos, [x]) && LandsOn(code, pos, [y])
    ensures x == y
  {
    var t := pos + 1 + code[pos].imm;
    assert code[t..t + 1][0] == [x][0] && code[t..t + 1][0] == [y][0];
  }

  /** The second call names the function of section `b`, and however the program is linked it lands on that of `a`. */
  lemma SameNameIsShared(ps: seq<RawProgram>, linked: set<nat>)
    requires var c := TwoSections(); |ps| == 3 && linked == {0, 1, 2} && ValidContext(c) && ClosedLinked(c, ps, linked)
    ensures var c := TwoSections();
      && IsSite(c, ps, 0, 1, c.relocs[1], 0) && Target(c, c.relocs[1]) == Some(2) && Callee(c, c.relocs, "f") == Some(1)
      && LandsOn(ps[0].code, 1, ps[1].code) && !LandsOn(ps[0].code, 1, ps[2].code)
  {
    hide TwoSections, Target, LandsOn, Copies, StartOf, Patched, Names, ValidContext, LinkedCode, FirstUse, Callee;
    var c := TwoSections();
    TwoSectionsFacts();
    TwoSectionsShape();
    var rs := c.relocs;
    assert rs[0].targetName == "f";
    CalleeIsTarget(c, rs, 0);
    assert LastAt(rs, 1) && IsOwnCall(c, 0, 1, 1, 1);
    OwnCallLands(c, ps, linked, 0, 1, 1, 1);
    LinkedLeaf(c, ps, 1);
    LinkedLeaf(c, ps, 2);
    if LandsOn(ps[0].code, 1, ps[2].code) {
      assert ps[1].code == [c.original[1].code[0]] && ps[2].code == [c.original[2].code[0]];
      OneLanding(ps[0].code, 1, c.original[1].code[0], c.original[2].code[0]);
    }
  }

  /** The caller of the two, linked: both calls lead to the one copy behind them. */
  function TwoLinked(): seq<RawProgram> {
    var c := TwoSections();
    var call, one := c.original[0].code[0], c.original[1].code[0];
    [RawProgram("m", "main", [call.(imm := 1), call.(imm := 0), one]), c.original[1], c.original[2]]
  }

  lemma OneCopy(c: Context, ps: seq<RawProgram>, rs: seq<Reloc>)
    requires Callee(c, rs, "f") == Some(1) && |ps| == 3
    ensures Copies(c, ps, rs, ["f"]) == ps[1].code && StartOf(c, ps, rs, ["f"], "f", 2) == 2
  {
    hide Callee;
    assert ["f"][..0] == [];
    assert Copies(c, ps, rs, []) == [];
  }

  lemma TwoPatched(c: Context, ps: seq<RawProgram>, code: seq<Inst>, rs: seq<Reloc>)
    requires |code| == 2 && |rs| == 2 && rs[0].sourceOffset == 0 && rs[1].sourceOffset == 1 && rs[0].targetName == "f" && rs[1].targetName == "f"
    requires StartOf(c, ps, rs, ["f"], "f", 2) == 2 && Names(rs[..1]) == ["f"] && Names(rs[..2]) == ["f"]
    requires forall x: Reloc :: x in rs ==> x.sourceOffset < 2
    ensures Patched(c, ps, code, rs, 2) == [code[0].(imm := 1), code[1].(imm := 0)]
  {
    hide StartOf, Names;
    StartsAlike(c, ps, rs);
    assert Patched(c, ps, code, rs, 0) == code;
    assert Patched(c, ps, code, rs, 1) == [code[0].(imm := 1), code[1]];
  }

  lemma StartsAlike(c: Context, ps: seq<RawProgram>, rs: seq<Reloc>)
    ensures forall len: nat :: StartOf(c, ps, rs, ["f"], "f", len) == len + |Copies(c, ps, rs, [])|
  {
    assert ["f"][..0] == [];
  }

  /** There is such a linked program. */
  lemma TwoSectionsLink() returns (ps: seq<RawProgram>)
    ensures var c := TwoSections();
      |ps| == 3 && ValidContext(c) && ClosedLinked(c, ps, {0, 1, 2}) && |ps[0].code| == 3 && ps[0].code[2] == c.original[1].code[0]
  {
    hide ValidContext, Target, Names, Callee, Copies, StartOf, Patched, RelocsOf, LastAt;
    var c := TwoSections();
    TwoSectionsFacts();
    var rs := c.relocs;
    ps := TwoLinked();
    TwoNames(c, rs);
    OneCopy(c, ps, rs);
    assert rs[..2] == rs;
    TwoPatched(c, ps, c.original[0].code, rs);
    assert LinkedCode(c, ps, 0) && CalleesIn(c, 0, {0, 1, 2});
    LeafLinked(c, ps, 1);
    LeafLinked(c, ps, 2);
  }

  lemma LeafLinked(c: Context, ps: seq<RawProgram>, i: nat)
    requires ValidContext(c) && i < |c.original| == |ps| && ps[i].code == c.original[i].code && RelocsOf(c.relocs, i) == []
    ensures LinkedCode(c, ps, i) && forall linked :: CalleesIn(c, i, linked)
  {
  }

  lemma TwoNames(c: Context, rs: seq<Reloc>)
    requires |rs| == 2 && rs[0].targetName == "f" && rs[1].targetName == "f" && Target(c, rs[0]) == Some(1)
    ensures Names(rs[..1]) == ["f"] && Names(rs) == ["f"] && Callee(c, rs, "f") == Some(1)
  {
    assert rs[..1][..0] == [] && rs[..|rs| - 1] == rs[..1];
  }

  lemma TwoSectionsShape()
    ensures var c := TwoSections();
      && |c.original| == 3 && |c.original[1].code| == 1 && |c.original[2].code| == 1
      && c.original[1].code[0] != c.original[2].code[0]
      && |c.relocs| == 2 && c.relocs[0].targetName == "f" && c.relocs[1].targetName == "f" && c.relocs[1].sourceOffset == 1
  {
  }

  // ------------------------------------------------------------------ frames

  /** The callees of the given names have the same code in both lists of programs. */
  ghost predicate SameCode(c: Context, ps: seq<RawProgram>, ps': seq<RawProgram>, rs: seq<Reloc>, names: seq<string>) {
    forall name :: name in names ==> CodeOf(c, ps, rs, name) == CodeOf(c, ps', rs, name)
  }

  lemma {:induction false} CopiesFrame(c: Context, ps: seq<RawProgram>, ps': seq<RawProgram>, rs: seq<Reloc>, names: seq<string>)
    requires SameCode(c, ps, ps', rs, names)
    ensures Copies(c, ps, rs, names) == Copies(c, ps', rs, names)
  {
    hide CodeOf;
    if names != [] {
      assert forall name :: name in names[..|names| - 1] ==> name in names;
      CopiesFrame(c, ps, ps', rs, names[..|names| - 1]);
      assert names[|names| - 1] in names;
    }
  }

  lemma {:induction false} StartFrame(c: Context, ps: seq<RawProgram>, ps': seq<RawProgram>, rs: seq<Reloc>, names: seq<string>, name: string, len: nat)
    requires SameCode(c, ps, ps', rs, names)
    ensures StartOf(c, ps, rs, names, name, len) == StartOf(c, ps', rs, names, name, len)
  {
    hide CodeOf, Copies;
    if names != [] {
      assert forall x :: x in names[..|names| - 1] ==> x in names;
      CopiesFrame(c, ps, ps', rs, names[..|names| - 1]);
      StartFrame(c, ps, ps', rs, names[..|names| - 1], name, len);
    }
  }

  lemma {:induction false} PatchedFrame(c: Context, ps: seq<RawProgram>, ps': seq<RawProgram>, code: seq<Inst>, rs: seq<Reloc>, k: nat)
    requires k <= |rs| && (forall x :: x in rs ==> x.sourceOffset < |code|) && SameCode(c, ps, ps', rs, Names(rs[..k]))
    ensures Patched(c, ps, code, rs, k) == Patched(c, ps', code, rs, k)
  {
    hide Names, StartOf, CodeOf;
    if k > 0 {
      assert rs[..k][..k - 1] == rs[..k - 1];
      NamesPrefix(rs[..k], k - 1);
      assert forall name :: name in Names(rs[..k - 1]) ==> name in Names(rs[..k]);
      PatchedFrame(c, ps, ps', code, rs, k - 1);
      StartFrame(c, ps, ps', rs, Names(rs[..k]), rs[k - 1].targetName, |code|);
    }
  }

  /** Linked programs look only at linked programs. */
  lemma LinkedFrame(c: Context, ps: seq<RawProgram>, ps': seq<RawProgram>, linked: set<nat>)
    requires ValidContext(c) && |ps| == |ps'| == |c.original| && ClosedLinked(c, ps, linked)
    requires forall i :: i in linked ==> ps'[i] == ps[i]
    ensures ClosedLinked(c, ps', linked)
  {
    hide Patched, Copies, Names, Callee;
    forall i | i in linked ensures LinkedCode(c, ps', i) {
      var rs := RelocsOf(c.relocs, i);
      assert rs[..|rs|] == rs;
      SameCodeOf(c, ps, ps', linked, i);
      PatchedFrame(c, ps, ps', c.original[i].code, rs, |rs|);
      CopiesFrame(c, ps, ps', rs, Names(rs));
    }
  }

  lemma SameCodeOf(c: Context, ps: seq<RawProgram>, ps': seq<RawProgram>, linked: set<nat>, i: nat)
    requires |ps| == |ps'| && CalleesIn(c, i, linked)
    requires forall j :: j in linked ==> j < |ps| && ps'[j] == ps[j]
    ensures SameCode(c, ps, ps', RelocsOf(c.relocs, i), Names(RelocsOf(c.relocs, i)))
  {
    hide Names, Callee;
  }
}
