/** How much of a section belongs to a program (src/elf_loader.rs:733-850). */
module ProgramSpan {
  import opened Wrappers

  datatype EbpfInst = EbpfInst(opcode: nat, src: nat, offset: int, imm: int)

  const INST_SIZE := 8
  const INST_CLS_JMP := 5
  const INST_CLS_JMP32 := 6
  const INST_JA := 0
  const INST_CALL := 8
  const INST_EXIT := 9
  const INST_OP_LDDW_IMM := 0x18
  const INST_OP_CALL := 0x85
  const INST_CALL_LOCAL := 1

  predicate IsJump(inst: EbpfInst) {
    inst.opcode % 8 == INST_CLS_JMP || inst.opcode % 8 == INST_CLS_JMP32
  }

  function OpOf(inst: EbpfInst): nat {
    inst.opcode / 16 % 16
  }

  function Fallthrough(inst: EbpfInst, pc: nat): nat {
    pc + if inst.opcode == INST_OP_LDDW_IMM then 2 else 1
  }

  /** The successors the span computation follows; some may lie outside the section. */
  function Successors(inst: EbpfInst, pc: nat): set<int> {
    (if inst.opcode == INST_OP_LDDW_IMM then {pc + 1} else {})
    + if !IsJump(inst) then {Fallthrough(inst, pc)}
      else if OpOf(inst) == INST_EXIT then {}
      else if OpOf(inst) == INST_CALL then
        (if inst.opcode == INST_OP_CALL && inst.src == INST_CALL_LOCAL then {pc + 1 + inst.imm} else {}) + {Fallthrough(inst, pc)}
      else {pc + 1 + inst.offset} + if OpOf(inst) != INST_JA then {Fallthrough(inst, pc)} else {}
  }

  /** A path of successors inside the section. */
  ghost predicate IsPath(code: seq<EbpfInst>, p: seq<nat>) {
    && p != []
    && (forall k :: 0 <= k < |p| ==> p[k] < |code|)
    && forall k :: 0 <= k < |p| - 1 ==> p[k + 1] in Successors(code[p[k]], p[k])
  }

  ghost predicate Reaches(code: seq<EbpfInst>, start: nat, pc: nat) {
    exists p :: IsPath(code, p) && p[0] == start && p[|p| - 1] == pc
  }

  lemma ReachesStart(code: seq<EbpfInst>, start: nat)
    requires start < |code|
    ensures Reaches(code, start, start)
  {
    assert IsPath(code, [start]) && [start][0] == start;
  }

  lemma ReachesStep(code: seq<EbpfInst>, start: nat, pc: nat, next: nat)
    requires Reaches(code, start, pc) && pc < |code| && next < |code| && next in Successors(code[pc], pc)
    ensures Reaches(code, start, next)
  {
    hide Successors;
    var p :| IsPath(code, p) && p[0] == start && p[|p| - 1] == pc;
    var q := p + [next];
    assert IsPath(code, q) && q[|q| - 1] == next;
  }

  /** A marked set that holds the start and is closed under successors holds everything reachable. */
  lemma {:induction false} ClosedHolds(code: seq<EbpfInst>, start: nat, seen: seq<bool>, p: seq<nat>)
    requires |seen| == |code| && start < |code| && seen[start]
    requires forall pc: nat, t: nat :: pc < |code| && seen[pc] && t < |code| && t in Successors(code[pc], pc) ==> seen[t]
    requires IsPath(code, p) && p[0] == start
    ensures seen[p[|p| - 1]]
  {
    hide Successors;
    if |p| > 1 {
      var q := p[..|p| - 1];
      assert IsPath(code, q);
      ClosedHolds(code, start, seen, q);
    }
  }

  ghost function Unseen(seen: seq<bool>): set<int> {
    set i | 0 <= i < |seen| && !seen[i]
  }

  /** Marks an instruction inside the section and queues it the first time. */
  method Mark(idx: int, seen: seq<bool>, work: seq<nat>) returns (seen': seq<bool>, work': seq<nat>)
    ensures |seen'| == |seen|
    ensures if 0 <= idx < |seen| && !seen[idx] then seen' == seen[idx := true] && work' == work + [idx] else seen' == seen && work' == work
    ensures seen' != seen ==> |Unseen(seen')| < |Unseen(seen)|
  {
    if idx < 0 || idx >= |seen| || seen[idx] {
      return seen, work;
    }
    seen', work' := seen[idx := true], work + [idx];
    assert Unseen(seen) == Unseen(seen') + {idx};
    assert idx !in Unseen(seen');
  }

  /** Every processed instruction has its successors marked. */
  ghost predicate Processed(code: seq<EbpfInst>, seen: seq<bool>, work: seq<nat>)
    requires |seen| == |code|
  {
    forall pc: nat, t: nat :: pc < |code| && seen[pc] && pc !in work && t < |code| && t in Successors(code[pc], pc) ==> seen[t]
  }

  /** Marked instructions are reachable, queued ones are marked. */
  ghost predicate Sensible(code: seq<EbpfInst>, start: nat, seen: seq<bool>, work: seq<nat>) {
    && |seen| == |code|
    && (forall pc: nat :: pc < |code| && seen[pc] ==> Reaches(code, start, pc))
    && (forall pc :: pc in work ==> pc < |code| && seen[pc])
  }

  ghost predicate Explored(code: seq<EbpfInst>, start: nat, seen: seq<bool>, work: seq<nat>, maxReachable: int, initialEnd: int) {
    && Sensible(code, start, seen, work)
    && start < |code| && seen[start]
    && (forall pc: nat :: pc < |code| && seen[pc] && pc !in work ==> pc <= maxReachable)
    && initialEnd - 1 <= maxReachable && 0 <= maxReachable < |code|
    && (maxReachable == initialEnd - 1 || seen[maxReachable])
  }

  /** Marks have only been added, and what was added is queued. */
  ghost predicate Grown(seen: seq<bool>, work: seq<nat>, seen': seq<bool>, work': seq<nat>) {
    && |seen| == |seen'| && work <= work'
    && (forall i :: 0 <= i < |seen| && seen[i] ==> seen'[i])
    && (forall i :: 0 <= i < |seen| && seen'[i] && !seen[i] ==> i in work')
    && (|Unseen(seen')| < |Unseen(seen)| || (seen' == seen && work' == work))
  }

  lemma GrownTrans(s0: seq<bool>, w0: seq<nat>, s1: seq<bool>, w1: seq<nat>, s2: seq<bool>, w2: seq<nat>)
    requires Grown(s0, w0, s1, w1) && Grown(s1, w1, s2, w2)
    ensures Grown(s0, w0, s2, w2)
  {
    hide Unseen;
    forall i | 0 <= i < |s0| && s2[i] && !s0[i] ensures i in w2 {
      if s1[i] {
        var k :| 0 <= k < |w1| && w1[k] == i;
        assert w2[k] == i;
      }
    }
  }

  /** Marks one successor of a reachable instruction. */
  method MarkSuccessor(code: seq<EbpfInst>, start: nat, pc: nat, target: int, seen: seq<bool>, work: seq<nat>)
    returns (seen': seq<bool>, work': seq<nat>)
    requires pc < |code| && Sensible(code, start, seen, work) && Reaches(code, start, pc) && target in Successors(code[pc], pc)
    ensures Sensible(code, start, seen', work') && Grown(seen, work, seen', work')
    ensures 0 <= target < |code| ==> seen'[target]
  {
    hide Reaches, Unseen, Successors;
    if 0 <= target < |code| {
      ReachesStep(code, start, pc, target);
    }
    seen', work' := Mark(target, seen, work);
    if 0 <= target < |code| && !seen[target] {
      assert work'[|work'| - 1] == target;
    }
  }

  /** Marks all the successors of one instruction, in the order of the source. */
  method MarkSuccessors(code: seq<EbpfInst>, start: nat, pc: nat, seen: seq<bool>, work: seq<nat>)
    returns (seen': seq<bool>, work': seq<nat>)
    requires pc < |code| && Sensible(code, start, seen, work) && Reaches(code, start, pc)
    ensures Sensible(code, start, seen', work') && Grown(seen, work, seen', work')
    ensures forall t: nat :: t < |code| && t in Successors(code[pc], pc) ==> seen'[t]
  {
    hide Reaches, Unseen, Grown;
    var inst := code[pc];
    var isLddw := inst.opcode == INST_OP_LDDW_IMM;
    var fallthrough := Fallthrough(inst, pc);
    seen', work' := seen, work;
    GrownSame(seen, work);
    if isLddw && pc + 1 < |code| {
      seen', work' := MarkSuccessor(code, start, pc, pc + 1, seen', work');
    }
    ghost var seen1, work1 := seen', work';
    if IsJump(inst) {
      var op := OpOf(inst);
      if op == INST_EXIT {
        return;
      }
      if op == INST_CALL {
        if inst.opcode == INST_OP_CALL && inst.src == INST_CALL_LOCAL {
          seen', work' := MarkSuccessor(code, start, pc, pc + 1 + inst.imm, seen', work');
          GrownTrans(seen, work, seen1, work1, seen', work');
        }
        ghost var seen2, work2 := seen', work';
        seen', work' := MarkSuccessor(code, start, pc, fallthrough, seen', work');
        GrownTrans(seen, work, seen2, work2, seen', work');
        GrownKeeps(seen2, work2, seen', work');
        return;
      }
      seen', work' := MarkSuccessor(code, start, pc, pc + 1 + inst.offset, seen', work');
      GrownTrans(seen, work, seen1, work1, seen', work');
      ghost var seen2, work2 := seen', work';
      if op != INST_JA {
        seen', work' := MarkSuccessor(code, start, pc, fallthrough, seen', work');
        GrownTrans(seen, work, seen2, work2, seen', work');
        GrownKeeps(seen2, work2, seen', work');
      }
      return;
    }
    seen', work' := MarkSuccessor(code, start, pc, fallthrough, seen', work');
    GrownTrans(seen, work, seen1, work1, seen', work');
    GrownKeeps(seen1, work1, seen', work');
  }

  lemma GrownSame(seen: seq<bool>, work: seq<nat>)
    ensures Grown(seen, work, seen, work)
  {
    hide Unseen;
  }

  lemma GrownKeeps(seen: seq<bool>, work: seq<nat>, seen': seq<bool>, work': seq<nat>)
    requires Grown(seen, work, seen', work')
    ensures |seen| == |seen'| && forall i :: 0 <= i < |seen| && seen[i] ==> seen'[i]
  {
    hide Unseen;
  }

  /** The number of instructions from `start` that are reachable, or in the initial range: no fewer and no more. */
  ghost predicate SmallestSpan(code: seq<EbpfInst>, start: nat, initialEnd: nat, end: nat) {
    && initialEnd <= end <= |code|
    && (forall pc: nat :: pc < |code| && Reaches(code, start, pc) ==> pc < end)
    && (end == initialEnd || Reaches(code, start, end - 1))
  }

  /**
    The span of a program in bytes. It terminates, covers every reachable instruction at or after the
    start, ends inside the section, and is the smallest span that also covers the initial range.
  */
  method ComputeReachableProgramSpan(code: seq<EbpfInst>, programOffset: nat, initialSize: nat) returns (span: nat)
    ensures var start, end := programOffset / INST_SIZE, (programOffset + initialSize) / INST_SIZE;
      if start >= |code| || end <= start then span == initialSize
      else
        var clamped := if end < |code| then end else |code|;
        span % INST_SIZE == 0 && span / INST_SIZE + start <= |code|
        && SmallestSpan(code, start, clamped, start + span / INST_SIZE)
  {
    hide Reaches, Unseen, Successors, Explored, Processed, Grown, Sensible;
    if code == [] {
      return initialSize;
    }
    var total := |code|;
    var start := programOffset / INST_SIZE;
    var initialEnd := (programOffset + initialSize) / INST_SIZE;
    if start >= total || initialEnd <= start {
      return initialSize;
    }
    initialEnd := if initialEnd < total then initialEnd else total;
    var seen := seq(total, _ => false);
    var work: seq<nat> := [];
    seen, work := Mark(start, seen, work);
    var maxReachable: int := initialEnd - 1;
    ExploredStart(code, start, seen, work, initialEnd);
    while work != []
      invariant |seen| == |code| && Explored(code, start, seen, work, maxReachable, initialEnd) && Processed(code, seen, work)
      decreases |Unseen(seen)|, |work|
    {
      ghost var seen0, work0, max0 := seen, work, maxReachable;
      var pc := work[0];
      work := work[1..];
      HeadFacts(code, start, seen, work0, maxReachable, initialEnd);
      if pc > maxReachable {
        maxReachable := pc;
      }
      ghost var popped := work;
      seen, work := MarkSuccessors(code, start, pc, seen, work);
      if code[pc].opcode == INST_OP_LDDW_IMM && pc + 1 < total {
        if pc + 1 > maxReachable {
          maxReachable := pc + 1;
        }
      }
      ExploredStep(code, start, seen0, work0, max0, seen, work, maxReachable, initialEnd);
      GrownLess(seen0, popped, seen, work);
    }
    var spanEnd := if initialEnd > maxReachable + 1 then initialEnd else maxReachable + 1;
    SpanIsSmallest(code, start, seen, maxReachable, initialEnd);
    span := (spanEnd - start) * INST_SIZE;
  }

  lemma ExploredStart(code: seq<EbpfInst>, start: nat, seen: seq<bool>, work: seq<nat>, initialEnd: int)
    requires start < initialEnd <= |code| == |seen| && work == [start]
    requires forall i :: 0 <= i < |seen| ==> (seen[i] <==> i == start)
    ensures Explored(code, start, seen, work, initialEnd - 1, initialEnd) && Processed(code, seen, work)
  {
    hide Reaches, Successors;
    ReachesStart(code, start);
  }

  lemma HeadFacts(code: seq<EbpfInst>, start: nat, seen: seq<bool>, work: seq<nat>, maxReachable: int, initialEnd: int)
    requires Explored(code, start, seen, work, maxReachable, initialEnd) && work != []
    ensures work[0] < |code| && Reaches(code, start, work[0]) && Sensible(code, start, seen, work[1..])
    ensures 0 <= maxReachable < |code|
  {
    hide Reaches;
    assert work[0] in work;
    assert forall i :: i in work[1..] ==> i in work;
  }

  lemma GrownLess(seen: seq<bool>, work: seq<nat>, seen': seq<bool>, work': seq<nat>)
    requires Grown(seen, work, seen', work')
    ensures |seen| == |seen'|
    ensures |Unseen(seen')| < |Unseen(seen)| || (|Unseen(seen')| == |Unseen(seen)| && |work'| == |work|)
  {
    hide Unseen;
  }

  /** One turn of the worklist. */
  lemma ExploredStep(code: seq<EbpfInst>, start: nat, seen: seq<bool>, work: seq<nat>, max: int,
      seen': seq<bool>, work': seq<nat>, max': int, initialEnd: int)
    requires Explored(code, start, seen, work, max, initialEnd) && |seen| == |code| && Processed(code, seen, work) && work != []
    requires Sensible(code, start, seen', work') && Grown(seen, work[1..], seen', work')
    requires work[0] < |code| && forall t: nat :: t < |code| && t in Successors(code[work[0]], work[0]) ==> seen'[t]
    requires var pc := work[0];
      var top := if pc > max then pc else max;
      max' == if code[pc].opcode == INST_OP_LDDW_IMM && pc + 1 < |code| && pc + 1 > top then pc + 1 else top
    ensures Explored(code, start, seen', work', max', initialEnd) && Processed(code, seen', work')
  {
    hide Reaches, Successors, Unseen;
    var pc := work[0];
    if code[pc].opcode == INST_OP_LDDW_IMM {
      HighSlot(code, pc);
    }
    TailKept(work, work');
    forall i: nat | i < |code| && seen'[i] && i !in work' ensures seen[i] && (i == pc || i !in work) {
    }
  }

  lemma TailKept(work: seq<nat>, work': seq<nat>)
    requires work != [] && work[1..] <= work'
    ensures forall i :: i in work ==> i == work[0] || i in work'
  {
    forall i | i in work ensures i == work[0] || i in work' {
      var k :| 0 <= k < |work| && work[k] == i;
      if k > 0 {
        assert work'[k - 1] == work[1..][k - 1];
      }
    }
  }

  /** When the worklist is empty the span is the smallest one. */
  lemma SpanIsSmallest(code: seq<EbpfInst>, start: nat, seen: seq<bool>, maxReachable: int, initialEnd: int)
    requires |seen| == |code| && Explored(code, start, seen, [], maxReachable, initialEnd) && Processed(code, seen, [])
    requires start < initialEnd <= |code|
    ensures 0 <= maxReachable && initialEnd <= maxReachable + 1 && SmallestSpan(code, start, initialEnd, maxReachable + 1)
  {
    hide Reaches, Successors;
    forall pc: nat | pc < |code| && Reaches(code, start, pc) ensures seen[pc] {
      ReachedIsSeen(code, start, seen, pc);
    }
  }

  lemma HighSlot(code: seq<EbpfInst>, pc: nat)
    requires pc < |code| && code[pc].opcode == INST_OP_LDDW_IMM
    ensures pc + 1 in Successors(code[pc], pc)
  {
  }

  lemma ReachedIsSeen(code: seq<EbpfInst>, start: nat, seen: seq<bool>, pc: nat)
    requires |seen| == |code| && start < |code| && seen[start] && Processed(code, seen, [])
    requires pc < |code| && Reaches(code, start, pc)
    ensures seen[pc]
  {
    hide Successors;
    var p :| IsPath(code, p) && p[0] == start && p[|p| - 1] == pc;
    ClosedHolds(code, start, seen, p);
  }

  // ------------------------------------------------------------------ the instruction set's own successors

  const INST_LAST_JUMP := 13

  /**
    Where control goes by the opcode table (sections 4.3 and 5.4 of RFC 9669). Only the two jump classes
    leave the straight line. An unconditional jump takes its distance from `offset` in the 64-bit class
    and from `imm` in the 32-bit class; calls and exits exist in the 64-bit class alone; codes past the
    last jump go nowhere. A 64-bit load takes two slots.
  */
  function IsaSuccessors(inst: EbpfInst, pc: nat): set<int> {
    var next, op := pc + 1, inst.opcode / 16 % 16;
    match inst.opcode % 8
    case 5 =>
      if op == INST_JA then {next + inst.offset}
      else if op == INST_EXIT || op > INST_LAST_JUMP then {}
      else if op == INST_CALL then if inst.opcode == INST_OP_CALL && inst.src == INST_CALL_LOCAL then {next + inst.imm, next} else {next}
      else {next + inst.offset, next}
    case 6 =>
      if op == INST_JA then {next + inst.imm}
      else if op == INST_EXIT || op == INST_CALL || op > INST_LAST_JUMP then {}
      else {next + inst.offset, next}
    case _ => if inst.opcode == INST_OP_LDDW_IMM then {pc + 2} else {next}
  }

  ghost predicate IsIsaPath(code: seq<EbpfInst>, p: seq<nat>) {
    && p != []
    && (forall k :: 0 <= k < |p| ==> p[k] < |code|)
    && forall k :: 0 <= k < |p| - 1 ==> p[k + 1] in IsaSuccessors(code[p[k]], p[k])
  }

  ghost predicate IsaReaches(code: seq<EbpfInst>, start: nat, pc: nat) {
    exists p :: IsIsaPath(code, p) && p[0] == start && p[|p| - 1] == pc
  }

  /** A jump the span computation misreads: unconditional, of the 32-bit class, with another distance in `offset`. */
  predicate Misread(inst: EbpfInst) {
    inst.opcode % 8 == INST_CLS_JMP32 && OpOf(inst) == INST_JA && inst.imm != inst.offset
  }

  lemma SuccessorsCoverIsa(inst: EbpfInst, pc: nat)
    ensures IsaSuccessors(inst, pc) <= Successors(inst, pc) <==> !Misread(inst)
  {
    if Misread(inst) {
      assert inst.opcode != INST_OP_LDDW_IMM;
      assert Successors(inst, pc) == {pc + 1 + inst.offset};
      assert pc + 1 + inst.imm in IsaSuccessors(inst, pc);
    }
  }

  lemma MisreadGoesTo(inst: EbpfInst, pc: nat)
    requires Misread(inst)
    ensures IsaSuccessors(inst, pc) == {pc + 1 + inst.imm}
  {
  }

  lemma IsaReachesStart(code: seq<EbpfInst>, start: nat)
    requires start < |code|
    ensures IsaReaches(code, start, start)
  {
    assert IsIsaPath(code, [start]) && [start][0] == start;
  }

  lemma IsaReachesJoin(code: seq<EbpfInst>, start: nat, mid: nat, next: nat, pc: nat)
    requires IsaReaches(code, start, mid) && mid < |code| && next in IsaSuccessors(code[mid], mid) && IsaReaches(code, next, pc)
    ensures IsaReaches(code, start, pc)
  {
    hide IsaSuccessors;
    var p :| IsIsaPath(code, p) && p[0] == start && p[|p| - 1] == mid;
    var q :| IsIsaPath(code, q) && q[0] == next && q[|q| - 1] == pc;
    var r := p + q;
    forall k | 0 <= k < |r| - 1 ensures r[k + 1] in IsaSuccessors(code[r[k]], r[k]) {
      if k >= |p| {
        var j := k - |p|;
        assert r[k] == q[j] && r[k + 1] == q[j + 1];
      }
    }
    assert IsIsaPath(code, r) && r[|r| - 1] == pc;
  }

  /** `pc` is in the initial range, or not past some instruction the span computation reaches. */
  ghost predicate WithinSpan(code: seq<EbpfInst>, start: nat, initialEnd: nat, pc: nat) {
    pc < initialEnd || exists q: nat :: q < |code| && pc <= q && Reaches(code, start, q)
  }

  /** That is what the smallest span holds. */
  lemma SpanHolds(code: seq<EbpfInst>, start: nat, initialEnd: nat, end: nat, pc: nat)
    requires SmallestSpan(code, start, initialEnd, end) && start < initialEnd
    ensures pc < end <==> WithinSpan(code, start, initialEnd, pc)
  {
    hide Reaches;
    if initialEnd <= pc < end {
      assert Reaches(code, start, end - 1);
    }
  }

  /** From the real target of the misread jump at `m`, control comes to `pc`. */
  ghost predicate LeadsTo(code: seq<EbpfInst>, m: nat, pc: nat) {
    && m < |code| && Misread(code[m])
    && 0 <= m + 1 + code[m].imm < |code|
    && IsaReaches(code, m + 1 + code[m].imm, pc)
  }

  /**
    When the span covers the program: exactly when everything control comes to from the real target of a
    misread jump, one that control reaches, lies in the initial range or before some instruction that
    the computation does reach.
  */
  lemma SpanCoversProgram(code: seq<EbpfInst>, start: nat, initialEnd: nat, end: nat)
    requires start < initialEnd && SmallestSpan(code, start, initialEnd, end)
    ensures (forall pc: nat :: IsaReaches(code, start, pc) ==> pc < end)
      <==> (forall m: nat, pc: nat :: IsaReaches(code, start, m) && LeadsTo(code, m, pc) ==> WithinSpan(code, start, initialEnd, pc))
  {
    hide Reaches, IsaReaches, SmallestSpan, WithinSpan, IsaSuccessors, Misread;
    if forall pc: nat :: IsaReaches(code, start, pc) ==> pc < end {
      forall m: nat, pc: nat | IsaReaches(code, start, m) && LeadsTo(code, m, pc) ensures WithinSpan(code, start, initialEnd, pc) {
        MisreadGoesTo(code[m], m);
        IsaReachesJoin(code, start, m, m + 1 + code[m].imm, pc);
        SpanHolds(code, start, initialEnd, end, pc);
      }
    }
    if forall m: nat, pc: nat :: IsaReaches(code, start, m) && LeadsTo(code, m, pc) ==> WithinSpan(code, start, initialEnd, pc) {
      forall pc: nat | IsaReaches(code, start, pc) ensures pc < end {
        SpanHolds(code, start, initialEnd, end, pc);
        IsaStep(code, start, initialEnd, end, pc);
      }
    }
  }

  /** What control comes to is reached by the computation, or comes after a misread jump. */
  lemma IsaStep(code: seq<EbpfInst>, start: nat, initialEnd: nat, end: nat, pc: nat)
    requires SmallestSpan(code, start, initialEnd, end) && IsaReaches(code, start, pc)
    ensures pc < end || exists m: nat :: IsaReaches(code, start, m) && LeadsTo(code, m, pc)
  {
    hide Reaches, IsaSuccessors, Misread;
    var p :| IsIsaPath(code, p) && p[0] == start && p[|p| - 1] == pc;
    FirstMisread(code, start, p);
  }

  lemma {:induction false} FirstMisread(code: seq<EbpfInst>, start: nat, p: seq<nat>)
    requires IsIsaPath(code, p) && p[0] == start
    ensures Reaches(code, start, p[|p| - 1]) || exists m: nat :: IsaReaches(code, start, m) && LeadsTo(code, m, p[|p| - 1])
  {
    hide Reaches, IsaReaches, IsaSuccessors, Successors, Misread;
    var last := p[|p| - 1];
    if |p| == 1 {
      ReachesStart(code, start);
    } else {
      var q := p[..|p| - 1];
      var prev := q[|q| - 1];
      assert last in IsaSuccessors(code[prev], prev);
      FirstMisread(code, start, q);
      IsaReachesStart(code, last);
      if Misread(code[prev]) {
        MisreadGoesTo(code[prev], prev);
        PathReaches(code, q);
        assert LeadsTo(code, prev, last);
      } else if Reaches(code, start, prev) {
        SuccessorsCoverIsa(code[prev], prev);
        ReachesStep(code, start, prev, last);
      } else {
        var m: nat :| IsaReaches(code, start, m) && LeadsTo(code, m, prev);
        IsaReachesJoin(code, m + 1 + code[m].imm, prev, last, last);
        assert LeadsTo(code, m, last);
      }
    }
  }

  lemma PathReaches(code: seq<EbpfInst>, p: seq<nat>)
    requires IsIsaPath(code, p)
    ensures IsaReaches(code, p[0], p[|p| - 1])
  {
  }

  /** Without a misread jump on the way everything is covered, whatever the initial range. */
  lemma SpanCoversPlainProgram(code: seq<EbpfInst>, start: nat, initialEnd: nat, end: nat)
    requires start < initialEnd && SmallestSpan(code, start, initialEnd, end)
    requires forall m: nat :: m < |code| && IsaReaches(code, start, m) ==> !Misread(code[m])
    ensures forall pc: nat :: IsaReaches(code, start, pc) ==> pc < end
  {
    hide Reaches, IsaReaches, SmallestSpan, WithinSpan, Misread;
    SpanCoversProgram(code, start, initialEnd, end);
  }

  // ------------------------------------------------------------------ nothing more than that

  /** A code of a jump class to which the opcode table gives no instruction that goes on. */
  predicate Unassigned(inst: EbpfInst) {
    IsJump(inst) && (OpOf(inst) > INST_LAST_JUMP || (inst.opcode % 8 == INST_CLS_JMP32 && OpOf(inst) == INST_CALL))
  }

  /** What the span computation follows is what the opcode table says, but for the places named. */
  lemma SuccessorsWithinIsa(inst: EbpfInst, pc: nat, t: int)
    requires t in Successors(inst, pc)
    ensures t in IsaSuccessors(inst, pc)
      || (inst.opcode == INST_OP_LDDW_IMM && t == pc + 1)
      || (Misread(inst) && t == pc + 1 + inst.offset)
      || Unassigned(inst)
  {
  }

  lemma HighSlotGoesOn(code: seq<EbpfInst>, pc: nat, t: int)
    requires 0 < pc < |code| && code[pc - 1].opcode == INST_OP_LDDW_IMM && code[pc].opcode == 0 && t in Successors(code[pc], pc)
    ensures t in IsaSuccessors(code[pc - 1], pc - 1)
  {
  }

  /** Instructions the computation and the opcode table read alike; a 64-bit load is followed by a slot of opcode zero. */
  ghost predicate Regular(code: seq<EbpfInst>, m: nat) {
    m < |code| && !Misread(code[m]) && !Unassigned(code[m])
    && (code[m].opcode == INST_OP_LDDW_IMM && m + 1 < |code| ==> code[m + 1].opcode == 0)
  }

  /** Reached by control, or the second slot of a load that is. */
  ghost predicate Occupied(code: seq<EbpfInst>, start: nat, pc: nat) {
    || IsaReaches(code, start, pc)
    || (0 < pc < |code| && code[pc - 1].opcode == INST_OP_LDDW_IMM && IsaReaches(code, start, pc - 1))
  }

  lemma IsaReachesStep(code: seq<EbpfInst>, start: nat, mid: nat, next: nat)
    requires IsaReaches(code, start, mid) && mid < |code| && next < |code| && next in IsaSuccessors(code[mid], mid)
    ensures IsaReaches(code, start, next)
  {
    hide IsaReaches, IsaSuccessors;
    IsaReachesStart(code, next);
    IsaReachesJoin(code, start, mid, next, next);
  }

  lemma {:induction false} PathOccupied(code: seq<EbpfInst>, start: nat, p: seq<nat>)
    requires IsPath(code, p) && p[0] == start
    requires forall m: nat :: IsaReaches(code, start, m) ==> Regular(code, m)
    ensures Occupied(code, start, p[|p| - 1])
  {
    hide IsaReaches, IsaSuccessors, Successors, Misread, Unassigned;
    if |p| == 1 {
      IsaReachesStart(code, start);
    } else {
      var q := p[..|p| - 1];
      var prev, last := q[|q| - 1], p[|p| - 1];
      assert last in Successors(code[prev], prev);
      PathOccupied(code, start, q);
      if IsaReaches(code, start, prev) {
        SuccessorsWithinIsa(code[prev], prev, last);
        if last in IsaSuccessors(code[prev], prev) {
          IsaReachesStep(code, start, prev, last);
        }
      } else {
        HighSlotGoesOn(code, prev, last);
        IsaReachesStep(code, start, prev - 1, last);
      }
    }
  }

  /**
    The span holds nothing more than it has to: where everything control reaches is regular, it ends with the
    initial range, with an instruction control reaches, or with the second slot of a load that control reaches.
  */
  lemma SpanHoldsNoMore(code: seq<EbpfInst>, start: nat, initialEnd: nat, end: nat)
    requires start < initialEnd && SmallestSpan(code, start, initialEnd, end)
    requires forall m: nat :: IsaReaches(code, start, m) ==> Regular(code, m)
    ensures end == initialEnd || Occupied(code, start, end - 1)
  {
    hide IsaReaches, Successors, Regular;
    if end != initialEnd {
      var p :| IsPath(code, p) && p[0] == start && p[|p| - 1] == end - 1;
      PathOccupied(code, start, p);
    }
  }

  /** Three instructions, a long jump over one exit to another; the initial range is the jump alone. */
  lemma LongJumpIsMissed()
    ensures var code := [EbpfInst(6, 0, 0, 1), EbpfInst(0x95, 0, 0, 0), EbpfInst(0x95, 0, 0, 0)];
      IsaReaches(code, 0, 2) && forall end: nat :: SmallestSpan(code, 0, 1, end) ==> end == 2
  {
    var code := [EbpfInst(6, 0, 0, 1), EbpfInst(0x95, 0, 0, 0), EbpfInst(0x95, 0, 0, 0)];
    assert IsIsaPath(code, [0, 2]) && [0, 2][0] == 0 && [0, 2][1] == 2;
    assert Successors(code[0], 0) == {1} && Successors(code[1], 1) == {};
    var seen := [true, true, false];
    assert Processed(code, seen, []);
    ReachesStart(code, 0);
    ReachesStep(code, 0, 0, 1);
    if Reaches(code, 0, 2) {
      ReachedIsSeen(code, 0, seen, 2);
    }
  }

  /** A misread jump need not lose its target: here the offset leads past it. */
  lemma LongJumpMayBeCovered()
    ensures var code := [EbpfInst(6, 0, 1, 0), EbpfInst(0x95, 0, 0, 0), EbpfInst(0x95, 0, 0, 0)];
      Misread(code[0]) && forall pc: nat, end: nat :: IsaReaches(code, 0, pc) && SmallestSpan(code, 0, 1, end) ==> pc < end
  {
    hide IsaReaches;
    var code := [EbpfInst(6, 0, 1, 0), EbpfInst(0x95, 0, 0, 0), EbpfInst(0x95, 0, 0, 0)];
    assert 2 in Successors(code[0], 0);
    ReachesStart(code, 0);
    ReachesStep(code, 0, 0, 2);
    forall pc: nat, end: nat | IsaReaches(code, 0, pc) && SmallestSpan(code, 0, 1, end) ensures pc < end {
      InSection(code, 0, pc);
    }
  }

  lemma InSection(code: seq<EbpfInst>, start: nat, pc: nat)
    requires IsaReaches(code, start, pc)
    ensures pc < |code|
  {
  }

  // ------------------------------------------------------------------ names and sizes from symbols

  /**
    The name of the function symbol at the start, or of the section; the size up to the nearest
    following symbol, or to the end of the section.
  */
  method GetProgramNameAndSize(secName: string, secSize: nat, start: nat, symbols: map<nat, string>) returns (name: string, size: nat)
    requires start < secSize
    ensures name == if start in symbols then symbols[start] else secName
    ensures 0 < size <= secSize - start
    ensures forall s :: s in symbols ==> !(start < s < start + size)
    ensures start + size == secSize || start + size in symbols
  {
    name := if start in symbols then symbols[start] else secName;
    size := secSize - start;
    var offset := start + 1;
    while offset < start + size
      invariant start < offset <= start + size && size == secSize - start
      invariant forall s :: s in symbols ==> !(start < s < offset)
      decreases start + size - offset
    {
      if offset in symbols {
        size := offset - start;
        return;
      }
      offset := offset + 1;
    }
  }
}
