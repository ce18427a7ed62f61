# An eBPF verifier, modelled

The repository is an abstract interpreter for eBPF programs: it orders the control-flow graph, iterates an
abstract domain over it, and reports assertions it cannot prove. This project models six of its algorithms
in Dafny, each in the form its source has (classes and loops where the source mutates, functions where it
computes), and proves what they are for.

Labels may be visited in any order where the source iterates an ordered set, so every theorem about such a
loop covers the source's order too. Machine integers are written out (`Pow2`, sign and zero extension, byte
reads and writes) wherever width matters; indices and counters are unbounded.

| part | modules | main theorem |
|---|---|---|
| control-flow graph | `Graph` | children and parents mirror each other through every edit |
| weak topological order | `WtoControl`, `WtoStartVisit`, `WtoPlace`, `WtoLayout`, `WtoOrder`, `WtoFlat`, `WtoInvariant`, `WtoBuilder`, `WtoTree`, `Wto`, `WtoShape`, `WtoQuery`, `WtoSiblings` | `Wto.Build` |
| fixpoint iterator | `FwdDomain`, `FwdCover`, `FwdOrder`, `FwdRounds`, `FwdRuns`, `FwdAnalyzer`, `FwdSoundness` | `FwdSoundness.Run` |
| finite-width arithmetic | `Numbers`, `Intervals`, `Constraints`, `Words`, `Assume`, `AssumeSoundness`, `AssumeExactness`, `Shifts`, `FiniteDomain` | `AssumeSoundness.AssumeCstRegSound`, `AssumeExactness.AssumeCstRegExact`, `FiniteDomain.FiniteDomain.Shl` |
| stack cells | `StackMemory`, `OffsetMaps`, `StackSimulation`, `StackBytes`, `StackPrecision`, `Bitset`, `ArrayDomain`, `StackStore` | `StackStore.DoStoreStack` |
| linker and program span | `LinkSpec`, `Linker`, `ProgramSpan` | `Linker.Linker.ResolveSubprogramsFor`, `LinkSpec.CallsLand`, `LinkSpec.CallsLandOnTargets`, `ProgramSpan.ComputeReachableProgramSpan` |
| backward slicer | `SliceSpec`, `SliceCarried`, `Slicer`, `SliceMeaning`, `SliceWidths` | `Slicer.ComputeSliceFromLabel`, `SliceCarried.OnSliceExactly`, `SliceMeaning.ExplainsExactly` |
| union-find | `Dsu` | `Dsu.DisjointSetUnion.Union` |

How the proofs go:

- **Weak topological order** (Bourdoncle 1993, section 3.1). The builder carries ghost frames that read its
  visit stack as a depth-first search; one invariant ties frames, Tarjan numbers, partitions and the order
  placed so far, and each kind of visit is shown to keep it, with stale entries and second visits included.
- **Fixpoint iterator.** The domain is a record of operations with laws. Soundness needs no monotonicity:
  a *cover*, a set of concrete states per label that no step leaves, is kept through joins, widening and
  narrowing. What is computed is pinned by runs: each cycle is run as a chain of ascending rounds from the first
  guess and a non-empty chain of descending rounds (`FwdRuns.IsCycleRun`), every head ends with what such a run left
  and every other label with the transfer of the join of its parents (`Solved`), and an analysis fails only on an
  error that was reported. With order laws (`FwdOrder.Ordered`) the result is also a post-fixpoint. There the widening inside
  an inner cycle may return more for less. The descending rounds are kept on record; a head is *loose* exactly if
  a recorded round of a cycle with inner cycles gave it back more than it had been given (`FwdRounds.Blamed`), and
  it owes that to a round that raised a post-invariant. Every other reachable label is settled, and all are if no
  round raised one.
- **Finite width.** The zone domain is a record of operations with soundness laws; a word has a signed and an
  unsigned view, and every emitted constraint is evaluated on the views. Branches follow sections 4.1 and
  4.3 of RFC 9669.
- **Stack cells.** A numeric scalar per (kind, cell) must equal the bytes it names (`Simulates`), and the scalar
  of a pointer attribute what was stored with the pointer; a scalar of a cell that is not live must be
  unconstrained. In a domain that keeps constants (`StackPrecision.Precise`) a store at a constant address leaves its
  own value known, aligned numbers beside it stay known, and of a known number that it overlaps the remaining parts
  do. Stored 8-byte svalues are two's complement, narrower svalues zero-extended bytes, as loads
  read them.
- **Linker.** The linked code is a function of the relocations of a program (`LinkedCode`), and those are tied to the
  relocations as given (`RelocsOfPicks`); where each one lands is then stated over the given list (`RelocsLand`).
- **Program span.** The successors followed are compared with those of the instruction set in both directions
  (`SuccessorsCoverIsa`, `SuccessorsWithinIsa`).
- **Slicer.** The slice is defined by paths alone (`Traced`, `OnSlice`), and once more by reads and kills on them
  (`SliceCarried.OnSliceExactly`); the worklist is shown to compute it.

`Instances` shows that the laws asked of the domains can be met.

## Findings

Each is a place where the code does less than one might expect, with an input and the exact condition.

- **Long jumps.** The span follows `offset` for every jump, but the 32-bit-class unconditional jump takes its
  distance from the immediate (section 4.3 of RFC 9669). The span holds all that control reaches if and only if
  everything control comes to from the real target of a misread jump lies in the initial range or before an
  instruction the computation reaches (`ProgramSpan.SpanCoversProgram`); without misread jumps it always does.
  `LongJumpIsMissed` loses its target, `LongJumpMayBeCovered` does not.
- **Callees of one name.** A callee's copy is keyed by its name, so two functions of one name in two sections share
  the first copy (`LinkSpec.SameNameIsShared`). Calls get their own targets if and only if relocations of one
  name have one target (`CalleesAreTargets`), and then every call lands on its own target (`CallsLandOnTargets`).
- **Access widths.** Recorded dependencies hold the first offset of a stack access and no width, so a wide store and
  a read of part of it at another offset are not connected (`SliceWidths.WideStoreIsMissed`). A store is on the
  slice if and only if its recorded offset is carried to it along some path (`StoreOnSlice`, `StoreOfBytes`).
- **Clobbered registers.** A relevant register that a call clobbers is dropped without the call counting as a
  contributor (`SliceMeaning.ClobberIsNotSliced`, and `IdlePassesAll` for one label). A slice explains a path, that
  is, sliced and full runs agree on all that is relevant after each label, if and only if no label of the path
  clobbers, without writing it, a register that matters after it (`ExplainsExactly`).
- **Shifts by zero.** `shl` cuts the two ends of the operand to 32 bits each by itself. That loses words only in a
  32-bit shift by zero (`Shifts.ShlNeedsMask`), and the bounds are right exactly under `ShlFits`
  (`ShlIntervalExact`). No program gets there: both callers mask a 32-bit operand first
  (src/crab/ebpf_transformer.rs:1907-1913 and 2418-2425), and a masked operand fits (`FiniteDomain.MaskedFits`).
- **Siblings.** The first guess for a cycle head leaves out a predecessor if and only if a cycle strictly around it
  stands beside the head: the head's own, or a sibling (`WtoSiblings.LeftOutIsBeside`, `SiblingIsLeftOut`).
  Soundness loses nothing, because every ascending iteration joins all predecessors. But a head that has all its
  predecessors left out starts at bottom (`JoinOutside`) and spends on it the one iteration whose result is joined
  and not widened, so it is widened one iteration of its body earlier than a head entered from outside.
- **Weak `havoc_type`.** With a range of offsets it leaves the numeric bits alone. When something else than numbers
  is then written, that is right if and only if every byte written was already marked
  (`ArrayDomain.HavockedWrite`, `WeakHavocForgets`); `DoStoreStack` carries the condition for an uninitialised
  register stored at an unknown place.
- **Cells past the end.** `insert_cell` ignores an offset at or beyond the stack size, so assigning the scalar of such a
  cell leaves a constrained scalar without a cell (`Instances.CellPastTheEnd`). The simulation survives if and
  only if the offset lies below the stack size (`StackSimulation.AssignNeedsLiveCell`), which the access check
  guarantees for constant addresses.
- **32-bit equality.** The constraints bound the 64-bit value and mean the equality if and only if at most one value
  is left between the bounds (`AssumeExactness.Signed32EqExact`); `Signed32EqGap` gives a word that satisfies them
  and takes the other branch when more are left.

## Model

| member | source | states |
|---|---|---|
| Graph.Cfg.AddChild | src/cfg/graph.rs:142-146 | the edge relation gains exactly (a, b); children and parents stay two views of one relation, and every neighbour stays a node |
| Graph.Cfg.RemoveChild | src/cfg/graph.rs:150-153 | the edge relation loses exactly (a, b), under the same invariant |
| Graph.Cfg.InsertAfter | src/cfg/graph.rs:156-171 | the new node takes over every child of `prev`, `prev` keeps only the new node (and only if it had a child), no other edge changes, and the two views still mirror each other |
| Graph.DetachedEdges | src/cfg/graph.rs:158-163 | cutting a node off all its children removes its outgoing edges and nothing else, in both views |
| Graph.ReachableIsLeast | src/cfg/graph.rs:64-71 | reachability along children is the least set that holds the entry and is closed under edges |
| WtoBuilder.Builder.PushSuccessors | src/cfg/wto.rs:394-417 | a task for a vertex already numbered changes nothing; otherwise the vertex gets the next number, goes on the stack, and exactly its unnumbered successors are queued above its own visit; the whole-run invariant holds again |
| WtoBuilder.Builder.StartVisit | src/cfg/wto.rs:419-490 | the exact new state in each of the three outcomes (wait on the stack; placed alone; head of a new cycle with the popped vertices reset and queued again), the whole-run invariant, and a strictly smaller set of unfinished vertices whenever something is placed or opened |
| WtoBuilder.Builder.ContinueVisit | src/cfg/wto.rs:492-511 | the finished cycle is put into its parent partition with its head last, and the whole-run invariant holds again |
| WtoInvariant.SkipKeeps | src/cfg/wto.rs:400-404 | a stale task for a vertex visited in the meantime may be dropped: every part of the invariant survives |
| WtoInvariant.VisitKeeps | src/cfg/wto.rs:405-416 | numbering an unvisited vertex keeps the control-stack, layout, ordering and counting invariants |
| WtoInvariant.CloseKeeps | src/cfg/wto.rs:427-441 | a vertex whose low number is smaller than its own waits on the stack and hands that number down: the invariant survives the merge of the two visits |
| WtoInvariant.PlaceKeeps | src/cfg/wto.rs:443-484 | a vertex that is its own head without a loop is placed: all its successors are already placed, so no edge is lost |
| WtoInvariant.OpenKeeps | src/cfg/wto.rs:443-480 | opening a cycle resets the popped vertices for a second visit, and every part of the invariant, the ordering of what is placed included, survives |
| WtoInvariant.FinishKeeps | src/cfg/wto.rs:492-511 | when the visits queued above a head run out, every vertex of its region has been placed inside the cycle, so the head may be placed last |
| WtoStartVisit.CloseKeepsControl | src/cfg/wto.rs:427-441 | after a vertex is closed with a smaller low number, every low number on the stack is still reached by a path and still bounds all offers |
| WtoPlace.HeadIsSelfContained | src/cfg/wto.rs:443-446 | a vertex whose low number is its own has no edge from its segment to an older vertex on the stack |
| WtoPlace.NoLoopIsAlone | src/cfg/wto.rs:443-446 | if no successor offered a number, the segment is the single vertex and all its successors are done |
| WtoPlace.SegmentStronglyConnected | src/cfg/wto.rs:446-453 | every vertex popped for a new cycle is reached from the head and reaches it again, inside the segment |
| WtoOrder.PlaceKeepsOrdered | src/cfg/wto.rs:481-487 | placing a vertex whose successors are all done keeps: every edge goes forward or to the head of a cycle around its source |
| WtoOrder.RestPlaced | src/cfg/wto.rs:492-511 | when a cycle is closed, each vertex that was reset for it has been placed again |
| WtoTree.FinalAscending | src/cfg/wto.rs:514-530 | every nested cycle has a larger index than the cycle it stands in, so building from the highest index down never reads an unbuilt cycle |
| WtoTree.FlattenTree | src/cfg/wto.rs:514-572 | turning the partitions into the tree keeps every label, in the same order |
| WtoTree.ForwardIsReverse | src/cfg/wto.rs:64-70 | iterating forward over the tree yields the storage order backwards, at every depth |
| Wto.HeadOf | src/cfg/wto.rs:192-202 | the head of the innermost cycle around a label, the cycle the label itself heads left out; none exactly if there is no such cycle |
| Wto.CollectHeads | src/cfg/wto.rs:206-215 | the heads from the innermost enclosing cycle outwards |
| Wto.NestingFinal | src/cfg/wto.rs:192-219 | the chain followed through the containing-cycle table equals the heads of the cycles of the tree that strictly enclose the label, innermost first |
| Wto.IsSupersetOf | src/cfg/wto.rs:141-154 | true exactly when one chain has more heads than the other and ends with all of them |
| Wto.FinalConnected | src/cfg/wto.rs:443-480 | every cycle of the result is strongly connected inside itself |
| Wto.FinalOrder | src/cfg/wto.rs:313-364 | what the finished loop leaves is a weak topological order of everything reachable from the entry |
| Wto.Finalize | src/cfg/wto.rs:514-572 | the tree, the arena, the parent links and the nesting table describe the same cycles; each label's nesting is its chain of enclosing heads |
| Wto.Step | src/cfg/wto.rs:327-356 | every task keeps the invariant and lowers a termination measure, re-visits included |
| Wto.Build | src/cfg/wto.rs:313-364 | terminates on every graph; the result holds each reachable label exactly once and no other, the entry first; for every edge u to v either u comes strictly before v and v heads no cycle around u, or v heads a cycle around u; all cycles are strongly connected; nestings are right; and at most n(n+1) numbers are handed out |
| WtoShape.OrderIsWalkable | src/cfg/wto.rs:64-70 | a weak topological order can be walked level by level: components are disjoint, and no edge leads back except to the head |
| WtoShape.EntryComesFirst | src/cfg/wto.rs:313-364 | the entry is the first component at top level, and it is a plain vertex |
| WtoQuery.IsComponentMember | src/cfg/wto.rs:97-117 | the worklist answers exactly whether the label occurs in the component, at any depth |
| WtoQuery.VisitLoopHeads | src/cfg/wto.rs:73-93 | visits each cycle's head once per cycle, at every depth |
| WtoQuery.LoopHeadsOccur | src/cfg/wto.rs:224-227 | the visited heads are exactly the heads of the cycles that occur in the ordering |
| FwdDomain.TransformedPasses | src/fwd_analyzer.rs:172-207 | if neither the assertion check nor the transformer reports an error, every state of the pre-invariant passes the label's assertions and every step ends in the post-invariant |
| FwdDomain.FirstErrorIsFirst | src/fwd_analyzer.rs:184-191 | the error of a label is that of the first assertion that has one |
| FwdDomain.FirstErrorStays | src/fwd_analyzer.rs:178-200 | however often a label is looked at later and with whatever pre-invariant, its first error and the post-invariant it had then stay; only loop counters are looked at again |
| FwdAnalyzer.FwdFixpointIterator.TransformToPost | src/fwd_analyzer.rs:172-207 | the exact new state: first failing assertion wins, an error leaves the post-invariant alone, a label already failed is not looked at again unless it is a loop counter |
| FwdAnalyzer.FwdFixpointIterator.JoinAllPrevs | src/fwd_analyzer.rs:211-224 | covers every state the parents hand on; on a lattice it is the least value above all their post-invariants; the entry keeps what it was given |
| FwdAnalyzer.FwdFixpointIterator.JoinOutside | src/fwd_analyzer.rs:368-381 | covers what comes in from every predecessor whose nesting does not strictly extend the head's; on a lattice it is the least value above exactly their post-invariants, so a predecessor left out adds nothing, and a head that has all of them left out starts at bottom |
| WtoSiblings.LeftOutIsBeside | src/fwd_analyzer.rs:368-381 | in an ordering the builder makes, a predecessor is left out exactly when some cycle strictly around it stands beside the head, with the same cycles around it: the head's own cycle or a sibling |
| WtoSiblings.SiblingIsLeftOut | src/fwd_analyzer.rs:368-381 | two loops in a row: the only way into the second loop comes from a member of the first, and the first guess for the second head leaves it out |
| FwdAnalyzer.FwdFixpointIterator.ProcessNode | src/fwd_analyzer.rs:332-344 | afterwards the vertex covers all concrete states handed to it; it is tight: its pre-invariant is the join of its parents, on a lattice the least value above them, and its post-invariant the transfer of just that; on a lattice an already settled vertex only shrinks; the run fails exactly if it had failed or the vertex does |
| FwdAnalyzer.FwdFixpointIterator.VisitCycleBody | src/fwd_analyzer.rs:314-321 | visits every component but the head; the whole body is covered and settled, and without inner cycles it only shrinks |
| FwdAnalyzer.FwdFixpointIterator.Ascend | src/fwd_analyzer.rs:389-404 | terminates under the widening measure with a non-empty chain of rounds, each given what the one before calls for, the last the only one to return no more than it was given (`Ascent`); the head then holds what came back, and the cycle is covered and settled |
| FwdAnalyzer.FwdFixpointIterator.AscendRound | src/fwd_analyzer.rs:389-402 | one ascending round, exactly: the head is given the value and transformed, the body visited, and what comes back is the join of all predecessors, on a lattice the least value above them |
| FwdAnalyzer.FwdFixpointIterator.AscendOnce | src/fwd_analyzer.rs:389-404 | a turn of the loop stops exactly if no more came back than was given; else the head is given their join or widening next |
| FwdRuns.AscentSchedule | src/fwd_analyzer.rs:389-404 | what an ascent gives to the head: the first guess, then once the join of that with what came back, on a lattice the least value above both, then widenings, the first with thresholds; the last round is the only one that returned no more than it was given |
| FwdAnalyzer.FwdFixpointIterator.DescendRound | src/fwd_analyzer.rs:406-412 | one descending round keeps a cover of all concrete states without any monotonicity, goes on record with the invariants before and after it and what came back, and on a lattice leaves the cycle settled; the head becomes loose only if it got back more than it was given |
| FwdAnalyzer.FwdFixpointIterator.DescendOnce | src/fwd_analyzer.rs:406-431 | the exact outcome of a turn of the loop: it stops when nothing can be refined, the count is used up or the refined value is no progress, and the head ends with the refined value or with what it had |
| FwdAnalyzer.FwdFixpointIterator.Descend | src/fwd_analyzer.rs:406-432 | descending iterations end after a non-empty chain of rounds (`Descent`), all of them on record: the first starts from what the ascent left, each next one from the refined value, the last leaves what the head ends with; the cycle is covered and, on a lattice, settled |
| FwdRuns.DescentIsFresh | src/fwd_analyzer.rs:406-432 | after a descent without error the head's post-invariant is the transfer of something within its pre-invariant, so a descending round has recomputed it |
| FwdRuns.DescentIsBelow | src/fwd_analyzer.rs:406-432 | where the meet is a lower bound of both arguments and narrowing one of the first, what is left at the head is within what the first descending round returned and within what the ascent left |
| FwdRuns.DescentSchedule | src/fwd_analyzer.rs:406-431 | a next round is given the meet after the first round and the narrowing after the others, and only if less came back than was given and refining made progress |
| FwdRuns.DescentEnds | src/fwd_analyzer.rs:415-431 | a descent ends only because no less came back than was given, refining makes no progress, or two million turns are used up |
| FwdAnalyzer.FwdFixpointIterator.RunCycle | src/fwd_analyzer.rs:383-432 | one run of a cycle is its ascent followed by its descent from the state the ascent left |
| FwdRounds.GrownRound | src/fwd_analyzer.rs:409-417 | a round that gives a head that was not loose back more than it was given has raised some post-invariant |
| FwdRounds.RoundRecorded | src/fwd_analyzer.rs:409-417 | recording a round keeps the loose heads exactly those that a recorded round loosened, each on account of a round that raised a post-invariant |
| FwdRounds.LooseHeads | src/fwd_analyzer.rs:406-432 | only heads of cycles with inner cycles are loose, and on a lattice none is if no recorded round has raised a post-invariant |
| FwdAnalyzer.FwdFixpointIterator.ProcessCycle | src/fwd_analyzer.rs:350-432 | a cycle is skipped exactly while the entry has not been met outside it; otherwise it is run: the ascent starts from the first guess, the least value above the predecessors that are not left out (from the entry invariant if the entry is inside), and the descent from where the ascent ended; afterwards every vertex inside is tight, every cycle inside has been run, and all is covered and settled |
| FwdRuns.VisitedMeans | src/fwd_analyzer.rs:314-432 | after a visit without error each label's post-invariant is the transfer of something within its pre-invariant, and that of a label that heads no cycle the transfer of exactly its pre-invariant |
| FwdRuns.RanIsBelow | src/fwd_analyzer.rs:406-432 | a head that a run of its cycle left holds something within what a recorded descending round of that run returned |
| FwdCover.CoverUnion | src/fwd_analyzer.rs:314-329 | two covered regions, the second reached only forward from the first, form a covered region |
| FwdCover.CoverCycle | src/fwd_analyzer.rs:397-402 | a covered body and a head whose returns lie within its invariant form a covered cycle |
| FwdCover.CoverPass | src/fwd_analyzer.rs:409-412 | after another pass over head and body, the states common to the old and the new cover are still a cover |
| FwdCover.CoverRefine | src/fwd_analyzer.rs:419-426 | a refined head invariant that keeps the gathered states keeps the cover |
| FwdCover.RunStays | src/fwd_analyzer.rs:439-489 | a concrete run from an entry state never leaves a cover closed under edges |
| FwdOrder.NodeImproves | src/fwd_analyzer.rs:332-344 | a vertex recomputed from its parents is settled; if it was settled before, its post-invariant has not grown |
| FwdOrder.ImprovesJoin | src/fwd_analyzer.rs:314-321 | visiting one region after another, with no edge back, settles both, and shrinking composes |
| FwdOrder.RoundPoised | src/fwd_analyzer.rs:409-417 | a descending round over a cycle without inner cycles returns no more to the head than it was given; with inner cycles the head stays settled exactly as long as a round does not |
| FwdOrder.SteadyRound | src/fwd_analyzer.rs:409-417 | a round in which no post-invariant grows gives the head back no more than it was given, inner cycles or not |
| FwdOrder.RefinePoised | src/fwd_analyzer.rs:419-426 | meeting or narrowing the head's invariant keeps it above what comes back and keeps its post-invariant above its transfer |
| FwdSoundness.FindTerminationErrors | src/fwd_analyzer.rs:251-271 | fails exactly if the run had failed or a loop counter with a pre-invariant that is not bottom misses its bound; each new error is that missed bound, and nothing but errors changes |
| FwdSoundness.InitializeCounters | src/fwd_analyzer.rs:450-458 | the entry invariant is the given one with the counter of each given loop set to zero once, and covers every entry state with those counters at zero |
| FwdSoundness.VisitAll | src/fwd_analyzer.rs:463-475 | walking the ordering from the entry covers, and on a lattice settles, everything visited |
| FwdSoundness.VisitedIsSolved | src/fwd_analyzer.rs:463-475 | once the whole ordering is visited without error: each reachable label's post-invariant is the transfer of something within its pre-invariant, a label that heads no cycle is tight, and the head of every cycle holds what a run of that cycle, ascent and descent, ended with |
| FwdSoundness.ErrorsStayExplained | src/fwd_analyzer.rs:477-489 | every error is one that the checker or the transformer reported of some pre-invariant, or the missed bound of a loop counter |
| FwdSoundness.SettledIsPostFixpoint | src/fwd_analyzer.rs:314-432 | a settled region closed under edges is a post-fixpoint at every reachable label, with the same labels set apart |
| FwdSoundness.Run | src/fwd_analyzer.rs:439-489 | the analysis terminates with the builder's ordering; it reports failure exactly if an error is recorded, and every error was reported by the checker, the transformer or as a missed bound; if it reports none, then on every concrete run from an entry state each state lies in its pre-invariant, passes every assertion (loop bounds too when termination is checked) and steps into the post-invariant; every label that heads no cycle is tight and every head holds what a run of its cycle ended with (`Solved`), descending rounds included; and on a lattice with monotone transfer the result is a post-fixpoint at every reachable label but the loose heads; these are exactly the heads of cycles with inner cycles that a recorded descending round gave back more than they had been given, each on account of a round that raised a post-invariant, so if no round did, every reachable label is included |
| Numbers.CastToSignedWidth | src/arith/number.rs:73-94 | the cast through machine integers is sign extension, for every number that fits the cast |
| Numbers.CastToUnsignedWidth | src/arith/number.rs:96-116 | the cast through machine integers is zero extension |
| Numbers.SignExtendMod | src/arith/number.rs:44-60 | sign extension keeps the residue, so different extensions of one word agree on its low bits |
| Intervals.TruncateToSigned | src/crab/interval.rs:650-666 | the result holds the signed reading of every member and stays in the signed range |
| Intervals.TruncateToUnsigned | src/crab/interval.rs:667-683 | the result holds the unsigned reading of every member and stays in the unsigned range |
| Intervals.SignedViewIsLeast | src/crab/interval.rs:650-666 | no smaller interval holds the signed reading of every member |
| Intervals.UnsignedViewIsLeast | src/crab/interval.rs:667-683 | no smaller interval holds the unsigned reading of every member |
| Words.WordViews | src/arith/number.rs:44-71 | the signed and unsigned 32- and 64-bit readings of a word are the extensions of either view of it |
| Words.AndMod | src/crab/finite_domain.rs:87-117 | the bitwise conjunction of two words depends, in its low bits, only on their low bits |
| AssumeSoundness.SignedSplitSound | src/crab/finite_domain.rs:260-316 | the two halves and the whole returned for the left operand hold its signed value, at both widths |
| AssumeSoundness.UnsignedSplitSound | src/crab/finite_domain.rs:319-372 | the same for the unsigned reading |
| AssumeExactness.SignedSplitIsLeast | src/crab/finite_domain.rs:260-316 | the wholes returned are the least intervals of the signed values, and the halves hold nothing that is not such a value of their sign |
| AssumeExactness.UnsignedSplitIsLeast | src/crab/finite_domain.rs:319-372 | the same for the unsigned reading |
| AssumeSoundness.LbMatchIsLeast | src/crab/finite_domain.rs:421-430 | `lb_match` is the least value at or above the bound with the right operand's low 32 bits; none exactly if there is none in 64 bits, and no step overflows |
| AssumeSoundness.UbMatchIsGreatest | src/crab/finite_domain.rs:432-441 | `ub_match` is the greatest such value at or below the bound |
| AssumeSoundness.Signed32EqSound | src/crab/finite_domain.rs:402-459 | the constraints emitted for a 32-bit equality hold for both views of every word in range with those low bits |
| AssumeSoundness.ResolveNeSound | src/crab/finite_domain.rs:1021-1038 | turning an inequality at the edge of the range into a strict comparison loses no word |
| AssumeSoundness.SignedCstSound | src/crab/finite_domain.rs:700-792 | every constraint emitted for a signed comparison holds for every pair of words that satisfies it |
| AssumeSoundness.UnsignedCstSound | src/crab/finite_domain.rs:1008-1132 | the same for unsigned comparisons and inequality |
| AssumeSoundness.BitCstSound | src/crab/finite_domain.rs:87-117 | the same for the bit tests |
| AssumeSoundness.AssumeCstImmSound | src/crab/finite_domain.rs:1141-1184 | immediate form, every operator, both widths: if the branch is taken, all emitted constraints hold for the two views of the word |
| AssumeSoundness.AssumeCstRegSound | src/crab/finite_domain.rs:1187-1271 | register form, every operator, both widths: if the branch is taken, all emitted constraints hold for the views of both words |
| AssumeExactness.AssumeCstImmExact | src/crab/finite_domain.rs:1141-1184 | when any constraint is emitted, they hold if and only if the branch is taken, for every operator and width once a 32-bit equality has one candidate left |
| AssumeExactness.AssumeCstRegExact | src/crab/finite_domain.rs:1187-1271 | the same for the register form |
| AssumeExactness.Signed32EqExact | src/crab/finite_domain.rs:402-459 | the constraints of a 32-bit equality mean it for every word exactly when at most one 64-bit value is left between the two matches; otherwise some word satisfies them all with another low half |
| AssumeExactness.Assume64NeverEmpty | src/crab/finite_domain.rs:1141-1271 | a 64-bit order comparison or equality is never dropped silently, in register form no inequality either |
| AssumeExactness.Signed32Emits | src/crab/finite_domain.rs:700-792 | a 32-bit signed comparison emits something if and only if the ends of the intervals settle it or both signed views lie in the signed 32-bit range |
| AssumeExactness.Equal32Emits | src/crab/finite_domain.rs:402-459 | a 32-bit equality emits something if and only if the right side is one number and a value with its low bits lies on either side within the left bounds |
| AssumeExactness.UnsignedOrderEmits | src/crab/finite_domain.rs:1040-1132 | an unsigned order comparison emits something if and only if it is 64 bits wide, or the ends refute it, or both operands lie in a 32-bit half that keeps their order and the ends do not settle it |
| AssumeExactness.NotEqualEmits | src/crab/finite_domain.rs:1021-1038 | an inequality emits something if and only if the right side is one number at an end of the left interval, and at 32 bits the strict comparison it becomes emits something |
| AssumeExactness.BitEmits | src/crab/finite_domain.rs:87-117 | a bit test emits something if and only if both sides are single numbers that fit a 64-bit cast |
| AssumeExactness.SignedBothViews | src/crab/finite_domain.rs:461-698 | where the sign of the right side is known, a signed comparison bounds the unsigned view of the left operand too, and two non-negative views are equated |
| AssumeExactness.UnsignedBothViews | src/crab/finite_domain.rs:794-1006 | where the right side lies in one half of the range, an unsigned comparison bounds the signed view too |
| AssumeExactness.EqualBothViews | src/crab/finite_domain.rs:378-400 | a 64-bit equality equates both views of the operands, and the two views of the left one if the right is not negative |
| Shifts.WrapIntervalSound | src/crab/finite_domain.rs:1503-1536 | the interval left after wrapping holds the wrapped value of every member; if the interval is unchanged, wrapping is the identity on all members, so relations may stay |
| Shifts.WrapIntervalIsLeast | src/crab/finite_domain.rs:1503-1536 | no smaller interval holds every wrapped member, and a variable is forgotten only if its wrapped members span everything |
| Shifts.ShlIntervalSound | src/crab/finite_domain.rs:2136-2185 | the left-shift bounds hold the shifted word of every member, the case of different bits shifted out of the two ends included, whenever the ends fit |
| Shifts.ShlIntervalExact | src/crab/finite_domain.rs:2136-2185 | for all bounds within 64 bits: every result lies in the computed interval if and only if the shift is not a 32-bit shift by zero, or the ends agree on the high half, or their low halves span everything |
| Shifts.LshrIntervalSound | src/crab/finite_domain.rs:2187-2226 | the logical-right-shift bounds hold the shifted word of every member |
| Shifts.AshrIntervalSound | src/crab/finite_domain.rs:2228-2268 | the arithmetic-right-shift bounds hold the shifted signed value of every member |
| Shifts.ShlIntervalEnds | src/crab/finite_domain.rs:2136-2185 | both ends of the left-shift interval are shifted words of members |
| Shifts.LshrIntervalEnds | src/crab/finite_domain.rs:2187-2226 | both ends of the right-shift interval are the shifted ends |
| Shifts.AshrIntervalEnds | src/crab/finite_domain.rs:2228-2268 | both ends of the arithmetic-shift interval are the shifted ends, unless a 32-bit operand may have either sign: then everything the count leaves of 64 bits |
| FiniteDomain.FiniteDomain.OverflowBounds | src/crab/finite_domain.rs:1503-1536 | every environment of the old domain is in the new one with the variable wrapped; the domain is left alone when the wrapped bounds are the old ones, else the variable gets the wrapped bounds or is forgotten |
| FiniteDomain.FiniteDomain.Shl | src/crab/finite_domain.rs:2136-2185 | for every word the domain allows, its shifted word is allowed afterwards in both views; a 32-bit operand with both bounds has to fit the shift, as a masked one does; one without bounds needs nothing and is forgotten in both views; one with bounds gets an interval both ends of which are shifted words of members of its unsigned view, and the other view its value |
| FiniteDomain.UnboundedIsForgotten | src/crab/finite_domain.rs:2145-2149 | the 64-bit product of an unbounded operand, copied to the other view and wrapped, leaves both views forgotten, so every word is allowed at either width |
| FiniteDomain.MaskedFits | src/crab/ebpf_transformer.rs:1907-1913 | an operand that the caller has masked to 32 bits fits every shift, by zero included |
| FiniteDomain.FiniteDomain.Lshr | src/crab/finite_domain.rs:2187-2226 | the same for the logical right shift; an operand without bounds gets everything the count leaves of 64 bits |
| FiniteDomain.FiniteDomain.Ashr | src/crab/finite_domain.rs:2228-2268 | the same for the arithmetic right shift, by an immediate or by any register value; the pair is forgotten exactly if the count is not one number |
| StackMemory.ReadWritten | src/crab/array_domain.rs:669-743 | reading back what was written gives the word cut to the size, in either byte order |
| StackMemory.ReadBytes | src/crab/array_domain.rs:669-690 | byte k of a value read is the byte of memory at its place, in either byte order |
| OffsetMaps.InsertLive | src/crab/array_domain.rs:138-145 | a cell becomes live exactly if its offset lies below the stack size |
| OffsetMaps.RemoveCells | src/crab/array_domain.rs:114-123 | removes exactly the given cells, and empties no other |
| OffsetMaps.MergeFrom | src/crab/array_domain.rs:268-278 | the live cells of the merge are the union of both |
| OffsetMaps.OverlapsIsMeets | src/crab/array_domain.rs:163-187 | for sizes of at least one, the scan's test means sharing a byte and not being the same cell |
| OffsetMaps.GetOverlapCells | src/crab/array_domain.rs:163-187 | backward and forward scans together return exactly the live overlapping cells, each once, empty buckets on the way included |
| OffsetMaps.GetOverlapCellsSymbolic | src/crab/array_domain.rs:190-204 | a live cell is reported if and only if it or a live cell at its offset has a byte in the range; so none that is touched is missed |
| ArrayDomain.TouchedRangeIsExact | src/crab/array_domain.rs:364-376 | the range a weak access scans is exactly the bytes that some access the two intervals allow has |
| ArrayDomain.StrongIsOnly | src/crab/array_domain.rs:343-351 | an access counts as constant exactly if both intervals hold one number each, within the source's widths |
| StackSimulation.SimKill | src/crab/array_domain.rs:384-404 | forgetting both numeric scalars of a cell lets it leave the live set |
| StackSimulation.SimLearnWrapped | src/crab/ebpf_transformer.rs:874-895 | assigning the stored register and wrapping gives a scalar that equals the bytes it names |
| StackSimulation.SimElsewhere | src/crab/array_domain.rs:384-404 | a write to bytes no live cell meets keeps the simulation |
| StackSimulation.SimKillPointer | src/crab/array_domain.rs:384-404 | forgetting the scalar of a pointer attribute, the stack need not hold the attribute any more |
| StackSimulation.SimLearnPointer | src/crab/ebpf_transformer.rs:861-873 | assigning the attribute of the stored register gives a scalar that equals what the stack now holds |
| StackSimulation.SimJoin | src/crab/array_domain.rs:502-517 | the join, with the union of the cells, simulates what either side simulated |
| StackSimulation.SimMeet | src/crab/array_domain.rs:520-527 | the meet, with the union of the cells, simulates what both sides simulated |
| StackSimulation.ConstrainedIsLive | src/crab/array_domain.rs:600-658 | a numeric scalar for which any number is ruled out belongs to a cell in the maps |
| StackSimulation.SingletonIsReading | src/crab/array_domain.rs:600-658 | a constrained constant scalar belongs to a live cell and equals the bytes it names |
| StackSimulation.AssignNeedsLiveCell | src/crab/array_domain.rs:138-145 | an assignment to a cell not yet live keeps the simulation if and only if inserting the cell really makes it live, that is, its offset lies below the stack size |
| Instances.CellPastTheEnd | src/crab/array_domain.rs:138-145 | an eight-byte cell at the end of an eight-byte stack: it is not inserted, and assigning its scalar the right number breaks the simulation |
| StackBytes.GetValueByte | src/crab/array_domain.rs:669-690 | yields a byte exactly when the scalar of its cell is a constant, and then the byte in memory |
| StackBytes.ReconstructValueFromBytes | src/crab/array_domain.rs:695-743 | for sizes 1, 2, 4 and 8, a result exactly when every byte is known, and then the concrete load in either byte order, even from cells of different widths |
| StackBytes.PartOfKnownCell | src/crab/array_domain.rs:669-743 | every part of a usual size of an aligned cell with a constant signed scalar can be rebuilt |
| Bitset.HavocIsExact | src/crab/bitset_domain.rs:175-187 | after a havoc the bits fit exactly the tags that fitted before once the range is taken for numbers: nothing more is given up |
| Bitset.ResetIsExact | src/crab/bitset_domain.rs:162-173 | after a reset the bits fit exactly the tags that fitted before and call the range numbers |
| Bitset.JoinIsLeast | src/crab/bitset_domain.rs:94-106 | the join describes the tags of either side and marks no byte that any other such record leaves unmarked |
| Bitset.AllNum | src/crab/bitset_domain.rs:210-225 | true exactly if every byte of the range inside the stack is a number |
| Bitset.Uniformity | src/crab/bitset_domain.rs:132-147 | the two answers are exactly: all bytes numbers, all bytes not |
| Bitset.AllNumWidth | src/crab/bitset_domain.rs:149-160 | the longest run of numbers from the offset |
| Bitset.Meet | src/crab/bitset_domain.rs:108-118 | describes exactly the tags both sides describe |
| ArrayDomain.ArrayDomain.FindAndRemoveOverlap | src/crab/array_domain.rs:336-381 | afterwards no live cell of the kind meets any range [i, i + w) the two intervals allow, negative indices and the exact match included; a constant access removes exactly the overlapping cells and the exact one, any other exactly the cells at whose offset some live cell is touched; other kinds keep their cells |
| ArrayDomain.ArrayDomain.KillAndFindVar | src/crab/array_domain.rs:384-404 | the removed cells' scalars are forgotten, of numbers both kinds: the simulation survives without the attributes they held; a constant access drops exactly the cells it strikes |
| ArrayDomain.ArrayDomain.Load | src/crab/array_domain.rs:600-658 | None if and only if the index is not constant, or the cell is not live, nothing can be rebuilt from known bytes and a live cell of the kind is in the way; a number that is answered denotes the bytes read; a live cell answers its scalar, and for a numeric kind known bytes answer a constant and add no cell |
| ArrayDomain.ArrayDomain.SplitCell | src/crab/array_domain.rs:919-937 | the new cell's scalars equal the bytes they name; if the bytes can be rebuilt the signed scalar of a new cell is a known constant, and no other constant is lost |
| ArrayDomain.ArrayDomain.SplitAround | src/crab/array_domain.rs:955-997 | of an eight-byte cell whose bytes are numbers, the parts beside the access get cells of their own; of a known number those parts are known, and no constant but theirs is touched |
| ArrayDomain.ArrayDomain.SplitNumberVar | src/crab/array_domain.rs:940-999 | splitting every overlapping numeric cell around the range keeps the simulation; in a domain that keeps constants (`Precise`), every part of a usual size that stays of a known eight-byte number is known in a cell of its own (`SplitKeeps`), and no other constant but those of shorter cells beside the range is touched |
| StackPrecision.KnownPartRebuilds | src/crab/array_domain.rs:940-999 | the bytes of a part that stayed known can be rebuilt by a later load |
| StackPrecision.SplitSurvives | src/crab/array_domain.rs:421-458 | killing the cells that meet the access afterwards takes nothing from the parts that stay |
| ArrayDomain.ArrayDomain.SplitAndFindVar | src/crab/array_domain.rs:421-458 | splits numbers, then kills, for every kind: the simulation survives and no live cell of the kind meets the range; a weak access removes exactly the cells it may touch; the parts of known numbers that stay are known, and constants far from the range are kept |
| ArrayDomain.ArrayDomain.Store | src/crab/array_domain.rs:807-822 | clears what the store may touch, makes the exact cell live and hands out its scalar, for every kind; a vacant cell costs no knowledge; a weak store removes exactly the cells it may touch; the parts of known numbers that stay are known, and constants far from the range are kept |
| ArrayDomain.ArrayDomain.Havoc | src/crab/array_domain.rs:866-876 | no live cell of the kind meets the range afterwards, and the simulation survives; a weak access removes exactly the cells it may touch, the parts of known numbers that stay are known, and constants far from the range are kept |
| ArrayDomain.ArrayDomain.HavocNumbers | src/crab/ebpf_transformer.rs:845-851 | forgetting both views clears the range in both kinds, so that a concrete write may follow; constants far from the range are kept |
| StackStore.HavocPointers | src/crab/ebpf_transformer.rs:802-809 | the attributes any access may overwrite are forgotten in every kind; a constant address costs exactly those that lose a byte |
| StackStore.StoreAttributes | src/crab/ebpf_transformer.rs:861-873 | each attribute of a stored pointer ends up in its own scalar of the cell, and no other attribute is lost |
| StackStore.StoreBytes | src/crab/ebpf_transformer.rs:837-895 | the bytes of an initialised register or an immediate: the bits change exactly where they must, and with the place known both views of the word end up in their scalars, known if the word was |
| ArrayDomain.ArrayDomain.StoreType | src/crab/array_domain.rs:825-864 | after a store anywhere in the index interval the bits still describe the tags; a number unmarks exactly the bytes of a constant access, anything else marks exactly the bytes some access may touch |
| ArrayDomain.ArrayDomain.HavocType | src/crab/array_domain.rs:878-890 | marks exactly the bytes of a constant access and changes nothing otherwise; no type cell meets the access afterwards |
| ArrayDomain.HavockedWrite | src/crab/array_domain.rs:878-890 | when something else than numbers is then written, the bits are right if and only if the place was constant or every byte written was marked before |
| ArrayDomain.WeakHavocForgets | src/crab/array_domain.rs:878-890 | a two-byte stack, an uninitialised byte stored at offset 0 or 1: the bits go on calling byte 0 a number |
| ArrayDomain.ArrayDomain.AllNumWidth | src/crab/array_domain.rs:548-557 | if true, every byte any such access can touch is a number; for a proper access, true exactly when some stack byte may be touched and all that may be are numbers |
| ArrayDomain.ArrayDomain.MinAllNumSize | src/crab/array_domain.rs:569-586 | that many bytes are numbers from the offset on, wherever in its interval it lies, and one more would not be |
| ArrayDomain.ArrayDomain.JoinAssign | src/crab/array_domain.rs:511-517 | the live cells are the union, and a byte is marked exactly when one side marks it |
| StackStore.DoStoreStack | src/crab/ebpf_transformer.rs:788-905 | the whole store, pointer attributes included: after a concrete write of the word at any address the interval allows, the domain simulates the new memory with what attributes survive or come with it, no attribute lacks its cell, and the bits describe the new tags (for an uninitialised register at an unknown place exactly under the stated condition) and change exactly where the access calls for it; a constant address ends with all scalars of the cell assigned, and in a domain that keeps constants a stored known value or attribute is known there; constants far from the access are kept |
| Instances.PrecisionLawsMet | src/crab/array_domain.rs:404-470 | maps from variables to constants are sound and keep constants, so the precision laws can be met |
| LinkSpec.BuildProgLookup | src/elf_loader.rs:860-875 | each (section, name) leads to the first program that has it |
| LinkSpec.TargetIsFirstNamed | src/elf_loader.rs:860-875 | a relocation's target is the first program of its section with its name, and there is none exactly if the section has no such program or no name |
| LinkSpec.RelocsOfPicks | src/elf_loader.rs:1577-1588 | the relocations of a program are all those that name it, each as often as it occurs and in the same order: an increasing index map onto them |
| LinkSpec.NamesDistinct | src/elf_loader.rs:1590-1636 | each callee name is copied once |
| LinkSpec.NamesInOrder | src/elf_loader.rs:1590-1636 | a name copied earlier was used earlier |
| LinkSpec.LinkedLength | src/elf_loader.rs:1593-1636 | the linked code is as long as the program's own code and the linked code of its callees together |
| LinkSpec.CopyIsCallee | src/elf_loader.rs:1593-1636 | at the recorded start stands exactly the callee's linked code |
| LinkSpec.PatchedElsewhere | src/elf_loader.rs:1641-1647 | patching changes nothing but the immediates of relocated calls |
| LinkSpec.LinkedCall | src/elf_loader.rs:1641-1647 | source + 1 + immediate of a relocated call is the start of its callee's copy |
| LinkSpec.LinkedRelocsLand | src/elf_loader.rs:1555-1652 | over the relocations as given: each one of a linked program that is the last at its instruction lands on the linked code of the first program named as the program's first relocation of that name says |
| LinkSpec.LinkedKeepsOwnCode | src/elf_loader.rs:1641-1647 | the first instructions of linked code are the program's own, with no field changed but the immediates of relocated ones |
| LinkSpec.CallsLand | src/elf_loader.rs:1528-1652 | every call, to any depth of copies inside copies, lands on its callee's linked code |
| LinkSpec.CalleeIsTarget | src/elf_loader.rs:1590-1636 | a call's callee is its own target if and only if the first relocation of its name has that target |
| LinkSpec.CalleesAreTargets | src/elf_loader.rs:1590-1636 | all calls of a program get their own targets if and only if its relocations of one name have one target |
| LinkSpec.CallsLandOnTargets | src/elf_loader.rs:1528-1652 | under that condition every call, to any depth of copies, lands on the linked code of the program its own relocation names |
| LinkSpec.SameNameIsShared | src/elf_loader.rs:1590-1636 | a caller of two functions of one name in two sections: however it is linked, the second call lands on the first function and not on its own |
| Linker.Linker.ResolveSubprogramsFor | src/elf_loader.rs:1555-1652 | a resolved program is its own code followed by one copy of each callee name's linked code in first-use order, with relative calls patched; every relocation given for it that is the last at its instruction lands on its callee's linked code and its own code is kept; programs being visited or already resolved are never changed; a distance is reported only if some call really is too far, and a linkable program is not refused for any other reason |
| Linker.Linker.LinkCallee | src/elf_loader.rs:1593-1636 | the base taken before recursing is still the program's length when the copy is appended |
| Linker.Linker.PatchRelocated | src/elf_loader.rs:1641-1647 | writes the one immediate if and only if the distance fits in 32 bits, and else changes nothing |
| Linker.Linker.AppendSubprograms | src/elf_loader.rs:1528-1552 | every program of the wanted section ends linked; with well-founded calls the only errors are a call that really is too far and a program of that section with a call that names no program or no section |
| Linker.CallsGoBack | src/elf_loader.rs:1555-1652 | in resolution order every call, at any copy depth, leads to a program resolved earlier: linked code has no recursion |
| ProgramSpan.ComputeReachableProgramSpan | src/elf_loader.rs:739-824 | terminates with the smallest span that holds the clamped initial range and everything reachable from the start, never past the section end; a start outside the section keeps the initial size |
| ProgramSpan.SpanCoversProgram | src/elf_loader.rs:739-824 | the span holds everything control reaches by the opcode table if and only if all that control comes to from the real target of a misread jump it reaches lies in the initial range or before an instruction the computation reaches |
| ProgramSpan.SpanCoversPlainProgram | src/elf_loader.rs:739-824 | without a misread jump on the way, everything control reaches is covered, whatever the initial range |
| ProgramSpan.SuccessorsWithinIsa | src/elf_loader.rs:775-821 | each successor followed is one by the opcode table, the high slot of a 64-bit load, the `offset` target of a misread jump, or follows a code outside the table |
| ProgramSpan.SpanHoldsNoMore | src/elf_loader.rs:739-824 | where control reaches no misread jump and no code outside the table, the span is the initial range or ends right behind an instruction control reaches or the high slot of a load it reaches |
| ProgramSpan.LongJumpMayBeCovered | src/elf_loader.rs:775-821 | a misread jump need not lose its target: an offset that leads past it covers it |
| ProgramSpan.LongJumpIsMissed | src/elf_loader.rs:775-821 | three instructions, the initial range one long jump: its target is reached by the instruction set and every smallest span ends before it |
| ProgramSpan.GetProgramNameAndSize | src/elf_loader.rs:830-852 | the size runs to the next symbol or the section end, no symbol lies strictly inside, and the name is the symbol at the start if there is one |
| SliceSpec.TransferUnion | src/result.rs:552-638 | the backward transfer of a union is the union of the transfers, the decision whether the instruction contributes included |
| SliceSpec.FlowMonotone | src/result.rs:522-638 | more relevance after a label means more before it, skipping included |
| SliceSpec.ConservativeSlice | src/result.rs:506-511 | with an empty seed the slice is exactly the labels from which the failing label can be reached |
| SliceCarried.CarriedPlace | src/result.rs:552-638 | a path makes a register or a stack offset relevant exactly when a later label that acts reads it, or the seed names it, and nothing on the way kills it |
| SliceCarried.OnSliceExactly | src/result.rs:574-611 | a label is on the slice if and only if along some path it is reached and has no recorded dependencies, writes something the path carries, is a jump or an assume that reads a register the path carries, is an assume right before the failure, is the failing label, or the slice is conservative: the carried places defined by reads and kills alone |
| SliceWidths.StoreOnSlice | src/result.rs:832-877 | a store is on the slice exactly when one of its recorded offsets is carried to it along some path |
| SliceWidths.StoreOfBytes | src/result.rs:832-877 | with accesses of any widths: a store is on the slice exactly when some read names its very offset, however the byte ranges meet |
| SliceWidths.StoreLoadSlice | src/result.rs:832-877 | a store, a load, a failure, for every two accesses: bytes flow exactly when the ranges meet, and the store is on the slice exactly when the offsets are equal |
| SliceWidths.WideStoreIsMissed | src/result.rs:832-877 | eight bytes stored at -8 and four loaded from -4: the load reads stored bytes and the store is not on the slice |
| Slicer.StableHoldsTrails | src/result.rs:517-654 | a closed visited map holds the relevance every single path carries, so skipping subsumed items loses nothing |
| Slicer.StableIsExact | src/result.rs:517-654 | visited labels, their accumulated relevance and the labels on the slice are exactly what the paths to the failing label give |
| Slicer.MarksBound | src/result.rs:517-555 | no more items are processed than labels times the relevance universe plus one |
| Slicer.ExpandJoins | src/result.rs:656-678 | adds exactly the visited join points with a parent on the slice and all their parents, and overwrites no slice label |
| Slicer.ComputeSliceFromLabel | src/result.rs:475-686 | every label shown belongs to the full slice, for any step limit, and what was looked at and acts is shown, the failing label first; the loop stops short only at the step limit; beyond the bound the worklist empties, the visited map is closed, and exactly the full slice is shown: every label some path makes act (`ActsOn`), the surroundings of joins below them, and nothing else; each contributing label with all it reads and only with what some path makes relevant |
| Slicer.TraceBack | src/result.rs:517-654 | the worklist loop keeps visited map, slice and open items accounted for, and processes as many items as it has steps unless it runs empty |
| SliceMeaning.SliceExplains | src/result.rs:475-654 | along every path, running only the labels on the slice gives the failing label the same relevant values as running everything, if the recorded dependencies describe the instructions and no relevant register is clobbered |
| SliceMeaning.ExplainsExactly | src/result.rs:475-654 | for every path: a slice that holds all labels acting on relevant state makes every sliced run agree with every full run from the same start on all that is relevant after each label, whatever the described instructions do, if and only if no label of the path clobbers without writing it a register that matters after it |
| SliceMeaning.ClobberIsNotSliced | src/result.rs:562-571 | a helper call followed by an assertion on r1: the call clobbers r1, is not on the slice, and the sliced run sees another value |
| Dsu.WalkIsShort | src/crab/dsu.rs:40-46 | a root of rank k has at least 2^k members, so a walk to the root takes at most log2 of the number of elements |
| Dsu.CompressRep | src/crab/dsu.rs:32-37 | relinking an element to its root changes no representative |
| Dsu.LinkPopulous | src/crab/dsu.rs:55-67 | union by rank keeps ranks strictly increasing towards roots and roots populous |
| Dsu.DisjointSetUnion.Find | src/crab/dsu.rs:32-37 | returns the representative, points the element at it, and changes no representative and no root |
| Dsu.DisjointSetUnion.FindConst | src/crab/dsu.rs:40-46 | agrees with `find`, in at most log2(n) steps |
| Dsu.DisjointSetUnion.Union | src/crab/dsu.rs:49-68 | merges exactly the two sets under the returned representative |
| Dsu.DisjointSetUnion.Push | src/crab/dsu.rs:76-81 | adds one singleton and changes no other representative |

## Left out

- Run: `max_loop_count`, `max_call_depth`, the exit value and the recorded dependencies are not modelled.
- PostFixpoint: loose heads are set apart; `FwdRounds.Blamed` says which they are, and `Run` that there is none if no recorded round raised a post-invariant. Soundness (`AllRunsVerified`) covers them all the same. Which widenings make every round of a cycle with inner cycles return no more for less is not modelled.
- Assume64NeverEmpty: the immediate form of inequality and the bit tests may emit nothing; `NotEqualEmits` and `BitEmits` say when.
- Build: the numbers are unbounded naturals with a proved bound of n(n+1), where the source has a 32-bit counter.
- Load: type scalars, negative constant offsets and cells wider than 8 bytes (`initialize_numbers`) are not modelled; a constant address is inside the stack, as the access check requires.
- DoStoreStack: type scalars and the numeric-size variable updated after the store are not modelled; which attributes the types of a register call for is a parameter.
- Ashr: for an empty svalue interval whose ends do not fit 32 bits, the source's 32-bit casts panic (src/arith/number.rs:73-94); the model extends the ends instead.
- SplitAndFindVar: what it keeps known is stated for domains that keep constants (`Precise`), and for signed scalars; relations between variables that a zone keeps besides are not modelled.
- JoinAssign: widening and narrowing of the stack domain are its join and meet and add nothing.
- OverflowBounds: the shifts are proved on top of it; the `apply_*` arithmetic built the same way on division, multiplication and bitwise interval operations is not modelled.
- ResolveSubprogramsFor: line information and builtin call offsets copied with a callee are not modelled; failures of section names are parameters.
- ComputeSliceFromLabel: the error text is copied by the source and not modelled; extraction of dependencies from instructions is a parameter, and `SliceExplains` states what it has to satisfy.
- SliceExplains: a register that matters after a label which clobbers it is excluded; `ClobberIsNotSliced` shows why.
- Union: `same_set` compares two `find_const` results and adds nothing.
- The zone domain and the interval operations not used here: their laws are assumptions on the records `ZoneOps`, `NumOps` and `Domain`, which a concrete domain has to meet.
- ELF, BTF and CO-RE parsing, symbol tables, files and caches: input and output.
- Printing, tracing, string invariants and the filter of displayed constraints: user interface.
- The instruction transformer and the assertion checks as a whole: parameters of the iterator.
