# A verified model of six LLVM passes

This project models seven files of a collection of LLVM passes and proves what the passes are for: that
they preserve the meaning of the functions they rewrite, and, where a pass does so only under a
condition, what that condition is.

## The program that is modelled

`IR.dfy` is a small SSA control-flow graph. A function is an ordered list of labels and a map from labels
to blocks; a block is a list of PHIs, a body and a terminator. Every instruction has its own register,
also one without a value. An operation carries an opcode, a result type and flags: touches memory, is a
call, is safe to execute speculatively, is a debug intrinsic.

`Semantics.dfy` gives runs. What an operation computes is a parameter (`World.eval`), so a theorem about
runs holds for every instruction set; only the passes that do arithmetic fix the meaning of the integer
operations they insert. A state is the previous block, the current block, the registers and the memory,
which includes the trace of visible effects. PHIs are read together, by predecessor. Two functions are
compared by `Lockstep` (the same view after every number of blocks) or by `Simulates` (the same views,
with at least as many blocks), which `SimulationIsEquivalence` turns into: the same final observations,
and divergence together.

| files | pass |
|---|---|
| `MergeSpec`, `MergeSound`, `MergeRuns`, `MergeWhole`, `MergePhis`, `MergeBoundary`, `MergeSsa`, `MergeExact`, `MergeSwitch`, `MergeBB` | MergeBB folds a block into an identical sibling |
| `RIV` | reachable integer values, a stack walk over the dominator tree |
| `DuplicateSpec`, `DuplicateSteps`, `DuplicateSound`, `DuplicateShape`, `DuplicateRun`, `DuplicateSsa`, `DuplicateHeads`, `DuplicateBB` | DuplicateBB clones a block into two arms behind a condition |
| `ClonePairs`, `CloneMerging`, `DuplicateThenMerge` | MergeBB after DuplicateBB |
| `LicmSpec`, `LicmPaths`, `LicmSound`, `LicmRuns`, `LicmOrder`, `LicmValues`, `LicmBoundary`, `LicmSsa`, `LicmExact`, `SimpleLICM` | SimpleLICM, a fixpoint and a hoisting loop |
| `ModMath`, `IvMath`, `IvSpec`, `IvSound`, `IvRuns`, `IvLoops`, `IvBoundary`, `IvSsa`, `IvExact`, `DerivedInductionVar` | DerivedInductionVar replaces a recurrence by a closed form |
| `Bits`, `MbaSpec`, `MbaSound`, `MbaSsa`, `MbaExact`, `Mba` | MBAAdd and MBASub rewrite arithmetic |
| `Paths`, `StrictSsa`, `Renaming`, `BlockRewrite`, `FunctionIR` | paths and dominance, strict SSA form, replacing registers, replacing one block, the mutable function |

The file named after a pass holds its code in imperative form, on the mutable `FunctionIR`; its methods
are proved equal to functions of the old state, and the theorems are about those functions. Keeping the
meaning is half of what a pass is for, since one that does nothing keeps it too. The other half, that a pass
does what it should wherever it should, is stated with nothing but the functions before and after it: in the
`Exact` modules, in `DuplicateHeads` and in `RIV`.

## Where the code is weaker than its comments

- MergeBB never compares the incoming blocks of PHIs inside the two blocks (lib/MergeBB.cpp:98-104). A run
  is proved sound when the PHIs of every merged pair match (`PhisMatch`): each predecessor of the erased
  block is one of the retained block's and brings both the same operands. `PhisMatchIff` says that this is
  what it takes: it holds exactly when facing PHIs have the same value on every edge into the erased block,
  whatever the registers, and the retained PHIs have an entry for each predecessor afterwards.
  `MergingPhisChangesMeaning` is a function without it whose result, well formed too, returns something else.
- The retained PHIs then still have one entry for each predecessor. One entry for each edge, which LLVM wants
  where a block has several edges to the same successor, is kept exactly when the erased block has no PHIs or
  is never entered (`RetainedPhisCountedIff`).
- The test on the predecessors of BB2 has no effect, since its `continue` belongs to the inner loop
  (lib/MergeBB.cpp:191-194). `IsPartner` keeps it, and decides the condition without it.
- SimpleLICM marks an instruction invariant because its operand is (lib/SimpleLICM.cpp:97-98) but decides
  on hoisting one instruction at a time (lib/SimpleLICM.cpp:122). The result is def-before-use exactly when
  every in-loop operand of a hoisted instruction is safe to speculate, and exactly then it is in strict SSA
  form (`LicmVerifiedIff`); then the meaning is preserved, and `LeavingAnOperandChangesMeaning` is a function
  where it is not.
- DerivedInductionVar sign-extends a narrower primary (lib/DerivedInductionVar.cpp:163-164). With p bits for
  a w-bit variable and t iterations the closed form is right throughout exactly when t <= 2^(p-1) or 2^p * step
  is 0 modulo 2^w (`ExactIffFits`). `ExampleKeptIffFits` is a loop with a 2-bit counter whose result is the
  same exactly then, for every start and step.
- It does not check that a recurrence belongs to the loop at hand (lib/DerivedInductionVar.cpp:61-71). That
  scalar evolution is right about the header PHIs of this loop is a hypothesis (`Recurs`).
- The comment in MergeBB says that qualifying clones will be merged (lib/MergeBB.cpp:28-32).
  `MergeAfterDuplicate` says which clones qualify, and into what they are merged.

## Given to the passes

The dominator tree is correct (`DominatorTree`, `DomTreeOk`). The blocks of a loop come with dominators
first, the preheader jumps to the header only and is the only way in (`LoopOk`, `DominatorsFirst`). Functions
are well formed (`WellFormed`), for SimpleLICM also in strict SSA form (`Ssa`). Each pass is shown to keep
both together (`Verified`: one definition per register, before each of its uses on every path, and PHIs with
exactly their predecessors), MergeBB if its pairs' PHIs match and a PHI's entries for one predecessor agree
(`EntriesAgree`). Computations on registers depend on their operands only and trap only if they are not safe
to speculate (`Honest`). DuplicateBB's condition does not trap (`ConditionRuns`). Random choices and the
orders in which sets are walked are left open, so theorems hold for all of them. New registers and labels are
numbers above all that are in use.

## Model

| member | source | states |
|---|---|---|
| `MergeWhole.MergeRunPreserves` | lib/MergeBB.cpp:143-261 | a whole run of the pass, chains, self-loops and PHIs included, keeps the meaning of every well-formed function if the PHIs of each pair match when it is merged: after any number of blocks both functions show the same, and the result, well formed, is at the block the composed merges rename the original block to |
| `MergeWhole.BareRunPreserves` | lib/MergeBB.cpp:143-261 | nothing need be asked of a run whose erased blocks hold no PHIs |
| `MergeWhole.MergeRunAt` | lib/MergeBB.cpp:247-261 | the same after n blocks, with a well-formed result |
| `MergeWhole.ScanRuns` | lib/MergeBB.cpp:143-245 | the scan alone is a simulation under the composed renaming |
| `MergeWhole.ScanKeepsState` | lib/MergeBB.cpp:143-245 | every point of the scan: no edge into an erased block, values of erased blocks are read by PHI entries of their own edges only, the blocks that stay are well formed |
| `MergeWhole.MergeKeepsState` | lib/MergeBB.cpp:118-141 | one merge keeps that state if the predecessors of an erased block with PHIs are the retained block's too |
| `MergeWhole.DropKeepsState` | lib/MergeBB.cpp:255-257 | deleting an erased block keeps it: no use of its values is left, and every PHI has exactly its predecessors |
| `MergeWhole.DeletedRuns` | lib/MergeBB.cpp:255-257 | deleting the erased blocks, in any order, changes no run and leaves a well-formed function |
| `MergeRuns.RunRelated` | lib/MergeBB.cpp:143-245 | one merge of a pair with matching PHIs: after n blocks the two functions are at corresponding blocks, with the same memory and registers that differ in the merged blocks' values only |
| `MergeRuns.StepRelated` | lib/MergeBB.cpp:143-245 | one block of that simulation |
| `MergeSound.OnlyUseIsPhi` | lib/MergeBB.cpp:61-107 | if the pair is accepted, a value of either block has exactly one use, the PHI entry of the common successor for its own edge; no instruction reads another one of its block |
| `MergeSound.UseIsDoubled` | lib/MergeBB.cpp:100-104 | why: a use inside one block would be matched by a use inside the other |
| `MergeSound.AtMostOneUsed` | lib/MergeBB.cpp:82-96 | at most one instruction of each merged block has a use |
| `MergeSound.PhiValuesFace` | lib/MergeBB.cpp:212-232 | the values the successor's PHI takes from the two blocks are one value from outside, or stand at the same position of the two bodies, although no position is compared |
| `MergePhis.PhisMatchIff` | lib/MergeBB.cpp:98-104 | an accepted pair has matching PHIs exactly when, in every world and for all registers, facing PHIs have the same value on every edge into the erased block and merging leaves the retained PHIs with exactly their predecessors |
| `MergePhis.RetainedPhisCoveredIff` | lib/MergeBB.cpp:98-104 | the second half alone: merging leaves the PHIs of the retained block with exactly its predecessors if and only if it has none or gains no predecessor |
| `MergePhis.RetainedPhisCountedIff` | lib/MergeBB.cpp:118-141 | one PHI entry for each edge is kept exactly when the erased block has no PHIs or no predecessor |
| `MergeBoundary.MergingPhisChangesMeaning` | lib/MergeBB.cpp:98-104 | a concrete function, well formed before and after the whole run, whose run merges two blocks with PHIs that do not match: it returns c before and d after, for all c and d |
| `MergeSsa.MergeRunVerified` | lib/MergeBB.cpp:143-261 | under the same condition a run of the pass keeps strict SSA form: each definition still comes before its uses on every path |
| `MergeExact.RunMergesTwins` | lib/MergeBB.cpp:143-253 | on a well-formed function, if the PHIs of each pair match when it is merged: a run merges a block exactly if it has a twin when its turn comes, and then into a twin: another block, neither the entry nor erased, with the same code except for the registers written, going on to the same block, whose only PHI takes one value from both or what matching lines write; a value of either is not used or only by that PHI, and the block is entered by branches and switches only |
| `MergeExact.MergeableIffTwins` | lib/MergeBB.cpp:75-232 | the tests of the pass accept a pair exactly if the two blocks are twins: counts, positions, one-use tests and the walk come to nothing else |
| `MergeExact.EmptyBlocksAreTwins` | lib/MergeBB.cpp:143-232 | empty blocks entered by branches and switches that pass the same operand to the one PHI of the same block are twins |
| `MergeExact.RunErasesMerged` | lib/MergeBB.cpp:247-257 | under the same condition, after a run the blocks are the original ones without the merged ones, and no PHI has an entry for a merged block |
| `MergeSwitch.SwitchMerged` | test/MergeBB_switch_merged.ll:3-32 | every run on the function of that test, for any two constants that differ, merges block 2 into block 4 and nothing else, and leaves the function the test expects |
| `MergeBB.CanMerge` | lib/MergeBB.cpp:75-107 | decides exactly whether two instructions match |
| `MergeBB.LockstepReverseIterator.constructor` | lib/MergeBB.cpp:289-304 | starts at the last instruction of each block that is no debug intrinsic |
| `MergeBB.LockstepReverseIterator.PrevNonDbgInst` | lib/MergeBB.cpp:306-314 | finds the closest earlier instruction that is no debug intrinsic, or none |
| `MergeBB.LockstepReverseIterator.Decrement` | lib/MergeBB.cpp:316-331 | one step back in both blocks, failing when either has no more |
| `MergeBB.WalkAccepts` | lib/MergeBB.cpp:224-232 | with equal counts the walk ends invalid exactly when every corresponding pair of the two bodies, debug intrinsics aside, matches |
| `MergeBB.GetNumNonDbgInstrInBB` | lib/MergeBB.cpp:110-116 | counts the instructions that are no debug intrinsics, the terminator included |
| `MergeBB.UpdateBranchTargets` | lib/MergeBB.cpp:118-141 | every edge into the erased block goes to the retained one, and the count is the number of those edges |
| `MergeBB.EdgesIntoCounts` | lib/MergeBB.cpp:118-141 | that count is the number of pairs of a block and a position of its terminator at which the erased block stood |
| `MergeBB.IsErasable` | lib/MergeBB.cpp:143-178 | decides exactly whether a block may be erased: it is not the entry, it ends in an unconditional branch to a block with at most one PHI, and each edge into it comes from a branch, conditional or not, or a switch |
| `MergeBB.IsPartner` | lib/MergeBB.cpp:181-232 | decides exactly whether a predecessor of the successor qualifies, which in a well-formed function means that it is a twin (`MergeExact.Twins`); the predecessor test of lines 191-194 rules nothing out |
| `MergeBB.MergeDuplicatedBlock` | lib/MergeBB.cpp:143-245 | merges into some qualifying block, and does nothing only if none qualifies |
| `MergeBB.MergeKeepsCfg` | lib/MergeBB.cpp:118-141 | a merge erases no edge, leaves none into an erased block and takes the last predecessor from no other block |
| `MergeBB.Scan` | lib/MergeBB.cpp:247-253 | no edge into the delete list at the end, total number of edges unchanged; the number of targets updated by each merge, which is positive if every block but the entry starts with a predecessor, so the assertion that a branch target was updated never fails |
| `MergeBB.DeleteDeadBlock` | lib/MergeBB.cpp:255-257 | removes the block and its entries in the PHIs of its successors |
| `MergeBB.Run` | lib/MergeBB.cpp:247-261 | the in-place pass is a scan followed by the deletion of the erased blocks |
| `RIV.BuildRIV` | lib/RIV.cpp:58-115 | the stack walk ends and pops every node of the tree exactly once; a value is in the set of a block exactly if it is an integer argument, an integer global, or what an instruction or PHI of integer type of a strict dominator computes |
| `RIV.RivIsComplete` | lib/RIV.cpp:58-115 | the same of the recursive definition, for every tree and order of children |
| `RIV.PushChildren` | lib/RIV.cpp:102-111 | every child is pushed and its set joined with the values the parent defines and those that reach it |
| `RIV.BelowIs` | lib/RIV.cpp:87-112 | that definition: the values inherited plus those of proper ancestors |
| `RIV.RivIsExact` | lib/RIV.cpp:58-115 | the reachable values of a block are the integer arguments and globals and the integer instructions of its strict dominators, no more and no less |
| `RIV.RivIsSound` | lib/RIV.cpp:67-112 | each reachable instruction has run on every path to the block, and none belongs to the block itself |
| `RIV.EntryRIV` | lib/RIV.cpp:77-85 | the entry gets exactly the arguments of integer type and the globals of integer type |
| `DuplicateRun.EntryHasNoRefs` | lib/RIV.cpp:77-85 | none of those is computed by an instruction, which is what DuplicateBB relies on |
| `RIV.DefinedValues` | lib/RIV.cpp:67-73 | the registers of the integer instructions and PHIs of each block, no more and no less |
| `DuplicateRun.DuplicateRunPreserves` | lib/DuplicateBB.cpp:101-256 | for every choice of blocks and context values: both functions stop with the same observations or diverge together, whichever arm each condition takes; the result is well formed, has three more blocks per target, and every condition reads a value that exists and was computed on every path |
| `DuplicateSsa.DuplicateRunVerified` | lib/DuplicateBB.cpp:237-256 | for every choice of blocks and context values the result is in strict SSA form again: each definition, the conditions' operands included, comes before its uses on every path |
| `DuplicateSsa.CloneSsa` | lib/DuplicateBB.cpp:143-235 | the same for one call of cloneBB with a condition on an available value |
| `DuplicateHeads.HeadsTestChosenValues` | lib/DuplicateBB.cpp:148-159 | for every choice of targets, in the result of the whole run: each time a run enters the head of a target, the original's run is at the block that was cloned, and the condition decides on the value that the chosen context operand has there, replaced or not; the first clone follows if it holds, the second if not |
| `DuplicateHeads.ZeroTakesFirstClone` | lib/DuplicateBB.cpp:150-159 | so with a comparison with zero the first clone runs exactly if the chosen value is zero |
| `DuplicateHeads.AllTracks` | lib/DuplicateBB.cpp:249-251 | without its new blocks the run of the result is the original's, block by block, with the same memory |
| `DuplicateHeads.RunBack` | lib/DuplicateBB.cpp:143-235 | the converse of `DuplicateSound.RunRelated` for one clone: whenever its run is at an original block, the original's run is there after as many original blocks, with the values under their old names |
| `DuplicateRun.CloneAllSimulates` | lib/DuplicateBB.cpp:249-251 | the loop over the targets is a simulation that makes progress |
| `DuplicateRun.CloneAllPoint` | lib/DuplicateBB.cpp:249-251 | what holds after the loop: well formed, three blocks per target, conditions on available values |
| `DuplicateRun.RunAdvances` | lib/DuplicateBB.cpp:242-251 | one call of cloneBB keeps the run's invariant, in whatever order dominating and dominated blocks are cloned |
| `DuplicateRun.LookupOnce` | lib/DuplicateBB.cpp:150-151 | looking a value up once in the map of replaced values is enough |
| `DuplicateRun.RemapGrows` | lib/DuplicateBB.cpp:221-227 | that map leads from original registers to new ones: its range and its domain stay disjoint |
| `DuplicateRun.AvailableKept` | lib/DuplicateBB.cpp:143-235 | what could be read on entry to a block still can, under its new name, after another block was cloned |
| `DuplicateRun.Project` | lib/DuplicateBB.cpp:153-159 | a path of the cloned function is a path of the original without the new blocks |
| `DuplicateRun.ChosenIsAvailable` | lib/DuplicateBB.cpp:111-137 | a chosen context value exists and was computed on every path to the block |
| `DuplicateSound.CloneSimulates` | lib/DuplicateBB.cpp:143-235 | one call of cloneBB preserves the meaning whichever arm the condition takes |
| `DuplicateSound.RunRelated` | lib/DuplicateBB.cpp:143-235 | after n blocks of the original the clone is, after n or more, at the same block with the same memory and the values under their new names |
| `DuplicateSound.CloneStep` | lib/DuplicateBB.cpp:183-228 | entering the cloned block takes head, one arm and tail: the body's instructions run once |
| `DuplicateShape.CloneWellFormed` | lib/DuplicateBB.cpp:158-234 | one definition per register, every use has a definition, every PHI has exactly its predecessors (that definitions come before uses is `DuplicateSsa.CloneSsa`) |
| `DuplicateShape.CloneReady` | lib/DuplicateBB.cpp:158-234 | new registers and labels stay below the next free ones, so the next call may follow |
| `DuplicateShape.CloneEdges` | lib/DuplicateBB.cpp:153-159 | the edges after the split: head to both arms, arms to the tail, tail to the old successors |
| `DuplicateShape.CloneLayout` | lib/DuplicateBB.cpp:153-159 | three blocks are added, the entry stays first |
| `DuplicateShape.CloneOrderIs` | lib/DuplicateBB.cpp:153-159 | they follow their head in the layout: first arm, second arm, tail |
| `DuplicateSteps.NextValue` | lib/DuplicateBB.cpp:195-227 | one iteration for an instruction with a value, the replacement of its uses included |
| `DuplicateSteps.NextVoid` | lib/DuplicateBB.cpp:195-213 | one iteration for an instruction without a value |
| `DuplicateSteps.LastStep` | lib/DuplicateBB.cpp:230-232 | after the purge the tail is PHIs and a terminator, and the function is the clone |
| `DuplicateSteps.ArmMapValue` | lib/DuplicateBB.cpp:199-227 | the value maps follow the replacement of their keys: an operand that already reads the joining PHI still maps to the arm's own value |
| `DuplicateSteps.MappedArgs` | lib/DuplicateBB.cpp:197-207 | remapped operands are the arm's own values, or the joining PHIs' for other blocks' values |
| `DuplicateBB.DuplicateBB.FindBBsToDuplicate` | lib/DuplicateBB.cpp:101-141 | picks distinct blocks with one of their reachable values each, never a global and never a landing pad; every other block that is reached by values none of which is a global is picked |
| `DuplicateBB.SplitBlockAndInsertIfThenElse` | lib/DuplicateBB.cpp:145-159 | the split function, before any instruction is cloned |
| `DuplicateBB.ReplaceAllUsesWith` | lib/DuplicateBB.cpp:225-227 | every use of a register is replaced |
| `DuplicateBB.DuplicateBB.CloneInstruction` | lib/DuplicateBB.cpp:183-228 | one iteration of the loop over the tail keeps the function in step with its specification and the value maps right |
| `DuplicateBB.DuplicateBB.CloneBB` | lib/DuplicateBB.cpp:143-235 | the in-place code makes exactly the clone, and records each replaced value |
| `DuplicateBB.DuplicateBB.Run` | lib/DuplicateBB.cpp:237-256 | the in-place pass clones the chosen blocks one after the other, with RIV computed once; landing pads are never chosen, and other blocks are if values but no globals reach them |
| `DuplicateBB.DuplicateBB.RunOnFunction` | lib/DuplicateBB.cpp:237-256 | the two passes together, on a function and its arguments and globals: each context value is an integer argument or comes from an integer instruction or PHI of a strict dominator; without integer globals every block that has such a value and is no landing pad is cloned |
| `DuplicateThenMerge.MergeAfterDuplicate` | lib/MergeBB.cpp:28-32 | after DuplicateBB, a run of MergeBB erases a block's first clone exactly when the original body produces at most one value and reads none of its own; with a value the first clone is then merged into the second one, which stays; otherwise both clones stay |
| `DuplicateThenMerge.MergeMeetsPair` | lib/MergeBB.cpp:247-257 | the same for any pair of clones in any well-formed function |
| `DuplicateThenMerge.PairSurvives` | lib/DuplicateBB.cpp:249-251 | cloning further blocks keeps a pair |
| `DuplicateThenMerge.RedirectKeepsPair` | lib/MergeBB.cpp:118-141 | merging other blocks keeps a pair |
| `ClonePairs.CloneMakesPair` | lib/DuplicateBB.cpp:183-228 | the two clones agree instruction by instruction; each reads its own values, and nothing but the joining PHIs reads a clone's value from outside |
| `ClonePairs.LaterKeepsPair` | lib/DuplicateBB.cpp:183-228 | this survives the cloning of another block |
| `CloneMerging.ClonesMergeable` | lib/MergeBB.cpp:75-232 | clones of a collapsible body qualify for merging |
| `CloneMerging.ClonesStay` | lib/MergeBB.cpp:75-232 | clones of any other body qualify with no block at all |
| `CloneMerging.UsesAreOwn` | lib/DuplicateBB.cpp:195-220 | a clone's value is read by its own clone and its joining PHI only |
| `CloneMerging.CollapsibleIs` | lib/MergeBB.cpp:82-96 | counting values and finding inner reads agree with the position-by-position condition |
| `LicmOrder.LicmPreserves` | lib/SimpleLICM.cpp:35-130 | if no hoisted instruction leaves an operand behind, both functions show the same after every number of blocks: zero-trip, infinite and re-entered loops included |
| `LicmRuns.HoistPreserves` | lib/SimpleLICM.cpp:116-127 | the same for any operand-closed set of safe register computations |
| `LicmRuns.RunRelated` | lib/SimpleLICM.cpp:116-127 | the simulation: the registers agree but for hoisted values not yet recomputed, and inside the loop the new function has them all |
| `LicmOrder.DefBeforeUseIff` | lib/SimpleLICM.cpp:118-143 | the hoisted code is def-before-use exactly when every operand the loop computes for a hoisted instruction is safe to speculate |
| `LicmSsa.LicmVerifiedIff` | lib/SimpleLICM.cpp:118-143 | the result is well formed and in strict SSA form exactly when every operand the loop computes for a hoisted instruction is safe to speculate |
| `LicmExact.HoistPlaces` | lib/SimpleLICM.cpp:59-143 | with a correct dominator tree: an instruction of a loop block is afterwards in the preheader exactly if a chain of computations of the loop makes it from what is made outside, it is safe, and its block dominates the target of every edge out of the loop; exactly the others are where they were; nothing else changes |
| `LicmExact.HoistedIffMoves` | lib/SimpleLICM.cpp:59-143 | the set that is hoisted is described by those three conditions |
| `LicmExact.InvariantIffComputable` | lib/SimpleLICM.cpp:59-114 | the fixpoint holds exactly the registers that such chains make |
| `LicmExact.WhileStays` | lib/SimpleLICM.cpp:116-143 | a while loop with a safe, invariant addition in its body: the body does not dominate the exit and the function stays as it was, for every constant added |
| `LicmExact.DoWhileMoves` | lib/SimpleLICM.cpp:116-143 | in the do-while loop the addition moves to the preheader |
| `LicmOrder.OperandExits` | lib/SimpleLICM.cpp:132-143 | dominating all exits is inherited by the in-loop operands of a hoisted instruction |
| `LicmOrder.UseComesLater` | lib/SimpleLICM.cpp:80-107 | an operand is made earlier in the block or in a block that dominates it |
| `LicmOrder.PickedDefsFirst` | lib/SimpleLICM.cpp:116-127 | in loop order no hoisted instruction reads its own result or a later one |
| `LicmBoundary.LeavingAnOperandChangesMeaning` | lib/SimpleLICM.cpp:97-122 | a concrete function, with all the pass is given in order, that returns something else after the pass: an addition is hoisted, the division it reads is not |
| `LicmPaths.FreshAtEnd` | lib/SimpleLICM.cpp:132-143 | a hoisted value that every path to a point has computed has been computed since the preheader was last left |
| `LicmSound.BodyWithout` | lib/SimpleLICM.cpp:116-127 | a loop body without its hoisted instructions does what the whole body did |
| `LicmSound.HoistedRun` | lib/SimpleLICM.cpp:116-127 | the hoisted instructions run without trapping, touch no memory and leave each with its value |
| `LicmSpec.MembersHaveReasons` | lib/SimpleLICM.cpp:59-114 | each member of the least set is there by the rule |
| `LicmSpec.InvariantSetIsUnique` | lib/SimpleLICM.cpp:59-114 | the least set does not depend on the order of the scan |
| `LicmValues.SameValueEachTime` | lib/SimpleLICM.cpp:59-114 | each invariant computes the same value each time it runs before the run leaves the loop |
| `SimpleLICM.AllOperandsInvariant` | lib/SimpleLICM.cpp:80-107 | decides the operand rule |
| `SimpleLICM.ScanOnce` | lib/SimpleLICM.cpp:60-113 | one scan adds only what every closed set holds, and reports no change only if nothing is missing |
| `SimpleLICM.FindInvariants` | lib/SimpleLICM.cpp:59-114 | the fixpoint ends with the least set closed under the rule |
| `SimpleLICM.CollectInsts` | lib/SimpleLICM.cpp:52-57 | lists the loop's instructions block after block |
| `SimpleLICM.DominatesAllLoopExits` | lib/SimpleLICM.cpp:132-143 | with a correct dominator tree: decides whether the block is on every path from the entry to the target of each edge out of the loop |
| `SimpleLICM.HoistOne` | lib/SimpleLICM.cpp:118-126 | moves an instruction exactly if it is invariant, safe and dominates all exits |
| `SimpleLICM.Run` | lib/SimpleLICM.cpp:35-130 | the in-place pass hoists the set computed from the least set of invariants, and with a correct dominator tree places every instruction as `LicmExact.HoistPlaces` says; without a preheader nothing changes |
| `IvLoops.AllPreserve` | lib/DerivedInductionVar.cpp:42-205 | all innermost loops whose closed forms are right on every run: both functions show the same after every number of blocks |
| `IvLoops.FittingLoopsPreserve` | lib/DerivedInductionVar.cpp:42-205 | all innermost loops keep the meaning if every header recurrence is no wider than the primary or fits the number of iterations |
| `IvLoops.LoopPreserves` | lib/DerivedInductionVar.cpp:109-205 | one loop, uses of the PHIs outside the loop and their own increments included |
| `IvLoops.FitsSuffices` | lib/DerivedInductionVar.cpp:158-171 | the closed form is right on a run when the primary is wide enough, or the loop is short enough, or 2^p * step vanishes |
| `IvLoops.ExactIffFits` | lib/DerivedInductionVar.cpp:158-171 | in a loop of t iterations it is right throughout exactly under that condition |
| `IvBoundary.ExampleKeptIffFits` | lib/DerivedInductionVar.cpp:158-171 | a loop of three iterations with a 2-bit primary and an 8-bit variable, for every start and step: with all the pass is given in order, its result is the function with the closed form, and it shows the same on every run exactly when the step fits |
| `IvBoundary.NarrowPrimaryChangesMeaning` | lib/DerivedInductionVar.cpp:162-171 | with step 1 that loop returns start + 3 before the pass and start - 1 after it, modulo 256 |
| `IvLoops.OtherLoopKept` | lib/DerivedInductionVar.cpp:42-47 | rewriting one loop keeps what is assumed of another |
| `IvLoops.AllPoint` | lib/DerivedInductionVar.cpp:109-200 | the rewritings of all derived PHIs compose, and a PHI marked for erasure keeps having no uses |
| `IvRuns.RewriteInStep` | lib/DerivedInductionVar.cpp:149-190 | rewriting one PHI, its own increment included: the functions differ in the new registers only, and a kept PHI still carries its value |
| `IvRuns.EraseInStep` | lib/DerivedInductionVar.cpp:201-204 | erasing PHIs without uses changes nothing but their registers |
| `IvSsa.IvVerified` | lib/DerivedInductionVar.cpp:42-205 | the pass keeps strict SSA form, whatever scalar evolution says |
| `IvExact.DerivedReplaced` | lib/DerivedInductionVar.cpp:53-190 | with a primary every other header PHI that is an affine recurrence with constant start and step has no use left in the loop, and the header computes start + cast(primary) * step at its width |
| `IvExact.PhiGoesIff` | lib/DerivedInductionVar.cpp:173-205 | a header PHI is gone exactly if it is one of those, was used in the loop and is not used outside |
| `IvExact.NoCounterNothing` | lib/DerivedInductionVar.cpp:53-105 | if no header PHI starts at 0 and goes up by 1, nothing happens |
| `IvExact.OutsideUntouched` | lib/DerivedInductionVar.cpp:173-205 | blocks outside the loop stay as they are |
| `IvSound.RecursKept` | lib/DerivedInductionVar.cpp:61-71 | a recurrence true before a rewriting is true after it |
| `IvSound.NewRun` | lib/DerivedInductionVar.cpp:157-171 | the inserted instructions compute the closed form |
| `IvMath.WideIsExact` | lib/DerivedInductionVar.cpp:165-171 | with a primary at least as wide, start + trunc(primary) * step is the variable modulo 2^w in every iteration |
| `IvMath.NarrowIff` | lib/DerivedInductionVar.cpp:162-171 | with a narrower primary, in iteration k, exactly when the wraps so far make no difference |
| `IvMath.NarrowIsExactEarly` | lib/DerivedInductionVar.cpp:162-171 | with a p-bit primary it is right for all k < 2^(p-1) |
| `IvMath.NarrowAtHalf` | lib/DerivedInductionVar.cpp:162-171 | at k = 2^(p-1) it is right exactly when 2^p * step is 0 modulo 2^w |
| `IvMath.ExactIff` | lib/DerivedInductionVar.cpp:158-171 | for all of the first t iterations exactly when it fits |
| `DerivedInductionVar.FindPrimary` | lib/DerivedInductionVar.cpp:53-78 | the first integer header PHI with start 0 and step 1 |
| `DerivedInductionVar.FindDerived` | lib/DerivedInductionVar.cpp:80-99 | the other affine header PHIs, in order |
| `DerivedInductionVar.InsertClosedForm` | lib/DerivedInductionVar.cpp:149-171 | the cast, product and sum are put after the PHIs |
| `DerivedInductionVar.ReplaceUsesInLoop` | lib/DerivedInductionVar.cpp:173-190 | exactly the uses in the loop are replaced |
| `DerivedInductionVar.NothingToReplace` | lib/DerivedInductionVar.cpp:183-186 | without uses in the loop only the insertion remains |
| `DerivedInductionVar.RewritePhi` | lib/DerivedInductionVar.cpp:109-200 | one derived PHI: skipped unless start and step are constant; erased later only if it had uses in the loop and has none left |
| `DerivedInductionVar.EraseUnused` | lib/DerivedInductionVar.cpp:201-204 | the marked PHIs go, in any order |
| `DerivedInductionVar.ProcessInnermost` | lib/DerivedInductionVar.cpp:49-205 | the in-place code on one innermost loop |
| `DerivedInductionVar.ProcessLoopAndSubloops` | lib/DerivedInductionVar.cpp:42-47 | the recursion processes the innermost loops of the tree, one after the other (`InnermostIs`, `InnermostOnce`); a loop without subloops is processed itself |
| `DerivedInductionVar.InnermostIs` | lib/DerivedInductionVar.cpp:43-48 | a loop is processed exactly if it is the loop of a node of the tree that has no subloops |
| `DerivedInductionVar.InnermostOnce` | lib/DerivedInductionVar.cpp:43-48 | if the loops differ, each of those is processed once and no other at all |
| `DerivedInductionVar.NestIsInner` | lib/DerivedInductionVar.cpp:43-48 | of a loop in a loop the inner one is processed, and nothing else happens |
| `MbaSound.MbaPreserves` | lib/MBAAdd.cpp:41-126 | both passes: the same blocks, the same memory and the same value in every original register after every number of blocks |
| `MbaSsa.MbaVerified` | lib/MBAAdd.cpp:41-126 | both passes keep strict SSA form |
| `MbaExact.EveryByteAddExpanded` | lib/MBAAdd.cpp:46-113 | every addition of two 8-bit integers, in every block, has become the chain of eight instructions with its constants, in new registers and at last its own |
| `MbaExact.EverySubExpanded` | lib/MBASub.cpp:44-77 | every subtraction of two integers, of any width, has become (a + ~b) + 1 |
| `MbaExact.NoSubAnywhere` | lib/MBASub.cpp:44-77 | after MBASub no block of the layout has a subtraction of integers, of any width |
| `MbaExact.OthersStay` | lib/MBAAdd.cpp:46-68 | every other instruction is still in its block as it was |
| `MbaSound.ExpandRuns` | lib/MBAAdd.cpp:46-113 | an expanded body does what the body did; only new registers differ |
| `MbaSound.AddValue` | lib/MBAAdd.cpp:73-100 | (((a ^ b) + 2 * (a & b)) * 39 + 23) * 151 + 111 is a + b modulo 256 |
| `MbaSound.SubValue` | lib/MBASub.cpp:60-64 | (a + ~b) + 1 is a - b modulo 2^w for every w |
| `Bits.XorAndAnd` | lib/MBAAdd.cpp:89-97 | exclusive or plus twice the carries is the sum, for every width |
| `Bits.SubIdentity` | lib/MBASub.cpp:60-64 | the subtraction identity on residues |
| `Bits.AffineIdentity` | lib/MBAAdd.cpp:76-100 | the constants 39, 23, 151 and 111 cancel modulo 256 |
| `MbaSpec.SameResults` | lib/MBAAdd.cpp:106-108 | every original instruction keeps its place and register: one instruction of the result for each, in order |
| `MbaSpec.ExpandedLength` | lib/MBAAdd.cpp:46-113 | each match adds the fixed number of instructions, and without a match nothing changes |
| `MbaSpec.NoSubLeft` | lib/MBASub.cpp:44-77 | no subtraction is left |
| `Mba.RewriteAt` | lib/MBAAdd.cpp:46-113 | one iteration: the walk continues after the replaced instruction, past everything it inserted |
| `Mba.RunOnBasicBlock` | lib/MBAAdd.cpp:41-115 | every matching original instruction is rewritten once, inserted ones never; reports a change exactly if there was a match |
| `Mba.Run` | lib/MBASub.cpp:81-90 | the in-place pass over all blocks in layout order |

## Left out

- MergeBoundary.MergingPhisChangesMeaning: shows that merging blocks whose PHIs do not match can change the meaning; that every such merge does is not claimed, since the differing value may never be read.
- IvBoundary.ExampleKeptIffFits: one shape of loop; a closed form that does not fit need not change what a run shows, since the variable may be dead.
- LicmBoundary.LeavingAnOperandChangesMeaning: one function, for every constant in it; a hoisted instruction with an operand left behind need not change what a run shows, since its value may be dead.
- DuplicateThenMerge.MergeAfterDuplicate: when the body has no value at all the second clone may be merged into yet another block with the same instructions, so only its being erased for no other body is stated.
- IvSound.RecursKept: recurrences are hypotheses about runs; how scalar evolution finds them in the instructions is not part of this model.
- MbaSound.MbaPreserves: constant folding inside the instruction builder, and the order in which C++ evaluates the arguments that build the MBAAdd chain, are not modelled; the chain is built left to right.
- Use lists: uses are found by looking at all operands, and all uses in a block are replaced in one step; the order of a use list is not modelled.
- The transient state of cloneBB in which a joining PHI stands between instructions of the tail: PHIs are a separate list of a block, so it cannot be expressed.
- What the deletion of a dead block does beyond dropping its PHI entries, such as folding a PHI that is left with one entry.
- Poison, undef, `nsw` and `nuw` flags, exceptions, `invoke`, which blocks are landing pads (a set given to DuplicateBB), tokens and metadata: values are integers, and not safe to speculate means that an operation may trap.
- Operands of debug intrinsics are metadata and not uses; for DuplicateBB they are absent.
- Loop and dominator-tree construction, preheader detection and the safety analysis: their results are inputs.
- Statistics, printing, plugin registration, the pass managers and the command-line tool: no algorithm.
- ConvertFCmpEq and FindFCmpEq: floating-point rounding is the point there, and the pass changes meaning on purpose.
- StaticCallCounter, DynamicCallCounter, OpcodeCounter, InjectFuncCall, AffineRecurrence and HelloWorld: counting, calls to printf and printing; they would add easy members.
