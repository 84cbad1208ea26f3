# A verified model of the static recompiler and its runtime

The system translates x86 code of an Xbox executable to C ahead of time and links the result with a C runtime that
stands in for the console's kernel. This project models the parts of it that have something to get wrong, and proves
what they are for.

* **From machine code to C** (`Code`, `Scanner`, `Blocks`, `Emitter`, `Simulation`, `Divergence`, `Pipeline`). An image
  maps an address to a decoded instruction: its length, its control flow and the address it names. The worklist walk is
  proved to record the least set closed under fall-through, accepted branches and accepted jump-table targets. The merge
  at sealing keeps the covered addresses, and the linear sweep of the merged blocks gives back exactly the discovered
  instructions. On top of these three the emitted labels and gotos are shown to simulate the guest, instruction by
  instruction, over runs of any length, for an arbitrary effect of each instruction, an arbitrary branch oracle and
  arbitrary callees. `Divergence` says where the C and the guest part company, and exactly when they never do.
* **The function graph and its phases** (`Nodes`, `GraphSpec`, `FunctionGraphs`, `PhaseHelpers`, `RegisterPhase`,
  `DiscoveryStep`, `DiscoverPhase`, `GapFill`, `MergePhase`, `Validate`). The graph is a class over mutable nodes, and
  each method is proved to act as a function on graph values. Whole runs, the order of additions, the fixed point of
  discovery and what becomes of every function are theorems about those values.
* **The critical-section shadow table** (`ShadowTable`, `CriticalSections`, `CriticalProgress`). A linear-probe table that
  never shrinks, created under a reader/writer lock with a second look, below a recursive lock with a checked Leave.
  Threads interleave one memory access or lock operation at a time. Beside safety in every interleaving it is proved who
  waits for whom, and that a call with nobody in its way returns.
* **SHA-1, HMAC and RC4** (`Sha1Spec`, `Sha1`, `Sha1Example`, `Hmac`, `Rc4`). The buffered code against the one-shot
  definitions of FIPS 180-4 and RFC 2104, with the standard's own example worked out.
* **Runtime services** (`Flags`, `Unicode`, `Heap`, `VirtualMemory`, `CodeScan`, `Waitables`).

Where the source keeps state in place the model does too: classes with fields and arrays, loops with invariants, each
method tied to a function of its old state. 32-bit arithmetic is written out wherever the code can wrap. Where a
specification function follows the code closely, a second statement of the same result is made without it, with its tests
and constants written out (`DiscoveredKeepsApart`, `StepInPlainTerms`, `MergedSo`, `IsRegistered`, `IsSchedule` and others).

## What the model shows about the code

* `BreakpointIsDropped`: a block that stops before an `int3` or an undecodable byte has no statement for it, so where the
  guest runs into it the C runs on into the next block's text. `NeverAstrayExactly` and `BodyFollowsExactly` say when this
  cannot happen, whatever the data: exactly when each instruction that falling through and direct jumps lead to is
  translated and falls only into another instruction of the function. Code reached through a jump table alone does not
  count. `SealedFollowsExactly` says it of every function the phases seal; a declared end can break it (`CutFallsOff`).
* `LateCallee` and `LeaveLate`: gap filling tries only the functions that are registered when its one round begins, so a
  function first called in that round ends without code, and the gate, for which it is an entry point, passes. `EndsSo`
  says of every function whether it ends registered or sealed.
* `MergeSealsExactly`: settling one parked branch removes every branch parked at its site, so sealing needs one answer a
  site, not one a branch; the phases park each site with the one target its instruction names, so for the graphs they
  build the two agree (`SealedByTarget`).
* `PulseLetsNobodyThrough`: a pulse sets and clears the event under one hold of the lock, so waiters wake and go back to
  sleep, and no wait succeeds.
* `GrantedIsFresh` and `WrapOverlaps`: a granted heap block lies in free RAM exactly when neither 32-bit sum of its
  request wrapped; two requests that wrap are given.
* `AlignsExactly`: a heap block starts at a multiple of its alignment for every mark exactly when the alignment is a power
  of two; `OddAlignment` is a request a guest can make that is misplaced.
* `LoopNeverEnds`: the test of the SHA-1 block loop wraps when the bytes waiting and one Update's input reach 2^32 together,
  and then the loop goes on for ever; below that (`LoopEnds`) the digest is right.
* `SemaphoreBounds`: a negative release can take a semaphore below zero; its bounds hold through a run exactly when no
  release takes more than there is.
* `LowThresholdReportsNothing`: a data-region threshold below 1 yields empty regions; from 1 on the regions are exact.
* `EntryOwnsItself`: the function containing an entry point is the one that starts there, so the second rule of the
  gap-fill clean-up, for a gap function inside an earlier one, never applies. The binary search of the first rule finds
  an address exactly when one of the extents its halving probes holds it (`SearchFinds`); the last extent to start at or
  before the address is always probed, one that reaches over later ones need not be (`NestedExtentIsMissed`).
* A parked call is recorded as a tail call when its target appears, while a call resolved at once stays a call. The
  model follows the code.

## Model

| member | source | states |
|---|---|---|
| Scanner.FunctionScanner.DiscoverBlocks | src/OgXbox.Recomp.Codegen/Analysis/FunctionScanner.cs:59-193 | the walk ends; below the 4096-block cap the recorded instructions are exactly the least closed set, and always its blocks are tiled by them and its branch, call, table and label records are those of the recorded instructions; and in plain terms: a direct jump is recorded as a branch if and only if it leaves the extent or goes to a known entry point other than its own, what it jumps to otherwise is recorded where it decodes, and a known entry point is recorded only where an instruction runs into it |
| Scanner.InPlainTerms | src/OgXbox.Recomp.Codegen/Analysis/FunctionScanner.cs:77-183 | any discovery result, its instructions, branches, callees, tail calls and tables, said with every test written out, and that each instruction but the entry follows a recorded one |
| Scanner.WholeInPlainTerms | src/OgXbox.Recomp.Codegen/Analysis/FunctionScanner.cs:77-183 | a least closed result leaves out no instruction that one of its own falls into, jumps to within the function or reaches by a table |
| Scanner.WalkBlock | src/OgXbox.Recomp.Codegen/Analysis/FunctionScanner.cs:96-188 | walking one block from the queue keeps the walk invariant and the termination measure |
| Scanner.Dequeue | src/OgXbox.Recomp.Codegen/Analysis/FunctionScanner.cs:91-94 | taking an entry from the queue keeps the walk invariant and lowers the measure |
| Scanner.DedupInstructions | src/OgXbox.Recomp.Codegen/Analysis/FunctionScanner.cs:195-200 | the instruction list becomes strictly increasing with the same elements |
| Scanner.VisitKeepsInv | src/OgXbox.Recomp.Codegen/Analysis/FunctionScanner.cs:108-183 | one visited instruction keeps closedness up to what is queued, reachability, tiling and the exact records |
| Code.TileCovers | src/OgXbox.Recomp.Codegen/Analysis/FunctionScanner.cs:96-188 | every byte of a walked block belongs to one of its instructions |
| Blocks.MergeBlocks | src/OgXbox.Recomp.Codegen/FunctionNode.cs:149-174 | the sorting and merging code computes the merged blocks |
| Blocks.SealedBlocksCorrect | src/OgXbox.Recomp.Codegen/FunctionNode.cs:149-174 | merged blocks are in order with a gap after each, cover the same addresses, and each starts where some block started |
| Nodes.SealKeepsContainment | src/OgXbox.Recomp.Codegen/FunctionNode.cs:144-199 | sealing changes `ContainsAddress` for no address |
| Nodes.DiscoveredContains | src/OgXbox.Recomp.Codegen/FunctionNode.cs:97-122 | after discovery the size reaches every block, so a function contains each address of its blocks |
| Nodes.GrowIsLeast | src/OgXbox.Recomp.Codegen/FunctionNode.cs:97-122 | and no further: the size is the one before or ends with some block |
| Nodes.FunctionNode.Discover | src/OgXbox.Recomp.Codegen/FunctionNode.cs:97-122 | moves a registered node to discovered with its blocks, instructions, labels and grown size |
| Nodes.FunctionNode.Seal | src/OgXbox.Recomp.Codegen/FunctionNode.cs:144-178 | a node that can seal becomes its sealed value |
| Nodes.FunctionNode.ContainsAddress | src/OgXbox.Recomp.Codegen/FunctionNode.cs:185-199 | an address is contained if and only if it is within the bounds, and the function has no blocks, or the authority is Config or Pdata, or a block holds it |
| Nodes.FunctionNode.TryResolveAgainst | src/OgXbox.Recomp.Codegen/FunctionNode.cs:243-258 | the backward removal loop turns exactly the branches parked on the new entry into tail calls, last first, and keeps the rest in order |
| Nodes.ClaimSplits | src/OgXbox.Recomp.Codegen/FunctionNode.cs:243-258 | claimed edges and branches left parked together are the branches parked before, none lost and none doubled |
| Emitter.Emit | src/OgXbox.Recomp.Codegen/Emit/CEmitter.cs:39-118 | the three sweeps produce the body; a label stands for an address if and only if it is swept and was labelled by discovery, is a table target or the target of a swept direct jump; a jump out goes by name exactly where its target has one |
| Emitter.InsnStarts | src/OgXbox.Recomp.Codegen/Emit/CEmitter.cs:48-58 | the first sweep collects the swept addresses |
| Emitter.BranchLabels | src/OgXbox.Recomp.Codegen/Emit/CEmitter.cs:61-68 | the pre-scan adds exactly the direct-branch targets that are instruction starts |
| Emitter.GotosHaveOneLabel | src/OgXbox.Recomp.Codegen/Emit/CEmitter.cs:72-98 | every goto in the body of a function with merged blocks names a label that is defined exactly once |
| Simulation.SweptIsDiscovered | src/OgXbox.Recomp.Codegen/Emit/CEmitter.cs:77-98 | without overlaps the sweep of the merged blocks visits exactly the function's instructions, each once, in order, even where a declared end cuts the last one short |
| Simulation.NextInText | src/OgXbox.Recomp.Codegen/Emit/CEmitter.cs:77-98 | the next text is that of the instruction that follows in memory if and only if that one was discovered |
| Simulation.StepMatches | src/OgXbox.Recomp.Codegen/Emit/CEmitter.cs:611-663 | one guest instruction is matched by one or two statements of the body |
| Simulation.BodySimulatesGuest | src/OgXbox.Recomp.Codegen/Emit/CEmitter.cs:39-118 | every guest run that stays on discovered, translated instructions performs the same effects and calls in the same order in the body and leaves by the same exit |
| Simulation.BodyFollowsGuest | src/OgXbox.Recomp.Codegen/Emit/CEmitter.cs:39-118 | while the guest does not go astray, whatever the body has done after any number of statements the guest does too, and a body that has finished did so as the guest |
| Simulation.GuestMatchesBodyExit | src/OgXbox.Recomp.Codegen/Emit/CEmitter.cs:39-118 | if the guest stays on course, a body that finishes does so as the guest does |
| Divergence.FallsInside | src/OgXbox.Recomp.Codegen/Analysis/FunctionScanner.cs:99-106 | a fall-through is discovered if and only if it decodes to code inside the extent |
| Divergence.AstrayAtPadding | src/OgXbox.Recomp.Codegen/Analysis/FunctionScanner.cs:99-106 | a translated instruction leads the guest astray only by falling into padding, undecodable bytes or past the extent |
| Divergence.ExitsLeaveTheFunction | src/OgXbox.Recomp.Codegen/Analysis/FunctionScanner.cs:77-82 | a direct jump that leaves does so to an address the walk does not accept or cannot decode |
| Divergence.NeverAstray | src/OgXbox.Recomp.Codegen/Analysis/FunctionScanner.cs:96-188 | a function that stays on course never goes astray, under any machine; any function, whole or cut |
| Divergence.NeverAstrayExactly | src/OgXbox.Recomp.Codegen/Analysis/FunctionScanner.cs:96-188 | no run of a function goes astray, whatever its instructions compute and its branches decide, if and only if every instruction reached by falling through and direct jumps is translated and falls only into another instruction of the function |
| Divergence.SoundInExtent | src/OgXbox.Recomp.Codegen/Analysis/FunctionScanner.cs:96-188 | in a whole discovery an instruction is so if and only if it is translated and falls only into code of the extent: not into padding, undecodable bytes or past the end |
| Divergence.ReachesIsLeast | src/OgXbox.Recomp.Codegen/Analysis/FunctionScanner.cs:96-188 | those instructions are the least set with the entry that falling through and direct jumps inside the function do not leave |
| Divergence.BodyFollowsExactly | src/OgXbox.Recomp.Codegen/Emit/CEmitter.cs:39-118 | under the same condition and no other, the body never does anything the guest does not, under any machine; for any blocks made of the function's instructions, cut or not |
| Divergence.ExitsAgree | src/OgXbox.Recomp.Codegen/Emit/CEmitter.cs:39-118 | under that condition the body finishes with an exit, state and trace if and only if the guest leaves with them |
| Divergence.BodyRunsOn | src/OgXbox.Recomp.Codegen/Emit/CEmitter.cs:77-98 | where the guest goes astray the body goes on with the next text in address order, which lies further on |
| Divergence.BreakpointIsDropped | src/OgXbox.Recomp.Codegen/Analysis/FunctionScanner.cs:102-106 | a function whose body returns where the guest hits a breakpoint |
| Pipeline.MergeKeepsWalked | src/OgXbox.Recomp.Codegen/Phases/Phases.cs:227-257 | after merging every function still holds the result of a discovery, its blocks merged if it is sealed |
| Pipeline.SealedRunsLikeGuest | src/OgXbox.Recomp.Codegen/Emit/CEmitter.cs:39-118 | the body of every sealed function the phases built simulates its guest code, configured functions included, whose code ends at the declared end |
| Pipeline.SealedFollowsExactly | src/OgXbox.Recomp.Codegen/Emit/CEmitter.cs:39-118 | for every such function, cut at its declared end or at the block cap as it may be: its guest never goes astray, and its body never does anything the guest does not, exactly when the function stays on course |
| Pipeline.SealedExitsAgree | src/OgXbox.Recomp.Codegen/Emit/CEmitter.cs:39-118 | and then body and guest finish alike |
| Pipeline.SoundBelow | src/OgXbox.Recomp.Codegen/Phases/PhaseHelpers.cs:56-64 | a cut takes soundness exactly from the instructions that fall through to its end or past it |
| Pipeline.CutFallsOff | src/OgXbox.Recomp.Codegen/Phases/PhaseHelpers.cs:56-64 | a declared end that cuts off a return: the guest falls past the end and the body off its own |
| Pipeline.CapSpans | src/OgXbox.Recomp.Codegen/Phases/PhaseHelpers.cs:56-64 | blocks cut at a declared end are made of the instructions below it, also where the end falls inside one |
| Pipeline.SealedByTarget | src/OgXbox.Recomp.Codegen/Phases/Phases.cs:227-257 | in the graphs the phases build, where a parked branch is the one its instruction makes, a discovered function ends sealed if and only if it has blocks and every parked target is answered |
| Pipeline.RegisteredIsReady | src/OgXbox.Recomp.Codegen/Phases/Phases.cs:21-53 | the graph registration leaves meets what the later phases ask for |
| Pipeline.Analyse | src/OgXbox.Recomp.Codegen/Phases/Phases.cs:325-327 | discovery ends closed and, unless it meets its cap, with only unstartable functions registered; gap filling keeps every other function; at the end it is known of every function whether it is registered or sealed and why, where its direct calls go, and that past registration it holds the result of a discovery from its entry, merged if sealed; no function discovered walks on through a jump to an entry point that was there before |
| Pipeline.Run | src/OgXbox.Recomp.Codegen/Phases/Phases.cs:321-329 | the same from the configuration and the sections on, through the scan to the gate: all six phases in a row; a direct jump to a configured function is a branch of every other function that discovery walks |
| Pipeline.EndsSo | src/OgXbox.Recomp.Codegen/Phases/Phases.cs:117-257 | a function ends registered if and only if it is unstartable or first called in the last round of discoveries, and sealed if and only if it is an import, or neither of these and all its parked targets are answered |
| Pipeline.CallsSettled | src/OgXbox.Recomp.Codegen/Phases/Phases.cs:117-257 | every direct call of the result goes to an entry point, the thunk table or a gap function that was dropped |
| Pipeline.LateCallee | src/OgXbox.Recomp.Codegen/Phases/Phases.cs:134-135 | a graph in which a gap function calls into the middle of the next segment, where code starts: that function stays registered |
| Pipeline.LeaveLate | src/OgXbox.Recomp.Codegen/Phases/Phases.cs:117-310 | so it ends without code, and the gate passes |
| Validate.Run | src/OgXbox.Recomp.Codegen/Phases/Phases.cs:264-310 | the gate passes if and only if nothing was reported before and every direct call and unconditional jump the walk of a block meets has its target in the function's bounds, at an entry point or in some function |
| Validate.CleanInPlainTerms | src/OgXbox.Recomp.Codegen/Phases/Phases.cs:272-308 | the same of each call and jump of each block, with the three ways to land written out |
| Pipeline.GateExactly | src/OgXbox.Recomp.Codegen/Phases/Phases.cs:264-310 | for functions whose instructions do not overlap it looks at exactly the instructions that are emitted, and at nothing of what is left registered |
| RegisterPhase.RegisteredStarts | src/OgXbox.Recomp.Codegen/Phases/Phases.cs:21-53 | registration leaves sealed imports and registered functions with their declared sizes only |
| RegisterPhase.Run | src/OgXbox.Recomp.Codegen/Phases/Phases.cs:21-53 | the imports are sealed, then entry point, seeds and configured functions are registered, the first to name an address giving its size |
| RegisterPhase.RegisteredInPlainTerms | src/OgXbox.Recomp.Codegen/Phases/Phases.cs:21-53 | for every address whether it enters the graph, and with which authority, state and size: four bytes for an import, none for the entry point and the seeds, else that of the first configured function there |
| GapFill.SplitChains | src/OgXbox.Recomp.Codegen/Phases/Phases.cs:140-166 | the segments of a region are nonempty and end to end, from its start to its end or past it |
| GapFill.SplitCuts | src/OgXbox.Recomp.Codegen/Phases/Phases.cs:140-166 | segments are cut exactly after the returns and known jumps a linear walk meets |
| GapFill.SplitOnTerminators | src/OgXbox.Recomp.Codegen/Phases/Phases.cs:140-166 | the loop yields those segments |
| GapFill.FillSegment | src/OgXbox.Recomp.Codegen/Phases/Phases.cs:125-132 | a gap function is added if and only if its start is no entry point, lies in no function and does not look like data; the addition itself is that of AddFunction |
| GapFill.SearchFinds | src/OgXbox.Recomp.Codegen/Phases/Phases.cs:190-201 | the binary search finds an address if and only if one of the extents its halving probes holds it |
| GapFill.LastIsFound | src/OgXbox.Recomp.Codegen/Phases/Phases.cs:190-201 | an address in the last extent to start at or before it is found, and where extents end in the order they start so is every address in any |
| GapFill.AbsorbedIsInside | src/OgXbox.Recomp.Codegen/Phases/Phases.cs:204-217 | an absorbed gap function starts inside another function |
| GapFill.InsideLastIsAbsorbed | src/OgXbox.Recomp.Codegen/Phases/Phases.cs:204-217 | a gap function inside the last other function to start at or before it is absorbed |
| GapFill.NestedExtentIsMissed | src/OgXbox.Recomp.Codegen/Phases/Phases.cs:180-218 | a graph in which a gap function inside another function survives the clean-up |
| GapFill.EntryOwnsItself | src/OgXbox.Recomp.Codegen/Phases/Phases.cs:211-215 | an entry point lies in no earlier function, so the second rule never applies |
| GapFill.CleanupAbsorbed | src/OgXbox.Recomp.Codegen/Phases/Phases.cs:180-218 | the graph loses exactly its absorbed gap functions, those the search finds inside another function |
| GapFill.FillRegion | src/OgXbox.Recomp.Codegen/Phases/Phases.cs:123-133 | the segments of a region are filled one after the other |
| GapFill.NoGapIsLeft | src/OgXbox.Recomp.Codegen/Phases/Phases.cs:123-133 | after filling, every segment of every code region starts at an entry point, inside some function or at what looked like data |
| GapFill.Run | src/OgXbox.Recomp.Codegen/Phases/Phases.cs:117-138 | the regions are filled, one discovery round is run and exactly the absorbed gap functions are removed; other functions keep their entry, authority and, once discovered, their blocks; nothing stale is left; the functions left registered are exactly those still there that are unstartable, and all that only the round's discoveries call; and each function discovered was told the entry points of all others that are not gap functions, so a direct jump to one is an edge or a parked branch |
| GapFill.ToldRound | src/OgXbox.Recomp.Codegen/Phases/Phases.cs:134-135 | what being told those entry points means for every function the round discovers |
| GraphSpec.RunKeepsNoStale | src/OgXbox.Recomp.Codegen/FunctionGraph.cs:60-77 | over any run of additions, removals, branches, retries and seals no unsealed node holds a parked branch to an entry point |
| GraphSpec.AdditionsSort | src/OgXbox.Recomp.Codegen/FunctionGraph.cs:164-186 | after any additions the entry points are those added, and each function's branches are resolved exactly where the target is an entry point and parked otherwise |
| GraphSpec.OrderDoesNotMatter | src/OgXbox.Recomp.Codegen/FunctionGraph.cs:408-413 | any two orders of the same additions resolve and park the same multisets of site and target in the same functions |
| GraphSpec.ResolveAllEffect | src/OgXbox.Recomp.Codegen/FunctionGraph.cs:193-227 | a retry leaves parked exactly the branches at sites where none settles |
| GraphSpec.ResolveTwice | src/OgXbox.Recomp.Codegen/FunctionGraph.cs:193-227 | a second retry changes nothing and settles none |
| FunctionGraphs.FunctionGraph.AddFunction | src/OgXbox.Recomp.Codegen/FunctionGraph.cs:60-77 | turned away exactly by a function of at least its authority in the order GapFill, Discovered, Vtable, Helper, Pdata, Config, Import; else it replaces what was there with no code, and every other unsealed function's parked branches to it, and no others, become tail calls |
| FunctionGraphs.FunctionGraph.NotifyFunctionAdded | src/OgXbox.Recomp.Codegen/FunctionGraph.cs:408-413 | every unsealed node but the new one claims its branches to the new entry |
| FunctionGraphs.FunctionGraph.RemoveFunction | src/OgXbox.Recomp.Codegen/FunctionGraph.cs:95-101 | removes one entry point from the map and the sorted index |
| FunctionGraphs.FunctionGraph.GetFunctionContaining | src/OgXbox.Recomp.Codegen/FunctionGraph.cs:104-117 | the binary search finds the function with the greatest entry at or below the address, if it contains it, and else none |
| FunctionGraphs.FunctionGraph.AddUnresolvedJumpToFunction | src/OgXbox.Recomp.Codegen/FunctionGraph.cs:164-186 | a branch to an entry point is appended to the calls or the tail calls, any other is parked with its flags, and nothing else changes |
| FunctionGraphs.FunctionGraph.TryResolveFunction | src/OgXbox.Recomp.Codegen/FunctionGraph.cs:193-227 | the loop over a snapshot of the parked branches is the retry function and counts what it settled |
| FunctionGraphs.FunctionGraph.TrySealFunction | src/OgXbox.Recomp.Codegen/FunctionGraph.cs:232-239 | seals one function if it can be |
| FunctionGraphs.FunctionGraph.SealAllReady | src/OgXbox.Recomp.Codegen/FunctionGraph.cs:241-254 | seals exactly the functions that can be and counts them |
| MergePhase.MergeSealsExactly | src/OgXbox.Recomp.Codegen/Phases/Phases.cs:227-257 | a function ends sealed if and only if it was discovered and is an import, or has blocks and at every parked site a target in its own extent, an entry point or inside some function |
| MergePhase.MergeSealsByTarget | src/OgXbox.Recomp.Codegen/Phases/Phases.cs:227-257 | where sites have one target, if and only if every parked target is so answered |
| MergePhase.MergeKeepsContainment | src/OgXbox.Recomp.Codegen/Phases/Phases.cs:227-257 | merging changes the containment of no address in any function |
| MergePhase.PassIsQuiet | src/OgXbox.Recomp.Codegen/Phases/Phases.cs:232-238 | one retry round reaches the fixed point |
| MergePhase.ResolveRound | src/OgXbox.Recomp.Codegen/Phases/Phases.cs:234-237 | one round over the pending functions, in any order, and it reports no change on a quiet graph |
| MergePhase.SecondChance | src/OgXbox.Recomp.Codegen/Phases/Phases.cs:243-252 | branches into the middle of another function become tail calls to it, site by site |
| MergePhase.Run | src/OgXbox.Recomp.Codegen/Phases/Phases.cs:227-257 | the phase computes the merged graph in at most two rounds of its thirty-two |
| MergePhase.MergedSo | src/OgXbox.Recomp.Codegen/Phases/Phases.cs:232-256 | what merging makes of every unsealed function's branches: its own addresses become labels, entry points calls or tail calls as the branch was parked, what is left a tail call to the function that holds its target, and nothing else is added |
| PhaseHelpers.DiscoverOne | src/OgXbox.Recomp.Codegen/Phases/PhaseHelpers.cs:34-78 | the new graph is exactly: an import sealed, or the node filled with a discovery, its callees registered and its branches added; a function that stays registered does so for a stated reason |
| PhaseHelpers.StepAddsBranches | src/OgXbox.Recomp.Codegen/Phases/PhaseHelpers.cs:66-77 | discovering a function adds exactly the branches of its discovery to it, resolved or parked, while registering its callees loses none anywhere |
| DiscoveryStep.StepInPlainTerms | src/OgXbox.Recomp.Codegen/Phases/PhaseHelpers.cs:35-79 | the whole step from a result to the graph: cut blocks, labels with table targets, callees of four bytes except at the thunk table, and each branch a call, a tail call or parked with its flags |
| PhaseHelpers.DiscoveredKeepsApart | src/OgXbox.Recomp.Codegen/Phases/PhaseHelpers.cs:13-22 | a function discovered with known entry points has an edge or a parked branch for each direct jump to another of them, and holds one only where its code runs into it |
| PhaseHelpers.CapBlocks | src/OgXbox.Recomp.Codegen/Phases/PhaseHelpers.cs:56-64 | blocks are cut at the declared end: what is left covered is what was, below the end |
| PhaseHelpers.DiscoverPendingFunctions | src/OgXbox.Recomp.Codegen/Phases/PhaseHelpers.cs:25-32 | a round tries every function that was registered when it began, each with exactly the known entry points it was given, and returns how many those were |
| PhaseHelpers.StepSprings | src/OgXbox.Recomp.Codegen/Phases/PhaseHelpers.cs:66-70 | discovering a function registers only functions that one of its instructions calls |
| PhaseHelpers.RoundLeaves | src/OgXbox.Recomp.Codegen/Phases/PhaseHelpers.cs:25-32 | after a round a function is registered if and only if it is unstartable or came in during the round |
| DiscoverPhase.ExpandCalls | src/OgXbox.Recomp.Codegen/Phases/Phases.cs:77-87 | the first loop ends settled, or at its cap after at least 63 additions; every function it discovers was told at least the entry points there were before, and none but entry points |
| DiscoverPhase.ExpandVtables | src/OgXbox.Recomp.Codegen/Phases/Phases.cs:101-110 | so does the second |
| DiscoverPhase.Run | src/OgXbox.Recomp.Codegen/Phases/Phases.cs:69-112 | the phase ends closed: every direct call goes to an entry point or the thunk table, every vtable slot in a code region is an entry point, every function past registration holds a discovery from its entry, and, unless 63 functions were added, the functions still registered are exactly those whose entry cannot be recorded or whose declared extent wraps; and every function it discovers was told the entry points of all the others there were before |
| DiscoverPhase.ToldApart | src/OgXbox.Recomp.Codegen/Phases/Phases.cs:80-107 | so a direct jump to one of those is an edge or a parked branch of the function, and the function holds its code only where it runs into it |
| ShadowTable.KeyCollapsesMirrors | runtime/kernel/kernel_rtl.c:248-257 | addresses have the same key exactly when they agree modulo the RAM size, up to addresses 0 and 1 |
| ShadowTable.ProbeIsLookup | runtime/kernel/kernel_rtl.c:261-270 | probing finds a key, at its one slot, if and only if it is in the table |
| ShadowTable.OneSlot | runtime/kernel/kernel_rtl.c:272-299 | a key has at most one slot |
| ShadowTable.InsertCorrect | runtime/kernel/kernel_rtl.c:282-299 | creation keeps every key in its slot and adds the key unless the table is full |
| ShadowTable.RefusedForEver | runtime/kernel/kernel_rtl.c:272-309 | a full table never changes again |
| ShadowTable.CsTable.CsProbe | runtime/kernel/kernel_rtl.c:261-270 | the probe loop over the array |
| ShadowTable.CsTable.CsSlotFor | runtime/kernel/kernel_rtl.c:272-309 | lookup, and creation in the first empty slot |
| CriticalSections.ReachableInv | runtime/kernel/kernel_rtl.c:272-350 | the invariant of every interleaving: table lock, published slots, what each thread knows, owner and depth against the native lock |
| CriticalSections.MutualExclusion | runtime/kernel/kernel_rtl.c:311-322 | at most one thread has Enters outstanding on a key that has a slot |
| CriticalSections.DepthIsOutstanding | runtime/kernel/kernel_rtl.c:311-345 | outside its own Enter and Leave on a slot, calls on other sections included, the depth is the holder's outstanding Enters and the owner names it; unheld slots are clear |
| CriticalSections.LeaveByStranger | runtime/kernel/kernel_rtl.c:333-342 | a Leave is turned away, by the owner test or the depth test after it, exactly when its thread has nothing outstanding, and then changes nothing |
| CriticalSections.ReleaseIsOwn | runtime/kernel/kernel_rtl.c:343-344 | the native lock is only released by the thread that holds it |
| CriticalSections.SlotsAreForEver | runtime/kernel/kernel_rtl.c:259-299 | whatever threads do, a key keeps its one slot and probing finds it |
| CriticalSections.RefusedForEver | runtime/kernel/kernel_rtl.c:301-308 | a key refused by a full table is never at a slot, so no Leave releases what its Enter did not take |
| CriticalProgress.WaitsExactly | runtime/kernel/kernel_rtl.c:272-345 | a thread in a call stays where it is if and only if it waits for another: for the table lock, or, at the section's lock, for one with Enters outstanding or one that has just acquired it; every other step brings the call nearer its end, of at most 782 |
| CriticalProgress.HeldUpBy | runtime/kernel/kernel_rtl.c:272-345 | whoever waits, there is another thread that can move or that has not left the section: the table lock never brings the callers to a halt |
| CriticalProgress.EnterReturns | runtime/kernel/kernel_rtl.c:311-322 | an Enter with nobody in its way, run alone, returns with one Enter more, holding the slot at that depth, or with a full table |
| CriticalProgress.EnterAgain | runtime/kernel/kernel_rtl.c:205-216 | the lock is recursive: a thread in a section enters it again, one deeper, in a bounded number of steps |
| CriticalProgress.LeaveReturns | runtime/kernel/kernel_rtl.c:324-345 | a Leave returns whoever is in the section, with one Enter less if there was one, and the last one leaves the lock to anybody |
| CriticalProgress.InitializeReturns | runtime/kernel/kernel_rtl.c:347-350 | an Initialize returns with a slot for the key, or a full table, and is no Enter |
| Sha1Spec.PaddingFits | runtime/kernel/kernel_crypto.c:180-184 | the number of zeros is the least that brings the length to 56 modulo 64 |
| Sha1.Schedule | runtime/kernel/kernel_crypto.c:68-78 | the word schedule of section 6.1.2 of FIPS 180-4 |
| Sha1.RunRounds | runtime/kernel/kernel_crypto.c:80-107 | the eighty rounds with the rewritten selection functions are those of the standard |
| Sha1.Transform | runtime/kernel/kernel_crypto.c:62-113 | one block is compressed into the state in place |
| Sha1.SelectAgrees | runtime/kernel/kernel_crypto.c:87-98 | the code's selection functions equal the standard's |
| Sha1.CountAdds | runtime/kernel/kernel_crypto.c:141-144 | the two count words hold the bit length modulo 2^64, carry included |
| Sha1.CountPosition | runtime/kernel/kernel_crypto.c:138 | the low count word gives the position in the block |
| Sha1.CountBytes | runtime/kernel/kernel_crypto.c:173-176 | the bytes written for the count are the 64-bit big-endian bit length |
| Sha1.ShaContext.Update | runtime/kernel/kernel_crypto.c:130-161 | from a context that holds `m`, any input for which the block loop ends leaves one that holds `m` and the input |
| Sha1.NoWrap | runtime/kernel/kernel_crypto.c:151 | the loop test does not wrap while bytes waiting and input stay below 2^32 together |
| Sha1.LoopNeverEnds | runtime/kernel/kernel_crypto.c:151 | otherwise its index passes the test after any number of rounds |
| Sha1.ShaContext.PadTo56 | runtime/kernel/kernel_crypto.c:180-184 | the padding loop ends and adds 0x80 and the zeros of section 5.1.1 of FIPS 180-4 |
| Sha1.ShaContext.Final | runtime/kernel/kernel_crypto.c:163-196 | the digest is the SHA-1 of everything taken in |
| Sha1Example.Abc | runtime/kernel/kernel_crypto.c:62-196 | the example of the standard, SHA-1("abc"), round by round to its digest |
| Hmac.HashPieces | runtime/kernel/kernel_crypto.c:115-196 | Init, Updates that cut a message anywhere, and Final give the SHA-1 of the whole message |
| Hmac.XcHMAC | runtime/kernel/kernel_crypto.c:257-311 | HMAC-SHA1 of section 2 of RFC 2104 for every key length, a function of Data1 followed by Data2 only |
| Hmac.HmacInPlainTerms | runtime/kernel/kernel_crypto.c:270-311 | the two padded key blocks byte by byte, with 0x36 and 0x5C, a key of more than 64 bytes being hashed first |
| Rc4.Rc4Context.Key | runtime/kernel/kernel_crypto.c:205-227 | key setup in place is RC4's: there are 257 states from the identity on and as many indices from 0 on, each index adding the byte at its place and the key byte, each state exchanging the two places, and the last is the state; an empty key changes nothing |
| Rc4.ScheduleExists | runtime/kernel/kernel_crypto.c:214-223 | the schedule of any key, round by round |
| Rc4.Rc4Context.Crypt | runtime/kernel/kernel_crypto.c:229-248 | the data is exclusive-ored in place with the bytes of a run of the generator, each from its two indices, the exchange and the sum that names the byte, and the context is left at the end of that run |
| Rc4.StreamExists | runtime/kernel/kernel_crypto.c:238-247 | any number of keystream bytes is such a run |
| Rc4.SetupIsPermutation | runtime/kernel/kernel_crypto.c:214-223 | key setup gives a permutation of 0..255 |
| Rc4.StreamKeepsPermutation | runtime/kernel/kernel_crypto.c:238-247 | no amount of data breaks it |
| Rc4.PiecesAgree | runtime/kernel/kernel_crypto.c:229-248 | crypting in pieces is crypting at once |
| Rc4.CryptTwiceRestores | runtime/kernel/kernel_crypto.c:229-248 | crypting again from an equal state restores the data |
| Flags.ConditionsMatch | src/OgXbox.Recomp.Codegen/Emit/CEmitter.cs:692-713 | after a compare of zero-extended 8-, 16- or 32-bit operands each condition holds exactly when the signed or unsigned comparison it stands for does, parity being that of the ones in the low byte |
| Flags.LogicComparesWithZero | runtime/ogxbox_runtime.h:93-99 | after a logical operation each condition compares the result with zero |
| Flags.AddOverflows | runtime/ogxbox_runtime.h:100-108 | after an add carry is unsigned overflow and overflow is signed overflow |
| Flags.AddFlagsOfResult | runtime/ogxbox_runtime.h:100-108 | its sign is the top bit of the sum, its parity that of the ones in the low byte, its auxiliary carry the carry out of the low four bits |
| Flags.CmpBorrows | runtime/ogxbox_runtime.h:109-117 | the auxiliary carry of a compare is the borrow into the low four bits |
| Flags.ParityOfLowByte | runtime/ogxbox_runtime.h:98-116 | the parity flag counts the ones of the low byte |
| Flags.AddLimbs | src/OgXbox.Recomp.Codegen/Emit/CEmitter.cs:438-447 | ADD and then ADCs over 32-bit limbs give the exact sum and carry for any number of limbs |
| Unicode.RoundTrip | runtime/platform/win32_compat.c:1149-1216 | UTF-16 to UTF-8 and back is the identity on every sequence of 16-bit units |
| Unicode.ShortestForm | runtime/platform/win32_compat.c:1197-1208 | the bytes of a unit have the form section 3 of RFC 3629 gives its range |
| Unicode.LeadByRange | runtime/platform/win32_compat.c:1158-1176 | what any bytes decode to, by the range of the lead byte: two, three and four byte forms, continuation bytes unchecked, and a lead byte cut short or none at all standing for itself |
| Unicode.TextDecodes | runtime/platform/win32_compat.c:1149-1183 | every well-formed UTF-8 text decodes code point by code point, with '?' for those above 16 bits |
| Unicode.BytesDecode | runtime/platform/win32_compat.c:1171-1173 | on any other code page each byte is a unit |
| Unicode.UnitsEncode | runtime/platform/win32_compat.c:1206-1208 | and each unit a byte, or '?' above 8 bits |
| Unicode.ZeroEndedRoundTrip | runtime/platform/win32_compat.c:1149-1216 | a zero-ended text keeps its end through both converters, so it can be passed on without a length and comes back whole |
| Unicode.MultiByteToWideChar | runtime/platform/win32_compat.c:1149-1183 | nothing for a null source; else, for a length or a text up to its first zero, without room the exact length, with room the whole text if and only if it fits, and else 0 with the room filled; nothing else is written |
| Unicode.WideCharToMultiByte | runtime/platform/win32_compat.c:1185-1216 | the same the other way; what does not fit is cut where the first unit begins that would run over |
| Heap.GrantedIsFresh | runtime/kernel/xbox_memory_layout.c:836-904 | a granted block lies between the mark and the top of RAM if and only if no 32-bit sum of its request wrapped |
| Heap.WrapOverlaps | runtime/kernel/xbox_memory_layout.c:836-844 | two requests that wrap and are granted over memory in use |
| Heap.RunsStack | runtime/kernel/xbox_memory_layout.c:803-913 | over any run of requests that do not wrap the blocks are disjoint, inside the heap and below the mark |
| Heap.PieceSize | runtime/kernel/xbox_memory_layout.c:821-913 | both kinds of request are given what they asked for, and no less than 4096 bytes |
| Heap.BlocksApart | runtime/kernel/xbox_memory_layout.c:803-913 | of two granted requests of such a run the earlier block ends before the later begins, each as long as it was asked |
| Heap.SmallRunsStack | runtime/kernel/xbox_memory_layout.c:803-913 | so it is for every run of requests of less than a quarter of the address space |
| Heap.PowersAlign | runtime/kernel/xbox_memory_layout.c:836 | a block starts at a multiple of an alignment that is a power of two |
| Heap.AlignsExactly | runtime/kernel/xbox_memory_layout.c:836 | a block is aligned as asked for every mark if and only if the alignment is a power of two, and up to 16 MB already for the marks inside the heap |
| Heap.OddAlignment | runtime/kernel/xbox_memory_layout.c:836 | alignment 0x1800 is misplaced at the first request |
| Heap.BumpHeap.Alloc | runtime/kernel/xbox_memory_layout.c:821-856 | the next mark and block, the block zeroed and no other byte changed; a block given without wrap-around lies at or above the old mark, the new mark is past the bytes asked for, and they are zero |
| Heap.BumpHeap.AllocAt | runtime/kernel/xbox_memory_layout.c:880-913 | the same at an exact base: refused below the mark or past RAM, else all the bytes asked for are reserved and cleared |
| VirtualMemory.QueriesTile | runtime/kernel/kernel_bridge.c:1176-1195 | the described regions tile [0, RAM) and an address is FREE if and only if it is at or above the mark |
| VirtualMemory.ScanEnds | runtime/kernel/kernel_bridge.c:1176-1195 | stepping by the reported size ends after at most five successes from any start, without wrapping |
| VirtualMemory.ScanCovers | runtime/kernel/kernel_bridge.c:1176-1195 | from the start of a region it reports every nonempty region from there to the top of RAM, end to end |
| VirtualMemory.NtQueryVirtualMemory | runtime/kernel/kernel_bridge.c:1145-1257 | the search loop, the failures and the seven words of the answer, written out for each of the five regions |
| VirtualMemory.NtAllocateVirtualMemory | runtime/kernel/kernel_bridge.c:388-463 | every outcome of the call: refusal of size 0, a commit that does nothing, a grant or no memory |
| VirtualMemory.AskedInPlainTerms | runtime/kernel/kernel_bridge.c:396-456 | what it asks of the heap and gets, in numbers: at the base named or the next page boundary, a page at least |
| VirtualMemory.ChosenBaseIsGranted | runtime/kernel/kernel_bridge.c:451-452 | a base is granted, at exactly that base, if and only if the map shows it FREE with room |
| VirtualMemory.MarksAreValid | runtime/kernel/kernel_bridge.c:1176-1182 | after any run of requests that do not wrap the map is well formed and shows every block as used |
| CodeScan.SegmentationExact | src/OgXbox.Recomp.Codegen/Phases/ScanPhase.cs:33-88 | code regions are in order and apart, every nonzero byte is in exactly one, a byte is left out if and only if the scan cuts out a zero run that holds it, such a byte sits in a long zero run, and without handlers exactly those do |
| CodeScan.LeftOutExactly | src/OgXbox.Recomp.Codegen/Phases/ScanPhase.cs:33-88 | from any offset on: the scan measures a run from where it comes to it, which after a table entry may be inside the run |
| CodeScan.TableEntriesAreCode | src/OgXbox.Recomp.Codegen/Phases/ScanPhase.cs:57-68 | four zero bytes and a handler's address that the scan comes to are code, all eight bytes |
| CodeScan.LongRunsAreOut | src/OgXbox.Recomp.Codegen/Phases/ScanPhase.cs:51-75 | any other zero run it comes to is left out whole if it is long enough from there |
| CodeScan.PlacedSegmentationExact | src/OgXbox.Recomp.Codegen/Phases/ScanPhase.cs:33-88 | the same of the addresses, once the regions are placed at the section base: order, exactly one region for each nonzero byte, and what is left out |
| CodeScan.SegmentCodeRegions | src/OgXbox.Recomp.Codegen/Phases/ScanPhase.cs:33-88 | the loop appends those regions, placed at the section base |
| CodeScan.DataRegionsExact | src/OgXbox.Recomp.Codegen/Phases/ScanPhase.cs:90-118 | data regions are exactly the maximal runs of all-zero or all-one words that reach a threshold of at least 1 |
| CodeScan.DataRegionsInBytes | src/OgXbox.Recomp.Codegen/Phases/ScanPhase.cs:90-118 | the same byte by byte |
| CodeScan.DataRegionsInOrder | src/OgXbox.Recomp.Codegen/Phases/ScanPhase.cs:90-118 | in order and apart |
| CodeScan.LowThresholdReportsNothing | src/OgXbox.Recomp.Codegen/Phases/ScanPhase.cs:97-117 | below 1 an ordinary word yields an empty region |
| CodeScan.DetectDataRegions | src/OgXbox.Recomp.Codegen/Phases/ScanPhase.cs:90-118 | the loop appends those regions, placed at the section base |
| CodeScan.Run | src/OgXbox.Recomp.Codegen/Phases/ScanPhase.cs:21-31 | every section is scanned for code and data regions, the settings taken as signed numbers |
| CodeScan.SectionsExact | src/OgXbox.Recomp.Codegen/Phases/ScanPhase.cs:21-31 | over sections that share no address, an address is in a code region if and only if its section's scan does not leave it out |
| Waitables.SemaphoreCounts | runtime/platform/win32_compat.c:515-526 | in every interleaving, negative releases included, waits never exceed the initial count plus releases less what is left, without a maximum none is lost, and with one the count does not pass it |
| Waitables.ReleaseBounds | runtime/platform/win32_compat.c:515-526 | a release keeps the bounds if and only if it does not take more than there is |
| Waitables.SemaphoreBounds | runtime/platform/win32_compat.c:515-526 | a semaphore stays within its bounds through a run if and only if no release of it takes more than there is |
| Waitables.AutoResetCounts | runtime/platform/win32_compat.c:378-385 | an auto-reset event admits at most one wait per SetEvent and one for its initial state |
| Waitables.PulseLetsNobodyThrough | runtime/platform/win32_compat.c:485-495 | an event that is only pulsed admits no wait |
| Waitables.MutexHolds | runtime/platform/win32_compat.c:545-557 | a mutex has an owner if and only if its recursion is positive, which is its owner's waits less its releases |
| Waitables.MutexExcludes | runtime/platform/win32_compat.c:366-383 | no two threads hold it at once |
| Waitables.NoLostWakeup | runtime/platform/win32_compat.c:360-376 | in every interleaving no thread sleeps on an object that would let it through |
| Waitables.LookDecides | runtime/platform/win32_compat.c:351-388 | after any run a thread that is not asleep gets through exactly by the object's fields, and one asleep is kept by them |
| Waitables.SemaphoreAdmits | runtime/platform/win32_compat.c:360-388 | a wait on a semaphore without a maximum gets through if and only if initial count and releases exceed the waits that did |
| Waitables.MutexAdmits | runtime/platform/win32_compat.c:360-388 | a wait on a mutex gets through if and only if no other thread holds it |
| Waitables.EventAdmits | runtime/platform/win32_compat.c:360-388 | a wait on an event gets through if and only if the event was left set, a wait that clears it included |
| Waitables.SignalLetsThrough | runtime/platform/win32_compat.c:464-557 | a signal lets a sleeper through that is the next to look |
| Waitables.Waitable.Try | runtime/platform/win32_compat.c:351-388 | one pass of the wait loop tests and takes in one step |
| Waitables.Waitable.SetEvent | runtime/platform/win32_compat.c:464-473 | signals an event and is refused on anything else |
| Waitables.Waitable.ResetEvent | runtime/platform/win32_compat.c:475-483 | unsignals it |
| Waitables.Waitable.PulseEvent | runtime/platform/win32_compat.c:485-495 | leaves it unsignaled, as a reset does |
| Waitables.Waitable.ReleaseSemaphore | runtime/platform/win32_compat.c:515-526 | adds, clamps to the maximum and reports the count before |
| Waitables.Waitable.ReleaseMutex | runtime/platform/win32_compat.c:545-557 | only the owner's call has an effect |

## Left out

- x86 decoding and jump-table detection: functions from addresses, of which nothing is assumed but 32-bit results.
- Operand text, data effects of single instructions, floating point: an arbitrary effect per instruction in `Simulation`.
- The stack effects of call and ret: the emitter does not model them; calls, returns and indirect jumps are events.
- Untranslated instructions: the runtime's `rex_unimplemented` is outside the model, so guest runs stop at them.
- Overlapping decodings of the same bytes: `NoOverlap` is asked of the discovered instructions.
- Address 0 and the last bytes of the address space: no instruction is mapped at 0 or runs into the top.
- The function-end extension at FunctionScanner.cs:175: its condition cannot hold, since the end is the region's.
- Direct call or tail call: branch results are on function, site and target, because a parked call becomes a tail call.
- Import references below the function case in `AddUnresolvedJumpToFunction` and `TryResolveFunction`: unreachable.
- OrderDoesNotMatter: not for removals or for replacing a function that has branches, which drops them.
- MarkFuncletRegisterSharing, IsVacant, ClassifyTarget, absorbed regions, chunks, names and cross references: flags and
  reports that no phase modelled here reads.
- Calls to a function the gap-fill phase removes or an addition replaces: their edges may outlive it.
- Exception data in code: an oracle of the gap-fill phase.
- Validate: whether anything is reported, not the messages. Configured sizes are inputs.
- VTable scanning: its slots are an input of the phase.
- CriticalSections: unbounded depth and lock count where the code has 32 bits; log-once flags.
- CriticalProgress: a call returns when run alone; which waiting thread a lock lets in next is the host's choice.
- Waitables: `sem_count` is a C long and `mtx_recursion` an int, both unbounded here.
- Sha1.ShaContext.Update: says nothing of an input that reaches 2^32 together with the bytes waiting, for which the loop
  never ends (`LoopNeverEnds`); nor do HashPieces and XcHMAC.
- Null pointers passed to the crypto calls: they return at once.
- XcHMAC: wiping of the temporaries.
- FlagsSub after SBB, the overflow flag of ADC, shift and divide flags: simplified by the code itself.
- Jcxz and Jecxz: they test a register, not flags.
- Flags: bitwise terms are modelled bit by bit on the bit the code keeps.
- BumpHeap: host mapping, mirror views and the payload arena; only addresses and bytes.
- NtAllocateVirtualMemory: the base and size cells as in-out values, so the two pointers do not alias.
- Waiting on several objects: polls, and consumes objects one by one.
- Waitables: deadlines; a wait may time out at any point while it is asleep or has just woken.
- Object reference counts, the APC queue and the handle table.
