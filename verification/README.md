# ConAnalysis in Dafny

ConAnalysis traces what a data race can reach. It has LLVM passes (a control dependence graph, a taint
analysis over call stacks, a taint pass for ad-hoc synchronisation loops, two index builders), a parser
for race reports, and a debugger-driven scheduler that tries to bring the racing threads to a stop
together. This project models those parts and proves what they compute.

| file | models |
|---|---|
| `Chains.dfy` | finite relations and non-empty chains |
| `ControlFlow.dfy` | functions, paths, path dominance and post-dominance, the post-dominator tree as an input |
| `ControlDependence.dfy`, `Regions.dfy`, `Upward.dfy` | what the edges of the control dependence graph mean, why inserting regions keeps that meaning, why the upward searches end |
| `Governing.dfy` | what a positive answer of `controls` means in terms of dependences |
| `DependenceGraph.dfy` | the graph object: `computeDependencies`, `insertRegions`, `influences`, `controls`, `enclosingRegion` |
| `EdgeCursor.dfy` | the edge iterator of a graph node |
| `DominatorSets.dfy` | the dominator worklist |
| `TaintRules.dfy`, `TaintWalks.dfy`, `Taint.dfy` | the interprocedural taint analysis: its rules, what a whole walk and a whole replay do, and the analysis object |
| `InfluenceTables.dfy` | the answers of finished graphs, as the taint analysis asks for them |
| `SyncLoop.dfy` | the sync-loop taint pass, which uses a `Graph` object |
| `Scheduler.dfy` | the breakpoint controller, as methods and as a transition system |
| `Indexes.dfy` | instruction numbers and per-line lists |
| `DangerousOps.dfy` | the two lists of dangerous operations and their locations |
| `FinalCount.dfy` | the count of operations under a corrupted branch, with the dominator sets it computes |
| `Report.dfy` | the race-report parser |

How the entities are represented:

- Blocks, values, functions and threads are identities (integers). A graph node is a `Node`: the root, a
  block's node or an allocated region. The four `std::set` members of all nodes are two relation-valued
  fields of the `Graph` that owns the nodes: `kids` holds (node, edge type, child), `parents` holds
  (node, parent).
- LLVM's post-dominator tree is an input. `TreeFor` is the assumption on it: every block is in it, so every
  block reaches an exit, and ancestry in the tree is post-dominance along paths. The post-order walk of the
  tree is an arbitrary enumeration of the blocks; the results hold for all of them.
- The loops at ControlDependenceGraph.cpp lines 240-250 and 259-266 erase from the set they iterate. The
  model iterates over a snapshot of that set.
- Iterating a `std::set` becomes picking elements in any order.
- The random choice of `release_bp` is a nondeterministic choice; each callback or tick runs under the
  process lock and is one method. Sleeping and retrying foreign calls is left out.
- Functions are compared by identity where the code compares names, which are unique in a module.
- A walk of the taint analysis is a sequence of states, one before and after each instruction. `Walked` says
  how each follows from the one before; at a call it refers to the walk of the callee, by recursion over the
  functions not on the stack. The methods return such walks as ghost results.
- The scheduler keeps, as a ghost field, the site where each parked thread stopped.
- `abort()` sets a flag on the analysis object, after which nothing more happens; the trigger's `terminate`
  never returns and is a final status.

What the code does that its users may not expect, all proved here:

- `controls` can run forever: exactly when the sole-parent walk comes back to one of its own nodes without
  meeting A after its start (`HaltsUnlessCircle`). A block that depends on nothing but its own branch always
  does this. `LOOP` is a function with such a block: two blocks, the second unreachable and branching to
  itself or to the first. `LoopTree` shows that it meets every assumption on LLVM's tree, `LoopNeverHalts`
  that `controls` does not end on any graph built for it. On a block reachable from the entry it always ends.
- `enclosingRegion` fails its assertion on a block whose only dependence is the root edge, and on a block
  without dependences; on all other blocks it succeeds.
- After `insertRegions`, a block with only the root edge is a child of the root without having a parent.
- `computeDominators` is exact on reachable blocks if and only if no block without predecessors, other than
  the entry, leads directly into a reachable block other than the entry.
- The enter/exit memo of the taint analysis compares sizes only. A skip still means set equality.
- A seeded GEP records its index under its base operand, a GEP corrupted through an operand records it under
  its first index operand. The model does the same, and `RecordedUnder` names both keys.
- In the sync-loop pass a branch that is corrupted by control only is never put on the local branch list.
  What it influences is corrupted all the same, because `influences` is transitive. All sets are cleared
  after each call (SyncLoopAnalysis.cpp lines 463-466), so every call starts with nothing corrupted, and
  `OwnBranch` is then every corrupted branch except the seed. The theorem also covers other starts.
- The final count is the number of operations with a corrupted branch on every path to them as long as those
  operations are reachable and no orphan block leads into a reachable one. Each other operation can only make
  it smaller.
- The list of corrupted branches is never cleared between seeds, so a stored branch may have been corrupted
  for an earlier seed only. A branch that is itself a frame instruction is corrupted without being listed.
- `release_bp` retries forever when it picks the entry of a thread that has exited (`Stalled`). This needs a
  suspended thread that resumed on its own first.
- A run of the scheduler contains a racing hit if and only if it ends halted, with that hit as its last event.

## Model

| member | source | states |
|---|---|---|
| `ControlDependence.WalkToCommonAncestor` | lib/CDG/ControlDependenceGraph.cpp:116-142 | for one CFG edge, the tree walk below the nearest common ancestor plus the loop case visits exactly the blocks that depend on the edge |
| `ControlDependence.SkippedEdge` | lib/CDG/ControlDependenceGraph.cpp:116 | an edge skipped because its target strictly post-dominates its source carries no dependence |
| `ControlDependence.EdgeTypeIsOutcome` | lib/CDG/ControlDependenceGraph.cpp:83-97 | the type under which an edge is filed is that of the branch outcome that takes it |
| `ControlDependence.DependencesComplete` | lib/CDG/ControlDependenceGraph.cpp:103-154 | all edges and the entry walk together give exactly the dependences as defined over the CFG |
| `ControlDependence.InfluencesTransitive` | lib/SyncLoop/SyncLoopAnalysis.cpp:322-331 | the path-based meaning of `influences` is transitive, which the sync-loop pass relies on |
| `DependenceGraph.Graph.AddParent` | lib/CDG/ControlDependenceGraph.cpp:42-46 | the asserted child edge is there at every call, and the parent set grows by exactly the parent |
| `DependenceGraph.Graph.WalkUp` | lib/CDG/ControlDependenceGraph.cpp:130-142 | adds exactly the tree nodes from a block up to, and not including, the stop, as mirrored child and parent edges |
| `DependenceGraph.Graph.ProcessEdge` | lib/CDG/ControlDependenceGraph.cpp:113-144 | adds exactly the dependences of one CFG edge |
| `DependenceGraph.Graph.ComputeDependencies` | lib/CDG/ControlDependenceGraph.cpp:99-155 | y is a true (false) child of x iff x ends in a conditional branch and y post-dominates the first (second) successor but does not strictly post-dominate x, a second successor equal to the first counting as the first; a child by the other type iff x ends otherwise and some successor does it; root children are the post-dominators of the entry; parents mirror children |
| `Regions.GroupRegion` | lib/CDG/ControlDependenceGraph.cpp:187-206 | attaching a new region under a dependence set keeps the description of all edges |
| `Regions.GroupMove` | lib/CDG/ControlDependenceGraph.cpp:210-225 | moving a block under its region, the root case included, keeps the description of all edges |
| `DependenceGraph.Graph.VisitBlock` | lib/CDG/ControlDependenceGraph.cpp:168-226 | one step of the post-order walk hangs its block under the region of its dependence set and changes no other block |
| `Regions.SplitStep` | lib/CDG/ControlDependenceGraph.cpp:237-252 | handing the children of one branch outcome to a new region leads from the exact edges of one form to the exact edges of the form with that place split |
| `DependenceGraph.Graph.SplitChildren` | lib/CDG/ControlDependenceGraph.cpp:236-253 | splits the place iff two different regions depend on it, splits no other, and the child and parent edges are exactly those of the resulting form |
| `Regions.CrowdedMeans` | lib/CDG/ControlDependenceGraph.cpp:231-236 | two regions depend on a branch outcome iff two blocks with different dependence sets do |
| `DependenceGraph.Graph.SplitBlocks` | lib/CDG/ControlDependenceGraph.cpp:228-270 | exactly the places with more than one true or more than one false child are split, and all edges are those of that form |
| `DependenceGraph.Graph.FinishedChildren` | lib/CDG/ControlDependenceGraph.cpp:228-270 | in a finished graph a block has at most one true and at most one false child, and has one iff some block depends, along paths, on that outcome |
| `Regions.DependenceKept` | lib/CDG/ControlDependenceGraph.cpp:157-271 | every typed dependence is still there as child edges: from the block to the region, directly or through the split region, and from the region to the dependent block |
| `Regions.RegionsPreserveChains` | lib/CDG/ControlDependenceGraph.cpp:157-271 | after the rewrite a non-empty parent chain joins two blocks iff a chain of dependences did before |
| `Regions.OneRegionParent` | lib/CDG/ControlDependenceGraph.cpp:210-225 | a block with a dependence beyond the root edge has exactly one parent, a region; any other block has none |
| `Regions.SharedRegion` | lib/CDG/ControlDependenceGraph.cpp:187-209 | two such blocks share their region iff their typed dependence sets are equal |
| `DependenceGraph.Graph.ArmsApart` | lib/CDG/ControlDependenceGraph.cpp:83-97 | in a finished graph two blocks, one on each arm of a branch and not both on both, judged by post-dominance along paths, never share a region |
| `Regions.RootOnlyLosesParent` | lib/CDG/ControlDependenceGraph.cpp:222-224 | in the finished graph a block with only the root edge is a child of the root but has no parent |
| `DependenceGraph.Graph.GraphForFunction` | lib/CDG/ControlDependenceGraph.cpp:273-276 | the recorded dependences are exactly those defined by paths, and child and parent edges are exactly those of the fully split region form over them |
| `DependenceGraph.Graph.ChainsMeanDependence` | lib/CDG/ControlDependenceGraph.cpp:157-271 | in a finished graph, parent chains between block nodes are exactly the chains of path-defined control dependence |
| `Upward.SearchStep` | lib/CDG/ControlDependenceGraph.cpp:299-308 | one round keeps all finished and queued nodes above the start and the finished part closed |
| `Upward.SearchDone` | lib/CDG/ControlDependenceGraph.cpp:299-311 | an empty queue means that no chain leads to the block asked for |
| `DependenceGraph.Graph.SearchUp` | lib/CDG/ControlDependenceGraph.cpp:295-311 | on any graph, cycles and duplicate queue entries included, ends and answers whether a parent chain exists |
| `DependenceGraph.Graph.Influenced` | lib/CDG/ControlDependenceGraph.cpp:289-312 | end to end: true iff both blocks are given and a non-empty chain of path-defined control dependences leads from B to A |
| `Upward.OtherwiseRunsForever` | lib/CDG/ControlDependenceGraph.cpp:281-285 | without a halting walk the loop of `controls` takes any number of rounds without answering |
| `Upward.HaltsUnlessCircle` | lib/CDG/ControlDependenceGraph.cpp:278-287 | the walk of `controls` never ends iff some sole-parent walk repeats a node without meeting A after its start |
| `Upward.SelfDependenceNeverHalts` | lib/CDG/ControlDependenceGraph.cpp:278-287 | in any finished graph, on a block whose dependence set is one edge from itself, `controls` never ends for any other A |
| `DependenceGraph.LoopTree` | lib/CDG/ControlDependenceGraph.cpp:99-155 | the two-block function with an unreachable self-loop satisfies every assumption on the post-dominator tree |
| `DependenceGraph.LoopNeverHalts` | lib/CDG/ControlDependenceGraph.cpp:278-287 | in every graph built for it the second block depends on its own branch only, and `controls` never ends |
| `Upward.PathGrounds` | lib/CDG/ControlDependenceGraph.cpp:147-154 | from any block post-dominating the end of an entry path, parents lead up to a parentless node |
| `Upward.NoOtherWalk` | lib/CDG/ControlDependenceGraph.cpp:281-286 | if the walk ended without meeting A, no sole-parent walk meets A |
| `DependenceGraph.Graph.Controls` | lib/CDG/ControlDependenceGraph.cpp:278-287 | on a halting walk, true iff a sole-parent walk leads from B to A |
| `DependenceGraph.Graph.ReachableHalts` | lib/CDG/ControlDependenceGraph.cpp:147-154 | `controls` halts on every block reachable from the entry |
| `Governing.FirstBlockGoverns` | lib/CDG/ControlDependenceGraph.cpp:281-285 | the first block a sole-parent walk from a block comes to is the one on which all its dependences are, and the block is not torn between split outcomes of it |
| `Governing.GovernedWalk` | lib/CDG/ControlDependenceGraph.cpp:281-285 | conversely, from such a block the sole-parent walk leads there, through one or two regions |
| `DependenceGraph.Graph.ControlsMeansGoverning` | lib/CDG/ControlDependenceGraph.cpp:278-287 | in a finished graph `controls` looks for a non-empty chain of such steps from B to A, and finds A iff there is one |
| `DependenceGraph.Graph.ControlsIsStronger` | lib/CDG/ControlDependenceGraph.cpp:278-287 | if `controls` is true then `influences` is, and every way up from B passes A that comes to a parentless node or is as long as the walk |
| `DependenceGraph.Graph.EnclosingRegion` | lib/CDG/ControlDependenceGraph.cpp:72-82 | succeeds iff the block has a dependence beyond the root edge, and then returns the region above it |
| `EdgeCursor.Cursor.Advance` | include/ConAnal/ControlDependenceGraph.h:62-76 | passes exactly one child, crossing empty sets, and stays put at the end |
| `EdgeCursor.Cursor.Delivers` | include/ConAnal/ControlDependenceGraph.h:40-90 | the cursor delivers the true, then the false, then the other children, each once, and its end is the end of that list |
| `EdgeCursor.Cursor.Find` | lib/CDG/ControlDependenceGraph.cpp:43 | the search in addParent's assertion finds a node iff it is in one of the three child sets |
| `DominatorSets.RoundUpdate` | lib/ConAnal/ConAnalysis.cpp:840-850 | storing a smaller set and queueing the successors keeps every equation of unqueued blocks |
| `DominatorSets.AlongPath` | lib/ConAnal/ConAnalysis.cpp:823-851 | with an empty worklist every block of a simple entry path was processed and kept only blocks of that path |
| `DominatorSets.OnlyDominators` | lib/ConAnal/ConAnalysis.cpp:823-851 | with an empty worklist every block in a set lies on every entry path |
| `DominatorSets.RoundComplete` | lib/ConAnal/ConAnalysis.cpp:826-841 | a round drops no dominator as long as no orphan leads into a reachable block |
| `DominatorSets.OrphanLosesEntry` | lib/ConAnal/ConAnalysis.cpp:807-813 | a predecessor-less block in front of a reachable one makes that one lose the entry |
| `DominatorSets.CompleteNeedsNoOrphan` | lib/ConAnal/ConAnalysis.cpp:807-851 | sets that hold all dominators imply that no orphan leads into a reachable block |
| `DominatorSets.DominatorAnalysis.Round` | lib/ConAnal/ConAnalysis.cpp:823-851 | one round keeps the invariants and lowers (total set size, worklist length) |
| `DominatorSets.DominatorAnalysis.ComputeDominators` | lib/ConAnal/ConAnalysis.cpp:800-852 | terminates; sets hold only path dominators; they hold all of them on reachable blocks iff no orphan leads into a reachable block |
| `TaintRules.ProvenanceAppend` | lib/ConAnal/ConAnalysis.cpp:120-127 | appending a justified value keeps every entry justified by strictly earlier ones |
| `TaintRules.SameSizeSameSet` | lib/ConAnal/ConAnalysis.cpp:575-582 | for a set that only grows, equal size is equality |
| `TaintRules.PointerKey` | lib/ConAnal/ConAnalysis.cpp:556-561 | an instruction with recorded indices leads back to a corrupted GEP recorded under it |
| `TaintRules.HandedOn` | lib/ConAnal/ConAnalysis.cpp:443-447 | an index list handed from an actual to a formal still leads back to the GEPs recorded under the actual |
| `TaintRules.SameIndexMeans` | lib/ConAnal/ConAnalysis.cpp:612-637 | equal recorded indices means the same number of operands, two or three, and the same index operands |
| `TaintRules.ControllingGrows` | lib/ConAnal/ConAnalysis.cpp:485-502 | stored branch lists stay within the listed branches influencing listed calls while both lists grow |
| `TaintWalks.ForwardFlow` | lib/ConAnal/ConAnalysis.cpp:664-688 | whatever is corrupted by the time a non-call instruction is reached corrupts it through its operands, for good |
| `TaintWalks.StoreFlow` | lib/ConAnal/ConAnalysis.cpp:672-674 | a store that its operands newly corrupt corrupts its target |
| `TaintWalks.IndexFlow` | lib/ConAnal/ConAnalysis.cpp:612-663 | a GEP that its operands newly corrupt is matched by every later GEP with the same index on its first index operand |
| `TaintWalks.CallIgnored` | lib/ConAnal/ConAnalysis.cpp:528-586 | indirect calls, intrinsics, calls of functions on the stack and calls skipped by the memo change nothing but stored lists |
| `TaintWalks.FormalCorrupted` | lib/ConAnal/ConAnalysis.cpp:546-611 | the formal of a called, unskipped function is corrupted whenever its actual is |
| `TaintWalks.FormalUsed` | lib/ConAnal/ConAnalysis.cpp:590-611 | inside the callee whatever uses a corrupted formal is corrupted; a plain instruction that was clean until then corrupts the call itself |
| `TaintWalks.IndexHanded` | lib/ConAnal/ConAnalysis.cpp:443-447 | indices recorded under an argument reach the callee: a GEP on the formal with one of them is corrupted |
| `TaintWalks.BodylessCorrupted` | lib/ConAnal/ConAnalysis.cpp:564-572 | a corrupted argument of a function without a body corrupts the call |
| `TaintWalks.SkippedAgain` | lib/ConAnal/ConAnalysis.cpp:573-611 | an analysis that records its entry is followed by a skip iff it corrupted nothing |
| `TaintWalks.StoredAt` | lib/ConAnal/ConAnalysis.cpp:474-526 | under cross-function control only, a dangerous operation has its list stored; unless it is a call, exactly the listed branches influencing a listed call |
| `TaintWalks.CrossFunction` | lib/ConAnal/ConAnalysis.cpp:474-604 | a branch corrupted before a call that it influences is, in the callee, in the stored list of every dangerous pointer operation, not itself a call, that no branch of the callee influences |
| `TaintWalks.Uncontrolled` | lib/ConAnal/ConAnalysis.cpp:481-604 | as long as no branch is corrupted, a walk outside cross-function control lists no call and stores nothing, however deep it calls |
| `TaintWalks.WalkGrows` | lib/ConAnal/ConAnalysis.cpp:452-690 | nothing corrupted, listed, stored or recorded is ever lost during a walk, and the memo of functions on the stack stays |
| `TaintWalks.SeedFlow` | lib/ConAnal/ConAnalysis.cpp:304-327 | every seeded frame instruction corrupts the later non-call users in its function |
| `TaintWalks.SeedIndexFlow` | lib/ConAnal/ConAnalysis.cpp:391-408 | a seeded GEP is matched by the later GEPs of its function with the same base and index |
| `TaintWalks.FrameResumes` | lib/ConAnal/ConAnalysis.cpp:323-327 | if the caller's frame instruction stays clean, the frame's walk corrupted no plain instruction and seeded nothing new |
| `Taint.ConAnalysis.Add` | lib/ConAnal/ConAnalysis.cpp:120-127 | the list stays a duplicate-free enumeration of the set, with provenance |
| `Taint.ConAnalysis.EnterFrame` | lib/ConAnal/ConAnalysis.cpp:379-417 | where a frame's walk starts (at its first occurrence, after it when it is a call), what it seeds, and the exact state and abort flag afterwards |
| `Taint.ConAnalysis.PassArguments` | lib/ConAnal/ConAnalysis.cpp:430-450 | exactly the formals with corrupted actuals become corrupted, the pointer table becomes exactly the one with each actual's indices under its formal, and when it gives up early nothing changes |
| `Taint.ConAnalysis.CtrlDepBranches` | lib/ConAnal/ConAnalysis.cpp:485-502 | duplicate-free list of exactly the listed branches that influence some listed call of their function |
| `Taint.ConAnalysis.NoteDangerous` | lib/ConAnal/ConAnalysis.cpp:474-526 | which map gets which list at which location, and when nothing is stored; all stored lists keep their meaning |
| `InfluenceTables.TabulateAll` | lib/ConAnal/ConAnalysis.cpp:421-425 | the answers taken from finished graphs are exactly the influences defined by paths |
| `InfluenceTables.InfluencedMeans` | lib/ConAnal/ConAnalysis.cpp:456-466 | a branch is taken to influence an instruction iff both are in one function with a graph and, along its paths, the branch's block influences the instruction's |
| `InfluenceTables.StoredBranchesInfluence` | lib/ConAnal/ConAnalysis.cpp:485-502 | every branch in a stored list was corrupted for one of the seeds analysed, or listed before, and influences, along the paths of its function, the block of a listed call |
| `Taint.ConAnalysis.GepStep` | lib/ConAnal/ConAnalysis.cpp:612-663 | corrupted iff an equal index was recorded for its base or an operand is corrupted; the exact pointer table afterwards; when it aborts |
| `Taint.ConAnalysis.AddBranch` | lib/ConAnal/ConAnalysis.cpp:668-683 | a branch corrupted by its condition is listed, and all invariants, that listed branches were corrupted included, are kept |
| `Taint.ConAnalysis.PlainStep` | lib/ConAnal/ConAnalysis.cpp:664-688 | exactly which values, branch entries and result one plain instruction adds |
| `Taint.ConAnalysis.EnterCallee` | lib/ConAnal/ConAnalysis.cpp:573-586 | skips iff both recorded sizes equal the current one, and then the set equals the one at the recorded entry and last exit |
| `Taint.ConAnalysis.CallStep` | lib/ConAnal/ConAnalysis.cpp:528-611 | the exact outcome of a call on the whole state: passed over, absorbed, skipped, or analysed as a walk of the callee; the call stack is restored |
| `Taint.ConAnalysis.AnalyseCallee` | lib/ConAnal/ConAnalysis.cpp:590-611 | analysing a callee terminates, restores the stack and records the exit; the state afterwards is that at the end of a walk of the callee from the caller's state with the arguments passed, plus the call iff that walk corrupted a plain instruction |
| `Taint.ConAnalysis.StepInstruction` | lib/ConAnal/ConAnalysis.cpp:452-690 | one instruction of the walk, calls included: first what it stores, then its exact effect on the whole state |
| `Taint.ConAnalysis.WalkBody` | lib/ConAnal/ConAnalysis.cpp:451-690 | the walk is a trace of states, each following from the one before by one instruction; positive iff a plain instruction was newly corrupted; the formal of every called, unskipped function is corrupted whenever its actual is |
| `Taint.ConAnalysis.IntraDataflow` | lib/ConAnal/ConAnalysis.cpp:371-691 | terminates on recursive programs, restores the stack, keeps provenance and stored lists; from a callee's start it is a walk of the whole body after the arguments are passed, from a frame instruction a walk of the rest; positive iff that walk corrupted a plain instruction or the frame seed was clean |
| `Taint.ConAnalysis.ReplayFrame` | lib/ConAnal/ConAnalysis.cpp:313-328 | one frame of a replay: the walk of its function from the frame instruction on, under the stack from there outward, after which a positive result corrupts the caller's frame instruction |
| `Taint.ConAnalysis.AnalyseHead` | lib/ConAnal/ConAnalysis.cpp:304-329 | replays the whole stack, frame after frame, from cleared sets; every entry of the list is justified by strictly earlier entries, an equal index only when it was recorded under the same base; every frame seed is corrupted |
| `Taint.ConAnalysis.GetCorruptedIRs` | lib/ConAnal/ConAnalysis.cpp:301-368 | per seed one replay from the state the seed before left, and one duplicate-free list with that provenance enumerating the corrupted set it ends with; the branch list ends with what it began with plus branches on these lists, all of them except frame instructions; every stored list holds only listed branches influencing a listed call |
| `SyncLoop.CoverStep` | lib/SyncLoop/SyncLoopAnalysis.cpp:322-409 | one instruction keeps: own branches are listed or under an earlier listed one, and everything under a listed one is corrupted |
| `SyncLoop.InfluencedAfterBranch` | lib/SyncLoop/SyncLoopAnalysis.cpp:319-410 | what is laid out after a branch corrupted by the pass and influenced by it is corrupted |
| `SyncLoop.DataFollowed` | lib/SyncLoop/SyncLoopAnalysis.cpp:332-409 | along a pass every user of a value corrupted before its turn is corrupted, a clean store reached so corrupts its target and a clean branch is listed, unless a corrupted branch controls it |
| `SyncLoop.IndexFollowed` | lib/SyncLoop/SyncLoopAnalysis.cpp:332-385 | a GEP that its operands newly corrupt is matched by every later GEP with the same index on its first index operand |
| `SyncLoop.PassCompletes` | lib/SyncLoop/SyncLoopAnalysis.cpp:319-410 | from the seed on, whatever uses the starting set, and whatever lies after a branch the pass corrupted and under it, is corrupted |
| `SyncLoop.SyncLoopAnalysis.GepStep` | lib/SyncLoop/SyncLoopAnalysis.cpp:332-385 | corrupted iff an equal index is recorded under its base or an operand is corrupted; the exact pointer table afterwards |
| `SyncLoop.SyncLoopAnalysis.Step` | lib/SyncLoop/SyncLoopAnalysis.cpp:322-409 | the exact state after one instruction, through control and through data, when a branch is listed, and when the pass aborts |
| `SyncLoop.SyncLoopAnalysis.IntraFlow` | lib/SyncLoop/SyncLoopAnalysis.cpp:290-412 | the pass as a whole, against a finished graph: its trace of states, provenance, data flow through uses and stores, and completeness under path-defined control dependence; its result says whether the seed was clean or data newly corrupted something |
| `Scheduler.RunKeepsSafe` | scripts/conbreak/src/trigger/trigger.py:180-310 | in every run, spurious resumes and exits of tracked threads included, parked ids are distinct and no two parked entries race |
| `Scheduler.RunHaltsAtFirstRace` | scripts/conbreak/src/trigger/trigger.py:196-221 | a run contains a hit that races with a parked entry iff it ends halted, and then that hit is its last event and its only racing one |
| `Scheduler.RunKeepsTracked` | scripts/conbreak/src/trigger/trigger.py:170-310 | without spurious resumes the suspended threads are exactly the tracked ones, throughout every run |
| `Scheduler.RunNeverStalls` | scripts/conbreak/src/trigger/trigger.py:284-310 | without spurious resumes no release ever picks a thread that has exited |
| `Scheduler.HaltSuspends` | scripts/conbreak/src/trigger/trigger.py:203-213 | a halt leaves exactly the matched threads and the triggering one suspended |
| `Scheduler.HitLeavesOneRunning` | scripts/conbreak/src/trigger/trigger.py:219-226 | a hit that does not halt never leaves every thread of a valid process suspended |
| `Scheduler.HandledActs` | scripts/conbreak/src/trigger/trigger.py:415-429 | handling a list of threads is a run of the controller's own events |
| `Scheduler.SitesApart` | scripts/conbreak/src/trigger/trigger.py:377-429 | parked threads never stand at racing sites: at different lines, or lines with one text, with an address in common |
| `Scheduler.SiteHalts` | scripts/conbreak/src/trigger/trigger.py:421-426 | handling a thread whose site races with that of a parked thread halts |
| `Scheduler.HandledFits` | scripts/conbreak/src/trigger/trigger.py:415-429 | whatever a callback parks has the addresses of its thread's site, as a write iff that is the write line |
| `Scheduler.UntrackedInOrder` | scripts/conbreak/src/trigger/trigger.py:121-150 | threads are handled in the order in which the process lists them |
| `Scheduler.AtMostOneStale` | scripts/conbreak/src/trigger/trigger.py:114-119 | with distinct ids the stale list has at most one index |
| `Scheduler.Controller.Match` | scripts/conbreak/src/trigger/trigger.py:377-389 | exactly the (address, thread) pairs on which the new entry races |
| `Scheduler.Controller.ResumeThreads` | scripts/conbreak/src/trigger/trigger.py:170-178 | afterwards only excepted threads are suspended |
| `Scheduler.Controller.ReleaseBp` | scripts/conbreak/src/trigger/trigger.py:284-310 | releases one live parked thread and its entry, stalls for good on a dead one, or changes nothing |
| `Scheduler.Controller.BreakpointMatchCheck` | scripts/conbreak/src/trigger/trigger.py:180-226 | is exactly the hit event |
| `Scheduler.Controller.ForgetStale` | scripts/conbreak/src/trigger/trigger.py:454-456 | the ascending deletion stays in range and drops exactly the triggering thread's entry |
| `Scheduler.Controller.HandleThreads` | scripts/conbreak/src/trigger/trigger.py:415-429 | performs the listed threads' events in order up to the first halt or abort |
| `Scheduler.Controller.ReadCallback` | scripts/conbreak/src/trigger/trigger.py:391-435 | handles exactly the untracked stopped threads; every parked entry fits the site where its thread stopped, and the callback halts when the first thread's site races with that of a parked one; when it continues a valid process, a thread is running, a stale entry of the triggering thread included |
| `Scheduler.Controller.WriteCallback` | scripts/conbreak/src/trigger/trigger.py:437-480 | the same after forgetting the triggering thread's stale entry |
| `Scheduler.Controller.Tick` | scripts/conbreak/src/trigger/trigger.py:229-260 | exactly when a tick releases, exactly when it gives up, and that it does nothing else; a release on a dead thread stalls it |
| `Indexes.AtLineMembers` | lib/Misc/Inst2Int/Inst2Int.cpp:40-45 | a line's list holds exactly the instructions located there |
| `Indexes.AtLineIncreasing` | lib/Misc/Inst2Int/Inst2Int.cpp:39-45 | numbers increase along each line's list |
| `Indexes.NumbersFollowProgram` | lib/Misc/Inst2Int/Inst2Int.cpp:33-45 | numbers follow the program: function after function, and inside a function from first to last |
| `Indexes.Inst2Int.CreateMaps` | lib/Misc/Inst2Int/Inst2Int.cpp:33-59 | on a fresh object: numbers 1 to N in module order, one to one; line lists as specified; the result says whether every instruction has a location |
| `DangerousOps.DangerOpLabel.FindDangerousOp` | lib/DOL/DangerOpLabel.cpp:66-143 | over the whole module, each list holds each (function, location) of a dangerous instruction once and nothing else, and each location map gains exactly those locations |
| `DangerousOps.DangerOpLabel.MayCallMeans` | lib/DOL/DangerOpLabel.cpp:89-119 | a call is dangerous iff some listed function is its callee, intrinsics aside, or may be reached by it indirectly |
| `DangerousOps.RecordedIsIndexed` | lib/ConAnal/ConAnalysis.cpp:720-721 | every recorded location has a non-empty list in the line map, so the lookup and front() succeed |
| `FinalCount.StopInBlock` | lib/ConAnal/ConAnalysis.cpp:750-757 | the cut inside the operation's own block is the cut in the whole body |
| `FinalCount.Verdict.RecordedResolves` | lib/ConAnal/ConAnalysis.cpp:720-744 | for every recorded operation all lookups succeed: its line, the instruction's function, and that function's blocks |
| `FinalCount.Verdict.CollectDominating` | lib/ConAnal/ConAnalysis.cpp:746-758 | collects exactly the instructions of the given blocks, cut off at the operation, and flags exactly a corrupted branch among them |
| `FinalCount.Verdict.GetFeasiblePath` | lib/ConAnal/ConAnalysis.cpp:783-798 | true iff some listed value is among the dominating instructions |
| `FinalCount.Verdict.SetsAlongPaths` | lib/ConAnal/ConAnalysis.cpp:736-758 | vulnerable by the computed sets implies a corrupted branch, no later than the operation, in a block on every entry path; and conversely if the operation is reachable and no orphan leads into a reachable block |
| `FinalCount.Verdict.StaysDecided` | lib/ConAnal/ConAnalysis.cpp:729-735 | a verdict does not depend on what the cache of dominator sets gains later |
| `FinalCount.Verdict.Judge` | lib/ConAnal/ConAnalysis.cpp:722-771 | an operation counts iff the names match and, by the dominator sets computed for its function, a corrupted branch is among the dominating instructions; cached sets never change |
| `FinalCount.Verdict.GetDominators` | lib/ConAnal/ConAnalysis.cpp:708-781 | the number is exactly that of the operations vulnerable by the computed sets; at most that of operations under a corrupted branch on every path, at least that of the regular ones among them, and equal if all are regular |
| `Report.CheckBlockIntegrity` | scripts/tsanOutputParser.py:45-53 | the number of the last separator line |
| `Report.TakeStackLine` | scripts/tsanOutputParser.py:164-188 | what a stack line changes, in which half it is taken, and what an interceptor line closes |
| `Report.RunNormalSyncLoop` | scripts/tsanOutputParser.py:120-218 | the files are exactly the completed pairs of the visible lines, numbered in order, each one line of a write section then one of a read section |
| `Report.FirstTakenIsFirst` | scripts/tsanOutputParser.py:164-188 | the line taken for a half is the first eligible one since the last flush, if there is one |
| `Report.SyncIsFirstPairs` | scripts/tsanOutputParser.py:120-218 | after every line: a file for every pair completed so far and no other, and pending are the first eligible lines since the last completed pair or separator |
| `Report.VerifierSections` | scripts/tsanOutputParser.py:164-188 | in verifier mode eligible means standing in an open write section, or in an open read section |
| `Report.OpenWithoutInterceptor` | scripts/tsanOutputParser.py:164-188 | outside verifier mode too a section is open as long as nothing closes it and no interceptor line is met |
| `Report.InterceptorHides` | scripts/tsanOutputParser.py:166-183 | outside verifier mode nothing is taken after an interceptor line before the next header or block start |
| `Report.SyncFilesGood` | scripts/tsanOutputParser.py:164-217 | along every report: each file is a stack line of an open write section then one of an open read section, with no separator between them, and pending lines and flags agree with the sections |
| `Report.SyncAppendOnly` | scripts/tsanOutputParser.py:45-53 | appending text to a report only adds files after those already written |
| `Report.RunNormalConAnalysis` | scripts/tsanOutputParser.py:220-284 | the files are exactly the groups of eligible lines between blank lines and block ends |
| `Report.ConConserves` | scripts/tsanOutputParser.py:255-281 | files and pending list concatenate to exactly the stack lines in read sections, in order |
| `Report.ConIsGroups` | scripts/tsanOutputParser.py:255-281 | the files are the eligible lines cut at each blank line and block end, empty groups dropped; pending are those after the last cut, none right after one |
| `Report.EligibleFromMeans` | scripts/tsanOutputParser.py:255-263 | what lies between two cuts is exactly the stack lines outside the interceptors that stand in a read section |
| `Report.ConAppendOnly` | scripts/tsanOutputParser.py:220-284 | appending text to a report only adds files after those already written |

## Left out

- LLVM itself: construction of the post-dominator tree, debug metadata, alias analysis (which calls resolve to a dangerous function is an input), loop information, pass registration.
- Taint.ConAnalysis.NoteDangerous: the taint analysis holds its graphs' answers (`influence`) as tables; `InfluenceTables` collects them from `Graph` objects, and only functions with a graph have one.
- DangerousOps.DangerOpLabel.FindDangerousOp: what an indirect call may reach is an input; the location maps are their key sets, since their values are never read.
- FinalCount.Verdict.CollectDominating: meets the dominating blocks in layout order, while the source follows the pointer order of a `std::set`.
- Taint.ConAnalysis.EnterCallee: sizes are unbounded, while the source stores them in 32 bits.
- DependenceGraph.Graph.Controls: is called only where its walk halts, since the source's loop does not end otherwise.
- Node objects as separate heap cells: the graph owns its nodes and stores their edge sets as relations, so aliasing between nodes is not modelled.
- `initializeCallStack` and `SyncLoop::initialize`: the choice of seeds is heuristic; any seeds are accepted.
- `checkLoop`, `iterateLoops` and `adhocSyncAnalysis`: a search over LLVM's loop nests and a report on its result.
- The scheduler's source-line tokenising (`get_addr`): a stopped thread's line and address list are inputs, and an empty list ends the session.
- Output text, file input, command-line options, `runOverNight`, the per-application copies of the trigger script, and `scripts/valgrindOutputParser.py`.
- Regular expressions of the report parser: each line comes classified by the first expression that matches it.
