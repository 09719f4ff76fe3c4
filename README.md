# Memory escalation in the Yul optimiser

This project models three steps of the Yul optimiser of the Solidity compiler (libyul) and
proves properties of them.

- **Stack-to-memory mover** (`StackToMemoryMover`). It is given a memory slot for some
  variables of some functions. Inside such a function it turns every read of such a variable
  into `mload(offset)` and every write into `mstore(offset, value)`. The offset is the
  reserved memory plus 32 bytes per slot. An assignment or declaration with several targets
  becomes three things, in this order:
  - a declaration of fresh temporaries holding the value;
  - the memory stores, in reverse order;
  - the rebindings of the targets that stay on the stack, in reverse order.

  The mover is inactive in a function with no slots, and in a function whose parameters or
  return variables have slots.
- **Unused-function-argument pruner** (`UnusedFunctionArgumentPruner`). It finds the top-level
  functions with a parameter that their body never references. It gives each of them a fresh
  name. It then adds a function with the original name, the body and only the referenced
  parameters. The renamed function becomes a wrapper that calls the new one.
- **Memory escalator** (`MemoryEscalator`, `MemoryOffsetAllocator`). It looks for the unique
  `memoryinit` call with a literal argument. It collects the functions on call cycles. It
  gives the variables that cannot be reached on the stack memory slots: leaves get the lowest
  slots, callers the slots above their callees. It gives up when the top-level code reaches a
  function on a cycle that has stack error info. It runs the mover, then replaces the `memoryinit` literal by the end of the memory
  the slots use.

## How the model is organised

- The Yul abstract syntax tree is a set of immutable datatypes (`Yul`).
- A rewrite that works in place on a `Block&` becomes a method that returns the new block.
  Each such visitor method is proved equal to a pure function of the old tree and the
  dispenser's used names. The properties are lemmas about that function.
- Objects whose fields the source updates are classes, with `modifies` clauses on their
  methods:
  - the mover and its current slot context;
  - the cycle finder's `currentPath` and `containedInCycle`;
  - the allocator's two maps;
  - the dispenser's used names;
  - the pruner's three visitors.
- The allocator's memoised recursive walk is specified by three mutually recursive functions
  (`RunSpec`, `Alloc`, `AllocChildren`). The class's methods are proved to compute them.
- Stack errors come in as a parameter: the `CompilabilityChecker`'s result, with each
  function's variables in set iteration order. The call graph also comes in as a parameter:
  each function's callees in set iteration order (`CallGraph = map<Name, seq<Name>>`), and
  `""` stands for the top-level code.

Verifying the allocator against the escalator's own design statement exposed a bug in the
allocator as written (see "## Findings"). The escalator (`MemoryEscalator.Escalate`,
`MemoryEscalator.AllocateSlots`, `MemoryEscalator.RunWithStackErrorInfo`, `MemoryEscalator.Run`)
follows the code as written: it runs the walk of `MemoryOffsetAllocator`.
`PathDisjointAllocation.Allocation` is a corrected allocation. `MemoryEscalator.CorrectedEscalate`
is the escalation that uses it, and it stands beside the escalation as written.

`ReferencesCounter`, `NameDisplacer`, `NameDispenser`, `ASTModifier` and `FunctionCallFinder`
are not part of this model's source files. Each is modelled from how the three steps use it:
- the reference counter collects the names of identifiers and called functions;
- the displacer marks the names to free as used, gives each top-level definition of such a
  name a fresh name (in statement order), and renames every occurrence;
- the dispenser hands out a name not yet used that starts with the hint;
- the AST modifier visits a `for` loop as pre, condition, post, body.

## Model

| member | source | states |
|---|---|---|
| Yul.Identifiers | libyul/optimiser/UnusedFunctionArgumentPruner.cpp:159-160 | the call arguments are one identifier per pruned parameter, in order |
| NameDispenser.FreshName | libyul/optimiser/StackToMemoryMover.cpp:119 | a dispensed name is not yet used and starts with the hint |
| NameDispenser.FreshNames | libyul/optimiser/StackToMemoryMover.cpp:117-120 | one name per hint, none used before, pairwise distinct; the used names grow by exactly these |
| NameDispenser.FreshNamesSnoc | libyul/optimiser/StackToMemoryMover.cpp:117-120 | one more hint appends the name dispensed after the earlier ones |
| NameDispenser.NameDispenser.NewName | libyul/optimiser/StackToMemoryMover.cpp:119 | returns the fresh name for the hint and records it as used, nothing else |
| NameDispenser.NameDispenser.MarkUsed | libyul/optimiser/UnusedFunctionArgumentPruner.cpp:73-76 | the used names grow by exactly the names given |
| ReferencesCounter.ReferencesOccur | libyul/optimiser/UnusedFunctionArgumentPruner.cpp:45 | every name referenced in a statement list occurs in it |
| ReferencesCounter.StatementReferencesOccur | libyul/optimiser/UnusedFunctionArgumentPruner.cpp:45 | every name referenced in a statement occurs in it |
| ReferencesCounter.CaseReferencesOccur | libyul/optimiser/UnusedFunctionArgumentPruner.cpp:45 | every name referenced in a list of switch cases occurs in it |
| ReferencesCounter.OneCaseReferencesOccur | libyul/optimiser/UnusedFunctionArgumentPruner.cpp:45 | every name referenced in a switch case occurs in it |
| NameDisplacer.RenameNames | libyul/optimiser/UnusedFunctionArgumentPruner.cpp:71-79 | a name list keeps its length and each name is renamed in place |
| NameDisplacer.InverseUndoes | libyul/optimiser/UnusedFunctionArgumentPruner.cpp:101-102 | an injective table whose new names are fresh is undone by its inverse on every name of the code |
| NameDisplacer.RenameRoundTrip | libyul/optimiser/UnusedFunctionArgumentPruner.cpp:186-190 | renaming a statement list, then renaming back with a table that undoes it, gives the list back |
| NameDisplacer.StatementRoundTrip | libyul/optimiser/UnusedFunctionArgumentPruner.cpp:186-190 | the same round trip for one statement |
| NameDisplacer.DefinitionOrLoopRoundTrip | libyul/optimiser/UnusedFunctionArgumentPruner.cpp:186-190 | the same round trip for a function definition or a `for` loop |
| NameDisplacer.CaseListRoundTrip | libyul/optimiser/UnusedFunctionArgumentPruner.cpp:186-190 | the same round trip for a list of switch cases |
| NameDisplacer.CaseRoundTrip | libyul/optimiser/UnusedFunctionArgumentPruner.cpp:186-190 | the same round trip for one switch case |
| NameDisplacer.ExpressionRoundTrip | libyul/optimiser/UnusedFunctionArgumentPruner.cpp:186-190 | the same round trip for an expression |
| NameDisplacer.ExpressionListRoundTrip | libyul/optimiser/UnusedFunctionArgumentPruner.cpp:186-190 | the same round trip for an expression list |
| NameDisplacer.NamesRoundTrip | libyul/optimiser/UnusedFunctionArgumentPruner.cpp:186-190 | the same round trip for a name list |
| UnusedFunctionArgumentPruner.ReducedParameters | libyul/optimiser/UnusedFunctionArgumentPruner.cpp:47-51 | a parameter is kept exactly when the body references it; never more parameters than before |
| UnusedFunctionArgumentPruner.ReducedParametersKeepOrder | libyul/optimiser/UnusedFunctionArgumentPruner.cpp:49-51 | the kept parameters are a subsequence of the parameters, in their order |
| UnusedFunctionArgumentPruner.ReducedShorterIffUnused | libyul/optimiser/UnusedFunctionArgumentPruner.cpp:53 | the reduced list is shorter exactly when some parameter is not referenced |
| UnusedFunctionArgumentPruner.PrunableStep | libyul/optimiser/UnusedFunctionArgumentPruner.cpp:53-57 | visiting one more statement adds its reduced list exactly when it is a definition with an unused parameter |
| UnusedFunctionArgumentPruner.PrunableCharacterisation | libyul/optimiser/UnusedFunctionArgumentPruner.cpp:176-181 | the recorded functions are exactly the top-level definitions with an unused parameter, each with its reduced list (both directions) |
| UnusedFunctionArgumentPruner.NothingPrunable | libyul/optimiser/UnusedFunctionArgumentPruner.cpp:183-184 | when every parameter is referenced, nothing is recorded |
| UnusedFunctionArgumentPruner.FindFunctionsWithUnusedParameters.constructor | libyul/optimiser/UnusedFunctionArgumentPruner.cpp:60-61 | the finder starts with no functions and no reduced lists |
| UnusedFunctionArgumentPruner.FindFunctionsWithUnusedParameters.Visit | libyul/optimiser/UnusedFunctionArgumentPruner.cpp:43-58 | a definition with an unused parameter is recorded with its reduced list; otherwise nothing changes |
| UnusedFunctionArgumentPruner.DisplacedNames | libyul/optimiser/UnusedFunctionArgumentPruner.cpp:186-187 | only names to free are displaced |
| UnusedFunctionArgumentPruner.DisplacedNamesMembers | libyul/optimiser/UnusedFunctionArgumentPruner.cpp:186-187 | a name is displaced exactly when a top-level definition of it is to be freed |
| UnusedFunctionArgumentPruner.DisplacedNamesDistinct | libyul/optimiser/UnusedFunctionArgumentPruner.cpp:186-187 | when each freed name is defined once, each is displaced once |
| UnusedFunctionArgumentPruner.InverseOfZip | libyul/optimiser/UnusedFunctionArgumentPruner.cpp:101-102 | the inverse translations built by the constructor map each new name back to its original |
| UnusedFunctionArgumentPruner.ReplaceFunctionName.constructor | libyul/optimiser/UnusedFunctionArgumentPruner.cpp:73-76 | the names to free are marked used and the translation table starts empty |
| UnusedFunctionArgumentPruner.ReplaceFunctionName.Apply | libyul/optimiser/UnusedFunctionArgumentPruner.cpp:186-187 | the table gets a fresh name per displaced definition, in order, and the block is renamed with it |
| UnusedFunctionArgumentPruner.WrapperWellFormedIffReturns | libyul/optimiser/UnusedFunctionArgumentPruner.cpp:145-164 | the wrapper's body is one assignment to the return variables, which is well-formed exactly when there is at least one |
| UnusedFunctionArgumentPruner.AddPrunedFunction.constructor | libyul/optimiser/UnusedFunctionArgumentPruner.cpp:92-103 | the inverse translations map each recorded function's new name back to it |
| UnusedFunctionArgumentPruner.AddPrunedFunction.AddFunction | libyul/optimiser/UnusedFunctionArgumentPruner.cpp:130-172 | the statements are the trimmed function under the original name and the wrapper calling it |
| UnusedFunctionArgumentPruner.AddPrunedFunction.Apply | libyul/optimiser/UnusedFunctionArgumentPruner.cpp:105-118 | every definition whose name has an inverse is split; every other statement is kept |
| UnusedFunctionArgumentPruner.Run | libyul/optimiser/UnusedFunctionArgumentPruner.cpp:176-191 | the block and the used names after the step are those of the whole step's specification |
| UnusedFunctionArgumentPruner.SplitAfterRename | libyul/optimiser/UnusedFunctionArgumentPruner.cpp:186-190 | splitting the renamed code gives, per statement, the split definition or the renamed statement |
| UnusedFunctionArgumentPruner.PruneShape | libyul/optimiser/UnusedFunctionArgumentPruner.cpp:176-191 | each prunable top-level definition becomes the trimmed function and its renamed wrapper; every other statement is only renamed |
| UnusedFunctionArgumentPruner.PrunedAllDisplaced | libyul/optimiser/UnusedFunctionArgumentPruner.cpp:183-189 | every recorded function is displaced, exactly once |
| UnusedFunctionArgumentPruner.NoUnusedParameterNoChange | libyul/optimiser/UnusedFunctionArgumentPruner.cpp:183-184 | when every parameter is referenced, the code and the used names stay as they are |
| UnusedFunctionArgumentPruner.SplitArity | libyul/optimiser/UnusedFunctionArgumentPruner.cpp:130-172 | the new function has the original name and only the referenced parameters (fewer); the wrapper has the new name, all parameters and the same return variables |
| MemoryOffsetAllocator.Named | libyul/optimiser/MemoryEscalator.cpp:71-77 | the variables that get slots are exactly those with a non-empty name |
| MemoryOffsetAllocator.AssignSlots | libyul/optimiser/MemoryEscalator.cpp:70-77 | each named variable gets a distinct slot from `next` up; the next slot grows by their number |
| MemoryOffsetAllocator.AssignSlotsConsecutive | libyul/optimiser/MemoryEscalator.cpp:71-77 | the i-th named variable gets slot `next + i` |
| MemoryOffsetAllocator.RunSpec | libyul/optimiser/MemoryEscalator.cpp:48-81 | the walk only adds to the state and records the value it returns for the function |
| MemoryOffsetAllocator.Enter | libyul/optimiser/MemoryEscalator.cpp:53-54 | entering records the function, with no slots yet |
| MemoryOffsetAllocator.Alloc | libyul/optimiser/MemoryEscalator.cpp:53-80 | a first visit records the function and the value it returns |
| MemoryOffsetAllocator.Finish | libyul/optimiser/MemoryEscalator.cpp:61-80 | finishing changes only the function's own entries and records its value |
| MemoryOffsetAllocator.AllocChildren | libyul/optimiser/MemoryEscalator.cpp:56-59 | walking the callees only adds to the state |
| MemoryOffsetAllocator.ChildrenBound | libyul/optimiser/MemoryEscalator.cpp:56-59 | the callee loop returns the largest of its start value and the callees' values, and at least each of them; each callee's value stays stored |
| MemoryOffsetAllocator.FinishBound | libyul/optimiser/MemoryEscalator.cpp:61-80 | a successful finish from `next` returns `next` plus the number of named variables, and places those variables from `next` up to below the result |
| MemoryOffsetAllocator.AllocAboveCallees | libyul/optimiser/MemoryEscalator.cpp:53-80 | a successful first visit returns the callees' maximum plus the number of named variables: it is at least each callee's value plus that number, and equal to that number or to one callee's value plus it. The function's slots lie between the maximum and the result |
| MemoryOffsetAllocator.RunTwice | libyul/optimiser/MemoryEscalator.cpp:50-51 | a second walk of a function returns the memoised value and changes nothing |
| MemoryOffsetAllocator.RunSpecGood | libyul/optimiser/MemoryEscalator.cpp:61-80 | the walk keeps the invariant: a function with slots has stack error info, is off the cycles, and its variables fill the slots just below its value |
| MemoryOffsetAllocator.AllocGood | libyul/optimiser/MemoryEscalator.cpp:53-80 | a first visit keeps the same invariant |
| MemoryOffsetAllocator.FinishGood | libyul/optimiser/MemoryEscalator.cpp:61-80 | finishing a function keeps the same invariant |
| MemoryOffsetAllocator.AllocChildrenGood | libyul/optimiser/MemoryEscalator.cpp:56-59 | walking the callees keeps the same invariant |
| MemoryOffsetAllocator.RunSpecAborts | libyul/optimiser/MemoryEscalator.cpp:56-67 | the walk from `f` throws only when a call path from `f` ends in a function with stack error info on a cycle |
| MemoryOffsetAllocator.AllocAborts | libyul/optimiser/MemoryEscalator.cpp:53-67 | the same for a first visit |
| MemoryOffsetAllocator.AllocChildrenAborts | libyul/optimiser/MemoryEscalator.cpp:56-59 | the callee loop throws only when such a path starts at one of the callees |
| MemoryOffsetAllocator.AllocThrowsOnCycle | libyul/optimiser/MemoryEscalator.cpp:61-67 | the converse for the function itself: a first visit of a function with stack error info on a cycle throws |
| MemoryOffsetAllocator.RunSpecCloses | libyul/optimiser/MemoryEscalator.cpp:48-81 | after a successful walk, every function it entered does not throw, has all its callees entered, has a value at most the result, and has slots exactly when it has stack error info |
| MemoryOffsetAllocator.AllocCloses | libyul/optimiser/MemoryEscalator.cpp:53-80 | the same for a first visit |
| MemoryOffsetAllocator.AllocChildrenCloses | libyul/optimiser/MemoryEscalator.cpp:56-59 | the same for the callee loop, whose result bounds every value it stored |
| MemoryOffsetAllocator.RunSpecReaches | libyul/optimiser/MemoryEscalator.cpp:48-81 | the walk from `f` enters only functions that a call path from `f` reaches |
| MemoryOffsetAllocator.AllocReaches | libyul/optimiser/MemoryEscalator.cpp:53-80 | the same for a first visit |
| MemoryOffsetAllocator.AllocChildrenReaches | libyul/optimiser/MemoryEscalator.cpp:56-59 | the callee loop enters only functions that one of the callees reaches |
| MemoryOffsetAllocator.ReachedEntered | libyul/optimiser/MemoryEscalator.cpp:50-59 | after a successful walk from a fresh state, every function on a call path from its start has been entered |
| MemoryOffsetAllocator.RootThrowsIff | libyul/optimiser/MemoryEscalator.cpp:46-67 | `run()` throws if and only if a call path from the top-level code ends in a function with stack error info on a cycle |
| MemoryOffsetAllocator.RootWalkSlots | libyul/optimiser/MemoryEscalator.cpp:46-81 | after a successful `run()`, a function has slots if and only if it has stack error info and the top-level code reaches it, and every slot lies below the value `run()` returns |
| MemoryOffsetAllocator.RunSpecSameCallees | libyul/optimiser/MemoryEscalator.cpp:57-58 | two call graphs that give every function the same callees give the same walk |
| MemoryOffsetAllocator.MemoryOffsetAllocator.constructor | libyul/optimiser/MemoryEscalator.cpp:38-44 | the allocator holds its inputs and starts with both maps empty |
| MemoryOffsetAllocator.MemoryOffsetAllocator.Run | libyul/optimiser/MemoryEscalator.cpp:46 | `run()` is the walk from the top-level code |
| MemoryOffsetAllocator.MemoryOffsetAllocator.RunFunction | libyul/optimiser/MemoryEscalator.cpp:48-81 | `run(f)` computes the walk's value and new state |
| MemoryOffsetAllocator.MemoryOffsetAllocator.RunCallees | libyul/optimiser/MemoryEscalator.cpp:56-59 | the callee loop computes the maximum of the callees' values and the state after them |
| MemoryOffsetAllocator.MemoryOffsetAllocator.FinishFunction | libyul/optimiser/MemoryEscalator.cpp:61-80 | the cycle check, the slot assignment and the store of the new value |
| PathDisjointAllocation.AsWrittenOverlap | libyul/optimiser/MemoryEscalator.cpp:48-81 | in the even/odd/inner/caller call graph, with the top-level callees walked `even` first and no stack error info on a cycle, the walk as written succeeds but gives two variables on one call path the same slot |
| PathDisjointAllocation.Overlap | libyul/optimiser/MemoryEscalator.cpp:48-81 | the same for any four distinct function names, with the top-level code's callee set iterated `even` before `caller` |
| PathDisjointAllocation.RootSlots | libyul/optimiser/MemoryEscalator.cpp:48-81 | the walk as written gives `inner.v` and `caller.w` both slot 0 and needs one slot in all |
| PathDisjointAllocation.ExamplePath | libyul/optimiser/MemoryEscalator.h:74-75 | top level, caller, odd, even, inner is a call path of the example |
| PathDisjointAllocation.Iterate | libyul/optimiser/MemoryEscalator.h:36-42 | a value found by the repeated rounds is a stable solution of the walk's equation |
| PathDisjointAllocation.Solve | libyul/optimiser/MemoryEscalator.h:36-42 | the corrected values, when found, are stable |
| PathDisjointAllocation.Allocation | libyul/optimiser/MemoryEscalator.h:36-42 | the corrected allocation succeeds only when no function with stack error info is on a cycle, and then gives slots to exactly those functions |
| PathDisjointAllocation.Values | libyul/optimiser/MemoryEscalator.h:36-42 | a successful allocation comes from stable values: each function's slots start at its base, and the total is the top-level code's top |
| PathDisjointAllocation.StableEdge | libyul/optimiser/MemoryEscalator.h:36-42 | with stable values, a callee's slots lie below its caller's |
| PathDisjointAllocation.StablePath | libyul/optimiser/MemoryEscalator.h:36-42 | with stable values, on a call path the later function's slots lie below the earlier one's |
| PathDisjointAllocation.SlotsBetween | libyul/optimiser/MemoryEscalator.h:36-42 | each slot of a function lies between its base and its top |
| PathDisjointAllocation.AllocationPathDisjoint | libyul/optimiser/MemoryEscalator.h:74-75 | on every call path, variables of different functions get different slots |
| PathDisjointAllocation.AllocationCoversReachable | libyul/optimiser/MemoryEscalator.h:77-78 | every slot of a function reached from the top-level code lies below the total returned |
| PathDisjointAllocation.AllocationIgnoresEmpty | libyul/optimiser/MemoryEscalator.cpp:137 | adding empty callee lists to the call graph, as the cycle search does, changes nothing |
| MemoryEscalator.ExpressionSet | libyul/optimiser/MemoryEscalator.cpp:153 | setting the literal relabels exactly the literal `memoryinit` arguments of an expression, in order |
| MemoryEscalator.ExpressionListSet | libyul/optimiser/MemoryEscalator.cpp:153 | the same for an expression list |
| MemoryEscalator.StatementSet | libyul/optimiser/MemoryEscalator.cpp:153 | the same for a statement |
| MemoryEscalator.StatementListSet | libyul/optimiser/MemoryEscalator.cpp:153 | the same for a statement list |
| MemoryEscalator.CaseListSet | libyul/optimiser/MemoryEscalator.cpp:153 | the same for a list of switch cases |
| MemoryEscalator.CaseSet | libyul/optimiser/MemoryEscalator.cpp:153 | the same for one switch case |
| MemoryEscalator.BlockSet | libyul/optimiser/MemoryEscalator.cpp:153 | in a block, every literal `memoryinit` argument becomes the new value, and no call appears or disappears |
| MemoryEscalator.BlockKeep | libyul/optimiser/MemoryEscalator.cpp:153 | setting the value the literals already hold changes nothing |
| MemoryEscalator.SetRoundTrip | libyul/optimiser/MemoryEscalator.cpp:153 | with a unique literal `memoryinit` call, setting it back to the old literal restores the code |
| MemoryEscalator.SetTwice | libyul/optimiser/MemoryEscalator.cpp:153 | setting twice is setting once, to the second value |
| MemoryEscalator.IndexOf | libyul/optimiser/MemoryEscalator.cpp:131 | the first position of the node on the current path |
| MemoryEscalator.CyclesDescend | libyul/optimiser/MemoryEscalator.cpp:133-140 | a node off the path contributes what its callees contribute on the longer path |
| MemoryEscalator.CycleFinder.constructor | libyul/optimiser/MemoryEscalator.cpp:124-129 | the search starts with an empty path and nothing collected |
| MemoryEscalator.CycleFinder.FindCycles | libyul/optimiser/MemoryEscalator.cpp:129-141 | the search adds exactly the specified cycle functions and restores the path |
| MemoryEscalator.CycleFinder.Descend | libyul/optimiser/MemoryEscalator.cpp:133-140 | pushing the node, visiting its callees and popping it adds exactly their cycle functions |
| MemoryEscalator.CycleFinder.CallsOf | libyul/optimiser/MemoryEscalator.cpp:137 | the callees of the node; the call graph gains an empty entry for a node without one |
| MemoryEscalator.CycleFinder.VisitCallees | libyul/optimiser/MemoryEscalator.cpp:137-138 | visiting the callees in order adds exactly their cycle functions |
| MemoryEscalator.CyclesSound | libyul/optimiser/MemoryEscalator.h:70-72 | every function the search collects lies on a call cycle |
| MemoryEscalator.StackCyclesSound | libyul/optimiser/MemoryEscalator.cpp:131-132 | when a callee of the path's end is on the path, every function from it to the end lies on a cycle |
| MemoryEscalator.ChildrenCyclesSound | libyul/optimiser/MemoryEscalator.cpp:137-138 | the functions collected below a node's callees lie on cycles |
| MemoryEscalator.CycleFunctionsOnCycles | libyul/optimiser/MemoryEscalator.cpp:142 | the search from the top-level code collects only functions on call cycles |
| MemoryEscalator.EscalateChangesOnlyWhenAllocated | libyul/optimiser/MemoryEscalator.cpp:109-150 | the code changes only with a unique literal `memoryinit` call and a `run()` that does not throw, and then no call path from the top-level code ends in a function with stack error info that the cycle search collected |
| MemoryEscalator.EscalatedMemoryInit | libyul/optimiser/MemoryEscalator.cpp:145-153 | after escalation every literal `memoryinit` argument is the reserved memory plus 32 bytes per slot that `run()` reports |
| MemoryEscalator.EscalatedLayout | libyul/optimiser/MemoryEscalator.cpp:144-153 | the mover gets slots for exactly the functions with stack error info that the top-level code reaches, and every moved variable's memory word ends at or before the new memory start |
| MemoryEscalator.AllocateSlots | libyul/optimiser/MemoryEscalator.cpp:120-150 | the cycle search from the top-level code, then `run()` of an allocator on the search's call graph: the walk's result and slots |
| MemoryEscalator.MoveToMemory | libyul/optimiser/MemoryEscalator.cpp:152-153 | the mover over the whole code, then the new `memoryinit` literal |
| MemoryEscalator.RunWithStackErrorInfo | libyul/optimiser/MemoryEscalator.cpp:97-154 | the escalation given the stack error info, its early returns included, with the walk's slots |
| MemoryEscalator.Run | libyul/optimiser/MemoryEscalator.cpp:83-95 | without stack error info nothing changes; otherwise it is the escalation |
| MemoryEscalator.CorrectedChangesOnlyWhenAllocated | libyul/optimiser/MemoryEscalator.h:70-72 | the corrected escalation changes the code only with a unique literal `memoryinit` call, a successful corrected allocation, and no function with stack error info on a collected cycle |
| MemoryEscalator.CorrectedMemoryInit | libyul/optimiser/MemoryEscalator.h:77-78 | after the corrected escalation every literal `memoryinit` argument is the reserved memory plus 32 bytes per slot of the corrected allocation |
| MemoryEscalator.CorrectedLayout | libyul/optimiser/MemoryEscalator.h:74-78 | with the corrected allocation, slots are disjoint along every call path, and every moved variable of a reached function ends at or before the new memory start |
| StackToMemoryMover.ReverseIndex | libyul/optimiser/StackToMemoryMover.cpp:137-139 | the reversed list holds the i-th element from the end at position i |
| StackToMemoryMover.StackToMemoryMover.constructor | libyul/optimiser/StackToMemoryMover.cpp:51-62 | for the EVM dialect with object access, the mover holds its inputs and starts outside any function |
| StackToMemoryMover.StackToMemoryMover.GetMemoryOffset | libyul/optimiser/StackToMemoryMover.cpp:196-200 | the offset is the reserved memory plus 32 bytes per slot |
| StackToMemoryMover.StackToMemoryMover.VisitFunctionDefinition | libyul/optimiser/StackToMemoryMover.cpp:64-82 | the body is moved in the function's own slots when it has some and the lookup loop finds none of its parameters or return variables among them, and with no context otherwise; the caller's context is restored |
| StackToMemoryMover.StackToMemoryMover.VisitBlock | libyul/optimiser/StackToMemoryMover.cpp:84-170 | the block is moved as the specification says, and the context is unchanged |
| StackToMemoryMover.StackToMemoryMover.VisitStatement | libyul/optimiser/StackToMemoryMover.cpp:144-169 | one statement becomes the statements of the specification |
| StackToMemoryMover.StackToMemoryMover.RewriteAssignmentOrVariableDeclaration | libyul/optimiser/StackToMemoryMover.cpp:97-142 | the rewrite of a multi-target or single-target assignment or declaration |
| StackToMemoryMover.StackToMemoryMover.SplitTargets | libyul/optimiser/StackToMemoryMover.cpp:114-134 | one fresh temporary per target; the stores for the escalated targets and the rebindings for the rest, each in target order |
| StackToMemoryMover.StackToMemoryMover.DefaultVisit | libyul/optimiser/StackToMemoryMover.cpp:148 | the statement's expressions are loaded and its nested blocks moved |
| StackToMemoryMover.StackToMemoryMover.VisitExpression | libyul/optimiser/StackToMemoryMover.cpp:172-194 | escalated identifiers become loads; everything else is visited inside |
| StackToMemoryMoverProperties.LoadReads | libyul/optimiser/StackToMemoryMover.cpp:172-194 | after the rewrite an expression reads exactly the variables it read, minus the escalated ones |
| StackToMemoryMoverProperties.LoadListReads | libyul/optimiser/StackToMemoryMover.cpp:172-194 | the same for an expression list |
| StackToMemoryMoverProperties.LoadUnchanged | libyul/optimiser/StackToMemoryMover.cpp:192-193 | an expression that reads no escalated variable is unchanged |
| StackToMemoryMoverProperties.LoadListUnchanged | libyul/optimiser/StackToMemoryMover.cpp:192-193 | the same for an expression list |
| StackToMemoryMoverProperties.StoresOfContents | libyul/optimiser/StackToMemoryMover.cpp:122-123 | the memory stores are, in target order, one per escalated target, each storing its temporary at its offset |
| StackToMemoryMoverProperties.RebindingsOfContents | libyul/optimiser/StackToMemoryMover.cpp:124-133 | the rebindings are, in target order, one per other target, each from its temporary |
| StackToMemoryMoverProperties.SplitStores | libyul/optimiser/StackToMemoryMover.cpp:135-138 | after the declaration come the stores, last escalated target first |
| StackToMemoryMoverProperties.SplitRebindings | libyul/optimiser/StackToMemoryMover.cpp:139-140 | the rebindings end the result, last other target first |
| StackToMemoryMoverProperties.SplitShape | libyul/optimiser/StackToMemoryMover.cpp:114-141 | the whole layout: one declaration of all temporaries with the value, then the reversed stores, then the reversed rebindings |
| StackToMemoryMoverProperties.SplitElement | libyul/optimiser/StackToMemoryMover.cpp:117-134 | every statement after the declaration is the store or the rebinding of one target |
| StackToMemoryMoverProperties.SplitEvaluatesValueOnce | libyul/optimiser/StackToMemoryMover.cpp:114-136 | the value is evaluated once, by the declaration; every later statement reads only a temporary |
| StackToMemoryMoverProperties.SingleTargetBecomesStore | libyul/optimiser/StackToMemoryMover.cpp:102-112 | a single escalated target becomes one store of the loaded value, or of 0 without a value |
| StackToMemoryMoverProperties.UnescalatedTargetsKeepShape | libyul/optimiser/StackToMemoryMover.cpp:144-169 | a statement with no escalated target stays one statement of the same kind: its expressions are loaded, its nested blocks moved in the same context (a function body in the function's own context, a `for` loop's blocks in the order pre, post, body), and `break`, `continue` and `leave` are kept |
| StackToMemoryMoverProperties.MoveStatementsAppend | libyul/optimiser/StackToMemoryMover.cpp:144-146 | moving a concatenation moves the first part, then the second with the names the first used |
| StackToMemoryMoverProperties.NoContextNoChange | libyul/optimiser/StackToMemoryMover.cpp:64-91 | outside any function, when no function definition at any depth gets a slot context, the code and the used names stay as they are, whatever the slots |
| StackToMemoryMoverProperties.NoContextStatementNoChange | libyul/optimiser/StackToMemoryMover.cpp:144-169 | the same for one statement |
| StackToMemoryMoverProperties.MovedStatementsFreeOfEscalated | libyul/optimiser/StackToMemoryMover.cpp:84-194 | in an active function, after the move no statement reads, writes or declares an escalated variable outside nested functions |
| StackToMemoryMoverProperties.MovedStatementFreeOfEscalated | libyul/optimiser/StackToMemoryMover.cpp:144-169 | the same for one moved statement |
| StackToMemoryMoverProperties.MovedDefaultFreeOfEscalated | libyul/optimiser/StackToMemoryMover.cpp:148 | the same for a statement visited by default |
| StackToMemoryMoverProperties.MovedCasesFreeOfEscalated | libyul/optimiser/StackToMemoryMover.cpp:148 | the same for the cases of a switch |
| StackToMemoryMoverProperties.RewriteFreeOfEscalated | libyul/optimiser/StackToMemoryMover.cpp:97-142 | a rewritten assignment or declaration writes no escalated variable and reads none |
| StackToMemoryMoverProperties.SplitFreeOfEscalated | libyul/optimiser/StackToMemoryMover.cpp:114-141 | the multi-target rewrite, with temporaries not yet used, touches no escalated variable |

## Left out

- Hex literals: offsets and the `memoryinit` value are natural numbers. The hexadecimal
  rendering is not modelled. The `u256` and `uint64_t` arithmetic is modelled as unbounded,
  so wrap-around is not modelled.
- `CompilabilityChecker` and `CallGraphGenerator` are not part of this model. Their results are
  parameters: the stack error info and the call graph.
- `FunctionCallFinder` is not part of this model. The `memoryinit` calls are the calls named
  `memoryinit`, collected in a fixed order: pre-order, a call before its arguments, arguments
  left to right, and a `for` loop's post block before its body. Only a unique call is used, so
  the order changes no result. Each call becomes its last argument: a literal,
  some other expression, or none. A call with no arguments, on which `arguments.back()` is
  undefined, is taken as having no literal argument.
- Set iteration order: std::set and std::map are iterated in key order. The model takes each
  set as a sequence in that order and does not fix the order itself.
- Yul types on typed names and source locations are dropped.
- The dialect is reduced to its two properties the mover asserts. A failed `yulAssert`
  becomes a precondition.
- `visited` in the cycle search is written but never read. It is not modelled.
- MemoryEscalator.EscalatedMemoryInit: it states that every literal `memoryinit` argument
  holds the new memory start after the escalation. It does not prove that the mover keeps
  exactly one `memoryinit` call. The mover treats that call like any other call, and its
  literal argument is not a variable.
- PathDisjointAllocation.Allocation: the corrected allocation repeats its equation at most once
  per caller and once more. If that does not find a stable solution it returns `None`. That this
  never happens when no function with stack error info is on a cycle is not proved, so its
  contract states only one direction.
- PathDisjointAllocation.Allocation: it gives slots to every function with stack error info,
  including functions the top-level code never reaches. The walk as written leaves those out.
- MemoryEscalator.CorrectedEscalate: it is the intended design, not the code. Unlike the
  escalation as written, it gives up when any function with stack error info is on a collected
  cycle, even one the top-level code does not reach. It also gives slots to functions the
  top-level code never reaches, and so rewrites their bodies.
- Literals carry only a natural number. Yul's string and boolean literal kinds are not
  modelled: the escalator reads and overwrites the `memoryinit` literal as a number, and the
  mover creates only number literals.
- MemoryEscalator.CyclesSound: the cycle search's soundness is proved: everything it collects
  lies on a cycle. Its completeness is not proved: that it collects every cycle function
  reachable from the top-level code.
- StackToMemoryMover.StackToMemoryMover.SplitTargets and
  MemoryOffsetAllocator.MemoryOffsetAllocator.RunCallees are loops that the model splits out of
  `rewriteAssignmentOrVariableDeclaration` and `run(f)`. They have no counterpart of their own in
  the source.
- Throwing `StackTooDeepException` and catching it in the escalator is modelled as a `None`
  result.

## Findings

| source | as written | input that shows it | evidently intended | confidence | as-written member | corrected member |
|---|---|---|---|---|---|---|
| libyul/optimiser/MemoryEscalator.cpp:48-81 | The placeholder 0 stored for a function still being walked is read back as a finished result by a function on a call cycle. The cycle function is then memoised with a value below what its callees need. | The top-level code calls `even` and `caller`, and the set of its callees is iterated with `even` before `caller`. The order is the comparison order of `std::set<YulString>` (MemoryEscalator.cpp:58, 120), so the names must be chosen to give it; `PathDisjointAllocation.Overlap` shows the overlap for any four distinct names walked in that order. `even` calls `odd` and `inner`; `odd` calls `even`; `caller` calls `odd`. Variable `v` of `inner` and variable `w` of `caller` have stack error info. Neither function is on the cycle `{even, odd}`. `odd` is finished with 0, so `caller` gets slot 0, which is also the slot of `inner.v`. Both are live on the call path top level, `caller`, `odd`, `even`, `inner`. | On every call path, each variable gets its own memory slot (MemoryEscalator.h:74-75). | not executed | PathDisjointAllocation.AsWrittenOverlap | PathDisjointAllocation.Allocation, proved by PathDisjointAllocation.AllocationPathDisjoint; used by MemoryEscalator.CorrectedEscalate (MemoryEscalator.CorrectedLayout) |
