# A verified model of selected cores of mozjs

This project models, in Dafny, several self-contained pieces of the SpiderMonkey-based
`mozjs` tree and proves what they promise. Each `.dfy` file is one module.

- **WasmIonCompile** (`wasm_ion_compile.dfy`) models `FunctionCompiler`, the structured-control-flow
  bookkeeping of the WebAssembly optimizing compiler (`js/src/wasm/WasmIonCompile.cpp`). The model
  is a class with the compiler's own state: the current insertion block, absent in dead code; the
  block-nesting and loop depths; the table of pending branch patches keyed by absolute block depth;
  the stack-argument maximum; and the MIR graph. It covers `br`, `br_if` and `br_table`, which file
  patches, and `finishBlock` and `closeLoop`, which bind them to join blocks. It covers loop headers
  and their phis, and the removal of phis whose entry and backedge values agree. It covers if/else
  diamonds, `EmitEnd` and `EmitBrTable`, `div`/`mod`, `finishCall` and `finish`. It also covers the
  addressing stages of memory accesses, following section 4.4.5 (Control Instructions) and section
  4.4.4 (Memory Instructions) of the WebAssembly Core Specification 1.0.
- **WasmMir** (`wasm_mir.dfy`) is the MIR graph as that compiler builds it, written as a value.
  Its functions `NewBlock`, `Add`, `End`, `AddPredecessor`, `ReplaceSuccessor`, `Push`, `PopAll`,
  `SetSlots`, `SetPhis`, `Mark`, `Unmark` and `AddAll` stand in for the MIR graph API
  (`MBasicBlock`, `MControlInstruction`), which is not part of this model.
  A block has its predecessors, instructions, slots, pushed values, phis, an ending control
  instruction and a loop depth. The graph is a sequence of such blocks plus a set of marked blocks.
- **WasmMemory** (`wasm_memory.dfy`) models the memory-access decisions of the same file. It covers
  `needAlignmentCheck`, the folding of a constant base into the offset, the add-offset, alignment
  and bounds checks, and the inline expansion of `memory.copy` and `memory.fill` into 8/4/2/1-byte
  loads and stores.
- **Lowering** (`lowering.dfy`) models the selection rules of MIR-to-LIR lowering
  (`js/src/jit/Lowering.cpp`). It covers stack-argument slot numbering and the `maxargslots_` maximum,
  table-switch degeneration, `ReorderComparison`, and deferring a comparison or a bit-and to its use.
  It also covers bounds-check elision for wasm table calls and the LIR index accounting of phis.
- **ParseNodes** (`parse_node.dfy`) models the parse-node kind-range predicates, `isConstant` and
  `FunctionFormalParametersList` from `js/src/frontend/ParseNode.h`. It also models `ListNode`, a
  singly linked list threaded through the nodes' `pn_next` links, with a head, a tail pointer, a
  count and a word of flags.
- **StackWalk** (`stack_walk.dfy`) models the accounting in `mozglue/misc/StackWalk.cpp`. It covers
  the frame skipper and the frame-pointer walk with its termination rules. It covers frame numbering
  and the frame limit, and the bounded pc/sp buffers of the Windows walker with their rerun. It
  covers frame-line formatting, `PrintStackFrameBuf` and the `EnsureWrite` loop. **Numerals**
  (`numerals.dfy`) gives the unsigned decimal and hexadecimal numerals that `printf` writes, and
  reads them back.
- **ManifestParser** (`manifest_parser.dfy`) models the query and filter logic of the test-manifest
  parser (`testing/mozbase/manifestparser/manifestparser/manifestparser.py`). It covers `query`,
  `get` and its inverse, `manifests`, `paths`, path normalisation, the set logic of
  `verifyDirectory`, and the defaulting of `expected` in `active_tests`.
- **SDKProcessor** (`sdk_processor.dfy`) models the binding-configuration reader of the SDK
  annotation processor (`build/annotationProcessors/SDKProcessor.java`). It covers the INI-like class
  list, the per-class member annotations, and annotation lookup with its options. Java's `trim` and
  `split` are modelled as well.
- **CacheIRGen** (`cache_ir_gen.dfy`) models the code-text generators of
  `js/src/jit/GenerateCacheIRFiles.py`. These are the CacheIRWriter method, the compiler signature
  and its forwarding reader method, the spewer method and the stub-cloning method. It also models
  the per-op loop that files them into the shared, unshared and transpiler lists.
- **UnicodeNonBMP** (`unicode_non_bmp.dfy`) holds the four case-mapping tables for characters outside
  the Basic Multilingual Plane (`js/src/vm/UnicodeNonBMP.h`). Their surrogate columns are proved to
  be the UTF-16 encoding of section 2.1 of RFC 2781.
- **Wrappers** (`wrappers.dfy`) holds the shared `Option` and `Result` types.

Operations that update state in place are modelled as class methods over the same fields. These
are `FunctionCompiler`, `LIRGenerator`, `ListNode`, `FrameSkipper`, the stack-walk buffers,
`ClassInfo` and the manifest parser. Each method states its whole new state against specification
functions, and lemmas state what those functions promise. Pure logic is modelled as functions.

## Model

| member | source | states |
|---|---|---|
| WasmIonCompile.FilePatch | mozjs/js/src/wasm/WasmIonCompile.cpp:1509-1520 | filing a patch at an absolute depth grows the per-depth lists to cover it, appends the patch to that depth's list and leaves every other list as it was |
| WasmIonCompile.FilePatchKeeps | mozjs/js/src/wasm/WasmIonCompile.cpp:1509-1520 | filing a patch of a closed block at a depth below the current block depth keeps every pending patch valid and keeps the depths at or beyond the current one clear |
| WasmIonCompile.FileAllKeeps | mozjs/js/src/wasm/WasmIonCompile.cpp:1596-1618 | filing one patch per distinct table target keeps every pending patch valid and the deeper depths clear |
| WasmIonCompile.FileAllFiles | mozjs/js/src/wasm/WasmIonCompile.cpp:1596-1618 | after filing the table's patches, successor slot k of the table is pending at the depth of the k-th distinct target |
| WasmIonCompile.BrTableSlots | mozjs/js/src/wasm/WasmIonCompile.cpp:1576-1618 | the table's successors are the default depth followed by each further depth once, in first-seen order, with no depth twice, and every case and the default has a successor |
| WasmIonCompile.TableHasTwoTargets | mozjs/js/src/wasm/WasmIonCompile.cpp:1958-1973 | some case differs from the default exactly when the switch gets at least two successors |
| WasmIonCompile.AllSameDepth | mozjs/js/src/wasm/WasmIonCompile.cpp:1961-1967 | the scan answers true exactly when every case equals the default depth, which is exactly when the table would have fewer than two successors |
| WasmIonCompile.TableStep | mozjs/js/src/wasm/WasmIonCompile.cpp:1596-1618 | one more case adds a successor exactly when its depth is new, and that successor is the depth |
| WasmIonCompile.TableDepthsBelow | mozjs/js/src/wasm/WasmIonCompile.cpp:1566-1618 | with the default and every case below the current block depth, so is every successor depth |
| WasmIonCompile.CasesStepSeen | mozjs/js/src/wasm/WasmIonCompile.cpp:1599-1601 | a case whose depth was seen reuses that depth's successor index and leaves the successors alone |
| WasmIonCompile.CasesStepNew | mozjs/js/src/wasm/WasmIonCompile.cpp:1602-1614 | a case with a new depth gets the next successor index, recorded in the index map |
| WasmIonCompile.CasesAreSlots | mozjs/js/src/wasm/WasmIonCompile.cpp:1576-1625 | the case list built case by case is the list of successor indices of the case depths, so the switch is well formed |
| WasmIonCompile.FileCase | mozjs/js/src/wasm/WasmIonCompile.cpp:1597-1617 | one turn of the case loop keeps the successors equal to the distinct depths of the cases so far, the cases equal to their indices and the patches equal to one per successor |
| WasmIonCompile.FileTable | mozjs/js/src/wasm/WasmIonCompile.cpp:1576-1618 | the loop leaves one successor per distinct depth, each case pointing at the successor of its own depth, and one patch filed per successor |
| WasmIonCompile.LoopPhis | mozjs/js/src/wasm/WasmIonCompile.cpp:1362-1373 | one fresh phi per loop parameter, numbered consecutively, each with the parameter as its only operand and not flagged unused |
| WasmIonCompile.LoopEntered | mozjs/js/src/wasm/WasmIonCompile.cpp:1346-1380 | the preheader jumps to a new loop header holding the phis, which jumps to a new open body block one loop deeper that inherits the preheader's slots and pushed values; no other block changes |
| WasmIonCompile.WithBackedge | mozjs/js/src/wasm/WasmIonCompile.cpp:1396 | each header phi gains the matching backedge value as its last operand and keeps its definition and flag |
| WasmIonCompile.MarkRedundant | mozjs/js/src/wasm/WasmIonCompile.cpp:1400-1407 | the phis keep their definitions and operands; only the unused flag may change |
| WasmIonCompile.KeptSpec | mozjs/js/src/wasm/WasmIonCompile.cpp:1424-1435 | the header keeps exactly the phis not flagged unused |
| WasmIonCompile.ReplacementsRange | mozjs/js/src/wasm/WasmIonCompile.cpp:1424-1435 | every replaced definition is a header phi and its replacement is some phi's entry value |
| WasmIonCompile.ReplacementsAt | mozjs/js/src/wasm/WasmIonCompile.cpp:1424-1435 | a phi's uses are redirected exactly when it is flagged unused, and then to its first operand |
| WasmIonCompile.PhiElimination | mozjs/js/src/wasm/WasmIonCompile.cpp:1394-1438 | after the backedge: the header keeps exactly the phis whose entry and backedge values differ, and a phi whose two values agree is replaced by that value |
| WasmIonCompile.BackedgeKeepsDefs | mozjs/js/src/wasm/WasmIonCompile.cpp:1396-1407 | adding the backedge and flagging keeps each phi's definition and entry operand |
| WasmIonCompile.FixStack | mozjs/js/src/wasm/WasmIonCompile.cpp:1385-1392 | the loop over a block's stack slots rewrites each replaced definition to its replacement and leaves the others |
| WasmIonCompile.FixSettles | mozjs/js/src/wasm/WasmIonCompile.cpp:1385-1392 | with replacements that are themselves never replaced, fixing a stack leaves no replaced definition in it and fixing again changes nothing |
| WasmIonCompile.ReplacementsSettled | mozjs/js/src/wasm/WasmIonCompile.cpp:1424-1435 | when no phi's entry value is itself a header phi, no replacement is itself replaced |
| WasmIonCompile.FixupBlocks | mozjs/js/src/wasm/WasmIonCompile.cpp:1409-1422 | fixing the slots of a set of blocks adds no block, closes or opens none and keeps every loop depth and mark |
| WasmIonCompile.LoopDepths | mozjs/js/src/wasm/WasmIonCompile.cpp:1411-1413 | the per-block loop depths, one entry per block |
| WasmIonCompile.MarkedPhis | mozjs/js/src/wasm/WasmIonCompile.cpp:1396-1407 | the header's phis after the backedge value is added and the redundant ones flagged, one per phi, each with an operand |
| WasmIonCompile.BackedgeSet | mozjs/js/src/wasm/WasmIonCompile.cpp:1394-1438 | setLoopBackedge: the header gains the backedge as its last predecessor and keeps only its non-redundant phis; no block is added, closed or reopened; the loop body and every pending patch owner at least the loop's depth deep have the dropped phis replaced in their slots and pushed values; every other block except the header is unchanged |
| WasmIonCompile.BackedgeEndedFacts | mozjs/js/src/wasm/WasmIonCompile.cpp:1474-1490 | the backedge jumps to the header, which gains it as last predecessor and keeps its non-redundant phis; the loop body stays open with dropped phis replaced in its pushed values |
| WasmIonCompile.BindStepKeeps | mozjs/js/src/wasm/WasmIonCompile.cpp:1687-1699 | one turn of the patch loop keeps the join's predecessors equal to the distinct owners so far, each marked, and each patched slot redirected to the join |
| WasmIonCompile.BindStepPreds | mozjs/js/src/wasm/WasmIonCompile.cpp:1689-1693 | an owner already marked adds no predecessor; an unmarked one is appended and marked |
| WasmIonCompile.BindStepTargets | mozjs/js/src/wasm/WasmIonCompile.cpp:1695-1697 | the patched slot now targets the join |
| WasmIonCompile.BindStepFrame | mozjs/js/src/wasm/WasmIonCompile.cpp:1687-1699 | a turn of the patch loop changes no block other than the owner's successor and the join's predecessors |
| WasmIonCompile.FirstPatchBound | mozjs/js/src/wasm/WasmIonCompile.cpp:1679-1686 | once the join is made after the first owner, the first patch counts as bound |
| WasmIonCompile.ArithShape | mozjs/js/src/wasm/WasmIonCompile.cpp:392-442 | the last instruction is a div or mod of the given type and signedness, trapping unless asm.js, and both operands are first truncated to int32 exactly for signed int32 |
| WasmIonCompile.BrIfGraph | mozjs/js/src/wasm/WasmIonCompile.cpp:1541-1564 | the block pushes the values and ends in a test with two successor slots, the second being a new open fall-through block at the current loop depth with nothing pushed |
| WasmIonCompile.FunctionCompiler.constructor | mozjs/js/src/wasm/WasmIonCompile.cpp:146-208 | the entry block holds a parameter per argument, then the TLS pointer parameter, then a zero constant per further local; the slots hold the locals and both depths start at 0 |
| WasmIonCompile.FunctionCompiler.AddIns | mozjs/js/src/wasm/WasmIonCompile.cpp:242-250 | a fresh definition numbered next is added to the current block |
| WasmIonCompile.FunctionCompiler.Emit | mozjs/js/src/wasm/WasmIonCompile.cpp:242-335 | in dead code nothing is added and no definition returned; otherwise exactly one new instruction is added to the current block |
| WasmIonCompile.FunctionCompiler.DivOrMod | mozjs/js/src/wasm/WasmIonCompile.cpp:392-442 | in dead code nothing is added; otherwise the instructions ArithCode lists are appended and the result is the last |
| WasmIonCompile.FunctionCompiler.TruncateOperands | mozjs/js/src/wasm/WasmIonCompile.cpp:398-416 | when truncating, two truncate-to-int32 instructions are added and their definitions returned; otherwise the operands come back unchanged |
| WasmIonCompile.FunctionCompiler.ReturnValues | mozjs/js/src/wasm/WasmIonCompile.cpp:1170-1183 | a live block ends in a return of the first value or a void return, after which the code is dead |
| WasmIonCompile.FunctionCompiler.UnreachableTrap | mozjs/js/src/wasm/WasmIonCompile.cpp:1185-1194 | a live block ends in a trap, after which the code is dead |
| WasmIonCompile.FunctionCompiler.PushDefs | mozjs/js/src/wasm/WasmIonCompile.cpp:1202-1215 | a live block gets exactly the values pushed; dead code changes nothing |
| WasmIonCompile.FunctionCompiler.PopPushedDefs | mozjs/js/src/wasm/WasmIonCompile.cpp:1217-1228 | the values returned are the block's pushed values, bottom first, and the block has none left |
| WasmIonCompile.FunctionCompiler.NewBlockAfter | mozjs/js/src/wasm/WasmIonCompile.cpp:1645-1653 | one new block after the predecessor at the current loop depth |
| WasmIonCompile.FunctionCompiler.GoToNewBlock | mozjs/js/src/wasm/WasmIonCompile.cpp:1655-1661 | a new block after the predecessor, which ends in a jump to it |
| WasmIonCompile.FunctionCompiler.GoToExistingBlock | mozjs/js/src/wasm/WasmIonCompile.cpp:1663-1668 | the previous block jumps to the next one, which gains it as its last predecessor |
| WasmIonCompile.FunctionCompiler.StartBlock | mozjs/js/src/wasm/WasmIonCompile.cpp:1323-1328 | one block deeper, with no patch pending at the new label |
| WasmIonCompile.FunctionCompiler.FinishCall | mozjs/js/src/wasm/WasmIonCompile.cpp:1008-1022 | a live call gets the TLS pointer as an extra argument and the stack-argument maximum becomes the larger of itself and the call's stack bytes; dead code changes nothing |
| WasmIonCompile.FunctionCompiler.Finish | mozjs/js/src/wasm/WasmIonCompile.cpp:210-223 | at the end of the body no patch is left pending and the stack-argument maximum is returned |
| WasmIonCompile.FunctionCompiler.RedirectPatches | mozjs/js/src/wasm/WasmIonCompile.cpp:1687-1699 | after the loop every patched slot targets the join, whose predecessors are the distinct owners in order, all marked |
| WasmIonCompile.FunctionCompiler.UnmarkPredecessors | mozjs/js/src/wasm/WasmIonCompile.cpp:1701-1704 | no block stays marked and nothing else changes |
| WasmIonCompile.FunctionCompiler.BindBranches | mozjs/js/src/wasm/WasmIonCompile.cpp:1670-1718 | with nothing pending no block is made and a live block's pushed values are popped; otherwise one join block, whose predecessors are the distinct owners then the live block, becomes current with every patched slot pointing to it, and the label's patches are cleared |
| WasmIonCompile.FunctionCompiler.StartJoin | mozjs/js/src/wasm/WasmIonCompile.cpp:1675-1686 | a new join block after the first owner at the current loop depth, which takes over the owner's pushed values; the first patch is bound |
| WasmIonCompile.FunctionCompiler.BindToJoin | mozjs/js/src/wasm/WasmIonCompile.cpp:1675-1718 | a new join block becomes current, its predecessors are the distinct owners then the live block, every patch targets it and its pushed values are popped |
| WasmIonCompile.FunctionCompiler.EnterJoin | mozjs/js/src/wasm/WasmIonCompile.cpp:1701-1714 | predecessors unmarked, a live block jumps to the join and is appended as its last predecessor, the join becomes current and its pushed values are returned; patch targets and other blocks keep their data |
| WasmIonCompile.FunctionCompiler.FinishBlock | mozjs/js/src/wasm/WasmIonCompile.cpp:1330-1334 | one block shallower; the current block and its values are those joining the label's branches gives, and a block is added only when a branch was pending |
| WasmIonCompile.FunctionCompiler.AddControlFlowPatch | mozjs/js/src/wasm/WasmIonCompile.cpp:1509-1520 | the slot is filed at absolute depth blockDepth - 1 - relative and every other pending list is unchanged |
| WasmIonCompile.FunctionCompiler.Br | mozjs/js/src/wasm/WasmIonCompile.cpp:1522-1539 | a live block pushes the values and ends in a jump whose target is pending at the label; the code is then dead |
| WasmIonCompile.FunctionCompiler.BrIf | mozjs/js/src/wasm/WasmIonCompile.cpp:1541-1564 | a live block pushes the values and ends in a test whose true slot is pending at the label and whose false slot is a new fall-through block, which becomes current |
| WasmIonCompile.FunctionCompiler.BrTable | mozjs/js/src/wasm/WasmIonCompile.cpp:1566-1628 | a live block pushes the values and ends in a table switch with one successor per distinct depth, each case naming its depth's successor, all successors pending at their labels |
| WasmIonCompile.FunctionCompiler.EmitBrTable | mozjs/js/src/wasm/WasmIonCompile.cpp:1947-1974 | a table whose cases all equal the default (or that has none) becomes a plain br to the default; any other a table switch with at least two successors |
| WasmIonCompile.FunctionCompiler.StartLoop | mozjs/js/src/wasm/WasmIonCompile.cpp:1336-1382 | one block and one loop deeper; a live block jumps to a new header with a phi per loop parameter, which jumps to a new current body block, and the parameters become the phis; dead code gets no header |
| WasmIonCompile.FunctionCompiler.MakeLoopPhis | mozjs/js/src/wasm/WasmIonCompile.cpp:1358-1374 | a fresh phi per parameter with the parameter as entry operand, and the phi's definition stands for the parameter |
| WasmIonCompile.FunctionCompiler.FixupRedundantPhis | mozjs/js/src/wasm/WasmIonCompile.cpp:1385-1392 | the block's slots and pushed values have every replaced definition rewritten to its replacement |
| WasmIonCompile.FunctionCompiler.FixupPending | mozjs/js/src/wasm/WasmIonCompile.cpp:1409-1417 | every pending patch owner at least the loop's depth deep has its slots fixed, and no other block |
| WasmIonCompile.FunctionCompiler.FixupPatchList | mozjs/js/src/wasm/WasmIonCompile.cpp:1411-1416 | the owners of one depth's patches that are deep enough are fixed, together with those done before |
| WasmIonCompile.FunctionCompiler.FixupPatch | mozjs/js/src/wasm/WasmIonCompile.cpp:1412-1415 | the owner is fixed exactly when its loop depth is at least the loop's depth |
| WasmIonCompile.FunctionCompiler.AddBackedge | mozjs/js/src/wasm/WasmIonCompile.cpp:1396-1407 | the backedge becomes the header's last predecessor and its phis are those with the backedge values added and redundant ones flagged |
| WasmIonCompile.FunctionCompiler.DiscardRedundantPhis | mozjs/js/src/wasm/WasmIonCompile.cpp:1424-1435 | the header keeps the unflagged phis and each flagged phi's uses are redirected to its entry value |
| WasmIonCompile.FunctionCompiler.SetLoopBackedge | mozjs/js/src/wasm/WasmIonCompile.cpp:1394-1438 | the graph becomes BackedgeSet's and the redirected uses grow by the replacements of the redundant phis |
| WasmIonCompile.FunctionCompiler.FixupLoop | mozjs/js/src/wasm/WasmIonCompile.cpp:1409-1422 | the pending blocks inside the loop and the loop body have their slots fixed, no other block |
| WasmIonCompile.FunctionCompiler.BindBackedge | mozjs/js/src/wasm/WasmIonCompile.cpp:1456-1492 | with no branch back to the header nothing changes; otherwise a new backedge block becomes the header's last predecessor, the header keeps its non-redundant phis and the loop body is current again |
| WasmIonCompile.FunctionCompiler.BindLoopBranches | mozjs/js/src/wasm/WasmIonCompile.cpp:1467-1474 | a backedge block is made exactly when a branch targets the loop label; header and loop body keep their phis, predecessors and pushed values |
| WasmIonCompile.FunctionCompiler.EndBackedge | mozjs/js/src/wasm/WasmIonCompile.cpp:1474-1490 | the backedge pushes the backedge values, jumps to the header and becomes its last predecessor; the header keeps its non-redundant phis |
| WasmIonCompile.FunctionCompiler.CloseLoop | mozjs/js/src/wasm/WasmIonCompile.cpp:1441-1507 | one block and one loop shallower; without a header nothing else changes; branches back to the loop become one backedge; a live body stays live and its pushed values, with dropped phis replaced, are the results |
| WasmIonCompile.FunctionCompiler.CloseLoopAt | mozjs/js/src/wasm/WasmIonCompile.cpp:1441-1507 | closeLoop with a header: one block and one loop shallower; with no branch back nothing is replaced and a live body's pushed values are the results; otherwise the header gains the new backedge as its last predecessor and keeps its non-redundant phis, and the results are the body's values with the dropped phis replaced |
| WasmIonCompile.FunctionCompiler.LeaveLoop | mozjs/js/src/wasm/WasmIonCompile.cpp:1492-1506 | one block and one loop shallower, the header unchanged; a live body jumps to a new block at the outer loop depth, whose only predecessor it is, which becomes current, and the body's pushed values are popped as the results |
| WasmIonCompile.FunctionCompiler.BranchAndStartThen | mozjs/js/src/wasm/WasmIonCompile.cpp:1240-1259 | one block deeper; a live block ends in a test whose true slot is a new then block, which becomes current, and whose false slot is a new else block, which is returned |
| WasmIonCompile.FunctionCompiler.SwitchToElse | mozjs/js/src/wasm/WasmIonCompile.cpp:1261-1279 | the then arm's branches are bound; with an else block the live block reached keeps its values pushed as the then arm's join predecessor and the else block becomes current |
| WasmIonCompile.FunctionCompiler.JoinIfElse | mozjs/js/src/wasm/WasmIonCompile.cpp:1281-1321 | one block shallower; with both arms dead the code stays dead, otherwise the live arms (the then arm first) are the predecessors of a new current join block, each ending in a jump to it, and the results are the first arm's pushed values |
| WasmIonCompile.FunctionCompiler.JoinArms | mozjs/js/src/wasm/WasmIonCompile.cpp:1296-1320 | a new current join block whose predecessors are the live arms in order, each jumping to it, and the first arm's pushed values are returned |
| WasmIonCompile.FunctionCompiler.EmitEnd | mozjs/js/src/wasm/WasmIonCompile.cpp:1860-1922 | one block shallower (and one loop shallower for a loop); the body ends dead; a block is live after exactly when it was live or a branch targeted it, and its results are the values of the arm that reaches the join; a loop stays live as it was, gains its backedge when branched to, and its results are the body's values with dropped phis replaced; an if without an else builds the full diamond, with the then arm and the empty else arm jumping to a new join block; an else joins its live arms, or stays dead with no results when both are dead |
| WasmIonCompile.FunctionCompiler.EndBlockLabel | mozjs/js/src/wasm/WasmIonCompile.cpp:1872-1889 | a block's end: live after exactly when it was live or a branch targeted it, and the results are the values of the arm that reaches the join |
| WasmIonCompile.FunctionCompiler.EndLoopLabel | mozjs/js/src/wasm/WasmIonCompile.cpp:1872-1894 | a loop's end: one block and one loop shallower, live as it was; with no branch back nothing is replaced and the body's values are the results; otherwise the header gains the backedge and keeps its non-redundant phis, and the results are the body's values with the dropped phis replaced |
| WasmIonCompile.FunctionCompiler.EndThenLabel | mozjs/js/src/wasm/WasmIonCompile.cpp:1872-1910 | an if without an else: a new current join block whose predecessors are the then arm (when it reaches the join) and the empty else arm, both jumping to it; the results are the then arm's values, or `resultsForEmptyElse` when the then arm is dead |
| WasmIonCompile.FunctionCompiler.EndElseLabel | mozjs/js/src/wasm/WasmIonCompile.cpp:1872-1915 | an else: with both arms dead the code stays dead with no results; otherwise a new current join block whose predecessors are the live arms, each jumping to it, and the results are the then arm's pushed values, or the else arm's when the then arm is dead |
| WasmIonCompile.FunctionCompiler.EndThen | mozjs/js/src/wasm/WasmIonCompile.cpp:1895-1910 | an if without an else: the empty else arm jumps to a new current join block, as does the then arm when it reaches the join; the results are the then arm's values, or `resultsForEmptyElse` when the then arm is dead |
| WasmIonCompile.FunctionCompiler.ComputeEffectiveAddress | mozjs/js/src/wasm/WasmIonCompile.cpp:691-704 | in dead code nothing changes; otherwise a nonzero offset becomes an add instruction that is the new base and the offset is cleared, and a zero offset adds nothing |
| WasmIonCompile.FunctionCompiler.CheckOffsetAndAlignmentAndBounds | mozjs/js/src/wasm/WasmIonCompile.cpp:631-679 | the instructions added, the new base and the new access are exactly those the Addressing specification gives |
| WasmIonCompile.FunctionCompiler.AddOffsetIfNeeded | mozjs/js/src/wasm/WasmIonCompile.cpp:655-663 | the instructions and result are those of the offset stage |
| WasmIonCompile.FunctionCompiler.FoldConstantBase | mozjs/js/src/wasm/WasmIonCompile.cpp:637-650 | the instructions and result are those of the folding stage |
| WasmIonCompile.FunctionCompiler.AddChecks | mozjs/js/src/wasm/WasmIonCompile.cpp:665-678 | the instructions and result are those of the checking stage |
| WasmIonCompile.FunctionCompiler.AddAlignmentCheck | mozjs/js/src/wasm/WasmIonCompile.cpp:665-668 | one alignment-check instruction when a check is needed, none otherwise |
| WasmIonCompile.FunctionCompiler.AddBoundsCheck | mozjs/js/src/wasm/WasmIonCompile.cpp:670-678 | the instructions and result are those of the bounds stage |
| WasmMemory.U32 | mozjs/js/src/wasm/WasmIonCompile.cpp:641 | a conversion to `uint32_t` is the value reduced modulo 2^32 |
| WasmMemory.NeedAlignmentCheck | mozjs/js/src/wasm/WasmIonCompile.cpp:609-629 | `mustAdd` is only set when an alignment check is needed |
| WasmMemory.WrapKeepsAlignment | mozjs/js/src/wasm/WasmIonCompile.cpp:619-624 | every access size divides 2^32, so wrapping the sum of a constant base and the offset to 32 bits never changes its alignment |
| WasmMemory.AddressingFolds | mozjs/js/src/wasm/WasmIonCompile.cpp:637-650 | a constant base is folded exactly when the first instruction is the new constant 0, and the folded offset then stays below the guard limit |
| WasmMemory.FoldKeepsAlignment | mozjs/js/src/wasm/WasmIonCompile.cpp:640-653 | the folded access (base 0, offset plus base) is statically aligned exactly when the original one is |
| WasmMemory.AlignmentCheckOnlyWhenNeeded | mozjs/js/src/wasm/WasmIonCompile.cpp:610-668 | an alignment check is emitted exactly for wasm (not asm.js) atomic accesses whose constant address is not known to be aligned |
| WasmMemory.BoundsCheckUnlessHuge | mozjs/js/src/wasm/WasmIonCompile.cpp:670-678 | a bounds check is emitted exactly when huge memory is disabled |
| WasmMemory.OffsetWithinGuard | mozjs/js/src/wasm/WasmIonCompile.cpp:655-663 | the offset left in the access is 0 or below the guard limit, and the access size and atomicity are unchanged |
| WasmMemory.NoFoldingAddsOffset | mozjs/js/src/wasm/WasmIonCompile.cpp:660-663 | with offset folding disabled no offset is left in the access, and an add-offset instruction appears exactly when there was a nonzero offset to add |
| WasmMemory.PieceAt | mozjs/js/src/wasm/WasmIonCompile.cpp:2942-2952 | the k-th piece is 8 bytes among the first 64-bit copies, then 4, then 2, then 1 |
| WasmMemory.PiecesCover | mozjs/js/src/wasm/WasmIonCompile.cpp:2942-2952 | the piece widths add up to the length, are each 1, 2, 4 or 8, with at most one 2-byte and one 1-byte piece and 8-byte pieces only on 64-bit targets |
| WasmMemory.LoadRun | mozjs/js/src/wasm/WasmIonCompile.cpp:2961-2980 | a run of loads keeps the load-phase invariant: each load is the next piece at the running offset, pushing its value |
| WasmMemory.StoreRun | mozjs/js/src/wasm/WasmIonCompile.cpp:3021-3036 | a run of stores keeps the store-phase invariant: each store lowers the offset first and pops the matching loaded value |
| WasmMemory.PieceRuns | mozjs/js/src/wasm/WasmIonCompile.cpp:2942-2952 | the pieces are 8-byte ones first, then 4, then at most one 2 and one 1 |
| WasmMemory.PieceCounts | mozjs/js/src/wasm/WasmIonCompile.cpp:2942-2952 | the counts of 8-, 4-, 2- and 1-byte copies weigh up to the length, 8-byte copies only on 64-bit targets |
| WasmMemory.MemCopyInline | mozjs/js/src/wasm/WasmIonCompile.cpp:2934-3040 | one load per piece, each at the sum of the earlier pieces, and one store per load in reverse, the i-th store repeating the (n-1-i)-th load's width, offset and value |
| WasmMemory.LoadPhase | mozjs/js/src/wasm/WasmIonCompile.cpp:2954-2998 | the load phase loads every piece in order and ends just past the last byte |
| WasmMemory.StorePhase | mozjs/js/src/wasm/WasmIonCompile.cpp:3000-3037 | the store phase stores every load in reverse order |
| WasmMemory.CopyCoversLength | mozjs/js/src/wasm/WasmIonCompile.cpp:2954-3003 | the loads tile the range from offset 0 to the length without gaps or overlaps |
| WasmMemory.MemFillInline | mozjs/js/src/wasm/WasmIonCompile.cpp:3199-3273 | the splat constants made are the 8- (64-bit only), 4- and 2-byte ones that have pieces, and the stores go from the top down, one per piece, each writing the fill byte or the splat of its width |
| WasmMemory.SplatConstants | mozjs/js/src/wasm/WasmIonCompile.cpp:3222-3235 | a splatted constant is made for each width that has pieces, widest first |
| WasmMemory.FillRun | mozjs/js/src/wasm/WasmIonCompile.cpp:3256-3269 | a run of fill stores keeps the fill invariant, each lowering the offset first |
| WasmMemory.FillPhase | mozjs/js/src/wasm/WasmIonCompile.cpp:3237-3270 | the fill stores cover every piece, from the top down to offset 0 |
| WasmMemory.EmitMemCopy | mozjs/js/src/wasm/WasmIonCompile.cpp:3042-3068 | nothing is emitted in dead code; the inline copy is used exactly for a nonzero constant length within the inline limit on targets with fast unaligned access, and then has one load and one store per piece; otherwise the instance call |
| WasmMemory.EmitMemFill | mozjs/js/src/wasm/WasmIonCompile.cpp:3275-3299 | the same three outcomes for `memory.fill`, the inline path also needing a constant fill value |
| Lowering.AlignBytes | mozjs/js/src/jit/Lowering.cpp:420-421 | the aligned argument count is the least multiple of the alignment not below `argc`: at least `n`, less than `n + alignment`, a whole number of alignment units |
| Lowering.BaseSlot | mozjs/js/src/jit/Lowering.cpp:419-424 | the base slot never lies below the argument count; with alignment above 1 it is aligned and below `argc + alignment`, otherwise it equals `argc` |
| Lowering.StackArg | mozjs/js/src/jit/Lowering.cpp:436-445 | an argument of type Value gets an `LStackArgV`, any other type an `LStackArgT`, each carrying the given slot and argument |
| Lowering.StackArgs | mozjs/js/src/jit/Lowering.cpp:432-450 | one stack-argument instruction per argument |
| Lowering.StackArgsAt | mozjs/js/src/jit/Lowering.cpp:432-434 | argument `i` is stored by the instruction for slot `baseSlot - i` |
| Lowering.StackSlotsDistinct | mozjs/js/src/jit/Lowering.cpp:432-434 | the slots of one call's arguments are pairwise distinct and all lie in `1..baseSlot` |
| Lowering.LowerTableSwitch | mozjs/js/src/jit/Lowering.cpp:87-125 | a switch with only the default successor, or with an operand that is neither Value, Int32 nor Double, becomes a jump to the default; a Value operand gives `LTableSwitchV`; otherwise `LTableSwitch` with an integer index exactly for Int32 |
| Lowering.ReverseCompareOp | mozjs/js/src/jit/Lowering.cpp:645 | the ordering operators map among themselves and every other operator is unchanged |
| Lowering.ReverseCompareOpSound | mozjs/js/src/jit/Lowering.cpp:638-648 | the reversed operator applied to swapped operands gives the same answer as the original, and reversing twice is the identity |
| Lowering.CompareOperands.ReorderComparison | mozjs/js/src/jit/Lowering.cpp:638-648 | a constant left operand is swapped with the right one and the reversed operator returned; otherwise operands and operator are left as they were |
| Lowering.ReorderPreservesMeaning | mozjs/js/src/jit/Lowering.cpp:638-648 | after the reordering the comparison has the same value on all operand values |
| Lowering.CanEmitCompareAtUses | mozjs/js/src/jit/Lowering.cpp:904-931 | a compare is deferred to its use exactly when it may be emitted at uses and has no use, or exactly one use that is a test or a wasm select |
| Lowering.CanEmitBitAndAtUses | mozjs/js/src/jit/Lowering.cpp:1140-1167 | a bit-and is deferred exactly when it may be emitted at uses, both operands are Int32 and it has exactly one use, an instruction that is a test or a compare deferrable itself |
| Lowering.BitAndDeferredChain | mozjs/js/src/jit/Lowering.cpp:1140-1179 | a deferred bit-and feeds exactly one test, or one compare that in turn has no use or only one test or select use |
| Lowering.ToUint32 | mozjs/js/src/jit/Lowering.cpp:4973 | the `uint32_t` conversion lies in `0..2^32` and is congruent to the value modulo 2^32 |
| Lowering.BoundsCheckElision | mozjs/js/src/jit/Lowering.cpp:4966-4978 | the bounds check is dropped if and only if the callee is a wasm table and the index is a constant whose unsigned value is below the table's minimum length; for tables no longer than 2^31 this means the signed index lies in `0..minLength` |
| Lowering.Pieces | mozjs/js/src/jit/Lowering.cpp:5712-5726 | a phi takes one or two LIR slots (`BOX_PIECES`, `INT64_PIECES` or 1) |
| Lowering.PhiIndices | mozjs/js/src/jit/Lowering.cpp:5712-5726 | one LIR index per phi, the first being 0 |
| Lowering.PhiTotal | mozjs/js/src/jit/Lowering.cpp:5712-5726 | all the phis together take at least one slot each |
| Lowering.PhiIndicesContiguous | mozjs/js/src/jit/Lowering.cpp:5712-5726 | each phi's slots start where the previous phi's end, and every phi's slots lie below the total, so no two phis share a slot |
| Lowering.PhiLastSlot | mozjs/js/src/jit/Lowering.cpp:5712-5726 | the last phi's slots end exactly at the total |
| Lowering.LIRGenerator.PushStackArg | mozjs/js/src/jit/Lowering.cpp:436-445 | exactly the stack-argument instruction of the argument is appended |
| Lowering.LIRGenerator.LowerCallArguments | mozjs/js/src/jit/Lowering.cpp:414-452 | the argument-slot maximum becomes the larger of its old value and the call's base slot, and the call's stack-argument instructions are appended in argument order |
| Lowering.LIRGenerator.VisitTableSwitch | mozjs/js/src/jit/Lowering.cpp:87-125 | exactly the LIR chosen by the table-switch rule is appended |
| Lowering.LIRGenerator.VisitWasmCall | mozjs/js/src/jit/Lowering.cpp:4966-4991 | exactly one call instruction is appended, carrying the bounds-check decision |
| Lowering.LIRGenerator.DefinePhis | mozjs/js/src/jit/Lowering.cpp:5712-5726 | the LIR indices handed to the block's phis are the running totals of the pieces before each one |
| Lowering.LIRGenerator.LowerPhiInputs | mozjs/js/src/jit/Lowering.cpp:5766-5794 | the successor's phi inputs are written at the same indices as `definePhis` gives those phis |
| Lowering.LIRGenerator.VisitBlock | mozjs/js/src/jit/Lowering.cpp:5752-5764 | the stack-argument instructions of the block's calls are appended call after call, and the maximum becomes the larger of its old value and the largest base slot of those calls |
| Lowering.LIRGenerator.Generate | mozjs/js/src/jit/Lowering.cpp:5816-5842 | the stack-argument instructions of every call are appended, block after block and call after call; the graph's argument slot count is the final maximum, the larger of its old value and the largest base slot of any call, so it covers every call |
| Lowering.CallsSnoc | mozjs/js/src/jit/Lowering.cpp:5759-5764 | one more call appends its stack-argument instructions and raises the maximum to its base slot |
| Lowering.BlocksSnoc | mozjs/js/src/jit/Lowering.cpp:5829-5838 | one more block appends its calls' instructions and raises the maximum to their largest base slot |
| Lowering.CallsMaxLeast | mozjs/js/src/jit/Lowering.cpp:5759-5764 | the largest base slot of a block's calls bounds each of them and is below any other bound |
| Lowering.BlocksMaxLeast | mozjs/js/src/jit/Lowering.cpp:5816-5842 | the largest base slot over all blocks bounds every call and is below any other bound, so the argument slot count is the least that fits every call |
| Lowering.CallsArgsLength | mozjs/js/src/jit/Lowering.cpp:5816-5842 | one block's calls append one stack-argument instruction per argument |
| Lowering.BlocksArgsLength | mozjs/js/src/jit/Lowering.cpp:5816-5842 | generate appends one stack-argument instruction per argument of every call |
| ParseNodes.IsDeleteKind | mozjs/js/src/frontend/ParseNode.h:235-238 | the range test holds exactly for the four delete kinds |
| ParseNodes.IsTypeofKind | mozjs/js/src/frontend/ParseNode.h:240-243 | the range test holds exactly for the two typeof kinds |
| ParseNodes.IsBinaryOperation | mozjs/js/src/frontend/ParseNode.h:699-703 | the range test holds exactly for the 26 binary operator kinds, `PipelineExpr` to `PowExpr` in enumeration order |
| ParseNodes.IsAssignment | mozjs/js/src/frontend/ParseNode.h:980-986 | the range test holds exactly for the 13 assignment kinds, which the enumeration lists consecutively |
| ParseNodes.KindRangesDisjoint | mozjs/js/src/frontend/ParseNode.h:197-243 | the binary-operator, assignment, delete and typeof ranges are pairwise disjoint and lie inside the enumeration |
| ParseNodes.IsLiteral | mozjs/js/src/frontend/ParseNode.h:728-736 | exactly the number, BigInt, string, true, false, null and raw-undefined kinds are literals |
| ParseNodes.ConstantVersusLiteral | mozjs/js/src/frontend/ParseNode.h:2268-2284 | a constant that is not a literal is a template string or an array or object literal without the non-constant flag; a literal that is not constant is exactly a BigInt; an array or object literal is constant exactly when its flag is clear |
| ParseNodes.FlagUpdatesIndependent | mozjs/js/src/frontend/ParseNode.h:1087-1108 | setting or clearing one flag bit sets or clears that flag and leaves every other flag as it was |
| ParseNodes.ListNode.Empty | mozjs/js/src/frontend/ParseNode.h:1111-1114 | a fresh list has no elements, count 0, no flags, the tail at the head pointer and the given kind and span |
| ParseNodes.ListNode.Single | mozjs/js/src/frontend/ParseNode.h:1116-1128 | a one-element list holds the kid, has count 1, no flags and the kid's span |
| ParseNodes.ListNode.Empty_ | mozjs/js/src/frontend/ParseNode.h:1164 | the count is zero exactly when the list has no elements |
| ParseNodes.ListNode.MakeEmpty | mozjs/js/src/frontend/ParseNode.h:1262-1267 | the list is left with no elements, count 0 and no flags, kind and span unchanged |
| ParseNodes.ListNode.AppendWithoutOrderAssumption | mozjs/js/src/frontend/ParseNode.h:1274-1279 | the item becomes the last element, the count grows by one, the span now ends at the item's end, kind, start and flags are kept, and the list stays well linked; only the old last node's `next` link is written, so every node's kind, span and scope-body kind are unchanged |
| ParseNodes.ListNode.Append | mozjs/js/src/frontend/ParseNode.h:1269-1272 | the same as appending without the order assumption, for an item that does not start before the list; again only the old last node's `next` link is written |
| ParseNodes.ListNode.Prepend | mozjs/js/src/frontend/ParseNode.h:1281-1288 | the item becomes the first element, the count grows by one, and the tail moves only when the list was empty; only the item's `next` link is written |
| ParseNodes.ListNode.PrependAndUpdatePos | mozjs/js/src/frontend/ParseNode.h:1290-1293 | prepends the item, and the list's span now begins where the item begins |
| ParseNodes.ListNode.Last | mozjs/js/src/frontend/ParseNode.h:1227-1241 | the node found from the tail pointer is the final element, and its next link is null |
| ParseNodes.ListNode.ReplaceLast | mozjs/js/src/frontend/ParseNode.h:1243-1260 | only the final element is replaced, the count is unchanged, the tail and the span's end follow the new node, the kind, start and flags are kept; only `next` links of the elements are written, so no element's kind, span or scope-body kind changes |
| ParseNodes.ListNode.ReplaceNode | mozjs/js/src/frontend/ParseNode.h:786-794 | the replacement takes over the replaced node's next link and the link that pointed at the replaced node now points at it; the list stays well linked; only the `next` links of the replacement and of the previous node are written, so the replacement is otherwise unchanged |
| ParseNodes.ListNode.AcceptStep | mozjs/js/src/frontend/ParseNode.h:1139-1149 | a visit that replaces its node splices the replacement in at the same position, and the walk moves on from the node now there |
| ParseNodes.ListNode.VisitAll | mozjs/js/src/frontend/ParseNode.h:1138-1149 | the walk stops at the first failing visit, or at the end; every earlier visit has been applied in place |
| ParseNodes.ListNode.Accept | mozjs/js/src/frontend/ParseNode.h:1136-1152 | the result is true exactly when no visit fails; then every replacement is spliced in at its position; otherwise the replacements before the first failure are spliced in; count, kind, span and flags are unchanged and the tail is right; only `next` links of the elements and replacements are written |
| ParseNodes.ListNode.SetHasTopLevelFunctionDeclarations | mozjs/js/src/frontend/ParseNode.h:1195-1198 | the flag is set, by or-ing its bit into the flags |
| ParseNodes.ListNode.SetEmittedTopLevelFunctionDeclarations | mozjs/js/src/frontend/ParseNode.h:1200-1204 | the emitted flag is set and the declarations flag stays set |
| ParseNodes.ListNode.SetHasArrayHoleOrSpread | mozjs/js/src/frontend/ParseNode.h:1206-1209 | the hole-or-spread flag is set and the non-constant flag is unchanged |
| ParseNodes.ListNode.SetHasNonConstInitializer | mozjs/js/src/frontend/ParseNode.h:1211-1215 | the non-constant flag is set, so the literal is no longer a constant |
| ParseNodes.ListNode.UnsetHasNonConstInitializer | mozjs/js/src/frontend/ParseNode.h:1217-1221 | the non-constant flag is cleared, so the literal is a constant, and the hole-or-spread flag is unchanged |
| ParseNodes.FunctionFormalParametersList | mozjs/js/src/frontend/ParseNode.h:2344-2356 | the head of the parameter list is returned, and the formal count is the element count less one when the last element is a lexical scope whose body is a statement list |
| Numerals.Digits | mozjs/mozglue/misc/StackWalk.cpp:969-977 | the unpadded `%u`/`%x` conversion has at least one digit of the base and no leading zero |
| Numerals.ParseDigitsOfDigits | mozjs/mozglue/misc/StackWalk.cpp:969-977 | reading a conversion back gives the number converted |
| StackWalk.FrameSkipper.ShouldSkipPC | mozjs/mozglue/misc/StackWalk.cpp:72-90 | a pc is skipped exactly when a nonzero target is set and differs from it; meeting the target clears it, so nothing is skipped afterwards |
| StackWalk.KeptIsSuffix | mozjs/mozglue/misc/StackWalk.cpp:75-85 | the frames a skipper lets through are the suffix that starts at the first frame whose pc is the target (all frames for target 0); every frame before it has another pc |
| StackWalk.Limit | mozjs/mozglue/misc/StackWalk.cpp:921-923 | a nonzero maximum keeps the first `min(n, max)` frames; zero keeps them all |
| StackWalk.Numbered | mozjs/mozglue/misc/StackWalk.cpp:919-920 | the callback invocations number the frames consecutively from the starting count plus one |
| StackWalk.WalkFromReported | mozjs/mozglue/misc/StackWalk.cpp:892-926 | the frame-by-frame loop (skip, count, report, stop at the limit) reports exactly the kept frames, limited and numbered from 1 |
| StackWalk.ReportedShape | mozjs/mozglue/misc/StackWalk.cpp:919-923 | the reported frame numbers are 1, 2, 3, ...; with a nonzero maximum there are `min(kept, max)` reports, otherwise one per kept frame |
| StackWalk.FrameChainAscending | mozjs/mozglue/misc/StackWalk.cpp:895-912 | following only upward, 4-byte aligned links below the stack end, each frame's stack address lies above the first frame pointer and strictly above the previous frame's |
| StackWalk.DoFramePointerStackWalk | mozjs/mozglue/misc/StackWalk.cpp:886-927 | the callbacks made are the non-skipped frames of the frame-pointer chain, limited to the maximum and numbered from 1 |
| StackWalk.ReportFrame | mozjs/mozglue/misc/StackWalk.cpp:914-924 | one sane frame is skipped, or reported with the next number, and the walk stops when that number reaches a nonzero maximum |
| StackWalk.UnwindInfo.constructor | mozjs/mozglue/misc/StackWalk.cpp:795-800 | the unwinder's state starts with the skipper's target, the maximum and no frames reported |
| StackWalk.UnwindInfo.UnwindCallback | mozjs/mozglue/misc/StackWalk.cpp:776-790 | a non-skipped pc is reported with the next frame number and no stack address; the unwinder is stopped exactly when the count reaches a nonzero maximum |
| StackWalk.CallbackAdvances | mozjs/mozglue/misc/StackWalk.cpp:781-789 | one callback step on the front frame advances the walk by that frame, and a stop leaves nothing more to report |
| StackWalk.MozStackWalk | mozjs/mozglue/misc/StackWalk.cpp:792-812 | the unwinder-driven walk reports the pcs that follow the first-frame pc, or the caller's pc when that is null, limited and numbered from 1 |
| StackWalk.UntilZero | mozjs/mozglue/misc/StackWalk.cpp:367-369 | the frames the Windows walk looks at are the prefix before the first zero pc |
| StackWalk.WalkStackData.constructor | mozjs/mozglue/misc/StackWalk.cpp:423-434 | the walk state starts with empty pc and sp buffers of the given size, the first-frame pc and the maximum |
| StackWalk.WalkStackData.Regrow | mozjs/mozglue/misc/StackWalk.cpp:439-445 | the buffers are replaced by fresh ones exactly as large as the counts of the previous walk, and the counts reset |
| StackWalk.WalkStackData.Record | mozjs/mozglue/misc/StackWalk.cpp:375-383 | both counts grow by one and the pc and sp are stored only where the buffers have room |
| StackWalk.WalkStackData.Visit | mozjs/mozglue/misc/StackWalk.cpp:371-387 | a frame is skipped, or recorded with the next count, stopping exactly when the count reaches a nonzero maximum |
| StackWalk.WalkStackData.Step | mozjs/mozglue/misc/StackWalk.cpp:367-387 | a zero pc ends the walk; otherwise the frame goes to the callback step and the walk so far plus the rest stays the whole walk |
| StackWalk.WalkStackData.WalkStackMain64 | mozjs/mozglue/misc/StackWalk.cpp:266-395 | the counts equal the number of reported frames and the buffers hold their pcs and sps as far as they reach |
| StackWalk.WalkStackData.Collect | mozjs/mozglue/misc/StackWalk.cpp:449-451 | when all counted frames fit, the callbacks replay exactly the counted frames, numbered from 1 |
| StackWalk.DoMozStackWalkThread | mozjs/mozglue/misc/StackWalk.cpp:405-452 | with the rerun into exactly sized buffers, every reported frame reaches the callback, numbered from 1, however many frames there are |
| StackWalk.Pad2 | mozjs/mozglue/misc/StackWalk.cpp:969 | `%02u` gives at least two decimal digits |
| StackWalk.Pad2Parses | mozjs/mozglue/misc/StackWalk.cpp:969 | the padded frame number reads back as the number |
| StackWalk.ToUintPtr | mozjs/mozglue/misc/StackWalk.cpp:977 | the library offset cast to `uintptr_t` is itself when non-negative and wraps modulo 2^64 when negative |
| StackWalk.Description | mozjs/mozglue/misc/StackWalk.cpp:966-985 | with a file the text ends in `)`, with only a library in `]`, and with neither it is `??? (???:???)` |
| StackWalk.DescriptionForms | mozjs/mozglue/misc/StackWalk.cpp:966-977 | with a file: the function name (`???` when missing), ` (`, the file, `:` and the decimal line number, which reads back; with only a library: the name, `[`, the library, ` +0x` and the hexadecimal `uintptr_t` offset, which reads back, then `]`; both forms begin with the name |
| StackWalk.TakeDigits | mozjs/mozglue/misc/StackWalk.cpp:969 | the longest leading run of decimal digits |
| StackWalk.FrameNumberOf | mozjs/mozglue/misc/StackWalk.cpp:969 | a line that yields a frame number starts with `#` and has at least three characters |
| StackWalk.FormattedFrameNumber | mozjs/mozglue/misc/StackWalk.cpp:961-986 | every formatted line gives back the frame number it was formatted with |
| StackWalk.SprintfBuf | mozjs/mozglue/misc/StackWalk.cpp:969-984 | the buffer receives at most `size - 1` characters of the text and a NUL after them, the rest of it is untouched, and the full text length is returned |
| StackWalk.PrintStackFrameBuf | mozjs/mozglue/misc/StackWalk.cpp:1008-1019 | the buffer holds the formatted text cut to `N - 2` characters, a newline and a NUL, and the length returned, newline included, is at most `N - 1` |
| StackWalk.FrameLine | mozjs/mozglue/misc/StackWalk.cpp:1015-1016 | the line is the text cut to `N - 2` characters followed by a newline; a short text is kept whole |
| StackWalk.EnsureWrite | mozjs/mozglue/misc/StackWalk.cpp:988-1006 | what goes out is a prefix of the buffer; the loop ends with all of it written or at a call that reports an error, no progress or more than was asked; a writer that accepts everything takes the whole buffer in one call |
| StackWalk.PrintStackFrame | mozjs/mozglue/misc/StackWalk.cpp:1021-1028 | what is written is a prefix of the frame's line in a 1025-byte buffer, and all of it when the writer accepts everything |
| ManifestParser.Keep | mozjs/testing/mozbase/manifestparser/manifestparser/manifestparser.py:243-250 | filtering never yields more tests than it was given |
| ManifestParser.KeepMembers | mozjs/testing/mozbase/manifestparser/manifestparser/manifestparser.py:243-250 | a test survives the query exactly when it is among the input tests and every check accepts it |
| ManifestParser.Passes | mozjs/testing/mozbase/manifestparser/manifestparser/manifestparser.py:245-249 | the inner loop, which stops at the first rejecting check, accepts a test exactly when every check accepts it |
| ManifestParser.KeepAppend | mozjs/testing/mozbase/manifestparser/manifestparser/manifestparser.py:243-250 | querying a concatenation gives the concatenation of the two queries, so the tests keep their original order |
| ManifestParser.KeepAll | mozjs/testing/mozbase/manifestparser/manifestparser/manifestparser.py:243-250 | a list whose every test passes comes back whole |
| ManifestParser.SelectedMembers | mozjs/testing/mozbase/manifestparser/manifestparser/manifestparser.py:252-290 | a plain `get` keeps a test exactly when it has every tag and every key-value pair matches; an inverse `get` exactly when it has none of the tags and no pair matches |
| ManifestParser.InverseSplits | mozjs/testing/mozbase/manifestparser/manifestparser/manifestparser.py:266-279 | with one key-value pair and no tags, every test is selected by exactly one of `get` and its inverse |
| ManifestParser.FirstIndex | mozjs/testing/mozbase/manifestparser/manifestparser/manifestparser.py:300-307 | the position of the first test naming a manifest: every earlier test names another one |
| ManifestParser.DistinctManifestsOrdered | mozjs/testing/mozbase/manifestparser/manifestparser/manifestparser.py:292-307 | the listed manifests are pairwise distinct, are exactly the non-empty manifests some test names, and come in the order of the first test naming each |
| ManifestParser.Replace | mozjs/testing/mozbase/manifestparser/manifestparser/manifestparser.py:31 | every occurrence of the one character is replaced and every other character kept, at the same length |
| ManifestParser.NormalizeRoundTrip | mozjs/testing/mozbase/manifestparser/manifestparser/manifestparser.py:28-38 | off Windows both directions are the identity; on Windows denormalising a normalised path without backslashes gives it back, and normalising a denormalised path without forward slashes gives it back |
| ManifestParser.NormalizedSeparators | mozjs/testing/mozbase/manifestparser/manifestparser/manifestparser.py:28-38 | on Windows a normalised path holds no forward slash and a denormalised one no backslash |
| ManifestParser.VerifyDirectory | mozjs/testing/mozbase/manifestparser/manifestparser/manifestparser.py:362-365 | the two results are disjoint; a manifest path is reported missing from disk exactly when no such file exists, a file exactly when no test names it; together with the paths found on disk they cover all paths and files |
| ManifestParser.ManifestParser.Query | mozjs/testing/mozbase/manifestparser/manifestparser/manifestparser.py:235-250 | the result is the filter of the given tests, or of the parser's own tests when none are given, by all the checks, in order |
| ManifestParser.ManifestParser.Get | mozjs/testing/mozbase/manifestparser/manifestparser/manifestparser.py:252-290 | without a key the selected tests; with a key a key error exactly when some selected test lacks that field, otherwise that field of every selected test, in order |
| ManifestParser.ManifestParser.Manifests | mozjs/testing/mozbase/manifestparser/manifestparser/manifestparser.py:292-307 | without tests every manifest read; with tests the distinct non-empty manifests in order of first appearance |
| ManifestParser.ManifestParser.Paths | mozjs/testing/mozbase/manifestparser/manifestparser/manifestparser.py:309-310 | a key error exactly when some test has no path; otherwise the path of every test, in order |
| ManifestParser.ManifestParser.ActiveTestDefaults | mozjs/testing/mozbase/manifestparser/manifestparser/manifestparser.py:724-728 | one copy per test in which `expected` is kept when present and is `pass` otherwise, every other field equal to the original's; the parser's tests are unchanged |
| SDKProcessor.TrimLeft | mozjs/build/annotationProcessors/SDKProcessor.java:133 | no longer than its input, and what is left does not start with a space or control character |
| SDKProcessor.TrimRight | mozjs/build/annotationProcessors/SDKProcessor.java:133 | no longer than its input, and what is left does not end with a space or control character |
| SDKProcessor.TrimRightPrefix | mozjs/build/annotationProcessors/SDKProcessor.java:133 | trimming on the right keeps a prefix of the input |
| SDKProcessor.Trim | mozjs/build/annotationProcessors/SDKProcessor.java:133 | `String.trim`: the result has no leading or trailing space and is no longer than the input |
| SDKProcessor.TrimTrimmed | mozjs/build/annotationProcessors/SDKProcessor.java:133 | trimming an already trimmed string changes nothing |
| SDKProcessor.IndexOf | mozjs/build/annotationProcessors/SDKProcessor.java:132 | the first position of the separator |
| SDKProcessor.SplitFirst | mozjs/build/annotationProcessors/SDKProcessor.java:132 | `split(sep, 2)` yields one or two parts, and a single part is the whole text |
| SDKProcessor.SplitFirstParts | mozjs/build/annotationProcessors/SDKProcessor.java:183 | `split(sep, 2)` yields one part exactly when the separator is absent; two parts are the text before the first separator and the rest, and joining them back with the separator gives the text |
| SDKProcessor.SplitAll | mozjs/build/annotationProcessors/SDKProcessor.java:181 | splitting at every separator yields at least one piece |
| SDKProcessor.DropTrailingEmpty | mozjs/build/annotationProcessors/SDKProcessor.java:181 | `String.split` drops trailing empty pieces: the result is a prefix of the pieces whose last piece, if any, is not empty |
| SDKProcessor.SplitAllCons | mozjs/build/annotationProcessors/SDKProcessor.java:181 | a text without the separator followed by the separator splits off as the first piece |
| SDKProcessor.SplitAllJoin | mozjs/build/annotationProcessors/SDKProcessor.java:181 | splitting pieces joined with a separator they do not contain gives the pieces back |
| SDKProcessor.SplitJoin | mozjs/build/annotationProcessors/SDKProcessor.java:181 | the same round trip through `String.split`, when the last piece is not empty |
| SDKProcessor.OptionNameKey | mozjs/build/annotationProcessors/SDKProcessor.java:189-221 | each option name (`skip`, `stubName`, `exceptionMode`, `calledFrom`, `dispatchTo`, `noLiteral`) is recognised as that option and holds no `:` or `,` |
| SDKProcessor.ParseOption | mozjs/build/annotationProcessors/SDKProcessor.java:183-188 | an option element that parses yields a trimmed value |
| SDKProcessor.ApplyAt | mozjs/build/annotationProcessors/SDKProcessor.java:182-222 | one element of the option loop: a missing `:` fails with "Missing option value", an unknown name with "Unknown option", a true `skip` ends with no info, `stubName` in a generic entry fails, anything else updates the info and goes on |
| SDKProcessor.ApplyStep | mozjs/build/annotationProcessors/SDKProcessor.java:189-221 | an element that neither skips nor fails sets its option and the loop continues with the rest |
| SDKProcessor.Lookup | mozjs/build/annotationProcessors/SDKProcessor.java:160-176 | the annotation is looked up by signature key, then by plain name, then by the generic `<constructor>`/`<field>`/`<method>` key (its value, marked generic), then the class default (marked generic) |
| SDKProcessor.OptionPair | mozjs/build/annotationProcessors/SDKProcessor.java:183-188 | `name:value` with a trimmed value parses back to that option and value |
| SDKProcessor.ApplyOne | mozjs/build/annotationProcessors/SDKProcessor.java:189-221 | an element for a non-skip option (and not `stubName` in a generic entry) sets that option, then the remaining elements apply |
| SDKProcessor.Texts | mozjs/build/annotationProcessors/SDKProcessor.java:181-188 | rendering option pairs gives one `name:value` element per pair, in order |
| SDKProcessor.ApplyPairs | mozjs/build/annotationProcessors/SDKProcessor.java:181-223 | applying rendered option pairs succeeds and sets every pair in order |
| SDKProcessor.BoolText | mozjs/build/annotationProcessors/SDKProcessor.java:191 | the text rendered for a boolean is read back by `Boolean.valueOf` as that boolean |
| SDKProcessor.ElementClean | mozjs/build/annotationProcessors/SDKProcessor.java:181 | an element whose value holds no comma holds no comma and is not empty |
| SDKProcessor.ElementsSplittable | mozjs/build/annotationProcessors/SDKProcessor.java:181 | the rendered elements of an info hold no comma and the last is not empty, so `split(",")` separates them |
| SDKProcessor.PairsApplicable | mozjs/build/annotationProcessors/SDKProcessor.java:189-221 | the full option list of an info never skips and has trimmed values |
| SDKProcessor.SetAllPairs | mozjs/build/annotationProcessors/SDKProcessor.java:196-218 | setting every option of an info over any defaults gives that info |
| SDKProcessor.RenderRoundTrip | mozjs/build/annotationProcessors/SDKProcessor.java:181-223 | any annotation info with comma-free trimmed values, written as an option string, is parsed back by the option loop to exactly that info |
| SDKProcessor.SkipFirst | mozjs/build/annotationProcessors/SDKProcessor.java:190-194 | a leading `skip:true` ends the loop with no info, whatever follows |
| SDKProcessor.GenericStubName | mozjs/build/annotationProcessors/SDKProcessor.java:196-201 | `stubName` in a generic entry fails with "stubName doesn't make sense here" |
| SDKProcessor.SectionValue | mozjs/build/annotationProcessors/SDKProcessor.java:131-135 | a new class has no member annotations and a trimmed name |
| SDKProcessor.SectionWithoutDefault | mozjs/build/annotationProcessors/SDKProcessor.java:131-135 | a section header without `=` names the trimmed class and has no default annotation |
| SDKProcessor.AddAnnotationSpec | mozjs/build/annotationProcessors/SDKProcessor.java:137-150 | a mapping is accepted exactly when its trimmed member name is not empty, it has an `=`, and the member is not annotated yet; it then adds that member with the trimmed value and changes nothing else |
| SDKProcessor.ReadLine | mozjs/build/annotationProcessors/SDKProcessor.java:446-470 | a blank or comment line changes nothing; a section line appends one class and keeps the others; any other line keeps the number of classes |
| SDKProcessor.ReadLineCases | mozjs/build/annotationProcessors/SDKProcessor.java:446-470 | each case of the reader's switch: comments skipped, "Missing trailing ']'", a new class from the bracketed text, "Missing class" before any section, otherwise the mapping is added to the last class |
| SDKProcessor.ReadLinesSections | mozjs/build/annotationProcessors/SDKProcessor.java:445-471 | a successful read adds one class per section line |
| SDKProcessor.ReadLinesStep | mozjs/build/annotationProcessors/SDKProcessor.java:445-471 | the reader stops at the first failing line and otherwise continues from the state that line leaves |
| SDKProcessor.ClassListSections | mozjs/build/annotationProcessors/SDKProcessor.java:439-476 | a class list read without error has exactly one class per section line and at least one; a file without sections fails |
| SDKProcessor.IgnorableLineInvisible | mozjs/build/annotationProcessors/SDKProcessor.java:447-454 | blank and comment lines can be inserted anywhere without changing what is read |
| SDKProcessor.MemberBeforeSection | mozjs/build/annotationProcessors/SDKProcessor.java:463-467 | a mapping line before any section fails with "Missing class" |
| SDKProcessor.ClassInfo.constructor | mozjs/build/annotationProcessors/SDKProcessor.java:131-135 | the new class holds the value of the section header text |
| SDKProcessor.ClassInfo.AddAnnotation | mozjs/build/annotationProcessors/SDKProcessor.java:137-150 | the class's new value is the one the mapping gives, or it reports that mapping's error and is unchanged |
| SDKProcessor.ClassInfo.FindAnnotation | mozjs/build/annotationProcessors/SDKProcessor.java:160-176 | returns the annotation and generic flag the lookup order gives |
| SDKProcessor.ClassInfo.GetAnnotationInfo | mozjs/build/annotationProcessors/SDKProcessor.java:152-224 | returns the default info for a missing or empty annotation, otherwise the result of the option loop |
| SDKProcessor.ApplyAnnotationOptions | mozjs/build/annotationProcessors/SDKProcessor.java:181-223 | the loop over option elements returns what the option specification gives |
| SDKProcessor.OpenClass | mozjs/build/annotationProcessors/SDKProcessor.java:460-461 | appends a fresh class holding the section's value |
| SDKProcessor.AnnotateLast | mozjs/build/annotationProcessors/SDKProcessor.java:468 | adds the mapping to the current (last) class and leaves the others alone |
| SDKProcessor.ReadInto | mozjs/build/annotationProcessors/SDKProcessor.java:446-470 | one turn of the reader loop: reports the line's error, or leaves the classes holding the values the line specification gives with the current class last |
| SDKProcessor.GetClassList | mozjs/build/annotationProcessors/SDKProcessor.java:439-476 | fails with the error the class-list specification gives, or returns classes holding exactly the values it gives |
| CacheIRGen.WriterTypeShape | mozjs/js/src/jit/GenerateCacheIRFiles.py:66-106 | no writer parameter type is `void` or empty, and none starts with the `p` of `private:` |
| CacheIRGen.IdWriterTypeShape | mozjs/js/src/jit/GenerateCacheIRFiles.py:67-77 | every operand-id writer type is a non-empty type name starting with neither `p` nor `v` |
| CacheIRGen.FieldWriterTypeShape | mozjs/js/src/jit/GenerateCacheIRFiles.py:78-90 | the same for every stub-field writer type |
| CacheIRGen.ImmWriterTypeShape | mozjs/js/src/jit/GenerateCacheIRFiles.py:91-105 | the same for every immediate writer type |
| CacheIRGen.IntText | mozjs/js/src/jit/GenerateCacheIRFiles.py:476 | Python's `str()` of a whole number is never empty |
| CacheIRGen.IntTextParses | mozjs/js/src/jit/GenerateCacheIRFiles.py:476 | the decimal text of a number reads back as that number, with a leading `-` for a negative one |
| CacheIRGen.WriterMethodName | mozjs/js/src/jit/GenerateCacheIRFiles.py:125-128 | the writer's name is as long as the op name, one longer for a custom writer |
| CacheIRGen.WriterMethodNameUndo | mozjs/js/src/jit/GenerateCacheIRFiles.py:125-128 | for a capitalised op name the writer's name starts with the lower-case letter, keeps the rest, ends in `_` for a custom writer, and upper-casing the first letter gives the op name back |
| CacheIRGen.ResultCount | mozjs/js/src/jit/GenerateCacheIRFiles.py:136 | the count of `result` arguments is a count of some of the arguments, so no more than there are; which arguments it counts is stated by ResultsDropped and WriterParamsMembers |
| CacheIRGen.GenWriterMethod | mozjs/js/src/jit/GenerateCacheIRFiles.py:109-156 | gen_writer_method returns the writer text of the op: optional `private:`, the signature, the opcode write, the argument writes, the length assertion, the return of `result`, the brace, optional `public:` |
| CacheIRGen.WriterParamsMembers | mozjs/js/src/jit/GenerateCacheIRFiles.py:130-142 | the writer's parameters are exactly the declarations of the arguments not named `result`: one per such argument, none other, and as many as the arguments minus the results |
| CacheIRGen.ResultsDropped | mozjs/js/src/jit/GenerateCacheIRFiles.py:136-141 | the arguments named `result` are exactly the ones that do not become parameters |
| CacheIRGen.WriterReturnsResult | mozjs/js/src/jit/GenerateCacheIRFiles.py:131-137 | the writer returns a value exactly when some argument is named `result`, and then with that argument's writer type |
| CacheIRGen.CustomWriterGuards | mozjs/js/src/jit/GenerateCacheIRFiles.py:144-155 | a custom writer's text starts with `private:` and ends with `public:` |
| CacheIRGen.PlainWriterEnds | mozjs/js/src/jit/GenerateCacheIRFiles.py:144-155 | any other writer's text starts with its return type, so not with `private:`, and ends with its closing brace |
| CacheIRGen.WriterReturnTypeStart | mozjs/js/src/jit/GenerateCacheIRFiles.py:131-137 | the return type is never empty and never starts with `p` |
| CacheIRGen.WriterBodyBrackets | mozjs/js/src/jit/GenerateCacheIRFiles.py:147-153 | the opcode write directly follows the signature, and after the argument lines come the length assertion, the return when there is a result, and the brace |
| CacheIRGen.GenCompilerMethod | mozjs/js/src/jit/GenerateCacheIRFiles.py:205-240 | gen_compiler_method returns the emit signature and the forwarding reader method that reads every argument and calls it |
| CacheIRGen.CompilerNamesAgree | mozjs/js/src/jit/GenerateCacheIRFiles.py:224-229 | the k-th forwarded name is the k-th argument's name with its reader suffix, and the k-th parameter declares it with the reader's C++ type |
| CacheIRGen.CompilerGuardShape | mozjs/js/src/jit/GenerateCacheIRFiles.py:211-219 | worked example of CompilerNamesAgree, not a further property: for GuardShape(obj: ObjId, shape: ShapeField) the names are `objId`, `shapeOffset` and the parameters `ObjOperandId objId`, `uint32_t shapeOffset` |
| CacheIRGen.SpewArgLine | mozjs/js/src/jit/GenerateCacheIRFiles.py:305-310 | the print line of one argument, under its suffixed name, as the reader decodes it |
| CacheIRGen.GenSpewerMethod | mozjs/js/src/jit/GenerateCacheIRFiles.py:287-319 | gen_spewer_method returns the spewer text: the op line, the print lines with a separator between neighbours only, and the end line |
| CacheIRGen.CloneType | mozjs/js/src/jit/GenerateCacheIRFiles.py:342-343 | the clone never sees a raw operand id: a raw id is taken as a value id, any other type is kept |
| CacheIRGen.StripRef | mozjs/js/src/jit/GenerateCacheIRFiles.py:356-357 | a trailing `&` is dropped, and a type without one is kept |
| CacheIRGen.AppendCloneArg | mozjs/js/src/jit/GenerateCacheIRFiles.py:345-362 | one argument's clone lines: the read, `newOperandId` for `result`, the load of a stub field into a local, the write |
| CacheIRGen.PushCloneArg | mozjs/js/src/jit/GenerateCacheIRFiles.py:341-362 | the loop body over one argument, with the table entries for its (clone) type |
| CacheIRGen.CloneArgsLoop | mozjs/js/src/jit/GenerateCacheIRFiles.py:339-362 | the loop's text is every argument's clone lines, in argument order |
| CacheIRGen.GenCloneMethod | mozjs/js/src/jit/GenerateCacheIRFiles.py:322-371 | gen_clone_method returns the clone text, doubled braces included |
| CacheIRGen.CloneLinesStart | mozjs/js/src/jit/GenerateCacheIRFiles.py:348 | an argument's clone lines start with the line that reads it |
| CacheIRGen.CloneReadsLikeCompiler | mozjs/js/src/jit/GenerateCacheIRFiles.py:345-348 | the clone reads an argument with the same line as the compiler's forwarding method, a raw id being read as a value id |
| CacheIRGen.CloneLinesEnd | mozjs/js/src/jit/GenerateCacheIRFiles.py:353-362 | an argument's clone lines end with the write of the loaded local for a stub field, else of what was read |
| CacheIRGen.CloneWritesValue | mozjs/js/src/jit/GenerateCacheIRFiles.py:341-362 | a stub field is written from the local named as the argument, any other argument from its suffixed variable |
| CacheIRGen.CloneValueFieldLocal | mozjs/js/src/jit/GenerateCacheIRFiles.py:354-357 | the only reference writer type, `const Value&`, is loaded into a `const Value` |
| CacheIRGen.FormatOpItem | mozjs/js/src/jit/GenerateCacheIRFiles.py:469-477 | the CACHE_IR_OPS item `_(name, length, transpile, cost)` of one op |
| CacheIRGen.GeneratedSnoc | mozjs/js/src/jit/GenerateCacheIRFiles.py:450-492 | one more op appends its entries to the lists of the ops before it |
| CacheIRGen.PushOp | mozjs/js/src/jit/GenerateCacheIRFiles.py:451-492 | the loop body files one op's texts into the lists |
| CacheIRGen.FileCompilerMethods | mozjs/js/src/jit/GenerateCacheIRFiles.py:481-488 | an op's compiler text goes to the shared list or else the unshared list, and, when transpiled, to the transpiler lists with its name |
| CacheIRGen.GenerateOps | mozjs/js/src/jit/GenerateCacheIRFiles.py:450-492 | the loop over the ops produces exactly the lists the per-op specification gives |
| CacheIRGen.ArgsLengthZero | mozjs/js/src/jit/GenerateCacheIRFiles.py:469-472 | an op's length text is `0` exactly when it has no arguments |
| CacheIRGen.DefaultCostText | mozjs/js/src/jit/GenerateCacheIRFiles.py:462-463 | an op without a cost estimate is costed 4294967295, UINT32_MAX |
| CacheIRGen.GeneratedPerOp | mozjs/js/src/jit/GenerateCacheIRFiles.py:475-492 | one item, writer, spewer and clone per op, the k-th of each made from the k-th op |
| CacheIRGen.GeneratedCompilerLists | mozjs/js/src/jit/GenerateCacheIRFiles.py:481-484 | every op's compiler text is in exactly one of the shared and unshared lists, according to `shared`, and the two lists together have one entry per op |
| CacheIRGen.GeneratedTranspilerLists | mozjs/js/src/jit/GenerateCacheIRFiles.py:486-488 | the transpiler has one method and one op item per transpiled op, each from that op |
| CacheIRGen.SharedSplit | mozjs/js/src/jit/GenerateCacheIRFiles.py:481-484 | each op is filtered out of exactly one of the shared and unshared lists |
| UnicodeNonBMP.Lead | mozjs/js/src/vm/UnicodeNonBMP.h:12-17 | the lead column holds a high surrogate (section 2.1 of RFC 2781) |
| UnicodeNonBMP.Trail | mozjs/js/src/vm/UnicodeNonBMP.h:12-17 | the trail columns hold low surrogates (section 2.1 of RFC 2781) |
| UnicodeNonBMP.Decode | mozjs/js/src/vm/UnicodeNonBMP.h:12-17 | a surrogate pair decodes to a supplementary code point (section 2.2 of RFC 2781) |
| UnicodeNonBMP.DecodeEncode | mozjs/js/src/vm/UnicodeNonBMP.h:12-17 | decoding the lead and trail surrogate of a code point gives it back |
| UnicodeNonBMP.EncodeDecode | mozjs/js/src/vm/UnicodeNonBMP.h:12-17 | encoding a decoded surrogate pair gives the same pair back |
| UnicodeNonBMP.TablesWellFormed | mozjs/js/src/vm/UnicodeNonBMP.h:12-38 | in all four tables every row's lead and trail columns are the UTF-16 encoding of its first and last code point, and the rows are ascending and disjoint |
| UnicodeNonBMP.TrailWidthMatches | mozjs/js/src/vm/UnicodeNonBMP.h:12-38 | in a well-formed row the trail range is exactly as wide as the code-point range |
| UnicodeNonBMP.MapCodePoint | mozjs/js/src/vm/UnicodeNonBMP.h:12-38 | a code point inside a row moves by that row's delta; one outside every row is unchanged |
| UnicodeNonBMP.LowerUpperMirror | mozjs/js/src/vm/UnicodeNonBMP.h:12-24 | row i of the lower-casing table, shifted by its delta, is row i of the upper-casing table, whose delta is the opposite |
| UnicodeNonBMP.FoldingTablesEqual | mozjs/js/src/vm/UnicodeNonBMP.h:12-38 | the case-folding table equals the lower-casing table and the reverse case-folding table the upper-casing one |
| UnicodeNonBMP.LowerThenUpper | mozjs/js/src/vm/UnicodeNonBMP.h:12-24 | mapping a code point through the lower-casing table and the result through the upper-casing table restores it |

## Left out

- The MIR graph classes (`MBasicBlock`, `MIRGraph` and the MIR node classes) are not part of this model. The graph is a value, a block is an index, a definition is a number and an instruction is an opcode record. `MBasicBlock::New`'s inheritance of slots and pushed values is written out.
- `addPredecessor` creating phis for slots that differ at a join is not modelled. Only the loop-parameter phis that `startLoop` makes are modelled.
- `justReplaceAllUsesWith` is modelled as the `replaced` map from a discarded phi to its replacement. MIR use lists are not modelled.
- Block order in the graph (`moveBlockToEnd`) is not modelled, because block identity is the index.
- Out-of-memory paths (`ensureBallast`, failed vector appends and failed allocations) are not modelled. Every operation succeeds.
- The opcode reader (`OpIter`) is not modelled: operand values, depths and kinds are parameters. Validation errors are not modelled either.
- Multi-value returns and call-site line numbers are not modelled. `returnValues` returns the first value, or nothing.
- Debug assertions are not modelled, except where they are a precondition of the modelled method.
- The `numJoinPreds == 0` return of `joinIfElse` cannot be reached past the dead-code test just before it, so it is not modelled as a separate path.
- WasmMemory.FillStoreAt: the value a fill store writes is symbolic (`FillByte`, or `Splat(width)` for a constant repeating the byte to that width); the bytes of the splatted constant are not computed.
- Memory base-register loads, other memory emitters, atomics beyond the alignment decision, and the bulk-memory-disabled check are not modelled.
- WasmIonCompile.FunctionCompiler.constructor: a reference-typed local starts as `Constant(0, RefOrNull)`, standing for the engine's `MWasmNullConstant`.
- WasmIonCompile.FunctionCompiler.BindBackedge: does not restate that the backedge block ends in a jump to the header, which `EndBackedge` states.
- The machine constants are parameters of the model. These are the offset guard limit, `MaxInlineMemoryCopyLength` and `MaxInlineMemoryFillLength`, `JS_64BIT`, `SupportsFastUnalignedAccesses`, Spectre index masking, and offset folding.
- Lowering.LIRGenerator.VisitBlock: a block is given as the stack arguments of its calls; lowering its other instructions, its phis (`DefinePhis`) and its successor's phi inputs (`LowerPhiInputs`) is modelled separately or not at all.
- Floating-point semantics are not modelled. Lowering's register policy, LIR node construction, snapshots and safepoints are not modelled either.
- Other ParseNode classes, and the visitor's handling of node kinds other than lists, are not modelled.
- The OS unwinders, symbolization, demangling, critical sections and the suppression counter of the stack walker are not modelled. Raw memory is a function from addresses to words.
- StackWalk.DoFramePointerStackWalk: only the two-word frame record (saved frame pointer, then return address) with 8-byte words is modelled. The three-word record of ppc Mac and powerpc64 (StackWalk.cpp:906-908), where the return address is two words up, and the 4-byte words of i386 and powerpc32 are not modelled.
- Reading manifests and walking the file system are not modelled: the tests and the files found on disk are inputs. The rest of the manifest parser class is not part of this model.
- SDKProcessor.SetOption: the `exceptionMode`, `calledFrom` and `dispatchTo` values are kept as the option's raw text; `Utils.getEnumValue`, which maps them to the `ExceptionMode`, `CallingThread` and `DispatchTarget` enums and rejects unknown names, is not part of this model.
- SDK reflection, `ApiLookup`, `Utils.getNativeName` and the like are not modelled: the member's name, signature and kind are inputs. Code generation and file reading are not modelled: the lines of the file are an input.
- CacheIRGen.ToLower and CacheIRGen.ToUpper: Python's `str.lower()` and `str.upper()` are modelled on ASCII letters only. Op names are ASCII identifiers.
- Loading and preprocessing `CacheIROps.yaml`, assembling the header text and writing the file are not modelled.
- Case mapping inside the Basic Multilingual Plane and the code that consumes the non-BMP tables are not part of this model.
