/**
 * Selection rules of the MIR-to-LIR lowering pass (js/src/jit/Lowering.cpp):
 * stack-argument slot numbering, table-switch degeneration, deferring a
 * comparison or bit-and to its single use, bounds-check elision for wasm
 * table calls, and the LIR index accounting of phis.
 */
module Lowering {
  import opened Wrappers

  /** The MIR types the rules below distinguish; every other type is `OtherType`. */
  datatype MIRType = Value | Int32 | Int64 | Double | Float32 | Boolean | Object | OtherType

  /** The comparison operators of a compare instruction. */
  datatype CompareOp = Eq | Ne | StrictEq | StrictNe | Lt | Le | Gt | Ge

  /** An MIR definition as the lowering sees it: an identity, a type, and whether it is a known constant. */
  datatype MDef = MDef(id: nat, typ: MIRType, isConstant: bool)

  /** The opcode of an MIR instruction, as far as the emit-at-uses rules look at it. */
  datatype Opcode = Test | WasmSelect | Compare | BitAnd | OtherOp

  /**
   * An MIR instruction with the consumers of its result in use-list order.
   * A consumer is a resume point (not a definition), a phi (a definition but
   * not an instruction), or another instruction.
   */
  datatype MIns = MIns(op: Opcode, canEmitAtUses: bool, operands: seq<MIRType>, uses: seq<Consumer>)
  datatype Consumer = ResumePointUse | PhiUse | InsUse(ins: MIns)

  /** What the table-switch lowering produces. */
  datatype SwitchLIR = LGoto(target: nat) | LTableSwitchV | LTableSwitch(intIndex: bool)

  /** The LIR instructions this model records. */
  datatype LIns =
    | LStackArgV(slot: nat, arg: MDef)
    | LStackArgT(slot: nat, arg: MDef)
    | LSwitch(lir: SwitchLIR)
    | LWasmCall(needsBoundsCheck: bool)
  {
    /** A stack-argument instruction, which carries a slot. */
    predicate IsStackArg() { LStackArgV? || LStackArgT? }
  }

  // ---------------------------------------------------------------------------
  // Stack-argument slots

  /** r is a whole number of alignment units. */
  predicate MultipleOf(r: nat, alignment: nat)
    requires alignment > 0
    decreases r
  {
    r == 0 || (r >= alignment && MultipleOf(r - alignment, alignment))
  }

  /** AlignBytes: the least multiple of the alignment that is at least n. */
  function AlignBytes(n: nat, alignment: nat): (r: nat)
    requires alignment > 0
    ensures r >= n && r < n + alignment && MultipleOf(r, alignment)
    decreases n
  {
    if n == 0 then 0
    else if n <= alignment then alignment
    else alignment + AlignBytes(n - alignment, alignment)
  }

  /** The slot just above the arguments of a call with `argc` stack arguments. */
  function BaseSlot(argc: nat, alignment: nat): (r: nat)
    ensures r >= argc
    ensures alignment > 1 ==> MultipleOf(r, alignment) && r < argc + alignment
    ensures alignment <= 1 ==> r == argc
  {
    if alignment > 1 then AlignBytes(argc, alignment) else argc
  }

  /** The LIR stack-argument instruction for argument `i` of a call whose base slot is `base`. */
  function StackArg(arg: MDef, slot: nat): (r: LIns)
    ensures r.LStackArgV? || r.LStackArgT?
    ensures r.slot == slot && r.arg == arg
    ensures r.LStackArgV? <==> arg.typ == Value
  {
    if arg.typ == Value then LStackArgV(slot, arg) else LStackArgT(slot, arg)
  }

  /** The stack-argument instructions of a call, argument i in slot base - i. */
  function StackArgs(args: seq<MDef>, base: nat): (r: seq<LIns>)
    requires |args| <= base
    ensures |r| == |args|
  {
    if args == [] then []
    else StackArgs(args[..|args| - 1], base) + [StackArg(args[|args| - 1], base - (|args| - 1))]
  }

  /** Argument i of the call gets the instruction for slot base - i. */
  lemma {:induction false} StackArgsAt(args: seq<MDef>, base: nat)
    requires |args| <= base
    ensures forall i :: 0 <= i < |args| ==> StackArgs(args, base)[i] == StackArg(args[i], base - i)
  {
    if args != [] {
      var n := |args| - 1;
      StackArgsAt(args[..n], base);
      assert forall i :: 0 <= i < n ==> args[..n][i] == args[i];
    }
  }

  /** The instructions of one more argument extend those of the arguments before it. */
  lemma StackArgsSnoc(args: seq<MDef>, i: nat, base: nat)
    requires i < |args| <= base
    ensures StackArgs(args[..i + 1], base) == StackArgs(args[..i], base) + [StackArg(args[i], base - i)]
  {
    assert args[..i + 1][..i] == args[..i];
  }

  /** Slots handed to the arguments of one call are distinct and lie in 1..base. */
  lemma StackSlotsDistinct(args: seq<MDef>, base: nat)
    requires |args| <= base
    ensures forall i :: 0 <= i < |args| ==> StackArgs(args, base)[i].IsStackArg() && 1 <= StackArgs(args, base)[i].slot <= base
    ensures forall i, j :: 0 <= i < j < |args| ==>
              StackArgs(args, base)[i].IsStackArg() && StackArgs(args, base)[j].IsStackArg() &&
              StackArgs(args, base)[i].slot != StackArgs(args, base)[j].slot
  {
    StackArgsAt(args, base);
  }

  // ---------------------------------------------------------------------------
  // Table switches

  /** visitTableSwitch: the LIR chosen for a table switch with `numSuccessors` successors. */
  function LowerTableSwitch(numSuccessors: nat, operand: MIRType, defaultTarget: nat): (r: SwitchLIR)
    requires numSuccessors > 0
    ensures r.LGoto? <==> numSuccessors == 1 || operand !in {Value, Int32, Double}
    ensures r.LGoto? ==> r.target == defaultTarget
    ensures r.LTableSwitchV? <==> numSuccessors > 1 && operand == Value
    ensures r.LTableSwitch? ==> (r.intIndex <==> operand == Int32)
  {
    if numSuccessors == 1 then LGoto(defaultTarget)
    else if operand == Value then LTableSwitchV
    else if operand != Int32 && operand != Double then LGoto(defaultTarget)
    else LTableSwitch(operand == Int32)
  }

  // ---------------------------------------------------------------------------
  // Comparisons

  /** ReverseCompareOp: the operator that gives the same answer with the operands swapped. */
  function ReverseCompareOp(op: CompareOp): (r: CompareOp)
    ensures (op in {Lt, Gt, Le, Ge} <==> r in {Lt, Gt, Le, Ge}) && (op !in {Lt, Gt, Le, Ge} ==> r == op)
  {
    match op
    case Lt => Gt
    case Gt => Lt
    case Le => Ge
    case Ge => Le
    case _ => op
  }

  /** The meaning of a comparison on integers, for the operators that order their operands. */
  function EvalCompare(op: CompareOp, a: int, b: int): bool
  {
    match op
    case Eq => a == b
    case StrictEq => a == b
    case Ne => a != b
    case StrictNe => a != b
    case Lt => a < b
    case Le => a <= b
    case Gt => a > b
    case Ge => a >= b
  }

  /** Swapping the operands and reversing the operator preserves the meaning, and reversing twice is the identity. */
  lemma ReverseCompareOpSound(op: CompareOp, a: int, b: int)
    ensures EvalCompare(ReverseCompareOp(op), b, a) == EvalCompare(op, a, b)
    ensures ReverseCompareOp(ReverseCompareOp(op)) == op
  {
  }

  /** The two operand slots of a comparison that ReorderComparison rewrites through pointers. */
  class CompareOperands {
    var lhs: MDef
    var rhs: MDef

    constructor (lhs: MDef, rhs: MDef)
      ensures this.lhs == lhs && this.rhs == rhs
    {
      this.lhs := lhs;
      this.rhs := rhs;
    }

    /** ReorderComparison: a constant left operand is moved to the right and the operator reversed. */
    method ReorderComparison(op: CompareOp) returns (r: CompareOp)
      modifies this
      ensures old(lhs).isConstant ==> lhs == old(rhs) && rhs == old(lhs) && r == ReverseCompareOp(op)
      ensures !old(lhs).isConstant ==> lhs == old(lhs) && rhs == old(rhs) && r == op
    {
      var l := lhs;
      var rh := rhs;
      if l.isConstant {
        rhs := l;
        lhs := rh;
        return ReverseCompareOp(op);
      }
      return op;
    }
  }

  /** After reordering, the comparison means what it meant before, on any operand values. */
  lemma ReorderPreservesMeaning(op: CompareOp, lhsConst: bool, a: int, b: int)
    ensures var r := if lhsConst then ReverseCompareOp(op) else op;
            var (x, y) := if lhsConst then (b, a) else (a, b);
            EvalCompare(r, x, y) == EvalCompare(op, a, b)
  {
    ReverseCompareOpSound(op, a, b);
  }

  /** True when a consumer is an instruction of one of the given opcodes. */
  predicate ConsumerIs(c: Consumer, ops: set<Opcode>)
  {
    c.InsUse? && c.ins.op in ops
  }

  /** CanEmitCompareAtUses, written as the source walks the use list. */
  function CanEmitCompareAtUses(ins: MIns): (r: bool)
    ensures r <==> ins.canEmitAtUses
                   && (|ins.uses| == 0 || (|ins.uses| == 1 && ConsumerIs(ins.uses[0], {Test, WasmSelect})))
  {
    if !ins.canEmitAtUses then false
    else if ins.uses == [] then true
    else
      var first := ins.uses[0];
      if first.ResumePointUse? then false
      else if !(first.InsUse? && (first.ins.op == Test || first.ins.op == WasmSelect)) then false
      else ins.uses[1..] == []
  }

  /** CanEmitBitAndAtUses, written as the source walks the use list. */
  function CanEmitBitAndAtUses(ins: MIns): (r: bool)
    requires |ins.operands| >= 2
    ensures r <==> ins.canEmitAtUses && ins.operands[0] == Int32 && ins.operands[1] == Int32
                   && |ins.uses| == 1 && ins.uses[0].InsUse?
                   && (ins.uses[0].ins.op == Test
                       || (ins.uses[0].ins.op == Compare && CanEmitCompareAtUses(ins.uses[0].ins)))
  {
    if !ins.canEmitAtUses then false
    else if ins.operands[0] != Int32 || ins.operands[1] != Int32 then false
    else if ins.uses == [] then false
    else
      var first := ins.uses[0];
      if !first.InsUse? then false
      else if first.ins.op != Test && !(first.ins.op == Compare && CanEmitCompareAtUses(first.ins)) then false
      else ins.uses[1..] == []
  }

  /** A bit-and deferred to its use feeds exactly one test, or one compare that is itself deferred to a test or select. */
  lemma BitAndDeferredChain(ins: MIns)
    requires |ins.operands| >= 2 && CanEmitBitAndAtUses(ins)
    ensures |ins.uses| == 1
    ensures var u := ins.uses[0].ins;
            u.op == Test
            || (u.op == Compare && u.canEmitAtUses
                && (|u.uses| == 0 || (|u.uses| == 1 && ConsumerIs(u.uses[0], {Test, WasmSelect}))))
  {
  }

  // ---------------------------------------------------------------------------
  // Wasm calls

  /** The kinds of callee a wasm call can have (CalleeDesc::Which). */
  datatype CalleeKind = Func | Import | WasmTable | AsmJSTable | Builtin | BuiltinInstanceMethod

  const Two32: int := 0x1_0000_0000

  /** The uint32_t conversion of an int32 value. */
  function ToUint32(v: int): (r: int)
    requires -0x8000_0000 <= v < 0x8000_0000
    ensures 0 <= r < Two32 && r % Two32 == v % Two32
  {
    if v < 0 then v + Two32 else v
  }

  /** visitWasmCall: whether the table call keeps its index bounds check. */
  function NeedsBoundsCheck(callee: CalleeKind, constIndex: Option<int>, tableMinLength: nat): (r: bool)
    requires constIndex.Some? ==> -0x8000_0000 <= constIndex.value < 0x8000_0000
  {
    if callee == WasmTable || callee == AsmJSTable then
      if callee == WasmTable && constIndex.Some? then
        !(ToUint32(constIndex.value) < tableMinLength)
      else true
    else true
  }

  /** The bounds check is dropped exactly for a wasm-table call with a constant index below the table's minimum length. */
  lemma BoundsCheckElision(callee: CalleeKind, constIndex: Option<int>, tableMinLength: nat)
    requires constIndex.Some? ==> -0x8000_0000 <= constIndex.value < 0x8000_0000
    ensures !NeedsBoundsCheck(callee, constIndex, tableMinLength)
            <==> callee == WasmTable && constIndex.Some? && ToUint32(constIndex.value) < tableMinLength
    ensures !NeedsBoundsCheck(callee, constIndex, tableMinLength) && tableMinLength <= 0x8000_0000
            ==> 0 <= constIndex.value < tableMinLength
  {
  }

  // ---------------------------------------------------------------------------
  // Phis

  /** Number of LIR slots a phi of this type occupies (BOX_PIECES, INT64_PIECES or 1). */
  function Pieces(t: MIRType, is64: bool): (r: nat)
    ensures 1 <= r <= 2
  {
    if t == Value then (if is64 then 1 else 2)
    else if t == Int64 then (if is64 then 1 else 2)
    else 1
  }

  /** The LIR index of each phi: the running total of the pieces of the phis before it. */
  function PhiIndices(phis: seq<MIRType>, is64: bool): (r: seq<nat>)
    ensures |r| == |phis|
    ensures |phis| > 0 ==> r[0] == 0
  {
    if phis == [] then []
    else
      var prefix := PhiIndices(phis[..|phis| - 1], is64);
      prefix + [PhiTotal(phis[..|phis| - 1], is64)]
  }

  /** The number of LIR slots taken by all the phis. */
  function PhiTotal(phis: seq<MIRType>, is64: bool): (r: nat)
    ensures r >= |phis|
  {
    if phis == [] then 0 else PhiTotal(phis[..|phis| - 1], is64) + Pieces(phis[|phis| - 1], is64)
  }

  /** Each phi's slots start right after the previous phi's slots end, and all lie below the total. */
  lemma {:induction false} PhiIndicesContiguous(phis: seq<MIRType>, is64: bool)
    ensures forall k :: 0 <= k < |phis| - 1 ==>
      PhiIndices(phis, is64)[k + 1] == PhiIndices(phis, is64)[k] + Pieces(phis[k], is64)
    ensures forall k :: 0 <= k < |phis| ==>
      PhiIndices(phis, is64)[k] + Pieces(phis[k], is64) <= PhiTotal(phis, is64)
  {
    if phis != [] {
      var init := phis[..|phis| - 1];
      PhiIndicesContiguous(init, is64);
      var idx := PhiIndices(phis, is64);
      assert idx == PhiIndices(init, is64) + [PhiTotal(init, is64)];
      forall k | 0 <= k < |phis| - 1
        ensures idx[k + 1] == idx[k] + Pieces(phis[k], is64)
      {
        assert phis[k] == init[k];
        if k + 1 < |init| {
          assert idx[k + 1] == PhiIndices(init, is64)[k + 1];
        } else {
          assert idx[k + 1] == PhiTotal(init, is64);
          PhiLastSlot(init, is64);
        }
      }
      forall k | 0 <= k < |phis|
        ensures idx[k] + Pieces(phis[k], is64) <= PhiTotal(phis, is64)
      {
        if k < |init| {
          assert phis[k] == init[k];
        }
      }
    }
  }

  /** The last phi's slots end exactly at the total. */
  lemma PhiLastSlot(phis: seq<MIRType>, is64: bool)
    requires |phis| > 0
    ensures PhiIndices(phis, is64)[|phis| - 1] + Pieces(phis[|phis| - 1], is64) == PhiTotal(phis, is64)
  {
  }

  /** The LIR generator's state that these rules update: the emitted instructions and the argument-slot maximum. */
  class LIRGenerator {
    const is64: bool
    const stackValueAlignment: nat
    var maxArgSlots: nat
    var instructions: seq<LIns>
    var argumentSlotCount: nat

    constructor (is64: bool, stackValueAlignment: nat)
      ensures this.is64 == is64 && this.stackValueAlignment == stackValueAlignment
      ensures maxArgSlots == 0 && instructions == [] && argumentSlotCount == 0
    {
      this.is64 := is64;
      this.stackValueAlignment := stackValueAlignment;
      maxArgSlots := 0;
      instructions := [];
      argumentSlotCount := 0;
    }

    /** Emits the stack-argument instruction of one argument, by its type. */
    method PushStackArg(arg: MDef, slot: nat)
      modifies this`instructions
      ensures instructions == old(instructions) + [StackArg(arg, slot)]
    {
      if arg.typ == Value {
        instructions := instructions + [LStackArgV(slot, arg)];
      } else {
        instructions := instructions + [LStackArgT(slot, arg)];
      }
    }

    /** lowerCallArguments: one stack-argument instruction per argument; the maximum base slot only grows. */
    method LowerCallArguments(args: seq<MDef>)
      modifies this`maxArgSlots, this`instructions
      ensures maxArgSlots == Max(old(maxArgSlots), BaseSlot(|args|, stackValueAlignment))
      ensures maxArgSlots >= old(maxArgSlots)
      ensures instructions == old(instructions) + StackArgs(args, BaseSlot(|args|, stackValueAlignment))
    {
      var argc := |args|;
      var baseSlot: nat;
      if stackValueAlignment > 1 {
        baseSlot := AlignBytes(argc, stackValueAlignment);
      } else {
        baseSlot := argc;
      }
      assert baseSlot == BaseSlot(argc, stackValueAlignment);
      if baseSlot > maxArgSlots {
        maxArgSlots := baseSlot;
      }
      ghost var start := instructions;
      var i := 0;
      while i < argc
        invariant 0 <= i <= argc
        invariant instructions == start + StackArgs(args[..i], baseSlot)
        modifies this`instructions
      {
        PushStackArg(args[i], baseSlot - i);
        StackArgsSnoc(args, i, baseSlot);
        i := i + 1;
      }
      assert args[..argc] == args;
    }

    /** visitTableSwitch. */
    method VisitTableSwitch(numSuccessors: nat, operand: MIRType, defaultTarget: nat)
      requires numSuccessors > 0
      modifies this`instructions
      ensures instructions == old(instructions) + [LSwitch(LowerTableSwitch(numSuccessors, operand, defaultTarget))]
    {
      instructions := instructions + [LSwitch(LowerTableSwitch(numSuccessors, operand, defaultTarget))];
    }

    /** visitWasmCall: the call instruction records whether it keeps its bounds check. */
    method VisitWasmCall(callee: CalleeKind, constIndex: Option<int>, tableMinLength: nat)
      requires constIndex.Some? ==> -0x8000_0000 <= constIndex.value < 0x8000_0000
      modifies this`instructions
      ensures instructions == old(instructions) + [LWasmCall(NeedsBoundsCheck(callee, constIndex, tableMinLength))]
    {
      var needsBoundsCheck := true;
      if callee == WasmTable || callee == AsmJSTable {
        if callee == WasmTable && constIndex.Some? {
          if ToUint32(constIndex.value) < tableMinLength {
            needsBoundsCheck := false;
          }
        }
      }
      instructions := instructions + [LWasmCall(needsBoundsCheck)];
    }

    /** definePhis: the LIR index handed to each phi of the current block. */
    method DefinePhis(phis: seq<MIRType>) returns (indices: seq<nat>)
      ensures indices == PhiIndices(phis, is64)
    {
      var lirIndex := 0;
      indices := [];
      var k := 0;
      while k < |phis|
        invariant 0 <= k <= |phis|
        invariant indices == PhiIndices(phis[..k], is64)
        invariant lirIndex == PhiTotal(phis[..k], is64)
      {
        indices := indices + [lirIndex];
        if phis[k] == Value {
          lirIndex := lirIndex + (if is64 then 1 else 2);
        } else if phis[k] == Int64 {
          lirIndex := lirIndex + (if is64 then 1 else 2);
        } else {
          lirIndex := lirIndex + 1;
        }
        assert phis[..k + 1][..k] == phis[..k];
        k := k + 1;
      }
      assert phis[..k] == phis;
    }

    /** The successor-phi input lowering of visitBlock: the LIR index each input is written to. */
    method LowerPhiInputs(successorPhis: seq<MIRType>) returns (indices: seq<nat>)
      ensures indices == PhiIndices(successorPhis, is64)
    {
      var lirIndex := 0;
      indices := [];
      for k := 0 to |successorPhis|
        invariant indices == PhiIndices(successorPhis[..k], is64)
        invariant lirIndex == PhiTotal(successorPhis[..k], is64)
      {
        var t := successorPhis[k];
        indices := indices + [lirIndex];
        if t == Value {
          lirIndex := lirIndex + (if is64 then 1 else 2);
        } else if t == Int64 {
          lirIndex := lirIndex + (if is64 then 1 else 2);
        } else {
          lirIndex := lirIndex + 1;
        }
        assert successorPhis[..k + 1][..k] == successorPhis[..k];
      }
      assert successorPhis[..|successorPhis|] == successorPhis;
    }

    /** visitBlock, as far as calls go: lowers the stack arguments of each call of the block in order. */
    method VisitBlock(calls: seq<seq<MDef>>)
      modifies this`maxArgSlots, this`instructions
      ensures instructions == old(instructions) + CallsArgs(calls, stackValueAlignment)
      ensures maxArgSlots == Max(old(maxArgSlots), CallsMax(calls, stackValueAlignment))
    {
      ghost var start, startMax := instructions, maxArgSlots;
      var c := 0;
      while c < |calls|
        invariant 0 <= c <= |calls|
        invariant instructions == start + CallsArgs(calls[..c], stackValueAlignment)
        invariant maxArgSlots == Max(startMax, CallsMax(calls[..c], stackValueAlignment))
      {
        ghost var pending := StackArgs(calls[c], BaseSlot(|calls[c]|, stackValueAlignment));
        LowerCallArguments(calls[c]);
        CallsSnoc(calls, c, stackValueAlignment);
        ConcatAssoc(start, CallsArgs(calls[..c], stackValueAlignment), pending);
        c := c + 1;
      }
      assert calls[..|calls|] == calls;
    }

    /**
     * generate: visits the blocks in order, lowering the stack arguments of
     * every call, and finally stores the largest base slot seen as the
     * graph's argument slot count.
     */
    method Generate(blockCalls: seq<seq<seq<MDef>>>)
      modifies this`maxArgSlots, this`instructions, this`argumentSlotCount
      ensures instructions == old(instructions) + BlocksArgs(blockCalls, stackValueAlignment)
      ensures argumentSlotCount == maxArgSlots == Max(old(maxArgSlots), BlocksMax(blockCalls, stackValueAlignment))
      ensures argumentSlotCount >= old(maxArgSlots)
      ensures forall b, c :: 0 <= b < |blockCalls| && 0 <= c < |blockCalls[b]| ==>
                BaseSlot(|blockCalls[b][c]|, stackValueAlignment) <= argumentSlotCount
    {
      ghost var start := instructions;
      var b := 0;
      while b < |blockCalls|
        invariant 0 <= b <= |blockCalls|
        invariant instructions == start + BlocksArgs(blockCalls[..b], stackValueAlignment)
        invariant maxArgSlots == Max(old(maxArgSlots), BlocksMax(blockCalls[..b], stackValueAlignment))
      {
        ghost var pending := CallsArgs(blockCalls[b], stackValueAlignment);
        VisitBlock(blockCalls[b]);
        BlocksSnoc(blockCalls, b, stackValueAlignment);
        ConcatAssoc(start, BlocksArgs(blockCalls[..b], stackValueAlignment), pending);
        b := b + 1;
      }
      assert blockCalls[..|blockCalls|] == blockCalls;
      argumentSlotCount := maxArgSlots;
      BlocksMaxLeast(blockCalls, stackValueAlignment, 0);
    }
  }

  /** The stack-argument instructions of a block's calls, call after call. */
  function CallsArgs(calls: seq<seq<MDef>>, alignment: nat): (r: seq<LIns>)
  {
    if calls == [] then []
    else
      var last := calls[|calls| - 1];
      CallsArgs(calls[..|calls| - 1], alignment) + StackArgs(last, BaseSlot(|last|, alignment))
  }

  /** The stack-argument instructions of every block, block after block. */
  function BlocksArgs(blocks: seq<seq<seq<MDef>>>, alignment: nat): (r: seq<LIns>)
  {
    if blocks == [] then []
    else BlocksArgs(blocks[..|blocks| - 1], alignment) + CallsArgs(blocks[|blocks| - 1], alignment)
  }

  /** The largest base slot of a block's calls, 0 when it has none. */
  function CallsMax(calls: seq<seq<MDef>>, alignment: nat): (r: nat)
  {
    if calls == [] then 0
    else Max(CallsMax(calls[..|calls| - 1], alignment), BaseSlot(|calls[|calls| - 1]|, alignment))
  }

  /** The largest base slot of any call in any block, 0 when there is none. */
  function BlocksMax(blocks: seq<seq<seq<MDef>>>, alignment: nat): (r: nat)
  {
    if blocks == [] then 0
    else Max(BlocksMax(blocks[..|blocks| - 1], alignment), CallsMax(blocks[|blocks| - 1], alignment))
  }

  /** Concatenation regroups freely; stated once so the loops above need not rediscover it. */
  lemma ConcatAssoc(a: seq<LIns>, b: seq<LIns>, c: seq<LIns>)
    ensures a + b + c == a + (b + c)
  {
  }

  /** One more call extends the instructions and the maximum of the calls before it. */
  lemma CallsSnoc(calls: seq<seq<MDef>>, c: nat, alignment: nat)
    requires c < |calls|
    ensures CallsArgs(calls[..c + 1], alignment)
            == CallsArgs(calls[..c], alignment) + StackArgs(calls[c], BaseSlot(|calls[c]|, alignment))
    ensures CallsMax(calls[..c + 1], alignment) == Max(CallsMax(calls[..c], alignment), BaseSlot(|calls[c]|, alignment))
  {
    assert calls[..c + 1][..c] == calls[..c];
  }

  /** One more block extends the instructions and the maximum of the blocks before it. */
  lemma BlocksSnoc(blocks: seq<seq<seq<MDef>>>, b: nat, alignment: nat)
    requires b < |blocks|
    ensures BlocksArgs(blocks[..b + 1], alignment) == BlocksArgs(blocks[..b], alignment) + CallsArgs(blocks[b], alignment)
    ensures BlocksMax(blocks[..b + 1], alignment) == Max(BlocksMax(blocks[..b], alignment), CallsMax(blocks[b], alignment))
  {
    assert blocks[..b + 1][..b] == blocks[..b];
  }

  /** CallsMax is the least bound of the calls' base slots. */
  lemma {:induction false} CallsMaxLeast(calls: seq<seq<MDef>>, alignment: nat, m: nat)
    ensures forall c :: 0 <= c < |calls| ==> BaseSlot(|calls[c]|, alignment) <= CallsMax(calls, alignment)
    ensures (forall c :: 0 <= c < |calls| ==> BaseSlot(|calls[c]|, alignment) <= m) ==> CallsMax(calls, alignment) <= m
  {
    if calls != [] {
      var n := |calls| - 1;
      CallsMaxLeast(calls[..n], alignment, m);
      assert forall c :: 0 <= c < n ==> calls[..n][c] == calls[c];
    }
  }

  /** BlocksMax is the least bound of the base slots of every call in every block. */
  lemma {:induction false} BlocksMaxLeast(blocks: seq<seq<seq<MDef>>>, alignment: nat, m: nat)
    ensures forall b, c :: 0 <= b < |blocks| && 0 <= c < |blocks[b]| ==>
              BaseSlot(|blocks[b][c]|, alignment) <= BlocksMax(blocks, alignment)
    ensures (forall b, c :: 0 <= b < |blocks| && 0 <= c < |blocks[b]| ==> BaseSlot(|blocks[b][c]|, alignment) <= m) ==>
              BlocksMax(blocks, alignment) <= m
  {
    if blocks != [] {
      var n := |blocks| - 1;
      BlocksMaxLeast(blocks[..n], alignment, m);
      CallsMaxLeast(blocks[n], alignment, m);
      assert forall b :: 0 <= b < n ==> blocks[..n][b] == blocks[b];
    }
  }

  /** The instructions of all blocks number the arguments of all their calls. */
  lemma {:induction false} BlocksArgsLength(blocks: seq<seq<seq<MDef>>>, alignment: nat)
    ensures |BlocksArgs(blocks, alignment)| == ArgCount(blocks)
  {
    if blocks != [] {
      var n := |blocks| - 1;
      BlocksArgsLength(blocks[..n], alignment);
      CallsArgsLength(blocks[n], alignment);
    }
  }

  lemma {:induction false} CallsArgsLength(calls: seq<seq<MDef>>, alignment: nat)
    ensures |CallsArgs(calls, alignment)| == CallArgCount(calls)
  {
    if calls != [] {
      CallsArgsLength(calls[..|calls| - 1], alignment);
    }
  }

  /** The number of arguments of a block's calls. */
  function CallArgCount(calls: seq<seq<MDef>>): nat
  {
    if calls == [] then 0 else CallArgCount(calls[..|calls| - 1]) + |calls[|calls| - 1]|
  }

  /** The number of arguments of the calls in every block. */
  function ArgCount(blocks: seq<seq<seq<MDef>>>): nat
  {
    if blocks == [] then 0 else ArgCount(blocks[..|blocks| - 1]) + CallArgCount(blocks[|blocks| - 1])
  }

  function Max(a: nat, b: nat): nat { if a >= b then a else b }
}
