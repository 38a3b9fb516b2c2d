/**
 * The part of the MIR graph that the WebAssembly function compiler
 * (js/src/wasm/WasmIonCompile.cpp) builds and edits. The graph classes
 * themselves (MBasicBlock, MIRGraph, the MIR node classes) live elsewhere in
 * the engine; here the graph is a value: a sequence of blocks, each with its
 * predecessors, instructions, slots, pushed stack values, phis, the control
 * instruction that ends it (once there is one) and its loop depth, plus the
 * set of marked blocks.
 *
 * A definition (MDefinition*) is identified by a number; a block by its
 * index in the graph.
 */
module WasmMir {
  import opened Wrappers

  type BlockId = nat
  type Def = nat

  /** The MIR types the compiler distinguishes here. */
  datatype MirType = Int32 | Int64 | Float32 | Double | Pointer | RefOrNull

  /** The instructions this model records; every other emitter is a `Node`. */
  datatype Opcode =
    | Constant(value: int, ty: MirType)
    | TruncateToInt32(input: Def)
    | Div(lhs: Def, rhs: Def, ty: MirType, unsigned: bool, trapOnError: bool)
    | Mod(lhs: Def, rhs: Def, ty: MirType, unsigned: bool, trapOnError: bool)
    | AddOffset(base: Def, offset: nat)
    | AlignmentCheck(base: Def, byteSize: nat)
    | LoadBoundsCheckLimit
    | BoundsCheck(base: Def, limit: Def)
    | Node(name: string, operands: seq<Def>)

  datatype Instr = Instr(def: Def, op: Opcode)

  /** The kinds of control instruction that end a block. */
  datatype Ending =
    | Goto
    | Test(condition: Def)
    | TableSwitch(operand: Def)
    | Return(value: Def)
    | ReturnVoid
    | Trap

  /**
   * A control instruction: its kind, its successor slots (a slot is `None`
   * until a branch patch fills it), and, for a table switch, the successor
   * slot of each case in case order. For a test, slot 0 is the true branch.
   */
  datatype Control = Control(kind: Ending, successors: seq<Option<BlockId>>, cases: seq<nat>)

  /** A phi: its identity, its operands, the operand capacity reserved, and the unused flag. */
  datatype Phi = Phi(def: Def, operands: seq<Def>, capacity: nat, unused: bool)

  datatype Block = Block(
    preds: seq<BlockId>,
    instrs: seq<Instr>,
    slots: seq<Def>,
    pushed: seq<Def>,
    phis: seq<Phi>,
    end: Option<Control>,
    loopDepth: nat)

  datatype Graph = Graph(blocks: seq<Block>, marked: set<BlockId>)

  /** A block that exists and has no control instruction yet. */
  predicate Open(g: Graph, b: BlockId)
  {
    b < |g.blocks| && g.blocks[b].end.None?
  }

  /** A block that exists and is ended by a control instruction. */
  predicate Closed(g: Graph, b: BlockId)
  {
    b < |g.blocks| && g.blocks[b].end.Some?
  }

  /** The number of successor slots of a closed block's control instruction. */
  function SlotCount(g: Graph, b: BlockId): nat
    requires Closed(g, b)
  {
    |g.blocks[b].end.value.successors|
  }

  /**
   * No block disappears, and a closed block stays closed with the same
   * number of successor slots.
   */
  ghost predicate Extends(g: Graph, h: Graph)
  {
    |g.blocks| <= |h.blocks| &&
    forall b: BlockId :: Closed(g, b) ==> Closed(h, b) && SlotCount(h, b) == SlotCount(g, b)
  }

  /** Every open block of `g` other than `except` is still open in `h`. */
  ghost predicate KeepsOpen(g: Graph, h: Graph, except: Option<BlockId>)
  {
    forall b: BlockId :: Open(g, b) && Some(b) != except ==> Open(h, b)
  }

  /**
   * MBasicBlock::New with MIRGraph::addBlock and setLoopDepth: a new open
   * block at index |g.blocks| whose predecessor is `pred` and which
   * inherits the predecessor's slots and pushed values.
   */
  function NewBlock(g: Graph, pred: Option<BlockId>, loopDepth: nat): (h: Graph)
    requires pred.Some? ==> pred.value < |g.blocks|
    ensures Extends(g, h) && KeepsOpen(g, h, None)
    ensures |h.blocks| == |g.blocks| + 1 && h.blocks[..|g.blocks|] == g.blocks
    ensures Open(h, |g.blocks|) && h.marked == g.marked
    ensures h.blocks[|g.blocks|].loopDepth == loopDepth && h.blocks[|g.blocks|].phis == []
    ensures h.blocks[|g.blocks|].preds == (if pred.Some? then [pred.value] else [])
  {
    var b := match pred
      case None => Block([], [], [], [], [], None, loopDepth)
      case Some(p) => Block([p], [], g.blocks[p].slots, g.blocks[p].pushed, [], None, loopDepth);
    g.(blocks := g.blocks + [b])
  }

  /** MBasicBlock::add: append an instruction to block `b`. */
  function Add(g: Graph, b: BlockId, i: Instr): (h: Graph)
    requires b < |g.blocks|
    ensures Extends(g, h) && KeepsOpen(g, h, None) && |h.blocks| == |g.blocks| && h.marked == g.marked
  {
    g.(blocks := g.blocks[b := g.blocks[b].(instrs := g.blocks[b].instrs + [i])])
  }

  /** MBasicBlock::end: close open block `b` with control instruction `c`. */
  function End(g: Graph, b: BlockId, c: Control): (h: Graph)
    requires Open(g, b)
    ensures Extends(g, h) && KeepsOpen(g, h, Some(b)) && |h.blocks| == |g.blocks| && h.marked == g.marked
    ensures Closed(h, b) && h.blocks[b].end == Some(c)
  {
    g.(blocks := g.blocks[b := g.blocks[b].(end := Some(c))])
  }

  /** MBasicBlock::addPredecessor, without the phis it creates for differing slots. */
  function AddPredecessor(g: Graph, b: BlockId, pred: BlockId): (h: Graph)
    requires b < |g.blocks|
    ensures Extends(g, h) && KeepsOpen(g, h, None) && |h.blocks| == |g.blocks| && h.marked == g.marked
  {
    g.(blocks := g.blocks[b := g.blocks[b].(preds := g.blocks[b].preds + [pred])])
  }

  /** MControlInstruction::replaceSuccessor on the control instruction that ends `b`. */
  function ReplaceSuccessor(g: Graph, b: BlockId, index: nat, target: BlockId): (h: Graph)
    requires Closed(g, b) && index < SlotCount(g, b)
    ensures Extends(g, h) && KeepsOpen(g, h, None) && |h.blocks| == |g.blocks| && h.marked == g.marked
  {
    var c := g.blocks[b].end.value;
    g.(blocks := g.blocks[b := g.blocks[b].(end := Some(c.(successors := c.successors[index := Some(target)])))])
  }

  /** MBasicBlock::push for each definition in order. */
  function Push(g: Graph, b: BlockId, defs: seq<Def>): (h: Graph)
    requires b < |g.blocks|
    ensures Extends(g, h) && KeepsOpen(g, h, None) && |h.blocks| == |g.blocks| && h.marked == g.marked
  {
    g.(blocks := g.blocks[b := g.blocks[b].(pushed := g.blocks[b].pushed + defs)])
  }

  /** Popping every pushed value of block `b`. */
  function PopAll(g: Graph, b: BlockId): (h: Graph)
    requires b < |g.blocks|
    ensures Extends(g, h) && KeepsOpen(g, h, None) && |h.blocks| == |g.blocks| && h.marked == g.marked
  {
    g.(blocks := g.blocks[b := g.blocks[b].(pushed := [])])
  }

  /** Replacing the slots and pushed values of block `b`. */
  function SetSlots(g: Graph, b: BlockId, slots: seq<Def>, pushed: seq<Def>): (h: Graph)
    requires b < |g.blocks|
    ensures Extends(g, h) && KeepsOpen(g, h, None) && |h.blocks| == |g.blocks| && h.marked == g.marked
  {
    g.(blocks := g.blocks[b := g.blocks[b].(slots := slots, pushed := pushed)])
  }

  /** Replacing the phis and predecessors of block `b`. */
  function SetPhis(g: Graph, b: BlockId, preds: seq<BlockId>, phis: seq<Phi>): (h: Graph)
    requires b < |g.blocks|
    ensures Extends(g, h) && KeepsOpen(g, h, None) && |h.blocks| == |g.blocks| && h.marked == g.marked
  {
    g.(blocks := g.blocks[b := g.blocks[b].(preds := preds, phis := phis)])
  }

  /** MBasicBlock::mark. */
  function Mark(g: Graph, b: BlockId): (h: Graph)
    ensures Extends(g, h) && KeepsOpen(g, h, None) && h.blocks == g.blocks && h.marked == g.marked + {b}
  {
    g.(marked := g.marked + {b})
  }

  /** MBasicBlock::unmark. */
  function Unmark(g: Graph, b: BlockId): (h: Graph)
    ensures Extends(g, h) && KeepsOpen(g, h, None) && h.blocks == g.blocks && h.marked == g.marked - {b}
  {
    g.(marked := g.marked - {b})
  }

  /** Adding each instruction of `code` to block `b`, in order. */
  function AddAll(g: Graph, b: BlockId, code: seq<Instr>): (h: Graph)
    requires b < |g.blocks|
    ensures Extends(g, h) && KeepsOpen(g, h, None) && |h.blocks| == |g.blocks| && h.marked == g.marked
    decreases |code|
  {
    if code == [] then g else Add(AddAll(g, b, code[..|code| - 1]), b, code[|code| - 1])
  }

  /** Apart from their control instructions, the blocks of `g` other than `except` are unchanged in `h`. */
  ghost predicate SameBlockData(g: Graph, h: Graph, except: Option<BlockId>)
  {
    |g.blocks| <= |h.blocks| &&
    forall b: BlockId :: b < |g.blocks| && Some(b) != except ==> h.blocks[b].(end := None) == g.blocks[b].(end := None)
  }

  lemma AddAllSnoc(g: Graph, b: BlockId, code: seq<Instr>, i: Instr)
    requires b < |g.blocks|
    ensures AddAll(g, b, code + [i]) == Add(AddAll(g, b, code), b, i)
  {
    assert (code + [i])[..|code|] == code;
  }

  /** Adding two instructions one after the other. */
  lemma AddAllPair(g: Graph, b: BlockId, i: Instr, j: Instr)
    requires b < |g.blocks|
    ensures AddAll(g, b, [i, j]) == Add(Add(g, b, i), b, j)
  {
    assert [] + [i] == [i] && [i] + [j] == [i, j];
    AddAllSnoc(g, b, [], i);
    AddAllSnoc(g, b, [i], j);
  }

  /** Adding two runs of instructions is adding their concatenation. */
  lemma {:induction false} AddAllAppend(g: Graph, b: BlockId, c1: seq<Instr>, c2: seq<Instr>)
    requires b < |g.blocks|
    ensures AddAll(g, b, c1 + c2) == AddAll(AddAll(g, b, c1), b, c2)
    decreases |c2|
  {
    if c2 == [] {
      assert c1 + c2 == c1;
    } else {
      var c, i := c2[..|c2| - 1], c2[|c2| - 1];
      assert c2 == c + [i];
      assert c1 + c2 == (c1 + c) + [i];
      AddAllAppend(g, b, c1, c);
      AddAllSnoc(g, b, c1 + c, i);
      AddAllSnoc(AddAll(g, b, c1), b, c, i);
    }
  }
}
