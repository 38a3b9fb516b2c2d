/**
 * Memory-access decisions of the WebAssembly function compiler
 * (js/src/wasm/WasmIonCompile.cpp), following section 4.4.4 (Memory
 * Instructions) of the WebAssembly Core Specification 1.0:
 *
 *  - how `checkOffsetAndAlignmentAndBounds` folds a constant base into the
 *    access offset, when it adds the offset with a separate instruction, when
 *    it checks alignment and when it checks bounds;
 *  - how `memory.copy` and `memory.fill` with a small constant length are
 *    expanded into 8/4/2/1-byte loads and stores.
 *
 * The machine-dependent constants (the offset guard limit, the inline
 * length limits, whether unaligned accesses are fast, whether the target is
 * 64-bit) are parameters.
 */
module WasmMemory {
  import opened Wrappers
  import opened WasmMir

  const TwoTo32: int := 0x1_0000_0000

  /** A conversion to uint32_t: the value modulo 2^32. */
  function U32(x: int): (r: nat)
    ensures r < TwoTo32 && (x - r) % TwoTo32 == 0
  {
    x % TwoTo32
  }

  /** A uint32_t value. */
  type Uint32 = x: nat | x < 0x1_0000_0000

  /** An int32_t value. */
  type I32 = x: int | -0x8000_0000 <= x < 0x8000_0000

  /** The size of a memory access, a power of two (so `x & (size - 1)` is `x % size`). */
  type ByteSize = n: nat | n == 1 || n == 2 || n == 4 || n == 8 || n == 16 witness 1

  /** MemoryAccessDesc as far as the addressing rules look at it: uint32 offset, size, atomicity. */
  datatype Access = Access(offset: Uint32, byteSize: ByteSize, atomic: bool)

  /** The compilation environment the rules consult. */
  datatype Env = Env(
    asmJS: bool,
    hugeMemory: bool,
    offsetGuardLimit: Uint32,
    foldOffsets: bool,
    spectreIndexMasking: bool)

  // ---------------------------------------------------------------------------
  // Addressing

  /**
   * The first half of needAlignmentCheck's test: a constant base whose sum
   * with the offset, computed in uint32 arithmetic, is a multiple of the
   * access size.
   */
  predicate StaticallyAligned(access: Access, baseConst: Option<I32>)
  {
    baseConst.Some? && U32(baseConst.value + access.offset) % access.byteSize == 0
  }

  /**
   * needAlignmentCheck: whether an alignment check is needed, and whether
   * the offset must then be added to the base first (`mustAdd`).
   */
  function NeedAlignmentCheck(asmJS: bool, access: Access, baseConst: Option<I32>): (r: (bool, bool))
    ensures r.1 ==> r.0
  {
    if asmJS || !access.atomic then (false, false)
    else if StaticallyAligned(access, baseConst) then (false, false)
    else (true, access.offset % access.byteSize != 0)
  }

  /** Whether checkOffsetAndAlignmentAndBounds folds the constant base into the offset. */
  predicate FoldsBase(env: Env, access: Access, baseConst: Option<I32>)
  {
    baseConst.Some? && access.offset < env.offsetGuardLimit
    && U32(baseConst.value) < env.offsetGuardLimit - access.offset
  }

  /** The result of the addressing step: the instructions added, the new base and the new access. */
  datatype Addressed = Addressed(code: seq<Instr>, base: Def, access: Access)

  /**
   * computeEffectiveAddress in live code: a nonzero offset becomes an
   * add-offset instruction (defining `next`) and is cleared.
   */
  function EffectiveAddress(base: Def, access: Access, next: Def): (r: Addressed)
  {
    if access.offset == 0 then Addressed([], base, access)
    else Addressed([Instr(next, AddOffset(base, access.offset))], next, access.(offset := 0))
  }

  /**
   * The folding stage of checkOffsetAndAlignmentAndBounds: a folded constant
   * base becomes a new constant 0 (defining `next`) and its value moves into
   * the offset.
   */
  function FoldStage(env: Env, access: Access, base: Def, baseConst: Option<I32>, next: Def): (r: Addressed)
  {
    if FoldsBase(env, access, baseConst)
    then Addressed([Instr(next, Constant(0, Int32))], next, access.(offset := access.offset + U32(baseConst.value)))
    else Addressed([], base, access)
  }

  /**
   * The offset stage: the offset goes through an add-offset instruction when
   * it is at or beyond the guard limit, when the alignment check demands it,
   * or when offset folding is disabled.
   */
  function OffsetStage(env: Env, base: Def, access: Access, mustAdd: bool, next: Def): (r: Addressed)
  {
    if access.offset >= env.offsetGuardLimit || mustAdd || !env.foldOffsets
    then EffectiveAddress(base, access, next)
    else Addressed([], base, access)
  }

  /**
   * The checking stage: an alignment check when one is needed, then the
   * bounds check.
   */
  function ChecksStage(env: Env, base: Def, access: Access, alignmentCheck: bool, byteSize: ByteSize, next: Def): (r: Addressed)
  {
    var code3 := if alignmentCheck then [Instr(next, AlignmentCheck(base, byteSize))] else [];
    var bounds := BoundsStage(env, base, access, next + |code3|);
    Addressed(code3 + bounds.code, bounds.base, access)
  }

  /**
   * The bounds check: unless memory is huge, a load of the bounds-check
   * limit and a bounds check, which becomes the base under Spectre index
   * masking.
   */
  function BoundsStage(env: Env, base: Def, access: Access, next: Def): (r: Addressed)
  {
    if env.hugeMemory then Addressed([], base, access)
    else Addressed([Instr(next, LoadBoundsCheckLimit), Instr(next + 1, BoundsCheck(base, next))],
                   if env.spectreIndexMasking then next + 1 else base, access)
  }

  /**
   * checkOffsetAndAlignmentAndBounds on live code, for `base` (constant
   * `baseConst` if known) with new definitions numbered from `next`: fold a
   * constant base, add the offset when it is beyond the guard limit, when
   * an atomic's misaligned offset forces it, or when folding is disabled;
   * check alignment; check bounds unless memory is huge.
   */
  function Addressing(env: Env, access: Access, base: Def, baseConst: Option<I32>, next: Def): (r: Addressed)
  {
    var f := FoldStage(env, access, base, baseConst, next);
    var (alignmentCheck, mustAdd) :=
      NeedAlignmentCheck(env.asmJS, f.access, if FoldsBase(env, access, baseConst) then Some(0) else baseConst);
    var added := OffsetStage(env, f.base, f.access, mustAdd, next + |f.code|);
    var checks := ChecksStage(env, added.base, added.access, alignmentCheck, access.byteSize, next + |f.code| + |added.code|);
    Addressed(f.code + added.code + checks.code, checks.base, checks.access)
  }

  /** Whether some instruction of `code` satisfies the opcode test. */
  predicate HasAlignmentCheck(code: seq<Instr>)
  {
    exists i :: 0 <= i < |code| && code[i].op.AlignmentCheck?
  }

  predicate HasBoundsCheck(code: seq<Instr>)
  {
    exists i :: 0 <= i < |code| && code[i].op.BoundsCheck?
  }

  predicate HasAddOffset(code: seq<Instr>)
  {
    exists i :: 0 <= i < |code| && code[i].op.AddOffset?
  }

  /** The uint32 wrap-around of a value at most one period outside the uint32 range. */
  lemma U32Near(x: int)
    requires -TwoTo32 <= x < 2 * TwoTo32
    ensures U32(x) == if x < 0 then x + TwoTo32 else if x >= TwoTo32 then x - TwoTo32 else x
  {
  }

  /** Shifting by a multiple of the modulus keeps the remainder. */
  lemma ModShiftBy(x: int, m: int, k: int)
    requires m > 0 && k >= 0
    ensures (x + m * k) % m == x % m && (x - m * k) % m == x % m
  {
    var q, r := x / m, x % m;
    assert x == m * q + r && 0 <= r < m;
    assert x + m * k == m * (q + k) + r;
    assert x - m * k == m * (q - k) + r;
    ModUnique(x + m * k, m, q + k, r);
    ModUnique(x - m * k, m, q - k, r);
  }

  lemma ModUnique(a: int, m: int, q: int, r: int)
    requires m > 0 && a == m * q + r && 0 <= r < m
    ensures a % m == r
  {
    var q', r' := a / m, a % m;
    assert m * q + r == m * q' + r';
    if q > q' {
      MulAtLeast(m, q - q');
    } else if q < q' {
      MulAtLeast(m, q' - q);
    }
  }

  lemma {:induction false} MulAtLeast(m: int, d: int)
    requires m > 0 && d >= 1
    ensures m * d >= m
    decreases d
  {
    if d > 1 {
      MulAtLeast(m, d - 1);
      assert m * d == m * (d - 1) + m;
    }
  }

  lemma ModShift(x: int, size: ByteSize)
    ensures (x + TwoTo32) % size == x % size && (x - TwoTo32) % size == x % size
  {
    assert TwoTo32 == size * (TwoTo32 / size);
    ModShiftBy(x, size, TwoTo32 / size);
  }

  /**
   * "OK to wrap around the address computation here": every access size
   * divides 2^32, so the uint32 wrap-around of the sum of an int32 base and
   * a uint32 offset never changes its alignment.
   */
  lemma WrapKeepsAlignment(x: int, size: ByteSize)
    requires -TwoTo32 <= x < 2 * TwoTo32
    ensures U32(x) % size == x % size
  {
    U32Near(x);
    ModShift(x, size);
  }

  /**
   * The folding rule: a constant base is folded exactly when the offset is
   * below the guard limit and the base fits below the limit minus the
   * offset; the folded offset is then the sum, still below the limit, and
   * the new base is the constant 0 defined by the first instruction.
   */
  lemma AddressingFolds(env: Env, access: Access, base: Def, baseConst: Option<I32>, next: Def)
    ensures var r := Addressing(env, access, base, baseConst, next);
      FoldsBase(env, access, baseConst) <==> (|r.code| > 0 && r.code[0] == Instr(next, Constant(0, Int32)))
    ensures FoldsBase(env, access, baseConst) ==>
      access.offset + U32(baseConst.value) < env.offsetGuardLimit
  {
    var r := Addressing(env, access, base, baseConst, next);
    if !FoldsBase(env, access, baseConst) && |r.code| > 0 {
      assert r.code[0].def >= next + 0;
      assert !r.code[0].op.Constant?;
    }
  }

  /**
   * Folding never changes the alignment decision: the folded access (base 0,
   * offset + base) is statically aligned exactly when the original is.
   */
  lemma FoldKeepsAlignment(access: Access, c: I32, limit: Uint32)
    requires access.offset < limit && U32(c) < limit - access.offset
    ensures StaticallyAligned(access.(offset := access.offset + U32(c)), Some(0)) <==> StaticallyAligned(access, Some(c))
  {
    WrapKeepsAlignment(0 + (access.offset + U32(c)), access.byteSize);
    WrapKeepsAlignment(c + access.offset, access.byteSize);
    U32Near(c);
    ModShift(c + access.offset, access.byteSize);
  }

  /**
   * An alignment check is emitted exactly for wasm (not asm.js) atomic
   * accesses that are not statically aligned.
   */
  lemma AlignmentCheckOnlyWhenNeeded(env: Env, access: Access, base: Def, baseConst: Option<I32>, next: Def)
    ensures HasAlignmentCheck(Addressing(env, access, base, baseConst, next).code) <==>
      !env.asmJS && access.atomic && !StaticallyAligned(access, baseConst)
  {
    var r := Addressing(env, access, base, baseConst, next);
    var folded := FoldsBase(env, access, baseConst);
    if folded {
      FoldKeepsAlignment(access, baseConst.value, env.offsetGuardLimit);
    }
    var access1 := if folded then access.(offset := access.offset + U32(baseConst.value)) else access;
    var const1 := if folded then Some(0) else baseConst;
    var check := NeedAlignmentCheck(env.asmJS, access1, const1).0;
    if check {
      var code1 := if folded then [Instr(next, Constant(0, Int32))] else [];
      var i := |r.code| - (if env.hugeMemory then 1 else 3);
      assert r.code[i].op.AlignmentCheck?;
    } else {
      forall i | 0 <= i < |r.code| ensures !r.code[i].op.AlignmentCheck? {
      }
    }
  }

  /** A bounds check is emitted exactly when memory is not huge. */
  lemma BoundsCheckUnlessHuge(env: Env, access: Access, base: Def, baseConst: Option<I32>, next: Def)
    ensures HasBoundsCheck(Addressing(env, access, base, baseConst, next).code) <==> !env.hugeMemory
  {
    var r := Addressing(env, access, base, baseConst, next);
    if !env.hugeMemory {
      assert r.code[|r.code| - 1].op.BoundsCheck?;
    } else {
      forall i | 0 <= i < |r.code| ensures !r.code[i].op.BoundsCheck? {
      }
    }
  }

  /**
   * After the addressing step the offset left in the access lies inside the
   * guard region (or is 0): an offset at or beyond the limit is always
   * moved into an add-offset instruction.
   */
  lemma OffsetWithinGuard(env: Env, access: Access, base: Def, baseConst: Option<I32>, next: Def)
    ensures var r := Addressing(env, access, base, baseConst, next);
      r.access.offset == 0 || r.access.offset < env.offsetGuardLimit
    ensures var r := Addressing(env, access, base, baseConst, next);
      r.access.byteSize == access.byteSize && r.access.atomic == access.atomic
  {
  }

  /**
   * With offset folding disabled, every nonzero offset goes through an
   * add-offset instruction and none is left in the access.
   */
  lemma NoFoldingAddsOffset(env: Env, access: Access, base: Def, baseConst: Option<I32>, next: Def)
    requires !env.foldOffsets
    ensures var r := Addressing(env, access, base, baseConst, next);
      r.access.offset == 0 && (HasAddOffset(r.code) <==> access.offset != 0 || (FoldsBase(env, access, baseConst) && U32(baseConst.value) != 0))
  {
    var r := Addressing(env, access, base, baseConst, next);
    var folded := FoldsBase(env, access, baseConst);
    var access1 := if folded then access.(offset := access.offset + U32(baseConst.value)) else access;
    var code1 := if folded then [Instr(next, Constant(0, Int32))] else [];
    if access1.offset != 0 {
      assert r.code[|code1|].op.AddOffset?;
    } else {
      forall i | 0 <= i < |r.code| ensures !r.code[i].op.AddOffset? {
      }
    }
  }

  // ---------------------------------------------------------------------------
  // Inline memory.copy and memory.fill

  /** The number of pieces of each width for `length` bytes; 8-byte pieces only on 64-bit targets. */
  function Copies8(length: nat, is64: bool): nat { if is64 then length / 8 else 0 }
  function Rest8(length: nat, is64: bool): nat { if is64 then length % 8 else length }
  function Copies4(length: nat, is64: bool): nat { Rest8(length, is64) / 4 }
  function Copies2(length: nat, is64: bool): nat { Rest8(length, is64) % 4 / 2 }
  function Copies1(length: nat, is64: bool): nat { Rest8(length, is64) % 4 % 2 }

  function Repeat(w: nat, n: nat): (r: seq<nat>)
    ensures |r| == n && forall k :: 0 <= k < n ==> r[k] == w
  {
    seq(n, _ => w)
  }

  /** The widths of the pieces, widest first, in the order the loads are emitted. */
  function Pieces(length: nat, is64: bool): (ws: seq<nat>)
  {
    Repeat(8, Copies8(length, is64)) + Repeat(4, Copies4(length, is64))
    + Repeat(2, Copies2(length, is64)) + Repeat(1, Copies1(length, is64))
  }

  function Sum(ws: seq<nat>): nat
  {
    if ws == [] then 0 else Sum(ws[..|ws| - 1]) + ws[|ws| - 1]
  }

  lemma SumSnoc(ws: seq<nat>, k: nat)
    requires k < |ws|
    ensures Sum(ws[..k + 1]) == Sum(ws[..k]) + ws[k]
  {
    assert ws[..k + 1][..k] == ws[..k];
  }

  lemma {:induction false} SumRepeat(w: nat, n: nat)
    ensures Sum(Repeat(w, n)) == w * n
  {
    if n > 0 {
      assert Repeat(w, n)[..n - 1] == Repeat(w, n - 1);
      SumRepeat(w, n - 1);
    }
  }

  lemma {:induction false} SumAppend(a: seq<nat>, b: seq<nat>)
    ensures Sum(a + b) == Sum(a) + Sum(b)
  {
    if b != [] {
      assert (a + b)[..|a + b| - 1] == a + b[..|b| - 1];
      SumAppend(a, b[..|b| - 1]);
    } else {
      assert a + b == a;
    }
  }

  /** The width of the k-th piece. */
  lemma PieceAt(length: nat, is64: bool, k: nat)
    requires k < |Pieces(length, is64)|
    ensures var n8, n4, n2 := Copies8(length, is64), Copies4(length, is64), Copies2(length, is64);
      Pieces(length, is64)[k] ==
        if k < n8 then 8 else if k < n8 + n4 then 4 else if k < n8 + n4 + n2 then 2 else 1
  {
  }

  /**
   * The pieces add up to the length, there is at most one 2-byte and one
   * 1-byte piece, and 8-byte pieces occur only on 64-bit targets.
   */
  lemma PiecesCover(length: nat, is64: bool)
    ensures Sum(Pieces(length, is64)) == length
    ensures Copies2(length, is64) <= 1 && Copies1(length, is64) <= 1
    ensures !is64 ==> 8 !in Pieces(length, is64)
    ensures forall w :: w in Pieces(length, is64) ==> w == 1 || w == 2 || w == 4 || w == 8
  {
    var n8, n4, n2, n1 := Copies8(length, is64), Copies4(length, is64), Copies2(length, is64), Copies1(length, is64);
    SumAppend(Repeat(8, n8) + Repeat(4, n4) + Repeat(2, n2), Repeat(1, n1));
    SumAppend(Repeat(8, n8) + Repeat(4, n4), Repeat(2, n2));
    SumAppend(Repeat(8, n8), Repeat(4, n4));
    SumRepeat(8, n8);
    SumRepeat(4, n4);
    SumRepeat(2, n2);
    SumRepeat(1, n1);
  }

  /** One load or store of an inline copy: width, offset, and the loaded value it carries (by load index). */
  datatype Transfer = Transfer(width: nat, offset: nat, value: nat)

  /** The k-th load of an inline copy: the k-th piece, at the sum of the earlier pieces, defining value k. */
  function CopyLoad(ws: seq<nat>, k: nat): Transfer
    requires k < |ws|
  {
    Transfer(ws[k], Sum(ws[..k]), k)
  }

  /**
   * The state of the load phase of an inline copy: the first |loads| pieces
   * are loaded, each value pushed in order, and `offset` is just past them.
   */
  ghost predicate LoadsSoFar(ws: seq<nat>, loads: seq<Transfer>, loadedValues: seq<nat>, offset: nat)
  {
    |loads| <= |ws| && offset == Sum(ws[..|loads|])
    && |loadedValues| == |loads| && (forall k :: 0 <= k < |loadedValues| ==> loadedValues[k] == k)
    && (forall k :: 0 <= k < |loads| ==> loads[k] == CopyLoad(ws, k))
  }

  /**
   * The state of the store phase: the top |stores| pieces are stored, the
   * i-th store repeating the (n-1-i)-th load, the remaining values are still
   * on the stack, and `offset` is the start of the last piece stored.
   */
  ghost predicate StoresSoFar(ws: seq<nat>, loads: seq<Transfer>, stores: seq<Transfer>, loadedValues: seq<nat>, offset: nat)
  {
    |loads| == |ws| && (forall k :: 0 <= k < |loads| ==> loads[k] == CopyLoad(ws, k))
    && |stores| + |loadedValues| == |loads| && offset == Sum(ws[..|loadedValues|])
    && (forall k :: 0 <= k < |loadedValues| ==> loadedValues[k] == k)
    && (forall k :: 0 <= k < |stores| ==> stores[k] == loads[|loads| - 1 - k])
  }

  /** A run of `count` loads of `width` bytes, each at the running offset, pushing the loaded value. */
  method LoadRun(ghost ws: seq<nat>, loads: seq<Transfer>, loadedValues: seq<nat>, offset: nat, count: nat, width: nat)
    returns (loads': seq<Transfer>, loadedValues': seq<nat>, offset': nat)
    requires LoadsSoFar(ws, loads, loadedValues, offset)
    requires |loads| + count <= |ws| && forall j :: |loads| <= j < |loads| + count ==> ws[j] == width
    ensures LoadsSoFar(ws, loads', loadedValues', offset') && |loads'| == |loads| + count
  {
    loads', loadedValues', offset' := loads, loadedValues, offset;
    var i := 0;
    while i < count
      invariant 0 <= i <= count && |loads'| == |loads| + i
      invariant LoadsSoFar(ws, loads', loadedValues', offset')
    {
      SumSnoc(ws, |loads'|);
      loads', loadedValues' := loads' + [Transfer(width, offset', |loadedValues'|)], loadedValues' + [|loadedValues'|];
      offset' := offset' + width;
      i := i + 1;
    }
  }

  /** A run of `count` stores of `width` bytes, each lowering the offset first and popping a loaded value. */
  method StoreRun(ghost ws: seq<nat>, loads: seq<Transfer>, stores: seq<Transfer>, loadedValues: seq<nat>, offset: nat,
                  count: nat, width: nat)
    returns (stores': seq<Transfer>, loadedValues': seq<nat>, offset': nat)
    requires StoresSoFar(ws, loads, stores, loadedValues, offset)
    requires count <= |loadedValues| && forall j :: |loadedValues| - count <= j < |loadedValues| ==> ws[j] == width
    ensures StoresSoFar(ws, loads, stores', loadedValues', offset') && |stores'| == |stores| + count
  {
    stores', loadedValues', offset' := stores, loadedValues, offset;
    var i := 0;
    while i < count
      invariant 0 <= i <= count && |stores'| == |stores| + i
      invariant StoresSoFar(ws, loads, stores', loadedValues', offset')
    {
      SumSnoc(ws, |loadedValues'| - 1);
      offset' := offset' - width;
      var value := loadedValues'[|loadedValues'| - 1];
      loadedValues' := loadedValues'[..|loadedValues'| - 1];
      stores' := stores' + [Transfer(width, offset', value)];
      i := i + 1;
    }
  }

  /** Which pieces have which width: 8-byte ones first, then 4, then at most one 2 and one 1. */
  lemma PieceRuns(length: nat, is64: bool, ws: seq<nat>, n8: nat, n4: nat, n2: nat, n1: nat)
    requires ws == Pieces(length, is64)
    requires n8 == Copies8(length, is64) && n4 == Copies4(length, is64)
    requires n2 == Copies2(length, is64) && n1 == Copies1(length, is64)
    ensures forall j :: 0 <= j < n8 ==> ws[j] == 8
    ensures forall j :: n8 <= j < n8 + n4 ==> ws[j] == 4
    ensures forall j :: n8 + n4 <= j < n8 + n4 + n2 ==> ws[j] == 2
    ensures forall j :: n8 + n4 + n2 <= j < |ws| ==> ws[j] == 1
    ensures |ws| == n8 + n4 + n2 + n1 && n2 <= 1 && n1 <= 1
  {
  }

  /**
   * The piece counts both inline expansions compute from the length: 8-byte
   * copies only on 64-bit targets, then 4, 2 and 1 byte for the remainder.
   */
  method PieceCounts(length: nat, is64: bool) returns (numCopies8: nat, numCopies4: nat, numCopies2: nat, numCopies1: nat)
    ensures numCopies8 == Copies8(length, is64) && numCopies4 == Copies4(length, is64)
    ensures numCopies2 == Copies2(length, is64) && numCopies1 == Copies1(length, is64)
    ensures (if is64 then 8 * numCopies8 else 0) + 4 * numCopies4 + 2 * numCopies2 + numCopies1 == length
  {
    var remainder := length;
    numCopies8 := 0;
    if is64 {
      numCopies8 := remainder / 8;
      remainder := remainder % 8;
    }
    numCopies4 := remainder / 4;
    remainder := remainder % 4;
    numCopies2 := remainder / 2;
    remainder := remainder % 2;
    numCopies1 := remainder;
  }

  /**
   * EmitMemCopyInline: load every piece from ascending offsets starting at
   * 0, pushing each loaded value; then store from the end downwards,
   * popping the values, so that the i-th store is the (n-1-i)-th load:
   * same width, same offset, same value.
   */
  method MemCopyInline(length: nat, maxLength: nat, is64: bool) returns (loads: seq<Transfer>, stores: seq<Transfer>)
    requires length != 0 && length <= maxLength
    ensures |loads| == |Pieces(length, is64)|
    ensures forall k :: 0 <= k < |loads| ==> loads[k] == CopyLoad(Pieces(length, is64), k)
    ensures |stores| == |loads|
    ensures forall k :: 0 <= k < |stores| ==> stores[k] == loads[|loads| - 1 - k]
  {
    PiecesCover(length, is64);
    var numCopies8, numCopies4, numCopies2, numCopies1 := PieceCounts(length, is64);

    var loadedValues, offset;
    loads, loadedValues, offset := LoadPhase(length, is64, numCopies8, numCopies4, numCopies2, numCopies1);
    assert Pieces(length, is64)[..|loads|] == Pieces(length, is64);
    stores := StorePhase(length, is64, loads, loadedValues, numCopies8, numCopies4, numCopies2, numCopies1);
  }

  /** The load phase of EmitMemCopyInline: 8-byte loads, 4-byte loads, then one 2-byte and one 1-byte load if needed. */
  method LoadPhase(length: nat, is64: bool, numCopies8: nat, numCopies4: nat, numCopies2: nat, numCopies1: nat)
    returns (loads: seq<Transfer>, loadedValues: seq<nat>, offset: nat)
    requires numCopies8 == Copies8(length, is64) && numCopies4 == Copies4(length, is64)
    requires numCopies2 == Copies2(length, is64) && numCopies1 == Copies1(length, is64)
    ensures LoadsSoFar(Pieces(length, is64), loads, loadedValues, offset) && |loads| == |Pieces(length, is64)|
  {
    ghost var ws := Pieces(length, is64);
    PieceRuns(length, is64, ws, numCopies8, numCopies4, numCopies2, numCopies1);
    offset := 0;
    loadedValues := [];
    loads := [];
    loads, loadedValues, offset := LoadRun(ws, loads, loadedValues, offset, numCopies8, 8);
    loads, loadedValues, offset := LoadRun(ws, loads, loadedValues, offset, numCopies4, 4);
    if numCopies2 != 0 {
      loads, loadedValues, offset := LoadRun(ws, loads, loadedValues, offset, 1, 2);
    }
    if numCopies1 != 0 {
      loads, loadedValues, offset := LoadRun(ws, loads, loadedValues, offset, 1, 1);
    }
  }

  /** The store phase of EmitMemCopyInline: from offset `length` down, a 1-byte store, a 2-byte store, 4-byte stores, 8-byte stores. */
  method StorePhase(length: nat, is64: bool, loads: seq<Transfer>, loadedValues: seq<nat>,
                    numCopies8: nat, numCopies4: nat, numCopies2: nat, numCopies1: nat)
    returns (stores: seq<Transfer>)
    requires numCopies8 == Copies8(length, is64) && numCopies4 == Copies4(length, is64)
    requires numCopies2 == Copies2(length, is64) && numCopies1 == Copies1(length, is64)
    requires LoadsSoFar(Pieces(length, is64), loads, loadedValues, length) && |loads| == |Pieces(length, is64)|
    ensures |stores| == |loads| && forall k :: 0 <= k < |stores| ==> stores[k] == loads[|loads| - 1 - k]
  {
    ghost var ws := Pieces(length, is64);
    PieceRuns(length, is64, ws, numCopies8, numCopies4, numCopies2, numCopies1);
    assert ws[..|ws|] == ws;
    stores := [];
    var offset := length;
    var values := loadedValues;
    if numCopies1 != 0 {
      stores, values, offset := StoreRun(ws, loads, stores, values, offset, 1, 1);
    }
    assert |stores| == numCopies1;
    if numCopies2 != 0 {
      stores, values, offset := StoreRun(ws, loads, stores, values, offset, 1, 2);
    }
    assert |stores| == numCopies1 + numCopies2;
    stores, values, offset := StoreRun(ws, loads, stores, values, offset, numCopies4, 4);
    stores, values, offset := StoreRun(ws, loads, stores, values, offset, numCopies8, 8);
  }

  /**
   * The copy's loads cover [0, length) from the bottom up without gaps, and
   * its stores cover it from the top down, ending at offset 0.
   */
  lemma CopyCoversLength(length: nat, is64: bool, k: nat)
    requires k < |Pieces(length, is64)|
    ensures var ws := Pieces(length, is64);
      CopyLoad(ws, k).offset + CopyLoad(ws, k).width ==
        (if k + 1 < |ws| then CopyLoad(ws, k + 1).offset else length)
    ensures CopyLoad(Pieces(length, is64), 0).offset == 0
  {
    var ws := Pieces(length, is64);
    SumSnoc(ws, k);
    PiecesCover(length, is64);
    assert ws[..|ws|] == ws;
  }

  /** The value a fill store writes: the fill byte itself, or a constant splatting it to the width. */
  datatype FillValue = FillByte | Splat(width: nat)

  datatype FillStore = FillStore(width: nat, offset: nat, value: FillValue)

  /** The k-th store of a fill, counted from the highest piece down. */
  function FillStoreAt(ws: seq<nat>, k: nat): FillStore
    requires k < |ws|
  {
    var m := |ws| - 1 - k;
    FillStore(ws[m], Sum(ws[..m]), if ws[m] == 1 then FillByte else Splat(ws[m]))
  }

  /**
   * EmitMemFillInline: create the splatted constants that are needed (8 only
   * on 64-bit, then 4, then 2), then store from the top down: the i-th store
   * is the (n-1-i)-th piece, writing the fill byte or the splat of its width.
   */
  method MemFillInline(length: nat, maxLength: nat, is64: bool) returns (splats: seq<nat>, stores: seq<FillStore>)
    requires length != 0 && length <= maxLength
    ensures splats == (if Copies8(length, is64) > 0 then [8] else []) + (if Copies4(length, is64) > 0 then [4] else [])
                      + (if Copies2(length, is64) > 0 then [2] else [])
    ensures |stores| == |Pieces(length, is64)|
    ensures forall k :: 0 <= k < |stores| ==> stores[k] == FillStoreAt(Pieces(length, is64), k)
  {
    var numCopies8, numCopies4, numCopies2, numCopies1 := PieceCounts(length, is64);

    splats := SplatConstants(numCopies8, numCopies4, numCopies2);
    PiecesCover(length, is64);
    ghost var ws := Pieces(length, is64);
    PieceRuns(length, is64, ws, numCopies8, numCopies4, numCopies2, numCopies1);
    stores := FillPhase(ws, length, numCopies8, numCopies4, numCopies2, numCopies1);
  }

  /** The splatted fill constants, widest first: one for each width that has pieces. */
  method SplatConstants(numCopies8: nat, numCopies4: nat, numCopies2: nat) returns (splats: seq<nat>)
    ensures splats == (if numCopies8 > 0 then [8] else []) + (if numCopies4 > 0 then [4] else [])
                      + (if numCopies2 > 0 then [2] else [])
  {
    splats := [];
    if numCopies8 != 0 {
      splats := splats + [8];
    }
    if numCopies4 != 0 {
      splats := splats + [4];
    }
    if numCopies2 != 0 {
      splats := splats + [2];
    }
  }

  /** The state of a fill: the top |stores| pieces are stored and `offset` is the start of the last one. */
  ghost predicate FillsSoFar(ws: seq<nat>, stores: seq<FillStore>, offset: nat)
  {
    |stores| <= |ws| && offset == Sum(ws[..|ws| - |stores|])
    && forall k :: 0 <= k < |stores| ==> stores[k] == FillStoreAt(ws, k)
  }

  /** A run of `count` fill stores of `width` bytes, each lowering the offset first. */
  method FillRun(ghost ws: seq<nat>, stores: seq<FillStore>, offset: nat, count: nat, width: nat, value: FillValue)
    returns (stores': seq<FillStore>, offset': nat)
    requires FillsSoFar(ws, stores, offset) && value == (if width == 1 then FillByte else Splat(width))
    requires |stores| + count <= |ws|
    requires forall j :: |ws| - |stores| - count <= j < |ws| - |stores| ==> ws[j] == width
    ensures FillsSoFar(ws, stores', offset') && |stores'| == |stores| + count
  {
    stores', offset' := stores, offset;
    var i := 0;
    while i < count
      invariant 0 <= i <= count && |stores'| == |stores| + i
      invariant FillsSoFar(ws, stores', offset')
    {
      SumSnoc(ws, |ws| - 1 - |stores'|);
      offset' := offset' - width;
      stores' := stores' + [FillStore(width, offset', value)];
      i := i + 1;
    }
  }

  /** The stores of EmitMemFillInline, from offset `length` down: 1 byte, 2 bytes, 4-byte runs, 8-byte runs. */
  method FillPhase(ghost ws: seq<nat>, length: nat, numCopies8: nat, numCopies4: nat, numCopies2: nat, numCopies1: nat)
    returns (stores: seq<FillStore>)
    requires |ws| == numCopies8 + numCopies4 + numCopies2 + numCopies1 && numCopies2 <= 1 && numCopies1 <= 1
    requires forall j :: 0 <= j < numCopies8 ==> ws[j] == 8
    requires forall j :: numCopies8 <= j < numCopies8 + numCopies4 ==> ws[j] == 4
    requires forall j :: numCopies8 + numCopies4 <= j < numCopies8 + numCopies4 + numCopies2 ==> ws[j] == 2
    requires forall j :: numCopies8 + numCopies4 + numCopies2 <= j < |ws| ==> ws[j] == 1
    requires Sum(ws) == length
    ensures FillsSoFar(ws, stores, 0) && |stores| == |ws|
  {
    assert ws[..|ws|] == ws;
    var offset := length;
    stores := [];
    if numCopies1 != 0 {
      stores, offset := FillRun(ws, stores, offset, 1, 1, FillByte);
    }
    assert |stores| == numCopies1;
    if numCopies2 != 0 {
      stores, offset := FillRun(ws, stores, offset, 1, 2, Splat(2));
    }
    assert |stores| == numCopies1 + numCopies2;
    stores, offset := FillRun(ws, stores, offset, numCopies4, 4, Splat(4));
    stores, offset := FillRun(ws, stores, offset, numCopies8, 8, Splat(8));
    assert ws[..0] == [];
  }

  /**
   * The inline path of memory.copy: fast unaligned accesses and a constant
   * int32 length that is nonzero and, read as uint32, at most the limit.
   */
  predicate InlineMemCopy(fastUnaligned: bool, len: Option<I32>, maxLength: nat)
  {
    fastUnaligned && len.Some? && len.value != 0 && U32(len.value) <= maxLength
  }

  /** The inline path of memory.fill additionally needs a constant int32 fill value. */
  predicate InlineMemFill(fastUnaligned: bool, len: Option<I32>, value: Option<I32>, maxLength: nat)
  {
    InlineMemCopy(fastUnaligned, len, maxLength) && value.Some?
  }

  /** How a bulk-memory instruction is compiled. */
  datatype BulkPath =
    | Skipped
    | InlineCopy(loads: seq<Transfer>, stores: seq<Transfer>)
    | InlineFill(splats: seq<nat>, fillStores: seq<FillStore>)
    | InstanceCall

  /**
   * EmitMemCopy after the operands are read: nothing in dead code, the
   * inline expansion on the inline path, otherwise a call to the instance.
   * `len` is the constant int32 length, if the length is one.
   */
  method EmitMemCopy(inDeadCode: bool, fastUnaligned: bool, len: Option<I32>, maxLength: nat, is64: bool)
    returns (path: BulkPath)
    ensures inDeadCode <==> path.Skipped?
    ensures path.InlineCopy? <==> !inDeadCode && InlineMemCopy(fastUnaligned, len, maxLength)
    ensures path.InlineCopy? ==> |path.stores| == |path.loads| == |Pieces(U32(len.value), is64)|
  {
    if inDeadCode {
      return Skipped;
    }
    if fastUnaligned && len.Some? && len.value != 0 && U32(len.value) <= maxLength {
      var length := U32(len.value);
      var loads, stores := MemCopyInline(length, maxLength, is64);
      return InlineCopy(loads, stores);
    }
    return InstanceCall;
  }

  /** EmitMemFill after the operands are read, with the same three outcomes. */
  method EmitMemFill(inDeadCode: bool, fastUnaligned: bool, len: Option<I32>, value: Option<I32>, maxLength: nat, is64: bool)
    returns (path: BulkPath)
    ensures inDeadCode <==> path.Skipped?
    ensures path.InlineFill? <==> !inDeadCode && InlineMemFill(fastUnaligned, len, value, maxLength)
    ensures path.InlineFill? ==> |path.fillStores| == |Pieces(U32(len.value), is64)|
  {
    if inDeadCode {
      return Skipped;
    }
    if fastUnaligned && len.Some? && len.value != 0 && U32(len.value) <= maxLength && value.Some? {
      var length := U32(len.value);
      var splats, stores := MemFillInline(length, maxLength, is64);
      return InlineFill(splats, stores);
    }
    return InstanceCall;
  }
}
