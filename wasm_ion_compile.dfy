/**
 * The structured-control-flow bookkeeping of the WebAssembly optimizing
 * compiler, FunctionCompiler in js/src/wasm/WasmIonCompile.cpp: the current
 * insertion block (absent in dead code), the block-nesting and loop depths,
 * the table of pending branch patches keyed by absolute block depth, the
 * binding of those patches to join blocks, loop headers and the removal of
 * redundant loop phis, if/else diamonds, and the memory-access and call
 * bookkeeping that goes through the compiler's state.
 */
module WasmIonCompile {
  import opened Wrappers
  import opened WasmMir
  import opened WasmMemory

  /** A pending branch: successor slot `index` of the control instruction that ends block `owner`. */
  datatype Patch = Patch(owner: BlockId, index: nat)

  /** The patch names an existing successor slot of a closed block. */
  predicate PatchOk(g: Graph, p: Patch)
  {
    Closed(g, p.owner) && p.index < SlotCount(g, p.owner)
  }

  /** The block a patched successor slot currently targets. */
  function Target(g: Graph, p: Patch): Option<BlockId>
  {
    if PatchOk(g, p) then g.blocks[p.owner].end.value.successors[p.index] else None
  }

  ghost predicate AllPatchesOk(g: Graph, bp: seq<seq<Patch>>)
  {
    forall d, j :: 0 <= d < |bp| && 0 <= j < |bp[d]| ==> PatchOk(g, bp[d][j])
  }

  /** No patch is pending at absolute depth `d`. */
  predicate NoPatches(bp: seq<seq<Patch>>, d: nat)
  {
    d >= |bp| || bp[d] == []
  }

  /** No patch is pending at any depth from `depth` on. */
  predicate PatchesClear(bp: seq<seq<Patch>>, depth: nat)
  {
    forall d :: depth <= d < |bp| ==> bp[d] == []
  }

  lemma PatchesStayOk(g: Graph, h: Graph, bp: seq<seq<Patch>>)
    requires AllPatchesOk(g, bp) && Extends(g, h)
    ensures AllPatchesOk(h, bp)
  {
  }

  /**
   * addControlFlowPatch once the absolute depth `a` is known: the table grows
   * to hold depth `a` and `p` is appended to the patches at `a`.
   */
  function FilePatch(bp: seq<seq<Patch>>, a: nat, p: Patch): (r: seq<seq<Patch>>)
    ensures |r| == if a < |bp| then |bp| else a + 1
    ensures r[a] == (if a < |bp| then bp[a] else []) + [p]
    ensures forall d :: 0 <= d < |r| && d != a ==> r[d] == (if d < |bp| then bp[d] else [])
  {
    var grown := if a < |bp| then bp else bp + seq(a + 1 - |bp|, _ => []);
    grown[a := grown[a] + [p]]
  }

  /** Filing a well-formed patch below `depth` keeps the table well formed and clear from `depth` on. */
  lemma FilePatchKeeps(g: Graph, bp: seq<seq<Patch>>, a: nat, p: Patch, depth: nat)
    requires AllPatchesOk(g, bp) && PatchOk(g, p)
    requires PatchesClear(bp, depth) && a < depth
    ensures AllPatchesOk(g, FilePatch(bp, a, p)) && PatchesClear(FilePatch(bp, a, p), depth)
  {
    var r := FilePatch(bp, a, p);
    forall d, j | 0 <= d < |r| && 0 <= j < |r[d]|
      ensures PatchOk(g, r[d][j])
    {
      if d == a && j == |r[d]| - 1 {
      } else {
        assert r[d][j] == bp[d][j];
      }
    }
  }

  /**
   * The patches brTable files for its successor slots: slot k targets the
   * relative depth `ds[k]`, filed in slot order.
   */
  function FileAll(bp: seq<seq<Patch>>, owner: BlockId, ds: seq<nat>, depth: nat): seq<seq<Patch>>
    requires forall k :: 0 <= k < |ds| ==> ds[k] < depth
    decreases |ds|
  {
    if ds == [] then bp
    else FilePatch(FileAll(bp, owner, ds[..|ds| - 1], depth), depth - 1 - ds[|ds| - 1], Patch(owner, |ds| - 1))
  }

  /** Every depth in `ds` is below `depth`. */
  predicate AllBelow(ds: seq<nat>, depth: nat)
  {
    forall k :: 0 <= k < |ds| ==> ds[k] < depth
  }

  lemma AllBelowSnoc(ds: seq<nat>, d: nat, depth: nat)
    requires AllBelow(ds, depth) && d < depth
    ensures AllBelow(ds + [d], depth)
  {
  }

  lemma FileAllSnoc(bp: seq<seq<Patch>>, owner: BlockId, ds: seq<nat>, d: nat, depth: nat)
    requires forall k :: 0 <= k < |ds| ==> ds[k] < depth
    requires d < depth
    ensures FileAll(bp, owner, ds + [d], depth) == FilePatch(FileAll(bp, owner, ds, depth), depth - 1 - d, Patch(owner, |ds|))
  {
    assert (ds + [d])[..|ds|] == ds;
  }

  lemma {:induction false} FileAllKeeps(g: Graph, bp: seq<seq<Patch>>, owner: BlockId, ds: seq<nat>, depth: nat)
    requires forall k :: 0 <= k < |ds| ==> ds[k] < depth
    requires AllPatchesOk(g, bp) && PatchesClear(bp, depth)
    requires forall k :: 0 <= k < |ds| ==> PatchOk(g, Patch(owner, k))
    ensures AllPatchesOk(g, FileAll(bp, owner, ds, depth)) && PatchesClear(FileAll(bp, owner, ds, depth), depth)
    decreases |ds|
  {
    if ds != [] {
      var n := |ds| - 1;
      FileAllKeeps(g, bp, owner, ds[..n], depth);
      FilePatchKeeps(g, FileAll(bp, owner, ds[..n], depth), depth - 1 - ds[n], Patch(owner, n), depth);
    }
  }

  lemma FilePatchFiles(bp: seq<seq<Patch>>, a: nat, p: Patch, r: seq<seq<Patch>>)
    requires r == FilePatch(bp, a, p)
    ensures a < |r| && p in r[a]
  {
    assert r[a][|r[a]| - 1] == p;
  }

  lemma FilePatchKeepsIn(bp: seq<seq<Patch>>, a: nat, p: Patch, r: seq<seq<Patch>>, b: nat, q: Patch)
    requires r == FilePatch(bp, a, p) && b < |bp| && q in bp[b]
    ensures b < |r| && q in r[b]
  {
    assert r[b] == bp[b] || r[b] == bp[b] + [p];
  }

  /** Every successor slot k is pending under the absolute depth its relative depth `ds[k]` names. */
  lemma {:induction false} FileAllFiles(bp: seq<seq<Patch>>, owner: BlockId, ds: seq<nat>, depth: nat, k: nat)
    requires forall i :: 0 <= i < |ds| ==> ds[i] < depth
    requires k < |ds|
    ensures var r := FileAll(bp, owner, ds, depth);
      depth - 1 - ds[k] < |r| && Patch(owner, k) in r[depth - 1 - ds[k]]
    decreases |ds|
  {
    var n := |ds| - 1;
    var init := ds[..n];
    var r0 := FileAll(bp, owner, init, depth);
    var r := FileAll(bp, owner, ds, depth);
    var a := depth - 1 - ds[k];
    assert r == FilePatch(r0, depth - 1 - ds[n], Patch(owner, n));
    if k < n {
      assert init[k] == ds[k];
      FileAllFiles(bp, owner, init, depth, k);
      assert a < |r0| && Patch(owner, k) in r0[a];
      FilePatchKeepsIn(r0, depth - 1 - ds[n], Patch(owner, n), r, a, Patch(owner, k));
    } else {
      FilePatchFiles(r0, depth - 1 - ds[n], Patch(owner, n), r);
    }
  }

  predicate NoDup<T(==)>(xs: seq<T>)
  {
    forall i, j :: 0 <= i < j < |xs| ==> xs[i] != xs[j]
  }

  /** `ys` appended to `xs` in order, skipping every element already present. */
  function AddDistinct<T(==)>(xs: seq<T>, ys: seq<T>): seq<T>
    decreases |ys|
  {
    if ys == [] then xs
    else
      var r := AddDistinct(xs, ys[..|ys| - 1]);
      if ys[|ys| - 1] in r then r else r + [ys[|ys| - 1]]
  }

  lemma {:induction false} AddDistinctSpec<T>(xs: seq<T>, ys: seq<T>)
    requires NoDup(xs)
    ensures var r := AddDistinct(xs, ys);
      NoDup(r) && |xs| <= |r| && r[..|xs|] == xs && forall z :: z in r <==> z in xs || z in ys
    decreases |ys|
  {
    if ys != [] {
      var n := |ys| - 1;
      AddDistinctSpec(xs, ys[..n]);
      assert ys == ys[..n] + [ys[n]];
      var r0 := AddDistinct(xs, ys[..n]);
      if ys[n] !in r0 {
        assert (r0 + [ys[n]])[..|xs|] == r0[..|xs|];
      }
    }
  }

  /** The first position of `x` in `xs`. */
  function IndexOf<T(==)>(xs: seq<T>, x: T): (k: nat)
    requires x in xs
    ensures k < |xs| && xs[k] == x && x !in xs[..k]
  {
    if xs[0] == x then 0
    else
      assert x in xs[1..];
      var k := IndexOf(xs[1..], x);
      assert xs[..k + 1] == [xs[0]] + xs[1..][..k];
      1 + k
  }

  lemma IndexOfUnique<T>(xs: seq<T>, x: T, k: nat)
    requires k < |xs| && xs[k] == x && x !in xs[..k]
    ensures IndexOf(xs, x) == k
  {
  }

  lemma IndexOfSnoc<T>(xs: seq<T>, y: T, x: T)
    requires x in xs
    ensures IndexOf(xs + [y], x) == IndexOf(xs, x)
  {
    var k := IndexOf(xs, x);
    assert (xs + [y])[..k] == xs[..k];
    IndexOfUnique(xs + [y], x, k);
  }

  /**
   * The target depths of a br_table in successor-slot order: the default
   * first, then every other depth the first time it occurs.
   */
  function TableDepths(defaultDepth: nat, depths: seq<nat>): seq<nat>
  {
    AddDistinct([defaultDepth], depths)
  }

  /** The successor slot of each case: the slot of its depth. */
  function CaseSlots(td: seq<nat>, depths: seq<nat>): seq<nat>
    requires forall i :: 0 <= i < |depths| ==> depths[i] in td
  {
    seq(|depths|, i requires 0 <= i < |depths| => IndexOf(td, depths[i]))
  }

  /**
   * br_table gives the default depth slot 0 and every distinct depth
   * exactly one slot, and every case's slot leads to that case's depth.
   */
  lemma BrTableSlots(defaultDepth: nat, depths: seq<nat>)
    ensures var td := TableDepths(defaultDepth, depths);
      td[0] == defaultDepth && NoDup(td)
      && (forall d :: d in td <==> d == defaultDepth || d in depths)
      && var cs := CaseSlots(td, depths);
         |cs| == |depths| && forall i :: 0 <= i < |depths| ==> cs[i] < |td| && td[cs[i]] == depths[i]
  {
    AddDistinctSpec([defaultDepth], depths);
  }

  /**
   * The table has at least two successors exactly when some case depth
   * differs from the default, which is when EmitBrTable uses a table.
   */
  lemma TableHasTwoTargets(defaultDepth: nat, depths: seq<nat>)
    ensures (exists i :: 0 <= i < |depths| && depths[i] != defaultDepth) <==> |TableDepths(defaultDepth, depths)| >= 2
  {
    var td := TableDepths(defaultDepth, depths);
    BrTableSlots(defaultDepth, depths);
    if exists i :: 0 <= i < |depths| && depths[i] != defaultDepth {
      var i :| 0 <= i < |depths| && depths[i] != defaultDepth;
      assert depths[i] in td;
      var k := IndexOf(td, depths[i]);
      assert k != 0;
    }
    if |td| >= 2 {
      assert td[1] != td[0];
      assert td[1] in td;
      var i :| 0 <= i < |depths| && depths[i] == td[1];
    }
  }

  /** EmitBrTable's scan of the case depths: whether every one is the default depth, that is, whether the table has a single successor. */
  method AllSameDepth(defaultDepth: nat, depths: seq<nat>) returns (allSameDepth: bool)
    ensures allSameDepth <==> forall i :: 0 <= i < |depths| ==> depths[i] == defaultDepth
    ensures allSameDepth <==> |TableDepths(defaultDepth, depths)| < 2
  {
    allSameDepth := true;
    var i := 0;
    while i < |depths|
      invariant 0 <= i <= |depths|
      invariant allSameDepth && forall j :: 0 <= j < i ==> depths[j] == defaultDepth
    {
      if depths[i] != defaultDepth {
        allSameDepth := false;
        break;
      }
      i := i + 1;
    }
    TableHasTwoTargets(defaultDepth, depths);
  }

  /** One more case depth extends the slot order by at most that depth. */
  lemma TableStep(defaultDepth: nat, depths: seq<nat>, i: nat)
    requires i < |depths|
    ensures var td := TableDepths(defaultDepth, depths[..i]);
      TableDepths(defaultDepth, depths[..i + 1]) == if depths[i] in td then td else td + [depths[i]]
  {
    assert depths[..i + 1][..i] == depths[..i];
  }

  /**
   * The table switch brTable builds: one unfilled successor slot per
   * distinct target depth, and each case pointing at its depth's slot.
   */
  function TableControl(operand: Def, defaultDepth: nat, depths: seq<nat>): Control
  {
    var td := TableDepths(defaultDepth, depths);
    BrTableSlots(defaultDepth, depths);
    Control(TableSwitch(operand), seq(|td|, _ => None), CaseSlots(td, depths))
  }

  /** Every target depth of the table is below `depth` when the default and all the cases are. */
  lemma TableDepthsBelow(defaultDepth: nat, depths: seq<nat>, depth: nat)
    requires defaultDepth < depth && forall i :: 0 <= i < |depths| ==> depths[i] < depth
    ensures forall k :: 0 <= k < |TableDepths(defaultDepth, depths)| ==> TableDepths(defaultDepth, depths)[k] < depth
  {
    var td := TableDepths(defaultDepth, depths);
    BrTableSlots(defaultDepth, depths);
    forall k | 0 <= k < |td|
      ensures td[k] < depth
    {
      assert td[k] in td;
    }
  }

  /**
   * The state of brTable's loop after the first `i` cases: `td` holds the
   * depths met so far in slot order, `indexToCase` maps each to its slot,
   * and each case seen so far has its depth's slot.
   */
  ghost predicate CasesSoFar(td: seq<nat>, indexToCase: map<nat, nat>, cases: seq<nat>, depths: seq<nat>, i: nat)
  {
    i <= |depths|
    && (forall d :: d in indexToCase <==> d in td)
    && (forall k :: 0 <= k < |td| ==> indexToCase[td[k]] == k)
    && |cases| == i
    && forall j :: 0 <= j < i ==> cases[j] < |td| && td[cases[j]] == depths[j]
  }

  /** A depth met before reuses its slot. */
  lemma CasesStepSeen(td: seq<nat>, indexToCase: map<nat, nat>, cases: seq<nat>, depths: seq<nat>, i: nat)
    requires CasesSoFar(td, indexToCase, cases, depths, i) && i < |depths| && depths[i] in indexToCase
    ensures CasesSoFar(td, indexToCase, cases + [indexToCase[depths[i]]], depths, i + 1)
  {
    var k := indexToCase[depths[i]];
    assert depths[i] in td;
    var m :| 0 <= m < |td| && td[m] == depths[i];
    assert indexToCase[td[m]] == m;
  }

  /** A new depth gets the next slot. */
  lemma CasesStepNew(td: seq<nat>, indexToCase: map<nat, nat>, cases: seq<nat>, depths: seq<nat>, i: nat)
    requires CasesSoFar(td, indexToCase, cases, depths, i) && i < |depths| && depths[i] !in indexToCase
    ensures CasesSoFar(td + [depths[i]], indexToCase[depths[i] := |td|], cases + [|td|], depths, i + 1)
  {
    var td' := td + [depths[i]];
    var m' := indexToCase[depths[i] := |td|];
    forall k | 0 <= k < |td'|
      ensures m'[td'[k]] == k
    {
      if k < |td| {
        assert td'[k] == td[k] && td[k] in indexToCase;
      }
    }
  }

  /** The slots brTable's loop records for the cases are the table's case slots. */
  lemma CasesAreSlots(operand: Def, defaultDepth: nat, depths: seq<nat>, cases: seq<nat>)
    requires var td := TableDepths(defaultDepth, depths);
      |cases| == |depths| && forall j :: 0 <= j < |depths| ==> cases[j] < |td| && td[cases[j]] == depths[j]
    ensures Control(TableSwitch(operand), seq(|TableDepths(defaultDepth, depths)|, _ => None), cases)
      == TableControl(operand, defaultDepth, depths)
  {
    var td := TableDepths(defaultDepth, depths);
    BrTableSlots(defaultDepth, depths);
    forall j | 0 <= j < |depths|
      ensures cases[j] == IndexOf(td, depths[j])
    {
      IndexOfUnique(td, depths[j], cases[j]);
    }
  }

  /** One turn of brTable's loop: a depth met before reuses its slot; a new one gets the next slot and a patch. */
  method FileCase(bp: seq<seq<Patch>>, owner: BlockId, defaultDepth: nat, depths: seq<nat>, depth: nat, i: nat,
                  patches: seq<seq<Patch>>, indexToCase: map<nat, nat>, numSuccessors: nat, cases: seq<nat>, ghost td: seq<nat>)
    returns (patches1: seq<seq<Patch>>, indexToCase1: map<nat, nat>, numSuccessors1: nat, cases1: seq<nat>, ghost td1: seq<nat>)
    requires defaultDepth < depth && i < |depths| && depths[i] < depth
    requires td == TableDepths(defaultDepth, depths[..i]) && numSuccessors == |td| && AllBelow(td, depth)
    requires CasesSoFar(td, indexToCase, cases, depths, i) && patches == FileAll(bp, owner, td, depth)
    ensures td1 == TableDepths(defaultDepth, depths[..i + 1]) && numSuccessors1 == |td1| && AllBelow(td1, depth)
    ensures CasesSoFar(td1, indexToCase1, cases1, depths, i + 1) && patches1 == FileAll(bp, owner, td1, depth)
  {
    var d := depths[i];
    TableStep(defaultDepth, depths, i);
    if d !in indexToCase {
      FileAllSnoc(bp, owner, td, d, depth);
      AllBelowSnoc(td, d, depth);
      CasesStepNew(td, indexToCase, cases, depths, i);
      patches1 := FilePatch(patches, depth - 1 - d, Patch(owner, numSuccessors));
      indexToCase1, numSuccessors1 := indexToCase[d := numSuccessors], numSuccessors + 1;
      cases1, td1 := cases + [numSuccessors], td + [d];
    } else {
      CasesStepSeen(td, indexToCase, cases, depths, i);
      patches1, indexToCase1, numSuccessors1 := patches, indexToCase, numSuccessors;
      cases1, td1 := cases + [indexToCase[d]], td;
    }
  }

  /**
   * brTable's loop over the table `bp` of a compiler at block depth `depth`:
   * file a patch for the default slot, then one for each depth met for the
   * first time, recording each case's slot.
   */
  method FileTable(bp: seq<seq<Patch>>, owner: BlockId, defaultDepth: nat, depths: seq<nat>, depth: nat)
    returns (patches: seq<seq<Patch>>, numSuccessors: nat, cases: seq<nat>)
    requires defaultDepth < depth && forall i :: 0 <= i < |depths| ==> depths[i] < depth
    ensures var td := TableDepths(defaultDepth, depths);
      numSuccessors == |td| && |cases| == |depths|
      && (forall j :: 0 <= j < |depths| ==> cases[j] < |td| && td[cases[j]] == depths[j])
      && patches == TablePatches(bp, owner, defaultDepth, depths, depth)
  {
    patches := FilePatch(bp, depth - 1 - defaultDepth, Patch(owner, 0));
    var indexToCase: map<nat, nat> := map[defaultDepth := 0];
    numSuccessors := 1;
    cases := [];
    ghost var td: seq<nat> := [defaultDepth];
    assert [defaultDepth][..0] == [];
    assert depths[..0] == [];
    for i := 0 to |depths|
      invariant td == TableDepths(defaultDepth, depths[..i]) && numSuccessors == |td|
      invariant AllBelow(td, depth)
      invariant CasesSoFar(td, indexToCase, cases, depths, i)
      invariant patches == FileAll(bp, owner, td, depth)
    {
      patches, indexToCase, numSuccessors, cases, td :=
        FileCase(bp, owner, defaultDepth, depths, depth, i, patches, indexToCase, numSuccessors, cases, td);
    }
    assert depths[..|depths|] == depths;
  }

  /** The patch table once brTable has filed the table's successor slots, slot 0 (the default) first. */
  function TablePatches(bp: seq<seq<Patch>>, owner: BlockId, defaultDepth: nat, depths: seq<nat>, depth: nat): seq<seq<Patch>>
    requires defaultDepth < depth && forall i :: 0 <= i < |depths| ==> depths[i] < depth
  {
    TableDepthsBelow(defaultDepth, depths, depth);
    FileAll(bp, owner, TableDepths(defaultDepth, depths), depth)
  }

  /** The phis startLoop gives a loop header: one per parameter, holding the entry value, with room for the backedge value. */
  function LoopPhis(params: seq<Def>, firstDef: Def): (phis: seq<Phi>)
    ensures |phis| == |params| && DistinctDefs(phis)
    ensures forall i :: 0 <= i < |phis| ==> phis[i].def == firstDef + i && phis[i].operands == [params[i]] && !phis[i].unused
  {
    seq(|params|, i requires 0 <= i < |params| => Phi(firstDef + i, [params[i]], 2, false))
  }

  /**
   * The graph once startLoop has run from live block `pre`: a loop header
   * after `pre`, at loop depth `depth` and holding `phis`, which `pre`
   * jumps to, and a body block after the header, which the header jumps to.
   */
  function LoopEntered(g: Graph, pre: BlockId, phis: seq<Phi>, depth: nat): (r: Graph)
    requires Open(g, pre)
    ensures var h := |g.blocks|;
      |r.blocks| == h + 2 && Extends(g, r) && KeepsOpen(g, r, Some(pre)) && SameBlockData(g, r, None) && r.marked == g.marked
      && r.blocks[pre].end == Some(Control(Goto, [Some(h)], []))
      && r.blocks[h].end == Some(Control(Goto, [Some(h + 1)], []))
      && r.blocks[h].preds == [pre] && r.blocks[h].phis == phis && r.blocks[h].loopDepth == depth
      && Open(r, h + 1) && r.blocks[h + 1].preds == [h] && r.blocks[h + 1].loopDepth == depth
      && r.blocks[h + 1].slots == g.blocks[pre].slots && r.blocks[h + 1].pushed == g.blocks[pre].pushed
  {
    var h := |g.blocks|;
    var g1 := End(NewBlock(g, Some(pre), depth), pre, Control(Goto, [Some(h)], []));
    var g2 := SetPhis(g1, h, [pre], phis);
    End(NewBlock(g2, Some(h), depth), h, Control(Goto, [Some(h + 1)], []))
  }

  /** setBackedgeWasm on the phis: each phi gets the backedge's pushed value as its second operand. */
  function WithBackedge(phis: seq<Phi>, values: seq<Def>): (r: seq<Phi>)
    requires |phis| == |values|
    ensures |r| == |phis|
    ensures forall i :: 0 <= i < |r| ==>
      r[i].def == phis[i].def && r[i].operands == phis[i].operands + [values[i]] && r[i].unused == phis[i].unused
  {
    seq(|phis|, i requires 0 <= i < |phis| => phis[i].(operands := phis[i].operands + [values[i]]))
  }

  /** A phi whose first two operands are the same definition is flagged unused. */
  function MarkIfRedundant(p: Phi): Phi
  {
    if |p.operands| >= 2 && p.operands[0] == p.operands[1] then p.(unused := true) else p
  }

  function MarkRedundant(phis: seq<Phi>): (r: seq<Phi>)
    ensures |r| == |phis|
    ensures forall i :: 0 <= i < |r| ==> r[i].def == phis[i].def && r[i].operands == phis[i].operands
  {
    seq(|phis|, i requires 0 <= i < |phis| => MarkIfRedundant(phis[i]))
  }

  /** The phis that stay in the loop header: those not flagged unused, in order. */
  function Kept(phis: seq<Phi>): seq<Phi>
    decreases |phis|
  {
    if phis == [] then []
    else
      var last := phis[|phis| - 1];
      Kept(phis[..|phis| - 1]) + (if last.unused then [] else [last])
  }

  /** Each unused phi's definition, replaced by its first operand. */
  function Replacements(phis: seq<Phi>): map<Def, Def>
    requires forall i :: 0 <= i < |phis| ==> |phis[i].operands| >= 1
    decreases |phis|
  {
    if phis == [] then map[]
    else
      var last := phis[|phis| - 1];
      Replacements(phis[..|phis| - 1]) + (if last.unused then map[last.def := last.operands[0]] else map[])
  }

  predicate DistinctDefs(phis: seq<Phi>)
  {
    forall i, j :: 0 <= i < j < |phis| ==> phis[i].def != phis[j].def
  }

  function Defs(phis: seq<Phi>): set<Def>
  {
    set i | 0 <= i < |phis| :: phis[i].def
  }

  function Firsts(phis: seq<Phi>): set<Def>
  {
    set i | 0 <= i < |phis| && |phis[i].operands| >= 1 :: phis[i].operands[0]
  }

  lemma {:induction false} KeptSpec(phis: seq<Phi>)
    ensures forall p :: p in Kept(phis) <==> p in phis && !p.unused
    decreases |phis|
  {
    if phis != [] {
      var n := |phis| - 1;
      KeptSpec(phis[..n]);
      assert phis == phis[..n] + [phis[n]];
    }
  }

  lemma {:induction false} ReplacementsRange(phis: seq<Phi>)
    requires forall i :: 0 <= i < |phis| ==> |phis[i].operands| >= 1
    ensures forall d :: d in Replacements(phis) ==> d in Defs(phis) && Replacements(phis)[d] in Firsts(phis)
    decreases |phis|
  {
    if phis != [] {
      var n := |phis| - 1;
      var init := phis[..n];
      ReplacementsRange(init);
      var r0 := Replacements(init);
      var r := Replacements(phis);
      assert r == r0 + (if phis[n].unused then map[phis[n].def := phis[n].operands[0]] else map[]);
      forall d | d in r
        ensures d in Defs(phis) && r[d] in Firsts(phis)
      {
        if phis[n].unused && d == phis[n].def {
          assert r[d] == phis[n].operands[0];
        } else {
          assert d in r0 && r[d] == r0[d];
          var i :| 0 <= i < n && init[i].def == d;
          assert phis[i].def == d;
          var j :| 0 <= j < n && |init[j].operands| >= 1 && init[j].operands[0] == r0[d];
          assert phis[j].operands[0] == r[d];
        }
      }
    }
  }

  lemma {:induction false} ReplacementsAt(phis: seq<Phi>)
    requires forall i :: 0 <= i < |phis| ==> |phis[i].operands| >= 1
    requires DistinctDefs(phis)
    ensures forall i :: 0 <= i < |phis| ==> (phis[i].def in Replacements(phis) <==> phis[i].unused)
    ensures forall i :: 0 <= i < |phis| && phis[i].unused ==> Replacements(phis)[phis[i].def] == phis[i].operands[0]
    decreases |phis|
  {
    if phis != [] {
      var n := |phis| - 1;
      var init := phis[..n];
      ReplacementsAt(init);
      ReplacementsRange(init);
      var r0 := Replacements(init);
      var r := Replacements(phis);
      assert r == r0 + (if phis[n].unused then map[phis[n].def := phis[n].operands[0]] else map[]);
      forall i | 0 <= i < |phis|
        ensures (phis[i].def in r <==> phis[i].unused)
        ensures phis[i].unused ==> r[phis[i].def] == phis[i].operands[0]
      {
        if i < n {
          assert init[i] == phis[i];
          assert phis[i].def != phis[n].def;
        } else {
          assert phis[n].def !in Defs(init);
        }
      }
    }
  }

  /**
   * Loop-phi elimination: once the backedge values are added, the phis kept
   * in the header are exactly those whose two operands differ, and every
   * dropped phi is replaced by its entry value.
   */
  lemma PhiElimination(phis: seq<Phi>, values: seq<Def>)
    requires |phis| == |values|
    requires forall i :: 0 <= i < |phis| ==> |phis[i].operands| == 1 && !phis[i].unused
    requires DistinctDefs(phis)
    ensures var m := MarkRedundant(WithBackedge(phis, values));
      var r := Replacements(m);
      (forall p :: p in Kept(m) ==> !p.unused && |p.operands| == 2 && p.operands[0] != p.operands[1])
      && (forall i :: 0 <= i < |phis| && phis[i].operands[0] != values[i] ==>
            Phi(phis[i].def, phis[i].operands + [values[i]], phis[i].capacity, false) in Kept(m))
      && (forall i :: 0 <= i < |phis| ==> (phis[i].def in r <==> phis[i].operands[0] == values[i]))
      && (forall i :: 0 <= i < |phis| && phis[i].operands[0] == values[i] ==> r[phis[i].def] == values[i])
  {
    var m := MarkRedundant(WithBackedge(phis, values));
    forall i | 0 <= i < |phis|
      ensures m[i] == Phi(phis[i].def, phis[i].operands + [values[i]], phis[i].capacity, phis[i].operands[0] == values[i])
    {
    }
    KeptSpec(m);
    ReplacementsAt(m);
  }

  /**
   * Adding the backedge operands and flagging the redundant phis keeps the
   * phis' definitions and entry values.
   */
  lemma BackedgeKeepsDefs(phis: seq<Phi>, values: seq<Def>)
    requires |phis| == |values| && forall i :: 0 <= i < |phis| ==> |phis[i].operands| >= 1
    ensures var m := MarkRedundant(WithBackedge(phis, values));
      Defs(m) == Defs(phis) && Firsts(m) == Firsts(phis) && (DistinctDefs(phis) ==> DistinctDefs(m))
      && forall i :: 0 <= i < |m| ==> |m[i].operands| >= 1
  {
    var m := MarkRedundant(WithBackedge(phis, values));
    forall i | 0 <= i < |m|
      ensures m[i].def == phis[i].def && m[i].operands[0] == phis[i].operands[0]
    {
    }
    assert forall d :: d in Defs(m) ==> d in Defs(phis);
    assert forall d :: d in Firsts(m) ==> d in Firsts(phis);
  }

  /** fixupRedundantPhis on one stack: a replaced definition becomes its replacement. */
  function Fix(s: seq<Def>, red: map<Def, Def>): seq<Def>
  {
    seq(|s|, i requires 0 <= i < |s| => if s[i] in red then red[s[i]] else s[i])
  }

  /** fixupRedundantPhis's loop over one stack. */
  method FixStack(s: seq<Def>, red: map<Def, Def>) returns (r: seq<Def>)
    ensures r == Fix(s, red)
  {
    r := s;
    for i := 0 to |s|
      invariant |r| == |s|
      invariant forall j :: 0 <= j < i ==> r[j] == Fix(s, red)[j]
      invariant forall j :: i <= j < |s| ==> r[j] == s[j]
    {
      if r[i] in red {
        r := r[i := red[r[i]]];
      }
    }
  }

  /** No replacement is itself replaced. */
  predicate Settled(red: map<Def, Def>)
  {
    forall d :: d in red ==> red[d] !in red
  }

  /** With settled replacements, a fixed stack holds no replaced definition, so fixing it twice changes nothing. */
  lemma FixSettles(s: seq<Def>, red: map<Def, Def>)
    requires Settled(red)
    ensures |Fix(s, red)| == |s| && forall i :: 0 <= i < |s| ==> Fix(s, red)[i] !in red
    ensures Fix(Fix(s, red), red) == Fix(s, red)
  {
  }

  /** The loop's replacements are settled when no entry value of the loop is one of its own phis. */
  lemma ReplacementsSettled(phis: seq<Phi>)
    requires forall i :: 0 <= i < |phis| ==> |phis[i].operands| >= 1
    requires DistinctDefs(phis) && Defs(phis) !! Firsts(phis)
    ensures Settled(Replacements(phis))
  {
    ReplacementsRange(phis);
  }

  function FixBlock(b: Block, red: map<Def, Def>): Block
  {
    b.(slots := Fix(b.slots, red), pushed := Fix(b.pushed, red))
  }

  /** Every block in `targets` has its slots and pushed values fixed. */
  function FixupBlocks(g: Graph, targets: set<BlockId>, red: map<Def, Def>): (h: Graph)
    ensures Extends(g, h) && KeepsOpen(g, h, None) && |h.blocks| == |g.blocks| && h.marked == g.marked
    ensures LoopDepths(h) == LoopDepths(g)
    ensures forall b :: 0 <= b < |g.blocks| && b in targets ==>
      h.blocks[b].slots == Fix(g.blocks[b].slots, red) && h.blocks[b].pushed == Fix(g.blocks[b].pushed, red)
    ensures forall b :: 0 <= b < |g.blocks| && b !in targets ==> h.blocks[b] == g.blocks[b]
  {
    g.(blocks := seq(|g.blocks|, b requires 0 <= b < |g.blocks| =>
      if b in targets then FixBlock(g.blocks[b], red) else g.blocks[b]))
  }

  lemma FixupOneMore(g: Graph, targets: set<BlockId>, red: map<Def, Def>, b: BlockId)
    requires Settled(red) && b < |g.blocks|
    ensures var h := FixupBlocks(g, targets, red);
      SetSlots(h, b, Fix(h.blocks[b].slots, red), Fix(h.blocks[b].pushed, red)) == FixupBlocks(g, targets + {b}, red)
  {
    var h := FixupBlocks(g, targets, red);
    FixSettles(g.blocks[b].slots, red);
    FixSettles(g.blocks[b].pushed, red);
    var l := SetSlots(h, b, Fix(h.blocks[b].slots, red), Fix(h.blocks[b].pushed, red));
    var r := FixupBlocks(g, targets + {b}, red);
    assert l.blocks == r.blocks;
  }

  /** The loop depth of every block. */
  function LoopDepths(g: Graph): (r: seq<nat>)
    ensures |r| == |g.blocks| && forall b :: 0 <= b < |r| ==> r[b] == g.blocks[b].loopDepth
  {
    seq(|g.blocks|, b requires 0 <= b < |g.blocks| => g.blocks[b].loopDepth)
  }

  /** The owners of `ps` that exist and are at least `depth` loops deep, given each block's loop depth. */
  function PendingIn(loopDepths: seq<nat>, ps: seq<Patch>, depth: nat): set<BlockId>
    decreases |ps|
  {
    if ps == [] then {}
    else
      var o := ps[|ps| - 1].owner;
      PendingIn(loopDepths, ps[..|ps| - 1], depth) + (if o < |loopDepths| && loopDepths[o] >= depth then {o} else {})
  }

  /** One more patch adds its owner to the pending set exactly when the owner is deep enough. */
  lemma PendingInStep(loopDepths: seq<nat>, ps: seq<Patch>, k: nat, depth: nat)
    requires k < |ps|
    ensures var o := ps[k].owner;
      PendingIn(loopDepths, ps[..k + 1], depth)
        == PendingIn(loopDepths, ps[..k], depth) + (if o < |loopDepths| && loopDepths[o] >= depth then {o} else {})
  {
    assert ps[..k + 1][..k] == ps[..k];
  }

  function Pending(loopDepths: seq<nat>, bp: seq<seq<Patch>>, depth: nat): set<BlockId>
    decreases |bp|
  {
    if bp == [] then {} else Pending(loopDepths, bp[..|bp| - 1], depth) + PendingIn(loopDepths, bp[|bp| - 1], depth)
  }

  /** setBackedgeWasm and the flagging loop on the phis of header `entry`, with `backedge`'s pushed values. */
  function MarkedPhis(g: Graph, entry: BlockId, backedge: BlockId): (m: seq<Phi>)
    requires entry < |g.blocks| && backedge < |g.blocks| && |g.blocks[entry].phis| == |g.blocks[backedge].pushed|
    ensures |m| == |g.blocks[entry].phis| && forall i :: 0 <= i < |m| ==> |m[i].operands| >= 1
  {
    MarkRedundant(WithBackedge(g.blocks[entry].phis, g.blocks[backedge].pushed))
  }

  /**
   * The graph once setLoopBackedge has run for loop header `entry`, loop
   * body `loopBody` and backedge block `backedge`: the backedge is the
   * header's last predecessor, the header keeps only its phis whose two
   * operands differ, and every pending patch owner at least as deep in
   * loops as the header, and the loop body, has each dropped phi in its
   * slots and pushed values replaced by the phi's entry value.
   */
  function BackedgeSet(g: Graph, entry: BlockId, loopBody: Option<BlockId>, backedge: BlockId, bp: seq<seq<Patch>>): (r: Graph)
    requires entry < |g.blocks| && backedge < |g.blocks| && |g.blocks[entry].phis| == |g.blocks[backedge].pushed|
    ensures Extends(g, r) && KeepsOpen(g, r, None) && |r.blocks| == |g.blocks| && r.marked == g.marked
    ensures LoopDepths(r) == LoopDepths(g) && forall b :: 0 <= b < |g.blocks| ==> r.blocks[b].end == g.blocks[b].end
    ensures r.blocks[entry].preds == g.blocks[entry].preds + [backedge]
    ensures r.blocks[entry].phis == Kept(MarkedPhis(g, entry, backedge))
    ensures loopBody.Some? && loopBody.value < |g.blocks| ==>
      r.blocks[loopBody.value].pushed == Fix(g.blocks[loopBody.value].pushed, Replacements(MarkedPhis(g, entry, backedge)))
    ensures forall b :: 0 <= b < |g.blocks| && b in LoopFixTargets(g, entry, loopBody, bp) ==>
      r.blocks[b].slots == Fix(g.blocks[b].slots, Replacements(MarkedPhis(g, entry, backedge)))
      && r.blocks[b].pushed == Fix(g.blocks[b].pushed, Replacements(MarkedPhis(g, entry, backedge)))
    ensures forall b :: 0 <= b < |g.blocks| && b !in LoopFixTargets(g, entry, loopBody, bp) && b != entry ==> r.blocks[b] == g.blocks[b]
  {
    var m := MarkedPhis(g, entry, backedge);
    SetPhis(FixupBlocks(g, LoopFixTargets(g, entry, loopBody, bp), Replacements(m)), entry, g.blocks[entry].preds + [backedge], Kept(m))
  }

  /** The blocks setLoopBackedge fixes: the pending patch owners at least as deep in loops as the header, and the loop body. */
  function LoopFixTargets(g: Graph, entry: BlockId, loopBody: Option<BlockId>, bp: seq<seq<Patch>>): set<BlockId>
    requires entry < |g.blocks|
  {
    Pending(LoopDepths(g), bp, g.blocks[entry].loopDepth) + (if loopBody.Some? then {loopBody.value} else {})
  }

  /**
   * The graph once the backedge block `backedge` of loop header `h` pushes
   * `values`, jumps to the header and becomes its backedge.
   */
  function BackedgeEnded(g: Graph, h: BlockId, loopBody: Option<BlockId>, backedge: BlockId, values: seq<Def>, bp: seq<seq<Patch>>): Graph
    requires Open(g, backedge) && g.blocks[backedge].pushed == [] && h < |g.blocks| && |g.blocks[h].phis| == |values|
  {
    BackedgeSet(End(Push(g, backedge, values), backedge, Control(Goto, [Some(h)], [])), h, loopBody, backedge, bp)
  }

  /**
   * Ending the backedge: it jumps to the header, which gains it as its last
   * predecessor and keeps its non-redundant phis; the loop body stays open
   * at its depth, with each dropped phi replaced in its pushed values.
   */
  lemma BackedgeEndedFacts(g: Graph, h: BlockId, loopBody: Option<BlockId>, backedge: BlockId, values: seq<Def>, bp: seq<seq<Patch>>)
    requires Open(g, backedge) && g.blocks[backedge].pushed == [] && Closed(g, h) && |g.blocks[h].phis| == |values|
    requires loopBody.Some? ==> Open(g, loopBody.value) && loopBody.value != backedge
    ensures var r := BackedgeEnded(g, h, loopBody, backedge, values, bp);
      var m := MarkRedundant(WithBackedge(g.blocks[h].phis, values));
      |r.blocks| == |g.blocks| && Extends(g, r) && r.marked == g.marked
      && r.blocks[backedge].end == Some(Control(Goto, [Some(h)], []))
      && r.blocks[h].preds == g.blocks[h].preds + [backedge]
      && r.blocks[h].phis == Kept(m)
      && (loopBody.Some? ==>
            Open(r, loopBody.value) && r.blocks[loopBody.value].loopDepth == g.blocks[loopBody.value].loopDepth
            && r.blocks[loopBody.value].pushed == Fix(g.blocks[loopBody.value].pushed, Replacements(m)))
  {
    var g1 := End(Push(g, backedge, values), backedge, Control(Goto, [Some(h)], []));
    assert g1.blocks[h] == g.blocks[h] && g1.blocks[backedge].pushed == values;
    assert loopBody.Some? ==> g1.blocks[loopBody.value] == g.blocks[loopBody.value];
    assert MarkedPhis(g1, h, backedge) == MarkRedundant(WithBackedge(g.blocks[h].phis, values));
    var r := BackedgeSet(g1, h, loopBody, backedge, bp);
    assert r.blocks[backedge].end == g1.blocks[backedge].end;
    assert loopBody.Some? ==> r.blocks[loopBody.value].end == g1.blocks[loopBody.value].end;
    if loopBody.Some? {
      assert LoopDepths(r)[loopBody.value] == LoopDepths(g1)[loopBody.value];
    }
  }

  /**
   * What closeLoop relies on about the loop header `h` startLoop made: it
   * is closed and `depth` loops deep, each of its phis still has only its
   * entry value, the phis are distinct and none is an entry value of the
   * same header, and the first branch back to the header's label pushes one
   * value per phi.
   */
  ghost predicate LoopHeader(g: Graph, h: BlockId, depth: nat, bp: seq<seq<Patch>>, headerLabel: nat)
  {
    Closed(g, h) && g.blocks[h].loopDepth == depth
    && (forall i :: 0 <= i < |g.blocks[h].phis| ==> |g.blocks[h].phis[i].operands| == 1)
    && DistinctDefs(g.blocks[h].phis) && Defs(g.blocks[h].phis) !! Firsts(g.blocks[h].phis)
    && (headerLabel < |bp| && bp[headerLabel] != [] ==>
          bp[headerLabel][0].owner < |g.blocks| && |g.blocks[bp[headerLabel][0].owner].pushed| == |g.blocks[h].phis|)
  }

  /** Fixing slots and setting the header's phis touch different parts of a block, so their order does not matter. */
  lemma FixupAfterSetPhis(g: Graph, e: BlockId, preds: seq<BlockId>, m: seq<Phi>, kept: seq<Phi>, targets: set<BlockId>, red: map<Def, Def>)
    requires e < |g.blocks|
    ensures SetPhis(FixupBlocks(SetPhis(g, e, preds, m), targets, red), e, preds, kept)
      == SetPhis(FixupBlocks(g, targets, red), e, preds, kept)
  {
    var l := SetPhis(FixupBlocks(SetPhis(g, e, preds, m), targets, red), e, preds, kept);
    var r := SetPhis(FixupBlocks(g, targets, red), e, preds, kept);
    assert l.blocks == r.blocks;
  }

  /** The block that is current once the branches to depth `d` are bound: a join block exactly when some are pending. */
  ghost function JoinedBlock(g: Graph, bp: seq<seq<Patch>>, d: nat, cur: Option<BlockId>): Option<BlockId>
  {
    if NoPatches(bp, d) then cur else Some(|g.blocks|)
  }

  /**
   * The values binding the branches to depth `d` yields: those pushed by the
   * live fall-through block, or, when branches are pending, those pushed by
   * the first of them.
   */
  ghost function JoinedValues(g: Graph, bp: seq<seq<Patch>>, d: nat, cur: Option<BlockId>): seq<Def>
    requires AllPatchesOk(g, bp) && (cur.Some? ==> cur.value < |g.blocks|)
  {
    if NoPatches(bp, d) then (if cur.Some? then g.blocks[cur.value].pushed else [])
    else g.blocks[bp[d][0].owner].pushed
  }

  /**
   * The values binding the branches to depth `d` yields once the live block
   * `cur`, which had nothing pushed, has pushed `pre`: `pre` itself when no
   * branch is pending, else the values of the first branch.
   */
  ghost function ArmValues(g: Graph, bp: seq<seq<Patch>>, d: nat, cur: Option<BlockId>, pre: seq<Def>): seq<Def>
    requires AllPatchesOk(g, bp)
  {
    if NoPatches(bp, d) then (if cur.Some? then pre else [])
    else g.blocks[bp[d][0].owner].pushed
  }

  /** Pushing onto the open block `b` leaves what binding yields as ArmValues says. */
  lemma PushedArmValues(g: Graph, bp: seq<seq<Patch>>, d: nat, b: BlockId, pre: seq<Def>)
    requires AllPatchesOk(g, bp) && Open(g, b) && g.blocks[b].pushed == []
    ensures AllPatchesOk(Push(g, b, pre), bp)
    ensures JoinedValues(Push(g, b, pre), bp, d, Some(b)) == ArmValues(g, bp, d, Some(b), pre)
    ensures JoinedBlock(Push(g, b, pre), bp, d, Some(b)) == JoinedBlock(g, bp, d, Some(b))
  {
    PatchesStayOk(g, Push(g, b, pre), bp);
    if !NoPatches(bp, d) {
      assert PatchOk(g, bp[d][0]);
    }
  }

  /**
   * The header's phis once the backedge values (those pushed by the first
   * branch to the header's label) are added and the redundant ones flagged.
   */
  ghost function BackedgePhis(g: Graph, h: BlockId, bp: seq<seq<Patch>>, d: nat): seq<Phi>
    requires h < |g.blocks| && d < |bp| && bp[d] != [] && bp[d][0].owner < |g.blocks|
    requires |g.blocks[bp[d][0].owner].pushed| == |g.blocks[h].phis|
  {
    MarkRedundant(WithBackedge(g.blocks[h].phis, g.blocks[bp[d][0].owner].pushed))
  }

  /** The live arms of an if, then arm first. */
  function JoinPreds(thenPred: Option<BlockId>, elsePred: Option<BlockId>): seq<BlockId>
  {
    (if thenPred.Some? then [thenPred.value] else []) + (if elsePred.Some? then [elsePred.value] else [])
  }

  /** The kinds of label an `end` closes. */
  datatype LabelKind = Body | BlockLabel | LoopLabel | Then | Else

  /** The owners of the patches, in order. */
  function Owners(ps: seq<Patch>): seq<BlockId>
  {
    seq(|ps|, k requires 0 <= k < |ps| => ps[k].owner)
  }

  /** One step of the bindBranches loop: an unmarked owner joins the predecessors and is marked; its slot targets `join`. */
  function BindStep(g: Graph, p: Patch, join: BlockId): Graph
    requires join < |g.blocks| && PatchOk(g, p)
  {
    var g1 := if p.owner in g.marked then g else Mark(AddPredecessor(g, join, p.owner), p.owner);
    ReplaceSuccessor(g1, p.owner, p.index, join)
  }

  /** The state of the bindBranches loop after the first `i` patches, starting from `g0`. */
  ghost predicate BoundSoFar(g0: Graph, g: Graph, ps: seq<Patch>, join: BlockId, i: nat)
  {
    1 <= i <= |ps| && |g.blocks| == join + 1 && Open(g, join)
    && g.blocks[join].preds == AddDistinct([], Owners(ps[..i]))
    && (forall b :: b in g.marked <==> b in g.blocks[join].preds)
    && (forall k :: 0 <= k < |ps| ==> PatchOk(g, ps[k]))
    && (forall k :: 0 <= k < i ==> Target(g, ps[k]) == Some(join))
    && Extends(g0, g) && KeepsOpen(g0, g, None) && SameBlockData(g0, g, Some(join)) && join < |g0.blocks|
    && g.blocks[join].(preds := []) == g0.blocks[join].(preds := [])
  }

  lemma BindStepKeeps(g0: Graph, g: Graph, ps: seq<Patch>, join: BlockId, i: nat)
    requires BoundSoFar(g0, g, ps, join, i) && i < |ps|
    ensures BoundSoFar(g0, BindStep(g, ps[i], join), ps, join, i + 1)
  {
    BindStepPreds(g0, g, ps, join, i);
    BindStepTargets(g0, g, ps, join, i);
    BindStepFrame(g0, g, ps, join, i);
  }

  /** A bind step adds the owner to the join's predecessors and marks it, unless it is marked already. */
  lemma BindStepPreds(g0: Graph, g: Graph, ps: seq<Patch>, join: BlockId, i: nat)
    requires BoundSoFar(g0, g, ps, join, i) && i < |ps|
    ensures var h := BindStep(g, ps[i], join);
      |h.blocks| == join + 1 && Open(h, join)
      && h.blocks[join].preds == AddDistinct([], Owners(ps[..i + 1]))
      && (forall b :: b in h.marked <==> b in h.blocks[join].preds)
  {
    assert ps[..i + 1][..i] == ps[..i];
    assert Owners(ps[..i + 1]) == Owners(ps[..i]) + [ps[i].owner];
    assert Owners(ps[..i + 1])[..i] == Owners(ps[..i]);
  }

  /** A bind step keeps every patch well formed and points one more at the join. */
  lemma BindStepTargets(g0: Graph, g: Graph, ps: seq<Patch>, join: BlockId, i: nat)
    requires BoundSoFar(g0, g, ps, join, i) && i < |ps|
    ensures var h := BindStep(g, ps[i], join);
      (forall k :: 0 <= k < |ps| ==> PatchOk(h, ps[k]))
      && (forall k :: 0 <= k < i + 1 ==> Target(h, ps[k]) == Some(join))
  {
  }

  /** A bind step changes no block's data other than the join's predecessors. */
  lemma BindStepFrame(g0: Graph, g: Graph, ps: seq<Patch>, join: BlockId, i: nat)
    requires BoundSoFar(g0, g, ps, join, i) && i < |ps|
    ensures var h := BindStep(g, ps[i], join);
      Extends(g0, h) && KeepsOpen(g0, h, None) && SameBlockData(g0, h, Some(join))
      && h.blocks[join].(preds := []) == g0.blocks[join].(preds := [])
  {
  }

  lemma FirstPatchBound(g0: Graph, g: Graph, ps: seq<Patch>, join: BlockId, depth: nat)
    requires |ps| > 0 && join == |g0.blocks| && PatchOk(g0, ps[0])
    requires forall k :: 0 <= k < |ps| ==> PatchOk(g0, ps[k])
    requires g0.marked == {}
    requires g == ReplaceSuccessor(Mark(NewBlock(g0, Some(ps[0].owner), depth), ps[0].owner), ps[0].owner, ps[0].index, join)
    ensures BoundSoFar(g, g, ps, join, 1)
  {
    assert Owners(ps[..1]) == [ps[0].owner];
    assert [ps[0].owner][..0] == [];
  }

  /** A register argument of a call; the TLS pointer travels in its own register. */
  datatype Register = TlsReg | ArgReg(index: nat)
  datatype CallArg = CallArg(reg: Register, def: Def)

  /** The part of CallCompileState that finishCall reads and extends. */
  datatype CallState = CallState(regArgs: seq<CallArg>, stackBytes: nat)

  datatype ArithOp = DivOp | ModOp

  function ArithInstr(op: ArithOp, lhs: Def, rhs: Def, ty: MirType, unsigned: bool, trapOnError: bool): Opcode
  {
    match op
    case DivOp => Div(lhs, rhs, ty, unsigned, trapOnError)
    case ModOp => Mod(lhs, rhs, ty, unsigned, trapOnError)
  }

  /**
   * The instructions div() and mod() add, numbered from `next`: a signed
   * 32-bit operation first truncates both operands to int32.
   */
  function ArithCode(op: ArithOp, lhs: Def, rhs: Def, ty: MirType, unsigned: bool, trapOnError: bool, next: Def): seq<Instr>
  {
    if !unsigned && ty == Int32 then
      [Instr(next, TruncateToInt32(lhs)), Instr(next + 1, TruncateToInt32(rhs)),
       Instr(next + 2, ArithInstr(op, next, next + 1, ty, unsigned, trapOnError))]
    else [Instr(next, ArithInstr(op, lhs, rhs, ty, unsigned, trapOnError))]
  }

  /** Addressing is its folding stage, then the offset stage, then the checking stage. */
  lemma AddressingByStages(env: Env, access: Access, base: Def, baseConst: Option<I32>, next: Def,
                           f: Addressed, need: (bool, bool), n1: Def, added: Addressed, n2: Def, checks: Addressed)
    requires f == FoldStage(env, access, base, baseConst, next)
    requires need == NeedAlignmentCheck(env.asmJS, f.access, if FoldsBase(env, access, baseConst) then Some(0) else baseConst)
    requires n1 == next + |f.code| && added == OffsetStage(env, f.base, f.access, need.1, n1)
    requires n2 == n1 + |added.code| && checks == ChecksStage(env, added.base, added.access, need.0, access.byteSize, n2)
    ensures Addressing(env, access, base, baseConst, next) == Addressed(f.code + added.code + checks.code, checks.base, checks.access)
  {
  }

  /** The instructions div() and mod() add are the truncations, if any, then the operation on their results. */
  lemma ArithCodeParts(op: ArithOp, lhs: Def, rhs: Def, ty: MirType, unsigned: bool, trapOnError: bool, next: Def,
                       l: Def, r: Def, truncations: seq<Instr>)
    requires !unsigned && ty == Int32 ==>
      l == next && r == next + 1 && truncations == [Instr(l, TruncateToInt32(lhs)), Instr(r, TruncateToInt32(rhs))]
    requires !(!unsigned && ty == Int32) ==> l == lhs && r == rhs && truncations == []
    ensures ArithCode(op, lhs, rhs, ty, unsigned, trapOnError, next)
      == truncations + [Instr(next + |truncations|, ArithInstr(op, l, r, ty, unsigned, trapOnError))]
  {
  }

  /**
   * The division or remainder is the last instruction added and traps on
   * error unless compiling asm.js; its operands are truncations of the
   * inputs exactly when it is a signed 32-bit operation.
   */
  lemma ArithShape(op: ArithOp, lhs: Def, rhs: Def, ty: MirType, unsigned: bool, asmJS: bool, next: Def)
    ensures var code := ArithCode(op, lhs, rhs, ty, unsigned, !asmJS, next);
      var last := code[|code| - 1].op;
      (last.Div? || last.Mod?) && (last.Div? <==> op == DivOp)
      && last.trapOnError == !asmJS && last.unsigned == unsigned && last.ty == ty
      && ((!unsigned && ty == Int32) <==>
          (exists i, j :: 0 <= i < |code| && 0 <= j < |code| && code[i] == Instr(last.lhs, TruncateToInt32(lhs))
                          && code[j] == Instr(last.rhs, TruncateToInt32(rhs))))
  {
    var code := ArithCode(op, lhs, rhs, ty, unsigned, !asmJS, next);
    if !unsigned && ty == Int32 {
      assert code[0] == Instr(next, TruncateToInt32(lhs)) && code[1] == Instr(next + 1, TruncateToInt32(rhs));
    }
  }

  /**
   * The graph br_if leaves: block `b` pushes `values` and ends in a test
   * with two successor slots, the second the new fall-through block, which
   * is open at loop depth `depth` with nothing pushed.
   */
  lemma BrIfGraph(g: Graph, b: BlockId, depth: nat, values: seq<Def>, condition: Def)
    requires Open(g, b) && g.blocks[b].pushed == []
    ensures var join := |g.blocks|;
      var r := End(Push(NewBlock(g, Some(b), depth), b, values), b, Control(Test(condition), [None, Some(join)], []));
      Extends(g, r) && r.marked == g.marked && Closed(r, b) && SlotCount(r, b) == 2
      && Open(r, join) && r.blocks[join].loopDepth == depth && r.blocks[join].pushed == []
  {
  }

  class FunctionCompiler {
    const env: Env
    /** The definition of the hidden TLS pointer parameter. */
    const tlsPointer: Def
    var graph: Graph
    var curBlock: Option<BlockId>
    var maxStackArgBytes: nat
    var loopDepth: nat
    var blockDepth: nat
    var blockPatches: seq<seq<Patch>>
    /** The number the next new definition gets. */
    var nextDef: Def
    /** The uses redirected by justReplaceAllUsesWith: a discarded phi and its replacement. */
    var replaced: map<Def, Def>

    /**
     * The current block is open and as deep in loops as the compiler is,
     * every pending patch names a successor slot of a closed block, no patch
     * is pending at or beyond the current block depth, and no block is
     * marked between operations.
     */
    ghost predicate Valid()
      reads this
    {
      (curBlock.Some? ==> Open(graph, curBlock.value) && graph.blocks[curBlock.value].loopDepth == loopDepth)
      && AllPatchesOk(graph, blockPatches)
      && PatchesClear(blockPatches, blockDepth)
      && graph.marked == {}
    }

    /** The current block, if any, has no pushed values. */
    ghost predicate Quiet()
      reads this
      requires curBlock.Some? ==> curBlock.value < |graph.blocks|
    {
      curBlock.Some? ==> graph.blocks[curBlock.value].pushed == []
    }

    /**
     * The constructor followed by init(): an entry block holding a parameter
     * for each argument, the TLS pointer parameter, and a zero constant for
     * each further local; the slots hold the locals.
     */
    constructor (env: Env, numArgs: nat, localTypes: seq<MirType>)
      requires numArgs <= |localTypes|
      ensures Valid() && Quiet() && this.env == env
      ensures curBlock == Some(0) && |graph.blocks| == 1 && graph.blocks[0].preds == []
      ensures tlsPointer == numArgs && nextDef == |localTypes| + 1
      ensures |graph.blocks[0].slots| == |localTypes| && |graph.blocks[0].instrs| == |localTypes| + 1
      ensures forall i :: 0 <= i < numArgs ==> graph.blocks[0].slots[i] == i && graph.blocks[0].instrs[i] == Instr(i, Node("parameter", []))
      ensures graph.blocks[0].instrs[numArgs] == Instr(numArgs, Node("tlsPointer", []))
      ensures forall i :: numArgs <= i < |localTypes| ==>
        graph.blocks[0].slots[i] == i + 1 && graph.blocks[0].instrs[i + 1] == Instr(i + 1, Constant(0, localTypes[i]))
      ensures blockDepth == 0 && loopDepth == 0 && maxStackArgBytes == 0 && blockPatches == [] && replaced == map[]
    {
      var instrs: seq<Instr> := [];
      var slots: seq<Def> := [];
      var i := 0;
      while i < numArgs
        invariant i <= numArgs && |instrs| == i && |slots| == i
        invariant forall k :: 0 <= k < i ==> slots[k] == k && instrs[k] == Instr(k, Node("parameter", []))
      {
        instrs := instrs + [Instr(i, Node("parameter", []))];
        slots := slots + [i];
        i := i + 1;
      }
      instrs := instrs + [Instr(numArgs, Node("tlsPointer", []))];
      while i < |localTypes|
        invariant numArgs <= i <= |localTypes| && |instrs| == i + 1 && |slots| == i
        invariant forall k :: 0 <= k < numArgs ==> slots[k] == k && instrs[k] == Instr(k, Node("parameter", []))
        invariant instrs[numArgs] == Instr(numArgs, Node("tlsPointer", []))
        invariant forall k :: numArgs <= k < i ==> slots[k] == k + 1 && instrs[k + 1] == Instr(k + 1, Constant(0, localTypes[k]))
      {
        instrs := instrs + [Instr(i + 1, Constant(0, localTypes[i]))];
        slots := slots + [i + 1];
        i := i + 1;
      }
      this.env := env;
      tlsPointer := numArgs;
      graph := Graph([Block([], instrs, slots, [], [], None, 0)], {});
      curBlock := Some(0);
      maxStackArgBytes := 0;
      loopDepth := 0;
      blockDepth := 0;
      blockPatches := [];
      nextDef := |localTypes| + 1;
      replaced := map[];
    }

    predicate InDeadCode()
      reads this
    {
      curBlock.None?
    }

    /** MBasicBlock::add on the current block of a new definition. */
    method AddIns(op: Opcode) returns (d: Def)
      requires Valid() && curBlock.Some?
      modifies this`graph, this`nextDef
      ensures Valid() && (Quiet() <==> old(Quiet()))
      ensures d == old(nextDef) && nextDef == d + 1
      ensures graph == Add(old(graph), curBlock.value, Instr(d, op))
    {
      d := nextDef;
      graph := Add(graph, curBlock.value, Instr(d, op));
      nextDef := nextDef + 1;
    }

    /**
     * The emitters that add one instruction (constant, unary, binary and
     * the like): nothing in dead code, else one new instruction.
     */
    method Emit(op: Opcode) returns (d: Option<Def>)
      requires Valid()
      modifies this`graph, this`nextDef
      ensures Valid() && (Quiet() <==> old(Quiet()))
      ensures old(curBlock).None? ==> d.None? && graph == old(graph) && nextDef == old(nextDef)
      ensures old(curBlock).Some? ==>
        d == Some(old(nextDef)) && nextDef == old(nextDef) + 1 && graph == Add(old(graph), curBlock.value, Instr(old(nextDef), op))
    {
      if curBlock.None? {
        return None;
      }
      var ins := AddIns(op);
      d := Some(ins);
    }
  
    /** div() and mod(): nothing in dead code, else the instructions ArithCode lists. */
    method DivOrMod(op: ArithOp, lhs: Def, rhs: Def, ty: MirType, unsigned: bool) returns (d: Option<Def>)
      requires Valid()
      modifies this`graph, this`nextDef
      ensures Valid() && (Quiet() <==> old(Quiet()))
      ensures old(curBlock).None? ==> d.None? && graph == old(graph) && nextDef == old(nextDef)
      ensures old(curBlock).Some? ==>
        var code := ArithCode(op, lhs, rhs, ty, unsigned, !env.asmJS, old(nextDef));
        graph == AddAll(old(graph), curBlock.value, code) && nextDef == old(nextDef) + |code| && d.Some? && d.value + 1 == nextDef
    {
      if curBlock.None? {
        return None;
      }
      ghost var g0 := graph;
      ghost var g0Next := nextDef;
      ghost var b := curBlock.value;
      var trapOnError := !env.asmJS;
      var l, r, code := TruncateOperands(lhs, rhs, !unsigned && ty == Int32);
      var ins := AddIns(ArithInstr(op, l, r, ty, unsigned, trapOnError));
      AddAllSnoc(g0, b, code, Instr(ins, ArithInstr(op, l, r, ty, unsigned, trapOnError)));
      ArithCodeParts(op, lhs, rhs, ty, unsigned, trapOnError, g0Next, l, r, code);
      d := Some(ins);
    }

    /** The truncation of both operands to int32 that a signed 32-bit div() or mod() starts with. */
    method TruncateOperands(lhs: Def, rhs: Def, truncate: bool) returns (l: Def, r: Def, ghost code: seq<Instr>)
      requires Valid() && curBlock.Some?
      modifies this`graph, this`nextDef
      ensures Valid() && (Quiet() <==> old(Quiet()))
      ensures truncate ==>
        l == old(nextDef) && r == old(nextDef) + 1 && code == [Instr(l, TruncateToInt32(lhs)), Instr(r, TruncateToInt32(rhs))]
      ensures !truncate ==> l == lhs && r == rhs && code == []
      ensures graph == AddAll(old(graph), curBlock.value, code) && nextDef == old(nextDef) + |code|
    {
      ghost var g0 := graph;
      if truncate {
        l := AddIns(TruncateToInt32(lhs));
        r := AddIns(TruncateToInt32(rhs));
        code := [Instr(l, TruncateToInt32(lhs)), Instr(r, TruncateToInt32(rhs))];
        AddAllPair(g0, curBlock.value, code[0], code[1]);
      } else {
        l, r, code := lhs, rhs, [];
        assert AddAll(g0, curBlock.value, code) == g0;
      }
    }

    /** returnValues: end a live block with a return of the first value, or a void return. */
    method ReturnValues(values: seq<Def>)
      requires Valid()
      modifies this`graph, this`curBlock
      ensures Valid() && curBlock.None?
      ensures old(curBlock).None? ==> graph == old(graph)
      ensures old(curBlock).Some? ==>
        graph == End(old(graph), old(curBlock).value, Control(if values == [] then ReturnVoid else Return(values[0]), [], []))
    {
      if curBlock.None? {
        return;
      }
      var kind := if values == [] then ReturnVoid else Return(values[0]);
      PatchesStayOk(graph, End(graph, curBlock.value, Control(kind, [], [])), blockPatches);
      graph := End(graph, curBlock.value, Control(kind, [], []));
      curBlock := None;
    }

    /** unreachableTrap: end a live block with a trap. */
    method UnreachableTrap()
      requires Valid()
      modifies this`graph, this`curBlock
      ensures Valid() && curBlock.None?
      ensures old(curBlock).None? ==> graph == old(graph)
      ensures old(curBlock).Some? ==> graph == End(old(graph), old(curBlock).value, Control(Trap, [], []))
    {
      if curBlock.None? {
        return;
      }
      PatchesStayOk(graph, End(graph, curBlock.value, Control(Trap, [], [])), blockPatches);
      graph := End(graph, curBlock.value, Control(Trap, [], []));
      curBlock := None;
    }

    /** pushDefs: push onto a live current block, which has nothing pushed yet. */
    method PushDefs(defs: seq<Def>)
      requires curBlock.Some? ==> curBlock.value < |graph.blocks| && graph.blocks[curBlock.value].pushed == []
      modifies this`graph
      ensures old(Valid()) ==> Valid()
      ensures old(curBlock).None? ==> graph == old(graph)
      ensures old(curBlock).Some? ==> graph == Push(old(graph), curBlock.value, defs) && graph.blocks[curBlock.value].pushed == defs
    {
      if curBlock.None? {
        return;
      }
      if Valid() {
        PatchesStayOk(graph, Push(graph, curBlock.value, defs), blockPatches);
      }
      graph := Push(graph, curBlock.value, defs);
    }

    /** popPushedDefs: pop every pushed value of the current block, returning them bottom first. */
    method PopPushedDefs() returns (defs: seq<Def>)
      requires curBlock.Some? && curBlock.value < |graph.blocks|
      modifies this`graph
      ensures defs == old(graph.blocks[curBlock.value].pushed)
      ensures graph == PopAll(old(graph), curBlock.value)
    {
      defs := graph.blocks[curBlock.value].pushed;
      graph := PopAll(graph, curBlock.value);
    }

    /** newBlock: a new block after `pred` at the current loop depth. */
    method NewBlockAfter(pred: Option<BlockId>) returns (b: BlockId)
      requires pred.Some? ==> pred.value < |graph.blocks|
      modifies this`graph
      ensures b == |old(graph.blocks)| && graph == NewBlock(old(graph), pred, loopDepth)
    {
      b := |graph.blocks|;
      graph := NewBlock(graph, pred, loopDepth);
    }

    /** goToNewBlock: a new block after `pred`, which jumps to it. */
    method GoToNewBlock(pred: BlockId) returns (b: BlockId)
      requires Open(graph, pred)
      modifies this`graph
      ensures b == |old(graph.blocks)|
      ensures graph == End(NewBlock(old(graph), Some(pred), loopDepth), pred, Control(Goto, [Some(b)], []))
    {
      b := NewBlockAfter(Some(pred));
      graph := End(graph, pred, Control(Goto, [Some(b)], []));
    }

    /** goToExistingBlock: `prev` jumps to `next`, which gains `prev` as a predecessor. */
    method GoToExistingBlock(prev: BlockId, next: BlockId)
      requires Open(graph, prev) && next < |graph.blocks|
      modifies this`graph
      ensures graph == AddPredecessor(End(old(graph), prev, Control(Goto, [Some(next)], [])), next, prev)
    {
      graph := End(graph, prev, Control(Goto, [Some(next)], []));
      graph := AddPredecessor(graph, next, prev);
    }

    /** startBlock: one block deeper; nothing is pending at the new label. */
    method StartBlock()
      requires Valid()
      modifies this`blockDepth
      ensures Valid() && blockDepth == old(blockDepth) + 1
      ensures NoPatches(blockPatches, old(blockDepth))
    {
      blockDepth := blockDepth + 1;
    }

    /** finishCall: a live call gets the TLS pointer argument and may raise the stack-argument maximum. */
    method FinishCall(call: CallState) returns (r: CallState)
      modifies this`maxStackArgBytes
      ensures curBlock.None? ==> r == call && maxStackArgBytes == old(maxStackArgBytes)
      ensures curBlock.Some? ==>
        r == call.(regArgs := call.regArgs + [CallArg(TlsReg, tlsPointer)])
        && old(maxStackArgBytes) <= maxStackArgBytes && call.stackBytes <= maxStackArgBytes
        && (maxStackArgBytes == old(maxStackArgBytes) || maxStackArgBytes == call.stackBytes)
    {
      if curBlock.None? {
        return call;
      }
      r := call.(regArgs := call.regArgs + [CallArg(TlsReg, tlsPointer)]);
      if call.stackBytes > maxStackArgBytes {
        maxStackArgBytes := call.stackBytes;
      }
    }

    /**
     * finish: at the end of the function body, with both depths back at 0
     * and no current block, every patch list is empty; the result is the
     * stack-argument maximum handed to the generator.
     */
    method Finish() returns (stackArgBytes: nat)
      requires Valid() && loopDepth == 0 && blockDepth == 0 && curBlock.None?
      ensures stackArgBytes == maxStackArgBytes
      ensures forall d :: 0 <= d < |blockPatches| ==> blockPatches[d] == []
    {
      stackArgBytes := maxStackArgBytes;
    }
  
    /**
     * The loop of bindBranches over the patches after the first: each owner
     * not yet marked becomes a predecessor of `join` and is marked, and
     * every patched slot is redirected to `join`.
     */
    method RedirectPatches(ps: seq<Patch>, join: BlockId)
      requires BoundSoFar(graph, graph, ps, join, 1)
      modifies this`graph
      ensures BoundSoFar(old(graph), graph, ps, join, |ps|)
    {
      var i := 1;
      while i < |ps|
        invariant BoundSoFar(old(graph), graph, ps, join, i)
        decreases |ps| - i
      {
        BindStepKeeps(old(graph), graph, ps, join, i);
        var p := ps[i];
        if p.owner !in graph.marked {
          graph := AddPredecessor(graph, join, p.owner);
          graph := Mark(graph, p.owner);
        }
        graph := ReplaceSuccessor(graph, p.owner, p.index, join);
        i := i + 1;
      }
    }

    /** The unmark loop of bindBranches over the predecessors of `join`. */
    method UnmarkPredecessors(join: BlockId)
      requires join < |graph.blocks|
      requires forall b :: b in graph.marked ==> b in graph.blocks[join].preds
      modifies this`graph
      ensures graph == old(graph).(marked := {})
    {
      var preds := graph.blocks[join].preds;
      var i := 0;
      while i < |preds|
        invariant i <= |preds|
        invariant graph == old(graph).(marked := graph.marked)
        invariant forall b :: b in graph.marked ==> b in preds[i..]
      {
        assert preds[i..] == [preds[i]] + preds[i + 1..];
        graph := Unmark(graph, preds[i]);
        i := i + 1;
      }
    }

    /**
     * bindBranches: with no patch pending at `absolute`, no block is made
     * and a live block's pushed values are popped. Otherwise one join block
     * is made whose predecessors are the distinct patch owners in order,
     * then the live fall-through block, which jumps to it; every patched
     * slot targets the join, which becomes the current block, and the
     * patches at `absolute` are cleared.
     */
    method BindBranches(absolute: nat) returns (defs: seq<Def>)
      requires curBlock.Some? ==> Open(graph, curBlock.value) && graph.blocks[curBlock.value].loopDepth == loopDepth
      requires AllPatchesOk(graph, blockPatches) && graph.marked == {}
      requires forall d :: blockDepth <= d < |blockPatches| && d != absolute ==> blockPatches[d] == []
      modifies this`graph, this`curBlock, this`blockPatches
      ensures Valid() && Quiet() && NoPatches(blockPatches, absolute)
      ensures Extends(old(graph), graph) && KeepsOpen(old(graph), graph, old(curBlock))
      ensures SameBlockData(old(graph), graph, old(curBlock))
      ensures NoPatches(old(blockPatches), absolute) ==>
        curBlock == old(curBlock) && blockPatches == old(blockPatches)
        && graph == (if curBlock.Some? then PopAll(old(graph), curBlock.value) else old(graph))
        && defs == (if curBlock.Some? then old(graph.blocks[curBlock.value].pushed) else [])
      ensures !NoPatches(old(blockPatches), absolute) ==>
        var ps := old(blockPatches[absolute]);
        var join := |old(graph.blocks)|;
        |graph.blocks| == join + 1 && curBlock == Some(join)
        && graph.blocks[join].preds == AddDistinct([], Owners(ps)) + (if old(curBlock).Some? then [old(curBlock).value] else [])
        && (forall k :: 0 <= k < |ps| ==> Target(graph, ps[k]) == Some(join))
        && (old(curBlock).Some? ==> graph.blocks[old(curBlock).value].end == Some(Control(Goto, [Some(join)], [])))
        && defs == old(graph.blocks[ps[0].owner].pushed)
        && blockPatches == old(blockPatches)[absolute := []]
    {
      if absolute >= |blockPatches| || blockPatches[absolute] == [] {
        if curBlock.Some? {
          defs := PopPushedDefs();
        } else {
          defs := [];
        }
        return;
      }
      ghost var g0 := graph;
      var ps := blockPatches[absolute];
      defs := BindToJoin(ps);
      PatchesStayOk(g0, graph, blockPatches);
      blockPatches := blockPatches[absolute := []];
    }

    /** The start of bindBranches on patches `ps`: the join block after the first owner, which is marked. */
    method StartJoin(ps: seq<Patch>) returns (join: BlockId)
      requires |ps| > 0 && graph.marked == {} && forall k :: 0 <= k < |ps| ==> PatchOk(graph, ps[k])
      modifies this`graph
      ensures join == |old(graph.blocks)| && BoundSoFar(graph, graph, ps, join, 1)
      ensures graph.blocks[join].loopDepth == loopDepth && graph.blocks[join].pushed == old(graph.blocks[ps[0].owner].pushed)
      ensures Extends(old(graph), graph) && KeepsOpen(old(graph), graph, None) && SameBlockData(old(graph), graph, None)
    {
      ghost var g0 := graph;
      var pred := ps[0].owner;
      join := NewBlockAfter(Some(pred));
      graph := Mark(graph, pred);
      graph := ReplaceSuccessor(graph, pred, ps[0].index, join);
      FirstPatchBound(g0, graph, ps, join, loopDepth);
    }

    /** bindBranches on the nonempty patches `ps`. */
    method BindToJoin(ps: seq<Patch>) returns (defs: seq<Def>)
      requires |ps| > 0 && graph.marked == {} && forall k :: 0 <= k < |ps| ==> PatchOk(graph, ps[k])
      requires curBlock.Some? ==> Open(graph, curBlock.value)
      modifies this`graph, this`curBlock
      ensures var join := |old(graph.blocks)|;
        |graph.blocks| == join + 1 && curBlock == Some(join) && Open(graph, join) && graph.marked == {}
        && graph.blocks[join].loopDepth == loopDepth && graph.blocks[join].pushed == []
        && graph.blocks[join].preds == AddDistinct([], Owners(ps)) + (if old(curBlock).Some? then [old(curBlock).value] else [])
        && (forall k :: 0 <= k < |ps| ==> Target(graph, ps[k]) == Some(join))
        && (old(curBlock).Some? ==> graph.blocks[old(curBlock).value].end == Some(Control(Goto, [Some(join)], [])))
        && defs == old(graph.blocks[ps[0].owner].pushed)
      ensures Extends(old(graph), graph) && KeepsOpen(old(graph), graph, old(curBlock))
      ensures SameBlockData(old(graph), graph, old(curBlock))
    {
      ghost var g0 := graph;
      var join := StartJoin(ps);
      ghost var g1 := graph;
      RedirectPatches(ps, join);
      assert ps[..|ps|] == ps;
      ghost var g2 := graph;
      assert SameBlockData(g0, g2, None);
      defs := EnterJoin(ps, join);
      forall b: BlockId | b < |g0.blocks| && Some(b) != old(curBlock)
        ensures graph.blocks[b].(end := None) == g0.blocks[b].(end := None)
      {
        assert g2.blocks[b].(end := None) == g0.blocks[b].(end := None);
      }
    }

    /**
     * The end of bindBranches once every patch targets `join`: unmark the
     * predecessors, let a live block jump to the join, make the join current
     * and pop its pushed values.
     */
    method EnterJoin(ghost ps: seq<Patch>, join: BlockId) returns (defs: seq<Def>)
      requires join + 1 == |graph.blocks| && Open(graph, join)
      requires forall b :: b in graph.marked <==> b in graph.blocks[join].preds
      requires forall k :: 0 <= k < |ps| ==> PatchOk(graph, ps[k])
      requires curBlock.Some? ==> Open(graph, curBlock.value) && curBlock.value != join
      modifies this`graph, this`curBlock
      ensures |graph.blocks| == join + 1 && curBlock == Some(join) && Open(graph, join) && graph.marked == {}
      ensures graph.blocks[join] == old(graph.blocks[join]).(preds := graph.blocks[join].preds, pushed := [])
      ensures graph.blocks[join].preds == old(graph.blocks[join].preds) + (if old(curBlock).Some? then [old(curBlock).value] else [])
      ensures forall k :: 0 <= k < |ps| ==> Target(graph, ps[k]) == old(Target(graph, ps[k]))
      ensures old(curBlock).Some? ==> graph.blocks[old(curBlock).value].end == Some(Control(Goto, [Some(join)], []))
      ensures defs == old(graph.blocks[join].pushed)
      ensures Extends(old(graph), graph) && KeepsOpen(old(graph), graph, old(curBlock))
      ensures forall b: BlockId :: b < join && Some(b) != old(curBlock) ==> graph.blocks[b].(end := None) == old(graph.blocks[b]).(end := None)
    {
      UnmarkPredecessors(join);
      if curBlock.Some? {
        GoToExistingBlock(curBlock.value, join);
      }
      curBlock := Some(join);
      defs := PopPushedDefs();
    }

    /** finishBlock: one block shallower, binding the branches to the label just left. */
    method FinishBlock() returns (defs: seq<Def>)
      requires Valid() && blockDepth > 0
      modifies this`graph, this`curBlock, this`blockDepth, this`blockPatches
      ensures Valid() && Quiet() && blockDepth == old(blockDepth) - 1
      ensures Extends(old(graph), graph) && KeepsOpen(old(graph), graph, old(curBlock))
      ensures SameBlockData(old(graph), graph, old(curBlock))
      ensures curBlock == JoinedBlock(old(graph), old(blockPatches), blockDepth, old(curBlock))
      ensures defs == JoinedValues(old(graph), old(blockPatches), blockDepth, old(curBlock))
      ensures NoPatches(old(blockPatches), blockDepth) ==> |graph.blocks| == |old(graph.blocks)|
      ensures !NoPatches(old(blockPatches), blockDepth) ==>
        |graph.blocks| == |old(graph.blocks)| + 1
        && graph.blocks[curBlock.value].preds
           == AddDistinct([], Owners(old(blockPatches)[blockDepth])) + (if old(curBlock).Some? then [old(curBlock).value] else [])
    {
      blockDepth := blockDepth - 1;
      defs := BindBranches(blockDepth);
    }
  
    /** addControlFlowPatch: file slot `index` of the block `owner`'s control instruction under absolute depth blockDepth - 1 - relative. */
    method AddControlFlowPatch(owner: BlockId, relative: nat, index: nat)
      requires relative < blockDepth
      modifies this`blockPatches
      ensures blockPatches == FilePatch(old(blockPatches), blockDepth - 1 - relative, Patch(owner, index))
    {
      var absolute := blockDepth - 1 - relative;
      blockPatches := FilePatch(blockPatches, absolute, Patch(owner, index));
    }

    /** br: a live block pushes the values and ends with a jump whose target is pending at the label. */
    method Br(relative: nat, values: seq<Def>)
      requires Valid() && Quiet() && (curBlock.Some? ==> relative < blockDepth)
      modifies this`graph, this`curBlock, this`blockPatches
      ensures Valid() && curBlock.None?
      ensures old(curBlock).None? ==> graph == old(graph) && blockPatches == old(blockPatches)
      ensures old(curBlock).Some? ==>
        graph == End(Push(old(graph), old(curBlock).value, values), old(curBlock).value, Control(Goto, [None], []))
        && blockPatches == FilePatch(old(blockPatches), blockDepth - 1 - relative, Patch(old(curBlock).value, 0))
    {
      if curBlock.None? {
        return;
      }
      var b := curBlock.value;
      AddControlFlowPatch(b, relative, 0);
      PushDefs(values);
      graph := End(graph, b, Control(Goto, [None], []));
      curBlock := None;
      PatchesStayOk(old(graph), graph, old(blockPatches));
      FilePatchKeeps(graph, old(blockPatches), blockDepth - 1 - relative, Patch(b, 0), blockDepth);
    }

    /**
     * br_if: a live block gets a fall-through block, pushes the values, and
     * ends with a test whose false branch is the fall-through and whose true
     * branch is pending at the label; the fall-through becomes current.
     */
    method BrIf(relative: nat, values: seq<Def>, condition: Def)
      requires Valid() && Quiet() && (curBlock.Some? ==> relative < blockDepth)
      modifies this`graph, this`curBlock, this`blockPatches
      ensures Valid() && Quiet()
      ensures old(curBlock).None? ==> graph == old(graph) && blockPatches == old(blockPatches) && curBlock.None?
      ensures old(curBlock).Some? ==>
        var join := |old(graph.blocks)|;
        curBlock == Some(join)
        && graph == End(Push(NewBlock(old(graph), old(curBlock), loopDepth), old(curBlock).value, values),
                        old(curBlock).value, Control(Test(condition), [None, Some(join)], []))
        && blockPatches == FilePatch(old(blockPatches), blockDepth - 1 - relative, Patch(old(curBlock).value, 0))
    {
      if curBlock.None? {
        return;
      }
      var b := curBlock.value;
      var join := |graph.blocks|;
      BrIfGraph(graph, b, loopDepth, values, condition);
      graph := End(Push(NewBlock(graph, curBlock, loopDepth), b, values), b, Control(Test(condition), [None, Some(join)], []));
      AddControlFlowPatch(b, relative, 0);
      curBlock := Some(join);
      PatchesStayOk(old(graph), graph, old(blockPatches));
      FilePatchKeeps(graph, old(blockPatches), blockDepth - 1 - relative, Patch(b, 0), blockDepth);
    }
  
    /**
     * brTable: a live block pushes the values and ends with a table switch
     * whose successor slots are all pending at their labels.
     */
    method BrTable(operand: Def, defaultDepth: nat, depths: seq<nat>, values: seq<Def>)
      requires Valid() && Quiet()
      requires curBlock.Some? ==> defaultDepth < blockDepth && forall i :: 0 <= i < |depths| ==> depths[i] < blockDepth
      modifies this`graph, this`curBlock, this`blockPatches
      ensures Valid() && curBlock.None?
      ensures old(curBlock).None? ==> graph == old(graph) && blockPatches == old(blockPatches)
      ensures old(curBlock).Some? ==>
        var b := old(curBlock).value;
        graph == End(Push(old(graph), b, values), b, TableControl(operand, defaultDepth, depths))
        && blockPatches == TablePatches(old(blockPatches), b, defaultDepth, depths, blockDepth)
    {
      if curBlock.None? {
        return;
      }
      var b := curBlock.value;
      var patches, numSuccessors, cases := FileTable(blockPatches, b, defaultDepth, depths, blockDepth);
      CasesAreSlots(operand, defaultDepth, depths, cases);
      var table := Control(TableSwitch(operand), seq(numSuccessors, _ => None), cases);
      blockPatches := patches;
      PushDefs(values);
      graph := End(graph, b, table);
      curBlock := None;
      BrTableSlots(defaultDepth, depths);
      TableDepthsBelow(defaultDepth, depths, blockDepth);
      var td := TableDepths(defaultDepth, depths);
      PatchesStayOk(old(graph), graph, old(blockPatches));
      FileAllKeeps(graph, old(blockPatches), b, td, blockDepth);
    }

    /**
     * EmitBrTable: a table whose cases all go to the default depth (or
     * which has no cases) is a plain br to the default; any other becomes
     * a table switch, which then has at least two successors.
     */
    method EmitBrTable(operand: Def, defaultDepth: nat, depths: seq<nat>, values: seq<Def>)
      requires Valid() && Quiet()
      requires curBlock.Some? ==> defaultDepth < blockDepth && forall i :: 0 <= i < |depths| ==> depths[i] < blockDepth
      modifies this`graph, this`curBlock, this`blockPatches
      ensures Valid() && curBlock.None?
      ensures old(curBlock).None? ==> graph == old(graph) && blockPatches == old(blockPatches)
      ensures old(curBlock).Some? && |TableDepths(defaultDepth, depths)| >= 2 ==>
        var b := old(curBlock).value;
        graph == End(Push(old(graph), b, values), b, TableControl(operand, defaultDepth, depths))
        && blockPatches == TablePatches(old(blockPatches), b, defaultDepth, depths, blockDepth)
      ensures old(curBlock).Some? && |TableDepths(defaultDepth, depths)| < 2 ==>
        var b := old(curBlock).value;
        graph == End(Push(old(graph), b, values), b, Control(Goto, [None], []))
        && blockPatches == FilePatch(old(blockPatches), blockDepth - 1 - defaultDepth, Patch(b, 0))
    {
      var allSameDepth := AllSameDepth(defaultDepth, depths);
      if allSameDepth {
        Br(defaultDepth, values);
      } else {
        BrTable(operand, defaultDepth, depths, values);
      }
    }
  
    /**
     * startLoop: one block and one loop deeper. A live block gets a loop
     * header with a phi per loop parameter, jumps to it, and the header
     * jumps to a new body block, which becomes current; the loop
     * parameters become the phis.
     */
    method StartLoop(params: seq<Def>) returns (header: Option<BlockId>, loopParams: seq<Def>)
      requires Valid() && Quiet()
      modifies this`graph, this`curBlock, this`blockDepth, this`loopDepth, this`nextDef
      ensures Valid() && Quiet()
      ensures blockDepth == old(blockDepth) + 1 && loopDepth == old(loopDepth) + 1
      ensures old(curBlock).None? ==>
        header.None? && loopParams == params && graph == old(graph) && curBlock.None? && nextDef == old(nextDef)
      ensures old(curBlock).Some? ==>
        var h := |old(graph.blocks)|;
        header == Some(h) && curBlock == Some(h + 1) && nextDef == old(nextDef) + |params|
        && |loopParams| == |params| && (forall i :: 0 <= i < |params| ==> loopParams[i] == old(nextDef) + i)
        && graph == LoopEntered(old(graph), old(curBlock).value, LoopPhis(params, old(nextDef)), loopDepth)
    {
      blockDepth := blockDepth + 1;
      loopDepth := loopDepth + 1;
      if curBlock.None? {
        return None, params;
      }
      var pre := curBlock.value;
      var h := NewBlockAfter(curBlock);
      header := Some(h);
      graph := End(graph, pre, Control(Goto, [Some(h)], []));
      var phis;
      phis, loopParams := MakeLoopPhis(params);
      graph := SetPhis(graph, h, [pre], phis);
      var body := GoToNewBlock(h);
      curBlock := Some(body);
      PatchesStayOk(old(graph), graph, blockPatches);
    }
  
    /** The phi loop of startLoop: a new phi for each loop parameter, which the phi then stands for. */
    method MakeLoopPhis(params: seq<Def>) returns (phis: seq<Phi>, loopParams: seq<Def>)
      modifies this`nextDef
      ensures phis == LoopPhis(params, old(nextDef)) && nextDef == old(nextDef) + |params|
      ensures |loopParams| == |params| && forall i :: 0 <= i < |params| ==> loopParams[i] == phis[i].def
    {
      phis := [];
      loopParams := params;
      for i := 0 to |params|
        invariant nextDef == old(nextDef) + i && |loopParams| == |params|
        invariant phis == LoopPhis(params[..i], old(nextDef))
        invariant forall j :: 0 <= j < i ==> loopParams[j] == old(nextDef) + j
      {
        var phi := Phi(nextDef, [params[i]], 2, false);
        phis := phis + [phi];
        loopParams := loopParams[i := nextDef];
        nextDef := nextDef + 1;
        assert params[..i + 1] == params[..i] + [params[i]];
      }
      assert params[..|params|] == params;
    }
  
    /** fixupRedundantPhis: every replaced definition in block `b`'s slots and pushed values becomes its replacement. */
    method FixupRedundantPhis(b: BlockId, red: map<Def, Def>)
      requires b < |graph.blocks|
      modifies this`graph
      ensures graph == SetSlots(old(graph), b, Fix(old(graph).blocks[b].slots, red), Fix(old(graph).blocks[b].pushed, red))
    {
      var slots := FixStack(graph.blocks[b].slots, red);
      var pushed := FixStack(graph.blocks[b].pushed, red);
      graph := SetSlots(graph, b, slots, pushed);
    }

    /**
     * The fixup loop of setLoopBackedge: every pending patch owner at least
     * `depth` loops deep has its slots fixed.
     */
    method FixupPending(depth: nat, red: map<Def, Def>)
      requires Settled(red) && AllPatchesOk(graph, blockPatches)
      modifies this`graph
      ensures graph == FixupBlocks(old(graph), Pending(LoopDepths(old(graph)), blockPatches, depth), red)
    {
      ghost var g0 := graph;
      assert blockPatches[..0] == [];
      for d := 0 to |blockPatches|
        invariant graph == FixupBlocks(g0, Pending(LoopDepths(g0), blockPatches[..d], depth), red)
      {
        FixupPatchList(blockPatches[d], depth, red, g0, Pending(LoopDepths(g0), blockPatches[..d], depth));
        assert blockPatches[..d + 1][..d] == blockPatches[..d];
      }
      assert blockPatches[..|blockPatches|] == blockPatches;
    }

    /** The inner fixup loop, over the patches pending at one depth. */
    method FixupPatchList(patches: seq<Patch>, depth: nat, red: map<Def, Def>, ghost g0: Graph, ghost done: set<BlockId>)
      requires Settled(red) && graph == FixupBlocks(g0, done, red)
      requires forall k :: 0 <= k < |patches| ==> patches[k].owner < |g0.blocks|
      modifies this`graph
      ensures graph == FixupBlocks(g0, done + PendingIn(LoopDepths(g0), patches, depth), red)
    {
      ghost var ld := LoopDepths(g0);
      ghost var fixed := done;
      assert patches[..0] == [] && done + PendingIn(ld, [], depth) == done;
      for k := 0 to |patches|
        invariant fixed == done + PendingIn(ld, patches[..k], depth)
        invariant graph == FixupBlocks(g0, fixed, red)
      {
        var b := patches[k].owner;
        PendingInStep(ld, patches, k, depth);
        FixupPatch(b, depth, red, g0, fixed);
        fixed := fixed + (if ld[b] >= depth then {b} else {});
      }
      assert patches[..|patches|] == patches;
    }

    /** One turn of the inner fixup loop: the patch's owner has its slots fixed if it is at least `depth` loops deep. */
    method FixupPatch(b: BlockId, depth: nat, red: map<Def, Def>, ghost g0: Graph, ghost done: set<BlockId>)
      requires Settled(red) && graph == FixupBlocks(g0, done, red) && b < |g0.blocks|
      modifies this`graph
      ensures graph == FixupBlocks(g0, done + (if LoopDepths(g0)[b] >= depth then {b} else {}), red)
    {
      assert graph.blocks[b].loopDepth == LoopDepths(graph)[b] == LoopDepths(g0)[b];
      if graph.blocks[b].loopDepth >= depth {
        FixupOneMore(g0, done, red, b);
        FixupRedundantPhis(b, red);
      } else {
        assert done + {} == done;
      }
    }

    /**
     * setBackedgeWasm and the flagging loop: the backedge becomes the
     * header's last predecessor, each phi gets the backedge's pushed value
     * as its second operand, and a phi whose two operands agree is flagged
     * unused.
     */
    method AddBackedge(entry: BlockId, backedge: BlockId) returns (phis: seq<Phi>)
      requires entry < |graph.blocks| && backedge < |graph.blocks|
      requires |graph.blocks[entry].phis| == |graph.blocks[backedge].pushed|
      modifies this`graph
      ensures phis == MarkedPhis(old(graph), entry, backedge)
      ensures graph == SetPhis(old(graph), entry, old(graph).blocks[entry].preds + [backedge], phis)
    {
      var withBackedge := WithBackedge(graph.blocks[entry].phis, graph.blocks[backedge].pushed);
      phis := withBackedge;
      for i := 0 to |phis|
        invariant |phis| == |withBackedge|
        invariant forall j :: 0 <= j < i ==> phis[j] == MarkIfRedundant(withBackedge[j])
        invariant forall j :: i <= j < |phis| ==> phis[j] == withBackedge[j]
      {
        if |phis[i].operands| >= 2 && phis[i].operands[0] == phis[i].operands[1] {
          phis := phis[i := phis[i].(unused := true)];
        }
      }
      graph := SetPhis(graph, entry, graph.blocks[entry].preds + [backedge], phis);
    }

    /**
     * The discard loop of setLoopBackedge: the header keeps its phis not
     * flagged unused, and each flagged phi's uses go to its entry value.
     */
    method DiscardRedundantPhis(entry: BlockId, phis: seq<Phi>)
      requires entry < |graph.blocks| && forall i :: 0 <= i < |phis| ==> |phis[i].operands| >= 1
      modifies this`graph, this`replaced
      ensures graph == SetPhis(old(graph), entry, old(graph).blocks[entry].preds, Kept(phis))
      ensures replaced == old(replaced) + Replacements(phis)
    {
      var kept: seq<Phi> := [];
      var uses: map<Def, Def> := map[];
      assert phis[..0] == [];
      for i := 0 to |phis|
        invariant kept == Kept(phis[..i]) && uses == Replacements(phis[..i])
      {
        assert phis[..i + 1][..i] == phis[..i];
        if phis[i].unused {
          uses := uses + map[phis[i].def := phis[i].operands[0]];
        } else {
          kept := kept + [phis[i]];
        }
      }
      assert phis[..|phis|] == phis;
      replaced := replaced + uses;
      graph := SetPhis(graph, entry, graph.blocks[entry].preds, kept);
    }

    /**
     * setLoopBackedge: add the backedge, flag and drop the redundant phis,
     * and fix the slots of the pending blocks inside the loop and of the
     * loop body.
     */
    method SetLoopBackedge(entry: BlockId, loopBody: Option<BlockId>, backedge: BlockId)
      requires entry < |graph.blocks| && backedge < |graph.blocks| && (loopBody.Some? ==> loopBody.value < |graph.blocks|)
      requires |graph.blocks[entry].phis| == |graph.blocks[backedge].pushed|
      requires DistinctDefs(graph.blocks[entry].phis) && Defs(graph.blocks[entry].phis) !! Firsts(graph.blocks[entry].phis)
      requires forall i :: 0 <= i < |graph.blocks[entry].phis| ==> |graph.blocks[entry].phis[i].operands| == 1
      requires AllPatchesOk(graph, blockPatches)
      modifies this`graph, this`replaced
      ensures graph == BackedgeSet(old(graph), entry, loopBody, backedge, blockPatches)
      ensures replaced == old(replaced) + Replacements(MarkedPhis(old(graph), entry, backedge))
    {
      ghost var g0 := graph;
      ghost var preds := graph.blocks[entry].preds + [backedge];
      var depth := graph.blocks[entry].loopDepth;
      ghost var r0 := replaced;
      var phis := AddBackedge(entry, backedge);
      ghost var m := MarkedPhis(g0, entry, backedge);
      assert phis == m;
      var red := Replacements(phis);
      BackedgeKeepsDefs(g0.blocks[entry].phis, g0.blocks[backedge].pushed);
      ReplacementsSettled(phis);
      assert LoopDepths(graph) == LoopDepths(g0);
      PatchesStayOk(g0, graph, blockPatches);
      FixupLoop(depth, loopBody, red);
      ghost var targets := Pending(LoopDepths(g0), blockPatches, depth) + (if loopBody.Some? then {loopBody.value} else {});
      assert replaced == r0;
      DiscardRedundantPhis(entry, phis);
      assert replaced == r0 + Replacements(m);
      FixupAfterSetPhis(g0, entry, preds, phis, Kept(phis), targets, red);
    }
  
    /** The two fixup steps of setLoopBackedge: the pending blocks inside the loop, then the loop body. */
    method FixupLoop(depth: nat, loopBody: Option<BlockId>, red: map<Def, Def>)
      requires Settled(red) && AllPatchesOk(graph, blockPatches) && (loopBody.Some? ==> loopBody.value < |graph.blocks|)
      modifies this`graph
      ensures graph == FixupBlocks(old(graph),
        Pending(LoopDepths(old(graph)), blockPatches, depth) + (if loopBody.Some? then {loopBody.value} else {}), red)
    {
      ghost var pending := Pending(LoopDepths(graph), blockPatches, depth);
      FixupPending(depth, red);
      if loopBody.Some? {
        FixupOneMore(old(graph), pending, red, loopBody.value);
        FixupRedundantPhis(loopBody.value, red);
      } else {
        assert pending + {} == pending;
      }
    }
  
    /**
     * The middle of closeLoop, from setting the loop body aside to making
     * it current again: with no branch back to the header's label nothing
     * changes. Otherwise the branches are bound to a new backedge block,
     * which pushes their values, jumps to the header and becomes the
     * header's backedge.
     */
    method BindBackedge(header: BlockId, loopBody: Option<BlockId>)
      requires Valid() && curBlock.None? && blockDepth >= 1
      requires LoopHeader(graph, header, loopDepth, blockPatches, blockDepth - 1)
      requires loopBody.Some? ==> Open(graph, loopBody.value) && graph.blocks[loopBody.value].loopDepth == loopDepth
      modifies this`graph, this`curBlock, this`blockPatches, this`replaced
      ensures Valid() && curBlock == loopBody && NoPatches(blockPatches, blockDepth - 1) && Extends(old(graph), graph)
      ensures NoPatches(old(blockPatches), blockDepth - 1) ==> graph == old(graph) && replaced == old(replaced)
      ensures !NoPatches(old(blockPatches), blockDepth - 1) ==>
        var backedge := |old(graph.blocks)|;
        var m := BackedgePhis(old(graph), header, old(blockPatches), blockDepth - 1);
        |graph.blocks| == backedge + 1
        && graph.blocks[header].preds == old(graph.blocks[header].preds) + [backedge]
        && graph.blocks[header].phis == Kept(m)
        && replaced == old(replaced) + Replacements(m)
        && (loopBody.Some? ==>
              graph.blocks[loopBody.value].pushed == Fix(old(graph.blocks[loopBody.value].pushed), Replacements(m)))
    {
      var backedgeValues := BindLoopBranches(header, loopBody);
      if curBlock.None? {
        curBlock := loopBody;
        return;
      }
      ghost var g1 := graph;
      ghost var m := BackedgePhis(old(graph), header, old(blockPatches), blockDepth - 1);
      assert !NoPatches(old(blockPatches), blockDepth - 1) && m == MarkRedundant(WithBackedge(g1.blocks[header].phis, backedgeValues));
      EndBackedge(header, loopBody, backedgeValues);
      curBlock := loopBody;
    }

    /**
     * bindBranches on the loop header's label, with the loop body set
     * aside: the header and the loop body keep their phis, predecessors and
     * pushed values, and a backedge block is made exactly when a branch
     * targets the label.
     */
    method BindLoopBranches(header: BlockId, loopBody: Option<BlockId>) returns (values: seq<Def>)
      requires Valid() && curBlock.None? && blockDepth >= 1
      requires LoopHeader(graph, header, loopDepth, blockPatches, blockDepth - 1)
      requires loopBody.Some? ==> Open(graph, loopBody.value) && graph.blocks[loopBody.value].loopDepth == loopDepth
      modifies this`graph, this`curBlock, this`blockPatches
      ensures Valid() && Quiet() && NoPatches(blockPatches, blockDepth - 1) && Extends(old(graph), graph)
      ensures curBlock.Some? <==> !NoPatches(old(blockPatches), blockDepth - 1)
      ensures curBlock.None? ==> graph == old(graph) && blockPatches == old(blockPatches)
      ensures curBlock.Some? ==>
        curBlock.value == |old(graph.blocks)| && |graph.blocks| == curBlock.value + 1
        && blockPatches == old(blockPatches)[blockDepth - 1 := []]
        && values == old(graph.blocks[blockPatches[blockDepth - 1][0].owner].pushed)
        && Closed(graph, header)
        && graph.blocks[header].phis == old(graph.blocks[header].phis)
        && graph.blocks[header].preds == old(graph.blocks[header].preds)
        && |graph.blocks[header].phis| == |values|
        && MarkRedundant(WithBackedge(graph.blocks[header].phis, values))
           == BackedgePhis(old(graph), header, old(blockPatches), blockDepth - 1)
        && (loopBody.Some? ==>
              loopBody.value < curBlock.value && Open(graph, loopBody.value)
              && graph.blocks[loopBody.value].loopDepth == loopDepth
              && graph.blocks[loopBody.value].pushed == old(graph.blocks[loopBody.value].pushed))
    {
      ghost var g0 := graph;
      values := BindBranches(blockDepth - 1);
      if curBlock.Some? {
        assert graph.blocks[header].(end := None) == g0.blocks[header].(end := None);
        assert loopBody.Some? ==> graph.blocks[loopBody.value].(end := None) == g0.blocks[loopBody.value].(end := None);
      }
    }

    /**
     * The end of the loop on the backedge block bindBranches made: it
     * pushes the backedge values, jumps to the header, and setLoopBackedge
     * makes it the header's backedge.
     */
    method EndBackedge(header: BlockId, loopBody: Option<BlockId>, values: seq<Def>)
      requires Valid() && Quiet() && curBlock.Some? && Closed(graph, header) && |graph.blocks[header].phis| == |values|
      requires DistinctDefs(graph.blocks[header].phis) && Defs(graph.blocks[header].phis) !! Firsts(graph.blocks[header].phis)
      requires forall i :: 0 <= i < |graph.blocks[header].phis| ==> |graph.blocks[header].phis[i].operands| == 1
      requires loopBody.Some? ==> Open(graph, loopBody.value) && loopBody.value != curBlock.value
      modifies this`graph, this`replaced
      ensures var m := MarkRedundant(WithBackedge(old(graph.blocks[header].phis), values));
        |graph.blocks| == |old(graph.blocks)| && Extends(old(graph), graph) && graph.marked == old(graph.marked)
        && AllPatchesOk(graph, blockPatches)
        && graph.blocks[curBlock.value].end == Some(Control(Goto, [Some(header)], []))
        && graph.blocks[header].preds == old(graph.blocks[header].preds) + [curBlock.value]
        && graph.blocks[header].phis == Kept(m) && replaced == old(replaced) + Replacements(m)
        && (loopBody.Some? ==>
              Open(graph, loopBody.value) && graph.blocks[loopBody.value].loopDepth == old(graph.blocks[loopBody.value].loopDepth)
              && graph.blocks[loopBody.value].pushed == Fix(old(graph.blocks[loopBody.value].pushed), Replacements(m)))
    {
      var backedge := curBlock.value;
      ghost var g0 := graph;
      PushDefs(values);
      graph := End(graph, backedge, Control(Goto, [Some(header)], []));
      ghost var g1 := graph;
      assert g1.blocks[header] == g0.blocks[header] && g1.blocks[backedge].pushed == values;
      PatchesStayOk(g0, g1, blockPatches);
      SetLoopBackedge(header, loopBody, backedge);
      PatchesStayOk(g1, graph, blockPatches);
      BackedgeEndedFacts(g0, header, loopBody, backedge, values, blockPatches);
    }

    /**
     * closeLoop: one block and one loop shallower. Without a header (the
     * loop began in dead code) nothing else changes. Otherwise the branches
     * back to the loop become its single backedge, the loop body (if live)
     * goes on in a new block at the outer loop depth, and its pushed values,
     * with dropped phis replaced, are the loop's results.
     */
    method CloseLoop(header: Option<BlockId>) returns (results: seq<Def>)
      requires Valid() && blockDepth >= 1 && loopDepth >= 1
      requires header.None? ==> curBlock.None? && NoPatches(blockPatches, blockDepth - 1)
      requires header.Some? ==> LoopHeader(graph, header.value, loopDepth, blockPatches, blockDepth - 1)
      modifies this`graph, this`curBlock, this`blockDepth, this`loopDepth, this`blockPatches, this`replaced
      ensures Valid() && Quiet() && Extends(old(graph), graph)
      ensures blockDepth == old(blockDepth) - 1 && loopDepth == old(loopDepth) - 1
      ensures header.None? ==>
        graph == old(graph) && curBlock.None? && results == [] && blockPatches == old(blockPatches) && replaced == old(replaced)
      ensures header.Some? && NoPatches(old(blockPatches), old(blockDepth) - 1) ==> replaced == old(replaced)
      ensures header.Some? && !NoPatches(old(blockPatches), old(blockDepth) - 1) ==>
        graph.blocks[header.value].preds == old(graph.blocks[header.value].preds) + [|old(graph.blocks)|]
        && graph.blocks[header.value].phis == Kept(BackedgePhis(old(graph), header.value, old(blockPatches), old(blockDepth) - 1))
        && replaced == old(replaced) + Replacements(BackedgePhis(old(graph), header.value, old(blockPatches), old(blockDepth) - 1))
        && (old(curBlock).Some? ==>
              results == Fix(old(graph.blocks[curBlock.value].pushed), Replacements(BackedgePhis(old(graph), header.value, old(blockPatches), old(blockDepth) - 1))))
      ensures header.Some? && NoPatches(old(blockPatches), old(blockDepth) - 1) && old(curBlock).Some? ==>
        results == old(graph.blocks[curBlock.value].pushed)
      ensures old(curBlock).None? ==> curBlock.None? && results == []
      ensures old(curBlock).Some? ==> curBlock.Some?
    {
      if header.None? {
        blockDepth := blockDepth - 1;
        loopDepth := loopDepth - 1;
        return [];
      }
      results := CloseLoopAt(header.value);
    }

    /** closeLoop for a loop that has a header: bind the backedge, then leave the loop. */
    method CloseLoopAt(header: BlockId) returns (results: seq<Def>)
      requires Valid() && blockDepth >= 1 && loopDepth >= 1
      requires LoopHeader(graph, header, loopDepth, blockPatches, blockDepth - 1)
      modifies this`graph, this`curBlock, this`blockDepth, this`loopDepth, this`blockPatches, this`replaced
      ensures Valid() && Quiet() && Extends(old(graph), graph)
      ensures blockDepth == old(blockDepth) - 1 && loopDepth == old(loopDepth) - 1
      ensures NoPatches(old(blockPatches), old(blockDepth) - 1) ==> replaced == old(replaced)
      ensures !NoPatches(old(blockPatches), old(blockDepth) - 1) ==>
        graph.blocks[header].preds == old(graph.blocks[header].preds) + [|old(graph.blocks)|]
        && graph.blocks[header].phis == Kept(BackedgePhis(old(graph), header, old(blockPatches), old(blockDepth) - 1))
        && replaced == old(replaced) + Replacements(BackedgePhis(old(graph), header, old(blockPatches), old(blockDepth) - 1))
        && (old(curBlock).Some? ==>
              results == Fix(old(graph.blocks[curBlock.value].pushed), Replacements(BackedgePhis(old(graph), header, old(blockPatches), old(blockDepth) - 1))))
      ensures NoPatches(old(blockPatches), old(blockDepth) - 1) && old(curBlock).Some? ==>
        results == old(graph.blocks[curBlock.value].pushed)
      ensures old(curBlock).None? ==> curBlock.None? && results == []
      ensures old(curBlock).Some? ==> curBlock.Some?
    {
      ghost var bound := !NoPatches(blockPatches, blockDepth - 1);
      ghost var m := if bound then BackedgePhis(graph, header, blockPatches, blockDepth - 1) else [];
      var loopBody := curBlock;
      curBlock := None;
      BindBackedge(header, loopBody);
      ghost var g1, r1 := graph, replaced;
      assert bound ==> r1 == old(replaced) + Replacements(m);
      results := LeaveLoop(header);
      assert graph.blocks[header].preds == g1.blocks[header].preds && graph.blocks[header].phis == g1.blocks[header].phis;
      assert loopBody.Some? ==> results == g1.blocks[loopBody.value].pushed;
    }

    /**
     * The end of closeLoop once the backedge is bound: leave the loop, moving
     * to a new block when the loop depth changes, and pop the loop's results.
     */
    method LeaveLoop(ghost header: BlockId) returns (results: seq<Def>)
      requires Valid() && blockDepth >= 1 && loopDepth >= 1 && NoPatches(blockPatches, blockDepth - 1)
      requires Closed(graph, header)
      modifies this`graph, this`curBlock, this`blockDepth, this`loopDepth
      ensures Valid() && Quiet() && Extends(old(graph), graph)
      ensures blockDepth == old(blockDepth) - 1 && loopDepth == old(loopDepth) - 1
      ensures graph.blocks[header].preds == old(graph.blocks[header].preds)
      ensures graph.blocks[header].phis == old(graph.blocks[header].phis)
      ensures old(curBlock).None? ==> curBlock.None? && results == [] && graph == old(graph)
      ensures old(curBlock).Some? ==> curBlock.Some? && results == old(graph.blocks[curBlock.value].pushed)
      ensures old(curBlock).Some? ==>
        curBlock.value == |old(graph.blocks)| && graph.blocks[curBlock.value].preds == [old(curBlock).value]
        && graph.blocks[old(curBlock).value].end == Some(Control(Goto, [curBlock], []))
    {
      loopDepth := loopDepth - 1;
      if curBlock.Some? && graph.blocks[curBlock.value].loopDepth != loopDepth {
        var out := GoToNewBlock(curBlock.value);
        curBlock := Some(out);
      }
      PatchesStayOk(old(graph), graph, blockPatches);
      blockDepth := blockDepth - 1;
      if curBlock.Some? {
        results := PopPushedDefs();
        PatchesStayOk(old(graph), graph, blockPatches);
      } else {
        results := [];
      }
    }

    /**
     * branchAndStartThen: a live block ends in a test whose true branch is a
     * new then block, which becomes current, and whose false branch is a new
     * else block, which is returned; either way one block deeper.
     */
    method BranchAndStartThen(cond: Def) returns (elseBlock: Option<BlockId>)
      requires Valid()
      modifies this`graph, this`curBlock, this`blockDepth
      ensures Valid() && blockDepth == old(blockDepth) + 1 && NoPatches(blockPatches, old(blockDepth))
      ensures old(curBlock).None? ==> elseBlock.None? && curBlock.None? && graph == old(graph)
      ensures old(curBlock).Some? ==>
        curBlock == Some(|old(graph.blocks)|) && elseBlock == Some(|old(graph.blocks)| + 1)
        && graph == End(NewBlock(NewBlock(old(graph), old(curBlock), loopDepth), old(curBlock), loopDepth),
                        old(curBlock).value, Control(Test(cond), [curBlock, elseBlock], []))
      ensures old(curBlock).Some? ==>
        Open(graph, elseBlock.value) && graph.blocks[elseBlock.value].loopDepth == loopDepth
        && graph.blocks[curBlock.value].preds == [old(curBlock).value]
        && graph.blocks[elseBlock.value].preds == [old(curBlock).value]
    {
      if curBlock.None? {
        elseBlock := None;
      } else {
        var b := curBlock.value;
        var thenBlock := NewBlockAfter(curBlock);
        var e := NewBlockAfter(Some(b));
        graph := End(graph, b, Control(Test(cond), [Some(thenBlock), Some(e)], []));
        PatchesStayOk(old(graph), graph, blockPatches);
        elseBlock := Some(e);
        curBlock := Some(thenBlock);
      }
      StartBlock();
    }

    /**
     * switchToElse: bind the branches out of the then arm; with an else
     * block, the block reached (if live) keeps the arm's values pushed as
     * the then arm's join predecessor and the else block becomes current;
     * either way one block deeper again.
     */
    method SwitchToElse(elseBlock: Option<BlockId>) returns (thenJoinPred: Option<BlockId>)
      requires Valid() && blockDepth > 0
      requires elseBlock.Some? ==>
        Open(graph, elseBlock.value) && elseBlock != curBlock && graph.blocks[elseBlock.value].loopDepth == loopDepth
      modifies this`graph, this`curBlock, this`blockDepth, this`blockPatches
      ensures Valid() && blockDepth == old(blockDepth) && NoPatches(blockPatches, blockDepth - 1)
      ensures Extends(old(graph), graph)
      ensures elseBlock.None? ==>
        thenJoinPred.None? && Quiet() && curBlock == JoinedBlock(old(graph), old(blockPatches), blockDepth - 1, old(curBlock))
      ensures elseBlock.Some? ==>
        curBlock == elseBlock && thenJoinPred == JoinedBlock(old(graph), old(blockPatches), blockDepth - 1, old(curBlock))
        && graph.blocks[elseBlock.value] == old(graph.blocks[elseBlock.value])
      ensures elseBlock.Some? && thenJoinPred.Some? ==>
        Open(graph, thenJoinPred.value) && thenJoinPred != curBlock
        && graph.blocks[thenJoinPred.value].pushed == JoinedValues(old(graph), old(blockPatches), blockDepth - 1, old(curBlock))
    {
      var values := FinishBlock();
      if elseBlock.None? {
        thenJoinPred := None;
      } else {
        ghost var g1 := graph;
        assert graph.blocks[elseBlock.value] == old(graph.blocks[elseBlock.value]);
        thenJoinPred := curBlock;
        PushDefs(values);
        assert graph.blocks[elseBlock.value] == g1.blocks[elseBlock.value];
        curBlock := elseBlock;
      }
      StartBlock();
    }

    /**
     * joinIfElse: bind the branches out of the last arm; unless both arms
     * are dead, the live arms jump to a new join block, which becomes
     * current, and the values of the first live arm are popped from it.
     */
    method JoinIfElse(thenJoinPred: Option<BlockId>) returns (defs: seq<Def>)
      requires Valid() && blockDepth > 0
      requires thenJoinPred.Some? ==> Open(graph, thenJoinPred.value) && thenJoinPred != curBlock
      modifies this`graph, this`curBlock, this`blockDepth, this`blockPatches
      ensures Valid() && Quiet() && blockDepth == old(blockDepth) - 1 && Extends(old(graph), graph)
      ensures thenJoinPred.None? && JoinedBlock(old(graph), old(blockPatches), blockDepth, old(curBlock)).None? ==>
        curBlock.None? && defs == []
      ensures thenJoinPred.Some? || JoinedBlock(old(graph), old(blockPatches), blockDepth, old(curBlock)).Some? ==>
        curBlock.Some? && curBlock.value == |graph.blocks| - 1
        && graph.blocks[curBlock.value].preds
           == JoinPreds(thenJoinPred, JoinedBlock(old(graph), old(blockPatches), blockDepth, old(curBlock)))
        && (thenJoinPred.Some? ==> graph.blocks[thenJoinPred.value].end == Some(Control(Goto, [curBlock], [])))
        && (JoinedBlock(old(graph), old(blockPatches), blockDepth, old(curBlock)).Some? ==>
              JoinedBlock(old(graph), old(blockPatches), blockDepth, old(curBlock)).value < curBlock.value &&
              graph.blocks[JoinedBlock(old(graph), old(blockPatches), blockDepth, old(curBlock)).value].end
              == Some(Control(Goto, [curBlock], [])))
        && defs == (if thenJoinPred.Some? then old(graph.blocks[thenJoinPred.value].pushed)
                    else JoinedValues(old(graph), old(blockPatches), blockDepth, old(curBlock)))
    {
      var values := FinishBlock();
      if thenJoinPred.None? && curBlock.None? {
        return [];
      }
      var elseJoinPred := curBlock;
      PushDefs(values);
      defs := JoinArms(thenJoinPred, elseJoinPred);
    }

    /** The join of joinIfElse: a new block after the first live arm, which the other live arm also jumps to. */
    method JoinArms(thenJoinPred: Option<BlockId>, elseJoinPred: Option<BlockId>) returns (defs: seq<Def>)
      requires Valid() && curBlock == elseJoinPred && (thenJoinPred.Some? || elseJoinPred.Some?)
      requires thenJoinPred.Some? ==> Open(graph, thenJoinPred.value) && thenJoinPred != elseJoinPred
      modifies this`graph, this`curBlock
      ensures Valid() && Quiet() && Extends(old(graph), graph)
      ensures |graph.blocks| == |old(graph.blocks)| + 1 && curBlock == Some(|old(graph.blocks)|)
      ensures graph.blocks[curBlock.value].preds == JoinPreds(thenJoinPred, elseJoinPred)
      ensures thenJoinPred.Some? ==> graph.blocks[thenJoinPred.value].end == Some(Control(Goto, [curBlock], []))
      ensures elseJoinPred.Some? ==> graph.blocks[elseJoinPred.value].end == Some(Control(Goto, [curBlock], []))
      ensures defs == old(graph.blocks[JoinPreds(thenJoinPred, elseJoinPred)[0]].pushed)
    {
      var blocks := JoinPreds(thenJoinPred, elseJoinPred);
      var join := GoToNewBlock(blocks[0]);
      if |blocks| == 2 {
        GoToExistingBlock(blocks[1], join);
      }
      PatchesStayOk(old(graph), graph, blockPatches);
      curBlock := Some(join);
      defs := PopPushedDefs();
      PatchesStayOk(old(graph), graph, blockPatches);
    }

    /**
     * EmitEnd: push the values the closed label's body leaves, then close the
     * label by its kind. The function body returns its values; a block binds
     * its branches; a loop is closed; an if without an else still gets an
     * (empty) else arm so that a diamond is built; an else joins its arms.
     * `block` is the block the label recorded: the loop header, the else
     * block of an if, or the then arm's join predecessor.
     */
    method EmitEnd(kind: LabelKind, block: Option<BlockId>, preJoinDefs: seq<Def>, resultsForEmptyElse: seq<Def>)
      returns (postJoinDefs: seq<Def>)
      requires Valid() && Quiet() && blockDepth >= 1
      requires kind == LoopLabel ==> loopDepth >= 1
      requires kind == LoopLabel && block.None? ==> curBlock.None? && NoPatches(blockPatches, blockDepth - 1)
      requires kind == LoopLabel && block.Some? ==> LoopHeader(graph, block.value, loopDepth, blockPatches, blockDepth - 1)
      requires kind == Then && block.Some? ==>
        Open(graph, block.value) && block != curBlock && graph.blocks[block.value].loopDepth == loopDepth
        && graph.blocks[block.value].pushed == []
      requires kind == Else && block.Some? ==> Open(graph, block.value) && block != curBlock
      modifies this`graph, this`curBlock, this`blockDepth, this`loopDepth, this`blockPatches, this`replaced
      ensures Valid() && blockDepth == old(blockDepth) - 1 && Extends(old(graph), graph)
      ensures loopDepth == old(loopDepth) - (if kind == LoopLabel then 1 else 0)
      ensures kind == Body ==> curBlock.None?
      ensures kind != Body ==> Quiet()
      ensures kind == BlockLabel ==> (curBlock.Some? <==> old(curBlock).Some? || !NoPatches(old(blockPatches), blockDepth))
      ensures kind == BlockLabel ==> postJoinDefs == ArmValues(old(graph), old(blockPatches), blockDepth, old(curBlock), preJoinDefs)
      ensures kind == LoopLabel ==> (curBlock.Some? <==> old(curBlock).Some?)
      ensures kind == LoopLabel && NoPatches(old(blockPatches), blockDepth) ==>
        replaced == old(replaced) && (old(curBlock).Some? ==> postJoinDefs == preJoinDefs)
      ensures kind == LoopLabel && block.Some? && !NoPatches(old(blockPatches), blockDepth) ==>
        graph.blocks[block.value].preds == old(graph.blocks[block.value].preds) + [|old(graph.blocks)|]
        && graph.blocks[block.value].phis == Kept(BackedgePhis(old(graph), block.value, old(blockPatches), blockDepth))
        && replaced == old(replaced) + Replacements(BackedgePhis(old(graph), block.value, old(blockPatches), blockDepth))
        && (old(curBlock).Some? ==>
              postJoinDefs == Fix(preJoinDefs, Replacements(BackedgePhis(old(graph), block.value, old(blockPatches), blockDepth))))
      ensures kind == Then && block.Some? ==>
        curBlock.Some? && curBlock.value == |graph.blocks| - 1
        && graph.blocks[curBlock.value].preds == JoinPreds(JoinedBlock(old(graph), old(blockPatches), blockDepth, old(curBlock)), block)
        && graph.blocks[block.value].end == Some(Control(Goto, [curBlock], []))
      ensures kind == Then && block.Some? && JoinedBlock(old(graph), old(blockPatches), blockDepth, old(curBlock)).Some? ==>
        JoinedBlock(old(graph), old(blockPatches), blockDepth, old(curBlock)) != block
        && JoinedBlock(old(graph), old(blockPatches), blockDepth, old(curBlock)).value < curBlock.value
        && graph.blocks[JoinedBlock(old(graph), old(blockPatches), blockDepth, old(curBlock)).value].end == Some(Control(Goto, [curBlock], []))
        && postJoinDefs == ArmValues(old(graph), old(blockPatches), blockDepth, old(curBlock), preJoinDefs)
      ensures kind == Then && block.Some? && JoinedBlock(old(graph), old(blockPatches), blockDepth, old(curBlock)).None? ==> postJoinDefs == resultsForEmptyElse
      ensures kind == Else && block.None? && JoinedBlock(old(graph), old(blockPatches), blockDepth, old(curBlock)).None? ==> curBlock.None? && postJoinDefs == []
      ensures kind == Else && (block.Some? || JoinedBlock(old(graph), old(blockPatches), blockDepth, old(curBlock)).Some?) ==>
        curBlock.Some? && curBlock.value == |graph.blocks| - 1
        && graph.blocks[curBlock.value].preds == JoinPreds(block, JoinedBlock(old(graph), old(blockPatches), blockDepth, old(curBlock)))
        && (block.Some? ==> graph.blocks[block.value].end == Some(Control(Goto, [curBlock], [])))
        && (JoinedBlock(old(graph), old(blockPatches), blockDepth, old(curBlock)).Some? ==>
              JoinedBlock(old(graph), old(blockPatches), blockDepth, old(curBlock)).value < curBlock.value
              && graph.blocks[JoinedBlock(old(graph), old(blockPatches), blockDepth, old(curBlock)).value].end == Some(Control(Goto, [curBlock], [])))
        && postJoinDefs == (if block.Some? then old(graph.blocks[block.value].pushed) else ArmValues(old(graph), old(blockPatches), blockDepth, old(curBlock), preJoinDefs))
    {
      match kind
      case Body =>
        PushDefs(preJoinDefs);
        postJoinDefs := FinishBlock();
        ReturnValues(postJoinDefs);
      case BlockLabel =>
        postJoinDefs := EndBlockLabel(preJoinDefs);
      case LoopLabel =>
        postJoinDefs := EndLoopLabel(block, preJoinDefs);
      case Then =>
        postJoinDefs := EndThenLabel(block, preJoinDefs, resultsForEmptyElse);
      case Else =>
        postJoinDefs := EndElseLabel(block, preJoinDefs);
    }

    /** EmitEnd on a block label: push the body's values and bind the branches to the label. */
    method EndBlockLabel(preJoinDefs: seq<Def>) returns (postJoinDefs: seq<Def>)
      requires Valid() && Quiet() && blockDepth >= 1
      modifies this`graph, this`curBlock, this`blockDepth, this`blockPatches
      ensures Valid() && Quiet() && blockDepth == old(blockDepth) - 1 && Extends(old(graph), graph)
      ensures curBlock.Some? <==> old(curBlock).Some? || !NoPatches(old(blockPatches), blockDepth)
      ensures postJoinDefs == ArmValues(old(graph), old(blockPatches), blockDepth, old(curBlock), preJoinDefs)
    {
      ghost var g0 := graph;
      PushDefs(preJoinDefs);
      if curBlock.Some? {
        PushedArmValues(g0, blockPatches, blockDepth - 1, curBlock.value, preJoinDefs);
      }
      postJoinDefs := FinishBlock();
    }

    /** EmitEnd on a loop label: push the body's values and close the loop. */
    method EndLoopLabel(header: Option<BlockId>, preJoinDefs: seq<Def>) returns (postJoinDefs: seq<Def>)
      requires Valid() && Quiet() && blockDepth >= 1 && loopDepth >= 1
      requires header.None? ==> curBlock.None? && NoPatches(blockPatches, blockDepth - 1)
      requires header.Some? ==> LoopHeader(graph, header.value, loopDepth, blockPatches, blockDepth - 1)
      modifies this`graph, this`curBlock, this`blockDepth, this`loopDepth, this`blockPatches, this`replaced
      ensures Valid() && Quiet() && Extends(old(graph), graph)
      ensures blockDepth == old(blockDepth) - 1 && loopDepth == old(loopDepth) - 1
      ensures curBlock.Some? <==> old(curBlock).Some?
      ensures NoPatches(old(blockPatches), blockDepth) ==>
        replaced == old(replaced) && (old(curBlock).Some? ==> postJoinDefs == preJoinDefs)
      ensures header.Some? && !NoPatches(old(blockPatches), blockDepth) ==>
        graph.blocks[header.value].preds == old(graph.blocks[header.value].preds) + [|old(graph.blocks)|]
        && graph.blocks[header.value].phis == Kept(BackedgePhis(old(graph), header.value, old(blockPatches), blockDepth))
        && replaced == old(replaced) + Replacements(BackedgePhis(old(graph), header.value, old(blockPatches), blockDepth))
        && (old(curBlock).Some? ==> postJoinDefs == Fix(preJoinDefs, Replacements(BackedgePhis(old(graph), header.value, old(blockPatches), blockDepth))))
    {
      ghost var g0 := graph;
      PushDefs(preJoinDefs);
      if header.Some? && !NoPatches(blockPatches, blockDepth - 1) {
        ghost var owner := blockPatches[blockDepth - 1][0].owner;
        assert PatchOk(g0, blockPatches[blockDepth - 1][0]);
        assert graph.blocks[header.value] == g0.blocks[header.value] && graph.blocks[owner] == g0.blocks[owner];
      }
      postJoinDefs := CloseLoop(header);
    }

    /** EmitEnd on an if without an else: push the then arm's values, then build the empty else arm and the join. */
    method EndThenLabel(elseBlock: Option<BlockId>, preJoinDefs: seq<Def>, resultsForEmptyElse: seq<Def>) returns (postJoinDefs: seq<Def>)
      requires Valid() && Quiet() && blockDepth >= 1
      requires elseBlock.Some? ==>
        Open(graph, elseBlock.value) && elseBlock != curBlock && graph.blocks[elseBlock.value].loopDepth == loopDepth
        && graph.blocks[elseBlock.value].pushed == []
      modifies this`graph, this`curBlock, this`blockDepth, this`blockPatches
      ensures Valid() && Quiet() && blockDepth == old(blockDepth) - 1 && Extends(old(graph), graph)
      ensures elseBlock.Some? ==>
        curBlock.Some? && curBlock.value == |graph.blocks| - 1
        && graph.blocks[curBlock.value].preds == JoinPreds(JoinedBlock(old(graph), old(blockPatches), blockDepth, old(curBlock)), elseBlock)
        && graph.blocks[elseBlock.value].end == Some(Control(Goto, [curBlock], []))
      ensures elseBlock.Some? && JoinedBlock(old(graph), old(blockPatches), blockDepth, old(curBlock)).Some? ==>
        JoinedBlock(old(graph), old(blockPatches), blockDepth, old(curBlock)) != elseBlock
        && JoinedBlock(old(graph), old(blockPatches), blockDepth, old(curBlock)).value < curBlock.value
        && graph.blocks[JoinedBlock(old(graph), old(blockPatches), blockDepth, old(curBlock)).value].end == Some(Control(Goto, [curBlock], []))
        && postJoinDefs == ArmValues(old(graph), old(blockPatches), blockDepth, old(curBlock), preJoinDefs)
      ensures elseBlock.Some? && JoinedBlock(old(graph), old(blockPatches), blockDepth, old(curBlock)).None? ==> postJoinDefs == resultsForEmptyElse
    {
      ghost var g0 := graph;
      PushDefs(preJoinDefs);
      if curBlock.Some? {
        PushedArmValues(g0, blockPatches, blockDepth - 1, curBlock.value, preJoinDefs);
      }
      postJoinDefs := EndThen(elseBlock, resultsForEmptyElse);
    }

    /** EmitEnd on an else: push the else arm's values and join the arms. */
    method EndElseLabel(thenJoinPred: Option<BlockId>, preJoinDefs: seq<Def>) returns (postJoinDefs: seq<Def>)
      requires Valid() && Quiet() && blockDepth >= 1
      requires thenJoinPred.Some? ==> Open(graph, thenJoinPred.value) && thenJoinPred != curBlock
      modifies this`graph, this`curBlock, this`blockDepth, this`blockPatches
      ensures Valid() && Quiet() && blockDepth == old(blockDepth) - 1 && Extends(old(graph), graph)
      ensures thenJoinPred.None? && JoinedBlock(old(graph), old(blockPatches), blockDepth, old(curBlock)).None? ==> curBlock.None? && postJoinDefs == []
      ensures thenJoinPred.Some? || JoinedBlock(old(graph), old(blockPatches), blockDepth, old(curBlock)).Some? ==>
        curBlock.Some? && curBlock.value == |graph.blocks| - 1
        && graph.blocks[curBlock.value].preds == JoinPreds(thenJoinPred, JoinedBlock(old(graph), old(blockPatches), blockDepth, old(curBlock)))
        && (thenJoinPred.Some? ==> graph.blocks[thenJoinPred.value].end == Some(Control(Goto, [curBlock], [])))
        && (JoinedBlock(old(graph), old(blockPatches), blockDepth, old(curBlock)).Some? ==>
              JoinedBlock(old(graph), old(blockPatches), blockDepth, old(curBlock)).value < curBlock.value
              && graph.blocks[JoinedBlock(old(graph), old(blockPatches), blockDepth, old(curBlock)).value].end == Some(Control(Goto, [curBlock], [])))
        && postJoinDefs == (if thenJoinPred.Some? then old(graph.blocks[thenJoinPred.value].pushed) else ArmValues(old(graph), old(blockPatches), blockDepth, old(curBlock), preJoinDefs))
    {
      ghost var g0 := graph;
      PushDefs(preJoinDefs);
      if curBlock.Some? {
        PushedArmValues(g0, blockPatches, blockDepth - 1, curBlock.value, preJoinDefs);
      }
      assert thenJoinPred.Some? ==> graph.blocks[thenJoinPred.value] == g0.blocks[thenJoinPred.value];
      postJoinDefs := JoinIfElse(thenJoinPred);
    }

    /** The end of an if without an else: an empty else arm leaving `resultsForEmptyElse`, then the join. */
    method EndThen(elseBlock: Option<BlockId>, resultsForEmptyElse: seq<Def>) returns (postJoinDefs: seq<Def>)
      requires Valid() && blockDepth >= 1
      requires elseBlock.Some? ==>
        Open(graph, elseBlock.value) && elseBlock != curBlock && graph.blocks[elseBlock.value].loopDepth == loopDepth
        && graph.blocks[elseBlock.value].pushed == []
      modifies this`graph, this`curBlock, this`blockDepth, this`blockPatches
      ensures Valid() && Quiet() && blockDepth == old(blockDepth) - 1 && Extends(old(graph), graph)
      ensures elseBlock.Some? ==>
        curBlock.Some? && curBlock.value == |graph.blocks| - 1
        && graph.blocks[curBlock.value].preds == JoinPreds(JoinedBlock(old(graph), old(blockPatches), blockDepth, old(curBlock)), elseBlock)
        && graph.blocks[elseBlock.value].end == Some(Control(Goto, [curBlock], []))
      ensures elseBlock.Some? && JoinedBlock(old(graph), old(blockPatches), blockDepth, old(curBlock)).Some? ==>
        JoinedBlock(old(graph), old(blockPatches), blockDepth, old(curBlock)) != elseBlock
        && JoinedBlock(old(graph), old(blockPatches), blockDepth, old(curBlock)).value < curBlock.value
        && graph.blocks[JoinedBlock(old(graph), old(blockPatches), blockDepth, old(curBlock)).value].end
           == Some(Control(Goto, [curBlock], []))
        && postJoinDefs == JoinedValues(old(graph), old(blockPatches), blockDepth, old(curBlock))
      ensures elseBlock.Some? && JoinedBlock(old(graph), old(blockPatches), blockDepth, old(curBlock)).None? ==>
        postJoinDefs == resultsForEmptyElse
    {
      var thenJoinPred := SwitchToElse(elseBlock);
      ghost var g1 := graph;
      PushDefs(resultsForEmptyElse);
      assert thenJoinPred.Some? ==> graph.blocks[thenJoinPred.value] == g1.blocks[thenJoinPred.value];
      postJoinDefs := JoinIfElse(thenJoinPred);
    }

    /**
     * computeEffectiveAddress: nothing in dead code; else a nonzero offset
     * becomes an add-offset instruction, which is the new base, and the
     * offset is cleared.
     */
    method ComputeEffectiveAddress(base: Def, access: Access) returns (newBase: Option<Def>, newAccess: Access)
      requires Valid()
      modifies this`graph, this`nextDef
      ensures Valid() && (Quiet() <==> old(Quiet()))
      ensures old(curBlock).None? ==> newBase.None? && newAccess == access && graph == old(graph) && nextDef == old(nextDef)
      ensures old(curBlock).Some? ==>
        newBase == Some(EffectiveAddress(base, access, old(nextDef)).base)
        && newAccess == EffectiveAddress(base, access, old(nextDef)).access
        && graph == AddAll(old(graph), curBlock.value, EffectiveAddress(base, access, old(nextDef)).code)
        && nextDef == old(nextDef) + |EffectiveAddress(base, access, old(nextDef)).code|
      ensures old(curBlock).Some? ==> newAccess == access.(offset := 0)
      ensures old(curBlock).Some? && access.offset == 0 ==> newBase == Some(base) && graph == old(graph)
    {
      if curBlock.None? {
        return None, access;
      }
      ghost var g0 := graph;
      if access.offset == 0 {
        assert AddAll(g0, curBlock.value, []) == g0;
        return Some(base), access;
      }
      var ins := AddIns(AddOffset(base, access.offset));
      ghost var i := Instr(ins, AddOffset(base, access.offset));
      assert [] + [i] == [i];
      AddAllSnoc(g0, curBlock.value, [], i);
      assert graph == AddAll(g0, curBlock.value, [i]);
      newBase := Some(ins);
      newAccess := access.(offset := 0);
    }

    /**
     * checkOffsetAndAlignmentAndBounds on live code: the instructions,
     * the new base and the new access are those Addressing describes.
     */
    method CheckOffsetAndAlignmentAndBounds(access: Access, base: Def, baseConst: Option<I32>)
      returns (r: Addressed)
      requires Valid() && curBlock.Some?
      modifies this`graph, this`nextDef
      ensures Valid() && (Quiet() <==> old(Quiet()))
      ensures r == Addressing(env, access, base, baseConst, old(nextDef))
      ensures graph == AddAll(old(graph), curBlock.value, r.code) && nextDef == old(nextDef) + |r.code|
    {
      ghost var g0, n0 := graph, nextDef;
      var b := curBlock.value;
      var f := FoldConstantBase(access, base, baseConst);
      ghost var n1 := nextDef;
      var need := NeedAlignmentCheck(env.asmJS, f.access, if FoldsBase(env, access, baseConst) then Some(0) else baseConst);
      var added := AddOffsetIfNeeded(f.base, f.access, need.1);
      ghost var n2 := nextDef;
      var checks := AddChecks(added.base, added.access, need.0, access.byteSize);
      AddAllAppend(g0, b, f.code, added.code);
      AddAllAppend(g0, b, f.code + added.code, checks.code);
      AddressingByStages(env, access, base, baseConst, n0, f, need, n1, added, n2, checks);
      r := Addressed(f.code + added.code + checks.code, checks.base, checks.access);
    }

    /** The offset stage of checkOffsetAndAlignmentAndBounds. */
    method AddOffsetIfNeeded(base: Def, access: Access, mustAdd: bool) returns (r: Addressed)
      requires Valid() && curBlock.Some?
      modifies this`graph, this`nextDef
      ensures Valid() && (Quiet() <==> old(Quiet()))
      ensures r == OffsetStage(env, base, access, mustAdd, old(nextDef))
      ensures graph == AddAll(old(graph), curBlock.value, r.code) && nextDef == old(nextDef) + |r.code|
    {
      if access.offset >= env.offsetGuardLimit || mustAdd || !env.foldOffsets {
        var n := nextDef;
        var effective, newAccess := ComputeEffectiveAddress(base, access);
        r := Addressed(if access.offset == 0 then [] else [Instr(n, AddOffset(base, access.offset))], effective.value, newAccess);
      } else {
        assert AddAll(graph, curBlock.value, []) == graph;
        r := Addressed([], base, access);
      }
    }

    /** The folding stage of checkOffsetAndAlignmentAndBounds. */
    method FoldConstantBase(access: Access, base: Def, baseConst: Option<I32>) returns (r: Addressed)
      requires Valid() && curBlock.Some?
      modifies this`graph, this`nextDef
      ensures Valid() && (Quiet() <==> old(Quiet()))
      ensures r == FoldStage(env, access, base, baseConst, old(nextDef))
      ensures graph == AddAll(old(graph), curBlock.value, r.code) && nextDef == old(nextDef) + |r.code|
    {
      ghost var g0 := graph;
      if FoldsBase(env, access, baseConst) {
        var ins := AddIns(Constant(0, Int32));
        assert [] + [Instr(ins, Constant(0, Int32))] == [Instr(ins, Constant(0, Int32))];
        AddAllSnoc(g0, curBlock.value, [], Instr(ins, Constant(0, Int32)));
        return Addressed([Instr(ins, Constant(0, Int32))], ins, access.(offset := access.offset + U32(baseConst.value)));
      }
      assert AddAll(g0, curBlock.value, []) == g0;
      return Addressed([], base, access);
    }

    /** The checking stage of checkOffsetAndAlignmentAndBounds. */
    method AddChecks(base: Def, access: Access, alignmentCheck: bool, byteSize: ByteSize) returns (r: Addressed)
      requires Valid() && curBlock.Some?
      modifies this`graph, this`nextDef
      ensures Valid() && (Quiet() <==> old(Quiet()))
      ensures r == ChecksStage(env, base, access, alignmentCheck, byteSize, old(nextDef))
      ensures graph == AddAll(old(graph), curBlock.value, r.code) && nextDef == old(nextDef) + |r.code|
    {
      ghost var g0 := graph;
      var code := AddAlignmentCheck(base, alignmentCheck, byteSize);
      var bounds := AddBoundsCheck(base, access);
      AddAllAppend(g0, curBlock.value, code, bounds.code);
      r := Addressed(code + bounds.code, bounds.base, access);
    }

    /** The alignment check of the checking stage, when one is needed. */
    method AddAlignmentCheck(base: Def, alignmentCheck: bool, byteSize: ByteSize) returns (code: seq<Instr>)
      requires Valid() && curBlock.Some?
      modifies this`graph, this`nextDef
      ensures Valid() && (Quiet() <==> old(Quiet()))
      ensures code == if alignmentCheck then [Instr(old(nextDef), AlignmentCheck(base, byteSize))] else []
      ensures graph == AddAll(old(graph), curBlock.value, code) && nextDef == old(nextDef) + |code|
    {
      ghost var g0 := graph;
      if alignmentCheck {
        var ins := AddIns(AlignmentCheck(base, byteSize));
        code := [Instr(ins, AlignmentCheck(base, byteSize))];
        assert [] + code == code;
        AddAllSnoc(g0, curBlock.value, [], code[0]);
      } else {
        code := [];
        assert AddAll(g0, curBlock.value, []) == g0;
      }
    }

    /** The bounds-check part of the checking stage. */
    method AddBoundsCheck(base: Def, access: Access) returns (r: Addressed)
      requires Valid() && curBlock.Some?
      modifies this`graph, this`nextDef
      ensures Valid() && (Quiet() <==> old(Quiet()))
      ensures r == BoundsStage(env, base, access, old(nextDef))
      ensures graph == AddAll(old(graph), curBlock.value, r.code) && nextDef == old(nextDef) + |r.code|
    {
      ghost var g0 := graph;
      var b := curBlock.value;
      if env.hugeMemory {
        assert AddAll(g0, b, []) == g0;
        return Addressed([], base, access);
      }
      var limit := AddIns(LoadBoundsCheckLimit);
      var check := AddIns(BoundsCheck(base, limit));
      var code := [Instr(limit, LoadBoundsCheckLimit), Instr(check, BoundsCheck(base, limit))];
      assert code[..1] == [] + [code[0]] && code == code[..1] + [code[1]];
      AddAllSnoc(g0, b, [], code[0]);
      AddAllSnoc(g0, b, code[..1], code[1]);
      r := Addressed(code, if env.spectreIndexMasking then check else base, access);
    }
  }
}
