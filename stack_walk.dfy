/**
 * Stack-walk accounting (mozglue/misc/StackWalk.cpp): the frame skipper,
 * the frame-pointer walk and its termination rules, frame numbering and the
 * frame limit, the bounded pc/sp buffers of the Windows walker with their
 * rerun, frame-line formatting, and the write loop that prints it.
 *
 * The machine's unwinders and raw memory are not modelled: memory is a
 * function from addresses to words, and an unwinder is the sequence of
 * frames it would produce.
 */
module StackWalk {
  import opened Wrappers
  import opened Numerals

  /** One frame as an unwinder reports it: a program counter and a stack address. */
  datatype Frame = Frame(pc: nat, sp: nat)

  /** One invocation of the walk callback: frame number (from 1), pc and stack address. */
  datatype Report = Report(number: nat, pc: nat, sp: nat)

  // ---------------------------------------------------------------------------
  // The frame skipper

  /**
   * FrameSkipper: with a nonzero target, skips every pc until the target
   * itself, which is not skipped; after that, and always for the default
   * skipper, nothing is skipped.
   */
  class FrameSkipper {
    var pc: nat

    constructor Default()
      ensures pc == 0
    {
      pc := 0;
    }

    constructor (firstPC: nat)
      ensures pc == firstPC
    {
      pc := firstPC;
    }

    method ShouldSkipPC(aPC: nat) returns (skip: bool)
      modifies this
      ensures skip <==> old(pc) != 0 && old(pc) != aPC
      ensures pc == (if skip then old(pc) else 0)
    {
      if pc != 0 {
        if pc != aPC {
          return true;
        }
        pc := 0;
      }
      return false;
    }
  }

  /** The frames a skipper with the given target lets through. */
  function Kept(target: nat, frames: seq<Frame>): seq<Frame>
  {
    if target == 0 || frames == [] then frames
    else if frames[0].pc == target then frames
    else Kept(target, frames[1..])
  }

  /** The frames let through are the suffix starting at the first frame whose pc is the target (all of them for target 0, none if the target never appears). */
  lemma {:induction false} KeptIsSuffix(target: nat, frames: seq<Frame>)
    ensures var k := |frames| - |Kept(target, frames)|;
            0 <= k <= |frames| && Kept(target, frames) == frames[k..]
            && (forall j :: 0 <= j < k ==> frames[j].pc != target)
            && (target == 0 ==> k == 0)
            && (k < |frames| ==> target == 0 || frames[k].pc == target)
  {
    if target != 0 && frames != [] && frames[0].pc != target {
      KeptIsSuffix(target, frames[1..]);
      var k := |frames[1..]| - |Kept(target, frames[1..])|;
      assert frames[1..][k..] == frames[k + 1..];
      forall j | 0 <= j < k + 1 ensures frames[j].pc != target {
        if j > 0 { assert frames[j] == frames[1..][j - 1]; }
      }
    }
  }

  /** At most `max` frames when `max` is nonzero; all of them otherwise. */
  function Limit(frames: seq<Frame>, max: nat): (r: seq<Frame>)
    ensures max != 0 ==> |r| == Min(|frames|, max)
    ensures max == 0 ==> r == frames
    ensures r == frames[..|r|]
  {
    if max != 0 && |frames| > max then frames[..max] else frames
  }

  function Min(a: nat, b: nat): nat { if a <= b then a else b }

  /** Callback invocations for the frames, numbered consecutively from start + 1. */
  function Numbered(frames: seq<Frame>, start: nat): (r: seq<Report>)
    ensures |r| == |frames|
    ensures forall i :: 0 <= i < |frames| ==> r[i] == Report(start + i + 1, frames[i].pc, frames[i].sp)
  {
    if frames == [] then [] else [Report(start + 1, frames[0].pc, frames[0].sp)] + Numbered(frames[1..], start + 1)
  }

  /** What every walker reports: the non-skipped frames, at most `max` of them, numbered 1, 2, 3, ... */
  function Reported(target: nat, max: nat, frames: seq<Frame>): seq<Report>
  {
    Numbered(Limit(Kept(target, frames), max), 0)
  }

  /**
   * The walk loop as the walkers run it, frame by frame: skipper target t and
   * frames already reported n.  A reported frame that brings the count to a
   * nonzero maximum ends the walk.
   */
  function WalkFrom(t: nat, n: nat, max: nat, frames: seq<Frame>): seq<Report>
    decreases |frames|
  {
    if frames == [] then []
    else if t != 0 && frames[0].pc != t then WalkFrom(t, n, max, frames[1..])
    else [Report(n + 1, frames[0].pc, frames[0].sp)]
         + (if max != 0 && n + 1 == max then [] else WalkFrom(0, n + 1, max, frames[1..]))
  }

  /** One step of the walk loop on the frame at the front. */
  lemma WalkFromStep(t: nat, n: nat, max: nat, f: Frame, rest: seq<Frame>)
    ensures WalkFrom(t, n, max, [f] + rest)
            == if t != 0 && f.pc != t then WalkFrom(t, n, max, rest)
               else [Report(n + 1, f.pc, f.sp)] + (if max != 0 && n + 1 == max then [] else WalkFrom(0, n + 1, max, rest))
  {
    assert ([f] + rest)[1..] == rest;
  }

  /** The frame-by-frame loop reports exactly the skipped, limited and numbered frames. */
  lemma {:induction false} WalkFromReported(t: nat, max: nat, frames: seq<Frame>)
    ensures WalkFrom(t, 0, max, frames) == Reported(t, max, frames)
  {
    if frames != [] && t != 0 && frames[0].pc != t {
      WalkFromReported(t, max, frames[1..]);
    } else {
      var kept := Kept(t, frames);
      assert kept == frames;
      WalkFromLimited(0, max, frames);
    }
  }

  /** Once nothing is skipped, starting from count n the loop reports the next frames numbered n+1, ... up to the limit. */
  lemma {:induction false} WalkFromLimited(n: nat, max: nat, frames: seq<Frame>)
    requires max == 0 || n < max
    ensures WalkFrom(0, n, max, frames) == Numbered(Limit(frames, if max == 0 then 0 else max - n), n)
    decreases |frames|
  {
    if frames != [] {
      if max != 0 && n + 1 == max {
        assert Limit(frames, 1) == [frames[0]];
      } else {
        WalkFromLimited(n + 1, max, frames[1..]);
        var m := if max == 0 then 0 else max - n;
        var l := Limit(frames, m);
        assert l == [frames[0]] + Limit(frames[1..], if max == 0 then 0 else max - (n + 1));
        assert l[1..] == Limit(frames[1..], if max == 0 then 0 else max - (n + 1));
      }
    }
  }

  /** Reported frame numbers are 1, 2, 3, ...; there are never more than a nonzero maximum, and exactly that many when enough frames survive skipping. */
  lemma ReportedShape(target: nat, max: nat, frames: seq<Frame>)
    ensures var r := Reported(target, max, frames);
            (forall i :: 0 <= i < |r| ==> r[i].number == i + 1)
            && (max != 0 ==> |r| == Min(|Kept(target, frames)|, max))
            && (max == 0 ==> |r| == |Kept(target, frames)|)
  {
  }

  // ---------------------------------------------------------------------------
  // The frame-pointer walk

  /** Bytes in a machine word. */
  const W: nat := 8

  /** A frame-pointer link is followed only upwards, below the stack end, and to a 4-byte aligned address. */
  predicate LinkOk(bp: nat, next: nat, stackEnd: nat)
  {
    !(next <= bp || next >= stackEnd || next % 4 != 0)
  }

  /**
   * The frames reachable from frame pointer bp: each frame stores the caller's
   * frame pointer at bp and the return address one word above; the stack
   * address reported is two words above bp.
   */
  function FrameChain(mem: nat -> nat, bp: nat, stackEnd: nat): (r: seq<Frame>)
    decreases stackEnd - bp
  {
    if bp == 0 then []
    else
      var next := mem(bp);
      if !LinkOk(bp, next, stackEnd) then []
      else [Frame(mem(bp + W), bp + 2 * W)] + FrameChain(mem, next, stackEnd)
  }

  /** Frames further up the chain have strictly larger stack addresses, all above the first frame pointer. */
  lemma {:induction false} FrameChainAscending(mem: nat -> nat, bp: nat, stackEnd: nat)
    ensures var c := FrameChain(mem, bp, stackEnd);
            (forall i :: 0 <= i < |c| ==> bp + 2 * W <= c[i].sp < stackEnd + 2 * W)
            && (forall i, j :: 0 <= i < j < |c| ==> c[i].sp < c[j].sp)
    decreases stackEnd - bp
  {
    if bp != 0 && LinkOk(bp, mem(bp), stackEnd) {
      var next := mem(bp);
      FrameChainAscending(mem, next, stackEnd);
      var c := FrameChain(mem, bp, stackEnd);
      assert c == [Frame(mem(bp + W), bp + 2 * W)] + FrameChain(mem, next, stackEnd);
      forall i, j | 0 <= i < j < |c| ensures c[i].sp < c[j].sp {
        assert c[j] == FrameChain(mem, next, stackEnd)[j - 1];
        if i > 0 { assert c[i] == FrameChain(mem, next, stackEnd)[i - 1]; }
      }
      forall i | 0 <= i < |c| ensures bp + 2 * W <= c[i].sp < stackEnd + 2 * W {
        if i > 0 { assert c[i] == FrameChain(mem, next, stackEnd)[i - 1]; }
      }
    }
  }

  /** Following one link of the chain. */
  lemma FrameChainStep(mem: nat -> nat, bp: nat, stackEnd: nat)
    requires bp != 0
    ensures LinkOk(bp, mem(bp), stackEnd) ==>
              FrameChain(mem, bp, stackEnd) == [Frame(mem(bp + W), bp + 2 * W)] + FrameChain(mem, mem(bp), stackEnd)
    ensures !LinkOk(bp, mem(bp), stackEnd) ==> FrameChain(mem, bp, stackEnd) == []
  {
  }

  /**
   * DoFramePointerStackWalk: reports the frames of the chain as the
   * frame-by-frame loop does.  The loop's two exits (a link that fails the
   * sanity checks, and reaching the frame limit) set `done`.
   */
  method DoFramePointerStackWalk(mem: nat -> nat, firstFramePC: nat, maxFrames: nat, aBp: nat, stackEnd: nat)
    returns (reports: seq<Report>)
    ensures reports == Reported(firstFramePC, maxFrames, FrameChain(mem, aBp, stackEnd))
  {
    var skipper := new FrameSkipper(firstFramePC);
    var numFrames: nat := 0;
    var bp := aBp;
    reports := [];
    ghost var chain := FrameChain(mem, aBp, stackEnd);
    ghost var total := WalkFrom(firstFramePC, 0, maxFrames, chain);
    var done := false;
    while bp != 0 && !done
      invariant fresh(skipper)
      invariant maxFrames == 0 || numFrames < maxFrames || done
      invariant !done ==> chain == FrameChain(mem, bp, stackEnd)
      invariant !done ==> reports + WalkFrom(skipper.pc, numFrames, maxFrames, chain) == total
      invariant done ==> reports == total
      decreases !done, stackEnd - bp
    {
      var next := mem(bp);
      FrameChainStep(mem, bp, stackEnd);
      if next <= bp || next >= stackEnd || next % 4 != 0 {
        done := true;
      } else {
        var pc := mem(bp + W);
        var sp := bp + 2 * W;
        ghost var t, n, before := skipper.pc, numFrames, reports;
        ghost var rest := FrameChain(mem, next, stackEnd);
        numFrames, reports, done := ReportFrame(skipper, maxFrames, numFrames, reports, Frame(pc, sp));
        CallbackAdvances(t, n, maxFrames, Frame(pc, sp), before, skipper.pc, numFrames, reports, done, rest);
        bp := next;
        chain := rest;
      }
    }
    WalkFromReported(firstFramePC, maxFrames, FrameChain(mem, aBp, stackEnd));
  }

  /** The body of the frame loop for one sane frame: skip it, or report it and stop at the limit. */
  method ReportFrame(skipper: FrameSkipper, maxFrames: nat, numFrames: nat, reports: seq<Report>, f: Frame)
    returns (numFrames': nat, reports': seq<Report>, stop: bool)
    modifies skipper
    ensures CallbackEffect(old(skipper.pc), numFrames, maxFrames, f, reports, skipper.pc, numFrames', reports', stop)
  {
    numFrames', reports', stop := numFrames, reports, false;
    var skip := skipper.ShouldSkipPC(f.pc);
    if !skip {
      numFrames' := numFrames + 1;
      reports' := reports + [Report(numFrames', f.pc, f.sp)];
      if maxFrames != 0 && numFrames' == maxFrames {
        stop := true;
      }
    }
  }

  // ---------------------------------------------------------------------------
  // The unwinder callback

  /** unwind_info: the state the unwinder callback threads through the walk. */
  class UnwindInfo {
    var skipper: FrameSkipper
    const maxFrames: nat
    var numFrames: nat
    /** The callback invocations made so far. */
    var reports: seq<Report>

    constructor (firstFramePC: nat, maxFrames: nat)
      ensures fresh(skipper) && skipper.pc == firstFramePC
      ensures this.maxFrames == maxFrames && numFrames == 0 && reports == []
    {
      skipper := new FrameSkipper(firstFramePC);
      this.maxFrames := maxFrames;
      numFrames := 0;
      reports := [];
    }

    /** unwind_callback: reports a non-skipped pc with the next frame number (no stack address) and stops the unwinder at the limit. */
    method UnwindCallback(pc: nat) returns (stop: bool)
      modifies this, skipper
      ensures skipper == old(skipper)
      ensures CallbackEffect(old(skipper.pc), old(numFrames), maxFrames, Frame(pc, 0), old(reports),
                             skipper.pc, numFrames, reports, stop)
    {
      var skip := skipper.ShouldSkipPC(pc);
      if !skip {
        numFrames := numFrames + 1;
        reports := reports + [Report(numFrames, pc, 0)];
        if maxFrames != 0 && numFrames == maxFrames {
          return true;
        }
      }
      return false;
    }
  }

  /** What one step of a walk does with frame f: skip it, or report it with the next number and stop at a nonzero limit. */
  predicate CallbackEffect(t: nat, n: nat, max: nat, f: Frame, reports: seq<Report>,
                           t': nat, n': nat, reports': seq<Report>, stop: bool)
  {
    var skip := t != 0 && t != f.pc;
    t' == (if skip then t else 0)
    && n' == n + (if skip then 0 else 1)
    && reports' == reports + (if skip then [] else [Report(n', f.pc, f.sp)])
    && (stop <==> !skip && max != 0 && n' == max)
  }

  /** A step on the front frame advances the walk loop by that frame, and a stop leaves nothing more to report. */
  lemma CallbackAdvances(t: nat, n: nat, max: nat, f: Frame, reports: seq<Report>,
                         t': nat, n': nat, reports': seq<Report>, stop: bool, rest: seq<Frame>)
    requires CallbackEffect(t, n, max, f, reports, t', n', reports', stop)
    requires max == 0 || n < max
    ensures max == 0 || stop || n' < max
    ensures !stop ==> reports' + WalkFrom(t', n', max, rest) == reports + WalkFrom(t, n, max, [f] + rest)
    ensures stop ==> reports' == reports + WalkFrom(t, n, max, [f] + rest)
  {
    WalkFromStep(t, n, max, f, rest);
  }

  /**
   * MozStackWalk on the unwinder: the unwinder offers the pcs in order and
   * stops when the callback asks it to.  A null first-frame pc (0) means
   * "skip up to the caller of MozStackWalk", whose return address the
   * caller passes as `callerPC`.
   */
  method MozStackWalk(pcs: seq<nat>, firstFramePC: nat, callerPC: nat, maxFrames: nat) returns (reports: seq<Report>)
    ensures reports == Reported(if firstFramePC != 0 then firstFramePC else callerPC, maxFrames, NoSp(pcs))
  {
    var skipTo := if firstFramePC != 0 then firstFramePC else callerPC;
    var info := new UnwindInfo(skipTo, maxFrames);
    ghost var frames := NoSp(pcs);
    ghost var total := WalkFrom(skipTo, 0, maxFrames, frames);
    var i := 0;
    while i < |pcs|
      invariant 0 <= i <= |pcs|
      invariant fresh(info) && fresh(info.skipper) && info.maxFrames == maxFrames
      invariant maxFrames == 0 || info.numFrames < maxFrames
      invariant info.reports + WalkFrom(info.skipper.pc, info.numFrames, maxFrames, frames[i..]) == total
    {
      ghost var t, n, before := info.skipper.pc, info.numFrames, info.reports;
      assert frames[i..] == [Frame(pcs[i], 0)] + frames[i + 1..];
      var stop := info.UnwindCallback(pcs[i]);
      CallbackAdvances(t, n, maxFrames, Frame(pcs[i], 0), before, info.skipper.pc, info.numFrames, info.reports, stop, frames[i + 1..]);
      if stop {
        break;
      }
      i := i + 1;
    }
    WalkFromReported(skipTo, maxFrames, frames);
    reports := info.reports;
  }

  /** Frames for pcs whose stack address the unwinder does not give. */
  function NoSp(pcs: seq<nat>): (r: seq<Frame>)
    ensures |r| == |pcs| && forall i :: 0 <= i < |pcs| ==> r[i] == Frame(pcs[i], 0)
  {
    seq(|pcs|, i requires 0 <= i < |pcs| => Frame(pcs[i], 0))
  }

  // ---------------------------------------------------------------------------
  // The Windows walker: bounded pc/sp buffers and the rerun

  /** The frames an unwinder yields before the first zero pc, where the walk stops. */
  function UntilZero(frames: seq<Frame>): (r: seq<Frame>)
    ensures |r| <= |frames| && r == frames[..|r|]
    ensures forall j :: 0 <= j < |r| ==> r[j].pc != 0
    ensures |r| < |frames| ==> frames[|r|].pc == 0
  {
    if frames == [] || frames[0].pc == 0 then []
    else [frames[0]] + UntilZero(frames[1..])
  }

  lemma UntilZeroStep(frames: seq<Frame>, i: nat)
    requires i < |frames|
    ensures UntilZero(frames[i..]) == if frames[i].pc == 0 then [] else [frames[i]] + UntilZero(frames[i + 1..])
  {
    assert frames[i..][1..] == frames[i + 1..];
  }

  /** Walk state shared with the unwinding loop: caller-provided buffers that may be too small. */
  class WalkStackData {
    const firstFramePC: nat
    const pcMax: nat
    var pcs: array<nat>
    var pcSize: nat
    var pcCount: nat
    var sps: array<nat>
    var spSize: nat
    var spCount: nat

    /** The buffers are distinct and their sizes are their lengths. */
    predicate Valid()
      reads this
    {
      pcs != sps && pcSize == pcs.Length && spSize == sps.Length
    }

    constructor (firstFramePC: nat, maxFrames: nat, size: nat)
      ensures Valid() && fresh(pcs) && fresh(sps)
      ensures this.firstFramePC == firstFramePC && pcMax == maxFrames
      ensures pcSize == size && spSize == size && pcCount == 0 && spCount == 0
    {
      this.firstFramePC := firstFramePC;
      pcMax := maxFrames;
      pcs := new nat[size];
      pcSize := size;
      pcCount := 0;
      sps := new nat[size];
      spSize := size;
      spCount := 0;
    }

    /** Gives the pc and sp buffers the sizes the previous walk counted, and empties them. */
    method Regrow()
      requires Valid()
      modifies this`pcs, this`pcSize, this`pcCount, this`sps, this`spSize, this`spCount
      ensures Valid() && fresh(pcs) && fresh(sps)
      ensures pcSize == old(pcCount) && spSize == old(spCount) && pcCount == 0 && spCount == 0
    {
      pcs := new nat[pcCount];
      pcSize := pcCount;
      pcCount := 0;
      sps := new nat[spCount];
      spSize := spCount;
      spCount := 0;
    }

    /** The counts are those of `reported`, and the buffers hold its pcs and sps as far as they reach. */
    ghost predicate Stored(reported: seq<Report>)
      reads this, pcs, sps
    {
      pcCount == |reported| && spCount == |reported|
      && (forall k :: 0 <= k < |reported| && k < pcSize && k < pcs.Length ==> pcs[k] == reported[k].pc)
      && (forall k :: 0 <= k < |reported| && k < spSize && k < sps.Length ==> sps[k] == reported[k].sp)
    }

    /** Reports every stored frame, numbered from 1; when all counted frames fit, these are the frames counted. */
    method Collect(ghost reported: seq<Report>) returns (reports: seq<Report>)
      requires Valid() && Stored(reported) && pcCount <= pcSize && spCount <= spSize
      requires forall i :: 0 <= i < |reported| ==> reported[i].number == i + 1
      ensures reports == reported
    {
      reports := [];
      var i := 0;
      while i < pcCount
        invariant 0 <= i <= pcCount
        invariant reports == reported[..i]
      {
        reports := reports + [Report(i + 1, pcs[i], sps[i])];
        i := i + 1;
      }
    }

    /** Counts one more frame, storing its pc and sp where the buffers have room. */
    method Record(pc: nat, sp: nat, ghost reported: seq<Report>)
      requires Valid() && Stored(reported)
      modifies this`pcCount, this`spCount, pcs, sps
      ensures Valid() && Stored(reported + [Report(pcCount, pc, sp)])
      ensures pcCount == old(pcCount) + 1
    {
      if pcCount < pcSize {
        pcs[pcCount] := pc;
      }
      pcCount := pcCount + 1;
      if spCount < spSize {
        sps[spCount] := sp;
      }
      spCount := spCount + 1;
    }

    /** The callback on one frame: skip it, or record it and stop when the count reaches a nonzero maximum. */
    method Visit(skipper: FrameSkipper, f: Frame, ghost reported: seq<Report>) returns (stop: bool, ghost reported': seq<Report>)
      requires Valid() && Stored(reported)
      modifies this`pcCount, this`spCount, pcs, sps, skipper
      ensures Valid() && Stored(reported')
      ensures CallbackEffect(old(skipper.pc), old(pcCount), pcMax, f, reported, skipper.pc, pcCount, reported', stop)
    {
      stop, reported' := false, reported;
      var skip := skipper.ShouldSkipPC(f.pc);
      if !skip {
        Record(f.pc, f.sp, reported);
        reported' := reported + [Report(pcCount, f.pc, f.sp)];
        if pcMax != 0 && pcCount == pcMax {
          stop := true;
        }
      }
    }

    /**
     * One turn of the walk loop on frame i: a zero pc ends the walk, any other
     * frame goes to the callback.  Reported-so-far followed by what the rest of
     * the loop reports stays the whole walk.
     */
    method Step(skipper: FrameSkipper, frames: seq<Frame>, i: nat, ghost reported: seq<Report>, ghost total: seq<Report>)
      returns (done: bool, ghost reported': seq<Report>)
      requires i < |frames| && Valid() && Stored(reported)
      requires pcMax == 0 || pcCount < pcMax
      requires reported + WalkFrom(skipper.pc, pcCount, pcMax, UntilZero(frames[i..])) == total
      modifies this`pcCount, this`spCount, pcs, sps, skipper
      ensures Valid() && Stored(reported')
      ensures pcMax == 0 || pcCount < pcMax || done
      ensures !done ==> reported' + WalkFrom(skipper.pc, pcCount, pcMax, UntilZero(frames[i + 1..])) == total
      ensures done ==> reported' == total
    {
      var f := frames[i];
      UntilZeroStep(frames, i);
      if f.pc == 0 {
        return true, reported;
      }
      ghost var t, n := skipper.pc, pcCount;
      done, reported' := Visit(skipper, f, reported);
      CallbackAdvances(t, n, pcMax, f, reported, skipper.pc, pcCount, reported', done, UntilZero(frames[i + 1..]));
    }

    /**
     * WalkStackMain64: counts every reported frame, stores its pc and sp
     * while the buffers have room, and stops at a zero pc, at the end of
     * the unwinder's frames, or when the count reaches a nonzero maximum.
     */
    method WalkStackMain64(frames: seq<Frame>)
      requires Valid() && pcCount == 0 && spCount == 0
      modifies this`pcCount, this`spCount, pcs, sps
      ensures Valid()
      ensures Stored(Reported(firstFramePC, pcMax, UntilZero(frames)))
    {
      var skipper := new FrameSkipper(firstFramePC);
      ghost var total := WalkFrom(firstFramePC, 0, pcMax, UntilZero(frames));
      ghost var reported: seq<Report> := [];
      var i := 0;
      var done := false;
      while i < |frames| && !done
        invariant 0 <= i <= |frames|
        invariant fresh(skipper)
        invariant Valid() && Stored(reported)
        invariant pcMax == 0 || pcCount < pcMax || done
        invariant !done ==> reported + WalkFrom(skipper.pc, pcCount, pcMax, UntilZero(frames[i..])) == total
        invariant done ==> reported == total
        decreases !done, |frames| - i
      {
        done, reported := Step(skipper, frames, i, reported, total);
        i := i + 1;
      }
      WalkFromReported(firstFramePC, pcMax, UntilZero(frames));
    }
  }

  /**
   * DoMozStackWalkThread: walks into 1024-entry buffers; if more frames
   * were counted than fit, walks again into buffers of exactly the counted
   * size; then reports every stored frame, numbered from 1.  The unwinder is
   * taken to yield the same frames on both walks.
   */
  method DoMozStackWalkThread(frames: seq<Frame>, firstFramePC: nat, maxFrames: nat)
    returns (reports: seq<Report>)
    ensures reports == Reported(firstFramePC, maxFrames, UntilZero(frames))
  {
    var data := new WalkStackData(firstFramePC, maxFrames, 1024);
    data.WalkStackMain64(frames);
    if data.pcCount > data.pcSize {
      data.Regrow();
      data.WalkStackMain64(frames);
    }
    ghost var r := Reported(firstFramePC, maxFrames, UntilZero(frames));
    ReportedShape(firstFramePC, maxFrames, UntilZero(frames));
    reports := data.Collect(r);
  }

  // ---------------------------------------------------------------------------
  // Frame-line formatting

  /** %02u: the decimal digits, padded on the left with one zero below 10. */
  function Pad2(n: nat): (r: string)
    ensures |r| >= 2 && AllDigits(r, 10)
  {
    if n < 10 then "0" + Digits(n, 10) else Digits(n, 10)
  }

  /** Padding does not change the value read back. */
  lemma Pad2Parses(n: nat)
    ensures ParseDigits(Pad2(n), 10) == n
  {
    ParseDigitsOfDigits(n, 10);
    if n < 10 {
      var r := Pad2(n);
      assert r[..|r| - 1] == "0";
      assert "0"[..0] == [];
    }
  }

  /** A pointer-sized offset as uintptr_t sees it: two's complement modulo 2^64. */
  function ToUintPtr(x: int): (r: nat)
    ensures r < 0x1_0000_0000_0000_0000
    ensures 0 <= x < 0x1_0000_0000_0000_0000 ==> r == x
    ensures -0x1_0000_0000_0000_0000 <= x < 0 ==> r == x + 0x1_0000_0000_0000_0000
  {
    x % 0x1_0000_0000_0000_0000
  }

  /** What the symbolizer knows about a code address; an empty string stands for a missing or empty name. */
  datatype CodeAddressDetails = CodeAddressDetails(functionName: string, library: string, lOffset: int,
                                                   fileName: string, lineNo: nat)

  /**
   * MozFormatCodeAddress: "#NN: " and then the description of the frame.
   */
  function FormatCodeAddress(frameNumber: nat, d: CodeAddressDetails): string
  {
    "#" + Pad2(frameNumber) + ": " + Description(d)
  }

  /**
   * "function (file:line)" when a file is known, "function[library +0xoffset]"
   * when only a library is, and "??? (???:???)" otherwise; a missing function
   * name prints as "???".
   */
  function Description(d: CodeAddressDetails): (r: string)
    ensures |r| > 0
    ensures d.fileName != "" ==> r[|r| - 1] == ')'
    ensures d.fileName == "" && d.library != "" ==> r[|r| - 1] == ']'
    ensures d.fileName == "" && d.library == "" ==> r == "??? (???:???)"
  {
    var name := if d.functionName != "" then d.functionName else "???";
    if d.fileName != "" then
      name + " (" + d.fileName + ":" + Digits(d.lineNo, 10) + ")"
    else if d.library != "" then
      name + "[" + d.library + " +0x" + Digits(ToUintPtr(d.lOffset), 16) + "]"
    else
      "??? (???:???)"
  }

  /**
   * The two informative forms of a description: the function name (or "???"
   * when it is missing) followed by "(file:line)" or by "[library +0xoffset]",
   * where the decimal line number and the hexadecimal uintptr_t offset read
   * back as the numbers that were printed.
   */
  lemma DescriptionForms(d: CodeAddressDetails)
    ensures var name := if d.functionName == "" then "???" else d.functionName;
      && (d.fileName != "" ==>
            && Description(d) == name + " (" + d.fileName + ":" + Digits(d.lineNo, 10) + ")"
            && ParseDigits(Digits(d.lineNo, 10), 10) == d.lineNo)
      && (d.fileName == "" && d.library != "" ==>
            && Description(d) == name + "[" + d.library + " +0x" + Digits(ToUintPtr(d.lOffset), 16) + "]"
            && ParseDigits(Digits(ToUintPtr(d.lOffset), 16), 16) == ToUintPtr(d.lOffset))
      && (d.fileName != "" || d.library != "" ==> Description(d)[..|name|] == name)
  {
    ParseDigitsOfDigits(d.lineNo, 10);
    ParseDigitsOfDigits(ToUintPtr(d.lOffset), 16);
  }

  /** The longest prefix made of decimal digits. */
  function TakeDigits(s: string): (r: string)
    ensures |r| <= |s| && r == s[..|r|] && AllDigits(r, 10)
    ensures |r| < |s| ==> !IsDigit(s[|r|], 10)
  {
    if s == [] || !IsDigit(s[0], 10) then [] else [s[0]] + TakeDigits(s[1..])
  }

  /** The frame number a formatted line starts with: '#', decimal digits, ':'. */
  function FrameNumberOf(line: string): (r: Option<nat>)
    ensures r.Some? ==> |line| >= 3 && line[0] == '#'
  {
    if line == [] || line[0] != '#' then None
    else
      var ds := TakeDigits(line[1..]);
      if ds != [] && 1 + |ds| < |line| && line[1 + |ds|] == ':' then Some(ParseDigits(ds, 10)) else None
  }

  lemma {:induction false} TakeDigitsPrefix(ds: string, s: string)
    requires AllDigits(ds, 10) && s != [] && !IsDigit(s[0], 10)
    ensures TakeDigits(ds + s) == ds
  {
    if ds != [] {
      assert (ds + s)[1..] == ds[1..] + s;
      TakeDigitsPrefix(ds[1..], s);
    } else {
      assert ds + s == s;
    }
  }

  /** Every formatted line gives its frame number back. */
  lemma FormattedFrameNumber(frameNumber: nat, d: CodeAddressDetails)
    ensures FrameNumberOf(FormatCodeAddress(frameNumber, d)) == Some(frameNumber)
  {
    var r := FormatCodeAddress(frameNumber, d);
    var p := Pad2(frameNumber);
    assert r[1..] == p + (": " + Description(d));
    TakeDigitsPrefix(p, ": " + Description(d));
    Pad2Parses(frameNumber);
  }

  /**
   * snprintf into a buffer of `size` bytes: at most size - 1 characters of
   * the text and a terminating NUL; the result is the full length of the text.
   */
  method SprintfBuf(buf: array<char>, size: nat, text: string) returns (len: nat)
    requires 0 < size <= buf.Length
    modifies buf
    ensures len == |text|
    ensures buf[..Min(|text|, size - 1)] == text[..Min(|text|, size - 1)] && buf[Min(|text|, size - 1)] == '\0'
    ensures buf[Min(|text|, size - 1) + 1..] == old(buf[Min(|text|, size - 1) + 1..])
  {
    var n := Min(|text|, size - 1);
    var i := 0;
    while i < n
      invariant 0 <= i <= n
      invariant forall k :: 0 <= k < i ==> buf[k] == text[k]
      invariant forall k :: n <= k < buf.Length ==> buf[k] == old(buf[k])
    {
      buf[i] := text[i];
      i := i + 1;
    }
    buf[n] := '\0';
    assert buf[..n] == text[..n];
    assert buf[n + 1..] == old(buf[n + 1..]);
    len := |text|;
  }

  /**
   * PrintStackFrameBuf: formats into N - 1 bytes, keeps at most N - 2
   * characters, then appends a newline and a NUL; returns the length
   * without the NUL, which is never more than N - 1.
   */
  method PrintStackFrameBuf(buf: array<char>, frameNumber: nat, d: CodeAddressDetails) returns (len: nat)
    requires buf.Length >= 2
    modifies buf
    ensures len == Min(|FormatCodeAddress(frameNumber, d)|, buf.Length - 2) + 1 && len <= buf.Length - 1
    ensures buf[..len] == FrameLine(FormatCodeAddress(frameNumber, d), buf.Length) && buf[len] == '\0'
  {
    var text := FormatCodeAddress(frameNumber, d);
    len := SprintfBuf(buf, buf.Length - 1, text);
    len := Min(len, buf.Length - 2);
    buf[len] := '\n';
    len := len + 1;
    buf[len] := '\0';
    assert buf[..len] == buf[..len - 1] + ['\n'];
  }

  /** The line a buffer of n bytes carries for a text: the text cut to n - 2 characters, and a newline. */
  function FrameLine(text: string, n: nat): (r: string)
    requires n >= 2
    ensures |r| == Min(|text|, n - 2) + 1 && r[|r| - 1] == '\n'
    ensures |text| <= n - 2 ==> r == text + "\n"
  {
    text[..Min(|text|, n - 2)] + "\n"
  }

  /** A write call's result is taken only when it is positive and no more than was asked for. */
  predicate WriteAccepted(written: int, asked: nat)
  {
    0 < written <= asked
  }

  /**
   * EnsureWrite: writes the buffer in as many calls as it takes, and gives
   * up at the first call that reports an error, no progress or more than
   * was asked.  `write(k, m)` is what the k-th call asking for m bytes
   * returns; the k-th call's accepted result w means the next w bytes went out.
   */
  method EnsureWrite(buf: string, write: (nat, nat) -> int) returns (out: string, calls: nat)
    ensures |out| <= |buf| && out == buf[..|out|]
    ensures |out| == |buf| || !WriteAccepted(write(calls, |buf| - |out|), |buf| - |out|)
    ensures (forall k: nat, m: nat :: write(k, m) == m) ==> out == buf && calls == (if buf == [] then 0 else 1)
  {
    out := [];
    calls := 0;
    var pos := 0;
    while pos < |buf|
      invariant 0 <= pos <= |buf| && out == buf[..pos]
      invariant (forall k: nat, m: nat :: write(k, m) == m) ==> calls == (if pos == 0 then 0 else 1) && (pos == 0 || pos == |buf|)
      decreases |buf| - pos
    {
      var written := write(calls, |buf| - pos);
      if !WriteAccepted(written, |buf| - pos) {
        return;
      }
      out := out + buf[pos..pos + written];
      pos := pos + written;
      calls := calls + 1;
    }
  }

  /**
   * PrintStackFrame: describes the pc (the symbolizer's answer is a
   * parameter), formats the line into a 1025-byte buffer and writes it out.
   */
  method PrintStackFrame(frameNumber: nat, d: CodeAddressDetails, write: (nat, nat) -> int)
    returns (out: string)
    ensures var line := FrameLine(FormatCodeAddress(frameNumber, d), 1025);
            |out| <= |line| && out == line[..|out|]
            && ((forall k: nat, m: nat :: write(k, m) == m) ==> out == line)
  {
    var buf := new char[1025];
    var len := PrintStackFrameBuf(buf, frameNumber, d);
    var calls;
    out, calls := EnsureWrite(buf[..len], write);
  }
}
