/**
 The pipeline object of media/src/window_pipeline.rs. Its methods update their fields in
 place; each is proved to do exactly the step of WindowSpec on the object's value. The
 ghost fields keep the books that WindowRuns reasons about.
 */
module WindowPipeline {
  import opened Bytes
  import opened Numbers
  import opened WindowSpec
  import WindowRuns

  /** `select_frames`: every `Stride`-th index. */
  method SelectFrames(n: nat, ratio: real) returns (kept: seq<nat>)
    requires n > 0 && ratio < 1.0
    ensures kept == Kept(n, ratio)
  {
    if ratio <= 0.2 {
      assert KeptFrom(n, n, n) == [];
      return [0];
    }
    var step := Stride(n, ratio);
    kept := [];
    var next := 0;
    while next < n
      invariant kept + KeptFrom(n, step, next) == Kept(n, ratio)
      decreases n - next
    {
      kept := kept + [next];
      next := next + step;
    }
  }

  /** `pad_rgba`: the picture copied row by row into a zeroed buffer. */
  method PadRgba(src: seq<byte>, srcW: nat, srcH: nat, dstW: nat, dstH: nat) returns (dst: array<byte>)
    requires |src| == srcH * (4 * srcW)
    ensures fresh(dst) && dst[..] == Pad(src, 4 * srcW, srcH, 4 * dstW, dstH)
  {
    var srcStride, dstStride := 4 * srcW, 4 * dstW;
    var size := dstH * dstStride;
    dst := new byte[size](_ => 0);
    var copyH, copyW := Min(srcH, dstH), Min(srcStride, dstStride);
    hide RowsDone, Pad;
    NothingDone(dst[..], src, srcStride, srcH, dstStride);
    for y := 0 to copyH
      invariant RowsDone(dst[..], src, srcStride, srcH, dstStride, y)
    {
      CopyRow(dst, src, srcStride, srcH, dstStride, dstH, y);
    }
    ZeroRows(dst[..], src, srcStride, srcH, dstStride, copyH, dstH);
    PadIsDone(dst[..], src, srcStride, srcH, dstStride, dstH);
  }

  /** Rows 0 to `y` hold the padded picture; the others are still zero. */
  ghost predicate RowsDone(d: seq<byte>, src: seq<byte>, srcStride: nat, srcH: nat, dstStride: nat, y: nat)
    requires |src| == srcH * srcStride
  {
    var at := y * dstStride;
    at <= |d| && d[..at] == Pad(src, srcStride, srcH, dstStride, y) && AllZero(d[at..])
  }

  lemma NothingDone(d: seq<byte>, src: seq<byte>, srcStride: nat, srcH: nat, dstStride: nat)
    requires |src| == srcH * srcStride && AllZero(d)
    ensures RowsDone(d, src, srcStride, srcH, dstStride, 0)
  {
    assert 0 * dstStride == 0;
  }

  lemma PadIsDone(d: seq<byte>, src: seq<byte>, srcStride: nat, srcH: nat, dstStride: nat, dstH: nat)
    requires |src| == srcH * srcStride && |d| == dstH * dstStride
    requires RowsDone(d, src, srcStride, srcH, dstStride, dstH)
    ensures d == Pad(src, srcStride, srcH, dstStride, dstH)
  {
    assert d[..dstH * dstStride] == d;
  }

  ghost predicate AllZero(d: seq<byte>) {
    forall i | 0 <= i < |d| :: d[i] == 0
  }

  /** Row `y` of the picture; what it leaves of its place stays zero. */
  method CopyRow(dst: array<byte>, src: seq<byte>, srcStride: nat, srcH: nat, dstStride: nat, ghost dstH: nat, y: nat)
    requires |src| == srcH * srcStride && y < srcH && y < dstH && dst.Length == dstH * dstStride
    requires RowsDone(dst[..], src, srcStride, srcH, dstStride, y)
    modifies dst
    ensures RowsDone(dst[..], src, srcStride, srcH, dstStride, y + 1)
  {
    RowFits(srcStride, srcH, y);
    RowFits(dstStride, dstH, y);
    ghost var at := y * dstStride;
    assert dst[..][..at] == dst[..at] && dst[..][at..] == dst[at..];
    CopyBytes(dst, src, y * srcStride, y * dstStride, Min(srcStride, dstStride), dstStride);
    assert dst[..][..at + dstStride] == dst[..at + dstStride] && dst[..][at + dstStride..] == dst[at + dstStride..];
  }

  method CopyBytes(dst: array<byte>, src: seq<byte>, from: nat, to: nat, n: nat, ghost stride: nat)
    requires from + n <= |src| && n <= stride && to + stride <= dst.Length && AllZero(dst[to..])
    modifies dst
    ensures dst[..to + stride] == old(dst[..to]) + (src[from..from + n] + Repeat(stride - n, 0))
    ensures AllZero(dst[to + stride..])
  {
    assert forall i | to <= i < dst.Length :: dst[i] == dst[to..][i - to];
    for k := 0 to n
      invariant dst[..to] == old(dst[..to]) && dst[to..to + k] == src[from..from + k]
      invariant forall i | to + k <= i < dst.Length :: dst[i] == 0
    {
      dst[to + k] := src[from + k];
    }
    assert dst[..to + stride] == dst[..to] + (dst[to..to + n] + dst[to + n..to + stride]);
    assert dst[to + n..to + stride] == Repeat(stride - n, 0);
  }

  /** Rows below the picture need no copying. */
  lemma {:induction false} ZeroRows(d: seq<byte>, src: seq<byte>, srcStride: nat, srcH: nat, dstStride: nat, y: nat, rows: nat)
    requires |src| == srcH * srcStride && |d| == rows * dstStride && y <= rows && (srcH <= y || y == rows)
    requires RowsDone(d, src, srcStride, srcH, dstStride, y)
    ensures RowsDone(d, src, srcStride, srcH, dstStride, rows)
    decreases rows - y
  {
    if y < rows {
      ZeroRow(d, src, srcStride, srcH, dstStride, y, rows);
      ZeroRows(d, src, srcStride, srcH, dstStride, y + 1, rows);
    }
  }

  lemma ZeroRow(d: seq<byte>, src: seq<byte>, srcStride: nat, srcH: nat, dstStride: nat, y: nat, rows: nat)
    requires |src| == srcH * srcStride && |d| == rows * dstStride && srcH <= y < rows
    requires RowsDone(d, src, srcStride, srcH, dstStride, y)
    ensures RowsDone(d, src, srcStride, srcH, dstStride, y + 1)
  {
    RowFits(dstStride, rows, y);
    var at := y * dstStride;
    assert d[at..at + dstStride] == d[at..][..dstStride];
    assert d[at..at + dstStride] == Repeat(dstStride, 0);
    assert d[..at + dstStride] == d[..at] + d[at..at + dstStride];
    assert d[at + dstStride..] == d[at..][dstStride..];
  }

  lemma KeepingOneIsNothing(s: State)
    requires |s.frames| == 1
    ensures KeepLatest(s) == s
  {
    assert s.fates + seq(0, _ => Stale) == s.fates;
  }

  lemma SizesAgree(s: State, f: Frame)
    requires WindowRuns.Inv(s)
    ensures OneSize(s.frames) && (!ChangesSize(s, f) ==> OneSize(s.frames + [f]))
  {
  }

  class Pipeline {
    var frames: seq<Frame>
    var needsIdr: bool
    var start: Option<nat>
    var windowId: nat
    var lastFrameTime: Option<nat>
    var lowLatency: bool
    var ratio: real
    const config: Config

    ghost var pushed: seq<Frame>
    ghost var fates: seq<Fate>
    ghost var out: seq<EncodedWindow>

    ghost function Value(): State
      reads this
    {
      State(frames, needsIdr, start, windowId, lastFrameTime, lowLatency, ratio, config, pushed, fates, out)
    }

    ghost predicate Valid()
      reads this
    {
      WindowRuns.Inv(Value())
    }

    constructor (config: Config)
      ensures Valid() && Value() == Init(config)
    {
      this.config := config;
      frames, needsIdr, start, windowId := [], false, None, 0;
      lastFrameTime, lowLatency, ratio := None, false, 1.0;
      pushed, fates, out := [], [], [];
      new;
      WindowRuns.StartIsGood(config);
    }

    method SetLowLatency(on: bool)
      requires Valid()
      modifies this
      ensures Valid() && Value() == Step(old(Value()), OpSetLowLatency(on)).0
    {
      WindowRuns.StepKeepsInv(Value(), OpSetLowLatency(on));
      lowLatency := on;
    }

    method UpdateEncodeConfig(r: real)
      requires Valid()
      modifies this
      ensures Valid() && Value() == Step(old(Value()), OpSetRatio(r)).0
    {
      WindowRuns.StepKeepsInv(Value(), OpSetRatio(r));
      ratio := r;
    }

    method PushFrame(f: Frame, gate: bool, luck: Luck) returns (reply: Reply)
      requires Valid()
      modifies this
      ensures Valid() && (Value(), reply) == Push(old(Value()), f, gate, luck)
    {
      WindowRuns.PushKeepsInv(Value(), f, gate, luck);
      SizesAgree(Value(), f);
      hide WindowRuns.Inv, PushNewSize, PushSameSize, OneSize;
      if f.forceKey {
        needsIdr := true;
      }
      pushed := pushed + [f];
      if frames != [] && (frames[0].width != f.width || frames[0].height != f.height) {
        reply := PushAfterOldWindow(f, luck);
      } else {
        reply := PushIntoWindow(f, gate, luck);
      }
    }

    /** The arm of `push_frame` for a frame of another size. */
    method PushAfterOldWindow(f: Frame, luck: Luck) returns (reply: Reply)
      requires OneSize(frames)
      modifies this
      ensures (Value(), reply) == PushNewSize(old(Value()), f, luck)
    {
      hide Encode;
      reply := EncodeCurrentWindow(luck);
      if reply == Failed {
        fates := fates + [Lost];
        return;
      }
      start := Some(f.timestamp);
      frames := frames + [f];
      lastFrameTime := Some(f.timestamp);
    }

    /** The rest of `push_frame`. */
    method PushIntoWindow(f: Frame, gate: bool, luck: Luck) returns (reply: Reply)
      requires OneSize(frames + [f])
      modifies this
      ensures (Value(), reply) == PushSameSize(old(Value()), f, gate, luck)
    {
      hide Encode, Elapsed;
      var now := f.timestamp;
      if start == None {
        start := Some(now);
      }
      frames := frames + [f];
      if f.forceKey {
        DropStaleFrames();
        reply := EncodeCurrentWindow(luck);
        return;
      }
      var idleExpired := Elapsed(lastFrameTime, now, config.idleMs);
      lastFrameTime := Some(now);
      reply := CloseWindowIfDue(now, idleExpired, gate, luck);
    }

    method CloseWindowIfDue(now: nat, idleExpired: bool, gate: bool, luck: Luck) returns (reply: Reply)
      requires OneSize(frames) && frames != []
      modifies this
      ensures (Value(), reply) == CloseIfDue(old(Value()), now, idleExpired, gate, luck)
    {
      hide Encode, Elapsed;
      var shouldClose := lowLatency || Elapsed(start, now, config.durationMs) || |frames| >= config.maxFrames || idleExpired;
      if !shouldClose {
        return Silent;
      }
      if gate {
        DropStaleFrames();
        reply := EncodeCurrentWindow(luck);
        return;
      }
      if lowLatency {
        if |frames| == 1 {
          KeepingOneIsNothing(Value());
        }
        KeepLatestFrame();
      }
      return Silent;
    }

    /** Pops the newest frame, clears the buffer, and puts it back. */
    method KeepLatestFrame()
      requires frames != []
      modifies this
      ensures Value() == KeepLatest(old(Value()))
    {
      var latest := frames[|frames| - 1];
      fates := fates + seq(|frames| - 1, _ => Stale);
      frames := [];
      frames := frames + [latest];
    }

    method DropStaleFrames()
      modifies this
      ensures Value() == DropStale(old(Value()))
    {
      if !lowLatency || |frames| <= 1 {
        return;
      }
      KeepLatestFrame();
    }

    method FlushWindow(luck: Luck) returns (reply: Reply)
      requires Valid()
      modifies this
      ensures Valid() && (Value(), reply) == Flush(old(Value()), luck)
    {
      WindowRuns.FlushKeepsInv(Value(), luck);
      hide WindowRuns.Inv, Encode;
      if frames == [] {
        return Silent;
      }
      reply := EncodeCurrentWindow(luck);
    }

    method FlushWindowIfExpired(now: nat, luck: Luck) returns (reply: Reply)
      requires Valid()
      modifies this
      ensures Valid() && (Value(), reply) == FlushIfExpired(old(Value()), now, luck)
    {
      var expired := Elapsed(start, now, config.durationMs);
      if expired && frames != [] {
        reply := FlushWindow(luck);
        return;
      }
      return Silent;
    }

    /** Takes the buffer, encodes the kept frames one by one, and stops at an error or past the budget. */
    method EncodeCurrentWindow(luck: Luck) returns (reply: Reply)
      requires OneSize(frames)
      modifies this
      ensures (Value(), reply) == Encode(old(Value()), luck)
    {
      ghost var s := Value();
      var taken, idr := frames, needsIdr;
      frames := [];
      needsIdr := false;
      start := None;
      if taken == [] {
        var id := windowId;
        windowId := windowId + 1;
        out := out + [EmptyWindow(id)];
        return Window(EmptyWindow(id));
      }
      var baseW, baseH := taken[0].width, taken[0].height;
      var alignedW, alignedH := Align(baseW), Align(baseH);
      var views := Views(taken);
      var kept: seq<nat>;
      if ratio < 1.0 {
        kept := SelectFrames(|taken|, ratio);
        needsIdr := true;
      } else {
        kept := seq(|taken|, i => i);
        AllKept(|taken|, 0);
        assert kept == Kept(|taken|, ratio);
      }
      fates := fates + FatesFrom(s, Stride(|taken|, ratio), OutcomeOf(s, luck), 0, 0, 0);
      var calls, failed := EncodeKept(taken, views, kept, idr, luck, s);
      if failed {
        return Failed;
      }
      var id := windowId;
      windowId := windowId + 1;
      var window := EncodedWindow(id, baseW, baseH, alignedW, alignedH, calls);
      assert window == WindowOf(s, luck);
      out := out + [window];
      return Window(window);
    }

    /** The encoding loop. */
    method EncodeKept(taken: seq<Frame>, views: seq<seq<byte>>, kept: seq<nat>, idr: bool, luck: Luck, ghost s: State)
      returns (calls: seq<Call>, failed: bool)
      requires taken != [] && OneSize(taken) && |views| == |taken| && forall p | 0 <= p < |kept| :: kept[p] < |taken|
      requires forall i | 0 <= i < |taken| :: views[i] == View(taken[i], Align(taken[i].width), Align(taken[i].height))
      requires s.needsIdr == idr && s.lowLatency == lowLatency
      ensures Attempt(|kept|, 0, luck) == Outcome(if failed then Attempt(|kept|, 0, luck).done else |calls|, failed)
      ensures !failed ==> |calls| <= |kept| && forall p | 0 <= p < |calls| :: calls[p] == CallFor(taken[kept[p]], ForceIdr(s, p))
    {
      hide View;
      var alignedW, alignedH := Align(taken[0].width), Align(taken[0].height);
      calls, failed := [], false;
      for i := 0 to |kept|
        invariant Attempt(|kept|, i, luck) == Attempt(|kept|, 0, luck)
        invariant |calls| == i && !failed
        invariant forall p | 0 <= p < i :: calls[p] == CallFor(taken[kept[p]], ForceIdr(s, p))
      {
        if i > 0 && luck.spent(i) {
          return;
        }
        var force := idr || (i == 0 && !lowLatency);
        if luck.rejects(i) {
          failed := true;
          return;
        }
        calls := calls + [Call(views[kept[i]], alignedW, alignedH, force)];
      }
    }
  }

  lemma {:induction false} AllKept(n: nat, next: nat)
    requires next <= n
    ensures KeptFrom(n, 1, next) == seq(n - next, i => next + i)
    decreases n - next
  {
    if next < n {
      AllKept(n, next + 1);
    }
  }

  /** The pixels of each frame, padded to the base size of the window when that is not aligned. */
  method Views(taken: seq<Frame>) returns (views: seq<seq<byte>>)
    requires taken != [] && OneSize(taken)
    ensures |views| == |taken|
    ensures forall i | 0 <= i < |taken| :: views[i] == View(taken[i], Align(taken[i].width), Align(taken[i].height))
  {
    var baseW, baseH := taken[0].width, taken[0].height;
    var alignedW, alignedH := Align(baseW), Align(baseH);
    var needPad := baseW != alignedW || baseH != alignedH;
    views := [];
    for i := 0 to |taken|
      invariant |views| == i
      invariant forall k | 0 <= k < i :: views[k] == View(taken[k], alignedW, alignedH)
    {
      if needPad {
        var padded := PadRgba(taken[i].data, baseW, baseH, alignedW, alignedH);
        views := views + [padded[..]];
      } else {
        views := views + [taken[i].data];
      }
    }
  }
}
