/**
 What media/src/window_pipeline.rs does with captured frames, as steps on a value: buffer,
 close the window, encode, drop. The clock, the frequency gate, the elapsed encoding time
 and the encoder's verdicts are inputs of each step.

 `State` also carries a history: every frame ever pushed, what became of each one that
 has left the buffer, and every window returned. The theorems about whole runs are in
 WindowRuns.
 */
module WindowSpec {
  import opened Bytes
  import opened Numbers

  datatype RawFrame = RawFrame(data: seq<byte>, width: nat, height: nat, timestamp: nat, forceKey: bool)

  /** An RGBA frame holds four bytes for every pixel. */
  type Frame = f: RawFrame | |f.data| == f.height * (4 * f.width) witness RawFrame([], 0, 0, 0, false)

  datatype Config = Config(durationMs: nat, maxFrames: nat, idleMs: nat)

  /** One frame as handed to the encoder. */
  datatype Call = Call(view: seq<byte>, width: nat, height: nat, idr: bool)

  datatype EncodedWindow = EncodedWindow(id: nat, baseW: nat, baseH: nat, alignedW: nat, alignedH: nat, frames: seq<Call>)

  /** `Silent`: no window closed. `Failed`: the encoder reported an error. */
  datatype Reply = Silent | Window(window: EncodedWindow) | Failed

  /** What became of a frame: `Stale` dropped for a newer one, `Skipped` by the frame ratio,
      `TimedOut` past the encoding budget, `Lost` with a failed encode. */
  datatype Fate = Encoded(window: nat, idr: bool) | Stale | Skipped | TimedOut | Lost

  /** One encode: whether the budget is spent before frame `i`, and whether the encoder rejects it. */
  datatype Luck = Luck(spent: nat -> bool, rejects: nat -> bool)

  datatype State = State(
    frames: seq<Frame>, needsIdr: bool, start: Option<nat>, windowId: nat, lastFrameTime: Option<nat>,
    lowLatency: bool, ratio: real, config: Config,
    pushed: seq<Frame>, fates: seq<Fate>, out: seq<EncodedWindow>)

  function Init(config: Config): State {
    State([], false, None, 0, None, false, 1.0, config, [], [], [])
  }

  // ---- Padding ----

  /** Rounded up to 16 and at least 64. */
  function Align(v: nat): (a: nat)
    ensures a >= v && a >= 64 && a % 16 == 0
    ensures forall m: nat | m >= v && m >= 64 && m % 16 == 0 :: a <= m
  {
    var r := (v + 15) / 16 * 16;
    if r < 64 then 64 else r
  }

  /** Row `y` of the padded picture; strides are in bytes. */
  function PadRow(src: seq<byte>, srcStride: nat, srcH: nat, dstStride: nat, y: nat): (r: seq<byte>)
    requires |src| == srcH * srcStride
    ensures |r| == dstStride
  {
    if y < srcH then
      RowFits(srcStride, srcH, y);
      var w := Min(srcStride, dstStride);
      src[y * srcStride..y * srcStride + w] + Repeat(dstStride - w, 0)
    else Repeat(dstStride, 0)
  }

  lemma RowFits(stride: nat, h: nat, y: nat)
    requires y < h
    ensures (y + 1) * stride == y * stride + stride <= h * stride
  {
    assert h * stride == (y + 1) * stride + (h - y - 1) * stride;
  }

  /** The first `rows` rows of the picture padded with zeros below and to the right. */
  function Pad(src: seq<byte>, srcStride: nat, srcH: nat, dstStride: nat, rows: nat): (p: seq<byte>)
    requires |src| == srcH * srcStride
    ensures |p| == rows * dstStride
  {
    if rows == 0 then []
    else Pad(src, srcStride, srcH, dstStride, rows - 1) + PadRow(src, srcStride, srcH, dstStride, rows - 1)
  }

  /** Every byte of the padded picture: the source byte at the same row and offset, or zero. */
  lemma {:induction false} PadByte(src: seq<byte>, srcStride: nat, srcH: nat, dstStride: nat, rows: nat, y: nat, k: nat)
    requires |src| == srcH * srcStride && y < rows && k < dstStride
    ensures y * dstStride + k < |Pad(src, srcStride, srcH, dstStride, rows)|
    ensures y < srcH && k < srcStride ==> y * srcStride + k < |src|
    ensures Pad(src, srcStride, srcH, dstStride, rows)[y * dstStride + k]
            == if y < srcH && k < srcStride then src[y * srcStride + k] else 0
    decreases rows
  {
    RowFits(dstStride, rows, y);
    PadRowByte(src, srcStride, srcH, dstStride, y, k);
    var above := Pad(src, srcStride, srcH, dstStride, rows - 1);
    if y < rows - 1 {
      RowFits(dstStride, rows - 1, y);
      PadByte(src, srcStride, srcH, dstStride, rows - 1, y, k);
    } else {
      assert |above| == y * dstStride;
    }
  }

  lemma PadRowByte(src: seq<byte>, srcStride: nat, srcH: nat, dstStride: nat, y: nat, k: nat)
    requires |src| == srcH * srcStride && k < dstStride
    ensures y < srcH && k < srcStride ==> y * srcStride + k < |src|
    ensures PadRow(src, srcStride, srcH, dstStride, y)[k] == if y < srcH && k < srcStride then src[y * srcStride + k] else 0
  {
    if y < srcH {
      RowFits(srcStride, srcH, y);
    }
  }

  /** The pixels the encoder gets for a frame. */
  function View(f: Frame, alignedW: nat, alignedH: nat): seq<byte> {
    if f.width != alignedW || f.height != alignedH then Pad(f.data, 4 * f.width, f.height, 4 * alignedW, alignedH)
    else f.data
  }

  function CallFor(f: Frame, idr: bool): Call {
    Call(View(f, Align(f.width), Align(f.height)), Align(f.width), Align(f.height), idr)
  }

  /** What is encoded of a frame: its pixels in their rows, and zeros up to the aligned size. */
  lemma CallPixels(f: Frame, idr: bool, y: nat, k: nat)
    requires y < CallFor(f, idr).height && k < 4 * CallFor(f, idr).width
    ensures
      var call := CallFor(f, idr);
      && call.idr == idr && call.width == Align(f.width) && call.height == Align(f.height)
      && |call.view| == call.height * (4 * call.width)
      && y * (4 * call.width) + k < |call.view|
      && (y < f.height && k < 4 * f.width ==> y * (4 * f.width) + k < |f.data|)
      && call.view[y * (4 * call.width) + k] == if y < f.height && k < 4 * f.width then f.data[y * (4 * f.width) + k] else 0
  {
    hide Pad, Align;
    var (w, h) := (Align(f.width), Align(f.height));
    RowFits(4 * w, h, y);
    PadByte(f.data, 4 * f.width, f.height, 4 * w, h, y, k);
  }

  // ---- Choosing frames ----

  /** Least integer not below `x`. */
  function Ceil(x: real): int {
    -((-x).Floor)
  }

  /** Distance between kept frames; `n` frames at a ratio of at most 0.2 keep only the first. */
  function Stride(n: nat, ratio: real): (k: nat)
    requires n > 0
    ensures k >= 1 && (ratio >= 1.0 ==> k == 1)
  {
    if ratio >= 1.0 then 1
    else if ratio <= 0.2 then n
    else
      assert 1.0 / ratio > 0.0;
      Ceil(1.0 / ratio)
  }

  /** Kept indices from `next` on. */
  function KeptFrom(n: nat, stride: nat, next: nat): (k: seq<nat>)
    requires stride >= 1
    ensures forall p | 0 <= p < |k| :: next <= k[p] < n
    ensures next < n ==> k != [] && k[0] == next
    decreases n - next
  {
    if next >= n then [] else [next] + KeptFrom(n, stride, next + stride)
  }

  function Kept(n: nat, ratio: real): (k: seq<nat>)
    requires n > 0
    ensures forall p | 0 <= p < |k| :: k[p] < n
    ensures k != [] && k[0] == 0
  {
    KeptFrom(n, Stride(n, ratio), 0)
  }

  // ---- Encoding ----

  datatype Outcome = Outcome(done: nat, failed: bool)

  /** How far the encoding loop gets over `n` kept frames, from frame `i` on. */
  function Attempt(n: nat, i: nat, luck: Luck): (o: Outcome)
    requires i <= n
    ensures i <= o.done <= n && (o.failed ==> o.done < n)
    ensures i == 0 < n && !o.failed ==> o.done > 0
    decreases n - i
  {
    if i == n || (i > 0 && luck.spent(i)) then Outcome(i, false)
    else if luck.rejects(i) then Outcome(i, true)
    else Attempt(n, i + 1, luck)
  }

  function ForceIdr(s: State, p: nat): bool {
    s.needsIdr || (p == 0 && !s.lowLatency)
  }

  /** Fates of the buffered frames `j` on, when the next kept one is `next`, at position `p`. */
  function FatesFrom(s: State, stride: nat, o: Outcome, j: nat, next: nat, p: nat): (fs: seq<Fate>)
    requires j <= |s.frames| && stride >= 1
    ensures |fs| == |s.frames| - j
    decreases |s.frames| - j
  {
    if j == |s.frames| then []
    else if o.failed then [Lost] + FatesFrom(s, stride, o, j + 1, next, p)
    else if j != next then [Skipped] + FatesFrom(s, stride, o, j + 1, next, p)
    else [if p < o.done then Encoded(s.windowId, ForceIdr(s, p)) else TimedOut]
         + FatesFrom(s, stride, o, j + 1, next + stride, p + 1)
  }

  ghost predicate OneSize(frames: seq<Frame>) {
    forall i | 0 <= i < |frames| :: frames[i].width == frames[0].width && frames[i].height == frames[0].height
  }

  function OutcomeOf(s: State, luck: Luck): Outcome
    requires s.frames != []
  {
    Attempt(|Kept(|s.frames|, s.ratio)|, 0, luck)
  }

  function WindowOf(s: State, luck: Luck): EncodedWindow
    requires s.frames != []
  {
    var w, h := s.frames[0].width, s.frames[0].height;
    var kept := Kept(|s.frames|, s.ratio);
    EncodedWindow(s.windowId, w, h, Align(w), Align(h),
                  seq(OutcomeOf(s, luck).done, p requires 0 <= p < OutcomeOf(s, luck).done =>
                        CallFor(s.frames[kept[p]], ForceIdr(s, p))))
  }

  function EmptyWindow(id: nat): EncodedWindow {
    EncodedWindow(id, 0, 0, 0, 0, [])
  }

  /** `encode_current_window`: the buffer is gone whatever happens; only a success takes a window id. */
  function Encode(s: State, luck: Luck): (State, Reply) {
    var t := s.(frames := [], needsIdr := false, start := None);
    if s.frames == [] then
      (t.(windowId := s.windowId + 1, out := s.out + [EmptyWindow(s.windowId)]), Window(EmptyWindow(s.windowId)))
    else
      var o := OutcomeOf(s, luck);
      var u := t.(needsIdr := s.ratio < 1.0,
                  fates := s.fates + FatesFrom(s, Stride(|s.frames|, s.ratio), o, 0, 0, 0));
      if o.failed then (u, Failed)
      else (u.(windowId := s.windowId + 1, out := s.out + [WindowOf(s, luck)]), Window(WindowOf(s, luck)))
  }

  // ---- The public operations ----

  /** Only the newest frame stays. */
  function KeepLatest(s: State): State
    requires s.frames != []
  {
    var n := |s.frames| - 1;
    s.(frames := [s.frames[n]], fates := s.fates + seq(n, _ => Stale))
  }

  function DropStale(s: State): State {
    if !s.lowLatency || |s.frames| <= 1 then s else KeepLatest(s)
  }

  /** At least `limit` since `since`; a clock that went backwards counts as no time. */
  predicate Elapsed(since: Option<nat>, now: nat, limit: nat) {
    since.Some? && now >= since.value && now - since.value >= limit
  }

  predicate ChangesSize(s: State, f: Frame) {
    s.frames != [] && (s.frames[0].width != f.width || s.frames[0].height != f.height)
  }

  function Buffered(s: State, f: Frame): State {
    s.(start := if s.start == None then Some(f.timestamp) else s.start, frames := s.frames + [f])
  }

  /** A due window goes out if the gate allows; if not, low latency keeps only the newest frame. */
  function CloseIfDue(t: State, now: nat, idle: bool, gate: bool, luck: Luck): (State, Reply) {
    var due := || t.lowLatency || Elapsed(t.start, now, t.config.durationMs)
               || |t.frames| >= t.config.maxFrames || idle;
    if !due then (t, Silent)
    else if gate then Encode(DropStale(t), luck)
    else (DropStale(t), Silent)
  }

  /** The frame meets a buffer of its own size, or an empty one. */
  function PushSameSize(s: State, f: Frame, gate: bool, luck: Luck): (State, Reply) {
    var b := Buffered(s, f);
    if f.forceKey then Encode(DropStale(b), luck)
    else
      var idle := Elapsed(s.lastFrameTime, f.timestamp, s.config.idleMs);
      CloseIfDue(b.(lastFrameTime := Some(f.timestamp)), f.timestamp, idle, gate, luck)
  }

  /** The old window goes out first; if that fails the new frame is lost with it. */
  function PushNewSize(s: State, f: Frame, luck: Luck): (State, Reply) {
    var (t, reply) := Encode(s, luck);
    if reply == Failed then (t.(fates := t.fates + [Lost]), Failed)
    else (t.(start := Some(f.timestamp), frames := t.frames + [f], lastFrameTime := Some(f.timestamp)), reply)
  }

  function Push(s: State, f: Frame, gate: bool, luck: Luck): (State, Reply) {
    var t := s.(needsIdr := s.needsIdr || f.forceKey, pushed := s.pushed + [f]);
    if ChangesSize(s, f) then PushNewSize(t, f, luck) else PushSameSize(t, f, gate, luck)
  }

  function Flush(s: State, luck: Luck): (State, Reply) {
    if s.frames == [] then (s, Silent) else Encode(s, luck)
  }

  function FlushIfExpired(s: State, now: nat, luck: Luck): (State, Reply) {
    if Elapsed(s.start, now, s.config.durationMs) && s.frames != [] then Flush(s, luck) else (s, Silent)
  }

  // ---- Runs ----

  datatype Op =
    | OpPush(f: Frame, gate: bool, luck: Luck)
    | OpFlush(luck: Luck)
    | OpFlushIfExpired(now: nat, luck: Luck)
    | OpSetLowLatency(on: bool)
    | OpSetRatio(ratio: real)

  function Step(s: State, op: Op): (State, Reply) {
    match op
    case OpPush(f, gate, luck) => Push(s, f, gate, luck)
    case OpFlush(luck) => Flush(s, luck)
    case OpFlushIfExpired(now, luck) => FlushIfExpired(s, now, luck)
    case OpSetLowLatency(on) => (s.(lowLatency := on), Silent)
    case OpSetRatio(r) => (s.(ratio := r), Silent)
  }

  function Run(s: State, ops: seq<Op>): State {
    if ops == [] then s else Step(Run(s, ops[..|ops| - 1]), ops[|ops| - 1]).0
  }
}
