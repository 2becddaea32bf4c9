/**
 Theorems about whole runs of the window pipeline: what every sequence of pushes and
 flushes keeps, which frames must be intra frames, and what low latency changes.
 */
module WindowRuns {
  import opened Bytes
  import opened Numbers
  import opened WindowSpec

  // ---- The books of a run ----

  /** The frames whose fate is window `k`, in the order in which they were pushed, as encoder calls. */
  ghost function CallsOf(frames: seq<Frame>, fates: seq<Fate>, k: nat): seq<Call>
    requires |fates| <= |frames|
  {
    if fates == [] then [] else OwnCall(frames[0], fates[0], k) + CallsOf(frames[1..], fates[1..], k)
  }

  ghost function OwnCall(f: Frame, fate: Fate, k: nat): seq<Call> {
    if fate.Encoded? && fate.window == k then [CallFor(f, fate.idr)] else []
  }

  /** Window `k` consists of exactly the frames whose fate it is, in order, all of one size. */
  ghost predicate Accounted(frames: seq<Frame>, fates: seq<Fate>, w: EncodedWindow, k: nat)
    requires |fates| <= |frames|
  {
    && w.id == k && w.frames != [] && w.frames == CallsOf(frames, fates, k)
    && w.alignedW == Align(w.baseW) && w.alignedH == Align(w.baseH)
    && forall i | 0 <= i < |fates| && fates[i].Encoded? && fates[i].window == k ::
         frames[i].width == w.baseW && frames[i].height == w.baseH
  }

  ghost predicate AllAccounted(frames: seq<Frame>, fates: seq<Fate>, out: seq<EncodedWindow>)
    requires |fates| <= |frames|
  {
    forall k | 0 <= k < |out| :: Accounted(frames, fates, out[k], k)
  }

  /** Encoded frames appear in windows in the order in which they were pushed. */
  ghost predicate InOrder(fates: seq<Fate>) {
    forall i, j | 0 <= i < j < |fates| && fates[i].Encoded? && fates[j].Encoded? :: fates[i].window <= fates[j].window
  }

  ghost predicate Below(fates: seq<Fate>, n: nat) {
    forall i | 0 <= i < |fates| && fates[i].Encoded? :: fates[i].window < n
  }

  /** The books, when the frames `extra` have arrived but are not in the buffer yet. */
  ghost predicate Books(s: State, extra: seq<Frame>) {
    && |s.fates| <= |s.pushed|
    && s.pushed[|s.fates|..] == s.frames + extra
    && OneSize(s.frames)
    && |s.out| == s.windowId
    && AllAccounted(s.pushed, s.fates, s.out)
    && InOrder(s.fates) && Below(s.fates, s.windowId)
  }

  /**
   The invariant of every run. Each frame pushed either is still buffered, or has exactly
   one fate; the buffer is the newest part of the input, in order; the windows returned
   have ids 0, 1, 2, … and hold exactly the frames encoded into them.
   */
  ghost predicate Inv(s: State) {
    Books(s, []) && (s.start.Some? <==> s.frames != [])
  }

  // ---- Bookkeeping of one encode ----

  lemma {:induction false} CallsOfConcat(frames: seq<Frame>, a: seq<Fate>, b: seq<Fate>, k: nat)
    requires |a| + |b| <= |frames|
    ensures CallsOf(frames, a + b, k) == CallsOf(frames, a, k) + CallsOf(frames[|a|..], b, k)
  {
    hide OwnCall;
    if a == [] {
      assert a + b == b && frames[0..] == frames;
    } else {
      var head, tail, rest := OwnCall(frames[0], a[0], k), CallsOf(frames[1..], a[1..], k), CallsOf(frames[|a|..], b, k);
      assert head + (tail + rest) == (head + tail) + rest;
      CallsOfConcat(frames[1..], a[1..], b, k);
      assert (a + b)[1..] == a[1..] + b;
      assert frames[1..][|a| - 1..] == frames[|a|..];
    }
  }

  lemma {:induction false} CallsOfOthers(frames: seq<Frame>, fates: seq<Fate>, k: nat)
    requires |fates| <= |frames|
    requires forall i | 0 <= i < |fates| && fates[i].Encoded? :: fates[i].window != k
    ensures CallsOf(frames, fates, k) == []
  {
    if fates != [] {
      CallsOfOthers(frames[1..], fates[1..], k);
    }
  }

  /** The part of the window still to come when position `p` is next. */
  ghost function WindowTail(s: State, kept: seq<nat>, p: nat, done: nat): seq<Call>
    requires forall q | 0 <= q < |kept| :: kept[q] < |s.frames|
    decreases |kept|
  {
    if kept == [] || p >= done then []
    else [CallFor(s.frames[kept[0]], ForceIdr(s, p))] + WindowTail(s, kept[1..], p + 1, done)
  }

  lemma {:induction false} WindowTailAt(s: State, kept: seq<nat>, p: nat, done: nat)
    requires forall q | 0 <= q < |kept| :: kept[q] < |s.frames|
    requires p <= done <= p + |kept|
    ensures |WindowTail(s, kept, p, done)| == done - p
    ensures forall q | 0 <= q < done - p :: WindowTail(s, kept, p, done)[q] == CallFor(s.frames[kept[q]], ForceIdr(s, p + q))
    decreases |kept|
  {
    hide CallFor, ForceIdr;
    if p < done {
      var rest := WindowTail(s, kept[1..], p + 1, done);
      WindowTailAt(s, kept[1..], p + 1, done);
      forall q | 0 < q < done - p ensures WindowTail(s, kept, p, done)[q] == CallFor(s.frames[kept[q]], ForceIdr(s, p + q)) {
        assert rest[q - 1] == CallFor(s.frames[kept[1..][q - 1]], ForceIdr(s, p + 1 + (q - 1)));
      }
    }
  }

  lemma CallsUnfold(s: State, fates: seq<Fate>, j: nat)
    requires j < |s.frames| && |fates| == |s.frames| - j
    ensures CallsOf(s.frames[j..], fates, s.windowId)
            == OwnCall(s.frames[j], fates[0], s.windowId) + CallsOf(s.frames[j + 1..], fates[1..], s.windowId)
  {
    hide OwnCall;
    assert s.frames[j..][1..] == s.frames[j + 1..] && s.frames[j..][0] == s.frames[j];
  }

  /** One frame that is kept: its own call, if the loop gets that far, then the rest. */
  lemma KeptFrameGives(s: State, stride: nat, o: Outcome, j: nat, p: nat)
    requires j < |s.frames| && stride >= 1 && !o.failed
    requires CallsOf(s.frames[j + 1..], FatesFrom(s, stride, o, j + 1, j + stride, p + 1), s.windowId)
             == WindowTail(s, KeptFrom(|s.frames|, stride, j + stride), p + 1, o.done)
    ensures CallsOf(s.frames[j..], FatesFrom(s, stride, o, j, j, p), s.windowId)
            == WindowTail(s, KeptFrom(|s.frames|, stride, j), p, o.done)
  {
    hide CallFor, ForceIdr, CallsOf, WindowTail;
    var kept := KeptFrom(|s.frames|, stride, j + stride);
    CallsUnfold(s, FatesFrom(s, stride, o, j, j, p), j);
    if p >= o.done {
      TailIsEmpty(s, kept, p + 1, o.done);
      TailIsEmpty(s, [j] + kept, p, o.done);
    } else {
      TailStep(s, j, kept, p, o.done);
    }
  }

  /** One frame that is skipped gives nothing. */
  lemma SkippedFrameGives(s: State, stride: nat, o: Outcome, j: nat, next: nat, p: nat)
    requires j < |s.frames| && j != next && stride >= 1 && !o.failed
    ensures CallsOf(s.frames[j..], FatesFrom(s, stride, o, j, next, p), s.windowId)
            == CallsOf(s.frames[j + 1..], FatesFrom(s, stride, o, j + 1, next, p), s.windowId)
  {
    hide CallFor, ForceIdr, CallsOf;
    CallsUnfold(s, FatesFrom(s, stride, o, j, next, p), j);
  }

  lemma NothingLeftToGive(s: State, stride: nat, o: Outcome, next: nat, p: nat)
    requires |s.frames| <= next && stride >= 1
    ensures CallsOf(s.frames[|s.frames|..], FatesFrom(s, stride, o, |s.frames|, next, p), s.windowId)
            == WindowTail(s, KeptFrom(|s.frames|, stride, next), p, o.done)
  {
  }

  /** The fates of the buffer, read back as calls, are the window. */
  lemma {:induction false} FatesGiveWindow(s: State, stride: nat, o: Outcome, j: nat, next: nat, p: nat)
    requires j <= |s.frames| && j <= next && stride >= 1 && !o.failed
    ensures CallsOf(s.frames[j..], FatesFrom(s, stride, o, j, next, p), s.windowId)
            == WindowTail(s, KeptFrom(|s.frames|, stride, next), p, o.done)
    decreases |s.frames| - j
  {
    hide CallFor, ForceIdr, CallsOf, WindowTail, KeptFrom, FatesFrom;
    if j == |s.frames| {
      NothingLeftToGive(s, stride, o, next, p);
    } else if j == next {
      FatesGiveWindow(s, stride, o, j + 1, next + stride, p + 1);
      KeptFrameGives(s, stride, o, j, p);
    } else {
      FatesGiveWindow(s, stride, o, j + 1, next, p);
      SkippedFrameGives(s, stride, o, j, next, p);
    }
  }

  lemma TailStep(s: State, next: nat, kept: seq<nat>, p: nat, done: nat)
    requires next < |s.frames| && p < done && forall q | 0 <= q < |kept| :: kept[q] < |s.frames|
    ensures WindowTail(s, [next] + kept, p, done) == [CallFor(s.frames[next], ForceIdr(s, p))] + WindowTail(s, kept, p + 1, done)
  {
    hide CallFor, ForceIdr;
    assert ([next] + kept)[1..] == kept;
  }

  lemma TailIsEmpty(s: State, kept: seq<nat>, p: nat, done: nat)
    requires forall q | 0 <= q < |kept| :: kept[q] < |s.frames|
    requires p >= done
    ensures WindowTail(s, kept, p, done) == []
  {
  }

  /** All added fates concern the window being built, and none exists after a failure. */
  lemma {:induction false} NewFates(s: State, stride: nat, o: Outcome, j: nat, next: nat, p: nat)
    requires j <= |s.frames| && stride >= 1
    ensures forall i | 0 <= i < |s.frames| - j ::
              var f := FatesFrom(s, stride, o, j, next, p)[i];
              (f.Encoded? ==> !o.failed && f.window == s.windowId) && (o.failed <==> f == Lost)
    decreases |s.frames| - j
  {
    if j < |s.frames| {
      if o.failed || j != next {
        NewFates(s, stride, o, j + 1, next, p);
      } else {
        NewFates(s, stride, o, j + 1, next + stride, p + 1);
      }
    }
  }

  lemma WindowIsItsFates(s: State, luck: Luck)
    requires s.frames != [] && !OutcomeOf(s, luck).failed
    ensures var added := FatesFrom(s, Stride(|s.frames|, s.ratio), OutcomeOf(s, luck), 0, 0, 0);
            WindowOf(s, luck).frames == CallsOf(s.frames, added, s.windowId)
  {
    var n, o := |s.frames|, OutcomeOf(s, luck);
    FatesGiveWindow(s, Stride(n, s.ratio), o, 0, 0, 0);
    assert s.frames[0..] == s.frames;
    WindowTailAt(s, Kept(n, s.ratio), 0, o.done);
  }

  lemma OldWindowsStay(frames: seq<Frame>, fates: seq<Fate>, added: seq<Fate>, out: seq<EncodedWindow>)
    requires |fates| + |added| <= |frames| && AllAccounted(frames, fates, out)
    requires forall i | 0 <= i < |added| && added[i].Encoded? :: added[i].window >= |out|
    ensures AllAccounted(frames, fates + added, out)
  {
    forall k | 0 <= k < |out| ensures Accounted(frames, fates + added, out[k], k) {
      assert Accounted(frames, fates, out[k], k);
      CallsOfConcat(frames, fates, added, k);
      CallsOfOthers(frames[|fates|..], added, k);
    }
  }

  lemma {:induction false} CallsOfPrefix(a: seq<Frame>, b: seq<Frame>, fates: seq<Fate>, k: nat)
    requires |fates| <= |a| <= |b| && b[..|a|] == a
    ensures CallsOf(a, fates, k) == CallsOf(b, fates, k)
  {
    if fates != [] {
      assert b[0] == b[..|a|][0] && b[1..][..|a| - 1] == b[..|a|][1..];
      CallsOfPrefix(a[1..], b[1..], fates[1..], k);
    }
  }

  lemma NewWindowIsAccounted(s: State, extra: seq<Frame>, luck: Luck)
    requires Books(s, extra) && s.frames != [] && !OutcomeOf(s, luck).failed
    ensures var added := FatesFrom(s, Stride(|s.frames|, s.ratio), OutcomeOf(s, luck), 0, 0, 0);
            |s.fates| + |added| <= |s.pushed| && Accounted(s.pushed, s.fates + added, WindowOf(s, luck), s.windowId)
  {
    var added := FatesFrom(s, Stride(|s.frames|, s.ratio), OutcomeOf(s, luck), 0, 0, 0);
    var w, left := WindowOf(s, luck), s.pushed[|s.fates|..];
    assert |left| == |s.frames| + |extra| && left[..|s.frames|] == s.frames;
    NewFates(s, Stride(|s.frames|, s.ratio), OutcomeOf(s, luck), 0, 0, 0);
    WindowIsItsFates(s, luck);
    CallsOfPrefix(s.frames, left, added, s.windowId);
    CallsOfConcat(s.pushed, s.fates, added, s.windowId);
    CallsOfOthers(s.pushed, s.fates, s.windowId);
    forall i | 0 <= i < |s.fates + added| && (s.fates + added)[i].Encoded? && (s.fates + added)[i].window == s.windowId
      ensures s.pushed[i].width == w.baseW && s.pushed[i].height == w.baseH
    {
      assert i >= |s.fates| && s.pushed[i] == s.frames[i - |s.fates|];
    }
  }

  /** Encoding keeps the books, whether it succeeds or not. */
  lemma EncodeKeepsBooks(s: State, extra: seq<Frame>, luck: Luck)
    requires Books(s, extra) && s.frames != []
    ensures Books(Encode(s, luck).0, extra)
    ensures Encode(s, luck).0.frames == [] && Encode(s, luck).0.start == None
  {
    var added := FatesFrom(s, Stride(|s.frames|, s.ratio), OutcomeOf(s, luck), 0, 0, 0);
    var t := Encode(s, luck).0;
    NewFates(s, Stride(|s.frames|, s.ratio), OutcomeOf(s, luck), 0, 0, 0);
    assert |s.pushed[|s.fates|..]| == |s.frames| + |extra|;
    assert t.pushed[|t.fates|..] == [] + extra by {
      assert s.pushed[|s.fates|..][|s.frames|..] == s.pushed[|t.fates|..];
      assert (s.frames + extra)[|s.frames|..] == extra;
    }
    OldWindowsStay(s.pushed, s.fates, added, s.out);
    if !OutcomeOf(s, luck).failed {
      NewWindowIsAccounted(s, extra, luck);
      assert AllAccounted(t.pushed, t.fates, t.out) by {
        forall k | 0 <= k < |t.out| ensures Accounted(t.pushed, t.fates, t.out[k], k) {
          if k < |s.out| {
            assert Accounted(s.pushed, s.fates + added, s.out[k], k);
          }
        }
      }
    }
  }

  lemma DropKeepsBooks(s: State, extra: seq<Frame>)
    requires Books(s, extra)
    ensures Books(DropStale(s), extra) && DropStale(s).start == s.start
    ensures s.frames != [] ==> DropStale(s).frames != []
  {
    if s.lowLatency && |s.frames| > 1 {
      var n, t := |s.frames| - 1, KeepLatest(s);
      assert |s.pushed[|s.fates|..]| == |s.frames| + |extra|;
      assert t.pushed[|t.fates|..] == t.frames + extra by {
        assert s.pushed[|s.fates|..][n..] == s.pushed[|t.fates|..];
        assert (s.frames + extra)[n..] == [s.frames[n]] + extra;
      }
      OldWindowsStay(s.pushed, s.fates, seq(n, _ => Stale), s.out);
    }
  }

  lemma ArrivalKeepsBooks(s: State, f: Frame)
    requires Books(s, [])
    ensures Books(s.(needsIdr := s.needsIdr || f.forceKey, pushed := s.pushed + [f]), [f])
  {
    var all := s.pushed + [f];
    assert all[|s.fates|..] == s.pushed[|s.fates|..] + [f];
    assert s.frames + [] == s.frames;
    forall k | 0 <= k < |s.out| ensures Accounted(all, s.fates, s.out[k], k) {
      assert Accounted(s.pushed, s.fates, s.out[k], k);
      CallsOfPrefix(s.pushed, all, s.fates, k);
    }
  }

  lemma BufferingKeepsBooks(s: State, f: Frame)
    requires Books(s, [f]) && !ChangesSize(s, f)
    ensures Books(Buffered(s, f), []) && Buffered(s, f).start.Some?
  {
    assert (s.frames + [f]) + [] == s.frames + [f];
  }

  lemma LosingKeepsBooks(s: State, f: Frame)
    requires Books(s, [f]) && s.frames == []
    ensures Books(s.(fates := s.fates + [Lost]), [])
  {
    OldWindowsStay(s.pushed, s.fates, [Lost], s.out);
    assert s.pushed[|s.fates|..] == [f];
    assert s.pushed[|s.fates| + 1..] == [];
  }

  lemma PushKeepsInv(s: State, f: Frame, gate: bool, luck: Luck)
    requires Inv(s)
    ensures Inv(Push(s, f, gate, luck).0)
  {
    hide Books;
    var t := s.(needsIdr := s.needsIdr || f.forceKey, pushed := s.pushed + [f]);
    ArrivalKeepsBooks(s, f);
    if ChangesSize(s, f) {
      EncodeKeepsBooks(t, [f], luck);
      NewSizeKeepsInv(t, f, luck);
    } else {
      BufferingKeepsBooks(t, f);
      SameSizeKeepsInv(t, f, gate, luck);
    }
  }

  lemma NewSizeKeepsInv(s: State, f: Frame, luck: Luck)
    requires Books(Encode(s, luck).0, [f]) && Encode(s, luck).0.frames == [] && Encode(s, luck).0.start == None
    ensures Inv(PushNewSize(s, f, luck).0)
  {
    hide Encode;
    var (t, reply) := Encode(s, luck);
    if reply == Failed {
      LosingKeepsBooks(t, f);
    } else {
      assert [f] + [] == [f] && [] + [f] == [f];
    }
  }

  lemma SameSizeKeepsInv(s: State, f: Frame, gate: bool, luck: Luck)
    requires Books(Buffered(s, f), []) && Buffered(s, f).start.Some?
    ensures Inv(PushSameSize(s, f, gate, luck).0)
  {
    var b := Buffered(s, f);
    var t := b.(lastFrameTime := Some(f.timestamp));
    assert Books(t, []);
    hide Books, Encode, DropStale, Buffered, Elapsed;
    DropKeepsBooks(b, []);
    DropKeepsBooks(t, []);
    EncodeKeepsBooks(DropStale(b), [], luck);
    EncodeKeepsBooks(DropStale(t), [], luck);
  }

  lemma StepKeepsInv(s: State, op: Op)
    requires Inv(s)
    ensures Inv(Step(s, op).0)
  {
    hide Books;
    match op {
      case OpPush(f, gate, luck) => PushKeepsInv(s, f, gate, luck);
      case OpFlush(luck) => FlushKeepsInv(s, luck);
      case OpFlushIfExpired(now, luck) => FlushKeepsInv(s, luck);
      case OpSetLowLatency(on) => SettingKeepsBooks(s, on, s.ratio);
      case OpSetRatio(r) => SettingKeepsBooks(s, s.lowLatency, r);
    }
  }

  lemma SettingKeepsBooks(s: State, on: bool, r: real)
    requires Books(s, [])
    ensures Books(s.(lowLatency := on), []) && Books(s.(ratio := r), [])
  {
  }

  lemma FlushKeepsInv(s: State, luck: Luck)
    requires Inv(s)
    ensures Inv(Flush(s, luck).0)
  {
    hide Books;
    if s.frames != [] {
      EncodeKeepsBooks(s, [], luck);
    }
  }

  /**
   Conservation over every run: see `Inv` for what this says. In particular no window is
   ever empty, no frame is encoded twice or dropped silently, and none overtakes another.
   */
  lemma {:induction false} RunKeepsInv(config: Config, ops: seq<Op>)
    ensures Inv(Run(Init(config), ops))
  {
    hide Books, Step;
    if ops == [] {
      StartIsGood(config);
    } else {
      RunKeepsInv(config, ops[..|ops| - 1]);
      StepKeepsInv(Run(Init(config), ops[..|ops| - 1]), ops[|ops| - 1]);
    }
  }

  lemma StartIsGood(config: Config)
    ensures Inv(Init(config))
  {
  }

  // ---- Intra frames ----

  ghost predicate AllIdr(w: EncodedWindow) {
    forall p | 0 <= p < |w.frames| :: w.frames[p].idr
  }

  /** What a step that returns a window did: it encoded some buffer `b`. */
  lemma EncodeReplies(b: State, luck: Luck)
    requires b.frames != []
    ensures Encode(b, luck).1 != Silent
    ensures Encode(b, luck).1.Window? ==>
              var w := Encode(b, luck).1.window;
              && w.id == b.windowId && w.frames != []
              && (b.needsIdr ==> AllIdr(w)) && (!b.lowLatency ==> w.frames[0].idr)
    ensures Encode(b, luck).0.needsIdr <==> b.ratio < 1.0
  {
  }

  /** The state whose buffer a step encodes when it replies at all. */
  function Closing(s: State, op: Op): State {
    match op
    case OpPush(f, _, _) =>
      var t := s.(needsIdr := s.needsIdr || f.forceKey, pushed := s.pushed + [f]);
      if ChangesSize(s, f) then t
      else if f.forceKey then DropStale(Buffered(t, f))
      else DropStale(Buffered(t, f).(lastFrameTime := Some(f.timestamp)))
    case _ => s
  }

  function LuckOf(op: Op): Luck {
    match op
    case OpPush(_, _, luck) => luck
    case OpFlush(luck) => luck
    case OpFlushIfExpired(_, luck) => luck
    case _ => Luck(_ => false, _ => false)
  }

  lemma RepliesComeFromClosing(s: State, op: Op)
    ensures Step(s, op).1 != Silent ==>
              && Closing(s, op).frames != [] && Closing(s, op).lowLatency == s.lowLatency
              && Closing(s, op).windowId == s.windowId && Closing(s, op).ratio == s.ratio
              && Step(s, op).1 == Encode(Closing(s, op), LuckOf(op)).1
    ensures s.needsIdr ==> Closing(s, op).needsIdr
    ensures s.needsIdr && Step(s, op).1 == Silent ==> Step(s, op).0.needsIdr
  {
    hide Encode;
    match op {
      case OpPush(f, gate, luck) =>
        var t := s.(needsIdr := s.needsIdr || f.forceKey, pushed := s.pushed + [f]);
        if !ChangesSize(s, f) {
          EncodeReplies(DropStale(Buffered(t, f)), luck);
          EncodeReplies(DropStale(Buffered(t, f).(lastFrameTime := Some(f.timestamp))), luck);
        } else {
          EncodeReplies(t, luck);
        }
      case OpFlush(luck) => if s.frames != [] { EncodeReplies(s, luck); }
      case OpFlushIfExpired(_, luck) => if s.frames != [] { EncodeReplies(s, luck); }
      case _ =>
    }
  }

  /** In batch mode every window that is returned starts with an intra frame; no window is empty. */
  lemma WindowsStartWithIdr(s: State, op: Op)
    requires Step(s, op).1.Window?
    ensures Step(s, op).1.window.frames != [] && Step(s, op).1.window.id == s.windowId
    ensures !s.lowLatency ==> Step(s, op).1.window.frames[0].idr
    ensures s.needsIdr ==> AllIdr(Step(s, op).1.window)
  {
    hide Encode, Step, Closing;
    RepliesComeFromClosing(s, op);
    EncodeReplies(Closing(s, op), LuckOf(op));
  }

  /** What the session sends as a silent window instead. */
  predicate IsEmpty(w: EncodedWindow) {
    |w.frames| == 0
  }

  /** No call ever returns an empty window, so the session never has a silent one to report. */
  lemma NoWindowIsSilent(s: State, op: Op)
    requires Step(s, op).1.Window?
    ensures !IsEmpty(Step(s, op).1.window)
  {
    hide Step;
    WindowsStartWithIdr(s, op);
  }

  /** No window is returned during `ops`; encodes may fail, while the frame ratio is below one. */
  ghost predicate Quiet(s: State, ops: seq<Op>)
    decreases |ops|
  {
    ops == [] ||
    var t := Run(s, ops[..|ops| - 1]);
    Quiet(s, ops[..|ops| - 1]) && Keeps(t, Step(t, ops[|ops| - 1]).1)
  }

  predicate Keeps(s: State, reply: Reply) {
    reply == Silent || (reply == Failed && s.ratio < 1.0)
  }

  /** After a step that encoded, whether it worked or not, a request is pending exactly at a frame ratio below one. */
  lemma RequestAfterEncode(s: State, op: Op)
    requires Step(s, op).1 != Silent
    ensures Step(s, op).0.needsIdr <==> s.ratio < 1.0
  {
    hide Encode;
    match op {
      case OpPush(f, gate, luck) =>
        var t := s.(needsIdr := s.needsIdr || f.forceKey, pushed := s.pushed + [f]);
        if !ChangesSize(s, f) {
          EncodeReplies(DropStale(Buffered(t, f)), luck);
          EncodeReplies(DropStale(Buffered(t, f).(lastFrameTime := Some(f.timestamp))), luck);
        } else {
          EncodeReplies(t, luck);
        }
      case OpFlush(luck) => EncodeReplies(s, luck);
      case OpFlushIfExpired(now, luck) => EncodeReplies(s, luck);
      case _ =>
    }
  }

  lemma {:induction false} RequestSurvivesQuiet(s: State, ops: seq<Op>)
    requires s.needsIdr && Quiet(s, ops)
    ensures Run(s, ops).needsIdr
    decreases |ops|
  {
    hide Step;
    if ops != [] {
      var (t, op) := (Run(s, ops[..|ops| - 1]), ops[|ops| - 1]);
      RequestSurvivesQuiet(s, ops[..|ops| - 1]);
      RepliesComeFromClosing(t, op);
      if Step(t, op).1 != Silent {
        RequestAfterEncode(t, op);
      }
    }
  }

  /**
   Once a step has encoded, or failed to, with a frame ratio below one, the next window,
   however much later and after however many more failures at such a ratio, consists of
   intra frames only: the receiver misses the skipped references.
   */
  lemma SkippingMakesTheNextWindowIdr(s: State, op: Op, ops: seq<Op>, last: Op)
    requires s.ratio < 1.0 && Step(s, op).1 != Silent
    requires Quiet(Step(s, op).0, ops)
    requires Step(Run(Step(s, op).0, ops), last).1.Window?
    ensures AllIdr(Step(Run(Step(s, op).0, ops), last).1.window)
  {
    hide Step;
    RequestAfterEncode(s, op);
    RequestSurvivesQuiet(Step(s, op).0, ops);
    WindowsStartWithIdr(Run(Step(s, op).0, ops), last);
  }

  /**
   A frame that asks for an intra frame and finds a buffer of its own size closes the
   window in the same call, past the gate, and all of that window is intra frames; in low
   latency mode the frame leaves alone.
   */
  lemma KeyFrameLeavesAtOnce(s: State, f: Frame, gate: bool, luck: Luck)
    requires f.forceKey && !ChangesSize(s, f)
    ensures Push(s, f, gate, luck).1 != Silent
    ensures Push(s, f, gate, luck).1.Window? ==>
              var w := Push(s, f, gate, luck).1.window;
              AllIdr(w) && (s.lowLatency ==> w.frames == [CallFor(f, true)])
  {
    var t := s.(needsIdr := true, pushed := s.pushed + [f]);
    var b := DropStale(Buffered(t, f));
    EncodeReplies(b, luck);
    if s.lowLatency {
      LoneFrameIsKept(b.ratio);
      assert b.frames == [f];
    }
  }

  lemma LoneFrameIsKept(ratio: real)
    ensures Kept(1, ratio) == [0]
  {
  }

  /** The newest of `n` frames is among those kept. */
  ghost predicate EndsAt(kept: seq<nat>, last: nat) {
    kept != [] && kept[|kept| - 1] == last
  }

  lemma EndsAtTail(next: nat, rest: seq<nat>, last: nat)
    ensures EndsAt([next] + rest, last) <==> if rest == [] then next == last else EndsAt(rest, last)
  {
  }

  /** Fate of the newest buffered frame: encoded exactly when it is the last one kept and the loop got that far. */
  lemma {:induction false} LastFate(s: State, stride: nat, o: Outcome, j: nat, next: nat, p: nat)
    requires j < |s.frames| && j <= next && stride >= 1 && !o.failed
    ensures var kept := KeptFrom(|s.frames|, stride, next);
            FatesFrom(s, stride, o, j, next, p)[|s.frames| - 1 - j].Encoded?
            <==> EndsAt(kept, |s.frames| - 1) && o.done >= p + |kept|
    decreases |s.frames| - j
  {
    var n := |s.frames|;
    if j == next {
      var rest := KeptFrom(n, stride, next + stride);
      EndsAtTail(next, rest, n - 1);
      if j + 1 < n {
        LastFate(s, stride, o, j + 1, next + stride, p + 1);
      }
    } else if j + 1 < n {
      LastFate(s, stride, o, j + 1, next, p);
    }
  }

  /** The encoding loop gets through all kept frames exactly when no call is rejected and the budget lasts. */
  lemma {:induction false} AttemptSucceedsIff(n: nat, i: nat, luck: Luck)
    requires i <= n
    ensures Attempt(n, i, luck) == Outcome(n, false) <==> forall k :: i <= k < n ==> !luck.rejects(k) && (k > 0 ==> !luck.spent(k))
    decreases n - i
  {
    if i < n {
      AttemptSucceedsIff(n, i + 1, luck);
    }
  }

  /** How many frames are kept, and when the newest is one of them. */
  lemma {:induction false} KeptCount(n: nat, stride: nat, next: nat)
    requires stride >= 1 && next < n
    ensures |KeptFrom(n, stride, next)| == (n - 1 - next) / stride + 1
    ensures EndsAt(KeptFrom(n, stride, next), n - 1) <==> (n - 1 - next) % stride == 0
    decreases n - next
  {
    var rest := KeptFrom(n, stride, next + stride);
    EndsAtTail(next, rest, n - 1);
    if next + stride < n {
      DivideOneLess(n - 1 - next, stride);
      KeptCount(n, stride, next + stride);
    } else {
      SmallRemainder(n - 1 - next, stride);
    }
  }

  /** Frames in the window that a key frame closes. */
  function FramesClosed(s: State): nat {
    if s.lowLatency then 1 else |s.frames| + 1
  }

  /**
   Whether the frame that asked is itself in that window: exactly when the stride of the
   frame ratio hits the newest frame, and none of the calls up to it is rejected or finds the
   budget spent.
   */
  lemma KeyFrameIsEncodedIff(s: State, f: Frame, gate: bool, luck: Luck)
    requires f.forceKey && !ChangesSize(s, f)
    ensures
      var (n, t) := (FramesClosed(s), Push(s, f, gate, luck).0);
      var stride := Stride(n, s.ratio);
      && t.fates != []
      && (t.fates[|t.fates| - 1].Encoded? <==>
            && (n - 1) % stride == 0
            && forall k :: 0 <= k <= (n - 1) / stride ==> !luck.rejects(k) && (k > 0 ==> !luck.spent(k)))
  {
    hide Encode, Kept, Stride;
    var b := DropStale(Buffered(s.(needsIdr := true, pushed := s.pushed + [f]), f));
    assert |b.frames| == FramesClosed(s);
    EncodedLastIff(b, luck);
  }

  lemma EncodedLastIff(b: State, luck: Luck)
    requires b.frames != []
    ensures
      var (n, fates) := (|b.frames|, Encode(b, luck).0.fates);
      var stride := Stride(n, b.ratio);
      && fates != []
      && (fates[|fates| - 1].Encoded? <==>
            && (n - 1) % stride == 0
            && forall k :: 0 <= k <= (n - 1) / stride ==> !luck.rejects(k) && (k > 0 ==> !luck.spent(k)))
  {
    hide Encode, Attempt, Stride;
    var n := |b.frames|;
    LastFateIff(b, luck);
    KeptCount(n, Stride(n, b.ratio), 0);
    AttemptSucceedsIff((n - 1) / Stride(n, b.ratio) + 1, 0, luck);
  }

  /** The same in terms of the loop's outcome. */
  lemma LastFateIff(b: State, luck: Luck)
    requires b.frames != []
    ensures
      var (kept, fates) := (Kept(|b.frames|, b.ratio), Encode(b, luck).0.fates);
      && fates != []
      && (fates[|fates| - 1].Encoded? <==>
            OutcomeOf(b, luck) == Outcome(|kept|, false) && EndsAt(kept, |b.frames| - 1))
  {
    hide Attempt, Stride, KeptFrom;
    var (n, o) := (|b.frames|, OutcomeOf(b, luck));
    if o.failed {
      NewFates(b, Stride(n, b.ratio), o, 0, 0, 0);
    } else {
      LastFate(b, Stride(n, b.ratio), o, 0, 0, 0);
    }
  }

  /** At half the frames, a key frame that finds one frame waiting is not encoded at all. */
  lemma KeyFrameCanBeSkipped(s: State, waiting: Frame, f: Frame, gate: bool)
    requires s.frames == [waiting] && f.forceKey && !ChangesSize(s, f) && !s.lowLatency && s.ratio == 0.5
    ensures var t := Push(s, f, gate, Luck(_ => false, _ => false)).0;
            t.fates == s.fates + [Encoded(s.windowId, true), Skipped]
  {
    var luck := Luck(_ => false, _ => false);
    var b := DropStale(Buffered(s.(needsIdr := true, pushed := s.pushed + [f]), f));
    assert b.frames == [waiting, f] && Ceil(1.0 / 0.5) == 2;
    assert Stride(2, 0.5) == 2 && KeptFrom(2, 2, 2) == [] && Kept(2, 0.5) == [0];
    assert Attempt(1, 1, luck) == Outcome(1, false);
    assert OutcomeOf(b, luck) == Outcome(1, false);
    assert FatesFrom(b, 2, Outcome(1, false), 2, 2, 1) == [];
    assert FatesFrom(b, 2, Outcome(1, false), 1, 2, 1) == [Skipped] + [];
  }

  /**
   When the frame also changes the size, the old window takes the request: its frames are
   intra frames, and the new frame waits without one unless the frame ratio asks again.
   */
  lemma SizeChangeTakesTheRequest(s: State, f: Frame, gate: bool, luck: Luck)
    requires f.forceKey && ChangesSize(s, f) && Push(s, f, gate, luck).1.Window?
    ensures var (t, reply) := Push(s, f, gate, luck);
            AllIdr(reply.window) && t.frames == [f] && (t.needsIdr <==> s.ratio < 1.0)
  {
    EncodeReplies(s.(needsIdr := true, pushed := s.pushed + [f]), luck);
  }

  // ---- When a window closes ----

  /** The frame can join the buffer. */
  predicate Joins(s: State, f: Frame) {
    s.frames == [] || (s.frames[0].width == f.width && s.frames[0].height == f.height)
  }

  /** Where the window that the frame joins has begun. */
  function BeginsAt(s: State, f: Frame): nat {
    if s.start.Some? then s.start.value else f.timestamp
  }

  /**
   With the gate open an ordinary frame closes the window it joins exactly in low latency
   mode, or when the window is old or full enough, or the frame before it long enough ago.
   */
  lemma FrameClosesIff(s: State, f: Frame, luck: Luck)
    requires !f.forceKey && Joins(s, f)
    ensures
      Push(s, f, true, luck).1 != Silent <==>
        || s.lowLatency
        || f.timestamp >= BeginsAt(s, f) + s.config.durationMs
        || |s.frames| + 1 >= s.config.maxFrames
        || (s.lastFrameTime.Some? && f.timestamp >= s.lastFrameTime.value + s.config.idleMs)
  {
    hide Encode;
    var b := Buffered(s.(pushed := s.pushed + [f]), f).(lastFrameTime := Some(f.timestamp));
    EncodeReplies(DropStale(b), luck);
  }

  /** With the gate closed it never does, and a frame of another size always does. */
  lemma OtherFramesCloseIff(s: State, f: Frame, gate: bool, luck: Luck)
    ensures !f.forceKey && Joins(s, f) && !gate ==> Push(s, f, gate, luck).1 == Silent
    ensures !Joins(s, f) || f.forceKey ==> Push(s, f, gate, luck).1 != Silent
  {
    hide Encode;
    var t := s.(needsIdr := s.needsIdr || f.forceKey, pushed := s.pushed + [f]);
    if !Joins(s, f) {
      EncodeReplies(t, luck);
    } else {
      EncodeReplies(DropStale(Buffered(t, f)), luck);
    }
  }

  /** A new pipeline is in batch mode and has nothing to make up for: its first ordinary frame waits. */
  lemma FirstFrameWaits(config: Config, f: Frame, luck: Luck)
    requires !f.forceKey && config.durationMs > 0 && config.maxFrames > 1
    ensures Push(Init(config), f, true, luck).1 == Silent
  {
    FrameClosesIff(Init(config), f, luck);
  }

  /** In low latency mode it goes out at once and in full, as an ordinary frame. */
  lemma FirstFrameIsPlain(config: Config, f: Frame, luck: Luck)
    requires !f.forceKey
    ensures
      var (t, reply) := Push(Init(config).(lowLatency := true), f, true, luck);
      reply == Failed || (reply.Window? && reply.window.frames == [CallFor(f, false)] && !t.needsIdr)
  {
    hide View;
    LoneFrameIsKept(1.0);
  }

  /** A flush sends whatever waits; a timed one when the window is old enough. */
  lemma FlushClosesIff(s: State, now: nat, luck: Luck)
    ensures Flush(s, luck).1 != Silent <==> s.frames != []
    ensures FlushIfExpired(s, now, luck).1 != Silent <==>
              s.frames != [] && s.start.Some? && now >= s.start.value + s.config.durationMs
  {
    hide Encode;
    if s.frames != [] {
      EncodeReplies(s, luck);
    }
  }

  /** A frame of another size: after the old window it waits alone, from its own time on; if that fails it is lost too. */
  lemma SizeChangeIs(s: State, f: Frame, gate: bool, luck: Luck)
    requires !Joins(s, f)
    ensures
      var (t, reply) := Push(s, f, gate, luck);
      if reply == Failed then t.frames == [] && t.start == None && t.fates != [] && t.fates[|t.fates| - 1] == Lost
      else t.frames == [f] && t.start == Some(f.timestamp) && t.lastFrameTime == Some(f.timestamp)
  {
    hide OutcomeOf, WindowOf, FatesFrom;
  }

  /** Settings hold from the next frame on. */
  lemma SettingsTakeEffect(s: State, on: bool, ratio: real, f: Frame, luck: Luck)
    requires !f.forceKey && s.frames == [] && s.start == None && s.lastFrameTime == None
    requires s.config.durationMs > 0 && s.config.maxFrames > 1
    ensures Push(Step(s, OpSetLowLatency(on)).0, f, true, luck).1 != Silent <==> on
    ensures
      var (t, reply) := Push(Step(Step(s, OpSetLowLatency(true)).0, OpSetRatio(ratio)).0, f, true, luck);
      t.needsIdr <==> ratio < 1.0
  {
    FrameClosesIff(Step(s, OpSetLowLatency(on)).0, f, luck);
    var r := Step(Step(s, OpSetLowLatency(true)).0, OpSetRatio(ratio)).0;
    FrameClosesIff(r, f, luck);
    RequestAfterEncode(r, OpPush(f, true, luck));
    hide Push;
  }

  /** Forced frames of one size that no encoder rejects make one window each. */
  lemma {:induction false} EveryKeyFrameMakesAWindow(config: Config, ops: seq<Op>, w: nat, h: nat)
    requires forall op | op in ops :: op.OpPush? && op.f.forceKey && op.f.width == w && op.f.height == h && !op.luck.rejects(0)
    ensures
      var s := Run(Init(config), ops);
      |s.out| == |ops| && s.frames == [] && s.windowId == |ops| && !s.lowLatency
  {
    hide Push;
    if ops != [] {
      var op := ops[|ops| - 1];
      assert op in ops;
      EveryKeyFrameMakesAWindow(config, ops[..|ops| - 1], w, h);
      LoneKeyFrame(Run(Init(config), ops[..|ops| - 1]), op.f, op.gate, op.luck);
    }
  }

  lemma LoneKeyFrame(s: State, f: Frame, gate: bool, luck: Luck)
    requires s.frames == [] && f.forceKey && !luck.rejects(0)
    ensures
      var (t, reply) := Push(s, f, gate, luck);
      |t.out| == |s.out| + 1 && t.frames == [] && t.windowId == s.windowId + 1 && t.lowLatency == s.lowLatency
  {
    hide WindowOf, FatesFrom;
    LoneFrameIsKept(s.ratio);
  }

  ghost predicate GateOpen(ops: seq<Op>) {
    forall i | 0 <= i < |ops| && ops[i].OpPush? :: ops[i].gate
  }

  /** What waits after a push with the gate open. */
  lemma FewWait(s: State, f: Frame, luck: Luck)
    requires s.config.maxFrames > 0
    ensures
      var t := Push(s, f, true, luck).0;
      && t.config == s.config
      && (if Joins(s, f) then |t.frames| < s.config.maxFrames else |t.frames| <= 1)
  {
    var t := s.(needsIdr := s.needsIdr || f.forceKey, pushed := s.pushed + [f]);
    EncodeEmpties(t, luck);
    EncodeEmpties(DropStale(Buffered(t, f)), luck);
    EncodeEmpties(DropStale(Buffered(t, f).(lastFrameTime := Some(f.timestamp))), luck);
    hide Encode;
  }

  lemma EncodeEmpties(s: State, luck: Luck)
    ensures Encode(s, luck).0.frames == [] && Encode(s, luck).0.config == s.config
  {
  }

  /** Over every run with an open gate fewer than `maxFrames` frames wait, or the one that changed the size. */
  lemma {:induction false} FewWaitAlways(config: Config, ops: seq<Op>)
    requires config.maxFrames > 0 && GateOpen(ops)
    ensures
      var s := Run(Init(config), ops);
      s.config == config && (|s.frames| < config.maxFrames || |s.frames| == 1)
  {
    hide Push, Encode;
    if ops != [] {
      var s, op := Run(Init(config), ops[..|ops| - 1]), ops[|ops| - 1];
      FewWaitAlways(config, ops[..|ops| - 1]);
      match op {
        case OpPush(f, gate, luck) => FewWait(s, f, luck);
        case OpFlush(luck) => EncodeEmpties(s, luck);
        case OpFlushIfExpired(_, luck) => EncodeEmpties(s, luck);
        case _ =>
      }
    }
  }

  // ---- Which frames are kept ----

  /** Between a fifth and one, the distance of kept frames is the least whose share is not above the ratio. */
  lemma StrideIsLeast(n: nat, ratio: real)
    requires n > 0
    ensures 0.2 < ratio < 1.0 ==> (Stride(n, ratio) as real - 1.0) * ratio < 1.0 <= Stride(n, ratio) as real * ratio
    ensures ratio <= 0.2 ==> Kept(n, ratio) == [0]
  {
    if 0.2 < ratio < 1.0 {
      StrideRoundsUp(n, ratio);
      hide Stride;
      Scaled(Stride(n, ratio) as real, ratio);
    } else if ratio <= 0.2 {
      assert KeptFrom(n, n, n) == [];
    }
  }

  lemma StrideRoundsUp(n: nat, ratio: real)
    requires n > 0 && 0.2 < ratio < 1.0
    ensures Stride(n, ratio) as real - 1.0 < 1.0 / ratio <= Stride(n, ratio) as real
  {
    CeilIs(1.0 / ratio);
  }

  lemma CeilIs(x: real)
    ensures Ceil(x) as real - 1.0 < x <= Ceil(x) as real
  {
  }

  lemma Scaled(k: real, ratio: real)
    requires ratio > 0.0 && k - 1.0 < 1.0 / ratio <= k
    ensures (k - 1.0) * ratio < 1.0 <= k * ratio
  {
    Inverse(ratio);
    Times(k - 1.0, 1.0 / ratio, ratio);
    TimesAtMost(1.0 / ratio, k, ratio);
  }

  lemma Inverse(ratio: real)
    requires ratio > 0.0
    ensures 1.0 / ratio * ratio == 1.0
  {
  }

  lemma Times(a: real, b: real, c: real)
    requires a < b && c > 0.0
    ensures a * c < b * c
  {
  }

  lemma TimesAtMost(a: real, b: real, c: real)
    requires a <= b && c > 0.0
    ensures a * c <= b * c
  {
  }

  /** The kept frames are those at the multiples of that distance. */
  lemma {:induction false} KeptAt(n: nat, stride: nat, next: nat, p: nat)
    requires stride >= 1 && p < |KeptFrom(n, stride, next)|
    ensures KeptFrom(n, stride, next)[p] == next + p * stride
    decreases p
  {
    if p > 0 {
      KeptAt(n, stride, next + stride, p - 1);
      NextMultiple(p, stride);
    }
  }

  lemma NextMultiple(p: nat, stride: nat)
    requires p > 0
    ensures stride + (p - 1) * stride == p * stride
  {
  }

  // ---- Low latency ----

  ghost predicate AlwaysLow(ops: seq<Op>) {
    forall i | 0 <= i < |ops| && ops[i].OpSetLowLatency? :: ops[i].on
  }

  ghost predicate OneByOne(s: State) {
    s.lowLatency && |s.frames| <= 1 && forall k | 0 <= k < |s.out| :: |s.out[k].frames| == 1
  }

  lemma EncodeOne(s: State, luck: Luck)
    requires OneByOne(s) && s.frames != []
    ensures OneByOne(Encode(s, luck).0)
  {
    LoneFrameIsKept(s.ratio);
  }

  lemma PushKeepsOneByOne(s: State, f: Frame, gate: bool, luck: Luck)
    requires OneByOne(s)
    ensures OneByOne(Push(s, f, gate, luck).0)
  {
    hide Encode;
    var t := s.(needsIdr := s.needsIdr || f.forceKey, pushed := s.pushed + [f]);
    if ChangesSize(s, f) {
      EncodeOne(t, luck);
      NewSizeOneByOne(t, f, luck);
    } else {
      EncodeOne(DropStale(Buffered(t, f)), luck);
      EncodeOne(DropStale(Buffered(t, f).(lastFrameTime := Some(f.timestamp))), luck);
    }
  }

  lemma NewSizeOneByOne(s: State, f: Frame, luck: Luck)
    requires OneByOne(s) && s.frames != []
    ensures OneByOne(PushNewSize(s, f, luck).0)
  {
    LoneFrameIsKept(s.ratio);
  }

  /** With low latency on from the start, at most one frame waits and every window holds exactly one. */
  lemma {:induction false} LowLatencyIsOneByOne(config: Config, ops: seq<Op>)
    requires AlwaysLow(ops)
    ensures OneByOne(Run(Init(config).(lowLatency := true), ops))
  {
    hide Encode, Push;
    if ops != [] {
      var s, op := Run(Init(config).(lowLatency := true), ops[..|ops| - 1]), ops[|ops| - 1];
      LowLatencyIsOneByOne(config, ops[..|ops| - 1]);
      match op {
        case OpPush(f, gate, luck) => PushKeepsOneByOne(s, f, gate, luck);
        case OpFlush(luck) => if s.frames != [] { EncodeOne(s, luck); }
        case OpFlushIfExpired(_, luck) => if s.frames != [] { EncodeOne(s, luck); }
        case _ =>
      }
    }
  }
}
