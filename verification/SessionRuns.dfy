/** What every run of the client's session loop keeps. */
module SessionRuns {
  import opened Bytes
  import opened SessionSpec

  // ---- Every run ----

  function Splitting(ts: seq<Transport>): nat {
    if ts == [] then 0 else Splitting(ts[..|ts| - 1]) + if ts[|ts| - 1].splits then 1 else 0
  }

  /** The last delivered transport that could be taken, or the first one. */
  function Current(ts: seq<Transport>, first: Transport): Transport {
    if ts == [] then first else if ts[|ts| - 1].splits then ts[|ts| - 1] else Current(ts[..|ts| - 1], first)
  }

  ghost predicate Inv(c: Config, first: Transport, s: State) {
    && s.mode == s.slot.kind
    && s.slot == Current(s.delivered, first)
    && s.switches == Splitting(s.delivered)
    && s.redials == s.episodes
    && (s.episodes > 0 ==> s.episodeStart <= s.now && s.deadline == Some(s.episodeStart + WaitTimeout(c)))
    && (s.degrading ==> s.episodes > 0 && s.mode == Quic && c.degradeEnabled && s.now < s.episodeStart + WaitTimeout(c) + POLL)
  }

  lemma DeliverKeeps(s: State, t: Transport, first: Transport)
    requires s.mode == s.slot.kind && s.slot == Current(s.delivered, first) && s.switches == Splitting(s.delivered)
    ensures
      var u := ApplySwap(s, t);
      u.mode == u.slot.kind && u.slot == Current(u.delivered, first) && u.switches == Splitting(u.delivered)
  {
    assert (s.delivered + [t])[..|s.delivered|] == s.delivered;
  }

  lemma WokenKeepsInv(c: Config, first: Transport, s: State, p: Pass)
    requires Inv(c, first, s) && !s.degrading
    ensures Inv(c, first, Woken(c, s, p))
  {
    hide Current, Splitting;
    if s.channel != [] {
      DeliverKeeps(s, s.channel[0], first);
    }
  }

  lemma WaitedKeepsInv(c: Config, first: Transport, s: State, p: Pass)
    requires Inv(c, first, s) && s.degrading && s.now < s.episodeStart + WaitTimeout(c) && p.wait <= POLL
    ensures Inv(c, first, Waited(s, p))
  {
    hide Current, Splitting;
    if s.channel != [] {
      DeliverKeeps(s, s.channel[0], first);
    }
  }

  lemma LoopKeepsInv(c: Config, first: Transport, s: State, p: Pass)
    requires Inv(c, first, s) && Possible(c, s, p)
    ensures Inv(c, first, Loop(c, s, p))
  {
    hide Current, Splitting, Woken, Waited;
    if p.stop || StartsEpisode(c, s, p) {
    } else if !s.degrading {
      WokenKeepsInv(c, first, s, p);
    } else if s.now < s.deadline.value {
      WaitedKeepsInv(c, first, s, p);
    }
  }

  lemma {:induction false} RunKeepsInv(c: Config, start: nat, first: Transport, ops: seq<Op>)
    requires RunAllowed(c, Init(start, first), ops)
    ensures Inv(c, first, Run(c, Init(start, first), ops))
    decreases |ops|
  {
    hide Loop, Possible;
    if ops != [] {
      var init := ops[..|ops| - 1];
      RunKeepsInv(c, start, first, init);
      var s := Run(c, Init(start, first), init);
      if s.end.None? && ops[|ops| - 1].DoPass? {
        LoopKeepsInv(c, first, s, ops[|ops| - 1].p);
      }
    }
  }

  /** An episode still on is younger than its deadline and one poll. */
  lemma EpisodeIsYoung(c: Config, start: nat, first: Transport, ops: seq<Op>)
    requires RunAllowed(c, Init(start, first), ops)
    requires Run(c, Init(start, first), ops).degrading
    ensures
      var s := Run(c, Init(start, first), ops);
      s.now < s.episodeStart + c.connectTimeout + 10_000 + 100
  {
    hide Run, RunAllowed, Current, Splitting;
    RunKeepsInv(c, start, first, ops);
  }

  /** A pass leaves the episode only by taking one transport from the channel or by ending the session. */
  lemma EpisodeEndsBy(c: Config, first: Transport, s: State, p: Pass)
    requires Inv(c, first, s) && s.degrading && s.end.None? && Possible(c, s, p)
    ensures
      var t := Loop(c, s, p);
      && t.episodes == s.episodes && t.redials == s.redials
      && (t.end.Some? ==> t.end in {Some(Stopped), Some(DegradeTimedOut)} && t.degrading)
      && (!t.degrading ==> |t.delivered| == |s.delivered| + 1 && t.now < s.episodeStart + c.connectTimeout + 10_000 + 100)
      && (!p.stop && s.now >= s.episodeStart + c.connectTimeout + 10_000 ==> t.end == Some(DegradeTimedOut))
  {
    hide Current, Splitting;
  }

  /** What a run reports never falls. */
  lemma StepNeverFalls(c: Config, s: State, op: Op)
    ensures
      var t := Step(c, s, op);
      s.switches <= t.switches && s.decoded <= t.decoded && s.dropped <= t.dropped && s.episodes <= t.episodes
  {
  }

  lemma {:induction false} CountersNeverFall(c: Config, s: State, ops: seq<Op>, k: nat)
    requires k <= |ops|
    ensures
      var (t, u) := (Run(c, s, ops[..k]), Run(c, s, ops));
      t.switches <= u.switches && t.decoded <= u.decoded && t.dropped <= u.dropped && t.episodes <= u.episodes
  {
    hide Step;
    if k < |ops| {
      var init := ops[..|ops| - 1];
      assert init[..k] == ops[..k];
      CountersNeverFall(c, s, init, k);
      StepNeverFalls(c, Run(c, s, init), ops[|ops| - 1]);
    } else {
      assert ops[..k] == ops;
    }
  }

  // ---- What a run reports ----

  /** The step is a pass that waits for frames. */
  predicate Listens(c: Config, s: State, op: Op) {
    && op.DoPass? && s.end.None? && !op.p.stop && !s.degrading
    && !(s.mode == Quic && c.degradeEnabled && !op.p.alive)
  }

  /** Pictures that the frames of a run have given, and frames that could not be decoded. */
  function Pictures(c: Config, s: State, ops: seq<Op>): nat {
    if ops == [] then 0
    else
      var (init, op) := (ops[..|ops| - 1], ops[|ops| - 1]);
      Pictures(c, s, init) + if Listens(c, Run(c, s, init), op) && op.p.wake.Frame? then op.p.wake.pictures else 0
  }

  function BadFrames(c: Config, s: State, ops: seq<Op>): nat {
    if ops == [] then 0
    else
      var (init, op) := (ops[..|ops| - 1], ops[|ops| - 1]);
      BadFrames(c, s, init) + if Listens(c, Run(c, s, init), op) && op.p.wake.BadFrame? then 1 else 0
  }

  /** The two frame counters are exact in every run. */
  lemma {:induction false} CountersAreExact(c: Config, start: nat, first: Transport, ops: seq<Op>)
    ensures
      var (s, t) := (Init(start, first), Run(c, Init(start, first), ops));
      t.decoded == Pictures(c, s, ops) && t.dropped == BadFrames(c, s, ops)
  {
    hide Step, Listens;
    if ops != [] {
      CountersAreExact(c, start, first, ops[..|ops| - 1]);
      StepCounts(c, Run(c, Init(start, first), ops[..|ops| - 1]), ops[|ops| - 1]);
    }
  }

  lemma StepCounts(c: Config, s: State, op: Op)
    ensures
      var t := Step(c, s, op);
      && t.decoded == s.decoded + (if Listens(c, s, op) && op.p.wake.Frame? then op.p.wake.pictures else 0)
      && t.dropped == s.dropped + (if Listens(c, s, op) && op.p.wake.BadFrame? then 1 else 0)
  {
  }

  /** A session that listens ends by an error exactly when it is one that no degrade can mend. */
  lemma ErrorEndsIff(c: Config, s: State, op: Op)
    requires Listens(c, s, op)
    ensures
      var t := Step(c, s, op);
      && (t.end == Some(ReceiveFailed) <==>
            op.p.wake.OtherError? || (op.p.wake.ConnectionError? && (s.mode == Tcp || !c.degradeEnabled)))
      && (t.episodes > s.episodes <==> op.p.wake.ConnectionError? && s.mode == Quic && c.degradeEnabled)
  {
  }

  /** What ends a session, in one pass. */
  lemma PassEndsIff(c: Config, s: State, p: Pass)
    requires s.end.None?
    ensures
      var t := Step(c, s, DoPass(p));
      && (t.end == Some(Stopped) <==> p.stop)
      && (t.end == Some(DegradeTimedOut) <==> !p.stop && s.degrading && s.deadline.Some? && s.now >= s.deadline.value)
      && (t.end == Some(ReceiveFailed) <==>
            && Listens(c, s, DoPass(p))
            && (p.wake.OtherError? || (p.wake.ConnectionError? && (s.mode == Tcp || !c.degradeEnabled))))
      && (t.end == Some(IdleTooLong) ==> Listens(c, s, DoPass(p)) && p.wake.Timer?)
  {
  }

  /** The transports that have come in, by a dial or by the punch source, while the session was on. */
  function CameIn(c: Config, s: State, ops: seq<Op>): seq<Transport> {
    if ops == [] then []
    else
      var (init, op) := (ops[..|ops| - 1], ops[|ops| - 1]);
      var t := Run(c, s, init);
      CameIn(c, s, init) +
        if t.end.Some? then []
        else if op.RedialDone? && t.redialing > 0 && op.dialed.Some? then [op.dialed.value]
        else if op.PunchDone? && c.punch then [op.punched]
        else []
  }

  /** In every run they are taken in the order in which they came; the others still wait. */
  lemma {:induction false} TakenInOrder(c: Config, start: nat, first: Transport, ops: seq<Op>)
    ensures
      var (s, t) := (Init(start, first), Run(c, Init(start, first), ops));
      t.delivered + t.channel == CameIn(c, s, ops)
  {
    hide Step;
    if ops != [] {
      TakenInOrder(c, start, first, ops[..|ops| - 1]);
      StepTakes(c, Run(c, Init(start, first), ops[..|ops| - 1]), ops[|ops| - 1]);
    }
  }

  lemma StepTakes(c: Config, s: State, op: Op)
    ensures
      var t := Step(c, s, op);
      t.delivered + t.channel == s.delivered + s.channel +
        if s.end.Some? then []
        else if op.RedialDone? && s.redialing > 0 && op.dialed.Some? then [op.dialed.value]
        else if op.PunchDone? && c.punch then [op.punched]
        else []
  {
    if s.channel != [] {
      assert s.delivered + [s.channel[0]] + s.channel[1..] == s.delivered + s.channel;
    }
  }

  /** A transport that comes while the session listens is taken at once. */
  lemma WaitingTransportIsTaken(c: Config, s: State, op: Op)
    requires Listens(c, s, op) && op.p.wake.SwapCame? && s.channel != []
    ensures
      var (t, taken) := (Step(c, s, op), s.channel[0]);
      && t.delivered == s.delivered + [taken]
      && (taken.splits ==> t.slot == taken && t.mode == taken.kind && t.switches == s.switches + 1)
      && (!taken.splits ==> t.slot == s.slot && t.switches == s.switches)
  {
  }

  // ---- Without a punch source ----

  ghost predicate OneWay(c: Config, first: Transport, s: State) {
    && s.mode == s.slot.kind
    && s.redialing + |s.channel| <= (if s.degrading then 1 else 0)
    && (forall k :: 0 <= k < |s.channel| ==> s.channel[k].kind == Tcp)
    && s.redials == s.episodes == |s.delivered| + (if s.degrading then 1 else 0)
    && s.switches == Splitting(s.delivered)
    && (s.switches == 0 ==> s.slot == first)
    && (s.switches > 0 ==> s.switches == 1 && first.kind == Quic && s.mode == Tcp)
    && (s.degrading ==> s.mode == Quic)
  }

  lemma TakeKeepsOneWay(c: Config, first: Transport, s: State)
    requires OneWay(c, first, s) && s.channel != []
    ensures OneWay(c, first, TakeFromChannel(s).(degrading := false))
  {
    assert (s.delivered + [s.channel[0]])[..|s.delivered|] == s.delivered;
  }

  lemma LoopKeepsOneWay(c: Config, first: Transport, s: State, p: Pass)
    requires OneWay(c, first, s) && Possible(c, s, p)
    ensures OneWay(c, first, Loop(c, s, p))
  {
    hide Splitting, TakeFromChannel;
    if s.degrading && s.channel != [] {
      TakeKeepsOneWay(c, first, s.(now := s.now + p.wait));
    }
  }

  lemma {:induction false} RunKeepsOneWay(c: Config, start: nat, first: Transport, ops: seq<Op>)
    requires !c.punch && RunAllowed(c, Init(start, first), ops)
    ensures OneWay(c, first, Run(c, Init(start, first), ops))
    decreases |ops|
  {
    hide Loop, Possible;
    if ops != [] {
      var init := ops[..|ops| - 1];
      RunKeepsOneWay(c, start, first, init);
      var s := Run(c, Init(start, first), init);
      if s.end.None? && ops[|ops| - 1].DoPass? {
        LoopKeepsOneWay(c, first, s, ops[|ops| - 1].p);
      }
    }
  }

  /** One redial an episode, one switch at most, only from QUIC to TCP; and no swap outside an episode. */
  lemma SwitchesOnce(c: Config, start: nat, first: Transport, ops: seq<Op>)
    requires !c.punch && RunAllowed(c, Init(start, first), ops)
    ensures
      var s := Run(c, Init(start, first), ops);
      && s.redials == s.episodes
      && s.switches <= 1
      && (s.switches == 1 ==> first.kind == Quic && s.mode == Tcp)
      && (!s.degrading ==> s.channel == [] && s.redialing == 0)
      && (first.kind == Tcp ==> s.episodes == 0 && s.slot == first)
  {
    hide Run, RunAllowed, Splitting;
    RunKeepsOneWay(c, start, first, ops);
    FromTcpNothingHappens(c, start, first, ops);
  }

  lemma {:induction false} FromTcpNothingHappens(c: Config, start: nat, first: Transport, ops: seq<Op>)
    requires !c.punch && RunAllowed(c, Init(start, first), ops)
    ensures
      var s := Run(c, Init(start, first), ops);
      first.kind == Tcp ==> s.episodes == 0 && s.slot == first && s.mode == Tcp && s.channel == [] && !s.degrading && s.redialing == 0
    decreases |ops|
  {
    if ops != [] {
      FromTcpNothingHappens(c, start, first, ops[..|ops| - 1]);
    }
  }

  /** A second episode needs a transport that was dialed and could not be used. */
  lemma SecondEpisodeNeedsADud(c: Config, start: nat, first: Transport, ops: seq<Op>)
    requires !c.punch && RunAllowed(c, Init(start, first), ops)
    requires Run(c, Init(start, first), ops).episodes >= 2
    ensures exists t :: t in Run(c, Init(start, first), ops).delivered && !t.splits
  {
    hide Run, RunAllowed;
    RunKeepsOneWay(c, start, first, ops);
    var s := Run(c, Init(start, first), ops);
    if forall t :: t in s.delivered ==> t.splits {
      AllSplit(s.delivered);
      assert false;
    }
  }

  lemma {:induction false} AllSplit(ts: seq<Transport>)
    requires forall t :: t in ts ==> t.splits
    ensures Splitting(ts) == |ts|
  {
    if ts != [] {
      AllSplit(ts[..|ts| - 1]);
      assert ts[|ts| - 1] in ts;
    }
  }

  // ---- The idle watchdog ----

  /** Passes in which nothing is received. */
  predicate IsSilent(s: State, op: Op) {
    && op.DoPass? && !op.p.stop && op.p.alive && op.p.heard == s.lastRx
    && (op.p.wake.ReceiveTimeout? || op.p.wake.Timer?)
  }

  predicate SilentRun(c: Config, s: State, ops: seq<Op>)
    decreases |ops|
  {
    ops == [] ||
    var init := ops[..|ops| - 1];
    SilentRun(c, s, init) && IsSilent(s, ops[|ops| - 1]) && Allowed(c, Run(c, s, init), ops[|ops| - 1])
  }

  /** A client of a silent peer ends exactly ten seconds after the last packet, and not before. */
  lemma {:induction false} SilentPeerEndsOnTime(c: Config, s: State, ops: seq<Op>)
    requires !s.degrading && s.end.None? && SilentRun(c, s, ops)
    ensures
      var t := Run(c, s, ops);
      && !t.degrading && t.lastRx == s.lastRx && LastHeard(t) == LastHeard(s)
      && t.now <= TimerAt(s)
      && (t.end.None? ==> TimerAt(t) == TimerAt(s))
      && (t.end.Some? ==> t.end == Some(IdleTooLong) && t.now == TimerAt(s))
      && (ops != [] && ops[|ops| - 1].p.wake.Timer? ==> t.end.Some?)
    decreases |ops|
  {
    if ops != [] {
      SilentPeerEndsOnTime(c, s, ops[..|ops| - 1]);
    }
  }

  /** Passes that listen, over one transport, and do not go wrong. */
  predicate IsSteady(c: Config, s: State, op: Op) {
    Listens(c, s, op) && !op.p.wake.SwapCame? && !op.p.wake.ConnectionError? && !op.p.wake.OtherError?
  }

  predicate SteadyRun(c: Config, s: State, ops: seq<Op>)
    decreases |ops|
  {
    ops == [] ||
    var init := ops[..|ops| - 1];
    SteadyRun(c, s, init) && IsSteady(c, Run(c, s, init), ops[|ops| - 1])
  }

  /** When the client last heard anything, as its passes tell it; at first, when the session started. */
  function LastPacket(start: nat, ops: seq<Op>): nat {
    if ops == [] then start
    else
      var op := ops[|ops| - 1];
      if op.DoPass? && op.p.heard.Some? then op.p.heard.value else LastPacket(start, ops[..|ops| - 1])
  }

  lemma {:induction false} WatchdogKnowsTheLastPacket(c: Config, start: nat, first: Transport, ops: seq<Op>)
    requires RunAllowed(c, Init(start, first), ops) && SteadyRun(c, Init(start, first), ops)
    ensures
      var t := Run(c, Init(start, first), ops);
      && (t.lastRx.Some? <==> ops != [] && ops[|ops| - 1].p.heard.Some?)
      && (t.lastRx.Some? ==> t.lastRx.value == LastPacket(start, ops))
      && (t.lastRx.None? ==> t.baseline == start == LastPacket(start, ops))
    decreases |ops|
  {
    if ops != [] {
      var init := ops[..|ops| - 1];
      WatchdogKnowsTheLastPacket(c, start, first, init);
      if init != [] {
        assert init[|init| - 1] == ops[|ops| - 2];
      }
    }
  }

  lemma ListeningSetsTheBaseline(c: Config, s: State, op: Op)
    requires Listens(c, s, op)
    ensures Step(c, s, op).baseline == LastHeard(s)
  {
  }

  /** The baseline, which a swap falls back on, misses what the last pass heard, whatever ended it. */
  lemma BaselineMissesTheLastPass(c: Config, start: nat, first: Transport, ops: seq<Op>)
    requires ops != []
    requires var init := ops[..|ops| - 1];
             && RunAllowed(c, Init(start, first), init) && SteadyRun(c, Init(start, first), init)
             && Listens(c, Run(c, Init(start, first), init), ops[|ops| - 1])
    ensures Run(c, Init(start, first), ops).baseline == LastPacket(start, ops[..|ops| - 1])
  {
    var init := ops[..|ops| - 1];
    var t := Run(c, Init(start, first), init);
    ListeningSetsTheBaseline(c, t, ops[|ops| - 1]);
    WatchdogKnowsTheLastPacket(c, start, first, init);
    hide Step, RunAllowed, SteadyRun, Listens, LastPacket;
    assert LastHeard(t) == LastPacket(start, init);
  }

  /** When the timer fires, the session ends exactly when the last packet is ten seconds old by then. */
  lemma TimerEndsIff(c: Config, start: nat, first: Transport, ops: seq<Op>)
    requires ops != [] && RunAllowed(c, Init(start, first), ops) && SteadyRun(c, Init(start, first), ops) && ops[|ops| - 1].p.wake.Timer?
    ensures
      var t := Run(c, Init(start, first), ops);
      t.end == Some(IdleTooLong) <==> t.now >= LastPacket(start, ops) + 10_000
  {
    var init := ops[..|ops| - 1];
    WatchdogKnowsTheLastPacket(c, start, first, ops);
    WatchdogKnowsTheLastPacket(c, start, first, init);
    if init != [] {
      assert init[|init| - 1] == ops[|ops| - 2];
    }
  }

  /** The first pass after a hot swap, with nothing received yet. */
  const NothingYet := Pass(false, true, 0, None, Timer)

  /**
   After a swap the watchdog counts from the baseline of before the episode: the session ends
   on the spot, before the new transport can say anything, exactly when that is ten seconds ago.
   */
  lemma SwapIsFatalIff(c: Config, s: State, p: Pass)
    requires s.degrading && s.end.None? && s.deadline.Some? && s.now < s.deadline.value && !p.stop && Possible(c, s, p)
    requires !StartsEpisode(c, s, p) && s.channel != [] && s.channel[0].splits
    ensures
      var t := Loop(c, s, p);
      Possible(c, t, NothingYet) && Loop(c, t, NothingYet).end == Some(IdleTooLong) <==> t.now >= s.baseline + IDLE_TIMEOUT
  {
  }

  function Polls(n: nat): seq<Op> {
    seq(n, _ => DoPass(Pass(false, false, POLL, None, Timer)))
  }

  /** Waiting for the redial takes the time it takes, 100 ms a pass. */
  lemma {:induction false} PollsOnlyWait(c: Config, s: State, n: nat)
    requires s.degrading && s.end.None? && s.channel == [] && s.deadline.Some? && (n > 0 ==> s.now + (n - 1) * POLL < s.deadline.value)
    ensures Run(c, s, Polls(n)) == s.(now := s.now + n * POLL)
    ensures RunAllowed(c, s, Polls(n))
    decreases n
  {
    if n > 0 {
      assert Polls(n)[..n - 1] == Polls(n - 1);
      PollsOnlyWait(c, s, n - 1);
    }
  }

  /** The receive fails after a quiet time, as QUIC is dead. */
  function DeadAfter(quiet: nat): seq<Op> {
    [DoPass(Pass(false, true, quiet, None, ConnectionError))]
  }

  const DIALED: seq<Op> := [RedialDone(Some(Transport(Tcp, true))), DoPass(Pass(false, false, 0, None, Timer))]

  lemma DegradesAfter(c: Config, now: nat, quiet: nat)
    requires c.degradeEnabled && quiet <= IDLE_TIMEOUT
    ensures
      var (s, t) := (Init(now, Transport(Quic, true)), Run(c, Init(now, Transport(Quic, true)), DeadAfter(quiet)));
      && RunAllowed(c, s, DeadAfter(quiet))
      && t == Trigger(c, s.(now := now + quiet))
  {
    var s := Init(now, Transport(Quic, true));
    var ops := DeadAfter(quiet);
    assert ops[..|ops| - 1] == [] && Run(c, s, []) == s && RunAllowed(c, s, []);
    assert Allowed(c, s, ops[0]);
    assert Step(c, s, ops[0]) == Trigger(c, s.(now := now + quiet));
  }

  lemma DialComesIn(c: Config, s: State)
    requires s.degrading && s.end.None? && s.channel == [] && s.redialing == 1 && s.deadline.Some? && s.now < s.deadline.value
    ensures
      var first := Step(c, s, DIALED[0]);
      var t := Step(c, first, DIALED[1]);
      && first == s.(redialing := 0, channel := [Transport(Tcp, true)]) && Allowed(c, s, DIALED[0]) && Allowed(c, first, DIALED[1])
      && t == Loop(c, first, DIALED[1].p)
      && t.now == s.now && t.end.None? && t.switches == s.switches + 1 && t.mode == Tcp
  {
  }

  lemma SwapsIn(c: Config, s: State)
    requires s.degrading && s.end.None? && s.channel == [] && s.redialing == 1 && s.deadline.Some? && s.now < s.deadline.value
    ensures
      var t := Run(c, s, DIALED);
      && RunAllowed(c, s, DIALED) && t.now == s.now && t.end.None? && t.switches == s.switches + 1 && t.mode == Tcp
      && (Possible(c, t, NothingYet) && Loop(c, t, NothingYet).end == Some(IdleTooLong) <==> s.now >= s.baseline + IDLE_TIMEOUT)
  {
    var first := Step(c, s, DIALED[0]);
    assert DIALED[..1] == [DIALED[0]] && DIALED[..1][..0] == [];
    assert Run(c, s, []) == s && Run(c, s, DIALED[..1]) == first;
    assert Run(c, s, DIALED) == Step(c, first, DIALED[1]);
    DialComesIn(c, s);
    assert RunAllowed(c, s, DIALED[..1]);
    assert RunAllowed(c, s, DIALED);
    hide Run, RunAllowed, Loop, Possible;
    SwapIsFatalIff(c, first, DIALED[1].p);
  }

  /**
   A dial that succeeds within its deadline is answered by giving up, before the new
   transport can say anything, exactly when it and the quiet time before it make ten seconds.
   */
  lemma SlowDialIsFatalIff(c: Config, now: nat, quiet: nat, polls: nat)
    requires c.degradeEnabled && quiet <= IDLE_TIMEOUT && polls * POLL < WaitTimeout(c)
    ensures
      var s := Init(now, Transport(Quic, true));
      var ops := DeadAfter(quiet) + Polls(polls) + DIALED;
      var t := Run(c, s, ops);
      && RunAllowed(c, s, ops) && t.end.None? && t.switches == 1 && t.mode == Tcp
      && (Possible(c, t, NothingYet) && Loop(c, t, NothingYet).end == Some(IdleTooLong) <==> quiet + polls * POLL >= IDLE_TIMEOUT)
  {
    hide Run, RunAllowed, Loop, Possible;
    var s := Init(now, Transport(Quic, true));
    DegradesAfter(c, now, quiet);
    var dead := Trigger(c, s.(now := now + quiet));
    PollsOnlyWait(c, dead, polls);
    SwapsIn(c, dead.(now := dead.now + polls * POLL));
    RunInParts(c, s, DeadAfter(quiet), Polls(polls));
    RunInParts(c, s, DeadAfter(quiet) + Polls(polls), DIALED);
  }

  lemma {:induction false} RunInParts(c: Config, s: State, first: seq<Op>, second: seq<Op>)
    ensures Run(c, s, first + second) == Run(c, Run(c, s, first), second)
    ensures RunAllowed(c, s, first + second) <==> RunAllowed(c, s, first) && RunAllowed(c, Run(c, s, first), second)
    decreases |second|
  {
    hide Step, Allowed;
    if second == [] {
      assert first + second == first;
    } else {
      var init := second[..|second| - 1];
      assert (first + second)[..|first + second| - 1] == first + init;
      RunInParts(c, s, first, init);
    }
  }

  /** With a connect time of 5 s: six quiet seconds, then a dial of four. */
  lemma SwapCanBeFatal(now: nat)
    ensures
      var c := Config(true, 5000, false);
      var t := Run(c, Init(now, Transport(Quic, true)), DeadAfter(6000) + Polls(40) + DIALED);
      t.switches == 1 && Possible(c, t, NothingYet) && Loop(c, t, NothingYet).end == Some(IdleTooLong)
  {
    hide Run, Loop, Possible;
    SlowDialIsFatalIff(Config(true, 5000, false), now, 6000, 40);
  }
}
