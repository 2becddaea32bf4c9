/**
 Keepalive and idle watchdog of media/src/session.rs, in milliseconds.

 The server's loop waits for an output or for 500 ms, whichever is first; only the 500 ms
 branch looks at the keepalive timer, and every output starts the 500 ms afresh. An output
 is media (windows, audio) or control (video format, refusals, display lists). A failed
 window ends the session or starts a degrade; the others may fail and the loop goes on.
 A send holds up the loop while it blocks, and counts at the moment it returns.

 Over TCP the client hears every packet. Over QUIC its loop reads datagrams only, so it
 hears media; control packets, keepalives among them, stay in the control stream.
 */
module Liveness {
  import SessionSpec

  type Kind = SessionSpec.Kind

  const POLL := 500
  const KEEPALIVE := 3000
  const IDLE_TIMEOUT := SessionSpec.IDLE_TIMEOUT

  datatype Sort = Media | Control

  /** One pass of the server's loop, outside degrade; `took`: how long its send blocks. */
  datatype Pass = Output(wait: nat, took: nat, sort: Sort, works: bool) | Poll(took: nat, works: bool)

  /** A send, with the failed outputs since the send before it and the time spent in sends, its own included. */
  datatype Send = Send(at: nat, idle: nat, blocked: nat, sort: Sort)

  datatype Server = Server(now: nat, keepalive: nat, idle: nat, blocked: nat, sends: seq<Send>, open: bool)

  /** The session starts with the video format going out. */
  function Start(now: nat): Server {
    Server(now, now, 0, 0, [Send(now, 0, 0, Control)], true)
  }

  predicate Possible(p: Pass) {
    p.Output? ==> p.wait <= POLL
  }

  function Step(s: Server, p: Pass): Server {
    if !s.open then s
    else
      match p
      case Output(wait, took, sort, works) =>
        var now := s.now + wait + took;
        if works then Server(now, s.keepalive, 0, 0, s.sends + [Send(now, s.idle, s.blocked + took, sort)], true)
        else s.(now := now, idle := s.idle + 1, blocked := s.blocked + took)
      case Poll(took, works) =>
        var woken := s.now + POLL;
        var now := woken + took;
        if woken - s.keepalive < KEEPALIVE then s.(now := woken)
        else if !works then s.(now := now, blocked := s.blocked + took, open := false)
        else Server(now, now, 0, 0, s.sends + [Send(now, s.idle, s.blocked + took, Control)], true)
  }

  function Run(s: Server, ps: seq<Pass>): Server {
    if ps == [] then s else Step(Run(s, ps[..|ps| - 1]), ps[|ps| - 1])
  }

  function LastSend(s: Server): nat
    requires s.sends != []
  {
    s.sends[|s.sends| - 1].at
  }

  // ---- The server's side ----

  /** The longest quiet time with `idle` failed outputs and `blocked` milliseconds of sending in it. */
  function Longest(idle: nat, blocked: nat): nat {
    KEEPALIVE + POLL * idle + blocked
  }

  ghost predicate GapsAreShort(sends: seq<Send>) {
    forall k, m :: 0 <= k && m == k + 1 && m < |sends| ==>
      sends[k].at + sends[m].blocked <= sends[m].at <= sends[k].at + Longest(sends[m].idle, sends[m].blocked)
  }

  /** Without failed outputs only polls have passed since the last send; an open session is a poll short of the limit. */
  ghost predicate Inv(s: Server) {
    && s.sends != [] && s.keepalive <= LastSend(s) && LastSend(s) + s.blocked <= s.now
    && (s.open && s.idle == 0 ==> s.blocked == 0 && (s.now - LastSend(s)) % POLL == 0)
    && (s.open ==> s.now + POLL <= LastSend(s) + Longest(s.idle, s.blocked))
    && s.now <= LastSend(s) + Longest(s.idle, s.blocked)
    && GapsAreShort(s.sends)
  }

  lemma SendKeepsGaps(sends: seq<Send>, e: Send)
    requires sends != [] && GapsAreShort(sends)
    requires sends[|sends| - 1].at + e.blocked <= e.at <= sends[|sends| - 1].at + Longest(e.idle, e.blocked)
    ensures GapsAreShort(sends + [e])
  {
    var r := sends + [e];
    forall k, m | 0 <= k && m == k + 1 && m < |r|
      ensures r[k].at + r[m].blocked <= r[m].at <= r[k].at + Longest(r[m].idle, r[m].blocked)
    {
      if m < |sends| {
        assert r[m] == sends[m] && r[k] == sends[k];
      } else {
        assert r[m] == e && r[k] == sends[|sends| - 1];
      }
    }
  }

  lemma StepKeepsInv(s: Server, p: Pass)
    requires Inv(s) && Possible(p)
    ensures Inv(Step(s, p))
  {
    hide GapsAreShort;
    var t := Step(s, p);
    if |t.sends| > |s.sends| {
      SendKeepsGaps(s.sends, t.sends[|s.sends|]);
    }
  }

  ghost predicate AllPossible(ps: seq<Pass>) {
    forall p :: p in ps ==> Possible(p)
  }

  lemma {:induction false} RunKeepsInv(start: nat, ps: seq<Pass>)
    requires AllPossible(ps)
    ensures Inv(Run(Start(start), ps))
  {
    hide Step, Inv;
    if ps == [] {
      StartHasInv(start);
    } else {
      RunKeepsInv(start, ps[..|ps| - 1]);
      StepKeepsInv(Run(Start(start), ps[..|ps| - 1]), ps[|ps| - 1]);
    }
  }

  lemma StartHasInv(start: nat)
    ensures Inv(Start(start))
  {
  }

  /** Only a keepalive that fails closes the session, and one is due three seconds after the one before. */
  lemma PassClosesIff(s: Server, p: Pass)
    requires s.open
    ensures !Step(s, p).open <==> p.Poll? && !p.works && s.now + 500 >= s.keepalive + 3000
    ensures p.Poll? && p.works && s.now + 500 >= s.keepalive + 3000 ==> Step(s, p).keepalive == Step(s, p).now
  {
  }

  /** How long nothing has gone out: a poll less while the session is open. */
  lemma QuietTimeIsBounded(start: nat, ps: seq<Pass>)
    requires AllPossible(ps)
    ensures
      var s := Run(Start(start), ps);
      && s.sends != [] && s.now <= LastSend(s) + Longest(s.idle, s.blocked)
      && (s.open ==> s.now + POLL <= LastSend(s) + Longest(s.idle, s.blocked))
  {
    hide Run;
    RunKeepsInv(start, ps);
  }

  /** In this run the sends `k` and `k + 1` are `gap` apart, with these failures and this blocking between them. */
  ghost predicate IsGap(start: nat, ps: seq<Pass>, k: nat, gap: nat, idle: nat, blocked: nat) {
    var sends := Run(Start(start), ps).sends;
    && AllPossible(ps) && k + 1 < |sends| && sends[k + 1].at == sends[k].at + gap
    && sends[k + 1].idle == idle && sends[k + 1].blocked == blocked
  }

  /** `n` failed outputs, of audio say, that are `total` milliseconds in coming. */
  function Failures(n: nat, total: nat): seq<Pass> {
    if n == 0 then []
    else
      var wait := if total < POLL then total else POLL;
      Failures(n - 1, total - wait) + [Output(wait, 0, Media, false)]
  }

  function Polls(n: nat): seq<Pass> {
    seq(n, _ => Poll(0, true))
  }

  /** Polls first, then the failures, then an output that is sent. */
  function LongGap(polls: nat, idle: nat, total: nat, wait: nat, took: nat): seq<Pass> {
    Polls(polls) + Failures(idle, total) + [Output(wait, took, Media, true)]
  }

  lemma {:induction false} PollsOnlyWait(s: Server, n: nat)
    requires s.open && (n > 0 ==> s.now + POLL * n < s.keepalive + KEEPALIVE)
    ensures Run(s, Polls(n)) == s.(now := s.now + POLL * n)
  {
    if n > 0 {
      assert Polls(n)[..n - 1] == Polls(n - 1);
      PollsOnlyWait(s, n - 1);
    }
  }

  lemma {:induction false} FailuresOnlyWait(s: Server, ps: seq<Pass>, n: nat, total: nat)
    requires Run(s, ps).open && total <= POLL * n
    ensures Run(s, ps + Failures(n, total)) == Run(s, ps).(now := Run(s, ps).now + total, idle := Run(s, ps).idle + n)
    ensures AllPossible(Failures(n, total))
  {
    if n == 0 {
      assert ps + [] == ps;
    } else {
      var wait := if total < POLL then total else POLL;
      var init := Failures(n - 1, total - wait);
      FailuresOnlyWait(s, ps, n - 1, total - wait);
      assert (ps + Failures(n, total))[..|ps| + |init|] == ps + init;
    }
  }

  lemma LongGapIsAGap(start: nat, polls: nat, idle: nat, total: nat, wait: nat, took: nat)
    requires POLL * polls < KEEPALIVE && total <= POLL * idle && wait <= POLL
    ensures
      var at := start + POLL * polls + total + wait + took;
      Run(Start(start), LongGap(polls, idle, total, wait, took))
      == Server(at, start, 0, 0, [Send(start, 0, 0, Control), Send(at, idle, took, Media)], true)
    ensures AllPossible(LongGap(polls, idle, total, wait, took))
  {
    PollsOnlyWait(Start(start), polls);
    FailuresOnlyWait(Start(start), Polls(polls), idle, total);
    var init := Polls(polls) + Failures(idle, total);
    assert LongGap(polls, idle, total, wait, took)[..|init|] == init;
  }

  /**
   Two neighbouring sends can be `gap` apart with `idle` failed outputs and `blocked`
   milliseconds of sending between them exactly from `blocked` up to 3 s, half a second for
   each failure, and `blocked`.
   */
  lemma GapIsPossibleIff(gap: nat, idle: nat, blocked: nat)
    ensures (exists start, ps, k :: IsGap(start, ps, k, gap, idle, blocked))
            <==> blocked <= gap <= KEEPALIVE + POLL * idle + blocked
  {
    if start, ps, k :| IsGap(start, ps, k, gap, idle, blocked) {
      GapIsBounded(start, ps, k, gap, idle, blocked);
    }
    if blocked <= gap <= KEEPALIVE + POLL * idle + blocked {
      var free := gap - blocked;
      var total := if free < POLL * idle then free else POLL * idle;
      var rest := free - total;
      var polls := if rest == 0 then 0 else (rest - 1) / POLL;
      LongGapIsAGap(0, polls, idle, total, rest - POLL * polls, blocked);
      assert IsGap(0, LongGap(polls, idle, total, rest - POLL * polls, blocked), 0, gap, idle, blocked);
    }
  }

  lemma GapIsBounded(start: nat, ps: seq<Pass>, k: nat, gap: nat, idle: nat, blocked: nat)
    requires IsGap(start, ps, k, gap, idle, blocked)
    ensures blocked <= gap <= KEEPALIVE + POLL * idle + blocked
  {
    hide Run;
    RunKeepsInv(start, ps);
  }

  // ---- The client's side ----

  /** The client was told of the start; afterwards QUIC hides control packets from it. */
  predicate IsHeard(kind: Kind, sends: seq<Send>, k: nat)
    requires k < |sends|
  {
    k == 0 || kind == SessionSpec.Tcp || sends[k].sort == Media
  }

  /** Each send arrives between `least` and `least + spread` after it returned. */
  ghost predicate Arrives(sends: seq<Send>, arrivals: seq<nat>, least: nat, spread: nat) {
    && |arrivals| == |sends|
    && forall k :: 0 <= k < |sends| ==> sends[k].at + least <= arrivals[k] <= sends[k].at + least + spread
  }

  /** `idle_watchdog_expired`: nothing of what has been heard is younger than ten seconds. */
  ghost predicate Expired(kind: Kind, sends: seq<Send>, arrivals: seq<nat>, now: nat)
    requires |arrivals| == |sends|
  {
    forall k :: 0 <= k < |arrivals| && IsHeard(kind, sends, k) && arrivals[k] <= now ==> now - arrivals[k] >= IDLE_TIMEOUT
  }

  /** Send `i` is one the client hears, and `moment` is at most `gap` later. */
  ghost predicate HeardShortlyBefore(kind: Kind, sends: seq<Send>, i: nat, moment: nat, gap: nat) {
    i < |sends| && IsHeard(kind, sends, i) && moment <= sends[i].at + gap
  }

  /** Less than `gap` has passed since send `i`, which the client hears. */
  ghost predicate HeardOf(kind: Kind, s: Server, i: nat, gap: nat) {
    i < |s.sends| && IsHeard(kind, s.sends, i) && s.now < s.sends[i].at + gap
  }

  /** Every heard send comes at most `gap` after a heard one, and less than that has passed since. */
  ghost predicate HeardWithin(kind: Kind, s: Server, gap: nat) {
    && (forall j :: 1 <= j < |s.sends| && IsHeard(kind, s.sends, j) ==>
          exists i :: 0 <= i < j && HeardShortlyBefore(kind, s.sends, i, s.sends[j].at, gap))
    && exists i :: 0 <= i < |s.sends| && HeardOf(kind, s, i, gap)
  }

  /** The first heard send after a moment, or the end. */
  lemma FirstLater(kind: Kind, sends: seq<Send>, moment: nat) returns (j: nat)
    ensures j <= |sends| && (j < |sends| ==> IsHeard(kind, sends, j) && sends[j].at > moment)
    ensures forall i :: 0 <= i < j && IsHeard(kind, sends, i) ==> sends[i].at <= moment
  {
    j := 0;
    while j < |sends| && !(IsHeard(kind, sends, j) && sends[j].at > moment)
      invariant j <= |sends|
      invariant forall i :: 0 <= i < j && IsHeard(kind, sends, i) ==> sends[i].at <= moment
    {
      j := j + 1;
    }
  }

  /** At any moment of the session something heard was sent less than `gap` before. */
  lemma HeardBefore(kind: Kind, s: Server, gap: nat, moment: nat) returns (k: nat)
    requires HeardWithin(kind, s, gap) && s.sends != [] && s.sends[0].at <= moment <= s.now
    ensures k < |s.sends| && IsHeard(kind, s.sends, k) && s.sends[k].at <= moment < s.sends[k].at + gap
  {
    var j := FirstLater(kind, s.sends, moment);
    if j < |s.sends| {
      k :| 0 <= k < j && HeardShortlyBefore(kind, s.sends, k, s.sends[j].at, gap);
    } else {
      k :| 0 <= k < |s.sends| && HeardOf(kind, s, k, gap);
    }
  }

  /**
   Over either transport: if heard sends are at most `gap` apart and delays vary by at most
   ten seconds less that, the watchdog has not expired at any moment from the client's first
   packet on that the server's time so far decides.
   */
  lemma LiveSessionSurvives(kind: Kind, start: nat, ps: seq<Pass>, gap: nat, arrivals: seq<nat>, least: nat, spread: nat, now: nat)
    requires spread + gap <= IDLE_TIMEOUT
    requires
      var s := Run(Start(start), ps);
      && HeardWithin(kind, s, gap) && Arrives(s.sends, arrivals, least, spread)
      && arrivals != [] && arrivals[0] <= now <= s.now + least + spread
    ensures !Expired(kind, Run(Start(start), ps).sends, arrivals, now)
  {
    hide Run, HeardWithin;
    var s := Run(Start(start), ps);
    FirstSend(start, ps);
    GapIsPositive(kind, s, gap);
    if now < start + least + spread {
      assert IsHeard(kind, s.sends, 0) && arrivals[0] <= now && now - arrivals[0] < IDLE_TIMEOUT;
    } else {
      var k := HeardBefore(kind, s, gap, now - least - spread);
      assert IsHeard(kind, s.sends, k) && arrivals[k] <= now && now - arrivals[k] < IDLE_TIMEOUT;
    }
  }

  lemma GapIsPositive(kind: Kind, s: Server, gap: nat)
    requires HeardWithin(kind, s, gap) && forall k :: 0 <= k < |s.sends| ==> s.sends[k].at <= s.now
    ensures gap > 0
  {
  }

  lemma {:induction false} FirstSend(start: nat, ps: seq<Pass>)
    ensures
      var s := Run(Start(start), ps);
      s.sends != [] && s.sends[0] == Send(start, 0, 0, Control) && forall k :: 0 <= k < |s.sends| ==> s.sends[k].at <= s.now
  {
    if ps != [] {
      FirstSend(start, ps[..|ps| - 1]);
    }
  }

  /** A session of which the packets up to `now` have all been sent. */
  ghost predicate Live(start: nat, ps: seq<Pass>, arrivals: seq<nat>, least: nat, spread: nat, now: nat) {
    var s := Run(Start(start), ps);
    && AllPossible(ps) && s.open && Arrives(s.sends, arrivals, least, spread)
    && arrivals != [] && arrivals[0] <= now <= s.now + least
  }

  // ---- TCP ----

  /** Between neighbouring sends, and between the last one and now, at most this many failures and this much blocking. */
  ghost predicate AtMost(s: Server, n: nat, blocked: nat) {
    && s.idle <= n && s.blocked <= blocked
    && forall k :: 0 <= k < |s.sends| ==> s.sends[k].idle <= n && s.sends[k].blocked <= blocked
  }

  /** Over TCP every send is heard, so the server's own limit on quiet times is the client's. */
  lemma TcpIsHeard(start: nat, ps: seq<Pass>, n: nat, blocked: nat)
    requires AllPossible(ps) && Run(Start(start), ps).open && AtMost(Run(Start(start), ps), n, blocked)
    ensures HeardWithin(SessionSpec.Tcp, Run(Start(start), ps), Longest(n, blocked))
  {
    hide Run;
    var (s, gap) := (Run(Start(start), ps), Longest(n, blocked));
    RunKeepsInv(start, ps);
    assert HeardOf(SessionSpec.Tcp, s, |s.sends| - 1, gap);
    forall j | 1 <= j < |s.sends| && IsHeard(SessionSpec.Tcp, s.sends, j)
      ensures exists i :: 0 <= i < j && HeardShortlyBefore(SessionSpec.Tcp, s.sends, i, s.sends[j].at, gap)
    {
      var i := j - 1;
      assert s.sends[i + 1].at <= s.sends[i].at + Longest(s.sends[i + 1].idle, s.sends[i + 1].blocked);
      assert HeardShortlyBefore(SessionSpec.Tcp, s.sends, i, s.sends[j].at, gap);
    }
  }

  ghost predicate TcpLive(start: nat, ps: seq<Pass>, n: nat, blocked: nat, arrivals: seq<nat>, least: nat, spread: nat, now: nat) {
    Live(start, ps, arrivals, least, spread, now) && AtMost(Run(Start(start), ps), n, blocked)
  }

  /**
   Over TCP a live session with at most `n` failures and `blocked` milliseconds of blocking
   between sends is never given up exactly when the delays vary by no more than ten seconds
   less the longest gap.
   */
  lemma TcpIsSafeIff(n: nat, blocked: nat, spread: nat)
    ensures (forall start, ps, arrivals, least, now :: TcpLive(start, ps, n, blocked, arrivals, least, spread, now) ==>
               !Expired(SessionSpec.Tcp, Run(Start(start), ps).sends, arrivals, now))
            <==> spread + KEEPALIVE + POLL * n + blocked <= IDLE_TIMEOUT
  {
    if spread + KEEPALIVE + POLL * n + blocked <= IDLE_TIMEOUT {
      forall start, ps, arrivals, least, now | TcpLive(start, ps, n, blocked, arrivals, least, spread, now)
        ensures !Expired(SessionSpec.Tcp, Run(Start(start), ps).sends, arrivals, now)
      {
        TcpIsHeard(start, ps, n, blocked);
        LiveSessionSurvives(SessionSpec.Tcp, start, ps, Longest(n, blocked), arrivals, least, spread, now);
      }
    } else {
      var ps, arrivals := UnluckyTcp(n, blocked, spread);
      assert TcpLive(0, ps, n, blocked, arrivals, 0, spread, IDLE_TIMEOUT);
    }
  }

  /** Without failures or blocking, delays may vary by seven seconds. */
  lemma BusyTcpSurvives(start: nat, ps: seq<Pass>, arrivals: seq<nat>, least: nat, now: nat)
    requires AllPossible(ps) && forall p :: p in ps ==> p.took == 0 && p.works
    requires
      var s := Run(Start(start), ps);
      && Arrives(s.sends, arrivals, least, 7000)
      && arrivals != [] && arrivals[0] <= now <= s.now + least + 7000
    ensures !Expired(SessionSpec.Tcp, Run(Start(start), ps).sends, arrivals, now)
  {
    hide Run;
    NeverIdle(start, ps);
    TcpIsHeard(start, ps, 0, 0);
    LiveSessionSurvives(SessionSpec.Tcp, start, ps, Longest(0, 0), arrivals, least, 7000, now);
  }

  lemma {:induction false} NeverIdle(start: nat, ps: seq<Pass>)
    requires forall p :: p in ps ==> p.took == 0 && p.works
    ensures Run(Start(start), ps).open && AtMost(Run(Start(start), ps), 0, 0)
  {
    if ps != [] {
      NeverIdle(start, ps[..|ps| - 1]);
      assert ps[|ps| - 1] in ps;
    }
  }

  /** Media at a steady pace. */
  function Busy(n: nat, wait: nat): seq<Pass> {
    seq(n, _ => Output(wait, 0, Media, true))
  }

  /** The last send is media and has just gone out; after the first send every heard one is at `from` or later. */
  ghost predicate FirstThenLate(kind: Kind, s: Server, from: nat, gap: nat, n: nat, blocked: nat) {
    && s.open && |s.sends| >= 2 && s.sends[0].at == 0
    && s.sends[|s.sends| - 1].sort == Media && LastSend(s) == s.now
    && (forall k :: 1 <= k < |s.sends| && IsHeard(kind, s.sends, k) ==> from <= s.sends[k].at)
    && HeardWithin(kind, s, gap) && AtMost(s, n, blocked)
  }

  lemma MediaKeeps(kind: Kind, s: Server, wait: nat, from: nat, gap: nat, n: nat, blocked: nat)
    requires FirstThenLate(kind, s, from, gap, n, blocked) && wait <= gap && from <= s.now && gap > 0
    ensures FirstThenLate(kind, Step(s, Output(wait, 0, Media, true)), from, gap, n, blocked)
  {
    var t := Step(s, Output(wait, 0, Media, true));
    var last := |s.sends| - 1;
    forall j | 1 <= j < |t.sends| && IsHeard(kind, t.sends, j)
      ensures exists i :: 0 <= i < j && HeardShortlyBefore(kind, t.sends, i, t.sends[j].at, gap)
    {
      if j <= last {
        assert IsHeard(kind, s.sends, j);
        var i :| 0 <= i < j && HeardShortlyBefore(kind, s.sends, i, s.sends[j].at, gap);
        assert HeardShortlyBefore(kind, t.sends, i, t.sends[j].at, gap);
      } else {
        assert HeardShortlyBefore(kind, t.sends, last, t.sends[j].at, gap);
      }
    }
    assert HeardOf(kind, t, last + 1, gap);
    forall k | 1 <= k < |t.sends| && IsHeard(kind, t.sends, k) ensures from <= t.sends[k].at {
      assert k <= last ==> IsHeard(kind, s.sends, k);
    }
  }

  lemma {:induction false} BusyKeeps(kind: Kind, s: Server, ps: seq<Pass>, m: nat, wait: nat, from: nat, gap: nat, n: nat, blocked: nat)
    requires FirstThenLate(kind, Run(s, ps), from, gap, n, blocked) && wait <= gap && from <= Run(s, ps).now && gap > 0
    ensures FirstThenLate(kind, Run(s, ps + Busy(m, wait)), from, gap, n, blocked)
    ensures Run(s, ps + Busy(m, wait)).now == Run(s, ps).now + wait * m
  {
    hide FirstThenLate;
    if m == 0 {
      assert ps + [] == ps;
    } else {
      BusyKeeps(kind, s, ps, m - 1, wait, from, gap, n, blocked);
      assert (ps + Busy(m, wait))[..|ps| + m - 1] == ps + Busy(m - 1, wait);
      MediaAfter(kind, s, ps, m, wait, from, gap, n, blocked);
    }
  }

  lemma MediaAfter(kind: Kind, s: Server, ps: seq<Pass>, m: nat, wait: nat, from: nat, gap: nat, n: nat, blocked: nat)
    requires m > 0 && FirstThenLate(kind, Run(s, ps + Busy(m - 1, wait)), from, gap, n, blocked) && wait <= gap && gap > 0
    requires from <= Run(s, ps).now && Run(s, ps + Busy(m - 1, wait)).now == Run(s, ps).now + wait * (m - 1)
    ensures FirstThenLate(kind, Step(Run(s, ps + Busy(m - 1, wait)), Output(wait, 0, Media, true)), from, gap, n, blocked)
    ensures Step(Run(s, ps + Busy(m - 1, wait)), Output(wait, 0, Media, true)).now == Run(s, ps).now + wait * m
  {
    hide Run;
    MediaKeeps(kind, Run(s, ps + Busy(m - 1, wait)), wait, from, gap, n, blocked);
    assert FirstThenLate(kind, Run(s, ps + Busy(m - 1, wait)), from, gap, n, blocked);
  }

  /** The first packet is quick and all the others are slow. */
  function Unlucky(s: Server, spread: nat): seq<nat> {
    seq(|s.sends|, k requires 0 <= k < |s.sends| => if k == 0 then 0 else s.sends[k].at + spread)
  }

  lemma UnluckyIsLost(kind: Kind, ps: seq<Pass>, from: nat, gap: nat, n: nat, blocked: nat, spread: nat)
    requires AllPossible(ps) && FirstThenLate(kind, Run(Start(0), ps), from, gap, n, blocked)
    requires from + spread > IDLE_TIMEOUT && Run(Start(0), ps).now >= IDLE_TIMEOUT
    ensures
      var s := Run(Start(0), ps);
      && Live(0, ps, Unlucky(s, spread), 0, spread, IDLE_TIMEOUT)
      && Expired(kind, s.sends, Unlucky(s, spread), IDLE_TIMEOUT)
  {
    hide Run, HeardWithin, AtMost;
  }

  /** The longest gap, then plenty of sends. */
  lemma UnluckyTcp(n: nat, blocked: nat, spread: nat) returns (ps: seq<Pass>, arrivals: seq<nat>)
    requires spread + KEEPALIVE + POLL * n + blocked > IDLE_TIMEOUT
    ensures TcpLive(0, ps, n, blocked, arrivals, 0, spread, IDLE_TIMEOUT)
    ensures Expired(SessionSpec.Tcp, Run(Start(0), ps).sends, arrivals, IDLE_TIMEOUT)
  {
    var gap := LongGap(5, n, POLL * n, POLL, blocked);
    var longest := Longest(n, blocked);
    LongGapIsAGap(0, 5, n, POLL * n, POLL, blocked);
    ps := gap + Busy(20, POLL);
    var s := Run(Start(0), gap);
    hide Run;
    TcpIsHeard(0, gap, n, blocked);
    BusyKeeps(SessionSpec.Tcp, Start(0), gap, 20, POLL, longest, longest, n, blocked);
    UnluckyIsLost(SessionSpec.Tcp, ps, longest, longest, n, blocked, spread);
    arrivals := Unlucky(Run(Start(0), ps), spread);
  }

  // ---- QUIC ----

  ghost predicate QuicLive(start: nat, ps: seq<Pass>, gap: nat, arrivals: seq<nat>, least: nat, spread: nat, now: nat) {
    Live(start, ps, arrivals, least, spread, now) && HeardWithin(SessionSpec.Quic, Run(Start(start), ps), gap)
  }

  /**
   Over QUIC keepalives do not help: what counts is the media. A live session with media at
   most `gap` apart is never given up exactly when delays vary by no more than ten seconds
   less that.
   */
  lemma QuicIsSafeIff(gap: nat, spread: nat)
    requires gap > 0
    ensures (forall start, ps, arrivals, least, now :: QuicLive(start, ps, gap, arrivals, least, spread, now) ==>
               !Expired(SessionSpec.Quic, Run(Start(start), ps).sends, arrivals, now))
            <==> spread + gap <= IDLE_TIMEOUT
  {
    if spread + gap <= IDLE_TIMEOUT {
      forall start, ps, arrivals, least, now | QuicLive(start, ps, gap, arrivals, least, spread, now)
        ensures !Expired(SessionSpec.Quic, Run(Start(start), ps).sends, arrivals, now)
      {
        LiveSessionSurvives(SessionSpec.Quic, start, ps, gap, arrivals, least, spread, now);
      }
    } else {
      var ps, arrivals := UnluckyQuic(gap, spread);
      assert QuicLive(0, ps, gap, arrivals, 0, spread, IDLE_TIMEOUT);
    }
  }

  ghost predicate NoMedia(s: Server) {
    forall k :: 0 <= k < |s.sends| ==> s.sends[k].sort == Control
  }

  /** Passes in which no media goes out. */
  ghost predicate AllStill(ps: seq<Pass>) {
    forall p :: p in ps ==> p.Output? && p.sort == Media ==> !p.works
  }

  lemma {:induction false} StillSendsNoMedia(start: nat, ps: seq<Pass>)
    requires AllStill(ps)
    ensures NoMedia(Run(Start(start), ps))
  {
    if ps != [] {
      StillSendsNoMedia(start, ps[..|ps| - 1]);
      assert ps[|ps| - 1] in ps;
    }
  }

  /**
   A QUIC client that gets no media gives up ten seconds after the start, whatever else goes
   out and however fast it travels.
   */
  lemma StillPictureIsLost(start: nat, ps: seq<Pass>, arrivals: seq<nat>)
    requires AllStill(ps) && |arrivals| == |Run(Start(start), ps).sends| > 0
    ensures Expired(SessionSpec.Quic, Run(Start(start), ps).sends, arrivals, arrivals[0] + IDLE_TIMEOUT)
  {
    StillSendsNoMedia(start, ps);
  }

  const POLLS_PER_KEEPALIVE := 6

  /** The start and the keepalives after it. */
  function EveryThree(start: nat, n: nat): seq<Send> {
    seq(n, k requires 0 <= k => Send(start + KEEPALIVE * k, 0, 0, Control))
  }

  /** What such a server does meanwhile: a keepalive every 3 s, none of them lost or late. */
  lemma {:induction false} KeepalivesGoOut(start: nat, n: nat)
    ensures AllPossible(Polls(POLLS_PER_KEEPALIVE * n)) && AllStill(Polls(POLLS_PER_KEEPALIVE * n))
    ensures
      var s := Run(Start(start), Polls(POLLS_PER_KEEPALIVE * n));
      && s.open && s.now == s.keepalive == start + KEEPALIVE * n && s.idle == s.blocked == 0
      && s.sends == EveryThree(start, n + 1)
  {
    if n > 0 {
      KeepalivesGoOut(start, n - 1);
      NextKeepalive(Start(start), POLLS_PER_KEEPALIVE * (n - 1));
    }
  }

  lemma NextKeepalive(s: Server, m: nat)
    requires
      var t := Run(s, Polls(m));
      t.open && t.now == t.keepalive && t.idle == t.blocked == 0
    ensures
      var (t, at) := (Run(s, Polls(m)), Run(s, Polls(m)).now + KEEPALIVE);
      Run(s, Polls(m + POLLS_PER_KEEPALIVE)) == Server(at, at, 0, 0, t.sends + [Send(at, 0, 0, Control)], true)
  {
    var t := Run(s, Polls(m));
    PollsInParts(s, m, POLLS_PER_KEEPALIVE - 1);
    PollsOnlyWait(t, POLLS_PER_KEEPALIVE - 1);
    var n := m + POLLS_PER_KEEPALIVE;
    assert Polls(n)[..n - 1] == Polls(n - 1);
  }

  lemma {:induction false} PollsInParts(s: Server, m: nat, n: nat)
    ensures Run(s, Polls(m + n)) == Run(Run(s, Polls(m)), Polls(n))
  {
    hide Step;
    if n > 0 {
      PollsInParts(s, m, n - 1);
      assert Polls(m + n)[..m + n - 1] == Polls(m + (n - 1)) && Polls(n)[..n - 1] == Polls(n - 1);
    }
  }

  /**
   A static screen without audio, nothing failing: after twelve seconds with four keepalives
   out a TCP client is content at every moment, and a QUIC client has given up at ten.
   */
  lemma StaticScreen(start: nat, least: nat, now: nat)
    ensures
      var s := Run(Start(start), Polls(24));
      var arrivals := seq(5, k requires 0 <= k => start + KEEPALIVE * k + least);
      && s.open && s.now == start + 12_000 && s.sends == EveryThree(start, 5)
      && Expired(SessionSpec.Quic, s.sends, arrivals, start + least + IDLE_TIMEOUT)
      && (start + least <= now <= s.now + least ==> !Expired(SessionSpec.Tcp, s.sends, arrivals, now))
  {
    hide Run;
    KeepalivesGoOut(start, 4);
    var ps, arrivals := Polls(24), seq(5, k requires 0 <= k => start + KEEPALIVE * k + least);
    StillPictureIsLost(start, ps, arrivals);
    assert Arrives(Run(Start(start), ps).sends, arrivals, least, 7000);
    if start + least <= now <= start + 12_000 + least {
      BusyTcpSurvives(start, ps, arrivals, least, now);
    }
  }

  /** Polls up to the gap, then media; afterwards media without end. */
  lemma UnluckyQuic(gap: nat, spread: nat) returns (ps: seq<Pass>, arrivals: seq<nat>)
    requires gap > 0 && spread + gap > IDLE_TIMEOUT
    ensures QuicLive(0, ps, gap, arrivals, 0, spread, IDLE_TIMEOUT)
    ensures Expired(SessionSpec.Quic, Run(Start(0), ps).sends, arrivals, IDLE_TIMEOUT)
  {
    var first := Polls(gap / POLL) + [Output(gap % POLL, 0, Media, true)];
    var wait := if gap < POLL then gap else POLL;
    LateMedia(gap);
    ps := first + Busy(IDLE_TIMEOUT, wait);
    BusyKeeps(SessionSpec.Quic, Start(0), first, IDLE_TIMEOUT, wait, gap, gap, 0, 0);
    hide Run;
    UnluckyIsLost(SessionSpec.Quic, ps, gap, gap, 0, 0, spread);
    arrivals := Unlucky(Run(Start(0), ps), spread);
  }

  lemma {:induction false} PollsKeepGoing(n: nat)
    ensures
      var s := Run(Start(0), Polls(n));
      && s.open && s.now == POLL * n && s.idle == s.blocked == 0 && NoMedia(s)
      && s.sends != [] && s.sends[0].at == 0 && AtMost(s, 0, 0)
  {
    if n > 0 {
      assert Polls(n)[..n - 1] == Polls(n - 1);
      PollsKeepGoing(n - 1);
    }
  }

  lemma LateMedia(gap: nat)
    requires gap > 0
    ensures
      var first := Polls(gap / POLL) + [Output(gap % POLL, 0, Media, true)];
      && AllPossible(first) && Run(Start(0), first).now == gap
      && FirstThenLate(SessionSpec.Quic, Run(Start(0), first), gap, gap, 0, 0)
  {
    var polls := Polls(gap / POLL);
    var s := Run(Start(0), polls);
    PollsKeepGoing(gap / POLL);
    var first := polls + [Output(gap % POLL, 0, Media, true)];
    assert first[..|polls|] == polls;
    var t := Run(Start(0), first);
    assert t == Step(s, Output(gap % POLL, 0, Media, true)) && t.now == gap;
    hide Run;
    var last := |s.sends|;
    assert IsHeard(SessionSpec.Quic, t.sends, 0);
    assert HeardShortlyBefore(SessionSpec.Quic, t.sends, 0, gap, gap);
    assert HeardOf(SessionSpec.Quic, t, last, gap);
    forall j | 1 <= j < last ensures !IsHeard(SessionSpec.Quic, t.sends, j) {
      assert t.sends[j] == s.sends[j];
    }
  }

  // ---- Failing sends starve the keepalive ----

  /** Audio that fails to go out, at a steady pace. */
  function FailingAudio(n: nat, wait: nat): seq<Pass> {
    seq(n, _ => Output(wait, 0, Media, false))
  }

  /** Audio batches that fail at most half a second apart keep the server quiet for any length of time. */
  lemma {:induction false} FailuresStarve(start: nat, n: nat, wait: nat)
    requires wait <= POLL
    ensures AllPossible(FailingAudio(n, wait))
    ensures
      var s := Run(Start(start), FailingAudio(n, wait));
      s.now == start + n * wait && s.sends == [Send(start, 0, 0, Control)] && s.open
  {
    if n > 0 {
      assert FailingAudio(n, wait)[..n - 1] == FailingAudio(n - 1, wait);
      FailuresStarve(start, n - 1, wait);
    }
  }

  /** With batches of 20 ms that all fail, a client of either kind gives the session up although the server is alive. */
  lemma LiveSessionCanBeLost(kind: Kind, start: nat, delay: nat)
    ensures
      var s := Run(Start(start), FailingAudio(500, 20));
      && AllPossible(FailingAudio(500, 20)) && s.open && s.sends == [Send(start, 0, 0, Control)]
      && Expired(kind, s.sends, [start + delay], s.now + delay)
  {
    FailuresStarve(start, 500, 20);
  }
}
