/**
 The client's session loop of media/src/session.rs, in milliseconds: degrade from QUIC to TCP
 by redial and hot swap, and the idle watchdog.

 A redial runs beside the loop and puts the new transport into the swap channel when it
 succeeds; with a punch source, transports also arrive on their own. Decoding is reduced to
 the two frame counters.
 */
module SessionSpec {
  import opened Bytes

  datatype Kind = Quic | Tcp

  /** `splits`: the control half can be taken out of it. */
  datatype Transport = Transport(kind: Kind, splits: bool)

  datatype Config = Config(degradeEnabled: bool, connectTimeout: nat, punch: bool)

  datatype End = Stopped | DegradeTimedOut | IdleTooLong | ReceiveFailed

  datatype State = State(
    now: nat, slot: Transport, mode: Kind,
    degrading: bool, deadline: Option<nat>, episodeStart: nat, episodes: nat,
    redials: nat, redialing: nat, channel: seq<Transport>,
    switches: nat, delivered: seq<Transport>,
    lastRx: Option<nat>, baseline: nat,
    decoded: nat, dropped: nat, end: Option<End>)

  const GRACE := 10_000
  const POLL := 100
  const IDLE_TIMEOUT := 10_000

  function WaitTimeout(c: Config): nat {
    c.connectTimeout + GRACE
  }

  function Init(now: nat, slot: Transport): State {
    State(now, slot, slot.kind, false, None, 0, 0, 0, 0, [], 0, [], None, now, 0, 0, None)
  }

  // ---- Degrade and swap ----

  /** Marks the episode and dials once, unless one is under way. */
  function Trigger(c: Config, s: State): State {
    if s.degrading then s
    else
      s.(degrading := true, deadline := Some(s.now + WaitTimeout(c)), episodeStart := s.now, episodes := s.episodes + 1,
         redials := s.redials + 1, redialing := s.redialing + 1)
  }

  /** A transport that does not split is dropped and the old one stays. */
  function ApplySwap(s: State, t: Transport): State {
    var d := s.(delivered := s.delivered + [t]);
    if !t.splits then d
    else d.(slot := t, mode := t.kind, switches := s.switches + 1, lastRx := None)
  }

  function TakeFromChannel(s: State): State
    requires s.channel != []
  {
    ApplySwap(s.(channel := s.channel[1..]), s.channel[0])
  }

  // ---- One pass of the loop ----

  /** What ended the wait outside degrade. */
  datatype Wake = Frame(pictures: nat) | BadFrame | ReceiveTimeout | ConnectionError | OtherError | Timer | SwapCame

  /** `heard`: when the slot last received anything, as known at the end of the wait. */
  datatype Pass = Pass(stop: bool, alive: bool, wait: nat, heard: Option<nat>, wake: Wake)

  predicate StartsEpisode(c: Config, s: State, p: Pass) {
    s.mode == Quic && c.degradeEnabled && !p.alive && !s.degrading
  }

  function LastHeard(s: State): nat {
    if s.lastRx.Some? then s.lastRx.value else s.baseline
  }

  /** The moment at which the watchdog's timer fires. */
  function TimerAt(s: State): nat {
    var t := LastHeard(s) + IDLE_TIMEOUT;
    if t < s.now then s.now else t
  }

  /** The wait in degrade: the channel, or 100 ms. */
  function Waited(s: State, p: Pass): State {
    var t := s.(now := s.now + p.wait);
    if t.channel == [] then t else TakeFromChannel(t).(degrading := false)
  }

  /** The watchdog's baseline is what was known before the wait. */
  function Heard(s: State, p: Pass): State {
    s.(now := s.now + p.wait, baseline := LastHeard(s), lastRx := p.heard)
  }

  function Woken(c: Config, s: State, p: Pass): State {
    React(c, Heard(s, p), p.wake)
  }

  function React(c: Config, t: State, wake: Wake): State {
    match wake
    case Frame(n) => t.(decoded := t.decoded + n)
    case BadFrame => t.(dropped := t.dropped + 1)
    case ReceiveTimeout => t
    case ConnectionError => if t.mode == Quic && c.degradeEnabled then Trigger(c, t) else t.(end := Some(ReceiveFailed))
    case OtherError => t.(end := Some(ReceiveFailed))
    case Timer => if t.now - LastHeard(t) < IDLE_TIMEOUT then t else t.(end := Some(IdleTooLong))
    case SwapCame => if t.channel == [] then t else TakeFromChannel(t)
  }

  function Loop(c: Config, s: State, p: Pass): State {
    if p.stop then s.(end := Some(Stopped))
    else if StartsEpisode(c, s, p) then Trigger(c, s)
    else if s.degrading then
      if s.deadline.Some? && s.now >= s.deadline.value then s.(end := Some(DegradeTimedOut)) else Waited(s, p)
    else Woken(c, s, p)
  }

  /** What a pass can look like, given the state at its start. */
  predicate Possible(c: Config, s: State, p: Pass) {
    if p.stop || StartsEpisode(c, s, p) then true
    else if s.degrading then
      if s.deadline.Some? && s.now >= s.deadline.value then true
      else p.wait <= POLL && (s.channel == [] ==> p.wait == POLL)
    else
      && s.now + p.wait <= TimerAt(s)
      && (p.wake.Timer? ==> s.now + p.wait == TimerAt(s))
      && (p.wake.SwapCame? ==> s.channel != [])
      && (p.heard == s.lastRx || (p.heard.Some? && s.now <= p.heard.value <= s.now + p.wait))
  }

  // ---- Runs ----

  datatype Op =
    | DoPass(p: Pass)
    | RedialDone(dialed: Option<Transport>)
    | PunchDone(punched: Transport)

  function Step(c: Config, s: State, op: Op): State {
    if s.end.Some? then s
    else
      match op
      case DoPass(p) => Loop(c, s, p)
      case RedialDone(t) =>
        if s.redialing == 0 then s
        else s.(redialing := s.redialing - 1, channel := if t.Some? then s.channel + [t.value] else s.channel)
      case PunchDone(t) => if c.punch then s.(channel := s.channel + [t]) else s
  }

  /** A redial asks for TCP without fallback. */
  predicate Allowed(c: Config, s: State, op: Op) {
    match op
    case DoPass(p) => s.end.None? ==> Possible(c, s, p)
    case RedialDone(t) => t.Some? ==> t.value.kind == Tcp
    case PunchDone(_) => c.punch
  }

  function Run(c: Config, s: State, ops: seq<Op>): State {
    if ops == [] then s else Step(c, Run(c, s, ops[..|ops| - 1]), ops[|ops| - 1])
  }

  predicate RunAllowed(c: Config, s: State, ops: seq<Op>)
    decreases |ops|
  {
    ops == [] ||
    var init := ops[..|ops| - 1];
    RunAllowed(c, s, init) && Allowed(c, Run(c, s, init), ops[|ops| - 1])
  }
}
