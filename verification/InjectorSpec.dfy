/**
 The input injector of input/src/injector.rs on its Windows path, as steps on a value. The
 operating system's key, button and pointer state is part of the value; the clock, the
 cursor query and the outcome of each injection call are inputs.

 Modifiers come from two sides: flags on other events (`we` are those this injector
 pressed for them) and modifier key events (`held`). The numpad star is typed with a Shift
 key event of its own, so `peer` keeps apart which modifiers the peer itself is holding.
 */
module InjectorSpec {
  import opened Bytes
  import opened Numbers

  datatype Mod = Ctrl | Shift | Alt | Super

  datatype Button = Left | Right | Middle

  datatype KeyCode = KMod(m: Mod) | KpMultiply | Num8 | KOther(code: nat, mapped: bool)

  datatype KeyKind = KeyDown | KeyUp | KeyRepeat

  datatype Combo = WinE | WinD | WinL | WinR | AltTab | CtrlShiftEsc | AltF4 | CtrlEsc | LockScreen

  datatype Body =
    | MouseMove
    | MouseButton(buttons: set<Button>, release: bool)
    | MouseWheel
    | KeyEvent(kind: KeyKind, key: KeyCode)
    | TextInput(text: seq<byte>)
    | SpecialKey(combo: Option<Combo>)

  datatype Event = Event(body: Body, x: nat, y: nat, flags: set<Mod>)

  /** One call: the clock, the cursor (if it can be read), and whether the two injections of this call work. */
  datatype Env = Env(now: nat, cursor: Option<(int, int)>, syncWorks: bool, sendWorks: bool)

  datatype Result = Ok | InvalidEvent | InjectFailed

  /** `rebased`: the guard's baseline was moved or dropped since the move before. */
  datatype Move = Move(x: nat, y: nat, time: nat, buttons: set<Button>, rebased: bool)

  /** A key event that has reached the system. */
  datatype Stroke = Stroke(kind: KeyKind, key: KeyCode)

  datatype State = State(
    srcW: nat, srcH: nat, dstW: nat, dstH: nat,
    we: set<Mod>, buttons: set<Button>,
    baseline: Option<(nat, nat)>, baselineButtons: set<Button>, suppressUntil: Option<nat>,
    osMods: set<Mod>, held: set<Mod>, peer: set<Mod>, osButtons: set<Button>,
    moves: seq<Move>, rebased: bool, typed: seq<Stroke>)

  const ACTIVITY_THRESHOLD := 8
  const SUPPRESS_MS := 2000
  const MAX_U64 := 0xFFFF_FFFF_FFFF_FFFF

  function Init(srcW: nat, srcH: nat, dstW: nat, dstH: nat): State {
    State(srcW, srcH, dstW, dstH, {}, {}, None, {}, None, {}, {}, {}, {}, [], true, [])
  }

  // ---- Coordinates ----

  /** Scaled by the ratio of the resolutions, rounded down, and kept inside the target. */
  function ScaleCoord(v: nat, src: nat, dst: nat): (r: Option<nat>)
    ensures r.Some? <==> src > 0 && dst > 0
  {
    if src == 0 || dst == 0 then None
    else Some(Min(Min(v, src - 1) * dst / src, dst - 1))
  }

  // ---- Modifiers ----

  /** `(press, release)` that turn what this injector holds into what the event asks for. */
  function SyncPlan(we: set<Mod>, flags: set<Mod>, physical: set<Mod>): (set<Mod>, set<Mod>) {
    (flags - physical - we, we - flags)
  }

  /** A modifier key's own event does not ask for itself. */
  function SelfMod(e: Event): set<Mod> {
    if e.body.KeyEvent? && e.body.key.KMod? then {e.body.key.m} else {}
  }

  function AskedFor(e: Event): set<Mod> {
    e.flags - SelfMod(e)
  }

  function Sync(s: State, flags: set<Mod>, works: bool): State {
    var (press, release) := SyncPlan(s.we, flags, s.osMods);
    s.(we := s.we - release + press, osMods := if works then s.osMods - release + press else s.osMods)
  }

  // ---- The operating system's side ----

  function ComboMods(c: Combo): set<Mod> {
    match c
    case WinE => {Super}
    case WinD => {Super}
    case WinL => {Super}
    case WinR => {Super}
    case AltTab => {Alt}
    case CtrlShiftEsc => {Ctrl, Shift}
    case AltF4 => {Alt}
    case CtrlEsc => {Ctrl}
    case LockScreen => {}
  }

  predicate IsWellFormed(b: Body) {
    match b
    case MouseButton(buttons, _) => buttons != {}
    case KeyEvent(_, key) => key.KOther? ==> key.mapped
    case TextInput(t) => t != []
    case SpecialKey(c) => c.Some?
    case _ => true
  }

  /** One button per event reaches the system: left before right before middle. */
  function Acting(buttons: set<Button>): set<Button> {
    if Left in buttons then {Left} else if Right in buttons then {Right} else buttons * {Middle}
  }

  function Struck(s: State, kind: KeyKind, key: KeyCode): State {
    var t := s.(typed := s.typed + [Stroke(kind, key)]);
    if !key.KMod? then t
    else if kind == KeyUp then t.(osMods := s.osMods - {key.m}, held := s.held - {key.m})
    else t.(osMods := s.osMods + {key.m}, held := s.held + {key.m})
  }

  /** `dispatch`. A combination presses and lifts its own modifiers, whoever held them. */
  function Dispatch(s: State, e: Event, env: Env): (State, Result) {
    if !IsWellFormed(e.body) then (s, InvalidEvent)
    else if !env.sendWorks then (s, InjectFailed)
    else
      match e.body
      case MouseMove => (s.(moves := s.moves + [Move(e.x, e.y, env.now, s.buttons, s.rebased)], rebased := false), Ok)
      case MouseButton(b, release) =>
        (s.(osButtons := if release then s.osButtons - Acting(b) else s.osButtons + Acting(b)), Ok)
      case KeyEvent(kind, key) => (Struck(s, kind, key), Ok)
      case SpecialKey(c) => (s.(osMods := s.osMods - ComboMods(c.value)), Ok)
      case _ => (s, Ok)
  }

  // ---- The move guard ----

  datatype Verdict = Inject | Suppressed | Deduped

  /** Two's complement 32-bit value of `x`. */
  function ToI32(x: int): int {
    (x + 0x8000_0000) % 0x1_0000_0000 - 0x8000_0000
  }

  function Distance(c: int, l: nat): int {
    var d := ToI32(c - ToI32(l));
    ToI32(if d < 0 then -d else d)
  }

  function Max0(x: int): nat {
    if x < 0 then 0 else x
  }

  /** The local user moved the pointer away from where this injector last put it. */
  predicate LocalActivity(baseline: Option<(nat, nat)>, cursor: Option<(int, int)>) {
    && baseline.Some? && cursor.Some?
    && (Distance(cursor.value.0, baseline.value.0) > ACTIVITY_THRESHOLD
        || Distance(cursor.value.1, baseline.value.1) > ACTIVITY_THRESHOLD)
  }

  function MoveGuard(s: State, px: (nat, nat), now: nat, cursor: Option<(int, int)>): (State, Verdict) {
    if s.suppressUntil.Some? && now < s.suppressUntil.value then (s, Suppressed)
    else
      var t := s.(suppressUntil := None);
      if LocalActivity(s.baseline, cursor) then
        (t.(suppressUntil := Some(Min(now + SUPPRESS_MS, MAX_U64)),
            baseline := Some((Max0(cursor.value.0), Max0(cursor.value.1))), rebased := true), Suppressed)
      else if s.baseline == Some(px) && s.baselineButtons == s.buttons then (t, Deduped)
      else (t, Inject)
  }

  // ---- One event ----

  predicate ZeroResolution(s: State) {
    s.srcW == 0 || s.srcH == 0 || s.dstW == 0 || s.dstH == 0
  }

  function TrackButton(s: State, b: Body): State {
    if !b.MouseButton? then s
    else s.(buttons := if b.release then s.buttons - b.buttons else s.buttons + b.buttons)
  }

  /** A move that passed the guard; the baseline follows only if the injection worked. */
  function SendMove(s: State, e: Event, env: Env): (State, Result) {
    var (t, verdict) := MoveGuard(s, (e.x, e.y), env.now, env.cursor);
    if verdict != Inject then (t, Ok)
    else
      var (u, r) := Dispatch(t, e, env);
      if r == Ok then (u.(baseline := Some((e.x, e.y)), baselineButtons := u.buttons), Ok) else (u, r)
  }

  /** After the modifiers have been synchronised. */
  function AfterSync(s: State, e: Event, env: Env): (State, Result) {
    if e.body.MouseMove? && (s.dstW == 0 || s.dstH == 0) then (s, Ok)
    else if ZeroResolution(s) then (s, InvalidEvent)
    else
      var scaled := e.(x := ScaleCoord(e.x, s.srcW, s.dstW).value, y := ScaleCoord(e.y, s.srcH, s.dstH).value);
      if e.body.MouseMove? then SendMove(s, scaled, env) else Dispatch(TrackButton(s, e.body), scaled, env)
  }

  function HandleOne(s: State, e: Event, env: Env): (State, Result) {
    if e.body.SpecialKey? then Dispatch(s, e, env)
    else AfterSync(Sync(s, AskedFor(e), env.syncWorks), e, env)
  }

  function PlainKey(kind: KeyKind, key: KeyCode): Event {
    Event(KeyEvent(kind, key), 0, 0, {})
  }

  /** The numpad star is typed as Shift+8. */
  function StarExpand(e: Event): Option<(Event, Event)> {
    if !e.body.KeyEvent? || e.body.key != KpMultiply then None
    else if e.body.kind == KeyUp then Some((PlainKey(KeyUp, Num8), PlainKey(KeyUp, KMod(Shift))))
    else Some((PlainKey(KeyDown, KMod(Shift)), PlainKey(KeyDown, Num8)))
  }

  /** The peer's own modifier keys, once they have been injected. */
  function NotePeer(s: State, e: Event, r: Result): State {
    if r != Ok then s
    else s.(peer := if e.body.KeyEvent? && e.body.kind == KeyUp then s.peer - SelfMod(e) else s.peer + SelfMod(e))
  }

  /** The second half always runs; the first error is reported. */
  function Handle(s: State, e: Event, env1: Env, env2: Env): (State, Result) {
    match StarExpand(e)
    case None =>
      var (t, r) := HandleOne(s, e, env1);
      (NotePeer(t, e, r), r)
    case Some((first, second)) =>
      var (t, r1) := HandleOne(s, first, env1);
      var (u, r2) := HandleOne(t, second, env2);
      (u, if r1 != Ok then r1 else r2)
  }

  function ResetGuard(s: State): State {
    s.(baseline := None, baselineButtons := {}, suppressUntil := None, rebased := true)
  }

  /** Lifts the tracked buttons and every modifier, whoever pressed it. */
  function ReleaseAll(s: State, works: bool): State {
    var t := ResetGuard(s).(buttons := {}, we := {});
    if works then t.(osButtons := s.osButtons - s.buttons, osMods := {}, held := {}, peer := {}) else t
  }

  function SetDst(s: State, w: nat, h: nat): State {
    ResetGuard(s.(dstW := w, dstH := h))
  }

  function SetResolution(s: State, w: nat, h: nat): State {
    ResetGuard(s.(srcW := w, srcH := h, dstW := w, dstH := h))
  }

  // ---- Runs ----

  datatype Op =
    | OpHandle(e: Event, env1: Env, env2: Env)
    | OpReleaseAll(works: bool)
    | OpSetDst(w: nat, h: nat)
    | OpSetResolution(w: nat, h: nat)

  function Step(s: State, op: Op): State {
    match op
    case OpHandle(e, env1, env2) => Handle(s, e, env1, env2).0
    case OpReleaseAll(works) => ReleaseAll(s, works)
    case OpSetDst(w, h) => SetDst(s, w, h)
    case OpSetResolution(w, h) => SetResolution(s, w, h)
  }

  function Run(s: State, ops: seq<Op>): State {
    if ops == [] then s else Step(Run(s, ops[..|ops| - 1]), ops[|ops| - 1])
  }
}
