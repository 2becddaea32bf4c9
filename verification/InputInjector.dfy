/**
 The injector object of input/src/injector.rs and the desktop it acts on. Each method is
 proved to do exactly the step of InjectorSpec on the value of the two objects.
 */
module InputInjector {
  import opened Bytes
  import opened Numbers
  import opened InjectorSpec

  /** What the operating system knows, and the injected moves it has seen. */
  class Desktop {
    var mods: set<Mod>
    var buttons: set<Button>
    /** Modifiers whose last injected key event was a press, and whose last one from the peer itself was. */
    ghost var held: set<Mod>
    ghost var peer: set<Mod>
    ghost var moves: seq<Move>
    ghost var typed: seq<Stroke>

    constructor ()
      ensures mods == {} && buttons == {} && held == {} && peer == {} && moves == [] && typed == []
    {
      mods, buttons, held, peer, moves, typed := {}, {}, {}, {}, [], [];
    }
  }

  class Injector {
    var srcW: nat
    var srcH: nat
    var dstW: nat
    var dstH: nat
    var modsWePressed: set<Mod>
    var lastButtons: set<Button>
    var lastInjectedMove: Option<(nat, nat)>
    var lastMoveButtons: set<Button>
    var suppressUntil: Option<nat>
    const desk: Desktop
    ghost var rebased: bool

    ghost function Value(): State
      reads this, desk
    {
      State(srcW, srcH, dstW, dstH, modsWePressed, lastButtons, lastInjectedMove, lastMoveButtons, suppressUntil,
            desk.mods, desk.held, desk.peer, desk.buttons, desk.moves, rebased, desk.typed)
    }

    constructor (srcW: nat, srcH: nat, dstW: nat, dstH: nat)
      ensures Value() == Init(srcW, srcH, dstW, dstH) && fresh(desk)
    {
      this.srcW, this.srcH, this.dstW, this.dstH := srcW, srcH, dstW, dstH;
      modsWePressed, lastButtons, lastInjectedMove, lastMoveButtons := {}, {}, None, {};
      suppressUntil, rebased := None, true;
      desk := new Desktop();
    }

    method SetDstResolution(w: nat, h: nat)
      modifies this
      ensures Value() == SetDst(old(Value()), w, h)
    {
      dstW, dstH := w, h;
      ResetMoveGuardState();
    }

    method SetBothResolutions(w: nat, h: nat)
      modifies this
      ensures Value() == SetResolution(old(Value()), w, h)
    {
      srcW, srcH := w, h;
      dstW, dstH := w, h;
      ResetMoveGuardState();
    }

    method ResetMoveGuardState()
      modifies this
      ensures Value() == ResetGuard(old(Value()))
    {
      lastInjectedMove, lastMoveButtons, suppressUntil, rebased := None, {}, None, true;
    }

    method HandleEvent(e: Event, env1: Env, env2: Env) returns (r: Result)
      modifies this, desk
      ensures (Value(), r) == Handle(old(Value()), e, env1, env2)
    {
      hide HandleOne;
      match StarExpand(e) {
        case None =>
          r := HandleOneEvent(e, env1);
          if r == Ok {
            desk.peer := if e.body.KeyEvent? && e.body.kind == KeyUp then desk.peer - SelfMod(e) else desk.peer + SelfMod(e);
          }
        case Some((first, second)) =>
          var r1 := HandleOneEvent(first, env1);
          var r2 := HandleOneEvent(second, env2);
          r := if r1 != Ok then r1 else r2;
      }
    }

    method HandleOneEvent(e: Event, env: Env) returns (r: Result)
      modifies this, desk
      ensures (Value(), r) == HandleOne(old(Value()), e, env)
    {
      hide Dispatch, Sync, SendMove;
      if e.body.SpecialKey? {
        r := Send(e, env);
        return;
      }
      ModifierSync(AskedFor(e), env.syncWorks);
      if e.body.MouseMove? && (dstW == 0 || dstH == 0) {
        return Ok;
      }
      if srcW == 0 || srcH == 0 || dstW == 0 || dstH == 0 {
        return InvalidEvent;
      }
      var x := ScaleCoord(e.x, srcW, dstW).value;
      var y := ScaleCoord(e.y, srcH, dstH).value;
      if e.body.MouseButton? {
        if e.body.release {
          lastButtons := lastButtons - e.body.buttons;
        } else {
          lastButtons := lastButtons + e.body.buttons;
        }
      }
      var scaled := e.(x := x, y := y);
      if e.body.MouseMove? {
        r := GuardedMove(scaled, env);
      } else {
        r := Send(scaled, env);
      }
    }

    method GuardedMove(e: Event, env: Env) returns (r: Result)
      requires e.body.MouseMove?
      modifies this, desk
      ensures (Value(), r) == SendMove(old(Value()), e, env)
    {
      hide Dispatch, MoveGuard;
      var verdict := Guard((e.x, e.y), env.now, env.cursor);
      if verdict != Inject {
        return Ok;
      }
      r := Send(e, env);
      if r == Ok {
        lastInjectedMove := Some((e.x, e.y));
        lastMoveButtons := lastButtons;
      }
    }

    method Guard(px: (nat, nat), now: nat, cursor: Option<(int, int)>) returns (v: Verdict)
      modifies this
      ensures (Value(), v) == MoveGuard(old(Value()), px, now, cursor)
    {
      hide Distance;
      if suppressUntil.Some? {
        if now < suppressUntil.value {
          return Suppressed;
        }
        suppressUntil := None;
      }
      if cursor.Some? && lastInjectedMove.Some? {
        var (cx, cy) := cursor.value;
        var (lx, ly) := lastInjectedMove.value;
        if Distance(cx, lx) > ACTIVITY_THRESHOLD || Distance(cy, ly) > ACTIVITY_THRESHOLD {
          suppressUntil := Some(Min(now + SUPPRESS_MS, MAX_U64));
          lastInjectedMove := Some((Max0(cx), Max0(cy)));
          rebased := true;
          return Suppressed;
        }
      }
      if lastInjectedMove == Some(px) && lastMoveButtons == lastButtons {
        return Deduped;
      }
      return Inject;
    }

    /** Lifts first, then presses; both go into the books whether or not the system took them. */
    method ModifierSync(flags: set<Mod>, works: bool)
      modifies this, desk
      ensures Value() == Sync(old(Value()), flags, works)
    {
      var (press, release) := SyncPlan(modsWePressed, flags, desk.mods);
      if release != {} {
        SendModifierKeys(release, false, works);
        modsWePressed := modsWePressed - release;
      }
      if press != {} {
        SendModifierKeys(press, true, works);
        modsWePressed := modsWePressed + press;
      }
    }

    method SendModifierKeys(mods: set<Mod>, down: bool, works: bool)
      modifies desk`mods
      ensures desk.mods == if !works then old(desk.mods) else if down then old(desk.mods) + mods else old(desk.mods) - mods
    {
      if works {
        desk.mods := if down then desk.mods + mods else desk.mods - mods;
      }
    }

    /** The platform injection. */
    method Send(e: Event, env: Env) returns (r: Result)
      modifies desk, `rebased
      ensures (Value(), r) == Dispatch(old(Value()), e, env)
    {
      if !IsWellFormed(e.body) {
        return InvalidEvent;
      }
      if !env.sendWorks {
        return InjectFailed;
      }
      match e.body {
        case MouseMove =>
          desk.moves := desk.moves + [Move(e.x, e.y, env.now, lastButtons, rebased)];
          rebased := false;
        case MouseButton(b, release) =>
          desk.buttons := if release then desk.buttons - Acting(b) else desk.buttons + Acting(b);
        case KeyEvent(kind, key) =>
          desk.typed := desk.typed + [Stroke(kind, key)];
          if key.KMod? {
            SendModifierKeys({key.m}, kind != KeyUp, true);
            desk.held := if kind == KeyUp then desk.held - {key.m} else desk.held + {key.m};
          }
        case SpecialKey(c) =>
          desk.mods := desk.mods - ComboMods(c.value);
        case _ =>
      }
      return Ok;
    }

    /** Lifts the tracked buttons one by one, then the four modifiers, then whatever was pressed for flags. */
    method ReleaseEverything(works: bool)
      modifies this, desk
      ensures Value() == ReleaseAll(old(Value()), works)
    {
      var bits := lastButtons;
      lastButtons := {};
      ResetMoveGuardState();
      LiftButtons(bits, works);
      LiftAllModifiers(works);
      if modsWePressed != {} {
        SendModifierKeys(modsWePressed, false, works);
        modsWePressed := {};
      }
    }

    method LiftButtons(bits: set<Button>, works: bool)
      modifies desk`buttons
      ensures desk.buttons == if works then old(desk.buttons) - bits else old(desk.buttons)
    {
      var order := [Left, Right, Middle];
      for i := 0 to 3
        invariant works ==> forall b :: b in desk.buttons <==> b in old(desk.buttons) && !(b in bits && b in order[..i])
        invariant !works ==> desk.buttons == old(desk.buttons)
      {
        if order[i] in bits && works {
          desk.buttons := desk.buttons - {order[i]};
        }
        assert order[..i + 1] == order[..i] + [order[i]];
      }
      forall b: Button ensures b in order[..3] {
        assert order[if b == Left then 0 else if b == Right then 1 else 2] == b;
      }
    }

    method LiftAllModifiers(works: bool)
      modifies desk`mods, desk`held, desk`peer
      ensures works ==> desk.mods == {} && desk.held == {} && desk.peer == {}
      ensures !works ==> desk.mods == old(desk.mods) && desk.held == old(desk.held) && desk.peer == old(desk.peer)
    {
      var keys := [Ctrl, Shift, Alt, Super];
      desk.peer := if works then {} else desk.peer;
      for i := 0 to 4
        invariant works ==> forall m :: m in desk.mods || m in desk.held ==> m !in keys[..i]
        invariant !works ==> desk.mods == old(desk.mods) && desk.held == old(desk.held)
        invariant desk.peer == if works then {} else old(desk.peer)
      {
        SendModifierKeys({keys[i]}, false, works);
        desk.held := if works then desk.held - {keys[i]} else desk.held;
        assert keys[..i + 1] == keys[..i] + [keys[i]];
      }
      forall m: Mod ensures m in keys[..4] {
        assert keys[if m == Ctrl then 0 else if m == Shift then 1 else if m == Alt then 2 else 3] == m;
      }
    }
  }
}
