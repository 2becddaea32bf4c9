/** Theorems about whole runs of the injector: modifiers, buttons, and pointer moves. */
module InjectorRuns {
  import opened Bytes
  import opened Numbers
  import opened InjectorSpec

  // ---- Coordinates ----

  /** In range, rounded down, and the identity between equal resolutions. */
  lemma ScaleIsInRange(v: nat, src: nat, dst: nat)
    requires src > 0 && dst > 0
    ensures var r := ScaleCoord(v, src, dst).value;
            r < dst && r * src <= Min(v, src - 1) * dst < (r + 1) * src
    ensures src == dst && v < src ==> ScaleCoord(v, src, dst).value == v
  {
    var c := Min(v, src - 1);
    var p := c * dst;
    Quotient(p, src);
    QuotientBelow(c, src, dst);
    if src == dst && v < src {
      ExactQuotient(v, src);
    }
  }

  lemma QuotientBelow(c: nat, src: nat, dst: nat)
    requires dst > 0 && c < src
    ensures c * dst / src < dst
  {
    var p, q := c * dst, c * dst / src;
    Quotient(p, src);
    SmallerProduct(c, src, dst);
    if q >= dst {
      Product(dst, q, src);
    }
  }

  lemma SmallerProduct(c: nat, src: nat, dst: nat)
    requires dst > 0 && c < src
    ensures c * dst < dst * src
  {
    Product(c + 1, src, dst);
  }

  // ---- Modifiers ----

  /**
   Exactly the modifiers pressed for flags and those held by key events are down, and no
   modifier is both, so lifting a flag's modifier never lifts a held one.
   */
  ghost predicate ModsAgree(s: State) {
    s.osMods == s.we + s.held && s.we !! s.held
  }

  /** What synchronising achieves, from any state in which the books agree. */
  lemma SyncAchieves(s: State, asked: set<Mod>)
    requires ModsAgree(s)
    ensures var t := Sync(s, asked, true);
            && ModsAgree(t) && t.held == s.held
            && asked <= t.osMods && t.we <= asked && t.held <= t.osMods
  {
  }

  /**
   When an event is handed to the system, every modifier it asks for besides itself is
   down, this injector holds none that is not asked for, and no held one was touched.
   */
  lemma AskedModifiersAreDown(s: State, e: Event, env: Env)
    requires ModsAgree(s) && env.syncWorks && !e.body.SpecialKey?
    ensures var t := Sync(s, AskedFor(e), env.syncWorks);
            && HandleOne(s, e, env) == AfterSync(t, e, env)
            && AskedFor(e) <= t.osMods && t.we <= AskedFor(e) && t.held == s.held <= t.osMods && ModsAgree(t)
  {
    SyncAchieves(s, AskedFor(e));
  }

  lemma DispatchKeepsMods(s: State, e: Event, env: Env)
    requires ModsAgree(s) && s.we !! SelfMod(e) && !e.body.SpecialKey?
    ensures ModsAgree(Dispatch(s, e, env).0)
  {
  }

  lemma HandleOneKeepsMods(s: State, e: Event, env: Env)
    requires ModsAgree(s) && env.syncWorks && !e.body.SpecialKey?
    ensures ModsAgree(HandleOne(s, e, env).0)
  {
    hide Dispatch, MoveGuard;
    var t := Sync(s, AskedFor(e), true);
    SyncAchieves(s, AskedFor(e));
    assert t.we !! SelfMod(e);
    hide Sync;
    AfterSyncKeepsMods(t, e, env);
  }

  lemma GuardKeepsTheRest(s: State, px: (nat, nat), now: nat, cursor: Option<(int, int)>)
    ensures var t := MoveGuard(s, px, now, cursor).0;
            t == s.(suppressUntil := t.suppressUntil, baseline := t.baseline, rebased := t.rebased)
  {
  }

  lemma AfterSyncKeepsMods(s: State, e: Event, env: Env)
    requires ModsAgree(s) && s.we !! SelfMod(e) && !e.body.SpecialKey?
    ensures ModsAgree(AfterSync(s, e, env).0)
  {
    hide Dispatch, MoveGuard, ScaleCoord;
    if !ZeroResolution(s) {
      var scaled := e.(x := ScaleCoord(e.x, s.srcW, s.dstW).value, y := ScaleCoord(e.y, s.srcH, s.dstH).value);
      GuardKeepsTheRest(s, (scaled.x, scaled.y), env.now, env.cursor);
      DispatchKeepsMods(MoveGuard(s, (scaled.x, scaled.y), env.now, env.cursor).0, scaled, env);
      DispatchKeepsMods(TrackButton(s, e.body), scaled, env);
    }
  }

  /** A system combination keeps the books exactly when none of its modifiers is down. */
  lemma ComboKeepsModsIff(s: State, e: Event, env: Env)
    requires ModsAgree(s) && e.body.SpecialKey? && e.body.combo.Some? && env.sendWorks
    ensures ModsAgree(HandleOne(s, e, env).0) <==> ComboMods(e.body.combo.value) !! s.osMods
  {
    var t := HandleOne(s, e, env).0;
    assert t.we + t.held == s.osMods;
  }

  /** Injections of modifiers work, and combinations come when their modifiers are up. */
  ghost predicate Orderly(s: State, op: Op) {
    match op
    case OpHandle(e, env1, env2) =>
      env1.syncWorks && env2.syncWorks
      && (e.body.SpecialKey? && e.body.combo.Some? ==> ComboMods(e.body.combo.value) !! s.osMods)
    case OpReleaseAll(works) => works
    case _ => true
  }

  ghost predicate OrderlyRun(s: State, ops: seq<Op>)
    decreases |ops|
  {
    ops == [] || (OrderlyRun(s, ops[..|ops| - 1]) && Orderly(Run(s, ops[..|ops| - 1]), ops[|ops| - 1]))
  }

  lemma StepKeepsMods(s: State, op: Op)
    requires ModsAgree(s) && Orderly(s, op)
    ensures ModsAgree(Step(s, op))
  {
    hide HandleOne;
    match op {
      case OpHandle(e, env1, env2) =>
        match StarExpand(e) {
          case None =>
            if e.body.SpecialKey? { ComboKeepsMods(s, e, env1); } else { HandleOneKeepsMods(s, e, env1); }
          case Some((first, second)) =>
            HandleOneKeepsMods(s, first, env1);
            HandleOneKeepsMods(HandleOne(s, first, env1).0, second, env2);
        }
      case _ =>
    }
  }

  lemma ComboKeepsMods(s: State, e: Event, env: Env)
    requires ModsAgree(s) && e.body.SpecialKey?
    requires e.body.combo.Some? ==> ComboMods(e.body.combo.value) !! s.osMods
    ensures ModsAgree(HandleOne(s, e, env).0)
  {
    if e.body.combo.Some? && env.sendWorks {
      ComboKeepsModsIff(s, e, env);
    }
  }

  /** Over every orderly run from the start the two kinds of modifiers stay apart and account for all that is down. */
  lemma {:induction false} ModsAgreeAlways(srcW: nat, srcH: nat, dstW: nat, dstH: nat, ops: seq<Op>)
    requires OrderlyRun(Init(srcW, srcH, dstW, dstH), ops)
    ensures ModsAgree(Run(Init(srcW, srcH, dstW, dstH), ops))
    decreases |ops|
  {
    hide Step, Orderly;
    if ops != [] {
      ModsAgreeAlways(srcW, srcH, dstW, dstH, ops[..|ops| - 1]);
      StepKeepsMods(Run(Init(srcW, srcH, dstW, dstH), ops[..|ops| - 1]), ops[|ops| - 1]);
    }
  }

  /** Without that order it can go wrong: after Ctrl+Esc a flagged key arrives without the Ctrl it asks for. */
  lemma ComboCanLoseAModifier(s: State, env: Env, code: nat)
    requires s.we == s.osMods == s.held == {} && env.syncWorks && env.sendWorks && !ZeroResolution(s)
    ensures var key := Event(KeyEvent(KeyDown, KOther(code, true)), 0, 0, {Ctrl});
            var combo := Event(SpecialKey(Some(CtrlEsc)), 0, 0, {});
            var t := HandleOne(HandleOne(s, key, env).0, combo, env).0;
            Ctrl in AskedFor(key) && Ctrl !in Sync(t, AskedFor(key), true).osMods
  {
    var key := Event(KeyEvent(KeyDown, KOther(code, true)), 0, 0, {Ctrl});
    var combo := Event(SpecialKey(Some(CtrlEsc)), 0, 0, {});
    var t1 := HandleOne(s, key, env).0;
    assert t1.we == {Ctrl} && t1.osMods == {Ctrl};
    var t2 := HandleOne(t1, combo, env).0;
    assert t2.we == {Ctrl} && t2.osMods == {};
  }

  // ---- Keys ----

  predicate Works(s: State, env: Env) {
    env.sendWorks && env.syncWorks && !ZeroResolution(s)
  }

  /** A key event that is mapped reaches the system once, as it is; the numpad star as Shift and 8, each within the other. */
  lemma KeysAreTyped(s: State, e: Event, env1: Env, env2: Env)
    requires e.body.KeyEvent? && IsWellFormed(e.body) && Works(s, env1) && Works(s, env2)
    ensures
      var (t, r) := Handle(s, e, env1, env2);
      && r == Ok
      && t.typed == s.typed +
           if e.body.key != KpMultiply then [Stroke(e.body.kind, e.body.key)]
           else if e.body.kind == KeyUp then [Stroke(KeyUp, Num8), Stroke(KeyUp, KMod(Shift))]
           else [Stroke(KeyDown, KMod(Shift)), Stroke(KeyDown, Num8)]
  {
    hide HandleOne;
    match StarExpand(e) {
      case None => OneKeyIsTyped(s, e, env1);
      case Some((first, second)) =>
        OneKeyIsTyped(s, first, env1);
        OneKeyIsTyped(HandleOne(s, first, env1).0, second, env2);
    }
  }

  lemma OneKeyIsTyped(s: State, e: Event, env: Env)
    requires e.body.KeyEvent? && IsWellFormed(e.body) && Works(s, env)
    ensures
      var (t, r) := HandleOne(s, e, env);
      r == Ok && t.typed == s.typed + [Stroke(e.body.kind, e.body.key)] && ZeroResolution(t) == ZeroResolution(s)
  {
    hide ScaleCoord, SyncPlan;
  }

  /** The first error of the two halves of a star is reported, and success only when both worked. */
  lemma StarReports(s: State, e: Event, env1: Env, env2: Env)
    requires StarExpand(e).Some?
    ensures
      var (first, second) := StarExpand(e).value;
      var (t, r1) := HandleOne(s, first, env1);
      var r2 := HandleOne(t, second, env2).1;
      var r := Handle(s, e, env1, env2).1;
      (r == Ok <==> r1 == Ok && r2 == Ok) && (r1 != Ok ==> r == r1)
  {
    hide HandleOne;
  }

  /** A modifier is the peer's from its own press, once that has worked, to its own release. */
  lemma PeerFollowsItsKeys(s: State, e: Event, env1: Env, env2: Env)
    requires e.body.KeyEvent? && e.body.key.KMod? && Works(s, env1)
    ensures Handle(s, e, env1, env2).0.peer ==
              if e.body.kind == KeyUp then s.peer - {e.body.key.m} else s.peer + {e.body.key.m}
  {
    hide ScaleCoord, SyncPlan;
  }

  /** A release that the system does not take changes nothing in it, but the books are empty. */
  lemma FailedReleaseIsBooked(s: State)
    ensures
      var t := ReleaseAll(s, false);
      && t.osMods == s.osMods && t.osButtons == s.osButtons && t.peer == s.peer && t.held == s.held
      && t.we == {} && t.buttons == {}
  {
  }

  // ---- What the peer holds ----

  /** What the peer holds by its own key events is down, and none of it counts as pressed for flags. */
  ghost predicate PeerIsDown(s: State) {
    s.peer <= s.osMods && s.we !! s.peer
  }

  /** The release of a star, or a combination, that reaches the system while the peer holds what it lifts. */
  predicate LiftsPeer(s: State, op: Op) {
    && op.OpHandle?
    && (|| (StarExpand(op.e).Some? && op.e.body.kind == KeyUp && !ZeroResolution(s) && op.env2.sendWorks && Shift in s.peer)
        || (op.e.body.SpecialKey? && op.e.body.combo.Some? && op.env1.sendWorks
            && !(ComboMods(op.e.body.combo.value) !! s.peer)))
  }

  lemma SyncKeepsPeer(s: State, asked: set<Mod>, works: bool)
    requires PeerIsDown(s)
    ensures PeerIsDown(Sync(s, asked, works)) && Sync(s, asked, works).peer == s.peer
    ensures Sync(s, asked, works).we <= asked && ZeroResolution(Sync(s, asked, works)) == ZeroResolution(s)
  {
  }

  /** Only the release of a modifier key takes anything of the peer's away. */
  lemma DispatchKeepsPeer(s: State, e: Event, env: Env)
    requires PeerIsDown(s) && !e.body.SpecialKey? && s.we !! SelfMod(e)
    ensures
      var (t, r) := Dispatch(s, e, env);
      && t.peer == s.peer && t.we == s.we
      && (PeerIsDown(t) <==> !(e.body.KeyEvent? && e.body.kind == KeyUp && env.sendWorks && !(SelfMod(e) !! s.peer)))
      && PeerIsDown(NotePeer(t, e, r))
  {
  }

  lemma AfterSyncKeepsPeer(s: State, e: Event, env: Env)
    requires PeerIsDown(s) && !e.body.SpecialKey? && s.we !! SelfMod(e)
    ensures
      var (t, r) := AfterSync(s, e, env);
      && t.peer == s.peer && t.we == s.we
      && (PeerIsDown(t) <==> !(e.body.KeyEvent? && e.body.kind == KeyUp && !ZeroResolution(s) && env.sendWorks && !(SelfMod(e) !! s.peer)))
      && PeerIsDown(NotePeer(t, e, r))
      && ZeroResolution(t) == ZeroResolution(s)
  {
    hide Dispatch, MoveGuard, ScaleCoord;
    if !ZeroResolution(s) {
      var scaled := e.(x := ScaleCoord(e.x, s.srcW, s.dstW).value, y := ScaleCoord(e.y, s.srcH, s.dstH).value);
      GuardKeepsTheRest(s, (scaled.x, scaled.y), env.now, env.cursor);
      DispatchKeepsPeer(MoveGuard(s, (scaled.x, scaled.y), env.now, env.cursor).0, scaled, env);
      DispatchKeepsPeer(TrackButton(s, e.body), scaled, env);
      DispatchKeepsSize(MoveGuard(s, (scaled.x, scaled.y), env.now, env.cursor).0, scaled, env);
      DispatchKeepsSize(TrackButton(s, e.body), scaled, env);
    }
  }

  lemma DispatchKeepsSize(s: State, e: Event, env: Env)
    ensures ZeroResolution(Dispatch(s, e, env).0) == ZeroResolution(s)
  {
  }

  lemma HandleOneKeepsPeer(s: State, e: Event, env: Env)
    requires PeerIsDown(s) && !e.body.SpecialKey?
    ensures
      var (t, r) := HandleOne(s, e, env);
      && t.peer == s.peer
      && (PeerIsDown(t) <==> !(e.body.KeyEvent? && e.body.kind == KeyUp && !ZeroResolution(s) && env.sendWorks && !(SelfMod(e) !! s.peer)))
      && PeerIsDown(NotePeer(t, e, r))
      && ZeroResolution(t) == ZeroResolution(s)
  {
    hide Sync, AfterSync;
    SyncKeepsPeer(s, AskedFor(e), env.syncWorks);
    AfterSyncKeepsPeer(Sync(s, AskedFor(e), env.syncWorks), e, env);
  }

  /** A step takes something away that the peer holds exactly when it is such a star or such a combination. */
  lemma PeerStaysDownIff(s: State, op: Op)
    requires PeerIsDown(s)
    ensures PeerIsDown(Step(s, op)) <==> !LiftsPeer(s, op)
  {
    hide HandleOne;
    match op {
      case OpHandle(e, env1, env2) =>
        match StarExpand(e) {
          case None =>
            if e.body.SpecialKey? { ComboAndPeer(s, e, env1); } else { HandleOneKeepsPeer(s, e, env1); }
          case Some((first, second)) =>
            HandleOneKeepsPeer(s, first, env1);
            HandleOneKeepsPeer(HandleOne(s, first, env1).0, second, env2);
        }
      case _ =>
    }
  }

  lemma ComboAndPeer(s: State, e: Event, env: Env)
    requires PeerIsDown(s) && e.body.SpecialKey?
    ensures
      var (t, r) := HandleOne(s, e, env);
      PeerIsDown(NotePeer(t, e, r)) <==> !(e.body.combo.Some? && env.sendWorks && !(ComboMods(e.body.combo.value) !! s.peer))
  {
  }

  ghost predicate SparesPeer(s: State, ops: seq<Op>)
    decreases |ops|
  {
    ops == [] || (SparesPeer(s, ops[..|ops| - 1]) && !LiftsPeer(Run(s, ops[..|ops| - 1]), ops[|ops| - 1]))
  }

  /** In every run without such a step, whatever else fails, each modifier the peer holds stays down. */
  lemma {:induction false} PeerStaysDownAlways(srcW: nat, srcH: nat, dstW: nat, dstH: nat, ops: seq<Op>)
    requires SparesPeer(Init(srcW, srcH, dstW, dstH), ops)
    ensures PeerIsDown(Run(Init(srcW, srcH, dstW, dstH), ops))
    decreases |ops|
  {
    hide Step, LiftsPeer;
    if ops != [] {
      PeerStaysDownAlways(srcW, srcH, dstW, dstH, ops[..|ops| - 1]);
      PeerStaysDownIff(Run(Init(srcW, srcH, dstW, dstH), ops[..|ops| - 1]), ops[|ops| - 1]);
    }
  }

  // ---- Buttons and release ----

  predicate OneButton(op: Op) {
    match op
    case OpHandle(e, env1, env2) =>
      (e.body.MouseButton? ==> |e.body.buttons| == 1) && env1.sendWorks
    case OpReleaseAll(works) => works
    case _ => true
  }

  lemma ActingOnOne(b: set<Button>)
    requires |b| == 1
    ensures Acting(b) == b
  {
    var x :| x in b;
    assert |b - {x}| == 0;
    assert b == {x};
    assert x == Left || x == Right || x == Middle;
  }

  lemma HandleOneKeepsButtons(s: State, e: Event, env: Env)
    requires s.osButtons == s.buttons
    requires e.body.MouseButton? ==> |e.body.buttons| == 1 && env.sendWorks
    ensures HandleOne(s, e, env).0.osButtons == HandleOne(s, e, env).0.buttons
  {
    if e.body.MouseButton? {
      ActingOnOne(e.body.buttons);
      assert e.body.buttons != {};
    }
    hide ScaleCoord, LocalActivity, SyncPlan;
  }

  lemma StepKeepsButtons(s: State, op: Op)
    requires s.osButtons == s.buttons && OneButton(op)
    ensures Step(s, op).osButtons == Step(s, op).buttons
  {
    hide HandleOne;
    match op {
      case OpHandle(e, env1, env2) =>
        match StarExpand(e) {
          case None => HandleOneKeepsButtons(s, e, env1);
          case Some((first, second)) =>
            HandleOneKeepsButtons(s, first, env1);
            HandleOneKeepsButtons(HandleOne(s, first, env1).0, second, env2);
        }
      case _ =>
    }
  }

  lemma {:induction false} ButtonsAgreeAlways(srcW: nat, srcH: nat, dstW: nat, dstH: nat, ops: seq<Op>)
    requires forall op | op in ops :: OneButton(op)
    ensures var s := Run(Init(srcW, srcH, dstW, dstH), ops); s.osButtons == s.buttons
    decreases |ops|
  {
    hide Step, OneButton;
    if ops != [] {
      assert ops[|ops| - 1] in ops && forall op | op in ops[..|ops| - 1] :: op in ops;
      ButtonsAgreeAlways(srcW, srcH, dstW, dstH, ops[..|ops| - 1]);
      StepKeepsButtons(Run(Init(srcW, srcH, dstW, dstH), ops[..|ops| - 1]), ops[|ops| - 1]);
    }
  }

  /** After any run of one-button events a working release leaves nothing down, and a second one changes nothing. */
  lemma ReleaseLeavesNothingDown(srcW: nat, srcH: nat, dstW: nat, dstH: nat, ops: seq<Op>)
    requires forall op | op in ops :: OneButton(op)
    ensures var t := ReleaseAll(Run(Init(srcW, srcH, dstW, dstH), ops), true);
            && t.osMods == {} && t.osButtons == {} && t.we == {} && t.buttons == {} && t.held == {}
            && t.suppressUntil == None && t.baseline == None
            && ReleaseAll(t, true) == t
  {
    ButtonsAgreeAlways(srcW, srcH, dstW, dstH, ops);
  }

  /**
   An event that lifts several buttons at once lifts one of them in the system and forgets
   all: a later release leaves nothing down exactly when the others were up already.
   */
  lemma SeveralButtonsStickIff(s: State, e: Event, env: Env)
    requires s.osButtons == s.buttons && !ZeroResolution(s) && env.sendWorks
    requires e.body.MouseButton? && e.body.release && e.body.buttons != {}
    ensures ReleaseAll(HandleOne(s, e, env).0, true).osButtons == {}
            <==> (e.body.buttons - Acting(e.body.buttons)) !! s.osButtons
  {
    hide ScaleCoord, SyncPlan;
    var b, t := e.body.buttons, HandleOne(s, e, env).0;
    assert t.osButtons == s.osButtons - Acting(b) && t.buttons == s.buttons - b;
    assert ReleaseAll(t, true).osButtons == (b - Acting(b)) * s.osButtons;
  }

  // ---- Moves ----

  /** Everything else leaves the moves and the guard alone. */
  lemma OthersLeaveTheGuard(s: State, e: Event, env: Env)
    requires !e.body.MouseMove?
    ensures var t := HandleOne(s, e, env).0;
            && t.moves == s.moves && t.suppressUntil == s.suppressUntil && t.rebased == s.rebased
            && t.baseline == s.baseline && t.baselineButtons == s.baselineButtons
  {
    hide ScaleCoord, LocalActivity, SyncPlan;
  }

  /** A move is injected at most once, with its own scaled coordinates, inside the target. */
  lemma InjectedMoveIsItsOwn(s: State, e: Event, env: Env)
    requires HandleOne(s, e, env).0.moves != s.moves
    ensures e.body.MouseMove? && !ZeroResolution(s)
    ensures var t := HandleOne(s, e, env).0;
            var m := t.moves[|t.moves| - 1];
            && t.moves == s.moves + [m] && m.time == env.now
            && Some(m.x) == ScaleCoord(e.x, s.srcW, s.dstW) && Some(m.y) == ScaleCoord(e.y, s.srcH, s.dstH)
            && m.x < s.dstW && m.y < s.dstH
  {
    if e.body.MouseMove? && !ZeroResolution(s) {
      ScaleIsInRange(e.x, s.srcW, s.dstW);
      ScaleIsInRange(e.y, s.srcH, s.dstH);
    }
    hide ScaleCoord, LocalActivity, SyncPlan;
  }

  /** A move that gets through settles the mark on the moves; only local activity sets it. */
  lemma MarkIsSettled(s: State, e: Event, env: Env)
    requires e.body.MouseMove?
    ensures
      var t := SendMove(s, e, env).0;
      && (|t.moves| > |s.moves| ==> !t.rebased)
      && (|t.moves| == |s.moves| && t.suppressUntil.None? ==> t.rebased == s.rebased)
  {
    hide LocalActivity;
  }

  /** Where the move is to go. */
  function Target(s: State, e: Event): (nat, nat)
    requires !ZeroResolution(s)
  {
    (ScaleCoord(e.x, s.srcW, s.dstW).value, ScaleCoord(e.y, s.srcH, s.dstH).value)
  }

  /** The user is seen to have moved the pointer; without a baseline or a cursor nothing can be seen. */
  predicate UserIsThere(s: State, env: Env) {
    s.baseline.Some? && env.cursor.Some? && UserMoved(s, env)
  }

  predicate CanBeSeen(s: State, env: Env) {
    s.baseline.Some? && env.cursor.Some? ==>
      Near(env.cursor.value.0, s.baseline.value.0) && Near(env.cursor.value.1, s.baseline.value.1)
  }

  function NotNegative(x: int): nat {
    if x >= 0 then x else 0
  }

  /**
   A move is injected exactly when no suspension is on, the user is not at the pointer, it
   goes somewhere else or comes with other buttons than the last, and the system takes it. It
   is then what the next one is compared with; when the user was there, the pointer is.
   */
  lemma MoveIsInjectedIff(s: State, e: Event, env: Env)
    requires e.body.MouseMove? && !ZeroResolution(s) && CanBeSeen(s, env)
    ensures
      var t := HandleOne(s, e, env).0;
      var on := s.suppressUntil.Some? && env.now < s.suppressUntil.value;
      && (t.moves != s.moves <==>
            && env.sendWorks && !on && !UserIsThere(s, env)
            && !(s.baseline == Some(Target(s, e)) && s.baselineButtons == s.buttons))
      && (t.moves != s.moves ==> t.baseline == Some(Target(s, e)) && t.baselineButtons == s.buttons)
      && (!on && UserIsThere(s, env) ==>
            t.baseline == Some((NotNegative(env.cursor.value.0), NotNegative(env.cursor.value.1))))
  {
    if s.baseline.Some? && env.cursor.Some? {
      DistanceIff(env.cursor.value.0, s.baseline.value.0);
      DistanceIff(env.cursor.value.1, s.baseline.value.1);
    }
    hide Distance;
    hide ScaleCoord, SyncPlan;
  }

  /** After a switch of monitors the first move inside it goes exactly where the peer points. */
  lemma FirstMoveAfterSwitch(s: State, w: nat, h: nat, e: Event, env: Env)
    requires e.body.MouseMove? && e.x < w && e.y < h && env.sendWorks
    ensures
      var t := HandleOne(SetResolution(s, w, h), e, env).0;
      |t.moves| == |s.moves| + 1 && (t.moves[|s.moves|].x, t.moves[|s.moves|].y) == (e.x, e.y)
  {
    var r := SetResolution(s, w, h);
    ScaleIsInRange(e.x, w, w);
    ScaleIsInRange(e.y, h, h);
    FirstMove(r, e, env);
  }

  /** After a change of the target it is scaled from the source to the new target. */
  lemma FirstMoveAfterResize(s: State, w: nat, h: nat, e: Event, env: Env)
    requires e.body.MouseMove? && s.srcW > 0 && s.srcH > 0 && w > 0 && h > 0 && env.sendWorks
    ensures
      var t := HandleOne(SetDst(s, w, h), e, env).0;
      && |t.moves| == |s.moves| + 1
      && (Some(t.moves[|s.moves|].x), Some(t.moves[|s.moves|].y)) == (ScaleCoord(e.x, s.srcW, w), ScaleCoord(e.y, s.srcH, h))
  {
    FirstMove(SetDst(s, w, h), e, env);
  }

  lemma FirstMove(s: State, e: Event, env: Env)
    requires e.body.MouseMove? && !ZeroResolution(s) && env.sendWorks && s.baseline == None && s.suppressUntil == None
    ensures
      var t := HandleOne(s, e, env).0;
      |t.moves| == |s.moves| + 1 && (t.moves[|s.moves|].x, t.moves[|s.moves|].y) == Target(s, e)
  {
    MoveIsInjectedIff(s, e, env);
    InjectedMoveIsItsOwn(s, e, env);
    hide HandleOne;
  }

  // ---- What is refused ----

  /** No button, a key without a scan code, no text, no combination. */
  predicate IsMalformed(b: Body) {
    || (b.MouseButton? && b.buttons == {})
    || (b.KeyEvent? && b.key.KOther? && !b.key.mapped)
    || (b.TextInput? && b.text == [])
    || (b.SpecialKey? && b.combo.None?)
  }

  /**
   One event is refused exactly when it is malformed, or when it needs a resolution and there
   is none; moves that come before there is a target are dropped instead.
   */
  lemma RefusedIff(s: State, e: Event, env: Env)
    ensures
      var r := HandleOne(s, e, env).1;
      && (r == InvalidEvent <==>
            if e.body.SpecialKey? then IsMalformed(e.body)
            else if e.body.MouseMove? && (s.dstW == 0 || s.dstH == 0) then false
            else ZeroResolution(s) || IsMalformed(e.body))
      && (r == InjectFailed ==> !env.sendWorks)
  {
    hide ScaleCoord, LocalActivity, SyncPlan;
  }

  /** When the system does not take a synchronisation, the books say that it did. */
  lemma FailedSyncIsBooked(s: State, asked: set<Mod>)
    ensures Sync(s, asked, false).osMods == s.osMods && Sync(s, asked, false).we == Sync(s, asked, true).we
  {
  }

  // ---- Suspension ----

  function Clock(op: Op): nat {
    if op.OpHandle? then op.env1.now else 0
  }

  /** Events only, with a clock that starts at `from` and never goes back. */
  ghost predicate Clocked(ops: seq<Op>, from: nat) {
    && (forall i | 0 <= i < |ops| :: ops[i].OpHandle? && from <= Clock(ops[i]))
    && (forall i, j | 0 <= i < j < |ops| :: Clock(ops[i]) <= Clock(ops[j]))
  }

  ghost predicate NoneBefore(moves: seq<Move>, n: nat, until: nat) {
    forall k | n <= k < |moves| :: moves[k].time >= until
  }

  /** Since `s`, no move before `until`; the window is still open unless the clock has reached it. */
  ghost predicate HeldBack(s: State, t: State, until: nat, clock: nat) {
    && s.moves <= t.moves && NoneBefore(t.moves, |s.moves|, until)
    && ((t.suppressUntil == Some(until) && t.moves == s.moves) || clock >= until)
  }

  lemma EventKeepsHeldBack(s: State, t: State, until: nat, clock: nat, e: Event, env: Env)
    requires HeldBack(s, t, until, clock) && clock <= env.now
    ensures HeldBack(s, HandleOne(t, e, env).0, until, env.now)
  {
    var u := HandleOne(t, e, env).0;
    if !e.body.MouseMove? {
      OthersLeaveTheGuard(t, e, env);
    } else {
      if u.moves != t.moves {
        InjectedMoveIsItsOwn(t, e, env);
      }
      MoveInsideWindow(t, e, env, until);
    }
  }

  lemma MoveInsideWindow(t: State, e: Event, env: Env, until: nat)
    requires e.body.MouseMove?
    ensures t.suppressUntil == Some(until) && env.now < until ==>
              HandleOne(t, e, env).0.suppressUntil == Some(until) && HandleOne(t, e, env).0.moves == t.moves
  {
    hide ScaleCoord, LocalActivity, SyncPlan;
  }

  lemma StepKeepsHeldBack(s: State, t: State, until: nat, clock: nat, op: Op)
    requires HeldBack(s, t, until, clock) && op.OpHandle? && clock <= Clock(op)
    ensures HeldBack(s, Step(t, op), until, Clock(op))
  {
    hide HandleOne, HeldBack;
    match StarExpand(op.e) {
      case None =>
        EventKeepsHeldBack(s, t, until, clock, op.e, op.env1);
        var (u, r) := HandleOne(t, op.e, op.env1);
        NotePeerKeepsHeldBack(s, u, until, Clock(op), op.e, r);
      case Some((first, second)) =>
        KeysKeepHeldBack(s, t, until, clock, first, op.env1, Clock(op));
        KeysKeepHeldBack(s, HandleOne(t, first, op.env1).0, until, Clock(op), second, op.env2, Clock(op));
    }
  }

  lemma NotePeerKeepsHeldBack(s: State, t: State, until: nat, clock: nat, e: Event, r: Result)
    requires HeldBack(s, t, until, clock)
    ensures HeldBack(s, NotePeer(t, e, r), until, clock)
  {
  }

  lemma KeysKeepHeldBack(s: State, t: State, until: nat, clock: nat, e: Event, env: Env, later: nat)
    requires HeldBack(s, t, until, clock) && clock <= later && e.body.KeyEvent?
    ensures HeldBack(s, HandleOne(t, e, env).0, until, later)
  {
    OthersLeaveTheGuard(t, e, env);
  }

  lemma {:induction false} RunKeepsHeldBack(s: State, t: State, until: nat, clock: nat, ops: seq<Op>)
    requires HeldBack(s, t, until, clock) && Clocked(ops, clock)
    ensures HeldBack(s, Run(t, ops), until, if ops == [] then clock else Clock(ops[|ops| - 1]))
    decreases |ops|
  {
    hide HeldBack, Step, Clock;
    if ops != [] {
      var n := |ops| - 1;
      RunKeepsHeldBack(s, t, until, clock, ops[..n]);
      StepKeepsHeldBack(s, Run(t, ops[..n]), until, if n == 0 then clock else Clock(ops[n - 1]), ops[n]);
    }
  }

  /** The pointer and the place of the last move are so close that their 32-bit difference does not wrap. */
  predicate Near(c: int, l: nat) {
    l < 0x8000_0000 && -0x8000_0000 < c - l < 0x8000_0000
  }

  /** More than eight pixels apart, either way. */
  predicate Apart(c: int, l: nat) {
    c - l > 8 || l - c > 8
  }

  /** A move that is not held back and can be compared: where the pointer is, and where it was put. */
  predicate Compares(s: State, e: Event, env: Env) {
    && e.body.MouseMove? && !ZeroResolution(s) && s.baseline.Some? && env.cursor.Some?
    && !(s.suppressUntil.Some? && env.now < s.suppressUntil.value)
    && Near(env.cursor.value.0, s.baseline.value.0) && Near(env.cursor.value.1, s.baseline.value.1)
  }

  predicate UserMoved(s: State, env: Env)
    requires s.baseline.Some? && env.cursor.Some?
  {
    Apart(env.cursor.value.0, s.baseline.value.0) || Apart(env.cursor.value.1, s.baseline.value.1)
  }

  lemma DistanceIff(c: int, l: nat)
    requires Near(c, l)
    ensures Distance(c, l) > ACTIVITY_THRESHOLD <==> Apart(c, l)
  {
  }

  /** The clock is a 64-bit count, and the addition stops at its end. */
  function TwoSecondsFrom(now: nat): nat {
    if now + 2000 > 0xFFFF_FFFF_FFFF_FFFF then 0xFFFF_FFFF_FFFF_FFFF else now + 2000
  }

  /** Such a move starts a suspension of two seconds exactly when the pointer is more than eight pixels off on one axis. */
  lemma SuspensionStartsIff(s: State, e: Event, env: Env)
    requires Compares(s, e, env)
    ensures
      var t := HandleOne(s, e, env).0;
      if UserMoved(s, env) then t.suppressUntil == Some(TwoSecondsFrom(env.now)) && t.moves == s.moves
      else t.suppressUntil == None
  {
    DistanceIff(env.cursor.value.0, s.baseline.value.0);
    DistanceIff(env.cursor.value.1, s.baseline.value.1);
    hide Distance;
    hide ScaleCoord, SyncPlan;
  }

  /**
   A move that finds the local user at the mouse is dropped, and whatever events follow, no
   move is injected during the next two seconds; then moves come back by themselves.
   */
  lemma LocalActivitySuspendsMoves(s: State, e: Event, env: Env, ops: seq<Op>)
    requires Compares(s, e, env) && UserMoved(s, env) && env.now + 2000 <= 0xFFFF_FFFF_FFFF_FFFF
    requires Clocked(ops, env.now)
    ensures var t := Run(HandleOne(s, e, env).0, ops);
            s.moves <= t.moves && NoneBefore(t.moves, |s.moves|, env.now + 2000)
  {
    SuspensionStartsIff(s, e, env);
    RunKeepsHeldBack(s, HandleOne(s, e, env).0, env.now + 2000, env.now, ops);
  }

  // ---- No idle repetition ----

  predicate SameSpot(m: Move, n: Move) {
    m.x == n.x && m.y == n.y && m.buttons == n.buttons
  }

  /** Neighbouring moves differ unless the baseline was moved in between; the baseline is the last move. */
  ghost predicate NoRepeats(s: State) {
    && (forall k | 0 <= k < |s.moves| - 1 && !s.moves[k + 1].rebased :: !SameSpot(s.moves[k], s.moves[k + 1]))
    && (s.moves == [] ==> s.rebased)
    && (!s.rebased ==>
          var m := s.moves[|s.moves| - 1];
          s.baseline == Some((m.x, m.y)) && s.baselineButtons == m.buttons)
  }

  lemma MoveKeepsNoRepeats(s: State, e: Event, env: Env)
    requires NoRepeats(s) && e.body.MouseMove?
    ensures NoRepeats(SendMove(s, e, env).0)
  {
    hide LocalActivity;
    var t := MoveGuard(s, (e.x, e.y), env.now, env.cursor).0;
    assert NoRepeats(t);
    assert t.moves == s.moves;
  }

  lemma HandleOneKeepsNoRepeats(s: State, e: Event, env: Env)
    requires NoRepeats(s)
    ensures NoRepeats(HandleOne(s, e, env).0)
  {
    if !e.body.MouseMove? {
      OthersLeaveTheGuard(s, e, env);
    } else {
      var t := Sync(s, AskedFor(e), env.syncWorks);
      assert NoRepeats(t);
      if !ZeroResolution(t) {
        hide NoRepeats, SendMove, Sync, ScaleCoord;
        MoveKeepsNoRepeats(t, e.(x := ScaleCoord(e.x, t.srcW, t.dstW).value, y := ScaleCoord(e.y, t.srcH, t.dstH).value), env);
      }
    }
  }

  lemma StepKeepsNoRepeats(s: State, op: Op)
    requires NoRepeats(s)
    ensures NoRepeats(Step(s, op))
  {
    hide HandleOne;
    match op {
      case OpHandle(e, env1, env2) =>
        hide NoRepeats;
        match StarExpand(e) {
          case None => HandleOneKeepsNoRepeats(s, e, env1);
          case Some((first, second)) =>
            HandleOneKeepsNoRepeats(s, first, env1);
            HandleOneKeepsNoRepeats(HandleOne(s, first, env1).0, second, env2);
        }
      case _ =>
    }
  }

  /** Over every run, two injected moves in a row differ in place or buttons unless a suspension or a reset lies between. */
  lemma {:induction false} NoIdleMoves(srcW: nat, srcH: nat, dstW: nat, dstH: nat, ops: seq<Op>)
    ensures NoRepeats(Run(Init(srcW, srcH, dstW, dstH), ops))
    decreases |ops|
  {
    hide Step;
    if ops != [] {
      NoIdleMoves(srcW, srcH, dstW, dstH, ops[..|ops| - 1]);
      StepKeepsNoRepeats(Run(Init(srcW, srcH, dstW, dstH), ops[..|ops| - 1]), ops[|ops| - 1]);
    }
  }
}
