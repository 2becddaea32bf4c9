/**
 The low-level keyboard hook of input/src/kbd_hook.rs. A callback runs in two atomic
 parts: it reads the gate and decides (`Begin`), and later, under the sink lock, reads the
 gate and the sink again and sends (`Commit`). The user interface moves the gate and the
 sink in between. Callbacks are delivered one at a time, by the hook thread.

 `Next` is one atomic step; the theorems speak about every sequence of steps.
 */
module KbdHook {
  import opened Bytes

  datatype Gate = Inactive | Active | ActiveAltF4

  datatype Key = KpMultiply | KpDecimal | CapsLock | NumLock | Super | F4

  /** A wire event; the modifiers field is always zero. */
  datatype KeyEvent = KeyEvent(down: bool, key: Key)

  /** What Windows reports: Set 1 scan code and the extended, injected and up bits. */
  datatype Raw = Raw(scan: nat, extended: bool, injected: bool, up: bool)

  const SCAN_KP_MULTIPLY := 0x37
  const SCAN_KP_DECIMAL := 0x53
  const SCAN_CAPS_LOCK := 0x3A
  const SCAN_NUM_LOCK := 0x45
  const SCAN_WIN := 0x5B
  const SCAN_F4 := 0x3E
  const SCAN_ALT_L := 0x38
  const SCAN_ALT_R := 0x58

  // ---- Pure decisions ----

  /** The five forwarded keys. */
  function BlindKey(scan: nat, extended: bool): Option<Key> {
    if scan == SCAN_KP_MULTIPLY && !extended then Some(KpMultiply)
    else if scan == SCAN_KP_DECIMAL && !extended then Some(KpDecimal)
    else if scan == SCAN_CAPS_LOCK && !extended then Some(CapsLock)
    else if scan == SCAN_NUM_LOCK && !extended then Some(NumLock)
    else if scan == SCAN_WIN && extended then Some(Super)
    else None
  }

  predicate IsAlt(e: Raw) {
    !e.injected && ((e.scan == SCAN_ALT_L && !e.extended) || (e.scan == SCAN_ALT_R && e.extended))
  }

  predicate IsF4(e: Raw) {
    !e.injected && !e.extended && e.scan == SCAN_F4
  }

  /** A physical event of a forwarded key. */
  predicate IsBlind(e: Raw) {
    !e.injected && BlindKey(e.scan, e.extended).Some?
  }

  datatype Decision = Decision(events: seq<KeyEvent>, swallow: bool, alt: bool, pair: bool)

  function Pass(alt: bool, pair: bool): Decision {
    Decision([], false, alt, pair)
  }

  function DecideEvent(e: Raw, gate: Gate, altBefore: bool, pair: bool): Decision {
    var alt := if IsAlt(e) then !e.up else altBefore;
    if e.injected || gate == Inactive then Pass(alt, pair)
    else if !e.extended && e.scan == SCAN_F4 && gate == ActiveAltF4 then
      if !e.up && alt && !pair then Decision([KeyEvent(true, F4), KeyEvent(false, F4)], true, alt, true)
      else if !e.up && alt && pair then Decision([], true, alt, true)
      else if e.up && pair then Decision([], true, alt, false)
      else if !e.up && !alt then Pass(alt, false)
      else Pass(alt, pair)
    else
      match BlindKey(e.scan, e.extended)
      case Some(key) => Decision([KeyEvent(!e.up, key)], true, alt, pair)
      case None => Pass(alt, pair)
  }

  /** `(send, swallow)`, decided under the sink lock. */
  function DecideSend(forward: bool, swallow: bool, gateActive: bool, sinkPresent: bool): (bool, bool) {
    if forward then (gateActive && sinkPresent, gateActive && sinkPresent && swallow) else (false, swallow)
  }

  // ---- The protocol ----

  type Channel = nat

  /** Where a physical event ended up. `Vanished`: swallowed here although its channel was closed. */
  datatype Fate = Sent(to: Channel) | Local | Swallowed | Vanished(to: Channel)

  datatype Entry = Entry(raw: Raw, events: seq<KeyEvent>, fate: Fate)

  datatype Pending = Pending(raw: Raw, decision: Decision)

  datatype Hook = Hook(
    gate: Gate, sink: Option<Channel>, alt: bool, pair: bool, pending: Option<Pending>,
    closed: set<Channel>, queues: map<Channel, seq<KeyEvent>>, local: seq<Raw>, log: seq<Entry>)

  datatype Step =
    | Begin(raw: Raw)
    | Commit
    | SetGate(gate: Gate)
    | SetSink(sink: Option<Channel>)
    | Close(channel: Channel)

  function Start(): Hook {
    Hook(Inactive, None, false, false, None, {}, map[], [], [])
  }

  function Queue(h: Hook, c: Channel): seq<KeyEvent> {
    if c in h.queues then h.queues[c] else []
  }

  /** Steps that cannot happen now leave everything as it is. */
  function Next(h: Hook, step: Step): Hook {
    match step
    case Begin(raw) =>
      if h.pending.Some? then h
      else
        var d := DecideEvent(raw, h.gate, h.alt, h.pair);
        h.(pending := Some(Pending(raw, d)), alt := d.alt, pair := d.pair)
    case Commit => if h.pending.Some? then Finish(h.(pending := None), h.pending.value.raw, h.pending.value.decision) else h
    case SetGate(g) => h.(gate := g)
    case SetSink(s) => h.(sink := s)
    case Close(c) => h.(closed := h.closed + {c})
  }

  /** The part of the callback from the sink lock on. A send into a closed channel is dropped. */
  function Finish(h: Hook, raw: Raw, d: Decision): Hook {
    var (send, swallow) := DecideSend(d.events != [], d.swallow, h.gate != Inactive, h.sink.Some?);
    var sent := if send && h.sink.value !in h.closed
                then h.(queues := h.queues[h.sink.value := Queue(h, h.sink.value) + d.events]) else h;
    var done := if swallow then sent else sent.(local := h.local + [raw]);
    done.(log := h.log + [Entry(raw, d.events, FateOf(h, d))])
  }

  function FateOf(h: Hook, d: Decision): Fate {
    var (send, swallow) := DecideSend(d.events != [], d.swallow, h.gate != Inactive, h.sink.Some?);
    if !swallow then Local
    else if !send then Swallowed
    else if h.sink.value in h.closed then Vanished(h.sink.value)
    else Sent(h.sink.value)
  }

  function Run(h: Hook, steps: seq<Step>): Hook {
    if steps == [] then h else Next(Run(h, steps[..|steps| - 1]), steps[|steps| - 1])
  }

  // ---- What every run keeps ----

  /** What channel `c` should have received. */
  function SentTo(log: seq<Entry>, c: Channel): seq<KeyEvent> {
    if log == [] then []
    else
      var last := log[|log| - 1];
      SentTo(log[..|log| - 1], c) + if last.fate == Sent(c) then last.events else []
  }

  /** What the local desktop should have seen. */
  function PassedOn(log: seq<Entry>): seq<Raw> {
    if log == [] then []
    else
      var last := log[|log| - 1];
      PassedOn(log[..|log| - 1]) + if last.fate == Local then [last.raw] else []
  }

  predicate GoodDecision(raw: Raw, events: seq<KeyEvent>, swallow: bool) {
    && (events != [] ==> swallow)
    && (IsBlind(raw) ==> events == [KeyEvent(!raw.up, BlindKey(raw.scan, raw.extended).value)] || (events == [] && !swallow))
    && (!IsBlind(raw) && !IsF4(raw) ==> events == [] && !swallow)
  }

  /** A forwarded key is never swallowed without a send, and what is sent is that key's event, once. */
  predicate GoodEntry(e: Entry) {
    && (IsBlind(e.raw) ==> e.fate != Swallowed)
    && (IsBlind(e.raw) && !e.fate.Local? ==> e.events == [KeyEvent(!e.raw.up, BlindKey(e.raw.scan, e.raw.extended).value)])
    && (!IsBlind(e.raw) && !IsF4(e.raw) ==> e.fate == Local)
  }

  ghost predicate Inv(h: Hook) {
    && (forall c :: Queue(h, c) == SentTo(h.log, c))
    && h.local == PassedOn(h.log)
    && (forall i | 0 <= i < |h.log| :: GoodEntry(h.log[i]))
    && (forall i | 0 <= i < |h.log| && h.log[i].fate.Vanished? :: h.log[i].fate.to in h.closed)
    && (h.pending.Some? ==> GoodDecision(h.pending.value.raw, h.pending.value.decision.events, h.pending.value.decision.swallow))
  }

  lemma DecisionsAreGood(raw: Raw, gate: Gate, alt: bool, pair: bool)
    ensures var d := DecideEvent(raw, gate, alt, pair); GoodDecision(raw, d.events, d.swallow)
  {
  }

  lemma FinishKeepsQueues(h: Hook, raw: Raw, d: Decision)
    requires (forall c :: Queue(h, c) == SentTo(h.log, c)) && h.local == PassedOn(h.log)
    requires d.events != [] ==> d.swallow
    ensures forall c :: Queue(Finish(h, raw, d), c) == SentTo(Finish(h, raw, d).log, c)
    ensures Finish(h, raw, d).local == PassedOn(Finish(h, raw, d).log)
  {
    hide DecideSend;
    var t := Finish(h, raw, d);
    assert t.log[..|h.log|] == h.log;
    assert PassedOn(h.log) + [] == PassedOn(h.log);
    forall c ensures Queue(t, c) == SentTo(t.log, c) {
      FinishKeepsQueue(h, raw, d, c);
    }
  }

  lemma FinishKeepsQueue(h: Hook, raw: Raw, d: Decision, c: Channel)
    requires Queue(h, c) == SentTo(h.log, c) && (d.events != [] ==> d.swallow)
    ensures Queue(Finish(h, raw, d), c) == SentTo(Finish(h, raw, d).log, c)
  {
    assert Finish(h, raw, d).log[..|h.log|] == h.log;
    assert SentTo(h.log, c) + [] == SentTo(h.log, c);
  }

  lemma FinishLogsGoodEntry(h: Hook, raw: Raw, d: Decision)
    requires GoodDecision(raw, d.events, d.swallow)
    ensures GoodEntry(Entry(raw, d.events, FateOf(h, d)))
  {
  }

  lemma FinishKeepsInv(h: Hook, raw: Raw, d: Decision)
    requires Inv(h) && h.pending == None && GoodDecision(raw, d.events, d.swallow)
    ensures Inv(Finish(h, raw, d))
  {
    FinishKeepsQueues(h, raw, d);
    FinishLogsGoodEntry(h, raw, d);
    hide Queue, SentTo, PassedOn, GoodEntry;
  }

  lemma NextKeepsInv(h: Hook, step: Step)
    requires Inv(h)
    ensures Inv(Next(h, step))
  {
    match step {
      case Begin(raw) => DecisionsAreGood(raw, h.gate, h.alt, h.pair);
      case Commit =>
        if h.pending.Some? {
          assert Inv(h.(pending := None)) by {
            forall c ensures Queue(h.(pending := None), c) == SentTo(h.log, c) {
              assert Queue(h, c) == SentTo(h.log, c);
            }
          }
          FinishKeepsInv(h.(pending := None), h.pending.value.raw, h.pending.value.decision);
        }
      case _ =>
        forall c ensures Queue(Next(h, step), c) == SentTo(h.log, c) {
          assert Queue(h, c) == SentTo(h.log, c);
        }
    }
  }

  lemma {:induction false} RunKeepsInv(steps: seq<Step>)
    ensures Inv(Run(Start(), steps))
  {
    hide Inv, Next;
    if steps == [] {
      StartIsGood();
    } else {
      RunKeepsInv(steps[..|steps| - 1]);
      NextKeepsInv(Run(Start(), steps[..|steps| - 1]), steps[|steps| - 1]);
    }
  }

  lemma StartIsGood()
    ensures Inv(Start())
  {
  }

  lemma {:induction false} ClosedGrows(h: Hook, steps: seq<Step>)
    ensures forall c | c in Run(h, steps).closed :: c in h.closed || Close(c) in steps
  {
    if steps != [] {
      var init, last := steps[..|steps| - 1], steps[|steps| - 1];
      ClosedGrows(h, init);
      assert forall c | Close(c) in init :: Close(c) in steps;
      assert last in steps;
    }
  }

  /**
   Under every interleaving, each finished physical event of a forwarded key ends up on
   exactly one side as long as no channel is closed: sent once, as that key's event, and
   kept from the desktop, or passed on here. Channels and desktop see them in callback order.
   */
  lemma EveryKeyGoesToOneSide(steps: seq<Step>, i: nat)
    requires forall c :: Close(c) !in steps
    requires i < |Run(Start(), steps).log| && IsBlind(Run(Start(), steps).log[i].raw)
    ensures var h := Run(Start(), steps);
            var e := h.log[i];
            && (e.fate.Sent? || e.fate.Local?)
            && (e.fate.Sent? ==> e.events == [KeyEvent(!e.raw.up, BlindKey(e.raw.scan, e.raw.extended).value)])
            && h.local == PassedOn(h.log) && forall c :: Queue(h, c) == SentTo(h.log, c)
  {
    RunKeepsInv(steps);
    ClosedGrows(Start(), steps);
    assert GoodEntry(Run(Start(), steps).log[i]);
  }

  /** A forwarded key is lost exactly when it is sent while the sink's channel is closed. */
  lemma KeyIsLostIff(h: Hook)
    requires Inv(h) && h.pending.Some? && IsBlind(h.pending.value.raw)
    ensures var t := Next(h, Commit);
            && |t.log| == |h.log| + 1
            && (t.log[|h.log|].fate.Vanished? <==>
                  h.pending.value.decision.events != [] && h.gate != Inactive && h.sink.Some? && h.sink.value in h.closed)
            && (t.log[|h.log|].fate.Sent? <==>
                  h.pending.value.decision.events != [] && h.gate != Inactive && h.sink.Some? && h.sink.value !in h.closed)
  {
  }

  ghost predicate NeverAttaches(steps: seq<Step>, c: Channel) {
    SetSink(Some(c)) !in steps
  }

  /** Once the sink has been taken away or moved, the old channel gets nothing more, even from a callback already under way. */
  lemma {:induction false} DetachedChannelIsSilent(h: Hook, steps: seq<Step>, c: Channel)
    requires h.sink != Some(c) && NeverAttaches(steps, c)
    ensures Queue(Run(h, steps), c) == Queue(h, c) && Run(h, steps).sink != Some(c)
  {
    if steps != [] {
      var init, last := steps[..|steps| - 1], steps[|steps| - 1];
      assert last in steps && forall s | s in init :: s in steps;
      DetachedChannelIsSilent(h, init, c);
      StepIsSilent(Run(h, init), last, c);
    }
  }

  lemma StepIsSilent(h: Hook, step: Step, c: Channel)
    requires h.sink != Some(c) && step != SetSink(Some(c))
    ensures Queue(Next(h, step), c) == Queue(h, c) && Next(h, step).sink != Some(c)
  {
  }

  // ---- Alt+F4 ----

  /** One callback from start to end, with the gate and sink it finds at the lock. */
  function Callback(h: Hook, raw: Raw, gate: Gate, sink: Option<Channel>): Hook {
    Next(Next(h, Begin(raw)).(gate := gate, sink := sink), Commit)
  }

  const F4_DOWN := Raw(0x3E, false, false, false)
  const F4_UP := Raw(0x3E, false, false, true)

  /** Nothing but F4 itself happens to the pair marker. */
  ghost predicate WithoutF4(steps: seq<Step>) {
    forall k :: 0 <= k < |steps| && steps[k].Begin? ==> !IsF4(steps[k].raw)
  }

  lemma StepKeepsMarker(h: Hook, step: Step)
    requires step.Begin? ==> !IsF4(step.raw)
    ensures Next(h, step).pair == h.pair && h.log <= Next(h, step).log
  {
  }

  lemma {:induction false} OthersKeepMarker(h: Hook, steps: seq<Step>)
    requires WithoutF4(steps)
    ensures Run(h, steps).pair == h.pair && h.log <= Run(h, steps).log
  {
    hide Next;
    if steps != [] {
      OthersKeepMarker(h, steps[..|steps| - 1]);
      StepKeepsMarker(Run(h, steps[..|steps| - 1]), steps[|steps| - 1]);
    }
  }

  /**
   F4 is not one of the forwarded keys, and a press can be torn apart: the press reaches
   the desktop and its release is swallowed without being sent. For a press and its release,
   with any callbacks of other keys, sink and gate changes in between, this happens exactly
   when the release meets the Alt+F4 gate and the pair marker is set: by this press, which
   wanted to forward but found the gate or the sink gone at the lock, or left over while the
   gate was in another mode.
   */
  lemma F4ReleaseIsSwallowedIff(h: Hook, g1: Gate, s1: Option<Channel>, between: seq<Step>, g2: Gate, s2: Option<Channel>)
    requires h.pending == None && WithoutF4(between)
    requires Run(Callback(h, F4_DOWN, g1, s1), between).pending == None
    ensures
      var m := Run(Callback(h, F4_DOWN, g1, s1), between);
      var u := Callback(m, F4_UP, g2, s2);
      && |u.log| == |m.log| + 1 > |h.log| + 1
      && (u.log[|h.log|].fate == Local && u.log[|u.log| - 1].fate == Swallowed
          <==> m.gate == ActiveAltF4 && ((h.gate == ActiveAltF4 && h.alt && !h.pair && (g1 == Inactive || s1 == None))
                                         || (h.gate != ActiveAltF4 && h.pair)))
  {
    F4Press(h, g1, s1);
    var d := Callback(h, F4_DOWN, g1, s1);
    hide Callback, Run;
    OthersKeepMarker(d, between);
    F4Release(Run(d, between), g2, s2);
  }

  lemma F4Press(h: Hook, g: Gate, s: Option<Channel>)
    requires h.pending == None
    ensures var d := Callback(h, F4_DOWN, g, s);
            && d.pending == None && |d.log| == |h.log| + 1
            && (d.log[|h.log|].fate == Local && d.pair
                <==> || (h.gate == ActiveAltF4 && h.alt && !h.pair && (g == Inactive || s == None))
                     || (h.gate != ActiveAltF4 && h.pair))
  {
  }

  lemma F4Release(h: Hook, g: Gate, s: Option<Channel>)
    requires h.pending == None
    ensures var u := Callback(h, F4_UP, g, s);
            && |u.log| == |h.log| + 1 && u.log[..|h.log|] == h.log
            && (u.log[|h.log|].fate == Swallowed <==> h.gate == ActiveAltF4 && h.pair)
  {
  }

  // ---- The Alt bit ----

  /** A callback is under way after these steps. */
  predicate Under(steps: seq<Step>) {
    if steps == [] then false
    else
      match steps[|steps| - 1]
      case Begin(_) => true
      case Commit => false
      case _ => Under(steps[..|steps| - 1])
  }

  /** The events whose callbacks have begun. */
  function Begun(steps: seq<Step>): seq<Raw> {
    if steps == [] then []
    else
      var (init, last) := (steps[..|steps| - 1], steps[|steps| - 1]);
      Begun(init) + if last.Begin? && !Under(init) then [last.raw] else []
  }

  /** Alt as the last of the physical events of either Alt key has left it. */
  predicate AltIsDown(raws: seq<Raw>) {
    if raws == [] then false
    else
      var e := raws[|raws| - 1];
      if !e.injected && ((e.scan == 0x38 && !e.extended) || (e.scan == 0x58 && e.extended)) then !e.up
      else AltIsDown(raws[..|raws| - 1])
  }

  /** After any run the bit is down exactly when the last physical Alt event was a press. */
  lemma {:induction false} AltFollowsTheKeys(steps: seq<Step>)
    ensures Run(Start(), steps).alt <==> AltIsDown(Begun(steps))
    ensures Run(Start(), steps).pending.Some? <==> Under(steps)
  {
    hide Finish;
    if steps != [] {
      var (init, last) := (steps[..|steps| - 1], steps[|steps| - 1]);
      AltFollowsTheKeys(init);
      AltAfter(Run(Start(), init), last);
      assert last.Begin? ==> (Begun(init) + [last.raw])[..|Begun(init)|] == Begun(init);
      assert Begun(init) + [] == Begun(init);
    }
  }

  lemma AltAfter(h: Hook, step: Step)
    ensures
      var t := Next(h, step);
      && (t.pending.Some? <==> if step.Begin? then true else if step.Commit? then false else h.pending.Some?)
      && (t.alt <==> if step.Begin? && h.pending.None? && IsAlt(step.raw) then !step.raw.up else h.alt)
  {
  }

  // ---- One key on both sides ----

  /** Whether a forwarded key that is decided and sent under these goes to the sink. */
  predicate Goes(decided: Gate, gate: Gate, sink: Option<Channel>) {
    decided != Inactive && gate != Inactive && sink.Some?
  }

  /** No event of the key with these marks begins. */
  ghost predicate WithoutKey(steps: seq<Step>, scan: nat, extended: bool) {
    forall k :: 0 <= k < |steps| && steps[k].Begin? ==> !(steps[k].raw.scan == scan && steps[k].raw.extended == extended)
  }

  /** The last thing a channel was told of a key: pressed or released. */
  function LastOf(q: seq<KeyEvent>, key: Key): Option<bool> {
    if q == [] then None
    else
      var e := q[|q| - 1];
      if e.key == key then Some(e.down) else LastOf(q[..|q| - 1], key)
  }

  predicate Silent(events: seq<KeyEvent>, key: Key) {
    forall k | 0 <= k < |events| :: events[k].key != key
  }

  lemma {:induction false} SilentAdds(q: seq<KeyEvent>, events: seq<KeyEvent>, key: Key)
    requires Silent(events, key)
    ensures LastOf(q + events, key) == LastOf(q, key)
  {
    if events == [] {
      assert q + [] == q;
    } else {
      var init := events[..|events| - 1];
      assert (q + events)[..|q + events| - 1] == q + init;
      SilentAdds(q, init, key);
    }
  }

  /** The callback under way, if any, is not about the key. */
  ghost predicate PendingIsSilent(h: Hook, key: Key) {
    h.pending.Some? ==> Silent(h.pending.value.decision.events, key)
  }

  lemma StepIsSilentOn(h: Hook, step: Step, c: Channel, scan: nat, extended: bool)
    requires BlindKey(scan, extended).Some? && PendingIsSilent(h, BlindKey(scan, extended).value)
    requires step.Begin? ==> !(step.raw.scan == scan && step.raw.extended == extended)
    ensures PendingIsSilent(Next(h, step), BlindKey(scan, extended).value)
    ensures LastOf(Queue(Next(h, step), c), BlindKey(scan, extended).value) == LastOf(Queue(h, c), BlindKey(scan, extended).value)
  {
    hide LastOf;
    var key := BlindKey(scan, extended).value;
    if step.Commit? && h.pending.Some? {
      hide DecideEvent;
      SilentAdds(Queue(h, c), h.pending.value.decision.events, key);
    }
  }

  lemma {:induction false} OthersAreSilentOn(h: Hook, steps: seq<Step>, c: Channel, scan: nat, extended: bool)
    requires BlindKey(scan, extended).Some? && PendingIsSilent(h, BlindKey(scan, extended).value) && WithoutKey(steps, scan, extended)
    ensures PendingIsSilent(Run(h, steps), BlindKey(scan, extended).value)
    ensures LastOf(Queue(Run(h, steps), c), BlindKey(scan, extended).value) == LastOf(Queue(h, c), BlindKey(scan, extended).value)
  {
    hide Next, PendingIsSilent, LastOf, Queue, BlindKey;
    if steps != [] {
      OthersAreSilentOn(h, steps[..|steps| - 1], c, scan, extended);
      StepIsSilentOn(Run(h, steps[..|steps| - 1]), steps[|steps| - 1], c, scan, extended);
    }
  }

  /** One callback of a forwarded key: where it ends, and what a channel then knows of the key. */
  lemma BlindCallback(h: Hook, raw: Raw, g: Gate, s: Option<Channel>, c: Channel)
    requires h.pending == None && IsBlind(raw)
    ensures
      var (u, key) := (Callback(h, raw, g, s), BlindKey(raw.scan, raw.extended).value);
      && u.pending == None && u.closed == h.closed && |u.log| == |h.log| + 1
      && (u.log[|h.log|].fate == Local <==> !Goes(h.gate, g, s))
      && LastOf(Queue(u, c), key) == (if Goes(h.gate, g, s) && s == Some(c) && c !in h.closed then Some(!raw.up) else LastOf(Queue(h, c), key))
  {
    BlindDecision(h, raw);
    hide DecideEvent, BlindKey, Finish, LastOf, Queue;
    var key := BlindKey(raw.scan, raw.extended).value;
    var d := DecideEvent(raw, h.gate, h.alt, h.pair);
    var begun := h.(alt := d.alt, pair := d.pair, gate := g, sink := s);
    BlindFinish(begun, raw, d, key, h.gate != Inactive, c);
    assert Callback(h, raw, g, s) == Finish(begun, raw, d);
    SameQueue(h, begun, c);
  }

  lemma SameQueue(h: Hook, t: Hook, c: Channel)
    requires h.queues == t.queues
    ensures Queue(h, c) == Queue(t, c)
  {
  }

  /** The second half, for a decision to send one event or none. */
  lemma BlindFinish(h: Hook, raw: Raw, d: Decision, key: Key, forward: bool, c: Channel)
    requires h.pending == None && d.events == (if forward then [KeyEvent(!raw.up, key)] else []) && d.swallow == forward
    ensures
      var u := Finish(h, raw, d);
      var goes := forward && h.gate != Inactive && h.sink.Some?;
      && u.pending == None && u.closed == h.closed && |u.log| == |h.log| + 1
      && (u.log[|h.log|].fate == Local <==> !goes)
      && LastOf(Queue(u, c), key) == (if goes && h.sink == Some(c) && c !in h.closed then Some(!raw.up) else LastOf(Queue(h, c), key))
  {
    hide LastOf;
    LastOfAppended(Queue(h, c), KeyEvent(!raw.up, key));
  }

  lemma BlindDecision(h: Hook, raw: Raw)
    requires IsBlind(raw)
    ensures
      var d := DecideEvent(raw, h.gate, h.alt, h.pair);
      && d.events == (if h.gate == Inactive then [] else [KeyEvent(!raw.up, BlindKey(raw.scan, raw.extended).value)])
      && (d.swallow <==> h.gate != Inactive)
  {
  }

  lemma LastOfAppended(q: seq<KeyEvent>, e: KeyEvent)
    ensures LastOf(q + [e], e.key) == Some(e.down)
  {
  }

  /**
   A forwarded key whose press was sent stays down at the far end, after its release here and
   whatever happened in between, exactly when the release does not go to the same open
   channel; and the desktop then sees a release without its press exactly when the gate or
   the sink had gone.
   */
  lemma KeyIsLeftDownIff(h: Hook, press: Raw, g1: Gate, c: Channel, between: seq<Step>, g2: Gate, s2: Option<Channel>)
    requires h.pending == None && IsBlind(press) && !press.up && Goes(h.gate, g1, Some(c)) && c !in h.closed
    requires WithoutKey(between, press.scan, press.extended)
    requires Run(Callback(h, press, g1, Some(c)), between).pending == None
    ensures
      var m := Run(Callback(h, press, g1, Some(c)), between);
      var u := Callback(m, press.(up := true), g2, s2);
      && (LastOf(Queue(u, c), BlindKey(press.scan, press.extended).value) == Some(true)
          <==> !(Goes(m.gate, g2, s2) && s2 == Some(c) && c !in m.closed))
      && (u.log[|u.log| - 1].fate == Local <==> !Goes(m.gate, g2, s2))
  {
    hide LastOf, Queue, BlindKey, Callback, Run, Goes;
    BlindCallback(h, press, g1, Some(c), c);
    var d := Callback(h, press, g1, Some(c));
    OthersAreSilentOn(d, between, c, press.scan, press.extended);
    BlindCallback(Run(d, between), press.(up := true), g2, s2, c);
  }

  /** Losing the focus between press and release leaves the key down at the far end. */
  lemma FocusLossLeavesKeyDown(h: Hook, press: Raw, c: Channel)
    requires h.pending == None && IsBlind(press) && !press.up && Goes(h.gate, h.gate, Some(c)) && c !in h.closed
    ensures
      var m := Run(Callback(h, press, h.gate, Some(c)), [SetSink(None), SetGate(Inactive)]);
      var u := Callback(m, press.(up := true), Inactive, None);
      && LastOf(Queue(u, c), BlindKey(press.scan, press.extended).value) == Some(true)
      && u.log[|u.log| - 1].fate == Local
  {
    var d := Callback(h, press, h.gate, Some(c));
    BlindCallback(h, press, h.gate, Some(c), c);
    hide Callback, LastOf, Queue, BlindKey;
    var steps := [SetSink(None), SetGate(Inactive)];
    RunPrefix(d, steps, 0);
    RunPrefix(d, steps, 1);
    assert steps[..0] == [] && steps[..2] == steps;
    KeyIsLeftDownIff(h, press, h.gate, c, steps, Inactive, None);
  }

  /** The five keys by their Set 1 codes: keypad * and ., Caps Lock, Num Lock, and the extended Win. */
  lemma ForwardedKeysAre(scan: nat, extended: bool)
    ensures BlindKey(scan, extended).Some? <==> (!extended && scan in {0x37, 0x53, 0x3A, 0x45}) || (extended && scan == 0x5B)
    ensures BlindKey(0x37, false) == Some(KpMultiply) && BlindKey(0x53, false) == Some(KpDecimal)
    ensures BlindKey(0x3A, false) == Some(CapsLock) && BlindKey(0x45, false) == Some(NumLock) && BlindKey(0x5B, true) == Some(Super)
  {
  }

  // ---- Alt+F4, held and let go ----

  /** F4 goes down, `n` times in a row if the keyboard repeats it. */
  function Presses(h: Hook, n: nat): Hook {
    if n == 0 then h else Callback(Presses(h, n - 1), F4_DOWN, h.gate, h.sink)
  }

  /**
   With Alt held and the Alt+F4 gate, F4 sends one press and release, however often it
   repeats, and its own release sends nothing more; the desktop sees none of it.
   */
  lemma AltF4IsSentOnce(h: Hook, c: Channel, n: nat)
    requires h.pending == None && h.gate == ActiveAltF4 && h.sink == Some(c) && c !in h.closed && h.alt && !h.pair && n > 0
    ensures
      var (d, u) := (Presses(h, n), Callback(Presses(h, n), F4_UP, h.gate, h.sink));
      && Queue(u, c) == Queue(h, c) + [KeyEvent(true, F4), KeyEvent(false, F4)]
      && u.local == h.local && d.pair && !u.pair
  {
    RepeatsAreSwallowed(h, c, n);
  }

  lemma {:induction false} RepeatsAreSwallowed(h: Hook, c: Channel, n: nat)
    requires h.pending == None && h.gate == ActiveAltF4 && h.sink == Some(c) && c !in h.closed && h.alt && !h.pair && n > 0
    ensures
      var d := Presses(h, n);
      && Queue(d, c) == Queue(h, c) + [KeyEvent(true, F4), KeyEvent(false, F4)]
      && d.local == h.local && d.pair && d.alt && d.gate == h.gate && d.sink == h.sink && d.closed == h.closed && d.pending == None
  {
    if n > 1 {
      RepeatsAreSwallowed(h, c, n - 1);
    }
  }

  /** F4 by itself, in either active mode, is the desktop's and the window's, not the hook's. */
  lemma PlainF4IsPassedOn(h: Hook, up: bool, c: Channel)
    requires h.pending == None && !h.alt && !h.pair
    ensures
      var u := Callback(h, Raw(0x3E, false, false, up), h.gate, h.sink);
      u.local == h.local + [Raw(0x3E, false, false, up)] && Queue(u, c) == Queue(h, c) && !u.pair
  {
  }

  // ---- A torn press ----

  const ALT_DOWN := Raw(0x38, false, false, false)

  /** The sink is taken away a moment before the gate follows, as the window loses focus. */
  const TORN_PRESS := [SetGate(ActiveAltF4), SetSink(Some(0)), Begin(ALT_DOWN), Commit,
                       Begin(F4_DOWN), SetSink(None), Commit, Begin(F4_UP), Commit]

  const ALT_HELD := Hook(ActiveAltF4, Some(0), true, false, None, {}, map[], [ALT_DOWN], [Entry(ALT_DOWN, [], Local)])

  const PRESSED := ALT_HELD.(sink := None, pair := true, local := [ALT_DOWN, F4_DOWN],
                             log := [Entry(ALT_DOWN, [], Local),
                                     Entry(F4_DOWN, [KeyEvent(true, F4), KeyEvent(false, F4)], Local)])

  const RELEASED := PRESSED.(pair := false, log := PRESSED.log + [Entry(F4_UP, [], Swallowed)])

  /** Such a run from the start. */
  lemma F4ReleaseCanBeSwallowed()
    ensures Run(Start(), TORN_PRESS) == RELEASED
    ensures RELEASED.local == [ALT_DOWN, F4_DOWN] && Queue(RELEASED, 0) == [] && RELEASED.log[2] == Entry(F4_UP, [], Swallowed)
  {
    AltIsHeld();
    PressIsPassedOn();
    ReleaseIsSwallowed();
    assert TORN_PRESS == TORN_PRESS[..9];
    RunPrefix(Start(), TORN_PRESS, 4);
    RunPrefix(Start(), TORN_PRESS, 5);
    RunPrefix(Start(), TORN_PRESS, 6);
    RunPrefix(Start(), TORN_PRESS, 7);
    RunPrefix(Start(), TORN_PRESS, 8);
    hide Run, Next;
  }

  lemma PressIsPassedOn()
    ensures Next(Next(Next(ALT_HELD, Begin(F4_DOWN)), SetSink(None)), Commit) == PRESSED
  {
  }

  lemma ReleaseIsSwallowed()
    ensures Next(Next(PRESSED, Begin(F4_UP)), Commit) == RELEASED
  {
  }

  lemma AltIsHeld()
    ensures Run(Start(), TORN_PRESS[..4]) == ALT_HELD
  {
    assert TORN_PRESS[..0] == [] && Run(Start(), []) == Start();
    hide Run;
    RunPrefix(Start(), TORN_PRESS, 0);
    RunPrefix(Start(), TORN_PRESS, 1);
    RunPrefix(Start(), TORN_PRESS, 2);
    RunPrefix(Start(), TORN_PRESS, 3);
    var d := Pass(true, false);
    assert DecideEvent(ALT_DOWN, ActiveAltF4, false, false) == d;
    hide DecideEvent;
    var h := Hook(ActiveAltF4, Some(0), true, false, Some(Pending(ALT_DOWN, d)), {}, map[], [], []);
    assert Run(Start(), TORN_PRESS[..3]) == h;
    assert Finish(h.(pending := None), ALT_DOWN, d).local == [] + [ALT_DOWN];
  }

  lemma RunPrefix(h: Hook, s: seq<Step>, k: nat)
    requires k < |s|
    ensures Run(h, s[..k + 1]) == Next(Run(h, s[..k]), s[k])
  {
    assert s[..k + 1][..k] == s[..k];
  }

  // ---- The shared object ----

  const HIT_RING_CAP := 128

  /** A hit of one of the five keys, injected ones included, as the observation ring keeps it. */
  datatype Hit = Hit(key: Key, scan: nat, injected: bool, up: bool)

  /** The newest `HIT_RING_CAP` of the hits. */
  function Newest(hits: seq<Hit>): seq<Hit> {
    if |hits| <= HIT_RING_CAP then hits else hits[|hits| - HIT_RING_CAP..]
  }

  lemma NewestAfterPush(hits: seq<Hit>, hit: Hit)
    ensures var r := Newest(hits);
            && Newest(hits + [hit]) == (if |r| >= HIT_RING_CAP then r[1..] else r) + [hit]
            && |r| == (if |hits| <= 128 then |hits| else 128) && r == hits[|hits| - |r|..]
  {
  }

  /** Gate, bookkeeping bits, sink and ring; the callback's two parts and the interface's calls. */
  class HookShared {
    var gate: Gate
    var sink: Option<Channel>
    var alt: bool
    var pair: bool
    var hitRing: seq<Hit>

    // What surrounds the object: the callback under way, the channels, the desktop, and the books.
    ghost var pending: Option<Pending>
    ghost var closed: set<Channel>
    ghost var queues: map<Channel, seq<KeyEvent>>
    ghost var local: seq<Raw>
    ghost var log: seq<Entry>
    /** Hits since the ring was last drained. */
    ghost var hits: seq<Hit>

    ghost function Value(): Hook
      reads this
    {
      Hook(gate, sink, alt, pair, pending, closed, queues, local, log)
    }

    ghost predicate Valid()
      reads this
    {
      Inv(Value()) && hitRing == Newest(hits)
    }

    constructor ()
      ensures Valid() && Value() == Start() && hits == []
    {
      gate, sink, alt, pair, hitRing := Inactive, None, false, false, [];
      pending, closed, queues, local, log, hits := None, {}, map[], [], [], [];
      new;
      StartIsGood();
    }

    method SetTheGate(g: Gate)
      requires Valid()
      modifies this
      ensures Valid() && Value() == Next(old(Value()), SetGate(g)) && hits == old(hits)
    {
      NextKeepsInv(Value(), SetGate(g));
      gate := g;
    }

    method SetTheSink(s: Option<Channel>)
      requires Valid()
      modifies this
      ensures Valid() && Value() == Next(old(Value()), SetSink(s)) && hits == old(hits)
    {
      NextKeepsInv(Value(), SetSink(s));
      sink := s;
    }

    /** The callback up to the sink lock: note a hit, decide, store the two bits. */
    method Decide(raw: Raw) returns (d: Decision)
      requires Valid() && pending == None
      modifies this
      ensures Valid() && Value() == Next(old(Value()), Begin(raw)) && pending == Some(Pending(raw, d))
      ensures hits == old(hits) + match BlindKey(raw.scan, raw.extended)
                                  case Some(key) => [Hit(key, raw.scan, raw.injected, raw.up)]
                                  case None => []
    {
      NextKeepsInv(Value(), Begin(raw));
      hide Inv, DecideEvent;
      match BlindKey(raw.scan, raw.extended) {
        case Some(key) => PushHit(Hit(key, raw.scan, raw.injected, raw.up));
        case None => assert hits + [] == hits;
      }
      d := DecideEvent(raw, gate, alt, pair);
      alt := d.alt;
      pair := d.pair;
      pending := Some(Pending(raw, d));
    }

    method PushHit(hit: Hit)
      requires hitRing == Newest(hits)
      modifies `hitRing, `hits
      ensures hitRing == Newest(hits) && hits == old(hits) + [hit]
    {
      NewestAfterPush(hits, hit);
      if |hitRing| >= HIT_RING_CAP {
        hitRing := hitRing[1..];
      }
      hitRing := hitRing + [hit];
      hits := hits + [hit];
    }

    /** The callback under the sink lock; the result is whether Windows is told to drop the event. */
    method Send(raw: Raw, d: Decision) returns (swallow: bool)
      requires Valid() && pending == Some(Pending(raw, d))
      modifies this
      ensures Valid() && Value() == Next(old(Value()), Commit) && hits == old(hits)
      ensures swallow <==> log[|log| - 1].fate != Local
    {
      NextKeepsInv(Value(), Commit);
      hide Inv, Finish, FateOf, DecideEvent, Newest;
      var send := false;
      if d.events != [] {
        var gateActive := gate != Inactive;
        var r := DecideSend(true, d.swallow, gateActive, sink.Some?);
        send, swallow := r.0, r.1;
      } else {
        swallow := DecideSend(false, d.swallow, false, false).1;
      }
      Deliver(raw, d, send, swallow);
    }

    /** The outside effects of a decided callback. */
    method Deliver(raw: Raw, d: Decision, send: bool, swallow: bool)
      requires (send, swallow) == DecideSend(d.events != [], d.swallow, gate != Inactive, sink.Some?)
      modifies `queues, `local, `log, `pending
      ensures Value() == Finish(old(Value()).(pending := None), raw, d)
      ensures |log| > 0 && (swallow <==> log[|log| - 1].fate != Local)
    {
      ghost var h := Value().(pending := None);
      assert FateOf(h, d) == Local <==> !swallow;
      hide DecideSend;
      pending := None;
      if send && sink.value !in closed {
        queues := queues[sink.value := Queue(h, sink.value) + d.events];
      }
      if !swallow {
        local := local + [raw];
      }
      log := log + [Entry(raw, d.events, FateOf(h, d))];
    }

    method DrainHits() returns (r: seq<Hit>)
      requires Valid()
      modifies this
      ensures Valid() && r == Newest(old(hits)) && hits == [] && Value() == old(Value())
    {
      r := hitRing;
      hitRing, hits := [], [];
    }
  }

  // ---- The watchdog ----

  const WATCHDOG_PERIOD := 60_000
  const MAX_SUSPECT_STREAK := 5

  /** What one tick finds: the clock, whether Windows tells of input, input elsewhere, callbacks seen, and whether reinstalling would work. */
  datatype Tick = Tick(now: nat, inputKnown: bool, inputElsewhere: bool, callbacks: nat, gateActive: bool, reinstallWorks: bool)

  datatype Watchdog = Watchdog(lastTick: nat, streak: nat, degraded: bool)

  /** The first tick counts; later ones half a period after the tick before, counted or not. */
  predicate TickIsDue(last: nat, now: nat, period: nat) {
    last == 0 || (now >= last && now - last >= period / 2)
  }

  /** What a tick does: nothing, find the hook well, reinstall it, or give up reinstalling. */
  datatype Act = Skip | Well | Reinstall | GiveUp

  function Watch(w: Watchdog, t: Tick): (Watchdog, Act) {
    var v := w.(lastTick := t.now);
    if !TickIsDue(w.lastTick, t.now, WATCHDOG_PERIOD) || !t.inputKnown then (v, Skip)
    else if w.degraded || !(t.inputElsewhere && t.gateActive && t.callbacks == 0) then (v.(streak := 0), Well)
    else if w.streak + 1 > MAX_SUSPECT_STREAK then (v.(streak := w.streak + 1), GiveUp)
    else if t.reinstallWorks then (v.(streak := 0), Reinstall)
    else (v.(streak := w.streak + 1, degraded := true), Reinstall)
  }

  function WatchAll(ticks: seq<Tick>): Watchdog {
    if ticks == [] then Watchdog(0, 0, false) else Watch(WatchAll(ticks[..|ticks| - 1]), ticks[|ticks| - 1]).0
  }

  /** The branch that gives up is never taken: a reinstall that works clears the streak, and one that fails degrades for good. */
  lemma {:induction false} GivingUpIsUnreachable(ticks: seq<Tick>, t: Tick)
    ensures WatchAll(ticks).streak <= if WatchAll(ticks).degraded then 1 else 0
    ensures Watch(WatchAll(ticks), t).1 != GiveUp
  {
    if ticks != [] {
      GivingUpIsUnreachable(ticks[..|ticks| - 1], t);
    }
  }

  /** Half a minute after the tick before, or there has been none. */
  predicate ComesInTime(ticks: seq<Tick>, t: Tick) {
    ticks == [] || ticks[|ticks| - 1].now == 0 || t.now >= ticks[|ticks| - 1].now + 30_000
  }

  /** There was input while the gate was open, and no callback. */
  predicate LooksDead(t: Tick) {
    t.inputKnown && t.inputElsewhere && t.gateActive && t.callbacks == 0
  }

  /** A reinstall has been tried and has failed. */
  predicate HasFailed(ticks: seq<Tick>) {
    if ticks == [] then false
    else
      var (init, t) := (ticks[..|ticks| - 1], ticks[|ticks| - 1]);
      HasFailed(init) || (ComesInTime(init, t) && LooksDead(t) && !t.reinstallWorks)
  }

  /** After any ticks, one reinstalls the hook exactly when it comes in time, the hook looks dead, and no reinstall has failed. */
  lemma {:induction false} ReinstallIff(ticks: seq<Tick>, t: Tick)
    ensures Watch(WatchAll(ticks), t).1 == Reinstall <==> ComesInTime(ticks, t) && LooksDead(t) && !HasFailed(ticks)
    ensures WatchAll(ticks).degraded <==> HasFailed(ticks)
    ensures WatchAll(ticks).lastTick == if ticks == [] then 0 else ticks[|ticks| - 1].now
  {
    GivingUpIsUnreachable(ticks, t);
    if ticks != [] {
      ReinstallIff(ticks[..|ticks| - 1], ticks[|ticks| - 1]);
    }
  }
}
