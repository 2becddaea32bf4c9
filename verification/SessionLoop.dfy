/**
 The client's session loop as media/src/session.rs runs it, over mutable state. Each method
 does exactly the step of SessionSpec on the value of the object.
 */
module SessionLoop {
  import opened Bytes
  import opened SessionSpec

  class ClientSession {
    const c: Config
    var now: nat
    var slot: Transport
    var mode: Kind
    var degrading: bool
    var degradeDeadline: Option<nat>
    var transportSwitches: nat
    /** The slot's own record of the last packet. */
    var lastRx: Option<nat>
    var watchdogBaseline: nat
    var channel: seq<Transport>
    var redialing: nat
    var framesDecoded: nat
    var framesDropped: nat
    var end: Option<End>
    ghost var episodeStart: nat
    ghost var episodes: nat
    ghost var redials: nat
    ghost var delivered: seq<Transport>

    ghost function Value(): State
      reads this
    {
      State(now, slot, mode, degrading, degradeDeadline, episodeStart, episodes, redials, redialing, channel,
            transportSwitches, delivered, lastRx, watchdogBaseline, framesDecoded, framesDropped, end)
    }

    constructor (c: Config, now: nat, slot: Transport)
      ensures this.c == c && Value() == Init(now, slot)
    {
      this.c, this.now, this.slot, mode := c, now, slot, slot.kind;
      degrading, degradeDeadline, transportSwitches := false, None, 0;
      lastRx, watchdogBaseline, channel, redialing := None, now, [], 0;
      framesDecoded, framesDropped, end := 0, 0, None;
      episodeStart, episodes, redials, delivered := 0, 0, 0, [];
    }

    /** One pass of the loop; the session is over when `end` is set. */
    method OnePass(p: Pass)
      requires Possible(c, Value(), p)
      modifies this
      ensures Value() == Loop(c, old(Value()), p)
    {
      hide Woken, Waited, Possible;
      if p.stop {
        end := Some(Stopped);
        return;
      }
      if mode == Quic && c.degradeEnabled && !p.alive && !degrading {
        TriggerDegrade();
        return;
      }
      if degrading {
        if degradeDeadline.Some? && now >= degradeDeadline.value {
          end := Some(DegradeTimedOut);
          return;
        }
        WaitForSwap(p);
        return;
      }
      Receive(p);
    }

    method TriggerDegrade()
      modifies this
      ensures Value() == Trigger(c, old(Value()))
    {
      if degrading {
        return;
      }
      degrading := true;
      degradeDeadline := Some(now + (c.connectTimeout + GRACE));
      redialing := redialing + 1;
      episodeStart, episodes, redials := now, episodes + 1, redials + 1;
    }

    method WaitForSwap(p: Pass)
      modifies this
      ensures Value() == Waited(old(Value()), p)
    {
      hide TakeFromChannel;
      now := now + p.wait;
      if channel != [] {
        TakeSwap();
        degrading := false;
      }
    }

    method TakeSwap()
      requires channel != []
      modifies this
      ensures Value() == TakeFromChannel(old(Value()))
    {
      hide ApplySwap;
      var t := channel[0];
      channel := channel[1..];
      SwapIn(t);
    }

    method SwapIn(t: Transport)
      modifies this
      ensures Value() == ApplySwap(old(Value()), t)
    {
      delivered := delivered + [t];
      if !t.splits {
        return;
      }
      slot := t;
      mode := slot.kind;
      transportSwitches := transportSwitches + 1;
      lastRx := None;
    }

    method Receive(p: Pass)
      modifies this
      ensures Value() == Woken(c, old(Value()), p)
    {
      hide React;
      var lastHeard := if lastRx.Some? then lastRx.value else watchdogBaseline;
      watchdogBaseline := lastHeard;
      now := now + p.wait;
      lastRx := p.heard;
      ReactTo(p.wake);
    }

    method ReactTo(wake: Wake)
      modifies this
      ensures Value() == React(c, old(Value()), wake)
    {
      hide Trigger, TakeFromChannel;
      match wake {
        case Frame(n) => framesDecoded := framesDecoded + n;
        case BadFrame => framesDropped := framesDropped + 1;
        case ReceiveTimeout =>
        case ConnectionError =>
          if mode == Quic && c.degradeEnabled {
            TriggerDegrade();
          } else {
            end := Some(ReceiveFailed);
          }
        case OtherError => end := Some(ReceiveFailed);
        case Timer =>
          var heard := if lastRx.Some? then lastRx.value else watchdogBaseline;
          if now - heard >= IDLE_TIMEOUT {
            end := Some(IdleTooLong);
          }
        case SwapCame =>
          if channel != [] {
            TakeSwap();
          }
      }
    }
  }
}
