/**
 The publishing engine as the object of dns/src/ddns.rs. Every method does exactly the step
 of DdnsSpec on the value of the object.
 */
module DdnsEngine {
  import opened Bytes
  import opened DdnsSpec

  /** The fields for one address family. */
  class AddressRecord {
    var last: Option<Addr>
    var written: Option<Addr>
    var published: bool
    ghost var log: seq<Entry>

    ghost function Value(): Line
      reads this
    {
      Line(last, written, published, log)
    }

    constructor ()
      ensures Value() == Fresh().v4
    {
      last, written, published, log := None, None, false, [];
    }

    method Publish(f: Family, on: bool, hasProvider: bool, mode: Mode, v: Option<Addr>, answer: Answer, works: bool)
      returns (errors: seq<Problem>, succeeded: bool, hard: bool)
      modifies this
      ensures Part(Value(), errors, succeeded, hard) == PublishAddress(old(Value()), f, on, hasProvider, mode, v, answer, works)
    {
      errors, succeeded, hard := [], false, false;
      if on && v.Some? {
        var ip := v.value;
        if last != Some(ip) {
          var out := NoProvider;
          if hasProvider {
            var check := ReverseCheck(answer, ip, written);
            if check == Some(true) {
              if works {
                written := Some(ip);
                published := true;
                succeeded := true;
                out := Written;
              } else {
                published := false;
                out := Refused;
              }
            } else {
              out := if check == Some(false) then Conflict else Unresolved;
            }
          }
          if out != Written {
            errors := [NotWritten(f, out)];
          }
          last := Some(ip);
          log := log + [Entry(ip, answer, out)];
        }
      } else if on && last.None? && mode == Manual {
        errors, hard := [NoAddress(f)], true;
      }
    }
  }

  class Engine {
    const c: Config
    const v4: AddressRecord
    const v6: AddressRecord
    var srv: bool
    var txt: bool
    var failures: nat
    var pausedUntil: Option<nat>
    var lastError: Option<seq<Problem>>
    ghost var rounds: seq<Event>

    ghost predicate Valid() {
      v4 != v6
    }

    ghost function BooksValue(): Books
      reads this
    {
      Books(failures, pausedUntil, lastError, rounds)
    }

    ghost function Value(): State
      reads this, v4, v6
    {
      State(v4.Value(), v6.Value(), srv, txt, BooksValue())
    }

    constructor (c: Config)
      ensures Valid() && this.c == c && Value() == Fresh() && fresh(v4) && fresh(v6)
    {
      this.c := c;
      v4 := new AddressRecord();
      v6 := new AddressRecord();
      srv, txt, failures, pausedUntil, lastError, rounds := false, false, 0, None, None, [];
    }

    method TickNow(w: World)
      requires Valid()
      modifies this, v4, v6
      ensures Value() == Tick(c, old(Value()), w)
    {
      hide PublishOnce;
      if pausedUntil.Some? && pausedUntil.value > w.start {
        return;
      }
      var _ := Publish(w);
    }

    method UpdateOnRequest(w: World) returns (ok: bool)
      requires Valid()
      modifies this, v4, v6
      ensures (Value(), ok) == UpdateNow(c, old(Value()), w)
    {
      hide PublishOnce;
      failures := 0;
      pausedUntil := None;
      rounds := rounds + [Asked];
      ok := Publish(w);
    }

    method Publish(w: World) returns (ok: bool)
      requires Valid()
      modifies this, v4, v6
      ensures (Value(), ok) == PublishOnce(c, old(Value()), w)
    {
      hide Part4, Part6, Account, FetchErrors, SrvDone, TxtDone;
      if !c.idsValid {
        Conclude([InvalidIds], w, false);
        return false;
      }
      ghost var s := Value();
      var fetchErrors, srvErrors, txtErrors, addressErrors;
      var srvDone, txtDone, addressDone, hard;
      fetchErrors := ReportFetch(w);
      srvErrors, srvDone := PublishSrv(w);
      txtErrors, txtDone := PublishTxt(w);
      addressErrors, addressDone, hard := PublishAddresses(w);
      var errors := fetchErrors + srvErrors + txtErrors + addressErrors;
      assert errors == ErrorsOf(c, s, w);
      Conclude(errors, w, true);
      ok := errors == [] || ((srvDone || txtDone || addressDone) && !hard);
    }

    method PublishAddresses(w: World) returns (errors: seq<Problem>, done: bool, hard: bool)
      requires Valid()
      modifies v4, v6
      ensures
        var (p4, p6) := (Part4(c, old(v4.Value()), w), Part6(c, old(v6.Value()), w));
        && v4.Value() == p4.line && v6.Value() == p6.line && errors == p4.errors + p6.errors
        && done == (p4.succeeded || p6.succeeded) && hard == (p4.hard || p6.hard)
    {
      hide Part4, Part6;
      var errors4, done4, hard4 := PublishA(w);
      var errors6, done6, hard6 := PublishAaaa(w);
      errors, done, hard := errors4 + errors6, done4 || done6, hard4 || hard6;
    }

    method PublishA(w: World) returns (errors: seq<Problem>, done: bool, hard: bool)
      modifies v4
      ensures Part(v4.Value(), errors, done, hard) == Part4(c, old(v4.Value()), w)
    {
      hide PublishAddress;
      var ip := if c.mode4 == Manual then c.manual4 else if w.fetched.Some? then w.fetched else v4.last;
      errors, done, hard := v4.Publish(V4, c.a, c.hasProvider, c.mode4, ip, w.answer4, w.works4);
    }

    method PublishAaaa(w: World) returns (errors: seq<Problem>, done: bool, hard: bool)
      modifies v6
      ensures Part(v6.Value(), errors, done, hard) == Part6(c, old(v6.Value()), w)
    {
      hide PublishAddress;
      var ip := if c.mode6 == Manual then c.manual6 else w.detected;
      errors, done, hard := v6.Publish(V6, c.aaaa, c.hasProvider, c.mode6, ip, w.answer6, w.works6);
    }

    method ReportFetch(w: World) returns (errors: seq<Problem>)
      ensures errors == FetchErrors(c, w)
    {
      errors := if c.mode4 == Auto && w.fetched.None? then [PublicIp] else [];
    }

    method PublishSrv(w: World) returns (errors: seq<Problem>, done: bool)
      modifies `srv
      ensures done == SrvDone(c, w) && errors == if c.srv && !done then [Srv] else []
      ensures srv == if c.srv && c.hasProvider then w.srvWorks else old(srv)
    {
      errors, done := [], false;
      if c.srv {
        if c.hasProvider {
          srv, done := w.srvWorks, w.srvWorks;
        }
        errors := if done then [] else [Srv];
      }
    }

    method PublishTxt(w: World) returns (errors: seq<Problem>, done: bool)
      modifies `txt
      ensures done == TxtDone(c, w) && errors == if c.txt && !done then [Txt] else []
      ensures txt == if c.txt && c.hasProvider then w.txtWorks else old(txt)
    {
      errors, done := [], false;
      if c.txt {
        if c.hasProvider {
          txt, done := w.txtWorks, w.txtWorks;
        }
        errors := if done then [] else [Txt];
      }
    }

    /** Failure count, pause and last error at the end of a round. */
    method Conclude(errors: seq<Problem>, w: World, pauses: bool)
      modifies `failures, `pausedUntil, `lastError, `rounds
      ensures BooksValue() == Account(old(BooksValue()), errors, w, pauses)
    {
      if errors == [] {
        failures := 0;
        lastError := None;
      } else {
        failures := failures + 1;
        lastError := Some(errors);
        if pauses && failures >= THRESHOLD {
          pausedUntil := Some(w.end + PAUSE);
        }
      }
      rounds := rounds + [Round(w.start, w.end, errors == [])];
    }
  }
}
