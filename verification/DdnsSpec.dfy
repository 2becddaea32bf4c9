/**
 The address publisher of dns/src/ddns.rs: rounds that write a record only when the address
 changed and the record seen in DNS is absent, right already, or this engine's own, and the
 books that pause automatic rounds after three failures.

 The public address, the resolver's answer, the outcome of each provider call and the clock
 are inputs. `Line` holds the state of one address family with the history of what was done
 for it; `Books` holds the failure accounting with the history of the rounds.
 */
module DdnsSpec {
  import opened Bytes

  type Addr = nat

  datatype Mode = Auto | Manual

  /** `None` stands for a record without an address in it. */
  datatype Answer = Unreachable | Records(values: seq<Option<Addr>>)

  datatype Outcome = NoProvider | Unresolved | Conflict | Refused | Written

  /** An address that differed from the one before, and what became of it. */
  datatype Entry = Entry(addr: Addr, answer: Answer, out: Outcome)

  datatype Line = Line(last: Option<Addr>, written: Option<Addr>, published: bool, log: seq<Entry>)

  datatype Family = V4 | V6

  datatype Problem = InvalidIds | PublicIp | Srv | Txt | NotWritten(f: Family, why: Outcome) | NoAddress(f: Family)

  datatype Event = Asked | Round(start: nat, end: nat, clean: bool)

  datatype Books = Books(failures: nat, pausedUntil: Option<nat>, lastError: Option<seq<Problem>>, log: seq<Event>)

  datatype Config = Config(idsValid: bool, hasProvider: bool,
    mode4: Mode, manual4: Option<Addr>, mode6: Mode, manual6: Option<Addr>,
    srv: bool, txt: bool, a: bool, aaaa: bool)

  /** What the world answers during one round. */
  datatype World = World(start: nat, end: nat, fetched: Option<Addr>, detected: Option<Addr>,
    srvWorks: bool, txtWorks: bool, answer4: Answer, works4: bool, answer6: Answer, works6: bool)

  datatype State = State(v4: Line, v6: Line, srv: bool, txt: bool, books: Books)

  const THRESHOLD := 3
  const PAUSE := 30 * 60 * 1000

  // ---- The reverse check ----

  /** The address texts of the records, the others dropped. */
  function Texts(values: seq<Option<Addr>>): (r: seq<Addr>)
    ensures forall x :: x in r <==> Some(x) in values
  {
    if values == [] then []
    else (if values[0].Some? then [values[0].value] else []) + Texts(values[1..])
  }

  /** `None` when the resolver cannot be reached, otherwise whether the write may go ahead. */
  function ReverseCheck(answer: Answer, ip: Addr, written: Option<Addr>): Option<bool> {
    match answer
    case Unreachable => None
    case Records(values) =>
      if values == [] then Some(true)
      else
        var texts := Texts(values);
        if ip in texts then Some(true)
        else Some(written.Some? && exists x :: x in texts && x == written.value)
  }

  /** No record, a record that is right already, or one this engine wrote last. */
  predicate MayWrite(answer: Answer, ip: Addr, written: Option<Addr>) {
    && answer.Records?
    && (answer.values == [] || Some(ip) in answer.values || (written.Some? && written in answer.values))
  }

  lemma ReverseCheckIff(answer: Answer, ip: Addr, written: Option<Addr>)
    ensures ReverseCheck(answer, ip, written) == Some(true) <==> MayWrite(answer, ip, written)
    ensures ReverseCheck(answer, ip, written).None? <==> answer.Unreachable?
  {}

  // ---- One address family in one round ----

  function Judge(answer: Answer, ip: Addr, written: Option<Addr>, hasProvider: bool, works: bool): Outcome {
    if !hasProvider then NoProvider
    else
      match ReverseCheck(answer, ip, written)
      case None => Unresolved
      case Some(may) => if !may then Conflict else if works then Written else Refused
  }

  /** The address is remembered as the last one whatever came of it. */
  function Record(l: Line, e: Entry): Line {
    Line(Some(e.addr),
         if e.out == Written then Some(e.addr) else l.written,
         if e.out == Written then true else if e.out == Refused then false else l.published,
         l.log + [e])
  }

  datatype Part = Part(line: Line, errors: seq<Problem>, succeeded: bool, hard: bool)

  function PublishAddress(l: Line, f: Family, on: bool, hasProvider: bool, mode: Mode, v: Option<Addr>, answer: Answer, works: bool): Part {
    if on && v.Some? then
      if l.last == v then Part(l, [], false, false)
      else
        var out := Judge(answer, v.value, l.written, hasProvider, works);
        Part(Record(l, Entry(v.value, answer, out)), if out == Written then [] else [NotWritten(f, out)], out == Written, false)
    else if on && l.last.None? && mode == Manual then Part(l, [NoAddress(f)], false, true)
    else Part(l, [], false, false)
  }

  // ---- One round ----

  /** A failed fetch falls back on the address of the last round. */
  function Address4(c: Config, l: Line, w: World): Option<Addr> {
    if c.mode4 == Manual then c.manual4 else if w.fetched.Some? then w.fetched else l.last
  }

  function Address6(c: Config, w: World): Option<Addr> {
    if c.mode6 == Manual then c.manual6 else w.detected
  }

  function FetchErrors(c: Config, w: World): seq<Problem> {
    if c.mode4 == Auto && w.fetched.None? then [PublicIp] else []
  }

  function Account(b: Books, errors: seq<Problem>, w: World, pauses: bool): Books {
    if errors == [] then Books(0, b.pausedUntil, None, b.log + [Round(w.start, w.end, true)])
    else
      Books(b.failures + 1,
            if pauses && b.failures + 1 >= THRESHOLD then Some(w.end + PAUSE) else b.pausedUntil,
            Some(errors),
            b.log + [Round(w.start, w.end, false)])
  }

  function Part4(c: Config, l: Line, w: World): Part {
    PublishAddress(l, V4, c.a, c.hasProvider, c.mode4, Address4(c, l, w), w.answer4, w.works4)
  }

  function Part6(c: Config, l: Line, w: World): Part {
    PublishAddress(l, V6, c.aaaa, c.hasProvider, c.mode6, Address6(c, w), w.answer6, w.works6)
  }

  predicate SrvDone(c: Config, w: World) {
    c.srv && c.hasProvider && w.srvWorks
  }

  predicate TxtDone(c: Config, w: World) {
    c.txt && c.hasProvider && w.txtWorks
  }

  function ErrorsOf(c: Config, s: State, w: World): seq<Problem> {
    FetchErrors(c, w)
    + (if c.srv && !SrvDone(c, w) then [Srv] else [])
    + (if c.txt && !TxtDone(c, w) then [Txt] else [])
    + Part4(c, s.v4, w).errors + Part6(c, s.v6, w).errors
  }

  /** The new state and whether the round reports success. */
  function PublishOnce(c: Config, s: State, w: World): (State, bool) {
    if !c.idsValid then (s.(books := Account(s.books, [InvalidIds], w, false)), false)
    else
      var (srvDone, txtDone) := (SrvDone(c, w), TxtDone(c, w));
      var (p4, p6) := (Part4(c, s.v4, w), Part6(c, s.v6, w));
      var errors := ErrorsOf(c, s, w);
      var srv := if c.srv && c.hasProvider then w.srvWorks else s.srv;
      var txt := if c.txt && c.hasProvider then w.txtWorks else s.txt;
      (State(p4.line, p6.line, srv, txt, Account(s.books, errors, w, true)),
       errors == [] || ((srvDone || txtDone || p4.succeeded || p6.succeeded) && !p4.hard && !p6.hard))
  }

  predicate Paused(b: Books, now: nat) {
    b.pausedUntil.Some? && b.pausedUntil.value > now
  }

  function Tick(c: Config, s: State, w: World): State {
    if Paused(s.books, w.start) then s else PublishOnce(c, s, w).0
  }

  /** A manual update forgives the failures and the pause, then publishes. */
  function Forgive(s: State): State {
    s.(books := s.books.(failures := 0, pausedUntil := None, log := s.books.log + [Asked]))
  }

  function UpdateNow(c: Config, s: State, w: World): (State, bool) {
    PublishOnce(c, Forgive(s), w)
  }

  // ---- Runs of the worker ----

  datatype Op = DoTick(w: World) | DoUpdate(w: World)

  function Step(c: Config, s: State, op: Op): State {
    match op
    case DoTick(w) => Tick(c, s, w)
    case DoUpdate(w) => UpdateNow(c, s, w).0
  }

  function Fresh(): State {
    var l := Line(None, None, false, []);
    State(l, l, false, false, Books(0, None, None, []))
  }

  /** The worker publishes once at the start, then follows the commands. */
  function Run(c: Config, first: World, ops: seq<Op>): State {
    if ops == [] then PublishOnce(c, Fresh(), first).0
    else Step(c, Run(c, first, ops[..|ops| - 1]), ops[|ops| - 1])
  }

  function Clock(log: seq<Event>): nat {
    if log == [] then 0
    else
      var e := log[|log| - 1];
      if e.Round? then e.end else Clock(log[..|log| - 1])
  }

  /** Rounds do not overlap and the clock does not go back. */
  predicate InTime(s: State, w: World) {
    Clock(s.books.log) <= w.start <= w.end
  }

  predicate RunInTime(c: Config, first: World, ops: seq<Op>)
    decreases |ops|
  {
    if ops == [] then first.start <= first.end
    else
      var init := ops[..|ops| - 1];
      RunInTime(c, first, init) && InTime(Run(c, first, init), ops[|ops| - 1].w)
  }
}
