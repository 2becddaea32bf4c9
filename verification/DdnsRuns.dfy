/**
 What holds in every run of the address publisher: writes are guarded, the books add up, and
 failing rounds are spaced.
 */
module DdnsRuns {
  import opened Bytes
  import opened DdnsSpec

  // ---- What the history says ----

  predicate IsAttempt(e: Entry) {
    e.out == Written || e.out == Refused
  }

  /** The address of the last successful write. */
  function LastWrite(log: seq<Entry>): Option<Addr> {
    if log == [] then None
    else
      var e := log[|log| - 1];
      if e.out == Written then Some(e.addr) else LastWrite(log[..|log| - 1])
  }

  /** The last call of the provider. */
  function LastAttempt(log: seq<Entry>): Option<Entry> {
    if log == [] then None
    else
      var e := log[|log| - 1];
      if IsAttempt(e) then Some(e) else LastAttempt(log[..|log| - 1])
  }

  /** Each outcome is the right one for the answer and the engine's own last write before it. */
  predicate RightOutcome(e: Entry, before: seq<Entry>, hasProvider: bool) {
    && (IsAttempt(e) <==> hasProvider && MayWrite(e.answer, e.addr, LastWrite(before)))
    && (e.out == Conflict <==> hasProvider && e.answer.Records? && !MayWrite(e.answer, e.addr, LastWrite(before)))
  }

  ghost predicate OutcomesAreRight(log: seq<Entry>, hasProvider: bool) {
    forall k :: 0 <= k < |log| ==> RightOutcome(log[k], log[..k], hasProvider)
  }

  ghost predicate Alternates(log: seq<Entry>) {
    forall k, m :: 0 <= k && m == k + 1 && m < |log| ==> log[k].addr != log[m].addr
  }

  ghost predicate LineInv(l: Line, hasProvider: bool) {
    && l.last == (if l.log == [] then None else Some(l.log[|l.log| - 1].addr))
    && l.written == LastWrite(l.log)
    && (l.published <==> LastAttempt(l.log).Some? && LastAttempt(l.log).value.out == Written)
    && OutcomesAreRight(l.log, hasProvider)
    && Alternates(l.log)
  }

  lemma AppendKeepsOutcomes(log: seq<Entry>, e: Entry, hasProvider: bool)
    requires OutcomesAreRight(log, hasProvider) && RightOutcome(e, log, hasProvider)
    ensures OutcomesAreRight(log + [e], hasProvider)
  {
    hide RightOutcome;
    var r := log + [e];
    forall k | 0 <= k < |r| ensures RightOutcome(r[k], r[..k], hasProvider) {
      if k < |log| {
        assert r[..k] == log[..k];
      } else {
        assert r[..k] == log;
      }
    }
  }

  lemma RecordKeepsInv(l: Line, e: Entry, hasProvider: bool)
    requires LineInv(l, hasProvider) && l.last != Some(e.addr)
    requires RightOutcome(e, l.log, hasProvider)
    ensures LineInv(Record(l, e), hasProvider)
  {
    hide RightOutcome, OutcomesAreRight;
    AppendKeepsOutcomes(l.log, e, hasProvider);
    assert (l.log + [e])[..|l.log|] == l.log;
  }

  lemma JudgeIsRight(l: Line, ip: Addr, answer: Answer, hasProvider: bool, works: bool)
    requires LineInv(l, hasProvider)
    ensures RightOutcome(Entry(ip, answer, Judge(answer, ip, l.written, hasProvider, works)), l.log, hasProvider)
  {
    ReverseCheckIff(answer, ip, l.written);
  }

  lemma PublishAddressKeepsInv(l: Line, f: Family, on: bool, hasProvider: bool, mode: Mode, v: Option<Addr>, answer: Answer, works: bool)
    requires LineInv(l, hasProvider)
    ensures LineInv(PublishAddress(l, f, on, hasProvider, mode, v, answer, works).line, hasProvider)
  {
    hide LineInv, RightOutcome, Judge, Record;
    if on && v.Some? && l.last != v {
      var e := Entry(v.value, answer, Judge(answer, v.value, l.written, hasProvider, works));
      JudgeIsRight(l, v.value, answer, hasProvider, works);
      RecordKeepsInv(l, e, hasProvider);
    }
  }

  // ---- The books ----

  /** Failing rounds since the last clean round or manual update. */
  function Streak(log: seq<Event>): nat {
    if log == [] then 0
    else
      var e := log[|log| - 1];
      if e.Asked? || e.clean then 0 else 1 + Streak(log[..|log| - 1])
  }

  ghost predicate BooksInv(b: Books, idsValid: bool) {
    && b.failures == Streak(b.log)
    && (!idsValid ==> b.pausedUntil.None?)
    && (idsValid && b.failures >= THRESHOLD ==> b.pausedUntil == Some(Clock(b.log) + PAUSE))
    && (b.failures < THRESHOLD && b.pausedUntil.Some? ==> b.pausedUntil.value <= Clock(b.log))
    && (idsValid ==> Spaced(b.log))
  }

  /** From the third failure in a row on, the next round starts half an hour later at the earliest. */
  ghost predicate Spaced(log: seq<Event>) {
    forall k, m :: 0 <= k && m == k + 1 && m < |log| && log[k].Round? && log[m].Round? && Streak(log[..m]) >= THRESHOLD ==>
      log[m].start >= log[k].end + PAUSE
  }

  lemma AppendKeepsSpaced(log: seq<Event>, e: Event)
    requires Spaced(log)
    requires e.Round? && Streak(log) >= THRESHOLD ==> e.start >= Clock(log) + PAUSE
    ensures Spaced(log + [e])
  {
    hide Streak;
    var r := log + [e];
    forall k, m | 0 <= k && m == k + 1 && m < |r| && r[k].Round? && r[m].Round? && Streak(r[..m]) >= THRESHOLD
      ensures r[m].start >= r[k].end + PAUSE
    {
      if m < |log| {
        assert r[..m] == log[..m];
      } else {
        assert r[..m] == log;
      }
    }
  }

  lemma AccountKeepsBooks(b: Books, errors: seq<Problem>, w: World, idsValid: bool)
    requires BooksInv(b, idsValid) && Clock(b.log) <= w.start <= w.end && !Paused(b, w.start)
    requires !idsValid ==> errors != []
    ensures BooksInv(Account(b, errors, w, idsValid), idsValid)
    ensures Clock(Account(b, errors, w, idsValid).log) == w.end
  {
    hide Spaced;
    var e := Round(w.start, w.end, errors == []);
    assert (b.log + [e])[..|b.log|] == b.log;
    if idsValid {
      AppendKeepsSpaced(b.log, e);
    }
  }

  lemma ForgiveKeepsBooks(s: State, idsValid: bool)
    requires BooksInv(s.books, idsValid)
    ensures BooksInv(Forgive(s).books, idsValid)
    ensures Clock(Forgive(s).books.log) == Clock(s.books.log)
  {
    hide Spaced;
    var log := s.books.log;
    assert (log + [Asked])[..|log|] == log;
    if idsValid {
      AppendKeepsSpaced(log, Asked);
    }
  }

  ghost predicate Inv(c: Config, s: State) {
    && LineInv(s.v4, c.hasProvider)
    && LineInv(s.v6, c.hasProvider)
    && BooksInv(s.books, c.idsValid)
  }

  lemma PublishOnceKeepsInv(c: Config, s: State, w: World)
    requires Inv(c, s) && InTime(s, w) && !Paused(s.books, w.start)
    ensures Inv(c, PublishOnce(c, s, w).0)
  {
    hide LineInv, BooksInv, Account, PublishAddress, Clock;
    var t := PublishOnce(c, s, w).0;
    if c.idsValid {
      PublishAddressKeepsInv(s.v4, V4, c.a, c.hasProvider, c.mode4, Address4(c, s.v4, w), w.answer4, w.works4);
      PublishAddressKeepsInv(s.v6, V6, c.aaaa, c.hasProvider, c.mode6, Address6(c, w), w.answer6, w.works6);
      AccountKeepsBooks(s.books, ErrorsOf(c, s, w), w, true);
    } else {
      AccountKeepsBooks(s.books, [InvalidIds], w, false);
    }
  }

  lemma StepKeepsInv(c: Config, s: State, op: Op)
    requires Inv(c, s) && InTime(s, op.w)
    ensures Inv(c, Step(c, s, op))
  {
    hide LineInv, BooksInv, PublishOnce, Clock;
    match op
    case DoTick(w) =>
      if !Paused(s.books, w.start) {
        PublishOnceKeepsInv(c, s, w);
      }
    case DoUpdate(w) =>
      ForgiveKeepsBooks(s, c.idsValid);
      PublishOnceKeepsInv(c, Forgive(s), w);
  }

  lemma {:induction false} RunKeepsInv(c: Config, first: World, ops: seq<Op>)
    requires RunInTime(c, first, ops)
    ensures Inv(c, Run(c, first, ops))
    decreases |ops|
  {
    hide Step, PublishOnce, Inv;
    if ops == [] {
      FreshHasInv(c);
      PublishOnceKeepsInv(c, Fresh(), first);
    } else {
      var init := ops[..|ops| - 1];
      RunKeepsInv(c, first, init);
      StepKeepsInv(c, Run(c, first, init), ops[|ops| - 1]);
    }
  }

  lemma FreshHasInv(c: Config)
    ensures Inv(c, Fresh())
  {
  }

  // ---- What every run keeps ----

  function LineOf(s: State, f: Family): Line {
    if f == V4 then s.v4 else s.v6
  }

  /** The provider is called exactly when the guard allows it, given what was written before. */
  lemma {:induction false} WritesAreGuarded(c: Config, first: World, ops: seq<Op>, f: Family, k: nat)
    requires RunInTime(c, first, ops) && k < |LineOf(Run(c, first, ops), f).log|
    ensures
      var log := LineOf(Run(c, first, ops), f).log;
      IsAttempt(log[k]) <==> c.hasProvider && MayWrite(log[k].answer, log[k].addr, LastWrite(log[..k]))
  {
    hide MayWrite, LastWrite, Run, BooksInv;
    RunKeepsInv(c, first, ops);
  }

  /** Conflicts are refused: with no address of ours or the new one in a non-empty answer, nothing is written. */
  lemma OthersRecordsAreKept(c: Config, first: World, ops: seq<Op>, f: Family, k: nat)
    requires RunInTime(c, first, ops) && k < |LineOf(Run(c, first, ops), f).log|
    requires
      var log := LineOf(Run(c, first, ops), f).log;
      && log[k].answer.Records? && log[k].answer.values != []
      && Some(log[k].addr) !in log[k].answer.values
      && (LastWrite(log[..k]).Some? ==> LastWrite(log[..k]) !in log[k].answer.values)
    ensures !IsAttempt(LineOf(Run(c, first, ops), f).log[k])
  {
    hide LastWrite, Run;
    WritesAreGuarded(c, first, ops, f, k);
  }

  /** What the engine believes to have written, and what it shows as published. */
  lemma {:induction false} BeliefsAreRight(c: Config, first: World, ops: seq<Op>, f: Family)
    requires RunInTime(c, first, ops)
    ensures
      var l := LineOf(Run(c, first, ops), f);
      && l.written == LastWrite(l.log)
      && (l.published <==> LastAttempt(l.log).Some? && LastAttempt(l.log).value.out == Written)
  {
    hide LastWrite, LastAttempt, Run, BooksInv;
    RunKeepsInv(c, first, ops);
  }

  /** No address is looked at twice in a row. */
  lemma AddressesAlternate(c: Config, first: World, ops: seq<Op>, f: Family, k: nat)
    requires RunInTime(c, first, ops) && k + 1 < |LineOf(Run(c, first, ops), f).log|
    ensures LineOf(Run(c, first, ops), f).log[k].addr != LineOf(Run(c, first, ops), f).log[k + 1].addr
  {
    hide RightOutcome, Run, BooksInv;
    RunKeepsInv(c, first, ops);
  }

  /** This step calls the provider with the address of the call before. */
  ghost predicate RepeatsNext(c: Config, s: State, f: Family, op: Op) {
    var (l, t) := (LineOf(s, f), LineOf(Step(c, s, op), f));
    && InTime(s, op.w) && |t.log| == |l.log| + 1 && IsAttempt(t.log[|l.log|])
    && LastAttempt(l.log).Some? && LastAttempt(l.log).value.addr == t.log[|l.log|].addr
  }

  /** The family is published at the address found. */
  predicate Follows(c: Config, f: Family) {
    && c.idsValid && c.hasProvider
    && if f == V4 then c.a && c.mode4 == Auto else c.aaaa && c.mode6 == Auto
  }

  /**
   After any run the provider can next be called with the address of the call before exactly
   when the address last looked at is another one, that is, when it was skipped.
   */
  lemma RepeatIsPossibleIff(c: Config, first: World, ops: seq<Op>, f: Family)
    requires RunInTime(c, first, ops) && Follows(c, f)
    ensures
      var s := Run(c, first, ops);
      var (before, last) := (LastAttempt(LineOf(s, f).log), LineOf(s, f).last);
      (exists op :: RepeatsNext(c, s, f, op)) <==> before.Some? && Some(before.value.addr) != last
  {
    hide Run, RunInTime, LastAttempt, RepeatsNext;
    var s := Run(c, first, ops);
    var before := LastAttempt(LineOf(s, f).log);
    if op :| RepeatsNext(c, s, f, op) {
      RepeatNeedsAnother(c, s, f, op);
    }
    if before.Some? && Some(before.value.addr) != LineOf(s, f).last {
      var op := RepeatAgain(c, s, f);
    }
  }

  lemma RepeatNeedsAnother(c: Config, s: State, f: Family, op: Op)
    requires RepeatsNext(c, s, f, op)
    ensures
      var before := LastAttempt(LineOf(s, f).log);
      before.Some? && Some(before.value.addr) != LineOf(s, f).last
  {
    hide LastAttempt, Judge, Account, ErrorsOf;
  }

  /** Such a step: a manual update that finds that address, and nothing in DNS. */
  lemma RepeatAgain(c: Config, s: State, f: Family) returns (op: Op)
    requires Follows(c, f) && LastAttempt(LineOf(s, f).log).Some?
    requires Some(LastAttempt(LineOf(s, f).log).value.addr) != LineOf(s, f).last
    ensures RepeatsNext(c, s, f, op)
  {
    hide LastAttempt, Account, ErrorsOf;
    var (ip, now) := (Some(LastAttempt(LineOf(s, f).log).value.addr), Clock(s.books.log));
    op := DoUpdate(World(now, now, ip, ip, true, true, Records([]), true, Records([]), true));
    assert Judge(Records([]), ip.value, LineOf(s, f).written, true, true) == Written;
  }

  const ONLY_A := Config(true, true, Auto, None, Auto, None, false, false, true, false)

  /** A round at `now` that finds the address `ip` and this answer in DNS. */
  function Finds(now: nat, ip: Addr, answer: Answer): World {
    World(now, now, Some(ip), None, true, true, answer, true, Records([]), true)
  }

  /** Address 1 is written, 2 meets somebody else's record, 1 comes back and is written again. */
  lemma SameAddressCanBeWrittenTwice()
    ensures
      var (first, ops) := (Finds(0, 1, Records([])), [DoTick(Finds(1, 2, Records([Some(9)]))), DoTick(Finds(2, 1, Records([])))]);
      && RunInTime(ONLY_A, first, ops)
      && Run(ONLY_A, first, ops).v4.log
         == [Entry(1, Records([]), Written), Entry(2, Records([Some(9)]), Conflict), Entry(1, Records([]), Written)]
  {
    var (w1, w2, w3) := (Finds(0, 1, Records([])), Finds(1, 2, Records([Some(9)])), Finds(2, 1, Records([])));
    var ops := [DoTick(w2), DoTick(w3)];
    assert ops[..1] == [DoTick(w2)] && ops[..1][..0] == [];
    var s1 := PublishOnce(ONLY_A, Fresh(), w1).0;
    assert s1.v4 == Line(Some(1), Some(1), true, [Entry(1, Records([]), Written)]);
    assert s1.books == Books(0, None, None, [Round(0, 0, true)]);
    assert Texts([Some(9)]) == [9];
    var s2 := Tick(ONLY_A, s1, w2);
    assert s2.v4 == Line(Some(2), Some(1), true, [Entry(1, Records([]), Written), Entry(2, Records([Some(9)]), Conflict)]);
    assert s2.books.log == [Round(0, 0, true), Round(1, 1, false)] && s2.books.pausedUntil.None?;
    var s3 := Tick(ONLY_A, s2, w3);
    assert s3.v4.log == s2.v4.log + [Entry(1, Records([]), Written)];
    assert Run(ONLY_A, w1, []) == s1 && Run(ONLY_A, w1, ops[..1]) == s2 && Run(ONLY_A, w1, ops) == s3;
  }

  /** The address a round looks at for one family, when the line is `l`. */
  function AddressOf(c: Config, f: Family, l: Line, w: World): Option<Addr> {
    if f == V4 then Address4(c, l, w) else Address6(c, w)
  }

  /** While the address stays the same nothing is tried again, whatever became of the last try. */
  lemma {:induction false} SameAddressIsLeftAlone(c: Config, s: State, f: Family, ops: seq<Op>)
    requires LineOf(s, f).last.Some?
    requires forall k :: 0 <= k < |ops| ==> AddressOf(c, f, LineOf(s, f), ops[k].w) in {None, LineOf(s, f).last}
    ensures LineOf(RunFrom(c, s, ops), f) == LineOf(s, f)
  {
    hide Address4, Address6, Account, ErrorsOf, PublishAddress;
    if ops != [] {
      var init := ops[..|ops| - 1];
      assert forall k :: 0 <= k < |init| ==> init[k] == ops[k];
      SameAddressIsLeftAlone(c, s, f, init);
      SameAddressInOneRound(c, RunFrom(c, s, init), f, ops[|ops| - 1]);
    }
  }

  lemma SameAddressInOneRound(c: Config, s: State, f: Family, op: Op)
    requires LineOf(s, f).last.Some? && AddressOf(c, f, LineOf(s, f), op.w) in {None, LineOf(s, f).last}
    ensures LineOf(Step(c, s, op), f) == LineOf(s, f)
  {
    hide Address4, Address6, Account, ErrorsOf, Judge, Record;
  }

  function RunFrom(c: Config, s: State, ops: seq<Op>): State {
    if ops == [] then s else Step(c, RunFrom(c, s, ops[..|ops| - 1]), ops[|ops| - 1])
  }

  /**
   A round that meets the address of the round before is clean exactly when everything but
   that address is well: what became of the last write does not matter.
   */
  lemma FailureIsForgottenIff(c: Config, s: State, w: World)
    requires c.idsValid && c.a && s.v4.last.Some? && Address4(c, s.v4, w) == s.v4.last && !Paused(s.books, w.start)
    ensures
      var t := Tick(c, s, w);
      && t.v4 == s.v4
      && (t.books.failures == 0 <==>
            && (c.mode4 == Auto ==> w.fetched.Some?)
            && (c.srv ==> SrvDone(c, w)) && (c.txt ==> TxtDone(c, w))
            && Part6(c, s.v6, w).errors == [])
  {
    hide Part6, SrvDone, TxtDone;
  }

  /** The count is the number of failing rounds since the last clean one or manual update. */
  lemma {:induction false} FailuresAreTheStreak(c: Config, first: World, ops: seq<Op>)
    requires RunInTime(c, first, ops)
    ensures Run(c, first, ops).books.failures == Streak(Run(c, first, ops).books.log)
  {
    hide Streak, Run, LineInv;
    RunKeepsInv(c, first, ops);
  }

  /** Automatic rounds are on hold exactly for half an hour after a third or later failure in a row; never with invalid ids. */
  lemma PausedIff(c: Config, first: World, ops: seq<Op>, now: nat)
    requires RunInTime(c, first, ops) && now >= Clock(Run(c, first, ops).books.log)
    ensures
      var b := Run(c, first, ops).books;
      Paused(b, now) <==> c.idsValid && Streak(b.log) >= 3 && now < Clock(b.log) + 1_800_000
  {
    hide Streak, Run, LineInv, Clock;
    RunKeepsInv(c, first, ops);
  }

  lemma FailingRoundsAreSpaced(c: Config, first: World, ops: seq<Op>, k: nat)
    requires RunInTime(c, first, ops) && c.idsValid
    requires
      var log := Run(c, first, ops).books.log;
      k + 1 < |log| && log[k].Round? && log[k + 1].Round? && Streak(log[..k + 1]) >= 3
    ensures Run(c, first, ops).books.log[k + 1].start >= Run(c, first, ops).books.log[k].end + 1_800_000
  {
    hide Streak, Run, LineInv, Clock;
    RunKeepsInv(c, first, ops);
  }

  /** A tick runs a round exactly when it is not paused; a manual update always does, and forgives first. */
  lemma RoundsHappenIff(c: Config, s: State, w: World)
    ensures Paused(s.books, w.start) ==> Tick(c, s, w) == s
    ensures !Paused(s.books, w.start) ==> |Tick(c, s, w).books.log| == |s.books.log| + 1
    ensures
      var t := UpdateNow(c, s, w).0;
      && |t.books.log| == |s.books.log| + 2
      && t.books.failures == (if ErrorsOf(c, Forgive(s), w) == [] && c.idsValid then 0 else 1)
      && !Paused(t.books, w.end)
  {
    hide Part4, Part6;
  }

  /** A round that reports failure either wrote no record at all or lacks a manual address. */
  lemma FailureReportIsHonest(c: Config, s: State, w: World)
    requires c.idsValid && !PublishOnce(c, s, w).1
    requires c.mode4 == Manual ==> c.manual4.Some?
    requires c.mode6 == Manual ==> c.manual6.Some?
    ensures !SrvDone(c, w) && !TxtDone(c, w)
    ensures Quiet(s.v4, PublishOnce(c, s, w).0.v4) && Quiet(s.v6, PublishOnce(c, s, w).0.v6)
    ensures PublishOnce(c, s, w).0.books.failures == s.books.failures + 1
  {
    hide Judge;
  }

  /** Nothing was written between the two. */
  predicate Quiet(l: Line, m: Line) {
    m == l || (|m.log| == |l.log| + 1 && m.log[..|l.log|] == l.log && m.log[|l.log|].out != Written)
  }

  /** Manual mode without an address: no run ever looks at an address, and every round fails. */
  lemma {:induction false} MissingAddressFailsEveryRound(c: Config, first: World, ops: seq<Op>)
    requires c.idsValid && c.a && c.mode4 == Manual && c.manual4.None?
    ensures
      var t := Run(c, first, ops);
      && t.v4 == Fresh().v4
      && forall k :: 0 <= k < |t.books.log| ==> t.books.log[k].Round? ==> !t.books.log[k].clean
  {
    hide Part6, FetchErrors, SrvDone, TxtDone;
    if ops != [] {
      MissingAddressFailsEveryRound(c, first, ops[..|ops| - 1]);
    }
  }

  /**
   A published line moved to a new address still shows as published, with another address
   than the one written, exactly when the reverse check stops the write.
   */
  lemma PreviewGoesStaleIff(l: Line, f: Family, ip: Addr, answer: Answer, works: bool)
    requires LineInv(l, true) && l.published && l.last != Some(ip) && l.written != Some(ip)
    ensures
      var t := PublishAddress(l, f, true, true, Auto, Some(ip), answer, works).line;
      t.published && t.written != t.last <==> !MayWrite(answer, ip, l.written)
  {
    hide LineInv, MayWrite;
    ReverseCheckIff(answer, ip, l.written);
  }

  // ---- What three failures in a row are ----

  /** What a run does for A: a manual update, or a round that saw a new address or not, and wrote it or not. */
  datatype Note = Update | Look(moved: bool, wrote: bool)

  /** The round between two states of the line. */
  function LookBetween(l: Line, m: Line): Note {
    Look(|m.log| > |l.log|, |m.log| > |l.log| && m.log[|m.log| - 1].out == Written)
  }

  function NotesOf(c: Config, s: State, op: Op): seq<Note> {
    match op
    case DoTick(w) => if Paused(s.books, w.start) then [] else [LookBetween(s.v4, Tick(c, s, w).v4)]
    case DoUpdate(w) => [Update, LookBetween(s.v4, UpdateNow(c, s, w).0.v4)]
  }

  function History(c: Config, first: World, ops: seq<Op>): seq<Note> {
    if ops == [] then [LookBetween(Fresh().v4, Run(c, first, ops).v4)]
    else
      var init := ops[..|ops| - 1];
      History(c, first, init) + NotesOf(c, Run(c, first, init), ops[|ops| - 1])
  }

  /** A new address that was not written. */
  predicate Missed(n: Note) {
    n.Look? && n.moved && !n.wrote
  }

  ghost predicate Tells(h: seq<Note>, log: seq<Event>) {
    && |h| == |log|
    && forall k :: 0 <= k < |h| ==> (Missed(h[k]) <==> log[k].Round? && !log[k].clean)
  }

  /** Only the A record is kept, at the public address, and the address is always found. */
  predicate OnlyA(c: Config) {
    c.idsValid && c.a && c.mode4 == Auto && !c.srv && !c.txt && !c.aaaa
  }

  lemma RoundTells(c: Config, s: State, w: World)
    requires OnlyA(c) && w.fetched.Some?
    ensures
      var t := PublishOnce(c, s, w).0;
      && |t.books.log| == |s.books.log| + 1 && t.books.log[..|s.books.log|] == s.books.log
      && (Missed(LookBetween(s.v4, t.v4)) <==> !t.books.log[|s.books.log|].clean)
      && t.books.log[|s.books.log|].Round?
  {
    hide Judge;
  }

  lemma StepTells(c: Config, s: State, op: Op, h: seq<Note>)
    requires OnlyA(c) && op.w.fetched.Some? && Tells(h, s.books.log)
    ensures Tells(h + NotesOf(c, s, op), Step(c, s, op).books.log)
  {
    hide PublishOnce, LookBetween, Missed;
    match op
    case DoTick(w) =>
      if Paused(s.books, w.start) {
        assert h + [] == h;
      } else {
        RoundTells(c, s, w);
      }
    case DoUpdate(w) =>
      RoundTells(c, Forgive(s), w);
      UpdateIsNoMiss();
  }

  lemma UpdateIsNoMiss()
    ensures !Missed(Update)
  {
  }

  lemma {:induction false} HistoryTells(c: Config, first: World, ops: seq<Op>)
    requires OnlyA(c) && first.fetched.Some? && forall op :: op in ops ==> op.w.fetched.Some?
    ensures Tells(History(c, first, ops), Run(c, first, ops).books.log)
  {
    hide Step, NotesOf, PublishOnce;
    if ops == [] {
      RoundTells(c, Fresh(), first);
    } else {
      var init := ops[..|ops| - 1];
      assert forall op :: op in init ==> op in ops;
      HistoryTells(c, first, init);
      StepTells(c, Run(c, first, init), ops[|ops| - 1], History(c, first, init));
    }
  }

  lemma {:induction false} LongStreak(log: seq<Event>, n: nat)
    ensures Streak(log) >= n <==> |log| >= n && forall k :: |log| - n <= k < |log| ==> log[k].Round? && !log[k].clean
  {
    if n > 0 && log != [] {
      var init := log[..|log| - 1];
      LongStreak(init, n - 1);
      assert forall k :: 0 <= k < |init| ==> init[k] == log[k];
    }
  }

  /**
   With only the A record kept and its address always found, automatic rounds are on hold
   exactly while the half hour runs after three rounds in a row that each saw a new address
   and failed to write it.
   */
  lemma PauseNeedsThreeNewAddresses(c: Config, first: World, ops: seq<Op>, now: nat)
    requires RunInTime(c, first, ops) && now >= Clock(Run(c, first, ops).books.log)
    requires OnlyA(c) && first.fetched.Some? && forall op :: op in ops ==> op.w.fetched.Some?
    ensures
      var (h, b) := (History(c, first, ops), Run(c, first, ops).books);
      Paused(b, now) <==>
        && |h| >= 3 && (forall k :: |h| - 3 <= k < |h| ==> Missed(h[k]))
        && now < Clock(b.log) + 1_800_000
  {
    hide Run, History, Missed, Streak, Clock, Paused, RunInTime;
    PausedIff(c, first, ops, now);
    HistoryTells(c, first, ops);
    LongStreak(Run(c, first, ops).books.log, 3);
  }

  /** A single address that can never be written never brings a pause about. */
  lemma {:induction false} StuckAddressNeverPauses(c: Config, first: World, ops: seq<Op>, ip: Addr)
    requires OnlyA(c) && first.fetched == Some(ip) && forall op :: op in ops ==> op.w.fetched == Some(ip)
    ensures
      var s := Run(c, first, ops);
      s.v4.last == Some(ip) && s.books.failures <= 1 && s.books.pausedUntil.None?
  {
    hide Judge;
    if ops != [] {
      var init := ops[..|ops| - 1];
      assert forall op :: op in init ==> op in ops;
      StuckAddressNeverPauses(c, first, init, ip);
      assert ops[|ops| - 1] in ops;
    }
  }

  // ---- What a round reports and shows ----

  /** A record was written between the two. */
  predicate Wrote(l: Line, m: Line) {
    |m.log| > |l.log| && m.log[|m.log| - 1].out == Written
  }

  /**
   An address that is published and new is written exactly when there is a provider, the
   record may be written, and the provider's call works; then, and only then, it is the one
   written last. It is remembered in any case.
   */
  lemma AddressIsWrittenIff(l: Line, f: Family, mode: Mode, hasProvider: bool, ip: Addr, answer: Answer, works: bool)
    requires l.last != Some(ip)
    ensures
      var p := PublishAddress(l, f, true, hasProvider, mode, Some(ip), answer, works);
      && p.line.last == Some(ip)
      && (Wrote(l, p.line) <==> hasProvider && works && MayWrite(answer, ip, l.written))
      && p.line.written == (if Wrote(l, p.line) then Some(ip) else l.written)
      && (p.errors == [] <==> Wrote(l, p.line))
  {
    hide MayWrite;
    ReverseCheckIff(answer, ip, l.written);
  }

  /** A family that is to be published by hand and has never had an address. */
  predicate LacksAddress(c: Config, s: State) {
    || (c.a && c.mode4 == Manual && c.manual4.None? && s.v4.last.None?)
    || (c.aaaa && c.mode6 == Manual && c.manual6.None? && s.v6.last.None?)
  }

  /** A round reports success exactly when nothing failed, or something went out and no manual address is missing. */
  lemma ReportIff(c: Config, s: State, w: World)
    ensures
      var (t, ok) := PublishOnce(c, s, w);
      ok <==>
        && c.idsValid
        && (t.books.lastError.None?
            || ((SrvDone(c, w) || TxtDone(c, w) || Wrote(s.v4, t.v4) || Wrote(s.v6, t.v6)) && !LacksAddress(c, s)))
  {
    hide Judge;
  }

  /** The world of the last round that took place. */
  function LastWorld(c: Config, first: World, ops: seq<Op>): World {
    if ops == [] then first
    else
      var (init, op) := (ops[..|ops| - 1], ops[|ops| - 1]);
      if op.DoTick? && Paused(Run(c, first, init).books, op.w.start) then LastWorld(c, first, init) else op.w
  }

  /** After any run SRV and TXT are shown as published exactly when the last round published them. */
  lemma {:induction false} ShownIff(c: Config, first: World, ops: seq<Op>)
    ensures
      var (s, w) := (Run(c, first, ops), LastWorld(c, first, ops));
      && (s.srv <==> c.idsValid && c.srv && c.hasProvider && w.srvWorks)
      && (s.txt <==> c.idsValid && c.txt && c.hasProvider && w.txtWorks)
  {
    hide Part4, Part6, Account, ErrorsOf;
    if ops != [] {
      ShownIff(c, first, ops[..|ops| - 1]);
    }
  }
}
