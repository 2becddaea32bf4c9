/** What the resolver returns, stated without its loop, and what its cache holds after any run. */
module ResolverRuns {
  import opened Bytes
  import opened Numbers
  import opened DnsName
  import opened ResolverSpec

  // ---- The first endpoint that answers in time ----

  /** Time used up by the endpoints before `i` when none of them answers. */
  function SpentBefore(attempts: seq<Attempt>, i: nat, per: nat): (t: nat)
    requires i <= |attempts|
    ensures t <= TOTAL
  {
    if i == 0 then 0
    else
      var t := SpentBefore(attempts, i - 1, per);
      t + Min(attempts[i - 1].took, Cap(t, per))
  }

  /** Endpoint `i` answers within its own limit and what is left of the total. */
  predicate Answers(attempts: seq<Attempt>, i: nat, per: nat)
    requires i < |attempts|
  {
    var t := SpentBefore(attempts, i, per);
    t < TOTAL && attempts[i].answer.Some? && attempts[i].took <= per && t + attempts[i].took <= TOTAL
  }

  ghost predicate FirstAnswer(attempts: seq<Attempt>, k: nat, per: nat) {
    && k < |attempts| && Answers(attempts, k, per)
    && forall i :: 0 <= i < k ==> !Answers(attempts, i, per)
  }

  ghost predicate NoneAnswers(attempts: seq<Attempt>, per: nat) {
    forall i :: 0 <= i < |attempts| ==> !Answers(attempts, i, per)
  }

  ghost predicate SomeOutOfTime(attempts: seq<Attempt>, per: nat) {
    exists i :: 0 <= i < |attempts| && SpentBefore(attempts, i, per) == TOTAL
  }

  ghost predicate IsOutcome(attempts: seq<Attempt>, per: nat, r: Outcome) {
    match r
    case Found(k, spent) => FirstAnswer(attempts, k, per) && spent == SpentBefore(attempts, k, per) + attempts[k].took
    case Spent(_) => NoneAnswers(attempts, per) && !SomeOutOfTime(attempts, per)
    case OutOfTime(_) => NoneAnswers(attempts, per) && SomeOutOfTime(attempts, per)
  }

  lemma {:induction false} SpentGrows(attempts: seq<Attempt>, i: nat, j: nat, per: nat)
    requires i <= j <= |attempts|
    ensures SpentBefore(attempts, i, per) <= SpentBefore(attempts, j, per)
  {
    if i < j {
      SpentGrows(attempts, i, j - 1, per);
    }
  }

  lemma SpentNext(attempts: seq<Attempt>, i: nat, per: nat)
    requires i < |attempts|
    ensures SpentBefore(attempts, i + 1, per) == SpentBefore(attempts, i, per) + Min(attempts[i].took, Cap(SpentBefore(attempts, i, per), per))
  {
  }

  lemma AnswersIff(attempts: seq<Attempt>, i: nat, per: nat)
    requires i < |attempts| && SpentBefore(attempts, i, per) < TOTAL
    ensures Answers(attempts, i, per) <==> attempts[i].answer.Some? && attempts[i].took <= Cap(SpentBefore(attempts, i, per), per)
  {
    hide SpentBefore;
  }

  lemma NoneAnswersLate(attempts: seq<Attempt>, lo: nat, per: nat)
    requires lo < |attempts| && SpentBefore(attempts, lo, per) == TOTAL
    requires forall i :: 0 <= i < lo ==> !Answers(attempts, i, per)
    ensures NoneAnswers(attempts, per) && SomeOutOfTime(attempts, per)
  {
    hide SpentBefore;
    forall i | lo <= i < |attempts| ensures !Answers(attempts, i, per) {
      SpentGrows(attempts, lo, i, per);
    }
  }

  lemma {:induction false} TryFinds(attempts: seq<Attempt>, lo: nat, per: nat)
    requires lo <= |attempts| && (forall i :: 0 <= i < lo ==> !Answers(attempts, i, per) && SpentBefore(attempts, i, per) < TOTAL)
    ensures IsOutcome(attempts, per, Try(attempts, lo, |attempts|, SpentBefore(attempts, lo, per), per))
    decreases |attempts| - lo
  {
    hide SpentBefore, Answers, Min, Cap;
    if lo < |attempts| {
      if SpentBefore(attempts, lo, per) == TOTAL {
        NoneAnswersLate(attempts, lo, per);
      } else {
        AnswersIff(attempts, lo, per);
        SpentNext(attempts, lo, per);
        if !Answers(attempts, lo, per) {
          TryFinds(attempts, lo + 1, per);
        }
      }
    }
  }

  lemma TryFindsFirst(attempts: seq<Attempt>, per: nat)
    ensures IsOutcome(attempts, per, Try(attempts, 0, |attempts|, 0, per))
  {
    hide Try, IsOutcome;
    TryFinds(attempts, 0, per);
  }

  /** A key the cache can answer for at this moment. */
  predicate Cached(c: Config, s: State, key: Key, now: nat) {
    key in s.cache && Young(c, s.cache[key], now)
  }

  /** Endpoint `k`, the first to answer in time, gave these records, which are now cached. */
  ghost predicate CameFrom(c: Config, s: State, key: Key, attempts: seq<Attempt>, now: nat, k: nat, t: State, records: Records, end: nat)
    requires |attempts| == |Endpoints(c)|
  {
    && FirstAnswer(attempts, k, c.perEndpoint)
    && records == attempts[k].answer.value
    && end == now + SpentBefore(attempts, k, c.perEndpoint) + attempts[k].took
    && t == State(s.cache[key := Entry(end, records)], Some(Endpoints(c)[k]))
  }

  /**
   A well-formed question is answered from the cache while the entry is young, otherwise by
   the first endpoint that answers in time, and fails exactly when there is none; it never
   takes longer than the total, and a failure leaves everything as it was.
   */
  lemma ResolveIs(c: Config, s: State, host: seq<byte>, rt: RecordType, now: nat, attempts: seq<Attempt>)
    requires |attempts| == |Endpoints(c)| && HostOf(host) != [] && CanAsk(rt)
    ensures
      var (t, r, end) := Resolve(c, s, host, rt, now, attempts);
      var key := Key(Lowered(HostOf(host)), rt);
      && now <= end <= now + 15_000
      && (Cached(c, s, key, now) ==> r == Ok(s.cache[key].records) && t == s && end == now)
      && (!Cached(c, s, key, now) ==>
            && (r.Ok? <==> !NoneAnswers(attempts, c.perEndpoint))
            && (r.Ok? ==> exists k: nat :: CameFrom(c, s, key, attempts, now, k, t, r.records, end))
            && (r.Err? ==> t == s && r.error == if SomeOutOfTime(attempts, c.perEndpoint) then TimedOut else AllFailed))
  {
    hide HostOf, Lowered, Answers, SpentBefore, Try;
    TryFindsFirst(attempts, c.perEndpoint);
    TryBounds(attempts, 0, |attempts|, 0, c.perEndpoint);
    var key := Key(Lowered(HostOf(host)), rt);
    var o := Try(attempts, 0, |attempts|, 0, c.perEndpoint);
    if !Cached(c, s, key, now) && o.Found? {
      var (t, r, end) := Resolve(c, s, host, rt, now, attempts);
      assert CameFrom(c, s, key, attempts, now, o.index, t, r.records, end);
    }
  }

  /** An empty name or another record type is refused before anything is asked. */
  lemma RefusedAtOnce(c: Config, s: State, host: seq<byte>, rt: RecordType, now: nat, attempts: seq<Attempt>)
    requires |attempts| == |Endpoints(c)| && (HostOf(host) == [] || !CanAsk(rt))
    ensures
      var (t, r, end) := Resolve(c, s, host, rt, now, attempts);
      t == s && end == now && r == Err(if HostOf(host) == [] then EmptyHost else WrongType)
  {
  }

  // ---- Case and trailing dots ----

  predicate AllDots(s: seq<byte>) {
    forall i | 0 <= i < |s| :: s[i] == 46
  }

  /** Tab, line feed, vertical tab, form feed, carriage return and space. */
  predicate IsBlank(b: byte) {
    b in {9, 10, 11, 12, 13, 32}
  }

  predicate AllBlank(s: seq<byte>) {
    forall i | 0 <= i < |s| :: IsBlank(s[i])
  }

  /** Starts and ends with something other than a blank, and does not end in a dot. */
  predicate IsBare(s: seq<byte>) {
    s != [] && !IsBlank(s[0]) && !IsBlank(s[|s| - 1]) && s[|s| - 1] != 46
  }

  lemma {:induction false} DotsGo(s: seq<byte>, dots: seq<byte>)
    requires IsBare(s) && AllDots(dots)
    ensures TrimDots(s + dots) == s
  {
    var t := s + dots;
    if dots == [] {
      assert t == s;
    } else {
      assert t[..|t| - 1] == s + dots[..|dots| - 1];
      DotsGo(s, dots[..|dots| - 1]);
    }
  }

  lemma {:induction false} LeftBlanksGo(left: seq<byte>, s: seq<byte>)
    requires AllBlank(left) && s != [] && !IsBlank(s[0])
    ensures TrimLeft(left + s) == s
  {
    if left == [] {
      assert left + s == s;
    } else {
      assert IsBlank(left[0]) && (left + s)[0] == left[0];
      assert (left + s)[1..] == left[1..] + s;
      LeftBlanksGo(left[1..], s);
    }
  }

  lemma {:induction false} RightBlanksGo(s: seq<byte>, right: seq<byte>)
    requires AllBlank(right) && s != [] && !IsBlank(s[|s| - 1])
    ensures TrimRight(s + right) == s
  {
    var n := |right|;
    if n == 0 {
      assert s + right == s;
    } else {
      assert IsBlank(right[n - 1]) && (s + right)[|s| + n - 1] == right[n - 1];
      assert (s + right)[..|s| + n - 1] == s + right[..n - 1];
      RightBlanksGo(s, right[..n - 1]);
    }
  }

  /** What a caller may put around a name: blanks on both sides, and dots behind it. */
  function Dressed(left: seq<byte>, s: seq<byte>, dots: seq<byte>, right: seq<byte>): seq<byte> {
    left + (s + dots + right)
  }

  ghost predicate IsDress(left: seq<byte>, dots: seq<byte>, right: seq<byte>) {
    AllBlank(left) && AllDots(dots) && AllBlank(right)
  }

  lemma HostOfDressed(left: seq<byte>, s: seq<byte>, dots: seq<byte>, right: seq<byte>)
    requires IsBare(s) && IsDress(left, dots, right)
    ensures HostOf(Dressed(left, s, dots, right)) == s
  {
    var t := s + dots;
    assert t[0] == s[0] && t[|t| - 1] == if dots == [] then s[|s| - 1] else 46;
    assert (t + right)[0] == s[0];
    LeftBlanksGo(left, t + right);
    RightBlanksGo(t, right);
    DotsGo(s, dots);
  }

  /** The same byte, or the same letter in the other case. */
  predicate SameLetter(a: byte, b: byte) {
    a == b || (65 <= a <= 90 && b == a + 32) || (65 <= b <= 90 && a == b + 32)
  }

  /**
   Two names, whatever blanks and dots are around them, share their cache entry exactly when
   they are equal up to the case of ASCII letters.
   */
  lemma SameKeyIff(s: seq<byte>, t: seq<byte>, left1: seq<byte>, dots1: seq<byte>, right1: seq<byte>,
                   left2: seq<byte>, dots2: seq<byte>, right2: seq<byte>, rt: RecordType)
    requires IsBare(s) && IsBare(t) && IsDress(left1, dots1, right1) && IsDress(left2, dots2, right2)
    ensures Key(Lowered(HostOf(Dressed(left1, s, dots1, right1))), rt) == Key(Lowered(HostOf(Dressed(left2, t, dots2, right2))), rt)
            <==> |s| == |t| && forall i :: 0 <= i < |s| ==> SameLetter(s[i], t[i])
  {
    hide HostOf;
    HostOfDressed(left1, s, dots1, right1);
    HostOfDressed(left2, t, dots2, right2);
    LoweredIff(s, t);
  }

  lemma LoweredIff(s: seq<byte>, t: seq<byte>)
    ensures Lowered(s) == Lowered(t) <==> |s| == |t| && forall i :: 0 <= i < |s| ==> SameLetter(s[i], t[i])
  {
    if |s| == |t| {
      forall i | 0 <= i < |s| ensures Lowered(s)[i] == Lowered(t)[i] <==> SameLetter(s[i], t[i]) {
        LowerIff(s[i], t[i]);
      }
    }
  }

  lemma LowerIff(a: byte, b: byte)
    ensures Lower(a) == Lower(b) <==> SameLetter(a, b)
  {
  }

  // ---- Runs ----

  datatype Call = Call(host: seq<byte>, rt: RecordType, now: nat, attempts: seq<Attempt>)

  function Fresh(): State {
    State(map[], None)
  }

  ghost predicate Posed(c: Config, calls: seq<Call>) {
    forall k :: 0 <= k < |calls| ==> |calls[k].attempts| == |Endpoints(c)|
  }

  function Run(c: Config, calls: seq<Call>): State
    requires Posed(c, calls)
  {
    if calls == [] then Fresh()
    else
      var (init, q) := (calls[..|calls| - 1], calls[|calls| - 1]);
      Resolve(c, Run(c, init), q.host, q.rt, q.now, q.attempts).0
  }

  /** The call that asked for `key` and got these records from its first answering endpoint at that moment. */
  ghost predicate Source(c: Config, q: Call, key: Key, e: Entry) {
    && CanAsk(q.rt) && HostOf(q.host) != [] && key == Key(Lowered(HostOf(q.host)), q.rt)
    && exists k: nat :: FirstAnswer(q.attempts, k, c.perEndpoint)
         && e == Entry(q.now + SpentBefore(q.attempts, k, c.perEndpoint) + q.attempts[k].took, q.attempts[k].answer.value)
  }

  /** Everything in the cache came from an endpoint, in answer to that very question. */
  lemma {:induction false} CacheIsHonest(c: Config, calls: seq<Call>, key: Key)
    requires Posed(c, calls) && key in Run(c, calls).cache
    ensures exists n :: 0 <= n < |calls| && Source(c, calls[n], key, Run(c, calls).cache[key])
  {
    hide Resolve, Source, Posed;
    var init, q := calls[..|calls| - 1], calls[|calls| - 1];
    PrefixIsPosed(c, calls);
    var s := Run(c, init);
    CallAdds(c, s, q, key);
    if key in s.cache && Run(c, calls).cache[key] == s.cache[key] {
      CacheIsHonest(c, init, key);
      var n :| 0 <= n < |init| && Source(c, init[n], key, s.cache[key]);
      assert calls[n] == init[n];
    } else {
      assert calls[|calls| - 1] == q;
    }
  }

  lemma PrefixIsPosed(c: Config, calls: seq<Call>)
    requires Posed(c, calls) && calls != []
    ensures Posed(c, calls[..|calls| - 1]) && |calls[|calls| - 1].attempts| == |Endpoints(c)|
  {
  }

  lemma CallAdds(c: Config, s: State, q: Call, key: Key)
    requires |q.attempts| == |Endpoints(c)|
    ensures
      var t := Resolve(c, s, q.host, q.rt, q.now, q.attempts).0;
      key in t.cache ==> (key in s.cache && t.cache[key] == s.cache[key]) || Source(c, q, key, t.cache[key])
  {
    hide HostOf, Lowered, Answers, SpentBefore, Try;
    TryFindsFirst(q.attempts, c.perEndpoint);
    TryBounds(q.attempts, 0, |q.attempts|, 0, c.perEndpoint);
  }

  // ---- How old an answer can be ----

  function AskedKey(q: Call): Option<Key> {
    if HostOf(q.host) == [] || !CanAsk(q.rt) then None else Some(Key(Lowered(HostOf(q.host)), q.rt))
  }

  /** What the endpoints answer to this call when they are asked, and when. */
  ghost function AnswerTo(c: Config, q: Call): Option<Entry> {
    if k: nat :| FirstAnswer(q.attempts, k, c.perEndpoint)
    then Some(Entry(q.now + SpentBefore(q.attempts, k, c.perEndpoint) + q.attempts[k].took, q.attempts[k].answer.value))
    else None
  }

  /**
   The last answer an endpoint gave for `key`: the endpoints are asked only when there has
   been none within the last `c.ttl` milliseconds, and a failure gives none.
   */
  ghost function LastAnswer(c: Config, calls: seq<Call>, key: Key): Option<Entry> {
    if calls == [] then None
    else
      var (before, q) := (LastAnswer(c, calls[..|calls| - 1], key), calls[|calls| - 1]);
      if AskedKey(q) != Some(key) || (before.Some? && q.now < before.value.at + c.ttl) || AnswerTo(c, q).None? then before
      else AnswerTo(c, q)
  }

  function EndOf(c: Config, calls: seq<Call>): nat
    requires Posed(c, calls)
  {
    if calls == [] then 0
    else
      var (init, q) := (calls[..|calls| - 1], calls[|calls| - 1]);
      Resolve(c, Run(c, init), q.host, q.rt, q.now, q.attempts).2
  }

  /** Each call begins after the one before has ended. */
  ghost predicate InTime(c: Config, calls: seq<Call>)
    requires Posed(c, calls)
  {
    calls == [] || (InTime(c, calls[..|calls| - 1]) && EndOf(c, calls[..|calls| - 1]) <= calls[|calls| - 1].now)
  }

  lemma AnswerIs(c: Config, q: Call)
    ensures AnswerTo(c, q).None? <==> NoneAnswers(q.attempts, c.perEndpoint)
    ensures forall k: nat :: FirstAnswer(q.attempts, k, c.perEndpoint) ==>
              AnswerTo(c, q) == Some(Entry(q.now + SpentBefore(q.attempts, k, c.perEndpoint) + q.attempts[k].took, q.attempts[k].answer.value))
  {
    hide Answers, SpentBefore;
    TryFindsFirst(q.attempts, c.perEndpoint);
  }

  /** One call, when the cache holds the last answer for its key and the clock does not go back. */
  lemma OneCall(c: Config, s: State, q: Call, key: Key, before: Option<Entry>)
    requires |q.attempts| == |Endpoints(c)| && AskedKey(q) == Some(key)
    requires before == (if key in s.cache then Some(s.cache[key]) else None) && (before.Some? ==> before.value.at <= q.now)
    ensures
      var (t, r, end) := Resolve(c, s, q.host, q.rt, q.now, q.attempts);
      if before.Some? && q.now < before.value.at + c.ttl
      then t == s && r == Ok(before.value.records) && end == q.now
      else
        && (AnswerTo(c, q).Some? ==> r == Ok(AnswerTo(c, q).value.records) && end == AnswerTo(c, q).value.at
                                     && t.cache == s.cache[key := AnswerTo(c, q).value])
        && (AnswerTo(c, q).None? ==> r.Err? && t == s)
        && q.now <= end
  {
    hide HostOf, Lowered, Resolve, FirstAnswer, NoneAnswers, Answers, SpentBefore, AnswerTo;
    ResolveIs(c, s, q.host, q.rt, q.now, q.attempts);
    AnswerIs(c, q);
    assert Resolve(c, s, q.host, q.rt, q.now, q.attempts).1.Ok? || Resolve(c, s, q.host, q.rt, q.now, q.attempts).1.Err?;
    assert Cached(c, s, key, q.now) <==> before.Some? && q.now < before.value.at + c.ttl;
    if !Cached(c, s, key, q.now) && AnswerTo(c, q).Some? {
      var (t, r, end) := Resolve(c, s, q.host, q.rt, q.now, q.attempts);
      assert r.Ok?;
      var k: nat :| CameFrom(c, s, key, q.attempts, q.now, k, t, r.records, end);
      assert FirstAnswer(q.attempts, k, c.perEndpoint);
      assert AnswerTo(c, q) == Some(Entry(end, r.records));
    }
  }

  lemma OtherKeysStay(c: Config, s: State, q: Call, key: Key)
    requires |q.attempts| == |Endpoints(c)| && AskedKey(q) != Some(key)
    ensures
      var (t, r, end) := Resolve(c, s, q.host, q.rt, q.now, q.attempts);
      (key in t.cache <==> key in s.cache) && (key in s.cache ==> t.cache[key] == s.cache[key]) && q.now <= end
  {
    hide HostOf, Lowered, Try;
    TryBounds(q.attempts, 0, |q.attempts|, 0, c.perEndpoint);
  }

  /** After any run the cache holds exactly the last answer for each key, none from the future. */
  lemma {:induction false} CacheIsLastAnswer(c: Config, calls: seq<Call>, key: Key)
    requires Posed(c, calls) && InTime(c, calls)
    ensures
      var s := Run(c, calls);
      && LastAnswer(c, calls, key) == (if key in s.cache then Some(s.cache[key]) else None)
      && (key in s.cache ==> s.cache[key].at <= EndOf(c, calls))
  {
    hide Resolve, AskedKey, AnswerTo, Posed;
    if calls != [] {
      var init, q := calls[..|calls| - 1], calls[|calls| - 1];
      PrefixIsPosed(c, calls);
      CacheIsLastAnswer(c, init, key);
      if AskedKey(q) == Some(key) {
        OneCall(c, Run(c, init), q, key, LastAnswer(c, init, key));
      } else {
        OtherKeysStay(c, Run(c, init), q, key);
      }
    }
  }

  /**
   After any run with a clock that does not go back: a question is answered at once, and the
   same as last time, exactly while an endpoint has answered it less than `c.ttl` milliseconds
   before; otherwise the endpoints are asked, and only they can answer.
   */
  lemma OldAnswersAreNotGiven(c: Config, calls: seq<Call>, q: Call, key: Key)
    requires Posed(c, calls) && InTime(c, calls) && EndOf(c, calls) <= q.now
    requires |q.attempts| == |Endpoints(c)| && AskedKey(q) == Some(key)
    ensures
      var (before, s) := (LastAnswer(c, calls, key), Run(c, calls));
      var (t, r, end) := Resolve(c, s, q.host, q.rt, q.now, q.attempts);
      if before.Some? && q.now - before.value.at < c.ttl
      then r == Ok(before.value.records) && end == q.now && t == s
      else if AnswerTo(c, q).Some? then r == Ok(AnswerTo(c, q).value.records) && end == AnswerTo(c, q).value.at
      else r.Err? && t == s
  {
    hide Resolve, AskedKey, AnswerTo, Posed, Run, EndOf, InTime, LastAnswer;
    CacheIsLastAnswer(c, calls, key);
    OneCall(c, Run(c, calls), q, key, LastAnswer(c, calls, key));
  }
}
