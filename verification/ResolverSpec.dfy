/**
 The endpoint loop and the cache of dns/src/secure_resolver.rs, times in milliseconds. What
 each endpoint would answer, and after how long, is an input; DoH endpoints come before DoT.
 */
module ResolverSpec {
  import opened Bytes
  import opened Numbers
  import opened DnsName
  import DnsMessage

  type RecordType = DnsMessage.RecordType

  type Records = seq<DnsMessage.Record>

  datatype Key = Key(host: seq<byte>, rt: RecordType)

  datatype Entry = Entry(at: nat, records: Records)

  datatype Error = EmptyHost | WrongType | TimedOut | AllFailed

  datatype Result = Ok(records: Records) | Err(error: Error)

  /** What an endpoint does when it is asked: fails or answers after `took`. */
  datatype Attempt = Attempt(took: nat, answer: Option<Records>)

  datatype Config = Config(doh: seq<seq<byte>>, dot: seq<seq<byte>>, perEndpoint: nat, ttl: nat)

  datatype State = State(cache: map<Key, Entry>, lastEndpoint: Option<seq<byte>>)

  const TOTAL := 15_000

  // ---- Keys ----

  predicate IsSpace(b: byte) {
    b == 32 || 9 <= b <= 13
  }

  function TrimLeft(s: seq<byte>): seq<byte> {
    if s != [] && IsSpace(s[0]) then TrimLeft(s[1..]) else s
  }

  function TrimRight(s: seq<byte>): seq<byte> {
    if s != [] && IsSpace(s[|s| - 1]) then TrimRight(s[..|s| - 1]) else s
  }

  function HostOf(s: seq<byte>): seq<byte> {
    TrimDots(TrimRight(TrimLeft(s)))
  }

  function Lower(b: byte): byte {
    if 65 <= b <= 90 then b + 32 else b
  }

  function Lowered(s: seq<byte>): seq<byte> {
    seq(|s|, i requires 0 <= i < |s| => Lower(s[i]))
  }

  // ---- The endpoint loop ----

  datatype Outcome = Found(index: nat, spent: nat) | Spent(spent: nat) | OutOfTime(spent: nat)

  function Remaining(spent: nat): nat {
    if spent < TOTAL then TOTAL - spent else 0
  }

  function Cap(spent: nat, per: nat): nat {
    Min(Remaining(spent), per)
  }

  /** Endpoints `lo..hi` in order, after `spent` milliseconds. */
  function Try(attempts: seq<Attempt>, lo: nat, hi: nat, spent: nat, per: nat): Outcome
    requires lo <= hi <= |attempts|
    decreases hi - lo
  {
    if lo == hi then Spent(spent)
    else if Remaining(spent) == 0 then OutOfTime(spent)
    else
      var (a, cap) := (attempts[lo], Cap(spent, per));
      if a.took <= cap && a.answer.Some? then Found(lo, spent + a.took)
      else Try(attempts, lo + 1, hi, spent + Min(a.took, cap), per)
  }

  // ---- One call ----

  /** A, AAAA, SRV and TXT. */
  predicate CanAsk(rt: RecordType) {
    DnsMessage.TypeNumber(rt).Some?
  }

  predicate Young(c: Config, e: Entry, now: nat) {
    e.at <= now && now - e.at < c.ttl
  }

  function Endpoints(c: Config): seq<seq<byte>> {
    c.doh + c.dot
  }

  /** The new state, the result and the moment at which it is there. */
  function Resolve(c: Config, s: State, host: seq<byte>, rt: RecordType, now: nat, attempts: seq<Attempt>): (State, Result, nat)
    requires |attempts| == |Endpoints(c)|
  {
    var h := HostOf(host);
    if h == [] then (s, Err(EmptyHost), now)
    else if !CanAsk(rt) then (s, Err(WrongType), now)
    else
      var key := Key(Lowered(h), rt);
      if key in s.cache && Young(c, s.cache[key], now) then (s, Ok(s.cache[key].records), now)
      else
        TryBounds(attempts, 0, |attempts|, 0, c.perEndpoint);
        match Try(attempts, 0, |attempts|, 0, c.perEndpoint)
        case Found(k, spent) =>
          var records := attempts[k].answer.value;
          (State(s.cache[key := Entry(now + spent, records)], Some(Endpoints(c)[k])), Ok(records), now + spent)
        case Spent(spent) => (s, Err(AllFailed), now + spent)
        case OutOfTime(spent) => (s, Err(TimedOut), now + spent)
  }

  /** What is found is an answer, and no time is spent beyond the total. */
  lemma {:induction false} TryBounds(attempts: seq<Attempt>, lo: nat, hi: nat, spent: nat, per: nat)
    requires lo <= hi <= |attempts| && spent <= TOTAL
    ensures
      var r := Try(attempts, lo, hi, spent, per);
      && spent <= r.spent <= TOTAL
      && (r.Found? ==> lo <= r.index < hi && attempts[r.index].answer.Some?)
    decreases hi - lo
  {
    if lo < hi && Remaining(spent) > 0 {
      var (a, cap) := (attempts[lo], Cap(spent, per));
      if !(a.took <= cap && a.answer.Some?) {
        TryBounds(attempts, lo + 1, hi, spent + Min(a.took, cap), per);
      }
    }
  }
}
