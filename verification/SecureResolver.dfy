/**
 The resolver object of dns/src/secure_resolver.rs: cache, last endpoint and the two loops
 over the DoH and the DoT endpoints.
 */
module SecureResolver {
  import opened Bytes
  import opened Numbers
  import opened DnsName
  import opened ResolverSpec

  class Resolver {
    const c: Config
    var cache: map<Key, Entry>
    var lastEndpoint: Option<seq<byte>>

    ghost function Value(): State
      reads this
    {
      State(cache, lastEndpoint)
    }

    constructor (c: Config)
      ensures this.c == c && Value() == State(map[], None)
    {
      this.c, cache, lastEndpoint := c, map[], None;
    }

    method ResolveHost(host: seq<byte>, rt: RecordType, now: nat, attempts: seq<Attempt>) returns (r: Result, end: nat)
      requires |attempts| == |Endpoints(c)|
      modifies this
      ensures (Value(), r, end) == Resolve(c, old(Value()), host, rt, now, attempts)
    {
      hide HostOf, Lowered, Try;
      var h := HostOf(host);
      if h == [] {
        return Err(EmptyHost), now;
      }
      if !CanAsk(rt) {
        return Err(WrongType), now;
      }
      var key := Key(Lowered(h), rt);
      if key in cache && Young(c, cache[key], now) {
        return Ok(cache[key].records), now;
      }
      TryBounds(attempts, 0, |attempts|, 0, c.perEndpoint);
      var o := TryEndpoints(attempts);
      match o {
        case Found(k, spent) =>
          end := now + spent;
          r := CacheSuccess(key, attempts[k].answer.value, (c.doh + c.dot)[k], end);
        case Spent(spent) => r, end := Err(AllFailed), now + spent;
        case OutOfTime(spent) => r, end := Err(TimedOut), now + spent;
      }
    }

    /** DoH first; DoT only when every DoH endpoint failed. */
    method TryEndpoints(attempts: seq<Attempt>) returns (o: Outcome)
      requires |attempts| == |Endpoints(c)|
      ensures o == Try(attempts, 0, |attempts|, 0, c.perEndpoint)
    {
      hide Try;
      var n := |c.doh|;
      o := TryList(attempts, 0, n, 0);
      TryInTwo(attempts, 0, n, |attempts|, 0, c.perEndpoint);
      if o.Spent? {
        o := TryList(attempts, n, |attempts|, o.spent);
      }
    }

    method TryList(attempts: seq<Attempt>, lo: nat, hi: nat, start: nat) returns (o: Outcome)
      requires lo <= hi <= |attempts|
      ensures o == Try(attempts, lo, hi, start, c.perEndpoint)
    {
      var i: nat, spent: nat := lo, start;
      while i < hi
        invariant lo <= i <= hi
        invariant Try(attempts, lo, hi, start, c.perEndpoint) == Try(attempts, i, hi, spent, c.perEndpoint)
      {
        var remaining := if spent < TOTAL then TOTAL - spent else 0;
        if remaining == 0 {
          return OutOfTime(spent);
        }
        var cap := Min(remaining, c.perEndpoint);
        var a := attempts[i];
        if a.took <= cap && a.answer.Some? {
          return Found(i, spent + a.took);
        }
        spent := spent + Min(a.took, cap);
        i := i + 1;
      }
      o := Spent(spent);
    }

    method CacheSuccess(key: Key, records: Records, endpoint: seq<byte>, at: nat) returns (r: Result)
      modifies this
      ensures cache == old(cache)[key := Entry(at, records)] && lastEndpoint == Some(endpoint) && r == Ok(records)
    {
      lastEndpoint := Some(endpoint);
      cache := cache[key := Entry(at, records)];
      r := Ok(records);
    }
  }

  /** One list after the other is the same as the two as one list. */
  lemma {:induction false} TryInTwo(attempts: seq<Attempt>, lo: nat, mid: nat, hi: nat, spent: nat, per: nat)
    requires lo <= mid <= hi <= |attempts|
    ensures
      var first := Try(attempts, lo, mid, spent, per);
      Try(attempts, lo, hi, spent, per) == if first.Spent? then Try(attempts, mid, hi, first.spent, per) else first
    decreases mid - lo
  {
    if lo < mid && Remaining(spent) > 0 {
      var (a, cap) := (attempts[lo], Cap(spent, per));
      if !(a.took <= cap && a.answer.Some?) {
        TryInTwo(attempts, lo + 1, mid, hi, spent + Min(a.took, cap), per);
      }
    }
  }
}
