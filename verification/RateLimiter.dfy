/** The admin listener's rate limiter: a token bucket for each address and a fixed window for all of them. */
module RateLimiter {
  const MAX_CLIENTS := 10_000
  const GLOBAL_RPM := 120
  const STALE := 300.0
  const MINUTE := 60.0

  datatype Bucket = Bucket(tokens: real, lastCheck: real)

  /** rpm is the number of requests that an address may make in a minute; times are in seconds. */
  datatype State = State(rpm: nat, buckets: map<string, Bucket>, globalCount: int, globalReset: real)

  function MinReal(a: real, b: real): real { if a <= b then a else b }

  /** Tokens gained in a stretch of time. */
  function Gain(rpm: nat, elapsed: real): real { elapsed * (rpm as real) / 60.0 }

  function Refilled(rpm: nat, b: Bucket, now: real): real {
    MinReal(b.tokens + Gain(rpm, now - b.lastCheck), rpm as real)
  }

  /** The tokens an address has at a time; one without a bucket has all of them. */
  function Level(s: State, ip: string, now: real): real {
    if ip in s.buckets then Refilled(s.rpm, s.buckets[ip], now) else s.rpm as real
  }

  function Fresh(buckets: map<string, Bucket>, now: real): map<string, Bucket> {
    map ip | ip in buckets && !(buckets[ip].lastCheck < now - STALE) :: buckets[ip]
  }

  ghost predicate BucketsValid(s: State, now: real) {
    forall ip :: ip in s.buckets ==>
      0.0 <= s.buckets[ip].tokens <= s.rpm as real && s.buckets[ip].lastCheck <= now
  }

  /** What every call keeps, with now the time of the last call. */
  ghost predicate Valid(s: State, now: real) {
    && 0 <= s.globalCount <= GLOBAL_RPM
    && |s.buckets| <= MAX_CLIENTS
    && BucketsValid(s, now)
  }

  predicate Crowded(s: State, ip: string) {
    ip !in s.buckets && |s.buckets| >= MAX_CLIENTS
  }

  /** The global window after the clock has been looked at. */
  function Window(s: State, now: real): (int, real) {
    if now > s.globalReset then (0, now + MINUTE) else (s.globalCount, s.globalReset)
  }

  /** One request: the state after it and whether it is admitted. */
  function Call(s: State, ip: string, now: real): (State, bool) {
    if Crowded(s, ip) then (s, false)
    else
      var (count, reset) := Window(s, now);
      if count >= GLOBAL_RPM then (State(s.rpm, s.buckets, count, reset), false)
      else
        var tokens := Level(s, ip, now);
        if tokens < 1.0 then (State(s.rpm, s.buckets[ip := Bucket(tokens, now)], count, reset), false)
        else
          var buckets := s.buckets[ip := Bucket(tokens - 1.0, now)];
          (State(s.rpm, if (count + 1) % 100 == 0 then Fresh(buckets, now) else buckets, count + 1, reset), true)
  }

  class Limiter {
    const rpm: nat
    var buckets: map<string, Bucket>
    var globalCount: int
    var globalReset: real

    function View(): State
      reads this
    {
      State(rpm, buckets, globalCount, globalReset)
    }

    constructor (rpm: nat, start: real)
      ensures View() == State(rpm, map[], 0, start) && Valid(View(), start)
    {
      this.rpm, buckets, globalCount, globalReset := rpm, map[], 0, start;
    }

    method Allow(ip: string, now: real) returns (admitted: bool)
      modifies this
      ensures (View(), admitted) == Call(old(View()), ip, now)
    {
      if ip !in buckets && |buckets| >= MAX_CLIENTS {
        return false;
      }
      if now > globalReset {
        globalCount := 0;
        globalReset := now + MINUTE;
      }
      if globalCount >= GLOBAL_RPM {
        return false;
      }
      var b := if ip in buckets then buckets[ip] else Bucket(rpm as real, now);
      var elapsed := now - b.lastCheck;
      var tokens := b.tokens + Gain(rpm, elapsed);
      assert ip !in buckets ==> elapsed == 0.0 && Gain(rpm, elapsed) == 0.0;
      if tokens > rpm as real {
        tokens := rpm as real;
      }
      if tokens < 1.0 {
        buckets := buckets[ip := Bucket(tokens, now)];
        return false;
      }
      buckets := buckets[ip := Bucket(tokens - 1.0, now)];
      globalCount := globalCount + 1;
      if globalCount % 100 == 0 {
        Cleanup(now);
      }
      return true;
    }

    method Cleanup(now: real)
      modifies this`buckets
      ensures buckets == Fresh(old(buckets), now)
    {
      var staleThreshold := now - STALE;
      var left := buckets.Keys;
      while left != {}
        invariant left <= old(buckets).Keys
        invariant forall ip :: ip in left ==> ip in buckets
        invariant forall ip :: ip in buckets ==> ip in old(buckets) && buckets[ip] == old(buckets)[ip]
        invariant forall ip :: ip in old(buckets) && ip !in left ==>
          (ip in buckets <==> !(old(buckets)[ip].lastCheck < staleThreshold))
        decreases |left|
      {
        var ip :| ip in left;
        if buckets[ip].lastCheck < staleThreshold {
          buckets := buckets - {ip};
        }
        left := left - {ip};
      }
    }
  }
}
